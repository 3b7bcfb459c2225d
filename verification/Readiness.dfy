/**
 Waiting for the server: probes inside a time budget, each probe a retry loop of its own.
 Time is exact; a sleep lasts as long as asked.  The network is a script: the i-th HTTP try made takes
 `script(i).duration` and ends as `script(i).result`.
 */
module Readiness {
  import opened Wrappers

  /** `Crash` stands for an exception neither retry loop catches. */
  datatype TryResult = Choices | NoChoices | Refused | Crash

  datatype Try = Try(duration: real, result: TryResult)

  datatype PostOutcome = Reply(hasChoices: bool) | GaveUp | PostCrashed

  datatype PostEnd = PostEnd(outcome: PostOutcome, clock: real, tries: nat)

  function Min(a: real, b: real): real {
    if b < a then b else a
  }

  /** Pause after a failed try, before the next one. */
  function Pause(attempt: int): real {
    Min(2.0 * attempt as real, 10.0)
  }

  // ----- one request with retries

  function Post(script: nat -> Try, retries: int, attempt: int, clock: real, tries: nat): PostEnd
    decreases retries - attempt
  {
    if attempt > retries then PostEnd(GaveUp, clock, tries)
    else
      var after := clock + script(tries).duration;
      match script(tries).result
      case Choices => PostEnd(Reply(true), after, tries + 1)
      case NoChoices => PostEnd(Reply(false), after, tries + 1)
      case Crash => PostEnd(PostCrashed, after, tries + 1)
      case Refused =>
        Post(script, retries, attempt + 1, if attempt < retries then after + Pause(attempt) else after, tries + 1)
  }

  method PostOnce(script: nat -> Try, retries: int, clock0: real, tries0: nat) returns (end: PostEnd)
    ensures end == Post(script, retries, 1, clock0, tries0)
  {
    var clock, tries := clock0, tries0;
    var attempt := 1;
    while attempt <= retries
      invariant Post(script, retries, 1, clock0, tries0) == Post(script, retries, attempt, clock, tries)
      decreases retries - attempt
    {
      var t := script(tries);
      clock, tries := clock + t.duration, tries + 1;
      match t.result {
        case Choices => return PostEnd(Reply(true), clock, tries);
        case NoChoices => return PostEnd(Reply(false), clock, tries);
        case Crash => return PostEnd(PostCrashed, clock, tries);
        case Refused =>
      }
      if attempt < retries {
        clock := clock + Pause(attempt);
      }
      attempt := attempt + 1;
    }
    return PostEnd(GaveUp, clock, tries);
  }

  // ----- polling

  datatype Config = Config(budget: real, interval: real, limit: int, retries: int)

  const DEFAULT_BUDGET := 600.0
  const MIN_POLL_INTERVAL := 0.001

  /** The number of probes: given, or as many intervals as fit the budget, at least one. */
  function ProbeLimit(attempts: Option<int>, interval: real, budget: real): int {
    if attempts.Some? then attempts.value
    else
      var step := if interval < MIN_POLL_INTERVAL then MIN_POLL_INTERVAL else interval;
      var fits := (budget / step).Floor;
      if fits < 1 then 1 else fits
  }

  /** `NoAttempt` and `BadSleep` are the run-time errors of a limit below one and of a negative pause. */
  datatype Verdict = Ready | NotReady | Crashed | NoAttempt | BadSleep

  datatype PollEnd = PollEnd(verdict: Verdict, clock: real, probes: nat, tries: nat)

  function Poll(script: nat -> Try, cfg: Config, attempt: int, started: real, clock: real, probes: nat, tries: nat): PollEnd
    decreases cfg.limit - attempt
  {
    if attempt > cfg.limit then PollEnd(NoAttempt, clock, probes, tries)
    else
      var post := Post(script, cfg.retries, 1, clock, tries);
      if post.outcome == Reply(true) then PollEnd(Ready, post.clock, probes + 1, post.tries)
      else if post.outcome.PostCrashed? then PollEnd(Crashed, post.clock, probes + 1, post.tries)
      else if attempt >= cfg.limit then PollEnd(NotReady, post.clock, probes + 1, post.tries)
      else
        var remaining := cfg.budget - (post.clock - started);
        if remaining <= 0.0 then PollEnd(NotReady, post.clock, probes + 1, post.tries)
        else if Min(cfg.interval, remaining) < 0.0 then PollEnd(BadSleep, post.clock, probes + 1, post.tries)
        else Poll(script, cfg, attempt + 1, started, post.clock + Min(cfg.interval, remaining), probes + 1, post.tries)
  }

  method WaitUntilReady(script: nat -> Try, cfg: Config, started: real) returns (end: PollEnd)
    ensures end == Poll(script, cfg, 1, started, started, 0, 0)
  {
    var clock, probes: nat, tries: nat := started, 0, 0;
    var attempt := 1;
    while attempt <= cfg.limit
      invariant Poll(script, cfg, 1, started, started, 0, 0) == Poll(script, cfg, attempt, started, clock, probes, tries)
      decreases cfg.limit - attempt
    {
      var post := PostOnce(script, cfg.retries, clock, tries);
      clock, tries, probes := post.clock, post.tries, probes + 1;
      if post.outcome == Reply(true) {
        return PollEnd(Ready, clock, probes, tries);
      }
      if post.outcome.PostCrashed? {
        return PollEnd(Crashed, clock, probes, tries);
      }
      if attempt >= cfg.limit {
        return PollEnd(NotReady, clock, probes, tries);
      }
      var remaining := cfg.budget - (clock - started);
      if remaining <= 0.0 {
        return PollEnd(NotReady, clock, probes, tries);
      }
      if Min(cfg.interval, remaining) < 0.0 {
        return PollEnd(BadSleep, clock, probes, tries);
      }
      clock := clock + Min(cfg.interval, remaining);
      attempt := attempt + 1;
    }
    return PollEnd(NoAttempt, clock, probes, tries);
  }

  // ----- the time bound

  ghost predicate Timed(script: nat -> Try, timeout: real) {
    forall i: nat :: 0.0 <= script(i).duration <= timeout
  }

  /** Sum of the pauses of a request whose `retries` tries all fail: min(2i, 10) for 0 < i < retries. */
  function Backoff(retries: nat): (b: real)
    ensures b >= 0.0
  {
    if retries <= 1 then 0.0 else Backoff(retries - 1) + Pause(retries - 1)
  }

  /** `n` tries of `duration` each. */
  function TriesTime(n: nat, duration: real): real {
    if n == 0 then 0.0 else duration + TriesTime(n - 1, duration)
  }

  /** The time of the tries is a product. */
  lemma {:induction false} TriesTimeIsProduct(n: nat, count: real, duration: real, product: real)
    requires count == n as real && product == count * duration
    ensures TriesTime(n, duration) == product
  {
    if n > 0 {
      TriesTimeIsProduct(n - 1, count - 1.0, duration, product - duration);
    }
  }

  lemma {:induction false} TriesTakeTime(n: nat, duration: real)
    requires duration >= 0.0
    ensures TriesTime(n, duration) >= 0.0
  {
    if n > 0 {
      TriesTakeTime(n - 1, duration);
    }
  }

  function ProbeCost(retries: int, timeout: real): real {
    if retries <= 0 then 0.0 else TriesTime(retries, timeout) + Backoff(retries)
  }

  lemma {:induction false} PostIsBounded(script: nat -> Try, retries: int, attempt: int, clock: real, tries: nat, timeout: real)
    requires Timed(script, timeout) && 1 <= attempt
    ensures var end := Post(script, retries, attempt, clock, tries);
            && clock <= end.clock
            && (attempt > retries ==> end.clock == clock && end.tries == tries)
            && (attempt <= retries ==>
                  && end.clock <= clock + TriesTime(retries - attempt + 1, timeout) + Backoff(retries) - Backoff(attempt)
                  && tries < end.tries <= tries + (retries - attempt + 1))
    decreases retries - attempt
  {
    if attempt <= retries && script(tries).result.Refused? {
      var after := clock + script(tries).duration;
      PostIsBounded(script, retries, attempt + 1, if attempt < retries then after + Pause(attempt) else after, tries + 1, timeout);
      if attempt < retries {
        assert Backoff(attempt + 1) == Backoff(attempt) + Pause(attempt);
      }
    } else if attempt <= retries {
      BackoffGrows(attempt, retries);
      assert script(tries).duration <= timeout;
      TriesTakeTime(retries - attempt, timeout);
    }
  }

  lemma {:induction false} BackoffGrows(a: nat, b: nat)
    requires 1 <= a <= b
    ensures Backoff(a) <= Backoff(b)
    decreases b
  {
    if a < b {
      BackoffGrows(a, b - 1);
    }
  }

  lemma {:induction false} ProbeIsBounded(script: nat -> Try, retries: int, clock: real, tries: nat, timeout: real)
    requires Timed(script, timeout)
    ensures var end := Post(script, retries, 1, clock, tries);
            && clock <= end.clock <= clock + ProbeCost(retries, timeout)
            && tries <= end.tries <= tries + if retries <= 0 then 0 else retries
  {
    PostIsBounded(script, retries, 1, clock, tries, timeout);
    assert 0.0 <= script(0).duration <= timeout;
  }

  function Positive(x: real): real {
    if x < 0.0 then 0.0 else x
  }

  /** Polling from any point inside the budget ends within the budget plus one probe, after at most `limit` probes. */
  lemma {:induction false} PollIsBounded(script: nat -> Try, cfg: Config, attempt: int, started: real, clock: real, probes: nat, tries: nat,
                                         timeout: real)
    requires Timed(script, timeout) && 1 <= attempt
    requires started <= clock <= started + Positive(cfg.budget)
    ensures var end := Poll(script, cfg, attempt, started, clock, probes, tries);
            && clock <= end.clock <= started + Positive(cfg.budget) + ProbeCost(cfg.retries, timeout)
            && probes <= end.probes <= probes + if attempt > cfg.limit then 0 else cfg.limit - attempt + 1
    decreases cfg.limit - attempt
  {
    ProbeIsBounded(script, cfg.retries, clock, tries, timeout);
    var post := Post(script, cfg.retries, 1, clock, tries);
    var remaining := cfg.budget - (post.clock - started);
    if attempt < cfg.limit && (post.outcome.GaveUp? || post.outcome == Reply(false))
       && remaining > 0.0 && Min(cfg.interval, remaining) >= 0.0 {
      PollIsBounded(script, cfg, attempt + 1, started, post.clock + Min(cfg.interval, remaining), probes + 1, post.tries, timeout);
    }
  }

  /** The hard bound: with tries of at most `timeout`, waiting ends by the budget plus the cost of one probe. */
  lemma {:induction false} WaitingIsBounded(script: nat -> Try, cfg: Config, started: real, timeout: real)
    requires Timed(script, timeout)
    ensures var end := Poll(script, cfg, 1, started, started, 0, 0);
            && started <= end.clock <= started + Positive(cfg.budget) + ProbeCost(cfg.retries, timeout)
            && end.probes <= (if cfg.limit < 1 then 0 else cfg.limit)
  {
    PollIsBounded(script, cfg, 1, started, started, 0, 0, timeout);
  }

  /** A given number of probes is taken as it is; otherwise the last one whose intervals still fit the budget, or one. */
  lemma {:induction false} LimitInNumbers(given: int, interval: real, budget: real)
    ensures ProbeLimit(Some(given), interval, budget) == given
    ensures var n, step := ProbeLimit(None, interval, budget), if interval > 0.001 then interval else 0.001;
            if budget < step then n == 1 else n >= 1 && TriesTime(n, step) <= budget < TriesTime(n + 1, step)
  {
    var step := if interval > 0.001 then interval else 0.001;
    var share := budget / step;
    RoundsFit(1, step, budget);
    assert TriesTime(1, step) == step + TriesTime(0, step);
    if share >= 1.0 {
      RoundsFit(share.Floor, step, budget);
      RoundsFit(share.Floor + 1, step, budget);
    }
  }

  lemma {:induction false} RoundsFit(n: nat, step: real, budget: real)
    requires step > 0.0
    ensures TriesTime(n, step) <= budget <==> n as real <= budget / step
  {
    var share := budget / step;
    assert step * share == budget;
    TriesTimeIsProduct(n, n as real, step, n as real * step);
    ScalingKeepsOrder(step, share, n as real);
  }

  const DEFAULT_CONFIG := Config(DEFAULT_BUDGET, 10.0, ProbeLimit(None, 10.0, DEFAULT_BUDGET), 3)

  lemma {:induction false} DefaultLimit()
    ensures DEFAULT_CONFIG.limit == 60
  {
    assert DEFAULT_BUDGET / 10.0 == 60.0;
  }

  /** With the defaults: 600 s announced, 966 s guaranteed, at most 60 probes. */
  lemma {:induction false} DefaultWaitIsBounded(script: nat -> Try, started: real)
    requires Timed(script, 120.0)
    ensures var end := Poll(script, DEFAULT_CONFIG, 1, started, started, 0, 0);
            end.clock <= started + 966.0 && end.probes <= 60
  {
    WaitingIsBounded(script, DEFAULT_CONFIG, started, 120.0);
    DefaultLimit();
    assert Backoff(3) == Backoff(2) + Pause(2) && Backoff(2) == Backoff(1) + Pause(1);
  }

  // ----- what the verdict means

  ghost predicate Seen(script: nat -> Try, from: nat, to: nat, result: TryResult) {
    exists i: nat :: from <= i < to && script(i).result == result
  }

  /** A request reports choices, or crashes, exactly when one of its tries did; that try is its last. */
  lemma {:induction false} PostMeans(script: nat -> Try, retries: int, attempt: int, clock: real, tries: nat)
    ensures var end := Post(script, retries, attempt, clock, tries);
            && tries <= end.tries
            && (end.outcome == Reply(true) <==> Seen(script, tries, end.tries, Choices))
            && (end.outcome == Reply(true) ==> end.tries > tries && script(end.tries - 1).result.Choices?)
            && (end.outcome.PostCrashed? <==> Seen(script, tries, end.tries, Crash))
    decreases retries - attempt
  {
    if attempt <= retries {
      var after := clock + script(tries).duration;
      match script(tries).result
      case Refused =>
        PostMeans(script, retries, attempt + 1, if attempt < retries then after + Pause(attempt) else after, tries + 1);
      case _ =>
        assert script(tries).result == script(tries).result;
    }
  }

  /**
   Waiting returns normally exactly when a try saw choices, which then was the last try; giving up means no try saw
   choices and either the probes or the budget were used up.
   */
  lemma {:induction false} PollMeans(script: nat -> Try, cfg: Config, attempt: int, started: real, clock: real, probes: nat, tries: nat)
    requires attempt >= 1 && probes == attempt - 1
    ensures var end := Poll(script, cfg, attempt, started, clock, probes, tries);
            && tries <= end.tries
            && (end.verdict.Ready? <==> Seen(script, tries, end.tries, Choices))
            && (end.verdict.Ready? ==> end.tries > tries && script(end.tries - 1).result.Choices?)
            && (end.verdict.Crashed? <==> Seen(script, tries, end.tries, Crash))
            && (end.verdict.NotReady? ==> end.probes == cfg.limit || end.clock - started >= cfg.budget)
            && (end.verdict.NoAttempt? <==> attempt > cfg.limit)
            && (end.verdict.BadSleep? ==> cfg.interval < 0.0)
    decreases cfg.limit - attempt
  {
    if attempt <= cfg.limit {
      PostMeans(script, cfg.retries, 1, clock, tries);
      var post := Post(script, cfg.retries, 1, clock, tries);
      var remaining := cfg.budget - (post.clock - started);
      if attempt < cfg.limit && (post.outcome.GaveUp? || post.outcome == Reply(false))
         && remaining > 0.0 && Min(cfg.interval, remaining) >= 0.0 {
        var next := Poll(script, cfg, attempt + 1, started, post.clock + Min(cfg.interval, remaining), probes + 1, post.tries);
        PollMeans(script, cfg, attempt + 1, started, post.clock + Min(cfg.interval, remaining), probes + 1, post.tries);
        SeenJoins(script, tries, post.tries, next.tries, Choices);
        SeenJoins(script, tries, post.tries, next.tries, Crash);
      }
    }
  }

  lemma {:induction false} SeenJoins(script: nat -> Try, a: nat, b: nat, c: nat, result: TryResult)
    requires a <= b <= c
    ensures Seen(script, a, c, result) <==> Seen(script, a, b, result) || Seen(script, b, c, result)
  {
  }

  /** Waiting ends in the run-time error of a negative pause exactly when a second probe would be due after one. */
  lemma {:induction false} BadSleepExactly(script: nat -> Try, cfg: Config, started: real)
    ensures var first := Post(script, cfg.retries, 1, started, 0);
            Poll(script, cfg, 1, started, started, 0, 0).verdict.BadSleep?
            <==> && cfg.interval < 0.0 && cfg.limit > 1 && first.outcome != Reply(true) && !first.outcome.PostCrashed?
                 && first.clock - started < cfg.budget
  {
    PollMeans(script, cfg, 1, started, started, 0, 0);
  }

  // ----- when the bound is reached

  /** A request whose tries from `tries` on all fail after exactly `duration`. */
  lemma {:induction false} AllRefused(script: nat -> Try, retries: int, attempt: int, clock: real, tries: nat, duration: real)
    requires 1 <= attempt <= retries
    requires forall i: nat | tries <= i < tries + (retries - attempt + 1) :: script(i) == Try(duration, Refused)
    ensures Post(script, retries, attempt, clock, tries)
            == PostEnd(GaveUp, clock + TriesTime(retries - attempt + 1, duration) + Backoff(retries) - Backoff(attempt),
                       tries + (retries - attempt + 1))
    decreases retries - attempt
  {
    var after := clock + script(tries).duration;
    if attempt < retries {
      AllRefused(script, retries, attempt + 1, after + Pause(attempt), tries + 1, duration);
      assert Backoff(attempt + 1) == Backoff(attempt) + Pause(attempt);
    }
  }

  /** The sums of the pauses between up to six tries. */
  const PAUSES: seq<real> := [0.0, 0.0, 2.0, 6.0, 12.0, 20.0, 30.0]

  /** The pauses are 2, 4, 6, 8 and from then on 10 seconds. */
  lemma {:induction false} PausesInNumbers(n: nat)
    ensures n >= 1 ==> Pause(n) == if n < 5 then (2 * n) as real else 10.0
    ensures Backoff(n) == if n <= 6 then PAUSES[n] else (10 * n - 30) as real
  {
    if n > 0 {
      PausesInNumbers(n - 1);
    }
  }

  /** A request whose tries are all refused after the same time takes that long each, and the pauses between them. */
  lemma {:induction false} RefusedRequestTakes(script: nat -> Try, retries: nat, clock: real, tries: nat, duration: real)
    requires retries >= 1 && forall i: nat | tries <= i < tries + retries :: script(i) == Try(duration, Refused)
    ensures var pauses := if retries <= 6 then PAUSES[retries] else (10 * retries - 30) as real;
            Post(script, retries, 1, clock, tries)
            == PostEnd(GaveUp, clock + TriesTime(retries, duration) + pauses, tries + retries)
  {
    AllRefused(script, retries, 1, clock, tries, duration);
    PausesInNumbers(retries);
    PausesInNumbers(1);
  }

  /** The first `rounds` tries answer without choices after `quick`; all later ones are refused after `timeout`. */
  ghost predicate LateFailure(script: nat -> Try, rounds: nat, quick: real, timeout: real) {
    forall i: nat :: script(i) == if i < rounds then Try(quick, NoChoices) else Try(timeout, Refused)
  }

  lemma {:induction false} QuickProbe(script: nat -> Try, retries: int, rounds: nat, quick: real, timeout: real, clock: real, tries: nat)
    requires retries >= 1 && LateFailure(script, rounds, quick, timeout) && tries < rounds
    ensures Post(script, retries, 1, clock, tries) == PostEnd(Reply(false), clock + quick, tries + 1)
  {
    assert script(tries) == Try(quick, NoChoices);
  }

  lemma {:induction false} SlowProbe(script: nat -> Try, retries: int, rounds: nat, quick: real, timeout: real, clock: real, tries: nat)
    requires retries >= 1 && LateFailure(script, rounds, quick, timeout) && tries >= rounds
    ensures Post(script, retries, 1, clock, tries) == PostEnd(GaveUp, clock + ProbeCost(retries, timeout), tries + retries)
  {
    AllRefused(script, retries, 1, clock, tries, timeout);
  }

  /** Where a run ends whose last probe starts as the budget runs out and fails slowly. */
  function LatestEnd(cfg: Config, started: real, timeout: real, rounds: nat): PollEnd
    requires cfg.retries >= 0
  {
    PollEnd(NotReady, started + cfg.budget + ProbeCost(cfg.retries, timeout), rounds + 1, rounds + cfg.retries)
  }

  lemma {:induction false} LastRound(script: nat -> Try, cfg: Config, started: real, rounds: nat, quick: real, timeout: real)
    requires cfg.retries >= 1 && timeout >= 0.0 && rounds < cfg.limit && LateFailure(script, rounds, quick, timeout)
    ensures Poll(script, cfg, rounds + 1, started, started + cfg.budget, rounds, rounds)
            == LatestEnd(cfg, started, timeout, rounds)
  {
    SlowProbe(script, cfg.retries, rounds, quick, timeout, started + cfg.budget, rounds);
    TriesTakeTime(cfg.retries, timeout);
  }

  /** `rounds` quick rounds fill the budget: the last of them ends inside it, and one pause later it is used up. */
  predicate Fills(cfg: Config, rounds: nat, quick: real) {
    && rounds >= 1
    && TriesTime(rounds - 1, quick + cfg.interval) + quick < cfg.budget <= TriesTime(rounds, quick + cfg.interval)
  }

  lemma {:induction false} TriesTimeGrows(a: nat, b: nat, duration: real)
    requires a <= b && duration >= 0.0
    ensures TriesTime(a, duration) <= TriesTime(b, duration)
    decreases b
  {
    if a < b {
      TriesTimeGrows(a, b - 1, duration);
    }
  }

  lemma {:induction false} QuickRounds(script: nat -> Try, cfg: Config, started: real, done: nat, rounds: nat, quick: real, timeout: real)
    requires cfg.retries >= 1 && timeout >= 0.0 && quick >= 0.0 && cfg.interval > 0.0
    requires done < rounds < cfg.limit && LateFailure(script, rounds, quick, timeout) && Fills(cfg, rounds, quick)
    ensures Poll(script, cfg, done + 1, started, started + TriesTime(done, quick + cfg.interval), done, done)
            == LatestEnd(cfg, started, timeout, rounds)
    decreases rounds - done
  {
    var step := quick + cfg.interval;
    var clock := started + TriesTime(done, step);
    QuickProbe(script, cfg.retries, rounds, quick, timeout, clock, done);
    TriesTimeGrows(done, rounds - 1, step);
    NextRound(script, cfg, started, clock, done, quick);
    assert TriesTime(done + 1, step) == step + TriesTime(done, step);
    if done + 1 == rounds {
      LastRound(script, cfg, started, rounds, quick, timeout);
    } else {
      TriesTimeGrows(done + 1, rounds - 1, step);
      QuickRounds(script, cfg, started, done + 1, rounds, quick, timeout);
    }
  }

  lemma {:induction false} NextRound(script: nat -> Try, cfg: Config, started: real, clock: real, done: nat, quick: real)
    requires Post(script, cfg.retries, 1, clock, done) == PostEnd(Reply(false), clock + quick, done + 1)
    requires done + 1 < cfg.limit && cfg.interval > 0.0 && clock + quick < started + cfg.budget
    ensures Poll(script, cfg, done + 1, started, clock, done, done)
            == Poll(script, cfg, done + 2, started, Min(clock + quick + cfg.interval, started + cfg.budget), done + 1, done + 1)
  {
    var remaining := cfg.budget - (clock + quick - started);
    assert clock + quick + Min(cfg.interval, remaining) == Min(clock + quick + cfg.interval, started + cfg.budget);
  }

  lemma {:induction false} RoundsThatFill(budget: real, step: real, most: nat) returns (rounds: nat)
    requires 0.0 < budget <= TriesTime(most, step)
    ensures 1 <= rounds <= most && TriesTime(rounds - 1, step) < budget <= TriesTime(rounds, step)
  {
    if budget <= TriesTime(most - 1, step) {
      rounds := RoundsThatFill(budget, step, most - 1);
    } else {
      rounds := most;
    }
  }

  /** Rounds that can fill the budget, of a duration the timeout allows. */
  lemma {:induction false} RoundsExist(cfg: Config, timeout: real) returns (rounds: nat, quick: real)
    requires timeout >= 0.0 && cfg.limit >= 2 && cfg.interval > 0.0
    requires 0.0 < cfg.budget <= TriesTime(cfg.limit - 1, timeout + cfg.interval)
    ensures 0.0 <= quick <= timeout && rounds < cfg.limit && Fills(cfg, rounds, quick)
  {
    var most: nat := cfg.limit - 1;
    if cfg.budget <= TriesTime(most, cfg.interval) {
      quick := 0.0;
      rounds := RoundsThatFill(cfg.budget, cfg.interval, most);
    } else {
      var step := cfg.budget / most as real;
      rounds, quick := most, step - cfg.interval;
      TriesTimeIsProduct(most, most as real, step, most as real * step);
      TriesTimeIsProduct(most, most as real, cfg.interval, most as real * cfg.interval);
      TriesTimeIsProduct(most, most as real, timeout + cfg.interval, most as real * (timeout + cfg.interval));
      EqualShare(most as real, cfg.budget, cfg.interval, timeout + cfg.interval);
      assert quick + cfg.interval == step && most as real * step == cfg.budget;
      assert TriesTime(most, step) == step + TriesTime(most - 1, step);
    }
  }

  lemma {:induction false} ScalingKeepsOrder(n: real, a: real, b: real)
    requires n > 0.0
    ensures a < b <==> n * a < n * b
  {
    assert n * b - n * a == n * (b - a);
    if a < b {
      assert n * (b - a) > 0.0;
    } else {
      assert n * (a - b) >= 0.0;
    }
  }

  lemma {:induction false} EqualShare(n: real, total: real, low: real, high: real)
    requires n > 0.0
    ensures n * low < total <= n * high ==> low < total / n <= high
  {
    assert n * (total / n) == total;
    ScalingKeepsOrder(n, low, total / n);
    ScalingKeepsOrder(n, high, total / n);
  }

  /**
   The overrun of one whole probe is real: for every configuration whose rounds can fill the budget, some run ends
   exactly at the bound.  Without a budget the first probe is enough.
   */
  lemma {:induction false} BoundIsReached(cfg: Config, started: real, timeout: real) returns (script: nat -> Try)
    requires cfg.retries >= 1 && cfg.limit >= 1 && timeout >= 0.0
    requires cfg.budget <= 0.0
             || (cfg.limit >= 2 && cfg.interval > 0.0 && cfg.budget <= TriesTime(cfg.limit - 1, timeout + cfg.interval))
    ensures Timed(script, timeout)
    ensures var end := Poll(script, cfg, 1, started, started, 0, 0);
            end.verdict.NotReady? && end.clock == started + Positive(cfg.budget) + ProbeCost(cfg.retries, timeout)
  {
    if cfg.budget <= 0.0 {
      script := _ => Try(timeout, Refused);
      SlowProbe(script, cfg.retries, 0, 0.0, timeout, started, 0);
      CostIsNonNegative(script, cfg.retries, timeout);
      assert Post(script, cfg.retries, 1, started, 0).outcome.GaveUp?;
    } else {
      var rounds, quick := RoundsExist(cfg, timeout);
      script := i => if i < rounds then Try(quick, NoChoices) else Try(timeout, Refused);
      QuickRounds(script, cfg, started, 0, rounds, quick, timeout);
    }
  }

  /** The 966 s of the defaults are attained. */
  lemma {:induction false} DefaultBoundIsReached(started: real) returns (script: nat -> Try)
    ensures Timed(script, 120.0)
    ensures Poll(script, DEFAULT_CONFIG, 1, started, started, 0, 0).clock == started + 966.0
  {
    DefaultLimit();
    TriesTimeIsProduct(59, 59.0, 130.0, 7670.0);
    script := BoundIsReached(DEFAULT_CONFIG, started, 120.0);
    assert Backoff(3) == Backoff(2) + Pause(2) && Backoff(2) == Backoff(1) + Pause(1);
  }

  /**
   Conversely, with a budget the bound is reached only by a probe that starts as the budget runs out, so there must be
   a second probe, a pause, and rounds long enough to get there.
   */
  lemma {:induction false} BoundNeedsRounds(script: nat -> Try, cfg: Config, attempt: int, started: real, clock: real,
                                            probes: nat, tries: nat, timeout: real)
    requires Timed(script, timeout) && 1 <= attempt <= cfg.limit
    requires started <= clock < started + cfg.budget
    requires cfg.interval > 0.0 ==> clock - started <= TriesTime(attempt - 1, ProbeCost(cfg.retries, timeout) + cfg.interval)
    requires Poll(script, cfg, attempt, started, clock, probes, tries).clock == started + cfg.budget + ProbeCost(cfg.retries, timeout)
    ensures attempt < cfg.limit && cfg.interval > 0.0
    ensures cfg.budget <= TriesTime(cfg.limit - 1, ProbeCost(cfg.retries, timeout) + cfg.interval)
    decreases cfg.limit - attempt
  {
    ProbeIsBounded(script, cfg.retries, clock, tries, timeout);
    CostIsNonNegative(script, cfg.retries, timeout);
    var post := Post(script, cfg.retries, 1, clock, tries);
    var step := ProbeCost(cfg.retries, timeout) + cfg.interval;
    var remaining := cfg.budget - (post.clock - started);
    var next := post.clock + Min(cfg.interval, remaining);
    assert attempt < cfg.limit && remaining > 0.0 && Min(cfg.interval, remaining) >= 0.0;
    if cfg.interval > 0.0 {
      assert TriesTime(attempt, step) == step + TriesTime(attempt - 1, step);
      if next == started + cfg.budget {
        TriesTimeGrows(attempt, cfg.limit - 1, step);
      } else {
        BoundNeedsRounds(script, cfg, attempt + 1, started, next, probes + 1, post.tries, timeout);
      }
    } else {
      BoundNeedsRounds(script, cfg, attempt + 1, started, next, probes + 1, post.tries, timeout);
    }
  }

  ghost predicate ReachesBound(script: nat -> Try, cfg: Config, started: real, timeout: real) {
    && Timed(script, timeout)
    && Poll(script, cfg, 1, started, started, 0, 0).clock == started + cfg.budget + ProbeCost(cfg.retries, timeout)
  }

  ghost predicate Reachable(cfg: Config, started: real, timeout: real) {
    exists script: nat -> Try :: ReachesBound(script, cfg, started, timeout)
  }

  /** With one try to a probe the two conditions meet. */
  lemma {:induction false} OneTryBoundExactly(cfg: Config, started: real, timeout: real)
    requires cfg.retries == 1 && cfg.limit >= 1 && timeout >= 0.0 && cfg.budget > 0.0
    ensures Reachable(cfg, started, timeout)
            <==> cfg.limit >= 2 && cfg.interval > 0.0 && cfg.budget <= TriesTime(cfg.limit - 1, timeout + cfg.interval)
  {
    assert TriesTime(1, timeout) == timeout + TriesTime(0, timeout);
    assert ProbeCost(1, timeout) == timeout;
    if cfg.limit >= 2 && cfg.interval > 0.0 && cfg.budget <= TriesTime(cfg.limit - 1, timeout + cfg.interval) {
      var script := BoundIsReached(cfg, started, timeout);
      assert ReachesBound(script, cfg, started, timeout);
    }
    if script: nat -> Try :| ReachesBound(script, cfg, started, timeout) {
      BoundNeedsRounds(script, cfg, 1, started, started, 0, 0, timeout);
    }
  }

  lemma {:induction false} CostIsNonNegative(script: nat -> Try, retries: int, timeout: real)
    requires Timed(script, timeout)
    ensures timeout >= 0.0 && ProbeCost(retries, timeout) >= 0.0
  {
    assert 0.0 <= script(0).duration <= timeout;
    if retries >= 1 {
      TriesTakeTime(retries, timeout);
    }
  }
}
