/**
 Aggregating per-sample records into a summary, and pairing two summaries into a delta.
 Accuracies are exact reals; `round` is decimal rounding with ties to even.
 */
module Summary {
  import opened Wrappers

  /** One sample; `error` is whether the record carries an error text, `hit` its all-right flag. */
  datatype SampleRecord = SampleRecord(index: int, error: bool, hit: bool, toolName: string, actionType: string)

  datatype Tally = Tally(hits: nat, count: nat)

  datatype Summary = Summary(
    overlapAnalysed: bool,
    total: nat,
    valid: nat,
    errors: nat,
    correct: nat,
    incorrect: int,
    accuracy: real,
    accuracyPercent: real,
    byTool: map<string, Tally>,
    byAction: map<string, Tally>,
    percentExcludingOverlap: Option<real>,
    overlapExcluded: Option<int>)

  // ----- rounding

  /** Nearest integer, ties to even. */
  function RoundHalfEven(x: real): int {
    var low := x.Floor;
    var part := x - low as real;
    if part < 0.5 then low
    else if part > 0.5 then low + 1
    else if low % 2 == 0 then low else low + 1
  }

  function Round4(x: real): real {
    RoundHalfEven(x * 10000.0) as real / 10000.0
  }

  function Round6(x: real): real {
    RoundHalfEven(x * 1000000.0) as real / 1000000.0
  }

  lemma {:induction false} Round4Error(x: real)
    ensures -0.00005 <= Round4(x) - x <= 0.00005
  {
    var n := RoundHalfEven(x * 10000.0) as real;
    assert -0.5 <= n - x * 10000.0 <= 0.5;
  }

  // ----- counting

  function Count(records: seq<SampleRecord>, p: SampleRecord -> bool): nat {
    if records == [] then 0
    else Count(records[..|records| - 1], p) + if p(records[|records| - 1]) then 1 else 0
  }

  function OrUnknown(name: string): string {
    if name == "" then "unknown" else name
  }

  datatype Field = ByTool | ByAction

  function KeyOf(r: SampleRecord, field: Field): string {
    if field.ByTool? then OrUnknown(r.toolName) else OrUnknown(r.actionType)
  }

  function TallyAt(table: map<string, Tally>, key: string): Tally {
    if key in table then table[key] else Tally(0, 0)
  }

  function AddHit(table: map<string, Tally>, key: string, hit: bool): map<string, Tally> {
    var t := TallyAt(table, key);
    table[key := Tally(t.hits + if hit then 1 else 0, t.count + 1)]
  }

  predicate Failed(r: SampleRecord) {
    r.error
  }

  predicate Valid(r: SampleRecord) {
    !r.error
  }

  predicate Correct(r: SampleRecord) {
    !r.error && r.hit
  }

  function Kept(overlap: set<int>): SampleRecord -> bool {
    (r: SampleRecord) => !r.error && r.index !in overlap
  }

  function KeptCorrect(overlap: set<int>): SampleRecord -> bool {
    (r: SampleRecord) => !r.error && r.hit && r.index !in overlap
  }

  /** The per-key table: every valid record counts once under its own key. */
  function Tallied(records: seq<SampleRecord>, field: Field): map<string, Tally> {
    if records == [] then map[]
    else
      var front, last := Tallied(records[..|records| - 1], field), records[|records| - 1];
      if last.error then front else AddHit(front, KeyOf(last, field), last.hit)
  }

  function Accuracy(correct: nat, valid: nat): real {
    if valid == 0 then 0.0 else correct as real / valid as real
  }

  /** The summary as counts over the records. */
  function SummaryOf(records: seq<SampleRecord>, overlap: Option<set<int>>): Summary {
    var valid, correct := Count(records, Valid), Count(records, Correct);
    Summary(
      overlap.Some?, |records|, valid, Count(records, Failed), correct, valid - correct,
      Round6(Accuracy(correct, valid)), Round4(100.0 * Accuracy(correct, valid)),
      Tallied(records, ByTool), Tallied(records, ByAction),
      (if overlap.None? then None
       else Some(Round4(100.0 * Accuracy(Count(records, KeptCorrect(overlap.value)), Count(records, Kept(overlap.value)))))),
      if overlap.None? then None else Some(|records| - Count(records, Kept(overlap.value))))
  }

  /** The record loop. */
  method Summarize(records: seq<SampleRecord>, overlap: Option<set<int>>) returns (s: Summary)
    ensures s == SummaryOf(records, overlap)
  {
    var correct, valid, errors := 0, 0, 0;
    var byTool: map<string, Tally>, byAction: map<string, Tally> := map[], map[];
    var overlapCorrect, overlapValid := 0, 0;
    for n := 0 to |records|
      invariant correct == Count(records[..n], Correct) && valid == Count(records[..n], Valid)
      invariant errors == Count(records[..n], Failed)
      invariant byTool == Tallied(records[..n], ByTool) && byAction == Tallied(records[..n], ByAction)
      invariant overlap.Some? ==> overlapValid == Count(records[..n], Kept(overlap.value))
      invariant overlap.Some? ==> overlapCorrect == Count(records[..n], KeptCorrect(overlap.value))
    {
      assert records[..n + 1][..n] == records[..n];
      var record := records[n];
      if record.error {
        errors := errors + 1;
      } else {
        valid := valid + 1;
        if record.hit {
          correct := correct + 1;
        }
        byTool := AddHit(byTool, KeyOf(record, ByTool), record.hit);
        byAction := AddHit(byAction, KeyOf(record, ByAction), record.hit);
        if overlap.Some? && record.index !in overlap.value {
          overlapValid := overlapValid + 1;
          overlapCorrect := overlapCorrect + if record.hit then 1 else 0;
        }
      }
    }
    assert records[..|records|] == records;
    s := Summary(
      overlap.Some?, |records|, valid, errors, correct, valid - correct,
      Round6(Accuracy(correct, valid)), Round4(100.0 * Accuracy(correct, valid)), byTool, byAction,
      if overlap.None? then None else Some(Round4(100.0 * Accuracy(overlapCorrect, overlapValid))),
      if overlap.None? then None else Some(|records| - overlapValid));
  }

  // ----- conservation

  ghost function HitsIn(table: map<string, Tally>, keys: set<string>): nat
    requires keys <= table.Keys
    decreases keys
  {
    if keys == {} then 0
    else
      var k :| k in keys;
      table[k].hits + HitsIn(table, keys - {k})
  }

  ghost function CountsIn(table: map<string, Tally>, keys: set<string>): nat
    requires keys <= table.Keys
    decreases keys
  {
    if keys == {} then 0
    else
      var k :| k in keys;
      table[k].count + CountsIn(table, keys - {k})
  }

  lemma {:induction false} TakeKey(table: map<string, Tally>, keys: set<string>, key: string)
    requires keys <= table.Keys && key in keys
    ensures HitsIn(table, keys) == table[key].hits + HitsIn(table, keys - {key})
    ensures CountsIn(table, keys) == table[key].count + CountsIn(table, keys - {key})
    decreases keys
  {
    TakeKeyHits(table, keys, key);
    TakeKeyCounts(table, keys, key);
  }

  lemma {:induction false} TakeKeyHits(table: map<string, Tally>, keys: set<string>, key: string)
    requires keys <= table.Keys && key in keys
    ensures HitsIn(table, keys) == table[key].hits + HitsIn(table, keys - {key})
    decreases keys
  {
    var k :| k in keys && HitsIn(table, keys) == table[k].hits + HitsIn(table, keys - {k});
    if k != key {
      TakeKeyHits(table, keys - {k}, key);
      TakeKeyHits(table, keys - {key}, k);
      assert keys - {k} - {key} == keys - {key} - {k};
    }
  }

  lemma {:induction false} TakeKeyCounts(table: map<string, Tally>, keys: set<string>, key: string)
    requires keys <= table.Keys && key in keys
    ensures CountsIn(table, keys) == table[key].count + CountsIn(table, keys - {key})
    decreases keys
  {
    var k :| k in keys && CountsIn(table, keys) == table[k].count + CountsIn(table, keys - {k});
    if k != key {
      TakeKeyCounts(table, keys - {k}, key);
      TakeKeyCounts(table, keys - {key}, k);
      assert keys - {k} - {key} == keys - {key} - {k};
    }
  }

  lemma {:induction false} SameTallies(a: map<string, Tally>, b: map<string, Tally>, keys: set<string>)
    requires keys <= a.Keys && keys <= b.Keys && forall k | k in keys :: a[k] == b[k]
    ensures HitsIn(a, keys) == HitsIn(b, keys) && CountsIn(a, keys) == CountsIn(b, keys)
    decreases keys
  {
    if keys != {} {
      var k :| k in keys;
      TakeKey(a, keys, k);
      TakeKey(b, keys, k);
      SameTallies(a, b, keys - {k});
    }
  }

  /** A per-key table adds up to the totals. */
  lemma {:induction false} TableAddsUp(records: seq<SampleRecord>, field: Field)
    ensures var t := Tallied(records, field);
            HitsIn(t, t.Keys) == Count(records, Correct) && CountsIn(t, t.Keys) == Count(records, Valid)
  {
    if records != [] {
      var front, last := records[..|records| - 1], records[|records| - 1];
      TableAddsUp(front, field);
      if !last.error {
        var before, after, key := Tallied(front, field), Tallied(records, field), KeyOf(last, field);
        TakeKey(after, after.Keys, key);
        assert after.Keys - {key} == before.Keys - {key};
        SameTallies(before, after, before.Keys - {key});
        if key in before {
          TakeKey(before, before.Keys, key);
        } else {
          assert before.Keys - {key} == before.Keys;
        }
      }
    }
  }

  /** A key's tally counts exactly the valid records filed under it. */
  lemma {:induction false} TallyMeans(records: seq<SampleRecord>, field: Field, key: string)
    ensures var t := TallyAt(Tallied(records, field), key);
            && t.count == Count(records, (r: SampleRecord) => !r.error && KeyOf(r, field) == key)
            && t.hits == Count(records, (r: SampleRecord) => !r.error && r.hit && KeyOf(r, field) == key)
            && (key in Tallied(records, field) <==> t.count > 0)
  {
    if records != [] {
      TallyMeans(records[..|records| - 1], field, key);
    }
  }

  lemma {:induction false} CountsSplit(records: seq<SampleRecord>, overlap: set<int>)
    ensures |records| == Count(records, Valid) + Count(records, Failed)
    ensures Count(records, Correct) <= Count(records, Valid)
    ensures Count(records, Valid)
            == Count(records, Kept(overlap)) + Count(records, (r: SampleRecord) => !r.error && r.index in overlap)
    ensures overlap == {} ==> Count(records, Kept(overlap)) == Count(records, Valid)
                              && Count(records, KeptCorrect(overlap)) == Count(records, Correct)
  {
    if records != [] {
      CountsSplit(records[..|records| - 1], overlap);
    }
  }

  /** Nothing is lost: total, valid, both tables and the excluded samples all balance. */
  lemma {:induction false} SummaryConserves(records: seq<SampleRecord>, overlap: Option<set<int>>)
    ensures var s := SummaryOf(records, overlap);
            && s.total == |records| == s.valid + s.errors
            && s.incorrect >= 0 && s.valid == s.correct + s.incorrect
            && HitsIn(s.byTool, s.byTool.Keys) == s.correct == HitsIn(s.byAction, s.byAction.Keys)
            && CountsIn(s.byTool, s.byTool.Keys) == s.valid == CountsIn(s.byAction, s.byAction.Keys)
            && (s.overlapAnalysed <==> s.percentExcludingOverlap.Some?) && (s.overlapAnalysed <==> s.overlapExcluded.Some?)
            && (overlap.Some? ==>
                  s.overlapExcluded.value
                  == s.errors + Count(records, (r: SampleRecord) => !r.error && r.index in overlap.value))
  {
    TableAddsUp(records, ByTool);
    TableAddsUp(records, ByAction);
    CountsSplit(records, if overlap.Some? then overlap.value else {});
  }

  /**
   An analysis with an empty overlap leaves the accuracy alone; its excluded count, documented as zero, is the
   number of error records, so it is zero exactly when there are none.
   */
  lemma {:induction false} EmptyOverlap(records: seq<SampleRecord>)
    ensures var s := SummaryOf(records, Some({}));
            && s.percentExcludingOverlap == Some(s.accuracyPercent)
            && s.overlapExcluded == Some(s.errors)
            && (s.overlapExcluded == Some(0) <==> s.errors == 0)
  {
    CountsSplit(records, {});
  }

  // ----- the same summary, by the positions of the records

  /** `n` is an integer nearest to `x`, and an even one when two are. */
  ghost predicate Nearest(n: int, x: real) {
    var gap := n as real - x;
    -0.5 <= gap <= 0.5 && (gap == -0.5 || gap == 0.5 ==> n % 2 == 0)
  }

  lemma {:induction false} RoundingIsNearest(x: real, n: int)
    ensures RoundHalfEven(x) == n <==> Nearest(n, x)
  {
    var low := x.Floor;
    assert low as real <= x < low as real + 1.0;
    if Nearest(n, x) {
      assert n == low || n == low + 1;
    }
  }

  /** `r` is `x` rounded to that many parts of one. */
  ghost predicate RoundsTo(r: real, x: real, parts: real)
    requires parts > 0.0
  {
    exists n :: RoundsVia(n, r, x, parts)
  }

  ghost predicate RoundsVia(n: int, r: real, x: real, parts: real)
    requires parts > 0.0
  {
    Nearest(n, x * parts) && r == n as real / parts
  }

  lemma {:induction false} RoundedTo(x: real)
    ensures RoundsTo(Round4(x), x, 10000.0) && RoundsTo(Round6(x), x, 1000000.0)
  {
    RoundingIsNearest(x * 10000.0, RoundHalfEven(x * 10000.0));
    RoundingIsNearest(x * 1000000.0, RoundHalfEven(x * 1000000.0));
    assert RoundsVia(RoundHalfEven(x * 10000.0), Round4(x), x, 10000.0);
    assert RoundsVia(RoundHalfEven(x * 1000000.0), Round6(x), x, 1000000.0);
  }

  /** The positions of the records with a property. */
  ghost function Where(records: seq<SampleRecord>, p: SampleRecord -> bool): set<nat> {
    set i: nat | i < |records| && p(records[i])
  }

  lemma {:induction false} CountIsSize(records: seq<SampleRecord>, p: SampleRecord -> bool)
    ensures Count(records, p) == |Where(records, p)|
  {
    if records == [] {
      assert Where(records, p) == {};
    } else {
      var front, last: nat := records[..|records| - 1], |records| - 1;
      CountIsSize(front, p);
      assert Where(records, p) == if p(records[last]) then Where(front, p) + {last} else Where(front, p);
    }
  }

  lemma {:induction false} CountsAreSizes(records: seq<SampleRecord>, p: SampleRecord -> bool, at: set<nat>)
    requires forall i: nat :: i in at <==> i < |records| && p(records[i])
    ensures Count(records, p) == |at|
  {
    CountIsSize(records, p);
    assert Where(records, p) == at;
  }

  /** The totals of a summary, counted over the positions of the records. */
  lemma {:induction false} SummaryTotals(records: seq<SampleRecord>, overlap: Option<set<int>>)
    ensures var s := SummaryOf(records, overlap);
            && s.total == |records|
            && s.errors == |set i: nat | i < |records| && records[i].error|
            && s.valid == |set i: nat | i < |records| && !records[i].error|
            && s.correct == |set i: nat | i < |records| && !records[i].error && records[i].hit|
            && s.incorrect == |set i: nat | i < |records| && !records[i].error && !records[i].hit|
            && s.overlapAnalysed == overlap.Some?
  {
    CountsAreSizes(records, Failed, set i: nat | i < |records| && records[i].error);
    CountsAreSizes(records, Valid, set i: nat | i < |records| && !records[i].error);
    CountsAreSizes(records, Correct, set i: nat | i < |records| && !records[i].error && records[i].hit);
    CountsAreSizes(records, Missed, set i: nat | i < |records| && !records[i].error && !records[i].hit);
    HitOrMiss(records);
  }

  predicate Missed(r: SampleRecord) {
    !r.error && !r.hit
  }

  lemma {:induction false} HitOrMiss(records: seq<SampleRecord>)
    ensures Count(records, Valid) == Count(records, Correct) + Count(records, Missed)
  {
    if records != [] {
      HitOrMiss(records[..|records| - 1]);
    }
  }

  /** A share rounded to six places and its percentage to four; no share of nothing. */
  ghost predicate IsAccuracy(share: real, hits: nat, count: nat) {
    if count == 0 then share == 0.0 else RoundsTo(share, hits as real / count as real, 1000000.0)
  }

  ghost predicate IsPercentage(percent: real, hits: nat, count: nat) {
    if count == 0 then percent == 0.0 else RoundsTo(percent, 100.0 * (hits as real / count as real), 10000.0)
  }

  lemma {:induction false} AccuracyRounds(hits: nat, count: nat)
    ensures IsAccuracy(Round6(Accuracy(hits, count)), hits, count)
    ensures IsPercentage(Round4(100.0 * Accuracy(hits, count)), hits, count)
  {
    RoundedTo(Accuracy(hits, count));
    RoundedTo(100.0 * Accuracy(hits, count));
    assert RoundHalfEven(0.0) == 0;
  }

  /** The accuracies: over the records without error, and over those of them that are outside the overlap. */
  lemma {:induction false} SummaryAccuracies(records: seq<SampleRecord>, overlap: Option<set<int>>)
    ensures var s := SummaryOf(records, overlap);
            && IsAccuracy(s.accuracy, s.correct, s.valid) && IsPercentage(s.accuracyPercent, s.correct, s.valid)
            && (overlap.None? ==> s.percentExcludingOverlap.None? && s.overlapExcluded.None?)
    ensures overlap.Some? ==>
              var s := SummaryOf(records, overlap);
              var kept := |set i: nat | i < |records| && !records[i].error && records[i].index !in overlap.value|;
              var hits := |set i: nat | i < |records| && !records[i].error && records[i].hit && records[i].index !in overlap.value|;
              && s.percentExcludingOverlap.Some? && IsPercentage(s.percentExcludingOverlap.value, hits, kept)
              && s.overlapExcluded == Some(|records| - kept)
  {
    AccuracyRounds(Count(records, Correct), Count(records, Valid));
    if overlap.Some? {
      var o := overlap.value;
      AccuracyRounds(Count(records, KeptCorrect(o)), Count(records, Kept(o)));
      CountsAreSizes(records, Kept(o), set i: nat | i < |records| && !records[i].error && records[i].index !in o);
      CountsAreSizes(records, KeptCorrect(o),
                     set i: nat | i < |records| && !records[i].error && records[i].hit && records[i].index !in o);
    }
  }

  /** The tables: one tally per tool and per action, with nameless ones filed under `unknown`. */
  lemma {:induction false} SummaryTables(records: seq<SampleRecord>, overlap: Option<set<int>>, key: string)
    ensures var s := SummaryOf(records, overlap);
            && TallyAt(s.byTool, key).count == |set i: nat | i < |records| && !records[i].error && UsesTool(records[i], key)|
            && TallyAt(s.byTool, key).hits
               == |set i: nat | i < |records| && !records[i].error && records[i].hit && UsesTool(records[i], key)|
            && TallyAt(s.byAction, key).count == |set i: nat | i < |records| && !records[i].error && TakesAction(records[i], key)|
            && TallyAt(s.byAction, key).hits
               == |set i: nat | i < |records| && !records[i].error && records[i].hit && TakesAction(records[i], key)|
            && (key in s.byTool ==> s.byTool[key].count > 0) && (key in s.byAction ==> s.byAction[key].count > 0)
  {
    TallyMeans(records, ByTool, key);
    TallyMeans(records, ByAction, key);
    CountsAreSizes(records, (r: SampleRecord) => !r.error && KeyOf(r, ByTool) == key,
                   set i: nat | i < |records| && !records[i].error && UsesTool(records[i], key));
    CountsAreSizes(records, (r: SampleRecord) => !r.error && r.hit && KeyOf(r, ByTool) == key,
                   set i: nat | i < |records| && !records[i].error && records[i].hit && UsesTool(records[i], key));
    CountsAreSizes(records, (r: SampleRecord) => !r.error && KeyOf(r, ByAction) == key,
                   set i: nat | i < |records| && !records[i].error && TakesAction(records[i], key));
    CountsAreSizes(records, (r: SampleRecord) => !r.error && r.hit && KeyOf(r, ByAction) == key,
                   set i: nat | i < |records| && !records[i].error && records[i].hit && TakesAction(records[i], key));
  }

  predicate UsesTool(r: SampleRecord, key: string) {
    (r.toolName != "" && r.toolName == key) || (r.toolName == "" && key == "unknown")
  }

  predicate TakesAction(r: SampleRecord, key: string) {
    (r.actionType != "" && r.actionType == key) || (r.actionType == "" && key == "unknown")
  }

  // ----- pairing two reports

  const ACCURACY_CRITERIA_VERSION := "elam-v3-allright-1"

  datatype Report = Report(sha256: string, criteria: string, temperature: real, maxTokens: int, role: string, summary: Summary)

  datatype Problem =
    | DatasetDiffers
    | CriteriaDiffer
    | CriteriaOutdated
    | BeforeTemperature
    | AfterTemperature
    | MaxTokensDiffer
    | ValidCountDiffers

  predicate Comparable(before: Report, after: Report) {
    && before.sha256 == after.sha256
    && before.criteria == after.criteria == "elam-v3-allright-1"
    && before.temperature == after.temperature == 0.0
    && before.maxTokens == after.maxTokens
    && before.summary.valid == after.summary.valid
  }

  /** Which reasons apply to a pair. */
  predicate Applies(p: Problem, before: Report, after: Report) {
    match p
    case DatasetDiffers => before.sha256 != after.sha256
    case CriteriaDiffer => before.criteria != after.criteria
    case CriteriaOutdated => before.criteria != ACCURACY_CRITERIA_VERSION
    case BeforeTemperature => before.temperature != 0.0
    case AfterTemperature => after.temperature != 0.0
    case MaxTokensDiffer => before.maxTokens != after.maxTokens
    case ValidCountDiffers => before.summary.valid != after.summary.valid
  }

  function Noting(problems: seq<Problem>, p: Problem, before: Report, after: Report): seq<Problem> {
    if Applies(p, before, after) then problems + [p] else problems
  }

  /** The order in which the reasons are looked at. */
  const REASONS: seq<Problem> := [
    DatasetDiffers, CriteriaDiffer, CriteriaOutdated, BeforeTemperature, AfterTemperature, MaxTokensDiffer, ValidCountDiffers
  ]

  /** The applying reasons among the first `n`, in order. */
  function Notes(before: Report, after: Report, n: nat): seq<Problem>
    requires n <= |REASONS|
  {
    if n == 0 then [] else Noting(Notes(before, after, n - 1), REASONS[n - 1], before, after)
  }

  lemma {:induction false} NotesMean(before: Report, after: Report, n: nat, p: Problem)
    requires n <= |REASONS|
    ensures p in Notes(before, after, n) <==> p in REASONS[..n] && Applies(p, before, after)
  {
    if n > 0 {
      NotesMean(before, after, n - 1, p);
      assert REASONS[..n] == REASONS[..n - 1] + [REASONS[n - 1]];
    }
  }

  lemma {:induction false} EveryReasonListed(p: Problem) returns (k: nat)
    ensures k < |REASONS| && REASONS[k] == p
  {
    k := match p
      case DatasetDiffers => 0
      case CriteriaDiffer => 1
      case CriteriaOutdated => 2
      case BeforeTemperature => 3
      case AfterTemperature => 4
      case MaxTokensDiffer => 5
      case ValidCountDiffers => 6;
  }

  /** The notes are the reasons that apply; there is none exactly for comparable reports. */
  lemma {:induction false} NotesAreExact(before: Report, after: Report)
    ensures forall p :: p in Notes(before, after, |REASONS|) <==> Applies(p, before, after)
    ensures Notes(before, after, |REASONS|) == [] <==> Comparable(before, after)
  {
    var notes := Notes(before, after, |REASONS|);
    forall p ensures p in notes <==> Applies(p, before, after) {
      NotesMean(before, after, |REASONS|, p);
      var k := EveryReasonListed(p);
      assert p in REASONS[..|REASONS|];
    }
    assert Comparable(before, after) <==> forall p :: !Applies(p, before, after) by {
      NoReason(before, after);
    }
    if notes != [] {
      assert notes[0] in notes;
    }
  }

  lemma {:induction false} NoReason(before: Report, after: Report)
    ensures Comparable(before, after) <==> forall p :: !Applies(p, before, after)
  {
    if !Comparable(before, after) {
      assert Applies(DatasetDiffers, before, after) || Applies(CriteriaDiffer, before, after)
             || Applies(CriteriaOutdated, before, after) || Applies(BeforeTemperature, before, after)
             || Applies(AfterTemperature, before, after) || Applies(MaxTokensDiffer, before, after)
             || Applies(ValidCountDiffers, before, after);
    }
  }

  method ComparabilityNotes(before: Report, after: Report) returns (problems: seq<Problem>)
    ensures problems == Notes(before, after, |REASONS|)
  {
    problems := [];
    if before.sha256 != after.sha256 {
      problems := problems + [DatasetDiffers];
    }
    assert problems == Notes(before, after, 1);
    if before.criteria != after.criteria {
      problems := problems + [CriteriaDiffer];
    }
    assert problems == Notes(before, after, 2);
    if before.criteria != ACCURACY_CRITERIA_VERSION {
      problems := problems + [CriteriaOutdated];
    }
    assert problems == Notes(before, after, 3);
    if before.temperature != 0.0 {
      problems := problems + [BeforeTemperature];
    }
    assert problems == Notes(before, after, 4);
    if after.temperature != 0.0 {
      problems := problems + [AfterTemperature];
    }
    assert problems == Notes(before, after, 5);
    if before.maxTokens != after.maxTokens {
      problems := problems + [MaxTokensDiffer];
    }
    assert problems == Notes(before, after, 6);
    if before.summary.valid != after.summary.valid {
      problems := problems + [ValidCountDiffers];
    }
  }

  datatype Delta = Delta(points: real, graspoPass: bool, sftPass: Option<bool>)

  datatype DeltaError = NotComparable(problems: seq<Problem>) | WrongBaseline(role: string)

  function DeltaOf(before: Report, after: Report, graspoThreshold: real, sftThreshold: real, role: string): Delta {
    var points := after.summary.accuracyPercent - before.summary.accuracyPercent;
    Delta(points, points >= graspoThreshold,
          if role == "sft" then Some(after.summary.accuracyPercent >= sftThreshold) else None)
  }

  /** `expectedRole` empty means the baseline role is not checked; `roleAfter` overrides the report's own. */
  method ComputeDelta(before: Report, after: Report, graspoThreshold: real, sftThreshold: real,
                      expectedRole: string, roleAfter: Option<string>)
    returns (r: Result<Delta, DeltaError>)
    ensures r.Success? <==> Comparable(before, after) && (expectedRole == "" || before.role == expectedRole)
    ensures r.Success? ==>
              var gain := after.summary.accuracyPercent - before.summary.accuracyPercent;
              var role := if roleAfter.Some? && roleAfter.value != "" then roleAfter.value else after.role;
              && r.value.points == gain && (r.value.graspoPass <==> gain >= graspoThreshold)
              && r.value.sftPass == (if role == "sft" then Some(after.summary.accuracyPercent >= sftThreshold) else None)
              && r.value == DeltaOf(before, after, graspoThreshold, sftThreshold, role)
    ensures r.Failure? ==> r.error == if Comparable(before, after) then WrongBaseline(before.role)
                                      else NotComparable(Notes(before, after, |REASONS|))
  {
    var problems := ComparabilityNotes(before, after);
    NotesAreExact(before, after);
    if problems != [] {
      return Failure(NotComparable(problems));
    }
    if expectedRole != "" && before.role != expectedRole {
      return Failure(WrongBaseline(before.role));
    }
    var role := if roleAfter.Some? && roleAfter.value != "" then roleAfter.value else after.role;
    return Success(DeltaOf(before, after, graspoThreshold, sftThreshold, role));
  }

  /** The exact difference the delta stands for, in percentage points. */
  function ExactDifference(before: Summary, after: Summary): real {
    if before.valid == 0 then 0.0
    else 100.0 * ((after.correct as real - before.correct as real) / before.valid as real)
  }

  lemma {:induction false} FractionsSubtract(a: real, b: real, n: real)
    requires n > 0.0
    ensures b / n - a / n == (b - a) / n
  {
    var x, y, z := b / n, a / n, (b - a) / n;
    assert x * n == b && y * n == a && z * n == b - a;
    assert (x - y - z) * n == 0.0;
  }

  /** For comparable reports the delta is within 1e-4 points of the exact difference, so thresholds can only flip there. */
  lemma {:induction false} DeltaIsAccurate(beforeRecords: seq<SampleRecord>, afterRecords: seq<SampleRecord>,
                                           o1: Option<set<int>>, o2: Option<set<int>>, before: Report, after: Report,
                                           threshold: real, sft: real, role: string)
    requires before.summary == SummaryOf(beforeRecords, o1) && after.summary == SummaryOf(afterRecords, o2)
    requires Comparable(before, after)
    ensures var exact := ExactDifference(before.summary, after.summary);
            var delta := DeltaOf(before, after, threshold, sft, role);
            && -0.0001 <= delta.points - exact <= 0.0001
            && (exact >= threshold + 0.0001 ==> delta.graspoPass)
            && (exact < threshold - 0.0001 ==> !delta.graspoPass)
  {
    var a, b := before.summary, after.summary;
    var pa, pb := 100.0 * Accuracy(a.correct, a.valid), 100.0 * Accuracy(b.correct, b.valid);
    Round4Error(pa);
    Round4Error(pb);
    if a.valid != 0 {
      FractionsSubtract(a.correct as real, b.correct as real, a.valid as real);
    }
    assert pb - pa == ExactDifference(a, b);
  }

  /** Deltas compose: comparability is transitive and the points add up. */
  lemma {:induction false} DeltasCompose(a: Report, b: Report, c: Report, threshold: real, sft: real, role: string)
    requires Comparable(a, b) && Comparable(b, c)
    ensures Comparable(a, c) && Comparable(b, a)
    ensures DeltaOf(a, c, threshold, sft, role).points
            == DeltaOf(a, b, threshold, sft, role).points + DeltaOf(b, c, threshold, sft, role).points
    ensures DeltaOf(b, a, threshold, sft, role).points == -DeltaOf(a, b, threshold, sft, role).points
  {
  }
}
