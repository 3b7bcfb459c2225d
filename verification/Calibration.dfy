/**
 The A4 tolerance: derived from a pool of final-loss readings, capped by half the smallest known bug
 signature, floored by the measured baseline, and looked up by a five-part key.
 Readings are exact reals.
 */
module Calibration {
  import opened Wrappers

  const BASELINE_DRIFT: real := 0.0010302
  const HARD_UPPER_BOUND: real := 0.04675
  const MIN_BUG_SIGNATURE: real := 0.0935
  const MIN_READINGS: int := 5
  const SAFETY_FACTOR: real := 1.5
  const SIGN_FLIP_FLOOR: real := 0.5

  datatype Outcome = Calibrated | InsufficientN | Degenerate

  function Abs(x: real): real {
    if x < 0.0 then -x else x
  }

  function Larger(a: real, b: real): real {
    if b > a then b else a
  }

  function Smaller(a: real, b: real): real {
    if b < a then b else a
  }

  // ----- the worst pair

  function GapsTo(head: real, tail: seq<real>): (gaps: seq<real>)
    ensures |gaps| == |tail|
  {
    seq(|tail|, i requires 0 <= i < |tail| => Abs(head - tail[i]))
  }

  /** `abs(a - b)` for every pair of positions, in the order of the double comprehension. */
  function PairGaps(values: seq<real>): seq<real> {
    if values == [] then [] else GapsTo(values[0], values[1..]) + PairGaps(values[1..])
  }

  function MaxOf(values: seq<real>): real
    requires values != []
  {
    if |values| == 1 then values[0] else Larger(values[0], MaxOf(values[1..]))
  }

  function MinOf(values: seq<real>): real
    requires values != []
  {
    if |values| == 1 then values[0] else Smaller(values[0], MinOf(values[1..]))
  }

  lemma {:induction false} PairGapsCount(values: seq<real>)
    ensures |values| >= 2 ==> PairGaps(values) != []
  {
  }

  function WorstPair(values: seq<real>): real {
    if |values| < 2 then 0.0 else PairGapsCount(values); MaxOf(PairGaps(values))
  }

  lemma {:induction false} MaxIsAttained(values: seq<real>)
    requires values != []
    ensures MaxOf(values) in values && forall x | x in values :: x <= MaxOf(values)
  {
    if |values| > 1 {
      MaxIsAttained(values[1..]);
      assert values == [values[0]] + values[1..];
    }
  }

  lemma {:induction false} MinIsAttained(values: seq<real>)
    requires values != []
    ensures MinOf(values) in values && forall x | x in values :: MinOf(values) <= x
  {
    if |values| > 1 {
      MinIsAttained(values[1..]);
      assert values == [values[0]] + values[1..];
    }
  }

  ghost predicate IsGap(values: seq<real>, g: real) {
    exists i, j :: 0 <= i < j < |values| && g == Abs(values[i] - values[j])
  }

  lemma {:induction false} GapsToHead(head: real, tail: seq<real>, g: real)
    ensures g in GapsTo(head, tail) <==> exists k :: 0 <= k < |tail| && g == Abs(head - tail[k])
  {
    if k :| 0 <= k < |tail| && g == Abs(head - tail[k]) {
      assert GapsTo(head, tail)[k] == g;
    }
  }

  lemma {:induction false} GapsOfCons(values: seq<real>, g: real)
    requires values != []
    ensures IsGap(values, g)
            <==> IsGap(values[1..], g) || exists k :: 0 <= k < |values[1..]| && g == Abs(values[0] - values[1..][k])
  {
    var tail := values[1..];
    assert forall k | 0 <= k < |tail| :: tail[k] == values[k + 1];
    if i, j :| 0 <= i < j < |tail| && g == Abs(tail[i] - tail[j]) {
      assert g == Abs(values[i + 1] - values[j + 1]);
    }
    if k :| 0 <= k < |tail| && g == Abs(values[0] - tail[k]) {
      assert g == Abs(values[0] - values[k + 1]);
    }
    if IsGap(values, g) {
      GapOfConsSplits(values, g);
    }
  }

  lemma {:induction false} GapOfConsSplits(values: seq<real>, g: real)
    requires values != [] && IsGap(values, g)
    ensures IsGap(values[1..], g) || exists k :: 0 <= k < |values[1..]| && g == Abs(values[0] - values[1..][k])
  {
    var tail := values[1..];
    var i, j :| 0 <= i < j < |values| && g == Abs(values[i] - values[j]);
    if i == 0 {
      assert g == Abs(values[0] - tail[j - 1]);
    } else {
      assert g == Abs(tail[i - 1] - tail[j - 1]);
    }
  }

  /** The comprehension lists the gaps of all pairs of positions and nothing else. */
  lemma {:induction false} PairGapsAreGaps(values: seq<real>, g: real)
    ensures g in PairGaps(values) <==> IsGap(values, g)
  {
    if values != [] {
      PairGapsAreGaps(values[1..], g);
      GapsToHead(values[0], values[1..], g);
      GapsOfCons(values, g);
    }
  }

  lemma {:induction false} SpreadIsGap(values: seq<real>)
    requires |values| >= 2
    ensures IsGap(values, MaxOf(values) - MinOf(values))
  {
    MaxIsAttained(values);
    MinIsAttained(values);
    var hi :| 0 <= hi < |values| && values[hi] == MaxOf(values);
    var lo :| 0 <= lo < |values| && values[lo] == MinOf(values);
    var spread := MaxOf(values) - MinOf(values);
    if hi == lo {
      assert spread == Abs(values[0] - values[1]);
    } else if hi < lo {
      assert spread == Abs(values[hi] - values[lo]);
    } else {
      assert spread == Abs(values[lo] - values[hi]);
    }
  }

  lemma {:induction false} GapsWithinSpread(values: seq<real>, g: real)
    requires values != [] && IsGap(values, g)
    ensures g <= MaxOf(values) - MinOf(values)
  {
    MaxIsAttained(values);
    MinIsAttained(values);
    var i, j :| 0 <= i < j < |values| && g == Abs(values[i] - values[j]);
    assert values[i] in values && values[j] in values;
  }

  /** The quadratic worst pair is the spread of the pool. */
  lemma {:induction false} WorstPairIsSpread(values: seq<real>)
    requires values != []
    ensures WorstPair(values) == MaxOf(values) - MinOf(values)
  {
    if |values| >= 2 {
      PairGapsCount(values);
      var worst, spread := MaxOf(PairGaps(values)), MaxOf(values) - MinOf(values);
      MaxIsAttained(PairGaps(values));
      PairGapsAreGaps(values, worst);
      GapsWithinSpread(values, worst);
      SpreadIsGap(values);
      PairGapsAreGaps(values, spread);
    }
  }

  // ----- the tolerance

  datatype Derived = Derived(tol: real, outcome: Outcome) | RefusedByValidator

  predicate TolerancePasses(tol: real, signature: real) {
    BASELINE_DRIFT <= tol <= signature / 2.0
  }

  function CalibratedTolerance(readings: seq<real>, signature: real, minN: int): Derived {
    if |readings| < minN then Derived(BASELINE_DRIFT, InsufficientN)
    else
      var measured := WorstPair(readings);
      if measured <= 0.0 then Derived(BASELINE_DRIFT, Degenerate)
      else
        var capped := Smaller(SAFETY_FACTOR * measured, signature / 2.0);
        var floored := Larger(capped, BASELINE_DRIFT);
        if TolerancePasses(floored, signature) then Derived(floored, Calibrated) else RefusedByValidator
  }

  function Tolerance(readings: seq<real>): Derived {
    CalibratedTolerance(readings, MIN_BUG_SIGNATURE, MIN_READINGS)
  }

  /** The derivation trips its own validator exactly when a real spread meets a signature below twice the baseline. */
  lemma {:induction false} ValidatorTripsExactly(readings: seq<real>, signature: real, minN: int)
    ensures CalibratedTolerance(readings, signature, minN).RefusedByValidator?
            <==> |readings| >= minN && WorstPair(readings) > 0.0 && signature / 2.0 < BASELINE_DRIFT
  {
  }

  /** With the default signature the tolerance always exists and stays between the baseline and the cap. */
  lemma {:induction false} ToleranceIsBounded(readings: seq<real>)
    ensures Tolerance(readings).Derived?
    ensures BASELINE_DRIFT <= Tolerance(readings).tol <= HARD_UPPER_BOUND == MIN_BUG_SIGNATURE / 2.0
    ensures Tolerance(readings).outcome == Calibrated <==> |readings| >= 5 && MinOf(readings) < MaxOf(readings)
  {
    if readings != [] {
      WorstPairIsSpread(readings);
    }
  }

  /** The least and the greatest reading of a pool. */
  predicate Ends(readings: seq<real>, lo: real, hi: real) {
    lo in readings && hi in readings && forall x | x in readings :: lo <= x <= hi
  }

  lemma {:induction false} SpreadOfEnds(readings: seq<real>, lo: real, hi: real)
    requires Ends(readings, lo, hi)
    ensures WorstPair(readings) == hi - lo
  {
    WorstPairIsSpread(readings);
    MaxIsAttained(readings);
    MinIsAttained(readings);
  }

  /** The tolerance in numbers: one and a half times the spread, brought between the baseline and half the signature. */
  lemma {:induction false} ToleranceValue(readings: seq<real>, signature: real, minN: int, lo: real, hi: real)
    requires Ends(readings, lo, hi)
    ensures CalibratedTolerance(readings, signature, minN)
            == if |readings| < minN then Derived(0.0010302, InsufficientN)
               else if lo == hi then Derived(0.0010302, Degenerate)
               else if signature < 0.0020604 then RefusedByValidator
               else if 1.5 * (hi - lo) > signature / 2.0 then Derived(signature / 2.0, Calibrated)
               else if 1.5 * (hi - lo) < 0.0010302 then Derived(0.0010302, Calibrated)
               else Derived(1.5 * (hi - lo), Calibrated)
  {
    SpreadOfEnds(readings, lo, hi);
  }

  /** With the registered signature and sample size. */
  lemma {:induction false} DefaultToleranceValue(readings: seq<real>, lo: real, hi: real)
    requires Ends(readings, lo, hi)
    ensures Tolerance(readings)
            == if |readings| < 5 then Derived(0.0010302, InsufficientN)
               else if lo == hi then Derived(0.0010302, Degenerate)
               else if 1.5 * (hi - lo) > 0.04675 then Derived(0.04675, Calibrated)
               else if 1.5 * (hi - lo) < 0.0010302 then Derived(0.0010302, Calibrated)
               else Derived(1.5 * (hi - lo), Calibrated)
  {
    ToleranceValue(readings, MIN_BUG_SIGNATURE, MIN_READINGS, lo, hi);
  }

  lemma {:induction false} NoReadings(signature: real, minN: int)
    ensures CalibratedTolerance([], signature, minN) == Derived(0.0010302, if minN > 0 then InsufficientN else Degenerate)
  {
  }

  /** The load-time check refuses a tolerance outside the two bounds. */
  lemma {:induction false} ValidatorBounds(tol: real)
    ensures TolerancePasses(tol, 0.0935) <==> 0.0010302 <= tol <= 0.04675
  {
  }

  lemma {:induction false} SpreadUnderInclusion(a: seq<real>, b: seq<real>)
    requires a != [] && forall x | x in a :: x in b
    ensures b != [] && MinOf(b) <= MinOf(a) <= MaxOf(a) <= MaxOf(b)
  {
    MaxIsAttained(a);
    MinIsAttained(a);
    assert MaxOf(a) in b;
    MaxIsAttained(b);
    MinIsAttained(b);
  }

  /** Only the multiset of readings matters. */
  lemma {:induction false} PermutingReadings(a: seq<real>, b: seq<real>)
    requires multiset(a) == multiset(b)
    ensures Tolerance(a) == Tolerance(b) && WorstPair(a) == WorstPair(b)
  {
    assert |a| == |multiset(a)| == |multiset(b)| == |b|;
    if a != [] {
      forall x | x in a ensures x in b {
        assert x in multiset(b);
      }
      forall x | x in b ensures x in a {
        assert x in multiset(a);
      }
      SpreadUnderInclusion(a, b);
      SpreadUnderInclusion(b, a);
      WorstPairIsSpread(a);
      WorstPairIsSpread(b);
    }
  }

  function Shifted(readings: seq<real>, shift: real): (r: seq<real>)
    ensures |r| == |readings|
  {
    seq(|readings|, i requires 0 <= i < |readings| => readings[i] + shift)
  }

  lemma {:induction false} ShiftMovesEnds(readings: seq<real>, shift: real)
    requires readings != []
    ensures MaxOf(Shifted(readings, shift)) == MaxOf(readings) + shift
    ensures MinOf(Shifted(readings, shift)) == MinOf(readings) + shift
  {
    if |readings| > 1 {
      ShiftMovesEnds(readings[1..], shift);
      assert Shifted(readings, shift)[1..] == Shifted(readings[1..], shift);
    }
  }

  lemma {:induction false} ShiftingReadings(readings: seq<real>, shift: real)
    ensures Tolerance(Shifted(readings, shift)) == Tolerance(readings)
  {
    if readings != [] {
      ShiftMovesEnds(readings, shift);
      WorstPairIsSpread(readings);
      WorstPairIsSpread(Shifted(readings, shift));
    }
  }

  /** One more reading, wherever it is inserted, never lowers the tolerance. */
  lemma {:induction false} AddingAReading(before: seq<real>, reading: real, after: seq<real>)
    ensures Tolerance(before + after).tol <= Tolerance(before + [reading] + after).tol
  {
    var a, b := before + after, before + [reading] + after;
    ToleranceIsBounded(a);
    ToleranceIsBounded(b);
    if a != [] {
      SpreadUnderInclusion(a, b);
      WorstPairIsSpread(a);
      WorstPairIsSpread(b);
    }
  }

  /** A calibrated pool accepts all of its own pairs exactly when its worst pair is within the cap. */
  lemma {:induction false} PoolAdmitsItself(readings: seq<real>)
    requires Tolerance(readings).outcome == Calibrated
    ensures (forall x, y | x in readings && y in readings :: Abs(x - y) <= Tolerance(readings).tol)
            <==> WorstPair(readings) <= HARD_UPPER_BOUND
  {
    WorstPairIsSpread(readings);
    MaxIsAttained(readings);
    MinIsAttained(readings);
    assert Abs(MaxOf(readings) - MinOf(readings)) == WorstPair(readings);
  }

  // ----- the sign flip

  function IsSignFlip(first: real, second: real, tolerance: real): bool {
    if (first > 0.0) == (second > 0.0) then false
    else
      var mean := (Abs(first) + Abs(second)) / 2.0;
      if mean > SIGN_FLIP_FLOOR * tolerance then true
      else if Abs(first) < tolerance || Abs(second) < tolerance then false
      else
        // the relative gap |first - second| / larger, compared without dividing
        var larger := Larger(Abs(first), Abs(second));
        Abs(first - second) > SIGN_FLIP_FLOOR * 4.0 * larger
  }

  /** The whole test is "opposite signs, further apart than the tolerance", for every tolerance. */
  lemma {:induction false} SignFlipMeans(first: real, second: real, tolerance: real)
    ensures IsSignFlip(first, second, tolerance)
            <==> (first > 0.0) != (second > 0.0) && Abs(first - second) > tolerance
  {
    if (first > 0.0) != (second > 0.0) {
      RelativeGapIsNeverReached(first, second, tolerance);
    }
  }

  /** With opposite signs either the mean clause fires or one side is below the tolerance: no relative gap is taken. */
  lemma {:induction false} RelativeGapIsNeverReached(first: real, second: real, tolerance: real)
    requires (first > 0.0) != (second > 0.0)
    ensures Abs(first - second) == Abs(first) + Abs(second)
    ensures (Abs(first) + Abs(second)) / 2.0 > SIGN_FLIP_FLOOR * tolerance
            || Abs(first) < tolerance || Abs(second) < tolerance
  {
  }

  // ----- the calibration table

  datatype Row = Row(backend: string, cards: int, algorithm: string, model: Option<string>, mode: Option<string>,
                     tol: real, outcome: Outcome)

  datatype Key = Key(model: Option<string>, mode: Option<string>)

  function NormalizeAlgorithm(algorithm: string): string {
    if algorithm == "GRASPO" then "GRPO" else algorithm
  }

  function AddKey(keys: seq<Key>, key: Key): seq<Key> {
    if key in keys then keys else keys + [key]
  }

  /** Candidate (model, mode) keys without repeats, most specific first. */
  function SpecificityOrder(model: Option<string>, mode: Option<string>): seq<Key> {
    var exact := [Key(model, mode)];
    var withModel := if model.Some? then AddKey(exact, Key(model, None)) else exact;
    var withMode := if mode.Some? then AddKey(withModel, Key(None, mode)) else withModel;
    AddKey(withMode, Key(None, None))
  }

  datatype Query = Query(backend: string, cards: int, algorithm: string, model: Option<string>, mode: Option<string>)

  predicate Fits(row: Row, q: Query, key: Key) {
    row.backend == q.backend && row.cards == q.cards && row.algorithm == NormalizeAlgorithm(q.algorithm)
    && row.model == key.model && row.mode == key.mode
  }

  function FirstFit(table: seq<Row>, q: Query, key: Key): Option<Row> {
    if table == [] then None
    else if Fits(table[0], q, key) then Some(table[0])
    else FirstFit(table[1..], q, key)
  }

  function FirstKey(table: seq<Row>, q: Query, keys: seq<Key>): Option<Row> {
    if keys == [] then None
    else
      var hit := FirstFit(table, q, keys[0]);
      if hit.Some? then hit else FirstKey(table, q, keys[1..])
  }

  function FindTierCalibration(table: seq<Row>, q: Query): Option<Row> {
    FirstKey(table, q, SpecificityOrder(q.model, q.mode))
  }

  /** A row may answer a query when each of model and mode is the queried value or a wildcard. */
  predicate Admissible(row: Row, q: Query) {
    && row.backend == q.backend && row.cards == q.cards && row.algorithm == NormalizeAlgorithm(q.algorithm)
    && (row.model == q.model || row.model.None?)
    && (row.mode == q.mode || row.mode.None?)
  }

  function KeyRank(q: Query, key: Key): nat {
    if key == Key(q.model, q.mode) then 0
    else if key.model == q.model then 1
    else if key.mode == q.mode then 2
    else 3
  }

  function KeyOf(row: Row): Key {
    Key(row.model, row.mode)
  }

  /** Rank of an admissible row: lower is more specific. */
  function Rank(row: Row, q: Query): nat {
    KeyRank(q, KeyOf(row))
  }

  lemma {:induction false} FirstFitFinds(table: seq<Row>, q: Query, key: Key)
    ensures match FirstFit(table, q, key)
            case None => forall row | row in table :: !Fits(row, q, key)
            case Some(hit) => exists k :: 0 <= k < |table| && table[k] == hit && Fits(hit, q, key)
                                          && forall j | 0 <= j < k :: !Fits(table[j], q, key)
  {
    if table != [] && !Fits(table[0], q, key) {
      FirstFitFinds(table[1..], q, key);
      var hit := FirstFit(table[1..], q, key);
      if hit.Some? {
        var k :| 0 <= k < |table[1..]| && table[1..][k] == hit.value
                 && forall j | 0 <= j < k :: !Fits(table[1..][j], q, key);
        assert table[k + 1] == hit.value;
        assert forall j | 0 <= j < k + 1 :: !Fits(table[j], q, key);
      }
    }
  }

  lemma {:induction false} FirstKeyFinds(table: seq<Row>, q: Query, keys: seq<Key>)
    ensures match FirstKey(table, q, keys)
            case None => forall key, row | key in keys && row in table :: !Fits(row, q, key)
            case Some(hit) => exists k :: 0 <= k < |keys| && FirstFit(table, q, keys[k]) == Some(hit)
                                          && forall j | 0 <= j < k :: FirstFit(table, q, keys[j]).None?
  {
    if keys != [] {
      FirstFitFinds(table, q, keys[0]);
      if FirstFit(table, q, keys[0]).None? {
        FirstKeyFinds(table, q, keys[1..]);
        var hit := FirstKey(table, q, keys[1..]);
        if hit.Some? {
          var k :| 0 <= k < |keys[1..]| && FirstFit(table, q, keys[1..][k]) == hit
                   && forall j | 0 <= j < k :: FirstFit(table, q, keys[1..][j]).None?;
          assert FirstFit(table, q, keys[k + 1]) == hit;
          assert forall j | 0 <= j < k + 1 :: FirstFit(table, q, keys[j]).None?;
        }
      }
    }
  }

  ghost predicate Answers(q: Query, key: Key) {
    (key.model == q.model || key.model.None?) && (key.mode == q.mode || key.mode.None?)
  }

  lemma {:induction false} OrderIsRanked(q: Query)
    ensures var keys := SpecificityOrder(q.model, q.mode);
            && (forall key :: Answers(q, key) <==> key in keys)
            && (forall i, j | 0 <= i < j < |keys| :: KeyRank(q, keys[i]) < KeyRank(q, keys[j]))
  {
  }

  /**
   The lookup returns an admissible row of the most specific rank present, the first of its rank in the table,
   and returns nothing exactly when the table has no admissible row.
   */
  lemma {:induction false} LookupIsExact(table: seq<Row>, q: Query)
    ensures match FindTierCalibration(table, q)
            case None => forall row | row in table :: !Admissible(row, q)
            case Some(hit) => exists k :: BestRow(table, q, k) && table[k] == hit
  {
    match FindTierCalibration(table, q)
    case None => MissMeansNone(table, q);
    case Some(hit) => var k := HitIsBest(table, q, hit);
  }

  lemma {:induction false} MissMeansNone(table: seq<Row>, q: Query)
    requires FindTierCalibration(table, q).None?
    ensures forall row | row in table :: !Admissible(row, q)
  {
    OrderIsRanked(q);
    FirstKeyFinds(table, q, SpecificityOrder(q.model, q.mode));
    forall row | row in table ensures !Admissible(row, q) {
      assert Answers(q, KeyOf(row)) ==> !Fits(row, q, KeyOf(row));
    }
  }

  lemma {:induction false} HitIsBest(table: seq<Row>, q: Query, hit: Row) returns (k: nat)
    requires FindTierCalibration(table, q) == Some(hit)
    ensures BestRow(table, q, k) && table[k] == hit
  {
    var keys := SpecificityOrder(q.model, q.mode);
    FirstKeyFinds(table, q, keys);
    var n :| 0 <= n < |keys| && FirstFit(table, q, keys[n]) == Some(hit)
             && forall j | 0 <= j < n :: FirstFit(table, q, keys[j]).None?;
    FirstFitFinds(table, q, keys[n]);
    k :| 0 <= k < |table| && table[k] == hit && Fits(hit, q, keys[n])
         && forall j | 0 <= j < k :: !Fits(table[j], q, keys[n]);
    FitsIsAdmissible(q, n, hit);
    forall j | 0 <= j < |table| && Admissible(table[j], q)
      ensures Rank(hit, q) <= Rank(table[j], q) && (j < k ==> Rank(hit, q) < Rank(table[j], q))
    {
      NoEarlierRow(table, q, keys, n, k, j);
    }
  }

  lemma {:induction false} FitsIsAdmissible(q: Query, n: nat, row: Row)
    requires n < |SpecificityOrder(q.model, q.mode)| && Fits(row, q, SpecificityOrder(q.model, q.mode)[n])
    ensures Admissible(row, q)
  {
    OrderIsRanked(q);
    assert Answers(q, SpecificityOrder(q.model, q.mode)[n]);
  }

  /** Row `k` is admissible, no admissible row is more specific, and none before it is as specific. */
  ghost predicate BestRow(table: seq<Row>, q: Query, k: int) {
    && 0 <= k < |table| && Admissible(table[k], q)
    && (forall j | 0 <= j < |table| && Admissible(table[j], q) :: Rank(table[k], q) <= Rank(table[j], q))
    && (forall j | 0 <= j < k && Admissible(table[j], q) :: Rank(table[k], q) < Rank(table[j], q))
  }

  lemma {:induction false} NoEarlierRow(table: seq<Row>, q: Query, keys: seq<Key>, n: nat, k: nat, j: nat)
    requires keys == SpecificityOrder(q.model, q.mode) && n < |keys| && k < |table| && j < |table|
    requires Fits(table[k], q, keys[n]) && forall i | 0 <= i < n :: FirstFit(table, q, keys[i]).None?
    requires forall i | 0 <= i < k :: !Fits(table[i], q, keys[n])
    requires Admissible(table[j], q)
    ensures Rank(table[k], q) <= Rank(table[j], q) && (j < k ==> Rank(table[k], q) < Rank(table[j], q))
  {
    OrderIsRanked(q);
    assert Answers(q, KeyOf(table[j]));
    var m :| 0 <= m < |keys| && keys[m] == KeyOf(table[j]);
    FirstFitFinds(table, q, keys[m]);
    assert Fits(table[j], q, keys[m]) && table[j] in table;
    assert n <= m;
    assert KeyOf(table[k]) == keys[n];
  }

  /** One name is an alias: such a run is looked up like a `GRPO` run, and every other only meets rows of its own name. */
  lemma {:induction false} AlgorithmAlias(table: seq<Row>, q: Query)
    ensures q.algorithm == "GRASPO" ==> FindTierCalibration(table, q) == FindTierCalibration(table, q.(algorithm := "GRPO"))
    ensures var hit := FindTierCalibration(table, q);
            hit.Some? ==> hit.value.algorithm == (if q.algorithm == "GRASPO" then "GRPO" else q.algorithm)
                          && hit.value.backend == q.backend && hit.value.cards == q.cards
  {
    LookupIsExact(table, q);
    if q.algorithm == "GRASPO" {
      AliasedKeys(table, q, SpecificityOrder(q.model, q.mode));
    }
  }

  lemma {:induction false} AliasedKeys(table: seq<Row>, q: Query, keys: seq<Key>)
    requires q.algorithm == "GRASPO"
    ensures FirstKey(table, q, keys) == FirstKey(table, q.(algorithm := "GRPO"), keys)
  {
    if keys != [] {
      AliasedRows(table, q, keys[0]);
      AliasedKeys(table, q, keys[1..]);
    }
  }

  lemma {:induction false} AliasedRows(table: seq<Row>, q: Query, key: Key)
    requires q.algorithm == "GRASPO"
    ensures FirstFit(table, q, key) == FirstFit(table, q.(algorithm := "GRPO"), key)
  {
    if table != [] {
      AliasedRows(table[1..], q, key);
    }
  }

  /** A query that leaves model or mode unknown never gets a row that names one. */
  lemma {:induction false} UnknownNeverGetsNamed(table: seq<Row>, q: Query)
    ensures var hit := FindTierCalibration(table, q);
            hit.Some? ==> (q.model.None? ==> hit.value.model.None?) && (q.mode.None? ==> hit.value.mode.None?)
  {
    LookupIsExact(table, q);
  }

  // ----- completing missing coordinates

  const BACKEND_FALLBACK := ["native", "ms-swift"]
  const CARDS_FALLBACK := [1, 2]
  const ALGORITHM_FALLBACK := ["SFT", "GRPO"]

  /** The coordinates a run carries; an absent or empty text counts as missing. */
  datatype Coordinates = Coordinates(backend: Option<string>, cards: Option<int>, algorithm: Option<string>,
                                     model: Option<string>, mode: Option<string>)

  /** `bool(text)` of an optional text. */
  predicate Known(text: Option<string>) {
    text.Some? && text.value != ""
  }

  function OrFallback(text: Option<string>, fallback: seq<string>): seq<string> {
    if Known(text) then [text.value] else fallback
  }

  function Backends(c: Coordinates): seq<string> { OrFallback(c.backend, BACKEND_FALLBACK) }

  function CardCounts(c: Coordinates): seq<int> { if c.cards.Some? then [c.cards.value] else CARDS_FALLBACK }

  function Algorithms(c: Coordinates): seq<string> { OrFallback(c.algorithm, ALGORITHM_FALLBACK) }

  function TryAlgorithms(table: seq<Row>, backend: string, cards: int, algorithms: seq<string>, c: Coordinates): Option<Row> {
    if algorithms == [] then None
    else
      var hit := FindTierCalibration(table, Query(backend, cards, algorithms[0], c.model, c.mode));
      if hit.Some? then hit else TryAlgorithms(table, backend, cards, algorithms[1..], c)
  }

  function TryCards(table: seq<Row>, backend: string, counts: seq<int>, c: Coordinates): Option<Row> {
    if counts == [] then None
    else
      var hit := TryAlgorithms(table, backend, counts[0], Algorithms(c), c);
      if hit.Some? then hit else TryCards(table, backend, counts[1..], c)
  }

  function TryBackends(table: seq<Row>, backends: seq<string>, c: Coordinates): Option<Row> {
    if backends == [] then None
    else
      var hit := TryCards(table, backends[0], CardCounts(c), c);
      if hit.Some? then hit else TryBackends(table, backends[1..], c)
  }

  function ResolveTierCalibration(table: seq<Row>, c: Coordinates): Option<Row> {
    TryBackends(table, Backends(c), c)
  }

  function QueryAt(c: Coordinates, i: nat, j: nat, k: nat): Query
    requires i < |Backends(c)| && j < |CardCounts(c)| && k < |Algorithms(c)|
  {
    Query(Backends(c)[i], CardCounts(c)[j], Algorithms(c)[k], c.model, c.mode)
  }

  /** Position in the order in which completions are tried: backend first, then cards, then algorithm. */
  predicate TriedBefore(i': nat, j': nat, k': nat, i: nat, j: nat, k: nat) {
    i' < i || (i' == i && (j' < j || (j' == j && k' < k)))
  }

  /** The completion at (i, j, k) answers with that row, and every one tried before it has no row. */
  ghost predicate FirstAnswer(table: seq<Row>, c: Coordinates, i: nat, j: nat, k: nat, hit: Row) {
    && i < |Backends(c)| && j < |CardCounts(c)| && k < |Algorithms(c)|
    && FindTierCalibration(table, QueryAt(c, i, j, k)) == Some(hit)
    && forall i': nat, j': nat, k': nat |
         i' < |Backends(c)| && j' < |CardCounts(c)| && k' < |Algorithms(c)| && TriedBefore(i', j', k', i, j, k) ::
         FindTierCalibration(table, QueryAt(c, i', j', k')).None?
  }

  lemma {:induction false} AlgorithmsExact(table: seq<Row>, b: string, n: int, algorithms: seq<string>, c: Coordinates)
    returns (k: nat)
    ensures match TryAlgorithms(table, b, n, algorithms, c)
            case Some(hit) => k < |algorithms| && FindTierCalibration(table, Query(b, n, algorithms[k], c.model, c.mode)) == Some(hit)
            case None => k == |algorithms|
    ensures forall k' | 0 <= k' < k :: FindTierCalibration(table, Query(b, n, algorithms[k'], c.model, c.mode)).None?
  {
    if algorithms == [] || FindTierCalibration(table, Query(b, n, algorithms[0], c.model, c.mode)).Some? {
      k := 0;
    } else {
      var rest := AlgorithmsExact(table, b, n, algorithms[1..], c);
      k := rest + 1;
      assert forall k' | 1 <= k' < k :: algorithms[k'] == algorithms[1..][k' - 1];
    }
  }

  lemma {:induction false} CardsExact(table: seq<Row>, b: string, counts: seq<int>, c: Coordinates) returns (j: nat)
    ensures match TryCards(table, b, counts, c)
            case Some(hit) => j < |counts| && TryAlgorithms(table, b, counts[j], Algorithms(c), c) == Some(hit)
            case None => j == |counts|
    ensures forall j' | 0 <= j' < j :: TryAlgorithms(table, b, counts[j'], Algorithms(c), c).None?
  {
    if counts == [] || TryAlgorithms(table, b, counts[0], Algorithms(c), c).Some? {
      j := 0;
    } else {
      var rest := CardsExact(table, b, counts[1..], c);
      j := rest + 1;
      assert forall j' | 1 <= j' < j :: counts[j'] == counts[1..][j' - 1];
    }
  }

  lemma {:induction false} BackendsExact(table: seq<Row>, backends: seq<string>, c: Coordinates) returns (i: nat)
    ensures match TryBackends(table, backends, c)
            case Some(hit) => i < |backends| && TryCards(table, backends[i], CardCounts(c), c) == Some(hit)
            case None => i == |backends|
    ensures forall i' | 0 <= i' < i :: TryCards(table, backends[i'], CardCounts(c), c).None?
  {
    if backends == [] || TryCards(table, backends[0], CardCounts(c), c).Some? {
      i := 0;
    } else {
      var rest := BackendsExact(table, backends[1..], c);
      i := rest + 1;
      assert forall i' | 1 <= i' < i :: backends[i'] == backends[1..][i' - 1];
    }
  }

  lemma {:induction false} NoneForBackend(table: seq<Row>, c: Coordinates, i: nat, j: nat, k: nat)
    requires i < |Backends(c)| && j < |CardCounts(c)| && k < |Algorithms(c)|
    requires TryCards(table, Backends(c)[i], CardCounts(c), c).None?
    ensures FindTierCalibration(table, QueryAt(c, i, j, k)).None?
  {
    var j' := CardsExact(table, Backends(c)[i], CardCounts(c), c);
    NoneForCards(table, c, i, j, k);
  }

  lemma {:induction false} NoneForCards(table: seq<Row>, c: Coordinates, i: nat, j: nat, k: nat)
    requires i < |Backends(c)| && j < |CardCounts(c)| && k < |Algorithms(c)|
    requires TryAlgorithms(table, Backends(c)[i], CardCounts(c)[j], Algorithms(c), c).None?
    ensures FindTierCalibration(table, QueryAt(c, i, j, k)).None?
  {
    var k' := AlgorithmsExact(table, Backends(c)[i], CardCounts(c)[j], Algorithms(c), c);
  }

  /** Resolution answers with the first completion tried that has a row, and fails exactly when none has. */
  lemma {:induction false} ResolutionIsOrdered(table: seq<Row>, c: Coordinates)
    ensures match ResolveTierCalibration(table, c)
            case Some(hit) => exists i: nat, j: nat, k: nat :: FirstAnswer(table, c, i, j, k, hit)
            case None => forall i: nat, j: nat, k: nat | i < |Backends(c)| && j < |CardCounts(c)| && k < |Algorithms(c)| ::
                           FindTierCalibration(table, QueryAt(c, i, j, k)).None?
  {
    var i := BackendsExact(table, Backends(c), c);
    forall i': nat, j': nat, k': nat | i' < i && j' < |CardCounts(c)| && k' < |Algorithms(c)|
      ensures FindTierCalibration(table, QueryAt(c, i', j', k')).None?
    {
      NoneForBackend(table, c, i', j', k');
    }
    if i < |Backends(c)| {
      var j := CardsExact(table, Backends(c)[i], CardCounts(c), c);
      forall j': nat, k': nat | j' < j && k' < |Algorithms(c)|
        ensures FindTierCalibration(table, QueryAt(c, i, j', k')).None?
      {
        NoneForCards(table, c, i, j', k');
      }
      var k := AlgorithmsExact(table, Backends(c)[i], CardCounts(c)[j], Algorithms(c), c);
      assert FirstAnswer(table, c, i, j, k, ResolveTierCalibration(table, c).value);
    }
  }

  /** A query that fills in every missing coordinate from the registered fallbacks. */
  ghost predicate Completes(q: Query, c: Coordinates) {
    q.backend in Backends(c) && q.cards in CardCounts(c) && q.algorithm in Algorithms(c)
    && q.model == c.model && q.mode == c.mode
  }

  /** In particular a hit is an admissible row for some completion, and a miss means that no completion has one. */
  lemma {:induction false} ResolutionIsExact(table: seq<Row>, c: Coordinates)
    ensures match ResolveTierCalibration(table, c)
            case Some(hit) => hit in table && exists q :: Completes(q, c) && Admissible(hit, q)
            case None => forall q, row | Completes(q, c) && row in table :: !Admissible(row, q)
  {
    ResolutionIsOrdered(table, c);
    match ResolveTierCalibration(table, c)
    case Some(hit) =>
      var i: nat, j: nat, k: nat :| FirstAnswer(table, c, i, j, k, hit);
      LookupIsExact(table, QueryAt(c, i, j, k));
      assert Completes(QueryAt(c, i, j, k), c);
    case None =>
      forall q, row | Completes(q, c) && row in table ensures !Admissible(row, q) {
        var i: nat :| i < |Backends(c)| && Backends(c)[i] == q.backend;
        var j: nat :| j < |CardCounts(c)| && CardCounts(c)[j] == q.cards;
        var k: nat :| k < |Algorithms(c)| && Algorithms(c)[k] == q.algorithm;
        assert QueryAt(c, i, j, k) == q;
        LookupIsExact(table, q);
      }
  }

  /** Every row of the table carries a tolerance the validator lets through. */
  ghost predicate ValidTable(table: seq<Row>) {
    forall row | row in table :: TolerancePasses(row.tol, MIN_BUG_SIGNATURE)
  }

  /** The registered table; every row is a wildcard over model and mode. */
  const A4_TIER_CALIBRATIONS: seq<Row> := [
    Row("native", 1, "SFT", None, None, HARD_UPPER_BOUND, Calibrated),
    Row("ms-swift", 1, "SFT", None, None, 0.00672, Calibrated),
    Row("ms-swift", 1, "GRPO", None, None, BASELINE_DRIFT, Degenerate),
    Row("native", 2, "SFT", None, None, BASELINE_DRIFT, InsufficientN),
    Row("ms-swift", 2, "SFT", None, None, BASELINE_DRIFT, InsufficientN),
    Row("ms-swift", 2, "GRPO", None, None, 0.006020861864089967, Calibrated)
  ]

  /** The pools recorded beside the first and the last row. */
  const ONE_CARD_NATIVE: seq<real> := [0.038818359375, 0.0517578125, 0.043212890625, 0.0732421875, 0.064453125]
  const TWO_CARD_GRPO: seq<real> := [
    -0.019665956497192383, -0.016562902927398683, -0.01565204858779907, -0.01878647804260254, -0.016518282890319824
  ]

  /** The answer of the registered table, by backend, cards and algorithm; model and mode play no part. */
  function RegisteredRow(backend: string, cards: int, algorithm: string): Option<Row> {
    if backend == "native" && cards == 1 && algorithm == "SFT" then Some(A4_TIER_CALIBRATIONS[0])
    else if backend == "ms-swift" && cards == 1 && algorithm == "SFT" then Some(A4_TIER_CALIBRATIONS[1])
    else if backend == "ms-swift" && cards == 1 && algorithm == "GRPO" then Some(A4_TIER_CALIBRATIONS[2])
    else if backend == "native" && cards == 2 && algorithm == "SFT" then Some(A4_TIER_CALIBRATIONS[3])
    else if backend == "ms-swift" && cards == 2 && algorithm == "SFT" then Some(A4_TIER_CALIBRATIONS[4])
    else if backend == "ms-swift" && cards == 2 && algorithm == "GRPO" then Some(A4_TIER_CALIBRATIONS[5])
    else None
  }

  lemma {:induction false} RegisteredLookup(q: Query)
    ensures FindTierCalibration(A4_TIER_CALIBRATIONS, q) == RegisteredRow(q.backend, q.cards, NormalizeAlgorithm(q.algorithm))
  {
    LookupIsExact(A4_TIER_CALIBRATIONS, q);
    var expected := RegisteredRow(q.backend, q.cards, NormalizeAlgorithm(q.algorithm));
    if expected.Some? {
      assert expected.value in A4_TIER_CALIBRATIONS && Admissible(expected.value, q);
    }
  }

  /** A coordinate is missing or is that of the row. */
  predicate Suits(c: Coordinates, row: Row) {
    && (!Known(c.backend) || c.backend.value == row.backend)
    && (c.cards.None? || c.cards.value == row.cards)
    && (!Known(c.algorithm) || NormalizeAlgorithm(c.algorithm.value) == row.algorithm)
  }

  /** The registered table passes the load-time check, and coordinates resolve in it exactly when some row suits them. */
  lemma {:induction false} RegisteredTable(c: Coordinates)
    ensures ValidTable(A4_TIER_CALIBRATIONS)
    ensures ResolveTierCalibration(A4_TIER_CALIBRATIONS, c).Some? <==> exists row :: row in A4_TIER_CALIBRATIONS && Suits(c, row)
  {
    RegisteredTolerancesPass();
    var resolved := ResolveTierCalibration(A4_TIER_CALIBRATIONS, c);
    if resolved.Some? {
      HitSuits(A4_TIER_CALIBRATIONS, c, resolved.value);
    }
    if row :| row in A4_TIER_CALIBRATIONS && Suits(c, row) {
      SuitsCompletes(c, row);
      Resolves(A4_TIER_CALIBRATIONS, c, row);
    }
  }

  lemma {:induction false} RegisteredTolerancesPass()
    ensures ValidTable(A4_TIER_CALIBRATIONS)
  {
  }

  /**
   The rows carry what their recorded pools derive: a spread over the cap, six equal readings, no readings,
   and a two-card pool whose recorded tolerance differs from the exact one by less than a float can tell.
   */
  lemma {:induction false} RegisteredRowsAreDerived()
    ensures var t, one, zeros := A4_TIER_CALIBRATIONS, ONE_CARD_NATIVE, [0.0, 0.0, 0.0, 0.0, 0.0, 0.0];
            && Tolerance(one) == Derived(t[0].tol, t[0].outcome) == Derived(0.04675, Calibrated)
            && t[1].tol == 1.5 * 0.00448 && t[1].outcome == Calibrated
            && Tolerance(zeros) == Derived(t[2].tol, t[2].outcome) == Derived(0.0010302, Degenerate)
            && Tolerance([]) == Derived(t[3].tol, t[3].outcome) == Derived(t[4].tol, t[4].outcome)
               == Derived(0.0010302, InsufficientN)
  {
    NoReadings(MIN_BUG_SIGNATURE, MIN_READINGS);
    DefaultToleranceValue([0.0, 0.0, 0.0, 0.0, 0.0, 0.0], 0.0, 0.0);
    DefaultToleranceValue(ONE_CARD_NATIVE, 0.038818359375, 0.0732421875);
  }

  lemma {:induction false} TwoCardRowIsDerived()
    ensures Tolerance(TWO_CARD_GRPO).Derived? && Tolerance(TWO_CARD_GRPO).outcome == A4_TIER_CALIBRATIONS[5].outcome
    ensures Abs(Tolerance(TWO_CARD_GRPO).tol - A4_TIER_CALIBRATIONS[5].tol) < 0.000000000000001
  {
    DefaultToleranceValue(TWO_CARD_GRPO, -0.019665956497192383, -0.01565204858779907);
  }

  lemma {:induction false} HitSuits(table: seq<Row>, c: Coordinates, hit: Row)
    requires ResolveTierCalibration(table, c) == Some(hit)
    ensures hit in table && Suits(c, hit)
  {
    ResolutionIsExact(table, c);
    var q :| Completes(q, c) && Admissible(hit, q);
  }

  lemma {:induction false} Resolves(table: seq<Row>, c: Coordinates, row: Row)
    requires row in table && exists q :: Completes(q, c) && Admissible(row, q)
    ensures ResolveTierCalibration(table, c).Some?
  {
    ResolutionIsExact(table, c);
  }

  lemma {:induction false} SuitsCompletes(c: Coordinates, row: Row)
    requires row in A4_TIER_CALIBRATIONS && Suits(c, row)
    ensures exists q :: Completes(q, c) && Admissible(row, q)
  {
    var algorithm := if Known(c.algorithm) then c.algorithm.value else row.algorithm;
    var q := Query(row.backend, row.cards, algorithm, c.model, c.mode);
    assert BACKEND_FALLBACK[0] == "native" && BACKEND_FALLBACK[1] == "ms-swift";
    assert CARDS_FALLBACK[0] == 1 && CARDS_FALLBACK[1] == 2;
    assert ALGORITHM_FALLBACK[0] == "SFT" && ALGORITHM_FALLBACK[1] == "GRPO";
    assert Completes(q, c) && Admissible(row, q);
  }

  /** The coordinates of a query after losing some of them. */
  function Without(q: Query, noBackend: bool, noCards: bool, noAlgorithm: bool): Coordinates {
    Coordinates(if noBackend then None else Some(q.backend), if noCards then None else Some(q.cards),
                if noAlgorithm then None else Some(q.algorithm), q.model, q.mode)
  }

  /** Which losses raise the tolerance of which runs. */
  predicate LossRaises(q: Query, noBackend: bool, noCards: bool, noAlgorithm: bool) {
    var algorithm := NormalizeAlgorithm(q.algorithm);
    || (noCards && q.cards == 2 && algorithm == "SFT")
    || (noBackend && q.backend == "ms-swift" && q.cards == 1 && algorithm == "SFT")
    || (noAlgorithm && q.backend == "ms-swift" && q.cards == 1 && algorithm == "GRPO")
    || (noCards && noAlgorithm && q.backend == "ms-swift" && q.cards == 2 && algorithm == "GRPO")
  }

  lemma {:induction false} TriesRegistered(backend: string, cards: int, algorithm: string, c: Coordinates)
    ensures TryAlgorithms(A4_TIER_CALIBRATIONS, backend, cards, [algorithm], c)
            == RegisteredRow(backend, cards, NormalizeAlgorithm(algorithm))
    ensures TryAlgorithms(A4_TIER_CALIBRATIONS, backend, cards, ALGORITHM_FALLBACK, c)
            == if RegisteredRow(backend, cards, "SFT").Some? then RegisteredRow(backend, cards, "SFT")
               else RegisteredRow(backend, cards, "GRPO")
  {
    RegisteredLookup(Query(backend, cards, algorithm, c.model, c.mode));
    RegisteredLookup(Query(backend, cards, "SFT", c.model, c.mode));
    RegisteredLookup(Query(backend, cards, "GRPO", c.model, c.mode));
    assert ALGORITHM_FALLBACK[1..] == ["GRPO"] && ["GRPO"][1..] == [] && [algorithm][1..] == [];
  }

  /** First row of a backend, with or without its cards and algorithm. */
  function RowOfBackend(backend: string, q: Query, noCards: bool, noAlgorithm: bool): Option<Row> {
    var one := RowAt(backend, 1, q, noAlgorithm);
    if !noCards then RowAt(backend, q.cards, q, noAlgorithm)
    else if one.Some? then one else RowAt(backend, 2, q, noAlgorithm)
  }

  function RowAt(backend: string, cards: int, q: Query, noAlgorithm: bool): Option<Row> {
    if !noAlgorithm then RegisteredRow(backend, cards, NormalizeAlgorithm(q.algorithm))
    else if RegisteredRow(backend, cards, "SFT").Some? then RegisteredRow(backend, cards, "SFT")
    else RegisteredRow(backend, cards, "GRPO")
  }

  lemma {:induction false} TriesBackend(backend: string, q: Query, noBackend: bool, noCards: bool, noAlgorithm: bool)
    requires q.algorithm != ""
    ensures var c := Without(q, noBackend, noCards, noAlgorithm);
            TryCards(A4_TIER_CALIBRATIONS, backend, CardCounts(c), c) == RowOfBackend(backend, q, noCards, noAlgorithm)
  {
    var c := Without(q, noBackend, noCards, noAlgorithm);
    forall n ensures TryAlgorithms(A4_TIER_CALIBRATIONS, backend, n, Algorithms(c), c) == RowAt(backend, n, q, noAlgorithm) {
      TriesRegistered(backend, n, q.algorithm, c);
    }
    OneCount(backend, q.cards, c);
    OneCount(backend, 2, c);
    assert CARDS_FALLBACK[0] == 1 && CARDS_FALLBACK[1..] == [2];
  }

  lemma {:induction false} OneCount(backend: string, n: int, c: Coordinates)
    ensures TryCards(A4_TIER_CALIBRATIONS, backend, [n], c)
            == TryAlgorithms(A4_TIER_CALIBRATIONS, backend, n, Algorithms(c), c)
  {
    assert [n][1..] == [];
  }

  lemma {:induction false} OneBackend(backend: string, c: Coordinates)
    ensures TryBackends(A4_TIER_CALIBRATIONS, [backend], c) == TryCards(A4_TIER_CALIBRATIONS, backend, CardCounts(c), c)
  {
    assert [backend][1..] == [];
  }

  lemma {:induction false} ResolvedWithout(q: Query, noBackend: bool, noCards: bool, noAlgorithm: bool)
    requires q.algorithm != "" && q.backend != ""
    ensures ResolveTierCalibration(A4_TIER_CALIBRATIONS, Without(q, noBackend, noCards, noAlgorithm))
            == (var native := RowOfBackend("native", q, noCards, noAlgorithm);
                if !noBackend then RowOfBackend(q.backend, q, noCards, noAlgorithm)
                else if native.Some? then native else RowOfBackend("ms-swift", q, noCards, noAlgorithm))
  {
    TriesBackend(q.backend, q, noBackend, noCards, noAlgorithm);
    TriesBackend("native", q, noBackend, noCards, noAlgorithm);
    TriesBackend("ms-swift", q, noBackend, noCards, noAlgorithm);
    var c := Without(q, noBackend, noCards, noAlgorithm);
    OneBackend(q.backend, c);
    OneBackend("ms-swift", c);
    assert BACKEND_FALLBACK[0] == "native" && BACKEND_FALLBACK[1..] == ["ms-swift"];
  }

  /**
   Completing missing coordinates is documented never to raise the tolerance.  Whatever a run that has a row loses,
   the completed lookup has a row again, and the tolerance rises exactly for the listed losses.
   */
  lemma {:induction false} DroppedCoordinates(q: Query, hit: Row, noBackend: bool, noCards: bool, noAlgorithm: bool)
    requires FindTierCalibration(A4_TIER_CALIBRATIONS, q) == Some(hit)
    ensures var completed := ResolveTierCalibration(A4_TIER_CALIBRATIONS, Without(q, noBackend, noCards, noAlgorithm));
            completed.Some? && (completed.value.tol > hit.tol <==> LossRaises(q, noBackend, noCards, noAlgorithm))
  {
    RegisteredLookup(q);
    ResolvedWithout(q, noBackend, noCards, noAlgorithm);
    RowsAreOrdered();
  }

  lemma {:induction false} RowsAreOrdered()
    ensures var t := A4_TIER_CALIBRATIONS;
            t[2].tol == t[3].tol == t[4].tol < t[5].tol < t[1].tol < t[0].tol == HARD_UPPER_BOUND
  {
  }
}
