/**
 The evidence folds in front of the verdict engine: rank-metric rows become loss and gradient series, rank
 files become one skip count.  Which missing or unreadable numbers can still turn into a pass is stated exactly.
 */
module Collect {
  import opened Wrappers
  import opened Numerals
  import opened Verdict
  import Calibration

  // ----- loss and gradient series from rank-metric rows

  /** One training step of rank 0; a step total that is no integer is absent, a JSON `true` or `false` is 1 or 0. */
  datatype MetricRow = MetricRow(globalLossMean: Option<string>, globalGradNormMean: Option<string>,
                                 optimizerStepsSum: Option<int>)

  /** Any reader of JSON values: null reads as nothing, and nothing reads as the missing marker. */
  ghost predicate Reader(parse: Option<string> -> Option<Reading>) {
    parse(None) == None && forall raw :: parse(raw) != Some(Missing)
  }

  lemma {:induction false} ParseNumericIsReader()
    ensures Reader(ParseNumeric)
  {
  }

  function ReadingOf(raw: Option<string>, parse: Option<string> -> Option<Reading>): Reading {
    if parse(raw).Some? then parse(raw).value else Missing
  }

  datatype Series = Series(steps: Option<int>, losses: seq<Reading>, gradNorms: seq<Reading>, stepsPerStep: seq<int>,
                           lossUnavailable: bool, firstLoggedStep: Option<int>)

  /** The integer step totals, in row order. */
  function StepTotals(rows: seq<MetricRow>): seq<int> {
    if rows == [] then []
    else
      var last := rows[|rows| - 1].optimizerStepsSum;
      StepTotals(rows[..|rows| - 1]) + if last.Some? then [last.value] else []
  }

  /** What the rows say; without rows no step and no first step is known. */
  function SeriesOf(rows: seq<MetricRow>, parse: Option<string> -> Option<Reading>): Series {
    Series(
      if rows == [] then None else Some(|rows|),
      seq(|rows|, k requires 0 <= k < |rows| => ReadingOf(rows[k].globalLossMean, parse)),
      seq(|rows|, k requires 0 <= k < |rows| => ReadingOf(rows[k].globalGradNormMean, parse)),
      StepTotals(rows),
      exists k | 0 <= k < |rows| :: rows[k].globalLossMean.None?,
      if rows == [] then None else Some(1))
  }

  /** One more row; the step count and the first step wait for the last. */
  function WithRow(s: Series, row: MetricRow, parse: Option<string> -> Option<Reading>): Series {
    s.(losses := s.losses + [ReadingOf(row.globalLossMean, parse)],
       gradNorms := s.gradNorms + [ReadingOf(row.globalGradNormMean, parse)],
       stepsPerStep := s.stepsPerStep + (if row.optimizerStepsSum.Some? then [row.optimizerStepsSum.value] else []),
       lossUnavailable := s.lossUnavailable || row.globalLossMean.None?)
  }

  function Pending(rows: seq<MetricRow>, parse: Option<string> -> Option<Reading>): Series {
    SeriesOf(rows, parse).(steps := None, firstLoggedStep := None)
  }

  lemma {:induction false} PendingNext(rows: seq<MetricRow>, n: nat, parse: Option<string> -> Option<Reading>)
    requires n < |rows|
    ensures Pending(rows[..n + 1], parse) == WithRow(Pending(rows[..n], parse), rows[n], parse)
  {
    assert rows[..n + 1][..n] == rows[..n];
    assert forall k | 0 <= k < n :: rows[..n + 1][k] == rows[..n][k];
    assert rows[..n + 1][n] == rows[n];
  }

  class SeriesEvidence {
    var steps: Option<int>
    var losses: seq<Reading>
    var gradNorms: seq<Reading>
    var optimizerStepsPerStep: seq<int>
    var lossUnavailable: bool
    var firstLoggedStep: Option<int>

    constructor ()
      ensures Contents() == Series(None, [], [], [], false, None)
    {
      steps, losses, gradNorms, optimizerStepsPerStep, lossUnavailable, firstLoggedStep := None, [], [], [], false, None;
    }

    function Contents(): Series
      reads this
    {
      Series(steps, losses, gradNorms, optimizerStepsPerStep, lossUnavailable, firstLoggedStep)
    }

    /** The body of the row loop: a null is the missing marker, whatever the reader says of it. */
    method AddRow(row: MetricRow, parse: Option<string> -> Option<Reading>)
      requires Reader(parse)
      modifies this
      ensures Contents() == WithRow(old(Contents()), row, parse)
    {
      var loss := parse(row.globalLossMean);
      var grad := parse(row.globalGradNormMean);
      if row.globalLossMean.None? {
        lossUnavailable := true;
        loss := Some(Missing);
      }
      if row.globalGradNormMean.None? {
        grad := Some(Missing);
      }
      losses := losses + [if loss.Some? then loss.value else Missing];
      gradNorms := gradNorms + [if grad.Some? then grad.value else Missing];
      if row.optimizerStepsSum.Some? {
        optimizerStepsPerStep := optimizerStepsPerStep + [row.optimizerStepsSum.value];
      }
    }
  }

  /** The rank-metrics branch. */
  method CollectSeries(rows: seq<MetricRow>, parse: Option<string> -> Option<Reading>) returns (result: SeriesEvidence)
    requires Reader(parse)
    ensures fresh(result) && result.Contents() == SeriesOf(rows, parse)
  {
    result := new SeriesEvidence();
    if rows == [] {
      return;
    }
    for n := 0 to |rows|
      invariant fresh(result) && result.Contents() == Pending(rows[..n], parse)
    {
      PendingNext(rows, n, parse);
      result.AddRow(rows[n], parse);
    }
    assert rows[..|rows|] == rows;
    result.steps := Some(|result.losses|);
    result.firstLoggedStep := Some(1);
  }

  /** The run evidence; the branch returns before the tail that would set the non-finite flag. */
  function WithSeries(e: Evidence, s: Series): Evidence {
    e.(optimizerSteps := s.steps, losses := s.losses, gradNorms := s.gradNorms,
       stepsPerStep := if s.stepsPerStep == [] then None else Some(s.stepsPerStep),
       lossesNonfinite := false, lossesUnavailable := s.lossUnavailable, firstLoggedStep := s.firstLoggedStep)
  }

  predicate ReadsFinite(raw: Option<string>, parse: Option<string> -> Option<Reading>) {
    parse(raw).Some? && parse(raw).value.Finite?
  }

  predicate ReadsNonFinite(raw: Option<string>, parse: Option<string> -> Option<Reading>) {
    parse(raw).Some? && NonFinite(parse(raw).value)
  }

  ghost predicate Healthy(rows: seq<MetricRow>, parse: Option<string> -> Option<Reading>) {
    && rows != []
    && (forall k | 0 <= k < |rows| :: ReadsFinite(rows[k].globalLossMean, parse))
    && (forall k | 0 <= k < |rows| :: !ReadsNonFinite(rows[k].globalGradNormMean, parse))
  }

  ghost predicate ReadsAnomaly(rows: seq<MetricRow>, parse: Option<string> -> Option<Reading>) {
    exists k :: 0 <= k < |rows|
                && (ReadsNonFinite(rows[k].globalLossMean, parse) || ReadsNonFinite(rows[k].globalGradNormMean, parse))
  }

  /**
   Collection and A6 together, on evidence whose only series source is these rows: A6 passes exactly on healthy rows,
   calls an anomaly exactly a number that was read, and every other failure is a gap.
   */
  lemma {:induction false} A6Exactly(e: Evidence, rows: seq<MetricRow>, parse: Option<string> -> Option<Reading>)
    requires Reader(parse)
    ensures var a6 := JudgeA6(WithSeries(e, SeriesOf(rows, parse)));
            && (a6.passed <==> Healthy(rows, parse))
            && (a6.detail.NanInf? <==> ReadsAnomaly(rows, parse))
            && (a6.evidenceMissing <==> !a6.passed && !a6.detail.NanInf?)
  {
    var s := SeriesOf(rows, parse);
    forall k | 0 <= k < |rows|
      ensures NonFinite(s.losses[k]) <==> ReadsNonFinite(rows[k].globalLossMean, parse)
      ensures NonFinite(s.gradNorms[k]) <==> ReadsNonFinite(rows[k].globalGradNormMean, parse)
      ensures s.losses[k].Missing? <==> parse(rows[k].globalLossMean).None?
      ensures s.losses[k].Missing? ==> Missing in s.losses
    {
      assert s.losses[k] in s.losses;
    }
  }

  ghost predicate RowsReadFinite(rows: seq<MetricRow>, parse: Option<string> -> Option<Reading>) {
    rows != []
    && forall k | 0 <= k < |rows| :: ReadsFinite(rows[k].globalLossMean, parse) && ReadsFinite(rows[k].globalGradNormMean, parse)
  }

  /** Rows with finite losses pass A6 although not a single gradient norm can be read. */
  lemma {:induction false} UnreadGradientsPass(e: Evidence, rows: seq<MetricRow>, parse: Option<string> -> Option<Reading>)
    requires Reader(parse) && rows != []
    requires forall k | 0 <= k < |rows| :: ReadsFinite(rows[k].globalLossMean, parse) && rows[k].globalGradNormMean.None?
    ensures var run := WithSeries(e, SeriesOf(rows, parse));
            JudgeA6(run).passed && forall k | 0 <= k < |rows| :: run.gradNorms[k].Missing?
  {
    A6Exactly(e, rows, parse);
  }

  /**
   A number that cannot be read is documented to count as missing evidence, so that A6 would pass exactly when every
   loss and every gradient norm reads as finite.  For given rows that is what it does unless they are healthy and a
   gradient norm in them cannot be read.
   */
  lemma {:induction false} A6IsFailClosedExactly(e: Evidence, rows: seq<MetricRow>, parse: Option<string> -> Option<Reading>)
    requires Reader(parse)
    ensures (JudgeA6(WithSeries(e, SeriesOf(rows, parse))).passed <==> RowsReadFinite(rows, parse))
            <==> !(Healthy(rows, parse) && exists k :: 0 <= k < |rows| && parse(rows[k].globalGradNormMean).None?)
  {
    A6Exactly(e, rows, parse);
  }

  // ----- skipped steps over all rank files

  /** The two skip counters of one row, where they are integers. */
  datatype SkipRow = SkipRow(globalSum: Option<int>, local: Option<int>)

  datatype RankFile = RankFile(name: string, rows: seq<SkipRow>)

  function RowValue(row: SkipRow): Option<int> {
    match (row.globalSum, row.local)
    case (None, b) => b
    case (a, None) => a
    case (Some(a), Some(b)) => Some(if a > b then a else b)
  }

  function Plus(total: Option<int>, value: Option<int>): Option<int> {
    match (total, value)
    case (t, None) => t
    case (None, v) => v
    case (Some(t), Some(v)) => Some(t + v)
  }

  /** Sum over the rows that have a reading; nothing when none has. */
  function Total(rows: seq<SkipRow>): Option<int> {
    if rows == [] then None else Plus(Total(rows[..|rows| - 1]), RowValue(rows[|rows| - 1]))
  }

  /** What the per-rank dict holds after the files: a later file of the same name replaces an earlier one. */
  function PerRank(files: seq<RankFile>): map<string, int> {
    if files == [] then map[]
    else
      var before, last := PerRank(files[..|files| - 1]), files[|files| - 1];
      if Total(last.rows).None? then before else before[last.name := Total(last.rows).value]
  }

  ghost predicate IsWorst(worst: Option<int>, perRank: map<string, int>) {
    match worst
    case None => perRank == map[]
    case Some(w) => (exists name :: name in perRank && perRank[name] == w)
                    && forall name | name in perRank :: perRank[name] <= w
  }

  method RankTotal(rows: seq<SkipRow>) returns (total: Option<int>)
    ensures total == Total(rows)
  {
    total := None;
    for n := 0 to |rows|
      invariant total == Total(rows[..n])
    {
      assert rows[..n + 1][..n] == rows[..n];
      var value := RowValue(rows[n]);
      if value.Some? {
        total := if total.None? then value else Some(total.value + value.value);
      }
    }
    assert rows[..|rows|] == rows;
  }

  method MaxValue(perRank: map<string, int>) returns (worst: Option<int>)
    ensures IsWorst(worst, perRank)
  {
    worst := None;
    var left := perRank.Keys;
    while left != {}
      invariant left <= perRank.Keys
      invariant worst.None? ==> left == perRank.Keys
      invariant worst.Some? ==> exists name :: name in perRank && perRank[name] == worst.value
      invariant forall name | name in perRank && name !in left :: worst.Some? && perRank[name] <= worst.value
      decreases left
    {
      var name :| name in left;
      left := left - {name};
      if worst.None? || perRank[name] > worst.value {
        worst := Some(perRank[name]);
      }
    }
  }

  method ExtractSkipped(files: seq<RankFile>) returns (worst: Option<int>, perRank: map<string, int>)
    ensures perRank == PerRank(files) && IsWorst(worst, perRank)
  {
    perRank := map[];
    for n := 0 to |files|
      invariant perRank == PerRank(files[..n])
    {
      assert files[..n + 1][..n] == files[..n];
      var total := RankTotal(files[n].rows);
      if total.Some? {
        perRank := perRank[files[n].name := total.value];
      }
    }
    assert files[..|files|] == files;
    worst := MaxValue(perRank);
  }

  /** File `k` decides the entry of its name: it has a reading and no later file of that name has one. */
  ghost predicate Decides(files: seq<RankFile>, k: int) {
    && 0 <= k < |files| && Total(files[k].rows).Some?
    && forall j | k < j < |files| && files[j].name == files[k].name :: Total(files[j].rows).None?
  }

  /** Some deciding file of that name has that total. */
  ghost predicate Holds(files: seq<RankFile>, name: string, value: int) {
    exists k :: Decides(files, k) && files[k].name == name && Total(files[k].rows) == Some(value)
  }

  lemma {:induction false} HoldsAfter(files: seq<RankFile>, last: RankFile, name: string, value: int)
    ensures Holds(files + [last], name, value)
            <==> if Total(last.rows).Some? && last.name == name then Total(last.rows) == Some(value)
                 else Holds(files, name, value)
  {
    var all := files + [last];
    assert all[|files|] == last && forall j | 0 <= j < |files| :: all[j] == files[j];
    if Total(last.rows).Some? && last.name == name {
      assert Decides(all, |files|);
      assert forall k | Decides(all, k) && all[k].name == name :: k == |files|;
    } else {
      if Holds(files, name, value) {
        var k :| Decides(files, k) && files[k].name == name && Total(files[k].rows) == Some(value);
        assert Decides(all, k);
      }
      if Holds(all, name, value) {
        var k :| Decides(all, k) && all[k].name == name && Total(all[k].rows) == Some(value);
        assert k != |files| && files[k] == all[k];
        forall j | k < j < |files| && files[j].name == files[k].name ensures Total(files[j].rows).None? {
          assert all[j] == files[j];
        }
        assert Decides(files, k);
      }
    }
  }

  lemma {:induction false} PerRankHolds(files: seq<RankFile>, name: string, value: int)
    ensures (name in PerRank(files) && PerRank(files)[name] == value) <==> Holds(files, name, value)
  {
    if files != [] {
      var front, last := files[..|files| - 1], files[|files| - 1];
      PerRankHolds(front, name, value);
      HoldsAfter(front, last, name, value);
      assert files == front + [last];
    }
  }

  /** A counter that is absent or zero. */
  predicate Quiet(counter: Option<int>) {
    counter.None? || counter.value == 0
  }

  /** Neither counter of any row shows a skipped step. */
  predicate Silent(rows: seq<SkipRow>) {
    forall i | 0 <= i < |rows| :: Quiet(rows[i].globalSum) && Quiet(rows[i].local)
  }

  predicate NonNegative(rows: seq<SkipRow>) {
    forall i | 0 <= i < |rows| ::
      && (rows[i].globalSum.Some? ==> rows[i].globalSum.value >= 0)
      && (rows[i].local.Some? ==> rows[i].local.value >= 0)
  }

  /** The value of a row is the larger of its counters; without a counter it has none. */
  lemma {:induction false} RowValueMeans(row: SkipRow)
    ensures RowValue(row).None? <==> row.globalSum.None? && row.local.None?
    ensures RowValue(row).Some? ==> RowValue(row) == row.globalSum || RowValue(row) == row.local
    ensures row.globalSum.Some? ==> row.globalSum.value <= RowValue(row).value
    ensures row.local.Some? ==> row.local.value <= RowValue(row).value
  {
  }

  lemma {:induction false} LastRow(rows: seq<SkipRow>, front: seq<SkipRow>, last: SkipRow)
    requires rows == front + [last]
    ensures Silent(rows) <==> Silent(front) && Quiet(last.globalSum) && Quiet(last.local)
    ensures NonNegative(rows) ==> NonNegative(front)
    ensures NonNegative(rows) && RowValue(last).Some? ==>
              RowValue(last).value >= 0 && (RowValue(last).value == 0 <==> Quiet(last.globalSum) && Quiet(last.local))
    ensures RowValue(last).None? ==> Quiet(last.globalSum) && Quiet(last.local)
  {
    assert rows[|front|] == last && forall i | 0 <= i < |front| :: front[i] == rows[i];
  }

  lemma {:induction false} TotalIsZeroExactly(rows: seq<SkipRow>)
    requires NonNegative(rows)
    ensures Total(rows).Some? ==> Total(rows).value >= 0 && (Total(rows).value == 0 <==> Silent(rows))
    ensures Total(rows).None? ==> Silent(rows)
    ensures Total(rows).None? <==> forall i | 0 <= i < |rows| :: RowValue(rows[i]).None?
  {
    if rows != [] {
      var front, last := rows[..|rows| - 1], rows[|rows| - 1];
      LastRow(rows, front, last);
      TotalIsZeroExactly(front);
      ReadRows(rows, front, last);
    }
  }

  lemma {:induction false} ReadRows(rows: seq<SkipRow>, front: seq<SkipRow>, last: SkipRow)
    requires rows == front + [last]
    ensures (forall i | 0 <= i < |rows| :: RowValue(rows[i]).None?)
            <==> (forall i | 0 <= i < |front| :: RowValue(front[i]).None?) && RowValue(last).None?
  {
    assert rows[|front|] == last && forall i | 0 <= i < |front| :: front[i] == rows[i];
  }

  lemma {:induction false} AnyReadingShows(files: seq<RankFile>)
    ensures PerRank(files) == map[] <==> forall k | 0 <= k < |files| :: Total(files[k].rows).None?
  {
    if files != [] {
      var front, last := files[..|files| - 1], files[|files| - 1];
      AnyReadingShows(front);
      assert files == front + [last];
      if Total(last.rows).Some? {
        assert last.name in PerRank(files);
      }
    }
  }

  ghost predicate AnyReading(files: seq<RankFile>) {
    exists k :: 0 <= k < |files| && Total(files[k].rows).Some?
  }

  /** The largest deciding total is zero. */
  ghost predicate ZeroIsWorst(files: seq<RankFile>) {
    (exists k :: Decides(files, k) && Total(files[k].rows) == Some(0))
    && forall k | Decides(files, k) :: Total(files[k].rows).value <= 0
  }

  lemma {:induction false} WorstIsZeroExactly(files: seq<RankFile>, worst: int)
    requires IsWorst(Some(worst), PerRank(files))
    ensures worst == 0 <==> ZeroIsWorst(files)
    ensures exists k :: Decides(files, k)
  {
    var perRank := PerRank(files);
    var name :| name in perRank && perRank[name] == worst;
    PerRankHolds(files, name, worst);
    var w :| Decides(files, w) && files[w].name == name && Total(files[w].rows) == Some(worst);
    forall k | Decides(files, k) ensures Total(files[k].rows).value <= worst {
      PerRankHolds(files, files[k].name, Total(files[k].rows).value);
    }
  }

  /** Without negative readings the largest total is zero exactly when every deciding file is silent. */
  lemma {:induction false} ZeroMeansSilent(files: seq<RankFile>)
    requires forall k | 0 <= k < |files| :: NonNegative(files[k].rows)
    requires exists k :: Decides(files, k)
    ensures ZeroIsWorst(files) <==> forall k | Decides(files, k) :: Silent(files[k].rows)
  {
    forall k | Decides(files, k)
      ensures Total(files[k].rows).value >= 0 && (Total(files[k].rows).value == 0 <==> Silent(files[k].rows))
    {
      TotalIsZeroExactly(files[k].rows);
    }
    var w :| Decides(files, w);
    assert (forall k | Decides(files, k) :: Silent(files[k].rows)) ==> Total(files[w].rows) == Some(0);
  }

  predicate AllNonNegative(files: seq<RankFile>) {
    forall k | 0 <= k < |files| :: NonNegative(files[k].rows)
  }

  /** No deciding file shows a skipped step. */
  ghost predicate SilentWhereRead(files: seq<RankFile>) {
    forall k | Decides(files, k) :: Silent(files[k].rows)
  }

  /** Collection and A7 together; `fallback` is the series' own count, used when no rank file has a reading. */
  method CollectAndJudgeA7(e: Evidence, files: seq<RankFile>, fallback: Option<int>) returns (a7: Criterion)
    ensures e.failClosedGuarantee != "" ==> a7.passed
    ensures e.failClosedGuarantee == "" && AnyReading(files) ==> (a7.passed <==> ZeroIsWorst(files)) && !a7.evidenceMissing
    ensures e.failClosedGuarantee == "" && AnyReading(files) && AllNonNegative(files) ==> (a7.passed <==> SilentWhereRead(files))
    ensures e.failClosedGuarantee == "" && !AnyReading(files) ==>
              (a7.passed <==> fallback == Some(0)) && (a7.evidenceMissing <==> fallback.None?)
  {
    var worst, perRank := ExtractSkipped(files);
    var skips := if worst.Some? then worst else fallback;
    a7 := JudgeA7(e.(nonfiniteSkips := skips));
    AnyReadingShows(files);
    if worst.Some? {
      WorstIsZeroExactly(files, worst.value);
      if AllNonNegative(files) {
        ZeroMeansSilent(files);
      }
    }
  }

  predicate DistinctNames(files: seq<RankFile>) {
    forall i, j | 0 <= i < j < |files| :: files[i].name != files[j].name
  }

  /** With distinct names no rank is hidden: the count bounds every rank's sum and some rank attains it. */
  lemma {:induction false} NoRankIsHidden(files: seq<RankFile>, worst: Option<int>)
    requires DistinctNames(files)
    ensures IsWorst(worst, PerRank(files)) <==>
              match worst
              case None => forall k | 0 <= k < |files| :: Total(files[k].rows).None?
              case Some(w) => (exists k :: 0 <= k < |files| && Total(files[k].rows) == Some(w))
                              && forall k | 0 <= k < |files| && Total(files[k].rows).Some? :: Total(files[k].rows).value <= w
  {
    AnyReadingShows(files);
    var perRank := PerRank(files);
    forall k | 0 <= k < |files| && Total(files[k].rows).Some?
      ensures files[k].name in perRank && perRank[files[k].name] == Total(files[k].rows).value
    {
      assert Decides(files, k);
      PerRankHolds(files, files[k].name, Total(files[k].rows).value);
    }
    forall name | name in perRank
      ensures exists k :: 0 <= k < |files| && files[k].name == name && Total(files[k].rows) == Some(perRank[name])
    {
      PerRankHolds(files, name, perRank[name]);
    }
  }

  /** With distinct names A7 sees every reading of every row of every rank. */
  lemma {:induction false} DistinctRanksAllCount(files: seq<RankFile>)
    requires DistinctNames(files)
    ensures (forall k | Decides(files, k) :: Silent(files[k].rows))
            <==> forall k | 0 <= k < |files| :: Silent(files[k].rows)
  {
    forall k | 0 <= k < |files| && !Decides(files, k) ensures Silent(files[k].rows) {
      AllNone(files[k].rows);
    }
  }

  lemma {:induction false} AllNone(rows: seq<SkipRow>)
    requires Total(rows).None?
    ensures Silent(rows)
  {
    if rows != [] {
      AllNone(rows[..|rows| - 1]);
      assert rows == rows[..|rows| - 1] + [rows[|rows| - 1]];
    }
  }

  /** Two rank files of the same name: the later one hides every skip of the earlier. */
  lemma {:induction false} SameNameHidesSkips(name: string, skips: int, worst: Option<int>)
    requires IsWorst(worst, PerRank([RankFile(name, [SkipRow(None, Some(skips))]), RankFile(name, [SkipRow(None, Some(0))])]))
    ensures worst == Some(0)
  {
    var files := [RankFile(name, [SkipRow(None, Some(skips))]), RankFile(name, [SkipRow(None, Some(0))])];
    var quiet := [SkipRow(None, Some(0))];
    assert quiet[..0] == [] && Total(quiet) == Some(0);
    assert Decides(files, 1);
    PerRankHolds(files, name, 0);
    forall other | other in PerRank(files) ensures other == name {
      PerRankHolds(files, other, PerRank(files)[other]);
    }
  }

  /** More evidence never lowers the count: `more` has every rank of `files` with at least its total. */
  lemma {:induction false} MoreEvidenceNeverLowers(files: seq<RankFile>, more: seq<RankFile>, before: int, after: Option<int>)
    requires DistinctNames(files) && DistinctNames(more)
    requires IsWorst(Some(before), PerRank(files)) && IsWorst(after, PerRank(more))
    requires forall k | 0 <= k < |files| && Total(files[k].rows).Some? ::
               exists j :: 0 <= j < |more| && Total(more[j].rows).Some? && Total(more[j].rows).value >= Total(files[k].rows).value
    ensures after.Some? && before <= after.value
  {
    NoRankIsHidden(files, Some(before));
    NoRankIsHidden(more, after);
  }

  /** Inserting a row with a non-negative or missing reading never lowers a rank's total. */
  lemma {:induction false} InsertingARow(front: seq<SkipRow>, row: SkipRow, back: seq<SkipRow>)
    requires RowValue(row).None? || RowValue(row).value >= 0
    ensures Total(front + back).Some? ==>
              Total(front + [row] + back).Some? && Total(front + [row] + back).value >= Total(front + back).value
    ensures Total(front + back).None? && Total(front + [row] + back).Some? ==> Total(front + [row] + back).value >= 0
  {
    if back == [] {
      assert front + back == front && front + [row] + back == front + [row];
      assert (front + [row])[..|front|] == front;
    } else {
      var init, last := back[..|back| - 1], back[|back| - 1];
      InsertingARow(front, row, init);
      assert (front + back)[..|front + back| - 1] == front + init;
      assert (front + [row] + back)[..|front + [row] + back| - 1] == front + [row] + init;
    }
  }

  // ----- end to end

  function Collected(e: Evidence, rows: seq<MetricRow>, parse: Option<string> -> Option<Reading>): Evidence {
    WithSeries(e, SeriesOf(rows, parse))
  }

  lemma {:induction false} StepTotalsMean(rows: seq<MetricRow>, n: int)
    ensures n in StepTotals(rows) <==> exists k :: 0 <= k < |rows| && rows[k].optimizerStepsSum == Some(n)
  {
    if rows != [] {
      var front, last := rows[..|rows| - 1], rows[|rows| - 1];
      StepTotalsMean(front, n);
      assert rows == front + [last];
      if last.optimizerStepsSum == Some(n) {
        assert rows[|rows| - 1].optimizerStepsSum == Some(n);
      }
    }
  }

  /** The steps that the rows prove, against the plan, the gate and the weights. */
  predicate RowsMeetTheGate(e: Evidence, rows: seq<MetricRow>) {
    && (forall k | 0 <= k < |rows| && rows[k].optimizerStepsSum.Some? :: rows[k].optimizerStepsSum.value > 0)
    && (e.stepsDeclaredTotal.Some? ==> e.stepsDeclaredTotal.value <= |rows|)
    && EnoughSteps(e, |rows|)
  }

  /** No skipped step: a guarantee, or a largest total of zero, or without any reading a fallback count of zero. */
  ghost predicate NoSkips(e: Evidence, files: seq<RankFile>, fallback: Option<int>) {
    e.failClosedGuarantee != "" || if AnyReading(files) then ZeroIsWorst(files) else fallback == Some(0)
  }

  /** When a run is usable, in terms of its rows, its rank files and the evidence that is collected elsewhere. */
  ghost predicate RunIsUsable(e: Evidence, rows: seq<MetricRow>, files: seq<RankFile>, fallback: Option<int>,
                              parse: Option<string> -> Option<Reading>) {
    && !e.timedOut && e.exitCode == Some(0)
    && Healthy(rows, parse) && RowsMeetTheGate(e, rows) && NoSkips(e, files, fallback)
    && e.checkpointReloadable == Some(true)
    && e.a3Source != "safetensors_header" && e.a3Source != "skipped" && e.a3Source != "missing"
    && {"config_backup", "training_log", "checkpoint", "metrics"} <= e.artifacts
  }

  lemma {:induction false} CollectedSteps(e: Evidence, rows: seq<MetricRow>, parse: Option<string> -> Option<Reading>)
    requires rows != []
    ensures StepsEvidence(Collected(e, rows, parse)) <==> RowsMeetTheGate(e, rows)
  {
    var run := Collected(e, rows, parse);
    var totals := StepTotals(rows);
    assert run.stepsPerStep == if totals == [] then None else Some(totals);
    assert (forall k | 0 <= k < |totals| :: totals[k] > 0)
           <==> forall k | 0 <= k < |rows| && rows[k].optimizerStepsSum.Some? :: rows[k].optimizerStepsSum.value > 0 by {
      PositiveTotals(rows);
    }
    assert EnoughSteps(run, |rows|) == EnoughSteps(e, |rows|);
  }

  lemma {:induction false} PositiveTotals(rows: seq<MetricRow>)
    ensures (forall k | 0 <= k < |StepTotals(rows)| :: StepTotals(rows)[k] > 0)
            <==> forall k | 0 <= k < |rows| && rows[k].optimizerStepsSum.Some? :: rows[k].optimizerStepsSum.value > 0
  {
    var totals := StepTotals(rows);
    forall k | 0 <= k < |totals|
      ensures exists i :: 0 <= i < |rows| && rows[i].optimizerStepsSum == Some(totals[k])
    {
      StepTotalsMean(rows, totals[k]);
    }
    forall k | 0 <= k < |rows| && rows[k].optimizerStepsSum.Some? ensures rows[k].optimizerStepsSum.value in totals {
      StepTotalsMean(rows, rows[k].optimizerStepsSum.value);
    }
  }

  lemma {:induction false} CollectedA6(e: Evidence, rows: seq<MetricRow>, parse: Option<string> -> Option<Reading>)
    requires Reader(parse)
    ensures JudgeA6(Collected(e, rows, parse)).passed <==> Healthy(rows, parse)
  {
    A6Exactly(e, rows, parse);
  }

  lemma {:induction false} SkipsDecide(e: Evidence, files: seq<RankFile>, worst: Option<int>, fallback: Option<int>)
    requires IsWorst(worst, PerRank(files))
    ensures var skips := if worst.Some? then worst else fallback;
            skips == Some(0) || e.failClosedGuarantee != "" <==> NoSkips(e, files, fallback)
  {
    AnyReadingShows(files);
    if worst.Some? {
      WorstIsZeroExactly(files, worst.value);
    }
  }

  lemma {:induction false} UsableEvidenceExactly(e: Evidence, rows: seq<MetricRow>, files: seq<RankFile>, fallback: Option<int>,
                                            parse: Option<string> -> Option<Reading>, skips: Option<int>)
    requires Reader(parse)
    requires skips == Some(0) || e.failClosedGuarantee != "" <==> NoSkips(e, files, fallback)
    ensures UsableEvidence(Collected(e.(nonfiniteSkips := skips), rows, parse)) <==> RunIsUsable(e, rows, files, fallback, parse)
  {
    var run := Collected(e.(nonfiniteSkips := skips), rows, parse);
    CollectedA6(e.(nonfiniteSkips := skips), rows, parse);
    A6Means(run);
    if rows != [] {
      CollectedSteps(e.(nonfiniteSkips := skips), rows, parse);
    }
  }

  /**
   From rows and rank files to the tier, for any reader of numbers, `ParseNumeric` among them, and whatever the second
   run, the switch and the calibration table are.
   */
  lemma {:induction false} UsableRunExactly(table: seq<Calibration.Row>, e: Evidence, rows: seq<MetricRow>, files: seq<RankFile>,
                                            worst: Option<int>, fallback: Option<int>,
                                            parse: Option<string> -> Option<Reading>, second: Option<Evidence>, dual: bool)
    requires Reader(parse) && IsWorst(worst, PerRank(files))
    ensures var skips := if worst.Some? then worst else fallback;
            JudgeTier(table, Collected(e.(nonfiniteSkips := skips), rows, parse), second, dual).passed
            <==> RunIsUsable(e, rows, files, fallback, parse)
  {
    var skips := if worst.Some? then worst else fallback;
    UsableExactly(table, Collected(e.(nonfiniteSkips := skips), rows, parse), second, dual);
    SkipsDecide(e, files, worst, fallback);
    UsableEvidenceExactly(e, rows, files, fallback, parse, skips);
  }

  /** The whole way: the row loop, the file loop, the judgement. */
  method CollectAndJudge(table: seq<Calibration.Row>, e: Evidence, rows: seq<MetricRow>, files: seq<RankFile>,
                         fallback: Option<int>, parse: Option<string> -> Option<Reading>,
                         second: Option<Evidence>, dual: bool) returns (j: Judgement)
    requires Reader(parse)
    ensures j.passed <==> RunIsUsable(e, rows, files, fallback, parse)
  {
    var series := CollectSeries(rows, parse);
    var worst, perRank := ExtractSkipped(files);
    var skips := if worst.Some? then worst else fallback;
    j := JudgeTier(table, WithSeries(e.(nonfiniteSkips := skips), series.Contents()), second, dual);
    UsableRunExactly(table, e, rows, files, worst, fallback, parse, second, dual);
  }

  /** With distinct names, non-negative readings, at least one of them and no guarantee, a usable run skipped nothing anywhere. */
  lemma {:induction false} UsableMeansSilentRanks(e: Evidence, rows: seq<MetricRow>, files: seq<RankFile>, fallback: Option<int>,
                                                  parse: Option<string> -> Option<Reading>)
    requires DistinctNames(files) && AnyReading(files) && e.failClosedGuarantee == ""
    requires forall k | 0 <= k < |files| :: NonNegative(files[k].rows)
    ensures NoSkips(e, files, fallback) <==> forall k | 0 <= k < |files| :: Silent(files[k].rows)
    ensures RunIsUsable(e, rows, files, fallback, parse) ==>
              Healthy(rows, parse) && forall k | 0 <= k < |files| :: Silent(files[k].rows)
  {
    var k :| 0 <= k < |files| && Total(files[k].rows).Some?;
    assert Decides(files, k);
    ZeroMeansSilent(files);
    DistinctRanksAllCount(files);
  }

  function LossOf(row: MetricRow, parse: Option<string> -> Option<Reading>): Reading {
    ReadingOf(row.globalLossMean, parse)
  }

  /** Two collected runs that pass A4 on healthy rows: as many steps, the same first loss, final losses within the cap. */
  lemma {:induction false} ReproducedRows(table: seq<Calibration.Row>, first: Evidence, second: Evidence,
                                          rows: seq<MetricRow>, rows': seq<MetricRow>,
                                          parse: Option<string> -> Option<Reading>, dual: bool)
    requires Calibration.ValidTable(table) && Healthy(rows, parse) && Healthy(rows', parse)
    requires JudgeA4(table, Collected(first, rows, parse), Some(Collected(second, rows', parse)), dual).passed
    ensures |rows| == |rows'| && LossOf(rows[0], parse) == LossOf(rows'[0], parse)
    ensures var a, b := LossOf(rows[|rows| - 1], parse), LossOf(rows'[|rows'| - 1], parse);
            a.Finite? && b.Finite? && Calibration.Abs(a.value - b.value) <= Calibration.HARD_UPPER_BOUND
  {
    A4Sound(table, Collected(first, rows, parse), Collected(second, rows', parse), dual);
  }
}
