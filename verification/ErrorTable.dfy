/**
 The completion error table: which attempt of a group is kept, how each completion is classified, and the
 step and epoch rows.  A completion arrives already parsed; `agree` compares one argument with its target.
 */
module ErrorTable {
  import opened Wrappers
  import opened Seqs
  import Texts

  datatype Category =
    | Ok
    | NoToolCall
    | MalformedXml
    | MissingParam
    | MultiCall
    | OtherParse
    | ToolMismatch
    | ParamNameMismatch
    | ParamValueMismatch
    | Other

  const ERROR_CATEGORIES: seq<Category> := [
    Ok, NoToolCall, MalformedXml, MissingParam, MultiCall, OtherParse,
    ToolMismatch, ParamNameMismatch, ParamValueMismatch, Other
  ]

  datatype Call = Call(name: string, arguments: map<string, string>)

  /** Parser messages, number of opening tags, and the first call a lenient scan extracts. */
  datatype Completion = Completion(parseErrors: seq<string>, openTags: nat, first: Option<Call>)

  datatype Record = Record(sample: Option<int>, step: Option<int>, epoch: Option<int>, attempt: int,
                           target: Option<Call>, completions: seq<Completion>)

  // ----- the classifier

  function ClassifyParse(errors: seq<string>): Category {
    if errors == [] then OtherParse
    else if Texts.Contains(errors[0], "no tool call") then NoToolCall
    else if Texts.Contains(errors[0], "malformed XML") then MalformedXml
    else if Texts.Contains(errors[0], "missing required parameter") then MissingParam
    else ClassifyParse(errors[1..])
  }

  function ClassifyCompletion(target: Option<Call>, c: Completion, agree: (string, string) -> bool): Category {
    if target.None? || target.value.name == [] then Other
    else if c.parseErrors != [] then ClassifyParse(c.parseErrors)
    else if c.openTags > 1 then MultiCall
    else if c.first.None? then Other
    else
      var wanted, got := target.value, c.first.value;
      if got.name != wanted.name then ToolMismatch
      else if got.arguments.Keys != wanted.arguments.Keys then ParamNameMismatch
      else if forall p | p in wanted.arguments :: agree(got.arguments[p], wanted.arguments[p]) then Ok
      else ParamValueMismatch
  }

  /** The categories a parser message names, most urgent first. */
  function MessageCategory(message: string): Option<Category> {
    if Texts.Contains(message, "no tool call") then Some(NoToolCall)
    else if Texts.Contains(message, "malformed XML") then Some(MalformedXml)
    else if Texts.Contains(message, "missing required parameter") then Some(MissingParam)
    else None
  }

  /** The first message that names a category decides; without one the parse failed otherwise. */
  lemma {:induction false} ParseKinds(errors: seq<string>)
    ensures forall k | 0 <= k < |errors| && MessageCategory(errors[k]).Some?
                       && (forall j | 0 <= j < k :: MessageCategory(errors[j]).None?) ::
              ClassifyParse(errors) == MessageCategory(errors[k]).value
    ensures ClassifyParse(errors) == OtherParse <==> forall k | 0 <= k < |errors| :: MessageCategory(errors[k]).None?
    ensures ClassifyParse(errors) in {NoToolCall, MalformedXml, MissingParam, OtherParse}
  {
    if errors != [] {
      var rest := errors[1..];
      ParseKinds(rest);
      assert forall k | 0 < k < |errors| :: errors[k] == rest[k - 1];
      forall k | 0 <= k < |errors| && MessageCategory(errors[k]).Some?
                 && (forall j | 0 <= j < k :: MessageCategory(errors[j]).None?)
        ensures ClassifyParse(errors) == MessageCategory(errors[k]).value
      {
        if k > 0 {
          assert MessageCategory(errors[0]).None?;
          assert forall j | 0 <= j < k - 1 :: MessageCategory(rest[j]) == MessageCategory(errors[j + 1]);
          assert MessageCategory(rest[k - 1]).Some?;
        }
      }
    }
  }

  predicate SameValues(got: map<string, string>, wanted: map<string, string>, agree: (string, string) -> bool) {
    forall p | p in wanted :: p in got && agree(got[p], wanted[p])
  }

  /** Each category of the table names exactly its own completions. */
  lemma {:induction false} CategoriesMean(target: Option<Call>, c: Completion, agree: (string, string) -> bool)
    ensures var category := ClassifyCompletion(target, c, agree);
            var comparable := target.Some? && target.value.name != [];
            var clean := comparable && c.parseErrors == [] && c.openTags <= 1;
            var called := clean && c.first.Some?;
            && category in ERROR_CATEGORIES
            && (category in {NoToolCall, MalformedXml, MissingParam, OtherParse} <==> comparable && c.parseErrors != [])
            && (comparable && c.parseErrors != [] ==> category == ClassifyParse(c.parseErrors))
            && (category == MultiCall <==> comparable && c.parseErrors == [] && c.openTags > 1)
            && (category == Other <==> !comparable || (clean && c.first.None?))
            && (category == ToolMismatch <==> called && c.first.value.name != target.value.name)
            && (category == ParamNameMismatch
                <==> called && c.first.value.name == target.value.name
                     && c.first.value.arguments.Keys != target.value.arguments.Keys)
            && (category == ParamValueMismatch
                <==> called && c.first.value.name == target.value.name
                     && c.first.value.arguments.Keys == target.value.arguments.Keys
                     && !SameValues(c.first.value.arguments, target.value.arguments, agree))
            && (category == Ok
                <==> called && c.first.value.name == target.value.name
                     && c.first.value.arguments.Keys == target.value.arguments.Keys
                     && SameValues(c.first.value.arguments, target.value.arguments, agree))
  {
    ParseKinds(c.parseErrors);
  }

  // ----- the kept attempts

  predicate SameGroup(a: Record, b: Record) {
    a.sample == b.sample && a.step == b.step
  }

  /** Record `k` is the last among those of its group with the greatest attempt number. */
  ghost predicate Wins(records: seq<Record>, k: int) {
    && 0 <= k < |records|
    && forall j | 0 <= j < |records| && records[j].sample == records[k].sample && records[j].step == records[k].step ::
         records[j].attempt <= records[k].attempt && (j > k ==> records[j].attempt < records[k].attempt)
  }

  function IndexOfGroup(kept: seq<Record>, r: Record): (i: nat)
    ensures i <= |kept| && (i < |kept| ==> SameGroup(kept[i], r)) && forall j | 0 <= j < i :: !SameGroup(kept[j], r)
  {
    if kept == [] || SameGroup(kept[0], r) then 0 else 1 + IndexOfGroup(kept[1..], r)
  }

  ghost predicate HasGroup(kept: seq<Record>, r: Record) {
    exists i :: 0 <= i < |kept| && SameGroup(kept[i], r)
  }

  ghost predicate OriginsWin(records: seq<Record>, kept: seq<Record>, origin: seq<int>) {
    |origin| == |kept| && forall i | 0 <= i < |kept| :: Wins(records, origin[i]) && kept[i] == records[origin[i]]
  }

  ghost predicate OnePerGroup(kept: seq<Record>) {
    forall i, j | 0 <= i < j < |kept| :: !(kept[i].sample == kept[j].sample && kept[i].step == kept[j].step)
  }

  ghost predicate CoversGroups(records: seq<Record>, kept: seq<Record>) {
    forall k | 0 <= k < |records| :: HasGroup(kept, records[k])
  }

  /** One winner per group: `origin[i]` is the position of the i-th kept record. */
  ghost predicate KeepsWinners(records: seq<Record>, kept: seq<Record>, origin: seq<int>) {
    OriginsWin(records, kept, origin) && OnePerGroup(kept) && CoversGroups(records, kept)
  }

  lemma {:induction false} StillWins(records: seq<Record>, rec: Record, k: int)
    requires Wins(records, k) && (!SameGroup(rec, records[k]) || rec.attempt < records[k].attempt)
    ensures Wins(records + [rec], k) && (records + [rec])[k] == records[k]
  {
  }

  lemma {:induction false} NewWins(records: seq<Record>, rec: Record)
    requires forall j | 0 <= j < |records| && SameGroup(records[j], rec) :: records[j].attempt <= rec.attempt
    ensures Wins(records + [rec], |records|)
  {
  }

  lemma {:induction false} GroupsCovered(records: seq<Record>, rec: Record, kept: seq<Record>, kept': seq<Record>)
    requires CoversGroups(records, kept) && HasGroup(kept', rec)
    requires |kept| <= |kept'| && forall i | 0 <= i < |kept| :: SameGroup(kept'[i], kept[i])
    ensures CoversGroups(records + [rec], kept')
  {
    forall k | 0 <= k < |records| ensures HasGroup(kept', records[k]) {
      var i :| 0 <= i < |kept| && SameGroup(kept[i], records[k]);
      assert SameGroup(kept'[i], records[k]);
    }
  }

  lemma {:induction false} OldWinners(records: seq<Record>, rec: Record, kept: seq<Record>, origin: seq<int>, i: nat)
    requires OriginsWin(records, kept, origin) && i < |kept|
    requires !SameGroup(rec, kept[i]) || rec.attempt < kept[i].attempt
    ensures Wins(records + [rec], origin[i]) && kept[i] == (records + [rec])[origin[i]]
  {
    StillWins(records, rec, origin[i]);
  }

  lemma {:induction false} AppendWins(records: seq<Record>, rec: Record, kept: seq<Record>, origin: seq<int>)
    requires OriginsWin(records, kept, origin) && Wins(records + [rec], |records|)
    requires forall i | 0 <= i < |kept| :: !SameGroup(rec, kept[i])
    ensures OriginsWin(records + [rec], kept + [rec], origin + [|records|])
  {
    var kept', origin' := kept + [rec], origin + [|records|];
    forall i | 0 <= i < |kept'| ensures Wins(records + [rec], origin'[i]) && kept'[i] == (records + [rec])[origin'[i]] {
      if i < |kept| {
        OldWinners(records, rec, kept, origin, i);
      }
    }
  }

  lemma {:induction false} NoneInGroup(records: seq<Record>, rec: Record, kept: seq<Record>)
    requires CoversGroups(records, kept) && NewGroup(kept, rec)
    ensures forall j | 0 <= j < |records| :: !SameGroup(records[j], rec)
  {
    forall j | 0 <= j < |records| ensures !SameGroup(records[j], rec) {
      assert HasGroup(kept, records[j]);
    }
  }

  ghost predicate NewGroup(kept: seq<Record>, rec: Record) {
    forall i | 0 <= i < |kept| :: !SameGroup(kept[i], rec)
  }

  lemma {:induction false} NewGroupWins(records: seq<Record>, rec: Record, kept: seq<Record>)
    requires CoversGroups(records, kept) && NewGroup(kept, rec)
    ensures Wins(records + [rec], |records|)
  {
    NoneInGroup(records, rec, kept);
    NewWins(records, rec);
  }

  lemma {:induction false} AppendCovers(records: seq<Record>, rec: Record, kept: seq<Record>)
    requires CoversGroups(records, kept)
    ensures CoversGroups(records + [rec], kept + [rec])
  {
    assert SameGroup((kept + [rec])[|kept|], rec);
    GroupsCovered(records, rec, kept, kept + [rec]);
  }

  lemma {:induction false} AppendOnePerGroup(kept: seq<Record>, rec: Record)
    requires OnePerGroup(kept) && NewGroup(kept, rec)
    ensures OnePerGroup(kept + [rec])
  {
  }

  lemma {:induction false} AppendKeeps(records: seq<Record>, rec: Record, kept: seq<Record>, origin: seq<int>)
    requires KeepsWinners(records, kept, origin) && NewGroup(kept, rec)
    ensures KeepsWinners(records + [rec], kept + [rec], origin + [|records|])
  {
    NewGroupWins(records, rec, kept);
    AppendWins(records, rec, kept, origin);
    AppendCovers(records, rec, kept);
    AppendOnePerGroup(kept, rec);
  }

  lemma {:induction false} ReplaceWins(records: seq<Record>, rec: Record, kept: seq<Record>, origin: seq<int>, at: nat)
    requires OriginsWin(records, kept, origin) && OnePerGroup(kept) && Wins(records + [rec], |records|)
    requires at < |kept| && SameGroup(kept[at], rec)
    ensures OriginsWin(records + [rec], kept[at := rec], origin[at := |records|])
  {
    var kept', origin' := kept[at := rec], origin[at := |records|];
    forall i | 0 <= i < |kept'| ensures Wins(records + [rec], origin'[i]) && kept'[i] == (records + [rec])[origin'[i]] {
      if i != at {
        assert !SameGroup(kept[if i < at then i else at], kept[if i < at then at else i]);
        OldWinners(records, rec, kept, origin, i);
      }
    }
  }

  lemma {:induction false} ReplaceOnePerGroup(kept: seq<Record>, rec: Record, at: nat)
    requires OnePerGroup(kept) && at < |kept| && SameGroup(kept[at], rec)
    ensures OnePerGroup(kept[at := rec])
  {
    var kept' := kept[at := rec];
    forall i, j | 0 <= i < j < |kept'| ensures !SameGroup(kept'[i], kept'[j]) {
      assert !SameGroup(kept[i], kept[j]);
    }
  }

  lemma {:induction false} LaterWins(records: seq<Record>, rec: Record, k: int)
    requires Wins(records, k) && SameGroup(records[k], rec) && rec.attempt >= records[k].attempt
    ensures Wins(records + [rec], |records|)
  {
    assert forall j | 0 <= j < |records| && SameGroup(records[j], rec) :: SameGroup(records[j], records[k]);
    NewWins(records, rec);
  }

  lemma {:induction false} ReplaceCovers(records: seq<Record>, rec: Record, kept: seq<Record>, at: nat)
    requires CoversGroups(records, kept) && at < |kept| && SameGroup(kept[at], rec)
    ensures CoversGroups(records + [rec], kept[at := rec])
  {
    assert SameGroup(kept[at := rec][at], rec);
    GroupsCovered(records, rec, kept, kept[at := rec]);
  }

  lemma {:induction false} ReplaceKeeps(records: seq<Record>, rec: Record, kept: seq<Record>, origin: seq<int>, at: nat)
    requires KeepsWinners(records, kept, origin) && at < |kept|
    requires SameGroup(kept[at], rec) && rec.attempt >= kept[at].attempt
    ensures KeepsWinners(records + [rec], kept[at := rec], origin[at := |records|])
  {
    LaterWins(records, rec, origin[at]);
    ReplaceWins(records, rec, kept, origin, at);
    ReplaceOnePerGroup(kept, rec, at);
    ReplaceCovers(records, rec, kept, at);
  }

  lemma {:induction false} SkipWins(records: seq<Record>, rec: Record, kept: seq<Record>, origin: seq<int>, at: nat)
    requires OriginsWin(records, kept, origin) && OnePerGroup(kept) && at < |kept|
    requires SameGroup(kept[at], rec) && rec.attempt < kept[at].attempt
    ensures OriginsWin(records + [rec], kept, origin)
  {
    forall i | 0 <= i < |kept| ensures Wins(records + [rec], origin[i]) && kept[i] == (records + [rec])[origin[i]] {
      assert i != at ==> !SameGroup(kept[if i < at then i else at], kept[if i < at then at else i]);
      OldWinners(records, rec, kept, origin, i);
    }
  }

  lemma {:induction false} SkipCovers(records: seq<Record>, rec: Record, kept: seq<Record>, at: nat)
    requires CoversGroups(records, kept) && at < |kept| && SameGroup(kept[at], rec)
    ensures CoversGroups(records + [rec], kept)
  {
    GroupsCovered(records, rec, kept, kept);
  }

  lemma {:induction false} SkipKeeps(records: seq<Record>, rec: Record, kept: seq<Record>, origin: seq<int>, at: nat)
    requires KeepsWinners(records, kept, origin) && at < |kept|
    requires SameGroup(kept[at], rec) && rec.attempt < kept[at].attempt
    ensures KeepsWinners(records + [rec], kept, origin)
  {
    SkipWins(records, rec, kept, origin, at);
    SkipCovers(records, rec, kept, at);
  }

  /** Groups appear in the order in which the records first mention them. */
  ghost predicate FirstSeenOrder(records: seq<Record>, kept: seq<Record>) {
    forall i, j | 0 <= i < j < |kept| :: IndexOfGroup(records, kept[i]) < IndexOfGroup(records, kept[j])
  }

  lemma {:induction false} FirstIndexStays(records: seq<Record>, rec: Record, r: Record)
    ensures IndexOfGroup(records + [rec], r)
            == if HasGroup(records, r) then IndexOfGroup(records, r)
               else if SameGroup(rec, r) then |records| else |records| + 1
    ensures HasGroup(records, r) <==> IndexOfGroup(records, r) < |records|
  {
    if records == [] {
      assert [rec][1..] == [];
      assert records + [rec] == [rec];
    } else {
      FirstIndexStays(records[1..], rec, r);
      assert (records + [rec])[1..] == records[1..] + [rec];
      assert HasGroup(records, r) <==> SameGroup(records[0], r) || HasGroup(records[1..], r) by {
        GroupInTail(records, r);
      }
    }
  }

  lemma {:induction false} GroupInTail(records: seq<Record>, r: Record)
    requires records != []
    ensures HasGroup(records, r) <==> SameGroup(records[0], r) || HasGroup(records[1..], r)
  {
    if HasGroup(records[1..], r) {
      var i :| 0 <= i < |records[1..]| && SameGroup(records[1..][i], r);
      assert SameGroup(records[i + 1], r);
    }
    if HasGroup(records, r) && !SameGroup(records[0], r) {
      var i :| 0 <= i < |records| && SameGroup(records[i], r);
      assert SameGroup(records[1..][i - 1], r);
    }
  }

  lemma {:induction false} SameGroupSameIndex(records: seq<Record>, a: Record, b: Record)
    requires SameGroup(a, b)
    ensures IndexOfGroup(records, a) == IndexOfGroup(records, b)
  {
    if records != [] {
      SameGroupSameIndex(records[1..], a, b);
    }
  }

  /** Kept records keep their first positions; a new group comes last. */
  lemma {:induction false} OrderSurvives(records: seq<Record>, rec: Record, kept: seq<Record>, kept': seq<Record>, origin: seq<int>)
    requires OriginsWin(records, kept, origin) && FirstSeenOrder(records, kept)
    requires |kept| <= |kept'| <= |kept| + 1 && forall i | 0 <= i < |kept| :: SameGroup(kept[i], kept'[i])
    requires |kept'| == |kept| + 1 ==> kept'[|kept|] == rec && !HasGroup(records, rec)
    ensures FirstSeenOrder(records + [rec], kept')
  {
    forall i | 0 <= i < |kept'|
      ensures IndexOfGroup(records + [rec], kept'[i]) == if i < |kept| then IndexOfGroup(records, kept[i]) else |records|
      ensures i < |kept| ==> IndexOfGroup(records, kept[i]) < |records|
    {
      FirstIndexStays(records, rec, kept'[i]);
      if i < |kept| {
        SameGroupSameIndex(records, kept[i], kept'[i]);
        FirstIndexStays(records, rec, kept[i]);
        assert SameGroup(records[origin[i]], kept[i]);
      }
    }
  }

  ghost predicate Terminal(records: seq<Record>, kept: seq<Record>, origin: seq<int>) {
    KeepsWinners(records, kept, origin) && FirstSeenOrder(records, kept)
  }

  /** One winner per group of (sample, step), in order of first appearance. */
  ghost predicate IsTerminal(records: seq<Record>, kept: seq<Record>) {
    exists origin :: Terminal(records, kept, origin)
  }

  lemma {:induction false} AppendTerminal(records: seq<Record>, rec: Record, kept: seq<Record>, origin: seq<int>)
    requires Terminal(records, kept, origin) && NewGroup(kept, rec)
    ensures Terminal(records + [rec], kept + [rec], origin + [|records|])
  {
    NoneInGroup(records, rec, kept);
    OrderSurvives(records, rec, kept, kept + [rec], origin);
    AppendKeeps(records, rec, kept, origin);
  }

  lemma {:induction false} ReplaceTerminal(records: seq<Record>, rec: Record, kept: seq<Record>, origin: seq<int>, at: nat)
    requires Terminal(records, kept, origin) && at < |kept|
    requires SameGroup(kept[at], rec) && rec.attempt >= kept[at].attempt
    ensures Terminal(records + [rec], kept[at := rec], origin[at := |records|])
  {
    OrderSurvives(records, rec, kept, kept[at := rec], origin);
    ReplaceKeeps(records, rec, kept, origin, at);
  }

  lemma {:induction false} SkipTerminal(records: seq<Record>, rec: Record, kept: seq<Record>, origin: seq<int>, at: nat)
    requires Terminal(records, kept, origin) && at < |kept|
    requires SameGroup(kept[at], rec) && rec.attempt < kept[at].attempt
    ensures Terminal(records + [rec], kept, origin)
  {
    OrderSurvives(records, rec, kept, kept, origin);
    SkipKeeps(records, rec, kept, origin, at);
  }

  /** The `terminal` map, as its values in insertion order. */
  method KeepTerminal(records: seq<Record>) returns (kept: seq<Record>)
    ensures IsTerminal(records, kept)
  {
    kept := [];
    ghost var origin: seq<int> := [];
    for n := 0 to |records|
      invariant Terminal(records[..n], kept, origin)
    {
      var rec := records[n];
      ghost var seen := records[..n];
      assert records[..n + 1] == seen + [rec];
      var at := IndexOfGroup(kept, rec);
      if at == |kept| {
        AppendTerminal(seen, rec, kept, origin);
        kept, origin := kept + [rec], origin + [n];
      } else if rec.attempt >= kept[at].attempt {
        ReplaceTerminal(seen, rec, kept, origin, at);
        kept, origin := kept[at := rec], origin[at := n];
      } else {
        SkipTerminal(seen, rec, kept, origin, at);
      }
    }
    assert records[..|records|] == records;
  }

  // ----- cells

  datatype Event = Event(bucket: int, category: Category, sample: Option<int>)

  datatype Slot = Slot(bucket: int, category: Category)

  datatype Cell = Cell(count: nat, samples: seq<Option<int>>)

  type Table = map<Slot, Cell>

  function CellAt(t: Table, slot: Slot): Cell {
    if slot in t then t[slot] else Cell(0, [])
  }

  function Bump(t: Table, e: Event): Table {
    var slot := Slot(e.bucket, e.category);
    var cell := CellAt(t, slot);
    t[slot := Cell(cell.count + 1, if e.sample in cell.samples then cell.samples else cell.samples + [e.sample])]
  }

  function Bumped(t: Table, events: seq<Event>): Table {
    if events == [] then t else Bump(Bumped(t, events[..|events| - 1]), events[|events| - 1])
  }

  function CountOf(events: seq<Event>, slot: Slot): nat {
    if events == [] then 0
    else
      var last := events[|events| - 1];
      CountOf(events[..|events| - 1], slot) + if Slot(last.bucket, last.category) == slot then 1 else 0
  }

  lemma {:induction false} BumpedCell(t: Table, e: Event, slot: Slot)
    ensures var before, after := CellAt(t, slot), CellAt(Bump(t, e), slot);
            if Slot(e.bucket, e.category) == slot then
              && slot in Bump(t, e) && after.count == before.count + 1
              && (Distinct(before.samples) ==> Distinct(after.samples))
              && (forall s :: s in after.samples <==> s in before.samples || s == e.sample)
            else after == before && (slot in Bump(t, e) <==> slot in t)
  {
  }

  /** Every cell counts its own events and lists their samples once each; only slots with events have a cell. */
  lemma {:induction false} CellsCount(events: seq<Event>, slot: Slot)
    ensures var t := Bumped(map[], events);
            && CellAt(t, slot).count == CountOf(events, slot)
            && (slot in t <==> CountOf(events, slot) > 0)
            && Distinct(CellAt(t, slot).samples)
            && (forall s :: s in CellAt(t, slot).samples <==> Event(slot.bucket, slot.category, s) in events)
  {
    if events != [] {
      var front, last := events[..|events| - 1], events[|events| - 1];
      CellsCount(front, slot);
      BumpedCell(Bumped(map[], front), last, slot);
      forall s ensures Event(slot.bucket, slot.category, s) in events
                       <==> Event(slot.bucket, slot.category, s) in front || Event(slot.bucket, slot.category, s) == last {
        InFrontOrLast(events, Event(slot.bucket, slot.category, s));
      }
    }
  }

  lemma {:induction false} InFrontOrLast(events: seq<Event>, e: Event)
    requires events != []
    ensures e in events <==> e in events[..|events| - 1] || e == events[|events| - 1]
  {
    assert events == events[..|events| - 1] + [events[|events| - 1]];
  }

  // ----- rows

  datatype Row = Row(bucket: int, category: Category, count: nat, samples: seq<Option<int>>)

  function RowsTotal(rows: seq<Row>): nat {
    if rows == [] then 0 else RowsTotal(rows[..|rows| - 1]) + rows[|rows| - 1].count
  }

  ghost function TableSum(t: Table, slots: set<Slot>): nat
    requires slots <= t.Keys
    decreases slots
  {
    if slots == {} then 0
    else
      var s :| s in slots;
      t[s].count + TableSum(t, slots - {s})
  }

  /** The sum does not depend on the order in which slots are taken. */
  lemma {:induction false} TakeSlot(t: Table, slots: set<Slot>, slot: Slot)
    requires slots <= t.Keys && slot in slots
    ensures TableSum(t, slots) == t[slot].count + TableSum(t, slots - {slot})
    decreases slots
  {
    var s :| s in slots && TableSum(t, slots) == t[s].count + TableSum(t, slots - {s});
    if s != slot {
      TakeSlot(t, slots - {s}, slot);
      TakeSlot(t, slots - {slot}, s);
      assert slots - {s} - {slot} == slots - {slot} - {s};
    }
  }

  lemma {:induction false} SameCellsSameSum(t: Table, t': Table, slots: set<Slot>)
    requires slots <= t.Keys && slots <= t'.Keys && forall s | s in slots :: t[s] == t'[s]
    ensures TableSum(t, slots) == TableSum(t', slots)
    decreases slots
  {
    if slots != {} {
      var s :| s in slots;
      TakeSlot(t, slots, s);
      TakeSlot(t', slots, s);
      SameCellsSameSum(t, t', slots - {s});
    }
  }

  /** A table holds exactly as many counts as events went in. */
  lemma {:induction false} TableHoldsAllEvents(events: seq<Event>)
    ensures var t := Bumped(map[], events); TableSum(t, t.Keys) == |events|
  {
    if events != [] {
      var front, last := events[..|events| - 1], events[|events| - 1];
      TableHoldsAllEvents(front);
      var before, slot := Bumped(map[], front), Slot(last.bucket, last.category);
      var after := Bumped(map[], events);
      TakeSlot(after, after.Keys, slot);
      assert after.Keys - {slot} == before.Keys - {slot};
      SameCellsSameSum(before, after, before.Keys - {slot});
      if slot in before {
        TakeSlot(before, before.Keys, slot);
      } else {
        assert before.Keys - {slot} == before.Keys;
      }
    }
  }

  /** Insertion into an ascending list, dropping repeats. */
  function Inserted(r: seq<int>, x: int): seq<int> {
    if r == [] || x < r[0] then [x] + r
    else if x == r[0] then r
    else [r[0]] + Inserted(r[1..], x)
  }

  lemma {:induction false} InsertedMembers(r: seq<int>, x: int, y: int)
    ensures y in Inserted(r, x) <==> y in r || y == x
  {
    if r != [] && x > r[0] {
      InsertedMembers(r[1..], x, y);
      assert r == [r[0]] + r[1..];
    }
  }

  lemma {:induction false} ConsAscending(h: int, t: seq<int>)
    requires Ascending(t) && forall y | y in t :: h < y
    ensures Ascending([h] + t)
  {
    var r := [h] + t;
    forall i, j | 0 <= i < j < |r| ensures r[i] < r[j] {
      assert r[j] == t[j - 1] && t[j - 1] in t;
      assert i > 0 ==> r[i] == t[i - 1];
    }
  }

  lemma {:induction false} InsertedAscending(r: seq<int>, x: int)
    requires Ascending(r)
    ensures Ascending(Inserted(r, x))
  {
    if r != [] && x != r[0] {
      var rest := r[1..];
      assert forall k | 0 <= k < |rest| :: rest[k] == r[k + 1];
      if x < r[0] {
        ConsAscending(x, r);
      } else {
        InsertedAscending(rest, x);
        forall y | y in Inserted(rest, x) ensures r[0] < y {
          InsertedMembers(rest, x, y);
        }
        ConsAscending(r[0], Inserted(rest, x));
      }
    }
  }

  lemma {:induction false} InsertedKeeps(r: seq<int>, x: int)
    requires Ascending(r)
    ensures Ascending(Inserted(r, x)) && forall y :: y in Inserted(r, x) <==> y in r || y == x
  {
    InsertedAscending(r, x);
    forall y ensures y in Inserted(r, x) <==> y in r || y == x {
      InsertedMembers(r, x, y);
    }
  }

  /** `sorted` over the bucket keys. */
  method SortedBuckets(t: Table) returns (buckets: seq<int>)
    ensures Ascending(buckets) && forall b :: b in buckets <==> exists s :: s in t && s.bucket == b
  {
    buckets := [];
    var left := t.Keys;
    while left != {}
      invariant left <= t.Keys && Ascending(buckets)
      invariant forall b :: b in buckets <==> exists s :: s in t && s !in left && s.bucket == b
      decreases left
    {
      var s :| s in left;
      InsertedKeeps(buckets, s.bucket);
      left, buckets := left - {s}, Inserted(buckets, s.bucket);
    }
  }

  ghost predicate RowShows(t: Table, row: Row) {
    Slot(row.bucket, row.category) in t && t[Slot(row.bucket, row.category)] == Cell(row.count, row.samples)
  }

  ghost function SlotsUpTo(t: Table, buckets: seq<int>, bucket: int, categories: seq<Category>): set<Slot> {
    set s | s in t && (s.bucket in buckets || (s.bucket == bucket && s.category in categories))
  }

  /** The inner loop: the rows of one bucket, in category order. */
  method BucketRows(t: Table, buckets: seq<int>, i: nat, rows0: seq<Row>, ghost done0: set<Slot>)
    returns (rows: seq<Row>, ghost done: set<Slot>)
    requires i < |buckets| && Ascending(buckets)
    requires done0 == (set s | s in t && s.bucket in buckets[..i]) && RowsInvariant(t, rows0, done0)
    requires RowsOrdered(rows0, buckets[..i])
    ensures done == (set s | s in t && s.bucket in buckets[..i + 1]) && RowsInvariant(t, rows, done)
    ensures RowsOrdered(rows, buckets[..i + 1])
  {
    rows, done := rows0, done0;
    assert buckets[..i + 1] == buckets[..i] + [buckets[i]];
    for j := 0 to |ERROR_CATEGORIES|
      invariant done == SlotsUpTo(t, buckets[..i], buckets[i], ERROR_CATEGORIES[..j])
      invariant RowsInvariant(t, rows, done)
      invariant ReachedCategory(rows, buckets[i], j)
    {
      CategoryAt(j);
      var slot := Slot(buckets[i], ERROR_CATEGORIES[j]);
      NextSlot(t, buckets, i, j);
      if slot in t {
        RowsGrow(t, rows, done, slot);
        RowsStaySorted(rows, Row(slot.bucket, slot.category, t[slot].count, t[slot].samples), j);
        rows := rows + [Row(slot.bucket, slot.category, t[slot].count, t[slot].samples)];
        done := done + {slot};
      }
    }
    AllCategories(t, buckets, i);
  }

  /** Position of a category in the listing. */
  function CategoryIndex(c: Category): nat {
    match c
    case Ok => 0
    case NoToolCall => 1
    case MalformedXml => 2
    case MissingParam => 3
    case MultiCall => 4
    case OtherParse => 5
    case ToolMismatch => 6
    case ParamNameMismatch => 7
    case ParamValueMismatch => 8
    case Other => 9
  }

  lemma {:induction false} CategoryAt(j: nat)
    requires j < |ERROR_CATEGORIES|
    ensures CategoryIndex(ERROR_CATEGORIES[j]) == j
  {
  }

  predicate Precedes(a: Row, b: Row) {
    a.bucket < b.bucket || (a.bucket == b.bucket && CategoryIndex(a.category) < CategoryIndex(b.category))
  }

  ghost predicate Sorted(rows: seq<Row>) {
    forall k, l | 0 <= k < l < |rows| :: Precedes(rows[k], rows[l])
  }

  /** Sorted rows up to the first `j` categories of the bucket. */
  ghost predicate ReachedCategory(rows: seq<Row>, bucket: int, j: nat) {
    && Sorted(rows)
    && forall k | 0 <= k < |rows| ::
         rows[k].bucket < bucket || (rows[k].bucket == bucket && CategoryIndex(rows[k].category) < j)
  }

  lemma {:induction false} RowsStaySorted(rows: seq<Row>, row: Row, j: nat)
    requires ReachedCategory(rows, row.bucket, j) && CategoryIndex(row.category) == j
    ensures ReachedCategory(rows + [row], row.bucket, j + 1)
  {
  }

  /** The rows are sorted, and the last bucket started is the last of the list. */
  ghost predicate RowsOrdered(rows: seq<Row>, buckets: seq<int>) {
    && Sorted(rows)
    && (forall k | 0 <= k < |rows| :: |buckets| > 0 && rows[k].bucket <= buckets[|buckets| - 1])
  }

  /** Rows in bucket order, inside a bucket in category order; every cell has its row and nothing is lost. */
  method ToRows(t: Table) returns (rows: seq<Row>)
    ensures RowsInvariant(t, rows, t.Keys)
    ensures Sorted(rows)
  {
    rows := [];
    var buckets := SortedBuckets(t);
    ghost var done: set<Slot> := {};
    for i := 0 to |buckets|
      invariant done == set s | s in t && s.bucket in buckets[..i]
      invariant RowsInvariant(t, rows, done) && RowsOrdered(rows, buckets[..i])
    {
      rows, done := BucketRows(t, buckets, i, rows, done);
    }
    assert buckets[..|buckets|] == buckets;
    assert forall s | s in t :: s.bucket in buckets;
    assert done == t.Keys;
  }

  ghost predicate RowsInvariant(t: Table, rows: seq<Row>, done: set<Slot>) {
    && done <= t.Keys
    && (forall row | row in rows :: RowShows(t, row))
    && (forall slot | slot in done :: Row(slot.bucket, slot.category, t[slot].count, t[slot].samples) in rows)
    && RowsTotal(rows) == TableSum(t, done)
  }

  lemma {:induction false} RowsGrow(t: Table, rows: seq<Row>, done: set<Slot>, slot: Slot)
    requires RowsInvariant(t, rows, done) && slot in t && slot !in done
    ensures RowsInvariant(t, rows + [Row(slot.bucket, slot.category, t[slot].count, t[slot].samples)], done + {slot})
  {
    var row := Row(slot.bucket, slot.category, t[slot].count, t[slot].samples);
    TakeSlot(t, done + {slot}, slot);
    assert done + {slot} - {slot} == done;
    assert (rows + [row])[..|rows|] == rows;
  }

  lemma {:induction false} CategoryOnce(i: nat, j: nat)
    requires i < j < 10
    ensures ERROR_CATEGORIES[i] != ERROR_CATEGORIES[j]
  {
  }

  lemma {:induction false} NextSlot(t: Table, buckets: seq<int>, i: nat, j: nat)
    requires i < |buckets| && j < |ERROR_CATEGORIES| && Ascending(buckets)
    ensures var slot := Slot(buckets[i], ERROR_CATEGORIES[j]);
            && slot !in SlotsUpTo(t, buckets[..i], buckets[i], ERROR_CATEGORIES[..j])
            && SlotsUpTo(t, buckets[..i], buckets[i], ERROR_CATEGORIES[..j + 1])
               == SlotsUpTo(t, buckets[..i], buckets[i], ERROR_CATEGORIES[..j]) + (if slot in t then {slot} else {})
  {
    forall k | 0 <= k < j ensures ERROR_CATEGORIES[k] != ERROR_CATEGORIES[j] {
      CategoryOnce(k, j);
    }
    assert ERROR_CATEGORIES[..j + 1] == ERROR_CATEGORIES[..j] + [ERROR_CATEGORIES[j]];
  }

  lemma {:induction false} EveryCategoryListed(c: Category)
    ensures c in ERROR_CATEGORIES
  {
  }

  lemma {:induction false} AllCategories(t: Table, buckets: seq<int>, i: nat)
    requires i < |buckets|
    ensures SlotsUpTo(t, buckets[..i], buckets[i], ERROR_CATEGORIES[..10]) == set s | s in t && s.bucket in buckets[..i + 1]
  {
    assert ERROR_CATEGORIES[..10] == ERROR_CATEGORIES;
    assert buckets[..i + 1] == buckets[..i] + [buckets[i]];
    forall s: Slot ensures s.category in ERROR_CATEGORIES {
      EveryCategoryListed(s.category);
    }
  }

  // ----- the whole aggregation

  datatype Granularity = ByStep | ByEpoch

  function BucketOf(r: Record, g: Granularity): Option<int> {
    if g.ByStep? then r.step else r.epoch
  }

  function EventsOf(r: Record, completions: seq<Completion>, g: Granularity, agree: (string, string) -> bool): (events: seq<Event>)
    ensures |events| == if BucketOf(r, g).None? then 0 else |completions|
  {
    if BucketOf(r, g).None? then []
    else
      var bucket := BucketOf(r, g).value;
      seq(|completions|, k requires 0 <= k < |completions| =>
        Event(bucket, ClassifyCompletion(r.target, completions[k], agree), r.sample))
  }

  function AllEvents(kept: seq<Record>, g: Granularity, agree: (string, string) -> bool): seq<Event> {
    if kept == [] then []
    else
      var last := kept[|kept| - 1];
      AllEvents(kept[..|kept| - 1], g, agree) + EventsOf(last, last.completions, g, agree)
  }

  /** Completions of kept records that have a step (or an epoch). */
  function Completions(kept: seq<Record>, g: Granularity): nat {
    if kept == [] then 0
    else
      var last := kept[|kept| - 1];
      Completions(kept[..|kept| - 1], g) + if BucketOf(last, g).None? then 0 else |last.completions|
  }

  lemma {:induction false} EventsAreCompletions(kept: seq<Record>, g: Granularity, agree: (string, string) -> bool)
    ensures |AllEvents(kept, g, agree)| == Completions(kept, g)
  {
    if kept != [] {
      EventsAreCompletions(kept[..|kept| - 1], g, agree);
    }
  }

  /** The completions, as positions of record and completion, that carry the category in the step or epoch of the slot. */
  ghost function Occurrences(kept: seq<Record>, g: Granularity, agree: (string, string) -> bool, slot: Slot): set<(nat, nat)> {
    set i: nat, k: nat | i < |kept| && k < |kept[i].completions| && Occurs(kept[i], kept[i].completions[k], g, agree, slot) :: (i, k)
  }

  ghost predicate Occurs(r: Record, c: Completion, g: Granularity, agree: (string, string) -> bool, slot: Slot) {
    (if g.ByStep? then r.step else r.epoch) == Some(slot.bucket) && ClassifyCompletion(r.target, c, agree) == slot.category
  }

  /** The occurrences in the first `n` completions of record `i`. */
  ghost function OccurrencesIn(r: Record, i: nat, n: nat, g: Granularity, agree: (string, string) -> bool, slot: Slot): set<(nat, nat)>
    requires n <= |r.completions|
  {
    set k: nat | k < n && Occurs(r, r.completions[k], g, agree, slot) :: (i, k)
  }

  lemma {:induction false} InOccurrences(r: Record, i: nat, n: nat, g: Granularity, agree: (string, string) -> bool, slot: Slot,
                                         o: (nat, nat))
    requires n <= |r.completions|
    ensures o in OccurrencesIn(r, i, n, g, agree, slot)
            <==> o.0 == i && o.1 < n && Occurs(r, r.completions[o.1], g, agree, slot)
  {
  }

  lemma {:induction false} Grown(before: set<(nat, nat)>, after: set<(nat, nat)>, x: (nat, nat), grows: bool)
    requires x !in before && forall o :: o in after <==> o in before || (grows && o == x)
    ensures |after| == |before| + if grows then 1 else 0
  {
    assert after == if grows then before + {x} else before;
  }

  lemma {:induction false} OneMoreCompletion(r: Record, i: nat, n: nat, g: Granularity, agree: (string, string) -> bool, slot: Slot)
    requires n < |r.completions|
    ensures |OccurrencesIn(r, i, n + 1, g, agree, slot)|
            == |OccurrencesIn(r, i, n, g, agree, slot)| + if Occurs(r, r.completions[n], g, agree, slot) then 1 else 0
  {
    var before, after := OccurrencesIn(r, i, n, g, agree, slot), OccurrencesIn(r, i, n + 1, g, agree, slot);
    var grows := Occurs(r, r.completions[n], g, agree, slot);
    InOccurrences(r, i, n, g, agree, slot, (i, n));
    forall o ensures o in after <==> o in before || (grows && o == (i, n)) {
      InOccurrences(r, i, n, g, agree, slot, o);
      InOccurrences(r, i, n + 1, g, agree, slot, o);
    }
    Grown(before, after, (i, n), grows);
  }

  lemma {:induction false} RecordOccurrences(r: Record, i: nat, n: nat, g: Granularity, agree: (string, string) -> bool, slot: Slot)
    requires n <= |r.completions|
    ensures CountOf(EventsOf(r, r.completions[..n], g, agree), slot) == |OccurrencesIn(r, i, n, g, agree, slot)|
  {
    var events := EventsOf(r, r.completions[..n], g, agree);
    if n == 0 {
      assert OccurrencesIn(r, i, 0, g, agree, slot) == {};
    } else {
      RecordOccurrences(r, i, n - 1, g, agree, slot);
      OneMoreCompletion(r, i, n - 1, g, agree, slot);
      if BucketOf(r, g).Some? {
        assert events[..n - 1] == EventsOf(r, r.completions[..n - 1], g, agree);
      }
    }
  }

  lemma {:induction false} CountOfConcat(a: seq<Event>, b: seq<Event>, slot: Slot)
    ensures CountOf(a + b, slot) == CountOf(a, slot) + CountOf(b, slot)
  {
    if b == [] {
      assert a + b == a;
    } else {
      CountOfConcat(a, b[..|b| - 1], slot);
      assert (a + b)[..|a + b| - 1] == a + b[..|b| - 1];
    }
  }

  lemma {:induction false} OccurrencesSplit(kept: seq<Record>, n: nat, g: Granularity, agree: (string, string) -> bool, slot: Slot)
    requires |kept| == n + 1
    ensures var earlier := Occurrences(kept[..n], g, agree, slot);
            var here := OccurrencesIn(kept[n], n, |kept[n].completions|, g, agree, slot);
            Occurrences(kept, g, agree, slot) == earlier + here && earlier !! here
  {
    var earlier := Occurrences(kept[..n], g, agree, slot);
    var here := OccurrencesIn(kept[n], n, |kept[n].completions|, g, agree, slot);
    forall o ensures o in Occurrences(kept, g, agree, slot) <==> o in earlier || o in here {
      if o.0 < n {
        assert kept[..n][o.0] == kept[o.0];
      }
    }
  }

  /** The events of a slot are as many as its occurrences. */
  lemma {:induction false} EventsOccur(kept: seq<Record>, g: Granularity, agree: (string, string) -> bool, slot: Slot)
    ensures CountOf(AllEvents(kept, g, agree), slot) == |Occurrences(kept, g, agree, slot)|
  {
    if kept == [] {
      assert Occurrences(kept, g, agree, slot) == {};
    } else {
      var n: nat := |kept| - 1;
      var last := kept[n];
      EventsOccur(kept[..n], g, agree, slot);
      RecordOccurrences(last, n, |last.completions|, g, agree, slot);
      assert last.completions[..|last.completions|] == last.completions;
      CountOfConcat(AllEvents(kept[..n], g, agree), EventsOf(last, last.completions, g, agree), slot);
      OccurrencesSplit(kept, n, g, agree, slot);
    }
  }

  lemma {:induction false} RecordSamples(r: Record, i: nat, g: Granularity, agree: (string, string) -> bool, slot: Slot, s: Option<int>)
    ensures Event(slot.bucket, slot.category, s) in EventsOf(r, r.completions, g, agree)
            <==> r.sample == s && OccurrencesIn(r, i, |r.completions|, g, agree, slot) != {}
  {
    var events, here := EventsOf(r, r.completions, g, agree), OccurrencesIn(r, i, |r.completions|, g, agree, slot);
    if o :| o in here {
      assert events[o.1] == Event(slot.bucket, slot.category, r.sample);
    }
    if k: nat :| k < |events| && events[k] == Event(slot.bucket, slot.category, s) {
      assert (i, k) in here;
    }
  }

  ghost predicate SampleOccurs(kept: seq<Record>, all: set<(nat, nat)>, s: Option<int>) {
    exists o :: o in all && o.0 < |kept| && kept[o.0].sample == s
  }

  /** The samples of a slot are those of its occurrences. */
  lemma {:induction false} SamplesOccur(kept: seq<Record>, g: Granularity, agree: (string, string) -> bool, slot: Slot, s: Option<int>)
    ensures Event(slot.bucket, slot.category, s) in AllEvents(kept, g, agree)
            <==> SampleOccurs(kept, Occurrences(kept, g, agree, slot), s)
  {
    if kept != [] {
      var n: nat := |kept| - 1;
      SamplesOccur(kept[..n], g, agree, slot, s);
      RecordSamples(kept[n], n, g, agree, slot, s);
      OccurrencesSplit(kept, n, g, agree, slot);
      SamplesSplit(kept, n, Occurrences(kept[..n], g, agree, slot),
                   OccurrencesIn(kept[n], n, |kept[n].completions|, g, agree, slot), s);
    }
  }

  lemma {:induction false} SamplesSplit(kept: seq<Record>, n: nat, earlier: set<(nat, nat)>, here: set<(nat, nat)>, s: Option<int>)
    requires |kept| == n + 1 && (forall o | o in earlier :: o.0 < n) && forall o | o in here :: o.0 == n
    ensures SampleOccurs(kept, earlier + here, s) <==> SampleOccurs(kept[..n], earlier, s) || (kept[n].sample == s && here != {})
  {
    if o :| o in earlier && kept[..n][o.0].sample == s {
      assert o in earlier + here;
    }
    if o :| o in here {
      assert o in earlier + here;
    }
  }

  lemma {:induction false} BumpedConcat(t: Table, a: seq<Event>, b: seq<Event>)
    ensures Bumped(t, a + b) == Bumped(Bumped(t, a), b)
  {
    if b == [] {
      assert a + b == a;
    } else {
      var n := |b| - 1;
      calc {
        Bumped(t, a + b);
        { assert (a + b)[..|a + b| - 1] == a + b[..n] && (a + b)[|a + b| - 1] == b[n]; }
        Bump(Bumped(t, a + b[..n]), b[n]);
        { BumpedConcat(t, a, b[..n]); }
        Bump(Bumped(Bumped(t, a), b[..n]), b[n]);
        Bumped(Bumped(t, a), b);
      }
    }
  }

  /** The completion loop: one category, counted once per granularity the record has. */
  method CountRecord(steps0: Table, epochs0: Table, r: Record, agree: (string, string) -> bool)
    returns (steps: Table, epochs: Table)
    ensures steps == Bumped(steps0, EventsOf(r, r.completions, ByStep, agree))
    ensures epochs == Bumped(epochs0, EventsOf(r, r.completions, ByEpoch, agree))
  {
    steps, epochs := steps0, epochs0;
    ghost var s, e := EventsOf(r, r.completions, ByStep, agree), EventsOf(r, r.completions, ByEpoch, agree);
    for k := 0 to |r.completions|
      invariant steps == if r.step.None? then steps0 else Bumped(steps0, s[..k])
      invariant epochs == if r.epoch.None? then epochs0 else Bumped(epochs0, e[..k])
    {
      var category := ClassifyCompletion(r.target, r.completions[k], agree);
      if r.step.Some? {
        BumpedNext(steps0, s, k);
        steps := Bump(steps, Event(r.step.value, category, r.sample));
      }
      if r.epoch.Some? {
        BumpedNext(epochs0, e, k);
        epochs := Bump(epochs, Event(r.epoch.value, category, r.sample));
      }
    }
    assert s[..|s|] == s && e[..|e|] == e;
  }

  lemma {:induction false} BumpedNext(t: Table, events: seq<Event>, k: nat)
    requires k < |events|
    ensures Bumped(t, events[..k + 1]) == Bump(Bumped(t, events[..k]), events[k])
  {
    assert events[..k + 1][..k] == events[..k];
  }

  method CountErrors(kept: seq<Record>, agree: (string, string) -> bool) returns (steps: Table, epochs: Table)
    ensures steps == Bumped(map[], AllEvents(kept, ByStep, agree))
    ensures epochs == Bumped(map[], AllEvents(kept, ByEpoch, agree))
  {
    steps, epochs := map[], map[];
    for n := 0 to |kept|
      invariant steps == Bumped(map[], AllEvents(kept[..n], ByStep, agree))
      invariant epochs == Bumped(map[], AllEvents(kept[..n], ByEpoch, agree))
    {
      assert kept[..n + 1][..n] == kept[..n];
      BumpedConcat(map[], AllEvents(kept[..n], ByStep, agree), EventsOf(kept[n], kept[n].completions, ByStep, agree));
      BumpedConcat(map[], AllEvents(kept[..n], ByEpoch, agree), EventsOf(kept[n], kept[n].completions, ByEpoch, agree));
      steps, epochs := CountRecord(steps, epochs, kept[n], agree);
    }
    assert kept[..|kept|] == kept;
  }

  /** What a set of rows says about the kept records: exact counts, no repeated sample, nothing lost. */
  ghost predicate RowsAccountFor(rows: seq<Row>, kept: seq<Record>, g: Granularity, agree: (string, string) -> bool) {
    && RowsTotal(rows) == Completions(kept, g) && Sorted(rows)
    && (forall row | row in rows :: RowAccounts(row, kept, g, agree))
    && (forall slot: Slot | Occurrences(kept, g, agree, slot) != {} ::
          exists row :: row in rows && row.bucket == slot.bucket && row.category == slot.category)
  }

  /** The count is that of the occurrences, and the samples are theirs, each once. */
  ghost predicate RowAccounts(row: Row, kept: seq<Record>, g: Granularity, agree: (string, string) -> bool) {
    var all := Occurrences(kept, g, agree, Slot(row.bucket, row.category));
    && row.count == |all| > 0 && Distinct(row.samples)
    && forall s :: s in row.samples <==> SampleOccurs(kept, all, s)
  }

  /** Both tables account for the same kept records. */
  ghost predicate Aggregates(records: seq<Record>, byStep: seq<Row>, byEpoch: seq<Row>, agree: (string, string) -> bool) {
    exists kept :: IsTerminal(records, kept)
                   && RowsAccountFor(byStep, kept, ByStep, agree) && RowsAccountFor(byEpoch, kept, ByEpoch, agree)
  }

  method AggregateErrors(records: seq<Record>, agree: (string, string) -> bool) returns (byStep: seq<Row>, byEpoch: seq<Row>)
    ensures Aggregates(records, byStep, byEpoch, agree)
  {
    var terminal := KeepTerminal(records);
    var steps, epochs := CountErrors(terminal, agree);
    byStep := ToRows(steps);
    RowsAreExact(steps, byStep, terminal, ByStep, agree);
    byEpoch := ToRows(epochs);
    RowsAreExact(epochs, byEpoch, terminal, ByEpoch, agree);
  }

  lemma {:induction false} RowsAreExact(t: Table, rows: seq<Row>, kept: seq<Record>, g: Granularity, agree: (string, string) -> bool)
    requires t == Bumped(map[], AllEvents(kept, g, agree))
    requires RowsInvariant(t, rows, t.Keys) && Sorted(rows)
    ensures RowsAccountFor(rows, kept, g, agree)
  {
    var events := AllEvents(kept, g, agree);
    TableHoldsAllEvents(events);
    EventsAreCompletions(kept, g, agree);
    forall slot: Slot
      ensures CellAt(t, slot).count == |Occurrences(kept, g, agree, slot)|
      ensures slot in t <==> Occurrences(kept, g, agree, slot) != {}
    {
      CellsCount(events, slot);
      EventsOccur(kept, g, agree, slot);
    }
    forall row | row in rows ensures RowAccounts(row, kept, g, agree) {
      assert RowShows(t, row);
      var slot := Slot(row.bucket, row.category);
      CellsCount(events, slot);
      forall s ensures s in row.samples <==> SampleOccurs(kept, Occurrences(kept, g, agree, slot), s) {
        SamplesOccur(kept, g, agree, slot, s);
      }
    }
  }
}
