/** The temperature lock: a walk over the whole request body that must miss no nested sampling temperature. */
module BodyLock {
  import opened Texts

  datatype Num = Finite(value: real) | NonFinite

  datatype Entry = Entry(key: string, value: Json)

  datatype Json =
    | Null
    | Bool(flag: bool)
    | Number(num: Num)
    | Text(text: string)
    | Arr(items: seq<Json>)
    | Obj(entries: seq<Entry>)

  datatype Visit = Visit(path: seq<string>, value: Json)

  datatype Verdict = Accepted | TooDeep(path: seq<string>) | HotKey(path: seq<string>, value: Json)

  const MAX_SCAN_DEPTH := 32
  const TEMPERATURE_PATTERNS := ["temperature", "temp", "temp_"]

  function IndexLabel(i: nat): string {
    "[" + Decimal(i) + "]"
  }

  // ----- the walk

  /** Every key-value pair below `value`, depth first, with its full path. */
  function Walk(value: Json, path: seq<string>): seq<Visit>
    decreases value, 0
  {
    match value
    case Obj(entries) => WalkEntries(entries, path)
    case Arr(items) => WalkItems(items, 0, path)
    case _ => []
  }

  function WalkEntries(entries: seq<Entry>, path: seq<string>): seq<Visit>
    decreases entries, 1
  {
    if entries == [] then []
    else
      var child := path + [entries[0].key];
      [Visit(child, entries[0].value)] + Walk(entries[0].value, child) + WalkEntries(entries[1..], path)
  }

  function WalkItems(items: seq<Json>, index: nat, path: seq<string>): seq<Visit>
    decreases items, 1
  {
    if items == [] then []
    else
      var child := path + [IndexLabel(index)];
      [Visit(child, items[0])] + Walk(items[0], child) + WalkItems(items[1..], index + 1, path)
  }

  predicate IsTemperatureKey(key: string) {
    exists k | 0 <= k < |TEMPERATURE_PATTERNS| :: Contains(Lower(key), TEMPERATURE_PATTERNS[k])
  }

  /** A value that would act as a sampling temperature: a number other than zero; booleans do not count. */
  predicate Hot(value: Json) {
    value.Number? && value.num != Finite(0.0)
  }

  predicate Offends(visit: Visit) {
    visit.path != [] &&
    (|visit.path| > MAX_SCAN_DEPTH || (IsTemperatureKey(visit.path[|visit.path| - 1]) && Hot(visit.value)))
  }

  function Complaint(visit: Visit): Verdict {
    if |visit.path| > MAX_SCAN_DEPTH then TooDeep(visit.path) else HotKey(visit.path, visit.value)
  }

  // ----- what the lock is meant to accept, without paths or a walk

  function Max(a: nat, b: nat): nat {
    if a > b then a else b
  }

  /** Number of nested containers on the longest branch that still holds a pair. */
  function Height(value: Json): nat
    decreases value, 0
  {
    match value
    case Obj(entries) => EntriesHeight(entries)
    case Arr(items) => ItemsHeight(items)
    case _ => 0
  }

  function EntriesHeight(entries: seq<Entry>): nat
    decreases entries, 1
  {
    if entries == [] then 0 else Max(1 + Height(entries[0].value), EntriesHeight(entries[1..]))
  }

  function ItemsHeight(items: seq<Json>): nat
    decreases items, 1
  {
    if items == [] then 0 else Max(1 + Height(items[0]), ItemsHeight(items[1..]))
  }

  /** No dict entry anywhere has a temperature name and a hot value. */
  predicate Cool(value: Json)
    decreases value, 0
  {
    match value
    case Obj(entries) => forall i | 0 <= i < |entries| :: CoolEntry(entries[i])
    case Arr(items) => forall i | 0 <= i < |items| :: Cool(items[i])
    case _ => true
  }

  predicate CoolEntry(e: Entry)
    decreases e, 0
  {
    !(Contains(Lower(e.key), "temp") && Hot(e.value)) && Cool(e.value)
  }

  predicate Locked(body: Json) {
    Height(body) <= MAX_SCAN_DEPTH && Cool(body)
  }

  // ----- exactness

  lemma {:induction false} OnePatternSuffices(key: string)
    ensures IsTemperatureKey(key) <==> Contains(Lower(key), "temp")
  {
    var s := Lower(key);
    assert TEMPERATURE_PATTERNS[1] == "temp";
    forall k | 0 <= k < 3 && Contains(s, TEMPERATURE_PATTERNS[k]) ensures Contains(s, "temp") {
      var p := TEMPERATURE_PATTERNS[k];
      assert |p| >= 4 && p[..4] == "temp";
      PrefixOccurs(s, p, "temp");
    }
  }

  lemma {:induction false} PrefixOccurs(s: string, p: string, prefix: string)
    requires Contains(s, p) && |prefix| <= |p| && p[..|prefix|] == prefix
    ensures Contains(s, prefix)
  {
    var i :| 0 <= i <= |s| && OccursAt(s, p, i);
    assert s[i..i + |prefix|] == s[i..i + |p|][..|prefix|];
    assert OccursAt(s, prefix, i);
  }

  lemma {:induction false} LetterOccurs(s: string, k: nat)
    requires k < 4 && Contains(s, "temp")
    ensures exists i :: 0 <= i < |s| && s[i] == "temp"[k]
  {
    var i :| 0 <= i <= |s| && OccursAt(s, "temp", i);
    assert s[i + k] == s[i..i + 4][k];
  }

  /** A key without one of the letters t, e, m, p names no temperature. */
  lemma {:induction false} MissingLetter(key: string, k: nat)
    requires k < 4 && forall i | 0 <= i < |key| :: LowerChar(key[i]) != "temp"[k]
    ensures !Contains(Lower(key), "temp")
  {
    if Contains(Lower(key), "temp") {
      LetterOccurs(Lower(key), k);
    }
  }

  lemma {:induction false} IndexLabelsAreCold(i: nat)
    ensures !IsTemperatureKey(IndexLabel(i))
  {
    OnePatternSuffices(IndexLabel(i));
    DecimalReadsBack(i);
    MissingLetter(IndexLabel(i), 0);
  }

  ghost predicate Offending(visits: seq<Visit>) {
    exists i :: 0 <= i < |visits| && Offends(visits[i])
  }

  lemma {:induction false} OffendingConcat(a: seq<Visit>, b: seq<Visit>)
    ensures Offending(a + b) <==> Offending(a) || Offending(b)
  {
    if Offending(a) {
      var i :| 0 <= i < |a| && Offends(a[i]);
      assert Offends((a + b)[i]);
    }
    if Offending(b) {
      var i :| 0 <= i < |b| && Offends(b[i]);
      assert Offends((a + b)[|a| + i]);
    }
  }

  lemma {:induction false} WalkIsExact(value: Json, path: seq<string>)
    requires |path| <= MAX_SCAN_DEPTH
    ensures Offending(Walk(value, path)) <==> !(|path| + Height(value) <= MAX_SCAN_DEPTH && Cool(value))
    decreases value, 0
  {
    match value
    case Obj(entries) => EntriesAreExact(entries, path);
    case Arr(items) => ItemsAreExact(items, 0, path);
    case _ =>
  }

  ghost predicate CoolEntries(entries: seq<Entry>) {
    forall i | 0 <= i < |entries| :: CoolEntry(entries[i])
  }

  /** One pair and everything below it. */
  lemma {:induction false} PairIsExact(key: string, value: Json, path: seq<string>)
    requires |path| <= MAX_SCAN_DEPTH
    ensures var child := path + [key];
            Offending([Visit(child, value)] + Walk(value, child))
            <==> !(|path| + 1 + Height(value) <= MAX_SCAN_DEPTH
                   && !(IsTemperatureKey(key) && Hot(value)) && Cool(value))
    decreases value, 1
  {
    var child := path + [key];
    var visit := Visit(child, value);
    OffendingConcat([visit], Walk(value, child));
    assert Offending([visit]) <==> Offends(visit) by {
      assert [visit][0] == visit;
    }
    if |child| <= MAX_SCAN_DEPTH {
      WalkIsExact(value, child);
    }
  }

  lemma {:induction false} EntriesAreExact(entries: seq<Entry>, path: seq<string>)
    requires |path| <= MAX_SCAN_DEPTH
    ensures Offending(WalkEntries(entries, path))
            <==> !(|path| + EntriesHeight(entries) <= MAX_SCAN_DEPTH && CoolEntries(entries))
    decreases entries, 1
  {
    if entries != [] {
      var e, rest := entries[0], entries[1..];
      OnePatternSuffices(e.key);
      PairIsExact(e.key, e.value, path);
      EntriesAreExact(rest, path);
      OffendingConcat([Visit(path + [e.key], e.value)] + Walk(e.value, path + [e.key]), WalkEntries(rest, path));
      assert entries == [e] + rest;
    }
  }

  ghost predicate CoolItems(items: seq<Json>) {
    forall i | 0 <= i < |items| :: Cool(items[i])
  }

  lemma {:induction false} ItemsAreExact(items: seq<Json>, index: nat, path: seq<string>)
    requires |path| <= MAX_SCAN_DEPTH
    ensures Offending(WalkItems(items, index, path))
            <==> !(|path| + ItemsHeight(items) <= MAX_SCAN_DEPTH && CoolItems(items))
    decreases items, 1
  {
    if items != [] {
      var v, rest, name := items[0], items[1..], IndexLabel(index);
      IndexLabelsAreCold(index);
      PairIsExact(name, v, path);
      ItemsAreExact(rest, index + 1, path);
      OffendingConcat([Visit(path + [name], v)] + Walk(v, path + [name]), WalkItems(rest, index + 1, path));
      assert items == [v] + rest;
    }
  }

  // ----- what that means for the places of a body

  /** Following keys and `[i]` labels from `value` one arrives at `target`. */
  ghost predicate Leads(value: Json, path: seq<string>, target: Json)
    decreases |path|
  {
    if path == [] then value == target
    else match value
      case Obj(entries) =>
        exists i :: 0 <= i < |entries| && entries[i].key == path[0] && Leads(entries[i].value, path[1..], target)
      case Arr(items) =>
        exists i :: 0 <= i < |items| && path[0] == "[" + Decimal(i) + "]" && Leads(items[i], path[1..], target)
      case _ => false
  }

  /** The letters of `temp`, small or capital, somewhere in the key. */
  ghost predicate NamesTemperature(key: string) {
    exists i | 0 <= i <= |key| :: TempAt(key, i)
  }

  predicate TempAt(key: string, i: int) {
    0 <= i <= |key| - 4 && AnyCase(key[i..i + 4], "temp", "TEMP")
  }

  lemma {:induction false} TemperatureNames(key: string)
    ensures NamesTemperature(key) <==> Contains(Lower(key), "temp")
  {
    var s := Lower(key);
    forall i | 0 <= i <= |key| ensures TempAt(key, i) <==> OccursAt(s, "temp", i) {
      if i <= |key| - 4 {
        LowerMeans(key[i..i + 4], "temp", "TEMP");
        assert s[i..i + 4] == Lower(key[i..i + 4]);
      }
    }
  }

  lemma {:induction false} WalkStaysBelow(value: Json, path: seq<string>)
    ensures forall v | v in Walk(value, path) :: |v.path| > |path| && v.path[..|path|] == path
    decreases value, 0
  {
    match value
    case Obj(entries) => EntriesStayBelow(entries, path);
    case Arr(items) => ItemsStayBelow(items, 0, path);
    case _ =>
  }

  lemma {:induction false} PairStaysBelow(key: string, value: Json, path: seq<string>)
    ensures forall v | v in [Visit(path + [key], value)] + Walk(value, path + [key]) ::
              |v.path| > |path| && v.path[..|path|] == path && v.path[|path|] == key
    decreases value, 1
  {
    var child := path + [key];
    WalkStaysBelow(value, child);
    forall v | v in [Visit(child, value)] + Walk(value, child)
      ensures |v.path| > |path| && v.path[..|path|] == path && v.path[|path|] == key
    {
      assert v.path[..|child|] == child;
      assert v.path[..|child|][..|path|] == path;
    }
  }

  lemma {:induction false} EntriesStayBelow(entries: seq<Entry>, path: seq<string>)
    ensures forall v | v in WalkEntries(entries, path) :: |v.path| > |path| && v.path[..|path|] == path
    decreases entries, 1
  {
    if entries != [] {
      PairStaysBelow(entries[0].key, entries[0].value, path);
      EntriesStayBelow(entries[1..], path);
    }
  }

  lemma {:induction false} ItemsStayBelow(items: seq<Json>, index: nat, path: seq<string>)
    ensures forall v | v in WalkItems(items, index, path) :: |v.path| > |path| && v.path[..|path|] == path
    decreases items, 1
  {
    if items != [] {
      PairStaysBelow(IndexLabel(index), items[0], path);
      ItemsStayBelow(items[1..], index + 1, path);
    }
  }

  /** The walk visits every place below a node, under its path, and nothing else. */
  lemma {:induction false} WalkLeads(value: Json, path: seq<string>, suffix: seq<string>, target: Json)
    ensures Visit(path + suffix, target) in Walk(value, path) <==> suffix != [] && Leads(value, suffix, target)
    decreases value, 0
  {
    WalkStaysBelow(value, path);
    if suffix != [] {
      match value
      case Obj(entries) => EntriesLead(entries, path, suffix, target);
      case Arr(items) => ItemsLead(items, 0, path, suffix, target);
      case _ =>
    }
  }

  lemma {:induction false} PairLeads(key: string, value: Json, path: seq<string>, suffix: seq<string>, target: Json)
    requires suffix != []
    ensures Visit(path + suffix, target) in [Visit(path + [key], value)] + Walk(value, path + [key])
            <==> suffix[0] == key && Leads(value, suffix[1..], target)
    decreases value, 1
  {
    var child := path + [key];
    if suffix[0] == key {
      assert path + suffix == child + suffix[1..];
      WalkLeads(value, child, suffix[1..], target);
      assert child + suffix[1..] == child <==> suffix[1..] == [];
    } else {
      PairStaysBelow(key, value, path);
      assert (path + suffix)[|path|] == suffix[0];
    }
  }

  ghost predicate EntryLeads(entries: seq<Entry>, suffix: seq<string>, target: Json)
    requires suffix != []
  {
    exists i :: 0 <= i < |entries| && entries[i].key == suffix[0] && Leads(entries[i].value, suffix[1..], target)
  }

  lemma {:induction false} EntriesLead(entries: seq<Entry>, path: seq<string>, suffix: seq<string>, target: Json)
    requires suffix != []
    ensures Visit(path + suffix, target) in WalkEntries(entries, path) <==> EntryLeads(entries, suffix, target)
    decreases entries, 1
  {
    if entries != [] {
      var e, rest := entries[0], entries[1..];
      PairLeads(e.key, e.value, path, suffix, target);
      EntriesLead(rest, path, suffix, target);
      assert EntryLeads(entries, suffix, target)
             <==> (e.key == suffix[0] && Leads(e.value, suffix[1..], target)) || EntryLeads(rest, suffix, target) by {
        assert forall i | 0 < i < |entries| :: entries[i] == rest[i - 1];
        if i :| 0 <= i < |rest| && rest[i].key == suffix[0] && Leads(rest[i].value, suffix[1..], target) {
          assert entries[i + 1] == rest[i];
        }
      }
    }
  }

  ghost predicate ItemLeads(items: seq<Json>, index: nat, suffix: seq<string>, target: Json)
    requires suffix != []
  {
    exists i :: 0 <= i < |items| && suffix[0] == "[" + Decimal(index + i) + "]" && Leads(items[i], suffix[1..], target)
  }

  lemma {:induction false} ItemsLead(items: seq<Json>, index: nat, path: seq<string>, suffix: seq<string>, target: Json)
    requires suffix != []
    ensures Visit(path + suffix, target) in WalkItems(items, index, path) <==> ItemLeads(items, index, suffix, target)
    decreases items, 1
  {
    if items != [] {
      var v, rest := items[0], items[1..];
      PairLeads(IndexLabel(index), v, path, suffix, target);
      ItemsLead(rest, index + 1, path, suffix, target);
      OneItemMore(items, index, suffix, target);
    }
  }

  lemma {:induction false} OneItemMore(items: seq<Json>, index: nat, suffix: seq<string>, target: Json)
    requires suffix != [] && items != []
    ensures ItemLeads(items, index, suffix, target)
            <==> (suffix[0] == "[" + Decimal(index) + "]" && Leads(items[0], suffix[1..], target))
                 || ItemLeads(items[1..], index + 1, suffix, target)
  {
    var rest := items[1..];
    if i :| 0 <= i < |rest| && suffix[0] == "[" + Decimal(index + 1 + i) + "]" && Leads(rest[i], suffix[1..], target) {
      assert items[i + 1] == rest[i] && index + (i + 1) == index + 1 + i;
    }
    if i :| 0 <= i < |items| && suffix[0] == "[" + Decimal(index + i) + "]" && Leads(items[i], suffix[1..], target) {
      assert i > 0 ==> items[i] == rest[i - 1] && index + i == index + 1 + (i - 1);
    }
  }

  /** Some place lies deeper than 32 keys, or holds a number other than zero under a name with `temp` in it. */
  ghost predicate Offensive(path: seq<string>, value: Json) {
    path != []
    && (|path| > 32 || (NamesTemperature(path[|path| - 1]) && value.Number? && value.num != Finite(0.0)))
  }

  lemma {:induction false} OffendsMeans(visit: Visit)
    ensures Offends(visit) <==> Offensive(visit.path, visit.value)
  {
    if visit.path != [] {
      OnePatternSuffices(visit.path[|visit.path| - 1]);
      TemperatureNames(visit.path[|visit.path| - 1]);
    }
  }

  /** A body is locked exactly when no place of it is offensive. */
  lemma {:induction false} LockedExactly(body: Json)
    ensures Locked(body) <==> forall path, value | Leads(body, path, value) :: !Offensive(path, value)
  {
    WalkIsExact(body, []);
    forall path, value | Leads(body, path, value) && Offensive(path, value) ensures Offending(Walk(body, [])) {
      PlaceIsVisited(body, path, value);
      var i :| 0 <= i < |Walk(body, [])| && Walk(body, [])[i] == Visit(path, value);
      OffendsMeans(Visit(path, value));
    }
    if i :| 0 <= i < |Walk(body, [])| && Offends(Walk(body, [])[i]) {
      VisitIsPlace(body, i);
      OffendsMeans(Walk(body, [])[i]);
    }
  }

  lemma {:induction false} PlaceIsVisited(body: Json, path: seq<string>, value: Json)
    requires path != [] && Leads(body, path, value)
    ensures Visit(path, value) in Walk(body, [])
  {
    WalkLeads(body, [], path, value);
    assert [] + path == path;
  }

  lemma {:induction false} VisitIsPlace(body: Json, i: nat)
    requires i < |Walk(body, [])|
    ensures var visit := Walk(body, [])[i]; visit.path != [] && Leads(body, visit.path, visit.value)
  {
    var visit := Walk(body, [])[i];
    WalkStaysBelow(body, []);
    assert visit in Walk(body, []) && [] + visit.path == visit.path;
    WalkLeads(body, [], visit.path, visit.value);
  }

  /** The check itself: accepts exactly the locked bodies and otherwise reports the first offence met. */
  method AssertRequestBodyLocked(body: Json) returns (verdict: Verdict)
    ensures verdict.Accepted? <==> Locked(body)
    ensures !verdict.Accepted? ==>
              exists i :: && 0 <= i < |Walk(body, [])| && Offends(Walk(body, [])[i])
                          && verdict == Complaint(Walk(body, [])[i])
                          && forall j | 0 <= j < i :: !Offends(Walk(body, [])[j])
    ensures verdict.TooDeep? ==> |verdict.path| > 32 && exists value :: Leads(body, verdict.path, value)
    ensures verdict.HotKey? ==>
              && |verdict.path| <= 32 && Leads(body, verdict.path, verdict.value)
              && Offensive(verdict.path, verdict.value)
  {
    WalkIsExact(body, []);
    var visits := Walk(body, []);
    for i := 0 to |visits|
      invariant forall j | 0 <= j < i :: !Offends(visits[j])
    {
      if Offends(visits[i]) {
        VisitIsPlace(body, i);
        OffendsMeans(visits[i]);
        return Complaint(visits[i]);
      }
    }
    return Accepted;
  }

  // ----- key order does not matter

  /** What a body is once the order of dict entries is forgotten, at every depth. */
  datatype Unordered = Leaf(value: Json) | Listing(items: seq<Unordered>) | Dict(pairs: set<(string, Unordered)>)

  ghost function View(value: Json): Unordered {
    match value
    case Obj(entries) => Dict(set i | 0 <= i < |entries| :: (entries[i].key, View(entries[i].value)))
    case Arr(items) => Listing(seq(|items|, i requires 0 <= i < |items| => View(items[i])))
    case _ => Leaf(value)
  }

  lemma {:induction false} EntriesHeightIsMax(entries: seq<Entry>)
    ensures forall i | 0 <= i < |entries| :: Height(entries[i].value) < EntriesHeight(entries)
    ensures entries != [] ==>
              exists i :: 0 <= i < |entries| && EntriesHeight(entries) == 1 + Height(entries[i].value)
  {
    if entries != [] {
      var rest := entries[1..];
      EntriesHeightIsMax(rest);
      assert forall i | 0 < i < |entries| :: entries[i] == rest[i - 1];
      if rest != [] && EntriesHeight(entries) != 1 + Height(entries[0].value) {
        var k :| 0 <= k < |rest| && EntriesHeight(rest) == 1 + Height(rest[k].value);
        assert EntriesHeight(entries) == 1 + Height(entries[k + 1].value);
      } else {
        assert EntriesHeight(entries) == 1 + Height(entries[0].value);
      }
    }
  }

  /** Every entry of one dict has a counterpart in the other. */
  lemma {:induction false} Counterpart(xs: seq<Entry>, ys: seq<Entry>, j: nat) returns (i: nat)
    requires View(Obj(xs)) == View(Obj(ys)) && j < |ys|
    ensures i < |xs| && xs[i].key == ys[j].key && View(xs[i].value) == View(ys[j].value)
    ensures Hot(xs[i].value) <==> Hot(ys[j].value)
  {
    assert (ys[j].key, View(ys[j].value)) in View(Obj(ys)).pairs;
    i :| 0 <= i < |xs| && (xs[i].key, View(xs[i].value)) == (ys[j].key, View(ys[j].value));
  }

  lemma {:induction false} ItemsFollow(xs: seq<Json>, ys: seq<Json>)
    requires |xs| == |ys| && forall i | 0 <= i < |xs| :: View(xs[i]) == View(ys[i])
    ensures ItemsHeight(xs) == ItemsHeight(ys) && (CoolItems(xs) <==> CoolItems(ys))
    decreases xs, 0
  {
    if xs != [] {
      OrderIsIrrelevant(xs[0], ys[0]);
      ItemsFollow(xs[1..], ys[1..]);
      assert xs == [xs[0]] + xs[1..] && ys == [ys[0]] + ys[1..];
    }
  }

  ghost predicate Matches(x: Entry, y: Entry) {
    x.key == y.key && (Hot(x.value) <==> Hot(y.value)) && Height(x.value) == Height(y.value)
    && (Cool(x.value) <==> Cool(y.value))
  }

  ghost predicate Matched(xs: seq<Entry>, y: Entry) {
    exists i :: 0 <= i < |xs| && Matches(xs[i], y)
  }

  lemma {:induction false} MatchedBound(xs: seq<Entry>, ys: seq<Entry>)
    requires forall j | 0 <= j < |ys| :: Matched(xs, ys[j])
    ensures EntriesHeight(ys) <= EntriesHeight(xs)
  {
    EntriesHeightIsMax(xs);
    EntriesHeightIsMax(ys);
    forall j | 0 <= j < |ys| ensures Height(ys[j].value) < EntriesHeight(xs) {
      var i :| 0 <= i < |xs| && Matches(xs[i], ys[j]);
    }
  }

  lemma {:induction false} MatchedCool(xs: seq<Entry>, ys: seq<Entry>)
    requires forall j | 0 <= j < |ys| :: Matched(xs, ys[j])
    requires CoolEntries(xs)
    ensures CoolEntries(ys)
  {
    forall j | 0 <= j < |ys| ensures CoolEntry(ys[j]) {
      var i :| 0 <= i < |xs| && Matches(xs[i], ys[j]);
      assert CoolEntry(xs[i]);
    }
  }

  lemma {:induction false} EntriesAgree(xs: seq<Entry>, ys: seq<Entry>)
    requires View(Obj(xs)) == View(Obj(ys))
    ensures EntriesHeight(xs) == EntriesHeight(ys) && (CoolEntries(xs) <==> CoolEntries(ys))
    decreases xs, 0
  {
    forall j | 0 <= j < |ys| ensures Matched(xs, ys[j]) {
      var i := Counterpart(xs, ys, j);
      OrderIsIrrelevant(xs[i].value, ys[j].value);
      assert Matches(xs[i], ys[j]);
    }
    forall i | 0 <= i < |xs| ensures Matched(ys, xs[i]) {
      var j := Counterpart(ys, xs, i);
      OrderIsIrrelevant(xs[i].value, ys[j].value);
      assert Matches(ys[j], xs[i]);
    }
    BothMatched(xs, ys);
  }

  lemma {:induction false} BothMatched(xs: seq<Entry>, ys: seq<Entry>)
    requires forall j | 0 <= j < |ys| :: Matched(xs, ys[j])
    requires forall i | 0 <= i < |xs| :: Matched(ys, xs[i])
    ensures EntriesHeight(xs) == EntriesHeight(ys) && (CoolEntries(xs) <==> CoolEntries(ys))
  {
    MatchedBound(xs, ys);
    MatchedBound(ys, xs);
    if CoolEntries(xs) {
      MatchedCool(xs, ys);
    }
    if CoolEntries(ys) {
      MatchedCool(ys, xs);
    }
  }

  /** Bodies that differ only in the order of their dict entries get the same answer. */
  lemma {:induction false} OrderIsIrrelevant(a: Json, b: Json)
    requires View(a) == View(b)
    ensures Height(a) == Height(b) && (Cool(a) <==> Cool(b)) && (Locked(a) <==> Locked(b))
    decreases a, 1
  {
    match a
    case Obj(xs) => EntriesAgree(xs, b.entries);
    case Arr(xs) =>
      assert |xs| == |View(a).items| == |View(b).items| == |b.items|;
      forall i | 0 <= i < |xs| ensures View(xs[i]) == View(b.items[i]) {
        assert View(a).items[i] == View(b).items[i];
      }
      ItemsFollow(xs, b.items);
    case _ =>
  }

  /** In particular, listing the entries of a dict in another order changes nothing. */
  lemma {:induction false} ReorderingIsInvisible(xs: seq<Entry>, ys: seq<Entry>)
    requires multiset(xs) == multiset(ys)
    ensures View(Obj(xs)) == View(Obj(ys))
  {
    forall i | 0 <= i < |xs| ensures xs[i] in ys {
      assert xs[i] in multiset(ys);
    }
    forall j | 0 <= j < |ys| ensures ys[j] in xs {
      assert ys[j] in multiset(xs);
    }
  }

  /** A number inside a list is judged by its index label, so a listed temperature passes. */
  lemma {:induction false} ListedTemperaturePasses(key: string, numbers: seq<real>)
    ensures Locked(Obj([Entry(key, Arr(seq(|numbers|, i requires 0 <= i < |numbers| => Number(Finite(numbers[i])))))]))
  {
    var items := seq(|numbers|, i requires 0 <= i < |numbers| => Number(Finite(numbers[i])));
    LeafItems(items);
    var entries := [Entry(key, Arr(items))];
    assert EntriesHeight(entries) == Max(1 + ItemsHeight(items), EntriesHeight(entries[1..]));
    assert CoolItems(items) == Cool(Arr(items));
  }

  lemma {:induction false} LeafItems(items: seq<Json>)
    requires forall i | 0 <= i < |items| :: items[i].Number?
    ensures ItemsHeight(items) <= 1 && CoolItems(items)
  {
    if items != [] {
      LeafItems(items[1..]);
    }
  }
}
