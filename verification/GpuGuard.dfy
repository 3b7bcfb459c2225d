/**
 The device-lock guard: reading a device list, the allow/reserve policy, the container-side check,
 and the device plan that is printed back into a list.
 */
module GpuGuard {
  import opened Wrappers
  import opened Texts
  import opened Seqs

  datatype Refusal =
    | Unset
    | BlankText
    | AllDevices
    | RuntimeMarker
    | EmptyItem
    | NotAnIndex
    | Repeated
    | Reserved
    | OutsideAllowed
    | AboveBound
    | TooManyCards
    | NothingVisible
    | CountMismatch
    | InventoryMissing

  type Guarded<+T> = Result<T, Refusal>

  datatype Source = Explicit(devices: seq<nat>) | RuntimeManaged

  const ALLOWED_KEY := "GRASPO_ALLOWED_GPU_INDICES"
  const RESERVED_KEY := "GRASPO_RESERVED_GPU_INDICES"
  const DEFAULT_ALLOWED: seq<nat> := [4, 5, 6, 7]
  const DEFAULT_RESERVED: seq<nat> := []
  const ALLOWED_MAX_INDEX := 7
  const MAX_CARDS := 4

  // ----- reading a comma-separated index list

  function StripAll(parts: seq<string>): (r: seq<string>)
    ensures |r| == |parts|
  {
    seq(|parts|, i requires 0 <= i < |parts| => Strip(parts[i]))
  }

  predicate AllIndices(parts: seq<string>) {
    forall i | 0 <= i < |parts| :: IsDigits(parts[i])
  }

  function Values(parts: seq<string>): (r: seq<nat>)
    requires AllIndices(parts)
    ensures |r| == |parts|
  {
    seq(|parts|, i requires 0 <= i < |parts| => NatValue(parts[i]))
  }

  /** What a non-blank list text means: distinct indices, or the first complaint in the order the guard looks. */
  function IndexList(text: string): Guarded<seq<nat>> {
    var parts := StripAll(Split(text, ','));
    if exists i | 0 <= i < |parts| :: parts[i] == [] then Failure(EmptyItem)
    else if !AllIndices(parts) then Failure(NotAnIndex)
    else if !Distinct(Values(parts)) then Failure(Repeated)
    else Success(Values(parts))
  }

  /** The parsing loop shared by the device list and the policy variables. */
  method ReadIndexList(text: string) returns (r: Guarded<seq<nat>>)
    ensures r == IndexList(text)
  {
    var parts := StripAll(Split(text, ','));
    if exists i | 0 <= i < |parts| :: parts[i] == [] {
      return Failure(EmptyItem);
    }
    var indices: seq<nat> := [];
    for k := 0 to |parts|
      invariant AllIndices(parts[..k])
      invariant indices == Values(parts[..k])
    {
      if !IsDigits(parts[k]) {
        return Failure(NotAnIndex);
      }
      indices := indices + [NatValue(parts[k])];
    }
    assert parts[..|parts|] == parts;
    if !Distinct(indices) {
      return Failure(Repeated);
    }
    return Success(indices);
  }

  function DeviceSource(raw: Option<string>): Guarded<Source> {
    match raw
    case None => Failure(Unset)
    case Some(r) =>
      var text := Strip(r);
      if text == [] then Failure(BlankText)
      else if Lower(text) == "all" then Failure(AllDevices)
      else if Lower(text) == "void" || Lower(text) == "none" then Success(RuntimeManaged)
      else match IndexList(text)
        case Success(devices) => Success(Explicit(devices))
        case Failure(why) => Failure(why)
  }

  function DeviceList(raw: Option<string>): Guarded<seq<nat>> {
    match DeviceSource(raw)
    case Success(Explicit(devices)) => Success(devices)
    case Success(RuntimeManaged) => Failure(RuntimeMarker)
    case Failure(why) => Failure(why)
  }

  /** A policy variable: blank falls back to the default, anything malformed is refused. */
  function IndexSet(raw: Option<string>, default: seq<nat>): Guarded<seq<nat>> {
    if raw.None? || Strip(raw.value) == [] then Success(default) else IndexList(Strip(raw.value))
  }

  function Lookup(env: map<string, string>, key: string): Option<string> {
    if key in env then Some(env[key]) else None
  }

  // ----- the policy check

  datatype Limits = Limits(bound: int, cards: int, allowed: Option<seq<int>>, reserved: Option<seq<int>>)

  const DEFAULT_LIMITS := Limits(ALLOWED_MAX_INDEX, MAX_CARDS, None, None)

  function AllowedSet(limits: Limits, env: map<string, string>): Guarded<seq<int>> {
    if limits.allowed.Some? then Success(limits.allowed.value)
    else if limits.bound == ALLOWED_MAX_INDEX then IndexSet(Lookup(env, ALLOWED_KEY), DEFAULT_ALLOWED)
    else Success([])
  }

  function ReservedSet(limits: Limits, env: map<string, string>): Guarded<seq<int>> {
    if limits.reserved.Some? then Success(limits.reserved.value)
    else IndexSet(Lookup(env, RESERVED_KEY), DEFAULT_RESERVED)
  }

  function AssertGpuLock(raw: Option<string>, limits: Limits, env: map<string, string>): Guarded<seq<nat>> {
    match DeviceList(raw)
    case Failure(why) => Failure(why)
    case Success(devices) =>
      match AllowedSet(limits, env)
      case Failure(why) => Failure(why)
      case Success(allowed) =>
        match ReservedSet(limits, env)
        case Failure(why) => Failure(why)
        case Success(reserved) =>
          if exists i | 0 <= i < |devices| :: devices[i] in reserved then Failure(Reserved)
          else if allowed != [] && exists i | 0 <= i < |devices| :: devices[i] !in allowed then Failure(OutsideAllowed)
          else if exists i | 0 <= i < |devices| :: devices[i] > limits.bound then Failure(AboveBound)
          else if |devices| > limits.cards then Failure(TooManyCards)
          else Success(devices)
  }

  /** The rule in one sentence, over the cards themselves. */
  ghost predicate Permitted(devices: seq<int>, allowed: seq<int>, reserved: seq<int>, bound: int, cards: int) {
    && |devices| <= cards
    && forall d | d in devices :: d !in reserved && d <= bound && (allowed == [] || d in allowed)
  }

  // ----- printing and reading undo each other

  function Printed(devices: seq<int>): (r: seq<string>)
    ensures |r| == |devices|
  {
    seq(|devices|, i requires 0 <= i < |devices| => Str(devices[i]))
  }

  /** `GpuPlan.csv`. */
  function Csv(devices: seq<int>): string {
    Join(Printed(devices), ',')
  }

  predicate IsIndexChar(c: char) {
    IsDigit(c) || c == '-'
  }

  lemma {:induction false} StrShape(n: int)
    ensures Str(n) != [] && forall i | 0 <= i < |Str(n)| :: IsIndexChar(Str(n)[i])
    ensures IsDigits(Str(n)) <==> n >= 0
    ensures n >= 0 ==> NatValue(Str(n)) == n
  {
    if n < 0 {
      DecimalReadsBack(-n);
      assert Str(n)[0] == '-';
    } else {
      DecimalReadsBack(n);
    }
  }

  lemma {:induction false} JoinShape(parts: seq<string>)
    requires parts != []
    requires forall i | 0 <= i < |parts| :: parts[i] != [] && forall k | 0 <= k < |parts[i]| :: IsIndexChar(parts[i][k])
    ensures var s := Join(parts, ','); s != [] && IsIndexChar(s[0]) && IsIndexChar(s[|s| - 1])
  {
    if |parts| > 1 {
      JoinShape(parts[1..]);
    }
  }

  /** Printing, splitting and stripping give the printed items back. */
  lemma {:induction false} PartsSurvive(devices: seq<int>)
    requires devices != []
    ensures var text := Csv(devices);
            && StripAll(Split(text, ',')) == Printed(devices)
            && Strip(text) == text && text != [] && IsIndexChar(text[0])
  {
    var parts := Printed(devices);
    forall i | 0 <= i < |parts|
      ensures parts[i] != [] && (forall k | 0 <= k < |parts[i]| :: IsIndexChar(parts[i][k]))
      ensures ',' !in parts[i] && Strip(parts[i]) == parts[i]
    {
      StrShape(devices[i]);
      StripKeeps(parts[i]);
    }
    JoinShape(parts);
    StripKeeps(Csv(devices));
    SplitUndoesJoin(parts, ',');
    assert StripAll(parts) == parts;
  }

  predicate AllNatural(devices: seq<int>) {
    forall i | 0 <= i < |devices| :: devices[i] >= 0
  }

  lemma {:induction false} IndexListReadsBack(devices: seq<int>)
    requires devices != []
    ensures var list := IndexList(Csv(devices));
            if !AllNatural(devices) then list == Failure(NotAnIndex)
            else if !Distinct(devices) then list == Failure(Repeated)
            else list.Success? && list.value == devices
  {
    PartsSurvive(devices);
    var parts := Printed(devices);
    forall i | 0 <= i < |parts|
      ensures parts[i] != [] && (IsDigits(parts[i]) <==> devices[i] >= 0)
      ensures devices[i] >= 0 ==> NatValue(parts[i]) == devices[i]
    {
      StrShape(devices[i]);
    }
    if AllNatural(devices) {
      assert Values(parts) == devices;
    } else {
      var i :| 0 <= i < |devices| && devices[i] < 0;
      assert !IsDigits(parts[i]);
    }
  }

  /** Reading a printed list gives the list back, or the one complaint the list deserves. */
  lemma {:induction false} CsvReadsBack(devices: seq<int>)
    requires devices != []
    ensures var list := DeviceList(Some(Csv(devices)));
            if !AllNatural(devices) then list == Failure(NotAnIndex)
            else if !Distinct(devices) then list == Failure(Repeated)
            else list.Success? && list.value == devices
  {
    PartsSurvive(devices);
    IndexListReadsBack(devices);
    var text := Csv(devices);
    assert Lower(text)[0] == text[0];
  }

  /** A text is accepted exactly when it reads as a device list, the policy variables read, and the policy permits it. */
  lemma {:induction false} AcceptsExactly(raw: Option<string>, limits: Limits, env: map<string, string>)
    ensures var verdict := AssertGpuLock(raw, limits, env);
            && (verdict.Success? <==>
                && DeviceList(raw).Success? && AllowedSet(limits, env).Success? && ReservedSet(limits, env).Success?
                && Permitted(DeviceList(raw).value, AllowedSet(limits, env).value, ReservedSet(limits, env).value,
                             limits.bound, limits.cards))
            && (verdict.Success? ==> verdict.value == DeviceList(raw).value)
  {
  }

  /** Under any policy a printed list is accepted exactly when it is distinct, natural and permitted. */
  lemma {:induction false} PrintedListAcceptance(devices: seq<int>, limits: Limits, env: map<string, string>)
    requires devices != []
    requires AllowedSet(limits, env).Success? && ReservedSet(limits, env).Success?
    ensures var verdict := AssertGpuLock(Some(Csv(devices)), limits, env);
            && (verdict.Success? <==>
                && Distinct(devices) && AllNatural(devices)
                && Permitted(devices, AllowedSet(limits, env).value, ReservedSet(limits, env).value,
                             limits.bound, limits.cards))
            && (verdict.Success? ==> verdict.value == devices)
  {
    CsvReadsBack(devices);
  }

  /** A malformed policy variable refuses every device list; it is never read as the default. */
  lemma {:induction false} MalformedPolicyRefuses(raw: Option<string>, limits: Limits, env: map<string, string>)
    requires AllowedSet(limits, env).Failure? || ReservedSet(limits, env).Failure?
    ensures AssertGpuLock(raw, limits, env).Failure?
  {
  }

  /** The default entry point: distinct cards, at most four, none above index 7 whatever the environment says. */
  lemma {:induction false} DefaultGuardIsSafe(raw: Option<string>, env: map<string, string>)
    requires AssertGpuLock(raw, DEFAULT_LIMITS, env).Success?
    ensures var devices := AssertGpuLock(raw, DEFAULT_LIMITS, env).value;
            && 1 <= |devices| <= 4 && Distinct(devices)
            && (forall d | d in devices :: d <= 7)
            && (ALLOWED_KEY !in env ==> forall d | d in devices :: 4 <= d <= 7)
            && IndexSet(Lookup(env, ALLOWED_KEY), DEFAULT_ALLOWED).Success?
            && (forall d | d in devices :: d in IndexSet(Lookup(env, ALLOWED_KEY), DEFAULT_ALLOWED).value)
  {
    ListsAreNeverEmpty(raw);
    IndexSetIsNeverEmpty(Lookup(env, ALLOWED_KEY), DEFAULT_ALLOWED);
    var devices := AssertGpuLock(raw, DEFAULT_LIMITS, env).value;
    assert forall i | 0 <= i < |devices| :: devices[i] <= ALLOWED_MAX_INDEX;
  }

  lemma {:induction false} ListsAreNeverEmpty(raw: Option<string>)
    ensures DeviceList(raw).Success? ==> DeviceList(raw).value != [] && Distinct(DeviceList(raw).value)
  {
  }

  lemma {:induction false} IndexSetIsNeverEmpty(raw: Option<string>, default: seq<nat>)
    requires default != []
    ensures IndexSet(raw, default).Success? ==> IndexSet(raw, default).value != []
  {
  }

  /** The allow variable is documented to set the policy, yet no value of it opens a card above the built-in bound. */
  lemma {:induction false} AllowVariableCannotRaiseTheBound(allowed: seq<int>, card: int, env: map<string, string>)
    requires card in allowed && card > ALLOWED_MAX_INDEX && AllNatural(allowed) && Distinct(allowed)
    requires Lookup(env, ALLOWED_KEY) == Some(Csv(allowed)) && RESERVED_KEY !in env
    ensures AssertGpuLock(Some(Csv([card])), DEFAULT_LIMITS, env) == Failure(AboveBound)
  {
    CsvReadsBack([card]);
    AllowVariableIsRead(allowed, env);
    assert IndexSet(Lookup(env, RESERVED_KEY), DEFAULT_RESERVED).value == [];
    var devices := DeviceList(Some(Csv([card]))).value;
    assert devices[0] == card && forall i | 0 <= i < |devices| :: devices[i] in allowed;
  }

  lemma {:induction false} AllowVariableIsRead(allowed: seq<int>, env: map<string, string>)
    requires allowed != [] && AllNatural(allowed) && Distinct(allowed)
    requires Lookup(env, ALLOWED_KEY) == Some(Csv(allowed))
    ensures AllowedSet(DEFAULT_LIMITS, env).Success? && AllowedSet(DEFAULT_LIMITS, env).value == allowed
  {
    PartsSurvive(allowed);
    IndexListReadsBack(allowed);
  }

  // ----- the same decision, in terms of what the texts spell

  ghost predicate SpellsOne(part: string, device: int) {
    exists digits :: Trims(part, digits, IsBlank) && IsDigits(digits) && NatValue(digits) == device
  }

  /** The numbers a text lists between commas, with blanks around each. */
  ghost predicate Spells(text: string, devices: seq<int>) {
    var parts := Split(text, ',');
    |parts| == |devices| && forall i | 0 <= i < |parts| :: SpellsOne(parts[i], devices[i])
  }

  lemma {:induction false} SpellsOneExactly(part: string, device: int)
    ensures SpellsOne(part, device) <==> IsDigits(Strip(part)) && NatValue(Strip(part)) == device
  {
    StripTrims(part, IsBlank);
    if digits :| Trims(part, digits, IsBlank) && IsDigits(digits) && NatValue(digits) == device {
      TrimsOnce(part, digits, Strip(part), IsBlank);
    }
  }

  predicate HasBlankItem(text: string) {
    exists i | 0 <= i < |Split(text, ',')| :: Blank(Split(text, ',')[i])
  }

  predicate Blank(s: string) {
    forall i | 0 <= i < |s| :: IsBlank(s[i])
  }

  lemma {:induction false} BlankStrips(s: string)
    ensures Strip(s) == [] <==> Blank(s)
  {
    StripTrims(s, IsBlank);
    if Blank(s) {
      assert s[0..0] == [];
      TrimsOnce(s, [], Strip(s), IsBlank);
    }
  }

  lemma {:induction false} ListSpells(text: string, devices: seq<int>)
    ensures var parts := StripAll(Split(text, ','));
            Spells(text, devices) <==> AllIndices(parts) && Values(parts) == devices
    ensures HasBlankItem(text) <==> exists i :: 0 <= i < |StripAll(Split(text, ','))| && StripAll(Split(text, ','))[i] == []
  {
    var raw, parts := Split(text, ','), StripAll(Split(text, ','));
    forall i | 0 <= i < |raw| ensures parts[i] == [] <==> Blank(raw[i]) {
      BlankStrips(raw[i]);
    }
    if |raw| == |devices| {
      forall i | 0 <= i < |raw|
        ensures SpellsOne(raw[i], devices[i]) <==> IsDigits(parts[i]) && NatValue(parts[i]) == devices[i]
      {
        SpellsOneExactly(raw[i], devices[i]);
      }
    }
  }

  /** A list text reads as the distinct numbers it spells, and each complaint has its own cause. */
  lemma {:induction false} IndexListExactly(text: string, devices: seq<int>)
    ensures var list := IndexList(text);
            && (Spells(text, devices) && Distinct(devices) <==> list.Success? && list.value == devices)
            && (list == Failure(EmptyItem) <==> HasBlankItem(text))
            && (list == Failure(NotAnIndex) <==> !HasBlankItem(text) && forall d: seq<int> :: !Spells(text, d))
            && (Spells(text, devices) && !Distinct(devices) ==> list == Failure(Repeated))
  {
    ListSpells(text, devices);
    var parts := StripAll(Split(text, ','));
    if AllIndices(parts) {
      ListSpells(text, Values(parts));
    }
    forall d: seq<int> ensures Spells(text, d) ==> AllIndices(parts) {
      ListSpells(text, d);
    }
  }

  /** What a policy variable says: the default when absent or blank, otherwise the distinct numbers it spells. */
  ghost predicate VariableSays(env: map<string, string>, key: string, default: seq<int>, indices: seq<int>) {
    if key !in env || Blank(env[key]) then indices == default
    else Spells(Strip(env[key]), indices) && Distinct(indices)
  }

  /** A given set decides; the variable is asked only for want of one, and the allow variable only under the built-in bound. */
  ghost predicate AllowIs(limits: Limits, env: map<string, string>, allowed: seq<int>) {
    if limits.allowed.Some? then allowed == limits.allowed.value
    else if limits.bound == 7 then VariableSays(env, "GRASPO_ALLOWED_GPU_INDICES", [4, 5, 6, 7], allowed)
    else allowed == []
  }

  ghost predicate ReserveIs(limits: Limits, env: map<string, string>, reserved: seq<int>) {
    if limits.reserved.Some? then reserved == limits.reserved.value
    else VariableSays(env, "GRASPO_RESERVED_GPU_INDICES", [], reserved)
  }

  lemma {:induction false} VariableReads(env: map<string, string>, key: string, default: seq<nat>, indices: seq<int>)
    ensures var r := IndexSet(Lookup(env, key), default);
            VariableSays(env, key, default, indices) <==> r.Success? && r.value == indices
  {
    if key in env {
      BlankStrips(env[key]);
      IndexListExactly(Strip(env[key]), indices);
    }
  }

  lemma {:induction false} PolicyReads(limits: Limits, env: map<string, string>, indices: seq<int>)
    ensures AllowIs(limits, env, indices) <==> AllowedSet(limits, env).Success? && AllowedSet(limits, env).value == indices
    ensures ReserveIs(limits, env, indices) <==> ReservedSet(limits, env).Success? && ReservedSet(limits, env).value == indices
  {
    VariableReads(env, ALLOWED_KEY, DEFAULT_ALLOWED, indices);
    VariableReads(env, RESERVED_KEY, DEFAULT_RESERVED, indices);
  }

  lemma {:induction false} ListIsNoMarker(text: string, devices: seq<int>, marker: string)
    requires Spells(text, devices)
    requires marker != [] && forall i | 0 <= i < |marker| :: 'a' <= marker[i] <= 'z'
    ensures Lower(text) != marker && text != []
  {
    var parts := Split(text, ',');
    SpellsOneExactly(parts[0], devices[0]);
    if Lower(text) == marker {
      forall i | 0 <= i < |text| ensures 'a' <= LowerChar(text[i]) <= 'z' {
        assert LowerChar(text[i]) == marker[i];
      }
      SplitOne(text, ',');
      StripKeeps(text);
    }
  }

  /** The answer for a text that spells a device list, under a policy that reads, reason by reason in order. */
  lemma {:induction false} LockExactly(raw: string, devices: seq<nat>, allowed: seq<int>, reserved: seq<int>,
                                       limits: Limits, env: map<string, string>)
    requires Spells(Strip(raw), devices) && AllowIs(limits, env, allowed) && ReserveIs(limits, env, reserved)
    ensures AssertGpuLock(Some(raw), limits, env)
            == if !Distinct(devices) then Failure(Repeated)
               else if exists d :: d in devices && d in reserved then Failure(Reserved)
               else if allowed != [] && exists d :: d in devices && d !in allowed then Failure(OutsideAllowed)
               else if exists d :: d in devices && d > limits.bound then Failure(AboveBound)
               else if |devices| > limits.cards then Failure(TooManyCards)
               else Success(devices)
  {
    DeviceTextReads(raw, devices);
    PolicyReads(limits, env, allowed);
    PolicyReads(limits, env, reserved);
    if Distinct(devices) {
      PolicyOrder(raw, devices, allowed, reserved, limits, env);
    }
  }

  lemma {:induction false} DeviceTextReads(raw: string, devices: seq<nat>)
    requires Spells(Strip(raw), devices)
    ensures DeviceList(Some(raw)) == if Distinct(devices) then Success(devices) else Failure(Repeated)
  {
    ListIsNoMarker(Strip(raw), devices, "all");
    ListIsNoMarker(Strip(raw), devices, "void");
    ListIsNoMarker(Strip(raw), devices, "none");
    IndexListExactly(Strip(raw), devices);
  }

  lemma {:induction false} PolicyOrder(raw: string, devices: seq<nat>, allowed: seq<int>, reserved: seq<int>,
                                       limits: Limits, env: map<string, string>)
    requires DeviceList(Some(raw)) == Success(devices)
    requires AllowedSet(limits, env) == Success(allowed) && ReservedSet(limits, env) == Success(reserved)
    ensures AssertGpuLock(Some(raw), limits, env)
            == if exists d :: d in devices && d in reserved then Failure(Reserved)
               else if allowed != [] && exists d :: d in devices && d !in allowed then Failure(OutsideAllowed)
               else if exists d :: d in devices && d > limits.bound then Failure(AboveBound)
               else if |devices| > limits.cards then Failure(TooManyCards)
               else Success(devices)
  {
    assert forall d | d in devices :: exists i :: 0 <= i < |devices| && devices[i] == d;
    assert forall i | 0 <= i < |devices| :: devices[i] in devices;
  }

  lemma {:induction false} CsvSpells(devices: seq<int>)
    requires devices != [] && AllNatural(devices)
    ensures Spells(Strip(Csv(devices)), devices) && !Blank(Csv(devices))
  {
    PartsSurvive(devices);
    ListSpells(Csv(devices), devices);
    BlankStrips(Csv(devices));
    forall i | 0 <= i < |devices| ensures IsDigits(Printed(devices)[i]) && NatValue(Printed(devices)[i]) == devices[i] {
      StrShape(devices[i]);
    }
  }

  /** Cards printed into the reserve variable are never handed out, and asking for one is refused as reserved. */
  lemma {:induction false} ReserveVariableDecides(raw: Option<string>, devices: seq<nat>, reserved: seq<nat>, allowed: seq<int>,
                                                  limits: Limits, env: map<string, string>)
    requires limits.reserved.None? && reserved != [] && Distinct(reserved)
    requires "GRASPO_RESERVED_GPU_INDICES" in env && env["GRASPO_RESERVED_GPU_INDICES"] == Csv(reserved)
    ensures var verdict := AssertGpuLock(raw, limits, env);
            verdict.Success? ==> forall d | d in verdict.value :: d !in reserved
    ensures AllowIs(limits, env, allowed) && devices != [] && Distinct(devices) && (exists d :: d in devices && d in reserved) ==>
              AssertGpuLock(Some(Csv(devices)), limits, env) == Failure(Reserved)
  {
    CsvSpells(reserved);
    PolicyReads(limits, env, reserved);
    AcceptsExactly(raw, limits, env);
    if AllowIs(limits, env, allowed) && devices != [] {
      CsvSpells(devices);
      LockExactly(Csv(devices), devices, allowed, reserved, limits, env);
    }
  }

  /** Any other text is refused for its own reason, and with a policy variable that spells no list so is every text. */
  lemma {:induction false} LockRefuses(raw: Option<string>, limits: Limits, env: map<string, string>)
    ensures AssertGpuLock(None, limits, env) == Failure(Unset)
    ensures raw.Some? && Blank(raw.value) ==> AssertGpuLock(raw, limits, env) == Failure(BlankText)
    ensures raw.Some? && AnyCase(Strip(raw.value), "all", "ALL") ==> AssertGpuLock(raw, limits, env) == Failure(AllDevices)
    ensures raw.Some? && (AnyCase(Strip(raw.value), "void", "VOID") || AnyCase(Strip(raw.value), "none", "NONE")) ==>
              AssertGpuLock(raw, limits, env) == Failure(RuntimeMarker)
    ensures raw.Some? && (forall d: seq<int> :: !Spells(Strip(raw.value), d)) ==> AssertGpuLock(raw, limits, env).Failure?
    ensures (forall a: seq<int> :: !AllowIs(limits, env, a)) || (forall r: seq<int> :: !ReserveIs(limits, env, r)) ==>
              AssertGpuLock(raw, limits, env).Failure?
  {
    if raw.Some? {
      MarkersRefuse(raw.value, limits, env);
      if DeviceList(raw).Success? {
        IndexListExactly(Strip(raw.value), DeviceList(raw).value);
      }
    }
    if AllowedSet(limits, env).Success? {
      PolicyReads(limits, env, AllowedSet(limits, env).value);
    }
    if ReservedSet(limits, env).Success? {
      PolicyReads(limits, env, ReservedSet(limits, env).value);
    }
  }

  /** A policy variable that spells no list is refused with its own complaint, the allow variable before the reserve variable. */
  lemma {:induction false} PolicyComplaints(raw: string, devices: seq<nat>, limits: Limits, env: map<string, string>)
    requires Spells(Strip(raw), devices) && Distinct(devices)
    ensures limits.allowed.None? && limits.bound == 7 && Complains(env, "GRASPO_ALLOWED_GPU_INDICES") ==>
              AssertGpuLock(Some(raw), limits, env) == Failure(IndexList(Strip(env["GRASPO_ALLOWED_GPU_INDICES"])).error)
    ensures (exists a :: AllowIs(limits, env, a)) && limits.reserved.None? && Complains(env, "GRASPO_RESERVED_GPU_INDICES") ==>
              AssertGpuLock(Some(raw), limits, env) == Failure(IndexList(Strip(env["GRASPO_RESERVED_GPU_INDICES"])).error)
  {
    DeviceTextReads(raw, devices);
    if a :| AllowIs(limits, env, a) {
      PolicyReads(limits, env, a);
    }
    if RESERVED_KEY in env {
      BlankStrips(env[RESERVED_KEY]);
    }
    if ALLOWED_KEY in env {
      BlankStrips(env[ALLOWED_KEY]);
    }
  }

  predicate Complains(env: map<string, string>, key: string) {
    key in env && !Blank(env[key]) && IndexList(Strip(env[key])).Failure?
  }

  lemma {:induction false} MarkersRefuse(raw: string, limits: Limits, env: map<string, string>)
    ensures var verdict, text := AssertGpuLock(Some(raw), limits, env), Strip(raw);
            && (Blank(raw) ==> verdict == Failure(BlankText))
            && (AnyCase(text, "all", "ALL") ==> verdict == Failure(AllDevices))
            && (AnyCase(text, "void", "VOID") || AnyCase(text, "none", "NONE") ==> verdict == Failure(RuntimeMarker))
  {
    BlankStrips(raw);
    LowerMeans(Strip(raw), "all", "ALL");
    LowerMeans(Strip(raw), "void", "VOID");
    LowerMeans(Strip(raw), "none", "NONE");
  }

  // ----- device plans

  datatype GpuPlan = GpuPlan(devices: seq<int>)

  function ParseGpuPlan(raw: Option<string>, env: map<string, string>): Guarded<GpuPlan> {
    match AssertGpuLock(raw, DEFAULT_LIMITS, env)
    case Success(devices) => Success(GpuPlan(devices))
    case Failure(why) => Failure(why)
  }

  /** A plan is refused for the reason its list is. */
  lemma {:induction false} PlanRefusals(raw: Option<string>, env: map<string, string>)
    ensures match AssertGpuLock(raw, DEFAULT_LIMITS, env)
            case Failure(why) => ParseGpuPlan(raw, env) == Failure(why)
            case Success(devices) => ParseGpuPlan(raw, env) == Success(GpuPlan(devices))
  {
  }

  /** A plan the guard produced survives being printed and guarded again. */
  lemma {:induction false} PlanRoundTrip(raw: Option<string>, env: map<string, string>)
    requires ParseGpuPlan(raw, env).Success?
    ensures var plan := ParseGpuPlan(raw, env).value;
            ParseGpuPlan(Some(Csv(plan.devices)), env) == Success(plan)
  {
    var devices := ParseGpuPlan(raw, env).value.devices;
    ListsAreNeverEmpty(raw);
    PrintedListAcceptance(devices, DEFAULT_LIMITS, env);
    assert forall i | 0 <= i < |devices| :: devices[i] <= ALLOWED_MAX_INDEX;
  }

  // ----- the container-side channel

  datatype Inventory = Inventory(count: int, indices: seq<nat>)

  function AssertInventoryVisible(inventory: Inventory, cards: int, declared: Option<int>): Guarded<seq<nat>> {
    if inventory.count <= 0 then Failure(NothingVisible)
    else if inventory.count > cards then Failure(TooManyCards)
    else if declared.Some? && inventory.count != declared.value then Failure(CountMismatch)
    else if inventory.indices != [] then Success(inventory.indices)
    else Success(seq(inventory.count, i requires 0 <= i => i))
  }

  function AssertGpuLockInventory(raw: Option<string>, inventory: Option<Inventory>, limits: Limits,
                                  env: map<string, string>): Guarded<seq<nat>> {
    match DeviceSource(raw)
    case Failure(why) => Failure(why)
    case Success(RuntimeManaged) =>
      if inventory.None? then Failure(InventoryMissing)
      else AssertInventoryVisible(inventory.value, limits.cards, None)
    case Success(Explicit(_)) =>
      match AssertGpuLock(raw, limits, env)
      case Failure(why) => Failure(why)
      case Success(devices) =>
        if inventory.None? then Success(devices)
        else match AssertInventoryVisible(inventory.value, limits.cards, Some(|devices|))
          case Failure(why) => Failure(why)
          case Success(_) => Success(devices)
  }

  /** An index list, if there is one, has as many entries as the inventory counts. */
  predicate Consistent(inventory: Inventory) {
    inventory.indices == [] || |inventory.indices| == inventory.count
  }

  /**
   Whichever channel answers, the observed count is between one and the cap, and so is the list that is returned unless
   it is an observed index list longer than the cap.  Count and list agree exactly for explicit cards and consistent
   inventories.
   */
  lemma {:induction false} BothChannelsAreCapped(raw: Option<string>, inventory: Option<Inventory>, limits: Limits, env: map<string, string>)
    requires AssertGpuLockInventory(raw, inventory, limits, env).Success?
    ensures var devices, explicit := AssertGpuLockInventory(raw, inventory, limits, env).value, DeviceSource(raw).value.Explicit?;
            && (explicit ==> AssertGpuLock(raw, limits, env) == Success(devices))
            && (explicit || inventory.Some?)
            && (inventory.Some? ==> 1 <= inventory.value.count <= limits.cards)
            && (1 <= |devices| <= limits.cards <==> explicit || |inventory.value.indices| <= limits.cards)
            && (inventory.Some? ==> (inventory.value.count == |devices| <==> explicit || Consistent(inventory.value)))
  {
    ListsAreNeverEmpty(raw);
  }

  /** The container side in full, in terms of the device text and the observed cards. */
  lemma {:induction false} ContainerExactly(raw: Option<string>, inventory: Option<Inventory>, limits: Limits, env: map<string, string>,
                                            observed: seq<nat>)
    requires inventory.Some? ==>
               if inventory.value.indices != [] then observed == inventory.value.indices
               else |observed| == inventory.value.count && forall i | 0 <= i < |observed| :: observed[i] == i
    ensures var verdict, lock := AssertGpuLockInventory(raw, inventory, limits, env), AssertGpuLock(raw, limits, env);
            verdict == if lock == Failure(RuntimeMarker) then
                         if inventory.None? then Failure(InventoryMissing)
                         else if inventory.value.count <= 0 then Failure(NothingVisible)
                         else if inventory.value.count > limits.cards then Failure(TooManyCards)
                         else Success(observed)
                       else if lock.Failure? || inventory.None? then lock
                       else if inventory.value.count <= 0 then Failure(NothingVisible)
                       else if inventory.value.count > limits.cards then Failure(TooManyCards)
                       else if inventory.value.count != |lock.value| then Failure(CountMismatch)
                       else lock
  {
    MarkerMeansManaged(raw, limits, env);
    if inventory.Some? && inventory.value.indices == [] && inventory.value.count > 0 {
      assert observed == seq(inventory.value.count, i requires 0 <= i => i);
    }
  }

  lemma {:induction false} MarkerMeansManaged(raw: Option<string>, limits: Limits, env: map<string, string>)
    ensures AssertGpuLock(raw, limits, env) == Failure(RuntimeMarker) <==> DeviceSource(raw) == Success(RuntimeManaged)
    ensures DeviceSource(raw).Failure? ==> AssertGpuLock(raw, limits, env) == Failure(DeviceSource(raw).error)
  {
  }
}
