/**
 The bodies the evaluation client sends, against the temperature lock: a sample's request and the readiness probe.
 `url` is a snapshot of the image slots.
 */
module RequestBody {
  import opened Wrappers
  import opened Texts
  import opened BodyLock
  import opened Images

  const EVAL_TEMPERATURE := 0.0
  const EVAL_TOP_P := 0.9
  const EVAL_MAX_TOKENS := 128.0
  const PROBE_MAX_TOKENS := 4.0
  const EVAL_ENABLE_THINKING := false

  function PartJson(p: Part, url: ImageSlot -> string): Json {
    match p
    case ImagePart(slot) =>
      Obj([Entry("type", Text("image_url")), Entry("image_url", Obj([Entry("url", Text(url(slot)))]))])
    case TextPart(text) => Obj([Entry("type", Text("text")), Entry("text", text)])
  }

  function ContentJson(c: OutContent, url: ImageSlot -> string): Json {
    match c
    case PlainOut(raw) => raw
    case Parts(parts) => Arr(seq(|parts|, j requires 0 <= j < |parts| => PartJson(parts[j], url)))
  }

  function MessageJson(m: OutMessage, url: ImageSlot -> string): Json {
    Obj([Entry("role", m.role), Entry("content", ContentJson(m.content, url))])
  }

  function MessagesJson(messages: seq<OutMessage>, url: ImageSlot -> string): Json {
    Arr(seq(|messages|, i requires 0 <= i < |messages| => MessageJson(messages[i], url)))
  }

  /** `if value:` on a JSON value. */
  predicate Truthy(value: Json) {
    match value
    case Null => false
    case Bool(flag) => flag
    case Number(num) => num != Finite(0.0)
    case Text(text) => text != ""
    case Arr(items) => items != []
    case Obj(entries) => entries != []
  }

  /** The entries every request has. */
  function FixedEntries(model: string, messages: Json): seq<Entry> {
    [ Entry("model", Text(model)),
      Entry("messages", messages),
      Entry("max_tokens", Number(Finite(EVAL_MAX_TOKENS))),
      Entry("temperature", Number(Finite(EVAL_TEMPERATURE))),
      Entry("top_p", Number(Finite(EVAL_TOP_P))),
      Entry("chat_template_kwargs", Obj([Entry("enable_thinking", Bool(EVAL_ENABLE_THINKING))])) ]
  }

  function Body(model: string, messages: seq<OutMessage>, tools: Json, url: ImageSlot -> string): Json {
    Obj(FixedEntries(model, MessagesJson(messages, url)) + if Truthy(tools) then [Entry("tools", tools)] else [])
  }

  function ProbeBody(model: string): Json {
    Obj([ Entry("model", Text(model)),
          Entry("messages", Arr([Obj([Entry("role", Text("user")), Entry("content", Text("hi"))])])),
          Entry("max_tokens", Number(Finite(PROBE_MAX_TOKENS))),
          Entry("temperature", Number(Finite(EVAL_TEMPERATURE))) ])
  }

  // ----- which value stands where in a body

  lemma {:induction false} UnderKey(entries: seq<Entry>, key: string, path: seq<string>, value: Json)
    ensures Leads(Obj(entries), [key] + path, value)
            <==> exists i :: 0 <= i < |entries| && entries[i].key == key && Leads(entries[i].value, path, value)
  {
    assert ([key] + path)[1..] == path;
  }

  lemma {:induction false} UnderLabel(items: seq<Json>, i: nat, path: seq<string>, value: Json)
    ensures Leads(Arr(items), ["[" + Decimal(i) + "]"] + path, value) <==> i < |items| && Leads(items[i], path, value)
  {
    var whole := ["[" + Decimal(i) + "]"] + path;
    assert whole[1..] == path;
    forall k: nat | whole[0] == "[" + Decimal(k) + "]" ensures k == i {
      LabelsDiffer(i, k);
    }
  }

  lemma {:induction false} LabelsDiffer(i: nat, k: nat)
    requires "[" + Decimal(i) + "]" == "[" + Decimal(k) + "]"
    ensures i == k
  {
    var a, b := "[" + Decimal(i) + "]", "[" + Decimal(k) + "]";
    assert a[1..|a| - 1] == Decimal(i) && b[1..|b| - 1] == Decimal(k);
    DecimalReadsBack(i);
    DecimalReadsBack(k);
  }

  /** The top of a request, key by key. */
  lemma {:induction false} RequestFields(model: string, messages: seq<OutMessage>, tools: Json, url: ImageSlot -> string,
                                         key: string, value: Json)
    ensures Leads(Body(model, messages, tools, url), [key], value)
            <==> || (key == "model" && value == Text(model))
                 || (key == "messages" && value == MessagesJson(messages, url))
                 || (key == "max_tokens" && value == Number(Finite(128.0)))
                 || (key == "temperature" && value == Number(Finite(0.0)))
                 || (key == "top_p" && value == Number(Finite(0.9)))
                 || (key == "chat_template_kwargs" && value == Obj([Entry("enable_thinking", Bool(false))]))
                 || (key == "tools" && value == tools && value != Null && value != Bool(false)
                     && value != Number(Finite(0.0)) && value != Text("") && value != Arr([]) && value != Obj([]))
  {
    var rest := if Truthy(tools) then [Entry("tools", tools)] else [];
    var fixed := FixedEntries(model, MessagesJson(messages, url));
    UnderKey(fixed + rest, key, [], value);
    assert [key] + [] == [key];
    FieldOfConcat(fixed, rest, key, value);
    FixedFields(model, MessagesJson(messages, url), key, value);
    assert Holds(rest, key, value) <==> key == "tools" && value == tools && Truthy(tools) by {
      assert Truthy(tools) ==> rest[0] == Entry("tools", tools);
    }
  }

  ghost predicate Holds(entries: seq<Entry>, key: string, value: Json) {
    exists i :: 0 <= i < |entries| && entries[i] == Entry(key, value)
  }

  lemma {:induction false} FieldOfConcat(a: seq<Entry>, b: seq<Entry>, key: string, value: Json)
    ensures Holds(a + b, key, value) <==> Holds(a, key, value) || Holds(b, key, value)
    ensures Holds(a + b, key, value)
            <==> exists i :: 0 <= i < |a + b| && (a + b)[i].key == key && Leads((a + b)[i].value, [], value)
  {
    if i :| 0 <= i < |a| && a[i] == Entry(key, value) {
      assert (a + b)[i] == a[i];
    }
    if i :| 0 <= i < |b| && b[i] == Entry(key, value) {
      assert (a + b)[|a| + i] == b[i];
    }
  }

  lemma {:induction false} FixedFields(model: string, messages: Json, key: string, value: Json)
    ensures Holds(FixedEntries(model, messages), key, value)
            <==> || (key == "model" && value == Text(model))
                 || (key == "messages" && value == messages)
                 || (key == "max_tokens" && value == Number(Finite(128.0)))
                 || (key == "temperature" && value == Number(Finite(0.0)))
                 || (key == "top_p" && value == Number(Finite(0.9)))
                 || (key == "chat_template_kwargs" && value == Obj([Entry("enable_thinking", Bool(false))]))
  {
    var f := FixedEntries(model, messages);
    assert f[0].key == "model" && f[1].key == "messages" && f[2].key == "max_tokens" && f[3].key == "temperature"
           && f[4].key == "top_p" && f[5].key == "chat_template_kwargs";
  }

  /** The messages of a request, key by key. */
  lemma {:induction false} MessageFields(model: string, messages: seq<OutMessage>, tools: Json, url: ImageSlot -> string,
                                         i: nat, key: string, value: Json)
    ensures Leads(Body(model, messages, tools, url), ["messages", "[" + Decimal(i) + "]", key], value)
            <==> i < |messages|
                 && ((key == "role" && value == messages[i].role)
                     || (key == "content" && value == ContentJson(messages[i].content, url)))
  {
    var sent, name := MessagesJson(messages, url), "[" + Decimal(i) + "]";
    RequestFields(model, messages, tools, url, "messages", sent);
    AtMessages(Body(model, messages, tools, url), sent, [name, key], value);
    UnderLabel(sent.items, i, [key], value);
    assert [name] + [key] == [name, key];
    if i < |messages| {
      var pair := MessageJson(messages[i], url).entries;
      UnderKey(pair, key, [], value);
      assert [key] + [] == [key] && pair[0].key == "role" && pair[1].key == "content";
    }
  }

  lemma {:induction false} AtMessages(body: Json, sent: Json, path: seq<string>, value: Json)
    requires body.Obj? && forall i | 0 <= i < |body.entries| && body.entries[i].key == "messages" :: body.entries[i].value == sent
    requires Leads(body, ["messages"], sent)
    ensures Leads(body, ["messages"] + path, value) <==> Leads(sent, path, value)
  {
    UnderKey(body.entries, "messages", path, value);
    UnderKey(body.entries, "messages", [], sent);
    assert ["messages"] + [] == ["messages"];
  }

  /** A plain content goes out as it is, and a list part by part. */
  lemma {:induction false} ContentFields(raw: Json, parts: seq<Part>, url: ImageSlot -> string, j: nat, key: string, value: Json)
    ensures ContentJson(PlainOut(raw), url) == raw
    ensures Leads(ContentJson(Parts(parts), url), ["[" + Decimal(j) + "]", key], value)
            <==> j < |parts|
                 && match parts[j]
                    case ImagePart(slot) =>
                      || (key == "type" && value == Text("image_url"))
                      || (key == "image_url" && value == Obj([Entry("url", Text(url(slot)))]))
                    case TextPart(text) =>
                      (key == "type" && value == Text("text")) || (key == "text" && value == text)
  {
    var name := "[" + Decimal(j) + "]";
    UnderLabel(ContentJson(Parts(parts), url).items, j, [key], value);
    assert [name] + [key] == [name, key];
    if j < |parts| {
      var pair := PartJson(parts[j], url).entries;
      UnderKey(pair, key, [], value);
      assert [key] + [] == [key] && |pair| == 2;
      assert pair[0].key == "type" && pair[1].key == if parts[j].ImagePart? then "image_url" else "text";
    }
  }

  /** The readiness probe, key by key. */
  lemma {:induction false} ProbeFields(model: string, key: string, value: Json)
    ensures Leads(ProbeBody(model), [key], value)
            <==> || (key == "model" && value == Text(model))
                 || (key == "messages"
                     && value == Arr([Obj([Entry("role", Text("user")), Entry("content", Text("hi"))])]))
                 || (key == "max_tokens" && value == Number(Finite(4.0)))
                 || (key == "temperature" && value == Number(Finite(0.0)))
  {
    var probe := ProbeBody(model).entries;
    UnderKey(probe, key, [], value);
    assert [key] + [] == [key];
    assert probe[0].key == "model" && probe[1].key == "messages" && probe[2].key == "max_tokens" && probe[3].key == "temperature";
  }

  // ----- pieces that nest little and hold no temperature

  /** `value` nests at most `depth` levels of pairs and is cool. */
  ghost predicate Shallow(value: Json, depth: nat) {
    Height(value) <= depth && Cool(value)
  }

  ghost predicate ShallowEntries(entries: seq<Entry>, depth: nat) {
    EntriesHeight(entries) <= depth && CoolEntries(entries)
  }

  /** An entry that cannot be the reason for a refusal. */
  ghost predicate Harmless(e: Entry, depth: nat) {
    (!Contains(Lower(e.key), "temp") || !Hot(e.value)) && Shallow(e.value, depth)
  }

  lemma {:induction false} OneMoreEntry(e: Entry, rest: seq<Entry>, depth: nat)
    requires !Contains(Lower(e.key), "temp") || !Hot(e.value)
    ensures ShallowEntries([e] + rest, depth + 1) <==> Shallow(e.value, depth) && ShallowEntries(rest, depth + 1)
  {
    var all := [e] + rest;
    assert all[1..] == rest;
    assert CoolEntries(all) <==> CoolEntry(e) && CoolEntries(rest) by {
      if CoolEntries(all) {
        assert CoolEntry(all[0]) && forall i | 0 <= i < |rest| :: rest[i] == all[i + 1];
      }
    }
  }

  /** Harmless entries leave the decision to the rest. */
  lemma {:induction false} HarmlessEntries(entries: seq<Entry>, rest: seq<Entry>, depth: nat)
    requires forall i | 0 <= i < |entries| :: Harmless(entries[i], depth)
    ensures ShallowEntries(entries + rest, depth + 1) <==> ShallowEntries(rest, depth + 1)
  {
    if entries == [] {
      assert entries + rest == rest;
    } else {
      HarmlessEntries(entries[1..], rest, depth);
      OneMoreEntry(entries[0], entries[1..] + rest, depth);
      assert [entries[0]] + (entries[1..] + rest) == entries + rest;
    }
  }

  lemma {:induction false} HarmlessObject(entries: seq<Entry>, depth: nat)
    requires forall i | 0 <= i < |entries| :: Harmless(entries[i], depth)
    ensures Shallow(Obj(entries), depth + 1)
  {
    HarmlessEntries(entries, [], depth);
    assert entries + [] == entries;
  }

  lemma {:induction false} ItemsShallowExactly(items: seq<Json>, depth: nat)
    ensures ItemsHeight(items) <= depth + 1 && CoolItems(items) <==> forall i | 0 <= i < |items| :: Shallow(items[i], depth)
  {
    if items != [] {
      ItemsShallowExactly(items[1..], depth);
      assert items == [items[0]] + items[1..];
    }
  }

  /** Two entries whose keys name no temperature. */
  lemma {:induction false} PairShallowExactly(a: Entry, b: Entry, depth: nat)
    requires !Contains(Lower(a.key), "temp") && !Contains(Lower(b.key), "temp")
    ensures Shallow(Obj([a, b]), depth + 1) <==> Shallow(a.value, depth) && Shallow(b.value, depth)
  {
    OneMoreEntry(a, [b], depth);
    OneMoreEntry(b, [], depth);
    assert [a] + [b] == [a, b] && [b] + [] == [b];
  }

  // ----- what a sample brings into its request

  /** The paths to a text and to a whole content leave this many of the 32 levels. */
  const TEXT_ROOM: nat := 27
  const CONTENT_ROOM: nat := 29

  /** Everything passed on from the sample is cool and nests no deeper than its place allows. */
  ghost predicate PartPasses(p: Part) {
    p.TextPart? ==> Shallow(p.text, TEXT_ROOM)
  }

  ghost predicate ContentPasses(c: OutContent) {
    match c
    case PlainOut(raw) => Shallow(raw, CONTENT_ROOM)
    case Parts(parts) => forall j | 0 <= j < |parts| :: PartPasses(parts[j])
  }

  ghost predicate MessagePasses(m: OutMessage) {
    Shallow(m.role, CONTENT_ROOM) && ContentPasses(m.content)
  }

  lemma {:induction false} PartExactly(p: Part, url: ImageSlot -> string)
    ensures Shallow(PartJson(p, url), TEXT_ROOM + 1) <==> PartPasses(p)
  {
    MissingLetter("type", 2);
    if p.ImagePart? {
      MissingLetter("url", 0);
      MissingLetter("image_url", 0);
      HarmlessObject([Entry("url", Text(url(p.slot)))], 0);
      HarmlessObject(PartJson(p, url).entries, TEXT_ROOM);
    } else {
      MissingLetter("text", 2);
      PairShallowExactly(Entry("type", Text("text")), Entry("text", p.text), TEXT_ROOM);
    }
  }

  lemma {:induction false} ContentExactly(c: OutContent, url: ImageSlot -> string)
    ensures Shallow(ContentJson(c, url), CONTENT_ROOM) <==> ContentPasses(c)
  {
    if c.Parts? {
      var items := ContentJson(c, url).items;
      forall j | 0 <= j < |items| ensures Shallow(items[j], TEXT_ROOM + 1) <==> PartPasses(c.parts[j]) {
        PartExactly(c.parts[j], url);
      }
      ItemsShallowExactly(items, TEXT_ROOM + 1);
    }
  }

  lemma {:induction false} MessageExactly(m: OutMessage, url: ImageSlot -> string)
    ensures Shallow(MessageJson(m, url), CONTENT_ROOM + 1) <==> MessagePasses(m)
  {
    MissingLetter("role", 0);
    MissingLetter("content", 2);
    ContentExactly(m.content, url);
    PairShallowExactly(Entry("role", m.role), Entry("content", ContentJson(m.content, url)), CONTENT_ROOM);
  }

  lemma {:induction false} MessagesExactly(messages: seq<OutMessage>, url: ImageSlot -> string)
    ensures Shallow(MessagesJson(messages, url), 31) <==> forall i | 0 <= i < |messages| :: MessagePasses(messages[i])
  {
    var items := MessagesJson(messages, url).items;
    forall i | 0 <= i < |items| ensures Shallow(items[i], CONTENT_ROOM + 1) <==> MessagePasses(messages[i]) {
      MessageExactly(messages[i], url);
    }
    ItemsShallowExactly(items, CONTENT_ROOM + 1);
  }

  // ----- the bodies pass

  /** The key `chat_template_kwargs` counts as a temperature key; it passes because its value is no number. */
  lemma {:induction false} SettingsAreHarmless()
    ensures IsTemperatureKey("chat_template_kwargs")
    ensures Harmless(Entry("chat_template_kwargs", Obj([Entry("enable_thinking", Bool(EVAL_ENABLE_THINKING))])), 31)
  {
    MissingLetter("enable_thinking", 2);
    HarmlessObject([Entry("enable_thinking", Bool(EVAL_ENABLE_THINKING))], 0);
    var key := Lower("chat_template_kwargs");
    assert key[5..5 + 4] == "temp";
    assert OccursAt(key, "temp", 5);
    OnePatternSuffices("chat_template_kwargs");
  }

  lemma {:induction false} FixedEntriesAreHarmless(model: string, messages: Json)
    ensures forall i | 0 <= i < 6 && i != 1 :: Harmless(FixedEntries(model, messages)[i], 31)
    ensures !Contains(Lower("messages"), "temp")
  {
    MissingLetter("model", 0);
    MissingLetter("messages", 0);
    MissingLetter("max_tokens", 3);
    MissingLetter("top_p", 1);
    SettingsAreHarmless();
  }

  /** Of the fixed entries only the messages can be the reason for a refusal. */
  lemma {:induction false} MessagesDecide(model: string, messages: Json, rest: seq<Entry>)
    ensures ShallowEntries(FixedEntries(model, messages) + rest, 32)
            <==> Shallow(messages, 31) && ShallowEntries(rest, 32)
  {
    var fixed := FixedEntries(model, messages);
    FixedEntriesAreHarmless(model, messages);
    HarmlessEntries(fixed[2..], rest, 31);
    OneMoreEntry(fixed[1], fixed[2..] + rest, 31);
    OneMoreEntry(fixed[0], [fixed[1]] + (fixed[2..] + rest), 31);
    assert fixed + rest == [fixed[0]] + ([fixed[1]] + (fixed[2..] + rest));
  }

  /**
   Whatever the model name and the images, the lock accepts a request exactly when every role, content and text passed
   on from the sample is cool and fits its place, and the tool schemas, if any are sent, are cool and leave one level
   to the body.
   */
  lemma {:induction false} RequestPassesExactly(model: string, messages: seq<OutMessage>, tools: Json, url: ImageSlot -> string)
    ensures Locked(Body(model, messages, tools, url))
            <==> && (forall i | 0 <= i < |messages| :: MessagePasses(messages[i]))
                 && (!Truthy(tools) || (Height(tools) < MAX_SCAN_DEPTH && Cool(tools)))
  {
    var rest := if Truthy(tools) then [Entry("tools", tools)] else [];
    MessagesExactly(messages, url);
    MessagesDecide(model, MessagesJson(messages, url), rest);
    if Truthy(tools) {
      MissingLetter("tools", 2);
      OneMoreEntry(Entry("tools", tools), [], 31);
      assert [Entry("tools", tools)] + [] == rest;
    }
  }

  predicate IsText(value: Json) {
    value.Text? || value.Null?
  }

  predicate TextMessage(m: OutMessage) {
    IsText(m.role)
    && match m.content
       case PlainOut(raw) => IsText(raw)
       case Parts(parts) => forall j | 0 <= j < |parts| && parts[j].TextPart? :: IsText(parts[j].text)
  }

  /** With texts for roles, contents and items only the tool schemas can be refused. */
  lemma {:induction false} TextRequestPassesExactly(model: string, messages: seq<OutMessage>, tools: Json, url: ImageSlot -> string)
    requires forall i | 0 <= i < |messages| :: TextMessage(messages[i])
    ensures Locked(Body(model, messages, tools, url))
            <==> !Truthy(tools) || (Height(tools) < MAX_SCAN_DEPTH && Cool(tools))
  {
    RequestPassesExactly(model, messages, tools, url);
    assert forall i | 0 <= i < |messages| :: TextMessage(messages[i]) ==> MessagePasses(messages[i]);
  }

  /** The readiness probe always passes the lock. */
  lemma {:induction false} ProbePasses(model: string)
    ensures Locked(ProbeBody(model))
  {
    MissingLetter("role", 0);
    MissingLetter("content", 2);
    MissingLetter("model", 0);
    MissingLetter("messages", 0);
    MissingLetter("max_tokens", 3);
    var hello := Obj([Entry("role", Text("user")), Entry("content", Text("hi"))]);
    PairShallowExactly(hello.entries[0], hello.entries[1], 0);
    ItemsShallowExactly([hello], 1);
    HarmlessObject(ProbeBody(model).entries, 31);
  }
}
