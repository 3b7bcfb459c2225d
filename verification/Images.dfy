/**
 Image placement: the paths extracted from a sample's messages, and the request messages whose image slots are
 filled in place from them with one running cursor.  `resolve` stands for path resolution against the data
 directory, `encode` for reading and encoding one file.
 */
module Images {
  import opened Wrappers
  import opened Seqs
  import opened BodyLock

  /** An item of a list content: an image reference (its path may be empty) or anything else with its text. */
  datatype Item = ImageItem(path: string) | OtherItem(text: Json)

  /** A content that is no list is passed on as it is, whatever it is. */
  datatype Content = Plain(raw: Json) | Items(items: seq<Item>)

  datatype Message = Message(role: Json, content: Content)

  /** The dict under `image_url`, the one thing the filling loop writes to. */
  class ImageSlot {
    var url: string

    constructor ()
      ensures url == ""
    {
      url := "";
    }
  }

  datatype Part = ImagePart(slot: ImageSlot) | TextPart(text: Json)

  datatype OutContent = PlainOut(raw: Json) | Parts(parts: seq<Part>)

  datatype OutMessage = OutMessage(role: Json, content: OutContent)

  datatype DatasetError = Inconsistent(expected: nat, resolved: nat) | Unreadable(path: string)

  // ----- image references in traversal order

  function ItemPaths(items: seq<Item>): seq<string> {
    if items == [] then []
    else
      var last := items[|items| - 1];
      ItemPaths(items[..|items| - 1]) + if last.ImageItem? then [last.path] else []
  }

  /** The path of every image item, empty ones included. */
  function References(messages: seq<Message>): seq<string> {
    if messages == [] then []
    else
      var last := messages[|messages| - 1];
      References(messages[..|messages| - 1]) + if last.content.Items? then ItemPaths(last.content.items) else []
  }

  function Resolved(paths: seq<string>, resolve: string -> string): seq<string> {
    if paths == [] then []
    else
      var last := paths[|paths| - 1];
      Resolved(paths[..|paths| - 1], resolve) + ResolvedPath(last, resolve)
  }

  function ResolvedPath(path: string, resolve: string -> string): seq<string> {
    if path == [] then [] else [resolve(path)]
  }

  lemma {:induction false} ResolvedSnoc(front: seq<string>, last: string, resolve: string -> string)
    ensures Resolved(front + [last], resolve) == Resolved(front, resolve) + ResolvedPath(last, resolve)
  {
    assert (front + [last])[..|front|] == front;
  }

  lemma {:induction false} ResolvedConcat(a: seq<string>, b: seq<string>, all: seq<string>, resolve: string -> string)
    requires all == a + b
    ensures Resolved(all, resolve) == Resolved(a, resolve) + Resolved(b, resolve)
    decreases |b|
  {
    if b == [] {
      assert all == a;
    } else {
      var m, n := |all| - 1, |b| - 1;
      assert all[..m] == a + b[..n];
      ResolvedConcat(a, b[..n], all[..m], resolve);
      assert all[m] == b[n];
      Associative(Resolved(a, resolve), Resolved(b[..n], resolve), ResolvedPath(b[n], resolve));
    }
  }

  /** The inner loop: the items of one message. */
  method ResolveItems(items: seq<Item>, resolve: string -> string) returns (resolved: seq<string>)
    ensures resolved == Resolved(ItemPaths(items), resolve)
  {
    resolved := [];
    for j := 0 to |items|
      invariant resolved == Resolved(ItemPaths(items[..j]), resolve)
    {
      assert items[..j + 1][..j] == items[..j];
      if items[j].ImageItem? {
        ResolvedSnoc(ItemPaths(items[..j]), items[j].path, resolve);
        if items[j].path != [] {
          resolved := resolved + [resolve(items[j].path)];
        }
      } else {
        assert ItemPaths(items[..j + 1]) == ItemPaths(items[..j]);
      }
    }
    assert items[..|items|] == items;
  }

  /** Collects the resolved paths of the image items, skipping the empty ones. */
  method ResolveImagePaths(messages: seq<Message>, resolve: string -> string) returns (resolved: seq<string>)
    ensures resolved == Resolved(References(messages), resolve)
  {
    resolved := [];
    for i := 0 to |messages|
      invariant resolved == Resolved(References(messages[..i]), resolve)
    {
      assert messages[..i + 1][..i] == messages[..i];
      if messages[i].content.Items? {
        var items := ResolveItems(messages[i].content.items, resolve);
        ResolvedConcat(References(messages[..i]), ItemPaths(messages[i].content.items), References(messages[..i + 1]), resolve);
        resolved := resolved + items;
      } else {
        assert References(messages[..i + 1]) == References(messages[..i]);
      }
    }
    assert messages[..|messages|] == messages;
  }

  lemma {:induction false} ResolvedCount(paths: seq<string>, resolve: string -> string)
    ensures |Resolved(paths, resolve)| <= |paths|
    ensures |Resolved(paths, resolve)| == |paths| <==> [] !in paths
    ensures [] !in paths ==> forall k | 0 <= k < |paths| :: Resolved(paths, resolve)[k] == resolve(paths[k])
  {
    if paths != [] {
      var front := paths[..|paths| - 1];
      ResolvedCount(front, resolve);
      assert paths == front + [paths[|paths| - 1]];
    }
  }

  // ----- request messages

  /** The image slots of one content, in order. */
  function PartSlots(parts: seq<Part>): seq<ImageSlot> {
    if parts == [] then []
    else
      var last := parts[|parts| - 1];
      PartSlots(parts[..|parts| - 1]) + if last.ImagePart? then [last.slot] else []
  }

  function ContentSlots(m: OutMessage): seq<ImageSlot> {
    if m.content.Parts? then PartSlots(m.content.parts) else []
  }

  /** All image slots in traversal order. */
  function Slots(messages: seq<OutMessage>): seq<ImageSlot> {
    if messages == [] then []
    else Slots(messages[..|messages| - 1]) + ContentSlots(messages[|messages| - 1])
  }

  predicate ConvertsItem(item: Item, part: Part) {
    if item.ImageItem? then part.ImagePart? else part == TextPart(item.text)
  }

  ghost predicate ConvertsItems(items: seq<Item>, parts: seq<Part>) {
    |parts| == |items| && forall j | 0 <= j < |items| :: ConvertsItem(items[j], parts[j])
  }

  ghost predicate Converts(m: Message, out: OutMessage) {
    out.role == m.role
    && match m.content
       case Plain(raw) => out.content == PlainOut(raw)
       case Items(items) => out.content.Parts? && ConvertsItems(items, out.content.parts)
  }

  /** Roles, texts, order and kinds of parts carry over, message by message. */
  ghost predicate ConvertsAll(messages: seq<Message>, out: seq<OutMessage>) {
    |out| == |messages| && forall i | 0 <= i < |messages| :: Converts(messages[i], out[i])
  }

  lemma {:induction false} SlotsOfItems(items: seq<Item>, parts: seq<Part>)
    requires ConvertsItems(items, parts)
    ensures |PartSlots(parts)| == |ItemPaths(items)|
  {
    if items != [] {
      SlotsOfItems(items[..|items| - 1], parts[..|parts| - 1]);
    }
  }

  lemma {:induction false} SlotsAreReferences(messages: seq<Message>, out: seq<OutMessage>)
    requires ConvertsAll(messages, out)
    ensures |Slots(out)| == |References(messages)|
  {
    if messages != [] {
      var n := |messages| - 1;
      SlotsAreReferences(messages[..n], out[..n]);
      assert Converts(messages[n], out[n]);
      if messages[n].content.Items? {
        SlotsOfItems(messages[n].content.items, out[n].content.parts);
      }
    }
  }

  /** Distinct slots: no dict is shared between two places. */
  lemma {:induction false} Joined(a: seq<ImageSlot>, b: seq<ImageSlot>)
    requires Distinct(a) && Distinct(b) && forall s | s in b :: s !in a
    ensures Distinct(a + b)
  {
    forall i, j | 0 <= i < j < |a + b| ensures (a + b)[i] != (a + b)[j] {
      if i < |a| <= j {
        assert b[j - |a|] in b;
      }
    }
  }

  method ConvertItems(items: seq<Item>) returns (parts: seq<Part>)
    ensures ConvertsItems(items, parts)
    ensures Distinct(PartSlots(parts)) && forall s | s in PartSlots(parts) :: fresh(s)
  {
    parts := [];
    ghost var slots: seq<ImageSlot> := [];
    for j := 0 to |items|
      invariant ConvertsItems(items[..j], parts)
      invariant slots == PartSlots(parts) && Distinct(slots) && forall s | s in slots :: fresh(s)
    {
      var part;
      if items[j].ImageItem? {
        var slot := new ImageSlot();
        part := ImagePart(slot);
      } else {
        part := TextPart(items[j].text);
      }
      assert (parts + [part])[..|parts|] == parts;
      slots := slots + if part.ImagePart? then [part.slot] else [];
      parts := parts + [part];
    }
  }

  method ConvertMessage(m: Message) returns (out: OutMessage)
    ensures Converts(m, out)
    ensures Distinct(ContentSlots(out)) && forall s | s in ContentSlots(out) :: fresh(s)
  {
    match m.content {
      case Plain(raw) =>
        out := OutMessage(m.role, PlainOut(raw));
      case Items(items) =>
        var parts := ConvertItems(items);
        out := OutMessage(m.role, Parts(parts));
    }
  }

  lemma {:induction false} SlotsAppend(out: seq<OutMessage>, next: OutMessage)
    ensures Slots(out + [next]) == Slots(out) + ContentSlots(next)
  {
    assert (out + [next])[..|out|] == out;
  }

  lemma {:induction false} ConvertsNext(messages: seq<Message>, i: nat, out: seq<OutMessage>, next: OutMessage)
    requires i < |messages| && ConvertsAll(messages[..i], out) && Converts(messages[i], next)
    ensures ConvertsAll(messages[..i + 1], out + [next])
  {
    forall k | 0 <= k < i + 1 ensures Converts(messages[..i + 1][k], (out + [next])[k]) {
      if k < i {
        assert Converts(messages[..i][k], out[k]);
      }
    }
  }

  /** Converts the messages; refuses when the sample resolves another number of paths than it has image items. */
  method BuildMessages(messages: seq<Message>, paths: seq<string>) returns (r: Result<seq<OutMessage>, DatasetError>)
    ensures r.Success? <==> |References(messages)| == |paths|
    ensures r.Success? ==> ConvertsAll(messages, r.value) && Distinct(Slots(r.value))
                           && forall s | s in Slots(r.value) :: fresh(s)
    ensures r.Failure? ==> r.error == Inconsistent(|References(messages)|, |paths|)
  {
    var out: seq<OutMessage> := [];
    ghost var slots: seq<ImageSlot> := [];
    for i := 0 to |messages|
      invariant ConvertsAll(messages[..i], out)
      invariant slots == Slots(out) && Distinct(slots) && forall s | s in slots :: fresh(s)
    {
      var next := ConvertMessage(messages[i]);
      SlotsAppend(out, next);
      ConvertsNext(messages, i, out, next);
      Joined(slots, ContentSlots(next));
      slots := slots + ContentSlots(next);
      out := out + [next];
    }
    assert messages[..|messages|] == messages;
    SlotsAreReferences(messages, out);
    if |Slots(out)| != |paths| {
      return Failure(Inconsistent(|Slots(out)|, |paths|));
    }
    return Success(out);
  }

  /** With its own resolved paths a sample is consistent exactly when no image item has an empty path. */
  lemma {:induction false} ConsistentExactly(messages: seq<Message>, resolve: string -> string)
    ensures |References(messages)| == |Resolved(References(messages), resolve)| <==> [] !in References(messages)
  {
    ResolvedCount(References(messages), resolve);
  }

  // ----- filling the slots in place

  lemma {:induction false} PartSlotsSplit(parts: seq<Part>, j: nat)
    requires j <= |parts|
    ensures PartSlots(parts[..j]) <= PartSlots(parts)
    ensures j < |parts| ==> PartSlots(parts[..j + 1])
                            == PartSlots(parts[..j]) + if parts[j].ImagePart? then [parts[j].slot] else []
    decreases |parts| - j
  {
    if j < |parts| {
      assert parts[..j + 1][..j] == parts[..j];
      PartSlotsSplit(parts, j + 1);
    } else {
      assert parts[..j] == parts;
    }
  }

  lemma {:induction false} SlotsSplit(messages: seq<OutMessage>, i: nat)
    requires i <= |messages|
    ensures Slots(messages[..i]) <= Slots(messages)
    ensures i < |messages| ==> Slots(messages[..i + 1]) == Slots(messages[..i]) + ContentSlots(messages[i])
    decreases |messages| - i
  {
    if i < |messages| {
      assert messages[..i + 1][..i] == messages[..i];
      SlotsSplit(messages, i + 1);
    } else {
      assert messages[..i] == messages;
    }
  }

  ghost predicate Lies(slots: seq<ImageSlot>, part: seq<ImageSlot>, start: nat) {
    start + |part| <= |slots| && slots[start..start + |part|] == part
  }

  /** Where the slots of message `i` lie in the whole list. */
  lemma {:induction false} Segment(messages: seq<OutMessage>, i: nat)
    requires i < |messages|
    ensures var start, n := |Slots(messages[..i])|, |ContentSlots(messages[i])|;
            && start + n == |Slots(messages[..i + 1])| <= |Slots(messages)|
            && Lies(Slots(messages), ContentSlots(messages[i]), start)
  {
    SlotsSplit(messages, i);
    SlotsSplit(messages, i + 1);
    var start, n := |Slots(messages[..i])|, |ContentSlots(messages[i])|;
    assert Slots(messages)[..start + n] == Slots(messages[..i + 1]);
    assert Slots(messages)[start..start + n] == Slots(messages)[..start + n][start..];
  }

  /** Where the slot of part `j`, if it is one, lies in its content. */
  lemma {:induction false} SlotOfPart(parts: seq<Part>, j: nat)
    requires j < |parts|
    ensures var k := |PartSlots(parts[..j])|;
            && |PartSlots(parts[..j + 1])| == (if parts[j].ImagePart? then k + 1 else k) <= |PartSlots(parts)|
            && (parts[j].ImagePart? ==> PartSlots(parts)[k] == parts[j].slot)
  {
    PartSlotsSplit(parts, j);
    PartSlotsSplit(parts, j + 1);
    if parts[j].ImagePart? {
      assert PartSlots(parts)[|PartSlots(parts[..j])|] == PartSlots(parts[..j + 1])[|PartSlots(parts[..j])|];
    }
  }

  /** The slots written so far show their URLs. */
  ghost predicate Filled(slots: seq<ImageSlot>, urls: seq<string>, count: nat)
    requires count <= |slots| == |urls|
    reads slots
  {
    forall k | 0 <= k < count :: slots[k].url == urls[k]
  }

  /** The inner loop: the slots of one content, which start at `start` in the whole list. */
  method FillParts(ghost slots: seq<ImageSlot>, parts: seq<Part>, urls: seq<string>, start: nat) returns (cursor: nat)
    requires Distinct(slots) && |slots| == |urls| && Lies(slots, PartSlots(parts), start)
    requires Filled(slots, urls, start)
    modifies slots
    ensures cursor == start + |PartSlots(parts)| && Filled(slots, urls, cursor)
  {
    cursor := start;
    for j := 0 to |parts|
      invariant |PartSlots(parts[..j])| <= |PartSlots(parts)| && cursor == start + |PartSlots(parts[..j])|
      invariant Filled(slots, urls, cursor)
    {
      SlotOfPart(parts, j);
      if parts[j].ImagePart? {
        assert slots[cursor] == slots[start..start + |PartSlots(parts)|][cursor - start];
        parts[j].slot.url := urls[cursor];
        cursor := cursor + 1;
      }
    }
    assert parts[..|parts|] == parts;
  }

  method FillMessage(ghost slots: seq<ImageSlot>, m: OutMessage, urls: seq<string>, start: nat) returns (cursor: nat)
    requires Distinct(slots) && |slots| == |urls| && Lies(slots, ContentSlots(m), start)
    requires Filled(slots, urls, start)
    modifies slots
    ensures cursor == start + |ContentSlots(m)| && Filled(slots, urls, cursor)
  {
    cursor := start;
    if m.content.Parts? {
      cursor := FillParts(slots, m.content.parts, urls, start);
    }
  }

  /** The filling loop: every slot gets the URL of its position; the cursor ends at the number of URLs. */
  method FillUrls(ghost slots: seq<ImageSlot>, messages: seq<OutMessage>, urls: seq<string>) returns (cursor: nat)
    requires slots == Slots(messages) && Distinct(slots) && |slots| == |urls|
    modifies slots
    ensures cursor == |urls| && Filled(slots, urls, cursor)
  {
    cursor := 0;
    for i := 0 to |messages|
      invariant cursor == |Slots(messages[..i])| <= |slots| && Filled(slots, urls, cursor)
    {
      Segment(messages, i);
      cursor := FillMessage(slots, messages[i], urls, cursor);
    }
    assert messages[..|messages|] == messages;
  }

  /** Encodes every path, or reports the first that cannot be read. */
  method EncodeAll(paths: seq<string>, encode: string -> Option<string>) returns (r: Result<seq<string>, DatasetError>)
    ensures match r
            case Success(urls) => |urls| == |paths| && forall k | 0 <= k < |paths| :: encode(paths[k]) == Some(urls[k])
            case Failure(why) => exists k :: 0 <= k < |paths| && encode(paths[k]).None? && why == Unreadable(paths[k])
                                             && forall j | 0 <= j < k :: encode(paths[j]).Some?
  {
    var urls: seq<string> := [];
    for k := 0 to |paths|
      invariant |urls| == k && forall j | 0 <= j < k :: encode(paths[j]) == Some(urls[j])
    {
      var url := encode(paths[k]);
      if url.None? {
        return Failure(Unreadable(paths[k]));
      }
      urls := urls + [url.value];
    }
    return Success(urls);
  }

  /** Each slot shows the encoding of the path of its position. */
  ghost predicate Shows(slots: seq<ImageSlot>, paths: seq<string>, encode: string -> Option<string>)
    reads slots
  {
    |slots| == |paths| && forall k | 0 <= k < |slots| :: encode(paths[k]) == Some(slots[k].url)
  }

  /** Encodes all images first and only then writes. */
  method PlaceImages(messages: seq<OutMessage>, paths: seq<string>, encode: string -> Option<string>)
    returns (error: Option<DatasetError>)
    requires Distinct(Slots(messages)) && |Slots(messages)| == |paths|
    modifies Slots(messages)
    ensures error.None? ==> Shows(Slots(messages), paths, encode)
    ensures error.Some? ==>
              exists k :: 0 <= k < |paths| && encode(paths[k]).None? && error.value == Unreadable(paths[k])
  {
    var urls := EncodeAll(paths, encode);
    if urls.Failure? {
      return Some(urls.error);
    }
    var cursor := FillUrls(Slots(messages), messages, urls.value);
    assert cursor == |paths|;
    return None;
  }

  /**
   From a sample's messages to the messages of its request.  With no empty path and every file readable, the k-th
   image slot holds the encoding of the k-th reference and everything else is as converted.
   */
  method BuildRequest(messages: seq<Message>, resolve: string -> string, encode: string -> Option<string>)
    returns (r: Result<seq<OutMessage>, DatasetError>)
    ensures var refs := References(messages);
            match r
            case Success(out) =>
              && [] !in refs && ConvertsAll(messages, out) && Shows(Slots(out), Resolved(refs, resolve), encode)
              && forall s | s in Slots(out) :: fresh(s)
            case Failure(Inconsistent(expected, resolved)) => [] in refs && resolved < expected == |refs|
            case Failure(Unreadable(path)) => [] !in refs && encode(path).None? && path in Resolved(refs, resolve)
  {
    var paths := ResolveImagePaths(messages, resolve);
    ResolvedCount(References(messages), resolve);
    var built := BuildMessages(messages, paths);
    if built.Failure? {
      return Failure(built.error);
    }
    var out := built.value;
    SlotsAreReferences(messages, out);
    ghost var slots := Slots(out);
    assert forall s | s in slots :: fresh(s);
    forall k | 0 <= k < |slots| ensures fresh(slots[k]) {
      assert slots[k] in slots;
    }
    var error := PlaceImages(out, paths, encode);
    if error.Some? {
      return Failure(error.value);
    }
    return Success(out);
  }

  /** So the k-th slot of a finished request encodes the k-th image reference of the sample. */
  lemma {:induction false} SlotHoldsItsReference(messages: seq<Message>, out: seq<OutMessage>, resolve: string -> string,
                                                 encode: string -> Option<string>, k: nat)
    requires ConvertsAll(messages, out) && [] !in References(messages)
    requires Shows(Slots(out), Resolved(References(messages), resolve), encode) && k < |References(messages)|
    ensures |Slots(out)| == |References(messages)|
    ensures encode(resolve(References(messages)[k])) == Some(Slots(out)[k].url)
  {
    ResolvedCount(References(messages), resolve);
  }
}
