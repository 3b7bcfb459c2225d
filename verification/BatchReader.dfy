/**
 Reading `git cat-file --batch` replies: a header line, a body framed by its length, one newline.
 The reader must stay aligned whatever bytes the bodies hold.
 */
module BatchReader {
  import opened Wrappers
  import opened Texts
  import opened Seqs

  newtype byte = b: int | 0 <= b < 256

  const NEWLINE: byte := 10
  const DRAIN_CHUNK := 65536

  // ----- the byte stream

  function LineLength(rest: seq<byte>): (n: nat)
    ensures n <= |rest|
  {
    if rest == [] then 0 else if rest[0] == NEWLINE then 1 else 1 + LineLength(rest[1..])
  }

  /** How many bytes `read(n)` returns: all of them for a negative count, as in Python. */
  function Available(n: int, rest: seq<byte>): (k: nat)
    ensures k <= |rest|
  {
    if n < 0 || n > |rest| then |rest| else n
  }

  /** A line runs through the next newline, or to the end when there is none. */
  lemma {:induction false} LineEnds(rest: seq<byte>)
    ensures var n := LineLength(rest);
            if 10 in rest then n > 0 && rest[n - 1] == 10 && 10 !in rest[..n - 1] else n == |rest|
  {
    if rest != [] && rest[0] != NEWLINE {
      LineEnds(rest[1..]);
      assert rest == [rest[0]] + rest[1..];
      var n := LineLength(rest);
      assert 10 in rest ==> rest[..n - 1] == [rest[0]] + rest[1..][..n - 2];
    }
  }

  class BatchStream {
    const data: seq<byte>
    var pos: nat

    constructor (data: seq<byte>)
      ensures this.data == data && pos == 0 && Valid()
    {
      this.data := data;
      pos := 0;
    }

    predicate Valid()
      reads this
    {
      pos <= |data|
    }

    function Rest(): seq<byte>
      reads this
      requires Valid()
    {
      data[pos..]
    }

    method ReadLine() returns (line: seq<byte>)
      requires Valid()
      modifies this`pos
      ensures Valid()
      ensures line == old(Rest())[..LineLength(old(Rest()))] && Rest() == old(Rest())[LineLength(old(Rest()))..]
      ensures 10 !in old(Rest()) ==> line == old(Rest())
      ensures 10 in old(Rest()) ==> line != [] && line[|line| - 1] == 10 && 10 !in line[..|line| - 1]
    {
      LineEnds(data[pos..]);
      var n := LineLength(data[pos..]);
      line := data[pos..pos + n];
      pos := pos + n;
    }

    method Read(n: int) returns (chunk: seq<byte>)
      requires Valid()
      modifies this`pos
      ensures Valid()
      ensures chunk == old(Rest())[..Available(n, old(Rest()))] && Rest() == old(Rest())[Available(n, old(Rest()))..]
      ensures n < 0 || n > |old(Rest())| ==> chunk == old(Rest())
      ensures 0 <= n <= |old(Rest())| ==> |chunk| == n
    {
      var k := Available(n, data[pos..]);
      chunk := data[pos..pos + k];
      pos := pos + k;
    }
  }

  // ----- the header

  /** Header text; git writes headers in ASCII, any other byte becomes the replacement character. */
  function Decoded(line: seq<byte>): (s: string)
    ensures |s| == |line|
  {
    seq(|line|, i requires 0 <= i < |line| => if line[i] < 128 then line[i] as char else '\U{FFFD}')
  }

  /** `s.split()`: maximal runs without blanks. */
  function Fields(s: string): seq<string> {
    if s == [] then []
    else if IsBlank(s[0]) then Fields(s[1..])
    else
      var n := WordLength(s);
      [s[..n]] + Fields(s[n..])
  }

  function WordLength(s: string): (n: nat)
    ensures n <= |s| && (s != [] && !IsBlank(s[0]) ==> 0 < n)
  {
    if s == [] || IsBlank(s[0]) then 0 else 1 + WordLength(s[1..])
  }

  function IntLiteral(s: string): Option<int> {
    if IsDigits(s) then Some(NatValue(s))
    else if s != [] && (s[0] == '-' || s[0] == '+') && IsDigits(s[1..]) then
      var n: int := NatValue(s[1..]);
      Some(if s[0] == '-' then -n else n)
    else None
  }

  predicate EndsWith(s: string, suffix: string) {
    |suffix| <= |s| && s[|s| - |suffix|..] == suffix
  }

  /** The size a header announces, or nothing when the reader moves on to the next request. */
  function AnnouncedSize(line: seq<byte>): Option<int> {
    var header := Strip(Decoded(line));
    if header == [] || EndsWith(header, "missing") then None
    else if |Fields(header)| < 3 then None
    else IntLiteral(Fields(header)[2])
  }

  // ----- one reply

  datatype Step = Step(body: Option<seq<byte>>, rest: seq<byte>)

  /** What one turn of the reader does to any stream, well formed or not. */
  function ReadReply(rest: seq<byte>, maxBytes: int): Step {
    var n := LineLength(rest);
    AfterHeader(AnnouncedSize(rest[..n]), rest[n..], maxBytes)
  }

  function AfterHeader(announced: Option<int>, after: seq<byte>, maxBytes: int): Step {
    match announced
    case None => Step(None, after)
    case Some(size) =>
      if size > maxBytes then Step(None, after[if size + 1 <= 0 then 0 else Available(size + 1, after)..])
      else
        var k := Available(size, after);
        Step(Some(after[..k]), after[k..][Available(1, after[k..])..])
  }

  lemma {:induction false} DropDrop(rest: seq<byte>, a: nat, b: nat)
    requires a + b <= |rest|
    ensures rest[a..][b..] == rest[a + b..]
  {
  }

  /** Reads away an oversized body and its newline, in bounded chunks. */
  method Drain(stream: BatchStream, size: int)
    requires stream.Valid()
    modifies stream`pos
    ensures stream.Valid()
    ensures var rest := old(stream.Rest());
            stream.Rest() == rest[if size + 1 <= 0 then 0 else Available(size + 1, rest)..]
  {
    ghost var rest := stream.Rest();
    var remaining := size + 1;
    ghost var taken := 0;
    while remaining > 0
      invariant stream.Valid() && 0 <= taken <= |rest|
      invariant stream.Rest() == rest[taken..]
      invariant if size + 1 <= 0 then taken == 0 && remaining == size + 1 else taken == size + 1 - remaining && 0 <= remaining
    {
      var chunk := stream.Read(if remaining < DRAIN_CHUNK then remaining else DRAIN_CHUNK);
      if chunk == [] {
        break;
      }
      DropDrop(rest, taken, |chunk|);
      remaining := remaining - |chunk|;
      taken := taken + |chunk|;
    }
  }

  method ReadObject(stream: BatchStream, maxBytes: int) returns (body: Option<seq<byte>>)
    requires stream.Valid()
    modifies stream`pos
    ensures stream.Valid()
    ensures Step(body, stream.Rest()) == ReadReply(old(stream.Rest()), maxBytes)
  {
    var line := stream.ReadLine();
    var header := Strip(Decoded(line));
    if header == [] || EndsWith(header, "missing") {
      return None;
    }
    var fields := Fields(header);
    if |fields| < 3 {
      return None;
    }
    var size := IntLiteral(fields[2]);
    if size.None? {
      return None;
    }
    if size.value > maxBytes {
      Drain(stream, size.value);
      return None;
    }
    var data := stream.Read(size.value);
    var _ := stream.Read(1);
    return Some(data);
  }

  // ----- the whole batch

  datatype Request = Request(name: string, path: string)

  datatype Blob = Blob(path: string, content: seq<byte>)

  datatype Batch = Batch(blobs: seq<Blob>, rest: seq<byte>)

  function ReadBatch(requests: seq<Request>, rest: seq<byte>, maxBytes: int): Batch {
    if requests == [] then Batch([], rest)
    else
      var step := ReadReply(rest, maxBytes);
      var tail := ReadBatch(requests[1..], step.rest, maxBytes);
      if step.body.None? then tail
      else Batch([Blob(requests[0].path, step.body.value)] + tail.blobs, tail.rest)
  }

  lemma {:induction false} NextRequest(requests: seq<Request>, i: nat, rest: seq<byte>, maxBytes: int)
    requires i < |requests|
    ensures var step := ReadReply(rest, maxBytes);
            var tail := ReadBatch(requests[i + 1..], step.rest, maxBytes);
            ReadBatch(requests[i..], rest, maxBytes)
            == if step.body.None? then tail
               else Batch([Blob(requests[i].path, step.body.value)] + tail.blobs, tail.rest)
  {
    assert requests[i..][1..] == requests[i + 1..];
  }

  function After(blobs: seq<Blob>, tail: Batch): Batch {
    Batch(blobs + tail.blobs, tail.rest)
  }

  lemma {:induction false} AfterOneMore(blobs: seq<Blob>, blob: Blob, tail: Batch)
    ensures After(blobs, Batch([blob] + tail.blobs, tail.rest)) == After(blobs + [blob], tail)
  {
  }

  method IterBlobs(stream: BatchStream, requests: seq<Request>, maxBytes: int) returns (blobs: seq<Blob>)
    requires stream.Valid()
    modifies stream`pos
    ensures stream.Valid()
    ensures Batch(blobs, stream.Rest()) == ReadBatch(requests, old(stream.Rest()), maxBytes)
  {
    blobs := [];
    ghost var start := stream.Rest();
    assert requests[0..] == requests;
    for i := 0 to |requests|
      invariant stream.Valid()
      invariant ReadBatch(requests, start, maxBytes) == After(blobs, ReadBatch(requests[i..], stream.Rest(), maxBytes))
    {
      ghost var rest := stream.Rest();
      NextRequest(requests, i, rest, maxBytes);
      var body := ReadObject(stream, maxBytes);
      ghost var tail := ReadBatch(requests[i + 1..], stream.Rest(), maxBytes);
      if body.Some? {
        AfterOneMore(blobs, Blob(requests[i].path, body.value), tail);
        blobs := blobs + [Blob(requests[i].path, body.value)];
      }
      assert ReadBatch(requests, start, maxBytes) == After(blobs, tail);
    }
  }

  // ----- what git writes

  datatype Answer = Missing | Present(kind: string, body: seq<byte>)

  predicate Word(s: string) {
    s != [] && forall i | 0 <= i < |s| :: !IsBlank(s[i]) && s[i] < '\U{80}'
  }

  function Encoded(s: string): (bytes: seq<byte>)
    requires forall i | 0 <= i < |s| :: s[i] < '\U{80}'
    ensures |bytes| == |s|
  {
    seq(|s|, i requires 0 <= i < |s| => s[i] as byte)
  }

  function Header(name: string, answer: Answer): string {
    match answer
    case Missing => name + " missing"
    case Present(kind, body) => name + " " + kind + " " + Decimal(|body|)
  }

  predicate Genuine(name: string, answer: Answer) {
    Word(name) && (answer.Present? ==> Word(answer.kind))
  }

  lemma {:induction false} WordDecimal(n: nat)
    ensures Word(Decimal(n))
  {
    DecimalReadsBack(n);
  }

  lemma {:induction false} HeaderIsAscii(name: string, answer: Answer)
    requires Genuine(name, answer)
    ensures var h := Header(name, answer);
            && h != [] && !IsBlank(h[0]) && !IsBlank(h[|h| - 1])
            && (forall i | 0 <= i < |h| :: h[i] < '\U{80}' && h[i] != '\n')
  {
    if answer.Present? {
      WordDecimal(|answer.body|);
    }
  }

  function HeaderBytes(name: string, answer: Answer): seq<byte>
    requires Genuine(name, answer)
  {
    HeaderIsAscii(name, answer);
    Encoded(Header(name, answer))
  }

  function BodyBytes(answer: Answer): seq<byte> {
    if answer.Present? then answer.body + [NEWLINE] else []
  }

  function Wire(name: string, answer: Answer): seq<byte>
    requires Genuine(name, answer)
  {
    HeaderBytes(name, answer) + [NEWLINE] + BodyBytes(answer)
  }

  lemma {:induction false} LineEndsAtNewline(line: seq<byte>, tail: seq<byte>)
    requires NEWLINE !in line
    ensures LineLength(line + [NEWLINE] + tail) == |line| + 1
  {
    if line != [] {
      LineEndsAtNewline(line[1..], tail);
      assert (line + [NEWLINE] + tail)[1..] == line[1..] + [NEWLINE] + tail;
    }
  }

  lemma {:induction false} WordStops(w: string, tail: string)
    requires Word(w) && (tail != [] ==> IsBlank(tail[0]))
    ensures WordLength(w + tail) == |w|
  {
    if |w| == 1 {
      assert (w + tail)[1..] == tail;
    } else {
      WordStops(w[1..], tail);
      assert (w + tail)[1..] == w[1..] + tail;
    }
  }

  lemma {:induction false} FirstField(w: string, tail: string)
    requires Word(w) && (tail != [] ==> IsBlank(tail[0]))
    ensures Fields(w + tail) == [w] + Fields(tail)
  {
    WordStops(w, tail);
    assert (w + tail)[..|w|] == w && (w + tail)[|w|..] == tail;
  }

  lemma {:induction false} NextField(w: string, tail: string)
    requires Word(w) && (tail != [] ==> IsBlank(tail[0]))
    ensures Fields(" " + w + tail) == [w] + Fields(tail)
  {
    FirstField(w, tail);
    SkipBlank(w + tail);
    assert " " + (w + tail) == " " + w + tail;
  }

  lemma {:induction false} SkipBlank(s: string)
    ensures Fields(" " + s) == Fields(s)
  {
    assert (" " + s)[1..] == s;
  }

  lemma {:induction false} ThreeFields(name: string, kind: string, d: string)
    requires Word(name) && Word(kind) && Word(d)
    ensures Fields(name + " " + kind + " " + d) == [name, kind, d]
  {
    NextField(d, []);
    assert " " + d + [] == " " + d;
    NextField(kind, " " + d);
    assert " " + kind + (" " + d) == " " + kind + " " + d;
    FirstField(name, " " + kind + " " + d);
    assert name + (" " + kind + " " + d) == name + " " + kind + " " + d;
  }

  /** The reader understands the header git wrote: the announced size is the body's own length. */
  lemma {:induction false} HeaderIsUnderstood(name: string, answer: Answer)
    requires Genuine(name, answer)
    ensures AnnouncedSize(HeaderBytes(name, answer) + [NEWLINE])
            == if answer.Missing? then None else Some(|answer.body|)
  {
    HeaderIsAscii(name, answer);
    var h := Header(name, answer);
    StripsNewline(h);
    assert Decoded(Encoded(h) + [NEWLINE]) == h + "\n";
    if answer.Missing? {
      assert h[|h| - 7..] == "missing";
    } else {
      var d := Decimal(|answer.body|);
      DecimalReadsBack(|answer.body|);
      WordDecimal(|answer.body|);
      ThreeFields(name, answer.kind, d);
      assert h[|h| - 1] == d[|d| - 1];
      LastOfSuffix(h, "missing");
    }
  }

  lemma {:induction false} LastOfSuffix(s: string, suffix: string)
    requires suffix != []
    ensures EndsWith(s, suffix) ==> s[|s| - 1] == suffix[|suffix| - 1]
  {
    if EndsWith(s, suffix) {
      assert s[|s| - |suffix|..][|suffix| - 1] == s[|s| - 1];
    }
  }

  lemma {:induction false} EndsWithMeans(s: string, suffix: string)
    ensures EndsWith(s, suffix) <==> exists front :: s == front + suffix
  {
    if EndsWith(s, suffix) {
      assert s == s[..|s| - |suffix|] + suffix;
    }
  }

  /** The size field of any other header: an optional sign and digits, and nothing else. */
  lemma {:induction false} SizeFieldMeans(s: string, n: nat)
    ensures IntLiteral(Decimal(n)) == Some(n) && IntLiteral("+" + Decimal(n)) == Some(n)
    ensures IntLiteral("-" + Decimal(n)) == Some(-(n as int))
    ensures IntLiteral(s).Some? <==> IsDigits(s) || (s != [] && (s[0] == '-' || s[0] == '+') && IsDigits(s[1..]))
  {
    DecimalReadsBack(n);
    var plus, minus := "+" + Decimal(n), "-" + Decimal(n);
    assert plus[0] == '+' && plus[1..] == Decimal(n) && minus[0] == '-' && minus[1..] == Decimal(n);
  }

  /** A header of three words announces what its third word says, unless it ends like that of a missing object. */
  lemma {:induction false} OddHeader(name: string, kind: string, size: string)
    requires Word(name) && Word(kind) && Word(size)
    ensures var h := name + " " + kind + " " + size;
            AnnouncedSize(Encoded(h) + [NEWLINE]) == if EndsWith(h, "missing") then None else IntLiteral(size)
  {
    var h := name + " " + kind + " " + size;
    assert h[0] == name[0] && h[|h| - 1] == size[|size| - 1];
    StripsNewline(h);
    assert Decoded(Encoded(h) + [NEWLINE]) == h + "\n";
    ThreeFields(name, kind, size);
  }

  /** A negative size is below every limit and reads all that is left, so that every later reply is lost. */
  lemma {:induction false} NegativeSizeReadsAll(name: string, kind: string, n: nat, after: seq<byte>, maxBytes: nat)
    requires Word(name) && Word(kind) && n > 0
    ensures var size := "-" + Decimal(n);
            && Word(size)
            && ReadReply(Encoded(name + " " + kind + " " + size) + [NEWLINE] + after, maxBytes) == Step(Some(after), [])
  {
    var size := "-" + Decimal(n);
    var h := name + " " + kind + " " + size;
    WordDecimal(n);
    DecimalReadsBack(n);
    assert h[|h| - 1] == Decimal(n)[|Decimal(n)| - 1];
    LastOfSuffix(h, "missing");
    SizeFieldMeans(size, n);
    OddHeader(name, kind, size);
    HeaderLine(h, after);
    AllIsRead(-(n as int), after, maxBytes);
  }

  lemma {:induction false} HeaderLine(h: string, after: seq<byte>)
    requires forall i | 0 <= i < |h| :: h[i] < '\U{80}' && h[i] != '\n'
    ensures var rest := Encoded(h) + [NEWLINE] + after;
            rest[..LineLength(rest)] == Encoded(h) + [NEWLINE] && rest[LineLength(rest)..] == after
  {
    LineIsFramed(Encoded(h), after, Encoded(h) + [NEWLINE] + after);
  }

  lemma {:induction false} AllIsRead(size: int, after: seq<byte>, maxBytes: nat)
    requires size < 0
    ensures AfterHeader(Some(size), after, maxBytes) == Step(Some(after), [])
  {
    assert after[..|after|] == after && after[|after|..] == [];
  }

  /** Nothing but blanks announces nothing. */
  lemma {:induction false} BlankHeader(line: seq<byte>)
    requires forall i | 0 <= i < |line| :: line[i] == 32 || line[i] == 10 || line[i] == 13
    ensures AnnouncedSize(line).None?
  {
    var s := Decoded(line);
    StripTrims(s, IsBlank);
  }

  lemma {:induction false} StripsNewline(h: string)
    requires h != [] && !IsBlank(h[0]) && !IsBlank(h[|h| - 1])
    ensures Strip(h + "\n") == h
  {
    var s := h + "\n";
    assert StripLeft(s, IsBlank) == s;
    assert s[..|s| - 1] == h;
    assert StripRight(s, IsBlank) == StripRight(h, IsBlank);
  }

  lemma {:induction false} BodyIsFramed(body: seq<byte>, tail: seq<byte>, after: seq<byte>, maxBytes: int)
    requires after == body + [NEWLINE] + tail
    ensures AfterHeader(Some(|body|), after, maxBytes) == Step(if |body| <= maxBytes then Some(body) else None, tail)
  {
    assert after[..|body|] == body && after[|body| + 1..] == tail;
    assert after[|body|..][1..] == tail;
  }

  lemma {:induction false} LineIsFramed(line: seq<byte>, after: seq<byte>, rest: seq<byte>)
    requires NEWLINE !in line && rest == line + [NEWLINE] + after
    ensures rest[..LineLength(rest)] == line + [NEWLINE] && rest[LineLength(rest)..] == after
  {
    LineEndsAtNewline(line, after);
  }

  /** One reply, whatever bytes follow: the body is delivered or skipped whole and the next header comes next. */
  lemma {:induction false} OneReplyStaysAligned(name: string, answer: Answer, tail: seq<byte>, maxBytes: int)
    requires Genuine(name, answer)
    ensures ReadReply(Wire(name, answer) + tail, maxBytes)
            == Step(if answer.Present? && |answer.body| <= maxBytes then Some(answer.body) else None, tail)
  {
    HeaderIsAscii(name, answer);
    HeaderIsUnderstood(name, answer);
    var line, after := HeaderBytes(name, answer), BodyBytes(answer) + tail;
    assert Wire(name, answer) + tail == line + [NEWLINE] + after;
    LineIsFramed(line, after, Wire(name, answer) + tail);
    if answer.Present? {
      BodyIsFramed(answer.body, tail, after, maxBytes);
    }
  }

  ghost predicate AllGenuine(requests: seq<Request>, answers: seq<Answer>) {
    |answers| == |requests| && forall i | 0 <= i < |requests| :: Genuine(requests[i].name, answers[i])
  }

  ghost function WireAll(requests: seq<Request>, answers: seq<Answer>): seq<byte>
    requires AllGenuine(requests, answers)
  {
    if requests == [] then [] else Wire(requests[0].name, answers[0]) + WireAll(requests[1..], answers[1..])
  }

  function Delivered(requests: seq<Request>, answers: seq<Answer>, maxBytes: int): seq<Blob>
    requires |answers| == |requests|
  {
    if requests == [] then []
    else
      var tail := Delivered(requests[1..], answers[1..], maxBytes);
      if answers[0].Present? && |answers[0].body| <= maxBytes
      then [Blob(requests[0].path, answers[0].body)] + tail
      else tail
  }

  /** The batch delivers exactly the present bodies within the limit, in request order, and ends aligned. */
  lemma {:induction false} BatchStaysAligned(requests: seq<Request>, answers: seq<Answer>, tail: seq<byte>, maxBytes: int)
    requires AllGenuine(requests, answers)
    ensures ReadBatch(requests, WireAll(requests, answers) + tail, maxBytes)
            == Batch(Delivered(requests, answers, maxBytes), tail)
  {
    if requests == [] {
      assert WireAll(requests, answers) + tail == tail;
    } else {
      var rest := WireAll(requests[1..], answers[1..]) + tail;
      assert WireAll(requests, answers) + tail == Wire(requests[0].name, answers[0]) + rest;
      OneReplyStaysAligned(requests[0].name, answers[0], rest, maxBytes);
      BatchStaysAligned(requests[1..], answers[1..], tail, maxBytes);
    }
  }

  // ----- which objects are yielded

  predicate Wanted(answer: Answer, maxBytes: int) {
    answer.Present? && |answer.body| <= maxBytes
  }

  /** Item `i` is the body of the answer at `origin[i]`, a wanted one. */
  ghost predicate ItemsAre(origin: seq<int>, items: seq<Blob>, start: nat, requests: seq<Request>, answers: seq<Answer>, maxBytes: int)
    requires |answers| == |requests|
  {
    && |origin| == |items|
    && forall i | 0 <= i < |origin| ::
         && start <= origin[i] < |answers| && Wanted(answers[origin[i]], maxBytes)
         && items[i] == Blob(requests[origin[i]].path, answers[origin[i]].body)
  }

  ghost predicate ListsWanted(origin: seq<int>, start: nat, answers: seq<Answer>, maxBytes: int) {
    forall k | start <= k < |answers| && Wanted(answers[k], maxBytes) :: k in origin
  }

  /** All wanted answers from `start` on are the items, in order. */
  ghost predicate ExplainsFrom(origin: seq<int>, items: seq<Blob>, start: nat, requests: seq<Request>, answers: seq<Answer>,
                               maxBytes: int)
    requires |answers| == |requests|
  {
    && Ascending(origin) && ItemsAre(origin, items, start, requests, answers, maxBytes)
    && ListsWanted(origin, start, answers, maxBytes)
  }

  ghost predicate Explains(origin: seq<int>, requests: seq<Request>, answers: seq<Answer>, maxBytes: int)
    requires |answers| == |requests|
  {
    ExplainsFrom(origin, Delivered(requests, answers, maxBytes), 0, requests, answers, maxBytes)
  }

  lemma {:induction false} WantedNext(rest: seq<int>, items: seq<Blob>, start: nat, requests: seq<Request>, answers: seq<Answer>,
                                      maxBytes: int)
    requires |answers| == |requests| && start < |answers| && Wanted(answers[start], maxBytes)
    requires ExplainsFrom(rest, items, start + 1, requests, answers, maxBytes)
    ensures ExplainsFrom([start] + rest, [Blob(requests[start].path, answers[start].body)] + items, start,
                         requests, answers, maxBytes)
  {
    PrependItem(rest, items, start, requests, answers, maxBytes);
    PrependListed(rest, start, answers, maxBytes);
  }

  lemma {:induction false} PrependItem(rest: seq<int>, items: seq<Blob>, start: nat, requests: seq<Request>, answers: seq<Answer>,
                                       maxBytes: int)
    requires |answers| == |requests| && start < |answers| && Wanted(answers[start], maxBytes)
    requires Ascending(rest) && ItemsAre(rest, items, start + 1, requests, answers, maxBytes)
    ensures Ascending([start] + rest)
    ensures ItemsAre([start] + rest, [Blob(requests[start].path, answers[start].body)] + items, start, requests, answers, maxBytes)
  {
    var origin, all := [start] + rest, [Blob(requests[start].path, answers[start].body)] + items;
    assert forall i | 1 <= i < |origin| :: origin[i] == rest[i - 1] && all[i] == items[i - 1];
  }

  lemma {:induction false} PrependListed(rest: seq<int>, start: nat, answers: seq<Answer>, maxBytes: int)
    requires ListsWanted(rest, start + 1, answers, maxBytes)
    ensures ListsWanted([start] + rest, start, answers, maxBytes)
  {
    forall k | start <= k < |answers| && Wanted(answers[k], maxBytes) ensures k in [start] + rest {
      if k == start {
        assert ([start] + rest)[0] == k;
      } else {
        var i :| 0 <= i < |rest| && rest[i] == k;
        assert ([start] + rest)[i + 1] == k;
      }
    }
  }

  lemma {:induction false} DeliveredFrom(requests: seq<Request>, answers: seq<Answer>, maxBytes: int, start: nat)
    returns (origin: seq<int>)
    requires |answers| == |requests| && start <= |answers|
    ensures ExplainsFrom(origin, Delivered(requests[start..], answers[start..], maxBytes), start, requests, answers, maxBytes)
    decreases |answers| - start
  {
    if start == |answers| {
      origin := [];
    } else {
      origin := DeliveredFrom(requests, answers, maxBytes, start + 1);
      assert requests[start..][1..] == requests[start + 1..] && answers[start..][1..] == answers[start + 1..];
      if Wanted(answers[start], maxBytes) {
        WantedNext(origin, Delivered(requests[start + 1..], answers[start + 1..], maxBytes), start, requests, answers, maxBytes);
        origin := [start] + origin;
      }
    }
  }

  /** The items are the wanted answers. */
  lemma {:induction false} DeliveredExactly(requests: seq<Request>, answers: seq<Answer>, maxBytes: int) returns (origin: seq<int>)
    requires |answers| == |requests|
    ensures Explains(origin, requests, answers, maxBytes)
  {
    origin := DeliveredFrom(requests, answers, maxBytes, 0);
    assert requests[0..] == requests && answers[0..] == answers;
  }

  /** Only blobs are yielded exactly when every present object within the limit is one. */
  lemma {:induction false} OnlyBlobsExactly(requests: seq<Request>, answers: seq<Answer>, maxBytes: int, origin: seq<int>)
    requires |answers| == |requests| && Explains(origin, requests, answers, maxBytes)
    ensures (forall i | 0 <= i < |origin| :: answers[origin[i]].kind == "blob")
            <==> forall k | 0 <= k < |answers| && Wanted(answers[k], maxBytes) :: answers[k].kind == "blob"
  {
    forall k | 0 <= k < |answers| && Wanted(answers[k], maxBytes)
      ensures exists i :: 0 <= i < |origin| && origin[i] == k
    {
      assert k in origin;
    }
  }

  /** A tree that has a path is yielded like a blob. */
  lemma {:induction false} TreeIsYielded(request: Request, body: seq<byte>, tail: seq<byte>, maxBytes: int)
    requires Word(request.name) && |body| <= maxBytes
    ensures var tree := Present("tree", body);
            ReadBatch([request], Wire(request.name, tree) + tail, maxBytes) == Batch([Blob(request.path, body)], tail)
  {
    var tree := Present("tree", body);
    OneReplyStaysAligned(request.name, tree, tail, maxBytes);
    assert [request][1..] == [];
  }

  // ----- which objects are requested

  /** `line.split(" ", 1)` when it yields two parts. */
  function SplitOnce(line: string): Option<Request> {
    if line == [] then None
    else if line[0] == ' ' then Some(Request([], line[1..]))
    else match SplitOnce(line[1..])
      case None => None
      case Some(r) => Some(Request([line[0]] + r.name, r.path))
  }

  /** Split at the first space; a line without one names nothing. */
  lemma {:induction false} SplitOnceExactly(line: string, request: Request)
    ensures SplitOnce(line) == Some(request) <==> ' ' !in request.name && line == request.name + " " + request.path
    ensures SplitOnce(line).None? <==> ' ' !in line
  {
    if line != [] && line[0] != ' ' {
      var rest := if request.name == [] then request else request.(name := request.name[1..]);
      SplitOnceExactly(line[1..], rest);
      assert line == [line[0]] + line[1..];
      if request.name != [] {
        assert request.name == [request.name[0]] + rest.name;
        assert request.name + " " + request.path == [request.name[0]] + (rest.name + " " + request.path);
      }
    } else if line != [] {
      assert line == [] + " " + line[1..];
      assert request.name == [] ==> [] + " " + request.path == " " + request.path && (" " + request.path)[1..] == request.path;
      assert request.name != [] ==> (request.name + " " + request.path)[0] == request.name[0];
    }
  }

  ghost predicate FirstNaming(lines: seq<string>, k: int, request: Request) {
    && 0 <= k < |lines| && SplitOnce(lines[k]) == Some(request)
    && forall j | 0 <= j < k && SplitOnce(lines[j]).Some? :: SplitOnce(lines[j]).value.name != request.name
  }

  function Names(requests: seq<Request>): set<string> {
    set r | r in requests :: r.name
  }

  lemma {:induction false} NamesAfter(requests: seq<Request>, request: Request)
    ensures Names(requests + [request]) == Names(requests) + {request.name}
  {
    forall name | name in Names(requests) + {request.name} ensures name in Names(requests + [request]) {
      if name == request.name {
        assert request in requests + [request];
      } else {
        var r :| r in requests && r.name == name;
        assert r in requests + [request];
      }
    }
  }

  function NamedIn(lines: seq<string>): set<string> {
    set line | line in lines && SplitOnce(line).Some? :: SplitOnce(line).value.name
  }

  lemma {:induction false} NamedAfter(lines: seq<string>, n: nat)
    requires n < |lines|
    ensures NamedIn(lines[..n + 1])
            == NamedIn(lines[..n]) + if SplitOnce(lines[n]).Some? then {SplitOnce(lines[n]).value.name} else {}
  {
    assert lines[..n + 1] == lines[..n] + [lines[n]];
    assert lines[n] in lines[..n + 1];
  }

  /** Each object is requested once, in listing order, with the path of the first line that names it. */
  method CollectRequests(lines: seq<string>) returns (requests: seq<Request>, ghost origin: seq<int>)
    ensures Names(requests) == NamedIn(lines)
    ensures forall i, j | 0 <= i < j < |requests| :: requests[i].name != requests[j].name
    ensures |origin| == |requests| && Ascending(origin)
    ensures forall i | 0 <= i < |requests| :: FirstNaming(lines, origin[i], requests[i])
  {
    requests := [];
    var seen: set<string> := {};
    origin := [];
    for n := 0 to |lines|
      invariant seen == Names(requests) == NamedIn(lines[..n])
      invariant |origin| == |requests| && Ascending(origin)
      invariant forall i | 0 <= i < |requests| :: origin[i] < n && FirstNaming(lines, origin[i], requests[i])
    {
      NamedAfter(lines, n);
      var parts := SplitOnce(lines[n]);
      if parts.Some? && parts.value.name !in seen {
        IsFirst(lines, n, parts.value);
        NamesAfter(requests, parts.value);
        seen := seen + {parts.value.name};
        requests := requests + [parts.value];
        origin := origin + [n];
      }
    }
    assert lines[..|lines|] == lines;
  }

  lemma {:induction false} IsFirst(lines: seq<string>, n: nat, request: Request)
    requires n < |lines| && SplitOnce(lines[n]) == Some(request) && request.name !in NamedIn(lines[..n])
    ensures FirstNaming(lines, n, request)
  {
    forall j | 0 <= j < n && SplitOnce(lines[j]).Some? ensures SplitOnce(lines[j]).value.name != request.name {
      assert lines[j] in lines[..n];
    }
  }
}
