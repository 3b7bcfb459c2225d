/**
 Cutting a long text into the lines of an implicitly concatenated string literal.

 `wide` stands for the East Asian width table: a wide character takes two columns, any other one.
 Escapes are those of section 7 of RFC 8259.
 */
module LiteralWrapper {
  import opened Wrappers
  import opened Texts
  import opened Seqs

  // ----- the literal

  function ShortName(c: char): Option<char> {
    match c
    case '"' => Some('"')
    case '\\' => Some('\\')
    case '\n' => Some('n')
    case '\r' => Some('r')
    case '\t' => Some('t')
    case '\U{0C}' => Some('f')
    case '\U{08}' => Some('b')
    case _ => None
  }

  function ShortChar(name: char): Option<char> {
    match name
    case '"' => Some('"')
    case '\\' => Some('\\')
    case 'n' => Some('\n')
    case 'r' => Some('\r')
    case 't' => Some('\t')
    case 'f' => Some('\U{0C}')
    case 'b' => Some('\U{08}')
    case _ => None
  }

  /** Control characters without a two-character escape are written as `\u00xx`. */
  predicate LongEscaped(c: char) {
    c < ' ' && ShortName(c).None?
  }

  function HexDigit(d: nat): char
    requires d < 16
  {
    if d < 10 then DigitChar(d) else ('a' as int + d - 10) as char
  }

  function HexValue(c: char): Option<nat> {
    if IsDigit(c) then Some(DigitOf(c))
    else if 'a' <= c <= 'f' then Some(c as int - 'a' as int + 10)
    else None
  }

  function Token(c: char): (t: string)
    ensures t != []
  {
    if ShortName(c).Some? then ['\\', ShortName(c).value]
    else if c < ' ' then "\\u00" + [HexDigit(c as int / 16), HexDigit(c as int % 16)]
    else [c]
  }

  /** The text between the quotes of `json.dumps(value, ensure_ascii=False)`. */
  function Body(value: string): string {
    if value == [] then [] else Token(value[0]) + Body(value[1..])
  }

  function Literal(value: string): string {
    "\"" + Body(value) + "\""
  }

  // ----- reading a literal, independently of how it was produced

  function Prepend(c: char, rest: Option<string>): Option<string> {
    if rest.None? then None else Some([c] + rest.value)
  }

  function Decode(s: string): Option<string> {
    if s == [] then Some([])
    else if s[0] != '\\' then
      if s[0] == '"' || s[0] < ' ' then None else Prepend(s[0], Decode(s[1..]))
    else if |s| >= 2 && s[1] != 'u' then
      if ShortChar(s[1]).None? then None else Prepend(ShortChar(s[1]).value, Decode(s[2..]))
    else if |s| >= 6 && forall i | 2 <= i < 6 :: HexValue(s[i]).Some? then
      var code := 4096 * HexValue(s[2]).value + 256 * HexValue(s[3]).value
                  + 16 * HexValue(s[4]).value + HexValue(s[5]).value;
      if 0xD800 <= code < 0xE000 then None else Prepend(code as char, Decode(s[6..]))
    else None
  }

  lemma {:induction false} ShortTokenDecodes(c: char, rest: string)
    requires ShortName(c).Some?
    ensures Decode(Token(c) + rest) == Prepend(c, Decode(rest))
  {
    var s := Token(c) + rest;
    assert s[0] == '\\' && s[1] == ShortName(c).value && s[2..] == rest;
  }

  lemma {:induction false} HexDigitsDecode(c: char)
    requires LongEscaped(c)
    ensures var t := Token(c);
            && |t| == 6 && t[0] == '\\' && t[1] == 'u' && t[2] == '0' && t[3] == '0'
            && HexValue(t[4]) == Some(c as int / 16) && HexValue(t[5]) == Some(c as int % 16)
  {
  }

  lemma {:induction false} LongTokenDecodes(c: char, rest: string)
    requires LongEscaped(c)
    ensures Decode(Token(c) + rest) == Prepend(c, Decode(rest))
  {
    HexDigitsDecode(c);
    var t, s := Token(c), Token(c) + rest;
    assert s[..6] == t && s[6..] == rest;
    assert forall i | 0 <= i < 6 :: s[i] == t[i];
  }

  lemma {:induction false} TokenDecodes(c: char, rest: string)
    ensures Decode(Token(c) + rest) == Prepend(c, Decode(rest))
  {
    if ShortName(c).Some? {
      ShortTokenDecodes(c, rest);
    } else if c < ' ' {
      LongTokenDecodes(c, rest);
    } else {
      assert ([c] + rest)[1..] == rest;
    }
  }

  lemma {:induction false} DecodeUndoesBody(value: string)
    ensures Decode(Body(value)) == Some(value)
  {
    if value != [] {
      DecodeUndoesBody(value[1..]);
      TokenDecodes(value[0], Body(value[1..]));
      assert [value[0]] + value[1..] == value;
    }
  }

  lemma {:induction false} BodyOfConcat(a: string, b: string, all: string)
    requires all == a + b
    ensures Body(all) == Body(a) + Body(b)
    decreases |a|
  {
    if a == [] {
      assert all == b;
    } else {
      assert all[0] == a[0];
      BodyOfConcat(a[1..], b, all[1..]);
      Associative(Token(a[0]), Body(a[1..]), Body(b));
    }
  }

  /** The seven short escapes, six characters for the other control characters, and everything else as it stands. */
  lemma {:induction false} EscapeTable(c: char)
    ensures Token('"') == "\\\"" && Token('\\') == "\\\\" && Token('\n') == "\\n" && Token('\r') == "\\r"
            && Token('\t') == "\\t" && Token('\U{0C}') == "\\f" && Token('\U{08}') == "\\b"
    ensures c >= ' ' && c != '"' && c != '\\' ==> Token(c) == [c]
    ensures c < ' ' && c !in "\n\r\t\U{0C}\U{08}" ==>
              |Token(c)| == 6 && Token(c)[..4] == "\\u00" && Decode(Token(c)) == Some([c])
  {
    if LongEscaped(c) {
      HexDigitsDecode(c);
      LongTokenDecodes(c, []);
      assert Token(c) + [] == Token(c);
      assert Decode([]) == Some([]) && [c] + [] == [c];
    }
  }

  /** A literal is the tokens of its characters, one after the other, between quotes. */
  lemma {:induction false} LiteralOfConcat(a: string, b: string, c: char)
    ensures Literal([]) == "\"\"" && Literal([c]) == "\"" + Token(c) + "\""
    ensures Literal(a + b) == "\"" + Body(a) + Body(b) + "\""
  {
    BodyOfConcat(a, b, a + b);
    assert [c][1..] == [] && Token(c) + [] == Token(c);
    assert "\"" + (Body(a) + Body(b)) == "\"" + Body(a) + Body(b);
  }

  // ----- the cut

  function CharWidth(c: char, wide: char -> bool): int {
    if wide(c) then 2 else 1
  }

  function TextWidth(s: string, wide: char -> bool): int {
    if s == [] then 0 else TextWidth(s[..|s| - 1], wide) + CharWidth(s[|s| - 1], wide)
  }

  /** The positions of the wide characters. */
  function WideAt(s: string, wide: char -> bool): set<nat> {
    set i: nat | i < |s| && wide(s[i])
  }

  /** The columns of a text are its characters, the wide ones counted twice. */
  lemma {:induction false} WidthCounts(s: string, wide: char -> bool)
    ensures TextWidth(s, wide) == |s| + |WideAt(s, wide)|
  {
    if s == [] {
      assert WideAt(s, wide) == {};
    } else {
      var front, last: nat := s[..|s| - 1], |s| - 1;
      WidthCounts(front, wide);
      assert WideAt(s, wide) == if wide(s[last]) then WideAt(front, wide) + {last} else WideAt(front, wide);
    }
  }

  /** Where the column scan stops: the first character that no longer fits. */
  function Scan(rest: string, end: nat, used: int, budget: int, wide: char -> bool): (r: nat)
    requires end <= |rest|
    ensures end <= r <= |rest|
    decreases |rest| - end
  {
    if end < |rest| && used + CharWidth(rest[end], wide) <= budget
    then Scan(rest, end + 1, used + CharWidth(rest[end], wide), budget, wide)
    else end
  }

  /** Length of the run of backslashes that ends just before `end`. */
  function Backslashes(s: string, end: nat): (n: nat)
    requires end <= |s|
    ensures n <= end
  {
    if end > 0 && s[end - 1] == '\\' then 1 + Backslashes(s, end - 1) else 0
  }

  function Cut(rest: string, budget: int, wide: char -> bool): (end: nat)
    requires rest != []
    ensures 0 < end <= |rest|
  {
    var scanned := Scan(rest, 0, 0, budget, wide);
    var end := if scanned == 0 then 1 else scanned;
    if Backslashes(rest, end) % 2 == 1 && end < |rest| then end + 1 else end
  }

  function Chunks(rest: string, budget: int, wide: char -> bool): seq<string> {
    if rest == [] then []
    else
      var end := Cut(rest, budget, wide);
      [rest[..end]] + Chunks(rest[end..], budget, wide)
  }

  function Budget(indent: string, width: int): int {
    if width - |indent| - 2 > 20 then width - |indent| - 2 else 20
  }

  function Quoted(chunks: seq<string>, indent: string): (lines: seq<string>)
    ensures |lines| == |chunks|
  {
    seq(|chunks|, i requires 0 <= i < |chunks| => indent + "\"" + chunks[i] + "\"")
  }

  function Wrapped(value: string, indent: string, width: int, wide: char -> bool): string {
    if TextWidth(Literal(value), wide) + |indent| <= width then Literal(value)
    else Join(Quoted(Chunks(Body(value), Budget(indent, width), wide), indent), '\n')
  }

  /** Adds characters to the line while they fit its columns. */
  method ScanColumns(inner: string, start: nat, budget: int, wide: char -> bool) returns (end: nat)
    requires start <= |inner|
    ensures end == start + Scan(inner[start..], 0, 0, budget, wide)
  {
    ghost var rest := inner[start..];
    var used := 0;
    end := start;
    while end < |inner| && used + CharWidth(inner[end], wide) <= budget
      invariant start <= end <= |inner|
      invariant Scan(rest, 0, 0, budget, wide) == Scan(rest, end - start, used, budget, wide)
    {
      assert inner[end] == rest[end - start];
      used := used + CharWidth(inner[end], wide);
      end := end + 1;
    }
  }

  /** Walks back over the backslashes before `end`, never past `start`. */
  method CountBackslashes(inner: string, start: nat, end: nat) returns (backslashes: nat)
    requires start < end <= |inner|
    ensures backslashes == Backslashes(inner[start..], end - start)
  {
    ghost var rest := inner[start..];
    backslashes := 0;
    var probe := end - 1;
    while probe >= start && inner[probe] == '\\'
      invariant start - 1 <= probe < end
      invariant Backslashes(rest, end - start) == backslashes + Backslashes(rest, probe + 1 - start)
    {
      assert inner[probe] == rest[probe - start];
      backslashes := backslashes + 1;
      probe := probe - 1;
    }
    assert probe >= start ==> inner[probe] == rest[probe - start];
  }

  method CutChunks(inner: string, budget: int, wide: char -> bool) returns (chunks: seq<string>)
    ensures chunks == Chunks(inner, budget, wide)
  {
    chunks := [];
    var start := 0;
    assert inner[0..] == inner;
    while start < |inner|
      invariant 0 <= start <= |inner|
      invariant Chunks(inner, budget, wide) == chunks + Chunks(inner[start..], budget, wide)
    {
      ghost var rest := inner[start..];
      var end := ScanColumns(inner, start, budget, wide);
      if end == start {
        end := start + 1;
      }
      var backslashes := CountBackslashes(inner, start, end);
      if backslashes % 2 == 1 && end < |inner| {
        end := end + 1;
      }
      assert end - start == Cut(rest, budget, wide);
      NextChunk(inner, start, end, chunks, budget, wide);
      chunks := chunks + [inner[start..end]];
      start := end;
    }
  }

  lemma {:induction false} NextChunk(inner: string, start: nat, end: nat, chunks: seq<string>, budget: int, wide: char -> bool)
    requires start < |inner| && end == start + Cut(inner[start..], budget, wide)
    ensures chunks + Chunks(inner[start..], budget, wide)
            == chunks + [inner[start..end]] + Chunks(inner[end..], budget, wide)
  {
    var rest := inner[start..];
    assert inner[start..end] == rest[..end - start];
    assert inner[end..] == rest[end - start..];
  }

  method WrapLiteral(value: string, indent: string, width: int, wide: char -> bool) returns (text: string)
    ensures text == Wrapped(value, indent, width, wide)
  {
    var literal := Literal(value);
    if TextWidth(literal, wide) + |indent| <= width {
      return literal;
    }
    var inner := literal[1..|literal| - 1];
    var budget := if width - |indent| - 2 > 20 then width - |indent| - 2 else 20;
    var chunks := CutChunks(inner, budget, wide);
    text := Join(Quoted(chunks, indent), '\n');
  }

  // ----- no cut falls inside an escape

  predicate Short(value: string) {
    forall i | 0 <= i < |value| :: !LongEscaped(value[i])
  }

  predicate NarrowAscii(wide: char -> bool) {
    !exists c: char :: c < '\U{80}' && wide(c)
  }

  lemma {:induction false} RunAcross(a: string, t: string, e: nat)
    requires e <= |t|
    ensures Backslashes(a + t, |a| + e)
            == if Backslashes(t, e) < e then Backslashes(t, e) else e + Backslashes(a, |a|)
  {
    if e == 0 {
      RunInPrefix(a, t, |a|);
    } else if t[e - 1] == '\\' {
      RunAcross(a, t, e - 1);
    }
  }

  lemma {:induction false} RunInPrefix(a: string, t: string, e: nat)
    requires e <= |a|
    ensures Backslashes(a + t, e) == Backslashes(a, e)
  {
    if e > 0 {
      RunInPrefix(a, t, e - 1);
    }
  }

  lemma {:induction false} TokenShape(c: char)
    requires !LongEscaped(c)
    ensures var t := Token(c);
            || (|t| == 1 && t[0] != '\\')
            || (|t| == 2 && t[0] == '\\' && t[1] < '\U{80}')
    ensures Body([c]) == Token(c)
  {
    assert [c][1..] == [];
  }

  lemma {:induction false} BodyOfPrefix(value: string, j: nat)
    requires 0 < j <= |value|
    ensures Body(value[..j]) == Token(value[0]) + Body(value[1..][..j - 1])
  {
    assert value[..j][1..] == value[1..][..j - 1];
  }

  lemma {:induction false} WithinToken(t: string, rest: string, e: nat)
    requires 0 < e <= |t|
    requires (|t| == 1 && t[0] != '\\') || (|t| == 2 && t[0] == '\\' && t[1] < '\U{80}')
    ensures var run := Backslashes(t + rest, e);
            && |t| == e + run % 2
            && (run % 2 == 1 ==> e < |t + rest| && (t + rest)[e] < '\U{80}')
  {
    RunInPrefix(t, rest, e);
  }

  /** An even run of backslashes ends on an escape boundary; an odd one ends one column before the next boundary. */
  lemma {:induction false} ParityFindsBoundary(value: string, e: nat) returns (j: nat)
    requires Short(value) && 0 < e <= |Body(value)|
    ensures 0 < j <= |value|
    ensures |Body(value[..j])| == e + Backslashes(Body(value), e) % 2
    ensures Backslashes(Body(value), e) % 2 == 1 ==> e < |Body(value)| && Body(value)[e] < '\U{80}'
  {
    var t, rest := Token(value[0]), Body(value[1..]);
    TokenShape(value[0]);
    if e <= |t| {
      j := 1;
      WithinToken(t, rest, e);
      BodyOfPrefix(value, 1);
    } else {
      var tail := ParityFindsBoundary(value[1..], e - |t|);
      j := tail + 1;
      BoundaryMoves(value, t, rest, e - |t|, tail);
    }
  }

  lemma {:induction false} BoundaryMoves(value: string, t: string, rest: string, e: nat, tail: nat)
    requires value != [] && t == Token(value[0]) && rest == Body(value[1..])
    requires (|t| == 1 && t[0] != '\\') || (|t| == 2 && t[0] == '\\')
    requires 0 < tail <= |value[1..]| && e <= |rest|
    requires |Body(value[1..][..tail])| == e + Backslashes(rest, e) % 2
    requires Backslashes(rest, e) % 2 == 1 ==> e < |rest| && rest[e] < '\U{80}'
    ensures |Body(value[..tail + 1])| == |t| + e + Backslashes(t + rest, |t| + e) % 2
    ensures Backslashes(t + rest, |t| + e) % 2 == 1 ==> |t| + e < |t + rest| && (t + rest)[|t| + e] < '\U{80}'
  {
    BeyondToken(t, rest, e);
    BodyOfPrefix(value, tail + 1);
  }

  lemma {:induction false} BeyondToken(t: string, rest: string, e: nat)
    requires (|t| == 1 && t[0] != '\\') || (|t| == 2 && t[0] == '\\')
    requires e <= |rest|
    ensures Backslashes(t + rest, |t| + e) % 2 == Backslashes(rest, e) % 2
    ensures e < |rest| ==> (t + rest)[|t| + e] == rest[e]
  {
    RunAcross(t, rest, e);
    TokenRunIsEven(t);
  }

  lemma {:induction false} TokenRunIsEven(t: string)
    requires (|t| == 1 && t[0] != '\\') || (|t| == 2 && t[0] == '\\')
    ensures Backslashes(t, |t|) % 2 == 0
  {
  }

  lemma {:induction false} ScanFits(rest: string, end: nat, used: int, budget: int, wide: char -> bool)
    requires end <= |rest| && used == TextWidth(rest[..end], wide) <= budget
    ensures var r := Scan(rest, end, used, budget, wide);
            TextWidth(rest[..r], wide) <= budget && (r < |rest| ==> budget - 1 <= TextWidth(rest[..r], wide))
    decreases |rest| - end
  {
    if end < |rest| && used + CharWidth(rest[end], wide) <= budget {
      assert rest[..end + 1][..end] == rest[..end];
      ScanFits(rest, end + 1, used + CharWidth(rest[end], wide), budget, wide);
    }
  }

  /** One cut of an escaped text: it lands between two tokens and wastes at most one column. */
  lemma {:induction false} CutIsClean(value: string, budget: int, wide: char -> bool) returns (j: nat)
    requires Short(value) && value != [] && budget >= 20 && NarrowAscii(wide)
    ensures Body(value) != [] && 0 < j <= |value|
    ensures var end := Cut(Body(value), budget, wide);
            && Body(value)[..end] == Body(value[..j]) && Body(value)[end..] == Body(value[j..])
            && |Body(value[..j])| + |WideAt(Body(value[..j]), wide)| <= budget + 1
            && (end < |Body(value)| ==> budget - 1 <= |Body(value[..j])| + |WideAt(Body(value[..j]), wide)|)
  {
    var rest := Body(value);
    j := CutIsNear(value, budget, wide);
    WidthCounts(Body(value[..j]), wide);
  }

  lemma {:induction false} CutIsNear(value: string, budget: int, wide: char -> bool) returns (j: nat)
    requires Short(value) && value != [] && budget >= 20 && NarrowAscii(wide)
    ensures Body(value) != [] && 0 < j <= |value|
    ensures var end := Cut(Body(value), budget, wide);
            && Body(value)[..end] == Body(value[..j]) && Body(value)[end..] == Body(value[j..])
            && TextWidth(Body(value)[..end], wide) <= budget + 1
            && (end < |Body(value)| ==> budget - 1 <= TextWidth(Body(value)[..end], wide))
  {
    var rest := Body(value);
    var e := Scan(rest, 0, 0, budget, wide);
    ScanFits(rest, 0, 0, budget, wide);
    assert e > 0;
    j := ParityFindsBoundary(value, e);
    SplitBody(value, j);
    var end := Cut(rest, budget, wide);
    if end == e + 1 {
      OneMoreColumn(rest, e, wide);
    }
  }

  lemma {:induction false} SplitBody(value: string, j: nat)
    requires j <= |value|
    ensures var n := |Body(value[..j])|;
            n <= |Body(value)| && Body(value)[..n] == Body(value[..j]) && Body(value)[n..] == Body(value[j..])
  {
    assert value[..j] + value[j..] == value;
    BodyOfConcat(value[..j], value[j..], value);
  }

  lemma {:induction false} OneMoreColumn(rest: string, e: nat, wide: char -> bool)
    requires e < |rest| && rest[e] < '\U{80}' && NarrowAscii(wide)
    ensures TextWidth(rest[..e + 1], wide) == TextWidth(rest[..e], wide) + 1
  {
    assert rest[..e + 1][..e] == rest[..e];
  }

  // ----- what a reader of the wrapped text sees

  function DecodeAll(chunks: seq<string>): Option<string> {
    if chunks == [] then Some([])
    else
      var head, tail := Decode(chunks[0]), DecodeAll(chunks[1..]);
      if head.None? || tail.None? then None else Some(head.value + tail.value)
  }

  function Concat(chunks: seq<string>): string {
    if chunks == [] then [] else chunks[0] + Concat(chunks[1..])
  }

  lemma {:induction false} ChunksCoverBody(rest: string, budget: int, wide: char -> bool)
    ensures Concat(Chunks(rest, budget, wide)) == rest
    decreases |rest|
  {
    if rest != [] {
      var end := Cut(rest, budget, wide);
      ChunksCoverBody(rest[end..], budget, wide);
      assert rest[..end] + rest[end..] == rest;
    }
  }

  lemma {:induction false} ChunksSplit(rest: string, head: string, tail: string, budget: int, wide: char -> bool)
    requires rest != [] && rest[..Cut(rest, budget, wide)] == head && rest[Cut(rest, budget, wide)..] == tail
    ensures Chunks(rest, budget, wide) == [head] + Chunks(tail, budget, wide)
  {
  }

  lemma {:induction false} HeadAndTailDecode(value: string, j: nat, tail: seq<string>)
    requires j <= |value| && DecodeAll(tail) == Some(value[j..])
    ensures DecodeAll([Body(value[..j])] + tail) == Some(value)
  {
    var chunks := [Body(value[..j])] + tail;
    DecodeUndoesBody(value[..j]);
    assert chunks[0] == Body(value[..j]) && chunks[1..] == tail;
    assert value[..j] + value[j..] == value;
  }

  /** The chunks decode one by one, and the decoded pieces join to the value. */
  lemma {:induction false} ChunksDecode(value: string, budget: int, wide: char -> bool)
    requires Short(value) && budget >= 20 && NarrowAscii(wide)
    ensures DecodeAll(Chunks(Body(value), budget, wide)) == Some(value)
    decreases |value|
  {
    if value != [] {
      var j := CutIsClean(value, budget, wide);
      ChunksSplit(Body(value), Body(value[..j]), Body(value[j..]), budget, wide);
      ChunksDecode(value[j..], budget, wide);
      HeadAndTailDecode(value, j, Chunks(Body(value[j..]), budget, wide));
    }
  }

  ghost predicate UsesColumns(chunks: seq<string>, budget: int, wide: char -> bool) {
    && (forall i | 0 <= i < |chunks| :: |chunks[i]| + |WideAt(chunks[i], wide)| <= budget + 1)
    && (forall i | 0 <= i < |chunks| - 1 :: budget - 1 <= |chunks[i]| + |WideAt(chunks[i], wide)|)
  }

  lemma {:induction false} OneMoreLine(head: string, tail: seq<string>, budget: int, wide: char -> bool)
    requires UsesColumns(tail, budget, wide) && TextWidth(head, wide) <= budget + 1
    requires tail != [] ==> budget - 1 <= TextWidth(head, wide)
    ensures UsesColumns([head] + tail, budget, wide)
  {
    WidthCounts(head, wide);
  }

  /** No chunk overruns by more than one column, and only the last may leave more than one unused. */
  lemma {:induction false} ChunksUseColumns(value: string, budget: int, wide: char -> bool)
    requires Short(value) && budget >= 20 && NarrowAscii(wide)
    ensures UsesColumns(Chunks(Body(value), budget, wide), budget, wide)
    decreases |value|
  {
    if value != [] {
      var j := CutIsNear(value, budget, wide);
      ChunksUseColumns(value[j..], budget, wide);
      var end := Cut(Body(value), budget, wide);
      var tail := Chunks(Body(value)[end..], budget, wide);
      assert tail != [] ==> end < |Body(value)|;
      OneMoreLine(Body(value)[..end], tail, budget, wide);
    }
  }

  function ReadLine(line: string): Option<string> {
    var s := StripLeft(line, IsBlank);
    if |s| >= 2 && s[0] == '"' && s[|s| - 1] == '"' then Decode(s[1..|s| - 1]) else None
  }

  function ReadLines(lines: seq<string>): Option<string> {
    if lines == [] then Some([])
    else
      var head, tail := ReadLine(lines[0]), ReadLines(lines[1..]);
      if head.None? || tail.None? then None else Some(head.value + tail.value)
  }

  /** The value of adjacent string literals, one on each line. */
  function ReadText(text: string): Option<string> {
    ReadLines(Split(text, '\n'))
  }

  /** Spaces, tabs and form feeds: what may stand before a literal on its line. */
  predicate Indentation(indent: string) {
    forall i | 0 <= i < |indent| :: indent[i] == ' ' || indent[i] == '\t' || indent[i] == '\U{0C}'
  }

  lemma {:induction false} StripIndent(indent: string, s: string)
    requires Indentation(indent) && s != [] && !IsBlank(s[0])
    ensures StripLeft(indent + s, IsBlank) == s
  {
    if indent == [] {
      assert indent + s == s;
    } else {
      StripIndent(indent[1..], s);
      assert (indent + s)[1..] == indent[1..] + s;
    }
  }

  lemma {:induction false} LinesReadAsChunks(chunks: seq<string>, indent: string)
    requires Indentation(indent)
    ensures ReadLines(Quoted(chunks, indent)) == DecodeAll(chunks)
  {
    if chunks != [] {
      LinesReadAsChunks(chunks[1..], indent);
      assert Quoted(chunks, indent)[1..] == Quoted(chunks[1..], indent);
      var s := "\"" + chunks[0] + "\"";
      StripIndent(indent, s);
      assert Quoted(chunks, indent)[0] == indent + s;
      assert s[1..|s| - 1] == chunks[0];
    }
  }

  lemma {:induction false} BodyHasNoNewline(value: string)
    ensures '\n' !in Body(value)
  {
    if value != [] {
      BodyHasNoNewline(value[1..]);
    }
  }

  lemma {:induction false} ChunksHaveNoNewline(rest: string, budget: int, wide: char -> bool)
    requires '\n' !in rest
    ensures forall i | 0 <= i < |Chunks(rest, budget, wide)| :: '\n' !in Chunks(rest, budget, wide)[i]
    decreases |rest|
  {
    if rest != [] {
      ChunksHaveNoNewline(rest[Cut(rest, budget, wide)..], budget, wide);
    }
  }

  /** The literal has room after the indent: its characters, and one more column for each wide one. */
  predicate OneLine(value: string, indent: string, width: int, wide: char -> bool) {
    |Literal(value)| + |WideAt(Literal(value), wide)| + |indent| <= width
  }

  lemma {:induction false} OneLineReads(value: string)
    ensures ReadText(Literal(value)) == Some(value)
  {
    BodyHasNoNewline(value);
    var s := Literal(value);
    SplitOne(s, '\n');
    DecodeUndoesBody(value);
    assert s[1..|s| - 1] == Body(value);
    assert ReadLines([s][1..]) == Some([]);
    assert value + [] == value;
  }

  lemma {:induction false} ManyLinesRead(chunks: seq<string>, indent: string)
    requires Indentation(indent) && chunks != []
    requires forall i | 0 <= i < |chunks| :: '\n' !in chunks[i]
    ensures ReadText(Join(Quoted(chunks, indent), '\n')) == DecodeAll(chunks)
  {
    SplitUndoesJoin(Quoted(chunks, indent), '\n');
    LinesReadAsChunks(chunks, indent);
  }

  /** What reading the wrapped text back amounts to, for every value. */
  lemma {:induction false} WrappedReadsAs(value: string, indent: string, width: int, wide: char -> bool)
    requires Indentation(indent)
    ensures ReadText(Wrapped(value, indent, width, wide))
            == if OneLine(value, indent, width, wide) then Some(value)
               else if value == [] then None
               else DecodeAll(Chunks(Body(value), Budget(indent, width), wide))
  {
    WidthCounts(Literal(value), wide);
    if OneLine(value, indent, width, wide) {
      OneLineReads(value);
    } else if value != [] {
      BodyHasNoNewline(value);
      ChunksHaveNoNewline(Body(value), Budget(indent, width), wide);
      ManyLinesRead(Chunks(Body(value), Budget(indent, width), wide), indent);
    } else {
      assert Split([], '\n') == [[]] && ReadLine([]) == None;
    }
  }

  /** The lines of a text that does not fit on one: indent, quote, chunk, quote, and the chunks fill the room there is. */
  lemma {:induction false} WrappedLines(value: string, indent: string, width: int, wide: char -> bool) returns (chunks: seq<string>)
    requires Indentation(indent) && value != [] && !OneLine(value, indent, width, wide)
    ensures var lines := Split(Wrapped(value, indent, width, wide), '\n');
            |lines| == |chunks| && forall i | 0 <= i < |chunks| :: lines[i] == indent + "\"" + chunks[i] + "\""
    ensures Concat(chunks) == Body(value)
    ensures Short(value) && NarrowAscii(wide) ==>
              UsesColumns(chunks, if width - |indent| < 22 then 20 else width - |indent| - 2, wide)
  {
    var budget := Budget(indent, width);
    chunks := Chunks(Body(value), budget, wide);
    WidthCounts(Literal(value), wide);
    BodyHasNoNewline(value);
    ChunksHaveNoNewline(Body(value), budget, wide);
    SplitUndoesJoin(Quoted(chunks, indent), '\n');
    ChunksCoverBody(Body(value), budget, wide);
    if Short(value) && NarrowAscii(wide) {
      ChunksUseColumns(value, budget, wide);
    }
  }

  /** A text that fits is one literal, and an empty one that does not is no line at all. */
  lemma {:induction false} WrappedShort(value: string, indent: string, width: int, wide: char -> bool)
    ensures OneLine(value, indent, width, wide) ==> Wrapped(value, indent, width, wide) == Literal(value)
    ensures !OneLine([], indent, width, wide) ==> Wrapped([], indent, width, wide) == ""
  {
    WidthCounts(Literal(value), wide);
    WidthCounts(Literal([]), wide);
  }

  predicate Survives(value: string, indent: string, width: int, wide: char -> bool) {
    ReadText(Wrapped(value, indent, width, wide)) == Some(value)
  }

  /** Texts without `\u00xx` escapes come back unchanged. */
  lemma {:induction false} ShortTextsSurvive(value: string, indent: string, width: int, wide: char -> bool)
    requires Indentation(indent) && NarrowAscii(wide) && Short(value)
    requires value != [] || |indent| + 2 <= width
    ensures Survives(value, indent, width, wide)
  {
    WrappedReadsAs(value, indent, width, wide);
    WidthCounts(Literal(value), wide);
    if value == [] {
      EmptyLiteralWidth(wide);
    } else {
      ChunksDecode(value, Budget(indent, width), wide);
    }
  }

  lemma {:induction false} EmptyLiteralWidth(wide: char -> bool)
    requires NarrowAscii(wide)
    ensures TextWidth(Literal([]), wide) == 2
  {
    assert Literal([]) == "\"\"" && "\"\""[..1] == "\"" && "\""[..0] == [];
  }

  // ----- exactly which alphabets are safe

  predicate Escaped(c: char) {
    ShortName(c).Some? || LongEscaped(c)
  }

  /** A plain letter: it takes one column and is written as itself. */
  predicate PlainLetter(p: char, wide: char -> bool) {
    !Escaped(p) && !wide(p)
  }

  function Filled(n: nat, p: char): (s: string)
    ensures |s| == n && forall i | 0 <= i < n :: s[i] == p
  {
    seq(n, _ => p)
  }

  lemma {:induction false} FilledBody(n: nat, p: char)
    requires !Escaped(p)
    ensures Body(Filled(n, p)) == Filled(n, p)
  {
    if n > 0 {
      FilledBody(n - 1, p);
      assert Filled(n, p)[1..] == Filled(n - 1, p);
    }
  }

  lemma {:induction false} ScanReaches(rest: string, end: nat, budget: int, wide: char -> bool)
    requires end <= budget < |rest| && budget >= 0
    requires forall i | 0 <= i < |rest| :: !wide(rest[i])
    ensures Scan(rest, end, end, budget, wide) == budget
    decreases budget - end
  {
    if end < budget {
      ScanReaches(rest, end + 1, budget, wide);
    }
  }

  lemma {:induction false} NarrowWidth(s: string, wide: char -> bool)
    requires forall i | 0 <= i < |s| :: !wide(s[i])
    ensures TextWidth(s, wide) == |s|
  {
    if s != [] {
      NarrowWidth(s[..|s| - 1], wide);
    }
  }

  lemma {:induction false} NoneWide(s: string, wide: char -> bool)
    requires forall i | 0 <= i < |s| :: !wide(s[i])
    ensures WideAt(s, wide) == {}
  {
  }

  lemma {:induction false} FilledThenStub(n: nat, p: char)
    requires !Escaped(p)
    ensures Decode(Filled(n, p) + "\\u") == None
  {
    var s := Filled(n, p) + "\\u";
    if n == 0 {
      assert s == "\\u";
    } else {
      FilledThenStub(n - 1, p);
      assert s[1..] == Filled(n - 1, p) + "\\u";
    }
  }

  lemma {:induction false} LongTokenShape(c: char)
    requires LongEscaped(c)
    ensures var t := Token(c);
            && |t| == 6 && t[..2] == "\\u" && t[1] != '\\' && Body([c]) == t
            && forall i | 0 <= i < 6 :: t[i] < '\U{80}'
  {
    assert [c][1..] == [];
  }

  /** In a line of plain characters, an escape starting in the last column is cut after its second character. */
  lemma {:induction false} EscapeInLastColumn(t: string, p: char, budget: nat, wide: char -> bool)
    requires |t| >= 2 && t[0] == '\\' && budget > 1
    requires forall i | 0 <= i < |t| :: !wide(t[i])
    requires PlainLetter(p, wide)
    ensures var rest := Filled(budget - 1, p) + t;
            Cut(rest, budget, wide) == budget + 1 && rest[..budget + 1] == Filled(budget - 1, p) + t[..2]
  {
    var rest := Filled(budget - 1, p) + t;
    ScanReaches(rest, 0, budget, wide);
    assert rest[budget - 1] == '\\' && rest[budget - 2] == p;
    assert Backslashes(rest, budget - 1) == 0;
  }

  /** The literal of a filled line with one escaped character does not fit on one line. */
  lemma {:induction false} FilledLiteral(c: char, p: char, budget: nat, wide: char -> bool)
    requires budget > 0 && NarrowAscii(wide) && PlainLetter(p, wide) && Body([c]) == Token(c)
    requires forall i | 0 <= i < |Token(c)| :: Token(c)[i] < '\U{80}'
    ensures var value := Filled(budget - 1, p) + [c];
            && Body(value) == Filled(budget - 1, p) + Token(c)
            && TextWidth(Literal(value), wide) == budget + 1 + |Token(c)|
  {
    var value := Filled(budget - 1, p) + [c];
    FilledBody(budget - 1, p);
    BodyOfConcat(Filled(budget - 1, p), [c], value);
    assert forall i | 0 <= i < |Literal(value)| :: !wide(Literal(value)[i]);
    NarrowWidth(Literal(value), wide);
  }

  lemma {:induction false} LongEscapeIsCut(c: char, p: char, indent: string, width: int, wide: char -> bool)
    requires LongEscaped(c) && PlainLetter(p, wide) && Indentation(indent) && NarrowAscii(wide)
    ensures !Survives(Filled(Budget(indent, width) - 1, p) + [c], indent, width, wide)
  {
    var budget := Budget(indent, width);
    var value, rest := Filled(budget - 1, p) + [c], Filled(budget - 1, p) + Token(c);
    LongTokenShape(c);
    FilledLiteral(c, p, budget, wide);
    WidthCounts(Literal(value), wide);
    WrappedReadsAs(value, indent, width, wide);
    EscapeInLastColumn(Token(c), p, budget, wide);
    FilledThenStub(budget - 1, p);
  }

  predicate Over(value: string, alphabet: set<char>) {
    forall i | 0 <= i < |value| :: value[i] in alphabet
  }

  ghost predicate SafeAlphabet(alphabet: set<char>, indent: string, width: int, wide: char -> bool) {
    forall value: string :: Over(value, alphabet) ==> Survives(value, indent, width, wide)
  }

  /**
   The wrapper keeps every text over an alphabet exactly when the alphabet has no `\u00xx` control character
   and the line has room for two quotes.
   */
  lemma {:induction false} SafeExactly(alphabet: set<char>, p: char, indent: string, width: int, wide: char -> bool)
    requires p in alphabet && PlainLetter(p, wide) && Indentation(indent) && NarrowAscii(wide)
    ensures SafeAlphabet(alphabet, indent, width, wide)
            <==> (forall c | c in alphabet :: !LongEscaped(c)) && |indent| + 2 <= width
  {
    WrappedReadsAs([], indent, width, wide);
    EmptyLiteralWidth(wide);
    WidthCounts(Literal([]), wide);
    assert Over([], alphabet);
    if c :| c in alphabet && LongEscaped(c) {
      LongEscapeIsCut(c, p, indent, width, wide);
      assert Over(Filled(Budget(indent, width) - 1, p) + [c], alphabet);
    } else if |indent| + 2 <= width {
      forall value: string | Over(value, alphabet) ensures Survives(value, indent, width, wide) {
        ShortTextsSurvive(value, indent, width, wide);
      }
    }
  }

  // ----- exactly when every line stays within the width

  /** One line that fits, or lines that each fit with indent and quotes. */
  predicate FitsWidth(value: string, indent: string, width: int, wide: char -> bool) {
    var chunks := Chunks(Body(value), Budget(indent, width), wide);
    OneLine(value, indent, width, wide)
    || forall i | 0 <= i < |chunks| :: |indent| + |chunks[i]| + |WideAt(chunks[i], wide)| + 2 <= width
  }

  lemma {:induction false} UnescapedChunksFit(rest: string, budget: int, wide: char -> bool)
    requires '\\' !in rest && budget >= 20
    ensures forall i | 0 <= i < |Chunks(rest, budget, wide)| :: TextWidth(Chunks(rest, budget, wide)[i], wide) <= budget
    decreases |rest|
  {
    if rest != [] {
      ScanFits(rest, 0, 0, budget, wide);
      UnescapedChunksFit(rest[Cut(rest, budget, wide)..], budget, wide);
    }
  }

  lemma {:induction false} CountedChunks(chunks: seq<string>, wide: char -> bool)
    ensures forall i | 0 <= i < |chunks| :: TextWidth(chunks[i], wide) == |chunks[i]| + |WideAt(chunks[i], wide)|
  {
    forall i | 0 <= i < |chunks| ensures TextWidth(chunks[i], wide) == |chunks[i]| + |WideAt(chunks[i], wide)| {
      WidthCounts(chunks[i], wide);
    }
  }

  lemma {:induction false} UnescapedBody(value: string)
    requires forall i | 0 <= i < |value| :: !Escaped(value[i])
    ensures '\\' !in Body(value)
  {
    if value != [] {
      UnescapedBody(value[1..]);
    }
  }

  lemma {:induction false} EscapedShape(c: char)
    requires Escaped(c)
    ensures var t := Token(c);
            |t| >= 2 && t[0] == '\\' && Body([c]) == t && forall i | 0 <= i < |t| :: t[i] < '\U{80}'
  {
    if LongEscaped(c) {
      LongTokenShape(c);
    } else {
      TokenShape(c);
    }
  }

  lemma {:induction false} FirstChunk(rest: string, budget: int, wide: char -> bool)
    requires rest != []
    ensures Chunks(rest, budget, wide) != [] && Chunks(rest, budget, wide)[0] == rest[..Cut(rest, budget, wide)]
  {
  }

  /** Completing an escape costs one column: a line full up to its last column overruns by one. */
  lemma {:induction false} EscapeOverruns(c: char, p: char, indent: string, width: int, wide: char -> bool)
    requires Escaped(c) && PlainLetter(p, wide) && NarrowAscii(wide) && width - |indent| - 2 >= 20
    ensures !FitsWidth(Filled(Budget(indent, width) - 1, p) + [c], indent, width, wide)
  {
    var budget := Budget(indent, width);
    var rest := Filled(budget - 1, p) + Token(c);
    EscapedShape(c);
    FilledLiteral(c, p, budget, wide);
    EscapeInLastColumn(Token(c), p, budget, wide);
    WidthCounts(Literal(Filled(budget - 1, p) + [c]), wide);
    NoneWide(Filled(budget - 1, p) + Token(c)[..2], wide);
    FirstChunk(rest, budget, wide);
  }

  /** With less room than 20 columns the budget is 20 all the same, and a plain text overruns. */
  lemma {:induction false} NarrowPageOverruns(n: nat, p: char, indent: string, width: int, wide: char -> bool)
    requires PlainLetter(p, wide) && NarrowAscii(wide) && width - |indent| - 2 < 20 < n
    ensures !FitsWidth(Filled(n, p), indent, width, wide)
  {
    var rest, budget := Filled(n, p), Budget(indent, width);
    FilledBody(n, p);
    NarrowWidth(Literal(rest), wide);
    ScanReaches(rest, 0, budget, wide);
    assert rest[budget - 1] == p && Backslashes(rest, budget) == 0;
    NoneWide(rest[..budget], wide);
    NoneWide(Literal(rest), wide);
    FirstChunk(rest, budget, wide);
  }

  ghost predicate FittingAlphabet(alphabet: set<char>, indent: string, width: int, wide: char -> bool) {
    forall value: string :: Over(value, alphabet) ==> FitsWidth(value, indent, width, wide)
  }

  /**
   Every text over an alphabet stays within the requested width exactly when the alphabet needs no escape and the line
   has room for 20 columns.
   */
  lemma {:induction false} FitsExactly(alphabet: set<char>, p: char, indent: string, width: int, wide: char -> bool)
    requires p in alphabet && PlainLetter(p, wide) && NarrowAscii(wide)
    ensures FittingAlphabet(alphabet, indent, width, wide)
            <==> (forall c | c in alphabet :: !Escaped(c)) && width - |indent| - 2 >= 20
  {
    if width - |indent| - 2 < 20 {
      NarrowPageOverruns(21, p, indent, width, wide);
      assert Over(Filled(21, p), alphabet);
    } else if c :| c in alphabet && Escaped(c) {
      EscapeOverruns(c, p, indent, width, wide);
      assert Over(Filled(Budget(indent, width) - 1, p) + [c], alphabet);
    } else {
      forall value: string | Over(value, alphabet) ensures FitsWidth(value, indent, width, wide) {
        UnescapedBody(value);
        UnescapedChunksFit(Body(value), Budget(indent, width), wide);
        CountedChunks(Chunks(Body(value), Budget(indent, width), wide), wide);
      }
    }
  }
}
