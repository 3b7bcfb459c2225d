/**
 The few operations of Python's `str` that the guarded code leans on: decimal printing and reading,
 `strip`, `split` on one character, `join`, and `lower`.  Digits, blanks and letters are the ASCII ones.
 */
module Texts {

  predicate IsDigit(c: char) {
    '0' <= c <= '9'
  }

  /** `str.isdigit()`. */
  predicate IsDigits(s: string) {
    s != [] && forall i | 0 <= i < |s| :: IsDigit(s[i])
  }

  function DigitOf(c: char): nat
    requires IsDigit(c)
  {
    c as int - '0' as int
  }

  function DigitChar(d: nat): (c: char)
    requires d < 10
    ensures IsDigit(c) && DigitOf(c) == d
  {
    ('0' as int + d) as char
  }

  /** `str(n)` for a natural number. */
  function Decimal(n: nat): string {
    if n < 10 then [DigitChar(n)] else Decimal(n / 10) + [DigitChar(n % 10)]
  }

  /** `str(n)` for any integer. */
  function Str(n: int): string {
    if n < 0 then "-" + Decimal(-n) else Decimal(n)
  }

  /** `int(s)` for a run of digits. */
  function NatValue(s: string): nat
    requires forall i | 0 <= i < |s| :: IsDigit(s[i])
  {
    if s == [] then 0 else 10 * NatValue(s[..|s| - 1]) + DigitOf(s[|s| - 1])
  }

  lemma {:induction false} DecimalReadsBack(n: nat)
    ensures IsDigits(Decimal(n)) && NatValue(Decimal(n)) == n
  {
    if n >= 10 {
      DecimalReadsBack(n / 10);
      var s := Decimal(n);
      assert s[..|s| - 1] == Decimal(n / 10);
    }
  }

  predicate IsBlank(c: char) {
    c == ' ' || '\t' <= c <= '\r' || '\U{1C}' <= c <= '\U{1F}'
  }

  /** The ASCII blanks: space, tab, the line and page breaks, and the four separators. */
  lemma {:induction false} BlankTable(c: char)
    ensures IsBlank(c) <==> c in " \t\n\U{0B}\U{0C}\r\U{1C}\U{1D}\U{1E}\U{1F}"
  {
  }

  /** `s.lstrip(chars)`, for the characters of a kind. */
  function StripLeft(s: string, kind: char -> bool): string {
    if s != [] && kind(s[0]) then StripLeft(s[1..], kind) else s
  }

  /** `s.rstrip(chars)`. */
  function StripRight(s: string, kind: char -> bool): string {
    if s != [] && kind(s[|s| - 1]) then StripRight(s[..|s| - 1], kind) else s
  }

  /** `s.strip(chars)`. */
  function StripBoth(s: string, kind: char -> bool): string {
    StripRight(StripLeft(s, kind), kind)
  }

  /** `s.strip()`. */
  function Strip(s: string): string {
    StripBoth(s, IsBlank)
  }

  /** `part` is what is left of `whole` without its outer characters of a kind. */
  ghost predicate Trims(whole: string, part: string, kind: char -> bool) {
    && (exists i, j :: 0 <= i <= j <= |whole| && whole[i..j] == part
                       && forall k | 0 <= k < |whole| && !(i <= k < j) :: kind(whole[k]))
    && (part != [] ==> !kind(part[0]) && !kind(part[|part| - 1]))
  }

  lemma {:induction false} LeftTrim(s: string, kind: char -> bool) returns (i: nat)
    ensures i <= |s| && s[i..] == StripLeft(s, kind) && forall k | 0 <= k < i :: kind(s[k])
    ensures i < |s| ==> !kind(s[i])
  {
    if s != [] && kind(s[0]) {
      var rest := LeftTrim(s[1..], kind);
      i := rest + 1;
      assert forall k | 0 < k < |s| :: s[k] == s[1..][k - 1];
    } else {
      i := 0;
    }
  }

  lemma {:induction false} RightTrim(s: string, kind: char -> bool)
    ensures var t := StripRight(s, kind);
            && |t| <= |s| && s[..|t|] == t && (forall k | |t| <= k < |s| :: kind(s[k]))
            && (t != [] ==> !kind(t[|t| - 1]))
  {
    if s != [] && kind(s[|s| - 1]) {
      var front := s[..|s| - 1];
      RightTrim(front, kind);
      assert s[..|StripRight(front, kind)|] == front[..|StripRight(front, kind)|];
    }
  }

  lemma {:induction false} StripTrims(s: string, kind: char -> bool)
    ensures Trims(s, StripBoth(s, kind), kind)
  {
    var left, part := StripLeft(s, kind), StripBoth(s, kind);
    var i := LeftTrim(s, kind);
    RightTrim(left, kind);
    assert s[i..i + |part|] == left[..|part|];
    forall k | 0 <= k < |s| && !(i <= k < i + |part|) ensures kind(s[k]) {
      assert k >= i ==> s[k] == left[k - i];
    }
  }

  /** What is left lies inside every part that holds all other characters. */
  lemma {:induction false} TrimsInside(whole: string, i: nat, j: nat, m: nat, n: nat, kind: char -> bool)
    requires i < j <= |whole| && m <= n <= |whole| && !kind(whole[i]) && !kind(whole[j - 1])
    requires forall k | 0 <= k < |whole| && !(m <= k < n) :: kind(whole[k])
    ensures m <= i && j <= n
  {
  }

  lemma {:induction false} TrimsOnce(whole: string, a: string, b: string, kind: char -> bool)
    requires Trims(whole, a, kind) && Trims(whole, b, kind)
    ensures a == b
  {
    var i, j := TrimBounds(whole, a, kind);
    var m, n := TrimBounds(whole, b, kind);
    TrimInTrim(whole, a, b, i, j, m, n, kind);
    TrimInTrim(whole, b, a, m, n, i, j, kind);
    assert i == j <==> a == [];
    assert m == n <==> b == [];
  }

  lemma {:induction false} TrimBounds(whole: string, part: string, kind: char -> bool) returns (i: nat, j: nat)
    requires Trims(whole, part, kind)
    ensures i <= j <= |whole| && whole[i..j] == part && forall k | 0 <= k < |whole| && !(i <= k < j) :: kind(whole[k])
    ensures part != [] ==> !kind(part[0]) && !kind(part[|part| - 1])
  {
    i, j :| 0 <= i <= j <= |whole| && whole[i..j] == part && forall k | 0 <= k < |whole| && !(i <= k < j) :: kind(whole[k]);
  }

  lemma {:induction false} TrimInTrim(whole: string, a: string, b: string, i: nat, j: nat, m: nat, n: nat, kind: char -> bool)
    requires i <= j <= |whole| && m <= n <= |whole| && whole[i..j] == a && whole[m..n] == b
    requires forall k | 0 <= k < |whole| && !(m <= k < n) :: kind(whole[k])
    requires a != [] ==> !kind(a[0]) && !kind(a[|a| - 1])
    ensures a != [] ==> m <= i && j <= n
  {
    if a != [] {
      assert whole[i] == a[0] && whole[j - 1] == a[|a| - 1];
      TrimsInside(whole, i, j, m, n, kind);
    }
  }

  lemma {:induction false} StripKeeps(s: string)
    requires s != [] ==> !IsBlank(s[0]) && !IsBlank(s[|s| - 1])
    ensures Strip(s) == s
  {
  }

  /** `s.split(sep)` for a one-character separator. */
  function Split(s: string, sep: char): (parts: seq<string>)
    ensures parts != []
  {
    if s == [] then [[]]
    else
      var rest := Split(s[1..], sep);
      if s[0] == sep then [[]] + rest else [[s[0]] + rest[0]] + rest[1..]
  }

  /** `sep.join(parts)`. */
  function Join(parts: seq<string>, sep: char): string {
    if parts == [] then []
    else if |parts| == 1 then parts[0]
    else parts[0] + [sep] + Join(parts[1..], sep)
  }

  lemma {:induction false} SplitOne(s: string, sep: char)
    requires sep !in s
    ensures Split(s, sep) == [s]
  {
    if s != [] {
      SplitOne(s[1..], sep);
      assert [s[0]] + s[1..] == s;
    }
  }

  lemma {:induction false} SplitFirst(head: string, tail: string, sep: char)
    requires sep !in head
    ensures Split(head + [sep] + tail, sep) == [head] + Split(tail, sep)
  {
    var s := head + [sep] + tail;
    if head == [] {
      assert s[1..] == tail;
    } else {
      SplitFirst(head[1..], tail, sep);
      assert s[1..] == head[1..] + [sep] + tail;
      assert [head[0]] + head[1..] == head;
    }
  }

  lemma {:induction false} SplitUndoesJoin(parts: seq<string>, sep: char)
    requires parts != []
    requires forall i | 0 <= i < |parts| :: sep !in parts[i]
    ensures Split(Join(parts, sep), sep) == parts
  {
    if |parts| == 1 {
      SplitOne(parts[0], sep);
    } else {
      SplitUndoesJoin(parts[1..], sep);
      SplitFirst(parts[0], Join(parts[1..], sep), sep);
    }
  }

  function LowerChar(c: char): char {
    if 'A' <= c <= 'Z' then (c as int + 32) as char else c
  }

  /** `s.lower()`. */
  function Lower(s: string): (t: string)
    ensures |t| == |s| && forall i | 0 <= i < |s| :: t[i] == LowerChar(s[i])
  {
    seq(|s|, i requires 0 <= i < |s| => LowerChar(s[i]))
  }

  /** Letter by letter the small or the capital one. */
  predicate AnyCase(s: string, small: string, capital: string) {
    |s| == |small| == |capital| && forall i | 0 <= i < |s| :: s[i] == small[i] || s[i] == capital[i]
  }

  lemma {:induction false} LowerMeans(s: string, small: string, capital: string)
    requires |small| == |capital|
    requires forall i | 0 <= i < |small| :: 'a' <= small[i] <= 'z' && capital[i] as int == small[i] as int - 32
    ensures Lower(s) == small <==> AnyCase(s, small, capital)
  {
    if Lower(s) == small {
      forall i | 0 <= i < |s| ensures s[i] == small[i] || s[i] == capital[i] {
        assert LowerChar(s[i]) == small[i];
      }
    }
    if AnyCase(s, small, capital) {
      assert Lower(s) == small;
    }
  }

  predicate OccursAt(s: string, part: string, i: int) {
    0 <= i <= |s| - |part| && s[i..i + |part|] == part
  }

  /** `part in s`. */
  predicate Contains(s: string, part: string) {
    exists i | 0 <= i <= |s| :: OccursAt(s, part, i)
  }

  lemma {:induction false} ContainsMeans(s: string, part: string)
    ensures Contains(s, part) <==> exists front, back :: s == front + part + back
  {
    if i :| 0 <= i <= |s| && OccursAt(s, part, i) {
      assert s == s[..i] + part + s[i + |part|..];
    }
    if front, back :| s == front + part + back {
      assert s[|front|..|front| + |part|] == part;
      assert OccursAt(s, part, |front|);
    }
  }
}
