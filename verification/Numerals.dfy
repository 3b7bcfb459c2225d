/**
 Numbers as the collector reads them: the numeric pattern, what each literal is worth, and the reading of any text.
 A literal is worth an exact real; from the overflow bound on it is an infinity, as a float would be.
 */
module Numerals {
  import opened Wrappers
  import opened Texts
  import opened Verdict

  // ----- numeric literals

  datatype Exponent = Exponent(marker: char, sign: Option<char>, digits: string)

  datatype Literal =
    | Numeral(negative: bool, whole: string, dot: bool, fraction: string, exponent: Option<Exponent>)
    | Special(negative: bool, letters: string)

  predicate Digits(s: string) {
    forall i | 0 <= i < |s| :: IsDigit(s[i])
  }

  predicate ExponentOk(e: Option<Exponent>) {
    e.Some? ==>
      && (e.value.marker == 'e' || e.value.marker == 'E')
      && (e.value.sign.Some? ==> e.value.sign.value == '+' || e.value.sign.value == '-')
      && IsDigits(e.value.digits)
  }

  /** The grammar of the numeric pattern: digits with an optional fraction, or a bare fraction; or nan, inf. */
  predicate WellFormed(l: Literal) {
    match l
    case Special(_, letters) => Lower(letters) == "nan" || Lower(letters) == "inf"
    case Numeral(_, whole, dot, fraction, exponent) =>
      && Digits(whole) && Digits(fraction)
      && (if dot then whole != [] || fraction != [] else whole != [] && fraction == [])
      && ExponentOk(exponent)
  }

  function RenderExponent(e: Option<Exponent>): string {
    if e.None? then []
    else [e.value.marker] + (if e.value.sign.Some? then [e.value.sign.value] else []) + e.value.digits
  }

  function RenderBody(l: Literal): string {
    match l
    case Special(_, letters) => letters
    case Numeral(_, whole, dot, fraction, exponent) =>
      whole + (if dot then "." else "") + fraction + RenderExponent(exponent)
  }

  function Render(l: Literal): string {
    (if l.negative then "-" else "") + RenderBody(l)
  }

  function DigitRun(s: string): (n: nat)
    ensures n <= |s|
  {
    if s == [] || !IsDigit(s[0]) then 0 else 1 + DigitRun(s[1..])
  }

  /** The run takes digits only and stops at the first other character. */
  lemma {:induction false} DigitRunMeans(s: string)
    ensures var n := DigitRun(s); Digits(s[..n]) && (n < |s| ==> !IsDigit(s[n]))
  {
    if s != [] && IsDigit(s[0]) {
      DigitRunMeans(s[1..]);
      var n := DigitRun(s);
      assert s[..n] == [s[0]] + s[1..][..n - 1];
    }
  }

  /** The optional exponent that must use up the whole text: `Some(None)` when there is none. */
  function ReadExponent(s: string): Option<Option<Exponent>> {
    if s == [] then Some(None)
    else if s[0] != 'e' && s[0] != 'E' then None
    else
      var signed := |s| > 1 && (s[1] == '+' || s[1] == '-');
      var digits := if signed then s[2..] else s[1..];
      if IsDigits(digits) then Some(Some(Exponent(s[0], if signed then Some(s[1]) else None, digits))) else None
  }

  function ReadNumeral(s: string, negative: bool): Option<Literal> {
    var n := DigitRun(s);
    var dot := n < |s| && s[n] == '.';
    var after := if dot then s[n + 1..] else s[n..];
    var m := if dot then DigitRun(after) else 0;
    if n == 0 && m == 0 then None
    else match ReadExponent(after[m..])
      case None => None
      case Some(exponent) => Some(Numeral(negative, s[..n], dot, after[..m], exponent))
  }

  function ReadLiteral(text: string): Option<Literal> {
    var negative := text != [] && text[0] == '-';
    var body := if negative then text[1..] else text;
    if Lower(body) == "nan" || Lower(body) == "inf" then Some(Special(negative, body))
    else ReadNumeral(body, negative)
  }

  /** Whatever the recognizer accepts is a well-formed literal that spells the text. */
  lemma {:induction false} ReadIsSound(text: string)
    ensures var l := ReadLiteral(text); l.Some? ==> WellFormed(l.value) && Render(l.value) == text
  {
    var negative := text != [] && text[0] == '-';
    var body := if negative then text[1..] else text;
    assert text == (if negative then "-" else "") + body;
    if Lower(body) != "nan" && Lower(body) != "inf" {
      NumeralIsSound(body, negative);
    }
  }

  lemma {:induction false} NumeralIsSound(s: string, negative: bool)
    ensures var l := ReadNumeral(s, negative);
            l.Some? ==> WellFormed(l.value) && l.value.negative == negative && RenderBody(l.value) == s
  {
    var n := DigitRun(s);
    var dot := n < |s| && s[n] == '.';
    var after := if dot then s[n + 1..] else s[n..];
    var m := if dot then DigitRun(after) else 0;
    DigitRunMeans(s);
    DigitRunMeans(after);
    assert m == 0 ==> after[..m] == [];
    var e := ReadExponent(after[m..]);
    if (n != 0 || m != 0) && e.Some? {
      ExponentIsSound(after[m..]);
      Assembled(Numeral(negative, s[..n], dot, after[..m], e.value), s, n, m);
    }
  }

  lemma {:induction false} Assembled(l: Literal, s: string, n: nat, m: nat)
    requires l.Numeral? && n <= |s| && l.whole == s[..n] && (l.dot ==> n < |s| && s[n] == '.')
    requires var after := if l.dot then s[n + 1..] else s[n..];
             m <= |after| && l.fraction == after[..m] && RenderExponent(l.exponent) == after[m..]
    ensures RenderBody(l) == s
  {
    var dot, after := if l.dot then "." else "", if l.dot then s[n + 1..] else s[n..];
    PartsJoin(l.whole, dot, l.fraction, RenderExponent(l.exponent));
    Halves(after, m);
    SplitAround(s, n, l.dot);
  }

  lemma {:induction false} Halves(s: string, m: nat)
    requires m <= |s|
    ensures s[..m] + s[m..] == s
  {
  }

  lemma {:induction false} SplitAround(s: string, n: nat, dot: bool)
    requires n <= |s| && (dot ==> n < |s| && s[n] == '.')
    ensures s[..n] + (if dot then "." else "") + (if dot then s[n + 1..] else s[n..]) == s
  {
  }

  lemma {:induction false} PartsJoin(whole: string, dot: string, fraction: string, tail: string)
    ensures whole + dot + fraction + tail == whole + dot + (fraction + tail)
    ensures whole + dot + fraction + tail == whole + (dot + fraction + tail)
  {
  }

  lemma {:induction false} ExponentIsSound(s: string)
    ensures var e := ReadExponent(s); e.Some? ==> ExponentOk(e.value) && RenderExponent(e.value) == s
  {
    var signed := |s| > 1 && (s[1] == '+' || s[1] == '-');
    if s != [] && signed {
      assert s == [s[0]] + [s[1]] + s[2..];
    }
  }

  /** Every well-formed literal is accepted, and read as itself. */
  lemma {:induction false} ReadIsComplete(l: Literal)
    requires WellFormed(l)
    ensures ReadLiteral(Render(l)) == Some(l)
  {
    var text, body := Render(l), RenderBody(l);
    LeadingChar(l);
    if l.negative {
      assert text == "-" + body && text[1..] == body;
    } else {
      assert text == "" + body == body;
    }
    if l.Numeral? {
      NumeralIsComplete(l);
    }
  }

  /** A numeral starts with a digit or a point, so it is neither signed nor spelled like a special value. */
  lemma {:induction false} LeadingChar(l: Literal)
    requires WellFormed(l)
    ensures var body := RenderBody(l);
            && body != [] && body[0] != '-'
            && (l.Numeral? <==> Lower(body) != "nan" && Lower(body) != "inf")
            && (l.Numeral? ==> LowerChar(body[0]) == body[0] && body[0] != 'n')
  {
    var body := RenderBody(l);
    if l.Special? {
      assert Lower(body)[0] == LowerChar(body[0]);
    } else {
      if l.whole != [] {
        assert body[0] == l.whole[0];
      } else {
        assert body[0] == '.';
      }
      assert Lower(body)[0] == body[0];
    }
  }

  lemma {:induction false} NumeralIsComplete(l: Literal)
    requires WellFormed(l) && l.Numeral?
    ensures ReadNumeral(RenderBody(l), l.negative) == Some(l)
  {
    TailStart(l.exponent);
    ExponentIsComplete(l.exponent);
    RenderedParts(l, RenderExponent(l.exponent));
    if l.dot {
      DottedReads(l.whole, l.fraction, RenderExponent(l.exponent), l.negative, l.exponent);
    } else {
      UndottedReads(l.whole, RenderExponent(l.exponent), l.negative, l.exponent);
    }
  }

  lemma {:induction false} RenderedParts(l: Literal, tail: string)
    requires WellFormed(l) && l.Numeral? && tail == RenderExponent(l.exponent)
    ensures l.dot ==> RenderBody(l) == l.whole + ("." + (l.fraction + tail))
    ensures !l.dot ==> RenderBody(l) == l.whole + tail
  {
    if l.dot {
      assert RenderBody(l) == l.whole + "." + l.fraction + tail;
      PartsJoin(l.whole, ".", l.fraction, tail);
    } else {
      assert RenderBody(l) == l.whole + "" + l.fraction + tail;
      assert l.whole + "" == l.whole && l.whole + l.fraction == l.whole;
    }
  }

  lemma {:induction false} DottedReads(whole: string, fraction: string, tail: string, negative: bool, e: Option<Exponent>)
    requires Digits(whole) && Digits(fraction) && (whole != [] || fraction != [])
    requires (tail != [] ==> !IsDigit(tail[0])) && ReadExponent(tail) == Some(e)
    ensures ReadNumeral(whole + ("." + (fraction + tail)), negative) == Some(Numeral(negative, whole, true, fraction, e))
  {
    var after, rest := fraction + tail, "." + (fraction + tail);
    var s := whole + rest;
    RunOf(whole, rest);
    RunOf(fraction, tail);
    assert s[|whole|] == rest[0] == '.';
    assert s[|whole| + 1..] == after;
    assert after[|fraction|..] == tail;
  }

  lemma {:induction false} UndottedReads(whole: string, tail: string, negative: bool, e: Option<Exponent>)
    requires Digits(whole) && whole != []
    requires (tail != [] ==> !IsDigit(tail[0]) && tail[0] != '.') && ReadExponent(tail) == Some(e)
    ensures ReadNumeral(whole + tail, negative) == Some(Numeral(negative, whole, false, "", e))
  {
    RunOf(whole, tail);
    assert (whole + tail)[|whole|..] == tail && tail[0..] == tail && tail[..0] == "";
  }

  lemma {:induction false} TailStart(e: Option<Exponent>)
    requires ExponentOk(e)
    ensures var tail := RenderExponent(e); tail != [] ==> !IsDigit(tail[0]) && tail[0] != '.'
  {
  }

  lemma {:induction false} RunOf(digits: string, tail: string)
    requires Digits(digits) && (tail != [] ==> !IsDigit(tail[0]))
    ensures DigitRun(digits + tail) == |digits| && (digits + tail)[..|digits|] == digits
  {
    if digits == [] {
      assert digits + tail == tail;
    } else {
      RunOf(digits[1..], tail);
      assert (digits + tail)[1..] == digits[1..] + tail;
    }
  }

  lemma {:induction false} ExponentIsComplete(e: Option<Exponent>)
    requires ExponentOk(e)
    ensures ReadExponent(RenderExponent(e)) == Some(e)
  {
    if e.Some? {
      var s := RenderExponent(e);
      if e.value.sign.Some? {
        assert s[2..] == e.value.digits;
      } else {
        assert s[1..] == e.value.digits && s[1] == e.value.digits[0];
      }
    }
  }

  // ----- their values

  /** `x * 10^n`. */
  function TimesTen(x: real, n: nat): real {
    if n == 0 then x else 10.0 * TimesTen(x, n - 1)
  }

  /** `x / 10^n`. */
  function OverTen(x: real, n: nat): real {
    if n == 0 then x else OverTen(x, n - 1) / 10.0
  }

  function Square(x: real): real {
    x * x
  }

  function PowerOfTwo(n: nat): real {
    if n == 0 then 1.0 else if n % 2 == 0 then Square(PowerOfTwo(n / 2)) else 2.0 * PowerOfTwo(n - 1)
  }

  const EXPONENT_END: nat := 1024
  const HALF_PLACE: nat := 970

  /** From here on a decimal literal rounds to infinity. */
  function Overflow(): real {
    PowerOfTwo(EXPONENT_END) - PowerOfTwo(HALF_PLACE)
  }

  /** The powers of two, whichever way they are computed. */
  lemma {:induction false} PowerOfTwoDoubles(n: nat)
    ensures PowerOfTwo(0) == 1.0 && PowerOfTwo(n + 1) == 2.0 * PowerOfTwo(n)
  {
    if n % 2 == 1 {
      PowerOfTwoDoubles((n - 1) / 2);
      assert PowerOfTwo(n) == 2.0 * PowerOfTwo(n - 1);
      assert (n + 1) / 2 == (n - 1) / 2 + 1;
      SquareOfDouble(PowerOfTwo((n - 1) / 2));
    }
  }

  lemma {:induction false} SquareOfDouble(x: real)
    ensures Square(2.0 * x) == 2.0 * (2.0 * Square(x))
  {
  }

  /** `x * 2^n`. */
  function TimesTwo(x: real, n: nat): real {
    if n == 0 then x else 2.0 * TimesTwo(x, n - 1)
  }

  lemma {:induction false} PowersShift(x: real, a: nat, n: nat)
    requires x == PowerOfTwo(a)
    ensures TimesTwo(x, n) == PowerOfTwo(a + n) && TimesTwo(x - 1.0, n) == PowerOfTwo(a + n) - PowerOfTwo(n)
  {
    PowerOfTwoDoubles(0);
    if n > 0 {
      PowersShift(x, a, n - 1);
      PowerOfTwoDoubles(n - 1);
      PowerOfTwoDoubles(a + n - 1);
      assert a + n - 1 + 1 == a + n && n - 1 + 1 == n;
    }
  }

  lemma {:induction false} HalfAPlaceMore(ones: real, digits: nat, place: nat, top: nat, half: nat)
    requires top == digits + place && half + 1 == place && ones == PowerOfTwo(digits) - 1.0
    ensures PowerOfTwo(top) - PowerOfTwo(half) == TimesTwo(ones, place) + PowerOfTwo(place) / 2.0
  {
    PowersShift(PowerOfTwo(digits), digits, place);
    PowerOfTwoDoubles(half);
  }

  /** The overflow bound is the largest double, 53 ones in the highest place, and half a unit of that place more. */
  lemma {:induction false} OverflowIsPastTheLargest(ones: real, digits: nat, place: nat)
    requires digits == 53 && place == 971 && ones == PowerOfTwo(digits) - 1.0
    ensures Overflow() == TimesTwo(ones, place) + PowerOfTwo(place) / 2.0
  {
    HalfAPlaceMore(ones, digits, place, EXPONENT_END, HALF_PLACE);
  }

  function ExponentValue(e: Option<Exponent>): int
    requires ExponentOk(e)
  {
    if e.None? then 0
    else
      var n: int := NatValue(e.value.digits);
      if e.value.sign == Some('-') then -n else n
  }

  function Scale(l: Literal): int
    requires l.Numeral? && WellFormed(l)
  {
    ExponentValue(l.exponent) - |l.fraction|
  }

  function Magnitude(l: Literal): real
    requires l.Numeral? && WellFormed(l)
  {
    var digits := NatValue(l.whole + l.fraction) as real;
    if Scale(l) >= 0 then TimesTen(digits, Scale(l)) else OverTen(digits, -Scale(l))
  }

  /** `float(text)` of a literal. */
  function FloatOf(l: Literal): (r: Reading)
    requires WellFormed(l)
    ensures !r.Missing?
  {
    if l.Special? then
      if Lower(l.letters) == "nan" then NaN else if l.negative then NegInf else PosInf
    else if Magnitude(l) >= Overflow() then if l.negative then NegInf else PosInf
    else Finite(if l.negative then -Magnitude(l) else Magnitude(l))
  }

  // ----- _parse_numeric

  predicate IsQuote(c: char) {
    c == '\'' || c == '"'
  }

  /** The end anchor of the numeric pattern also matches just before one final newline. */
  function BeforeFinalNewline(s: string): string {
    if s != [] && s[|s| - 1] == '\n' then s[..|s| - 1] else s
  }

  /** `raw` is `str(value)` of the JSON value, or nothing when the key is absent or null. */
  function ParseNumeric(raw: Option<string>): (r: Option<Reading>)
    ensures r.Some? ==> !r.value.Missing?
  {
    if raw.None? then None
    else
      var text := StripBoth(Strip(raw.value), IsQuote);
      if text == "" || Lower(text) in {"null", "none", "nil"} then None
      else
        var l := ReadLiteral(BeforeFinalNewline(text));
        if l.None? then None
        else
          ReadIsSound(BeforeFinalNewline(text));
          Some(FloatOf(l.value))
  }

  /** What is left of a text without outer blanks, then quotes, then one final newline. */
  function Bare(raw: string): string {
    BeforeFinalNewline(StripBoth(Strip(raw), IsQuote))
  }

  /** A text is worth the float of the literal its bare part spells, and nothing when it spells none. */
  lemma {:induction false} ParseNumericExactly(raw: string)
    ensures match ParseNumeric(Some(raw))
            case Some(r) => exists l :: WellFormed(l) && Render(l) == Bare(raw) && FloatOf(l) == r
            case None => forall l | WellFormed(l) :: Render(l) != Bare(raw)
  {
    ReadIsSound(Bare(raw));
    forall l | WellFormed(l) ensures Render(l) == Bare(raw) ==> ReadLiteral(Bare(raw)) == Some(l) {
      ReadIsComplete(l);
    }
    var l := ReadLiteral(Bare(raw));
    if l.Some? {
      LiteralIsNoNull(l.value);
      NoNullBefore(StripBoth(Strip(raw), IsQuote));
    }
  }

  /** A text that names no value only after losing its final newline is not in the list either. */
  lemma {:induction false} NoNullBefore(text: string)
    requires Lower(BeforeFinalNewline(text)) !in {"null", "none", "nil"} && BeforeFinalNewline(text) != []
    ensures text != "" && Lower(text) !in {"null", "none", "nil"}
  {
    if BeforeFinalNewline(text) != text {
      assert Lower(text)[|text| - 1] == '\n';
    }
  }

  /** The bare part is the text without its outer blanks, then without its outer quotes. */
  lemma {:induction false} BareMeans(raw: string)
    ensures Trims(raw, Strip(raw), IsBlank) && Trims(Strip(raw), StripBoth(Strip(raw), IsQuote), IsQuote)
  {
    StripTrims(raw, IsBlank);
    StripTrims(Strip(raw), IsQuote);
  }

  lemma {:induction false} LiteralIsNoNull(l: Literal)
    requires WellFormed(l)
    ensures Lower(Render(l)) !in {"null", "none", "nil"} && Render(l) != []
  {
    LeadingChar(l);
    var text := Render(l);
    assert Lower(text)[0] == LowerChar(text[0]);
    if l.negative {
      assert text[0] == '-';
    } else {
      assert text == "" + RenderBody(l) == RenderBody(l);
    }
  }

  // ----- which number a literal denotes

  function Zeros(n: nat): (s: string)
    ensures |s| == n && forall i | 0 <= i < n :: s[i] == '0'
  {
    seq(n, _ => '0')
  }

  /** Shifting is by powers of ten: a one followed by zeros. */
  lemma {:induction false} TimesTenOfOne(n: nat)
    ensures TimesTen(1.0, n) == NatValue("1" + Zeros(n)) as real
  {
    var s := "1" + Zeros(n);
    if n == 0 {
      assert s == "1" && s[..0] == [];
    } else {
      TimesTenOfOne(n - 1);
      assert s[..|s| - 1] == "1" + Zeros(n - 1);
    }
  }

  lemma {:induction false} ShiftsAdd(x: real, a: nat, b: nat)
    ensures TimesTen(TimesTen(x, a), b) == TimesTen(x, a + b)
  {
    if b > 0 {
      ShiftsAdd(x, a, b - 1);
    }
  }

  lemma {:induction false} ShiftPulls(x: real, n: nat)
    ensures TimesTen(10.0 * x, n) == 10.0 * TimesTen(x, n)
  {
    if n > 0 {
      ShiftPulls(x, n - 1);
    }
  }

  lemma {:induction false} ShiftsCancel(x: real, n: nat)
    ensures TimesTen(OverTen(x, n), n) == x
  {
    if n > 0 {
      ShiftsCancel(x, n - 1);
      ShiftPulls(OverTen(x, n), n - 1);
    }
  }

  lemma {:induction false} DigitsJoin(a: string, b: string)
    requires Digits(a) && Digits(b)
    ensures NatValue(a + b) as real == TimesTen(NatValue(a) as real, |b|) + NatValue(b) as real
  {
    if b == [] {
      assert a + b == a;
    } else {
      var front := b[..|b| - 1];
      DigitsJoin(a, front);
      assert (a + b)[..|a + b| - 1] == a + front;
    }
  }

  /** `r` is the float of the number `magnitude` with that sign. */
  predicate Rounds(r: Reading, negative: bool, magnitude: real) {
    r == if magnitude >= Overflow() then if negative then NegInf else PosInf
         else Finite(if negative then -magnitude else magnitude)
  }

  predicate ReadsAs(text: string, negative: bool, magnitude: real) {
    var r := ParseNumeric(Some(text));
    r.Some? && Rounds(r.value, negative, magnitude)
  }

  lemma {:induction false} MagnitudeScales(l: Literal, up: nat, down: nat)
    requires l.Numeral? && WellFormed(l) && up - down == Scale(l)
    ensures TimesTen(Magnitude(l), down) == TimesTen(NatValue(l.whole + l.fraction) as real, up)
  {
    var digits, k := NatValue(l.whole + l.fraction) as real, Scale(l);
    if k >= 0 {
      ShiftsAdd(digits, k, down);
    } else {
      ShiftsCancel(digits, -k);
      ShiftsAdd(Magnitude(l), -k, up);
    }
  }

  lemma {:induction false} BareLiteral(l: Literal)
    requires WellFormed(l)
    ensures ParseNumeric(Some(Render(l))) == Some(FloatOf(l))
  {
    var text := Render(l);
    OuterChars(l);
    NothingStrips(text);
    LiteralIsNoNull(l);
    ReadIsComplete(l);
  }

  lemma {:induction false} NothingStrips(text: string)
    requires text != [] && !IsBlank(text[0]) && !IsQuote(text[0])
    requires !IsBlank(text[|text| - 1]) && !IsQuote(text[|text| - 1])
    ensures StripBoth(Strip(text), IsQuote) == text && BeforeFinalNewline(text) == text
  {
    StripKeeps(text);
    assert StripBoth(text, IsQuote) == text;
  }

  /** A literal neither starts nor ends with a blank or a quote. */
  lemma {:induction false} OuterChars(l: Literal)
    requires WellFormed(l)
    ensures var text := Render(l);
            && text != [] && !IsBlank(text[0]) && !IsQuote(text[0])
            && !IsBlank(text[|text| - 1]) && !IsQuote(text[|text| - 1])
  {
    var body, text := RenderBody(l), Render(l);
    LeadingChar(l);
    assert text[|text| - 1] == body[|body| - 1];
    if l.Special? {
      assert Lower(body)[|body| - 1] == LowerChar(body[|body| - 1]) && Lower(body)[0] == LowerChar(body[0]);
    } else {
      LastChar(l);
      assert IsDigit(body[0]) || body[0] == '.' by {
        if l.whole != [] {
          assert body[0] == l.whole[0];
        } else {
          assert body[0] == '.';
        }
      }
    }
    if l.negative {
      assert text[0] == '-';
    } else {
      assert text[0] == body[0];
    }
  }

  lemma {:induction false} LastChar(l: Literal)
    requires WellFormed(l) && l.Numeral?
    ensures var body := RenderBody(l); IsDigit(body[|body| - 1]) || body[|body| - 1] == '.'
  {
    var body, tail := RenderBody(l), RenderExponent(l.exponent);
    if l.exponent.Some? {
      assert body[|body| - 1] == tail[|tail| - 1] == l.exponent.value.digits[|l.exponent.value.digits| - 1];
    } else if l.fraction != [] {
      assert body[|body| - 1] == l.fraction[|l.fraction| - 1];
    } else if l.dot {
      assert body[|body| - 1] == '.';
    } else {
      assert body[|body| - 1] == l.whole[|l.whole| - 1];
    }
  }

  function Sign(negative: bool): string {
    if negative then "-" else ""
  }

  lemma {:induction false} FlatText(sign: string, whole: string, digits: string, tail: string)
    ensures sign + (whole + "." + digits + tail) == sign + whole + "." + digits + tail
  {
  }

  lemma {:induction false} RenderedFlat(negative: bool, whole: string, digits: string, e: Option<Exponent>)
    ensures Render(Numeral(negative, whole, true, digits, e)) == Sign(negative) + whole + "." + digits + RenderExponent(e)
  {
    FlatText(Sign(negative), whole, digits, RenderExponent(e));
  }

  /** What a decimal with an exponent reads as, in terms of all its digits. */
  lemma {:induction false} ReadsAll(negative: bool, whole: string, digits: string, e: Option<Exponent>, tail: string, all: real,
                                       power: int, up: nat, down: nat)
    returns (magnitude: real)
    requires IsDigits(whole) && Digits(digits) && ExponentOk(e) && tail == RenderExponent(e) && power == ExponentValue(e)
    requires all == NatValue(whole + digits) as real
    requires up - down == power - |digits|
    ensures TimesTen(magnitude, down) == TimesTen(all, up)
    ensures ReadsAs(Sign(negative) + whole + "." + digits + tail, negative, magnitude)
  {
    var l := Numeral(negative, whole, true, digits, e);
    magnitude := Magnitude(l);
    MagnitudeScales(l, up, down);
    RenderedFlat(negative, whole, digits, e);
    BareLiteral(l);
  }

  /** The digits of `whole.digits` as a number. */
  lemma {:induction false} DigitsOf(whole: nat, digits: string)
    requires Digits(digits)
    ensures IsDigits(Decimal(whole))
    ensures NatValue(Decimal(whole) + digits) as real == TimesTen(whole as real, |digits|) + NatValue(digits) as real
  {
    DecimalReadsBack(whole);
    DigitsJoin(Decimal(whole), digits);
  }

  /** `whole.digits` reads as the whole number plus the digits over the power of ten that they take up. */
  lemma {:induction false} DecimalReads(negative: bool, whole: nat, digits: string) returns (magnitude: real)
    requires Digits(digits)
    ensures TimesTen(magnitude, |digits|) == TimesTen(whole as real, |digits|) + NatValue(digits) as real
    ensures ReadsAs(Sign(negative) + Decimal(whole) + "." + digits, negative, magnitude)
  {
    DigitsOf(whole, digits);
    NoTail(Sign(negative) + Decimal(whole) + "." + digits);
    magnitude := ReadsAll(negative, Decimal(whole), digits, None, "", NatValue(Decimal(whole) + digits) as real, 0, 0, |digits|);
  }

  lemma {:induction false} NoTail(text: string)
    ensures text + "" == text
  {
  }

  lemma {:induction false} PositiveTail(power: string) returns (e: Exponent)
    requires IsDigits(power)
    ensures ExponentOk(Some(e)) && ExponentValue(Some(e)) == NatValue(power) && RenderExponent(Some(e)) == "e" + power
  {
    e := Exponent('e', None, power);
    assert [e.marker] + [] + e.digits == "e" + power;
  }

  lemma {:induction false} NegativeTail(power: string) returns (e: Exponent)
    requires IsDigits(power)
    ensures ExponentOk(Some(e)) && ExponentValue(Some(e)) + NatValue(power) == 0 && RenderExponent(Some(e)) == "e-" + power
  {
    e := Exponent('e', Some('-'), power);
    assert [e.marker] + ['-'] + e.digits == "e-" + power;
  }

  /** A suffix `e` with a number multiplies by that power of ten. */
  lemma {:induction false} ExponentMultiplies(negative: bool, whole: nat, digits: string, power: string, tail: string, all: real)
    returns (magnitude: real)
    requires Digits(digits) && IsDigits(power) && tail == "e" + power
    requires all == TimesTen(whole as real, |digits|) + NatValue(digits) as real
    ensures TimesTen(magnitude, |digits|) == TimesTen(all, NatValue(power))
    ensures ReadsAs(Sign(negative) + Decimal(whole) + "." + digits + tail, negative, magnitude)
  {
    DigitsOf(whole, digits);
    var e := PositiveTail(power);
    magnitude := ReadsAll(negative, Decimal(whole), digits, Some(e), tail, all, NatValue(power), NatValue(power), |digits|);
  }

  /** A suffix `e-` with a number divides by that power of ten. */
  lemma {:induction false} ExponentDivides(negative: bool, whole: nat, digits: string, power: string, tail: string, all: real,
                                           places: nat)
    returns (magnitude: real)
    requires Digits(digits) && IsDigits(power) && tail == "e-" + power && places == |digits| + NatValue(power)
    requires all == TimesTen(whole as real, |digits|) + NatValue(digits) as real
    ensures TimesTen(magnitude, places) == all
    ensures ReadsAs(Sign(negative) + Decimal(whole) + "." + digits + tail, negative, magnitude)
  {
    DigitsOf(whole, digits);
    var e := NegativeTail(power);
    magnitude := ReadsAll(negative, Decimal(whole), digits, Some(e), tail, all, |digits| - places, 0, places);
  }

  /** A run of digits alone reads as its number. */
  lemma {:induction false} WholeReads(negative: bool, whole: nat)
    ensures ReadsAs(Sign(negative) + Decimal(whole), negative, whole as real)
  {
    DecimalReadsBack(whole);
    var l := Numeral(negative, Decimal(whole), false, "", None);
    NoTail(Decimal(whole));
    NoTail(Decimal(whole) + "");
    assert RenderBody(l) == Decimal(whole) + "" + "" + "";
    BareLiteral(l);
  }

  /** The special values, in any case. */
  lemma {:induction false} SpecialsRead(letters: string)
    requires Lower(letters) == "nan" || Lower(letters) == "inf"
    ensures Lower(letters) == "nan" ==>
              ParseNumeric(Some(letters)) == Some(NaN) && ParseNumeric(Some("-" + letters)) == Some(NaN)
    ensures Lower(letters) == "inf" ==>
              ParseNumeric(Some(letters)) == Some(PosInf) && ParseNumeric(Some("-" + letters)) == Some(NegInf)
  {
    var plus, minus := Special(false, letters), Special(true, letters);
    BareLiteral(plus);
    BareLiteral(minus);
    assert Render(plus) == "" + letters == letters;
  }

  predicate Padding(s: string, chars: string) {
    forall i | 0 <= i < |s| :: s[i] in chars
  }

  lemma {:induction false} StripsPadding(left: string, text: string, right: string, kind: char -> bool)
    requires text != [] && !kind(text[0]) && !kind(text[|text| - 1])
    requires (forall i | 0 <= i < |left| :: kind(left[i])) && forall i | 0 <= i < |right| :: kind(right[i])
    ensures StripBoth(left + text + right, kind) == text
    decreases |left| + |right|
  {
    var s := left + text + right;
    if left != [] {
      StripsPadding(left[1..], text, right, kind);
      assert s[1..] == left[1..] + text + right;
    } else if right != [] {
      StripsPadding(left, text, right[..|right| - 1], kind);
      assert s[..|s| - 1] == left + text + right[..|right| - 1];
      assert s[0] == text[0] && s[|s| - 1] == right[|right| - 1];
      assert StripLeft(s, kind) == s && StripLeft(s[..|s| - 1], kind) == s[..|s| - 1];
    } else {
      assert s == text;
    }
  }

  /** Blanks around a literal, then quotes of either kind, are nothing to the reading. */
  lemma {:induction false} PaddingIsIgnored(before: string, open: string, l: Literal, close: string, after: string)
    requires WellFormed(l)
    requires Padding(before, " \t\n\r") && Padding(after, " \t\n\r") && Padding(open, "'\"") && Padding(close, "'\"")
    ensures ParseNumeric(Some(before + (open + Render(l) + close) + after)) == ParseNumeric(Some(Render(l)))
  {
    var text := Render(l);
    OuterChars(l);
    QuotesStrip(before, open, text, close, after);
    SameBare(before + (open + text + close) + after, text);
  }

  /** A newline between the literal and its closing quote is nothing either: the end of the pattern lets it stand. */
  lemma {:induction false} QuotedNewlineIsIgnored(l: Literal)
    requires WellFormed(l)
    ensures ParseNumeric(Some("'" + (Render(l) + "\n") + "'")) == Some(FloatOf(l))
  {
    var text, quoted := Render(l), "'" + (Render(l) + "\n") + "'";
    OuterChars(l);
    LiteralIsNoNull(l);
    StripKeeps(quoted);
    StripsPadding("'", text + "\n", "'", IsQuote);
    assert BeforeFinalNewline(text + "\n") == text;
    NewlineIsNoNull(text);
    ReadIsComplete(l);
  }

  lemma {:induction false} NewlineIsNoNull(text: string)
    ensures text + "\n" != "" && Lower(text + "\n") !in {"null", "none", "nil"}
  {
    var s := Lower(text + "\n");
    assert s[|s| - 1] == '\n';
  }

  lemma {:induction false} QuotesStrip(before: string, open: string, text: string, close: string, after: string)
    requires text != [] && !IsBlank(text[0]) && !IsQuote(text[0])
    requires !IsBlank(text[|text| - 1]) && !IsQuote(text[|text| - 1])
    requires Padding(before, " \t\n\r") && Padding(after, " \t\n\r") && Padding(open, "'\"") && Padding(close, "'\"")
    ensures StripBoth(Strip(before + (open + text + close) + after), IsQuote) == text
    ensures StripBoth(Strip(text), IsQuote) == text
  {
    var quoted := open + text + close;
    OuterOf(open, text, close);
    StripsPadding(before, quoted, after, IsBlank);
    StripsPadding(open, text, close, IsQuote);
    NothingStrips(text);
  }

  lemma {:induction false} OuterOf(open: string, text: string, close: string)
    requires text != []
    ensures var quoted := open + text + close;
            && quoted != [] && quoted[0] == (if open != [] then open[0] else text[0])
            && quoted[|quoted| - 1] == if close != [] then close[|close| - 1] else text[|text| - 1]
  {
  }

  lemma {:induction false} SameBare(raw: string, other: string)
    requires StripBoth(Strip(raw), IsQuote) == StripBoth(Strip(other), IsQuote)
    ensures ParseNumeric(Some(raw)) == ParseNumeric(Some(other))
  {
  }
}
