/**
 The global `parseFloat` of ECMAScript, over exact real arithmetic.

 `parseFloat` skips leading whitespace and reads the longest prefix of what
 remains that forms a decimal literal: an optional sign, then either
 `Infinity` or digits with an optional fraction and an optional exponent.
 Anything after that prefix is ignored; with no such prefix the result is NaN.
 */
module JsNumbers {
  import opened Wrappers
  import opened Text

  /** A JavaScript number as the application observes it. */
  datatype JsNumber = NaN | PosInfinity | NegInfinity | Finite(value: real) {

    /** `Number.isFinite` */
    predicate IsFinite() {
      Finite?
    }
  }

  predicate IsDigit(c: char) {
    '0' <= c <= '9'
  }

  predicate AllDigits(s: string) {
    forall i :: 0 <= i < |s| ==> IsDigit(s[i])
  }

  type Digits = s: string | AllDigits(s)

  function DigitValue(c: char): (d: nat)
    requires IsDigit(c)
    ensures d < 10
  {
    (c as int) - ('0' as int)
  }

  /** The natural number a run of decimal digits denotes. */
  function DigitsValue(s: Digits): nat
    decreases |s|
  {
    if |s| == 0 then 0 else DigitsValue(s[..|s| - 1]) * 10 + DigitValue(s[|s| - 1])
  }

  function Pow10(n: nat): (p: nat)
    ensures p >= 1
  {
    if n == 0 then 1 else 10 * Pow10(n - 1)
  }

  /** The length of the longest run of digits that `s` starts with. */
  function DigitRun(s: string): (n: nat)
    ensures n <= |s|
    ensures AllDigits(s[..n])
    ensures n < |s| ==> !IsDigit(s[n])
    decreases |s|
  {
    if |s| > 0 && IsDigit(s[0]) then 1 + DigitRun(s[1..]) else 0
  }

  /** Reads one optional `+` or `-`: whether it was `-`, and the rest. */
  function StripSign(t: string): (bool, string) {
    if |t| > 0 && t[0] == '-' then (true, t[1..])
    else if |t| > 0 && t[0] == '+' then (false, t[1..])
    else (false, t)
  }

  /** The parts of a finite decimal literal: digits before and after the
      point, and a signed exponent (no exponent is the exponent 0). */
  datatype Literal = Literal(intDigits: Digits, fracDigits: Digits, expNegative: bool, expDigits: Digits)

  function LiteralValue(l: Literal): real {
    var mantissa := DigitsValue(l.intDigits) as real
                    + DigitsValue(l.fracDigits) as real / Pow10(|l.fracDigits|) as real;
    var scale := Pow10(DigitsValue(l.expDigits)) as real;
    if l.expNegative then mantissa / scale else mantissa * scale
  }

  /** The exponent part at the front of `r`, if any: `e` or `E`, an optional
      sign and at least one digit. */
  function ScanExponent(r: string): (e: (bool, Digits))
    ensures |e.1| > 0 ==> |r| > 0 && (r[0] == 'e' || r[0] == 'E')
  {
    if |r| > 0 && (r[0] == 'e' || r[0] == 'E') then
      var (negative, ds) := StripSign(r[1..]);
      var k := DigitRun(ds);
      if k == 0 then (false, "") else (negative, ds[..k])
    else (false, "")
  }

  /** The fraction part at the front of `r`, if any: a point and the digits
      after it; returns those digits and the text after them. */
  function ScanFraction(r: string): (f: (Digits, string))
    ensures |f.0| > 0 ==> |r| > 1 && r[0] == '.' && IsDigit(r[1])
  {
    if |r| > 0 && r[0] == '.' then
      var k := DigitRun(r[1..]);
      (r[1..][..k], r[1..][k..])
    else ("", r)
  }

  /** The longest prefix of `b` that is an unsigned finite decimal literal. */
  function ScanLiteral(b: string): (r: Option<Literal>)
    ensures r.None? <==> !(|b| > 0 && IsDigit(b[0])) && !(|b| > 1 && b[0] == '.' && IsDigit(b[1]))
  {
    var k := DigitRun(b);
    var (fracDigits, afterFrac) := ScanFraction(b[k..]);
    if k == 0 && |fracDigits| == 0 then None
    else
      var (expNegative, expDigits) := ScanExponent(afterFrac);
      Some(Literal(b[..k], fracDigits, expNegative, expDigits))
  }

  function Negate(n: JsNumber): JsNumber {
    match n
    case NaN => NaN
    case PosInfinity => NegInfinity
    case NegInfinity => PosInfinity
    case Finite(x) => Finite(-x)
  }

  /** Whether `t`, after one optional sign, starts the way a number does. */
  predicate StartsNumeric(t: string) {
    var b := StripSign(t).1;
    StartsWith(b, "Infinity") || (|b| > 0 && IsDigit(b[0])) || (|b| > 1 && b[0] == '.' && IsDigit(b[1]))
  }

  /** ECMAScript `parseFloat(s)`. */
  function ParseFloat(s: string): (n: JsNumber)
    ensures n.NaN? <==> !StartsNumeric(TrimStart(s))
    ensures n.PosInfinity? || n.NegInfinity? <==> StartsWith(StripSign(TrimStart(s)).1, "Infinity")
  {
    var (negative, b) := StripSign(TrimStart(s));
    if negative then Negate(ParseUnsigned(b)) else ParseUnsigned(b)
  }

  /** The number an unsigned literal at the front of `b` denotes. */
  function ParseUnsigned(b: string): JsNumber {
    if StartsWith(b, "Infinity") then PosInfinity
    else match ScanLiteral(b)
      case None => NaN
      case Some(l) => Finite(LiteralValue(l))
  }

  /** 0 for NaN and the infinities, the value itself otherwise: the
      `Number.isFinite(n) ? n : 0` idiom both pages use. */
  function FiniteOrZero(n: JsNumber): (r: real)
    ensures n.NaN? || n.PosInfinity? || n.NegInfinity? ==> r == 0.0
    ensures n.Finite? ==> r == n.value
  {
    if n.IsFinite() then n.value else 0.0
  }

  /** Once a digit run is followed by a non-digit, appending more text does
      not change where the run ends. */
  lemma {:induction false} DigitRunOfDigits(ds: Digits, rest: string)
    requires |rest| > 0 ==> !IsDigit(rest[0])
    ensures DigitRun(ds + rest) == |ds|
    decreases |ds|
  {
    if |ds| == 0 {
      assert ds + rest == rest;
    } else {
      assert (ds + rest)[1..] == ds[1..] + rest;
      DigitRunOfDigits(ds[1..], rest);
    }
  }

  /** The optional fraction of a literal: a point followed by its digits. */
  function FractionText(f: Digits): string {
    if |f| > 0 then "." + f else ""
  }

  /** The decimal text of a literal with the given sign and digits. */
  function DecimalText(negative: bool, i: Digits, f: Digits): string {
    (if negative then "-" else "") + i + FractionText(f)
  }

  /** The value `DecimalText(negative, i, f)` denotes. */
  function DecimalValue(negative: bool, i: Digits, f: Digits): real {
    (if negative then -1.0 else 1.0)
    * (DigitsValue(i) as real + DigitsValue(f) as real / Pow10(|f|) as real)
  }

  /** Text that cannot continue a literal ending in a digit. */
  predicate EndsLiteral(tail: string) {
    |tail| > 0 ==> !IsDigit(tail[0]) && tail[0] !in ".eE"
  }

  /** The scan of an unsigned literal stops exactly where the literal ends. */
  lemma {:induction false} ScanUnsignedDecimal(i: Digits, f: Digits, tail: string)
    requires |i| + |f| > 0
    requires EndsLiteral(tail)
    ensures ScanLiteral(i + FractionText(f) + tail) == Some(Literal(i, f, false, ""))
  {
    var rest := FractionText(f) + tail;
    var b := i + rest;
    assert i + FractionText(f) + tail == b;
    DigitRunOfDigits(i, rest);
    assert b[..|i|] == i;
    assert b[|i|..] == rest;
    ScanFractionOfText(f, tail);
    assert ScanExponent(tail) == (false, "");
  }

  lemma ScanFractionOfText(f: Digits, tail: string)
    requires EndsLiteral(tail)
    ensures ScanFraction(FractionText(f) + tail) == (f, tail)
  {
    if |f| > 0 {
      var r := FractionText(f) + tail;
      assert r[1..] == f + tail;
      DigitRunOfDigits(f, tail);
      assert r[1..][..|f|] == f;
      assert r[1..][|f|..] == tail;
    } else {
      assert FractionText(f) + tail == tail;
    }
  }

  /** The unsigned part of a decimal text starts with a digit or a point. */
  lemma DecimalBodyStart(i: Digits, f: Digits, tail: string)
    requires |i| + |f| > 0
    ensures var b := i + FractionText(f) + tail; |b| > 0 && (IsDigit(b[0]) || b[0] == '.')
  {
    var b := i + FractionText(f) + tail;
    if |i| > 0 { assert b[0] == i[0]; } else { assert b[0] == FractionText(f)[0]; }
  }

  /** A decimal text followed by `tail` is the sign, then the unsigned part. */
  lemma DecimalTextSplit(negative: bool, i: Digits, f: Digits, tail: string)
    ensures DecimalText(negative, i, f) + tail == (if negative then "-" else "") + (i + FractionText(f) + tail)
  {
  }

  /** No whitespace to skip before a digit or a point, and no sign to read. */
  lemma StripUnsigned(b: string)
    requires |b| > 0 && (IsDigit(b[0]) || b[0] == '.')
    ensures StripSign(TrimStart(b)) == (false, b)
  {
    assert !IsWhitespace(b[0]);
  }

  /** No whitespace to skip before a minus sign, which is then read. */
  lemma StripNegative(b: string)
    ensures StripSign(TrimStart("-" + b)) == (true, b)
  {
    var s := "-" + b;
    assert s[0] == '-' && !IsWhitespace(s[0]);
    assert s[1..] == b;
  }

  /** A decimal text starts with no whitespace and at most a minus sign. */
  lemma SignOfDecimal(negative: bool, i: Digits, f: Digits, tail: string)
    requires |i| + |f| > 0
    ensures StripSign(TrimStart(DecimalText(negative, i, f) + tail)) == (negative, i + FractionText(f) + tail)
  {
    var b := i + FractionText(f) + tail;
    DecimalTextSplit(negative, i, f, tail);
    if negative {
      StripNegative(b);
    } else {
      DecimalBodyStart(i, f, tail);
      assert "" + b == b;
      StripUnsigned(b);
    }
  }

  lemma {:induction false} ParseUnsignedDecimal(i: Digits, f: Digits, tail: string)
    requires |i| + |f| > 0
    requires EndsLiteral(tail)
    ensures ParseUnsigned(i + FractionText(f) + tail) == Finite(DecimalValue(false, i, f))
  {
    var b := i + FractionText(f) + tail;
    DecimalBodyStart(i, f, tail);
    NotInfinity(b);
    ScanUnsignedDecimal(i, f, tail);
    LiteralOfDecimal(i, f);
  }

  /** Text starting with a digit or a point is not "Infinity". */
  lemma NotInfinity(b: string)
    requires |b| > 0 && (IsDigit(b[0]) || b[0] == '.')
    ensures !StartsWith(b, "Infinity")
  {
    assert b[0] != 'I';
  }

  /** A literal without exponent denotes the value of its decimal text. */
  lemma LiteralOfDecimal(i: Digits, f: Digits)
    ensures LiteralValue(Literal(i, f, false, "")) == DecimalValue(false, i, f)
  {
    assert DigitsValue("") == 0;
    assert Pow10(0) == 1;
  }

  /** `parseFloat` reads back the value of a plain decimal literal and
      ignores whatever follows it, provided the following text cannot extend
      the literal (no digit, point or exponent marker). */
  lemma {:induction false} ParseFloatDecimal(negative: bool, i: Digits, f: Digits, tail: string)
    requires |i| + |f| > 0
    requires EndsLiteral(tail)
    ensures ParseFloat(DecimalText(negative, i, f) + tail) == Finite(DecimalValue(negative, i, f))
  {
    var b := i + FractionText(f) + tail;
    SignOfDecimal(negative, i, f, tail);
    ParseFloatBySign(DecimalText(negative, i, f) + tail, negative, b);
    ParseUnsignedDecimal(i, f, tail);
    DecimalValueSign(negative, i, f);
    if negative {
      assert Negate(Finite(DecimalValue(false, i, f))) == Finite(DecimalValue(negative, i, f));
    }
  }

  /** The signs a literal may start with: none, `+` or `-`. */
  predicate IsSign(sign: string) {
    sign == "" || sign == "+" || sign == "-"
  }

  /** `parseFloat` reads back the value of a decimal literal with any of the
      three signs, whatever follows it that cannot extend the literal. */
  lemma ParseFloatSignedDecimal(sign: string, i: Digits, f: Digits, tail: string)
    requires IsSign(sign)
    requires |i| + |f| > 0
    requires EndsLiteral(tail)
    ensures ParseFloat(sign + i + FractionText(f) + tail) == Finite(DecimalValue(sign == "-", i, f))
  {
    var b := i + FractionText(f) + tail;
    assert sign + i + FractionText(f) + tail == sign + b;
    if sign == "+" {
      StripPositive(b);
      ParseFloatBySign(sign + b, false, b);
      ParseUnsignedDecimal(i, f, tail);
    } else {
      DecimalTextSplit(sign == "-", i, f, tail);
      ParseFloatDecimal(sign == "-", i, f, tail);
    }
  }

  /** No whitespace to skip before a plus sign, which is then read. */
  lemma StripPositive(b: string)
    ensures StripSign(TrimStart("+" + b)) == (false, b)
  {
    var s := "+" + b;
    assert s[0] == '+' && !IsWhitespace(s[0]);
    assert s[1..] == b;
  }

  /** `parseFloat` negates the unsigned reading when the sign is `-`. */
  lemma ParseFloatBySign(s: string, negative: bool, b: string)
    requires StripSign(TrimStart(s)) == (negative, b)
    ensures ParseFloat(s) == if negative then Negate(ParseUnsigned(b)) else ParseUnsigned(b)
  {
  }

  lemma DecimalValueSign(negative: bool, i: Digits, f: Digits)
    ensures DecimalValue(negative, i, f) == if negative then -DecimalValue(false, i, f) else DecimalValue(false, i, f)
  {
    var m := DigitsValue(i) as real + DigitsValue(f) as real / Pow10(|f|) as real;
    assert DecimalValue(false, i, f) == 1.0 * m == m;
    assert DecimalValue(true, i, f) == -1.0 * m == -m;
  }

  /** The decimal digits of `n`, without leading zeros. */
  function NatToDigits(n: nat): (s: Digits)
    ensures |s| > 0
    ensures DigitsValue(s) == n
    decreases n
  {
    var last := ['0' + ((n % 10) as char)];
    assert DigitValue(last[0]) == n % 10;
    if n < 10 then
      assert DigitsValue(last) == DigitsValue(last[..0]) * 10 + n % 10;
      last
    else
      var s := NatToDigits(n / 10) + last;
      assert s[..|s| - 1] == NatToDigits(n / 10);
      s
  }

  /** A run of digits parses as the natural number it denotes. */
  lemma {:induction false} DigitsRoundTrip(ds: Digits)
    requires |ds| > 0
    ensures ParseFloat(ds) == Finite(DigitsValue(ds) as real)
  {
    DigitsAsDecimal(ds);
    ParseFloatDecimal(false, ds, "", "");
  }

  /** A run of digits is a decimal text with no fraction and no sign. */
  lemma DigitsAsDecimal(ds: Digits)
    ensures DecimalText(false, ds, "") + "" == ds
    ensures DecimalValue(false, ds, "") == DigitsValue(ds) as real
  {
    assert FractionText("") == "";
    DecimalValueSign(false, ds, "");
    assert DigitsValue("") == 0 && Pow10(0) == 1;
  }

  /** `parseFloat` of the decimal digits of `n` is `n`, for every natural
      number `n`. */
  lemma {:induction false} NatRoundTrip(n: nat)
    ensures ParseFloat(NatToDigits(n)) == Finite(n as real)
  {
    DigitsRoundTrip(NatToDigits(n));
  }
}
