/** ECMAScript's `ToNumber` applied to a string (StringToNumber), as far as
    the relational comparison `array < 1` needs it: the numeric literal
    grammar of section 7.1.4.1 of ECMA-262 (decimal literals with optional
    sign, fraction and exponent, `Infinity`, and the unsigned `0x`, `0o`, `0b`
    forms) and the outcome NaN for every other string. Values are kept exact
    as `mantissa * 10^scale`; rounding to a binary64 double is not modelled. */
module JsNumber {

  import opened Wrappers
  import JsText

  /** The finite magnitude `mantissa * 10^scale`. */
  datatype Decimal = Decimal(mantissa: nat, scale: int)

  datatype JsNumber = NaN | Infinite(negative: bool) | Finite(negative: bool, magnitude: Decimal)

  predicate IsDigit(c: char) { '0' <= c <= '9' }

  /** Numeric value of a digit in bases up to 16; 16 for any other character. */
  function DigitValue(c: char): nat {
    if '0' <= c <= '9' then c as nat - '0' as nat
    else if 'a' <= c <= 'f' then c as nat - 'a' as nat + 10
    else if 'A' <= c <= 'F' then c as nat - 'A' as nat + 10
    else 16
  }

  predicate AllDigitsIn(s: string, base: nat) {
    forall i :: 0 <= i < |s| ==> DigitValue(s[i]) < base
  }

  /** Characters that can occur in a string `ToNumber` maps to a number. */
  predicate NumericChar(c: char) {
    DigitValue(c) < 16 || c in "+-.eExXoObBInfinity"
  }

  predicate AllNumeric(s: string) {
    forall i :: 0 <= i < |s| ==> NumericChar(s[i])
  }

  function Pow(base: nat, n: nat): (p: nat)
    ensures base >= 1 ==> p >= 1
  {
    if n == 0 then 1 else base * Pow(base, n - 1)
  }

  /** Value of a digit string read most significant digit first. */
  function DigitsValue(s: string, base: nat): nat
    requires AllDigitsIn(s, base)
  {
    if |s| == 0 then 0 else DigitsValue(s[..|s| - 1], base) * base + DigitValue(s[|s| - 1])
  }

  /** Length of the longest prefix of decimal digits. */
  function DigitSpan(s: string): (n: nat)
    ensures n <= |s|
    ensures AllDigitsIn(s[..n], 10)
  {
    if |s| > 0 && IsDigit(s[0]) then
      var n := 1 + DigitSpan(s[1..]);
      assert forall i :: 1 <= i < n ==> s[..n][i] == s[1..][..n - 1][i - 1];
      n
    else 0
  }

  /** An optional `e`/`E` exponent part, which must end the literal. */
  function ParseExponent(r: string): (e: Option<int>)
    ensures e.Some? ==> AllNumeric(r)
  {
    if |r| == 0 then Some(0)
    else if r[0] != 'e' && r[0] != 'E' then None
    else
      var negative := |r| > 1 && r[1] == '-';
      var start := if |r| > 1 && (r[1] == '-' || r[1] == '+') then 2 else 1;
      var digits := r[start..];
      if |digits| > 0 && AllDigitsIn(digits, 10) then
        var v: int := DigitsValue(digits, 10);
        Some(if negative then -v else v)
      else None
  }

  lemma DigitsAreNumeric(s: string, base: nat)
    requires AllDigitsIn(s, base) && base <= 16
    ensures AllNumeric(s)
  {
  }

  lemma NumericConcat(a: string, b: string)
    requires AllNumeric(a) && AllNumeric(b)
    ensures AllNumeric(a + b)
  {
  }

  lemma DigitsConcat(a: string, b: string, base: nat)
    requires AllDigitsIn(a, base) && AllDigitsIn(b, base)
    ensures AllDigitsIn(a + b, base)
  {
  }

  /** StrUnsignedDecimalLiteral without `Infinity`: `ddd`, `ddd.`, `ddd.ddd`
      or `.ddd`, each with an optional exponent. */
  function ParseUnsignedDecimal(u: string): (d: Option<Decimal>)
    ensures d.Some? ==> AllNumeric(u)
  {
    var a := DigitSpan(u);
    var whole := u[..a];
    if a < |u| && u[a] == '.' then
      var frac := u[a + 1..];
      var b := DigitSpan(frac);
      if a == 0 && b == 0 then None
      else match ParseExponent(frac[b..])
        case None => None
        case Some(e) =>
          DigitsConcat(whole, frac[..b], 10);
          DecimalPartsNumeric(whole, frac[..b], frac[b..]);
          DecimalSplit(u, a, b);
          Some(Decimal(DigitsValue(whole + frac[..b], 10), e - b))
    else if a == 0 then None
    else match ParseExponent(u[a..])
      case None => None
      case Some(e) =>
        DigitsAreNumeric(whole, 10);
        assert u == whole + u[a..];
        NumericConcat(whole, u[a..]);
        Some(Decimal(DigitsValue(whole, 10), e))
  }

  lemma DecimalPartsNumeric(whole: string, frac: string, exponent: string)
    requires AllDigitsIn(whole, 10) && AllDigitsIn(frac, 10) && AllNumeric(exponent)
    ensures AllNumeric(whole + "." + frac + exponent)
  {
    DigitsAreNumeric(whole, 10);
    DigitsAreNumeric(frac, 10);
    assert AllNumeric(".");
    NumericConcat(whole, ".");
    NumericConcat(whole + ".", frac);
    NumericConcat(whole + "." + frac, exponent);
  }

  lemma DecimalSplit(u: string, a: nat, b: nat)
    requires a < |u| && u[a] == '.' && b <= |u| - a - 1
    ensures u == u[..a] + "." + u[a + 1..][..b] + u[a + 1..][b..]
  {
    assert u[a..] == "." + u[a + 1..];
    assert u[a + 1..] == u[a + 1..][..b] + u[a + 1..][b..];
    assert u == u[..a] + u[a..];
  }

  /** StrUnsignedDecimalLiteral, `Infinity` included. */
  function ParseUnsigned(u: string): (n: JsNumber)
    ensures n != NaN ==> AllNumeric(u)
  {
    if u == "Infinity" then Infinite(false)
    else match ParseUnsignedDecimal(u)
      case Some(d) => Finite(false, d)
      case None => NaN
  }

  /** NonDecimalIntegerLiteral: `0x`, `0o` or `0b` followed by at least one
      digit of that base; never signed. */
  function ParseNonDecimal(t: string): (n: JsNumber)
    requires |t| >= 2 && t[0] == '0' && t[1] in "xXoObB"
    ensures n != NaN ==> AllNumeric(t)
  {
    var base := if t[1] in "xX" then 16 else if t[1] in "oO" then 8 else 2;
    var digits := t[2..];
    if |digits| > 0 && AllDigitsIn(digits, base) then
      Finite(false, Decimal(DigitsValue(digits, base), 0))
    else NaN
  }

  /** StringToNumber: surrounding whitespace is ignored and an empty string
      is zero. Whatever it reads as a number consists of numeric characters
      once trimmed. */
  function ToNumber(s: string): (n: JsNumber)
    ensures JsText.AllWhitespace(s) ==> n == Finite(false, Decimal(0, 0))
    ensures n != NaN ==> AllNumeric(JsText.Trim(s))
  {
    var t := JsText.Trim(s);
    assert JsText.AllWhitespace(s) ==> t == "" by {
      if JsText.AllWhitespace(s) {
        JsText.AllWhitespaceTrimsToEmpty(s);
      }
    }
    ParseTrimmed(t)
  }

  /** The trimmed string read as StrNumericLiteral: the empty string is
      zero, then a non-decimal literal, a signed or an unsigned decimal. */
  function ParseTrimmed(t: string): (n: JsNumber)
    ensures n != NaN ==> AllNumeric(t)
  {
    assert |t| > 0 && t[0] in "+-" ==> t == [t[0]] + t[1..];
    if |t| == 0 then Finite(false, Decimal(0, 0))
    else if |t| >= 2 && t[0] == '0' && t[1] in "xXoObB" then ParseNonDecimal(t)
    else if t[0] == '+' then ParseUnsigned(t[1..])
    else if t[0] == '-' then
      match ParseUnsigned(t[1..])
      case NaN => NaN
      case Infinite(_) => Infinite(true)
      case Finite(_, d) => Finite(true, d)
    else ParseUnsigned(t)
  }

  /** Exact value of a finite magnitude. */
  function RealValue(d: Decimal): real {
    if d.scale >= 0 then (d.mantissa * Pow(10, d.scale)) as real
    else d.mantissa as real / Pow(10, -d.scale) as real
  }

  /** `n < 1` for a number: false for NaN, which compares false with
      everything, true for minus infinity only, and for a finite number the
      exact comparison of its value with one, decided on integers. */
  predicate LessThanOne(n: JsNumber): (b: bool)
    ensures n.NaN? ==> !b
    ensures n.Infinite? ==> (b <==> n.negative)
    ensures n.Finite? ==> (b <==> n.negative || RealValue(n.magnitude) < 1.0)
  {
    match n
    case NaN => false
    case Infinite(negative) => negative
    case Finite(negative, d) =>
      IntegerTestIsValueBelowOne(d);
      negative || BelowOne(d)
  }

  /** The integer test for a magnitude below one. */
  predicate BelowOne(d: Decimal) {
    d.mantissa == 0 || (d.scale < 0 && d.mantissa < Pow(10, -d.scale))
  }

  /** The integer test is the comparison of the exact value with one. */
  lemma IntegerTestIsValueBelowOne(d: Decimal)
    ensures BelowOne(d) <==> RealValue(d) < 1.0
  {
    if d.scale >= 0 {
      var p := Pow(10, d.scale);
      assert d.mantissa >= 1 ==> d.mantissa * p >= p;
    } else {
      var p := Pow(10, -d.scale);
      var m := d.mantissa as real;
      assert RealValue(d) * p as real == m;
      assert RealValue(d) < 1.0 <==> m < p as real;
    }
  }

  /** A non-whitespace character outside the numeric alphabet makes the
      whole string NaN. */
  lemma ForeignCharIsNaN(s: string, i: nat)
    requires i < |s| && !JsText.IsWhitespace(s[i]) && !NumericChar(s[i])
    ensures ToNumber(s) == NaN
  {
    JsText.TrimKeepsNonWhitespace(s, i);
  }

  /** An empty string converts to zero, which is below one. */
  lemma EmptyIsBelowOne()
    ensures ToNumber("") == Finite(false, Decimal(0, 0))
  {
  }

  /** `"1e-3"` is one thousandth, below one. */
  lemma SmallExponentIsBelowOne()
    ensures LessThanOne(ToNumber("1e-3"))
  {
    var d := Decimal(1, -3);
    JsText.TrimOfTrimmed("1e-3");
    UnsignedOneThousandth();
    assert ParseUnsigned("1e-3") == Finite(false, d);
    assert ToNumber("1e-3") == Finite(false, d);
    assert BelowOne(d) by {
      assert Pow(10, 3) == 1000;
    }
  }

  lemma UnsignedOneThousandth()
    ensures ParseUnsignedDecimal("1e-3") == Some(Decimal(1, -3))
  {
    assert DigitSpan("1e-3") == 1 by { assert "1e-3"[1..] == "e-3"; }
    assert "1e-3"[1..] == "e-3" && "1e-3"[..1] == "1";
    assert DigitsValue("1", 10) == 1 by { assert "1"[..0] == ""; }
    MinusThreeExponent();
  }

  lemma MinusThreeExponent()
    ensures ParseExponent("e-3") == Some(-3)
  {
    assert "e-3"[2..] == "3";
    assert DigitsValue("3", 10) == 3 by { assert "3"[..0] == ""; }
  }

  /** `"5"` is not below one. */
  lemma FiveIsNotBelowOne()
    ensures !LessThanOne(ToNumber("5"))
  {
    JsText.TrimOfTrimmed("5");
    assert DigitSpan("5") == 1 by { assert "5"[1..] == ""; }
    assert "5"[1..] == "" && "5"[..1] == "5";
    assert DigitsValue("5", 10) == 5 by { assert "5"[..0] == ""; }
  }
}
