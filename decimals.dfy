/**
 * Exact decimal numbers. A JSON number reaches the client as a `Double`; the model keeps the
 * decimal the double denotes, so `Double.longValue()` and `new BigDecimal(d.toString())` are
 * stated exactly, with no IEEE rounding.
 */
module Decimals {
  import opened Wrappers
  import opened JavaText

  /** mantissa * 10^exponent; a `BigDecimal` with unscaled value `mantissa` and scale `-exponent`. */
  datatype Decimal = Decimal(mantissa: int, exponent: int)

  const LongMin: int := -0x8000_0000_0000_0000
  const LongMax: int := 0x7fff_ffff_ffff_ffff

  function Min(a: int, b: int): int { if a <= b then a else b }

  /** The value of `d` as an integer multiple of 10^e, for e at or below `d`'s own exponent. */
  function ScaledTo(d: Decimal, e: int): int
    requires e <= d.exponent
  {
    d.mantissa * Pow10(d.exponent - e)
  }

  /** `x.compareTo(y) == 0` for `BigDecimal`s: the same number, whatever the scales. */
  predicate SameValue(x: Decimal, y: Decimal)
  {
    var e := Min(x.exponent, y.exponent);
    ScaledTo(x, e) == ScaledTo(y, e)
  }

  /** Integer division rounding toward zero, as Java's `/` does. */
  function TruncDiv(a: int, b: int): (q: int)
    requires b > 0
    ensures a >= 0 ==> 0 <= q * b <= a < (q + 1) * b
    ensures a < 0 ==> (q - 1) * b < a <= q * b <= 0
  {
    if a >= 0 then DivBounds(a, b); a / b else DivBounds(-a, b); -((-a) / b)
  }

  lemma DivBounds(a: nat, b: int)
    requires b > 0
    ensures 0 <= (a / b) * b <= a < (a / b + 1) * b
  {
    var q, r := a / b, a % b;
    assert a == q * b + r;
    assert (q + 1) * b == q * b + b;
  }

  /** The integer part of `d`, rounding toward zero. */
  function Truncate(d: Decimal): int
  {
    if d.exponent >= 0 then d.mantissa * Pow10(d.exponent) else TruncDiv(d.mantissa, Pow10(-d.exponent))
  }

  /** `Double.longValue()`: truncation toward zero, saturating at the bounds of `long`. */
  function LongValue(d: Decimal): (r: int)
    ensures LongMin <= r <= LongMax
    ensures LongMin <= Truncate(d) <= LongMax ==> r == Truncate(d)
    ensures Truncate(d) > LongMax ==> r == LongMax
    ensures Truncate(d) < LongMin ==> r == LongMin
  {
    var t := Truncate(d);
    if t < LongMin then LongMin else if t > LongMax then LongMax else t
  }

  /** Index of the first 'e' or 'E' in `s`, or |s| when there is none. */
  function IndexOfExponent(s: string): (i: nat)
    ensures i <= |s|
    ensures forall j :: 0 <= j < i ==> s[j] != 'e' && s[j] != 'E'
    ensures i < |s| ==> s[i] == 'e' || s[i] == 'E'
  {
    if s == [] || s[0] == 'e' || s[0] == 'E' then 0 else 1 + IndexOfExponent(s[1..])
  }

  /** Index of the first `c` in `s`, or |s| when there is none. */
  function IndexOfChar(s: string, c: char): (i: nat)
    ensures i <= |s|
    ensures forall j :: 0 <= j < i ==> s[j] != c
    ensures i < |s| ==> s[i] == c
  {
    if s == [] || s[0] == c then 0 else 1 + IndexOfChar(s[1..], c)
  }

  /**
   * `new BigDecimal(s)`: an optional sign, digits with at most one '.', at least one digit, and an
   * optional exponent ('e' or 'E', an optional sign, digits), the digits ASCII. `None` stands for
   * the `NumberFormatException`. The JDK also reads other Unicode decimal digits, which this
   * function does not.
   */
  function ParseBigDecimal(s: string): Option<Decimal>
  {
    if |s| > 0 && (s[0] == '-' || s[0] == '+') then
      match ParseUnsignedDecimal(s[1..])
      case None => None
      case Some(d) => Some(if s[0] == '-' then Decimal(-d.mantissa, d.exponent) else d)
    else ParseUnsignedDecimal(s)
  }

  /** The part of `new BigDecimal(s)` after the sign: a significand and an optional exponent. */
  function ParseUnsignedDecimal(body: string): Option<Decimal>
  {
    var e := IndexOfExponent(body);
    var exponent := if e < |body| then ParseBigInteger(body[e + 1..]) else Some(0);
    match exponent
    case None => None
    case Some(x) => ParseSignificand(body[..e], x)
  }

  /** Digits with at most one '.' and at least one digit; each fraction digit lowers the exponent by one. */
  function ParseSignificand(sig: string, x: int): Option<Decimal>
  {
    var dot := IndexOfChar(sig, '.');
    var digits := sig[..dot] + (if dot < |sig| then sig[dot + 1..] else "");
    var fractionLength := if dot < |sig| then |sig| - dot - 1 else 0;
    if |digits| > 0 && AllDigits(digits) then Some(Decimal(DigitsValue(digits), x - fractionLength))
    else None
  }

  lemma NoExponentMarker(body: string)
    requires forall j :: 0 <= j < |body| ==> body[j] != 'e' && body[j] != 'E'
    ensures ParseUnsignedDecimal(body) == ParseSignificand(body, 0)
  {
    assert IndexOfExponent(body) == |body|;
    assert body[..|body|] == body;
  }

  lemma SignificandWithoutPoint(digits: string, x: int)
    requires |digits| > 0 && AllDigits(digits)
    ensures ParseSignificand(digits, x) == Some(Decimal(DigitsValue(digits), x))
  {
    assert IndexOfChar(digits, '.') == |digits| by {
      assert forall j :: 0 <= j < |digits| ==> IsDigit(digits[j]);
    }
    assert digits[..|digits|] + "" == digits;
  }

  lemma SignificandWithPoint(intDigits: string, fracDigits: string, x: int)
    requires |intDigits| > 0 && AllDigits(intDigits) && AllDigits(fracDigits)
    ensures ParseSignificand(intDigits + "." + fracDigits, x)
         == Some(Decimal(DigitsValue(intDigits + fracDigits), x - |fracDigits|))
  {
    var sig := intDigits + "." + fracDigits;
    assert sig[|intDigits|] == '.';
    assert IndexOfChar(sig, '.') == |intDigits| by {
      assert forall j :: 0 <= j < |intDigits| ==> sig[j] == intDigits[j] && IsDigit(intDigits[j]);
    }
    assert sig[..|intDigits|] == intDigits;
    assert sig[|intDigits| + 1..] == fracDigits;
  }

  /** Appending zeros to the mantissa while lowering the exponent keeps the value: "1.0000" is 1. */
  lemma ScaleInvariant(m: int, e: int, k: nat)
    ensures SameValue(Decimal(m, e), Decimal(m * Pow10(k), e - k))
  {
  }

  lemma SameValueReflexive(x: Decimal)
    ensures SameValue(x, x)
  {
  }

  lemma SameValueSymmetric(x: Decimal, y: Decimal)
    ensures SameValue(x, y) == SameValue(y, x)
  {
  }

  lemma {:induction false} Pow10Add(a: nat, b: nat)
    ensures Pow10(a + b) == Pow10(a) * Pow10(b)
  {
    if b > 0 {
      Pow10Add(a, b - 1);
      assert Pow10(a + b) == 10 * Pow10(a + b - 1);
    }
  }

  /** Scaling further down multiplies by the extra power of ten. */
  lemma ScaleDown(d: Decimal, e: int, f: int)
    requires f <= e <= d.exponent
    ensures ScaledTo(d, f) == ScaledTo(d, e) * Pow10(e - f)
  {
    Pow10Add(d.exponent - e, e - f);
    assert d.mantissa * (Pow10(d.exponent - e) * Pow10(e - f))
        == (d.mantissa * Pow10(d.exponent - e)) * Pow10(e - f);
  }

  lemma CancelFactor(a: int, b: int, p: int)
    requires p >= 1
    ensures a * p == b * p <==> a == b
  {
    if a != b {
      assert a * p - b * p == (a - b) * p;
    }
  }

  /** Two decimals have the same value exactly when they agree scaled to any common exponent. */
  lemma SameValueAt(x: Decimal, y: Decimal, f: int)
    requires f <= x.exponent && f <= y.exponent
    ensures SameValue(x, y) <==> ScaledTo(x, f) == ScaledTo(y, f)
  {
    var e := Min(x.exponent, y.exponent);
    ScaleDown(x, e, f);
    ScaleDown(y, e, f);
    CancelFactor(ScaledTo(x, e), ScaledTo(y, e), Pow10(e - f));
  }

  /** `compareTo(...) == 0` is transitive, so it is an equivalence on decimals. */
  lemma SameValueTransitive(x: Decimal, y: Decimal, z: Decimal)
    requires SameValue(x, y) && SameValue(y, z)
    ensures SameValue(x, z)
  {
    var f := Min(x.exponent, Min(y.exponent, z.exponent));
    SameValueAt(x, y, f);
    SameValueAt(y, z, f);
    SameValueAt(x, z, f);
  }

  /** An integer printed by `Long.toString` parses back as that integer with scale 0. */
  lemma ParseIntegerString(n: int)
    ensures ParseBigDecimal(IntToString(n)) == Some(Decimal(n, 0))
  {
    var a := if n < 0 then -n else n;
    var digits := NatDigits(a);
    NatDigitsValue(a);
    assert forall j :: 0 <= j < |digits| ==> IsDigit(digits[j]);
    NoExponentMarker(digits);
    SignificandWithoutPoint(digits, 0);
    if n < 0 {
      assert IntToString(n)[1..] == digits;
    }
  }

  /** "n.000…0" (k zeros after the point) parses to n * 10^k with scale k, a decimal of the value n. */
  lemma ParseZeroFraction(n: int, k: nat)
    ensures ParseBigDecimal(IntToString(n) + "." + Zeros(k)) == Some(Decimal(n * Pow10(k), -(k as int)))
    ensures SameValue(Decimal(n * Pow10(k), -(k as int)), Decimal(n, 0))
  {
    ParseSignedPointZeros(n, k);
    ScaleInvariant(n, 0, k);
  }

  lemma ParseSignedPointZeros(n: int, k: nat)
    ensures ParseBigDecimal(IntToString(n) + "." + Zeros(k)) == Some(Decimal(n * Pow10(k), -(k as int)))
  {
    if n < 0 {
      NegativePointZeros(n, k);
    } else {
      NonNegativePointZeros(n, k);
    }
  }

  lemma NegativePointZeros(n: int, k: nat)
    requires n < 0
    ensures ParseBigDecimal(IntToString(n) + "." + Zeros(k)) == Some(Decimal(n * Pow10(k), -(k as int)))
  {
    var a: nat := -n;
    var p := Pow10(k);
    var body := NatDigits(a) + "." + Zeros(k);
    NegativeText(n, a, ".", Zeros(k));
    ParseUnsignedPointZeros(a, k);
    NegatedParse(IntToString(n) + "." + Zeros(k), body, a * p, -(k as int));
    NegateProduct(n, a, p);
  }

  /** A minus sign in front of a body that parses negates the mantissa and keeps the exponent. */
  lemma NegatedParse(s: string, body: string, m: int, x: int)
    requires s == "-" + body
    requires ParseUnsignedDecimal(body) == Some(Decimal(m, x))
    ensures ParseBigDecimal(s) == Some(Decimal(-m, x))
  {
    ParseMinus(body);
  }

  lemma NegateProduct(n: int, a: int, p: int)
    requires a == -n
    ensures -(a * p) == n * p
  {
  }

  lemma NegativeText(n: int, a: nat, point: string, fraction: string)
    requires n < 0 && a == -n
    ensures IntToString(n) + point + fraction == "-" + (NatDigits(a) + point + fraction)
  {
    assert IntToString(n) == "-" + NatDigits(a);
  }

  lemma NonNegativePointZeros(n: nat, k: nat)
    ensures ParseBigDecimal(IntToString(n) + "." + Zeros(k)) == Some(Decimal(n * Pow10(k), -(k as int)))
  {
    var body := NatDigits(n) + "." + Zeros(k);
    ParseUnsignedPointZeros(n, k);
    assert IntToString(n) + "." + Zeros(k) == body;
    assert body[0] == NatDigits(n)[0];
    ParseUnsigned(body);
  }

  lemma ParseMinus(body: string)
    ensures ParseBigDecimal("-" + body)
         == match ParseUnsignedDecimal(body)
            case None => None
            case Some(d) => Some(Decimal(-d.mantissa, d.exponent))
  {
    assert ("-" + body)[1..] == body;
  }

  lemma ParseUnsigned(body: string)
    requires |body| > 0 && IsDigit(body[0])
    ensures ParseBigDecimal(body) == ParseUnsignedDecimal(body)
  {
  }

  lemma ParseUnsignedPointZeros(a: nat, k: nat)
    ensures ParseUnsignedDecimal(NatDigits(a) + "." + Zeros(k)) == Some(Decimal(a * Pow10(k), -(k as int)))
  {
    var digits, z := NatDigits(a), Zeros(k);
    PointedDigitsNoExponent(digits, z);
    NoExponentMarker(digits + "." + z);
    SignificandWithPoint(digits, z, 0);
    NatDigitsValue(a);
    DigitsValueZeros(digits, k);
  }

  /** Digits, a point and more digits hold no exponent marker. */
  lemma PointedDigitsNoExponent(digits: string, fraction: string)
    requires AllDigits(digits) && AllDigits(fraction)
    ensures forall j :: 0 <= j < |digits + "." + fraction| ==>
              (digits + "." + fraction)[j] != 'e' && (digits + "." + fraction)[j] != 'E'
  {
    var body := digits + "." + fraction;
    forall j | 0 <= j < |body| ensures body[j] != 'e' && body[j] != 'E' {
      if j < |digits| {
        assert body[j] == digits[j];
      } else if j > |digits| {
        assert body[j] == fraction[j - |digits| - 1];
      }
    }
  }
}
