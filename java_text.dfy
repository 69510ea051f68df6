/**
 * The small pieces of the JDK's text handling that the comparison engine leans on:
 * `Long.toString`, `new BigInteger(String)` and `String.hashCode`.
 */
module JavaText {
  import opened Wrappers

  const TwoTo32: int := 0x1_0000_0000
  const IntMin: int := -0x8000_0000
  const IntMax: int := 0x7fff_ffff

  predicate IsDigit(c: char) { '0' <= c <= '9' }

  predicate AllDigits(s: string) { forall i :: 0 <= i < |s| ==> IsDigit(s[i]) }

  function DigitValue(c: char): nat
    requires IsDigit(c)
  {
    (c as int) - ('0' as int)
  }

  function DigitChar(d: nat): (c: char)
    requires d < 10
    ensures IsDigit(c) && DigitValue(c) == d
  {
    ('0' as int + d) as char
  }

  /** The value of a run of decimal digits, most significant digit first. */
  function DigitsValue(s: string): nat
    requires AllDigits(s)
  {
    if s == [] then 0 else DigitsValue(s[..|s| - 1]) * 10 + DigitValue(s[|s| - 1])
  }

  /** The decimal digits of `n` without leading zeros ("0" for zero). */
  function NatDigits(n: nat): (s: string)
    ensures |s| > 0 && AllDigits(s)
    ensures |s| > 1 ==> s[0] != '0'
  {
    if n < 10 then [DigitChar(n)] else NatDigits(n / 10) + [DigitChar(n % 10)]
  }

  /** `Long.toString(n)` and `BigInteger.toString()`: a '-' for negatives, then the digits. */
  function IntToString(n: int): string
  {
    if n < 0 then "-" + NatDigits(-n) else NatDigits(n)
  }

  /**
   * `new BigInteger(s)` on an optional '+' or '-' followed by at least one ASCII decimal digit;
   * `None` stands for the `NumberFormatException`. The JDK also reads other Unicode decimal
   * digits, which this function does not.
   */
  function ParseBigInteger(s: string): Option<int>
  {
    if |s| > 0 && (s[0] == '-' || s[0] == '+') then
      if |s| > 1 && AllDigits(s[1..]) then
        Some(if s[0] == '-' then -(DigitsValue(s[1..]) as int) else DigitsValue(s[1..]))
      else None
    else if |s| > 0 && AllDigits(s) then Some(DigitsValue(s))
    else None
  }

  lemma {:induction false} NatDigitsValue(n: nat)
    ensures DigitsValue(NatDigits(n)) == n
  {
    if n >= 10 {
      var s := NatDigits(n);
      assert s[..|s| - 1] == NatDigits(n / 10);
      NatDigitsValue(n / 10);
    }
  }

  /** Printing an integer and parsing it back gives the same integer. */
  lemma IntToStringRoundTrip(n: int)
    ensures ParseBigInteger(IntToString(n)) == Some(n)
  {
    NatDigitsValue(if n < 0 then -n else n);
    if n < 0 {
      assert IntToString(n)[1..] == NatDigits(-n);
    }
  }

  /** Appending k zero digits multiplies the value by 10^k. */
  lemma {:induction false} DigitsValueZeros(s: string, k: nat)
    requires AllDigits(s)
    ensures AllDigits(s + Zeros(k)) && DigitsValue(s + Zeros(k)) == DigitsValue(s) * Pow10(k)
  {
    if k > 0 {
      DigitsValueZeros(s, k - 1);
      var t := s + Zeros(k - 1);
      assert s + Zeros(k) == t + "0";
      assert AllDigits(t + "0");
      DigitsValueAppendZero(t);
      MulAssoc(DigitsValue(s), Pow10(k - 1), 10);
    } else {
      assert s + Zeros(k) == s;
    }
  }

  lemma DigitsValueAppendZero(t: string)
    requires AllDigits(t) && AllDigits(t + "0")
    ensures DigitsValue(t + "0") == DigitsValue(t) * 10
  {
    assert (t + "0")[..|t + "0"| - 1] == t;
  }

  lemma MulAssoc(a: int, b: int, c: int)
    ensures a * b * c == a * (b * c)
  {
  }

  function Zeros(k: nat): (z: string)
    ensures |z| == k && AllDigits(z)
  {
    if k == 0 then "" else Zeros(k - 1) + "0"
  }

  function Pow10(k: nat): (p: nat)
    ensures p >= 1
  {
    if k == 0 then 1 else 10 * Pow10(k - 1)
  }

  /** Java's `int` arithmetic: the two's-complement value congruent to `x` modulo 2^32. */
  function Wrap32(x: int): (r: int)
    ensures IntMin <= r <= IntMax
    ensures (r - x) % TwoTo32 == 0
  {
    (x - IntMin) % TwoTo32 + IntMin
  }

  /** `String.hashCode()`: h = 31 * h + c over the characters, in `int` arithmetic. */
  function StringHash(s: string): (h: int)
    ensures IntMin <= h <= IntMax
  {
    if s == [] then 0 else Wrap32(31 * StringHash(s[..|s| - 1]) + s[|s| - 1] as int)
  }
}
