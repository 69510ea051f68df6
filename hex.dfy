/**
 * Base16 with the lower-case alphabet (section 8 of RFC 4648), which is what
 * `Hex.encodeHexString` produces, and the `replaceFirst("0x", "")` the Blob comparison
 * applies to the text it receives.
 */
module Hex {
  import opened Wrappers

  type Byte = x: int | 0 <= x < 256

  const Alphabet: string := "0123456789abcdef"

  /** Two lower-case hex digits per byte, high nibble first. */
  function HexEncode(bytes: seq<Byte>): (s: string)
    ensures |s| == 2 * |bytes|
    ensures forall i :: 0 <= i < |s| ==> s[i] in Alphabet
  {
    if bytes == [] then ""
    else [Alphabet[bytes[0] / 16], Alphabet[bytes[0] % 16]] + HexEncode(bytes[1..])
  }

  /** The value of a Base16 digit; section 8 of RFC 4648 lets a decoder accept either case. */
  function DigitValue(c: char): (v: Option<int>)
    ensures v.Some? ==> 0 <= v.value < 16
  {
    if '0' <= c <= '9' then Some(c as int - '0' as int)
    else if 'a' <= c <= 'f' then Some(c as int - 'a' as int + 10)
    else if 'A' <= c <= 'F' then Some(c as int - 'A' as int + 10)
    else None
  }

  /** Base16 decoding: pairs of hex digits, high nibble first; `None` for odd length or a non-digit. */
  function HexDecode(s: string): Option<seq<Byte>>
  {
    if s == [] then Some([])
    else if |s| == 1 then None
    else
      var hi, lo, rest := DigitValue(s[0]), DigitValue(s[1]), HexDecode(s[2..]);
      if hi.Some? && lo.Some? && rest.Some? then Some([hi.value * 16 + lo.value] + rest.value) else None
  }

  lemma AlphabetDigit(v: int)
    requires 0 <= v < 16
    ensures DigitValue(Alphabet[v]) == Some(v)
  {
  }

  /** Decoding undoes encoding. */
  lemma {:induction false} HexRoundTrip(bytes: seq<Byte>)
    ensures HexDecode(HexEncode(bytes)) == Some(bytes)
  {
    if bytes != [] {
      var b := bytes[0];
      var tail := HexEncode(bytes[1..]);
      assert HexEncode(bytes) == [Alphabet[b / 16], Alphabet[b % 16]] + tail;
      HexRoundTrip(bytes[1..]);
      DecodeFirstByte(b, tail, bytes[1..]);
      assert [b] + bytes[1..] == bytes;
    }
  }

  lemma DecodeFirstByte(b: Byte, tail: string, rest: seq<Byte>)
    requires HexDecode(tail) == Some(rest)
    ensures HexDecode([Alphabet[b / 16], Alphabet[b % 16]] + tail) == Some([b] + rest)
  {
    var s := [Alphabet[b / 16], Alphabet[b % 16]] + tail;
    AlphabetDigit(b / 16);
    AlphabetDigit(b % 16);
    assert s[2..] == tail;
  }

  /** Distinct byte sequences have distinct encodings. */
  lemma HexEncodeInjective(b: seq<Byte>, c: seq<Byte>)
    ensures HexEncode(b) == HexEncode(c) <==> b == c
  {
    HexRoundTrip(b);
    HexRoundTrip(c);
  }

  /** `s.replaceFirst("0x", "")`: drops the first occurrence of "0x", wherever it is. */
  function ReplaceFirst0x(s: string): (r: string)
    ensures |r| == |s| || |r| == |s| - 2
  {
    if |s| < 2 then s
    else if s[0] == '0' && s[1] == 'x' then s[2..]
    else [s[0]] + ReplaceFirst0x(s[1..])
  }

  /** No "0x" occurs anywhere in `s`. */
  predicate Free0x(s: string)
  {
    forall i :: 0 <= i < |s| - 1 ==> !(s[i] == '0' && s[i + 1] == 'x')
  }

  /** An encoding never contains "0x": 'x' is not a hex digit. */
  lemma HexEncodeFree0x(bytes: seq<Byte>)
    ensures Free0x(HexEncode(bytes))
  {
    var h := HexEncode(bytes);
    forall i | 0 <= i < |h| - 1 ensures !(h[i] == '0' && h[i + 1] == 'x') {
      assert h[i + 1] in Alphabet;
    }
  }

  /** A leading "0x" is what gets dropped. */
  lemma StripLeading0x(h: string)
    ensures ReplaceFirst0x("0x" + h) == h
  {
  }

  /** Text without any "0x" is left as it is. */
  lemma {:induction false} ReplaceFirst0xNoOccurrence(s: string)
    requires Free0x(s)
    ensures ReplaceFirst0x(s) == s
  {
    if |s| >= 2 {
      assert !(s[0] == '0' && s[1] == 'x');
      assert Free0x(s[1..]) by {
        forall i | 0 <= i < |s[1..]| - 1 ensures !(s[1..][i] == '0' && s[1..][i + 1] == 'x') {
          assert s[1..][i] == s[i + 1] && s[1..][i + 1] == s[i + 2];
        }
      }
      ReplaceFirst0xNoOccurrence(s[1..]);
      assert [s[0]] + s[1..] == s;
    }
  }
}
