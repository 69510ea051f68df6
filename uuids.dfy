/**
 * The textual form of a UUID (section 3 of RFC 4122): 32 hex digits in groups of
 * 8-4-4-4-12 separated by '-'. `UUID.fromString` reads either case; `UUID.toString`
 * writes lower case.
 */
module Uuids {
  import opened Wrappers
  import Hex

  type Nibble = x: int | 0 <= x < 16

  /** The 128 bits of a UUID as 32 nibbles, most significant first. */
  type Uuid = s: seq<Nibble> | |s| == 32 witness seq(32, i => 0)

  /** Hyphen positions of the canonical 36-character form. */
  predicate IsHyphenPosition(i: int) { i == 8 || i == 13 || i == 18 || i == 23 }

  /** Lower-case hex text of a run of nibbles. */
  function NibbleText(ns: seq<Nibble>): (s: string)
    ensures |s| == |ns|
  {
    seq(|ns|, i requires 0 <= i < |ns| => Hex.Alphabet[ns[i]])
  }

  /** `UUID.toString()`: the 8-4-4-4-12 form in lower case. */
  function UuidToString(u: Uuid): (s: string)
    ensures |s| == 36
  {
    NibbleText(u[..8]) + "-" + NibbleText(u[8..12]) + "-" + NibbleText(u[12..16]) + "-"
      + NibbleText(u[16..20]) + "-" + NibbleText(u[20..])
  }

  predicate AllHexDigits(s: string)
  {
    forall i :: 0 <= i < |s| ==> Hex.DigitValue(s[i]).Some?
  }

  /** The nibbles of a run of hex digits of either case. */
  function Nibbles(s: string): (ns: seq<Nibble>)
    requires AllHexDigits(s)
    ensures |ns| == |s|
  {
    seq(|s|, i requires 0 <= i < |s| => Hex.DigitValue(s[i]).value)
  }

  /** The 32 digit characters of a 36-character UUID text, hyphens removed. */
  function DigitsOf(s: string): (d: string)
    requires |s| == 36
    ensures |d| == 32
  {
    s[..8] + s[9..13] + s[14..18] + s[19..23] + s[24..]
  }

  predicate WellFormed(s: string)
  {
    && |s| == 36
    && (forall i :: 0 <= i < 36 && IsHyphenPosition(i) ==> s[i] == '-')
    && AllHexDigits(DigitsOf(s))
  }

  /** `UUID.fromString(s)` restricted to the form of RFC 4122; `None` stands for the exception it raises. */
  function ParseUuid(s: string): Option<Uuid>
  {
    if WellFormed(s) then Some(Nibbles(DigitsOf(s))) else None
  }

  /** An upper-case hex letter turned to lower case; every other character unchanged. */
  function LowerHex(c: char): char
  {
    if 'A' <= c <= 'F' then (c as int - 'A' as int + 'a' as int) as char else c
  }

  function Lower(s: string): (r: string)
    ensures |r| == |s|
  {
    seq(|s|, i requires 0 <= i < |s| => LowerHex(s[i]))
  }

  lemma DigitsOfCanonical(u: Uuid)
    ensures DigitsOf(UuidToString(u)) == NibbleText(u)
  {
    var s := UuidToString(u);
    assert s[..8] == NibbleText(u[..8]);
    assert s[9..13] == NibbleText(u[8..12]);
    assert s[14..18] == NibbleText(u[12..16]);
    assert s[19..23] == NibbleText(u[16..20]);
    assert s[24..] == NibbleText(u[20..]);
  }

  /** Parsing the canonical text of a UUID gives back that UUID. */
  lemma UuidRoundTrip(u: Uuid)
    ensures ParseUuid(UuidToString(u)) == Some(u)
  {
    var s := UuidToString(u);
    DigitsOfCanonical(u);
    forall i | 0 <= i < 32 ensures Hex.DigitValue(NibbleText(u)[i]) == Some(u[i]) {
      Hex.AlphabetDigit(u[i]);
    }
    assert WellFormed(s);
    assert Nibbles(NibbleText(u)) == u;
  }

  /** Any text `UUID.fromString` accepts prints back as itself in lower case. */
  lemma ParsedPrintsLowered(s: string)
    requires ParseUuid(s).Some?
    ensures UuidToString(ParseUuid(s).value) == Lower(s)
  {
    var u := ParseUuid(s).value;
    var t := UuidToString(u);
    DigitsOfCanonical(u);
    CanonicalHyphens(u);
    forall i | 0 <= i < 36 ensures t[i] == LowerHex(s[i]) {
      if !IsHyphenPosition(i) {
        var j := DigitIndex(i);
        DigitsOfAt(s, i);
        DigitsOfAt(t, i);
        assert t[i] == Hex.Alphabet[u[j]];
        LowerDigit(s[i]);
      }
    }
  }

  /** Where the digit at text position `i` sits among the 32 digits. */
  function DigitIndex(i: int): int
  {
    if i < 8 then i else if i < 13 then i - 1 else if i < 18 then i - 2 else if i < 23 then i - 3 else i - 4
  }

  lemma DigitsOfAt(s: string, i: int)
    requires |s| == 36 && 0 <= i < 36 && !IsHyphenPosition(i)
    ensures 0 <= DigitIndex(i) < 32 && DigitsOf(s)[DigitIndex(i)] == s[i]
  {
  }

  lemma CanonicalHyphens(u: Uuid)
    ensures forall i :: 0 <= i < 36 && IsHyphenPosition(i) ==> UuidToString(u)[i] == '-'
  {
  }

  /** The lower-case digit of a hex digit's value is the digit in lower case. */
  lemma LowerDigit(c: char)
    requires Hex.DigitValue(c).Some?
    ensures Hex.Alphabet[Hex.DigitValue(c).value] == LowerHex(c)
  {
  }
}
