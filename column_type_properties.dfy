/** What the `ColumnTypes` comparisons promise, stated over the whole input space. */
module ColumnTypeProperties {
  import opened Wrappers
  import opened JavaText
  import opened Values
  import opened ColumnTypes
  import Decimals
  import Hex
  import Uuids

  /** `p.equals(e, a)` answers true. */
  predicate Matches(p: Primitive, e: Expected, a: Actual)
  {
    ComparePrim(p, e, a) == Match(true)
  }

  predicate IsLongType(p: Primitive) { p == Bigint || p == Counter || p == Int }

  predicate IsDecimalType(p: Primitive) { p == Decimal || p == Double || p == Float }

  predicate IsUuidType(p: Primitive) { p == Uuid || p == Timeuuid }

  // ---------------------------------------------------------------- exception messages

  /**
   * Every `IllegalArgumentException` names a constant: the one called, or for a collection
   * the element constant whose comparison raised it. For sets and lists that name is a
   * prefix of the collection's own name.
   */
  lemma MessageNamesConstant(t: Constant, e: Expected, a: Actual)
    ensures var r := Compare(t, e, a);
            IllegalArgument(r) ==> (!t.MapOf? ==> r.name <= Name(t))
    ensures var r := Compare(t, e, a);
            IllegalArgument(r) && t.MapOf? ==> r.name == Name(t) || r.name == PrimName(t.key) || r.name == PrimName(t.value)
  {
    var r := Compare(t, e, a);
    if IllegalArgument(r) && !t.MapOf? {
      assert r.name in RaisableNames(t);
      if !t.Prim? {
        var p := t.elem;
        assert Name(t) == PrimName(p) + (if t.SetOf? then "Set" else "List");
      }
    }
  }

  // ---------------------------------------------------------------- null expected values

  /**
   * A null expected value: Blob, Boolean, Decimal, Double and Float refuse it; Timestamp has
   * already unboxed the actual, so a null actual fails and a number does not match; the
   * bigint-keyed maps answer false; every other constant matches only a null actual.
   */
  lemma NullExpectedRule(t: Constant, a: Actual)
    ensures t.Prim? && t.p in {Blob, Boolean, Decimal, Double, Float} ==> Compare(t, ENull, a) == NullExpected(Name(t))
    ensures t == Prim(Timestamp) ==>
              Compare(t, ENull, a) == (if a == ANull then Unchecked(NullPointer)
                                       else if a.ANumber? then Match(false) else Unchecked(ClassCast))
    ensures t.MapOf? && t.key == Bigint ==> Compare(t, ENull, a) == Match(false)
    ensures !(t.Prim? && t.p in {Blob, Boolean, Decimal, Double, Float, Timestamp}) && !(t.MapOf? && t.key == Bigint)
            ==> Compare(t, ENull, a) == Match(a == ANull)
  {
    if t.Prim? {
      NullExpectedPrimitive(t.p, a);
    }
  }

  lemma NullExpectedPrimitive(p: Primitive, a: Actual)
    ensures p in {Blob, Boolean, Decimal, Double, Float} ==> ComparePrim(p, ENull, a) == NullExpected(PrimName(p))
    ensures p == Timestamp ==>
              ComparePrim(p, ENull, a) == (if a == ANull then Unchecked(NullPointer)
                                           else if a.ANumber? then Match(false) else Unchecked(ClassCast))
    ensures p !in {Blob, Boolean, Decimal, Double, Float, Timestamp} ==> ComparePrim(p, ENull, a) == Match(a == ANull)
  {
  }

  /** A non-null expected against a null actual is a mismatch, except where Timestamp and Blob dereference it. */
  lemma NullActualRule(t: Constant, e: Expected)
    requires e != ENull
    ensures t != Prim(Timestamp) && t != Prim(Blob) ==> Compare(t, e, ANull) == Match(false) || IllegalArgument(Compare(t, e, ANull))
    ensures t == Prim(Timestamp) ==> Compare(t, e, ANull) == Unchecked(NullPointer)
    ensures t.Prim? && t.p !in {Blob, Boolean, Timestamp} ==> Compare(t, e, ANull) == Match(false)
    ensures t == Prim(Boolean) ==> Compare(t, e, ANull) == if e.EBoolean? then Match(false) else InvalidType("Boolean")
    ensures !t.Prim? ==> Compare(t, e, ANull) == Match(false)
  {
    if t.Prim? {
      NullActualPrimitive(t.p, e);
    }
  }

  lemma NullActualPrimitive(p: Primitive, e: Expected)
    requires e != ENull
    ensures p == Timestamp ==> ComparePrim(p, e, ANull) == Unchecked(NullPointer)
    ensures p == Boolean ==> ComparePrim(p, e, ANull) == if e.EBoolean? then Match(false) else InvalidType("Boolean")
    ensures p !in {Blob, Boolean, Timestamp} ==> ComparePrim(p, e, ANull) == Match(false)
  {
  }

  // ---------------------------------------------------------------- strings

  /** Ascii, Varchar and Text are one comparison: `Objects.equals`; a string expected matches only that exact string. */
  lemma TextualRule(p: Primitive, e: Expected, a: Actual)
    requires IsTextual(p)
    ensures ComparePrim(p, e, a) == ComparePrim(Ascii, e, a) == Match(ObjectsEquals(e, a))
    ensures e.EString? ==> (Matches(p, e, a) <==> a == AString(e.s))
  {
  }

  /** Inet: a string or an `InetAddress` (by its host-address text) matches only that text; nothing else is accepted. */
  lemma InetRule(e: Expected, a: Actual)
    requires e != ENull && a != ANull
    ensures e.EString? ==> ComparePrim(Inet, e, a) == Match(a == AString(e.s))
    ensures e.EInet? ==> ComparePrim(Inet, e, a) == Match(a == AString(e.hostAddress))
    ensures !e.EString? && !e.EInet? ==> ComparePrim(Inet, e, a) == InvalidType("Inet")
  {
  }

  // ---------------------------------------------------------------- integers

  /**
   * Bigint, Counter and Int truncate the actual double to a long and compare it with an
   * Integer, Long, BigInteger or integer string; `LongTypeRefusals` gives the other cases.
   */
  lemma LongTypeRule(p: Primitive, n: int, d: Decimals.Decimal)
    requires IsLongType(p)
    ensures ComparePrim(p, EInteger(n), ANumber(d)) == Match(n == Decimals.LongValue(d))
    ensures ComparePrim(p, ELong(n), ANumber(d)) == Match(n == Decimals.LongValue(d))
    ensures ComparePrim(p, EBigInteger(n), ANumber(d)) == Match(n == Decimals.LongValue(d))
    ensures ComparePrim(p, EString(IntToString(n)), ANumber(d)) == Match(n == Decimals.LongValue(d))
  {
    LongTypeUnfold(p, EInteger(n), ANumber(d));
    LongTypeUnfold(p, ELong(n), ANumber(d));
    LongTypeUnfold(p, EBigInteger(n), ANumber(d));
    LongTypeUnfold(p, EString(IntToString(n)), ANumber(d));
    PrintedIntegerRead(n, Decimals.LongValue(d), p);
  }

  /**
   * The refusals of Bigint, Counter and Int: a non-null expected against a recorded value that is
   * not a number fails the cast to `Double`, and a number against an expected of any kind other
   * than Integer, Long, BigInteger or String raises the type error naming the constant.
   */
  lemma LongTypeRefusals(p: Primitive, e: Expected, a: Actual)
    requires IsLongType(p)
    ensures e != ENull && a != ANull && !a.ANumber? ==> ComparePrim(p, e, a) == Unchecked(ClassCast)
    ensures !(e.EInteger? || e.ELong? || e.EBigInteger? || e.EString? || e.ENull?) && a.ANumber?
            ==> ComparePrim(p, e, a) == InvalidType(PrimName(p))
  {
    LongTypeUnfold(p, e, a);
  }

  lemma LongTypeUnfold(p: Primitive, e: Expected, a: Actual)
    requires IsLongType(p)
    ensures ComparePrim(p, e, a) == EqualsForLongType(p, e, a)
  {
  }

  /** A string that `new BigInteger` rejects raises the type error, for the long types and Varint alike. */
  lemma NonIntegerStringRefused(p: Primitive, s: string, d: Decimals.Decimal)
    requires IsLongType(p) || p == Varint
    requires ParseBigInteger(s).None?
    ensures ComparePrim(p, EString(s), ANumber(d)) == InvalidType(PrimName(p))
  {
  }

  /** Varint follows the integer rule for BigInteger and strings, but refuses Integer and Long. */
  lemma VarintRule(n: int, d: Decimals.Decimal)
    ensures ComparePrim(Varint, EBigInteger(n), ANumber(d)) == Match(n == Decimals.LongValue(d))
    ensures ComparePrim(Varint, EString(IntToString(n)), ANumber(d)) == Match(n == Decimals.LongValue(d))
    ensures ComparePrim(Varint, EInteger(n), ANumber(d)) == InvalidType("Varint")
    ensures ComparePrim(Varint, ELong(n), ANumber(d)) == InvalidType("Varint")
  {
    VarintBigIntegerRule(n, d);
    VarintStringRule(n, d);
    VarintRefusesInteger(n, d);
    VarintRefusesLong(n, d);
  }

  lemma VarintBigIntegerRule(n: int, d: Decimals.Decimal)
    ensures ComparePrim(Varint, EBigInteger(n), ANumber(d)) == Match(n == Decimals.LongValue(d))
  {
  }

  lemma VarintRefusesInteger(n: int, d: Decimals.Decimal)
    ensures ComparePrim(Varint, EInteger(n), ANumber(d)) == InvalidType("Varint")
  {
  }

  lemma VarintRefusesLong(n: int, d: Decimals.Decimal)
    ensures ComparePrim(Varint, ELong(n), ANumber(d)) == InvalidType("Varint")
  {
  }

  lemma VarintStringRule(n: int, d: Decimals.Decimal)
    ensures ComparePrim(Varint, EString(IntToString(n)), ANumber(d)) == Match(n == Decimals.LongValue(d))
  {
    VarintStringUnfold(IntToString(n), d);
    PrintedIntegerRead(n, Decimals.LongValue(d), Varint);
  }

  lemma VarintStringUnfold(s: string, d: Decimals.Decimal)
    ensures ComparePrim(Varint, EString(s), ANumber(d)) == CompareStringInteger(s, Decimals.LongValue(d), Varint)
  {
    VarintUnfold(EString(s), ANumber(d));
  }

  lemma VarintUnfold(e: Expected, a: Actual)
    ensures ComparePrim(Varint, e, a) == VarintEquals(e, a)
  {
  }

  /** A printed integer read back by `compareStringInteger` is compared by its value. */
  lemma PrintedIntegerRead(n: int, typedActual: int, p: Primitive)
    ensures CompareStringInteger(IntToString(n), typedActual, p) == Match(n == typedActual)
  {
    IntToStringRoundTrip(n);
  }

  /** A whole-number actual is read exactly: n arrives as n. */
  lemma WholeNumberActual(p: Primitive, n: int)
    requires IsLongType(p)
    requires Decimals.LongMin <= n <= Decimals.LongMax
    ensures Matches(p, EInteger(n), ANumber(Decimals.Decimal(n, 0)))
    ensures Matches(p, EString(IntToString(n)), ANumber(Decimals.Decimal(n, 0)))
  {
    LongTypeRule(p, n, Decimals.Decimal(n, 0));
  }

  // ---------------------------------------------------------------- timestamps

  /**
   * Timestamp compares a Long or a Date's milliseconds with the truncated actual, and refuses every
   * other expected value; an actual that is null or not a number fails the unboxing cast first.
   */
  lemma TimestampRule(e: Expected, d: Decimals.Decimal, a: Actual)
    ensures e.ELong? ==> ComparePrim(Timestamp, e, ANumber(d)) == Match(e.l == Decimals.LongValue(d))
    ensures e.EDate? ==> ComparePrim(Timestamp, e, ANumber(d)) == Match(e.millis == Decimals.LongValue(d))
    ensures e != ENull && !e.ELong? && !e.EDate? ==> ComparePrim(Timestamp, e, ANumber(d)) == InvalidType("Timestamp")
    ensures ComparePrim(Timestamp, e, ANull) == Unchecked(NullPointer)
    ensures a != ANull && !a.ANumber? ==> ComparePrim(Timestamp, e, a) == Unchecked(ClassCast)
  {
  }

  // ---------------------------------------------------------------- decimals

  /** A readable string expected is compared with the actual by value. */
  lemma DecimalStringRule(p: Primitive, s: string, a: Actual)
    requires IsDecimalType(p) && a != ANull
    requires Decimals.ParseBigDecimal(s).Some? && ActualDecimal(a).Some?
    ensures ComparePrim(p, EString(s), a)
         == Match(Decimals.SameValue(Decimals.ParseBigDecimal(s).value, ActualDecimal(a).value))
  {
  }

  /** Decimal, Double and Float compare values whatever the scale: "n.000" matches "n". */
  lemma DecimalScaleInsensitive(p: Primitive, n: int, k: nat)
    requires IsDecimalType(p)
    ensures Matches(p, EString(IntToString(n) + "." + Zeros(k)), AString(IntToString(n)))
    ensures Matches(p, EString(IntToString(n) + "." + Zeros(k)), ANumber(Decimals.Decimal(n, 0)))
  {
    var s := IntToString(n) + "." + Zeros(k);
    Decimals.ParseZeroFraction(n, k);
    Decimals.ParseIntegerString(n);
    DecimalStringRule(p, s, AString(IntToString(n)));
    DecimalStringRule(p, s, ANumber(Decimals.Decimal(n, 0)));
  }

  /** Two expected BigDecimals of the same value (scales aside) get the same answer for every actual. */
  lemma DecimalExpectedByValue(p: Primitive, x: Decimals.Decimal, y: Decimals.Decimal, a: Actual)
    requires IsDecimalType(p)
    requires Decimals.SameValue(x, y)
    ensures ComparePrim(p, EBigDecimal(x), a) == ComparePrim(p, EBigDecimal(y), a)
  {
    if a != ANull && ActualDecimal(a).Some? {
      var z := ActualDecimal(a).value;
      Decimals.SameValueSymmetric(x, y);
      if Decimals.SameValue(x, z) {
        Decimals.SameValueTransitive(y, x, z);
      }
      if Decimals.SameValue(y, z) {
        Decimals.SameValueTransitive(x, y, z);
      }
    }
  }

  /** Only a String or BigDecimal expected is read; an unreadable string, or a null, is refused. */
  lemma DecimalRefusals(p: Primitive, e: Expected, a: Actual)
    requires IsDecimalType(p) && a != ANull
    ensures e == ENull ==> ComparePrim(p, e, a) == NullExpected(PrimName(p))
    ensures e.EString? && Decimals.ParseBigDecimal(e.s).None? ==> ComparePrim(p, e, a) == InvalidType(PrimName(p))
    ensures e != ENull && !e.EString? && !e.EBigDecimal? ==> ComparePrim(p, e, a) == InvalidType(PrimName(p))
  {
  }

  // ---------------------------------------------------------------- blobs

  lemma BlobBufferRule(b: seq<Hex.Byte>, text: string)
    ensures ComparePrim(Blob, EBytes(b), AString(text)) == Match(Hex.HexEncode(b) == Hex.ReplaceFirst0x(text))
  {
  }

  /** A buffer matches "0x" followed by the hex of exactly its remaining bytes, and nothing else of that form. */
  lemma BlobHexMatch(b: seq<Hex.Byte>, c: seq<Hex.Byte>)
    ensures ComparePrim(Blob, EBytes(b), AString("0x" + Hex.HexEncode(c))) == Match(b == c)
    ensures ComparePrim(Blob, EBytes(b), AString(Hex.HexEncode(c))) == Match(b == c)
  {
    var h := Hex.HexEncode(c);
    Hex.StripLeading0x(h);
    Hex.HexEncodeFree0x(c);
    Hex.ReplaceFirst0xNoOccurrence(h);
    Hex.HexEncodeInjective(b, c);
    BlobBufferRule(b, "0x" + h);
    BlobBufferRule(b, h);
  }

  /** A string expected is compared with the whole actual, "0x" included; anything other than a string or buffer is refused. */
  lemma BlobRule(e: Expected, a: Actual)
    ensures e.EString? ==> ComparePrim(Blob, e, a) == Match(a == AString(e.s))
    ensures e.EBytes? && a == ANull ==> ComparePrim(Blob, e, a) == Unchecked(NullPointer)
    ensures e.EBytes? && a != ANull && !a.AString? ==> ComparePrim(Blob, e, a) == Match(false)
    ensures e != ENull && !e.EString? && !e.EBytes? ==> ComparePrim(Blob, e, a) == InvalidType("Blob")
  {
  }

  /** Boolean refuses a null or non-Boolean expected, and otherwise matches only the same boolean. */
  lemma BooleanRule(e: Expected, a: Actual)
    ensures e == ENull ==> ComparePrim(Boolean, e, a) == NullExpected("Boolean")
    ensures e.EBoolean? ==> ComparePrim(Boolean, e, a) == Match(a == ABool(e.b))
    ensures e != ENull && !e.EBoolean? ==> ComparePrim(Boolean, e, a) == InvalidType("Boolean")
  {
  }

  // ---------------------------------------------------------------- UUIDs

  lemma UuidToStringInjective(u: Uuids.Uuid, v: Uuids.Uuid)
    ensures Uuids.UuidToString(u) == Uuids.UuidToString(v) <==> u == v
  {
    Uuids.UuidRoundTrip(u);
    Uuids.UuidRoundTrip(v);
  }

  /** A `UUID` expected matches the canonical text of the same UUID and of no other. */
  lemma UuidObjectRule(p: Primitive, u: Uuids.Uuid, v: Uuids.Uuid)
    requires IsUuidType(p)
    ensures ComparePrim(p, EUuid(u), AString(Uuids.UuidToString(v))) == Match(u == v)
  {
    UuidToStringInjective(u, v);
  }

  /** A string expected is parsed, so it matches any spelling of the same UUID, whatever its case. */
  lemma UuidStringRule(p: Primitive, s: string, t: string)
    requires IsUuidType(p)
    requires Uuids.ParseUuid(s).Some? && Uuids.ParseUuid(t).Some?
    ensures ComparePrim(p, EString(s), AString(t)) == Match(Uuids.ParseUuid(s) == Uuids.ParseUuid(t))
  {
  }

  /**
   * The two expected forms disagree on an upper-case actual: the string form of a UUID
   * matches it, the `UUID` object does not.
   */
  lemma UuidCaseAsymmetry(p: Primitive, t: string)
    requires IsUuidType(p)
    requires Uuids.ParseUuid(t).Some? && Uuids.Lower(t) != t
    ensures var u := Uuids.ParseUuid(t).value;
            Matches(p, EString(Uuids.UuidToString(u)), AString(t)) && !Matches(p, EUuid(u), AString(t))
  {
    var u := Uuids.ParseUuid(t).value;
    Uuids.UuidRoundTrip(u);
    Uuids.ParsedPrintsLowered(t);
  }

  /** A string expected that is not a UUID is refused, whatever the actual. */
  lemma UuidBadStringRefused(p: Primitive, s: string, a: Actual)
    requires IsUuidType(p) && a != ANull
    requires Uuids.ParseUuid(s).None?
    ensures ComparePrim(p, EString(s), a) == InvalidType(PrimName(p))
  {
  }

  // ---------------------------------------------------------------- sets

  /** No element comparison between the two sides raises. */
  predicate NeverRaises(p: Primitive, expecteds: seq<Expected>, actuals: seq<Actual>)
  {
    forall x, y :: x in expecteds && y in actuals ==> ComparePrim(p, x, y).Match?
  }

  /** The set rule: every expected element matches some actual element. */
  predicate EveryHasPartner(p: Primitive, expecteds: seq<Expected>, actuals: seq<Actual>)
  {
    forall x :: x in expecteds ==> exists y :: y in actuals && Matches(p, x, y)
  }

  lemma {:induction false} AnyMatchMeaning(p: Primitive, x: Expected, actuals: seq<Actual>)
    requires forall y :: y in actuals ==> ComparePrim(p, x, y).Match?
    ensures AnyMatch(p, x, actuals) == Match(exists y :: y in actuals && Matches(p, x, y))
  {
    if actuals != [] {
      var rest := actuals[1..];
      assert forall y :: y in rest ==> y in actuals;
      AnyMatchMeaning(p, x, rest);
      assert forall y :: y in actuals <==> y == actuals[0] || y in rest;
      var o := ComparePrim(p, x, actuals[0]);
      assert o.Match?;
      if o.matched {
        assert Matches(p, x, actuals[0]);
        assert AnyMatch(p, x, actuals) == Match(true);
      } else {
        assert o == Match(false);
        assert AnyMatch(p, x, actuals) == AnyMatch(p, x, rest);
      }
    }
  }

  lemma {:induction false} AllAnyMeaning(p: Primitive, expecteds: seq<Expected>, actuals: seq<Actual>)
    requires NeverRaises(p, expecteds, actuals)
    ensures AllAny(p, expecteds, actuals) == Match(EveryHasPartner(p, expecteds, actuals))
  {
    if expecteds != [] {
      var rest := expecteds[1..];
      assert forall x :: x in rest ==> x in expecteds;
      AnyMatchMeaning(p, expecteds[0], actuals);
      AllAnyMeaning(p, rest, actuals);
      assert forall x :: x in expecteds <==> x == expecteds[0] || x in rest;
      if EveryHasPartner(p, expecteds, actuals) {
        assert expecteds[0] in expecteds;
        assert AnyMatch(p, expecteds[0], actuals) == Match(true);
        assert EveryHasPartner(p, rest, actuals);
      } else if AnyMatch(p, expecteds[0], actuals) == Match(true) {
        assert !EveryHasPartner(p, rest, actuals);
      }
    }
  }

  /**
   * When no element comparison raises, a set matches exactly when the sizes agree and every
   * expected element matches some actual element; nothing requires the pairing to be one-to-one.
   */
  lemma SetRule(t: Constant, expecteds: seq<Expected>, actuals: seq<Actual>)
    requires t.SetOf?
    requires NeverRaises(t.elem, expecteds, actuals)
    ensures Compare(t, ESet(expecteds), AList(actuals))
         == Match(|expecteds| == |actuals| && EveryHasPartner(t.elem, expecteds, actuals))
  {
    if |expecteds| == |actuals| {
      AllAnyMeaning(t.elem, expecteds, actuals);
    }
  }

  /** The order of either side does not change the answer, as long as no comparison raises. */
  lemma SetOrderIrrelevant(t: Constant, e1: seq<Expected>, e2: seq<Expected>, a1: seq<Actual>, a2: seq<Actual>)
    requires t.SetOf?
    requires multiset(e1) == multiset(e2) && multiset(a1) == multiset(a2)
    requires NeverRaises(t.elem, e1, a1)
    ensures Compare(t, ESet(e1), AList(a1)) == Compare(t, ESet(e2), AList(a2))
  {
    assert forall x :: x in e1 <==> x in multiset(e1);
    assert forall x :: x in e2 <==> x in multiset(e2);
    assert forall y :: y in a1 <==> y in multiset(a1);
    assert forall y :: y in a2 <==> y in multiset(a2);
    assert |e1| == |multiset(e1)| && |e2| == |multiset(e2)|;
    assert |a1| == |multiset(a1)| && |a2| == |multiset(a2)|;
    SetRule(t, e1, a1);
    SetRule(t, e2, a2);
  }

  /** Not a bijection: {"1", "1.0"} matches ["1", "2"] as a decimal set, though "2" is never matched. */
  lemma SetNotBijective()
    ensures Compare(SetOf(Decimal), ESet([EString("1"), EString("1.0")]), AList([AString("1"), AString("2")])) == Match(true)
  {
    var actuals := [AString("1"), AString("2")];
    DecimalTextMatchesOne("1");
    DecimalTextMatchesOne("1.0");
    assert AnyMatch(Decimal, EString("1"), actuals) == Match(true);
    assert AnyMatch(Decimal, EString("1.0"), actuals) == Match(true);
    assert [EString("1"), EString("1.0")][1..] == [EString("1.0")];
  }

  lemma DecimalTextMatchesOne(s: string)
    requires s == "1" || s == "1.0"
    ensures ComparePrim(Decimal, EString(s), AString("1")) == Match(true)
  {
    Decimals.ParseIntegerString(1);
    Decimals.ParseZeroFraction(1, 1);
    assert IntToString(1) == "1";
    assert IntToString(1) + "." + Zeros(1) == "1.0";
    Decimals.SameValueReflexive(Decimals.Decimal(1, 0));
    DecimalStringRule(Decimal, s, AString("1"));
  }

  // ---------------------------------------------------------------- lists

  /** Position `k` is where the scan of two lists stops: every earlier position matched. */
  predicate FirstMiss(p: Primitive, expecteds: seq<Expected>, actuals: seq<Actual>, k: int)
    requires |expecteds| == |actuals|
  {
    && 0 <= k < |expecteds|
    && (forall i :: 0 <= i < k ==> Matches(p, expecteds[i], actuals[i]))
    && !Matches(p, expecteds[k], actuals[k])
  }

  /**
   * Lists of equal length match exactly when every position matches; otherwise the answer
   * (false or an exception) is that of the first position that does not match.
   */
  lemma {:induction false} ListScanMeaning(p: Primitive, expecteds: seq<Expected>, actuals: seq<Actual>)
    requires |expecteds| == |actuals|
    ensures ListScan(p, expecteds, actuals) == Match(true)
            <==> forall i :: 0 <= i < |expecteds| ==> Matches(p, expecteds[i], actuals[i])
    ensures ListScan(p, expecteds, actuals) != Match(true)
            ==> exists k :: FirstMiss(p, expecteds, actuals, k)
                            && ListScan(p, expecteds, actuals) == ComparePrim(p, expecteds[k], actuals[k])
  {
    if expecteds != [] {
      ListScanMeaning(p, expecteds[1..], actuals[1..]);
      if Matches(p, expecteds[0], actuals[0]) {
        if ListScan(p, expecteds, actuals) != Match(true) {
          var k :| FirstMiss(p, expecteds[1..], actuals[1..], k)
                   && ListScan(p, expecteds[1..], actuals[1..]) == ComparePrim(p, expecteds[1..][k], actuals[1..][k]);
          assert FirstMiss(p, expecteds, actuals, k + 1);
        }
      } else {
        assert FirstMiss(p, expecteds, actuals, 0);
      }
    }
  }

  /** The list rule: equal lengths and a match at every position, in order. */
  lemma ListRule(t: Constant, expecteds: seq<Expected>, actuals: seq<Actual>)
    requires t.ListOf?
    ensures Compare(t, EList(expecteds), AList(actuals)) == Match(true)
            <==> |expecteds| == |actuals| && forall i :: 0 <= i < |expecteds| ==> Matches(t.elem, expecteds[i], actuals[i])
  {
    if |expecteds| == |actuals| {
      ListScanMeaning(t.elem, expecteds, actuals);
    }
  }

  /** Order matters for lists: ["one", "two"] does not match ["two", "one"]. */
  lemma ListOrderMatters()
    ensures Compare(ListOf(Text), EList([EString("one"), EString("two")]), AList([AString("two"), AString("one")])) == Match(false)
  {
  }

  // ---------------------------------------------------------------- maps

  /** Some actual entry has a matching key and, under it, a matching value. */
  predicate EntryHasPartner(kp: Primitive, vp: Primitive, entry: (Expected, Expected), actuals: seq<(string, Actual)>)
  {
    exists j :: 0 <= j < |actuals| && Matches(kp, entry.0, AString(actuals[j].0)) && Matches(vp, entry.1, actuals[j].1)
  }

  lemma EntryAnyMeaning(kp: Primitive, vp: Primitive, entry: (Expected, Expected), actuals: seq<(string, Actual)>)
    requires IsTextual(kp) && IsTextual(vp)
    ensures EntryAny(kp, vp, entry, actuals) == Match(EntryHasPartner(kp, vp, entry, actuals))
  {
    EntryAnyText(kp, vp, entry, actuals);
    forall j | 0 <= j < |actuals|
      ensures TextHit(entry, actuals[j]) <==> Matches(kp, entry.0, AString(actuals[j].0)) && Matches(vp, entry.1, actuals[j].1)
    {
      HitIsMatch(kp, vp, entry, actuals[j]);
    }
  }

  /** An actual entry whose key and value are the expected key and value as `Objects.equals` sees them. */
  predicate TextHit(entry: (Expected, Expected), pair: (string, Actual))
  {
    ObjectsEquals(entry.0, AString(pair.0)) && ObjectsEquals(entry.1, pair.1)
  }

  lemma HitIsMatch(kp: Primitive, vp: Primitive, entry: (Expected, Expected), pair: (string, Actual))
    requires IsTextual(kp) && IsTextual(vp)
    ensures TextHit(entry, pair) <==> Matches(kp, entry.0, AString(pair.0)) && Matches(vp, entry.1, pair.1)
  {
    TextualRule(kp, entry.0, AString(pair.0));
    TextualRule(vp, entry.1, pair.1);
  }

  lemma EntryAnyStep(kp: Primitive, vp: Primitive, entry: (Expected, Expected), actuals: seq<(string, Actual)>)
    requires IsTextual(kp) && IsTextual(vp) && actuals != []
    ensures EntryAny(kp, vp, entry, actuals)
         == if TextHit(entry, actuals[0]) then Match(true) else EntryAny(kp, vp, entry, actuals[1..])
  {
    TextualRule(kp, entry.0, AString(actuals[0].0));
    TextualRule(vp, entry.1, actuals[0].1);
  }

  /** With textual keys and values, `any` over the actual entries looks for an entry equal to the expected one. */
  lemma {:induction false} EntryAnyText(kp: Primitive, vp: Primitive, entry: (Expected, Expected), actuals: seq<(string, Actual)>)
    requires IsTextual(kp) && IsTextual(vp)
    ensures EntryAny(kp, vp, entry, actuals) == Match(exists j :: 0 <= j < |actuals| && TextHit(entry, actuals[j]))
  {
    if actuals != [] {
      EntryAnyStep(kp, vp, entry, actuals);
      var rest := actuals[1..];
      EntryAnyText(kp, vp, entry, rest);
      if exists j :: 0 <= j < |rest| && TextHit(entry, rest[j]) {
        var j :| 0 <= j < |rest| && TextHit(entry, rest[j]);
        assert rest[j] == actuals[j + 1];
      }
      if exists j :: 0 <= j < |actuals| && TextHit(entry, actuals[j]) {
        var j :| 0 <= j < |actuals| && TextHit(entry, actuals[j]);
        if j > 0 {
          assert rest[j - 1] == actuals[j];
        }
      }
    }
  }

  lemma {:induction false} MapScanMeaning(kp: Primitive, vp: Primitive, expecteds: seq<(Expected, Expected)>, actuals: seq<(string, Actual)>)
    requires IsTextual(kp) && IsTextual(vp)
    ensures MapScan(kp, vp, expecteds, actuals)
         == Match(forall i :: 0 <= i < |expecteds| ==> EntryHasPartner(kp, vp, expecteds[i], actuals))
  {
    if expecteds != [] {
      var rest := expecteds[1..];
      assert forall i :: 1 <= i < |expecteds| ==> expecteds[i] == rest[i - 1];
      MapScanMeaning(kp, vp, rest, actuals);
      MapScanHead(kp, vp, expecteds, actuals);
    }
  }

  lemma MapScanHead(kp: Primitive, vp: Primitive, expecteds: seq<(Expected, Expected)>, actuals: seq<(string, Actual)>)
    requires IsTextual(kp) && IsTextual(vp) && expecteds != []
    ensures MapScan(kp, vp, expecteds, actuals)
         == if EntryHasPartner(kp, vp, expecteds[0], actuals) then MapScan(kp, vp, expecteds[1..], actuals) else Match(false)
  {
    EntryAnyMeaning(kp, vp, expecteds[0], actuals);
  }

  /**
   * The map rule. Keys and values of every declared map are compared as strings, which never
   * raises, so a map matches exactly when the sizes agree and each expected entry has some
   * actual key whose key and value both match.
   */
  lemma MapRule(t: Constant, expecteds: seq<(Expected, Expected)>, actuals: seq<(string, Actual)>)
    requires t.MapOf? && t.key != Bigint
    ensures Compare(t, EMap(expecteds), AMap(actuals))
         == Match(|expecteds| == |actuals|
                  && forall i :: 0 <= i < |expecteds| ==> EntryHasPartner(t.key, t.value, expecteds[i], actuals))
  {
    if |expecteds| == |actuals| {
      MapScanMeaning(t.key, t.value, expecteds, actuals);
    }
  }

  /** The bigint-keyed maps never match and never raise. */
  lemma BigintMapsNeverMatch(t: Constant, e: Expected, a: Actual)
    requires t.MapOf? && t.key == Bigint
    ensures Compare(t, e, a) == Match(false)
  {
  }

  /** A collection constant refuses an expected value of the wrong collection kind. */
  lemma CollectionKindRefused(t: Constant, e: Expected, a: Actual)
    requires !t.Prim? && !(t.MapOf? && t.key == Bigint)
    requires e != ENull && a != ANull
    requires (t.SetOf? && !e.ESet?) || (t.ListOf? && !e.EList?) || (t.MapOf? && !e.EMap?)
    ensures Compare(t, e, a) == InvalidType(Name(t))
  {
  }
}
