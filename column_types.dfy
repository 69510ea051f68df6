/**
 * The `ColumnTypes` enum: one constant per column type a prime or a recorded execution can
 * name, each deciding whether a test author's expected value matches the value the server
 * reported. A comparison either answers, or raises `IllegalArgumentException` naming a
 * constant, or fails with an unchecked JDK exception the code does not catch.
 */
module ColumnTypes {
  import opened Wrappers
  import opened JavaText
  import opened Values
  import Decimals
  import Hex
  import Uuids

  datatype Primitive =
    | Ascii | Bigint | Blob | Boolean | Counter | Decimal | Double | Float
    | Int | Timestamp | Varchar | Varint | Timeuuid | Uuid | Inet | Text

  /** The shape of a constant: a primitive, or a collection of primitives. */
  datatype ColumnType =
    | Prim(p: Primitive)
    | SetOf(elem: Primitive)
    | ListOf(elem: Primitive)
    | MapOf(key: Primitive, value: Primitive)

  predicate IsTextual(p: Primitive) { p == Varchar || p == Text || p == Ascii }

  /**
   * The shapes the enum declares: every primitive; a set and a list of every primitive
   * but counter; maps from varchar, text or ascii to varchar, text or ascii; and maps
   * from bigint to varchar, text or ascii.
   */
  predicate IsConstant(t: ColumnType)
  {
    match t
    case Prim(_) => true
    case SetOf(p) => p != Counter
    case ListOf(p) => p != Counter
    case MapOf(k, v) => (IsTextual(k) || k == Bigint) && IsTextual(v)
  }

  /** One constant of the enum. */
  type Constant = t: ColumnType | IsConstant(t) witness Prim(Ascii)

  /** The Java name of a primitive constant, as `name()` returns it. */
  function PrimName(p: Primitive): string
  {
    match p
    case Ascii => "Ascii"       case Bigint => "Bigint"     case Blob => "Blob"
    case Boolean => "Boolean"   case Counter => "Counter"   case Decimal => "Decimal"
    case Double => "Double"     case Float => "Float"       case Int => "Int"
    case Timestamp => "Timestamp" case Varchar => "Varchar" case Varint => "Varint"
    case Timeuuid => "Timeuuid" case Uuid => "Uuid"         case Inet => "Inet"
    case Text => "Text"
  }

  /** `name()` of a constant: `VarcharSet`, `IntList`, `TextAsciiMap`, ... */
  function Name(t: Constant): string
  {
    match t
    case Prim(p) => PrimName(p)
    case SetOf(p) => PrimName(p) + "Set"
    case ListOf(p) => PrimName(p) + "List"
    case MapOf(k, v) => PrimName(k) + PrimName(v) + "Map"
  }

  /** The CQL name of a primitive type. */
  function WireName(p: Primitive): string
  {
    match p
    case Ascii => "ascii"       case Bigint => "bigint"     case Blob => "blob"
    case Boolean => "boolean"   case Counter => "counter"   case Decimal => "decimal"
    case Double => "double"     case Float => "float"       case Int => "int"
    case Timestamp => "timestamp" case Varchar => "varchar" case Varint => "varint"
    case Timeuuid => "timeuuid" case Uuid => "uuid"         case Inet => "inet"
    case Text => "text"
  }

  /** The `@SerializedName` under which Gson writes and reads a constant. */
  function SerializedName(t: Constant): string
  {
    match t
    case Prim(p) => WireName(p)
    case SetOf(p) => "set<" + WireName(p) + ">"
    case ListOf(p) => "list<" + WireName(p) + ">"
    case MapOf(k, v) => "map<" + WireName(k) + "," + WireName(v) + ">"
  }

  /** Unchecked exceptions the comparison code can hit and does not catch. */
  datatype JavaFault = NullPointer | ClassCast | NumberFormat

  /** The outcome of one `equals(expected, actual)` call. */
  datatype Outcome =
    | Match(matched: bool)
    | InvalidType(name: string)    // throwInvalidType: an expected value of the wrong class
    | NullExpected(name: string)   // throwNullError: a null expected value for a type that refuses it
    | Unchecked(fault: JavaFault)

  /** The call ends in `IllegalArgumentException`; `name` is the constant its message names. */
  predicate IllegalArgument(o: Outcome) { o.InvalidType? || o.NullExpected? }

  /** `new BigInteger(typedActual.toString())`: printing a long and reading it back. */
  function BigIntegerOfLong(l: int): (n: int)
    ensures n == l
  {
    IntToStringRoundTrip(l);
    ParseBigInteger(IntToString(l)).value
  }

  /** `compareStringInteger`: a string expected is read as a `BigInteger`. */
  function CompareStringInteger(s: string, typedActual: int, p: Primitive): (r: Outcome)
    ensures r.InvalidType? <==> ParseBigInteger(s).None?
    ensures r.InvalidType? ==> r.name == PrimName(p)
    ensures r.Match? ==> r.matched == (ParseBigInteger(s) == Some(typedActual))
  {
    match ParseBigInteger(s)
    case None => InvalidType(PrimName(p))
    case Some(n) => Match(n == BigIntegerOfLong(typedActual))
  }

  /** `equalsForLongType`, shared by Bigint, Counter and Int. */
  function EqualsForLongType(p: Primitive, e: Expected, a: Actual): Outcome
  {
    if e == ENull then Match(a == ANull)
    else if a == ANull then Match(false)
    else if !a.ANumber? then Unchecked(ClassCast)
    else
      var typedActual := Decimals.LongValue(a.d);
      match e
      case EInteger(i) => Match(i == typedActual)
      case ELong(l) => Match(l == typedActual)
      case EBigInteger(n) => Match(n == BigIntegerOfLong(typedActual))
      case EString(s) => CompareStringInteger(s, typedActual, p)
      case _ => InvalidType(PrimName(p))
  }

  /** `equalsDecimalType`, shared by Decimal, Double and Float: values compared with `compareTo`. */
  function EqualsDecimalType(p: Primitive, e: Expected, a: Actual): Outcome
  {
    if e == ENull then NullExpected(PrimName(p))
    else if a == ANull then Match(false)
    else
      match e
      case EString(s) =>
        var x, y := Decimals.ParseBigDecimal(s), ActualDecimal(a);
        if x.None? || y.None? then InvalidType(PrimName(p))
        else Match(Decimals.SameValue(x.value, y.value))
      case EBigDecimal(d) =>
        var y := ActualDecimal(a);
        if y.None? then Unchecked(NumberFormat) else Match(Decimals.SameValue(d, y.value))
      case _ => InvalidType(PrimName(p))
  }

  /** `equalsForUUID`, shared by Uuid and Timeuuid. */
  function EqualsForUuid(p: Primitive, e: Expected, a: Actual): Outcome
  {
    if e == ENull then Match(a == ANull)
    else if a == ANull then Match(false)
    else
      match e
      case EString(s) =>
        var x, y := Uuids.ParseUuid(s), ActualUuid(a);
        if x.None? || y.None? then InvalidType(PrimName(p)) else Match(x.value == y.value)
      case EUuid(u) => Match(a == AString(Uuids.UuidToString(u)))
      case _ => InvalidType(PrimName(p))
  }

  /** Ascii: `Objects.equals`; Varchar and Text delegate to it. */
  function AsciiEquals(e: Expected, a: Actual): Outcome
  {
    Match(ObjectsEquals(e, a))
  }

  /**
   * Blob. A `ByteBuffer` expected is compared as the lower-case hex of its remaining bytes
   * against the actual's text with its first "0x" removed. The text of a non-string actual
   * ("1.0", "true", "[...]", "{...}") always holds a character that is not a lower-case hex
   * digit, so it never matches.
   */
  function BlobEquals(e: Expected, a: Actual): Outcome
  {
    match e
    case ENull => NullExpected(PrimName(Blob))
    case EString(s) => Match(a == AString(s))
    case EBytes(bytes) =>
      if a == ANull then Unchecked(NullPointer)
      else Match(a.AString? && Hex.HexEncode(bytes) == Hex.ReplaceFirst0x(a.s))
    case _ => InvalidType(PrimName(Blob))
  }

  function BooleanEquals(e: Expected, a: Actual): Outcome
  {
    match e
    case ENull => NullExpected(PrimName(Boolean))
    case EBoolean(b) => Match(a == ABool(b))
    case _ => InvalidType(PrimName(Boolean))
  }

  /** Timestamp unboxes the actual double before it looks at either null. */
  function TimestampEquals(e: Expected, a: Actual): Outcome
  {
    match a
    case ANull => Unchecked(NullPointer)
    case ANumber(d) =>
      var typedActual := Decimals.LongValue(d);
      (match e
       case ENull => Match(false)
       case ELong(l) => Match(l == typedActual)
       case EDate(millis) => Match(millis == typedActual)
       case _ => InvalidType(PrimName(Timestamp)))
    case _ => Unchecked(ClassCast)
  }

  function VarintEquals(e: Expected, a: Actual): Outcome
  {
    if e == ENull then Match(a == ANull)
    else if a == ANull then Match(false)
    else if !a.ANumber? then Unchecked(ClassCast)
    else
      var typedActual := Decimals.LongValue(a.d);
      match e
      case EBigInteger(n) => Match(n == BigIntegerOfLong(typedActual))
      case EString(s) => CompareStringInteger(s, typedActual, Varint)
      case _ => InvalidType(PrimName(Varint))
  }

  function InetEquals(e: Expected, a: Actual): Outcome
  {
    if e == ENull then Match(a == ANull)
    else if a == ANull then Match(false)
    else
      match e
      case EString(s) => Match(a == AString(s))
      case EInet(host) => Match(a == AString(host))
      case _ => InvalidType(PrimName(Inet))
  }

  /** `equals` of a primitive constant. Any `IllegalArgumentException` names that constant. */
  function ComparePrim(p: Primitive, e: Expected, a: Actual): (r: Outcome)
    ensures IllegalArgument(r) ==> r.name == PrimName(p)
  {
    match p
    case Ascii => AsciiEquals(e, a)
    case Varchar => AsciiEquals(e, a)
    case Text => AsciiEquals(e, a)
    case Bigint => EqualsForLongType(p, e, a)
    case Counter => EqualsForLongType(p, e, a)
    case Int => EqualsForLongType(p, e, a)
    case Decimal => EqualsDecimalType(p, e, a)
    case Double => EqualsDecimalType(p, e, a)
    case Float => EqualsDecimalType(p, e, a)
    case Timeuuid => EqualsForUuid(p, e, a)
    case Uuid => EqualsForUuid(p, e, a)
    case Blob => BlobEquals(e, a)
    case Boolean => BooleanEquals(e, a)
    case Timestamp => TimestampEquals(e, a)
    case Varint => VarintEquals(e, a)
    case Inet => InetEquals(e, a)
  }

  /**
   * `Iterables.any(actualList, eachActual -> p.equals(expected, eachActual))`: scans in
   * order, stops at the first match, and lets the first exception through.
   */
  function AnyMatch(p: Primitive, e: Expected, actuals: seq<Actual>): (r: Outcome)
    ensures IllegalArgument(r) ==> r.name == PrimName(p)
  {
    if actuals == [] then Match(false)
    else
      var o := ComparePrim(p, e, actuals[0]);
      if o == Match(false) then AnyMatch(p, e, actuals[1..]) else o
  }

  /** `Iterables.all(typedExpected, eachExpected -> any(...))`, in the set's iteration order. */
  function AllAny(p: Primitive, expecteds: seq<Expected>, actuals: seq<Actual>): (r: Outcome)
    ensures IllegalArgument(r) ==> r.name == PrimName(p)
  {
    if expecteds == [] then Match(true)
    else
      var o := AnyMatch(p, expecteds[0], actuals);
      if o == Match(true) then AllAny(p, expecteds[1..], actuals) else o
  }

  /** `compareSet`: equal sizes, and every expected element matches some actual element. */
  function CompareSet(t: Constant, p: Primitive, e: Expected, a: Actual): Outcome
  {
    if e == ENull then Match(a == ANull)
    else if a == ANull then Match(false)
    else if !e.ESet? then InvalidType(Name(t))
    else if !a.AList? then Unchecked(ClassCast)
    else if |e.elements| != |a.items| then Match(false)
    else AllAny(p, e.elements, a.items)
  }

  /** The position-wise scan of `compareList`: the first position that does not match decides. */
  function ListScan(p: Primitive, expecteds: seq<Expected>, actuals: seq<Actual>): (r: Outcome)
    requires |expecteds| == |actuals|
    ensures IllegalArgument(r) ==> r.name == PrimName(p)
  {
    if expecteds == [] then Match(true)
    else
      var o := ComparePrim(p, expecteds[0], actuals[0]);
      if o == Match(true) then ListScan(p, expecteds[1..], actuals[1..]) else o
  }

  /** `compareList`: equal lengths and a position-wise match. */
  function CompareListSpec(t: Constant, p: Primitive, e: Expected, a: Actual): Outcome
  {
    if e == ENull then Match(a == ANull)
    else if a == ANull then Match(false)
    else if !e.EList? then InvalidType(Name(t))
    else if !a.AList? then Unchecked(ClassCast)
    else if |e.items| != |a.items| then Match(false)
    else ListScan(p, e.items, a.items)
  }

  /**
   * The `Iterables.any` over the actual keys in `compareMap`: a key must match before its
   * value is compared.
   */
  function EntryAny(kp: Primitive, vp: Primitive, entry: (Expected, Expected), actuals: seq<(string, Actual)>): (r: Outcome)
    ensures IllegalArgument(r) ==> r.name == PrimName(kp) || r.name == PrimName(vp)
  {
    if actuals == [] then Match(false)
    else
      var ko := ComparePrim(kp, entry.0, AString(actuals[0].0));
      if ko == Match(false) then EntryAny(kp, vp, entry, actuals[1..])
      else if ko != Match(true) then ko
      else
        var vo := ComparePrim(vp, entry.1, actuals[0].1);
        if vo == Match(false) then EntryAny(kp, vp, entry, actuals[1..]) else vo
  }

  /** The loop of `compareMap` over the expected entries. */
  function MapScan(kp: Primitive, vp: Primitive, expecteds: seq<(Expected, Expected)>, actuals: seq<(string, Actual)>): (r: Outcome)
    ensures IllegalArgument(r) ==> r.name == PrimName(kp) || r.name == PrimName(vp)
  {
    if expecteds == [] then Match(true)
    else
      var o := EntryAny(kp, vp, expecteds[0], actuals);
      if o == Match(true) then MapScan(kp, vp, expecteds[1..], actuals) else o
  }

  /** `compareMap`: equal sizes, and every expected entry matches some actual entry. */
  function CompareMapSpec(t: Constant, kp: Primitive, vp: Primitive, e: Expected, a: Actual): Outcome
  {
    if e == ENull then Match(a == ANull)
    else if a == ANull then Match(false)
    else if !e.EMap? then InvalidType(Name(t))
    else if !a.AMap? then Unchecked(ClassCast)
    else if |e.entries| != |a.entries| then Match(false)
    else MapScan(kp, vp, e.entries, a.entries)
  }

  /** The names of the constants a comparison under `t` can put in an exception message. */
  function RaisableNames(t: Constant): set<string>
  {
    match t
    case Prim(p) => {PrimName(p)}
    case SetOf(p) => {Name(t), PrimName(p)}
    case ListOf(p) => {Name(t), PrimName(p)}
    case MapOf(k, v) => {Name(t), PrimName(k), PrimName(v)}
  }

  /**
   * `t.equals(expected, actual)`. The three bigint-keyed maps have no override of their own
   * and inherit the enum's `equals`, which answers false.
   */
  function Compare(t: Constant, e: Expected, a: Actual): (r: Outcome)
    ensures IllegalArgument(r) ==> r.name in RaisableNames(t)
  {
    match t
    case Prim(p) => ComparePrim(p, e, a)
    case SetOf(p) => CompareSet(t, p, e, a)
    case ListOf(p) => CompareListSpec(t, p, e, a)
    case MapOf(k, v) => if k == Bigint then Match(false) else CompareMapSpec(t, k, v, e, a)
  }

  lemma ListScanStep(p: Primitive, expecteds: seq<Expected>, actuals: seq<Actual>, i: nat)
    requires i < |expecteds| == |actuals|
    ensures ListScan(p, expecteds[i..], actuals[i..])
            == var o := ComparePrim(p, expecteds[i], actuals[i]);
               if o == Match(true) then ListScan(p, expecteds[i + 1..], actuals[i + 1..]) else o
  {
    assert expecteds[i..][1..] == expecteds[i + 1..];
    assert actuals[i..][1..] == actuals[i + 1..];
  }

  lemma MapScanStep(kp: Primitive, vp: Primitive, expecteds: seq<(Expected, Expected)>, actuals: seq<(string, Actual)>, i: nat)
    requires i < |expecteds|
    ensures MapScan(kp, vp, expecteds[i..], actuals)
            == var o := EntryAny(kp, vp, expecteds[i], actuals);
               if o == Match(true) then MapScan(kp, vp, expecteds[i + 1..], actuals) else o
  {
    assert expecteds[i..][1..] == expecteds[i + 1..];
  }

  /** `compareList` as written: an index loop that returns at the first position that does not match. */
  method CompareList(t: Constant, p: Primitive, e: Expected, a: Actual) returns (r: Outcome)
    ensures r == CompareListSpec(t, p, e, a)
  {
    if e == ENull { return Match(a == ANull); }
    if a == ANull { return Match(false); }
    if !e.EList? { return InvalidType(Name(t)); }
    if !a.AList? { return Unchecked(ClassCast); }
    var expecteds, actuals := e.items, a.items;
    if |expecteds| != |actuals| { return Match(false); }
    assert CompareListSpec(t, p, e, a) == ListScan(p, expecteds, actuals);
    var i := 0;
    while i < |actuals|
      invariant 0 <= i <= |actuals|
      invariant ListScan(p, expecteds, actuals) == ListScan(p, expecteds[i..], actuals[i..])
    {
      var o := ComparePrim(p, expecteds[i], actuals[i]);
      ListScanStep(p, expecteds, actuals, i);
      if o != Match(true) {
        return o;
      }
      i := i + 1;
    }
    return Match(true);
  }

  /** `compareMap` as written: a for-each over the expected entries that returns at the first one without a match. */
  method CompareMap(t: Constant, kp: Primitive, vp: Primitive, e: Expected, a: Actual) returns (r: Outcome)
    ensures r == CompareMapSpec(t, kp, vp, e, a)
  {
    if e == ENull { return Match(a == ANull); }
    if a == ANull { return Match(false); }
    if !e.EMap? { return InvalidType(Name(t)); }
    if !a.AMap? { return Unchecked(ClassCast); }
    var expecteds, actuals := e.entries, a.entries;
    if |expecteds| != |actuals| { return Match(false); }
    assert CompareMapSpec(t, kp, vp, e, a) == MapScan(kp, vp, expecteds, actuals);
    for i := 0 to |expecteds|
      invariant MapScan(kp, vp, expecteds, actuals) == MapScan(kp, vp, expecteds[i..], actuals)
    {
      var found := EntryAny(kp, vp, expecteds[i], actuals);
      MapScanStep(kp, vp, expecteds, actuals, i);
      if found != Match(true) {
        return found;
      }
    }
    return Match(true);
  }

  /** `t.equals(expected, actual)`, dispatching to the loops of `compareList` and `compareMap`. */
  method Equals(t: Constant, e: Expected, a: Actual) returns (r: Outcome)
    ensures r == Compare(t, e, a)
  {
    match t
    case Prim(p) => r := ComparePrim(p, e, a);
    case SetOf(p) => r := CompareSet(t, p, e, a);
    case ListOf(p) => r := CompareList(t, p, e, a);
    case MapOf(k, v) =>
      if k == Bigint {
        r := Match(false);
      } else {
        r := CompareMap(t, k, v, e, a);
      }
  }
}
