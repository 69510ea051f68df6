/**
 * The two sides of a value comparison: the native Java value a test author primes or
 * expects, and the loosely typed value Gson decodes from the server's JSON (numbers as
 * doubles, UUIDs, blobs and addresses as strings, sets as lists, objects as string-keyed maps).
 */
module Values {
  import opened Wrappers
  import opened Decimals
  import Hex
  import Uuids

  /** A Java object passed as an expected value; `ENull` is `null`. */
  datatype Expected =
    | ENull
    | EString(s: string)
    | EInteger(i: int)                       // java.lang.Integer
    | ELong(l: int)                          // java.lang.Long
    | EBigInteger(n: int)                    // java.math.BigInteger
    | EBigDecimal(d: Decimal)                // java.math.BigDecimal
    | EDouble(x: Decimal)                    // java.lang.Double
    | EBoolean(b: bool)
    | EBytes(remaining: seq<Hex.Byte>)       // java.nio.ByteBuffer, as the bytes between position and limit
    | EDate(millis: int)                     // java.util.Date
    | EUuid(u: Uuids.Uuid)                   // java.util.UUID
    | EInet(hostAddress: string)             // java.net.InetAddress, by its host-address text
    | ESet(elements: seq<Expected>)          // java.util.Set, in its iteration order
    | EList(items: seq<Expected>)            // java.util.List
    | EMap(entries: seq<(Expected, Expected)>)  // java.util.Map, entries in iteration order

  /** A value Gson decodes from JSON into `Object`; `ANull` is `null`. */
  datatype Actual =
    | ANull
    | ANumber(d: Decimal)                    // java.lang.Double, as the decimal it denotes
    | AString(s: string)
    | ABool(b: bool)
    | AList(items: seq<Actual>)
    | AMap(entries: seq<(string, Actual)>)   // JSON object: keys are strings, in insertion order

  /**
   * `java.util.Objects.equals(expected, actual)`: null equals only null, and otherwise
   * `expected.equals(actual)`, which is false unless the runtime classes agree; lists
   * compare element-wise, maps entry by entry, and a `Set` never equals a `List`.
   */
  predicate ObjectsEquals(e: Expected, a: Actual)
  {
    match e
    case ENull => a == ANull
    case EString(s) => a == AString(s)
    case EBoolean(b) => a == ABool(b)
    case EDouble(x) => a.ANumber? && SameValue(x, a.d)
    case EList(es) =>
      a.AList? && |es| == |a.items|
      && forall i :: 0 <= i < |es| ==> ObjectsEquals(es[i], a.items[i])
    case EMap(es) =>
      a.AMap? && |es| == |a.entries|
      && forall i :: 0 <= i < |es| ==>
           exists j :: 0 <= j < |a.entries| && es[i].0 == EString(a.entries[j].0)
                       && ObjectsEquals(es[i].1, a.entries[j].1)
    case _ => false
  }

  /** `new BigDecimal(actual.toString())`; `None` is the `NumberFormatException`. */
  function ActualDecimal(a: Actual): Option<Decimal>
    requires a != ANull
  {
    match a
    case ANumber(d) => Some(d)
    case AString(s) => ParseBigDecimal(s)
    case _ => None      // "true", "false", "[...]" and "{...}" are not decimals
  }

  /** `UUID.fromString(actual.toString())`; `None` is the exception it raises. */
  function ActualUuid(a: Actual): Option<Uuids.Uuid>
    requires a != ANull
  {
    match a
    case AString(s) => Uuids.ParseUuid(s)
    case _ => None      // no number, boolean, list or map prints as 8-4-4-4-12 hex groups
  }
}
