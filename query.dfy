/** A query the server recorded (or that a test expects): its text and consistency level. */
module Queries {
  import opened Wrappers
  import JavaText

  /** `Query`; `None` is a null field. */
  datatype Query = Query(query: Option<string>, consistency: Option<string>)

  /** `a != null ? a.equals(b) : b == null` for two strings. */
  predicate NullSafeEquals(a: Option<string>, b: Option<string>)
  {
    match a
    case None => b.None?
    case Some(s) => b.Some? && b.value == s
  }

  /** `equals`: null-safe field-wise equality on consistency, then query text. */
  predicate QueryEquals(x: Query, y: Query)
  {
    NullSafeEquals(x.consistency, y.consistency) && NullSafeEquals(x.query, y.query)
  }

  /** `equals` is structural: two queries are equal exactly when both fields are, nulls included. */
  lemma QueryEqualsStructural(x: Query, y: Query)
    ensures QueryEquals(x, y) <==> x == y
  {
  }

  /** `s != null ? s.hashCode() : 0`. */
  function NullSafeHash(s: Option<string>): (h: int)
    ensures JavaText.IntMin <= h <= JavaText.IntMax
  {
    if s.None? then 0 else JavaText.StringHash(s.value)
  }

  /** `hashCode`: `31 * hash(query) + hash(consistency)` in `int` arithmetic. */
  function QueryHash(q: Query): (h: int)
    ensures JavaText.IntMin <= h <= JavaText.IntMax
  {
    JavaText.Wrap32(31 * NullSafeHash(q.query) + NullSafeHash(q.consistency))
  }

  /** `hashCode` agrees with `equals`. */
  lemma QueryHashConsistent(x: Query, y: Query)
    requires QueryEquals(x, y)
    ensures QueryHash(x) == QueryHash(y)
  {
  }

  /** Java's string conversion of a possibly null string. */
  function NullText(s: Option<string>): string
  {
    if s.None? then "null" else s.value
  }

  /** `toString`, the line a mismatch description prints for a query. */
  function QueryText(q: Query): string
  {
    "Query{query='" + NullText(q.query) + "', consistency='" + NullText(q.consistency) + "'}"
  }

  /** `Query.QueryBuilder`: the two fields a test sets before `build()`. */
  class QueryBuilder {
    var query: Option<string>
    var consistency: Option<string>

    /** `Query.builder()`: both fields start out null; there is no default consistency. */
    constructor ()
      ensures query == None && consistency == None
    {
      query := None;
      consistency := None;
    }

    method WithQuery(query: Option<string>)
      modifies this
      ensures this.query == query && consistency == old(consistency)
    {
      this.query := query;
    }

    method WithConsistency(consistency: Option<string>)
      modifies this
      ensures this.consistency == consistency && query == old(query)
    {
      this.consistency := consistency;
    }

    /** `build()`: copies both fields without checking them, so the getters return what was set (or null). */
    method Build() returns (q: Query)
      ensures q.query == query && q.consistency == consistency
    {
      q := Query(query, consistency);
    }
  }
}
