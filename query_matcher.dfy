/** The Hamcrest matcher that asks whether a given query is among the recorded ones. */
module QueryMatchers {
  import opened Wrappers
  import opened Queries
  import Descriptions

  /** `QueryMatcher`: the expected query, fixed at construction. */
  datatype QueryMatcher = QueryMatcher(query: Query)

  /** The constructor: a null query is refused with an `IllegalArgumentException`. */
  function NewQueryMatcher(query: Option<Query>): (r: Result<QueryMatcher, string>)
    ensures r.Failure? <==> query.None?
    ensures r.Failure? ==> r.error == "null query"
    ensures r.Success? ==> r.value.query == query.value
  {
    if query.None? then Failure("null query") else Success(QueryMatcher(query.value))
  }

  /**
   * `matchesSafely`: `queries.contains(query)`, a search for an element that `Query.equals`
   * the expected one; since that `equals` is structural, this is membership by value.
   */
  predicate MatchesSafely(m: QueryMatcher, queries: seq<Query>)
  {
    exists i :: 0 <= i < |queries| && QueryEquals(m.query, queries[i])
  }

  lemma MatchesIsMembership(m: QueryMatcher, queries: seq<Query>)
    ensures MatchesSafely(m, queries) <==> m.query in queries
  {
    if m.query in queries {
      var i :| 0 <= i < |queries| && queries[i] == m.query;
      assert QueryEquals(m.query, queries[i]);
    }
  }

  /** An empty list never matches, and only which queries occur matters: not their order or how often. */
  lemma MatchesDependsOnlyOnMembers(m: QueryMatcher, a: seq<Query>, b: seq<Query>)
    requires (set q | q in a) == (set q | q in b)
    ensures !MatchesSafely(m, [])
    ensures MatchesSafely(m, a) <==> MatchesSafely(m, b)
  {
    MatchesIsMembership(m, a);
    MatchesIsMembership(m, b);
    var members := set q | q in a;
    assert m.query in a <==> m.query in members;
    assert m.query in b <==> m.query in members;
  }

  /** `describeMismatchSafely`: the header, then every observed query on its own line, in order. */
  method DescribeMismatchSafely(actual: seq<Query>, description: Descriptions.Description)
    modifies description
    ensures description.text == old(description.text) + "the following queries were executed: " + Descriptions.Lines(actual, QueryText)
  {
    Descriptions.DescribeEach(description, "the following queries were executed: ", actual, QueryText);
  }
}
