/**
 * A prime: when a query (or prepared statement) arrives with one of the given consistency
 * levels, then answer with these rows, or this error result. Built with a builder that
 * checks, in order, that variable types only go with a prepared-statement prime and that a
 * query was given.
 */
module PrimingRequests {
  import Wrappers
  import opened Values
  import opened ColumnTypes

  datatype PrimeType = QueryPrime | PreparedPrime

  /** `PrimingRequest.Consistency`. */
  datatype Consistency =
    | Any | One | Two | Three | Quorum | All | LocalQuorum | EachQuorum | Serial | LocalSerial | LocalOne

  /** `PrimingRequest.Result`: what the primed server answers. */
  datatype PrimeResult = Success | ReadRequestTimeout | Unavailable | WriteRequestTimeout

  /** One row of a prime: column name to value. */
  type Row = map<string, Expected>

  /** `When`: the query and the consistency levels it applies to; `None` is null. */
  datatype When = When(query: Wrappers.Option<string>, consistency: Wrappers.Option<seq<Consistency>>)

  /** `Then`: the rows, the result, and the column and variable types; `None` is null. */
  datatype Then = Then(
    rows: Wrappers.Option<seq<Row>>,
    result: Wrappers.Option<PrimeResult>,
    columnTypes: Wrappers.Option<map<string, Constant>>,
    variableTypes: Wrappers.Option<seq<Constant>>)

  datatype PrimingRequest = PrimingRequest(whenPart: When, thenPart: Then)

  /** `a != null ? a.equals(b) : b == null`, for fields whose own `equals` compares values. */
  predicate NullSafeEquals<T(==)>(a: Wrappers.Option<T>, b: Wrappers.Option<T>)
  {
    match a
    case None => b.None?
    case Some(x) => b.Some? && b.value == x
  }

  /** `Arrays.equals`: both null, or the same length and equal element by element. */
  predicate ArraysEquals(a: Wrappers.Option<seq<Constant>>, b: Wrappers.Option<seq<Constant>>)
  {
    match a
    case None => b.None?
    case Some(xs) =>
      b.Some? && |xs| == |b.value| && forall i :: 0 <= i < |xs| ==> xs[i] == b.value[i]
  }

  /** `When.equals`: consistency list, then query. */
  predicate WhenEquals(x: When, y: When)
  {
    NullSafeEquals(x.consistency, y.consistency) && NullSafeEquals(x.query, y.query)
  }

  /** `Then.equals`: column types, result (by identity, as an enum), rows, and variable types element-wise. */
  predicate ThenEquals(x: Then, y: Then)
  {
    NullSafeEquals(x.columnTypes, y.columnTypes)
    && x.result == y.result
    && NullSafeEquals(x.rows, y.rows)
    && ArraysEquals(x.variableTypes, y.variableTypes)
  }

  /** `PrimingRequest.equals`: then, and when. */
  predicate RequestEquals(x: PrimingRequest, y: PrimingRequest)
  {
    ThenEquals(x.thenPart, y.thenPart) && WhenEquals(x.whenPart, y.whenPart)
  }

  /** All three `equals` are structural: equal exactly when every field is, nulls included. */
  lemma RequestEqualsStructural(x: PrimingRequest, y: PrimingRequest)
    ensures WhenEquals(x.whenPart, y.whenPart) <==> x.whenPart == y.whenPart
    ensures ThenEquals(x.thenPart, y.thenPart) <==> x.thenPart == y.thenPart
    ensures RequestEquals(x, y) <==> x == y
  {
    if ArraysEquals(x.thenPart.variableTypes, y.thenPart.variableTypes) && x.thenPart.variableTypes.Some? {
      assert x.thenPart.variableTypes.value == y.thenPart.variableTypes.value;
    }
  }

  const VariableTypesMessage := "Variable types only applicable for a prepared statement prime. Not a query prime."
  const MissingQueryMessage := "Must set query for PrimingRequest."

  /** `PrimingRequest.PrimingRequestBuilder`: the fields a test sets, each `with*` replacing the last value. */
  class PrimingRequestBuilder {
    const kind: PrimeType
    var consistency: Wrappers.Option<seq<Consistency>>
    var variableTypes: Wrappers.Option<seq<Constant>>
    var columnTypes: Wrappers.Option<map<string, Constant>>
    var query: Wrappers.Option<string>
    var rows: Wrappers.Option<seq<Row>>
    var result: Wrappers.Option<PrimeResult>

    /** `queryBuilder()` and `preparedStatementBuilder()`: nothing set, the result `success`. */
    constructor (kind: PrimeType)
      ensures this.kind == kind && result == Wrappers.Some(Success)
      ensures consistency.None? && variableTypes.None? && columnTypes.None? && query.None? && rows.None?
    {
      this.kind := kind;
      consistency := Wrappers.None;
      variableTypes := Wrappers.None;
      columnTypes := Wrappers.None;
      query := Wrappers.None;
      rows := Wrappers.None;
      result := Wrappers.Some(Success);
    }

    method WithQuery(query: Wrappers.Option<string>)
      modifies this
      ensures this.query == query
      ensures consistency == old(consistency) && variableTypes == old(variableTypes) && columnTypes == old(columnTypes)
      ensures rows == old(rows) && result == old(result)
    {
      this.query := query;
    }

    /** Both `withRows` overloads: a list, or the varargs in order. */
    method WithRows(rows: Wrappers.Option<seq<Row>>)
      modifies this
      ensures this.rows == rows
      ensures consistency == old(consistency) && variableTypes == old(variableTypes) && columnTypes == old(columnTypes)
      ensures query == old(query) && result == old(result)
    {
      this.rows := rows;
    }

    method WithResult(result: Wrappers.Option<PrimeResult>)
      modifies this
      ensures this.result == result
      ensures consistency == old(consistency) && variableTypes == old(variableTypes) && columnTypes == old(columnTypes)
      ensures query == old(query) && rows == old(rows)
    {
      this.result := result;
    }

    /** `withConsistency(Consistency...)`: the levels, in the order given. */
    method WithConsistency(consistency: Wrappers.Option<seq<Consistency>>)
      modifies this
      ensures this.consistency == consistency
      ensures variableTypes == old(variableTypes) && columnTypes == old(columnTypes)
      ensures query == old(query) && rows == old(rows) && result == old(result)
    {
      this.consistency := consistency;
    }

    method WithColumnTypes(columnTypes: Wrappers.Option<map<string, Constant>>)
      modifies this
      ensures this.columnTypes == columnTypes
      ensures consistency == old(consistency) && variableTypes == old(variableTypes)
      ensures query == old(query) && rows == old(rows) && result == old(result)
    {
      this.columnTypes := columnTypes;
    }

    method WithVariableTypes(variableTypes: Wrappers.Option<seq<Constant>>)
      modifies this
      ensures this.variableTypes == variableTypes
      ensures consistency == old(consistency) && columnTypes == old(columnTypes)
      ensures query == old(query) && rows == old(rows) && result == old(result)
    {
      this.variableTypes := variableTypes;
    }

    /**
     * `build()`. Variable types on a query prime fail first, then a missing query. Rows
     * default to the empty list only for a `success` result with no rows set; with any other
     * result they stay as set, possibly null. Everything else is carried over unchanged.
     */
    method Build() returns (r: Wrappers.Result<PrimingRequest, string>)
      ensures kind == QueryPrime && variableTypes.Some? ==> r == Wrappers.Failure(VariableTypesMessage)
      ensures !(kind == QueryPrime && variableTypes.Some?) && query.None? ==> r == Wrappers.Failure(MissingQueryMessage)
      ensures r.Success? <==> !(kind == QueryPrime && variableTypes.Some?) && query.Some?
      ensures r.Success? ==> r.value.whenPart == When(query, consistency)
      ensures r.Success? ==> r.value.thenPart.result == result && r.value.thenPart.columnTypes == columnTypes
      ensures r.Success? ==> r.value.thenPart.variableTypes == variableTypes
      ensures r.Success? ==> r.value.thenPart.rows == if result == Wrappers.Some(Success) && rows.None? then Wrappers.Some([]) else rows
    {
      if kind == QueryPrime && variableTypes.Some? {
        return Wrappers.Failure(VariableTypesMessage);
      }
      if query.None? {
        return Wrappers.Failure(MissingQueryMessage);
      }
      var rowsDefaultedToEmptyForSuccess := rows;
      if result == Wrappers.Some(Success) && rows.None? {
        rowsDefaultedToEmptyForSuccess := Wrappers.Some([]);
      }
      return Wrappers.Success(PrimingRequest(When(query, consistency),
                                             Then(rowsDefaultedToEmptyForSuccess, result, columnTypes, variableTypes)));
    }
  }

  /** What every prime `build()` returns keeps: a query, no variable types on a query prime, rows whenever the result is success. */
  predicate WellBuilt(kind: PrimeType, p: PrimingRequest)
  {
    && p.whenPart.query.Some?
    && (kind == QueryPrime ==> p.thenPart.variableTypes.None?)
    && (p.thenPart.result == Wrappers.Some(Success) ==> p.thenPart.rows.Some?)
  }

  /** A prime built from any sequence of settings is well built. */
  method BuildIsWellBuilt(b: PrimingRequestBuilder) returns (r: Wrappers.Result<PrimingRequest, string>)
    ensures r.Success? ==> WellBuilt(b.kind, r.value)
  {
    r := b.Build();
  }

  /** A query prime with variable types and no query reports the variable-types error, not the missing query. */
  method QueryPrimeWithVariableTypes(types: seq<Constant>) returns (r: Wrappers.Result<PrimingRequest, string>)
    ensures r == Wrappers.Failure(VariableTypesMessage)
  {
    var b := new PrimingRequestBuilder(QueryPrime);
    b.WithVariableTypes(Wrappers.Some(types));
    r := b.Build();
  }

  /** A prepared-statement prime accepts variable types: with a query set it builds, carrying them. */
  method PreparedPrimeWithVariableTypes(query: string, types: seq<Constant>) returns (r: Wrappers.Result<PrimingRequest, string>)
    ensures r.Success? && r.value.thenPart.variableTypes == Wrappers.Some(types)
    ensures r.value.thenPart.rows == Wrappers.Some([]) && r.value.whenPart == When(Wrappers.Some(query), Wrappers.None)
  {
    var b := new PrimingRequestBuilder(PreparedPrime);
    b.WithVariableTypes(Wrappers.Some(types));
    b.WithQuery(Wrappers.Some(query));
    r := b.Build();
  }
}
