/**
 * One execution of a prepared statement: its text, consistency level and bound variables.
 * A test builds the expected one from native values; the server reports recorded ones
 * decoded from JSON, so the record is generic in the type of its variables.
 */
module Executions {
  import opened Wrappers
  import JavaText
  import Queries

  /**
   * `PreparedStatementExecution`; `None` is a null field. A record decoded from JSON can have
   * a null variables list; one built with the builder never does.
   */
  datatype Execution<V> = Execution(text: Option<string>, consistency: Option<string>, variables: Option<seq<V>>)

  /** `List.equals` on possibly null lists: both null, or the same length and equal element by element. */
  predicate ListEquals<V(==)>(xs: Option<seq<V>>, ys: Option<seq<V>>)
  {
    match xs
    case None => ys.None?
    case Some(a) =>
      ys.Some? && |a| == |ys.value| && forall i :: 0 <= i < |a| ==> a[i] == ys.value[i]
  }

  /**
   * `equals`: null-safe field-wise equality on consistency, text and variables, the
   * variables compared as lists.
   */
  predicate ExecutionEquals<V(==)>(x: Execution<V>, y: Execution<V>)
  {
    Queries.NullSafeEquals(x.consistency, y.consistency)
    && Queries.NullSafeEquals(x.text, y.text)
    && ListEquals(x.variables, y.variables)
  }

  /** `equals` is structural: two executions are equal exactly when all three fields are. */
  lemma ExecutionEqualsStructural<V>(x: Execution<V>, y: Execution<V>)
    ensures ExecutionEquals(x, y) <==> x == y
  {
    if ExecutionEquals(x, y) && x.variables.Some? {
      assert x.variables.value == y.variables.value;
    }
  }

  /** `List.hashCode()`: `h = 31 * h + hash(e)` from 1, in `int` arithmetic; `elementHash` hashes one variable. */
  function ListHash<V>(xs: seq<V>, elementHash: V -> int): (h: int)
    ensures JavaText.IntMin <= h <= JavaText.IntMax
  {
    if xs == [] then 1 else JavaText.Wrap32(31 * ListHash(xs[..|xs| - 1], elementHash) + elementHash(xs[|xs| - 1]))
  }

  /** `hashCode`: text, then consistency, then variables (0 when null), folded with 31. */
  function ExecutionHash<V>(x: Execution<V>, elementHash: V -> int): (h: int)
    ensures JavaText.IntMin <= h <= JavaText.IntMax
  {
    var h := Queries.NullSafeHash(x.text);
    var h := JavaText.Wrap32(31 * h + Queries.NullSafeHash(x.consistency));
    JavaText.Wrap32(31 * h + (if x.variables.None? then 0 else ListHash(x.variables.value, elementHash)))
  }

  /** `hashCode` agrees with `equals`, whatever hash each variable has. */
  lemma ExecutionHashConsistent<V>(x: Execution<V>, y: Execution<V>, elementHash: V -> int)
    requires ExecutionEquals(x, y)
    ensures ExecutionHash(x, elementHash) == ExecutionHash(y, elementHash)
  {
    ExecutionEqualsStructural(x, y);
  }

  /** `List.toString()`: "[a, b, c]". */
  function ListText<V>(xs: seq<V>, show: V -> string): string
  {
    "[" + Joined(xs, show) + "]"
  }

  function Joined<V>(xs: seq<V>, show: V -> string): string
  {
    if xs == [] then ""
    else if |xs| == 1 then show(xs[0])
    else show(xs[0]) + ", " + Joined(xs[1..], show)
  }

  /** `toString`, the line a mismatch description prints for an execution. */
  function ExecutionText<V>(x: Execution<V>, show: V -> string): string
  {
    "PreparedStatementExecution{preparedStatementText='" + Queries.NullText(x.text)
    + "', consistency='" + Queries.NullText(x.consistency)
    + "', variables=" + (if x.variables.None? then "null" else ListText(x.variables.value, show)) + "}"
  }

  const MissingTextMessage := "Must set PreparedStatementExecutionBuilder"

  /** `PreparedStatementExecution.PreparedStatementExecutionBuilder`. */
  class ExecutionBuilder<V> {
    var text: Option<string>
    var consistency: Option<string>
    var variables: seq<V>

    /** `builder()`: no text yet, consistency "ONE", no variables. */
    constructor ()
      ensures text == None && consistency == Some("ONE") && variables == []
    {
      text := None;
      consistency := Some("ONE");
      variables := [];
    }

    method WithConsistency(consistency: Option<string>)
      modifies this
      ensures this.consistency == consistency
      ensures text == old(text) && variables == old(variables)
    {
      this.consistency := consistency;
    }

    method WithPreparedStatementText(text: Option<string>)
      modifies this
      ensures this.text == text
      ensures consistency == old(consistency) && variables == old(variables)
    {
      this.text := text;
    }

    /** `withVariables(Object...)`: the arguments, in order, replace any earlier ones. */
    method WithVariables(variables: seq<V>)
      modifies this
      ensures this.variables == variables
      ensures text == old(text) && consistency == old(consistency)
    {
      this.variables := variables;
    }

    /**
     * `build()`: an `IllegalStateException` when the text was never set; otherwise an execution
     * whose getters return exactly the text, consistency and variables last set.
     */
    method Build() returns (r: Result<Execution<V>, string>)
      ensures r.Failure? <==> text.None?
      ensures r.Failure? ==> r.error == MissingTextMessage
      ensures r.Success? ==> r.value.text == text && r.value.text.Some?
      ensures r.Success? ==> r.value.consistency == consistency && r.value.variables == Some(variables)
    {
      if text.None? {
        return Failure(MissingTextMessage);
      }
      return Success(Execution(text, consistency, Some(variables)));
    }
  }

  /** A builder used without `withConsistency` or `withVariables` builds consistency "ONE" and no variables. */
  method DefaultsExample<V>(text: string) returns (x: Execution<V>)
    ensures x == Execution(Some(text), Some("ONE"), Some([]))
  {
    var b := new ExecutionBuilder<V>();
    b.WithPreparedStatementText(Some(text));
    var r := b.Build();
    x := r.value;
  }
}
