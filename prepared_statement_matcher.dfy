/**
 * The Hamcrest matcher that asks whether an expected prepared-statement execution is among
 * the recorded ones: consistency, text and variable count must agree, and then each variable
 * must match under the column type the server recorded for its position.
 */
module PreparedStatementMatchers {
  import opened Wrappers
  import opened Values
  import opened ColumnTypes
  import opened Executions
  import Descriptions

  /** A recorded execution, with the column type the server reports for each variable position. */
  datatype Recorded = Recorded(execution: Execution<Actual>, variableTypes: seq<Constant>)

  /** What checking one record, or the whole list, ends in: an answer, or an exception that escapes. */
  datatype Verdict =
    | Answer(matched: bool)
    | CountMismatch(variables: seq<Actual>, variableTypes: seq<Constant>)  // IllegalArgumentException
    | NullField                                                           // NullPointerException: a null field is dereferenced
    | Raised(cause: Outcome)                                              // from ColumnTypes.equals

  /** `PreparedStatementMatcher`: the expected execution, fixed at construction. */
  datatype PreparedStatementMatcher = PreparedStatementMatcher(expected: Execution<Expected>)

  const NullExpectedMessage := "null expectedPreparedStatementExecution"

  /** The constructor: a null expected execution is refused with an `IllegalArgumentException`. */
  function NewPreparedStatementMatcher(expected: Option<Execution<Expected>>): (r: Result<PreparedStatementMatcher, string>)
    ensures r.Failure? <==> expected.None?
    ensures r.Failure? ==> r.error == NullExpectedMessage
    ensures r.Success? ==> r.value.expected == expected.value
  {
    if expected.None? then Failure(NullExpectedMessage) else Success(PreparedStatementMatcher(expected.value))
  }

  /** The position loop: the first position whose comparison is not `true` decides. */
  function Positions(types: seq<Constant>, expecteds: seq<Expected>, actuals: seq<Actual>): Verdict
    requires |types| == |expecteds| == |actuals|
  {
    if types == [] then Answer(true)
    else
      var o := Compare(types[0], expecteds[0], actuals[0]);
      if o == Match(true) then Positions(types[1..], expecteds[1..], actuals[1..])
      else if o == Match(false) then Answer(false)
      else Raised(o)
  }

  /**
   * `doesPreparedStatementMatch`: the record's own variable count is checked against its
   * variable types first, then consistency, text and the expected variable count, then each
   * position. `getVariables()` wraps the list, so a null variables list fails where it is
   * fetched: the record's before the count check, the expected one after the text check. A
   * null consistency or text in the record fails at its `equals` call.
   */
  function ExecutionMatches(expected: Execution<Expected>, record: Recorded): Verdict
  {
    var types := record.variableTypes;
    if record.execution.variables.None? then NullField
    else
      var actuals := record.execution.variables.value;
      if |types| != |actuals| then CountMismatch(actuals, types)
      else if record.execution.consistency.None? then NullField
      else if record.execution.consistency != expected.consistency then Answer(false)
      else if record.execution.text.None? then NullField
      else if record.execution.text != expected.text then Answer(false)
      else if expected.variables.None? then NullField
      else if |expected.variables.value| != |actuals| then Answer(false)
      else Positions(types, expected.variables.value, actuals)
  }

  /** `matchesSafely`: records in list order; the first that does not answer false decides. */
  function Scan(expected: Execution<Expected>, records: seq<Recorded>): Verdict
  {
    if records == [] then Answer(false)
    else
      var v := ExecutionMatches(expected, records[0]);
      if v == Answer(false) then Scan(expected, records[1..]) else v
  }

  /** `doesPreparedStatementMatch` as written, with its index loop over the variable positions. */
  method DoesPreparedStatementMatch(m: PreparedStatementMatcher, record: Recorded) returns (r: Verdict)
    ensures r == ExecutionMatches(m.expected, record)
  {
    var variableTypes := record.variableTypes;
    if record.execution.variables.None? {
      return NullField;
    }
    var actualVariables := record.execution.variables.value;
    if |variableTypes| != |actualVariables| {
      return CountMismatch(actualVariables, variableTypes);
    }
    if record.execution.consistency.None? {
      return NullField;
    }
    if record.execution.consistency != m.expected.consistency {
      return Answer(false);
    }
    if record.execution.text.None? {
      return NullField;
    }
    if record.execution.text != m.expected.text {
      return Answer(false);
    }
    if m.expected.variables.None? {
      return NullField;
    }
    var expectedVariables := m.expected.variables.value;
    if |expectedVariables| != |actualVariables| {
      return Answer(false);
    }
    var index := 0;
    while index < |expectedVariables|
      invariant 0 <= index <= |expectedVariables|
      invariant ExecutionMatches(m.expected, record)
                == Positions(variableTypes[index..], expectedVariables[index..], actualVariables[index..])
    {
      assert variableTypes[index..][1..] == variableTypes[index + 1..];
      assert expectedVariables[index..][1..] == expectedVariables[index + 1..];
      assert actualVariables[index..][1..] == actualVariables[index + 1..];
      var o := Equals(variableTypes[index], expectedVariables[index], actualVariables[index]);
      if o == Match(false) {
        return Answer(false);
      } else if o != Match(true) {
        return Raised(o);
      }
      index := index + 1;
    }
    return Answer(true);
  }

  /** `matchesSafely` as written: a scan with early return; an exception from a record ends it. */
  method MatchesSafely(m: PreparedStatementMatcher, records: seq<Recorded>) returns (r: Verdict)
    ensures r == Scan(m.expected, records)
  {
    for i := 0 to |records|
      invariant Scan(m.expected, records) == Scan(m.expected, records[i..])
    {
      assert records[i..][1..] == records[i + 1..];
      var v := DoesPreparedStatementMatch(m, records[i]);
      if v != Answer(false) {
        return v;
      }
    }
    return Answer(false);
  }

  /** All positions match exactly when the loop answers true; otherwise the first position that does not decides. */
  lemma {:induction false} PositionsMeaning(types: seq<Constant>, expecteds: seq<Expected>, actuals: seq<Actual>)
    requires |types| == |expecteds| == |actuals|
    ensures Positions(types, expecteds, actuals) == Answer(true)
            <==> forall i :: 0 <= i < |types| ==> Compare(types[i], expecteds[i], actuals[i]) == Match(true)
    ensures forall k :: 0 <= k < |types|
              && (forall i :: 0 <= i < k ==> Compare(types[i], expecteds[i], actuals[i]) == Match(true))
              && Compare(types[k], expecteds[k], actuals[k]) != Match(true)
              ==> Positions(types, expecteds, actuals)
                  == var o := Compare(types[k], expecteds[k], actuals[k]); if o == Match(false) then Answer(false) else Raised(o)
  {
    if types != [] {
      var ts, es, acts := types[1..], expecteds[1..], actuals[1..];
      PositionsMeaning(ts, es, acts);
      forall i | 0 <= i < |ts|
        ensures Compare(ts[i], es[i], acts[i]) == Compare(types[i + 1], expecteds[i + 1], actuals[i + 1])
      {
      }
      forall k | 0 <= k < |types|
        && (forall i :: 0 <= i < k ==> Compare(types[i], expecteds[i], actuals[i]) == Match(true))
        && Compare(types[k], expecteds[k], actuals[k]) != Match(true)
        ensures Positions(types, expecteds, actuals)
                == var o := Compare(types[k], expecteds[k], actuals[k]); if o == Match(false) then Answer(false) else Raised(o)
      {
        if k > 0 {
          assert Compare(types[0], expecteds[0], actuals[0]) == Match(true);
          assert Compare(ts[k - 1], es[k - 1], acts[k - 1]) == Compare(types[k], expecteds[k], actuals[k]);
        }
      }
    }
  }

  /**
   * A record matches exactly when its consistency and text equal the expected ones, all three
   * variable counts agree, and every variable matches under the record's column type for its
   * position. A record with a null variables list raises, and so does one whose variable count
   * differs from its variable types, whatever else it holds.
   */
  lemma ExecutionMatchesMeaning(expected: Execution<Expected>, record: Recorded)
    ensures record.execution.variables.None? ==> ExecutionMatches(expected, record) == NullField
    ensures record.execution.variables.Some? && |record.variableTypes| != |record.execution.variables.value|
            ==> ExecutionMatches(expected, record) == CountMismatch(record.execution.variables.value, record.variableTypes)
    ensures ExecutionMatches(expected, record) == Answer(true) <==>
              && record.execution.variables.Some? && expected.variables.Some?
              && record.execution.consistency.Some? && record.execution.consistency == expected.consistency
              && record.execution.text.Some? && record.execution.text == expected.text
              && |record.variableTypes| == |record.execution.variables.value| == |expected.variables.value|
              && forall i :: 0 <= i < |expected.variables.value| ==>
                   Compare(record.variableTypes[i], expected.variables.value[i], record.execution.variables.value[i]) == Match(true)
  {
    if record.execution.variables.Some? && expected.variables.Some? {
      var types, actuals := record.variableTypes, record.execution.variables.value;
      if |types| == |actuals| == |expected.variables.value| {
        PositionsMeaning(types, expected.variables.value, actuals);
      }
    }
  }

  /**
   * The scan answers false exactly when every record answers false (so an empty list never
   * matches); otherwise the first record that does not answer false decides, whether it
   * matched or raised, and later records are never looked at.
   */
  lemma {:induction false} ScanMeaning(expected: Execution<Expected>, records: seq<Recorded>)
    ensures Scan(expected, records) == Answer(false)
            <==> forall i :: 0 <= i < |records| ==> ExecutionMatches(expected, records[i]) == Answer(false)
    ensures forall k :: 0 <= k < |records|
              && (forall i :: 0 <= i < k ==> ExecutionMatches(expected, records[i]) == Answer(false))
              && ExecutionMatches(expected, records[k]) != Answer(false)
              ==> Scan(expected, records) == ExecutionMatches(expected, records[k])
  {
    if records != [] {
      var rest := records[1..];
      ScanMeaning(expected, rest);
      forall i | 0 <= i < |rest|
        ensures rest[i] == records[i + 1]
      {
      }
      forall k | 0 <= k < |records|
        && (forall i :: 0 <= i < k ==> ExecutionMatches(expected, records[i]) == Answer(false))
        && ExecutionMatches(expected, records[k]) != Answer(false)
        ensures Scan(expected, records) == ExecutionMatches(expected, records[k])
      {
        if k > 0 {
          assert ExecutionMatches(expected, records[0]) == Answer(false);
          assert rest[k - 1] == records[k];
        }
      }
    }
  }

  /** When no record raises, the matcher answers true exactly when some record matches. */
  lemma ScanWithoutErrors(expected: Execution<Expected>, records: seq<Recorded>)
    requires forall i :: 0 <= i < |records| ==> ExecutionMatches(expected, records[i]).Answer?
    ensures Scan(expected, records)
            == Answer(exists i :: 0 <= i < |records| && ExecutionMatches(expected, records[i]) == Answer(true))
  {
    ScanMeaning(expected, records);
    if exists i :: 0 <= i < |records| && ExecutionMatches(expected, records[i]) == Answer(true) {
      var k := FirstMatch(expected, records);
      assert Scan(expected, records) == ExecutionMatches(expected, records[k]);
    }
  }

  /** The index of the first record that answers true, when one does. */
  lemma FirstMatch(expected: Execution<Expected>, records: seq<Recorded>) returns (k: nat)
    requires exists i :: 0 <= i < |records| && ExecutionMatches(expected, records[i]) == Answer(true)
    requires forall i :: 0 <= i < |records| ==> ExecutionMatches(expected, records[i]).Answer?
    ensures k < |records| && ExecutionMatches(expected, records[k]) == Answer(true)
    ensures forall i :: 0 <= i < k ==> ExecutionMatches(expected, records[i]) == Answer(false)
  {
    k := 0;
    while ExecutionMatches(expected, records[k]) != Answer(true)
      invariant k < |records|
      invariant exists i :: k <= i < |records| && ExecutionMatches(expected, records[i]) == Answer(true)
      invariant forall i :: 0 <= i < k ==> ExecutionMatches(expected, records[i]) == Answer(false)
      decreases |records| - k
    {
      k := k + 1;
    }
  }

  /** `describeMismatchSafely`: the header, then every recorded execution on its own line, in order. */
  method DescribeMismatchSafely(records: seq<Execution<Actual>>, description: Descriptions.Description, show: Actual -> string)
    modifies description
    ensures description.text
            == old(description.text) + "the following prepared statements were executed: "
               + Descriptions.Lines(records, (x: Execution<Actual>) => ExecutionText(x, show))
  {
    Descriptions.DescribeEach(description, "the following prepared statements were executed: ", records,
                              (x: Execution<Actual>) => ExecutionText(x, show));
  }
}
