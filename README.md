# scassandra Java client: column-type matching, matchers and builders

This project models the core of the scassandra Java client in Dafny. The client primes a
Scassandra stub server and checks what the server recorded. The model covers:

- **`ColumnTypes.equals(expected, actual)`** (modules `ColumnTypes` and
  `ColumnTypeProperties`). This is the engine that decides whether a value a test expected
  matches a value the server recorded, under a CQL column type. Expected values are the Java
  objects a test passes: `String`, `Integer`, `Long`, `BigInteger`, `BigDecimal`, `Double`,
  `Boolean`, `ByteBuffer`, `Date`, `UUID`, `InetAddress`, sets, lists and maps, or null.
  Actual values are what Gson decodes from the server's JSON: a string, a number, a boolean,
  a list, a map, or null.
  - The answer is an `Outcome`. It is a boolean; or the `IllegalArgumentException` the
    client raises, naming the constant; or an uncaught JDK exception (`NullPointerException`,
    `ClassCastException`, `NumberFormatException`).
  - `Compare` is the specification. `ColumnTypes.Equals` is the imperative entry point,
    with a `while` loop for lists and a `for` loop over the entries for maps, both proved against it.
  - In `Compare`, a `ByteBuffer` expected is a value, so every comparison sees all its
    bytes. The program's `bb.get(b)` empties the buffer on its first comparison. That
    as-written behaviour is modelled separately, on a buffer object (`ByteBuffers`); see
    "## Left out" and "## Findings".
  - `ColumnTypeProperties` states the rules each constant follows, for nulls, primitives,
    sets, lists and maps.
- **The supporting JDK behaviour** the engine relies on:
  - `new BigInteger`, `Long.toString` and `String.hashCode` (`JavaText`);
  - `new BigDecimal`, `compareTo` and `Double.longValue` (`Decimals`);
  - lower-case hex encoding and `replaceFirst("0x", "")` (`Hex`);
  - `UUID.fromString` and `UUID.toString` (`Uuids`);
  - a `ByteBuffer` read with `get`, as a class with a position (`ByteBuffers`).
- **The CQL type names** (`CqlTypes`):
  - the `PrimitiveType` registry, as a class holding the name-to-instance map;
  - `fromName` and `serialise`;
  - `MapType`, `ListType` and `SetType`, with their `equals` and `hashCode`.
- **The matchers.** `QueryMatcher` and `PreparedStatementMatcher` (`QueryMatchers`,
  `PreparedStatementMatchers`) match against the recorded queries and prepared-statement
  executions. They describe mismatches through a Hamcrest `Description` (`Descriptions`).
- **The value classes.** `Query`, `PreparedStatementExecution` and `PrimingRequest`
  (`Queries`, `Executions`, `PrimingRequests`), with their builders as classes whose `with…`
  methods update fields, and their `equals` and `hashCode`.

Null is modelled explicitly: `Option` for nullable fields, and `ENull` and `ANull` for values.
A builder's failing `build()` returns a `Result` carrying the exception message.

## Model

| member | source | states |
|---|---|---|
| ColumnTypes.Equals | src/main/java/org/scassandra/http/client/ColumnTypes.java:586-744 | the imperative entry point `t.equals(expected, actual)` returns the answer of the specification `Compare`: a boolean, an `IllegalArgumentException` naming a constant, or an uncaught JDK exception; a `ByteBuffer` expected is read without draining it |
| ColumnTypes.CompareList | src/main/java/org/scassandra/http/client/ColumnTypes.java:700-717 | the index loop of `compareList` returns the answer of the position-wise scan: null rules, type refusal, length mismatch is false, first non-matching position decides |
| ColumnTypes.CompareMap | src/main/java/org/scassandra/http/client/ColumnTypes.java:719-744 | the entry loop of `compareMap` returns the answer of the specification: null rules, type refusal, size mismatch is false, an expected entry without a matching actual key and value is false |
| ColumnTypes.Compare | src/main/java/org/scassandra/http/client/ColumnTypes.java:590-606 | every `IllegalArgumentException` the comparison raises names the constant called or one of its element constants |
| ColumnTypes.CompareStringInteger | src/main/java/org/scassandra/http/client/ColumnTypes.java:608-614 | a string expected raises the type error exactly when `new BigInteger` rejects it; otherwise it matches exactly when its value equals the actual |
| ColumnTypes.BigIntegerOfLong | src/main/java/org/scassandra/http/client/ColumnTypes.java:629 | printing a long and reading it back as a `BigInteger` gives the same number |
| ColumnTypeProperties.MessageNamesConstant | src/main/java/org/scassandra/http/client/ColumnTypes.java:590-606 | the name in a raised message is the constant itself or, for sets and lists, a prefix of it; for maps it is the map or its key or value constant |
| ColumnTypeProperties.NullExpectedRule | src/main/java/org/scassandra/http/client/ColumnTypes.java:54-55 | a null expected: Blob, Boolean, Decimal, Double and Float raise the null error; Timestamp dereferences the actual first; the bigint maps answer false; every other constant matches only a null actual |
| ColumnTypeProperties.NullExpectedPrimitive | src/main/java/org/scassandra/http/client/ColumnTypes.java:637-640 | the null-expected rule for each primitive constant on its own |
| ColumnTypeProperties.NullActualRule | src/main/java/org/scassandra/http/client/ColumnTypes.java:617-620 | a non-null expected against a null actual: every set, list and map constant answers false before any type check; Boolean answers false for a Boolean and refuses anything else; Timestamp throws a NullPointerException; the other primitives except Blob answer false |
| ColumnTypeProperties.NullActualPrimitive | src/main/java/org/scassandra/http/client/ColumnTypes.java:130-138 | the null-actual rule for each primitive constant on its own |
| ColumnTypeProperties.TextualRule | src/main/java/org/scassandra/http/client/ColumnTypes.java:35-41 | Ascii, Varchar and Text all compare with `Objects.equals`; a string expected matches only that exact string |
| ColumnTypeProperties.InetRule | src/main/java/org/scassandra/http/client/ColumnTypes.java:203-222 | an Inet expected string or address matches only its text; any other expected is refused |
| ColumnTypeProperties.LongTypeRule | src/main/java/org/scassandra/http/client/ColumnTypes.java:617-635 | Bigint, Counter and Int compare an Integer, Long, BigInteger or printed integer with the long value of the actual |
| ColumnTypeProperties.LongTypeRefusals | src/main/java/org/scassandra/http/client/ColumnTypes.java:617-635 | a non-null expected against a recorded value that is not a number fails the `Double` cast; any expected other than Integer, Long, BigInteger or String raises the type error naming the constant |
| ColumnTypeProperties.NonIntegerStringRefused | src/main/java/org/scassandra/http/client/ColumnTypes.java:608-614 | for the long types and Varint, a string that is not an integer raises the type error |
| ColumnTypeProperties.VarintRule | src/main/java/org/scassandra/http/client/ColumnTypes.java:160-180 | Varint compares a BigInteger or printed integer by value and refuses Integer and Long |
| ColumnTypeProperties.PrintedIntegerRead | src/main/java/org/scassandra/http/client/ColumnTypes.java:608-614 | a printed integer read back by `compareStringInteger` matches exactly the same value |
| ColumnTypeProperties.WholeNumberActual | src/main/java/org/scassandra/http/client/ColumnTypes.java:622 | a whole-number actual inside the long range matches the same Integer and its printed form |
| ColumnTypeProperties.TimestampRule | src/main/java/org/scassandra/http/client/ColumnTypes.java:130-149 | Timestamp compares a Long or a Date's milliseconds with the truncated actual and refuses any other expected; a null actual throws a NullPointerException and any other non-number a ClassCastException, from the unboxing cast |
| ColumnTypeProperties.DecimalStringRule | src/main/java/org/scassandra/http/client/ColumnTypes.java:644-649 | Decimal, Double and Float compare a readable string with the actual by numeric value |
| ColumnTypeProperties.DecimalScaleInsensitive | src/main/java/org/scassandra/http/client/ColumnTypes.java:646 | "n.000" matches the actual "n" and the number n: the scale does not matter |
| ColumnTypeProperties.DecimalExpectedByValue | src/main/java/org/scassandra/http/client/ColumnTypes.java:650-651 | two BigDecimal expected values of the same numeric value get the same answer for every actual |
| ColumnTypeProperties.DecimalRefusals | src/main/java/org/scassandra/http/client/ColumnTypes.java:637-655 | a null expected raises the null error; an unreadable string, or a value that is neither String nor BigDecimal, raises the type error |
| ColumnTypeProperties.BlobBufferRule | src/main/java/org/scassandra/http/client/ColumnTypes.java:59-65 | a buffer expected matches a text exactly when its hex encoding equals the text with the first "0x" removed |
| ColumnTypeProperties.BlobHexMatch | src/main/java/org/scassandra/http/client/ColumnTypes.java:59-65 | a buffer matches "0x" + hex(c), and hex(c), exactly when its bytes are c |
| ColumnTypeProperties.BlobRule | src/main/java/org/scassandra/http/client/ColumnTypes.java:51-70 | a string expected is compared with the whole actual; a buffer against null throws; a buffer against a non-string never matches; anything else is refused |
| ColumnTypeProperties.BooleanRule | src/main/java/org/scassandra/http/client/ColumnTypes.java:73-84 | Boolean raises the null error for null, matches only the same boolean, and refuses non-booleans |
| ColumnTypeProperties.UuidObjectRule | src/main/java/org/scassandra/http/client/ColumnTypes.java:667-668 | a UUID expected matches the canonical text of the same UUID and no other |
| ColumnTypeProperties.UuidStringRule | src/main/java/org/scassandra/http/client/ColumnTypes.java:661-666 | a UUID string expected matches any spelling of the same UUID |
| ColumnTypeProperties.UuidCaseAsymmetry | src/main/java/org/scassandra/http/client/ColumnTypes.java:657-672 | an upper-case actual matches the expected string but not the UUID object it denotes |
| ColumnTypeProperties.UuidBadStringRefused | src/main/java/org/scassandra/http/client/ColumnTypes.java:661-666 | a string expected that is not a UUID raises the type error |
| ColumnTypeProperties.UuidToStringInjective | src/main/java/org/scassandra/http/client/ColumnTypes.java:668 | two UUIDs print the same canonical text exactly when they are equal |
| ColumnTypeProperties.AnyMatchMeaning | src/main/java/org/scassandra/http/client/ColumnTypes.java:686-691 | `Iterables.any` over the actuals answers whether some actual matches, when no comparison raises |
| ColumnTypeProperties.AllAnyMeaning | src/main/java/org/scassandra/http/client/ColumnTypes.java:683-693 | `Iterables.all` over the expected elements answers whether every expected element has a matching actual |
| ColumnTypeProperties.SetRule | src/main/java/org/scassandra/http/client/ColumnTypes.java:674-698 | when no element comparison raises, a set matches exactly when sizes agree and every expected element matches some actual element |
| ColumnTypeProperties.SetOrderIrrelevant | src/main/java/org/scassandra/http/client/ColumnTypes.java:674-698 | when no element comparison raises, reordering either side of a set comparison does not change the answer |
| ColumnTypeProperties.SetNotBijective | src/main/java/org/scassandra/http/client/ColumnTypes.java:682-693 | the set rule is not one-to-one: {"1", "1.0"} matches ["1", "2"] as a decimal set |
| ColumnTypeProperties.ListScanMeaning | src/main/java/org/scassandra/http/client/ColumnTypes.java:708-713 | the list scan answers true exactly when every position matches; otherwise the first position that does not match decides |
| ColumnTypeProperties.ListRule | src/main/java/org/scassandra/http/client/ColumnTypes.java:700-717 | a list matches exactly when lengths agree and every position matches, in order |
| ColumnTypeProperties.ListOrderMatters | src/main/java/org/scassandra/http/client/ColumnTypes.java:710-712 | ["one", "two"] does not match ["two", "one"] as a text list |
| ColumnTypeProperties.EntryAnyMeaning | src/main/java/org/scassandra/http/client/ColumnTypes.java:730-736 | for one expected entry, `any` over the actual keys answers whether some actual key and its value both match |
| ColumnTypeProperties.EntryAnyText | src/main/java/org/scassandra/http/client/ColumnTypes.java:730-736 | with textual keys and values, that search looks for an actual entry equal to the expected one |
| ColumnTypeProperties.MapScanMeaning | src/main/java/org/scassandra/http/client/ColumnTypes.java:729-740 | the loop over expected entries answers whether every expected entry has a matching actual entry |
| ColumnTypeProperties.MapRule | src/main/java/org/scassandra/http/client/ColumnTypes.java:719-744 | a map matches exactly when sizes agree and every expected entry has a matching actual entry |
| ColumnTypeProperties.BigintMapsNeverMatch | src/main/java/org/scassandra/http/client/ColumnTypes.java:575-588 | the three bigint-keyed maps inherit the default `equals` and always answer false |
| ColumnTypeProperties.CollectionKindRefused | src/main/java/org/scassandra/http/client/ColumnTypes.java:695-697 | a set, list or map constant raises the type error for an expected value of the wrong collection kind |
| ByteBuffers.ByteBuffer.Get | src/main/java/org/scassandra/http/client/ColumnTypes.java:61-62 | `bb.get(b)` copies the next bytes and moves the position past them |
| ByteBuffers.BlobEqualsBuffer | src/main/java/org/scassandra/http/client/ColumnTypes.java:59-65 | comparing a buffer drains it and answers as the Blob rule does on the bytes that were remaining |
| ByteBuffers.AnyBlobMatch | src/main/java/org/scassandra/http/client/ColumnTypes.java:686-691 | the `any` of a BlobSet on one buffer object, as written: only the first actual sees the buffer's bytes |
| ByteBuffers.BlobSetDrainingCounterexample | src/main/java/org/scassandra/http/client/ColumnTypes.java:270-276 | as written, {[1], [2]} does not match ["0x02", "0x01"], though each buffer matches one of the texts |
| ByteBuffers.BlobEqualsPreserving | src/main/java/org/scassandra/http/client/ColumnTypes.java:59-65 | a non-draining read answers the Blob rule on the remaining bytes and leaves the buffer as it was |
| ByteBuffers.AnyBlobMatchPreserving | src/main/java/org/scassandra/http/client/ColumnTypes.java:686-691 | with the non-draining read, the `any` on a buffer is the set rule's `any` on its bytes |
| Hex.HexRoundTrip | src/main/java/org/scassandra/http/client/ColumnTypes.java:63 | decoding the lower-case hex encoding of bytes gives the bytes back |
| Hex.HexEncodeInjective | src/main/java/org/scassandra/http/client/ColumnTypes.java:63-65 | two byte strings have the same hex encoding exactly when they are equal |
| Hex.StripLeading0x | src/main/java/org/scassandra/http/client/ColumnTypes.java:64 | removing the first "0x" from "0x" + h gives h |
| Hex.ReplaceFirst0xNoOccurrence | src/main/java/org/scassandra/http/client/ColumnTypes.java:64 | text with no "0x" in it is left unchanged |
| JavaText.IntToStringRoundTrip | src/main/java/org/scassandra/http/client/ColumnTypes.java:610 | reading a printed integer with `new BigInteger` gives the same integer |
| JavaText.NatDigitsValue | src/main/java/org/scassandra/http/client/ColumnTypes.java:610 | the digits printed for n have the value n |
| Uuids.UuidRoundTrip | src/main/java/org/scassandra/http/client/ColumnTypes.java:663 | parsing the canonical text of a UUID gives the same UUID |
| Uuids.ParsedPrintsLowered | src/main/java/org/scassandra/http/client/ColumnTypes.java:663-668 | printing a parsed UUID gives the text in lower case |
| Decimals.LongValue | src/main/java/org/scassandra/http/client/ColumnTypes.java:622 | `Double.longValue` truncates toward zero and clamps to the long range |
| Decimals.ParseIntegerString | src/main/java/org/scassandra/http/client/ColumnTypes.java:646 | `new BigDecimal` of a printed integer is that integer with scale 0 |
| Decimals.ParseZeroFraction | src/main/java/org/scassandra/http/client/ColumnTypes.java:646 | "n.000" parses to n scaled by 10^k, of the same value as n |
| Decimals.SameValueAt | src/main/java/org/scassandra/http/client/ColumnTypes.java:646 | `compareTo` equality is equality after scaling both values to a common exponent |
| Decimals.SameValueTransitive | src/main/java/org/scassandra/http/client/ColumnTypes.java:646 | `compareTo` equality is transitive |
| CqlTypes.PrimitiveType.constructor | src/main/java/org/scassandra/http/client/types/PrimitiveType.java:41-43 | a primitive type keeps its column type name |
| CqlTypes.PrimitiveRegistry.RegisterPrimitive | src/main/java/org/scassandra/http/client/types/PrimitiveType.java:31-35 | registering creates a fresh type that serialises as its name and maps the name to it, leaving other names as they were |
| CqlTypes.PrimitiveRegistry.constructor | src/main/java/org/scassandra/http/client/types/PrimitiveType.java:10-27 | after the static registrations exactly the 16 primitive names are mapped |
| CqlTypes.PrimitiveRegistry.FromName | src/main/java/org/scassandra/http/client/types/PrimitiveType.java:37-39 | `fromName` gives null exactly for an unknown name; a known name gives the type that serialises as that name, and distinct names give distinct instances |
| CqlTypes.ColumnTypeNamesRegistered | src/main/java/org/scassandra/http/client/types/PrimitiveType.java:12-27 | every primitive column type's wire name is a registered primitive name |
| CqlTypes.NestedSerialise | src/main/java/org/scassandra/http/client/types/MapType.java:13-15 | `serialise` nests: set<list<int>> and map<int,list<int>> |
| CqlTypes.NullElementFails | src/main/java/org/scassandra/http/client/types/ListType.java:11-13 | serialising a list, set or map whose element type is null fails |
| CqlTypes.EqualsReflexive | src/main/java/org/scassandra/http/client/types/ListType.java:16-25 | the `equals` of the type classes is reflexive |
| CqlTypes.EqualsSymmetric | src/main/java/org/scassandra/http/client/types/MapType.java:23-33 | the `equals` of the type classes is symmetric |
| CqlTypes.HashConsistent | src/main/java/org/scassandra/http/client/types/MapType.java:36-40 | equal types have equal `hashCode`s |
| CqlTypes.WellFormedSerialises | src/main/java/org/scassandra/http/client/types/SetType.java:11-13 | a type built from registered primitives serialises, starting with its kind's letter |
| CqlTypes.PrimitiveNameShape | src/main/java/org/scassandra/http/client/types/PrimitiveType.java:12-27 | every registered name is lower-case letters and starts with none of s, l, m |
| CqlTypes.NamePrefix | src/main/java/org/scassandra/http/client/types/PrimitiveType.java:46-48 | a name followed by a terminator is determined by the text |
| CqlTypes.PrefixUnique | src/main/java/org/scassandra/http/client/types/MapType.java:13-15 | serialised text followed by a terminator determines the type |
| CqlTypes.StructEqualsIffSameText | src/main/java/org/scassandra/http/client/types/SetType.java:1-14 | two well-formed types are structurally equal exactly when they serialise to the same text |
| CqlTypes.StructHashConsistent | src/main/java/org/scassandra/http/client/types/ListType.java:28-30 | structurally equal types have the same structural hash |
| CqlTypes.SetTypeIdentityCounterexample | src/main/java/org/scassandra/http/client/types/SetType.java:1-14 | two set<int> instances serialise alike but are not `equals`, nor are lists of them |
| Queries.QueryEqualsStructural | src/main/java/org/scassandra/http/client/Query.java:53-64 | `equals` holds exactly when both fields agree, null included |
| Queries.QueryHash | src/main/java/org/scassandra/http/client/Query.java:66-71 | the hash is a 32-bit int |
| Queries.QueryHashConsistent | src/main/java/org/scassandra/http/client/Query.java:66-71 | equal queries have equal hashes |
| Queries.QueryBuilder.constructor | src/main/java/org/scassandra/http/client/Query.java:10 | a fresh builder has no query and no consistency |
| Queries.QueryBuilder.WithQuery | src/main/java/org/scassandra/http/client/Query.java:12-15 | sets the query and keeps the consistency |
| Queries.QueryBuilder.WithConsistency | src/main/java/org/scassandra/http/client/Query.java:17-20 | sets the consistency and keeps the query |
| Queries.QueryBuilder.Build | src/main/java/org/scassandra/http/client/Query.java:22-24 | the query built carries the builder's two fields |
| QueryMatchers.NewQueryMatcher | src/main/java/org/scassandra/matchers/QueryMatcher.java:13-16 | a null query is refused with "null query"; otherwise the matcher holds it |
| QueryMatchers.MatchesIsMembership | src/main/java/org/scassandra/matchers/QueryMatcher.java:18-21 | the matcher matches exactly when its query is in the list |
| QueryMatchers.MatchesDependsOnlyOnMembers | src/main/java/org/scassandra/matchers/QueryMatcher.java:18-21 | an empty list never matches, and lists with the same members give the same answer |
| QueryMatchers.DescribeMismatchSafely | src/main/java/org/scassandra/matchers/QueryMatcher.java:23-29 | appends the header and one line per executed query |
| Descriptions.Description.constructor | src/main/java/org/scassandra/matchers/QueryMatcher.java:23-24 | a description starts empty |
| Descriptions.Description.AppendText | src/main/java/org/scassandra/matchers/QueryMatcher.java:25 | appending adds the text at the end |
| Descriptions.LinesAppend | src/main/java/org/scassandra/matchers/QueryMatcher.java:26-28 | the lines of two lists joined are the lines of each, concatenated |
| Descriptions.DescribeEach | src/main/java/org/scassandra/matchers/QueryMatcher.java:25-28 | the loop appends the header and then "\n" + text for each element, in order |
| Executions.ExecutionEqualsStructural | src/main/java/org/scassandra/http/client/PreparedStatementExecution.java:54-67 | `equals` holds exactly when text, consistency and variables agree, nulls included |
| Executions.ExecutionHash | src/main/java/org/scassandra/http/client/PreparedStatementExecution.java:69-75 | the hash is a 32-bit int |
| Executions.ExecutionHashConsistent | src/main/java/org/scassandra/http/client/PreparedStatementExecution.java:69-75 | equal executions have equal hashes |
| Executions.ExecutionBuilder.constructor | src/main/java/org/scassandra/http/client/PreparedStatementExecution.java:83-85 | a fresh builder has no text, consistency "ONE" and no variables |
| Executions.ExecutionBuilder.WithConsistency | src/main/java/org/scassandra/http/client/PreparedStatementExecution.java:94-97 | sets the consistency and keeps the rest |
| Executions.ExecutionBuilder.WithPreparedStatementText | src/main/java/org/scassandra/http/client/PreparedStatementExecution.java:99-102 | sets the text and keeps the rest |
| Executions.ExecutionBuilder.WithVariables | src/main/java/org/scassandra/http/client/PreparedStatementExecution.java:104-107 | sets the variables and keeps the rest |
| Executions.ExecutionBuilder.Build | src/main/java/org/scassandra/http/client/PreparedStatementExecution.java:109-114 | fails with the builder message exactly when no text was set; otherwise carries the three fields, the variables list never null |
| Executions.DefaultsExample | src/main/java/org/scassandra/http/client/PreparedStatementExecution.java:84-85 | an execution built with only a text has consistency "ONE" and no variables |
| PreparedStatementMatchers.NewPreparedStatementMatcher | src/main/java/org/scassandra/matchers/PreparedStatementMatcher.java:21-25 | a null expected execution is refused; otherwise the matcher holds it |
| PreparedStatementMatchers.DoesPreparedStatementMatch | src/main/java/org/scassandra/matchers/PreparedStatementMatcher.java:54-85 | the imperative check returns the specification's verdict for one recorded execution |
| PreparedStatementMatchers.MatchesSafely | src/main/java/org/scassandra/matchers/PreparedStatementMatcher.java:40-48 | the loop over recorded executions returns the verdict of the scan specification |
| PreparedStatementMatchers.PositionsMeaning | src/main/java/org/scassandra/matchers/PreparedStatementMatcher.java:76-84 | the position loop answers true exactly when every variable matches under its type; otherwise the first miss decides |
| PreparedStatementMatchers.ExecutionMatchesMeaning | src/main/java/org/scassandra/matchers/PreparedStatementMatcher.java:54-85 | a record with a null variables list throws where `getVariables()` wraps it, and a count mismatch raises, whatever else the record holds; a record matches exactly when both variable lists are non-null and consistency, text, variable count and every variable agree |
| PreparedStatementMatchers.ScanMeaning | src/main/java/org/scassandra/matchers/PreparedStatementMatcher.java:40-48 | the scan answers false exactly when no record matches; otherwise the first record that does not answer false decides |
| PreparedStatementMatchers.ScanWithoutErrors | src/main/java/org/scassandra/matchers/PreparedStatementMatcher.java:40-48 | when no record raises, the scan answers whether some record matches |
| PreparedStatementMatchers.FirstMatch | src/main/java/org/scassandra/matchers/PreparedStatementMatcher.java:42-46 | when some record matches and none raises, there is a first matching record and every earlier one answered false |
| PreparedStatementMatchers.DescribeMismatchSafely | src/main/java/org/scassandra/matchers/PreparedStatementMatcher.java:27-33 | appends the header and one line per recorded execution |
| PrimingRequests.RequestEqualsStructural | src/main/java/org/scassandra/http/client/PrimingRequest.java:114-125 | `equals` of the request, its When and its Then holds exactly when all fields agree |
| PrimingRequests.PrimingRequestBuilder.constructor | src/main/java/org/scassandra/http/client/PrimingRequest.java:30-39 | a fresh builder has the given kind, result success and nothing else set |
| PrimingRequests.PrimingRequestBuilder.WithQuery | src/main/java/org/scassandra/http/client/PrimingRequest.java:41-44 | sets the query and keeps the rest |
| PrimingRequests.PrimingRequestBuilder.WithRows | src/main/java/org/scassandra/http/client/PrimingRequest.java:46-55 | sets the rows and keeps the rest |
| PrimingRequests.PrimingRequestBuilder.WithResult | src/main/java/org/scassandra/http/client/PrimingRequest.java:57-60 | sets the result and keeps the rest |
| PrimingRequests.PrimingRequestBuilder.WithConsistency | src/main/java/org/scassandra/http/client/PrimingRequest.java:82-85 | sets the consistencies and keeps the rest |
| PrimingRequests.PrimingRequestBuilder.WithColumnTypes | src/main/java/org/scassandra/http/client/PrimingRequest.java:87-90 | sets the column types and keeps the rest |
| PrimingRequests.PrimingRequestBuilder.WithVariableTypes | src/main/java/org/scassandra/http/client/PrimingRequest.java:92-95 | sets the variable types and keeps the rest |
| PrimingRequests.PrimingRequestBuilder.Build | src/main/java/org/scassandra/http/client/PrimingRequest.java:62-80 | variable types on a query prime fail first, a missing query fails next; otherwise the fields are copied and a success result with no rows gets an empty row list |
| PrimingRequests.BuildIsWellBuilt | src/main/java/org/scassandra/http/client/PrimingRequest.java:62-80 | every request built has a query, variable types only on prepared primes, and rows whenever the result is success |
| PrimingRequests.QueryPrimeWithVariableTypes | src/main/java/org/scassandra/http/client/PrimingRequest.java:64-66 | a query prime with variable types cannot be built |
| PrimingRequests.PreparedPrimeWithVariableTypes | src/main/java/org/scassandra/http/client/PrimingRequest.java:62-80 | a prepared-statement prime with a query and variable types builds, with empty rows |

## Left out

- ColumnTypeProperties.LongTypeRule: `equalsForLongType` compares a `Long` expected with `==` on boxed `Long`s (ColumnTypes.java:626-627). That is reference equality, true in the JVM only for values inside the boxing cache. The model uses value equality, so it matches more often than the code does outside -128..127.
- ColumnTypeProperties.UuidBadStringRefused: because `UUID.fromString` is modelled on the canonical 8-4-4-4-12 form only, strings the JDK also parses, such as "1-1-1-1-1", raise the type error in the model, whereas the program compares the parsed UUIDs (ColumnTypes.java:663).
- Uuids.UuidRoundTrip: `UUID.fromString` is modelled as accepting only the canonical 8-4-4-4-12 hex form. The JDK's more lenient acceptance of shorter groups is not modelled.
- Actual numbers are exact decimals. `new BigDecimal(actual.toString())` of a recorded number (ColumnTypes.java:646, 651) reads the exact JSON decimal in the model, while the program reads `Double.toString` of the nearest double that Gson decoded. So a recorded 12345678901234567890 matches the BigDecimal 12345678901234567890 for Decimal, Double and Float in the model, and does not match in the program. The long types likewise truncate the exact value rather than the nearest double.
- The exponent part of `new BigDecimal` strings is read; scale overflow past 32 bits is not modelled.
- Expected values of other Java classes appear only as the refusal branches they take. A `Date` is its milliseconds and an `InetAddress` is its host-address text.
- `Object.equals` between expected collection elements is Dafny datatype equality. For `BigDecimal`, whose `equals` depends on scale, this is the same. Set semantics of a Java `Set` expected are given by the sequence of its elements in iteration order.
- ByteBuffers.ByteBuffer.Get: a read past the limit raises `BufferUnderflowException` in the JDK. The model requires enough bytes remain, which `BlobEquals` always ensures.
- JavaText.StringHash: characters are hashed by code point. UTF-16 surrogate pairs are not split.
- `hashCode` and `toString` of `PrimingRequest`, `When` and `Then` are not modelled, nor the `Consistency` and `Result` enums beyond their names. Gson serialisation of a prime is not modelled.
- Builder methods returning `this` for chaining are modelled as methods that update the builder in place, called one after another.
- PreparedStatementMatchers.ExecutionMatchesMeaning: the text of the count-mismatch `IllegalArgumentException` is not reproduced. The outcome carries the recorded variables and variable types instead.
- `PreparedStatementMatcher.doesPreparedStatementMatch` calls `getVariableTypes()` on a recorded execution (PreparedStatementMatcher.java:56). PreparedStatementExecution.java declares no such getter. The model therefore carries the variable types alongside each recorded execution.
- Executions.ExecutionBuilder.WithVariables: a null varargs array, which `Arrays.asList` rejects, is not modelled; the variables are a sequence.
- Queries.QueryBuilder.constructor: the builder starts with no consistency, as `Query.java` does. A test (QueryTest.java:16-19) expects "ONE" as the default; the code is followed.
- `describeTo` of both matchers and the Hamcrest `TypeSafeMatcher` plumbing around `matchesSafely` are not modelled.
- ColumnTypes.Compare: a `ByteBuffer` expected (`EBytes`) is a value that every comparison reads in full. In the program, `bb.get(b)` (ColumnTypes.java:60-62) moves the buffer's position to its end, so a buffer compared a second time reads as empty. `Compare` is therefore the non-draining comparison wherever one buffer is compared more than once. The draining read is modelled only in `ByteBuffers` (`BlobEqualsBuffer`, `AnyBlobMatch`, `BlobSetDrainingCounterexample`).
- ColumnTypes.Equals: it is proved equal to `Compare`, so it inherits the non-draining read of `ByteBuffer` expecteds described on the line above. Inside a `BlobSet` it can answer true where the program answers false.
- ColumnTypeProperties.SetRule: stated of the non-draining comparison. For a `BlobSet` of buffers the program can answer false where the rule says true, e.g. {[1], [2]} against ["0x02", "0x01"].
- ColumnTypeProperties.SetOrderIrrelevant: stated of the non-draining comparison. With draining buffers the program's answer for a `BlobSet` can depend on the order of the actual list, e.g. {[1], []} against ["0x01", "0x"] and ["0x", "0x01"].
- ColumnTypeProperties.SetRule: a `Set` or `Map` expected is the sequence of its elements or entries in iteration order. The model does not require them to be distinct, and the size compared is the sequence length. A Java `Set` or `Map` has no duplicates, so only duplicate-free sequences correspond to program inputs.
- ColumnTypeProperties.MapRule: as for sets, the expected map is a sequence of entries whose keys the model does not require to be distinct.
- PreparedStatementMatchers.MatchesSafely: each recorded execution is compared with the expected variables as values. In the program, a `ByteBuffer` expected variable is drained by the first record that reaches it at ColumnTypes.java:60-62, and later records see it empty. For example, expected variables [ByteBuffer.wrap({1})] of type Blob, against records with variables ["0x02"] and then ["0x01"], give false in the program and true in the model.
- PreparedStatementMatchers.ScanMeaning: stated of the scan in which no record changes the expected variables. It does not describe the program once an earlier record has drained a `ByteBuffer` expected variable (see MatchesSafely above).
- PreparedStatementMatchers.ScanWithoutErrors: "true exactly when some record matches" holds for the non-draining comparison. In the program, a record can fail to match only because an earlier record drained a `ByteBuffer` expected variable.
- ColumnTypes.CompareStringInteger: `new BigInteger` is modelled on ASCII digits only. The JDK reads digits with `Character.digit`, which also accepts other Unicode decimal digits such as "١". For such a string the model answers `InvalidType` where the program compares the value.
- ColumnTypeProperties.NonIntegerStringRefused: a string of non-ASCII Unicode decimal digits is refused in the model, but read as a number by the JDK.
- ColumnTypeProperties.DecimalRefusals: `new BigDecimal` is likewise modelled on ASCII digits only, so a string of other Unicode decimal digits is refused in the model but read by the JDK.
- ColumnTypeProperties.TimestampRule: `Timestamp` casts the actual to `Double` before its null checks (ColumnTypes.java:135), so a null actual is modelled as a `NullPointerException`, as written.
- The base class `CqlType` of the type descriptors is not part of this model. It is assumed to keep `Object.equals` and `Object.hashCode`, which `SetType` and `PrimitiveType` then inherit.
- Identity of type instances: `Object.equals` and `Object.hashCode` of a `SetType` are modelled by a caller-given instance identity, since identity hashes are not observable.
- `toString` of the type classes and `PrimitiveType.toString` are not modelled beyond `serialise`.

## Findings

| source | as written | input that shows it | evidently intended | confidence | as-written member | corrected member |
|---|---|---|---|---|---|---|
| src/main/java/org/scassandra/http/client/ColumnTypes.java:59-65 | `BlobSet` runs the `Blob` comparison of one expected `ByteBuffer` against each actual element with `bb.get(b)`, which advances the buffer's position, so after the first actual the buffer has no bytes left | expected set {[1], [2]} as two `ByteBuffer`s, actual ["0x02", "0x01"]: each buffer is drained by the first comparison and misses its partner, so the set does not match | each buffer compared by its contents against every actual (e.g. `bb.duplicate().get(b)`), so the sets match | not executed | ByteBuffers.BlobSetDrainingCounterexample | ByteBuffers.AnyBlobMatchPreserving |
| src/main/java/org/scassandra/http/client/types/SetType.java:1-14 | `SetType` defines no `equals` or `hashCode`, unlike `ListType` and `MapType`. Assuming its base class `CqlType` keeps `Object.equals` (that class is not part of this model), two `set<int>` instances are never equal, and neither are list or map types built over them | `new SetType(INT)` and another `new SetType(INT)`: same `serialise()` text "set<int>", `equals` false, given the base class's identity `equals` | structural equality, as for `ListType` and `MapType`: equal exactly when the serialised text is equal | not executed | CqlTypes.SetTypeIdentityCounterexample | CqlTypes.StructEqualsIffSameText |
