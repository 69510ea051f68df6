/**
 * The Blob comparison reads a `java.nio.ByteBuffer` expected value in place: `bb.get(b)`
 * copies the bytes between position and limit and moves the position up to the limit, so
 * the same buffer compared a second time has nothing left to read.
 */
module ByteBuffers {
  import Hex
  import opened Values
  import opened ColumnTypes
  import ColumnTypeProperties

  /** A heap byte buffer: a backing array and the window [position, limit) still to be read. */
  class ByteBuffer {
    const hb: array<Hex.Byte>
    var position: nat
    var limit: nat

    predicate Valid()
      reads this
    {
      position <= limit <= hb.Length
    }

    /** The bytes `remaining()` counts: those from position up to limit. */
    function Remaining(): seq<Hex.Byte>
      reads this, hb
      requires Valid()
    {
      hb[position..limit]
    }

    /** `ByteBuffer.wrap(bytes)`: the whole array is readable. */
    constructor Wrap(bytes: array<Hex.Byte>)
      ensures Valid() && hb == bytes && position == 0 && limit == bytes.Length
      ensures Remaining() == bytes[..]
    {
      hb := bytes;
      position := 0;
      limit := bytes.Length;
    }

    /** `get(dst)`: copies the next `dst.Length` bytes into `dst` and advances the position past them. */
    method Get(dst: array<Hex.Byte>)
      requires Valid() && dst != hb
      requires dst.Length <= limit - position
      modifies this, dst
      ensures Valid() && limit == old(limit)
      ensures position == old(position) + dst.Length
      ensures dst[..] == old(hb[position..position + dst.Length])
      ensures Remaining() == old(Remaining())[dst.Length..]
    {
      var i := 0;
      while i < dst.Length
        invariant 0 <= i <= dst.Length
        invariant position == old(position) && limit == old(limit)
        invariant dst[..i] == hb[position..position + i]
        invariant hb[..] == old(hb[..])
      {
        dst[i] := hb[position + i];
        i := i + 1;
      }
      position := position + dst.Length;
    }
  }

  /**
   * `Blob.equals(bb, actual)` for a buffer expected. The buffer is drained before the actual
   * is looked at, so it is drained even when the actual is null and the call fails.
   */
  method BlobEqualsBuffer(bb: ByteBuffer, actual: Actual) returns (r: Outcome)
    requires bb.Valid()
    modifies bb
    ensures bb.Valid() && bb.limit == old(bb.limit)
    ensures bb.Remaining() == []
    ensures r == ComparePrim(Blob, EBytes(old(bb.Remaining())), actual)
  {
    ghost var bytes := bb.Remaining();
    BlobUnfold(bytes, actual);
    var b := new Hex.Byte[bb.limit - bb.position];
    bb.Get(b);
    assert b[..] == bytes;
    var encodedExpected := Hex.HexEncode(b[..]);
    if actual == ANull {
      return Unchecked(NullPointer);
    }
    match actual {
      case AString(s) =>
        r := Match(encodedExpected == Hex.ReplaceFirst0x(s));
      case _ =>
        r := Match(false);
    }
  }

  /** The Blob rule for a buffer expected, unfolded: null fails, a string is compared as hex text, anything else does not match. */
  lemma BlobUnfold(bytes: seq<Hex.Byte>, actual: Actual)
    ensures ComparePrim(Blob, EBytes(bytes), actual)
            == if actual == ANull then Unchecked(NullPointer)
               else Match(actual.AString? && Hex.HexEncode(bytes) == Hex.ReplaceFirst0x(actual.s))
  {
    assert ComparePrim(Blob, EBytes(bytes), actual) == BlobEquals(EBytes(bytes), actual);
  }

  /**
   * The `Iterables.any` of `compareSet` for one buffer expected, as written: the first
   * actual element is compared with the buffer's bytes, every later one with an empty buffer.
   */
  function AnyMatchDraining(remaining: seq<Hex.Byte>, actuals: seq<Actual>): Outcome
  {
    if actuals == [] then Match(false)
    else
      var o := ComparePrim(Blob, EBytes(remaining), actuals[0]);
      if o == Match(false) then AnyMatch(Blob, EBytes([]), actuals[1..]) else o
  }

  /** `Iterables.any(actualList, eachActual -> Blob.equals(bb, eachActual))` on the buffer object itself. */
  method AnyBlobMatch(bb: ByteBuffer, actuals: seq<Actual>) returns (r: Outcome)
    requires bb.Valid()
    modifies bb
    ensures bb.Valid() && bb.limit == old(bb.limit)
    ensures r == AnyMatchDraining(old(bb.Remaining()), actuals)
  {
    if actuals == [] {
      return Match(false);
    }
    r := BlobEqualsBuffer(bb, actuals[0]);
    if r != Match(false) {
      return r;
    }
    var i := 1;
    while i < |actuals|
      invariant 1 <= i <= |actuals|
      invariant bb.Valid() && bb.limit == old(bb.limit)
      invariant bb.Remaining() == []
      invariant AnyMatchDraining(old(bb.Remaining()), actuals) == AnyMatch(Blob, EBytes([]), actuals[i..])
    {
      assert actuals[i..][1..] == actuals[i + 1..];
      var o := BlobEqualsBuffer(bb, actuals[i]);
      if o != Match(false) {
        return o;
      }
      i := i + 1;
    }
    return Match(false);
  }

  /** `compareSet` over a set of distinct buffers, as written: each buffer is drained by its first comparison. */
  function AllAnyDraining(buffers: seq<seq<Hex.Byte>>, actuals: seq<Actual>): Outcome
  {
    if buffers == [] then Match(true)
    else
      var o := AnyMatchDraining(buffers[0], actuals);
      if o == Match(true) then AllAnyDraining(buffers[1..], actuals) else o
  }

  /** BlobSet on a set of buffers against a list of texts, as written. */
  function BlobSetAsWritten(buffers: seq<seq<Hex.Byte>>, actuals: seq<Actual>): Outcome
  {
    if |buffers| != |actuals| then Match(false) else AllAnyDraining(buffers, actuals)
  }

  /** The buffers of a set of `ByteBuffer` expected values, as the engine sees them. */
  function AsExpected(buffers: seq<seq<Hex.Byte>>): (es: seq<Expected>)
    ensures |es| == |buffers|
    ensures forall i :: 0 <= i < |buffers| ==> es[i] == EBytes(buffers[i])
  {
    seq(|buffers|, i requires 0 <= i < |buffers| => EBytes(buffers[i]))
  }

  /**
   * The draining makes BlobSet order-sensitive: {[1], [2]} against ["0x02", "0x01"] answers
   * false as written, while reading each buffer without draining it answers true.
   */
  lemma BlobSetDrainingCounterexample(buffers: seq<seq<Hex.Byte>>, actuals: seq<Actual>)
    requires buffers == [[1], [2]] && actuals == [AString("0x02"), AString("0x01")]
    ensures BlobSetAsWritten(buffers, actuals) == Match(false)
    ensures Compare(SetOf(Blob), ESet(AsExpected(buffers)), AList(actuals)) == Match(true)
  {
    DrainedBufferMisses(buffers[0], actuals);
    FirstDrainedMissDecides(buffers, actuals);
    UndrainedFirstMatches(buffers[0], actuals);
    UndrainedSecondMatches(buffers[1], actuals);
    assert AsExpected(buffers) == [EBytes(buffers[0]), EBytes(buffers[1])];
    BothFound(Blob, EBytes(buffers[0]), EBytes(buffers[1]), actuals);
  }

  lemma FirstDrainedMissDecides(buffers: seq<seq<Hex.Byte>>, actuals: seq<Actual>)
    requires |buffers| == |actuals| > 0
    requires AnyMatchDraining(buffers[0], actuals) == Match(false)
    ensures BlobSetAsWritten(buffers, actuals) == Match(false)
  {
  }

  lemma BothFound(p: Primitive, e1: Expected, e2: Expected, actuals: seq<Actual>)
    requires AnyMatch(p, e1, actuals) == Match(true) && AnyMatch(p, e2, actuals) == Match(true)
    ensures AllAny(p, [e1, e2], actuals) == Match(true)
  {
    var es := [e1, e2];
    assert es[0] == e1 && es[1..] == [e2];
    assert es[1..][0] == e2 && es[1..][1..] == [];
    assert AllAny(p, es[1..][1..], actuals) == Match(true);
    assert AllAny(p, es[1..], actuals) == Match(true);
  }

  /** Two actuals, the first a miss: the second decides `any`. */
  lemma SecondDecides(p: Primitive, e: Expected, actuals: seq<Actual>)
    requires |actuals| == 2 && ComparePrim(p, e, actuals[0]) == Match(false)
    ensures AnyMatch(p, e, actuals) == if ComparePrim(p, e, actuals[1]) == Match(false) then Match(false) else ComparePrim(p, e, actuals[1])
  {
    var rest := actuals[1..];
    assert rest[0] == actuals[1] && rest[1..] == [];
    assert AnyMatch(p, e, rest[1..]) == Match(false);
  }

  /** As written, [1] meets "0x02" with its bytes and "0x01" with none left. */
  lemma DrainedBufferMisses(first: seq<Hex.Byte>, actuals: seq<Actual>)
    requires first == [1] && actuals == [AString("0x02"), AString("0x01")]
    ensures AnyMatchDraining(first, actuals) == Match(false)
  {
    BlobText(first, '1', actuals[0].s, '2');
    BlobText([], '0', actuals[1].s, '1');
    var rest := actuals[1..];
    assert rest[0] == actuals[1] && rest[1..] == [];
    assert AnyMatch(Blob, EBytes([]), rest[1..]) == Match(false);
    assert AnyMatch(Blob, EBytes([]), rest) == Match(false);
  }

  /** Read without draining, [1] misses "0x02" and then finds "0x01". */
  lemma UndrainedFirstMatches(bytes: seq<Hex.Byte>, actuals: seq<Actual>)
    requires bytes == [1] && actuals == [AString("0x02"), AString("0x01")]
    ensures AnyMatch(Blob, EBytes(bytes), actuals) == Match(true)
  {
    BlobText(bytes, '1', actuals[0].s, '2');
    BlobText(bytes, '1', actuals[1].s, '1');
    SecondDecides(Blob, EBytes(bytes), actuals);
  }

  /** Read without draining, [2] finds "0x02" at once. */
  lemma UndrainedSecondMatches(bytes: seq<Hex.Byte>, actuals: seq<Actual>)
    requires bytes == [2] && actuals == [AString("0x02"), AString("0x01")]
    ensures AnyMatch(Blob, EBytes(bytes), actuals) == Match(true)
  {
    BlobText(bytes, '2', actuals[0].s, '2');
  }

  /** A buffer of at most one small byte against the text "0x0" followed by one digit. */
  lemma BlobText(bytes: seq<Hex.Byte>, b: char, text: string, t: char)
    requires bytes == [] || (|bytes| == 1 && bytes[0] < 10 && b == Hex.Alphabet[bytes[0]])
    requires text == ['0', 'x', '0', t]
    ensures ComparePrim(Blob, EBytes(bytes), AString(text)) == Match(bytes != [] && b == t)
  {
    BlobUnfold(bytes, AString(text));
    PrefixedText(t);
    if bytes != [] {
      OneByteText(bytes[0], b);
      assert bytes == [bytes[0]];
    }
  }

  lemma OneByteText(b: Hex.Byte, c: char)
    requires b < 10 && c == Hex.Alphabet[b]
    ensures Hex.HexEncode([b]) == ['0', c]
  {
    assert Hex.Alphabet[0] == '0';
    assert Hex.HexEncode([b]) == [Hex.Alphabet[b / 16], Hex.Alphabet[b % 16]] + Hex.HexEncode([]);
  }

  lemma PrefixedText(c: char)
    ensures Hex.ReplaceFirst0x(['0', 'x', '0', c]) == ['0', c]
  {
    Hex.StripLeading0x(['0', c]);
    assert ['0', 'x', '0', c] == "0x" + ['0', c];
  }

  /**
   * `Blob.equals` as intended for a buffer: it reads the remaining bytes without moving the
   * position (an absolute read, or a read of `bb.duplicate()`), so the buffer is left as it was.
   */
  method BlobEqualsPreserving(bb: ByteBuffer, actual: Actual) returns (r: Outcome)
    requires bb.Valid()
    ensures r == ComparePrim(Blob, EBytes(bb.Remaining()), actual)
  {
    var b := bb.hb[bb.position..bb.limit];
    BlobUnfold(b, actual);
    if actual == ANull {
      return Unchecked(NullPointer);
    }
    match actual {
      case AString(s) =>
        r := Match(Hex.HexEncode(b) == Hex.ReplaceFirst0x(s));
      case _ =>
        r := Match(false);
    }
  }

  /**
   * With the non-draining read, a set of buffers compares like any other set: repeated
   * comparisons of one buffer all see its bytes, so the answer is the same in any order.
   */
  method AnyBlobMatchPreserving(bb: ByteBuffer, actuals: seq<Actual>) returns (r: Outcome)
    requires bb.Valid()
    ensures r == AnyMatch(Blob, EBytes(bb.Remaining()), actuals)
  {
    var i := 0;
    while i < |actuals|
      invariant 0 <= i <= |actuals|
      invariant AnyMatch(Blob, EBytes(bb.Remaining()), actuals) == AnyMatch(Blob, EBytes(bb.Remaining()), actuals[i..])
    {
      assert actuals[i..][1..] == actuals[i + 1..];
      var o := BlobEqualsPreserving(bb, actuals[i]);
      if o != Match(false) {
        return o;
      }
      i := i + 1;
    }
    return Match(false);
  }
}
