/** Hamcrest's `Description`: text that a matcher appends to when it explains a mismatch. */
module Descriptions {
  class Description {
    var text: string

    constructor ()
      ensures text == ""
    {
      text := "";
    }

    /** `appendText(s)`: the text grows by `s` at its end. */
    method AppendText(s: string)
      modifies this
      ensures text == old(text) + s
    {
      text := text + s;
    }
  }

  /** The lines a mismatch description lists: "\n" and then each element's text, in order. */
  function Lines<T>(xs: seq<T>, show: T -> string): string
  {
    if xs == [] then "" else Lines(xs[..|xs| - 1], show) + "\n" + show(xs[|xs| - 1])
  }

  /** One line per element: the listing of two runs of elements is the two listings in turn. */
  lemma {:induction false} LinesAppend<T>(xs: seq<T>, ys: seq<T>, show: T -> string)
    ensures Lines(xs + ys, show) == Lines(xs, show) + Lines(ys, show)
  {
    if ys == [] {
      assert xs + ys == xs;
    } else {
      var ys' := ys[..|ys| - 1];
      assert (xs + ys)[..|xs + ys| - 1] == xs + ys';
      LinesAppend(xs, ys', show);
    }
  }

  /** A single element is listed as its own line. */
  lemma LinesSingle<T>(x: T, show: T -> string)
    ensures Lines([x], show) == "\n" + show(x)
  {
    assert [x][..0] == [];
  }

  /**
   * `describeMismatchSafely`: the header, then one line per element of `xs`, in list order.
   * Both matchers describe a mismatch this way, each with its own header and element text.
   */
  method DescribeEach<T>(description: Description, header: string, xs: seq<T>, show: T -> string)
    modifies description
    ensures description.text == old(description.text) + header + Lines(xs, show)
  {
    description.AppendText(header);
    for i := 0 to |xs|
      invariant description.text == old(description.text) + header + Lines(xs[..i], show)
    {
      assert xs[..i + 1][..i] == xs[..i];
      description.AppendText("\n" + show(xs[i]));
    }
    assert xs[..|xs|] == xs;
  }
}
