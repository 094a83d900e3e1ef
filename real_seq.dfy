/** Sums and arithmetic means of sequences of reals: the `sum(...)` and
    `np.array(...).mean()` reductions of the analyzer, over exact reals. */
module RealSeq {

  /** Left-to-right sum, as Python's `sum` folds it. */
  function Sum(s: seq<real>): real
  {
    if s == [] then 0.0 else Sum(s[..|s| - 1]) + s[|s| - 1]
  }

  /** Arithmetic mean; numpy yields NaN on an empty array, so the mean is
      only taken of a non-empty sequence. */
  function Mean(s: seq<real>): (r: real)
    requires |s| > 0
    ensures r * (|s| as real) == Sum(s)
  {
    Sum(s) / (|s| as real)
  }

  /** Summing a concatenation sums the parts. */
  lemma {:induction false} SumConcat(a: seq<real>, b: seq<real>)
    ensures Sum(a + b) == Sum(a) + Sum(b)
    decreases |b|
  {
    if b == [] {
      assert a + b == a;
    } else {
      var b' := b[..|b| - 1];
      assert (a + b)[..|a + b| - 1] == a + b';
      SumConcat(a, b');
    }
  }

  /** Every element in [lo, hi] puts the sum in [|s|*lo, |s|*hi]. */
  lemma {:induction false} SumBounds(s: seq<real>, lo: real, hi: real)
    requires forall k :: 0 <= k < |s| ==> lo <= s[k] <= hi
    ensures (|s| as real) * lo <= Sum(s) <= (|s| as real) * hi
    decreases |s|
  {
    if s != [] {
      var s' := s[..|s| - 1];
      SumBounds(s', lo, hi);
      assert (|s| as real) * lo == (|s'| as real) * lo + lo;
      assert (|s| as real) * hi == (|s'| as real) * hi + hi;
    }
  }

  /** Every element strictly above lo puts a non-empty sum strictly above |s|*lo. */
  lemma {:induction false} SumStrictlyAbove(s: seq<real>, lo: real)
    requires |s| > 0
    requires forall k :: 0 <= k < |s| ==> lo < s[k]
    ensures (|s| as real) * lo < Sum(s)
    decreases |s|
  {
    var s' := s[..|s| - 1];
    if s' != [] {
      SumStrictlyAbove(s', lo);
    }
    assert (|s| as real) * lo == (|s'| as real) * lo + lo;
  }

  /** Every element strictly below hi puts a non-empty sum strictly below |s|*hi. */
  lemma {:induction false} SumStrictlyBelow(s: seq<real>, hi: real)
    requires |s| > 0
    requires forall k :: 0 <= k < |s| ==> s[k] < hi
    ensures Sum(s) < (|s| as real) * hi
    decreases |s|
  {
    var s' := s[..|s| - 1];
    if s' != [] {
      SumStrictlyBelow(s', hi);
    }
    assert (|s| as real) * hi == (|s'| as real) * hi + hi;
  }

  /** The mean lies between any lower and upper bound of the elements. */
  lemma MeanBounds(s: seq<real>, lo: real, hi: real)
    requires |s| > 0
    requires forall k :: 0 <= k < |s| ==> lo <= s[k] <= hi
    ensures lo <= Mean(s) <= hi
  {
    SumBounds(s, lo, hi);
    var n := |s| as real;
    assert Mean(s) * n == Sum(s);
  }

  /** The mean is attained from below and from above: some element is at most
      the mean and some element is at least the mean. */
  lemma MeanBetweenElements(s: seq<real>)
    requires |s| > 0
    ensures exists k :: 0 <= k < |s| && s[k] <= Mean(s)
    ensures exists k :: 0 <= k < |s| && Mean(s) <= s[k]
  {
    var n := |s| as real;
    assert Mean(s) * n == Sum(s);
    if forall k :: 0 <= k < |s| ==> Mean(s) < s[k] {
      SumStrictlyAbove(s, Mean(s));
      assert false;
    }
    if forall k :: 0 <= k < |s| ==> s[k] < Mean(s) {
      SumStrictlyBelow(s, Mean(s));
      assert false;
    }
  }
}
