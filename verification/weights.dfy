/**
 * The weights a BRANCH meta-operator draws its children with. `evolve`
 * hands them to numpy's `choice` as probabilities; `evolve_single` hands
 * them to Python's `random.choices` as relative weights.
 */
module Weights {
  import opened Results

  function Sum(w: seq<real>): real {
    if |w| == 0 then 0.0 else w[0] + Sum(w[1..])
  }

  predicate NonNegative(w: seq<real>) {
    forall i :: 0 <= i < |w| ==> w[i] >= 0.0
  }

  /** A probability vector: non-negative entries that add up to one. */
  predicate IsDistribution(w: seq<real>) {
    NonNegative(w) && Sum(w) == 1.0
  }

  /** Every weight divided by `t`. */
  function Scale(w: seq<real>, t: real): (r: seq<real>)
    requires t != 0.0
    ensures |r| == |w| && forall i :: 0 <= i < |w| ==> r[i] == w[i] / t
  {
    if |w| == 0 then [] else [w[0] / t] + Scale(w[1..], t)
  }

  lemma {:induction false} SumScale(w: seq<real>, t: real)
    requires t != 0.0
    ensures Sum(Scale(w, t)) == Sum(w) / t
  {
    if |w| > 0 {
      SumScale(w[1..], t);
      assert Scale(w, t)[1..] == Scale(w[1..], t);
    }
  }

  lemma {:induction false} SumNonNegative(w: seq<real>)
    requires NonNegative(w)
    ensures Sum(w) >= 0.0
  {
    if |w| > 0 {
      assert NonNegative(w[1..]) by {
        forall i | 0 <= i < |w| - 1 ensures w[1..][i] >= 0.0 { assert w[1..][i] == w[i + 1]; }
      }
      SumNonNegative(w[1..]);
    }
  }

  /** `n` weights of 1 add up to `n`. */
  lemma {:induction false} SumOfOnes(w: seq<real>)
    requires forall i :: 0 <= i < |w| ==> w[i] == 1.0
    ensures Sum(w) == |w| as real
  {
    if |w| > 0 {
      assert forall i :: 0 <= i < |w| - 1 ==> w[1..][i] == 1.0;
      SumOfOnes(w[1..]);
    }
  }

  /**
   * The checks numpy's `choice(np.arange(n), size, p=w)` makes before
   * drawing, in its order: an empty choice set with samples to take, a
   * probability vector of the wrong length, a negative entry, and entries
   * that do not add up to one. `None` means the draw goes ahead.
   */
  function ChoiceCheck(w: seq<real>, n: nat, size: nat): (e: Option<Error>)
    ensures e.None? <==> (n > 0 || size == 0) && |w| == n && IsDistribution(w)
  {
    if n == 0 && size > 0 then Some(ValueError("a cannot be empty unless no samples are taken"))
    else if |w| != n then Some(ValueError("a and p must have same size"))
    else if !NonNegative(w) then Some(ValueError("probabilities are not non-negative"))
    else if Sum(w) != 1.0 then Some(ValueError("probabilities do not sum to 1"))
    else None
  }

  /**
   * The routing probabilities of BRANCH as `evolve` obtains them: the
   * `weights` parameter (a KeyError when absent) passed unchanged to
   * numpy's `choice`, which accepts only a probability vector.
   */
  function BranchProbabilitiesAsWritten(weights: Option<seq<real>>, n: nat, size: nat): (r: Result<seq<real>>)
    ensures weights.None? ==> r == Err(KeyError("weights"))
    ensures r.Ok? <==> weights.Some? && ChoiceCheck(weights.value, n, size).None?
    ensures r.Ok? ==> r.value == weights.value && IsDistribution(r.value)
  {
    if weights.None? then Err(KeyError("weights"))
    else
      match ChoiceCheck(weights.value, n, size)
      case Some(e) => Err(e)
      case None => Ok(weights.value)
  }

  /**
   * The default weights `[1] * n` of a meta-operator built without
   * parameters are refused by `evolve` as soon as there are two children.
   */
  lemma DefaultWeightsRefused(w: seq<real>, size: nat)
    requires |w| >= 2 && forall i :: 0 <= i < |w| ==> w[i] == 1.0
    ensures BranchProbabilitiesAsWritten(Some(w), |w|, size).Err?
    ensures BranchProbabilitiesAsWritten(Some(w), |w|, size) == Err(ValueError("probabilities do not sum to 1"))
  {
    SumOfOnes(w);
  }

  /**
   * The routing probabilities of BRANCH read as relative weights, as
   * `evolve_single` and the defaults treat them: the same refusals for a
   * missing key, a wrong length and a negative entry, a refusal when
   * nothing has weight, and otherwise the weights divided by their total.
   */
  function BranchProbabilities(weights: Option<seq<real>>, n: nat, size: nat): (r: Result<seq<real>>)
    ensures weights.None? ==> r == Err(KeyError("weights"))
    ensures r.Ok? <==> weights.Some? && (n > 0 || size == 0) && |weights.value| == n
                       && NonNegative(weights.value) && Sum(weights.value) > 0.0
    ensures r.Ok? ==> IsDistribution(r.value) && |r.value| == n
    ensures r.Ok? ==> forall i :: 0 <= i < n ==> r.value[i] == weights.value[i] / Sum(weights.value)
  {
    if weights.None? then Err(KeyError("weights"))
    else
      var w := weights.value;
      if n == 0 && size > 0 then Err(ValueError("a cannot be empty unless no samples are taken"))
      else if |w| != n then Err(ValueError("a and p must have same size"))
      else if !NonNegative(w) then Err(ValueError("probabilities are not non-negative"))
      else if Sum(w) <= 0.0 then Err(ValueError("weights do not add up to a positive total"))
      else
        var q := Scale(w, Sum(w));
        SumScale(w, Sum(w));
        assert Sum(w) / Sum(w) == 1.0;
        assert NonNegative(q) by {
          forall i | 0 <= i < |q| ensures q[i] >= 0.0 {
            assert q[i] == w[i] / Sum(w);
          }
        }
        Ok(q)
  }

  /** Where the code as written goes ahead, the corrected reading draws with the very same probabilities. */
  lemma ProbabilitiesAgree(weights: Option<seq<real>>, n: nat, size: nat)
    requires BranchProbabilitiesAsWritten(weights, n, size).Ok?
    ensures BranchProbabilities(weights, n, size) == BranchProbabilitiesAsWritten(weights, n, size)
  {
    var w := weights.value;
    var q := BranchProbabilities(weights, n, size).value;
    assert Sum(w) == 1.0;
    forall i | 0 <= i < n ensures q[i] == w[i] {
      assert q[i] == w[i] / 1.0;
    }
    assert q == w;
  }

  /** The default weights `[1] * n` give every one of `n > 0` children probability `1 / n`. */
  lemma DefaultWeightsUniform(w: seq<real>, size: nat)
    requires |w| > 0 && forall i :: 0 <= i < |w| ==> w[i] == 1.0
    ensures BranchProbabilities(Some(w), |w|, size).Ok?
    ensures forall i :: 0 <= i < |w| ==> BranchProbabilities(Some(w), |w|, size).value[i] == 1.0 / |w| as real
  {
    SumOfOnes(w);
  }

  /** Running totals: `cum[i]` is the sum of the first `i + 1` weights (`itertools.accumulate`). */
  function Accumulate(w: seq<real>): (cum: seq<real>)
    ensures |cum| == |w|
    ensures |w| > 0 ==> cum[0] == w[0]
    ensures forall i {:trigger w[i]} :: 0 < i < |w| ==> cum[i] == cum[i - 1] + w[i]
  {
    if |w| == 0 then []
    else
      var init := Accumulate(w[..|w| - 1]);
      init + [(if |init| == 0 then 0.0 else init[|init| - 1]) + w[|w| - 1]]
  }

  /**
   * The checks `random.choices(range(n), weights=w, k=1)` makes: a weight
   * list of the wrong length, an empty choice set (its total is read from
   * an empty list), and a total that is not positive.
   */
  function ChoicesCheck(w: seq<real>, n: nat): (e: Option<Error>)
    ensures e.None? <==> |w| == n && n > 0 && Accumulate(w)[n - 1] > 0.0
  {
    if |w| != n then Some(ValueError("The number of weights does not match the population"))
    else if n == 0 then Some(IndexError("list index out of range"))
    else if Accumulate(w)[n - 1] <= 0.0 then Some(ValueError("Total of weights must be greater than zero"))
    else None
  }

  predicate NonDecreasing(a: seq<real>) {
    forall i, j :: 0 <= i <= j < |a| ==> a[i] <= a[j]
  }

  /** `bisect.bisect_right(a, x, lo, hi)`: binary search for the first position in `[lo, hi)` whose entry exceeds `x`. */
  function BisectRight(a: seq<real>, x: real, lo: nat, hi: nat): (i: nat)
    requires lo <= hi <= |a|
    ensures lo <= i <= hi
    decreases hi - lo
  {
    if lo == hi then lo
    else
      var mid := (lo + hi) / 2;
      if x < a[mid] then BisectRight(a, x, lo, mid) else BisectRight(a, x, mid + 1, hi)
  }

  /** On a non-decreasing list the search splits `[lo, hi)` into entries up to `x` and entries above it. */
  lemma {:induction false} BisectSplits(a: seq<real>, x: real, lo: nat, hi: nat)
    requires lo <= hi <= |a| && NonDecreasing(a)
    ensures forall j :: lo <= j < BisectRight(a, x, lo, hi) ==> a[j] <= x
    ensures forall j :: BisectRight(a, x, lo, hi) <= j < hi ==> a[j] > x
    decreases hi - lo
  {
    if lo < hi {
      var mid := (lo + hi) / 2;
      if x < a[mid] {
        BisectSplits(a, x, lo, mid);
      } else {
        BisectSplits(a, x, mid + 1, hi);
      }
    }
  }

  lemma {:induction false} AccumulateNonDecreasing(w: seq<real>)
    requires NonNegative(w)
    ensures NonDecreasing(Accumulate(w))
  {
    var cum := Accumulate(w);
    forall i, j | 0 <= i <= j < |cum| ensures cum[i] <= cum[j] {
      var k := i;
      while k < j
        invariant i <= k <= j && cum[i] <= cum[k]
      {
        assert w[k + 1] >= 0.0;
        k := k + 1;
      }
    }
  }

  /**
   * The index `random.choices(range(n), weights=w, k=1)[0]` returns for
   * the uniform sample `u` of `random()`: a binary search of `u * total`
   * among the first `n - 1` running totals.
   */
  function ChoicesIndex(w: seq<real>, u: real): (i: nat)
    requires |w| > 0
    ensures i < |w|
  {
    var cum := Accumulate(w);
    BisectRight(cum, Sample(u, cum[|w| - 1]), 0, |w| - 1)
  }

  /** `random() * total`: a sample in `[0, 1)` scaled to `[0, total)`. */
  function Sample(u: real, total: real): (x: real)
    ensures 0.0 <= u < 1.0 && total > 0.0 ==> 0.0 <= x < total
  {
    assert total - u * total == (1.0 - u) * total;
    u * total
  }

  /**
   * With non-negative weights of positive total and a sample in `[0, 1)`,
   * the index drawn is a valid one whose weight is positive: a child of
   * weight zero is never drawn.
   */
  lemma ChoicesIndexHasWeight(w: seq<real>, u: real)
    requires ChoicesCheck(w, |w|).None? && NonNegative(w) && 0.0 <= u < 1.0
    ensures w[ChoicesIndex(w, u)] > 0.0
  {
    DrawnHasWeight(w, Sample(u, Accumulate(w)[|w| - 1]));
  }

  /** A sample in `[0, total)` lands on an index of positive weight. */
  lemma DrawnHasWeight(w: seq<real>, x: real)
    requires |w| > 0 && NonNegative(w) && 0.0 <= x < Accumulate(w)[|w| - 1]
    ensures w[BisectRight(Accumulate(w), x, 0, |w| - 1)] > 0.0
  {
    var n := |w|;
    var cum := Accumulate(w);
    ChoicesBracket(w, x);
    var i := BisectRight(cum, x, 0, n - 1);
    if i > 0 {
      assert w[i] == cum[i] - cum[i - 1];
    } else {
      assert w[0] == cum[0];
    }
  }

  /** The drawn index `i` has its running total above the sample and the one before it at or below. */
  lemma ChoicesBracket(w: seq<real>, x: real)
    requires |w| > 0 && NonNegative(w)
    ensures BisectRight(Accumulate(w), x, 0, |w| - 1) > 0 ==>
              Accumulate(w)[BisectRight(Accumulate(w), x, 0, |w| - 1) - 1] <= x
    ensures BisectRight(Accumulate(w), x, 0, |w| - 1) < |w| - 1 ==>
              Accumulate(w)[BisectRight(Accumulate(w), x, 0, |w| - 1)] > x
  {
    AccumulateNonDecreasing(w);
    BisectSplits(Accumulate(w), x, 0, |w| - 1);
  }
}
