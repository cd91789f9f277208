/**
 * Accumulation of the reported figures in conv/basic.py's training loop: per epoch, the cost is
 * the plain sum of the per-batch costs and the error is the sum of the per-batch error rates
 * divided by the number of batches; the final test error is `np.mean` of the per-test-batch error
 * rates. The per-batch values returned by the compiled `train` and `test` functions are inputs.
 * Arithmetic is over exact reals.
 */
module Epochs {
  import opened Wrappers

  /** Sum of the values, added first to last as the loop does. */
  function Sum(xs: seq<real>): real
  {
    if xs == [] then 0.0 else Sum(xs[..|xs| - 1]) + xs[|xs| - 1]
  }

  /**
   * `np.mean(xs)`: the final test error over all test batches, and the mean batch cost printed by
   * the autoencoders' `backprop` each epoch. None for an empty list, where numpy gives NaN.
   */
  function Mean(xs: seq<real>): (m: Option<real>)
    ensures m.Some? <==> xs != []
    ensures m.Some? ==> m.value * (|xs| as real) == Sum(xs)
  {
    if xs == [] then None else Some(Sum(xs) / (|xs| as real))
  }

  /** If every value lies in [lo, hi], so does the sum scaled by the count. */
  lemma {:induction false} SumBounds(xs: seq<real>, lo: real, hi: real)
    requires forall k :: 0 <= k < |xs| ==> lo <= xs[k] <= hi
    ensures lo * (|xs| as real) <= Sum(xs) <= hi * (|xs| as real)
  {
    if xs != [] {
      var init := xs[..|xs| - 1];
      assert forall k :: 0 <= k < |init| ==> init[k] == xs[k];
      SumBounds(init, lo, hi);
      assert lo * (|xs| as real) == lo * (|init| as real) + lo;
      assert hi * (|xs| as real) == hi * (|init| as real) + hi;
    }
  }

  /** The mean of values in [lo, hi] lies in [lo, hi]; in particular a mean of error rates is a rate. */
  lemma MeanBounds(xs: seq<real>, lo: real, hi: real)
    requires xs != []
    requires forall k :: 0 <= k < |xs| ==> lo <= xs[k] <= hi
    ensures lo <= Mean(xs).value <= hi
  {
    SumBounds(xs, lo, hi);
    var n := |xs| as real;
    var m := Mean(xs).value;
    assert m * n == Sum(xs);
    assert (m - lo) * n >= 0.0;
    assert (hi - m) * n >= 0.0;
    if m < lo {
      NegTimesPos(m - lo, n);
    }
    if m > hi {
      NegTimesPos(hi - m, n);
    }
  }

  lemma NegTimesPos(a: real, n: real)
    requires a < 0.0 && n > 0.0
    ensures a * n < 0.0
  {
  }

  /** What `train(x, y)` returned for one batch: `costi, errori`. */
  datatype BatchResult = BatchResult(cost: real, error: real)

  /** What one epoch prints: the summed cost and the mean error. */
  datatype EpochReport = EpochReport(cost: real, error: real)

  function Costs(rs: seq<BatchResult>): seq<real>
  {
    seq(|rs|, k requires 0 <= k < |rs| => rs[k].cost)
  }

  function Errors(rs: seq<BatchResult>): seq<real>
  {
    seq(|rs|, k requires 0 <= k < |rs| => rs[k].error)
  }

  /**
   * One epoch of the training loop: `cost += costi; error += errori` over the zipped batches, then
   * `error /= batches.shape[0]`. A zero batch count raises ZeroDivisionError in the source (None here).
   * When the zip yields one result per image batch, the reported error is the mean of the batch errors.
   */
  method TrainEpoch(results: seq<BatchResult>, batchCount: nat) returns (report: Option<EpochReport>)
    ensures report.None? <==> batchCount == 0
    ensures report.Some? ==> report.value.cost == Sum(Costs(results))
    ensures report.Some? ==> report.value.error * (batchCount as real) == Sum(Errors(results))
    ensures report.Some? && |results| == batchCount ==> Mean(Errors(results)) == Some(report.value.error)
  {
    var cost, error := 0.0, 0.0;
    for b := 0 to |results|
      invariant cost == Sum(Costs(results)[..b])
      invariant error == Sum(Errors(results)[..b])
    {
      assert Costs(results)[..b + 1][..b] == Costs(results)[..b];
      assert Errors(results)[..b + 1][..b] == Errors(results)[..b];
      cost := cost + results[b].cost;
      error := error + results[b].error;
    }
    assert Costs(results)[..|results|] == Costs(results);
    assert Errors(results)[..|results|] == Errors(results);
    if batchCount == 0 {
      return None;
    }
    error := error / (batchCount as real);
    report := Some(EpochReport(cost, error));
  }
}
