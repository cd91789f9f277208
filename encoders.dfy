/**
 * The encoder masking and row normalisation of deep-auto.py. `RBM.statistical_encoders` multiplies
 * the n_hid x n_vis encoder matrix in place by the boolean mask; `RBM.__init__` instead builds a new,
 * masked matrix (`encoders * mask`) and leaves the one it was given alone. Both then divide each
 * row of the resulting matrix in place by its L2 norm.
 * Dafny's reals have no square root, so the row norms are inputs: each must be the
 * non-negative square root of the row's squared norm.
 */
module Encoders {
  import opened Wrappers
  import opened Reshape

  /** Squared L2 norm: `norm(x)**2`, the sum of the squares of the entries. */
  function SqNorm(x: seq<real>): real
  {
    if x == [] then 0.0 else x[0] * x[0] + SqNorm(x[1..])
  }

  /** Row k of a matrix. */
  function Row(a: array2<real>, k: nat): seq<real>
    reads a
    requires k < a.Length0
  {
    seq(a.Length1, p requires 0 <= p < a.Length1 reads a => a[k, p])
  }

  /** `x * mask_row`: entries whose mask bit is false become zero. */
  function MaskedRow(x: seq<real>, bits: seq<bool>): seq<real>
    requires |bits| == |x|
  {
    seq(|x|, p requires 0 <= p < |x| => if bits[p] then x[p] else 0.0)
  }

  /**
   * Row k of `encoders * mask` when a mask exists, and the row itself otherwise. A mask row of the
   * wrong width (which numpy would reject) leaves the row as it is.
   */
  function MaskedBy(x: seq<real>, mask: Option<seq<seq<bool>>>, k: nat): (y: seq<real>)
    ensures |y| == |x|
    ensures mask.None? ==> y == x
    ensures mask.Some? && k < |mask.value| && |mask.value[k]| == |x| ==>
      forall p :: 0 <= p < |x| ==> y[p] == if mask.value[k][p] then x[p] else 0.0
  {
    if mask.Some? && k < |mask.value| && |mask.value[k]| == |x| then MaskedRow(x, mask.value[k]) else x
  }

  /** `x / d` entry by entry. */
  function Scaled(x: seq<real>, d: real): seq<real>
    requires d != 0.0
  {
    seq(|x|, p requires 0 <= p < |x| => x[p] / d)
  }

  /** Dividing a row by d multiplies its squared norm by (1/d)^2. */
  lemma {:induction false} SqNormScaled(x: seq<real>, d: real)
    requires d != 0.0
    ensures SqNorm(Scaled(x, d)) == (1.0 / d) * (1.0 / d) * SqNorm(x)
  {
    if x != [] {
      SqNormScaled(x[1..], d);
      assert Scaled(x, d)[1..] == Scaled(x[1..], d);
      var inv := 1.0 / d;
      assert Scaled(x, d)[0] == x[0] * inv;
      assert SqNorm(Scaled(x, d)) == (x[0] * inv) * (x[0] * inv) + inv * inv * SqNorm(x[1..]);
      assert SqNorm(x) == x[0] * x[0] + SqNorm(x[1..]);
      assert (x[0] * inv) * (x[0] * inv) + inv * inv * SqNorm(x[1..]) == inv * inv * (x[0] * x[0] + SqNorm(x[1..]));
    }
  }

  /** A row divided by its (non-zero) norm has norm 1. */
  lemma UnitAfterScaling(x: seq<real>, d: real)
    requires d > 0.0 && d * d == SqNorm(x)
    ensures SqNorm(Scaled(x, d)) == 1.0
  {
    SqNormScaled(x, d);
    var inv := 1.0 / d;
    assert inv * d == 1.0;
    assert inv * inv * (d * d) == (inv * d) * (inv * d);
  }

  /** `encoders *= mask`: in place, entries outside the unit's receptive field become zero. */
  method ApplyMask(enc: array2<real>, mask: seq<seq<bool>>)
    requires |mask| == enc.Length0 && Uniform(mask, enc.Length1)
    modifies enc
    ensures forall k :: 0 <= k < enc.Length0 ==> Row(enc, k) == MaskedRow(old(Row(enc, k)), mask[k])
  {
    for k := 0 to enc.Length0
      invariant forall k', p :: 0 <= k' < enc.Length0 && 0 <= p < enc.Length1 ==>
        enc[k', p] == if k' < k && !mask[k'][p] then 0.0 else old(enc[k', p])
    {
      for p := 0 to enc.Length1
        invariant forall k', p' :: 0 <= k' < enc.Length0 && 0 <= p' < enc.Length1 ==>
          enc[k', p'] == if (k' < k || (k' == k && p' < p)) && !mask[k'][p'] then 0.0 else old(enc[k', p'])
      {
        if !mask[k][p] {
          enc[k, p] := 0.0;
        }
      }
    }
    forall k | 0 <= k < enc.Length0
      ensures Row(enc, k) == MaskedRow(old(Row(enc, k)), mask[k])
    {
      assert forall p :: 0 <= p < enc.Length1 ==> Row(enc, k)[p] == MaskedRow(old(Row(enc, k)), mask[k])[p];
    }
  }

  /**
   * `encoders /= norm(encoders, axis=1, keepdims=True)`: every row divided in place by its norm.
   * A zero norm (numpy would write NaN) is reported as ok = false and leaves the matrix unchanged.
   */
  method NormalizeRows(enc: array2<real>, norms: seq<real>) returns (ok: bool)
    requires |norms| == enc.Length0
    requires forall k :: 0 <= k < |norms| ==> norms[k] >= 0.0 && norms[k] * norms[k] == SqNorm(Row(enc, k))
    modifies enc
    ensures ok <==> forall k :: 0 <= k < |norms| ==> norms[k] > 0.0
    ensures !ok ==> unchanged(enc)
    ensures ok ==> forall k :: 0 <= k < enc.Length0 ==>
      Row(enc, k) == Scaled(old(Row(enc, k)), norms[k]) && SqNorm(Row(enc, k)) == 1.0
  {
    ok := forall k :: 0 <= k < |norms| ==> norms[k] > 0.0;
    if !ok {
      return;
    }
    for k := 0 to enc.Length0
      invariant forall k', p :: 0 <= k' < enc.Length0 && 0 <= p < enc.Length1 ==>
        enc[k', p] == if k' < k then old(enc[k', p]) / norms[k'] else old(enc[k', p])
    {
      for p := 0 to enc.Length1
        invariant forall k', p' :: 0 <= k' < enc.Length0 && 0 <= p' < enc.Length1 ==>
          enc[k', p'] == if k' < k || (k' == k && p' < p) then old(enc[k', p']) / norms[k'] else old(enc[k', p'])
      {
        enc[k, p] := enc[k, p] / norms[k];
      }
    }
    forall k | 0 <= k < enc.Length0
      ensures Row(enc, k) == Scaled(old(Row(enc, k)), norms[k]) && SqNorm(Row(enc, k)) == 1.0
    {
      assert forall p :: 0 <= p < enc.Length1 ==> Row(enc, k)[p] == Scaled(old(Row(enc, k)), norms[k])[p];
      UnitAfterScaling(old(Row(enc, k)), norms[k]);
    }
  }

  /**
   * The tail of `statistical_encoders` (deep-auto.py:185-187): mask the encoders in place when a
   * mask exists, then normalise the rows in place. The norms are those of the masked rows.
   * Afterwards row k is the masked old row divided by its norm, so every entry whose mask bit is
   * false is zero and every row has unit norm; when some norm is zero the rows are only masked.
   */
  method MaskAndNormalize(enc: array2<real>, mask: Option<seq<seq<bool>>>, norms: seq<real>)
    returns (ok: bool)
    requires mask.Some? ==> |mask.value| == enc.Length0 && Uniform(mask.value, enc.Length1)
    requires |norms| == enc.Length0
    requires forall k :: 0 <= k < |norms| ==>
      norms[k] >= 0.0 && norms[k] * norms[k] == SqNorm(MaskedBy(Row(enc, k), mask, k))
    modifies enc
    ensures ok <==> forall k :: 0 <= k < |norms| ==> norms[k] > 0.0
    ensures ok ==> forall k :: 0 <= k < enc.Length0 ==>
      Row(enc, k) == Scaled(MaskedBy(old(Row(enc, k)), mask, k), norms[k]) && SqNorm(Row(enc, k)) == 1.0
    ensures !ok ==> forall k :: 0 <= k < enc.Length0 ==> Row(enc, k) == MaskedBy(old(Row(enc, k)), mask, k)
    ensures mask.Some? ==> forall k, p :: 0 <= k < enc.Length0 && 0 <= p < enc.Length1 && !mask.value[k][p] ==>
      enc[k, p] == 0.0
  {
    if mask.Some? {
      ApplyMask(enc, mask.value);
    }
    assert forall k :: 0 <= k < enc.Length0 ==> Row(enc, k) == MaskedBy(old(Row(enc, k)), mask, k);
    ok := NormalizeRows(enc, norms);
    if mask.Some? {
      forall k, p | 0 <= k < enc.Length0 && 0 <= p < enc.Length1 && !mask.value[k][p]
        ensures enc[k, p] == 0.0
      {
        assert Row(enc, k)[p] == enc[k, p];
      }
    }
  }

  /** `encoders * mask`: a new array holding the masked rows; the argument is not changed. */
  method MaskedCopy(enc: array2<real>, mask: seq<seq<bool>>) returns (out: array2<real>)
    requires |mask| == enc.Length0 && Uniform(mask, enc.Length1)
    ensures fresh(out) && out.Length0 == enc.Length0 && out.Length1 == enc.Length1
    ensures forall k :: 0 <= k < out.Length0 ==> Row(out, k) == MaskedRow(Row(enc, k), mask[k])
  {
    out := new real[enc.Length0, enc.Length1]((k, p) reads enc =>
      if 0 <= k < enc.Length0 && 0 <= p < enc.Length1 && !mask[k][p] then 0.0
      else if 0 <= k < enc.Length0 && 0 <= p < enc.Length1 then enc[k, p] else 0.0);
    forall k | 0 <= k < out.Length0
      ensures Row(out, k) == MaskedRow(Row(enc, k), mask[k])
    {
      assert forall p :: 0 <= p < out.Length1 ==> Row(out, k)[p] == MaskedRow(Row(enc, k), mask[k])[p];
    }
  }

  /**
   * The tail of `RBM.__init__` (deep-auto.py:83-85). With a mask, `encoders = encoders * mask`
   * rebinds the name to a new masked array and the caller's array stays as it was; without one,
   * `encoders` is still the caller's array. `encoders /= norm(...)` then divides the rows of
   * whichever array that is in place.
   */
  method InitEncoders(enc: array2<real>, mask: Option<seq<seq<bool>>>, norms: seq<real>)
    returns (out: array2<real>, ok: bool)
    requires mask.Some? ==> |mask.value| == enc.Length0 && Uniform(mask.value, enc.Length1)
    requires |norms| == enc.Length0
    requires forall k :: 0 <= k < |norms| ==>
      norms[k] >= 0.0 && norms[k] * norms[k] == SqNorm(MaskedBy(Row(enc, k), mask, k))
    modifies enc
    ensures out.Length0 == enc.Length0 && out.Length1 == enc.Length1
    ensures mask.Some? ==> fresh(out) && unchanged(enc)
    ensures mask.None? ==> out == enc
    ensures ok <==> forall k :: 0 <= k < |norms| ==> norms[k] > 0.0
    ensures ok ==> forall k :: 0 <= k < out.Length0 ==>
      Row(out, k) == Scaled(MaskedBy(old(Row(enc, k)), mask, k), norms[k]) && SqNorm(Row(out, k)) == 1.0
    ensures !ok ==> forall k :: 0 <= k < out.Length0 ==> Row(out, k) == MaskedBy(old(Row(enc, k)), mask, k)
  {
    if mask.Some? {
      out := MaskedCopy(enc, mask.value);
    } else {
      out := enc;
    }
    assert forall k :: 0 <= k < out.Length0 ==> Row(out, k) == MaskedBy(old(Row(enc, k)), mask, k);
    ok := NormalizeRows(out, norms);
  }
}
