/**
 * The tail of `RBM.__init__` in deep-auto.py as one step: decide where the encoders' mask comes
 * from, build the receptive-field mask from the drawn corners when one is asked for, then mask and
 * normalise the encoders. The corners and the row norms are inputs (see ReceptiveField, Encoders).
 */
module RbmInit {
  import opened Wrappers
  import opened Reshape
  import opened ReceptiveField
  import opened Encoders

  /** The mask `RBM.__init__` uses once the plan is known and the corners are drawn. */
  function PlannedMask(plan: MaskSource, nHid: nat, ci: seq<nat>, cj: seq<nat>): Option<seq<seq<bool>>>
    requires plan.Receptive? ==> |ci| == nHid && |cj| == nHid
  {
    match plan
    case NoMask => None
    case Given(mask) => Some(mask)
    case Receptive(M, N, m, n) =>
      Some(seq(nHid, k requires 0 <= k < nHid => FieldRow(M, N, m, n, ci[k], cj[k])))
  }

  /** The corners drawn by `rng.randint` are in range whenever a receptive-field mask is built. */
  predicate CornersFit(visShape: ShapeArg, rfShape: Option<(nat, nat)>, mask: Option<seq<seq<bool>>>,
                       nHid: nat, ci: seq<nat>, cj: seq<nat>)
  {
    var plan := PlanMask(visShape, rfShape, mask);
    plan.Success? && plan.value.Receptive? ==>
      CornersInRange(nHid, plan.value.rows, plan.value.cols, plan.value.fieldRows, plan.value.fieldCols, ci, cj)
  }

  /**
   * deep-auto.py:67-81: the mask is the given one, none, or the receptive-field mask built from
   * the corners; the assertion and the empty `randint` range are the two failures. A built mask
   * has n_hid rows of n_vis = prod(vis_shape) entries.
   */
  method InitMask(visShape: ShapeArg, rfShape: Option<(nat, nat)>, mask: Option<seq<seq<bool>>>,
                  nHid: nat, ci: seq<nat>, cj: seq<nat>)
    returns (r: Result<Option<seq<seq<bool>>>, MaskError>)
    requires CornersFit(visShape, rfShape, mask, nHid, ci, cj)
    ensures r.Failure? <==> PlanMask(visShape, rfShape, mask).Failure?
    ensures r.Failure? ==> r.error == PlanMask(visShape, rfShape, mask).error
    ensures r.Success? ==> r.value == PlannedMask(PlanMask(visShape, rfShape, mask).value, nHid, ci, cj)
    ensures r.Success? && PlanMask(visShape, rfShape, mask).value.Receptive? ==>
      r.value.Some? && |r.value.value| == nHid && Uniform(r.value.value, Prod(VisShape(visShape)))
  {
    var plan := PlanMask(visShape, rfShape, mask);
    if plan.Failure? {
      return Failure(plan.error);
    }
    match plan.value
    case NoMask =>
      r := Success(None);
    case Given(given) =>
      r := Success(Some(given));
    case Receptive(M, N, m, n) =>
      var built := BuildMask(nHid, M, N, m, n, ci, cj);
      assert built == PlannedMask(plan.value, nHid, ci, cj).value;
      VisibleCount(M, N);
      assert VisShape(visShape) == VisShape(Tuple([M, N]));
      r := Success(Some(built));
  }

  /**
   * deep-auto.py:67-85: the mask is planned and built, and the encoders are then masked into a new
   * array (or left as the caller's own when there is no mask) and normalised row by row.
   * The result is the final encoder array and whether every row norm was positive.
   */
  method Initialize(visShape: ShapeArg, rfShape: Option<(nat, nat)>, mask: Option<seq<seq<bool>>>,
                    ci: seq<nat>, cj: seq<nat>, enc: array2<real>, norms: seq<real>)
    returns (r: Result<(array2<real>, bool), MaskError>)
    requires CornersFit(visShape, rfShape, mask, enc.Length0, ci, cj)
    requires Prod(VisShape(visShape)) == enc.Length1
    requires mask.Some? ==> |mask.value| == enc.Length0 && Uniform(mask.value, enc.Length1)
    requires |norms| == enc.Length0
    requires PlanMask(visShape, rfShape, mask).Success? ==>
      forall k :: 0 <= k < |norms| ==>
        (norms[k] >= 0.0 &&
         norms[k] * norms[k] ==
           SqNorm(MaskedBy(Row(enc, k), PlannedMask(PlanMask(visShape, rfShape, mask).value, enc.Length0, ci, cj), k)))
    modifies enc
    ensures r.Failure? <==> PlanMask(visShape, rfShape, mask).Failure?
    ensures r.Failure? ==> r.error == PlanMask(visShape, rfShape, mask).error && unchanged(enc)
    ensures r.Success? ==>
      r.value.0.Length0 == enc.Length0 && r.value.0.Length1 == enc.Length1 &&
      (r.value.1 <==> forall k :: 0 <= k < |norms| ==> norms[k] > 0.0)
    ensures r.Success? ==>
      var planned := PlannedMask(PlanMask(visShape, rfShape, mask).value, enc.Length0, ci, cj);
      (planned.Some? ==> fresh(r.value.0) && unchanged(enc)) &&
      (planned.None? ==> r.value.0 == enc) &&
      forall k :: 0 <= k < enc.Length0 ==>
        if r.value.1 then
          Row(r.value.0, k) == Scaled(MaskedBy(old(Row(enc, k)), planned, k), norms[k]) &&
          SqNorm(Row(r.value.0, k)) == 1.0
        else Row(r.value.0, k) == MaskedBy(old(Row(enc, k)), planned, k)
  {
    var planned := InitMask(visShape, rfShape, mask, enc.Length0, ci, cj);
    if planned.Failure? {
      return Failure(planned.error);
    }
    var out, ok := InitEncoders(enc, planned.value, norms);
    r := Success((out, ok));
  }
}
