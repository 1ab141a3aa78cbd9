/** The discrete bookkeeping of the YOLOv2 training loss: which prediction
    slots of an image count as positives (`ids`) and as negatives
    (`non_ids`), and how the four per-image loss terms are accumulated over
    the batch and combined with the four coefficients.

    The terms themselves (box conversion, IOU, squared error, cross entropy)
    are abstract non-negative reals handed in per image. */
module YoloV2Loss {
  import opened Wrappers
  import opened SeqUtil

  // ---------------------------------------------------------------------
  // Positive and negative slots of one image

  /** `torch.nonzero(mask)`: the slots whose mask value is not zero. */
  function Ids(mask: seq<real>): (ids: seq<nat>)
    ensures StrictlyIncreasing(ids)
    ensures forall p :: p in ids <==> 0 <= p < |mask| && mask[p] != 0.0
  {
    Where(mask, (m: real) => m != 0.0)
  }

  /** `torch.nonzero(1 - mask)`: the slots whose mask value is not one. */
  function NonIds(mask: seq<real>): (nonIds: seq<nat>)
    ensures StrictlyIncreasing(nonIds)
    ensures forall p :: p in nonIds <==> 0 <= p < |mask| && 1.0 - mask[p] != 0.0
  {
    Where(mask, (m: real) => 1.0 - m != 0.0)
  }

  /** Every slot of the image is a positive, a negative, or both. */
  lemma IdsCoverAllSlots(mask: seq<real>)
    ensures forall p :: 0 <= p < |mask| ==> p in Ids(mask) || p in NonIds(mask)
  {
  }

  /** A slot is both a positive and a negative exactly when its mask value
      is neither 0 nor 1; for masks in [0, 1] that is strictly between. */
  lemma SlotInBothIff(mask: seq<real>, p: nat)
    requires p < |mask|
    requires 0.0 <= mask[p] <= 1.0
    ensures p in Ids(mask) && p in NonIds(mask) <==> 0.0 < mask[p] < 1.0
  {
  }

  /** With a mask of zeros and ones the two lists split the slots. */
  lemma BinaryMaskPartitions(mask: seq<real>)
    requires forall p :: 0 <= p < |mask| ==> mask[p] == 0.0 || mask[p] == 1.0
    ensures forall p :: 0 <= p < |mask| ==> (p in Ids(mask) <==> p !in NonIds(mask))
    ensures |Ids(mask)| + |NonIds(mask)| == |mask|
  {
    WhereComplement(mask, (m: real) => m != 0.0, (m: real) => 1.0 - m != 0.0);
  }

  // ---------------------------------------------------------------------
  // Combining the terms

  /** The four weights, in the order the caller passes them. */
  datatype Coefs = Coefs(coord: real, obj: real, noobj: real, cls: real)

  /** The running sums, or one image's contributions to them: centre
      error, size error, object confidence, no-object confidence, class. */
  datatype Terms = Terms(xy: real, wh: real, obj: real, noobj: real, cls: real)

  const NoTerms := Terms(0.0, 0.0, 0.0, 0.0, 0.0)

  function Add(a: Terms, b: Terms): Terms {
    Terms(a.xy + b.xy, a.wh + b.wh, a.obj + b.obj, a.noobj + b.noobj, a.cls + b.cls)
  }

  predicate NonNegative(t: Terms) {
    t.xy >= 0.0 && t.wh >= 0.0 && t.obj >= 0.0 && t.noobj >= 0.0 && t.cls >= 0.0
  }

  predicate NonNegativeCoefs(c: Coefs) {
    c.coord >= 0.0 && c.obj >= 0.0 && c.noobj >= 0.0 && c.cls >= 0.0
  }

  /** The per-image loop: every sum starts at zero and each image, in batch
      order, adds its contribution. */
  function Accumulate(perImage: seq<Terms>): (t: Terms)
    ensures (forall i :: 0 <= i < |perImage| ==> NonNegative(perImage[i])) ==> NonNegative(t)
  {
    if |perImage| == 0 then NoTerms
    else Add(Accumulate(perImage[..|perImage| - 1]), perImage[|perImage| - 1])
  }

  /** The weighted sum of the accumulated terms, before averaging. */
  function Weighted(c: Coefs, t: Terms): (w: real)
    ensures NonNegativeCoefs(c) && NonNegative(t) ==> w >= 0.0
  {
    assert NonNegativeCoefs(c) && NonNegative(t) ==>
      c.coord * (t.xy + t.wh) >= 0.0 && c.obj * t.obj >= 0.0
      && c.noobj * t.noobj >= 0.0 && c.cls * t.cls >= 0.0;
    c.coord * (t.xy + t.wh) + c.obj * t.obj + c.noobj * t.noobj + c.cls * t.cls
  }

  datatype LossError =
    | EmptyBatch               // `1/b` with b = 0
    | NoPositiveSlot(image: nat)  // `max(dim=1)` over the IOUs with no ground truth

  /** The loss of a batch: the weighted sum of the accumulated terms over
      the batch size. */
  function Loss(perImage: seq<Terms>, c: Coefs): (r: Result<real, LossError>)
    ensures r.Failure? <==> |perImage| == 0
  {
    var b := |perImage|;
    if b == 0 then Failure(EmptyBatch)
    else Success(1.0 / (b as real) * Weighted(c, Accumulate(perImage)))
  }

  /** Sums over images do not depend on how the batch is split. */
  lemma {:induction false} AccumulateAppend(a: seq<Terms>, b: seq<Terms>)
    ensures Accumulate(a + b) == Add(Accumulate(a), Accumulate(b))
    decreases |b|
  {
    if |b| == 0 {
      assert a + b == a;
    } else {
      var b' := b[..|b| - 1];
      assert (a + b)[..|a + b| - 1] == a + b';
      AccumulateAppend(a, b');
    }
  }

  /** Non-negative weights and non-negative terms give a non-negative loss. */
  lemma LossNonNegative(perImage: seq<Terms>, c: Coefs)
    requires |perImage| > 0
    requires NonNegativeCoefs(c)
    requires forall i :: 0 <= i < |perImage| ==> NonNegative(perImage[i])
    ensures Loss(perImage, c).Success? && Loss(perImage, c).value >= 0.0
  {
    var b := |perImage| as real;
    assert 1.0 / b > 0.0;
  }

  function AddCoefs(c: Coefs, d: Coefs): Coefs {
    Coefs(c.coord + d.coord, c.obj + d.obj, c.noobj + d.noobj, c.cls + d.cls)
  }

  function ScaleCoefs(k: real, c: Coefs): Coefs {
    Coefs(k * c.coord, k * c.obj, k * c.noobj, k * c.cls)
  }

  /** The loss is linear in the coefficient vector. */
  lemma LossLinearInCoefs(perImage: seq<Terms>, c: Coefs, d: Coefs, k: real)
    requires |perImage| > 0
    ensures Loss(perImage, AddCoefs(c, d)).value
            == Loss(perImage, c).value + Loss(perImage, d).value
    ensures Loss(perImage, ScaleCoefs(k, c)).value == k * Loss(perImage, c).value
  {
    var t := Accumulate(perImage);
    var s := 1.0 / (|perImage| as real);
    assert Weighted(AddCoefs(c, d), t) == Weighted(c, t) + Weighted(d, t);
    assert Weighted(ScaleCoefs(k, c), t) == k * Weighted(c, t);
    assert s * (k * Weighted(c, t)) == k * (s * Weighted(c, t));
  }

  /** The `1/b` factor makes the loss a per-image average: a batch made of
      the same images twice has the same loss. */
  lemma LossIsBatchAverage(perImage: seq<Terms>, c: Coefs)
    requires |perImage| > 0
    ensures Loss(perImage + perImage, c) == Loss(perImage, c)
  {
    AccumulateAppend(perImage, perImage);
    var t := Accumulate(perImage);
    var b := |perImage| as real;
    var w := Weighted(c, t);
    assert (|perImage + perImage| as real) == 2.0 * b;
    assert Weighted(c, Add(t, t)) == 2.0 * w;
    assert 1.0 / (2.0 * b) * 2.0 == 1.0 / b;
    assert 1.0 / (2.0 * b) * (2.0 * w) == 1.0 / b * w;
    assert Accumulate(perImage + perImage) == Add(t, t);
    assert Loss(perImage + perImage, c).value == 1.0 / (2.0 * b) * Weighted(c, Add(t, t));
    assert Loss(perImage, c).value == 1.0 / b * w;
    assert Loss(perImage + perImage, c).value == Loss(perImage, c).value;
  }

  // ---------------------------------------------------------------------
  // Images without a positive slot

  /** One image of the batch: its assignment mask and the five sums its
      slots contribute. */
  datatype Image = Image(mask: seq<real>, terms: Terms)

  function TermsOf(batch: seq<Image>): (perImage: seq<Terms>)
    ensures |perImage| == |batch|
  {
    seq(|batch|, i requires 0 <= i < |batch| => batch[i].terms)
  }

  /** The images whose mask has no non-zero slot, in batch order. */
  function WithoutPositive(batch: seq<Image>): (missing: seq<nat>)
    ensures StrictlyIncreasing(missing)
    ensures forall i :: i in missing <==> 0 <= i < |batch| && |Ids(batch[i].mask)| == 0
  {
    Where(batch, (img: Image) => |Ids(img.mask)| == 0)
  }

  /** The loss as written. For an image without a positive slot the IOU
      matrix of line 91 has no column, and its maximum over that empty
      dimension raises before any sum is formed; the first such image in
      batch order is the one that raises. */
  function LossAsWritten(batch: seq<Image>, c: Coefs): (r: Result<real, LossError>)
    ensures r.Failure? <==> |batch| == 0 || exists i :: 0 <= i < |batch| && |Ids(batch[i].mask)| == 0
    ensures r.Failure? && r.error.NoPositiveSlot? ==>
              var i := r.error.image;
              i < |batch| && |Ids(batch[i].mask)| == 0
              && forall j :: 0 <= j < i ==> |Ids(batch[j].mask)| > 0
    ensures r == Failure(EmptyBatch) ==> |batch| == 0
  {
    var missing := WithoutPositive(batch);
    if |missing| > 0 then
      assert missing[0] in missing;
      assert forall j :: j in missing ==> missing[0] <= j by {
        forall j | j in missing
          ensures missing[0] <= j
        {
          var k :| 0 <= k < |missing| && missing[k] == j;
          assert k == 0 || missing[0] < missing[k];
        }
      }
      Failure(NoPositiveSlot(missing[0]))
    else
      assert forall i :: 0 <= i < |batch| ==> i !in missing;
      Loss(TermsOf(batch), c)
  }

  /** What an image contributes when the sums over its positive slots are
      taken as empty sums: zero, except for the no-object sum. */
  function Contribution(img: Image): Terms {
    if |Ids(img.mask)| == 0 then Terms(0.0, 0.0, 0.0, img.terms.noobj, 0.0)
    else img.terms
  }

  /** The loss with images without ground truth admitted: their positive
      sums are empty, their slots count only as negatives. */
  function LossOfBatch(batch: seq<Image>, c: Coefs): (r: Result<real, LossError>)
    ensures r.Failure? <==> |batch| == 0
  {
    Loss(seq(|batch|, i requires 0 <= i < |batch| => Contribution(batch[i])), c)
  }

  /** Where the loss as written succeeds, it agrees with the corrected one. */
  lemma AsWrittenAgreesWhereDefined(batch: seq<Image>, c: Coefs)
    requires LossAsWritten(batch, c).Success?
    ensures LossAsWritten(batch, c) == LossOfBatch(batch, c)
  {
    var contributions := seq(|batch|, i requires 0 <= i < |batch| => Contribution(batch[i]));
    forall i | 0 <= i < |batch|
      ensures contributions[i] == TermsOf(batch)[i]
    {
      assert |Ids(batch[i].mask)| > 0;
    }
    assert contributions == TermsOf(batch);
  }

  /** An image without ground truth on its own: the loss is the weighted
      no-object sum of its slots. */
  lemma ImageWithoutObjectsCountsAsNegative(img: Image, c: Coefs)
    requires |Ids(img.mask)| == 0
    ensures LossOfBatch([img], c) == Success(c.noobj * img.terms.noobj)
  {
    var t := Contribution(img);
    var contributions := seq(1, i requires 0 <= i < 1 => Contribution([img][i]));
    assert contributions == [t];
    assert [t][..0] == [];
    assert Accumulate([t]) == Add(NoTerms, t);
    assert Weighted(c, t) == c.noobj * img.terms.noobj;
    assert LossOfBatch([img], c) == Success(1.0 / (1 as real) * Weighted(c, t));
  }

  /** A batch of one image whose mask is all zero: the loss as written
      raises, the corrected loss does not. */
  lemma AsWrittenRejectsImageWithoutObjects(t: Terms, c: Coefs)
    ensures LossAsWritten([Image([0.0, 0.0], t)], c) == Failure(NoPositiveSlot(0))
    ensures LossOfBatch([Image([0.0, 0.0], t)], c).Success?
  {
    var mask := [0.0, 0.0];
    assert |Ids(mask)| == 0;
    assert WithoutPositive([Image(mask, t)]) == [0];
  }
}
