/** The image counter of the inference loop: images are numbered
    consecutively across batches, and the loop stops after the first batch
    at which the running count reaches the output limit.

    A batch is modelled by its number of images; drawing and saving an
    image always reports one saved image, so the counter advances by the
    batch size. */
module InferenceRun {

  /** Number of images in a sequence of batches. */
  function Total(sizes: seq<nat>): nat {
    if |sizes| == 0 then 0 else Total(sizes[..|sizes| - 1]) + sizes[|sizes| - 1]
  }

  lemma TotalStep(sizes: seq<nat>, j: nat)
    requires j < |sizes|
    ensures Total(sizes[..j + 1]) == Total(sizes[..j]) + sizes[j]
  {
    assert sizes[..j + 1][..j] == sizes[..j];
  }

  /** The number of batches the loop consumes when it has consumed `j`
      batches holding `count` images without reaching `limit`. */
  function StopFrom(sizes: seq<nat>, j: nat, count: int, limit: int): (k: nat)
    requires j <= |sizes|
    requires count == Total(sizes[..j])
    requires forall j' :: 1 <= j' <= j ==> Total(sizes[..j']) < limit
    ensures j <= k <= |sizes|
    ensures k == |sizes| || (k >= 1 && Total(sizes[..k]) >= limit)
    ensures forall j' :: 1 <= j' < k ==> Total(sizes[..j']) < limit
    ensures j < |sizes| ==> j < k
    decreases |sizes| - j
  {
    if j == |sizes| then j
    else
      TotalStep(sizes, j);
      if count + sizes[j] >= limit then j + 1
      else StopFrom(sizes, j + 1, count + sizes[j], limit)
  }

  /** The number of batches consumed: the first batch after which the
      running image count reaches `limit`, or every batch. */
  function StopAfter(sizes: seq<nat>, limit: int): (k: nat)
    ensures k <= |sizes|
    ensures k == |sizes| || (k >= 1 && Total(sizes[..k]) >= limit)
    ensures forall j :: 1 <= j < k ==> Total(sizes[..j]) < limit
    ensures |sizes| > 0 ==> k >= 1
  {
    assert sizes[..0] == [];
    StopFrom(sizes, 0, 0, limit)
  }

  /** The limit as line 20 computes it: the requested number of images,
      capped by `len(dataloader)`, which counts batches, not images. */
  function OutputLimitAsWritten(numOutput: int, sizes: seq<nat>): (limit: int)
    ensures limit <= numOutput && limit <= |sizes|
    ensures limit == numOutput || limit == |sizes|
  {
    if numOutput < |sizes| then numOutput else |sizes|
  }

  /** The limit as evidently intended: the requested number of images,
      capped by the number of images the batches hold. */
  function OutputLimit(numOutput: int, sizes: seq<nat>): (limit: int)
    ensures limit <= numOutput && limit <= Total(sizes)
    ensures limit == numOutput || limit == Total(sizes)
  {
    var numImages := Total(sizes);
    if numOutput < numImages then numOutput else numImages
  }

  /** The inference loop of lines 25-45, for an already computed `limit`:
      batch after batch, every image is saved under the next number, and
      the loop stops once the count reaches the limit. `numbers` lists the
      number each saved image is written under (the `i` of line 39), in
      order; it is not the per-batch list `saved` of line 38. */
  method Run(sizes: seq<nat>, limit: int) returns (numbers: seq<nat>, consumed: nat)
    ensures consumed == StopAfter(sizes, limit)
    ensures |numbers| == Total(sizes[..consumed])
    ensures forall p :: 0 <= p < |numbers| ==> numbers[p] == p
  {
    var count := 0;
    numbers := [];
    consumed := 0;
    assert sizes[..0] == [];
    while consumed < |sizes|
      invariant consumed <= |sizes|
      invariant count == Total(sizes[..consumed]) && |numbers| == count
      invariant forall p :: 0 <= p < |numbers| ==> numbers[p] == p
      invariant forall j' :: 1 <= j' <= consumed ==> Total(sizes[..j']) < limit
      invariant StopAfter(sizes, limit) == StopFrom(sizes, consumed, count, limit)
    {
      var batch := sizes[consumed];
      for i := 0 to batch
        invariant |numbers| == count + i
        invariant forall p :: 0 <= p < |numbers| ==> numbers[p] == p
      {
        numbers := numbers + [count + i];
      }
      TotalStep(sizes, consumed);
      count := count + batch;
      consumed := consumed + 1;
      if count >= limit {
        break;
      }
    }
  }

  /** The whole run as written: the limit of line 20, then the loop. It
      stops after the first batch whose running count reaches
      `min(numOutput, number of batches)`. */
  method RunAsWritten(sizes: seq<nat>, numOutput: int) returns (numbers: seq<nat>, consumed: nat)
    ensures consumed == StopAfter(sizes, OutputLimitAsWritten(numOutput, sizes))
    ensures |numbers| == Total(sizes[..consumed])
    ensures forall p :: 0 <= p < |numbers| ==> numbers[p] == p
  {
    numbers, consumed := Run(sizes, OutputLimitAsWritten(numOutput, sizes));
  }

  /** The whole run with the limit capped by the number of images: it saves
      the requested number of images, or every image when fewer exist. */
  method RunCorrected(sizes: seq<nat>, numOutput: int) returns (numbers: seq<nat>, consumed: nat)
    ensures consumed == StopAfter(sizes, OutputLimit(numOutput, sizes))
    ensures |numbers| >= numOutput || |numbers| == Total(sizes)
    ensures forall p :: 0 <= p < |numbers| ==> numbers[p] == p
  {
    numbers, consumed := Run(sizes, OutputLimit(numOutput, sizes));
    OutputLimitServesRequest(sizes, numOutput);
  }

  /** With the limit as written, ten batches of eight images and a request
      for twenty images stop after two batches: sixteen images, fewer than
      requested though eighty exist. */
  lemma AsWrittenStopsShort()
    ensures var sizes := [8, 8, 8, 8, 8, 8, 8, 8, 8, 8];
            var k := StopAfter(sizes, OutputLimitAsWritten(20, sizes));
            k == 2 && Total(sizes[..k]) == 16 && Total(sizes[..k]) < 20 <= Total(sizes)
  {
    var sizes := [8, 8, 8, 8, 8, 8, 8, 8, 8, 8];
    assert OutputLimitAsWritten(20, sizes) == 10;
    TotalStep(sizes, 0);
    TotalStep(sizes, 1);
    assert sizes[..0] == [];
    assert Total(sizes[..2]) == 16;
    assert Total(sizes) == 80 by {
      var j := 2;
      while j < 10
        invariant 2 <= j <= 10 && Total(sizes[..j]) == 8 * j
      {
        TotalStep(sizes, j);
        j := j + 1;
      }
      assert sizes[..10] == sizes;
    }
  }

  /** A prefix of the batches never holds more images than all of them. */
  lemma {:induction false} TotalPrefixAtMost(sizes: seq<nat>, k: nat)
    requires k <= |sizes|
    ensures Total(sizes[..k]) <= Total(sizes)
    decreases |sizes|
  {
    if k < |sizes| {
      var n := |sizes| - 1;
      assert sizes[..n][..k] == sizes[..k];
      TotalPrefixAtMost(sizes[..n], k);
    } else {
      assert sizes[..k] == sizes;
    }
  }

  /** With the intended limit the loop saves at least as many images as
      were requested, or every image when fewer exist. */
  lemma OutputLimitServesRequest(sizes: seq<nat>, numOutput: int)
    ensures var k := StopAfter(sizes, OutputLimit(numOutput, sizes));
            Total(sizes[..k]) >= numOutput || Total(sizes[..k]) == Total(sizes)
  {
    var k := StopAfter(sizes, OutputLimit(numOutput, sizes));
    TotalPrefixAtMost(sizes, k);
    if k == |sizes| {
      assert sizes[..k] == sizes;
    }
  }
}
