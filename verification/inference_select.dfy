/** Detection selection for one image at inference time: rank the
    predictions by confidence, take each one's best class, keep those whose
    confidence is above the threshold (three parallel lists filtered by the
    same mask), and index-select the survivors that class-wise
    non-maximum suppression returns.

    Confidences and scores are reals; suppression itself is a function
    parameter whose internals the model does not describe. */
module InferenceSelect {
  import opened Wrappers
  import opened SeqUtil

  datatype Box = Box(xmin: real, ymin: real, xmax: real, ymax: real)

  /** One decoded prediction: columns 0..3 are the box, column 4 the
      confidence, columns 5.. the class scores. */
  datatype Row = Row(box: Box, conf: real, scores: seq<real>)

  /** One selected detection, as the three lists hold it at one position. */
  datatype Detection = Detection(box: Box, classId: nat, conf: real)

  /** The three parallel lists the drawing code consumes. */
  datatype Detections = Detections(boxes: seq<Box>, classIds: seq<nat>, confs: seq<real>)

  /** Class-wise suppression over (boxes, confidences, class ids), returning
      the positions to keep. */
  type Suppressor = (seq<Box>, seq<real>, seq<nat>) -> seq<nat>

  datatype SelectError = IndexOutOfRange(index: nat, length: nat)

  /** Every row carries the same number of class scores, at least one. */
  predicate WellFormedOutput(output: seq<Row>, numClasses: nat) {
    numClasses > 0 && forall i :: 0 <= i < |output| ==> |output[i].scores| == numClasses
  }

  // ---------------------------------------------------------------------
  // Ranking by confidence

  ghost predicate NonIncreasing(rows: seq<Row>) {
    forall a, b :: 0 <= a < b < |rows| ==> rows[a].conf >= rows[b].conf
  }

  lemma {:induction false} StepwiseNonIncreasing(rows: seq<Row>)
    requires forall i :: 0 < i < |rows| ==> rows[i - 1].conf >= rows[i].conf
    ensures NonIncreasing(rows)
    decreases |rows|
  {
    if |rows| > 1 {
      var tail := rows[1..];
      StepwiseNonIncreasing(tail);
      forall b | 0 < b < |rows|
        ensures rows[0].conf >= rows[b].conf
      {
        assert tail[0] == rows[1] && tail[b - 1] == rows[b];
      }
    }
  }

  function Insert(r: Row, sorted: seq<Row>): (out: seq<Row>)
    requires NonIncreasing(sorted)
    ensures NonIncreasing(out)
    ensures multiset(out) == multiset(sorted) + multiset{r}
    ensures |out| == |sorted| + 1
    ensures out[0] == r || (|sorted| > 0 && out[0] == sorted[0])
  {
    if |sorted| == 0 then [r]
    else if r.conf >= sorted[0].conf then [r] + sorted
    else
      var rest := Insert(r, sorted[1..]);
      PrependKeepsOrder(sorted[0], rest);
      PrependMultiset(sorted, rest, r);
      [sorted[0]] + rest
  }

  lemma PrependKeepsOrder(top: Row, rest: seq<Row>)
    requires NonIncreasing(rest)
    requires |rest| > 0 ==> top.conf >= rest[0].conf
    ensures NonIncreasing([top] + rest)
  {
    var out := [top] + rest;
    forall i | 1 < i < |out|
      ensures out[i - 1].conf >= out[i].conf
    {
      assert out[i - 1] == rest[i - 2] && out[i] == rest[i - 1];
    }
    StepwiseNonIncreasing(out);
  }

  lemma PrependMultiset(sorted: seq<Row>, rest: seq<Row>, r: Row)
    requires |sorted| > 0
    requires multiset(rest) == multiset(sorted[1..]) + multiset{r}
    ensures multiset([sorted[0]] + rest) == multiset(sorted) + multiset{r}
  {
    assert sorted == [sorted[0]] + sorted[1..];
  }

  /** `output[output[:, 4].sort(descending=True).indices]`: the rows,
      reordered so that confidences never increase. */
  function SortByConf(rows: seq<Row>): (sorted: seq<Row>)
    ensures NonIncreasing(sorted)
    ensures multiset(sorted) == multiset(rows)
  {
    if |rows| == 0 then []
    else
      assert rows == [rows[0]] + rows[1..];
      Insert(rows[0], SortByConf(rows[1..]))
  }

  // ---------------------------------------------------------------------
  // Best class

  /** `max(dim=-1).indices`: the position of the first largest score. */
  function ArgMax(scores: seq<real>): (k: nat)
    requires |scores| > 0
    ensures k < |scores|
    ensures forall j :: 0 <= j < |scores| ==> scores[j] <= scores[k]
    ensures forall j :: 0 <= j < k ==> scores[j] < scores[k]
  {
    if |scores| == 1 then 0
    else
      var k := ArgMax(scores[..|scores| - 1]);
      if scores[|scores| - 1] > scores[k] then |scores| - 1 else k
  }

  /** The detection a row would become if it survives. */
  function DetectionOf(r: Row): Detection
    requires |r.scores| > 0
  {
    Detection(r.box, ArgMax(r.scores), r.conf)
  }

  function Boxes(rows: seq<Row>): (bs: seq<Box>)
    ensures |bs| == |rows|
  {
    seq(|rows|, i requires 0 <= i < |rows| => rows[i].box)
  }

  function Confs(rows: seq<Row>): (cs: seq<real>)
    ensures |cs| == |rows|
  {
    seq(|rows|, i requires 0 <= i < |rows| => rows[i].conf)
  }

  function ClassIds(rows: seq<Row>, numClasses: nat): (ks: seq<nat>)
    requires WellFormedOutput(rows, numClasses)
    ensures |ks| == |rows|
    ensures forall i :: 0 <= i < |rows| ==> ks[i] < numClasses
  {
    seq(|rows|, i requires 0 <= i < |rows| => ArgMax(rows[i].scores))
  }

  // ---------------------------------------------------------------------
  // Threshold filtering

  /** `xs[confs > thresh]`: the elements whose confidence is strictly above
      the threshold, in their original order. */
  function AboveThreshold<X>(xs: seq<X>, confs: seq<real>, thresh: real): (ys: seq<X>)
    requires |xs| == |confs|
    ensures var ids := Where(confs, (c: real) => c > thresh);
            |ys| == |ids| && forall k :: 0 <= k < |ys| ==> ys[k] == xs[ids[k]]
  {
    if |xs| == 0 then []
    else
      var n := |xs| - 1;
      assert confs[..n] == confs[..|confs| - 1];
      var prefix := AboveThreshold(xs[..n], confs[..n], thresh);
      if confs[n] > thresh then prefix + [xs[n]] else prefix
  }

  function Zip(d: Detections): (ds: seq<Detection>)
    requires |d.boxes| == |d.classIds| == |d.confs|
    ensures |ds| == |d.boxes|
  {
    seq(|d.boxes|, k requires 0 <= k < |d.boxes| =>
      Detection(d.boxes[k], d.classIds[k], d.confs[k]))
  }

  predicate Aligned(d: Detections) {
    |d.boxes| == |d.classIds| == |d.confs|
  }

  /** Ranking keeps the rows, so it keeps them well formed. */
  lemma RankedWellFormed(output: seq<Row>, numClasses: nat)
    requires WellFormedOutput(output, numClasses)
    ensures WellFormedOutput(SortByConf(output), numClasses)
  {
    var ranked := SortByConf(output);
    forall i | 0 <= i < |ranked|
      ensures |ranked[i].scores| == numClasses
    {
      assert ranked[i] in multiset(output);
    }
  }

  /** The detection each ranked row would become, in ranked order. */
  function DetectionsOf(rows: seq<Row>, numClasses: nat): (ds: seq<Detection>)
    requires WellFormedOutput(rows, numClasses)
    ensures |ds| == |rows|
  {
    seq(|rows|, i requires 0 <= i < |rows| => DetectionOf(rows[i]))
  }

  /** The positions in ranked order whose confidence passes the threshold. */
  function Survivors(ranked: seq<Row>, thresh: real): (ids: seq<nat>)
    ensures StrictlyIncreasing(ids)
    ensures forall i :: i in ids <==> 0 <= i < |ranked| && ranked[i].conf > thresh
  {
    Where(Confs(ranked), (c: real) => c > thresh)
  }

  /** The ranked, thresholded lists handed to suppression (lines 52-61):
      position `k` of all three lists comes from the same ranked row, the
      `k`-th survivor. */
  function Filtered(output: seq<Row>, numClasses: nat, thresh: real): (f: Detections)
    requires WellFormedOutput(output, numClasses)
    ensures Aligned(f)
    ensures WellFormedOutput(SortByConf(output), numClasses)
    ensures var ranked := SortByConf(output);
            Zip(f) == Gather(DetectionsOf(ranked, numClasses), Survivors(ranked, thresh))
  {
    RankedWellFormed(output, numClasses);
    var ranked := SortByConf(output);
    var confs := Confs(ranked);
    var f := Detections(AboveThreshold(Boxes(ranked), confs, thresh),
                        AboveThreshold(ClassIds(ranked, numClasses), confs, thresh),
                        AboveThreshold(confs, confs, thresh));
    assert Zip(f) == Gather(DetectionsOf(ranked, numClasses), Survivors(ranked, thresh));
    f
  }

  /** Every thresholded confidence is strictly above the threshold (one
      equal to it is dropped), they are still ranked, and every class id is
      a class. */
  lemma FilteredAboveThreshold(output: seq<Row>, numClasses: nat, thresh: real)
    requires WellFormedOutput(output, numClasses)
    ensures var f := Filtered(output, numClasses, thresh);
            && (forall k :: 0 <= k < |f.confs| ==> f.confs[k] > thresh)
            && (forall a, b :: 0 <= a < b < |f.confs| ==> f.confs[a] >= f.confs[b])
            && (forall k :: 0 <= k < |f.classIds| ==> f.classIds[k] < numClasses)
  {
    var f := Filtered(output, numClasses, thresh);
    RankedWellFormed(output, numClasses);
    var ranked := SortByConf(output);
    var ids := Survivors(ranked, thresh);
    forall k | 0 <= k < |f.confs|
      ensures f.confs[k] == ranked[ids[k]].conf
      ensures f.classIds[k] == ArgMax(ranked[ids[k]].scores)
    {
      assert Zip(f)[k] == DetectionOf(ranked[ids[k]]);
    }
  }

  /** No row above the threshold is lost before suppression. */
  lemma FilteredKeepsEveryRowAbove(output: seq<Row>, numClasses: nat, thresh: real, r: Row)
    requires WellFormedOutput(output, numClasses)
    requires r in output && r.conf > thresh
    ensures |r.scores| > 0 && DetectionOf(r) in Zip(Filtered(output, numClasses, thresh))
  {
    var f := Filtered(output, numClasses, thresh);
    RankedWellFormed(output, numClasses);
    var ranked := SortByConf(output);
    var ids := Survivors(ranked, thresh);
    assert r in multiset(ranked);
    var i :| 0 <= i < |ranked| && ranked[i] == r;
    var k :| 0 <= k < |ids| && ids[k] == i;
    assert Zip(f)[k] == DetectionOf(r);
  }

  // ---------------------------------------------------------------------
  // Index selection by the suppression result

  /** `xs[ids]` on a tensor: every index must be in range. */
  function IndexSelect<X>(xs: seq<X>, ids: seq<nat>): (r: Result<seq<X>, SelectError>)
    ensures r.Success? <==> InRange(ids, |xs|)
    ensures r.Success? ==> r.value == Gather(xs, ids)
  {
    if |ids| == 0 then Success([])
    else if ids[0] >= |xs| then Failure(IndexOutOfRange(ids[0], |xs|))
    else
      match IndexSelect(xs, ids[1..])
      case Failure(e) => Failure(e)
      case Success(rest) => Success([xs[ids[0]]] + rest)
  }

  /** Lines 52-66 of the drawing routine: the detections that get drawn.
      The three selections share one index list, so the first one fails
      exactly when any would. */
  function SelectDetections(output: seq<Row>, numClasses: nat, thresh: real,
                            nms: Suppressor): (r: Result<Detections, SelectError>)
    requires WellFormedOutput(output, numClasses)
    ensures var f := Filtered(output, numClasses, thresh);
            var keep := nms(f.boxes, f.confs, f.classIds);
            && (r.Success? <==> InRange(keep, |f.boxes|))
            && (r.Success? ==> Aligned(r.value) && Zip(r.value) == Gather(Zip(f), keep))
  {
    var f := Filtered(output, numClasses, thresh);
    var keep := nms(f.boxes, f.confs, f.classIds);
    match IndexSelect(f.boxes, keep)
    case Failure(e) => Failure(e)
    case Success(boxes) =>
      Success(Detections(boxes, Gather(f.classIds, keep), Gather(f.confs, keep)))
  }

  /** `x` is what some input row above the threshold becomes. */
  ghost predicate DetectedAbove(output: seq<Row>, thresh: real, x: Detection) {
    exists row :: row in output && row.conf > thresh && |row.scores| > 0 && x == DetectionOf(row)
  }

  /** Every drawn detection is the detection of one input row whose
      confidence is above the threshold; none at or below it reappears. */
  lemma FinalComesFromRows(output: seq<Row>, numClasses: nat, thresh: real, nms: Suppressor)
    requires WellFormedOutput(output, numClasses)
    ensures var r := SelectDetections(output, numClasses, thresh, nms);
            r.Success? ==> forall x :: x in Zip(r.value) ==> DetectedAbove(output, thresh, x)
  {
    var r := SelectDetections(output, numClasses, thresh, nms);
    if r.Success? {
      var f := Filtered(output, numClasses, thresh);
      var keep := nms(f.boxes, f.confs, f.classIds);
      assert Zip(r.value) == Gather(Zip(f), keep);
      forall x | x in Zip(r.value)
        ensures DetectedAbove(output, thresh, x)
      {
        var k :| 0 <= k < |Zip(r.value)| && Zip(r.value)[k] == x;
        assert x == Zip(f)[keep[k]];
        FilteredComesFromRow(output, numClasses, thresh, keep[k]);
      }
    }
  }

  /** Position `j` of the filtered lists is the detection of an input row
      whose confidence is above the threshold. */
  lemma FilteredComesFromRow(output: seq<Row>, numClasses: nat, thresh: real, j: nat)
    requires WellFormedOutput(output, numClasses)
    requires j < |Zip(Filtered(output, numClasses, thresh))|
    ensures DetectedAbove(output, thresh, Zip(Filtered(output, numClasses, thresh))[j])
  {
    var ranked := SortByConf(output);
    var ids := Survivors(ranked, thresh);
    var ds := Zip(Filtered(output, numClasses, thresh));
    assert ds == Gather(DetectionsOf(ranked, numClasses), ids);
    var i := ids[j];
    assert ids[j] in ids;
    assert ds[j] == DetectionOf(ranked[i]);
    assert ranked[i] in multiset(output);
  }

  // ---------------------------------------------------------------------
  // Properties of the pipeline

  /** With distinct indices from suppression, the drawn detections are a
      sub-multiset of the thresholded ones. */
  lemma FinalIsSubMultiset(output: seq<Row>, numClasses: nat, thresh: real, nms: Suppressor)
    requires WellFormedOutput(output, numClasses)
    requires var f := Filtered(output, numClasses, thresh);
             Distinct(nms(f.boxes, f.confs, f.classIds))
    ensures var r := SelectDetections(output, numClasses, thresh, nms);
            r.Success? ==> multiset(Zip(r.value)) <= multiset(Zip(Filtered(output, numClasses, thresh)))
  {
    var f := Filtered(output, numClasses, thresh);
    var keep := nms(f.boxes, f.confs, f.classIds);
    var r := SelectDetections(output, numClasses, thresh, nms);
    if r.Success? {
      GatherDistinctSubMultiset(Zip(f), keep);
    }
  }

  /** The thresholded detections are a sub-multiset of the ranked rows'
      detections: filtering drops rows and never duplicates one. */
  lemma FilteredIsSubMultiset(output: seq<Row>, numClasses: nat, thresh: real)
    requires WellFormedOutput(output, numClasses)
    ensures WellFormedOutput(SortByConf(output), numClasses)
    ensures multiset(Zip(Filtered(output, numClasses, thresh)))
              <= multiset(DetectionsOf(SortByConf(output), numClasses))
  {
    RankedWellFormed(output, numClasses);
    var ranked := SortByConf(output);
    var ids := Survivors(ranked, thresh);
    IncreasingIsDistinct(ids);
    GatherDistinctSubMultiset(DetectionsOf(ranked, numClasses), ids);
  }

  /** When no confidence exceeds the threshold nothing is drawn, and no
      error arises exactly when suppression of nothing returns nothing. */
  lemma NothingAboveThreshold(output: seq<Row>, numClasses: nat, thresh: real, nms: Suppressor)
    requires WellFormedOutput(output, numClasses)
    requires forall i :: 0 <= i < |output| ==> output[i].conf <= thresh
    ensures Filtered(output, numClasses, thresh) == Detections([], [], [])
    ensures SelectDetections(output, numClasses, thresh, nms).Success? <==> nms([], [], []) == []
    ensures nms([], [], []) == [] ==>
              SelectDetections(output, numClasses, thresh, nms) == Success(Detections([], [], []))
  {
    var ranked := SortByConf(output);
    forall i | 0 <= i < |ranked|
      ensures ranked[i].conf <= thresh
    {
      assert ranked[i] in multiset(output);
      var j :| 0 <= j < |output| && output[j] == ranked[i];
    }
    WhereNone(Confs(ranked), (c: real) => c > thresh);
  }

  /** Class ids 7, 3 and 5 with confidences 0.9, 0.4 and 0.6 against
      threshold 0.5: the first and the last pass, in order. */
  lemma ThresholdExample()
    ensures AboveThreshold([7, 3, 5], [0.9, 0.4, 0.6], 0.5) == [7, 5]
  {
    var ids, conf := [7, 3, 5], [0.9, 0.4, 0.6];
    assert ids[..2] == [7, 3] && conf[..2] == [0.9, 0.4];
    assert ids[..2][..1] == [7] && conf[..2][..1] == [0.9];
    assert ids[..2][..1][..0] == [] && conf[..2][..1][..0] == [];
    assert AboveThreshold(ids[..2][..1], conf[..2][..1], 0.5) == [7];
    assert AboveThreshold(ids[..2], conf[..2], 0.5) == [7];
  }
}
