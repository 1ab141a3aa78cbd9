# YOLOv2 detector bookkeeping, modelled in Dafny

This project models the discrete bookkeeping around a YOLOv2 object
detector written with PyTorch. The numeric work (convolutions, region
decoding, IOU, squared error, cross entropy, non-maximum suppression) is
left abstract. What is modelled is the layer around it:

- **Backbone routing** (`YoloV2`, `yolov2.dfy`). The backbone is a flat
  list of stages. A `Route` stage re-emits earlier stage outputs, named by
  relative offset. The model covers:
  - the route queue that the constructor builds;
  - the forward loop that fills the queue and hands each `Route` its
    stored inputs;
  - the concrete 30-stage list;
  - the channel count and stride of every stage output, checked against
    the `c_in` each convolution declares;
  - the detector convolution and its width.

  Tensors are a type parameter. What a stage computes is a function
  parameter. The forward pass is proved equal to a reference "arena"
  semantics, in which each stage reads earlier outputs by index. This
  holds for any stale values left in the queue by an earlier call.
- **Loss bookkeeping** (`YoloV2Loss`, `yolov2_loss.dfy`). The model covers:
  - the per-image positive slots (`ids`) and negative slots (`non_ids`);
  - how the four loss terms are summed over the images;
  - how the sums are weighted by the coefficients and divided by the
    batch size;
  - the error an image without any positive slot raises.

  Each term is an abstract real supplied per image.
- **Detection selection** (`InferenceSelect`, `inference_select.dfy`).
  For one image the pipeline is:
  1. rank rows by confidence;
  2. take each row's best class;
  3. filter the three parallel lists by `conf > conf_thresh`;
  4. index-select the positions that suppression returns.

  Suppression (`batched_nms`) is a function parameter.
- **Inference counter** (`InferenceRun`, `inference_run.dfy`). Images are
  numbered consecutively across batches. The loop stops after the first
  batch at which the running count reaches the output limit. The limit is
  modelled both as written and as evidently intended.

`Wrappers` (Option/Result) and `SeqUtil` are shared helpers. `SeqUtil`
provides `Where`, the positions a predicate selects, and `Gather`, the
elements at an index list.

## Model

| member | source | states |
|---|---|---|
| YoloV2.Features | src/model/yolov2.py:13-51 | the backbone has 30 stages; every route offset is negative, reaches no further back than stage 0, and names a stage that is not itself a route |
| YoloV2.BuildRouteQueue | src/model/yolov2.py:56-60 | the queue has an entry exactly for each `offset + index` of some `Route`'s layers, and every entry starts as None |
| YoloV2.FeaturesRouteKeys | src/model/yolov2.py:13-60 | for the concrete stage list, the remembered indices are exactly 16, 24 and 27 |
| YoloV2.FeaturesRoutes | src/model/yolov2.py:45-49 | only stages 25 (`Route([-9])`) and 28 (`Route([-1, -4])`) are routes |
| YoloV2.ReadRoute | src/model/yolov2.py:67 | reading a route's inputs succeeds exactly when every `offset + index` is a key holding a value, and then yields those values in `layers` order. A missing key and a `None` entry are told apart |
| YoloV2.Forward | src/model/yolov2.py:62-73 | the loop keeps the queue's key set. When routes read only earlier non-route stages and the queue holds every route key, each slot is written before it is read. The result is then the head applied to the arena output, whatever stale values the queue held |
| YoloV2.QueueAgreesStep | src/model/yolov2.py:64-65 | the write of line 65 keeps every remembered slot of a non-route stage equal to that stage's output in the arena, one stage further on |
| YoloV2.SecondRouteInputs | src/model/yolov2.py:49 | the route at stage 28 is handed stage 27's output, then stage 24's, in the order of its `layers` list |
| YoloV2.DimsOf | src/model/yolov2.py:14-50 | a convolution outputs its declared `c_out` channels and keeps the stride. A 2x2 max-pool keeps the channels and doubles the stride. A reorg by `k` multiplies the channels by `k * k` and the stride by `k`, so the number of values per input pixel is unchanged |
| YoloV2.ConcatDims | src/model/yolov2.py:45-49 | a route's output has at least the channels of each input, on the grid of its first input |
| YoloV2.ConcatSingle | src/model/yolov2.py:45 | a route over one input, like `Route(layers=[-9])`, re-emits that input's dims unchanged |
| YoloV2.ConcatAppend | src/model/yolov2.py:45-49 | the channels of a concatenation are the sum of its parts' channels, for any split of the inputs |
| YoloV2.ConcatSecondRoute | src/model/yolov2.py:47-50 | joining 256 channels with 1024 channels, both at stride 32, gives the 1280 channels that line 50 declares, at stride 32 |
| YoloV2.Shapes | src/model/yolov2.py:14-50 | the dims of every stage output, as the arena of the forward pass computes them on dims, satisfy each stage's step from the earlier outputs |
| YoloV2.ShapesUnique | src/model/yolov2.py:14-50 | any table in which every entry is its stage's step from the earlier entries is the table `Shapes` computes |
| YoloV2.CheckedTable | src/model/yolov2.py:14-50 | a table that passes the per-stage check is the table of dims, and then every convolution receives its declared `c_in` and every route joins inputs of one stride |
| YoloV2.FeaturesShapes | src/model/yolov2.py:14-50 | on a 3-channel image, every declared `c_in` of the backbone equals the channels that reach it, the second route joins two stride-32 outputs into 1280 channels, and the last stage hands on 1024 channels at stride 32 |
| YoloV2.DetectorChannels | src/model/yolov2.py:52 | the detector width splits exactly into `len(anchors)` groups of `5 + num_classes` channels |
| YoloV2.DetectorFitsBackbone | src/model/yolov2.py:14-52 | the detector's declared 1024 input channels are what the backbone's last stage produces, and it hands the region head `len(anchors) * (5 + num_classes)` channels at stride 32 |
| YoloV2Loss.Ids | src/model/yolov2.py:81 | `ids` is strictly ascending and holds exactly the slots whose mask value is non-zero |
| YoloV2Loss.NonIds | src/model/yolov2.py:82 | `non_ids` is strictly ascending and holds exactly the slots whose `1 - mask` is non-zero |
| YoloV2Loss.IdsCoverAllSlots | src/model/yolov2.py:81-82 | every slot is in `ids` or in `non_ids` |
| YoloV2Loss.SlotInBothIff | src/model/yolov2.py:81-82 | for a mask value in [0, 1], a slot is in both lists exactly when its value is strictly between 0 and 1 |
| YoloV2Loss.BinaryMaskPartitions | src/model/yolov2.py:81-82 | with a 0/1 mask, each slot is in exactly one list, and the two lengths add up to the number of slots |
| YoloV2Loss.Accumulate | src/model/yolov2.py:78-96 | non-negative per-image terms accumulate to non-negative sums |
| YoloV2Loss.Weighted | src/model/yolov2.py:99 | non-negative coefficients on non-negative sums give a non-negative weighted sum |
| YoloV2Loss.Loss | src/model/yolov2.py:77-99 | given per-image sums, the `1/b` factor is an error for an empty batch and for no other batch |
| YoloV2Loss.AccumulateAppend | src/model/yolov2.py:78-96 | the per-image sums, started at zero, are additive over any split of the batch |
| YoloV2Loss.LossNonNegative | src/model/yolov2.py:99 | non-negative coefficients and non-negative terms give a non-negative loss |
| YoloV2Loss.LossLinearInCoefs | src/model/yolov2.py:99 | the loss is linear in the coefficient vector: additive and homogeneous |
| YoloV2Loss.LossIsBatchAverage | src/model/yolov2.py:77-99 | the `1/b` factor makes the loss a per-image average, so a batch of the same images twice has the same loss |
| YoloV2Loss.WithoutPositive | src/model/yolov2.py:80-81 | the images whose mask has no non-zero slot, strictly ascending, and no others |
| YoloV2Loss.LossAsWritten | src/model/yolov2.py:77-99 | the loss as written fails exactly when the batch is empty or some image has no positive slot; the image named is the first such image |
| YoloV2Loss.LossOfBatch | src/model/yolov2.py:77-99 | with images without ground truth admitted, the loss fails exactly when the batch is empty |
| YoloV2Loss.AsWrittenAgreesWhereDefined | src/model/yolov2.py:77-99 | wherever the loss as written succeeds, it equals the loss with images without ground truth admitted |
| YoloV2Loss.ImageWithoutObjectsCountsAsNegative | src/model/yolov2.py:91-93 | an image without ground truth contributes only its no-object sum, weighted by the no-object coefficient |
| YoloV2Loss.AsWrittenRejectsImageWithoutObjects | src/model/yolov2.py:91 | a batch of one image with mask [0, 0] fails at image 0 as written, while the admitted loss succeeds |
| InferenceSelect.SortByConf | src/function/inference.py:52 | the ranked rows are a permutation of the input rows, and their confidences never increase |
| InferenceSelect.ArgMax | src/function/inference.py:55 | the class id is in range, indexes a largest score, and every earlier score is strictly smaller |
| InferenceSelect.ClassIds | src/function/inference.py:55 | one class id per row, each below `numClasses` |
| InferenceSelect.AboveThreshold | src/function/inference.py:59-61 | a boolean-mask selection keeps exactly the elements whose confidence is strictly above the threshold, in their original order |
| InferenceSelect.Survivors | src/function/inference.py:59-61 | the surviving ranked positions are strictly ascending and are exactly those whose confidence exceeds the threshold |
| InferenceSelect.Filtered | src/function/inference.py:52-61 | the three filtered lists have one length. Position `k` of all three comes from one ranked row, the `k`-th survivor |
| InferenceSelect.FilteredAboveThreshold | src/function/inference.py:59-61 | every kept confidence is strictly above the threshold, so one equal to it is dropped. Kept confidences stay non-increasing, and every class id is a class |
| InferenceSelect.FilteredKeepsEveryRowAbove | src/function/inference.py:59-61 | every input row whose confidence is above the threshold reaches suppression |
| InferenceSelect.FilteredIsSubMultiset | src/function/inference.py:59-61 | filtering never duplicates a ranked row's detection |
| InferenceSelect.IndexSelect | src/function/inference.py:64-66 | index selection succeeds exactly when every index is in range, and then yields the elements at those indices in order |
| InferenceSelect.SelectDetections | src/function/inference.py:63-66 | the result is an error exactly when suppression returns an out-of-range index. Otherwise the three final lists are aligned and are the filtered triples at the kept indices |
| InferenceSelect.FilteredComesFromRow | src/function/inference.py:52-61 | every position of the filtered lists is the box, best class and confidence of one input row whose confidence is above the threshold |
| InferenceSelect.FinalComesFromRows | src/function/inference.py:52-66 | every drawn detection is the box, best class and confidence of one input row whose confidence is above the threshold |
| InferenceSelect.FinalIsSubMultiset | src/function/inference.py:63-66 | with distinct indices from suppression, the drawn detections are a sub-multiset of the filtered ones |
| InferenceSelect.NothingAboveThreshold | src/function/inference.py:59-66 | when no confidence exceeds the threshold, the filtered lists are empty. The selection then succeeds with empty lists exactly when suppression of nothing returns nothing |
| InferenceSelect.ThresholdExample | src/function/inference.py:59-61 | class ids 7, 3 and 5 with confidences 0.9, 0.4 and 0.6 against threshold 0.5 keep the ids 7 and 5, in that order |
| InferenceRun.StopAfter | src/function/inference.py:42-45 | the batches consumed are the shortest prefix whose image count reaches the limit, or all batches |
| InferenceRun.OutputLimitAsWritten | src/function/inference.py:20 | the limit is at most the requested count and at most the number of batches, and equals one of the two |
| InferenceRun.OutputLimit | src/function/inference.py:20 | the intended limit is at most the requested count and at most the number of images the batches hold, and equals one of the two |
| InferenceRun.Run | src/function/inference.py:25-45 | for any limit, images get consecutive numbers across batches, starting at 0. The count grows by each batch's size, and the loop consumes exactly the batches `StopAfter` names |
| InferenceRun.RunAsWritten | src/function/inference.py:20-45 | with the limit of line 20, the run stops after the first batch whose running count reaches `min(num_output, number of batches)` |
| InferenceRun.RunCorrected | src/function/inference.py:20-45 | with the limit capped by the number of images, the run saves at least the requested number of images, or every image when fewer exist |
| InferenceRun.TotalPrefixAtMost | src/function/inference.py:25-45 | the batches consumed never hold more images than all batches |
| InferenceRun.AsWrittenStopsShort | src/function/inference.py:20 | ten batches of eight images with a request for twenty stop after two batches, which is sixteen images |
| InferenceRun.OutputLimitServesRequest | src/function/inference.py:20-45 | with the intended limit, the images saved reach the requested count, or are all the images the batches hold |

## Left out

- Stage numerics: Conv2dBNLeaky, MaxPool2d, Reorg, the concatenation inside Route, the detector convolution and Region decoding. They are the parameters `apply`, `gather` and `head` of `YoloV2.Forward`. `model/layers.py` is not part of this model.
- YoloV2.DimsOf: Reorg's effect (channels times `stride * stride`, grid divided by `stride`) is assumed, because `model/layers.py` is not part of this model. The assumption is consistent with the declared `c_in=1280` of the last convolution, which `YoloV2.FeaturesShapes` checks.
- YoloV2.DimsOf: the stride doubling of a max-pool is exact only when the input sides are divisible by 32; `MaxPool2d` floors odd sides, and spatial sizes are not modelled.
- YoloV2.ReadRoute: a `None` entry is an `UnwrittenSlot` error. Line 67's list comprehension raises nothing there and hands `None` to the route; what `Route` then does is in `model/layers.py`, which is not part of this model.
- YoloV2.Forward: the queue is returned rather than mutated in place. A missing key (`KeyError`) and a `None` entry reaching a route are modelled as errors. What `Route` would do with a `None` is not visible.
- YoloV2.Forward: `apply` is a pure function. Line 65 calls a remembered stage on `x` and line 70 calls it again; the model takes both calls to return the same value, and so drops their side effects, such as the running statistics a BatchNorm layer updates twice per remembered stage in training mode.
- Loss term internals (`box_convert`, `box_iou`, `mse_loss`, `sqrt`, `cross_entropy`): floating-point library calls. Each image contributes abstract reals. Of their failure modes only the maximum over an empty dimension at line 91 is modelled, by `YoloV2Loss.LossAsWritten`.
- YoloV2Loss.Loss: the sums of lines 87-96 and the combination of line 99 are taken over exact reals. The program computes them in float32, so `YoloV2Loss.AccumulateAppend`, `YoloV2Loss.LossLinearInCoefs` and `YoloV2Loss.LossIsBatchAverage` hold for it only up to rounding. For example, summing a doubled batch left to right in float32 need not give exactly twice the sum of the batch.
- YoloV2Loss.Loss: it takes the per-image sums, so its only error is the empty batch. The error line 91 raises for an image with no positive slot is modelled by `YoloV2Loss.LossAsWritten`, not here. The batch size is the number of per-image term records, not a tensor shape.
- `batched_nms` internals: it is the `Suppressor` parameter. The only assumptions are those stated on each lemma, namely in-range or distinct indices.
- InferenceSelect.SortByConf: ties are kept in input order. `torch.sort` without `stable=True` may order equal confidences differently, so the model fixes one of the orders the library may produce.
- InferenceSelect.ArgMax: on ties it returns the first largest score. The claim that the id indexes a largest score holds for any tie choice.
- InferenceSelect.SelectDetections: output with zero class columns is excluded by `WellFormedOutput`, because the library raises on a maximum over an empty dimension.
- Drawing and saving (PIL, fonts, colour palette, the ×32 pixel scaling, file names), device transfers, `torch.no_grad`, tqdm progress and the final print: I/O and plumbing.
- `src/dataset/dataloader.py`: file-path assembly, a random input-size choice and worker configuration. Only the batch sizes it yields appear, as the input of `InferenceRun.Run`.
- The `__main__` demonstration block of `yolov2.py` and `get_paramaters`.

## Findings

| source | as written | input that shows it | evidently intended | confidence | as-written member | corrected member |
|---|---|---|---|---|---|---|
| src/function/inference.py:20 | `min(self.num_output, len(self.dataloader))` caps an image count by the number of batches | ten batches of eight images with `num_output = 20`: the cap becomes 10, so the loop stops after two batches with 16 images | cap by the number of images, so that `num_output` images are saved when they exist | medium; not executed | InferenceRun.AsWrittenStopsShort | InferenceRun.RunCorrected |
| src/model/yolov2.py:91 | `box_iou(...).max(dim=1)` reduces over the ground-truth boxes of the image, a dimension of size zero when its mask has no non-zero slot, and the maximum over an empty dimension raises | one image with mask `[0, 0]` | an image without objects is a valid training image: its positive sums are empty and its slots count only as negatives | medium; not executed | YoloV2Loss.AsWrittenRejectsImageWithoutObjects | YoloV2Loss.ImageWithoutObjectsCountsAsNegative |

`InferenceRun.Run` takes the limit as a parameter. `InferenceRun.RunAsWritten`
feeds it the limit of line 20 and `InferenceRun.RunCorrected` the limit
capped by the number of images; the two coincide when every batch holds one
image. `YoloV2Loss.LossOfBatch` is the loss with images without ground truth
admitted, and `YoloV2Loss.AsWrittenAgreesWhereDefined` shows it changes
nothing where the code as written succeeds.
