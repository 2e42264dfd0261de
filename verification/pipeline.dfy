/**
 * The frame-to-frame mask propagation of `RemoveAnythingVideo.forward`:
 * segment the key frame from a point prompt, pick and binarise its mask,
 * track the mask's box through the video, then segment every later frame
 * from its tracked box and keep the candidate closest to the previous mask.
 *
 * The networks (SAM, OSTrack), image loading and `dilate_mask` are foreign
 * code; they appear as total functions that the model calls but does not
 * look inside.
 */
module Pipeline {
  import opened Wrappers
  import opened Masks
  import opened Boxes
  import opened Selection

  type Path = string

  /** A decoded frame: rows of pixels of uint8 channels. */
  type Image = seq<seq<seq<Byte>>>

  datatype Point = Point(x: int, y: int)

  /** What the segmentor is prompted with. */
  datatype Prompt =
    | PointPrompt(coords: seq<Point>, labels: seq<int>)  // the key frame: points, no box
    | BoxPrompt(box: BoxXYXY)                            // every later frame: a box, no points

  /** The segmentor's answer: boolean candidate masks and their scores (the logits are dropped). */
  datatype Prediction = Prediction(masks: seq<BoolMask>, scores: seq<int>)

  /** The foreign collaborators of the pipeline. */
  datatype Models = Models(
    load: Path -> Image,
    predict: (Image, Prompt) -> Prediction,
    track: (seq<Path>, BoxXYWH) -> seq<BoxXYWH>,
    dilate: (Mask, int) -> Mask)

  /** The triple `forward` returns: `all_frame`, `all_mask`, `all_box`. */
  datatype VideoMasks = VideoMasks(frames: seq<Image>, masks: seq<Mask>, boxes: seq<BoxXYWH>)

  /** `dilate_mask(mask, k)` when a kernel size is given, the mask itself when it is `None`. */
  function Dilated(m: Mask, kernelSize: Option<int>, dilate: (Mask, int) -> Mask): Mask {
    if kernelSize.Some? then dilate(m, kernelSize.value) else m
  }

  /**
   * Where numpy indexing with a single int lands in a sequence of length `n`:
   * a negative index counts from the end; anything else out of range raises.
   */
  function PyIndex(n: nat, k: int): (r: Option<nat>)
    ensures r.Some? <==> -(n as int) <= k < n
    ensures r.Some? ==> n > 0 && r.value < n && r.value == k % n
  {
    if 0 <= k < n then Some(k)
    else if -(n as int) <= k < 0 then Some(n + k)
    else None
  }

  /** `(masks * 255).astype(np.uint8)` on a batch of boolean masks. */
  function Scaled(masks: seq<BoolMask>): (r: seq<Mask>)
    ensures |r| == |masks|
    ensures forall k :: 0 <= k < |masks| ==> r[k] == Binarize(masks[k])
  {
    seq(|masks|, k requires 0 <= k < |masks| => Binarize(masks[k]))
  }

  /**
   * The index of the key-frame candidate: the manual index when one is given
   * (scores are not consulted), otherwise `mask_selection` by score.
   */
  function KeyIndex(p: Prediction, manualIdx: Option<int>): (r: Result<nat, Error>)
    ensures r.Success? ==> r.value < |p.masks|
  {
    match manualIdx
    case Some(k) =>
      (match PyIndex(|p.masks|, k)
       case Some(i) => Success(i)
       case None => Failure(IndexOutOfRange))
    case None => SelectionIndex(p.masks, p.scores, None, false)
  }

  /** The key-frame mask: the chosen candidate scaled to {0, 255}. */
  function KeyMask(p: Prediction, manualIdx: Option<int>): Result<Mask, Error> {
    match KeyIndex(p, manualIdx)
    case Failure(e) => Failure(e)
    case Success(k) => Success(Binarize(p.masks[k]))
  }

  /**
   * The key-frame mask is one of the candidates scaled to {0, 255}: with a
   * manual index, the candidate at that numpy index, failing exactly when the
   * index is out of range; without one, the candidate at the first index of
   * highest score, failing exactly when there are no scores or that index
   * has no candidate.
   */
  lemma KeyMaskChoice(p: Prediction, manualIdx: Option<int>)
    ensures var r := KeyMask(p, manualIdx);
      && (r.Success? ==> forall i, j :: 0 <= i < |r.value| && 0 <= j < |r.value[i]| ==>
            r.value[i][j] == 0 || r.value[i][j] == 255)
      && (r.Success? ==> exists k :: 0 <= k < |p.masks| && r.value == Binarize(p.masks[k]))
      && (manualIdx.Some? ==> (r.Success? <==> -|p.masks| <= manualIdx.value < |p.masks|))
      && (manualIdx.Some? && 0 <= manualIdx.value < |p.masks| ==>
            r == Success(Binarize(p.masks[manualIdx.value])))
      && (manualIdx.Some? && -|p.masks| <= manualIdx.value < 0 ==>
            r == Success(Binarize(p.masks[|p.masks| + manualIdx.value])))
      && (manualIdx.None? ==> (r.Success? <==> |p.scores| > 0 && ArgMax(p.scores) < |p.masks|))
      && (manualIdx.None? && r.Success? ==> r.value == Binarize(p.masks[ArgMax(p.scores)]))
  {
    var r := KeyMask(p, manualIdx);
    if r.Success? {
      var k := KeyIndex(p, manualIdx).value;
      assert r.value == Binarize(p.masks[k]);
    }
    if manualIdx.None? {
      ScoreSelection(p.masks, p.scores);
      if |p.scores| > 0 {
        ArgMaxUnique(p.scores, ArgMax(p.scores));
      }
    }
  }

  /**
   * One propagation step after the segmentor call: scale the candidates,
   * select against the reference mask, dilate.
   */
  function Step(p: Prediction, ref: Mask, kernelSize: Option<int>, dilate: (Mask, int) -> Mask): Result<Mask, Error> {
    match MaskSelection(Scaled(p.masks), p.scores, Some(ref), false)
    case Failure(e) => Failure(e)
    case Success(m) => Success(Dilated(m, kernelSize, dilate))
  }

  /** A propagation step with the kernel size and the dilation fixed. */
  type StepFn = (Prediction, Mask) -> Result<Mask, Error>

  function StepWith(kernelSize: Option<int>, dilate: (Mask, int) -> Mask): (step: StepFn)
    ensures forall p, ref :: step(p, ref) == Step(p, ref, kernelSize, dilate)
  {
    (p: Prediction, ref: Mask) => Step(p, ref, kernelSize, dilate)
  }

  /**
   * What one propagation step promises: `r` succeeds exactly when there are
   * candidates and all of them have the reference's shape, a shape clash and
   * an empty batch being the two errors, and a success is the candidate at
   * the first index of least distance from the reference, scaled to {0, 255}
   * and dilated when a kernel size is given.
   */
  ghost predicate ClosestStep(p: Prediction, ref: Mask, kernelSize: Option<int>, dilate: (Mask, int) -> Mask,
                              r: Result<Mask, Error>) {
    && (r.Success? <==> |p.masks| > 0 && AllShaped(Scaled(p.masks), ref))
    && (!AllShaped(Scaled(p.masks), ref) ==> r == Failure(ShapeMismatch))
    && (AllShaped(Scaled(p.masks), ref) && |p.masks| == 0 ==> r == Failure(EmptySequence))
    && (r.Success? ==>
          exists k :: IsFirstMin(Distances(Scaled(p.masks), ref), k) && r.value == Dilated(Binarize(p.masks[k]), kernelSize, dilate))
  }

  /** One propagation step chooses the candidate closest to the reference. */
  lemma StepChoice(p: Prediction, ref: Mask, kernelSize: Option<int>, dilate: (Mask, int) -> Mask)
    ensures ClosestStep(p, ref, kernelSize, dilate, Step(p, ref, kernelSize, dilate))
  {
    var masks := Scaled(p.masks);
    ReferenceSelection(masks, p.scores, ref);
    var idx := SelectionIndex(masks, p.scores, Some(ref), false);
    if idx.Success? {
      var k := idx.value;
      assert IsFirstMin(Distances(masks, ref), k);
      assert MaskSelection(masks, p.scores, Some(ref), false) == Success(Binarize(p.masks[k]));
    }
  }

  /**
   * The reference of step `i` in a chain from `key`: the reference after the
   * first `i` masks.
   */
  function Previous(key: Mask, ms: seq<Mask>, i: nat): Mask
    requires i <= |ms|
  {
    LastOr(key, ms[..i])
  }

  /** The reference for the next step: the last propagated mask, or the key mask before any. */
  function LastOr(key: Mask, ms: seq<Mask>): Mask {
    if |ms| == 0 then key else ms[|ms| - 1]
  }

  /**
   * The masks of the frames after the key frame, each selected with the one
   * before it as reference; the first failing step ends the run.
   */
  function Propagate(step: StepFn, preds: seq<Prediction>, key: Mask): (r: Result<seq<Mask>, Error>)
    ensures r.Success? ==> |r.value| == |preds|
  {
    if |preds| == 0 then Success([])
    else
      match Propagate(step, preds[..|preds| - 1], key)
      case Failure(e) => Failure(e)
      case Success(ms) =>
        match step(preds[|preds| - 1], LastOr(key, ms))
        case Failure(e) => Failure(e)
        case Success(m) => Success(ms + [m])
  }

  /** `ms` is the chain of steps from `key` over `preds`. */
  ghost predicate IsChain(step: StepFn, preds: seq<Prediction>, key: Mask, ms: seq<Mask>) {
    && |ms| == |preds|
    && forall i :: 0 <= i < |preds| ==> step(preds[i], Previous(key, ms, i)) == Success(ms[i])
  }

  /** A successful propagation is the chain of steps: mask i is selected against mask i - 1. */
  lemma {:induction false} PropagateIsChain(step: StepFn, preds: seq<Prediction>, key: Mask)
    requires Propagate(step, preds, key).Success?
    ensures IsChain(step, preds, key, Propagate(step, preds, key).value)
  {
    if |preds| > 0 {
      var n := |preds| - 1;
      var init := preds[..n];
      PropagateIsChain(step, init, key);
      var ms := Propagate(step, init, key).value;
      var all := Propagate(step, preds, key).value;
      assert all == ms + [all[n]];
      forall i | 0 <= i < |preds|
        ensures step(preds[i], Previous(key, all, i)) == Success(all[i])
      {
        if i < n {
          assert preds[i] == init[i] && all[i] == ms[i];
          assert Previous(key, all, i) == Previous(key, ms, i);
        } else {
          assert Previous(key, all, i) == LastOr(key, ms);
        }
      }
    }
  }

  /** A prefix of a chain is a chain. */
  lemma ChainPrefix(step: StepFn, preds: seq<Prediction>, key: Mask, ms: seq<Mask>, n: nat)
    requires IsChain(step, preds, key, ms) && n <= |preds|
    ensures IsChain(step, preds[..n], key, ms[..n])
  {
    forall i | 0 <= i < n
      ensures step(preds[..n][i], Previous(key, ms[..n], i)) == Success(ms[..n][i])
    {
      assert Previous(key, ms[..n], i) == Previous(key, ms, i);
    }
  }

  /** Conversely, a chain of successful steps is what propagation returns. */
  lemma {:induction false} ChainIsPropagate(step: StepFn, preds: seq<Prediction>, key: Mask, ms: seq<Mask>)
    requires IsChain(step, preds, key, ms)
    ensures Propagate(step, preds, key) == Success(ms)
  {
    if |preds| > 0 {
      var n := |preds| - 1;
      ChainPrefix(step, preds, key, ms, n);
      ChainIsPropagate(step, preds[..n], key, ms[..n]);
      assert LastOr(key, ms[..n]) == Previous(key, ms, n);
      SnocTake(ms, n);
    }
  }

  /** Splitting off the last element of a sequence. */
  lemma SnocTake<T>(s: seq<T>, n: nat)
    requires n + 1 == |s|
    ensures s[..n] + [s[n]] == s
  {
  }

  /** Once a prefix of the frames fails, the whole propagation fails with the same error. */
  lemma {:induction false} PropagateFailurePersists(step: StepFn, preds: seq<Prediction>, k: nat, key: Mask)
    requires k <= |preds|
    requires Propagate(step, preds[..k], key).Failure?
    ensures Propagate(step, preds, key) == Propagate(step, preds[..k], key)
  {
    if k < |preds| {
      var init := preds[..|preds| - 1];
      assert init[..k] == preds[..k];
      PropagateFailurePersists(step, init, k, key);
    } else {
      assert preds[..k] == preds;
    }
  }

  /**
   * One more step of propagation: after a successful prefix of `i` frames,
   * a failing step `i` fails the whole propagation with its error, and a
   * successful one extends the prefix by its mask, the next reference.
   */
  lemma PropagateStep(step: StepFn, preds: seq<Prediction>, i: nat, key: Mask, ms: seq<Mask>, next: Result<Mask, Error>)
    requires i < |preds| && Propagate(step, preds[..i], key) == Success(ms)
    requires next == step(preds[i], LastOr(key, ms))
    ensures next.Failure? ==> Propagate(step, preds, key) == Failure(next.error)
    ensures next.Success? ==>
      Propagate(step, preds[..i + 1], key) == Success(ms + [next.value]) && LastOr(key, ms + [next.value]) == next.value
  {
    assert preds[..i + 1][..i] == preds[..i];
    if next.Failure? {
      PropagateFailurePersists(step, preds, i + 1, key);
    }
  }

  /** The number of pairs `zip(frame_ps[1:], all_box[1:])` yields. */
  function PairCount(paths: seq<Path>, boxes: seq<BoxXYWH>): (n: nat)
    requires |paths| > 0
    ensures n + 1 <= |paths| && (n + 1 <= |boxes| || n == 0)
    ensures n + 1 == |paths| || n + 1 == |boxes| || (n == 0 && |boxes| == 0)
  {
    var frames := |paths| - 1;
    var tracked := if |boxes| == 0 then 0 else |boxes| - 1;
    if frames < tracked then frames else tracked
  }

  /** The segmentor's answers for the frames after the key frame, each prompted with its tracked box. */
  function BoxPredictions(models: Models, paths: seq<Path>, boxes: seq<BoxXYWH>): (preds: seq<Prediction>)
    requires |paths| > 0
    ensures |preds| == PairCount(paths, boxes)
    ensures forall i :: 0 <= i < |preds| ==>
      preds[i] == models.predict(models.load(paths[i + 1]), BoxPrompt(ToCorners(boxes[i + 1])))
  {
    seq(PairCount(paths, boxes), i requires 0 <= i < PairCount(paths, boxes) =>
      models.predict(models.load(paths[i + 1]), BoxPrompt(ToCorners(boxes[i + 1]))))
  }

  /** The first `n` frames, loaded. */
  function LoadedFrames(load: Path -> Image, paths: seq<Path>, n: nat): (frames: seq<Image>)
    requires n <= |paths|
    ensures |frames| == n && forall i :: 0 <= i < n ==> frames[i] == load(paths[i])
  {
    seq(n, i requires 0 <= i < n => load(paths[i]))
  }

  lemma LoadedFramesSnoc(load: Path -> Image, paths: seq<Path>, n: nat)
    requires n < |paths|
    ensures LoadedFrames(load, paths, n + 1) == LoadedFrames(load, paths, n) + [load(paths[n])]
  {
  }

  /**
   * What `forward(frame_ps, key_frame_idx, coords, labels, key_frame_mask_idx,
   * dilate_kernel_size)` returns or raises.
   */
  function Run(models: Models, paths: seq<Path>, keyFrameIdx: int, coords: seq<Point>, labels: seq<int>,
               keyFrameMaskIdx: Option<int>, dilateKernelSize: Option<int>): (r: Result<VideoMasks, Error>)
    ensures keyFrameIdx != 0 ==> r == Failure(KeyFrameNotFirst)
    ensures keyFrameIdx == 0 && |paths| == 0 ==> r == Failure(IndexOutOfRange)
    ensures r.Success? ==> |r.value.frames| == |r.value.masks| == PairCount(paths, r.value.boxes) + 1
  {
    if keyFrameIdx != 0 then Failure(KeyFrameNotFirst)
    else if |paths| == 0 then Failure(IndexOutOfRange)
    else
      match KeyFrameMask(models, paths[0], coords, labels, keyFrameMaskIdx, dilateKernelSize)
      case Failure(e) => Failure(e)
      case Success(k) => FromKeyMask(models, paths, k, StepWith(dilateKernelSize, models.dilate))
  }

  /**
   * The first half of `forward`: segment the key frame from its points,
   * choose the key mask, and dilate it when a kernel size is given.
   */
  function KeyFrameMask(models: Models, path: Path, coords: seq<Point>, labels: seq<int>,
                        keyFrameMaskIdx: Option<int>, dilateKernelSize: Option<int>): Result<Mask, Error> {
    match KeyMask(models.predict(models.load(path), PointPrompt(coords, labels)), keyFrameMaskIdx)
    case Failure(e) => Failure(e)
    case Success(k) => Success(Dilated(k, dilateKernelSize, models.dilate))
  }

  /**
   * The second half of `forward`: track the key mask's box, then propagate
   * the mask frame by frame with `step`.
   */
  function FromKeyMask(models: Models, paths: seq<Path>, key: Mask, step: StepFn): Result<VideoMasks, Error>
    requires |paths| > 0
  {
    var boxes := models.track(paths, BoundingBox(key));
    match Propagate(step, BoxPredictions(models, paths, boxes), key)
    case Failure(e) => Failure(e)
    case Success(ms) => Success(VideoMasks(LoadedFrames(models.load, paths, |ms| + 1), [key] + ms, boxes))
  }

  /** How a successful run is put together from the key mask, the tracker and the propagation. */
  lemma RunParts(models: Models, paths: seq<Path>, coords: seq<Point>, labels: seq<int>,
                 keyFrameMaskIdx: Option<int>, dilateKernelSize: Option<int>)
    requires Run(models, paths, 0, coords, labels, keyFrameMaskIdx, dilateKernelSize).Success?
    ensures |paths| > 0
    ensures var o := Run(models, paths, 0, coords, labels, keyFrameMaskIdx, dilateKernelSize).value;
      var k := KeyMask(models.predict(models.load(paths[0]), PointPrompt(coords, labels)), keyFrameMaskIdx);
      && k.Success?
      && |o.masks| > 0
      && o.masks[0] == Dilated(k.value, dilateKernelSize, models.dilate)
      && o.boxes == models.track(paths, BoundingBox(o.masks[0]))
      && Propagate(StepWith(dilateKernelSize, models.dilate), BoxPredictions(models, paths, o.boxes), o.masks[0])
           == Success(o.masks[1..])
      && o.frames == LoadedFrames(models.load, paths, |o.masks|)
  {
    var o := Run(models, paths, 0, coords, labels, keyFrameMaskIdx, dilateKernelSize).value;
    assert o.masks == [o.masks[0]] + o.masks[1..];
  }

  /**
   * A successful run: frame i is the i-th path loaded; mask 0 is the key-frame
   * mask, dilated; the boxes are the tracker's answer for the key mask's box;
   * and every later mask is the step from the mask before it, on the
   * segmentor's answer for that frame prompted with its tracked box as corners.
   */
  lemma RunOutcome(models: Models, paths: seq<Path>, coords: seq<Point>, labels: seq<int>,
                   keyFrameMaskIdx: Option<int>, dilateKernelSize: Option<int>)
    requires Run(models, paths, 0, coords, labels, keyFrameMaskIdx, dilateKernelSize).Success?
    ensures |paths| > 0
    ensures var o := Run(models, paths, 0, coords, labels, keyFrameMaskIdx, dilateKernelSize).value;
      var k := KeyMask(models.predict(models.load(paths[0]), PointPrompt(coords, labels)), keyFrameMaskIdx);
      && |o.frames| == |o.masks| == PairCount(paths, o.boxes) + 1
      && (forall i :: 0 <= i < |o.frames| ==> o.frames[i] == models.load(paths[i]))
      && k.Success?
      && o.masks[0] == Dilated(k.value, dilateKernelSize, models.dilate)
      && o.boxes == models.track(paths, BoundingBox(o.masks[0]))
      && (forall i :: 1 <= i < |o.masks| ==>
            Step(models.predict(o.frames[i], BoxPrompt(ToCorners(o.boxes[i]))), o.masks[i - 1], dilateKernelSize, models.dilate)
              == Success(o.masks[i]))
  {
    RunParts(models, paths, coords, labels, keyFrameMaskIdx, dilateKernelSize);
    var o := Run(models, paths, 0, coords, labels, keyFrameMaskIdx, dilateKernelSize).value;
    var key, ms := o.masks[0], o.masks[1..];
    var preds := BoxPredictions(models, paths, o.boxes);
    var step := StepWith(dilateKernelSize, models.dilate);
    PropagateIsChain(step, preds, key);
    forall i | 1 <= i < |o.masks|
      ensures Step(models.predict(o.frames[i], BoxPrompt(ToCorners(o.boxes[i]))), o.masks[i - 1], dilateKernelSize, models.dilate)
              == Success(o.masks[i])
    {
      assert preds[i - 1] == models.predict(o.frames[i], BoxPrompt(ToCorners(o.boxes[i])));
      assert o.masks[i] == ms[i - 1];
      assert o.masks[i - 1] == Previous(key, ms, i - 1);
      assert step(preds[i - 1], Previous(key, ms, i - 1)) == Success(ms[i - 1]);
    }
  }
}
