/**
 * The stateful side of `RemoveAnythingVideo`: the segmentor holding one image
 * between `set_image` and `reset_image`, a log of every call into the foreign
 * collaborators, and `forward` as the loop the source runs, proved to compute
 * `Pipeline.Run`.
 */
module Video {
  import opened Wrappers
  import opened Masks
  import opened Boxes
  import opened Selection
  import opened Pipeline

  /** The SAM predictor: `set_image` loads an image into context, `predict` reads it, `reset_image` drops it. */
  class Segmentor {
    const predictor: (Image, Prompt) -> Prediction
    var image: Option<Image>

    constructor (predictor: (Image, Prompt) -> Prediction)
      ensures this.predictor == predictor && image == None
    {
      this.predictor := predictor;
      image := None;
    }

    method SetImage(img: Image)
      modifies this
      ensures image == Some(img)
    {
      image := Some(img);
    }

    method Predict(prompt: Prompt) returns (p: Prediction)
      requires image.Some?
      ensures p == predictor(image.value, prompt)
    {
      p := predictor(image.value, prompt);
    }

    method ResetImage()
      modifies this
      ensures image == None
    {
      image := None;
    }
  }

  /** One call into a foreign collaborator. */
  datatype Call =
    | LoadCall(path: Path)
    | SegmentCall(image: Image, prompt: Prompt)
    | TrackCall(paths: seq<Path>, box: BoxXYWH)

  /**
   * The log `before`, followed by the calls the propagation loop makes for
   * its first `n` frames after the key frame: each frame loaded, then
   * segmented from its tracked box.
   */
  ghost function WithFrameCalls(before: seq<Call>, load: Path -> Image, paths: seq<Path>, boxes: seq<BoxXYWH>, n: nat)
    : (calls: seq<Call>)
    requires n == 0 || (n < |paths| && n < |boxes|)
    ensures |calls| == |before| + 2 * n
  {
    if n == 0 then before
    else
      WithFrameCalls(before, load, paths, boxes, n - 1)
        + [LoadCall(paths[n]), SegmentCall(load(paths[n]), BoxPrompt(ToCorners(boxes[n])))]
  }

  lemma WithFrameCallsSnoc(before: seq<Call>, load: Path -> Image, paths: seq<Path>, boxes: seq<BoxXYWH>, n: nat)
    requires n + 1 < |paths| && n + 1 < |boxes|
    ensures WithFrameCalls(before, load, paths, boxes, n + 1) ==
      WithFrameCalls(before, load, paths, boxes, n)
        + [LoadCall(paths[n + 1]), SegmentCall(load(paths[n + 1]), BoxPrompt(ToCorners(boxes[n + 1])))]
  {
  }

  class RemoveAnythingVideo {
    const segmentor: Segmentor
    const load: Path -> Image
    const track: (seq<Path>, BoxXYWH) -> seq<BoxXYWH>
    const dilate: (Mask, int) -> Mask
    /** Every call into the loader, the segmentor and the tracker so far, in order. */
    ghost var calls: seq<Call>

    constructor (segmentor: Segmentor, load: Path -> Image, track: (seq<Path>, BoxXYWH) -> seq<BoxXYWH>, dilate: (Mask, int) -> Mask)
      ensures this.segmentor == segmentor && this.load == load && this.track == track && this.dilate == dilate
      ensures calls == []
    {
      this.segmentor := segmentor;
      this.load := load;
      this.track := track;
      this.dilate := dilate;
      calls := [];
    }

    function Collaborators(): Models {
      Models(load, segmentor.predictor, track, dilate)
    }

    /** `load_img_to_array(path)`. */
    method LoadImage(path: Path) returns (img: Image)
      modifies this
      ensures img == load(path)
      ensures calls == old(calls) + [LoadCall(path)]
    {
      img := load(path);
      calls := calls + [LoadCall(path)];
    }

    /** `forward_tracker`: one box per frame from the tracker, given the first frame's box. */
    method ForwardTracker(paths: seq<Path>, initBox: BoxXYWH) returns (boxes: seq<BoxXYWH>)
      modifies this
      ensures boxes == track(paths, initBox)
      ensures calls == old(calls) + [TrackCall(paths, initBox)]
    {
      boxes := track(paths, initBox);
      calls := calls + [TrackCall(paths, initBox)];
    }

    /**
     * `forward_segmentor`: load the image, predict, and release the image
     * again. The source has no try/finally here; the model's `predict` always
     * returns, so the release is always reached.
     */
    method ForwardSegmentor(img: Image, prompt: Prompt) returns (p: Prediction)
      modifies this, segmentor
      ensures p == segmentor.predictor(img, prompt)
      ensures segmentor.image == None
      ensures calls == old(calls) + [SegmentCall(img, prompt)]
    {
      segmentor.SetImage(img);
      p := segmentor.Predict(prompt);
      segmentor.ResetImage();
      calls := calls + [SegmentCall(img, prompt)];
    }

    /**
     * `forward`: returns what `Run` specifies. A key frame other than 0 fails
     * before any collaborator is called; otherwise the segmentor holds no
     * image afterwards, and a successful run has loaded every frame once, in
     * order, each followed by its segmentor call, with the tracker called once
     * on the key mask's box.
     */
    method Forward(framePaths: seq<Path>, keyFrameIdx: int, keyFramePointCoords: seq<Point>, keyFramePointLabels: seq<int>,
                   keyFrameMaskIdx: Option<int> := None, dilateKernelSize: Option<int> := Some(15))
      returns (r: Result<VideoMasks, Error>)
      modifies this, segmentor
      ensures r == Run(Collaborators(), framePaths, keyFrameIdx, keyFramePointCoords, keyFramePointLabels,
                       keyFrameMaskIdx, dilateKernelSize)
      ensures keyFrameIdx != 0 || |framePaths| == 0 ==> calls == old(calls) && segmentor.image == old(segmentor.image)
      ensures keyFrameIdx == 0 && |framePaths| > 0 ==> segmentor.image == None
      ensures r.Success? ==>
        && |framePaths| > 0 && |r.value.masks| <= |r.value.boxes| + 1
        && calls == WithFrameCalls(
             old(calls)
               + [LoadCall(framePaths[0]), SegmentCall(load(framePaths[0]), PointPrompt(keyFramePointCoords, keyFramePointLabels))]
               + [TrackCall(framePaths, BoundingBox(r.value.masks[0]))],
             load, framePaths, r.value.boxes, PairCount(framePaths, r.value.boxes))
    {
      if keyFrameIdx != 0 {
        return Failure(KeyFrameNotFirst);
      }
      if |framePaths| == 0 {
        return Failure(IndexOutOfRange);
      }
      r := FromKeyFrame(framePaths, keyFramePointCoords, keyFramePointLabels, keyFrameMaskIdx, dilateKernelSize);
    }

    /** `forward` once the key frame is known to be the first of a non-empty video. */
    method FromKeyFrame(framePaths: seq<Path>, keyFramePointCoords: seq<Point>, keyFramePointLabels: seq<int>,
                        keyFrameMaskIdx: Option<int>, dilateKernelSize: Option<int>)
      returns (r: Result<VideoMasks, Error>)
      requires |framePaths| > 0
      modifies this, segmentor
      ensures r == Run(Collaborators(), framePaths, 0, keyFramePointCoords, keyFramePointLabels,
                       keyFrameMaskIdx, dilateKernelSize)
      ensures segmentor.image == None
      ensures r.Success? ==>
        && |r.value.masks| <= |r.value.boxes| + 1
        && calls == WithFrameCalls(
             old(calls)
               + [LoadCall(framePaths[0]), SegmentCall(load(framePaths[0]), PointPrompt(keyFramePointCoords, keyFramePointLabels))]
               + [TrackCall(framePaths, BoundingBox(r.value.masks[0]))],
             load, framePaths, r.value.boxes, PairCount(framePaths, r.value.boxes))
    {
      ghost var models := Collaborators();
      var keyFrame, keyMask := SegmentKeyFrame(framePaths[0], keyFramePointCoords, keyFramePointLabels,
                                               keyFrameMaskIdx, dilateKernelSize);
      if keyMask.Failure? {
        return Failure(keyMask.error);
      }
      r := TrackAndPropagate(framePaths, keyFrame, keyMask.value, dilateKernelSize);
      assert r == FromKeyMask(models, framePaths, keyMask.value, StepWith(dilateKernelSize, models.dilate));
    }

    /**
     * The key-frame stage of `forward`: load the key frame, segment it from
     * the point prompt, choose the key mask and dilate it when asked to.
     */
    method SegmentKeyFrame(path: Path, coords: seq<Point>, labels: seq<int>, keyFrameMaskIdx: Option<int>,
                           dilateKernelSize: Option<int>)
      returns (keyFrame: Image, keyMask: Result<Mask, Error>)
      modifies this, segmentor
      ensures keyFrame == load(path)
      ensures keyMask == KeyFrameMask(Collaborators(), path, coords, labels, keyFrameMaskIdx, dilateKernelSize)
      ensures segmentor.image == None
      ensures calls == old(calls) + [LoadCall(path), SegmentCall(keyFrame, PointPrompt(coords, labels))]
    {
      keyFrame := LoadImage(path);
      var keyPrediction := ForwardSegmentor(keyFrame, PointPrompt(coords, labels));
      keyMask := KeyMask(keyPrediction, keyFrameMaskIdx);
      if keyMask.Success? && dilateKernelSize.Some? {
        keyMask := Success(dilate(keyMask.value, dilateKernelSize.value));
      }
    }

    /**
     * The segmentation half of one iteration of the propagation loop: load
     * the frame and segment it, prompted with its tracked box as corners.
     */
    method SegmentFrame(path: Path, box: BoxXYWH) returns (frame: Image, prediction: Prediction)
      modifies this, segmentor
      ensures frame == load(path)
      ensures prediction == segmentor.predictor(frame, BoxPrompt(ToCorners(box)))
      ensures segmentor.image == None
      ensures calls == old(calls) + [LoadCall(path), SegmentCall(frame, BoxPrompt(ToCorners(box)))]
    {
      frame := LoadImage(path);
      var samBox := ToCorners(box);
      prediction := ForwardSegmentor(frame, BoxPrompt(samBox));
    }

    /**
     * The selection half: `mask_selection` of the scaled candidates against
     * the previous mask, then the optional dilation. It succeeds exactly when
     * there are candidates of the previous mask's shape, and keeps the
     * candidate at the first index of least distance from it.
     */
    method SelectFrameMask(prediction: Prediction, refMask: Mask, dilateKernelSize: Option<int>)
      returns (selected: Result<Mask, Error>)
      ensures selected == StepWith(dilateKernelSize, dilate)(prediction, refMask)
      ensures ClosestStep(prediction, refMask, dilateKernelSize, dilate, selected)
    {
      var masks := Scaled(prediction.masks);
      selected := MaskSelection(masks, prediction.scores, Some(refMask), false);
      if selected.Success? && dilateKernelSize.Some? {
        selected := Success(dilate(selected.value, dilateKernelSize.value));
      }
      StepChoice(prediction, refMask, dilateKernelSize, dilate);
    }

    /**
     * One iteration of the propagation loop: segment the frame from its
     * tracked box, then select its mask against the previous one.
     */
    method PropagateFrame(path: Path, box: BoxXYWH, refMask: Mask, dilateKernelSize: Option<int>)
      returns (frame: Image, prediction: Prediction, selected: Result<Mask, Error>)
      modifies this, segmentor
      ensures frame == load(path)
      ensures prediction == segmentor.predictor(frame, BoxPrompt(ToCorners(box)))
      ensures selected == StepWith(dilateKernelSize, dilate)(prediction, refMask)
      ensures segmentor.image == None
      ensures calls == old(calls) + [LoadCall(path), SegmentCall(frame, BoxPrompt(ToCorners(box)))]
    {
      frame, prediction := SegmentFrame(path, box);
      selected := SelectFrameMask(prediction, refMask, dilateKernelSize);
    }

    /**
     * The tracking and propagation half of `forward`: track the key mask's box
     * through all frames, then propagate the key mask frame by frame.
     */
    method TrackAndPropagate(framePaths: seq<Path>, keyFrame: Image, keyMask: Mask, dilateKernelSize: Option<int>)
      returns (r: Result<VideoMasks, Error>)
      requires |framePaths| > 0 && keyFrame == load(framePaths[0])
      requires segmentor.image == None
      modifies this, segmentor
      ensures r == FromKeyMask(Collaborators(), framePaths, keyMask, StepWith(dilateKernelSize, dilate))
      ensures segmentor.image == None
      ensures r.Success? ==>
        && r.value.masks[0] == keyMask && |r.value.masks| <= |r.value.boxes| + 1
        && calls == WithFrameCalls(old(calls) + [TrackCall(framePaths, BoundingBox(keyMask))],
                                   load, framePaths, r.value.boxes, PairCount(framePaths, r.value.boxes))
    {
      ghost var models := Collaborators();
      var keyBox := BoundingBox(keyMask);
      var allBox := ForwardTracker(framePaths, keyBox);
      assert allBox == models.track(framePaths, BoundingBox(keyMask));
      ghost var tracked := calls;
      var allFrame, propagated := PropagateMasks(framePaths, allBox, keyFrame, keyMask, dilateKernelSize);
      if propagated.Failure? {
        return Failure(propagated.error);
      }
      var ms := propagated.value;
      assert allFrame == LoadedFrames(models.load, framePaths, |ms| + 1);
      assert calls == WithFrameCalls(tracked, load, framePaths, allBox, |ms|);
      r := Success(VideoMasks(allFrame, [keyMask] + ms, allBox));
      assert |r.value.masks| - 1 == |ms|;
    }

    /**
     * The loop of `forward` over `zip(frame_ps[1:], all_box[1:])`: segment
     * each later frame from its tracked box and select its mask against the previous
     * frame's mask. Returns the frames loaded, the key frame first, and the
     * masks after the key mask.
     */
    method PropagateMasks(framePaths: seq<Path>, allBox: seq<BoxXYWH>, keyFrame: Image, keyMask: Mask,
                          dilateKernelSize: Option<int>)
      returns (allFrame: seq<Image>, propagated: Result<seq<Mask>, Error>)
      requires |framePaths| > 0 && keyFrame == load(framePaths[0])
      requires segmentor.image == None
      modifies this, segmentor
      ensures propagated == Propagate(StepWith(dilateKernelSize, dilate), BoxPredictions(Collaborators(), framePaths, allBox), keyMask)
      ensures segmentor.image == None
      ensures propagated.Success? ==>
        && allFrame == LoadedFrames(load, framePaths, |propagated.value| + 1)
        && calls == WithFrameCalls(old(calls), load, framePaths, allBox, |propagated.value|)
    {
      ghost var preds := BoxPredictions(Collaborators(), framePaths, allBox);
      ghost var step := StepWith(dilateKernelSize, dilate);
      allFrame := [keyFrame];
      assert allFrame == LoadedFrames(load, framePaths, 1);
      var allMask: seq<Mask> := [];
      var refMask: Mask := keyMask;
      var n := PairCount(framePaths, allBox);
      var i := 0;
      assert preds[..0] == [];
      while i < n
        invariant 0 <= i <= n
        invariant allFrame == LoadedFrames(load, framePaths, i + 1)
        invariant |allMask| == i && refMask == LastOr(keyMask, allMask)
        invariant Propagate(step, preds[..i], keyMask) == Success(allMask)
        invariant segmentor.image == None
        invariant calls == WithFrameCalls(old(calls), load, framePaths, allBox, i)
      {
        var frame, prediction, selected := PropagateFrame(framePaths[i + 1], allBox[i + 1], refMask, dilateKernelSize);
        WithFrameCallsSnoc(old(calls), load, framePaths, allBox, i);
        LoadedFramesSnoc(load, framePaths, i + 1);
        assert prediction == preds[i];
        PropagateStep(step, preds, i, keyMask, allMask, selected);
        if selected.Failure? {
          return allFrame, Failure(selected.error);
        }
        var mask: Mask := selected.value;
        refMask := mask;
        allMask := allMask + [mask];
        allFrame := allFrame + [frame];
        i := i + 1;
      }
      assert preds[..n] == preds;
      propagated := Success(allMask);
    }
  }
}
