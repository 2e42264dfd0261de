# Remove Anything in video: the mask-propagation core

This project models the frame-to-frame mask propagation of
`RemoveAnythingVideo` (Inpaint-Anything's video pipeline) and proves
properties of the model. The pipeline works in five stages:

1. The user clicks points on the first frame, and the SAM segmentor turns them
   into candidate masks.
2. One candidate is chosen, either by a manual index or by its score. It is
   scaled to {0, 255} and, when a dilation kernel size is given, dilated.
3. Its bounding box is handed to the OSTrack tracker, which returns one box
   per frame.
4. Each later frame is segmented from its tracked box, converted from
   (x, y, w, h) to (x1, y1, x2, y2).
5. The candidate closest to the previous frame's mask is kept, scaled and,
   when a kernel size is given, dilated.

The neural networks, image loading and `dilate_mask` are foreign code. They
appear as function values that the model calls but does not look inside:
`Pipeline.Models`, and the `const` fields of `Video.RemoveAnythingVideo` and
`Video.Segmentor`.

The project has these modules:

- `Wrappers` holds `Option`, `Result` and the errors the source raises. They
  are modelled as values:
  - `NotImplemented` is `NotImplementedError`.
  - `EmptySequence` is argmin or argmax of an empty array.
  - `IndexOutOfRange` is numpy or list indexing out of range.
  - `ShapeMismatch` is a failed broadcast.
  - `KeyFrameNotFirst` is the assertion on `key_frame_idx`.
- `Masks` holds uint8 masks as rectangular grids, boolean masks, the ×255
  scaling, and the squared-difference distance.
- `Selection` holds `mask_selection`. Its argmin and argmax keep numpy's
  first-occurrence rule.
- `Boxes` holds `cv2.boundingRect` and the two box formats.
- `Pipeline` holds the pure specification of `forward`:
  - `Run` is the whole call.
  - `KeyFrameMask` is the key-frame stage.
  - `FromKeyMask` is tracking plus propagation.
  - `Propagate` is the chained selection.
- `Video` holds the imperative side:
  - a `Segmentor` object that holds one image between `set_image` and
    `reset_image`;
  - a ghost log of every call into the loader, the segmentor and the tracker;
  - `forward` as the loop the source runs, proved to return exactly what
    `Pipeline.Run` specifies.

The distance is an abstraction. `np.mean` divides the sum of squared
differences by the pixel count H × W, which is the same for every candidate.
So the model keeps the integer sum, and argmin over the sums picks the same
index as argmin over the means.

## Model

| member | source | states |
|---|---|---|
| Masks.Binarize | remove_anything_video.py:147 | scaling a boolean mask by 255 keeps its shape, gives only 0 and 255, and is non-zero exactly where the input was set |
| Masks.SquaredDistance | remove_anything_video.py:102-105 | the integer-cast sum of squared differences of two same-shaped masks is zero exactly when the masks are equal |
| Selection.ArgMin | remove_anything_video.py:106 | `argmin` returns the first index of the least value |
| Selection.ArgMax | remove_anything_video.py:108 | `argmax` returns the first index of the greatest value |
| Selection.ArgMinUnique | remove_anything_video.py:106 | the first-occurrence minimum is unique, so `ArgMin` is the only index with that property |
| Selection.ArgMaxUnique | remove_anything_video.py:108 | the first-occurrence maximum is unique |
| Selection.Distances | remove_anything_video.py:102-105 | one distance per candidate, each the candidate's squared distance from the reference |
| Selection.SelectionIndex | remove_anything_video.py:97-108 | `interactive=True` raises `NotImplementedError`; a selected index is always a valid candidate index |
| Selection.ReferenceSelection | remove_anything_video.py:101-106 | with a reference, selection succeeds exactly when the batch is non-empty and every candidate broadcasts against the reference; a shape clash and an empty batch are the two errors; the result is the first index of least distance |
| Selection.ScoreSelection | remove_anything_video.py:107-109 | without a reference, empty scores raise; otherwise selection succeeds exactly when the first maximal-score index has a candidate, and then returns that index |
| Selection.MaskSelection | remove_anything_video.py:97-109 | `mask_selection` returns one of the input candidates, and fails exactly when the index selection fails |
| Selection.SelectionIsClosest | remove_anything_video.py:101-109 | with a reference, the returned candidate has the reference's shape, is at least as close as every candidate, and is strictly closer than every earlier one |
| Selection.SelectionKeepsExactMatch | remove_anything_video.py:101-109 | a candidate identical to the reference is always the one returned |
| Selection.SelectionByScore | remove_anything_video.py:107-109 | without a reference, the returned candidate is the one at the first index of maximal score |
| Selection.SelectionByScoreIgnoresPixels | remove_anything_video.py:107-109 | without a reference, only the scores and the batch size decide the index; the pixels play no part |
| Boxes.ToCorners | remove_anything_video.py:173-175 | the corner box starts at (x, y), and x2 − x1 = w and y2 − y1 = h |
| Boxes.FromCorners | remove_anything_video.py:173-175 | no counterpart in the source, which only converts (x, y, w, h) to corners; it is the inverse used by `CornersRoundTrip`, and recovers the corner, width and height |
| Boxes.CornersRoundTrip | remove_anything_video.py:173-175 | the two conversions are mutually inverse |
| Boxes.ToCornersSameRegion | remove_anything_video.py:173-175 | a pixel lies in the (x, y, w, h) box exactly when it lies in the converted corner box |
| Boxes.BoundingBox | remove_anything_video.py:111-113 | `get_box_from_mask` gives w, h ≥ 0 |
| Boxes.BoundingBoxSpec | remove_anything_video.py:111-113 | every non-zero pixel lies in [x, x+w) × [y, y+h); an all-zero mask gives (0, 0, 0, 0); otherwise the box is non-empty, lies within the mask, and each of its four edges touches a non-zero pixel |
| Boxes.BoundingBoxIsSmallest | remove_anything_video.py:111-113 | every rectangle that holds all non-zero pixels contains the bounding box |
| Boxes.BoundingBoxUnique | remove_anything_video.py:111-113 | enclosing the non-zero pixels and touching them on all four edges holds exactly for the bounding box |
| Boxes.BoundingBoxOfRendered | remove_anything_video.py:111-113 | the box of a filled rectangle that fits in the mask is that rectangle |
| Boxes.BoundingBoxIdempotent | remove_anything_video.py:111-113 | filling the bounding box and deriving its box again changes nothing |
| Boxes.BoundingBoxDependsOnlyOnInk | remove_anything_video.py:111-113 | two masks with the same non-zero pixels have the same box |
| Boxes.BoundingBoxOfBinarized | remove_anything_video.py:147-154 | the key box is the same whether taken before or after the ×255 scaling |
| Pipeline.PyIndex | remove_anything_video.py:144 | numpy indexing with one int into n elements succeeds exactly when −n ≤ k < n, and then lands on k mod n: k itself for k ≥ 0, n + k for a negative k |
| Pipeline.Scaled | remove_anything_video.py:177 | the batch scaling scales every candidate and keeps the batch size |
| Pipeline.StepChoice | remove_anything_video.py:177-180 | one propagation step succeeds exactly when there are candidates and all have the previous mask's shape (a shape clash and an empty batch are the two errors), and then returns the candidate at the first index of least distance from the previous mask, scaled to {0, 255} and dilated when a kernel size is given |
| Pipeline.KeyIndex | remove_anything_video.py:143-146 | the key-frame index, when there is one, is a valid candidate index |
| Pipeline.KeyMaskChoice | remove_anything_video.py:143-147 | the key mask is a candidate scaled to {0, 255}. A manual index bypasses scoring, picks the candidate at that numpy index, and fails exactly when the index is out of range. Without an index it is the first max-score candidate, and fails exactly when there are no scores or that index has no candidate |
| Pipeline.Propagate | remove_anything_video.py:163-185 | a successful propagation yields one mask per frame pair |
| Pipeline.PropagateIsChain | remove_anything_video.py:165-185 | in a successful propagation, mask i is the step's result for frame i with mask i − 1 (the key mask for i = 0) as reference |
| Pipeline.ChainIsPropagate | remove_anything_video.py:165-185 | conversely, any chain of successful steps from the key mask is what propagation returns |
| Pipeline.PropagateFailurePersists | remove_anything_video.py:166-180 | an exception on some frame is the exception of the whole loop |
| Pipeline.PropagateStep | remove_anything_video.py:176-185 | one more iteration either raises, ending the loop with that error, or appends its mask, which becomes the next reference |
| Pipeline.PairCount | remove_anything_video.py:166 | `zip(frame_ps[1:], all_box[1:])` stops at the shorter of the two tails |
| Pipeline.BoxPredictions | remove_anything_video.py:166-176 | one segmentor answer per zipped pair: frame i + 1 loaded and prompted with box i + 1 as corners |
| Pipeline.LoadedFrames | remove_anything_video.py:164-167 | the frames in order, each the loader's image for its path |
| Pipeline.LoadedFramesSnoc | remove_anything_video.py:185 | appending a frame extends the loaded frames by the next path's image |
| Pipeline.Run | remove_anything_video.py:127-190 | `key_frame_idx ≠ 0` raises the assertion; an empty path list raises an index error; a successful call returns as many frames as masks, one more than the zipped pairs |
| Pipeline.RunParts | remove_anything_video.py:137-190 | a successful call is assembled as follows. The key mask succeeded, and mask 0 is it, dilated. The boxes are the tracker's answer for mask 0's box. The remaining masks are the propagation over those boxes. The frames are the loaded images |
| Pipeline.RunOutcome | remove_anything_video.py:137-190 | in a successful call, frame i is path i loaded, mask 0 is the dilated key mask, `all_box` is exactly the tracker's answer for the key mask's box, and for i ≥ 1 mask i is selected against mask i − 1 on frame i's segmentation from box i |
| Video.Segmentor.SetImage | remove_anything_video.py:76 | `set_image` holds the given image |
| Video.Segmentor.Predict | remove_anything_video.py:78-85 | `predict` needs a held image and answers for it |
| Video.Segmentor.ResetImage | remove_anything_video.py:86 | `reset_image` releases the image |
| Video.RemoveAnythingVideo.LoadImage | remove_anything_video.py:139 | loading returns the loader's image and logs one load |
| Video.RemoveAnythingVideo.ForwardTracker | remove_anything_video.py:67-71 | `forward_tracker` returns the tracker's boxes for the initial box and logs one tracker call |
| Video.RemoveAnythingVideo.ForwardSegmentor | remove_anything_video.py:73-87 | `forward_segmentor` returns the segmentor's answer for the image and prompt, logs one segmentor call, and, since the model's `predict` always returns, leaves no image held |
| Video.RemoveAnythingVideo.Forward | remove_anything_video.py:127-190 | `forward` returns or raises exactly what `Run` specifies. With `key_frame_idx ≠ 0` or no paths it fails before any collaborator is called. Otherwise no image is held afterwards, given collaborators that always return. On success the log shows, in order: the key frame's load, its point-prompt segmentation, one tracker call on the key mask's box, then a load and a box-prompt segmentation for each zipped frame |
| Video.RemoveAnythingVideo.FromKeyFrame | remove_anything_video.py:138-190 | from a non-empty path list, the rest of `forward` computes `Run` with key frame 0, with the same log |
| Video.RemoveAnythingVideo.SegmentKeyFrame | remove_anything_video.py:138-149 | the key-frame stage returns the loaded key frame and exactly `KeyFrameMask`'s result, leaves no image held, and logs the load and the point-prompt segmentation |
| Video.RemoveAnythingVideo.SegmentFrame | remove_anything_video.py:167-176 | one iteration's segmentation loads the frame and prompts the segmentor with the tracked box converted to corners |
| Video.RemoveAnythingVideo.SelectFrameMask | remove_anything_video.py:177-180 | scaling, selection against the previous mask and optional dilation succeed exactly when there are candidates of the previous mask's shape, and keep the candidate at the first index of least distance, scaled and optionally dilated; the result is the propagation step the loop's specification uses |
| Video.RemoveAnythingVideo.PropagateFrame | remove_anything_video.py:166-180 | one iteration loads the frame, segments it from its tracked box as corners, and selects its mask against the previous mask by the propagation step; it leaves no image held and logs the load and the segmentation |
| Video.RemoveAnythingVideo.TrackAndPropagate | remove_anything_video.py:154-190 | tracking and propagation compute exactly `FromKeyMask`. Mask 0 is the key mask, there are no more masks than boxes plus one, and the log shows one tracker call followed by the frame calls |
| Video.RemoveAnythingVideo.PropagateMasks | remove_anything_video.py:163-185 | the loop's masks are exactly `Propagate`'s, the frames are the loaded images, and each iteration logs its load and its segmentation |

## Left out

- Building the networks and the constructor's default arguments (remove_anything_video.py:23-65) are foreign code and configuration; the collaborators are the constructor's parameters instead.
- `forward_inpainter` and `device` (remove_anything_video.py:89-95) are foreign, depend on the GPU, and are unused by `forward`.
- `visualize_box` (remove_anything_video.py:116-125) and the debug write `save_array_to_img(key_mask, "mask.png")` (remove_anything_video.py:151) are plotting and file I/O.
- `mkstemp` and the `__main__` driver (remove_anything_video.py:193-292) are temp files, file globbing and video I/O.
- `load_img_to_array`, `dilate_mask`, SAM's `predict` and OSTrack's tracking are function values. Only `dilate_kernel_size is not None` decides whether dilation happens.
- Images are nested byte sequences and are never inspected. Boxes and point coordinates are integers; the tracker's float32 boxes and the `reshape(-1, 4)` of the initial box are not modelled.
- Floating point is not modelled. Scores are integers, since only their order matters. The mean squared error is the integer sum, which equals the mean up to the common divisor H × W. float64 rounding of that mean for sums beyond 2^53 is not modelled.
- numpy broadcasting is modelled only for candidates of the reference's exact shape; any other shape is `ShapeMismatch`, so size-1 broadcasting is not modelled.
- The segmentor's logits, and its `mask_input`, `multimask_output` and `return_logits` arguments, are dropped; the prediction holds masks and scores only.
- The segmentor oracle is not required to return as many scores as masks. A max-score index with no candidate is `IndexOutOfRange`, as numpy raises.
- Video.RemoveAnythingVideo.ForwardSegmentor: the collaborators (loader, `set_image`, `predict`, tracker, `dilate_mask`) never raise in the model. The source has no try/finally around remove_anything_video.py:76-86, so an exception in `predict` would skip `reset_image`, leave the image held and propagate out of `forward`; that path, and exceptions from loading, tracking or dilation, are not modelled.
- Boxes.BoundingBox: its own contract states only w, h ≥ 0; the full `cv2.boundingRect` characterisation is the lemma `Boxes.BoundingBoxSpec`.
- The propagation step is passed to `Pipeline.Propagate` as a function value (`Pipeline.StepWith`), so the chain lemmas hold for any step.
