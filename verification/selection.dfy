/**
 * `RemoveAnythingVideo.mask_selection`: collapse a batch of candidate masks
 * to one, by least squared distance from a reference mask when one is given
 * and by highest score otherwise, with numpy's first-occurrence tie-break.
 */
module Selection {
  import opened Wrappers
  import opened Masks

  /** `k` is the first index at which `s` takes its minimum (numpy `argmin`). */
  predicate IsFirstMin(s: seq<int>, k: int) {
    && 0 <= k < |s|
    && (forall j :: 0 <= j < |s| ==> s[k] <= s[j])
    && (forall j :: 0 <= j < k ==> s[k] < s[j])
  }

  /** `k` is the first index at which `s` takes its maximum (numpy `argmax`). */
  predicate IsFirstMax(s: seq<int>, k: int) {
    && 0 <= k < |s|
    && (forall j :: 0 <= j < |s| ==> s[j] <= s[k])
    && (forall j :: 0 <= j < k ==> s[j] < s[k])
  }

  function ArgMin(s: seq<int>): (k: nat)
    requires |s| > 0
    ensures IsFirstMin(s, k)
  {
    if |s| == 1 then 0
    else
      var k := ArgMin(s[..|s| - 1]);
      if s[|s| - 1] < s[k] then |s| - 1 else k
  }

  function ArgMax(s: seq<int>): (k: nat)
    requires |s| > 0
    ensures IsFirstMax(s, k)
  {
    if |s| == 1 then 0
    else
      var k := ArgMax(s[..|s| - 1]);
      if s[k] < s[|s| - 1] then |s| - 1 else k
  }

  /** The first-occurrence minimum is unique, so `ArgMin` is the only index with that property. */
  lemma ArgMinUnique(s: seq<int>, k: int)
    requires |s| > 0
    ensures IsFirstMin(s, k) <==> k == ArgMin(s)
  {
  }

  lemma ArgMaxUnique(s: seq<int>, k: int)
    requires |s| > 0
    ensures IsFirstMax(s, k) <==> k == ArgMax(s)
  {
  }

  /** Every candidate has the reference's shape, so the subtraction broadcasts. */
  predicate AllShaped(masks: seq<Mask>, ref: Mask) {
    forall k :: 0 <= k < |masks| ==> SameShape(masks[k], ref)
  }

  /** The per-candidate distances from the reference (numpy's `mse`, up to the common divisor). */
  function Distances(masks: seq<Mask>, ref: Mask): (d: seq<int>)
    requires AllShaped(masks, ref)
    ensures |d| == |masks|
    ensures forall k :: 0 <= k < |masks| ==> d[k] == SquaredDistance(masks[k], ref)
  {
    seq(|masks|, k requires 0 <= k < |masks| => SquaredDistance(masks[k], ref))
  }

  /**
   * The index `mask_selection` picks, or the exception it raises. With a
   * reference, the index of the first candidate at least squared distance;
   * without one, the first index of the highest score. The two branches are
   * characterised by `ReferenceSelection` and `ScoreSelection` below.
   */
  function SelectionIndex(masks: seq<Mask>, scores: seq<int>, ref: Option<Mask>, interactive: bool): (r: Result<nat, Error>)
    ensures interactive ==> r == Failure(NotImplemented)
    ensures r.Success? ==> r.value < |masks|
  {
    if interactive then Failure(NotImplemented)
    else match ref
      case Some(refMask) =>
        if !AllShaped(masks, refMask) then Failure(ShapeMismatch)
        else if |masks| == 0 then Failure(EmptySequence)
        else Success(ArgMin(Distances(masks, refMask)))
      case None =>
        if |scores| == 0 then Failure(EmptySequence)
        else
          var k := ArgMax(scores);
          if k < |masks| then Success(k) else Failure(IndexOutOfRange)
  }

  /**
   * With a reference: the selection succeeds exactly when the batch is
   * non-empty and every candidate has the reference's shape, and then picks
   * the first index of least distance.
   */
  lemma ReferenceSelection(masks: seq<Mask>, scores: seq<int>, ref: Mask)
    ensures var r := SelectionIndex(masks, scores, Some(ref), false);
      && (r.Success? <==> |masks| > 0 && AllShaped(masks, ref))
      && (!AllShaped(masks, ref) ==> r == Failure(ShapeMismatch))
      && (AllShaped(masks, ref) && |masks| == 0 ==> r == Failure(EmptySequence))
      && (r.Success? ==> IsFirstMin(Distances(masks, ref), r.value))
  {
  }

  /**
   * Without a reference: an empty score list fails, and otherwise the
   * selection succeeds exactly when the first index of the highest score is
   * a valid candidate index, which it then is.
   */
  lemma ScoreSelection(masks: seq<Mask>, scores: seq<int>)
    ensures var r := SelectionIndex(masks, scores, None, false);
      && (|scores| == 0 ==> r == Failure(EmptySequence))
      && (|scores| > 0 ==> (r.Success? <==> (forall k :: IsFirstMax(scores, k) ==> k < |masks|)))
      && (r.Success? ==> IsFirstMax(scores, r.value))
  {
    if |scores| > 0 {
      forall k | IsFirstMax(scores, k) ensures k == ArgMax(scores) { ArgMaxUnique(scores, k); }
    }
  }

  /** `mask_selection(masks, scores, ref_mask, interactive)`: `masks[idx]` for the index above. */
  function MaskSelection(masks: seq<Mask>, scores: seq<int>, ref: Option<Mask>, interactive: bool): (r: Result<Mask, Error>)
    ensures r.Success? ==> r.value in masks
    ensures r.Failure? <==> SelectionIndex(masks, scores, ref, interactive).Failure?
  {
    match SelectionIndex(masks, scores, ref, interactive)
    case Failure(e) => Failure(e)
    case Success(k) => Success(masks[k])
  }

  /**
   * With a reference, the selected candidate is at least as close to it as
   * every candidate, and strictly closer than every earlier one.
   */
  lemma SelectionIsClosest(masks: seq<Mask>, scores: seq<int>, ref: Mask)
    requires |masks| > 0 && AllShaped(masks, ref)
    ensures var r := MaskSelection(masks, scores, Some(ref), false);
      && r.Success?
      && SameShape(r.value, ref)
      && (exists k :: 0 <= k < |masks| && r.value == masks[k] &&
           (forall j :: 0 <= j < |masks| ==> SquaredDistance(masks[k], ref) <= SquaredDistance(masks[j], ref)) &&
           (forall j :: 0 <= j < k ==> SquaredDistance(masks[k], ref) < SquaredDistance(masks[j], ref)))
  {
    ReferenceSelection(masks, scores, ref);
    var k := SelectionIndex(masks, scores, Some(ref), false).value;
    var d := Distances(masks, ref);
    assert IsFirstMin(d, k);
    assert forall j :: 0 <= j < |masks| ==> d[j] == SquaredDistance(masks[j], ref);
  }

  /**
   * A candidate identical to the reference is always selected (possibly an
   * earlier copy of it): the chained selection never moves off an unchanged mask.
   */
  lemma SelectionKeepsExactMatch(masks: seq<Mask>, scores: seq<int>, ref: Mask)
    requires ref in masks && AllShaped(masks, ref)
    ensures MaskSelection(masks, scores, Some(ref), false) == Success(ref)
  {
    ReferenceSelection(masks, scores, ref);
    var k := SelectionIndex(masks, scores, Some(ref), false).value;
    var d := Distances(masks, ref);
    var i :| 0 <= i < |masks| && masks[i] == ref;
    assert d[i] == 0;
    assert d[k] <= d[i];
    assert SquaredDistance(masks[k], ref) == 0;
  }

  /** Without a reference, the selected candidate is the one at the first index of maximal score. */
  lemma SelectionByScore(masks: seq<Mask>, scores: seq<int>)
    requires |scores| > 0 && ArgMax(scores) < |masks|
    ensures MaskSelection(masks, scores, None, false) == Success(masks[ArgMax(scores)])
    ensures forall k :: IsFirstMax(scores, k) ==> MaskSelection(masks, scores, None, false) == Success(masks[k])
  {
    forall k | IsFirstMax(scores, k) ensures k == ArgMax(scores) { ArgMaxUnique(scores, k); }
  }

  /** Without a reference, the candidates' pixels play no part: only the scores and the batch size do. */
  lemma SelectionByScoreIgnoresPixels(masks: seq<Mask>, others: seq<Mask>, scores: seq<int>)
    requires |masks| == |others|
    ensures SelectionIndex(masks, scores, None, false) == SelectionIndex(others, scores, None, false)
  {
  }
}
