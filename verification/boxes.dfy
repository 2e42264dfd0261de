/**
 * Box geometry: `cv2.boundingRect` on a mask (`get_box_from_mask`), the two
 * box formats and the (x, y, w, h) -> (x1, y1, x2, y2) step the pipeline
 * takes before prompting the segmentor with a tracked box.
 */
module Boxes {
  import opened Masks

  /** A box as the tracker and `cv2.boundingRect` give it: corner, width and height. */
  datatype BoxXYWH = BoxXYWH(x: int, y: int, w: int, h: int)

  /** A box as the segmentor's box prompt takes it: two opposite corners. */
  datatype BoxXYXY = BoxXYXY(x1: int, y1: int, x2: int, y2: int)

  /** The XYWH -> XYXY conversion: `[x, y, x + w, y + h]`. */
  function ToCorners(b: BoxXYWH): (c: BoxXYXY)
    ensures c.x1 == b.x && c.y1 == b.y
    ensures c.x2 - c.x1 == b.w && c.y2 - c.y1 == b.h
  {
    BoxXYXY(b.x, b.y, b.x + b.w, b.y + b.h)
  }

  function FromCorners(c: BoxXYXY): (b: BoxXYWH)
    ensures b.x == c.x1 && b.y == c.y1
    ensures b.w == c.x2 - c.x1 && b.h == c.y2 - c.y1
  {
    BoxXYWH(c.x1, c.y1, c.x2 - c.x1, c.y2 - c.y1)
  }

  lemma CornersRoundTrip(b: BoxXYWH, c: BoxXYXY)
    ensures FromCorners(ToCorners(b)) == b
    ensures ToCorners(FromCorners(c)) == c
  {
  }

  /** Pixel at row `i`, column `j` lies in `[x, x + w) x [y, y + h)`. */
  predicate Inside(b: BoxXYWH, i: int, j: int) {
    b.y <= i < b.y + b.h && b.x <= j < b.x + b.w
  }

  /** Pixel at row `i`, column `j` lies in `[x1, x2) x [y1, y2)`. */
  predicate InsideCorners(c: BoxXYXY, i: int, j: int) {
    c.y1 <= i < c.y2 && c.x1 <= j < c.x2
  }

  /** Both formats describe the same set of pixels. */
  lemma ToCornersSameRegion(b: BoxXYWH, i: int, j: int)
    ensures Inside(b, i, j) <==> InsideCorners(ToCorners(b), i, j)
  {
  }

  /** Every foreground pixel of `m` lies in `b`. */
  ghost predicate Encloses(m: Mask, b: BoxXYWH) {
    forall i, j :: Ink(m, i, j) ==> Inside(b, i, j)
  }

  /** The last row and the last column `b` covers. */
  function Bottom(b: BoxXYWH): int { b.y + b.h - 1 }
  function Right(b: BoxXYWH): int { b.x + b.w - 1 }

  /** Each of the four edges of `b` passes through a foreground pixel of `m`. */
  ghost predicate TouchesInk(m: Mask, b: BoxXYWH) {
    RowHasInk(m, b.y) && RowHasInk(m, Bottom(b)) && ColumnHasInk(m, b.x) && ColumnHasInk(m, Right(b))
  }

  ghost predicate RowHasInk(m: Mask, i: int) {
    exists j :: Ink(m, i, j)
  }

  ghost predicate ColumnHasInk(m: Mask, j: int) {
    exists i :: Ink(m, i, j)
  }

  /** The first and last positions of a flag sequence that are set, if any. */
  datatype Extent = NoExtent | Extent(first: nat, last: nat)

  function ExtentOf(f: seq<bool>): (e: Extent)
    ensures e.NoExtent? <==> forall k :: 0 <= k < |f| ==> !f[k]
    ensures e.Extent? ==> e.first <= e.last < |f| && f[e.first] && f[e.last]
    ensures e.Extent? ==> forall k :: 0 <= k < |f| && f[k] ==> e.first <= k <= e.last
  {
    if |f| == 0 then NoExtent
    else
      var n := |f| - 1;
      match ExtentOf(f[..n])
      case NoExtent => if f[n] then Extent(n, n) else NoExtent
      case Extent(first, last) => if f[n] then Extent(first, n) else Extent(first, last)
  }

  /** Row `i` of `m` holds a foreground pixel. */
  function RowFlags(m: Mask): (f: seq<bool>)
    ensures |f| == |m|
    ensures forall i, j :: Ink(m, i, j) ==> f[i]
    ensures forall i :: 0 <= i < |m| ==> (f[i] <==> RowHasInk(m, i))
  {
    seq(|m|, i requires 0 <= i < |m| => exists j :: 0 <= j < |m[i]| && Ink(m, i, j))
  }

  /** Column `j` of `m` holds a foreground pixel. */
  function ColumnFlags(m: Mask): (f: seq<bool>)
    ensures |f| == Width(m)
    ensures forall i, j :: Ink(m, i, j) ==> f[j]
    ensures forall j :: 0 <= j < Width(m) ==> (f[j] <==> ColumnHasInk(m, j))
  {
    seq(Width(m), j requires 0 <= j < Width(m) => exists i :: 0 <= i < |m| && Ink(m, i, j))
  }

  /** The rectangle spanned by the set rows and the set columns. */
  function BoxOfExtents(rows: Extent, cols: Extent): BoxXYWH {
    if rows.Extent? && cols.Extent? then
      BoxXYWH(cols.first, rows.first, cols.last - cols.first + 1, rows.last - rows.first + 1)
    else
      BoxXYWH(0, 0, 0, 0)
  }

  /** The row extent is empty exactly when the column extent is, exactly when there is no ink. */
  lemma ExtentsOfInk(m: Mask)
    ensures ExtentOf(RowFlags(m)).NoExtent? <==> !HasInk(m)
    ensures ExtentOf(ColumnFlags(m)).NoExtent? <==> !HasInk(m)
  {
    var rows, cols := RowFlags(m), ColumnFlags(m);
    if HasInk(m) {
      var i, j :| Ink(m, i, j);
      assert rows[i] && cols[j];
    }
    if ExtentOf(rows).Extent? {
      assert rows[ExtentOf(rows).first];
    }
    if ExtentOf(cols).Extent? {
      assert cols[ExtentOf(cols).first];
    }
  }

  lemma ExtentBoxEncloses(m: Mask)
    ensures Encloses(m, BoxOfExtents(ExtentOf(RowFlags(m)), ExtentOf(ColumnFlags(m))))
  {
    ExtentsOfInk(m);
    var rows, cols := RowFlags(m), ColumnFlags(m);
    var b := BoxOfExtents(ExtentOf(rows), ExtentOf(cols));
    forall i, j | Ink(m, i, j) ensures Inside(b, i, j) {
      assert rows[i] && cols[j];
    }
  }

  /** The first and the last set row of a mask with ink each hold a foreground pixel. */
  lemma RowExtentEnds(m: Mask)
    requires HasInk(m)
    ensures var rows := ExtentOf(RowFlags(m));
      rows.Extent? && RowHasInk(m, rows.first) && RowHasInk(m, rows.last)
  {
    ExtentsOfInk(m);
    var rowFlags := RowFlags(m);
    assert rowFlags[ExtentOf(rowFlags).first] && rowFlags[ExtentOf(rowFlags).last];
  }

  /** The first and the last set column of a mask with ink each hold a foreground pixel. */
  lemma ColumnExtentEnds(m: Mask)
    requires HasInk(m)
    ensures var cols := ExtentOf(ColumnFlags(m));
      cols.Extent? && ColumnHasInk(m, cols.first) && ColumnHasInk(m, cols.last)
  {
    ExtentsOfInk(m);
    var colFlags := ColumnFlags(m);
    assert colFlags[ExtentOf(colFlags).first] && colFlags[ExtentOf(colFlags).last];
  }

  lemma BoxOfExtentsTouches(m: Mask, rows: Extent, cols: Extent)
    requires rows.Extent? && RowHasInk(m, rows.first) && RowHasInk(m, rows.last)
    requires cols.Extent? && ColumnHasInk(m, cols.first) && ColumnHasInk(m, cols.last)
    ensures TouchesInk(m, BoxOfExtents(rows, cols))
  {
    var b := BoxOfExtents(rows, cols);
    assert b.y == rows.first && Bottom(b) == rows.last;
    assert b.x == cols.first && Right(b) == cols.last;
  }

  lemma ExtentBoxTouches(m: Mask)
    requires HasInk(m)
    ensures TouchesInk(m, BoxOfExtents(ExtentOf(RowFlags(m)), ExtentOf(ColumnFlags(m))))
  {
    RowExtentEnds(m);
    ColumnExtentEnds(m);
    BoxOfExtentsTouches(m, ExtentOf(RowFlags(m)), ExtentOf(ColumnFlags(m)));
  }

  lemma ExtentBoxWithinMask(m: Mask)
    requires HasInk(m)
    ensures var b := BoxOfExtents(ExtentOf(RowFlags(m)), ExtentOf(ColumnFlags(m)));
      b.w > 0 && b.h > 0 && 0 <= b.x && b.x + b.w <= Width(m) && 0 <= b.y && b.y + b.h <= Height(m)
  {
    ExtentsOfInk(m);
  }

  /**
   * `get_box_from_mask`, i.e. `cv2.boundingRect` on a single-channel mask:
   * the rows and the columns holding ink, each reduced to its first and last
   * index. `BoundingBoxSpec` states what the result is.
   */
  function BoundingBox(m: Mask): (b: BoxXYWH)
    ensures b.w >= 0 && b.h >= 0
  {
    BoxOfExtents(ExtentOf(RowFlags(m)), ExtentOf(ColumnFlags(m)))
  }

  /**
   * The bounding box holds every non-zero pixel; a mask with none gives
   * (0, 0, 0, 0); otherwise the box is non-empty, lies within the mask, and
   * each of its four edges touches a non-zero pixel.
   */
  lemma BoundingBoxSpec(m: Mask)
    ensures var b := BoundingBox(m);
      && Encloses(m, b)
      && (!HasInk(m) ==> b == BoxXYWH(0, 0, 0, 0))
      && (HasInk(m) ==> TouchesInk(m, b))
      && (HasInk(m) ==> b.w > 0 && b.h > 0)
      && (HasInk(m) ==> 0 <= b.x && b.x + b.w <= Width(m) && 0 <= b.y && b.y + b.h <= Height(m))
  {
    ExtentsOfInk(m);
    ExtentBoxEncloses(m);
    if HasInk(m) {
      ExtentBoxTouches(m);
      ExtentBoxWithinMask(m);
    }
  }

  /** A rectangle whose edges all touch ink lies inside every rectangle that encloses the ink. */
  lemma TouchingLiesInsideEnclosing(m: Mask, inner: BoxXYWH, outer: BoxXYWH)
    requires TouchesInk(m, inner) && Encloses(m, outer)
    ensures outer.x <= inner.x && inner.x + inner.w <= outer.x + outer.w
    ensures outer.y <= inner.y && inner.y + inner.h <= outer.y + outer.h
  {
    var top :| Ink(m, inner.y, top);
    var bottom :| Ink(m, Bottom(inner), bottom);
    var left :| Ink(m, left, inner.x);
    var right :| Ink(m, right, Right(inner));
    assert Inside(outer, inner.y, top) && Inside(outer, Bottom(inner), bottom);
    assert Inside(outer, left, inner.x) && Inside(outer, right, Right(inner));
  }

  /** The bounding box is the smallest rectangle holding every foreground pixel. */
  lemma BoundingBoxIsSmallest(m: Mask, r: BoxXYWH)
    requires HasInk(m) && Encloses(m, r)
    ensures var b := BoundingBox(m);
      && r.x <= b.x && b.x + b.w <= r.x + r.w
      && r.y <= b.y && b.y + b.h <= r.y + r.h
  {
    BoundingBoxSpec(m);
    TouchingLiesInsideEnclosing(m, BoundingBox(m), r);
  }

  /** Enclosing the ink and touching it on all four edges characterises the bounding box. */
  lemma BoundingBoxUnique(m: Mask, b: BoxXYWH)
    requires HasInk(m)
    ensures Encloses(m, b) && TouchesInk(m, b) <==> b == BoundingBox(m)
  {
    BoundingBoxSpec(m);
    if Encloses(m, b) && TouchesInk(m, b) {
      TouchingLiesInsideEnclosing(m, b, BoundingBox(m));
      TouchingLiesInsideEnclosing(m, BoundingBox(m), b);
    }
  }

  /** A `height` x `width` mask whose foreground is exactly the pixels of `b`: a filled rectangle. */
  function Render(b: BoxXYWH, height: nat, width: nat): (m: Mask)
    ensures Height(m) == height && (height > 0 ==> Width(m) == width)
    ensures forall i, j :: Ink(m, i, j) <==> 0 <= i < height && 0 <= j < width && Inside(b, i, j)
  {
    seq(height, i => seq(width, j => if Inside(b, i, j) then 255 else 0))
  }

  /** Deriving the box of a filled rectangle that fits in the mask gives back that rectangle. */
  lemma BoundingBoxOfRendered(b: BoxXYWH, height: nat, width: nat)
    requires b.w > 0 && b.h > 0
    requires 0 <= b.x && b.x + b.w <= width && 0 <= b.y && b.y + b.h <= height
    ensures BoundingBox(Render(b, height, width)) == b
  {
    var m := Render(b, height, width);
    assert Ink(m, b.y, b.x) && Ink(m, Bottom(b), b.x) && Ink(m, b.y, Right(b));
    assert TouchesInk(m, b);
    BoundingBoxUnique(m, b);
  }

  /** Box derivation is idempotent: re-deriving from the filled bounding box changes nothing. */
  lemma BoundingBoxIdempotent(m: Mask)
    ensures BoundingBox(Render(BoundingBox(m), Height(m), Width(m))) == BoundingBox(m)
  {
    var b := BoundingBox(m);
    BoundingBoxSpec(m);
    if HasInk(m) {
      BoundingBoxOfRendered(b, Height(m), Width(m));
    } else {
      var r := Render(b, Height(m), Width(m));
      assert !HasInk(r);
      BoundingBoxSpec(r);
    }
  }

  /** The bounding box depends only on which pixels are foreground, not on their values. */
  lemma BoundingBoxDependsOnlyOnInk(a: Mask, b: Mask)
    requires forall i, j :: Ink(a, i, j) <==> Ink(b, i, j)
    ensures BoundingBox(a) == BoundingBox(b)
  {
    if HasInk(a) {
      var i, j :| Ink(a, i, j);
      assert Ink(b, i, j);
      var box := BoundingBox(a);
      BoundingBoxSpec(a);
      assert RowHasInk(a, box.y) && RowHasInk(a, Bottom(box));
      assert ColumnHasInk(a, box.x) && ColumnHasInk(a, Right(box));
      assert TouchesInk(b, box);
      BoundingBoxUnique(b, box);
    } else {
      assert !HasInk(b);
      BoundingBoxSpec(a);
      BoundingBoxSpec(b);
    }
  }

  /** Scaling a boolean mask to {0, 255} leaves its box unchanged. */
  lemma BoundingBoxOfBinarized(m: BoolMask)
    ensures BoundingBox(Binarize(m)) == BoundingBox(m)
  {
    BoundingBoxDependsOnlyOnInk(Binarize(m), m);
  }
}
