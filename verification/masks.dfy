/**
 * Masks as numpy sees them: rectangular two-dimensional arrays of uint8 pixels.
 * The segmentor produces boolean masks; the pipeline scales them to {0, 255}
 * and compares candidates with the previous frame's mask by the sum of squared
 * pixel differences.
 */
module Masks {

  /** An uint8 pixel value. */
  type Byte = x: int | 0 <= x < 256

  /** Every row has the length of the first one, as in a 2-D numpy array. */
  predicate Rectangular(g: seq<seq<Byte>>) {
    forall i :: 0 <= i < |g| ==> |g[i]| == |g[0]|
  }

  /** A single-channel raster, indexed `m[row][column]`. */
  type Mask = g: seq<seq<Byte>> | Rectangular(g)

  function Height(m: Mask): nat { |m| }

  function Width(m: Mask): (w: nat)
    ensures forall i :: 0 <= i < |m| ==> |m[i]| == w
  {
    if |m| == 0 then 0 else |m[0]|
  }

  predicate SameShape(a: Mask, b: Mask) {
    Height(a) == Height(b) && Width(a) == Width(b)
  }

  /** A mask whose pixels are all 0 or 1: numpy's boolean array read as integers. */
  predicate IsBoolean(m: Mask) {
    forall i, j :: 0 <= i < |m| && 0 <= j < |m[i]| ==> m[i][j] == 0 || m[i][j] == 1
  }

  type BoolMask = m: Mask | IsBoolean(m)

  /** Pixel `(i, j)` is foreground (non-zero). */
  predicate Ink(m: Mask, i: int, j: int) {
    0 <= i < |m| && 0 <= j < |m[i]| && m[i][j] != 0
  }

  predicate HasInk(m: Mask) {
    exists i, j :: 0 <= i < |m| && 0 <= j < |m[i]| && Ink(m, i, j)
  }

  /**
   * `(mask * 255).astype(np.uint8)` on a boolean mask: the result has the same
   * shape, every pixel is 0 or 255, and 255 exactly where the input was set.
   */
  function Binarize(m: BoolMask): (r: Mask)
    ensures SameShape(r, m)
    ensures forall i, j :: 0 <= i < |r| && 0 <= j < |r[i]| ==> r[i][j] == 0 || r[i][j] == 255
    ensures forall i, j :: Ink(r, i, j) <==> Ink(m, i, j)
  {
    seq(|m|, i requires 0 <= i < |m| => seq(|m[i]|, j requires 0 <= j < |m[i]| => m[i][j] * 255))
  }

  /** Sum over one row of `(a - b) ** 2`, computed on int32 values. */
  function RowSquaredDistance(a: seq<Byte>, b: seq<Byte>): (d: nat)
    requires |a| == |b|
    ensures d == 0 <==> a == b
  {
    if |a| == 0 then 0
    else
      var e := a[0] as int - b[0] as int;
      assert e * e == 0 <==> e == 0 by { SquareZero(e); }
      assert a == b <==> a[0] == b[0] && a[1..] == b[1..] by {
        assert a == [a[0]] + a[1..] && b == [b[0]] + b[1..];
      }
      e * e + RowSquaredDistance(a[1..], b[1..])
  }

  /** Sum over all pixels of `(a - b) ** 2`, for two grids of equal shape. */
  function GridSquaredDistance(a: seq<seq<Byte>>, b: seq<seq<Byte>>): (d: nat)
    requires |a| == |b|
    requires forall i :: 0 <= i < |a| ==> |a[i]| == |b[i]|
    ensures d == 0 <==> a == b
  {
    if |a| == 0 then 0
    else
      assert a == b <==> a[0] == b[0] && a[1..] == b[1..] by {
        assert a == [a[0]] + a[1..] && b == [b[0]] + b[1..];
      }
      RowSquaredDistance(a[0], b[0]) + GridSquaredDistance(a[1..], b[1..])
  }

  /**
   * The sum of squared differences between two masks of equal shape. numpy's
   * `np.mean` divides this sum by the common pixel count H * W, which does not
   * change which candidate is smallest; the model keeps the integer sum.
   */
  function SquaredDistance(a: Mask, b: Mask): (d: nat)
    requires SameShape(a, b)
    ensures d == 0 <==> a == b
  {
    GridSquaredDistance(a, b)
  }

  lemma SquareZero(e: int)
    ensures e * e >= 0
    ensures e * e == 0 <==> e == 0
  {
    if e < 0 {
      assert e * e == (-e) * (-e);
    }
  }
}
