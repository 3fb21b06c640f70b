/**
  Clip rectangles: scaled from 1280 x 720 to the display, tested for emptiness and
  truncated to whole pixels. Coordinates are reals.
 */
module Scissor {

  datatype Rect = Rect(x: real, y: real, z: real, w: real)
  datatype Size = Size(x: real, y: real)
  datatype Box = Box(x: int, y: int, width: int, height: int)

  function Scale(a: real, unit: real, size: real): real
    requires unit > 0.0
  {
    (a / unit) * size
  }

  function Scaled(r: Rect, res: Size): Rect {
    Rect(Scale(r.x, 1280.0, res.x), Scale(r.y, 720.0, res.y), Scale(r.z, 1280.0, res.x), Scale(r.w, 720.0, res.y))
  }

  predicate IsEmpty(r: Rect) {
    r.z <= r.x || r.w <= r.y
  }

  /** The command is dropped: its scaled rectangle is empty. */
  predicate Skipped(r: Rect, res: Size) {
    IsEmpty(Scaled(r, res))
  }

  /** `(int)x`: towards zero. */
  function Trunc(x: real): int {
    if x >= 0.0 then x.Floor else -(-x).Floor
  }

  function Frac(x: real): real {
    x - x.Floor as real
  }

  function ScissorBox(r: Rect, res: Size): Box {
    var s := Scaled(r, res);
    Box(Trunc(s.x), Trunc(s.y), Trunc(s.z - s.x), Trunc(s.w - s.y))
  }

  /** What becomes of a clip rectangle: dropped, or a box in pixels. */
  datatype Clipped = Dropped | Drawn(box: Box)

  type Clipper = Rect -> Clipped

  function ClipTo(res: Size): Clipper {
    r => if Skipped(r, res) then Dropped else Drawn(ScissorBox(r, res))
  }

  lemma ScalingKeepsOrder(a: real, b: real, unit: real, size: real)
    requires unit > 0.0 && size > 0.0
    ensures Scale(a, unit, size) <= Scale(b, unit, size) <==> a <= b
  {
    var k := size / unit;
    assert Scale(a, unit, size) == a * k && Scale(b, unit, size) == b * k;
    if a <= b {
      assert (b - a) * k >= 0.0;
    } else {
      assert (a - b) * k > 0.0;
    }
  }

  /** Turned over or flattened, by the rectangle or by the display. */
  ghost predicate NoExtent(lo: real, hi: real, size: real) {
    (hi - lo) * size <= 0.0
  }

  /** Dropping, for every display: an extent of the rectangle, scaled, is not positive. */
  lemma DroppedIff(r: Rect, res: Size)
    ensures ClipTo(res)(r).Dropped? <==> NoExtent(r.x, r.z, res.x) || NoExtent(r.y, r.w, res.y)
  {
    ExtentSign(r.x, r.z, 1280.0, res.x);
    ExtentSign(r.y, r.w, 720.0, res.y);
  }

  lemma ExtentSign(a: real, b: real, unit: real, size: real)
    requires unit > 0.0
    ensures Scale(b, unit, size) <= Scale(a, unit, size) <==> NoExtent(a, b, size)
  {
    var k := size / unit;
    assert Scale(b, unit, size) == b * k && Scale(a, unit, size) == a * k;
    SignOfScaled(b - a, k, unit);
    assert (b - a) * k == b * k - a * k && (b - a) * (k * unit) == (b - a) * size;
  }

  lemma SignOfScaled(d: real, k: real, unit: real)
    requires unit > 0.0
    ensures d * k <= 0.0 <==> d * (k * unit) <= 0.0
  {
    var p := d * k;
    assert d * (k * unit) == p * unit;
    if p > 0.0 { assert p * unit > 0.0; }
  }

  lemma DroppedIffEmpty(r: Rect, res: Size)
    requires res.x > 0.0 && res.y > 0.0
    ensures ClipTo(res)(r).Dropped? <==> r.z <= r.x || r.w <= r.y
  {
    ScalingKeepsOrder(r.z, r.x, 1280.0, res.x);
    ScalingKeepsOrder(r.w, r.y, 720.0, res.y);
  }

  ghost predicate DropsExactlyTheEmpty(clip: Clipper) {
    forall r :: clip(r).Dropped? <==> r.z <= r.x || r.w <= r.y
  }

  /** Commands are dropped exactly when their own rectangle is empty, if and only if the display has an area. */
  lemma SkipIff(res: Size)
    ensures DropsExactlyTheEmpty(ClipTo(res)) <==> res.x > 0.0 && res.y > 0.0
  {
    if res.x > 0.0 && res.y > 0.0 {
      forall r ensures ClipTo(res)(r).Dropped? <==> r.z <= r.x || r.w <= r.y {
        DroppedIffEmpty(r, res);
      }
    } else {
      var whole := Rect(0.0, 0.0, 1280.0, 720.0);
      DroppedIff(whole, res);
      assert ClipTo(res)(whole).Dropped?;
    }
  }

  // ---- The box ------------------------------------------------------------------

  /** `n` is `x` without its fraction. */
  ghost predicate TowardsZero(x: real, n: int) {
    if x >= 0.0 then n as real <= x < n as real + 1.0 else n as real - 1.0 < x <= n as real
  }

  lemma TruncTowardsZero(x: real)
    ensures TowardsZero(x, Trunc(x))
  {
    if x < 0.0 { assert Trunc(x) as real == -((-x).Floor as real); }
  }

  /** A length on a side of `unit`, carried over to a side of `size`. */
  ghost function Onto(length: real, unit: real, size: real): real
    requires unit > 0.0
  {
    length * size / unit
  }

  /** The box is the rectangle's near corner and extent, on a display that 1280 x 720 fills, truncated. */
  ghost predicate IsPixelBox(r: Rect, res: Size, b: Box) {
    && TowardsZero(Onto(r.x, 1280.0, res.x), b.x) && TowardsZero(Onto(r.z - r.x, 1280.0, res.x), b.width)
    && TowardsZero(Onto(r.y, 720.0, res.y), b.y) && TowardsZero(Onto(r.w - r.y, 720.0, res.y), b.height)
  }

  lemma ScaledOnto(a: real, b: real, unit: real, size: real)
    requires unit > 0.0
    ensures Scale(a, unit, size) == Onto(a, unit, size)
    ensures Scale(b, unit, size) - Scale(a, unit, size) == Onto(b - a, unit, size)
  {
    var k := size / unit;
    assert Scale(a, unit, size) == a * k && Scale(b, unit, size) == b * k;
    assert a * size / unit == a * k && (b - a) * size / unit == (b - a) * k;
    assert (b - a) * k == b * k - a * k;
  }

  lemma AxisOfBox(lo: real, hi: real, unit: real, size: real)
    requires unit > 0.0
    ensures TowardsZero(Onto(lo, unit, size), Trunc(Scale(lo, unit, size)))
    ensures TowardsZero(Onto(hi - lo, unit, size), Trunc(Scale(hi, unit, size) - Scale(lo, unit, size)))
  {
    ScaledOnto(lo, hi, unit, size);
    TruncTowardsZero(Scale(lo, unit, size));
    TruncTowardsZero(Scale(hi, unit, size) - Scale(lo, unit, size));
  }

  /** The box of every drawn command, for any display and any corners. */
  lemma DrawnBox(r: Rect, res: Size)
    requires ClipTo(res)(r).Drawn?
    ensures IsPixelBox(r, res, ClipTo(res)(r).box)
  {
    AxisOfBox(r.x, r.z, 1280.0, res.x);
    AxisOfBox(r.y, r.w, 720.0, res.y);
    assert ClipTo(res)(r).box == ScissorBox(r, res);
  }

  /** One axis of the box: where it ends, against the true far edge. */
  function FarEdge(lo: real, hi: real): int {
    Trunc(lo) + Trunc(hi - lo)
  }

  /**
    The end of the truncated box, exactly. From a non-negative near edge it is the floor of
    the far edge, one less when the two fractions carry; from a negative near edge it is
    the floor, one more when the fraction of the extent is the smaller.
   */
  lemma FarEdgeExact(lo: real, hi: real)
    requires lo < hi
    ensures lo >= 0.0 ==>
      FarEdge(lo, hi) == hi.Floor - (if Frac(lo) + Frac(hi - lo) >= 1.0 then 1 else 0)
    ensures lo < 0.0 ==>
      FarEdge(lo, hi) == hi.Floor + (if Frac(hi - lo) < Frac(-lo) then 1 else 0)
  {
    var extent := hi - lo;
    if lo >= 0.0 {
      FloorOf(hi, lo.Floor + extent.Floor + (if Frac(lo) + Frac(extent) >= 1.0 then 1 else 0));
    } else {
      FloorOf(hi, extent.Floor - (-lo).Floor - (if Frac(extent) < Frac(-lo) then 1 else 0));
    }
  }

  lemma FloorOf(x: real, n: int)
    requires n as real <= x < n as real + 1.0
    ensures x.Floor == n
  {
    var f := x.Floor;
    assert f as real <= x < f as real + 1.0;
    assert (f - n) as real == f as real - n as real;
  }

  lemma ScaleNonNegative(a: real, unit: real, size: real)
    requires unit > 0.0 && size >= 0.0 && a >= 0.0
    ensures Scale(a, unit, size) >= 0.0
  {
    var k := a / unit;
    assert k >= 0.0;
  }

  /** For a drawn command with a non-negative near corner the box ends inside its true far edges, within a pixel. */
  lemma BoxAccuracy(r: Rect, res: Size)
    requires res.x > 0.0 && res.y > 0.0 && r.x >= 0.0 && r.y >= 0.0 && ClipTo(res)(r).Drawn?
    ensures var right, bottom, b := Onto(r.z, 1280.0, res.x), Onto(r.w, 720.0, res.y), ClipTo(res)(r).box;
      && b.x == Onto(r.x, 1280.0, res.x).Floor && b.y == Onto(r.y, 720.0, res.y).Floor
      && b.width >= 0 && b.height >= 0
      && right.Floor - 1 <= b.x + b.width <= right.Floor
      && bottom.Floor - 1 <= b.y + b.height <= bottom.Floor
  {
    var s := Scaled(r, res);
    ScaledOnto(r.x, r.z, 1280.0, res.x);
    ScaledOnto(r.z, r.x, 1280.0, res.x);
    ScaledOnto(r.y, r.w, 720.0, res.y);
    ScaledOnto(r.w, r.y, 720.0, res.y);
    ScaleNonNegative(r.x, 1280.0, res.x);
    ScaleNonNegative(r.y, 720.0, res.y);
    FarEdgeExact(s.x, s.z);
    FarEdgeExact(s.y, s.w);
  }
}
