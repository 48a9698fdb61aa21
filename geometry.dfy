/**
  * The integer geometry that turns a drag from `start` to `end` into the
  * shape handed to the drawing library, and the descriptors of everything the
  * program asks the library to draw. Which pixels the library paints for a
  * descriptor is outside this model: a `Rasterizer` stands for it.
  */
module Geometry {
  import opened Pixels

  /** One call into the drawing library. `width` is the outline thickness,
      0 meaning a filled shape; `Text` is a font rendering blitted at `at`. */
  datatype Mark =
    | Line(from: Pos, to: Pos, width: int, color: Color)
    | Circle(center: Pos, radius: int, width: int, color: Color)
    | Rect(left: int, top: int, w: int, h: int, width: int, color: Color)
    | Polygon(vertices: seq<Pos>, width: int, color: Color)
    | Text(text: string, at: Pos, fontSize: int, color: Color)

  /** The pixels the drawing library writes for a mark on a given image. */
  type Rasterizer = (Image, Mark) -> map<Pos, Color>

  /** The image after the library has drawn `m` on `img` (clipped to the surface). */
  function Draw(img: Image, w: nat, h: nat, raster: Rasterizer, m: Mark): (r: Image)
    requires IsImage(img, w, h)
    ensures IsImage(r, w, h)
  {
    Stamp(img, w, h, raster(img, m))
  }

  /** The image after drawing `marks` one after the other. */
  function DrawAll(img: Image, w: nat, h: nat, raster: Rasterizer, marks: seq<Mark>): (r: Image)
    requires IsImage(img, w, h)
    ensures IsImage(r, w, h)
    decreases |marks|
  {
    if marks == [] then img
    else DrawAll(Draw(img, w, h, raster, marks[0]), w, h, raster, marks[1..])
  }

  function Min(a: int, b: int): int { if a <= b then a else b }
  function Max(a: int, b: int): int { if a <= b then b else a }
  function Abs(a: int): int { if a < 0 then -a else a }

  /** Python's `a // 2`: division rounding towards minus infinity. */
  function FloorHalf(a: int): (r: int)
    ensures 2 * r <= a < 2 * r + 2
  {
    a / 2
  }

  /** The largest `r` with `r * r <= n`, the integer part of the square root. */
  function Isqrt(n: nat): (r: nat)
    ensures r * r <= n < (r + 1) * (r + 1)
    decreases n
  {
    if n == 0 then 0
    else
      var t := Isqrt(n / 4);
      IsqrtDoubling(n, t);
      var s := 2 * t;
      if (s + 1) * (s + 1) <= n then s + 1 else s
  }

  /** Doubling the root of `n / 4` comes within one of the root of `n`. */
  lemma IsqrtDoubling(n: nat, t: nat)
    requires t * t <= n / 4 < (t + 1) * (t + 1)
    ensures (2 * t) * (2 * t) <= n < (2 * t + 2) * (2 * t + 2)
  {
    var q := n / 4;
    assert 4 * q <= n < 4 * q + 4;
    assert (2 * t) * (2 * t) == 4 * (t * t);
    assert (2 * t + 2) * (2 * t + 2) == 4 * ((t + 1) * (t + 1));
  }

  /** Brush stroke between two pointer positions (`draw_line`): a line twice
      the brush size wide with a filled disc of radius `size` at each end. */
  function StrokeMarks(from: Pos, to: Pos, size: int, color: Color): (marks: seq<Mark>)
    ensures |marks| == 3
    ensures marks[0] == Line(from, to, 2 * size, color)
    ensures marks[1].Circle? && marks[1].center == from && marks[2].Circle? && marks[2].center == to
    ensures forall k :: 0 < k < 3 ==> marks[k].radius == size && marks[k].width == 0 && marks[k].color == color
  {
    [Line(from, to, size * 2, color), Circle(from, size, 0, color), Circle(to, size, 0, color)]
  }

  /** Rectangle preview: the rectangle with the drag's two points as opposite
      corners, or nothing when the drag is flat in either direction. */
  function RectanglePreview(start: Pos, end: Pos, width: int, color: Color): (m: Option<Mark>)
    ensures m.Some? <==> start.x != end.x && start.y != end.y
    ensures m.Some? ==> m.value.Rect? && m.value.width == width && m.value.color == color
    ensures m.Some? ==> 0 < m.value.w && 0 < m.value.h
    ensures m.Some? ==>
      && m.value.left == Min(start.x, end.x) && m.value.left + m.value.w == Max(start.x, end.x)
      && m.value.top == Min(start.y, end.y) && m.value.top + m.value.h == Max(start.y, end.y)
  {
    var left, top := Min(start.x, end.x), Min(start.y, end.y);
    var w, h := Abs(start.x - end.x), Abs(start.y - end.y);
    if w > 0 && h > 0 then Some(Rect(left, top, w, h, width, color)) else None
  }

  /** Circle radius: the integer part of the distance between the two points. */
  function CircleRadius(center: Pos, edge: Pos): (r: nat)
    ensures var dx, dy := edge.x - center.x, edge.y - center.y;
      r * r <= dx * dx + dy * dy < (r + 1) * (r + 1)
  {
    var dx, dy := edge.x - center.x, edge.y - center.y;
    assert dx * dx >= 0 && dy * dy >= 0;
    Isqrt(dx * dx + dy * dy)
  }

  /** Circle preview centred at the drag's start, or nothing when the radius is 0. */
  function CirclePreview(start: Pos, end: Pos, width: int, color: Color): (m: Option<Mark>)
    ensures m.Some? <==> CircleRadius(start, end) > 0
    ensures m.Some? ==> m.value == Circle(start, CircleRadius(start, end), width, color)
  {
    var radius := CircleRadius(start, end);
    if radius > 0 then Some(Circle(start, radius, width, color)) else None
  }

  /** Triangle vertices: apex on the start row at the horizontal midpoint
      (rounded down), base on the end row between the two x coordinates. */
  function TriangleVertices(start: Pos, end: Pos): (v: seq<Pos>)
    ensures |v| == 3
    ensures v[0].y == start.y && v[1] == Pos(start.x, end.y) && v[2] == Pos(end.x, end.y)
    ensures Min(start.x, end.x) <= v[0].x <= Max(start.x, end.x)
    ensures 2 * v[0].x <= start.x + end.x < 2 * v[0].x + 2
  {
    [Pos(start.x + FloorHalf(end.x - start.x), start.y), Pos(start.x, end.y), Pos(end.x, end.y)]
  }

  /** Triangle preview; the program draws it even when it is degenerate. */
  function TrianglePreview(start: Pos, end: Pos, width: int, color: Color): (m: Mark)
    ensures m.Polygon? && m.vertices == TriangleVertices(start, end)
    ensures m.width == width && m.color == color
  {
    Polygon(TriangleVertices(start, end), width, color)
  }

  /** The font size text is rendered at for a brush size. */
  function CanvasFontSize(size: int): (r: int)
    ensures r >= 14 && r >= 4 * size
    ensures r == 14 || r == 4 * size
  {
    if 14 <= size * 4 then size * 4 else 14
  }

  /** A stroke from a point to itself centres both of its end discs on that
      point. */
  lemma StrokeOfClickCentresBothDiscs(p: Pos, size: int, color: Color)
    ensures StrokeMarks(p, p, size, color)[1] == Circle(p, size, 0, color)
    ensures StrokeMarks(p, p, size, color)[2] == Circle(p, size, 0, color)
  {
  }

  /** Multiplying by a natural keeps the order. */
  lemma MulMonotone(a: nat, b: nat, c: nat)
    requires a <= b
    ensures a * c <= b * c
  {
  }

  /** On naturals, squaring preserves and reflects the strict order. */
  lemma SquareOrder(a: nat, b: nat)
    ensures a < b <==> a * a < b * b
  {
    if a < b {
      MulMonotone(a, b, a);
      MulMonotone(a + 1, b, b);
      assert a * a <= b * a;
      assert (a + 1) * b <= b * b;
    } else {
      MulMonotone(b, a, b);
      MulMonotone(b, a, a);
      assert b * b <= a * b;
    }
  }

  lemma AbsSquare(a: int)
    ensures Abs(a) * Abs(a) == a * a
  {
  }

  /** The floor root of a sum of two squares lies between the larger of the
      two roots and their sum. */
  lemma RootOfSumOfSquares(a: nat, b: nat, r: nat)
    requires r * r <= a * a + b * b < (r + 1) * (r + 1)
    ensures a <= r && b <= r && r <= a + b
  {
    SquareOrder(a, r + 1);
    SquareOrder(b, r + 1);
    SquareOrder(a + b, r);
    assert a * b >= 0 by { MulMonotone(0, a, b); }
    assert (a + b) * (a + b) == a * a + 2 * (a * b) + b * b;
  }

  /** The circle radius lies between the larger of the two offsets and their
      sum, and is 0 exactly when the two points coincide. */
  lemma CircleRadiusBounds(start: Pos, end: Pos)
    ensures Max(Abs(end.x - start.x), Abs(end.y - start.y)) <= CircleRadius(start, end)
    ensures CircleRadius(start, end) <= Abs(end.x - start.x) + Abs(end.y - start.y)
    ensures CircleRadius(start, end) == 0 <==> start == end
  {
    AbsSquare(end.x - start.x);
    AbsSquare(end.y - start.y);
    RootOfSumOfSquares(Abs(end.x - start.x), Abs(end.y - start.y), CircleRadius(start, end));
  }

  /** The rectangle does not depend on the direction of the drag. */
  lemma RectanglePreviewSymmetric(start: Pos, end: Pos, width: int, color: Color)
    ensures RectanglePreview(start, end, width, color) == RectanglePreview(end, start, width, color)
    ensures RectanglePreview(start, end, width, color)
         == RectanglePreview(Pos(start.x, end.y), Pos(end.x, start.y), width, color)
  {
  }

  /** The apex column does not depend on which end of the base the drag started at. */
  lemma TriangleApexSymmetric(start: Pos, end: Pos)
    ensures TriangleVertices(start, end)[0].x == TriangleVertices(Pos(end.x, start.y), Pos(start.x, end.y))[0].x
  {
  }

  /** The drag from (0, 0) to (100, 50) gives the vertices (50, 0), (0, 50), (100, 50). */
  lemma TriangleExample()
    ensures TriangleVertices(Pos(0, 0), Pos(100, 50)) == [Pos(50, 0), Pos(0, 50), Pos(100, 50)]
  {
  }
}
