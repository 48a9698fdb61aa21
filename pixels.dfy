/**
  * Pixel-level vocabulary shared by the canvas engine: RGB colours, surface
  * coordinates, full-surface images (the value a snapshot holds) and the
  * application of a batch of pixel writes to an image.
  */
module Pixels {

  datatype Option<T> = None | Some(value: T)

  /** One colour channel. */
  newtype byte = x: int | 0 <= x < 256

  /** A pixel colour. Only the red, green and blue channels take part in any
      comparison the engine makes, so the alpha channel is not represented. */
  datatype Color = RGB(r: byte, g: byte, b: byte)

  const WHITE: Color := RGB(255, 255, 255)
  const BLACK: Color := RGB(0, 0, 0)

  /** Window size and the height of the toolbar band at the top of it. */
  const WIDTH: nat := 900
  const HEIGHT: nat := 650
  const TOOLBAR_HEIGHT: int := 160

  /** A point in full-surface coordinates (x grows rightwards, y downwards). */
  datatype Pos = Pos(x: int, y: int)

  /** A full-surface image as a sequence of rows: `img[y][x]` is the pixel at (x, y). */
  type Image = seq<seq<Color>>

  predicate IsImage(img: Image, w: nat, h: nat)
  {
    |img| == h && forall y :: 0 <= y < h ==> |img[y]| == w
  }

  predicate InBounds(w: nat, h: nat, p: Pos)
  {
    0 <= p.x < w && 0 <= p.y < h
  }

  /** The colour of `img` at `p`. */
  function At(img: Image, w: nat, h: nat, p: Pos): Color
    requires IsImage(img, w, h) && InBounds(w, h, p)
  {
    img[p.y][p.x]
  }

  /** An image of one colour everywhere (what `fill` leaves on a surface). */
  function Plain(w: nat, h: nat, c: Color): (r: Image)
    ensures IsImage(r, w, h)
    ensures forall p :: InBounds(w, h, p) ==> At(r, w, h, p) == c
  {
    seq(h, y => seq(w, x => c))
  }

  /** `img` with every write of `writes` that falls on the surface applied;
      writes outside the surface are clipped away, as a drawing routine
      clips to its target surface. */
  function Stamp(img: Image, w: nat, h: nat, writes: map<Pos, Color>): (r: Image)
    requires IsImage(img, w, h)
    ensures IsImage(r, w, h)
    ensures forall p :: InBounds(w, h, p) ==>
      At(r, w, h, p) == if p in writes then writes[p] else At(img, w, h, p)
  {
    seq(h, y requires 0 <= y < h =>
      seq(w, x requires 0 <= x < w =>
        if Pos(x, y) in writes then writes[Pos(x, y)] else img[y][x]))
  }

  /** Two images of the same size are equal once they agree at every pixel. */
  lemma SameImage(a: Image, b: Image, w: nat, h: nat)
    requires IsImage(a, w, h) && IsImage(b, w, h)
    requires forall p :: InBounds(w, h, p) ==> At(a, w, h, p) == At(b, w, h, p)
    ensures a == b
  {
    forall y | 0 <= y < h
      ensures a[y] == b[y]
    {
      forall x | 0 <= x < w
        ensures a[y][x] == b[y][x]
      {
        assert At(a, w, h, Pos(x, y)) == At(b, w, h, Pos(x, y));
      }
    }
  }
}
