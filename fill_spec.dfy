/**
  * What a flood fill means, stated on image values: the region of a fill is
  * every drawable pixel joined to the seed by a 4-connected path of pixels
  * that have the seed's colour, and the filled image recolours exactly that
  * region. The in-place breadth-first fill of the canvas class is proved to
  * produce `Filled`; the lemmas below say what `Filled` guarantees.
  */
module FillSpec {
  import opened Pixels

  /** The area a fill may touch: on the surface and strictly below the toolbar band. */
  predicate Drawable(w: nat, h: nat, p: Pos)
  {
    0 <= p.x < w && TOOLBAR_HEIGHT < p.y < h
  }

  /** The four neighbour offsets, in the order the fill examines them. */
  const STEPS: seq<(int, int)> := [(1, 0), (-1, 0), (0, 1), (0, -1)]

  function Neighbour(p: Pos, i: nat): Pos
    requires i < 4
  {
    Pos(p.x + STEPS[i].0, p.y + STEPS[i].1)
  }

  /** Each of the four offsets leads to an adjacent pixel. */
  lemma NeighbourAdjacent(p: Pos, i: nat)
    requires i < 4
    ensures Adjacent(p, Neighbour(p, i))
  {
  }

  /** Horizontal or vertical contact; diagonal contact is not adjacency. */
  predicate Adjacent(p: Pos, q: Pos)
  {
    || (p.x == q.x && (p.y + 1 == q.y || q.y + 1 == p.y))
    || (p.y == q.y && (p.x + 1 == q.x || q.x + 1 == p.x))
  }

  /** The offset that leads from `p` to an adjacent `q`. */
  function DirectionTo(p: Pos, q: Pos): (i: nat)
    requires Adjacent(p, q)
    ensures i < 4 && Neighbour(p, i) == q
  {
    if q.x == p.x + 1 then 0
    else if q.x + 1 == p.x then 1
    else if q.y == p.y + 1 then 2
    else 3
  }

  /** A non-empty 4-connected walk through drawable pixels of colour `target`. */
  ghost predicate IsPath(img: Image, w: nat, h: nat, target: Color, path: seq<Pos>)
    requires IsImage(img, w, h)
  {
    && |path| > 0
    && (forall k :: 0 <= k < |path| ==> Drawable(w, h, path[k]) && At(img, w, h, path[k]) == target)
    && (forall i, j :: 0 <= i && j == i + 1 && j < |path| ==> Adjacent(path[i], path[j]))
  }

  /** `p` lies in the fill region of `seed`: some walk of the seed's colour leads there. */
  ghost predicate Connected(img: Image, w: nat, h: nat, seed: Pos, p: Pos)
    requires IsImage(img, w, h)
  {
    && InBounds(w, h, seed)
    && exists path :: IsPath(img, w, h, At(img, w, h, seed), path) && path[0] == seed && path[|path| - 1] == p
  }

  /** The three early exits of the fill, in their order: a seed in the toolbar
      band, a seed off the surface, a seed that already has the colour. */
  predicate FillApplies(img: Image, w: nat, h: nat, seed: Pos, rep: Color)
    requires IsImage(img, w, h)
  {
    TOOLBAR_HEIGHT < seed.y && InBounds(w, h, seed) && At(img, w, h, seed) != rep
  }

  /** The image a fill from `seed` with colour `rep` leaves behind. */
  ghost function Filled(img: Image, w: nat, h: nat, seed: Pos, rep: Color): (r: Image)
    requires IsImage(img, w, h)
    ensures IsImage(r, w, h)
    ensures forall p :: InBounds(w, h, p) ==>
      At(r, w, h, p) == if FillApplies(img, w, h, seed, rep) && Connected(img, w, h, seed, p) then rep else At(img, w, h, p)
  {
    if !FillApplies(img, w, h, seed, rep) then img
    else
      seq(h, y requires 0 <= y < h =>
        seq(w, x requires 0 <= x < w =>
          if Connected(img, w, h, seed, Pos(x, y)) then rep else img[y][x]))
  }

  /** A set that holds, with each of its pixels, every drawable neighbour of colour `target`. */
  ghost predicate Closed(img: Image, w: nat, h: nat, target: Color, s: set<Pos>)
    requires IsImage(img, w, h)
  {
    forall q, i :: q in s && 0 <= i < 4 && Drawable(w, h, Neighbour(q, i)) && At(img, w, h, Neighbour(q, i)) == target
      ==> Neighbour(q, i) in s
  }

  /** Every pixel of the region lies in the seed's region colour and in the drawable area. */
  lemma ConnectedIsDrawable(img: Image, w: nat, h: nat, seed: Pos, p: Pos)
    requires IsImage(img, w, h)
    requires Connected(img, w, h, seed, p)
    ensures Drawable(w, h, p) && At(img, w, h, p) == At(img, w, h, seed)
  {
    var path :| IsPath(img, w, h, At(img, w, h, seed), path) && path[0] == seed && path[|path| - 1] == p;
    assert Drawable(w, h, path[|path| - 1]);
  }

  /** The seed itself is in its region whenever it is drawable. */
  lemma SeedConnected(img: Image, w: nat, h: nat, seed: Pos)
    requires IsImage(img, w, h) && Drawable(w, h, seed)
    ensures Connected(img, w, h, seed, seed)
  {
    assert IsPath(img, w, h, At(img, w, h, seed), [seed]);
  }

  /** The region grows across every side (never a corner) of one of its pixels
      onto a drawable pixel of the seed's colour. */
  lemma ConnectedStep(img: Image, w: nat, h: nat, seed: Pos, p: Pos, q: Pos)
    requires IsImage(img, w, h)
    requires Connected(img, w, h, seed, p) && Adjacent(p, q)
    requires Drawable(w, h, q) && At(img, w, h, q) == At(img, w, h, seed)
    ensures Connected(img, w, h, seed, q)
  {
    var target := At(img, w, h, seed);
    var path :| IsPath(img, w, h, target, path) && path[0] == seed && path[|path| - 1] == p;
    var longer := path + [q];
    assert IsPath(img, w, h, target, longer);
  }

  /** Every pixel along a walk from a seed inside a closed set stays inside it. */
  lemma {:induction false} PathStaysInClosed(img: Image, w: nat, h: nat, target: Color, s: set<Pos>, path: seq<Pos>, k: nat)
    requires IsImage(img, w, h)
    requires IsPath(img, w, h, target, path) && path[0] in s
    requires Closed(img, w, h, target, s)
    requires k < |path|
    ensures path[k] in s
    decreases k
  {
    if k > 0 {
      PathStaysInClosed(img, w, h, target, s, path, k - 1);
      var i := DirectionTo(path[k - 1], path[k]);
      assert Neighbour(path[k - 1], i) == path[k];
    }
  }

  /** A fill never leaks past a barrier: any set that holds the seed and is
      closed under stepping to a same-coloured side neighbour holds the whole
      region. With a set bounded by pixels of another colour (or by pixels
      touching it only at corners) this is the statement that the fill stops there. */
  lemma ClosedSetHoldsRegion(img: Image, w: nat, h: nat, seed: Pos, s: set<Pos>, p: Pos)
    requires IsImage(img, w, h) && InBounds(w, h, seed)
    requires seed in s && Closed(img, w, h, At(img, w, h, seed), s)
    requires Connected(img, w, h, seed, p)
    ensures p in s
  {
    var target := At(img, w, h, seed);
    var path :| IsPath(img, w, h, target, path) && path[0] == seed && path[|path| - 1] == p;
    PathStaysInClosed(img, w, h, target, s, path, |path| - 1);
  }

  /** The fill is a no-op when the seed is in the toolbar band, off the surface,
      or already has the replacement colour. */
  lemma FillNoOp(img: Image, w: nat, h: nat, seed: Pos, rep: Color)
    requires IsImage(img, w, h)
    requires seed.y <= TOOLBAR_HEIGHT || !InBounds(w, h, seed) || At(img, w, h, seed) == rep
    ensures Filled(img, w, h, seed, rep) == img
  {
  }

  /** Soundness: a pixel the fill changes is drawable, had the seed's colour,
      is joined to the seed by a 4-connected walk of that colour, and now has
      the replacement colour. In particular nothing in the toolbar band changes. */
  lemma FillSound(img: Image, w: nat, h: nat, seed: Pos, rep: Color, p: Pos)
    requires IsImage(img, w, h) && InBounds(w, h, p)
    requires At(Filled(img, w, h, seed, rep), w, h, p) != At(img, w, h, p)
    ensures Drawable(w, h, p) && TOOLBAR_HEIGHT < p.y
    ensures InBounds(w, h, seed) && At(img, w, h, p) == At(img, w, h, seed)
    ensures Connected(img, w, h, seed, p)
    ensures At(Filled(img, w, h, seed, rep), w, h, p) == rep
  {
    ConnectedIsDrawable(img, w, h, seed, p);
  }

  /** Completeness: every pixel along any walk of the seed's colour from the
      seed ends with the replacement colour. */
  lemma FillComplete(img: Image, w: nat, h: nat, seed: Pos, rep: Color, path: seq<Pos>, k: nat)
    requires IsImage(img, w, h) && FillApplies(img, w, h, seed, rep)
    requires IsPath(img, w, h, At(img, w, h, seed), path) && path[0] == seed
    requires k < |path|
    ensures At(Filled(img, w, h, seed, rep), w, h, path[k]) == rep
  {
    PrefixIsPath(img, w, h, At(img, w, h, seed), path, k + 1);
    assert Connected(img, w, h, seed, path[k]) by {
      assert path[..k + 1][0] == seed && path[..k + 1][k] == path[k];
    }
  }

  /** A non-empty prefix of a walk is a walk. */
  lemma PrefixIsPath(img: Image, w: nat, h: nat, target: Color, path: seq<Pos>, n: nat)
    requires IsImage(img, w, h) && IsPath(img, w, h, target, path)
    requires 0 < n <= |path|
    ensures IsPath(img, w, h, target, path[..n])
  {
    var prefix := path[..n];
    assert forall k :: 0 <= k < n ==> prefix[k] == path[k];
  }

  /** No diagonal leakage: when none of the seed's four side neighbours is a
      drawable pixel of its colour, the fill changes the seed and nothing else,
      whatever touches the seed at its corners. */
  lemma FillIsolatedSeed(img: Image, w: nat, h: nat, seed: Pos, rep: Color, p: Pos)
    requires IsImage(img, w, h) && InBounds(w, h, seed) && InBounds(w, h, p)
    requires forall i :: 0 <= i < 4 && Drawable(w, h, Neighbour(seed, i)) ==>
      At(img, w, h, Neighbour(seed, i)) != At(img, w, h, seed)
    requires p != seed
    ensures At(Filled(img, w, h, seed, rep), w, h, p) == At(img, w, h, p)
  {
    if FillApplies(img, w, h, seed, rep) && Connected(img, w, h, seed, p) {
      ClosedSetHoldsRegion(img, w, h, seed, {seed}, p);
      assert false;
    }
  }

  /** Filling twice from the same seed with the same colour changes nothing
      the second time. */
  lemma FillIdempotent(img: Image, w: nat, h: nat, seed: Pos, rep: Color)
    requires IsImage(img, w, h)
    ensures Filled(Filled(img, w, h, seed, rep), w, h, seed, rep) == Filled(img, w, h, seed, rep)
  {
    if FillApplies(img, w, h, seed, rep) {
      SeedConnected(img, w, h, seed);
    }
  }
}
