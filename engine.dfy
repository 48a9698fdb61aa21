/**
  * The live drawing surface and its undo/redo history. The screen is an
  * array of pixels changed in place; snapshots are immutable image values
  * copied out of it. Every method is proved against a function of the old
  * state: the history methods against module History, the flood fill against
  * FillSpec.Filled.
  */
module Engine {
  import opened Pixels
  import opened FillSpec
  import H = History

  /** A subset is no larger than its superset. */
  lemma {:induction false} SubsetCardinality<T>(a: set<T>, b: set<T>)
    requires a <= b
    ensures |a| <= |b|
    decreases a
  {
    if a != {} {
      var x :| x in a;
      SubsetCardinality(a - {x}, b - {x});
    }
  }

  class Canvas {
    const width: nat
    const height: nat
    /** `pix[x, y]` is the pixel at column x, row y. */
    const pix: array2<Color>
    /** Oldest first; the last element is the top of the stack. */
    var undo: seq<Image>
    /** Most recently undone last. */
    var redo: seq<Image>

    ghost predicate Valid()
      reads this
    {
      && pix.Length0 == width && pix.Length1 == height
      && (forall i :: 0 <= i < |undo| ==> IsImage(undo[i], width, height))
      && (forall i :: 0 <= i < |redo| ==> IsImage(redo[i], width, height))
      && |undo| + |redo| <= H.MAX_UNDO + 1
    }

    /** The screen as an image value: what `screen.copy()` captures. */
    function Screen(): (s: Image)
      reads pix
      requires pix.Length0 == width && pix.Length1 == height
      ensures IsImage(s, width, height)
      ensures forall x, y :: 0 <= x < width && 0 <= y < height ==> s[y][x] == pix[x, y]
    {
      seq(height, y requires 0 <= y < height reads pix =>
        seq(width, x requires 0 <= x < width reads pix => pix[x, y]))
    }

    /** The screen together with both stacks. */
    function State(): (h: H.History<Image>)
      reads this, pix
      requires Valid()
      ensures H.Bounded(h)
    {
      H.History(Screen(), undo, redo)
    }

    /** A white screen with empty history. */
    constructor (w: nat, h: nat)
      ensures Valid() && fresh(pix)
      ensures width == w && height == h
      ensures Screen() == Plain(w, h, WHITE) && undo == [] && redo == []
    {
      width, height := w, h;
      pix := new Color[w, h]((x, y) => WHITE);
      undo, redo := [], [];
      new;
      SameImage(Screen(), Plain(w, h, WHITE), w, h);
    }

    /** `screen.blit(s, (0, 0))` with an image of the screen's size. */
    method Blit(s: Image)
      requires Valid() && IsImage(s, width, height)
      modifies pix
      ensures Valid() && Screen() == s
    {
      forall x, y | 0 <= x < width && 0 <= y < height {
        pix[x, y] := s[y][x];
      }
      SameImage(Screen(), s, width, height);
    }

    /** Applies the pixel writes a drawing call produces, clipped to the screen. */
    method Apply(writes: map<Pos, Color>)
      requires Valid()
      modifies pix
      ensures Valid() && Screen() == Stamp(old(Screen()), width, height, writes)
    {
      ghost var before := Screen();
      forall x, y | 0 <= x < width && 0 <= y < height && Pos(x, y) in writes {
        pix[x, y] := writes[Pos(x, y)];
      }
      SameImage(Screen(), Stamp(before, width, height, writes), width, height);
    }

    /** `screen.fill(c)`. */
    method FillScreen(c: Color)
      requires Valid()
      modifies pix
      ensures Valid() && Screen() == Plain(width, height, c)
    {
      Blit(Plain(width, height, c));
    }

    /** `save_snapshot`. */
    method SaveSnapshot()
      requires Valid()
      modifies this
      ensures Valid() && State() == H.Snapshot(old(State()))
    {
      if |undo| > H.MAX_UNDO {
        undo := undo[1..];
      }
      undo := undo + [Screen()];
      redo := [];
    }

    /** `perform_undo`. */
    method Undo()
      requires Valid()
      modifies this, pix
      ensures Valid() && State() == H.Undo(old(State()))
    {
      if undo != [] {
        redo := redo + [Screen()];
        var top := undo[|undo| - 1];
        undo := undo[..|undo| - 1];
        Blit(top);
      }
    }

    /** `perform_redo`. */
    method Redo()
      requires Valid()
      modifies this, pix
      ensures Valid() && State() == H.Redo(old(State()))
    {
      if redo != [] {
        undo := undo + [Screen()];
        var top := redo[|redo| - 1];
        redo := redo[..|redo| - 1];
        Blit(top);
      }
    }

    /** Bookkeeping of a fill in progress from `seed` over the original image
        `g0`: the seed has been visited, and every visited coordinate is a
        drawable pixel of the seed's region. */
    ghost predicate Frontier(g0: Image, seed: Pos, target: Color, visited: set<Pos>)
      requires IsImage(g0, width, height)
    {
      && InBounds(width, height, seed) && At(g0, width, height, seed) == target
      && seed in visited
      && (forall q :: q in visited ==> Drawable(width, height, q) && Connected(g0, width, height, seed, q))
    }

    /** The queue never holds a coordinate twice. */
    ghost predicate Distinct(queue: seq<Pos>)
    {
      forall i, j :: 0 <= i < j < |queue| ==> queue[i] != queue[j]
    }

    /** Once the coordinates taken from the queue (`done`) are closed under
        stepping to a same-coloured side neighbour, they are exactly the
        seed's region. */
    lemma DoneIsRegion(g0: Image, seed: Pos, target: Color, visited: set<Pos>, done: set<Pos>)
      requires IsImage(g0, width, height) && Frontier(g0, seed, target, visited)
      requires seed in done && done <= visited
      requires forall q, i ::
        (q in done && 0 <= i < 4 && Drawable(width, height, Neighbour(q, i))
         && At(g0, width, height, Neighbour(q, i)) == target)
        ==> Neighbour(q, i) in done
      ensures forall q :: q in done <==> Connected(g0, width, height, seed, q)
    {
      assert Closed(g0, width, height, target, done);
      forall q | Connected(g0, width, height, seed, q)
        ensures q in done
      {
        ClosedSetHoldsRegion(g0, width, height, seed, done, q);
      }
    }

    /** The inner loop of `flood_fill`: examines the four side neighbours of
        `p`, just taken from the queue, and enqueues (and marks visited) each
        drawable one that is not yet visited and still has the target colour.
        Exactly the newly visited coordinates are appended to the queue, and
        afterwards every drawable neighbour of `p` with the original target
        colour is visited. */
    method EnqueueNeighbours(ghost g0: Image, seed: Pos, target: Color, p: Pos,
                             queue: seq<Pos>, visited: set<Pos>)
      returns (queue': seq<Pos>, visited': set<Pos>)
      requires pix.Length0 == width && pix.Length1 == height && IsImage(g0, width, height)
      requires Frontier(g0, seed, target, visited) && p in visited
      requires Distinct(queue) && forall q :: q in queue ==> q in visited
      requires forall q :: Drawable(width, height, q) && q !in visited ==> pix[q.x, q.y] == At(g0, width, height, q)
      ensures Frontier(g0, seed, target, visited')
      ensures Distinct(queue') && |queue| <= |queue'| && queue'[..|queue|] == queue
      ensures forall q :: q in queue' <==> q in queue || (q in visited' && q !in visited)
      ensures visited <= visited' && |visited'| - |visited| == |queue'| - |queue|
      ensures forall j ::
        (0 <= j < 4 && Drawable(width, height, Neighbour(p, j)) && At(g0, width, height, Neighbour(p, j)) == target)
        ==> Neighbour(p, j) in visited'
    {
      queue', visited' := queue, visited;
      for i := 0 to 4
        invariant Frontier(g0, seed, target, visited')
        invariant Distinct(queue') && |queue| <= |queue'| && queue'[..|queue|] == queue
        invariant forall q :: q in queue' <==> q in queue || (q in visited' && q !in visited)
        invariant visited <= visited' && |visited'| - |visited| == |queue'| - |queue|
        invariant forall j ::
          (0 <= j < i && Drawable(width, height, Neighbour(p, j)) && At(g0, width, height, Neighbour(p, j)) == target)
          ==> Neighbour(p, j) in visited'
      {
        var (dx, dy) := STEPS[i];
        var n := Pos(p.x + dx, p.y + dy);
        assert n == Neighbour(p, i);
        ghost var seen := visited';
        if 0 <= n.x < width && TOOLBAR_HEIGHT < n.y < height {
          if n !in visited' && pix[n.x, n.y] == target {
            NeighbourAdjacent(p, i);
            ConnectedStep(g0, width, height, seed, p, n);
            visited' := visited' + {n};
            queue' := queue' + [n];
          }
        }
        forall j | 0 <= j < i + 1 && Drawable(width, height, Neighbour(p, j))
            && At(g0, width, height, Neighbour(p, j)) == target
          ensures Neighbour(p, j) in visited'
        {
          if j == i && n !in seen {
            assert pix[n.x, n.y] == At(g0, width, height, n);
          }
        }
      }
    }

    /** The state of the fill's main loop: `done` holds the coordinates
        already taken from the queue, which are exactly the recoloured pixels;
        every visited coordinate is either done or waiting in the queue, once;
        and each done pixel has had its same-coloured side neighbours visited. */
    ghost predicate Progress(g0: Image, seed: Pos, target: Color, rep: Color,
                             queue: seq<Pos>, visited: set<Pos>, done: set<Pos>)
      reads pix
      requires IsImage(g0, width, height)
    {
      && pix.Length0 == width && pix.Length1 == height
      && Frontier(g0, seed, target, visited)
      && Distinct(queue)
      && (forall q :: q in visited <==> q in done || q in queue)
      && (forall q :: q in done ==> q !in queue)
      && (forall x, y :: 0 <= x < width && 0 <= y < height ==>
            pix[x, y] == if Pos(x, y) in done then rep else g0[y][x])
      && (forall q, i ::
            (q in done && 0 <= i < 4 && Drawable(width, height, Neighbour(q, i))
             && At(g0, width, height, Neighbour(q, i)) == target)
            ==> Neighbour(q, i) in visited)
    }

    /** One round of the fill's main loop: take the head of the queue,
        recolour it, and enqueue its neighbours. Every round either visits
        new coordinates or shortens the queue. */
    method TakeHead(ghost g0: Image, seed: Pos, target: Color, rep: Color,
                    queue: seq<Pos>, visited: set<Pos>, ghost done: set<Pos>)
      returns (queue': seq<Pos>, visited': set<Pos>, ghost done': set<Pos>)
      requires IsImage(g0, width, height) && queue != []
      requires Progress(g0, seed, target, rep, queue, visited, done)
      modifies pix
      ensures Progress(g0, seed, target, rep, queue', visited', done')
      ensures visited <= visited' && |visited'| - |visited| == |queue'| - |queue| + 1
      ensures |queue'| >= |queue| - 1
    {
      var p := queue[0];
      var rest := queue[1..];
      assert p in visited && Drawable(width, height, p);
      pix[p.x, p.y] := rep;
      done' := done + {p};
      assert forall q :: q in rest ==> q in queue && q != p;
      queue', visited' := EnqueueNeighbours(g0, seed, target, p, rest, visited);
    }

    /** `flood_fill(screen, seed, rep)`: breadth-first, 4-connected recolouring
        of the seed's region below the toolbar band; the screen ends up as
        `Filled` describes, with every other pixel untouched. */
    method FloodFill(seed: Pos, rep: Color)
      requires Valid()
      modifies pix
      ensures Valid() && Screen() == Filled(old(Screen()), width, height, seed, rep)
    {
      ghost var g0 := Screen();
      if seed.y <= TOOLBAR_HEIGHT {
        return;
      }
      if !(0 <= seed.x < width && 0 <= seed.y < height) {
        // reading the seed's colour fails: the fill gives up
        return;
      }
      var target := pix[seed.x, seed.y];
      if target == rep {
        return;
      }
      ghost var area := set x: int, y: int | 0 <= x < width && TOOLBAR_HEIGHT < y < height :: Pos(x, y);
      var queue := [seed];
      var visited := {seed};
      ghost var done: set<Pos> := {};
      SeedConnected(g0, width, height, seed);
      SubsetCardinality(visited, area);
      while queue != []
        invariant Progress(g0, seed, target, rep, queue, visited, done)
        invariant visited <= area && |visited| <= |area|
        decreases |area| - |visited|, |queue|
      {
        queue, visited, done := TakeHead(g0, seed, target, rep, queue, visited, done);
        forall q | q in visited
          ensures q in area
        {
          assert Drawable(width, height, q);
        }
        SubsetCardinality(visited, area);
      }
      DoneIsRegion(g0, seed, target, visited, done);
      SameImage(Screen(), Filled(g0, width, height, seed, rep), width, height);
    }
  }
}
