/**
  * The undo/redo history as a value: the live screen and two stacks of
  * full-screen snapshots (the last element of each sequence is its top).
  * The canvas class proves its methods against these functions; the
  * properties of the history itself are proved here once.
  */
module History {

  /** `len(undo_stack) > MAX_UNDO` triggers eviction of the oldest entry. */
  const MAX_UNDO: nat := 50

  datatype History<T> = History(screen: T, undo: seq<T>, redo: seq<T>)

  /** The bound the two stacks keep together: the undo stack may reach
      MAX_UNDO + 1 entries because eviction is checked before the push. */
  predicate Bounded<T>(h: History<T>)
  {
    |h.undo| + |h.redo| <= MAX_UNDO + 1
  }

  /** `save_snapshot`: drop the oldest entry when more than MAX_UNDO are held,
      push a copy of the screen, forget every redo state. */
  function Snapshot<T>(h: History<T>): (r: History<T>)
    ensures r.screen == h.screen && r.redo == []
    ensures |r.undo| > 0 && r.undo[|r.undo| - 1] == h.screen
    ensures |r.undo| == if |h.undo| > MAX_UNDO then |h.undo| else |h.undo| + 1
    // what is kept below the new top is the newest part of the old stack
    ensures r.undo[..|r.undo| - 1] == h.undo[|h.undo| + 1 - |r.undo|..]
  {
    var kept := if |h.undo| > MAX_UNDO then h.undo[1..] else h.undo;
    History(h.screen, kept + [h.screen], [])
  }

  /** `perform_undo`: nothing on an empty undo stack; otherwise the screen is
      pushed on the redo stack and the top undo snapshot becomes the screen. */
  function Undo<T>(h: History<T>): (r: History<T>)
    ensures |r.undo| + |r.redo| == |h.undo| + |h.redo|
    ensures h.undo == [] ==> r == h
    ensures h.undo != [] ==>
      && r.screen == h.undo[|h.undo| - 1]
      && r.undo + [r.screen] == h.undo
      && r.redo == h.redo + [h.screen]
  {
    if h.undo == [] then h
    else History(h.undo[|h.undo| - 1], h.undo[..|h.undo| - 1], h.redo + [h.screen])
  }

  /** `perform_redo`: the mirror of Undo; the push on the undo stack is not
      capped. */
  function Redo<T>(h: History<T>): (r: History<T>)
    ensures |r.undo| + |r.redo| == |h.undo| + |h.redo|
    ensures h.redo == [] ==> r == h
    ensures h.redo != [] ==>
      && r.screen == h.redo[|h.redo| - 1]
      && r.redo + [r.screen] == h.redo
      && r.undo == h.undo + [h.screen]
  {
    if h.redo == [] then h
    else History(h.redo[|h.redo| - 1], h.undo + [h.screen], h.redo[..|h.redo| - 1])
  }

  /** Replace the live screen (any drawing operation between snapshots). */
  function WithScreen<T>(h: History<T>, s: T): (r: History<T>)
    ensures r.screen == s && r.undo == h.undo && r.redo == h.redo
  {
    h.(screen := s)
  }

  /** Undo applied `k` times. */
  function UndoTimes<T>(h: History<T>, k: nat): History<T>
    decreases k
  {
    if k == 0 then h else UndoTimes(Undo(h), k - 1)
  }

  /** Every history operation keeps the two stacks within their joint bound,
      although Redo pushes on the undo stack without any cap check. */
  lemma OperationsKeepBound<T>(h: History<T>, s: T)
    requires Bounded(h)
    ensures Bounded(Snapshot(h)) && Bounded(Undo(h)) && Bounded(Redo(h))
    ensures Bounded(WithScreen(h, s))
    ensures |Snapshot(h).undo| <= MAX_UNDO + 1
  {
  }

  /** Undo followed by Redo restores the screen and both stacks exactly. */
  lemma UndoThenRedo<T>(h: History<T>)
    requires h.undo != []
    ensures Redo(Undo(h)) == h
  {
    var u := Undo(h);
    assert u.undo + [u.screen] == h.undo;
  }

  /** Redo followed by Undo restores the screen and both stacks exactly. */
  lemma RedoThenUndo<T>(h: History<T>)
    requires h.redo != []
    ensures Undo(Redo(h)) == h
  {
    var r := Redo(h);
    assert r.redo + [r.screen] == h.redo;
  }

  /** A new snapshot leaves nothing to redo. */
  lemma RedoAfterSnapshotChangesNothing<T>(h: History<T>, s: T)
    ensures Redo(WithScreen(Snapshot(h), s)) == WithScreen(Snapshot(h), s)
  {
  }

  /** Snapshot, then draw: an undo brings back the screen from before the
      drawing, and a redo brings the drawing back. */
  lemma SnapshotDrawUndoRedo<T>(h: History<T>, s: T)
    ensures Undo(WithScreen(Snapshot(h), s)).screen == h.screen
    ensures Redo(Undo(WithScreen(Snapshot(h), s))).screen == s
    ensures Undo(WithScreen(Snapshot(h), s)).redo == [s]
  {
  }

  /** Undoing `k` times walks down the undo stack: the screen becomes the
      k-th newest snapshot, so every snapshot still held (in particular the
      newest MAX_UNDO after an eviction) can be retrieved. */
  lemma {:induction false} UndoTimesRetrieves<T>(h: History<T>, k: nat)
    requires 1 <= k <= |h.undo|
    ensures UndoTimes(h, k).screen == h.undo[|h.undo| - k]
    ensures UndoTimes(h, k).undo == h.undo[..|h.undo| - k]
    decreases k
  {
    var u := Undo(h);
    assert u.undo == h.undo[..|h.undo| - 1];
    if k > 1 {
      UndoTimesRetrieves(u, k - 1);
    }
  }
}
