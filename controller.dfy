/**
  * The event handling of the paint program: brush and shape drags, fills,
  * the text session, the keyboard shortcuts and clicks in the toolbar.
  * `Session` holds the program's interaction state. The pure functions below
  * say what each event does to it and to the canvas history; class `Paint`
  * performs the events in place on a `Canvas` and is proved to agree with them.
  */
module Controller {
  import opened Pixels
  import opened Geometry
  import opened FillSpec
  import opened TextInput
  import opened Toolbar
  import opened Engine
  import H = History

  /** The keys the program reacts to; every other key is `OtherKey`. */
  datatype Key =
    | ReturnKey | BackspaceKey | EscapeKey
    | LetterC | LetterZ | LetterY
    | EqualsKey | KeypadPlus | MinusKey | KeypadMinus
    | OtherKey

  /** One input event. `unicode` is the character a key produces, `ctrl`
      whether a Control modifier is held, and `wheelColor` the colour the
      colour wheel shows under the pointer. */
  datatype Event =
    | KeyDown(key: Key, unicode: string, ctrl: bool)
    | MouseDown(button: int, pos: Pos, wheelColor: Color)
    | MouseUp(button: int)
    | MouseMotion(pos: Pos)

  /** The interaction state besides the canvas. */
  datatype Session = Session(
    drawing: bool, startPos: Option<Pos>, lastPos: Option<Pos>,
    brushColor: Color, brushSize: int, eraserMode: bool, tool: Tool,
    typing: bool, textInput: string, textPos: Pos)

  /** The state the program starts in. */
  const START: Session := Session(false, None, None, BLACK, 5, false, Brush, false, "", Pos(0, 0))

  /** What the interaction state always satisfies: the brush size is within
      its range, the text buffer holds printable characters and is empty
      outside a text session, and a drag knows where it started. */
  predicate SessionOk(s: Session)
  {
    && MIN_BRUSH <= s.brushSize <= MAX_BRUSH
    && AllPrintable(s.textInput)
    && (!s.typing ==> s.textInput == "")
    && (s.drawing ==> s.startPos.Some? && s.lastPos.Some?)
  }

  /** A history whose screen and snapshots all have the window's size. */
  predicate Sized(h: H.History<Image>)
  {
    && IsImage(h.screen, WIDTH, HEIGHT)
    && (forall i :: 0 <= i < |h.undo| ==> IsImage(h.undo[i], WIDTH, HEIGHT))
    && (forall i :: 0 <= i < |h.redo| ==> IsImage(h.redo[i], WIDTH, HEIGHT))
  }

  /** Every history operation keeps every image the window's size. */
  lemma OperationsKeepSized(h: H.History<Image>, screen: Image)
    requires Sized(h) && IsImage(screen, WIDTH, HEIGHT)
    ensures Sized(H.Snapshot(h)) && Sized(H.Undo(h)) && Sized(H.Redo(h))
    ensures Sized(H.WithScreen(h, screen))
  {
    var r := H.Snapshot(h);
    var k := |h.undo| + 1 - |r.undo|;
    forall i | 0 <= i < |r.undo| - 1
      ensures IsImage(r.undo[i], WIDTH, HEIGHT)
    {
      assert r.undo[i] == r.undo[..|r.undo| - 1][i] == h.undo[k..][i];
    }
    var u := H.Undo(h);
    if h.undo != [] {
      forall i | 0 <= i < |u.undo|
        ensures IsImage(u.undo[i], WIDTH, HEIGHT)
      {
        assert u.undo[i] == (u.undo + [u.screen])[i];
      }
      assert u.redo[|u.redo| - 1] == h.screen;
      assert forall i :: 0 <= i < |h.redo| ==> u.redo[i] == h.redo[i];
    }
    var d := H.Redo(h);
    if h.redo != [] {
      forall i | 0 <= i < |d.redo|
        ensures IsImage(d.redo[i], WIDTH, HEIGHT)
      {
        assert d.redo[i] == (d.redo + [d.screen])[i];
      }
      assert d.undo[|d.undo| - 1] == h.screen;
      assert forall i :: 0 <= i < |h.undo| ==> d.undo[i] == h.undo[i];
    }
  }

  /** The colour strokes, shapes, fills and text use: white for the eraser. */
  function Ink(s: Session): (r: Color)
    ensures !s.eraserMode ==> r == s.brushColor
    ensures r == WHITE <==> s.eraserMode || s.brushColor == WHITE
  {
    if s.eraserMode then WHITE else s.brushColor
  }

  /** The rendering of the text buffer at its position in the canvas font. */
  function TextMark(s: Session): Mark
  {
    Text(s.textInput, s.textPos, CanvasFontSize(s.brushSize), Ink(s))
  }

  /** `if undo_stack: screen.blit(undo_stack[-1], (0, 0))`: the screen after
      restoring the newest snapshot, if there is one. */
  function Restored(h: H.History<Image>): (r: Image)
    ensures Sized(h) ==> IsImage(r, WIDTH, HEIGHT)
  {
    if h.undo == [] then h.screen else h.undo[|h.undo| - 1]
  }

  /** The session after `commit_text` or `cancel_text`. */
  function Ended(s: Session): Session
  {
    s.(typing := false, textInput := "")
  }

  /** `commit_text` on the canvas: while typing, restore the newest snapshot;
      then, when the text is not blank, take a snapshot and stamp the text. */
  function Committed(h: H.History<Image>, s: Session, raster: Rasterizer): (r: H.History<Image>)
    requires Sized(h)
    ensures Sized(r)
  {
    if !s.typing then h
    else
      var back := H.WithScreen(h, Restored(h));
      if Strip(s.textInput) == "" then back
      else
        OperationsKeepSized(back, back.screen);
        var saved := H.Snapshot(back);
        H.WithScreen(saved, Draw(saved.screen, WIDTH, HEIGHT, raster, TextMark(s)))
  }

  /** `if typing: commit_text()`. */
  function CommitIfTyping(s: Session, h: H.History<Image>, raster: Rasterizer): (r: (Session, H.History<Image>))
    requires Sized(h)
    ensures Sized(r.1)
  {
    if s.typing then (Ended(s), Committed(h, s, raster)) else (s, h)
  }

  /** `cancel_text` on the canvas. */
  function Cancelled(h: H.History<Image>, s: Session): (r: H.History<Image>)
    requires Sized(h)
    ensures Sized(r)
  {
    if s.typing then H.WithScreen(h, Restored(h)) else h
  }

  /** A key press. */
  function OnKey(s: Session, h: H.History<Image>, key: Key, unicode: string, ctrl: bool,
                 raster: Rasterizer): (r: (Session, H.History<Image>))
    requires Sized(h)
    ensures Sized(r.1)
  {
    if s.typing then
      match key
      case ReturnKey => (Ended(s), Committed(h, s, raster))
      case BackspaceKey => (s.(textInput := Backspace(s.textInput)), h)
      case EscapeKey => (Ended(s), Cancelled(h, s))
      case _ => (s.(textInput := TypeKey(s.textInput, unicode)), h)
    else if key == LetterC then (s, H.WithScreen(H.Snapshot(h), Plain(WIDTH, HEIGHT, WHITE)))
    else if key == LetterZ && ctrl then (s, H.Undo(h))
    else if key == LetterY && ctrl then (s, H.Redo(h))
    else if key == EqualsKey || key == KeypadPlus then (s.(brushSize := Enlarge(s.brushSize)), h)
    else if key == MinusKey || key == KeypadMinus then (s.(brushSize := Shrink(s.brushSize)), h)
    else (s, h)
  }

  /** A click in the palette row at column `x`: the white swatch turns the
      eraser on, any other swatch picks its colour and turns the eraser off. */
  function PickSwatch(s: Session, x: int): (r: Session)
    ensures r == s.(brushColor := r.brushColor, eraserMode := r.eraserMode)
    ensures SwatchAt(x) == None ==> r == s
    ensures SwatchAt(x).Some? ==> Ink(r) == COLORS[SwatchAt(x).value]
  {
    match SwatchAt(x)
    case None => s
    case Some(i) =>
      if COLORS[i] == WHITE then s.(eraserMode := true)
      else s.(eraserMode := false, brushColor := COLORS[i])
  }

  /** A click in the tool row that hits `hit`: commit any text, act on the
      button (the save button changes nothing here), and turn the eraser off. */
  function OnButton(s: Session, h: H.History<Image>, hit: Option<Button>, raster: Rasterizer): (r: (Session, H.History<Image>))
    requires Sized(h)
    ensures Sized(r.1)
  {
    var (s1, h1) := CommitIfTyping(s, h, raster);
    var s2 := s1.(eraserMode := false);
    match hit
    case Some(UndoButton) => (s2, H.Undo(h1))
    case Some(RedoButton) => (s2, H.Redo(h1))
    case Some(ToolButton(t)) => (s2.(tool := t), h1)
    case _ => (s2, h1)
  }

  /** `handle_ui_click`: a left click in the toolbar band. */
  function OnToolbarClick(s: Session, h: H.History<Image>, pos: Pos, wheelColor: Color,
                          raster: Rasterizer): (r: (Session, H.History<Image>))
    requires Sized(h)
    ensures Sized(r.1)
  {
    if InWheel(pos) then (s.(brushColor := wheelColor, eraserMode := false), h)
    else if ROW2_Y <= pos.y <= ROW2_Y + 45 then OnButton(s, h, ButtonAt(pos), raster)
    else if ROW3_Y <= pos.y <= ROW3_Y + 45 then (PickSwatch(s, pos.x), h)
    else (s, h)
  }

  /** A left click on the canvas: end any text session, take a snapshot, then
      start a text session, fill, or start a drag. */
  ghost function OnCanvasClick(s: Session, h: H.History<Image>, pos: Pos,
                               raster: Rasterizer): (r: (Session, H.History<Image>))
    requires Sized(h)
    ensures Sized(r.1) && r.1.redo == []
    ensures r.0.typing <==> s.tool == TextTool
    ensures s.tool != TextTool && s.tool != Fill ==> r.0.drawing && r.0.startPos == Some(pos)
    ensures r.0.tool == s.tool && r.0.brushSize == s.brushSize
    ensures r.0.brushColor == s.brushColor && r.0.eraserMode == s.eraserMode
  {
    var (s1, h1) := CommitIfTyping(s, h, raster);
    OperationsKeepSized(h1, h1.screen);
    var h2 := H.Snapshot(h1);
    if s1.tool == TextTool then (s1.(typing := true, textInput := "", textPos := pos), h2)
    else if s1.tool == Fill then
      var filled := Filled(h2.screen, WIDTH, HEIGHT, pos, Ink(s1));
      OperationsKeepSized(h2, filled);
      (s1, H.WithScreen(h2, filled))
    else (s1.(drawing := true, startPos := Some(pos), lastPos := Some(pos)), h2)
  }

  /** A mouse button press: only the left button does anything. */
  ghost function OnMouseDown(s: Session, h: H.History<Image>, button: int, pos: Pos, wheelColor: Color,
                             raster: Rasterizer): (r: (Session, H.History<Image>))
    requires Sized(h)
    ensures Sized(r.1)
    ensures button != 1 ==> r == (s, h)
  {
    if button != 1 then (s, h)
    else if pos.y <= TOOLBAR_HEIGHT then OnToolbarClick(s, h, pos, wheelColor, raster)
    else OnCanvasClick(s, h, pos, raster)
  }

  /** A mouse button release: releasing the left button ends the drag. */
  function OnMouseUp(s: Session, button: int): (r: Session)
    ensures button == 1 ==> !r.drawing && r.startPos == None
    ensures button != 1 ==> r == s
    ensures r.(drawing := s.drawing, startPos := s.startPos) == s
  {
    if button == 1 then s.(drawing := false, startPos := None) else s
  }

  /** The shape a drag from `start` to `end` previews, if any. */
  function PreviewMark(tool: Tool, start: Pos, end: Pos, size: int, color: Color): (m: Option<Mark>)
    requires IsShape(tool)
  {
    match tool
    case Rectangle => RectanglePreview(start, end, size, color)
    case CircleTool => CirclePreview(start, end, size, color)
    case Triangle => Some(TrianglePreview(start, end, size, color))
  }

  /** The screen during a shape drag: the newest snapshot with the preview on top. */
  function ShapeFrame(h: H.History<Image>, m: Option<Mark>, raster: Rasterizer): (r: Image)
    requires Sized(h)
    ensures IsImage(r, WIDTH, HEIGHT)
  {
    var back := Restored(h);
    if m.Some? then Draw(back, WIDTH, HEIGHT, raster, m.value) else back
  }

  /** A pointer move: a brush drag strokes from the last position, a shape
      drag shows its preview; nothing happens above the canvas. */
  function OnMotion(s: Session, h: H.History<Image>, pos: Pos, raster: Rasterizer): (r: (Session, H.History<Image>))
    requires Sized(h) && (s.drawing ==> s.startPos.Some? && s.lastPos.Some?)
    ensures Sized(r.1)
  {
    if !(s.drawing && pos.y > TOOLBAR_HEIGHT) then (s, h)
    else if s.tool == Brush then
      var stroke := StrokeMarks(s.lastPos.value, pos, s.brushSize, Ink(s));
      (s.(lastPos := Some(pos)), H.WithScreen(h, DrawAll(h.screen, WIDTH, HEIGHT, raster, stroke)))
    else if IsShape(s.tool) then
      var m := PreviewMark(s.tool, s.startPos.value, pos, s.brushSize, Ink(s));
      (s, H.WithScreen(h, ShapeFrame(h, m, raster)))
    else (s, h)
  }

  /** One event of the main loop. */
  ghost function Step(s: Session, h: H.History<Image>, e: Event, raster: Rasterizer): (r: (Session, H.History<Image>))
    requires Sized(h) && SessionOk(s)
    ensures Sized(r.1)
  {
    match e
    case KeyDown(key, unicode, ctrl) => OnKey(s, h, key, unicode, ctrl, raster)
    case MouseDown(button, pos, wheelColor) => OnMouseDown(s, h, button, pos, wheelColor, raster)
    case MouseUp(button) => (OnMouseUp(s, button), h)
    case MouseMotion(pos) => OnMotion(s, h, pos, raster)
  }

  /** Committing keeps the history within its bound. */
  lemma CommitKeepsBound(h: H.History<Image>, s: Session, raster: Rasterizer)
    requires Sized(h) && H.Bounded(h)
    ensures H.Bounded(Committed(h, s, raster))
  {
    H.OperationsKeepBound(h, Restored(h));
    H.OperationsKeepBound(H.WithScreen(h, Restored(h)), Restored(h));
  }

  /** A key press keeps the interaction state well formed and the stacks
      within their joint bound. */
  lemma KeyKeepsInvariants(s: Session, h: H.History<Image>, key: Key, unicode: string, ctrl: bool, raster: Rasterizer)
    requires Sized(h) && H.Bounded(h) && SessionOk(s)
    ensures SessionOk(OnKey(s, h, key, unicode, ctrl, raster).0)
    ensures H.Bounded(OnKey(s, h, key, unicode, ctrl, raster).1)
  {
    var r := OnKey(s, h, key, unicode, ctrl, raster);
    if s.typing {
      EditingKeepsPrintable(s.textInput, unicode);
      if key == ReturnKey {
        assert r == (Ended(s), Committed(h, s, raster));
        CommitKeepsBound(h, s, raster);
      } else if key == EscapeKey {
        assert r == (Ended(s), Cancelled(h, s));
        H.OperationsKeepBound(h, Restored(h));
      } else {
        assert r.1 == h;
      }
    } else if key == LetterC {
      H.OperationsKeepBound(h, h.screen);
      H.OperationsKeepBound(H.Snapshot(h), Plain(WIDTH, HEIGHT, WHITE));
    } else if (key == LetterZ || key == LetterY) && ctrl {
      H.OperationsKeepBound(h, h.screen);
    } else {
      BrushSizeStaysInRange(s.brushSize);
      assert r.1 == h;
    }
  }

  /** `if typing: commit_text()` keeps them too, and ends the text session. */
  lemma CommitIfTypingKeepsInvariants(s: Session, h: H.History<Image>, raster: Rasterizer)
    requires Sized(h) && H.Bounded(h) && SessionOk(s)
    ensures SessionOk(CommitIfTyping(s, h, raster).0) && !CommitIfTyping(s, h, raster).0.typing
    ensures H.Bounded(CommitIfTyping(s, h, raster).1)
  {
    CommitKeepsBound(h, s, raster);
  }

  /** So does a click in the tool row. */
  lemma ButtonKeepsInvariants(s: Session, h: H.History<Image>, hit: Option<Button>, raster: Rasterizer)
    requires Sized(h) && H.Bounded(h) && SessionOk(s)
    ensures SessionOk(OnButton(s, h, hit, raster).0)
    ensures H.Bounded(OnButton(s, h, hit, raster).1)
  {
    CommitIfTypingKeepsInvariants(s, h, raster);
    var c := CommitIfTyping(s, h, raster);
    H.OperationsKeepBound(c.1, c.1.screen);
    var s2 := c.0.(eraserMode := false);
    assert SessionOk(s2);
    var r := OnButton(s, h, hit, raster);
    match hit
    case Some(UndoButton) => assert r == (s2, H.Undo(c.1));
    case Some(RedoButton) => assert r == (s2, H.Redo(c.1));
    case Some(ToolButton(t)) => assert r == (s2.(tool := t), c.1);
    case _ => assert r == (s2, c.1);
  }

  /** So does a click in the toolbar band. */
  lemma ToolbarClickKeepsInvariants(s: Session, h: H.History<Image>, pos: Pos, wheelColor: Color, raster: Rasterizer)
    requires Sized(h) && H.Bounded(h) && SessionOk(s)
    ensures SessionOk(OnToolbarClick(s, h, pos, wheelColor, raster).0)
    ensures H.Bounded(OnToolbarClick(s, h, pos, wheelColor, raster).1)
  {
    var r := OnToolbarClick(s, h, pos, wheelColor, raster);
    if InWheel(pos) {
      assert r == (s.(brushColor := wheelColor, eraserMode := false), h);
    } else if ROW2_Y <= pos.y <= ROW2_Y + 45 {
      assert r == OnButton(s, h, ButtonAt(pos), raster);
      ButtonKeepsInvariants(s, h, ButtonAt(pos), raster);
    } else {
      assert r.1 == h;
    }
  }

  /** So does a click on the canvas, and the screen keeps the window's size. */
  lemma CanvasClickKeepsInvariants(s: Session, h: H.History<Image>, pos: Pos, raster: Rasterizer)
    requires Sized(h) && H.Bounded(h) && SessionOk(s)
    ensures SessionOk(OnCanvasClick(s, h, pos, raster).0)
    ensures H.Bounded(OnCanvasClick(s, h, pos, raster).1)
    ensures IsImage(OnCanvasClick(s, h, pos, raster).1.screen, WIDTH, HEIGHT)
  {
    var (s1, h1) := CommitIfTyping(s, h, raster);
    CommitIfTypingKeepsInvariants(s, h, raster);
    H.OperationsKeepBound(h1, h1.screen);
    var h2 := H.Snapshot(h1);
    var r := OnCanvasClick(s, h, pos, raster);
    if s1.tool == TextTool {
      assert r == (s1.(typing := true, textInput := "", textPos := pos), h2);
    } else if s1.tool == Fill {
      var filled := Filled(h2.screen, WIDTH, HEIGHT, pos, Ink(s1));
      assert r == (s1, H.WithScreen(h2, filled));
      H.OperationsKeepBound(h2, filled);
    } else {
      assert r == (s1.(drawing := true, startPos := Some(pos), lastPos := Some(pos)), h2);
    }
  }

  /** So does a pointer move. */
  lemma MotionKeepsInvariants(s: Session, h: H.History<Image>, pos: Pos, raster: Rasterizer)
    requires Sized(h) && H.Bounded(h) && SessionOk(s)
    ensures SessionOk(OnMotion(s, h, pos, raster).0)
    ensures H.Bounded(OnMotion(s, h, pos, raster).1)
  {
    var r := OnMotion(s, h, pos, raster);
    assert r.1.undo == h.undo && r.1.redo == h.redo;
    assert r.0 == s || r.0 == s.(lastPos := Some(pos));
  }

  /** Every event keeps the interaction state well formed, keeps the screen
      the window's size, and keeps the two stacks within their joint bound. */
  lemma StepKeepsInvariants(s: Session, h: H.History<Image>, e: Event, raster: Rasterizer)
    requires Sized(h) && H.Bounded(h) && SessionOk(s)
    ensures SessionOk(Step(s, h, e, raster).0) && H.Bounded(Step(s, h, e, raster).1)
    ensures IsImage(Step(s, h, e, raster).1.screen, WIDTH, HEIGHT)
  {
    match e
    case KeyDown(key, unicode, ctrl) =>
      KeyKeepsInvariants(s, h, key, unicode, ctrl, raster);
    case MouseDown(button, pos, wheelColor) =>
      if button == 1 && pos.y <= TOOLBAR_HEIGHT {
        ToolbarClickKeepsInvariants(s, h, pos, wheelColor, raster);
      } else if button == 1 {
        CanvasClickKeepsInvariants(s, h, pos, raster);
      }
    case MouseUp(button) =>
    case MouseMotion(pos) =>
      MotionKeepsInvariants(s, h, pos, raster);
  }

  /** Committing blank text only restores the newest snapshot; committing any
      other text takes a snapshot of that restored screen and leaves nothing to redo. */
  lemma CommitBlankOnlyRestores(h: H.History<Image>, s: Session, raster: Rasterizer)
    requires Sized(h) && s.typing
    ensures Blank(s.textInput) ==>
      Committed(h, s, raster) == H.History(Restored(h), h.undo, h.redo)
    ensures !Blank(s.textInput) ==>
      && Committed(h, s, raster).undo[|Committed(h, s, raster).undo| - 1] == Restored(h)
      && Committed(h, s, raster).redo == []
      && Committed(h, s, raster).screen == Draw(Restored(h), WIDTH, HEIGHT, raster, TextMark(s))
  {
    StripEmptyIffBlank(s.textInput);
  }

  /** Undo right after committing text gives back the screen without the
      text, and redo brings the text back. */
  lemma CommittedTextIsUndoable(h: H.History<Image>, s: Session, raster: Rasterizer)
    requires Sized(h) && s.typing && !Blank(s.textInput)
    ensures H.Undo(Committed(h, s, raster)).screen == Restored(h)
    ensures H.Redo(H.Undo(Committed(h, s, raster))) == Committed(h, s, raster)
  {
    CommitBlankOnlyRestores(h, s, raster);
    H.UndoThenRedo(Committed(h, s, raster));
  }

  /** A left click on the canvas takes a snapshot before anything is filled or
      dragged: the newest snapshot is the screen as it was just before (after
      any pending text was committed), there is nothing to redo, and one undo
      brings that screen back. */
  lemma CanvasClickSnapshotsFirst(s: Session, h: H.History<Image>, pos: Pos, wheelColor: Color, raster: Rasterizer)
    requires Sized(h) && pos.y > TOOLBAR_HEIGHT
    ensures var before := CommitIfTyping(s, h, raster).1;
      var after := OnMouseDown(s, h, 1, pos, wheelColor, raster).1;
      && after.undo != [] && after.undo[|after.undo| - 1] == before.screen
      && after.redo == []
      && H.Undo(after).screen == before.screen
  {
  }

  /** A click on the canvas with the fill tool recolours the region of the
      clicked pixel in the ink colour, on top of that snapshot. */
  lemma FillClickFills(s: Session, h: H.History<Image>, pos: Pos, wheelColor: Color, raster: Rasterizer)
    requires Sized(h) && pos.y > TOOLBAR_HEIGHT && s.tool == Fill
    ensures var before := CommitIfTyping(s, h, raster).1;
      OnMouseDown(s, h, 1, pos, wheelColor, raster).1.screen == Filled(before.screen, WIDTH, HEIGHT, pos, Ink(s))
  {
  }

  /** During a rectangle, circle or triangle drag a pointer move never touches
      either stack or the interaction state, and with a snapshot to restore the
      screen becomes that snapshot with only the current preview on it. */
  lemma ShapeMotionShowsOnlyPreview(s: Session, h: H.History<Image>, pos: Pos, raster: Rasterizer)
    requires Sized(h) && SessionOk(s) && s.drawing && IsShape(s.tool) && pos.y > TOOLBAR_HEIGHT
    ensures OnMotion(s, h, pos, raster).0 == s
    ensures OnMotion(s, h, pos, raster).1.undo == h.undo && OnMotion(s, h, pos, raster).1.redo == h.redo
    ensures h.undo != [] ==>
      var m := PreviewMark(s.tool, s.startPos.value, pos, s.brushSize, Ink(s));
      OnMotion(s, h, pos, raster).1.screen
        == if m.Some? then Draw(h.undo[|h.undo| - 1], WIDTH, HEIGHT, raster, m.value) else h.undo[|h.undo| - 1]
  {
  }

  /** Earlier previews leave no trace: two pointer moves of a shape drag give
      the same canvas as the second move alone. */
  lemma ShapeMotionForgetsEarlierPreview(s: Session, h: H.History<Image>, p: Pos, q: Pos, raster: Rasterizer)
    requires Sized(h) && SessionOk(s) && s.drawing && IsShape(s.tool) && h.undo != []
    requires q.y > TOOLBAR_HEIGHT
    ensures OnMotion(s, OnMotion(s, h, p, raster).1, q, raster) == OnMotion(s, h, q, raster)
  {
    var h1 := OnMotion(s, h, p, raster).1;
    assert h1.undo == h.undo && h1.redo == h.redo;
    assert Restored(h1) == Restored(h);
  }

  /** A brush drag strokes from the last pointer position to the new one and
      remembers the new one. */
  lemma BrushMotionTracksPointer(s: Session, h: H.History<Image>, pos: Pos, raster: Rasterizer)
    requires Sized(h) && SessionOk(s) && s.drawing && s.tool == Brush && pos.y > TOOLBAR_HEIGHT
    ensures OnMotion(s, h, pos, raster).0 == s.(lastPos := Some(pos))
    ensures OnMotion(s, h, pos, raster).1.undo == h.undo && OnMotion(s, h, pos, raster).1.redo == h.redo
  {
  }

  /** Releasing the left button ends the drag and forgets its start, and the
      next pointer move draws nothing. */
  lemma MouseUpEndsDrag(s: Session, h: H.History<Image>, pos: Pos, raster: Rasterizer)
    requires Sized(h)
    ensures !OnMouseUp(s, 1).drawing && OnMouseUp(s, 1).startPos == None
    ensures OnMouseUp(s, 1).(drawing := s.drawing, startPos := s.startPos) == s
    ensures OnMotion(OnMouseUp(s, 1), h, pos, raster) == (OnMouseUp(s, 1), h)
  {
  }

  /** A click in the tool row ends any text session and turns the eraser off;
      a tool button selects its tool and leaves the screen as the commit left it. */
  lemma ToolRowClick(s: Session, h: H.History<Image>, pos: Pos, wheelColor: Color, raster: Rasterizer)
    requires Sized(h) && !InWheel(pos) && ROW2_Y <= pos.y <= ROW2_Y + 45
    ensures !OnToolbarClick(s, h, pos, wheelColor, raster).0.typing
    ensures !OnToolbarClick(s, h, pos, wheelColor, raster).0.eraserMode
    ensures forall t :: Collides(BoxOf(ToolButton(t)), pos) ==>
      && OnToolbarClick(s, h, pos, wheelColor, raster).0.tool == t
      && OnToolbarClick(s, h, pos, wheelColor, raster).1 == CommitIfTyping(s, h, raster).1
  {
    var r := OnToolbarClick(s, h, pos, wheelColor, raster);
    assert r == OnButton(s, h, ButtonAt(pos), raster);
    var (s1, h1) := CommitIfTyping(s, h, raster);
    assert !s1.typing;
    forall t | Collides(BoxOf(ToolButton(t)), pos)
      ensures r.0.tool == t && r.1 == h1
    {
      ButtonAtIff(pos, ToolButton(t));
    }
  }

  /** In the palette row, the white swatch is the eraser and keeps the brush
      colour for later; any other swatch becomes the brush colour. */
  lemma PaletteClick(s: Session, x: int, i: nat)
    requires i < |COLORS| && OnSwatch(x, i)
    ensures COLORS[i] == WHITE ==> PickSwatch(s, x) == s.(eraserMode := true)
    ensures COLORS[i] != WHITE ==> PickSwatch(s, x) == s.(eraserMode := false, brushColor := COLORS[i])
  {
    SwatchAtIff(x, i);
  }

  /** The application: its interaction state as fields, the canvas it draws on,
      and the library rasteriser that turns a mark into pixels. */
  class Paint {
    const canvas: Canvas
    const raster: Rasterizer
    var drawing: bool
    var startPos: Option<Pos>
    var lastPos: Option<Pos>
    var brushColor: Color
    var brushSize: int
    var eraserMode: bool
    var tool: Tool
    var typing: bool
    var textInput: string
    var textPos: Pos

    /** The interaction state as a value. */
    function Sess(): Session
      reads this
    {
      Session(drawing, startPos, lastPos, brushColor, brushSize, eraserMode, tool, typing, textInput, textPos)
    }

    ghost predicate Valid()
      reads this, canvas
    {
      && canvas.Valid() && canvas.width == WIDTH && canvas.height == HEIGHT
      && SessionOk(Sess())
    }

    /** The canvas history as a value. */
    function Hist(): (h: H.History<Image>)
      reads this, canvas, canvas.pix
      requires Valid()
      ensures Sized(h) && H.Bounded(h)
    {
      canvas.State()
    }

    /** Start-up: a white window, the black brush of size 5, no history. */
    constructor (raster: Rasterizer)
      ensures Valid() && fresh(canvas) && fresh(canvas.pix) && this.raster == raster
      ensures Sess() == START
      ensures Hist() == H.History(Plain(WIDTH, HEIGHT, WHITE), [], [])
    {
      canvas := new Canvas(WIDTH, HEIGHT);
      this.raster := raster;
      drawing, startPos, lastPos := false, None, None;
      brushColor, brushSize, eraserMode, tool := BLACK, 5, false, Brush;
      typing, textInput, textPos := false, "", Pos(0, 0);
    }

    /** One call into the drawing library. */
    method DrawMark(m: Mark)
      requires Valid()
      modifies canvas.pix
      ensures Valid() && Hist() == H.WithScreen(old(Hist()), Draw(old(Hist()).screen, WIDTH, HEIGHT, raster, m))
    {
      canvas.Apply(raster(canvas.Screen(), m));
    }

    /** `draw_line`: the stroke between two pointer positions. */
    method DrawLine(from: Pos, to: Pos, size: int, color: Color)
      requires Valid()
      modifies canvas.pix
      ensures Valid()
      ensures Hist() == H.WithScreen(old(Hist()), DrawAll(old(Hist()).screen, WIDTH, HEIGHT, raster, StrokeMarks(from, to, size, color)))
    {
      ghost var marks := StrokeMarks(from, to, size, color);
      ghost var s0 := canvas.Screen();
      DrawMark(Line(from, to, size * 2, color));
      ghost var s1 := canvas.Screen();
      DrawMark(Circle(from, size, 0, color));
      ghost var s2 := canvas.Screen();
      DrawMark(Circle(to, size, 0, color));
      assert marks[1..][1..][1..] == [];
      assert DrawAll(s2, WIDTH, HEIGHT, raster, marks[2..]) == canvas.Screen();
      assert DrawAll(s1, WIDTH, HEIGHT, raster, marks[1..]) == canvas.Screen();
    }

    /** `if undo_stack: screen.blit(undo_stack[-1], (0, 0))`. */
    method Restore()
      requires Valid()
      modifies canvas.pix
      ensures Valid() && Hist() == H.WithScreen(old(Hist()), Restored(old(Hist())))
    {
      if canvas.undo != [] {
        canvas.Blit(canvas.undo[|canvas.undo| - 1]);
      }
    }

    /** Snapshot the screen, then render the text buffer onto it. */
    method StampText()
      requires Valid()
      modifies canvas, canvas.pix
      ensures Valid() && Hist() == H.WithScreen(H.Snapshot(old(Hist())),
        Draw(old(Hist()).screen, WIDTH, HEIGHT, raster, TextMark(Sess())))
    {
      canvas.SaveSnapshot();
      DrawMark(TextMark(Sess()));
    }

    /** The text session is over: `typing = False; text_input = ""`. */
    method EndSession()
      requires Valid()
      modifies this
      ensures Valid() && Sess() == Ended(old(Sess())) && Hist() == old(Hist())
    {
      typing := false;
      textInput := "";
    }

    /** `commit_text`. */
    method CommitText()
      requires Valid()
      modifies this, canvas, canvas.pix
      ensures Valid() && Sess() == Ended(old(Sess()))
      ensures Hist() == Committed(old(Hist()), old(Sess()), raster)
    {
      if typing {
        Restore();
        if Strip(textInput) != "" {
          StampText();
        }
      }
      EndSession();
    }

    /** `cancel_text`. */
    method CancelText()
      requires Valid()
      modifies this, canvas.pix
      ensures Valid() && Sess() == Ended(old(Sess()))
      ensures Hist() == Cancelled(old(Hist()), old(Sess()))
    {
      if typing {
        Restore();
      }
      EndSession();
    }

    /** The `KEYDOWN` branch of the main loop while a text session is open:
        Return commits, Backspace deletes, Escape cancels, and a printable
        character is appended. */
    method TypingKey(key: Key, unicode: string)
      requires Valid() && typing
      modifies this, canvas, canvas.pix
      ensures Valid() && (Sess(), Hist()) == OnKey(old(Sess()), old(Hist()), key, unicode, false, raster)
    {
      EditingKeepsPrintable(textInput, unicode);
      if key == ReturnKey {
        CommitText();
      } else if key == BackspaceKey {
        textInput := Backspace(textInput);
      } else if key == EscapeKey {
        CancelText();
      } else if AllPrintable(unicode) {
        textInput := textInput + unicode;
      }
      assert SessionOk(Sess());
    }

    /** The shortcuts that act on the canvas history: `c` clears the screen
        after a snapshot, Ctrl+Z undoes and Ctrl+Y redoes. */
    method HistoryKey(key: Key, ctrl: bool)
      requires Valid() && !typing
      requires key == LetterC || (key == LetterZ && ctrl) || (key == LetterY && ctrl)
      modifies canvas, canvas.pix
      ensures Valid() && Hist() == OnKey(old(Sess()), old(Hist()), key, "", ctrl, raster).1
    {
      if key == LetterC {
        canvas.SaveSnapshot();
        canvas.FillScreen(WHITE);
      } else if key == LetterZ {
        canvas.Undo();
      } else {
        canvas.Redo();
      }
    }

    /** The `KEYDOWN` branch of the main loop outside a text session: clear,
        undo, redo and the brush size. */
    method CommandKey(key: Key, ctrl: bool)
      requires Valid() && !typing
      modifies canvas, canvas.pix, this
      ensures Valid() && (Sess(), Hist()) == OnKey(old(Sess()), old(Hist()), key, "", ctrl, raster)
    {
      if key == LetterC || (key == LetterZ && ctrl) || (key == LetterY && ctrl) {
        HistoryKey(key, ctrl);
      } else {
        BrushSizeStaysInRange(brushSize);
        if key == EqualsKey || key == KeypadPlus {
          brushSize := Enlarge(brushSize);
        } else if key == MinusKey || key == KeypadMinus {
          brushSize := Shrink(brushSize);
        }
        assert SessionOk(Sess());
      }
    }

    /** The `KEYDOWN` branch of the main loop. */
    method KeyDown(key: Key, unicode: string, ctrl: bool)
      requires Valid()
      modifies this, canvas, canvas.pix
      ensures Valid() && (Sess(), Hist()) == OnKey(old(Sess()), old(Hist()), key, unicode, ctrl, raster)
    {
      if typing {
        TypingKey(key, unicode);
      } else {
        CommandKey(key, ctrl);
      }
    }

    /** The palette part of `handle_ui_click`: the swatches are searched left
        to right and the first one whose columns hold `x` is taken. */
    method ClickPalette(x: int)
      requires Valid()
      modifies this
      ensures Valid() && Sess() == PickSwatch(old(Sess()), x)
    {
      var i := 0;
      while i < |COLORS|
        invariant 0 <= i <= |COLORS|
        invariant SwatchFrom(x, i) == SwatchAt(x)
        invariant Sess() == old(Sess())
        decreases |COLORS| - i
      {
        var rectX := 10 + 40 * i;
        if rectX <= x <= rectX + 35 {
          if COLORS[i] == WHITE {
            eraserMode := true;
          } else {
            eraserMode := false;
            brushColor := COLORS[i];
          }
          return;
        }
        i := i + 1;
      }
    }

    /** The tool-row part of `handle_ui_click`: commit any text, act on the
        button hit, and turn the eraser off. */
    method ClickToolRow(pos: Pos)
      requires Valid()
      modifies this, canvas, canvas.pix
      ensures Valid() && (Sess(), Hist()) == OnButton(old(Sess()), old(Hist()), ButtonAt(pos), raster)
    {
      CommitIfTypingText();
      var hit := ButtonAt(pos);
      if hit == Some(Save) {
        // `save_image` writes the drawing area to a file
      } else if hit == Some(UndoButton) {
        canvas.Undo();
      } else if hit == Some(RedoButton) {
        canvas.Redo();
      } else if hit.Some? {
        SelectTool(hit.value.tool);
      }
      TurnEraserOff();
    }

    /** `current_tool = t`. */
    method SelectTool(t: Tool)
      requires Valid()
      modifies this
      ensures Valid() && Sess() == old(Sess()).(tool := t) && Hist() == old(Hist())
    {
      tool := t;
    }

    /** `eraser_mode = False`. */
    method TurnEraserOff()
      requires Valid()
      modifies this
      ensures Valid() && Sess() == old(Sess()).(eraserMode := false) && Hist() == old(Hist())
    {
      eraserMode := false;
    }

    /** `handle_ui_click`: the colour wheel first, then the tool row, then the palette row. */
    method ToolbarClick(pos: Pos, wheelColor: Color)
      requires Valid()
      modifies this, canvas, canvas.pix
      ensures Valid() && (Sess(), Hist()) == OnToolbarClick(old(Sess()), old(Hist()), pos, wheelColor, raster)
    {
      if InWheel(pos) {
        brushColor := wheelColor;
        eraserMode := false;
      } else if ROW2_Y <= pos.y <= ROW2_Y + 45 {
        ClickToolRow(pos);
      } else if ROW3_Y <= pos.y <= ROW3_Y + 45 {
        ClickPalette(pos.x);
      }
    }

    /** `if typing: commit_text()`. */
    method CommitIfTypingText()
      requires Valid()
      modifies this, canvas, canvas.pix
      ensures Valid() && (Sess(), Hist()) == CommitIfTyping(old(Sess()), old(Hist()), raster)
    {
      if typing {
        CommitText();
      }
    }

    /** A text session opens at `pos` with an empty buffer. */
    method StartTyping(pos: Pos)
      requires Valid()
      modifies this
      ensures Valid() && Sess() == old(Sess()).(typing := true, textInput := "", textPos := pos)
      ensures Hist() == old(Hist())
    {
      typing := true;
      textInput := "";
      textPos := pos;
    }

    /** A drag starts at `pos`. */
    method StartDrag(pos: Pos)
      requires Valid()
      modifies this
      ensures Valid() && Sess() == old(Sess()).(drawing := true, startPos := Some(pos), lastPos := Some(pos))
      ensures Hist() == old(Hist())
    {
      drawing := true;
      startPos := Some(pos);
      lastPos := Some(pos);
    }

    /** A left click below the toolbar band. */
    method CanvasClick(pos: Pos)
      requires Valid() && pos.y > TOOLBAR_HEIGHT
      modifies this, canvas, canvas.pix
      ensures Valid() && (Sess(), Hist()) == OnCanvasClick(old(Sess()), old(Hist()), pos, raster)
    {
      CommitIfTypingText();
      canvas.SaveSnapshot();
      if tool == TextTool {
        StartTyping(pos);
      } else if tool == Fill {
        canvas.FloodFill(pos, Ink(Sess()));
      } else {
        StartDrag(pos);
      }
    }

    /** The `MOUSEBUTTONDOWN` branch of the main loop. */
    method MouseDown(button: int, pos: Pos, wheelColor: Color)
      requires Valid()
      modifies this, canvas, canvas.pix
      ensures Valid() && (Sess(), Hist()) == OnMouseDown(old(Sess()), old(Hist()), button, pos, wheelColor, raster)
    {
      if button == 1 {
        if pos.y <= TOOLBAR_HEIGHT {
          ToolbarClick(pos, wheelColor);
        } else {
          CanvasClick(pos);
        }
      }
    }

    /** The `MOUSEBUTTONUP` branch of the main loop. */
    method MouseUp(button: int)
      requires Valid()
      modifies this
      ensures Valid() && Sess() == OnMouseUp(old(Sess()), button)
    {
      if button == 1 {
        drawing := false;
        startPos := None;
      }
    }

    /** The `MOUSEMOTION` branch of the main loop. */
    method MouseMotion(pos: Pos)
      requires Valid()
      modifies this, canvas.pix
      ensures Valid() && (Sess(), Hist()) == OnMotion(old(Sess()), old(Hist()), pos, raster)
    {
      if drawing && pos.y > TOOLBAR_HEIGHT {
        var color := Ink(Sess());
        if tool == Brush {
          DrawLine(lastPos.value, pos, brushSize, color);
          lastPos := Some(pos);
        } else if tool == Rectangle || tool == CircleTool || tool == Triangle {
          Restore();
          if tool == Rectangle {
            var m := RectanglePreview(startPos.value, pos, brushSize, color);
            if m.Some? {
              DrawMark(m.value);
            }
          } else if tool == CircleTool {
            var m := CirclePreview(startPos.value, pos, brushSize, color);
            if m.Some? {
              DrawMark(m.value);
            }
          } else {
            DrawMark(TrianglePreview(startPos.value, pos, brushSize, color));
          }
        }
      }
    }

    /** One event of the main loop. */
    method Handle(e: Event)
      requires Valid()
      modifies this, canvas, canvas.pix
      ensures Valid() && (Sess(), Hist()) == Step(old(Sess()), old(Hist()), e, raster)
    {
      match e
      case KeyDown(key, unicode, ctrl) => KeyDown(key, unicode, ctrl);
      case MouseDown(button, pos, wheelColor) => MouseDown(button, pos, wheelColor);
      case MouseUp(button) => MouseUp(button);
      case MouseMotion(pos) => MouseMotion(pos);
    }
  }
}
