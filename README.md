# paint.py canvas engine, modelled in Dafny

This project models the core of `paint.py`, a single-window pygame paint program:

- **Screen.** The window is 900 × 650 pixels. The toolbar band is rows 0 to 160 (`y <= 160`, 161 rows), and pixels are RGB colours.
- **Flood fill.** Breadth-first and 4-connected, over the rows below the toolbar band.
- **Undo and redo history.** Two stacks of full-screen copies. The undo stack drops its oldest entry when it already holds more than 50.
- **Shape previews.** The integer geometry that turns two drag points into a rectangle, a circle or a triangle before the library draws it.
- **Event handling.** What the main loop does for each event: key presses, including the text tool's buffer; mouse presses in the toolbar band or on the canvas; mouse releases; and pointer moves during a brush or shape drag. It also covers `commit_text` and `cancel_text`.

How the modules fit together:

- **`Engine`.** Class `Canvas` holds the pixels as an `array2<Color>`, indexed `pix[x, y]`, together with the two stacks of immutable snapshots.
  - `Canvas.FloodFill` runs the program's queue-and-visited-set loop in place on the array.
  - `SaveSnapshot`, `Undo` and `Redo` update the array and the stacks.
  - Each method is proved against a pure specification.
- **`History`.** Pure functions for the undo and redo stacks. Properties proved about them: the joint bound of 51 entries, undo/redo round trips, and retrieving older snapshots by repeated undo.
- **`FillSpec`.** Defines `Filled`: the region connected to the seed, recoloured. It proves this definition sound, complete, a no-op in the program's three early-return cases, and idempotent.
- **`Controller`.** Two layers:
  - Pure functions `OnKey`, `OnToolbarClick`, `OnCanvasClick`, `OnMouseUp`, `OnMotion` and `Step`. Each says what one event does to the interaction state (`Session`) and the canvas history.
  - Class `Paint`. It keeps the program's global variables as fields, performs each event on a `Canvas`, and is proved to agree with those functions.
- **`Geometry`, `TextInput` and `Toolbar`.** The pure arithmetic that `Controller` uses: the shape previews, the text-buffer operations (`strip`, `isprintable`, backspace), the brush-size clamp, and hit-testing of the toolbar buttons and palette swatches.

The drawing library's output is not modelled pixel by pixel:

- A `Rasterizer` stands for it. A rasterizer maps the current image and a shape descriptor (`Mark`) to the pixels the call writes.
- `Draw` applies those writes, clipped to the surface, as a library call clips to its target.
- Every property about drawing holds for any rasterizer.

Two behaviours of the shape previews follow the code exactly:

- The circle radius is `int((dx² + dy²) ** 0.5)`, a float power truncated to an integer, and a zero radius draws nothing. It is not rounded, and it is not clamped to 1.
- A triangle preview with zero area is still drawn.

## Model

| member | source | states |
|---|---|---|
| Pixels.Plain | paint.py:98 | `screen.fill(c)`: every pixel of the image has colour `c` |
| Pixels.Stamp | paint.py:128-131 | a library call's pixel writes, clipped to the surface: each written pixel on the surface takes its written colour, every other pixel keeps its colour, the size is unchanged |
| History.Snapshot | paint.py:184-187 | `save_snapshot`: the screen is unchanged and becomes the new top of the undo stack; the redo stack is emptied; the undo stack grows by one unless it already held more than 50; what remains below the new top is the newest part of the old stack |
| History.Undo | paint.py:189-192 | `perform_undo`: with an empty undo stack nothing changes; otherwise the screen becomes the popped top and the previous screen is pushed on the redo stack; the total number of stacked snapshots is unchanged |
| History.Redo | paint.py:194-197 | `perform_redo`: mirror image of undo, with no cap on the undo stack; the total number of stacked snapshots is unchanged |
| History.OperationsKeepBound | paint.py:184-197 | snapshot, undo, redo and drawing all keep the two stacks at 51 snapshots or fewer in total, and the undo stack alone at 51 or fewer after a snapshot |
| History.UndoThenRedo | paint.py:189-197 | redo right after undo gives back the screen and both stacks exactly |
| History.RedoThenUndo | paint.py:189-197 | undo right after redo gives back the screen and both stacks exactly |
| History.RedoAfterSnapshotChangesNothing | paint.py:184-197 | after a snapshot (and any drawing) there is nothing to redo |
| History.SnapshotDrawUndoRedo | paint.py:184-197 | snapshot, draw, undo shows the screen from before the snapshot and holds the drawing as the one redo entry; redo shows the drawing again |
| History.UndoTimesRetrieves | paint.py:189-192 | `k` undos in a row show the `k`-th newest snapshot and leave exactly the older ones on the undo stack |
| FillSpec.Filled | paint.py:155-176 | reference definition of `flood_fill`: a pixel on the surface ends with the replacement colour exactly when the fill applies and the pixel is connected to the seed; all other pixels keep their colour |
| FillSpec.ConnectedIsDrawable | paint.py:170-172 | a pixel connected to the seed lies below the toolbar band on the surface and has the seed's colour |
| FillSpec.ClosedSetHoldsRegion | paint.py:164-176 | any set that holds the seed and every target-coloured drawable 4-neighbour of its members holds the whole connected region (the completeness argument) |
| FillSpec.FillNoOp | paint.py:155-162 | the fill changes nothing when the seed is in or above the toolbar band, off the surface, or already of the replacement colour |
| FillSpec.FillSound | paint.py:164-176 | a pixel the fill changes lies below the toolbar band, had the seed's colour, is 4-connected to the seed through pixels of that colour, and now has the replacement colour |
| FillSpec.FillComplete | paint.py:164-176 | every pixel on a 4-connected path of target-coloured drawable pixels from the seed ends with the replacement colour |
| FillSpec.FillIsolatedSeed | paint.py:168-172 | when no drawable neighbour of the seed has the seed's colour, no pixel other than the seed changes |
| FillSpec.FillIdempotent | paint.py:155-176 | filling twice from the same seed with the same colour is the same as filling once |
| Engine.Canvas.constructor | paint.py:98 | a new canvas is white, of the given size, with both stacks empty |
| Engine.Canvas.Blit | paint.py:192 | `screen.blit(snapshot, (0, 0))`: the screen becomes the full-size snapshot, the stacks are unchanged |
| Engine.Canvas.Apply | paint.py:128-131 | a library call's pixel writes land on the array exactly as `Stamp` says |
| Engine.Canvas.FillScreen | paint.py:334 | `screen.fill(c)` on the array |
| Engine.Canvas.SaveSnapshot | paint.py:184-187 | `save_snapshot` on the array and the stacks is `History.Snapshot` of the previous state |
| Engine.Canvas.Undo | paint.py:189-192 | `perform_undo` on the array and the stacks is `History.Undo` of the previous state |
| Engine.Canvas.Redo | paint.py:194-197 | `perform_redo` on the array and the stacks is `History.Redo` of the previous state |
| Engine.Canvas.FloodFill | paint.py:155-176 | `flood_fill` in place: the loop terminates and the array ends as `Filled` of the screen before the call |
| Engine.Canvas.EnqueueNeighbours | paint.py:168-176 | the inner loop: each unvisited drawable 4-neighbour of the target colour is marked visited and appended to the queue once; the queue stays duplicate-free and every visited pixel is connected to the seed |
| Engine.Canvas.TakeHead | paint.py:166-176 | one turn of the `while queue` loop keeps the loop invariant: every pixel taken off the queue is recoloured, every other pixel keeps its colour, and the visited set grows by what was enqueued |
| Engine.Canvas.DoneIsRegion | paint.py:164-176 | when the queue is empty, the pixels taken off it are exactly the seed's connected region |
| Geometry.Draw | paint.py:128-153 | one library call, its writes clipped to the surface, keeps the image the surface's size |
| Geometry.DrawAll | paint.py:128-131 | several library calls in a row keep the image the surface's size |
| Geometry.FloorHalf | paint.py:150 | Python's `//` by 2: the floor of half, for negative operands too |
| Geometry.Isqrt | paint.py:143 | `int(n ** 0.5)` for a sum of squares, taken exactly: the largest `r` with `r * r <= n` |
| Geometry.StrokeMarks | paint.py:128-131 | `draw_line`: a line of twice the brush width plus a filled disc of the brush radius at each end |
| Geometry.RectanglePreview | paint.py:133-139 | the rectangle's top-left corner is the smaller coordinates and its size the absolute differences; nothing is drawn when either side is zero |
| Geometry.CircleRadius | paint.py:141-143 | the radius is the floor of the distance between the two points |
| Geometry.CirclePreview | paint.py:141-145 | a circle centred on the drag start with that radius, and nothing when the radius is zero |
| Geometry.TriangleVertices | paint.py:147-152 | apex at mid-x, computed with `//`, on the start row; base corners at the start and end columns on the end row; the apex lies between the two columns |
| Geometry.TrianglePreview | paint.py:147-153 | the triangle is always drawn, with those vertices, the brush width and the colour |
| Geometry.CanvasFontSize | paint.py:59-60 | the font size is `max(14, 4 * size)` |
| Geometry.StrokeOfClickCentresBothDiscs | paint.py:128-131 | a stroke from a point to itself centres both of its end discs on that point |
| Geometry.CircleRadiusBounds | paint.py:141-145 | the radius lies between the larger axis distance and the sum of the axis distances, and is zero exactly when the two points coincide |
| Geometry.RectanglePreviewSymmetric | paint.py:133-139 | swapping the two drag corners gives the same rectangle |
| Geometry.TriangleApexSymmetric | paint.py:147-150 | the apex column does not depend on which corner the drag started from |
| Geometry.TriangleExample | paint.py:147-152 | corners `(0,0)` and `(100,50)` give the vertices `(50,0)`, `(0,50)`, `(100,50)` |
| TextInput.TrimStart | paint.py:265 | `lstrip()`: a suffix of the text, with only whitespace dropped, starting with a non-space |
| TextInput.TrimEnd | paint.py:265 | `rstrip()`: a prefix of the text, with only whitespace dropped, ending with a non-space |
| TextInput.IsSpace | paint.py:265 | the characters `strip()` removes; no visible ASCII character is among them |
| TextInput.Strip | paint.py:265 | `strip()`: no longer than the text, and when not empty it starts and ends with a non-space |
| TextInput.StripEmptyIffBlank | paint.py:265 | `strip()` is empty exactly when the text is all whitespace |
| TextInput.PrintableBlankIsSpaces | paint.py:265 | for a buffer of printable characters, `strip()` is empty exactly when every character is a plain space |
| TextInput.IsPrintableChar | paint.py:330 | `str.isprintable` for one character: every visible ASCII character and the space are printable, no control character below the space is |
| TextInput.Backspace | paint.py:328 | `s[:-1]`: the empty text stays empty; otherwise the last character is removed and nothing else |
| TextInput.TypeKey | paint.py:330 | the key's text is appended when it is printable, and the buffer is unchanged otherwise |
| TextInput.BackspaceUndoesTyping | paint.py:328-330 | backspace right after typing a printable character gives back the buffer |
| TextInput.EditingKeepsPrintable | paint.py:328-330 | typing and backspace keep the buffer printable |
| TextInput.Enlarge | paint.py:337 | `min(50, size + 1)` |
| TextInput.Shrink | paint.py:338 | `max(1, size - 1)` |
| TextInput.BrushSizeStaysInRange | paint.py:337-338 | the size keys keep the brush size in [1, 50], stop at its ends, and undo each other away from the ends |
| Toolbar.Collides | paint.py:295-303 | `Rect.collidepoint`: left and top edges inside, right and bottom edges outside; a box with no width or height is never hit |
| Toolbar.BoxOf | paint.py:85-95 | every button's rectangle lies in the tool row at `BUTTON_Y`, 30 rows high, within the window's width |
| Toolbar.ButtonAt | paint.py:295-303 | the buttons are tested in the program's order, and the button found holds the click |
| Toolbar.ButtonAtIff | paint.py:85-95 | the button rectangles do not overlap: a click hits a button exactly when it lies in that button's rectangle, whatever the order of the tests, and every button lies in the tool row |
| Toolbar.OnSwatch | paint.py:308-310 | swatch `i` holds columns `10 + 40 * i` to `10 + 40 * i + 35`; such a column lies strictly between swatches `i - 1` and `i + 1` |
| Toolbar.SwatchFrom | paint.py:309-316 | the palette search from swatch `i` finds a swatch at or after `i` whose columns hold the click |
| Toolbar.SwatchAt | paint.py:309-316 | the swatch found holds the click |
| Toolbar.SwatchAtIff | paint.py:309-316 | a click in the palette row hits swatch `i` exactly when it lies within that swatch's columns |
| Toolbar.InWheel | paint.py:115-120 | the wheel accepts a click within distance 18 of its centre, decided exactly on squared integers; such a click lies in the square of side 37 around the centre |
| Toolbar.WheelBelowRows | paint.py:115-126 | a click the colour wheel accepts lies below the tool and palette rows, so the wheel test never takes a click from a button or swatch |
| Controller.Ink | paint.py:355 | `WHITE if eraser_mode else brush_color`: the ink is the brush colour when the eraser is off, and white exactly when the eraser is on or the brush is white |
| Controller.Restored | paint.py:264 | restoring the newest snapshot keeps the window's size |
| Controller.Committed | paint.py:261-272 | `commit_text` on the history keeps every image the window's size |
| Controller.CommitIfTyping | paint.py:346 | `if typing: commit_text()` keeps every image the window's size |
| Controller.Cancelled | paint.py:274-279 | `cancel_text` on the history keeps every image the window's size |
| Controller.OnKey | paint.py:325-338 | a key press keeps every image the window's size |
| Controller.PickSwatch | paint.py:307-316 | a palette click changes only the brush colour and the eraser; a miss changes nothing; a hit makes the ink the swatch's colour |
| Controller.OnButton | paint.py:292-304 | a tool-row click keeps every image the window's size |
| Controller.OnToolbarClick | paint.py:281-316 | a toolbar click keeps every image the window's size |
| Controller.OnCanvasClick | paint.py:344-358 | a canvas click keeps every image the window's size and empties the redo stack; it opens a text session exactly under the text tool, starts a drag at the click under a drawing tool, and never changes the tool, brush size, brush colour or eraser |
| Controller.OnMouseDown | paint.py:340-358 | a mouse press keeps every image the window's size, and any button but the left one changes nothing |
| Controller.OnMouseUp | paint.py:360-363 | releasing the left button clears `drawing` and `start_pos`; another button changes nothing; no other field ever changes |
| Controller.ShapeFrame | paint.py:372-375 | a preview frame has the window's size |
| Controller.OnMotion | paint.py:365-375 | a pointer move keeps every image the window's size |
| Controller.OperationsKeepSized | paint.py:184-197 | snapshot, undo, redo and drawing a full-size image keep the screen and every stacked snapshot the window's size |
| Controller.Step | paint.py:321-375 | every event keeps the screen and every stacked snapshot the window's size |
| Controller.CommitKeepsBound | paint.py:261-272 | committing text keeps the stacks within their joint bound |
| Controller.CommitIfTypingKeepsInvariants | paint.py:261-272 | committing keeps the interaction state well formed and the stacks within their bound, and ends the text session |
| Controller.KeyKeepsInvariants | paint.py:325-338 | a key press keeps the brush size in [1, 50], the buffer printable and empty outside a text session, a drag's start and last positions known, and the stacks within their bound |
| Controller.ButtonKeepsInvariants | paint.py:292-304 | so does a click in the tool row |
| Controller.ToolbarClickKeepsInvariants | paint.py:281-316 | so does any click in the toolbar band |
| Controller.CanvasClickKeepsInvariants | paint.py:344-358 | so does a click on the canvas, and the screen keeps the window's size |
| Controller.MotionKeepsInvariants | paint.py:365-375 | so does a pointer move |
| Controller.StepKeepsInvariants | paint.py:325-375 | every event keeps the interaction state well formed, the screen the window's size, and the stacks within their bound |
| Controller.CommitBlankOnlyRestores | paint.py:261-272 | committing blank text only restores the newest snapshot; committing other text pushes that restored screen as a snapshot, empties the redo stack and stamps the text on it |
| Controller.CommittedTextIsUndoable | paint.py:261-272 | undo right after committing text shows the screen without the text, and redo brings the text back |
| Controller.CanvasClickSnapshotsFirst | paint.py:344-358 | a left click on the canvas snapshots the screen (after any pending text is committed) before anything else: that screen is the newest snapshot, redo is empty, and one undo brings it back |
| Controller.FillClickFills | paint.py:352-355 | a fill-tool click leaves the screen as `Filled` of that screen, in the ink colour |
| Controller.ShapeMotionShowsOnlyPreview | paint.py:365-375 | during a shape drag a pointer move leaves the interaction state and both stacks unchanged, and the screen is the newest snapshot with only the current preview on it |
| Controller.ShapeMotionForgetsEarlierPreview | paint.py:371-375 | two pointer moves of a shape drag give the same result as the second move alone |
| Controller.BrushMotionTracksPointer | paint.py:368-370 | a brush drag move records the pointer as the last position and leaves both stacks unchanged |
| Controller.MouseUpEndsDrag | paint.py:360-363 | releasing the left button clears `drawing` and `start_pos`, changes nothing else, and the next pointer move draws nothing |
| Controller.ToolRowClick | paint.py:292-304 | a tool-row click ends any text session and turns the eraser off; a tool button selects its tool and leaves the history as the commit left it |
| Controller.PaletteClick | paint.py:307-316 | the white swatch turns the eraser on and keeps the brush colour; any other swatch becomes the brush colour and turns the eraser off |
| Controller.Paint.constructor | paint.py:62-74 | start-up: a white window, brush black of size 5, brush tool, no text session, empty stacks |
| Controller.Paint.DrawMark | paint.py:128-153 | one library call changes the screen as `Draw` says and nothing else |
| Controller.Paint.DrawLine | paint.py:128-131 | `draw_line` makes the three library calls of `StrokeMarks`, in order |
| Controller.Paint.Restore | paint.py:264 | `if undo_stack: screen.blit(undo_stack[-1], (0, 0))` is `Restored` |
| Controller.Paint.StampText | paint.py:266-270 | snapshot, then render the buffer at its position |
| Controller.Paint.EndSession | paint.py:271-272 | `typing = False; text_input = ""`: the session as `Ended` leaves it, the canvas unchanged |
| Controller.Paint.CommitText | paint.py:261-272 | `commit_text` in place agrees with `Committed` and ends the session |
| Controller.Paint.CancelText | paint.py:274-279 | `cancel_text` in place agrees with `Cancelled` and ends the session |
| Controller.Paint.TypingKey | paint.py:326-330 | a key during a text session agrees with `OnKey` |
| Controller.Paint.HistoryKey | paint.py:333-336 | `c`, Ctrl+Z and Ctrl+Y agree with `OnKey` |
| Controller.Paint.CommandKey | paint.py:331-338 | a key outside a text session agrees with `OnKey` |
| Controller.Paint.KeyDown | paint.py:325-338 | the `KEYDOWN` branch agrees with `OnKey` |
| Controller.Paint.ClickPalette | paint.py:307-316 | the palette loop agrees with `PickSwatch` |
| Controller.Paint.ClickToolRow | paint.py:292-304 | the tool-row branch agrees with `OnButton` of the button hit |
| Controller.Paint.SelectTool | paint.py:298-303 | a tool button sets the current tool and changes nothing else |
| Controller.Paint.TurnEraserOff | paint.py:304 | `eraser_mode = False` and nothing else |
| Controller.Paint.ToolbarClick | paint.py:281-316 | `handle_ui_click` agrees with `OnToolbarClick` |
| Controller.Paint.CommitIfTypingText | paint.py:346 | `if typing: commit_text()` agrees with `CommitIfTyping` |
| Controller.Paint.StartTyping | paint.py:348-350 | a text session opens at the click with an empty buffer; the canvas is unchanged |
| Controller.Paint.StartDrag | paint.py:357-358 | a drag starts at the click: `drawing` is set and both its start and last positions are the click; the canvas is unchanged |
| Controller.Paint.CanvasClick | paint.py:344-358 | a canvas click agrees with `OnCanvasClick` |
| Controller.Paint.MouseDown | paint.py:340-358 | the `MOUSEBUTTONDOWN` branch agrees with `OnMouseDown` |
| Controller.Paint.MouseUp | paint.py:360-363 | the `MOUSEBUTTONUP` branch agrees with `OnMouseUp` |
| Controller.Paint.MouseMotion | paint.py:365-375 | the `MOUSEMOTION` branch agrees with `OnMotion` |
| Controller.Paint.Handle | paint.py:321-375 | each event agrees with `Step` and keeps the class invariant |

## Left out

- Pixel output of `pygame.draw.line`, `circle`, `rect`, `polygon` and `font.render`. It is foreign library code and is modelled as a `Rasterizer` parameter. Gap-freedom of strokes and the exact shape pixels are therefore not stated.
- Fonts. `get_canvas_font` is reduced to its size, `max(14, size * 4)`.
- The colour wheel's colour (`get_color_from_wheel`, paint.py:115-126). Its floating-point HSV conversion is not modelled. The event carries the colour the wheel shows as an input; whether a click lands on the wheel is modelled exactly.
- `draw_color_wheel`, `draw_ui` and `draw_button` (paint.py:100-113, 199-259), called each frame at paint.py:377 and 381. They draw the toolbar onto the same screen surface that `save_snapshot` copies and `flood_fill` reads. The model's screen and snapshots leave that drawing out. This matters below the band too: the 2-pixel divider at paint.py:259 may cover row 161, which is in the drawable area. In the program, a fill can see that divider row as a boundary, and snapshots carry the toolbar pixels. The model's fill and snapshots see only what the event handlers drew.
- The rendering after each batch of events (paint.py:377-392): the typing preview, the blinking cursor, `display.flip` and `clock.tick`. It is screen output and wall-clock timing. Every handler that ends a text session restores the newest snapshot first, as the program does.
- The event pump and `QUIT` (paint.py:319-323, 394-395). Events are modelled as a datatype handed to `Handle` one at a time.
- `save_image` (paint.py:178-182) is file I/O with a timestamped name. The save button is modelled as committing text and turning the eraser off, as the code does, with no other state change.
- TextInput.IsPrintableChar: exact on Latin-1; above it, only the separators, common format characters and the private-use area count as non-printable. This is weaker than Python's full Unicode database.
- Geometry.CircleRadius: the float power `** 0.5` then `int` is modelled as the exact integer floor square root. That is the intended value, and it may differ from the float result for very large distances.
- The alpha channel. Colours are RGB triples, because the program compares colours on their first three channels.
