/**
  * Where a click in the toolbar band lands: the colour wheel, one of the
  * buttons of the tool row, or one of the swatches of the palette row. The
  * layout constants are the program's; hit-testing is integer arithmetic.
  */
module Toolbar {
  import opened Pixels

  datatype Tool = Brush | Rectangle | Fill | CircleTool | Triangle | TextTool

  /** The three tools whose drag shows a restorable preview. */
  predicate IsShape(t: Tool)
  {
    t == Rectangle || t == CircleTool || t == Triangle
  }

  datatype Button = Save | UndoButton | RedoButton | ToolButton(tool: Tool)

  /** An axis-aligned rectangle: `left`, `top`, width and height. */
  datatype Box = Box(left: int, top: int, w: int, h: int)

  /** `Rect.collidepoint`: the left and top edges are inside, the right and
      bottom edges are not. */
  predicate Collides(b: Box, p: Pos)
    ensures Collides(b, p) ==> b.w > 0 && b.h > 0
  {
    b.left <= p.x < b.left + b.w && b.top <= p.y < b.top + b.h
  }

  const ROW2_Y: int := 25
  const ROW3_Y: int := 65
  const ROW4_Y: int := 115
  const BUTTON_Y: int := ROW2_Y + 5
  const BUTTON_HEIGHT: int := 30
  const BUTTON_W: int := 75

  /** Where each button is drawn. */
  function BoxOf(b: Button): (r: Box)
    ensures r.top == BUTTON_Y && r.h == BUTTON_HEIGHT
    ensures 0 <= r.left && 0 < r.w && r.left + r.w <= WIDTH
  {
    match b
    case ToolButton(TextTool) => Box(10, BUTTON_Y, BUTTON_W, BUTTON_HEIGHT)
    case ToolButton(Triangle) => Box(90, BUTTON_Y, BUTTON_W, BUTTON_HEIGHT)
    case ToolButton(CircleTool) => Box(170, BUTTON_Y, BUTTON_W, BUTTON_HEIGHT)
    case ToolButton(Fill) => Box(250, BUTTON_Y, BUTTON_W, BUTTON_HEIGHT)
    case ToolButton(Brush) => Box(330, BUTTON_Y, BUTTON_W, BUTTON_HEIGHT)
    case ToolButton(Rectangle) => Box(410, BUTTON_Y, BUTTON_W, BUTTON_HEIGHT)
    case UndoButton => Box(WIDTH - 220, BUTTON_Y, 65, BUTTON_HEIGHT)
    case RedoButton => Box(WIDTH - 150, BUTTON_Y, 65, BUTTON_HEIGHT)
    case Save => Box(WIDTH - 80, BUTTON_Y, 65, BUTTON_HEIGHT)
  }

  /** The button a click in the tool row hits, tested in the program's order. */
  function ButtonAt(p: Pos): (r: Option<Button>)
    ensures r.Some? ==> Collides(BoxOf(r.value), p)
  {
    if Collides(BoxOf(Save), p) then Some(Save)
    else if Collides(BoxOf(UndoButton), p) then Some(UndoButton)
    else if Collides(BoxOf(RedoButton), p) then Some(RedoButton)
    else if Collides(BoxOf(ToolButton(TextTool)), p) then Some(ToolButton(TextTool))
    else if Collides(BoxOf(ToolButton(Triangle)), p) then Some(ToolButton(Triangle))
    else if Collides(BoxOf(ToolButton(CircleTool)), p) then Some(ToolButton(CircleTool))
    else if Collides(BoxOf(ToolButton(Fill)), p) then Some(ToolButton(Fill))
    else if Collides(BoxOf(ToolButton(Rectangle)), p) then Some(ToolButton(Rectangle))
    else if Collides(BoxOf(ToolButton(Brush)), p) then Some(ToolButton(Brush))
    else None
  }

  /** The buttons do not overlap, so the order of the tests does not matter:
      a click hits a button exactly when it lies in that button's box, and
      every button lies inside the tool row. */
  lemma ButtonAtIff(p: Pos, b: Button)
    ensures ButtonAt(p) == Some(b) <==> Collides(BoxOf(b), p)
    ensures ButtonAt(p).Some? ==> ROW2_Y <= p.y <= ROW2_Y + 45
  {
  }

  /** The palette, left to right. */
  const COLORS: seq<Color> := [BLACK, RGB(255, 0, 0), RGB(0, 255, 0), RGB(0, 0, 255),
                               RGB(255, 255, 0), RGB(0, 255, 255), RGB(255, 0, 255), WHITE]

  /** Swatch `i` spans the columns `10 + 40 * i` to `10 + 40 * i + 35`, both included. */
  predicate OnSwatch(x: int, i: int)
    ensures OnSwatch(x, i) ==> 10 + 40 * (i - 1) + 35 < x < 10 + 40 * (i + 1)
  {
    10 + 40 * i <= x <= 10 + 40 * i + 35
  }

  /** The first swatch at or after index `i` whose columns hold `x`. */
  function SwatchFrom(x: int, i: nat): (r: Option<nat>)
    requires i <= |COLORS|
    ensures r.Some? ==> i <= r.value < |COLORS| && OnSwatch(x, r.value)
    decreases |COLORS| - i
  {
    if i == |COLORS| then None
    else if OnSwatch(x, i) then Some(i)
    else SwatchFrom(x, i + 1)
  }

  /** The swatch a click in the palette row hits. */
  function SwatchAt(x: int): (r: Option<nat>)
    ensures r.Some? ==> r.value < |COLORS| && OnSwatch(x, r.value)
  {
    SwatchFrom(x, 0)
  }

  /** The search from `i` misses only when no swatch from `i` on holds `x`. */
  lemma {:induction false} SwatchFromMisses(x: int, i: nat)
    requires i <= |COLORS|
    ensures SwatchFrom(x, i) == None <==> forall j :: i <= j < |COLORS| ==> !OnSwatch(x, j)
    decreases |COLORS| - i
  {
    if i < |COLORS| && !OnSwatch(x, i) {
      SwatchFromMisses(x, i + 1);
    }
  }

  /** The swatches are 5 columns apart, so a click hits swatch `i` exactly
      when it lies within that swatch's columns. */
  lemma SwatchAtIff(x: int, i: nat)
    ensures SwatchAt(x) == Some(i) <==> i < |COLORS| && OnSwatch(x, i)
  {
    SwatchFromMisses(x, 0);
  }

  const WHEEL_CENTER: Pos := Pos(60, ROW4_Y + 22)
  const WHEEL_RADIUS: int := 18

  /** `get_color_from_wheel` finds a colour: the click lies within the wheel's
      radius. Comparing the squared distance with the squared radius decides
      the program's `sqrt(dx*dx + dy*dy) <= 18` exactly on integer points. */
  predicate InWheel(p: Pos)
    ensures InWheel(p) ==> WHEEL_CENTER.x - WHEEL_RADIUS <= p.x <= WHEEL_CENTER.x + WHEEL_RADIUS
    ensures InWheel(p) ==> WHEEL_CENTER.y - WHEEL_RADIUS <= p.y <= WHEEL_CENTER.y + WHEEL_RADIUS
  {
    var dx, dy := p.x - WHEEL_CENTER.x, p.y - WHEEL_CENTER.y;
    assert dx * dx >= 0 && dy * dy >= 0;
    SquareExceeds(dx, WHEEL_RADIUS);
    SquareExceeds(dy, WHEEL_RADIUS);
    dx * dx + dy * dy <= WHEEL_RADIUS * WHEEL_RADIUS
  }

  /** The wheel lies below the palette row, so testing it first never takes
      a click away from a button or a swatch. */
  lemma WheelBelowRows(p: Pos)
    requires InWheel(p)
    ensures p.y > ROW3_Y + 45 && !(ROW2_Y <= p.y <= ROW2_Y + 45)
  {
    var dx, dy := p.x - WHEEL_CENTER.x, p.y - WHEEL_CENTER.y;
    assert dx * dx >= 0;
    SquareExceeds(dy, WHEEL_RADIUS);
  }

  /** A number further from zero than `r` has a square larger than `r * r`. */
  lemma SquareExceeds(a: int, r: int)
    requires 0 <= r
    ensures (a > r || a < -r) ==> a * a > r * r
  {
    if a > r {
      assert a * a - r * r == (a - r) * (a + r);
    } else if a < -r {
      assert a * a - r * r == (-a - r) * (-a + r);
    }
  }
}
