/** The sketchpad's state as a value, each event handler as a function on
    that value, and the properties of event sequences.

    The canvas is abstracted as the log of segments stroked onto it: one
    `beginPath/moveTo/lineTo/stroke` appends one segment, clearing the whole
    canvas empties the log. Pointer events carry only their surface-local
    point `(offsetX, offsetY)`. */
module PadModel {

  type Color = string

  /** The fixed palette offered to the user; its first entry is the initial colour. */
  const Palette: seq<Color> := ["#000000", "#FFDD57", "#4286f4", "#23d160", "#FF8600", "#ff3860"]

  /** The colour the eraser paints with: the canvas background. */
  const EraserColor: Color := "#FFFFFF"

  /** The brush width the state starts with; no handler changes it. */
  const InitialLineWidth: int := 10

  /** The constant the cursor overlay is shifted by: written out as a literal,
      not computed from the brush width. */
  const CursorShift: int := 10

  datatype Point = Point(x: int, y: int)

  /** One stroked line: from, to, stroke colour and line width. */
  datatype Segment = Segment(from: Point, to: Point, color: Color, width: int)

  /** The computed style of the cursor overlay, as numbers and a colour. */
  datatype Style = Style(width: int, height: int, background: Color)

  /** The instance state, plus the segment log standing for the canvas. */
  datatype Pad = Pad(
    canvasTop: int,
    canvasLeft: int,
    lastX: int,
    lastY: int,
    lineWidth: int,
    isDrawing: bool,
    isEraser: bool,
    selectedColor: Color,
    segments: seq<Segment>)
  {
    /** Where the stroke in progress currently ends. */
    function Last(): Point { Point(lastX, lastY) }
  }

  function Initial(): Pad {
    Pad(0, 0, 0, 0, InitialLineWidth, false, false, Palette[0], [])
  }

  // ---------------------------------------------------------------------
  // Handlers, one function each

  /** `draw`: nothing unless a stroke is in progress; otherwise one segment
      from the last point to `p`, and `p` becomes the last point. */
  function Draw(s: Pad, p: Point): Pad {
    if !s.isDrawing then s
    else s.(segments := s.segments + [Segment(s.Last(), p, s.selectedColor, s.lineWidth)],
            lastX := p.x, lastY := p.y)
  }

  function MouseDown(s: Pad, p: Point): Pad {
    s.(isDrawing := true, lastX := p.x, lastY := p.y)
  }

  function MouseUp(s: Pad): Pad {
    s.(isDrawing := false)
  }

  function MouseOut(s: Pad): Pad {
    s.(isDrawing := false)
  }

  /** `onMouseEnter`, with the canvas element's offsets as parameters. */
  function MouseEnter(s: Pad, top: int, left: int): Pad {
    s.(canvasTop := top, canvasLeft := left)
  }

  function SelectColor(s: Pad, c: Color): Pad {
    s.(selectedColor := c, isEraser := false)
  }

  function SelectEraser(s: Pad): Pad {
    s.(selectedColor := EraserColor, isEraser := true)
  }

  /** `selectTrash`: clears the canvas and the eraser flag, nothing else. */
  function SelectTrash(s: Pad): Pad {
    s.(isEraser := false, segments := [])
  }

  /** The computed `cursorStyle`. */
  function CursorStyleOf(s: Pad): Style {
    Style(s.lineWidth, s.lineWidth, s.selectedColor)
  }

  /** The translation `onMouseMove` gives the cursor overlay for a move to `p`. */
  function CursorTranslation(s: Pad, p: Point): Point {
    Point(p.x + s.canvasLeft - CursorShift, p.y + s.canvasTop - CursorShift)
  }

  // ---------------------------------------------------------------------
  // Events and runs

  datatype Event =
    | Down(p: Point)
    | Move(p: Point)
    | Up
    | Out
    | Enter(top: int, left: int)
    | PickColor(color: Color)
    | PickEraser
    | Trash

  /** The state after one event; a move's effect on the state is exactly `draw`'s. */
  function Step(s: Pad, e: Event): Pad {
    match e
    case Down(p) => MouseDown(s, p)
    case Move(p) => Draw(s, p)
    case Up => MouseUp(s)
    case Out => MouseOut(s)
    case Enter(top, left) => MouseEnter(s, top, left)
    case PickColor(c) => SelectColor(s, c)
    case PickEraser => SelectEraser(s)
    case Trash => SelectTrash(s)
  }

  function Run(s: Pad, es: seq<Event>): Pad
    decreases |es|
  {
    if es == [] then s else Run(Step(s, es[0]), es[1..])
  }

  function Moves(ps: seq<Point>): seq<Event> {
    if ps == [] then [] else [Move(ps[0])] + Moves(ps[1..])
  }

  function EndPoint(p0: Point, ps: seq<Point>): Point {
    if ps == [] then p0 else ps[|ps| - 1]
  }

  /** The stroke a pointer drawing from `p0` through the samples `ps` leaves:
      one segment per sample, each ending at its sample, the first starting
      at `p0` and every other one where the previous one ended. */
  function StrokeFrom(p0: Point, ps: seq<Point>, c: Color, w: int): (r: seq<Segment>)
    ensures |r| == |ps|
    ensures |r| > 0 ==> r[0].from == p0
    ensures forall i :: 0 <= i < |r| ==> r[i].to == ps[i] && r[i].color == c && r[i].width == w
    ensures forall i :: 0 < i < |r| ==> r[i].from == r[i - 1].to
    decreases |ps|
  {
    if ps == [] then [] else [Segment(p0, ps[0], c, w)] + StrokeFrom(ps[0], ps[1..], c, w)
  }

  // ---------------------------------------------------------------------
  // One handler at a time

  lemma DrawWhenIdle(s: Pad, p: Point)
    requires !s.isDrawing
    ensures Draw(s, p) == s
  {
  }

  lemma DrawWhenDrawing(s: Pad, p: Point)
    requires s.isDrawing
    ensures Draw(s, p).segments == s.segments + [Segment(s.Last(), p, s.selectedColor, s.lineWidth)]
    ensures Draw(s, p).Last() == p
    ensures Draw(s, p).(segments := s.segments, lastX := s.lastX, lastY := s.lastY) == s
  {
  }

  lemma MouseDownStartsStroke(s: Pad, p: Point)
    ensures MouseDown(s, p).isDrawing && MouseDown(s, p).Last() == p
    ensures MouseDown(s, p).segments == s.segments
    ensures MouseDown(s, p).(isDrawing := s.isDrawing, lastX := s.lastX, lastY := s.lastY) == s
  {
  }

  lemma StrokeEndIdempotent(s: Pad)
    ensures !MouseUp(s).isDrawing && MouseUp(s).(isDrawing := s.isDrawing) == s
    ensures !MouseOut(s).isDrawing && MouseOut(s).(isDrawing := s.isDrawing) == s
    ensures MouseUp(MouseUp(s)) == MouseUp(s) && MouseOut(MouseOut(s)) == MouseOut(s)
  {
  }

  lemma EraserThenColor(s: Pad, c: Color)
    ensures SelectColor(SelectEraser(s), c) == SelectColor(s, c)
    ensures SelectColor(SelectEraser(s), c).selectedColor == c
    ensures !SelectColor(SelectEraser(s), c).isEraser
  {
  }

  /** A segment drawn after picking the eraser is in the background colour. */
  lemma EraserSegmentIsBackground(s: Pad, p: Point)
    requires s.isDrawing
    ensures Draw(SelectEraser(s), p).segments == s.segments + [Segment(s.Last(), p, EraserColor, s.lineWidth)]
  {
  }

  lemma TrashEffect(s: Pad)
    ensures SelectTrash(s).segments == Initial().segments
    ensures !SelectTrash(s).isEraser
    ensures SelectTrash(s).(isEraser := s.isEraser, segments := s.segments) == s
  {
  }

  /** After eraser then trash the eraser flag is off but the colour stays the
      background colour. */
  lemma TrashAfterEraser(s: Pad)
    ensures !SelectTrash(SelectEraser(s)).isEraser
    ensures SelectTrash(SelectEraser(s)).selectedColor == EraserColor
  {
  }

  /** Trash in the middle of a stroke: the next move draws, onto the empty
      canvas, a segment from the origin recorded before the clear. */
  lemma TrashMidStroke(s: Pad, p: Point)
    requires s.isDrawing
    ensures Draw(SelectTrash(s), p).segments == [Segment(s.Last(), p, s.selectedColor, s.lineWidth)]
  {
  }

  lemma CursorStyleMirrorsTool(s: Pad)
    ensures CursorStyleOf(s).width == s.lineWidth && CursorStyleOf(s).height == s.lineWidth
    ensures CursorStyleOf(s).background == s.selectedColor
    ensures CursorStyleOf(Initial()) == Style(10, 10, "#000000")
  {
  }

  /** The cursor translation is the surface-local point plus the offsets last
      recorded on entry, minus the fixed shift; it ignores the stroke state. */
  lemma CursorFollowsPointer(s: Pad, p: Point, top: int, left: int)
    ensures CursorTranslation(MouseEnter(s, top, left), p) == Point(p.x + left - 10, p.y + top - 10)
    ensures CursorTranslation(Draw(s, p), p) == CursorTranslation(s, p)
  {
  }

  // ---------------------------------------------------------------------
  // Runs of events

  lemma {:induction false} RunAppend(s: Pad, a: seq<Event>, b: seq<Event>)
    ensures Run(s, a + b) == Run(Run(s, a), b)
    decreases |a|
  {
    if a == [] {
      assert a + b == b;
    } else {
      assert (a + b)[0] == a[0];
      assert (a + b)[1..] == a[1..] + b;
      RunAppend(Step(s, a[0]), a[1..], b);
    }
  }

  /** Moving the pointer while no stroke is in progress changes nothing. */
  lemma {:induction false} MovesWhileIdle(s: Pad, ps: seq<Point>)
    requires !s.isDrawing
    ensures Run(s, Moves(ps)) == s
    decreases |ps|
  {
    if ps != [] {
      var es := Moves(ps);
      assert es[0] == Move(ps[0]) && es[1..] == Moves(ps[1..]);
      MovesWhileIdle(s, ps[1..]);
    }
  }

  /** A run of moves is one `draw` to the first sample followed by the run
      of the rest. */
  lemma RunMovesUnfold(s: Pad, ps: seq<Point>)
    requires ps != []
    ensures Run(s, Moves(ps)) == Run(Draw(s, ps[0]), Moves(ps[1..]))
  {
    var es := Moves(ps);
    assert es[0] == Move(ps[0]) && es[1..] == Moves(ps[1..]);
  }

  /** Moving the pointer while a stroke is in progress appends the chained
      stroke through the samples and changes nothing but the log and the
      last point. */
  lemma {:induction false} MovesWhileDrawing(s: Pad, ps: seq<Point>)
    requires s.isDrawing
    ensures Run(s, Moves(ps)).segments == s.segments + StrokeFrom(s.Last(), ps, s.selectedColor, s.lineWidth)
    ensures Run(s, Moves(ps)).Last() == EndPoint(s.Last(), ps)
    ensures Run(s, Moves(ps)) == s.(segments := Run(s, Moves(ps)).segments,
                                    lastX := Run(s, Moves(ps)).lastX, lastY := Run(s, Moves(ps)).lastY)
    decreases |ps|
  {
    if ps != [] {
      var c, w := s.selectedColor, s.lineWidth;
      var s1 := Draw(s, ps[0]);
      RunMovesUnfold(s, ps);
      MovesWhileDrawing(s1, ps[1..]);
      var head := [Segment(s.Last(), ps[0], c, w)];
      var tail := StrokeFrom(ps[0], ps[1..], c, w);
      assert StrokeFrom(s.Last(), ps, c, w) == head + tail;
      assert s1.segments == s.segments + head;
      assert s1.segments + tail == s.segments + (head + tail);
      if ps[1..] != [] {
        assert ps[1..][|ps[1..]| - 1] == ps[|ps| - 1];
      }
    }
  }

  /** Pointer down at `p0`, moves through `ps`, pointer up: the canvas gains
      exactly the stroke from `p0` through every sample in order, and the
      tool state is what it was. */
  lemma StrokeOfOneGesture(s: Pad, p0: Point, ps: seq<Point>)
    ensures Run(s, [Down(p0)] + Moves(ps) + [Up]).segments
         == s.segments + StrokeFrom(p0, ps, s.selectedColor, s.lineWidth)
    ensures !Run(s, [Down(p0)] + Moves(ps) + [Up]).isDrawing
    ensures Run(s, [Down(p0)] + Moves(ps) + [Up]).selectedColor == s.selectedColor
    ensures Run(s, [Down(p0)] + Moves(ps) + [Up]).isEraser == s.isEraser
  {
    var s1 := MouseDown(s, p0);
    RunAppend(s, [Down(p0)], Moves(ps));
    RunAppend(s, [Down(p0)] + Moves(ps), [Up]);
    assert Run(s, [Down(p0)]) == s1;
    MovesWhileDrawing(s1, ps);
  }

  /** After a pointer up (or before any pointer down), moves draw nothing. */
  lemma MovesAfterStrokeEnd(s: Pad, ps: seq<Point>)
    ensures Run(s, [Up] + Moves(ps)) == MouseUp(s)
    ensures Run(s, [Out] + Moves(ps)) == MouseOut(s)
    ensures Run(Initial(), Moves(ps)) == Initial()
  {
    RunAppend(s, [Up], Moves(ps));
    RunAppend(s, [Out], Moves(ps));
    assert Run(s, [Up]) == MouseUp(s);
    assert Run(s, [Out]) == MouseOut(s);
    MovesWhileIdle(MouseUp(s), ps);
    MovesWhileIdle(MouseOut(s), ps);
    MovesWhileIdle(Initial(), ps);
  }

  // ---------------------------------------------------------------------
  // Invariants of every reachable state

  /** The brush width keeps its initial value, and eraser mode implies the
      background colour. (The converse fails: see TrashAfterEraser.) */
  ghost predicate Inv(s: Pad) {
    s.lineWidth == InitialLineWidth && (s.isEraser ==> s.selectedColor == EraserColor)
  }

  lemma StepKeepsInv(s: Pad, e: Event)
    requires Inv(s)
    ensures Inv(Step(s, e))
  {
  }

  lemma {:induction false} RunKeepsInv(s: Pad, es: seq<Event>)
    requires Inv(s)
    ensures Inv(Run(s, es))
    decreases |es|
  {
    if es != [] {
      StepKeepsInv(s, es[0]);
      RunKeepsInv(Step(s, es[0]), es[1..]);
    }
  }

  lemma ReachableInv(es: seq<Event>)
    ensures Inv(Run(Initial(), es))
    ensures Run(Initial(), es).lineWidth == 10
  {
    RunKeepsInv(Initial(), es);
  }

  /** In every reachable state the fixed shift of 10 equals the brush width:
      the overlay is moved up and left by one whole brush width, not by half
      of it. */
  lemma CursorShiftIsLineWidth(es: seq<Event>, p: Point)
    ensures var s := Run(Initial(), es);
      CursorTranslation(s, p) == Point(p.x + s.canvasLeft - s.lineWidth, p.y + s.canvasTop - s.lineWidth)
    ensures CursorStyleOf(Run(Initial(), es)).width == 10
  {
    ReachableInv(es);
  }

  /** The colour in use is a palette entry or the background colour. */
  ghost predicate ColorFromTools(s: Pad) {
    s.selectedColor in Palette || s.selectedColor == EraserColor
  }

  /** Colour selections in `es` only pick palette entries, as the swatch list does. */
  ghost predicate PicksFromPalette(es: seq<Event>) {
    forall i :: 0 <= i < |es| && es[i].PickColor? ==> es[i].color in Palette
  }

  lemma {:induction false} RunKeepsColorFromTools(s: Pad, es: seq<Event>)
    requires ColorFromTools(s) && PicksFromPalette(es)
    ensures ColorFromTools(Run(s, es))
    decreases |es|
  {
    if es != [] {
      assert es[0].PickColor? ==> es[0].color in Palette;
      assert ColorFromTools(Step(s, es[0]));
      assert forall i :: 0 <= i < |es[1..]| ==> es[1..][i] == es[i + 1];
      RunKeepsColorFromTools(Step(s, es[0]), es[1..]);
    }
  }

  lemma PaletteColorsOnly(es: seq<Event>)
    requires PicksFromPalette(es)
    ensures ColorFromTools(Run(Initial(), es))
  {
    RunKeepsColorFromTools(Initial(), es);
  }
}
