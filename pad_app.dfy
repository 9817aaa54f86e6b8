/** The sketchpad instance: the reactive data as fields that its handlers
    assign, and a segment log standing for the canvas that `draw` strokes
    onto and `selectTrash` clears. Each handler is tied to its function in
    PadModel, so every property proved there holds of the instance. */
module PadApp {
  import opened PadModel

  class Sketchpad {
    var canvasTop: int
    var canvasLeft: int
    var lastX: int
    var lastY: int
    var lineWidth: int
    var isDrawing: bool
    var isEraser: bool
    var selectedColor: Color
    const colors: seq<Color>
    /** What has been stroked onto the canvas since it was last cleared. */
    var segments: seq<Segment>

    /** The instance's data as a PadModel value. */
    function State(): Pad
      reads this
    {
      Pad(canvasTop, canvasLeft, lastX, lastY, lineWidth, isDrawing, isEraser, selectedColor, segments)
    }

    /** What every reachable instance satisfies. */
    ghost predicate Valid()
      reads this
    {
      Inv(State()) && colors == Palette
    }

    constructor ()
      ensures State() == Initial() && Valid()
      ensures lineWidth == 10 && !isDrawing && !isEraser && lastX == 0 && lastY == 0
      ensures canvasTop == 0 && canvasLeft == 0 && segments == []
      ensures |colors| == 6 && selectedColor == colors[0] == "#000000"
    {
      canvasTop, canvasLeft := 0, 0;
      lastX, lastY := 0, 0;
      lineWidth := 10;
      isDrawing, isEraser := false, false;
      selectedColor := "#000000";
      colors := Palette;
      segments := [];
    }

    /** The computed `cursorStyle`. */
    function CursorStyle(): (r: Style)
      reads this
      ensures r.width == lineWidth && r.height == lineWidth && r.background == selectedColor
    {
      CursorStyleOf(State())
    }

    method Draw(p: Point)
      modifies this`segments, this`lastX, this`lastY
      ensures !old(isDrawing) ==> segments == old(segments) && lastX == old(lastX) && lastY == old(lastY)
      ensures old(isDrawing) ==>
        segments == old(segments) + [Segment(Point(old(lastX), old(lastY)), p, selectedColor, lineWidth)]
        && lastX == p.x && lastY == p.y
      ensures State() == PadModel.Draw(old(State()), p)
      ensures old(Valid()) ==> Valid()
    {
      if !isDrawing {
        return;
      }
      segments := segments + [Segment(Point(lastX, lastY), p, selectedColor, lineWidth)];
      lastX, lastY := p.x, p.y;
    }

    method OnMouseDown(p: Point)
      modifies this`isDrawing, this`lastX, this`lastY
      ensures isDrawing && lastX == p.x && lastY == p.y
      ensures State() == MouseDown(old(State()), p)
      ensures old(Valid()) ==> Valid()
    {
      isDrawing := true;
      lastX, lastY := p.x, p.y;
    }

    method OnMouseUp()
      modifies this`isDrawing
      ensures !isDrawing
      ensures State() == MouseUp(old(State()))
      ensures old(Valid()) ==> Valid()
    {
      isDrawing := false;
    }

    /** Behaves as `Draw(p)`, then returns where the cursor overlay is moved to. */
    method OnMouseMove(p: Point) returns (cursor: Point)
      modifies this`segments, this`lastX, this`lastY
      ensures State() == PadModel.Draw(old(State()), p)
      ensures cursor == CursorTranslation(State(), p)
      ensures cursor == Point(p.x + canvasLeft - 10, p.y + canvasTop - 10)
      ensures old(Valid()) ==> Valid() && cursor == Point(p.x + canvasLeft - lineWidth, p.y + canvasTop - lineWidth)
    {
      Draw(p);
      cursor := Point(p.x + canvasLeft - 10, p.y + canvasTop - 10);
    }

    method OnMouseOut()
      modifies this`isDrawing
      ensures !isDrawing
      ensures State() == MouseOut(old(State()))
      ensures old(Valid()) ==> Valid()
    {
      isDrawing := false;
    }

    /** `top` and `left` are the canvas element's offsets at the time of entry. */
    method OnMouseEnter(top: int, left: int)
      modifies this`canvasTop, this`canvasLeft
      ensures canvasTop == top && canvasLeft == left
      ensures State() == MouseEnter(old(State()), top, left)
      ensures old(Valid()) ==> Valid()
    {
      canvasTop, canvasLeft := top, left;
    }

    method SelectColor(c: Color)
      modifies this`selectedColor, this`isEraser
      ensures selectedColor == c && !isEraser
      ensures State() == PadModel.SelectColor(old(State()), c)
      ensures old(Valid()) ==> Valid()
    {
      selectedColor := c;
      isEraser := false;
    }

    method SelectEraser()
      modifies this`selectedColor, this`isEraser
      ensures selectedColor == EraserColor == "#FFFFFF" && isEraser
      ensures State() == PadModel.SelectEraser(old(State()))
      ensures old(Valid()) ==> Valid()
    {
      selectedColor := "#FFFFFF";
      isEraser := true;
    }

    method SelectTrash()
      modifies this`isEraser, this`segments
      ensures !isEraser && segments == []
      ensures State() == PadModel.SelectTrash(old(State()))
      ensures old(Valid()) ==> Valid()
    {
      isEraser := false;
      segments := [];
    }
  }

  /** One gesture on a fresh sketchpad: press at `p0`, move to `p1` and `p2`,
      release. The canvas then holds the two chained black segments. */
  method OneStroke(p0: Point, p1: Point, p2: Point) returns (drawn: seq<Segment>)
    ensures drawn == [Segment(p0, p1, "#000000", 10), Segment(p1, p2, "#000000", 10)]
  {
    var pad := new Sketchpad();
    pad.OnMouseDown(p0);
    var c1 := pad.OnMouseMove(p1);
    var c2 := pad.OnMouseMove(p2);
    pad.OnMouseUp();
    drawn := pad.segments;
  }

  /** Pick the eraser, then trash, then draw a segment: the eraser flag is
      off, yet the segment is still in the background colour. */
  method EraseTrashDraw(p0: Point, p1: Point) returns (drawn: seq<Segment>, eraser: bool)
    ensures drawn == [Segment(p0, p1, EraserColor, 10)] && !eraser
  {
    var pad := new Sketchpad();
    pad.SelectEraser();
    pad.SelectTrash();
    pad.OnMouseDown(p0);
    var c := pad.OnMouseMove(p1);
    drawn, eraser := pad.segments, pad.isEraser;
  }
}
