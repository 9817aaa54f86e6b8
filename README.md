# Not-fancy canvas drawing: the sketchpad's tool-and-pointer state

This project models the one Vue instance of the sketchpad: its data
(`canvasTop`, `canvasLeft`, `lastX`, `lastY`, `lineWidth`, `isDrawing`,
`isEraser`, `selectedColor` and the fixed six-colour palette), its computed
`cursorStyle`, and its handlers `draw`, `onMouseDown`, `onMouseUp`,
`onMouseMove`, `onMouseOut`, `onMouseEnter`, `selectColor`, `selectEraser`
and `selectTrash`.

The canvas is abstracted as a log of stroked segments. Each segment is
`(from, to, colour, width)`. One `beginPath/moveTo/lineTo/stroke` appends one
segment. `clearRect` over the whole canvas empties the log. Each pointer
event is reduced to the surface-local point `(offsetX, offsetY)` it carries.

- `pad_model.dfy`, module `PadModel`: the state as a value (`Pad`), one function
  per handler, and the event sequences built from them (`Event`, `Step`,
  `Run`). The lemmas about single handlers and about whole gestures live here.
  So do the invariants that every reachable state keeps.
- `pad_app.dfy`, module `PadApp`: the class `Sketchpad`. Its fields are the
  instance's data. Each handler is a method that assigns only the fields the
  source assigns, and its `modifies` frame names just those fields. Each
  method states its new fields and ties `State()` to its `PadModel` function.
  Two client methods run the class through a whole gesture.

One might expect the cursor overlay to be shifted by half the brush width,
to centre it on the draw point. The code subtracts a literal `10`
(vue.js:70). The brush width is `10` at start and nothing changes it. So the
shift equals the whole brush width, not half of it. The model follows the
code. `CursorShiftIsLineWidth` proves that, in every reachable state,
the shift equals `lineWidth`. The overlay's CSS is not part of this model, so
whether the result looks centred on screen is not decided here.

## Model

| member | source | states |
|---|---|---|
| PadApp.Sketchpad.constructor | vue.js:3-20 | The initial state: offsets and last point 0, `lineWidth` 10, not drawing, no eraser, empty canvas, a six-entry palette, and `selectedColor` equal to its first entry `#000000`. |
| PadApp.Sketchpad.CursorStyle | vue.js:22-27 | The cursor's width and height are both `lineWidth`, and its background is `selectedColor`. |
| PadApp.Sketchpad.Draw | vue.js:31-54 | When not drawing, the log and the last point are unchanged. When drawing, exactly one segment from the old last point to `p` is appended, in `selectedColor` at `lineWidth`, and `p` becomes the last point. No other field is in its frame. The object invariant is kept. |
| PadApp.Sketchpad.OnMouseDown | vue.js:55-59 | Sets drawing on and the last point to `p`. The log and the tools are outside its frame. |
| PadApp.Sketchpad.OnMouseUp | vue.js:60-62 | Sets drawing off and touches nothing else. |
| PadApp.Sketchpad.OnMouseMove | vue.js:63-71 | The state changes exactly as `Draw(p)` changes it. The returned cursor position is `p` plus the recorded offsets minus 10, and in a valid state that shift equals `lineWidth`. |
| PadApp.Sketchpad.OnMouseOut | vue.js:72-74 | Sets drawing off and touches nothing else. |
| PadApp.Sketchpad.OnMouseEnter | vue.js:75-78 | Records the canvas element's top and left offsets, given as parameters. |
| PadApp.Sketchpad.SelectColor | vue.js:79-82 | Sets the colour to `c` and the eraser flag off. |
| PadApp.Sketchpad.SelectEraser | vue.js:83-86 | Sets the colour to `#FFFFFF` and the eraser flag on. |
| PadApp.Sketchpad.SelectTrash | vue.js:87-91 | Empties the log and sets the eraser flag off. The colour, last point, drawing flag and width are outside its frame. |
| PadApp.OneStroke | vue.js:55-64 | On a fresh pad, press at p0, move to p1 then p2, and release. This leaves exactly the black width-10 segments p0→p1 and p1→p2. |
| PadApp.EraseTrashDraw | vue.js:83-91 | Eraser, then trash, then a one-move stroke. This leaves the eraser flag off, yet the segment is drawn in `#FFFFFF`. |
| PadModel.StrokeFrom | vue.js:45-53 | The stroke through samples `ps` has one segment per sample, and each segment ends at its sample. The first segment starts at the origin. Every later segment starts where the previous one ended. All segments share one colour and width. |
| PadModel.DrawWhenIdle | vue.js:31-34 | `draw` when not drawing leaves the whole state unchanged. |
| PadModel.DrawWhenDrawing | vue.js:38-53 | `draw` when drawing appends the one segment from the last point to `p`, moves the last point to `p`, and changes nothing else. |
| PadModel.MouseDownStartsStroke | vue.js:55-59 | Mouse-down starts a stroke at `p`, draws nothing, and changes nothing else. |
| PadModel.StrokeEndIdempotent | vue.js:60-74 | Mouse-up and mouse-out each clear only `isDrawing`, and applying either twice is the same as applying it once. |
| PadModel.EraserThenColor | vue.js:79-86 | Eraser followed by `selectColor(c)` is the same state as `selectColor(c)` alone: colour `c`, eraser off. |
| PadModel.EraserSegmentIsBackground | vue.js:38-49 | A segment drawn after picking the eraser has colour `#FFFFFF`. |
| PadModel.TrashEffect | vue.js:87-91 | Trash makes the log equal to the initial empty log, turns the eraser off, and changes nothing else. |
| PadModel.TrashAfterEraser | vue.js:83-91 | After eraser then trash, the eraser flag is off while the colour stays `#FFFFFF`. |
| PadModel.TrashMidStroke | vue.js:87-91 | Trash mid-stroke keeps the origin. The next move puts on the empty canvas exactly one segment, starting at the point recorded before the clear. |
| PadModel.CursorStyleMirrorsTool | vue.js:22-27 | The cursor style mirrors `lineWidth` and `selectedColor`. In the initial state it is 10 by 10 and `#000000`. |
| PadModel.CursorFollowsPointer | vue.js:66-77 | The cursor's position is the point plus the offsets last recorded by mouse-enter, minus 10. Drawing does not change it. |
| PadModel.RunAppend | vue.js:31-91 | Running two event sequences one after the other is the same as running their concatenation. |
| PadModel.RunMovesUnfold | vue.js:63-64 | A run of moves first draws to the first sample and then runs the rest. |
| PadModel.MovesWhileIdle | vue.js:31-34 | Any number of moves while not drawing leave the state unchanged. |
| PadModel.MovesWhileDrawing | vue.js:38-53 | Moves while drawing append exactly the chained stroke from the last point through every sample, and leave the last point at the final sample. Nothing else changes. |
| PadModel.StrokeOfOneGesture | vue.js:55-64 | Down at p0, then moves, then up: the log gains exactly the chained stroke from p0 through the samples in order. Drawing is off afterwards, and the colour and eraser flag are unchanged. |
| PadModel.MovesAfterStrokeEnd | vue.js:31-34 | After mouse-up or mouse-out, or from the initial state, moves draw nothing. |
| PadModel.StepKeepsInv | vue.js:55-91 | Every handler keeps `lineWidth` at 10 and keeps "eraser on implies colour `#FFFFFF`". |
| PadModel.RunKeepsInv | vue.js:55-91 | Any event sequence keeps that invariant. |
| PadModel.ReachableInv | vue.js:8 | Every reachable state satisfies the invariant and has `lineWidth` 10. |
| PadModel.CursorShiftIsLineWidth | vue.js:66-70 | In every reachable state the hard-coded cursor shift of 10 equals `lineWidth`, and the cursor is 10 wide. |
| PadModel.RunKeepsColorFromTools | vue.js:12-19 | If every colour selection picks a palette entry, the colour stays a palette entry or `#FFFFFF`. |
| PadModel.PaletteColorsOnly | vue.js:79-86 | From the initial state, under palette-only selections, the colour in use is always a palette entry or `#FFFFFF`. |

## Left out

- Rasterisation is not modelled. That covers pixels, antialiasing, `lineJoin`/`lineCap = 'round'` (vue.js:39-40) and the canvas's width and height. These belong to the browser's 2D canvas, which cannot be seen from here, so the canvas is a segment log.
- `getCanvas` and the `$refs` lookups (vue.js:68, vue.js:92-97) are not modelled. The canvas element's `offsetTop`/`offsetLeft` become the parameters of `OnMouseEnter`.
- The cursor element's `style.transform` is a DOM effect. `OnMouseMove` returns the translation as a point instead of storing it.
- CSS strings are not built. This covers `${x}px` and `translate(...)` (vue.js:24-25, vue.js:70). The model keeps their numbers, and colours are opaque strings.
- The Vue framework is not modelled: reactivity, re-rendering, and mounting on `#app` (vue.js:1-2). Handlers are plain sequential updates.
- Browser event objects and their dispatch are not modelled. An event is the integer point it carries. The browser's coordinates may be fractional, and the model uses unbounded integers.
- The swatch list, eraser button and trash button that call the handlers are not part of this model. `PicksFromPalette` only assumes that the swatch list passes palette entries.
- `Palette` is also a module constant, and the class's `colors` field is set to it. No handler reads `colors`.
