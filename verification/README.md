# Drawing canvas: handlers and undo history

A model of the event handlers of the drawing page `app/page.tsx`. The user
paints brush strokes, erases, and drags rectangle and circle outlines onto a
raster canvas. Undo restores snapshots of the pixel buffer. There is also a
redo button and a clear button.

The model has three layers:

- `raster.dfy`, module `Raster`: images as values. It holds the snapshots
  that `getImageData` returns and the context's `clearRect`, which the eraser
  and the Clear button use.
- `editor.dfy`, module `Editor`: the handlers as a state machine over values,
  one function per handler. This is the specification. Sequences of pointer
  and button events are replayed by `Run`, and the lemmas about whole
  sessions are proved here.
- `drawing_canvas.dfy`, module `Canvas`: the widget as the page runs it. The
  class `DrawingCanvas` holds a fixed-size `array2` pixel buffer, the `seq`
  fields `history` and `redoStack`, the session fields `isDrawing` and
  `startPos`, the active tool, the stroke colour and width, and the
  context's current path. Each handler is
  a method that updates these in place. Its contract ties the new state to the
  `Editor` function applied to the old state (`Model() == Editor.Undo(old(Model()))`)
  and also states the main effects directly. Copying pixels in and out and
  clearing a rectangle are loops over the array.
- `scenarios.dfy`, module `Scenarios`: two short sessions replayed through the
  class, with what the user sees afterwards.

The canvas library's rasteriser is opaque. Brush strokes, `strokeRect`, and
`arc` followed by `stroke` are all one function value
`render: (Image, Style, Shape) -> Image`. The constructor receives it, and it
is only required to keep the image size. The `Style` argument is the colour
and line width the page currently holds. The colour picker and the width
slider change them, and the effect at lines 27-32 pushes them into the
context, so every later paint uses the new style. Strokes in different
colours can therefore share one session of events (`ColorPick` and
`WidthPick` events in `Editor.Run`).
The eraser is the only pixel effect stated exactly. It is `clearRect(x - 5, y - 5, 10, 10)`,
clipped to the canvas, and it leaves transparent black (`CLEARED`, 0).

Every handler runs to completion before the next event, so the handlers are
atomic methods. React applies the state updates queued in `startDrawing`
after the handler returns. No pixel changes in between, so the snapshot
pushed onto `history` is the buffer as it was at pointer-down.

The code promises some things that are easy to miss:

- Nothing ever pushes onto `redoStack`. It starts empty, line 98 only pops
  it, and line 109 only resets it. So it is empty in every reachable state,
  and Redo never changes anything (`Editor.RedoIsAlwaysNoOp`). The model keeps
  this as written. `Redo`'s contract still states what a pop would do.
- A shape-tool move with an empty `history` passes `undefined` to
  `putImageData`, which throws before anything changes. The model does not
  forbid this case. `Draw` reports it as `thrown` and leaves the state as it
  was.
- On a canvas without area (width or height 0), `getImageData` throws an
  IndexSizeError. It runs inside the `history` updater at line 43, which
  React calls when the page next renders. So none of the updates queued at
  lines 41-43 is committed: no snapshot is pushed and no session opens. The
  brush's `beginPath`/`moveTo` has already run. `StartDrawing` reports this
  as `thrown`, and the lemmas about strokes assume a canvas with area.

Unlike many editors, this code keeps no separate redo history:

- `undo` does not push the pre-undo buffer onto `redoStack`.
- A pointer-down leaves `redoStack` as it is.

## Model

| member | source | states |
|---|---|---|
| `Canvas.DrawingCanvas.constructor` | app/page.tsx:7-13 | after mounting: blank canvas of the given size, both stacks empty, no session, brush selected, colour "#000000", width 3 |
| `Canvas.GetImageData` | app/page.tsx:43 | the returned image is a copy of every pixel of the buffer, row by row |
| `Canvas.PutImageData` | app/page.tsx:63 | afterwards the buffer holds exactly the given image |
| `Canvas.ClearRect` | app/page.tsx:61 | afterwards the buffer is the old buffer with the rectangle, clipped to the canvas, cleared |
| `Canvas.DrawingCanvas.Paint` | app/page.tsx:57-59 | the buffer becomes the renderer's result for the old buffer, the current colour and width, and the shape |
| `Canvas.DrawingCanvas.SelectTool` | app/page.tsx:134-143 | only the active tool changes |
| `Canvas.DrawingCanvas.SetColor` | app/page.tsx:128 | the colour becomes the picked one; width and everything else unchanged |
| `Canvas.DrawingCanvas.SetLineWidth` | app/page.tsx:132 | the line width becomes the slider's value; colour and everything else unchanged |
| `Canvas.DrawingCanvas.StartDrawing` | app/page.tsx:34-48 | thrown exactly when the canvas has no area; otherwise pushes exactly one snapshot, equal to the current buffer, and sets isDrawing and startPos to the pointer; when thrown, history and session unchanged; pixels, redoStack and tool always unchanged; the brush's path restarts at the pointer |
| `Canvas.DrawingCanvas.Draw` | app/page.tsx:50-74 | follows Editor.Draw; without a session nothing changes; stacks, session and tool never change; thrown exactly when a shape tool moves with an empty history |
| `Canvas.DrawingCanvas.StopDrawing` | app/page.tsx:76-80 | isDrawing false, startPos null; buffer and both stacks unchanged |
| `Canvas.DrawingCanvas.Undo` | app/page.tsx:82-92 | empty history: no-op; otherwise history loses its last snapshot and the buffer equals it; redoStack untouched |
| `Canvas.DrawingCanvas.Redo` | app/page.tsx:94-103 | empty redoStack: no-op; otherwise pops its last snapshot, writes it to the buffer and appends it to history |
| `Canvas.DrawingCanvas.ClearCanvas` | app/page.tsx:105-111 | every pixel cleared, both stacks emptied |
| `Raster.EraserClearsWindow` | app/page.tsx:60-61 | an eraser move clears exactly the pixels in [x-5, x+5) x [y-5, y+5) that lie on the canvas and keeps every other pixel |
| `Raster.EraseIdempotent` | app/page.tsx:61 | erasing twice at one point gives the same buffer as erasing once |
| `Raster.ClearWholeIsBlank` | app/page.tsx:107 | clearRect over the whole canvas gives the blank image |
| `Editor.StepPreservesWellFormed` | app/page.tsx:34-111 | every handler keeps buffer and snapshots at the canvas size and keeps isDrawing equivalent to startPos being set |
| `Editor.ReachableSessionConsistent` | app/page.tsx:41-79 | in every reachable state isDrawing holds exactly when startPos is non-null |
| `Editor.DrawWithoutSessionIsNoOp` | app/page.tsx:51 | a move with no session (not drawing, or no startPos) changes nothing |
| `Editor.EraserMoveIdempotent` | app/page.tsx:60-61 | two eraser moves to one point leave the same state as one |
| `Editor.ShapePreviewKeepsOnlyFinal` | app/page.tsx:62-72 | after any non-empty run of shape-tool moves the buffer is the pre-stroke snapshot with the single preview for the final point; earlier previews leave no trace, stacks and session unchanged |
| `Editor.ShapeStrokeShowsOnlyFinalPreview` | app/page.tsx:62-72 | from pointer-down: a shape-tool press and any non-empty run of moves leave the pre-press buffer with the single preview from the press point to the final point, and that pre-press buffer on top of history |
| `Editor.BrushPathFollowsPointer` | app/page.tsx:44-59 | during a brush stroke the path is the anchor followed by every point moved to, each move strokes that whole path in the style current at pointer-down, and the session and snapshot stay in place |
| `Editor.RunKeepsSize` | app/page.tsx:34-111 | no sequence of events changes the canvas size |
| `Editor.StepHistory` | app/page.tsx:43 | on a canvas with area, a pointer, tool or style event pushes one snapshot of the buffer at pointer-down and otherwise leaves history alone |
| `Editor.HistoryGrowth` | app/page.tsx:43 | on a canvas with area and without undo/redo/clear, history grows by exactly one snapshot per stroke and keeps what it held |
| `Editor.StrokeSnapshotAt` | app/page.tsx:43 | on a canvas with area and without undo/redo/clear, the snapshot of the stroke begun at event d is the buffer just before d, at the position given by the strokes before d |
| `Editor.StrokesPushSnapshots` | app/page.tsx:43 | on a canvas with area and without undo/redo/clear, history grows by one per stroke, keeps its prefix, and the stroke begun at event d pushes the buffer as it was just before d |
| `Editor.UndosPopInOrder` | app/page.tsx:82-92 | j undos drop the last j snapshots and leave the j-th most recent in the buffer; redoStack untouched |
| `Editor.UndoRestoresStrokeStart` | app/page.tsx:82-92 | on a canvas with area, after strokes with no undo/redo/clear between them, j undos restore the buffer to its state just before the j-th most recent stroke began |
| `Editor.RedoStackStaysEmpty` | app/page.tsx:94-111 | no event pushes onto redoStack: once empty it stays empty |
| `Editor.RedoIsAlwaysNoOp` | app/page.tsx:94-103 | in every reachable state redoStack is empty and Redo changes nothing |
| `Editor.ClearThenUndoIsNoOp` | app/page.tsx:105-111 | clearing blanks the buffer and empties both stacks, so an undo right after it is a no-op |
| `Scenarios.TwoStrokesThenUndo` | app/page.tsx:34-103 | two brush strokes with a colour change between them, then undo, shows the canvas after the first stroke; a second undo shows the blank canvas; redo then changes nothing |
| `Scenarios.DragRectangle` | app/page.tsx:34-80 | after picking a colour and width, pressing, dragging and releasing with the rectangle tool leaves one outline in that style from the press point to the release point on the blank canvas, with one blank snapshot in history |

## Left out

- JSX, styling and button wiring (lines 122-161) are not modelled. Neither is React's asynchronous state batching: each handler is one atomic method.
- Canvas sizing from the window (lines 15-25) uses floating-point window measurements. Width and height are constructor parameters instead.
- The width slider's range 1-20 (line 132) is not modelled: `SetLineWidth` takes any integer, as the handler does not check it either. The colour string is passed to the renderer uninterpreted.
- When `getImageData` throws on a canvas without area, React unmounts the page. The model instead reports `thrown`, leaves the state as it was apart from the brush's path, and keeps handling events.
- Raster geometry is not modelled: brush path stroking, `strokeRect` and `arc` with `Math.sqrt` and `Math.PI` (lines 58-59, 66-70). These are foreign canvas-library calls. They are one opaque `render` function that keeps the image size.
- Canvas.DrawingCanvas.Paint: the library rasterises in place; the model reads the buffer, applies `render` and writes the result back.
- Conversion from client to canvas coordinates (lines 38-40, 52-54) is not modelled. Pointer positions are integer canvas coordinates, so fractional pointer positions, and the eraser's partial-pixel clearing at them, are not modelled.
- `saveImage` (lines 113-120) is DOM and PNG-encoding I/O.
- The guards for a missing canvas or context (lines 37, 51, 83, 95, 106) and the `lastState && ctx` / `nextState && ctx` checks always pass after mounting, so their early returns are not modelled.
- `closePath` (lines 72, 77) and the arc segment the circle tool adds to the context's path are not represented in `path`. They would only matter if a brush move extended a path that no brush pointer-down had begun.
- Pixel colours are plain integers. The RGBA byte layout of image data is not modelled.
