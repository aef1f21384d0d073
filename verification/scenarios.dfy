/** Clients of the drawing widget that replay short sessions and state what
    the user sees afterwards, using only the handlers' contracts. */
module Scenarios {
  import opened Raster
  import opened Editor
  import opened Canvas

  /** Two brush strokes with a colour change between them, then Undo twice:
      the first undo shows the canvas as the first stroke left it, the second
      shows the blank canvas, and Redo afterwards changes nothing. */
  method TwoStrokesThenUndo(width: nat, height: nat, render: Renderer, a: Point, b: Point,
                            recolor: string, c: Point, d: Point)
    returns (afterFirstStroke: Image, afterOneUndo: Image, afterTwoUndos: Image, afterRedo: Image)
    requires KeepsGrid(render, height, width)
    requires width > 0 && height > 0
    ensures afterOneUndo == afterFirstStroke
    ensures afterTwoUndos == Blank(height, width)
    ensures afterRedo == afterTwoUndos
  {
    var canvas := new DrawingCanvas(width, height, render);
    var _ := canvas.StartDrawing(a);
    var _ := canvas.Draw(b);
    canvas.StopDrawing();
    afterFirstStroke := GetImageData(canvas.pixels);
    canvas.SetColor(recolor);
    var _ := canvas.StartDrawing(c);
    var _ := canvas.Draw(d);
    canvas.StopDrawing();
    canvas.Undo();
    afterOneUndo := GetImageData(canvas.pixels);
    canvas.Undo();
    afterTwoUndos := GetImageData(canvas.pixels);
    canvas.Redo();
    afterRedo := GetImageData(canvas.pixels);
  }

  /** Rectangle tool in a chosen colour and width: press at `start`, drag
      through `via` to `end`, release. The buffer holds exactly one outline,
      from `start` to `end` in that style, painted on the blank canvas, and
      `history` holds the one blank snapshot. */
  method DragRectangle(width: nat, height: nat, render: Renderer, color: string, lineWidth: int,
                       start: Point, via: Point, end: Point)
    returns (image: Image, undoStack: seq<Image>)
    requires KeepsGrid(render, height, width)
    requires width > 0 && height > 0
    ensures image == render(Blank(height, width), Style(color, lineWidth),
                            RectOutline(start.x, start.y, end.x - start.x, end.y - start.y))
    ensures undoStack == [Blank(height, width)]
  {
    var canvas := new DrawingCanvas(width, height, render);
    canvas.SelectTool(Rectangle);
    canvas.SetColor(color);
    canvas.SetLineWidth(lineWidth);
    var _ := canvas.StartDrawing(start);
    var _ := canvas.Draw(via);
    var _ := canvas.Draw(end);
    canvas.StopDrawing();
    image := GetImageData(canvas.pixels);
    undoStack := canvas.history;
  }
}
