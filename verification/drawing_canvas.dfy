/** The drawing widget as the page runs it: one object whose handlers update
    a pixel buffer in place, push and pop buffer snapshots on two stacks, and
    open and close a stroke session. Every handler is proved to take the
    widget from a state to the state the corresponding function of module
    Editor gives, so the lemmas proved there hold of this object too. */
module Canvas {
  import opened Raster
  import opened Editor

  /** The pixels of `a` as an image value. */
  ghost function ImageOf(a: array2<Colour>): (img: Image)
    reads a
    ensures IsGrid(img, a.Length0, a.Length1)
  {
    seq(a.Length0, y requires 0 <= y < a.Length0 reads a =>
      seq(a.Length1, x requires 0 <= x < a.Length1 reads a => a[y, x]))
  }

  /** An image that agrees with `a` pixel by pixel is `a`'s image. */
  lemma ImageOfAgrees(a: array2<Colour>, img: Image)
    requires IsGrid(img, a.Length0, a.Length1)
    requires forall y, x :: 0 <= y < a.Length0 && 0 <= x < a.Length1 ==> a[y, x] == img[y][x]
    ensures ImageOf(a) == img
  {
    var got := ImageOf(a);
    forall y | 0 <= y < a.Length0
      ensures got[y] == img[y]
    {
      assert |got[y]| == |img[y]|;
    }
  }

  /** getImageData(0, 0, width, height): a copy of every pixel. */
  method GetImageData(a: array2<Colour>) returns (img: Image)
    ensures img == ImageOf(a)
  {
    ghost var want := ImageOf(a);
    img := [];
    var y := 0;
    while y < a.Length0
      invariant 0 <= y <= a.Length0
      invariant img == want[..y]
    {
      var row := [];
      var x := 0;
      while x < a.Length1
        invariant 0 <= x <= a.Length1
        invariant row == want[y][..x]
      {
        row := row + [a[y, x]];
        x := x + 1;
      }
      assert row == want[y];
      assert want[..y + 1] == want[..y] + [want[y]];
      img := img + [row];
      y := y + 1;
    }
  }

  /** putImageData(img, 0, 0) with an image of the canvas's size: every
      pixel is overwritten. */
  method PutImageData(a: array2<Colour>, img: Image)
    requires IsGrid(img, a.Length0, a.Length1)
    modifies a
    ensures ImageOf(a) == img
  {
    var y := 0;
    while y < a.Length0
      invariant 0 <= y <= a.Length0
      invariant forall r, c :: 0 <= r < y && 0 <= c < a.Length1 ==> a[r, c] == img[r][c]
    {
      var x := 0;
      while x < a.Length1
        invariant 0 <= x <= a.Length1
        invariant forall r, c :: 0 <= r < y && 0 <= c < a.Length1 ==> a[r, c] == img[r][c]
        invariant forall c :: 0 <= c < x ==> a[y, c] == img[y][c]
      {
        a[y, x] := img[y][x];
        x := x + 1;
      }
      y := y + 1;
    }
    ImageOfAgrees(a, img);
  }

  /** clearRect(left, top, w, h): clears the part of the rectangle that lies
      on the canvas, pixel by pixel. */
  method ClearRect(a: array2<Colour>, left: int, top: int, w: nat, h: nat)
    modifies a
    ensures ImageOf(a) == ClearedRect(old(ImageOf(a)), left, top, w, h)
  {
    ghost var before := ImageOf(a);
    var x0 := if left < 0 then 0 else left;
    var x1 := if left + w > a.Length1 then a.Length1 else left + w;
    var y0 := if top < 0 then 0 else top;
    var y1 := if top + h > a.Length0 then a.Length0 else top + h;
    if x1 < x0 { x1 := x0; }
    if y1 < y0 { y1 := y0; }
    var y := y0;
    while y < y1
      invariant y0 <= y <= y1
      invariant forall r, c :: 0 <= r < a.Length0 && 0 <= c < a.Length1 ==>
        a[r, c] == if y0 <= r < y && x0 <= c < x1 then CLEARED else before[r][c]
    {
      var x := x0;
      while x < x1
        invariant x0 <= x <= x1
        invariant forall r, c :: 0 <= r < a.Length0 && 0 <= c < a.Length1 ==>
          a[r, c] == if (y0 <= r < y && x0 <= c < x1) || (r == y && x0 <= c < x) then CLEARED else before[r][c]
      {
        a[y, x] := CLEARED;
        x := x + 1;
      }
      y := y + 1;
    }
    ImageOfAgrees(a, ClearedRect(before, left, top, w, h));
  }

  class DrawingCanvas {
    const width: nat
    const height: nat
    /** The canvas library's rasteriser. */
    const render: Renderer
    /** The canvas's pixel buffer, `pixels[y, x]`. */
    const pixels: array2<Colour>
    /** The undo stack of buffer snapshots, most recent last. */
    var history: seq<Image>
    var redoStack: seq<Image>
    var isDrawing: bool
    var startPos: Option<Point>
    var tool: Tool
    /** The stroke style, pushed into the context whenever it changes. */
    var color: string
    var lineWidth: int
    /** The vertices of the context's current path. */
    var path: seq<Point>

    ghost predicate Valid()
      reads this
    {
      pixels.Length0 == height && pixels.Length1 == width &&
      KeepsGrid(render, height, width) &&
      (forall i :: 0 <= i < |history| ==> IsGrid(history[i], height, width)) &&
      (forall i :: 0 <= i < |redoStack| ==> IsGrid(redoStack[i], height, width)) &&
      (isDrawing <==> startPos.Some?)
    }

    /** The buffer's current contents. */
    ghost function Contents(): Image
      reads pixels
    {
      ImageOf(pixels)
    }

    /** The widget's state as a value of module Editor. */
    ghost function Model(): State
      reads this, pixels
    {
      State(width, height, Contents(), history, redoStack, isDrawing, startPos, tool,
            color, lineWidth, path)
    }

    /** Mounting: a blank `width` by `height` canvas, both stacks empty, no
        session, the brush selected, black strokes 3 pixels wide. */
    constructor (width: nat, height: nat, render: Renderer)
      requires KeepsGrid(render, height, width)
      ensures Valid() && fresh(pixels)
      ensures this.render == render
      ensures Model() == Initial(width, height)
      ensures WellFormed(Model())
    {
      this.width := width;
      this.height := height;
      this.render := render;
      pixels := new Colour[height, width]((_, _) => CLEARED);
      history := [];
      redoStack := [];
      isDrawing := false;
      startPos := None;
      tool := Brush;
      color := DEFAULT_COLOR;
      lineWidth := DEFAULT_LINE_WIDTH;
      path := [];
      new;
      ImageOfAgrees(pixels, Blank(height, width));
    }

    /** Paints `sh` onto the buffer with the canvas library, in the current
        colour and width. */
    method Paint(sh: Shape)
      requires Valid()
      modifies pixels
      ensures Contents() == render(old(Contents()), Style(color, lineWidth), sh)
    {
      var img := GetImageData(pixels);
      PutImageData(pixels, render(img, Style(color, lineWidth), sh));
    }

    /** A tool button. */
    method SelectTool(t: Tool)
      requires Valid()
      modifies this
      ensures Valid()
      ensures Model() == Editor.SelectTool(old(Model()), t)
    {
      tool := t;
    }

    /** The colour picker. */
    method SetColor(c: string)
      requires Valid()
      modifies this
      ensures Valid()
      ensures Model() == Editor.SetColor(old(Model()), c)
      ensures color == c && lineWidth == old(lineWidth)
    {
      color := c;
    }

    /** The width slider. */
    method SetLineWidth(w: int)
      requires Valid()
      modifies this
      ensures Valid()
      ensures Model() == Editor.SetLineWidth(old(Model()), w)
      ensures lineWidth == w && color == old(color)
    {
      lineWidth := w;
    }

    /** Pointer-down at `p`. `thrown` reports the IndexSizeError that
        getImageData raises on a canvas without area; the queued updates to
        the session and `history` are then lost, and only the brush's path
        has been begun. */
    method StartDrawing(p: Point) returns (thrown: bool)
      requires Valid()
      modifies this
      ensures Valid()
      ensures thrown == SnapshotThrows(old(Model()))
      ensures Model() == Editor.StartDrawing(old(Model()), p)
      ensures Contents() == old(Contents())
      ensures redoStack == old(redoStack) && tool == old(tool)
      ensures path == if tool == Brush then [p] else old(path)
      ensures !thrown ==> history == old(history) + [Contents()] && isDrawing && startPos == Some(p)
      ensures thrown ==> history == old(history) && isDrawing == old(isDrawing) && startPos == old(startPos)
    {
      thrown := width == 0 || height == 0;
      if !thrown {
        isDrawing := true;
        startPos := Some(p);
        var snapshot := GetImageData(pixels);
        history := history + [snapshot];
      }
      if tool == Brush {
        path := [p];
      }
    }

    /** Pointer-move to `p`. `thrown` reports the TypeError a shape-tool
        move raises when `history` is empty; the state is then unchanged. */
    method Draw(p: Point) returns (thrown: bool)
      requires Valid()
      modifies this, pixels
      ensures Valid()
      ensures thrown == DrawThrows(old(Model()))
      ensures Model() == Editor.Draw(old(Model()), p, render)
      ensures !old(isDrawing) || old(startPos).None? ==> Model() == old(Model())
      ensures history == old(history) && redoStack == old(redoStack)
      ensures isDrawing == old(isDrawing) && startPos == old(startPos) && tool == old(tool)
    {
      thrown := false;
      if !isDrawing || startPos.None? {
        return;
      }
      match tool
      case Brush =>
        path := path + [p];
        Paint(Polyline(path));
      case Eraser =>
        ClearRect(pixels, p.x - ERASER_HALF, p.y - ERASER_HALF, ERASER_SIZE, ERASER_SIZE);
      case _ =>
        if history == [] {
          thrown := true;
          return;
        }
        PutImageData(pixels, history[|history| - 1]);
        path := [];
        Paint(PreviewShape(tool, startPos.value, p));
    }

    /** Pointer-up or pointer-leave. */
    method StopDrawing()
      requires Valid()
      modifies this
      ensures Valid()
      ensures Model() == Editor.StopDrawing(old(Model()))
      ensures !isDrawing && startPos == None
      ensures history == old(history) && redoStack == old(redoStack)
    {
      isDrawing := false;
      startPos := None;
    }

    /** Undo button. */
    method Undo()
      requires Valid()
      modifies this, pixels
      ensures Valid()
      ensures Model() == Editor.Undo(old(Model()))
      ensures old(history) == [] ==> Model() == old(Model())
      ensures old(history) != [] ==>
        history == old(history)[..|old(history)| - 1] &&
        Contents() == old(history)[|old(history)| - 1]
      ensures redoStack == old(redoStack)
    {
      if history == [] {
        return;
      }
      var last := history[|history| - 1];
      history := history[..|history| - 1];
      PutImageData(pixels, last);
    }

    /** Redo button. */
    method Redo()
      requires Valid()
      modifies this, pixels
      ensures Valid()
      ensures Model() == Editor.Redo(old(Model()))
      ensures old(redoStack) == [] ==> Model() == old(Model())
      ensures old(redoStack) != [] ==>
        redoStack == old(redoStack)[..|old(redoStack)| - 1] &&
        Contents() == old(redoStack)[|old(redoStack)| - 1] &&
        history == old(history) + [old(redoStack)[|old(redoStack)| - 1]]
    {
      if redoStack == [] {
        return;
      }
      var next := redoStack[|redoStack| - 1];
      redoStack := redoStack[..|redoStack| - 1];
      PutImageData(pixels, next);
      history := history + [next];
    }

    /** Clear button. */
    method ClearCanvas()
      requires Valid()
      modifies this, pixels
      ensures Valid()
      ensures Model() == Editor.ClearCanvas(old(Model()))
      ensures Contents() == Blank(height, width)
      ensures history == [] && redoStack == []
    {
      ghost var before := Contents();
      ClearRect(pixels, 0, 0, width, height);
      history := [];
      redoStack := [];
      ClearWholeIsBlank(before, height, width);
    }
  }
}
