/** The drawing widget's handlers as a state machine over values. Each
    function gives the state after one handler has run to completion; the
    class in module Canvas is proved to follow these functions, and the
    lemmas here state what the handlers promise over whole sequences of
    pointer and button events. */
module Editor {
  import opened Raster

  datatype Option<T> = None | Some(value: T)

  /** A pointer position in canvas coordinates. */
  datatype Point = Point(x: int, y: int)

  datatype Tool = Brush | Eraser | Rectangle | Circle

  /** What the canvas library is asked to draw. */
  datatype Shape =
    | Polyline(points: seq<Point>)                  // stroke() of the current path
    | RectOutline(x: int, y: int, w: int, h: int)   // strokeRect with a signed extent
    | CircleOutline(center: Point, rim: Point)      // arc around center whose radius reaches rim

  /** The stroke style the page pushes into the context whenever the colour
      picker or the width slider changes: a colour string such as "#000000"
      and a line width. */
  datatype Style = Style(color: string, lineWidth: int)

  /** The colour and width the page starts with. */
  const DEFAULT_COLOR: string := "#000000"
  const DEFAULT_LINE_WIDTH: int := 3

  /** The canvas library's rasteriser, which the model does not interpret:
      it paints a shape onto an image in the given style. */
  type Renderer = (Image, Style, Shape) -> Image

  /** The rasteriser never changes the size of the image it paints on. */
  ghost predicate KeepsGrid(render: Renderer, height: nat, width: nat) {
    forall img, st, sh :: IsGrid(img, height, width) ==> IsGrid(render(img, st, sh), height, width)
  }

  function Last<T>(s: seq<T>): T
    requires |s| > 0
  {
    s[|s| - 1]
  }

  /** Everything the handlers read or write: the canvas size, the pixel
      buffer, the undo stack `history`, `redoStack`, the stroke session
      (`isDrawing`, `startPos`), the active tool, the stroke colour and
      width, and the vertices of the context's current path. */
  datatype State = State(
    width: nat,
    height: nat,
    image: Image,
    history: seq<Image>,
    redoStack: seq<Image>,
    isDrawing: bool,
    startPos: Option<Point>,
    tool: Tool,
    color: string,
    lineWidth: int,
    path: seq<Point>)

  /** The widget just after mounting: a blank canvas, both stacks empty, no
      session, the brush selected, black strokes 3 pixels wide. */
  function Initial(width: nat, height: nat): State {
    State(width, height, Blank(height, width), [], [], false, None, Brush,
          DEFAULT_COLOR, DEFAULT_LINE_WIDTH, [])
  }

  /** The style the context holds: the page's current colour and width. */
  function StyleOf(s: State): Style {
    Style(s.color, s.lineWidth)
  }

  /** The buffer and every snapshot have the canvas's size, and a session is
      open exactly when it has an anchor point. */
  ghost predicate WellFormed(s: State) {
    IsGrid(s.image, s.height, s.width) &&
    (forall i :: 0 <= i < |s.history| ==> IsGrid(s.history[i], s.height, s.width)) &&
    (forall i :: 0 <= i < |s.redoStack| ==> IsGrid(s.redoStack[i], s.height, s.width)) &&
    (s.isDrawing <==> s.startPos.Some?)
  }

  predicate InSession(s: State) {
    s.isDrawing && s.startPos.Some?
  }

  predicate IsShapeTool(t: Tool) {
    t == Rectangle || t == Circle
  }

  /** On a canvas without area, getImageData(0, 0, width, height) throws an
      IndexSizeError. It runs in the history update, when the page next
      renders, so none of the updates queued with it is committed. */
  predicate SnapshotThrows(s: State) {
    s.width == 0 || s.height == 0
  }

  /** Pointer-down: snapshot the buffer onto `history`, open a session
      anchored at `p`, and for the brush begin a new path at `p`. The path
      is begun on the context at once, even when the snapshot throws. */
  function StartDrawing(s: State, p: Point): State {
    var path := if s.tool == Brush then [p] else s.path;
    if SnapshotThrows(s) then s.(path := path)
    else s.(isDrawing := true,
            startPos := Some(p),
            history := s.history + [s.image],
            path := path)
  }

  /** The preview a shape tool draws for a drag from `start` to `p`. */
  function PreviewShape(tool: Tool, start: Point, p: Point): Shape {
    if tool == Rectangle then RectOutline(start.x, start.y, p.x - start.x, p.y - start.y)
    else CircleOutline(start, p)
  }

  /** A shape-tool move with an empty `history` hands `undefined` to
      putImageData, which throws before anything has changed. */
  predicate DrawThrows(s: State) {
    InSession(s) && IsShapeTool(s.tool) && s.history == []
  }

  /** Pointer-move to `p`. */
  function Draw(s: State, p: Point, render: Renderer): State {
    if !InSession(s) then s
    else match s.tool
      case Brush =>
        var path := s.path + [p];
        s.(path := path, image := render(s.image, StyleOf(s), Polyline(path)))
      case Eraser =>
        s.(image := Erased(s.image, p.x, p.y))
      case _ =>
        if s.history == [] then s
        else s.(path := [],
                image := render(Last(s.history), StyleOf(s), PreviewShape(s.tool, s.startPos.value, p)))
  }

  /** Pointer-up or pointer-leave: close the session. */
  function StopDrawing(s: State): State {
    s.(isDrawing := false, startPos := None)
  }

  /** Undo button: pop the last snapshot of `history` into the buffer. */
  function Undo(s: State): State {
    if s.history == [] then s
    else s.(history := s.history[..|s.history| - 1], image := Last(s.history))
  }

  /** Redo button: pop the last snapshot of `redoStack`, write it to the
      buffer and push it onto `history`. */
  function Redo(s: State): State {
    if s.redoStack == [] then s
    else s.(redoStack := s.redoStack[..|s.redoStack| - 1],
            image := Last(s.redoStack),
            history := s.history + [Last(s.redoStack)])
  }

  /** Clear button: clearRect over the whole canvas, empty both stacks. */
  function ClearCanvas(s: State): State {
    s.(image := ClearedRect(s.image, 0, 0, s.width, s.height), history := [], redoStack := [])
  }

  /** A tool button. */
  function SelectTool(s: State, t: Tool): State {
    s.(tool := t)
  }

  /** The colour picker. */
  function SetColor(s: State, c: string): State {
    s.(color := c)
  }

  /** The width slider. */
  function SetLineWidth(s: State, w: int): State {
    s.(lineWidth := w)
  }

  /** The events the widget reacts to. */
  datatype Event =
    | PointerDown(at: Point)
    | PointerMove(to: Point)
    | PointerUp
    | PointerLeave
    | UndoClick
    | RedoClick
    | ClearClick
    | ToolClick(choice: Tool)
    | ColorPick(picked: string)
    | WidthPick(slider: int)

  function Step(s: State, e: Event, render: Renderer): State {
    match e
    case PointerDown(p) => StartDrawing(s, p)
    case PointerMove(p) => Draw(s, p, render)
    case PointerUp => StopDrawing(s)
    case PointerLeave => StopDrawing(s)
    case UndoClick => Undo(s)
    case RedoClick => Redo(s)
    case ClearClick => ClearCanvas(s)
    case ToolClick(t) => SelectTool(s, t)
    case ColorPick(c) => SetColor(s, c)
    case WidthPick(w) => SetLineWidth(s, w)
  }

  /** The state after handling `evs` in order, starting from `s`. */
  function Run(s: State, evs: seq<Event>, render: Renderer): State
    decreases |evs|
  {
    if evs == [] then s
    else Step(Run(s, evs[..|evs| - 1], render), evs[|evs| - 1], render)
  }

  /** Handling `a` and then `b` is handling `a + b`. */
  lemma {:induction false} RunAppend(s: State, a: seq<Event>, b: seq<Event>, render: Renderer)
    ensures Run(s, a + b, render) == Run(Run(s, a, render), b, render)
    decreases |b|
  {
    if b == [] {
      assert a + b == a;
    } else {
      var b' := b[..|b| - 1];
      assert (a + b)[..|a + b| - 1] == a + b';
      RunAppend(s, a, b', render);
    }
  }

  /** No handler changes the canvas size. */
  lemma StepKeepsSize(s: State, e: Event, render: Renderer)
    ensures Step(s, e, render).width == s.width && Step(s, e, render).height == s.height
  {
  }

  /** No event changes the canvas size. */
  lemma {:induction false} RunKeepsSize(s: State, evs: seq<Event>, render: Renderer)
    ensures Run(s, evs, render).width == s.width && Run(s, evs, render).height == s.height
    decreases |evs|
  {
    if evs != [] {
      RunKeepsSize(s, evs[..|evs| - 1], render);
      StepKeepsSize(Run(s, evs[..|evs| - 1], render), evs[|evs| - 1], render);
    }
  }

  // ---------------------------------------------------------------------
  // Well-formedness and the stroke session

  /** Every handler keeps the buffer and the snapshots at the canvas's size
      and keeps `isDrawing` true exactly when `startPos` is set. */
  lemma StepPreservesWellFormed(s: State, e: Event, render: Renderer)
    requires WellFormed(s) && KeepsGrid(render, s.height, s.width)
    ensures WellFormed(Step(s, e, render))
  {
  }

  lemma {:induction false} RunPreservesWellFormed(s: State, evs: seq<Event>, render: Renderer)
    requires WellFormed(s) && KeepsGrid(render, s.height, s.width)
    ensures WellFormed(Run(s, evs, render))
    ensures Run(s, evs, render).width == s.width && Run(s, evs, render).height == s.height
    decreases |evs|
  {
    if evs != [] {
      var pre := evs[..|evs| - 1];
      RunPreservesWellFormed(s, pre, render);
      StepPreservesWellFormed(Run(s, pre, render), evs[|evs| - 1], render);
    }
  }

  /** In every state the widget can reach, a session is open exactly when it
      has an anchor point, and the buffer keeps the canvas's size. */
  lemma ReachableSessionConsistent(width: nat, height: nat, evs: seq<Event>, render: Renderer)
    requires KeepsGrid(render, height, width)
    ensures var s := Run(Initial(width, height), evs, render);
      (s.isDrawing <==> s.startPos.Some?) && IsGrid(s.image, height, width)
  {
    RunPreservesWellFormed(Initial(width, height), evs, render);
  }

  // ---------------------------------------------------------------------
  // Pointer moves

  /** A move with no open session changes nothing. */
  lemma DrawWithoutSessionIsNoOp(s: State, p: Point, render: Renderer)
    requires !s.isDrawing || s.startPos.None?
    ensures Draw(s, p, render) == s
  {
  }

  /** Moving the eraser to the same point twice leaves the same state as
      moving it there once. */
  lemma EraserMoveIdempotent(s: State, p: Point, render: Renderer)
    requires s.tool == Eraser
    ensures Draw(Draw(s, p, render), p, render) == Draw(s, p, render)
  {
    if InSession(s) {
      EraseIdempotent(s.image, p.x, p.y);
    }
  }

  /** Pointer moves to each point of `ps`, in order. */
  function Moves(ps: seq<Point>): seq<Event> {
    seq(|ps|, i requires 0 <= i < |ps| => PointerMove(ps[i]))
  }

  /** During a shape-tool session every move first restores the snapshot
      taken at pointer-down, so after any non-empty sequence of moves the
      buffer is that snapshot with the one preview for the final point: the
      earlier previews leave no trace. The session, the stacks and the tool
      stay as they were. */
  lemma {:induction false} ShapePreviewKeepsOnlyFinal(s: State, ps: seq<Point>, render: Renderer)
    requires InSession(s) && IsShapeTool(s.tool) && s.history != []
    requires |ps| > 0
    ensures Run(s, Moves(ps), render) ==
      s.(path := [], image := render(Last(s.history), StyleOf(s), PreviewShape(s.tool, s.startPos.value, Last(ps))))
    decreases |ps|
  {
    var pre := ps[..|ps| - 1];
    assert Moves(ps)[..|ps| - 1] == Moves(pre);
    if pre != [] {
      ShapePreviewKeepsOnlyFinal(s, pre, render);
    }
  }

  /** From pointer-down: a shape-tool press at `p` followed by any non-empty
      run of moves leaves the buffer as it was before the press with the one
      preview from `p` to the final point, and exactly that pre-press buffer
      on top of `history`. */
  lemma ShapeStrokeShowsOnlyFinalPreview(s: State, p: Point, ps: seq<Point>, render: Renderer)
    requires IsShapeTool(s.tool) && !SnapshotThrows(s)
    requires |ps| > 0
    ensures var t := Run(StartDrawing(s, p), Moves(ps), render);
      t.image == render(s.image, StyleOf(s), PreviewShape(s.tool, p, Last(ps))) &&
      t.history == s.history + [s.image] && InSession(t)
  {
    ShapePreviewKeepsOnlyFinal(StartDrawing(s, p), ps, render);
  }

  /** During a brush session that began at `p`, the path is the anchor
      followed by every point moved to, and each move strokes that whole
      path onto the buffer. */
  lemma {:induction false} BrushPathFollowsPointer(s: State, p: Point, ps: seq<Point>, render: Renderer)
    requires s.tool == Brush && !SnapshotThrows(s)
    ensures var t := Run(StartDrawing(s, p), Moves(ps), render);
      t.path == [p] + ps && t.history == s.history + [s.image] && InSession(t) && t.tool == Brush &&
      StyleOf(t) == StyleOf(s) &&
      (ps != [] ==> t.image == render(Run(StartDrawing(s, p), Moves(ps[..|ps| - 1]), render).image,
                                      StyleOf(s), Polyline([p] + ps)))
    decreases |ps|
  {
    if ps != [] {
      var pre := ps[..|ps| - 1];
      assert Moves(ps)[..|ps| - 1] == Moves(pre);
      BrushPathFollowsPointer(s, p, pre, render);
      assert [p] + pre + [ps[|ps| - 1]] == [p] + ps;
    }
  }

  // ---------------------------------------------------------------------
  // History: strokes push, undo pops

  /** Undo, redo and clear are the only events that touch the stacks other
      than by pushing at pointer-down. */
  predicate EditsHistory(e: Event) {
    e == UndoClick || e == RedoClick || e == ClearClick
  }

  /** The number of strokes begun in `evs`. */
  function Strokes(evs: seq<Event>): nat
    decreases |evs|
  {
    if evs == [] then 0
    else Strokes(evs[..|evs| - 1]) + (if evs[|evs| - 1].PointerDown? then 1 else 0)
  }

  lemma {:induction false} StrokesAppend(a: seq<Event>, b: seq<Event>)
    ensures Strokes(a + b) == Strokes(a) + Strokes(b)
    decreases |b|
  {
    if b == [] {
      assert a + b == a;
    } else {
      var b' := b[..|b| - 1];
      assert (a + b)[..|a + b| - 1] == a + b';
      StrokesAppend(a, b');
    }
  }

  /** Splitting a run of events at `d` splits its stroke count. */
  lemma StrokesSplit(evs: seq<Event>, d: nat)
    requires d <= |evs|
    ensures Strokes(evs) == Strokes(evs[..d]) + Strokes(evs[d..])
  {
    assert evs == evs[..d] + evs[d..];
    StrokesAppend(evs[..d], evs[d..]);
  }

  /** On a canvas with area, a pointer, tool or style event pushes one
      snapshot of the buffer at pointer-down and otherwise leaves `history`
      alone. */
  lemma StepHistory(t: State, e: Event, render: Renderer)
    requires !EditsHistory(e) && !SnapshotThrows(t)
    ensures Step(t, e, render).history ==
      if e.PointerDown? then t.history + [t.image] else t.history
  {
  }

  /** The last event of a run without undo, redo or clear pushes the buffer
      at pointer-down and otherwise leaves `history` alone. */
  lemma LastEventHistory(s: State, evs: seq<Event>, render: Renderer)
    requires !SnapshotThrows(s)
    requires evs != [] && !EditsHistory(evs[|evs| - 1])
    ensures var before := Run(s, evs[..|evs| - 1], render);
      Run(s, evs, render).history ==
        if evs[|evs| - 1].PointerDown? then before.history + [before.image] else before.history
  {
    RunKeepsSize(s, evs[..|evs| - 1], render);
    StepHistory(Run(s, evs[..|evs| - 1], render), evs[|evs| - 1], render);
  }

  /** Without undo, redo or clear, `history` grows by one snapshot per
      stroke and keeps what it held. */
  lemma {:induction false} HistoryGrowth(s: State, evs: seq<Event>, render: Renderer)
    requires !SnapshotThrows(s)
    requires forall i :: 0 <= i < |evs| ==> !EditsHistory(evs[i])
    ensures var h := Run(s, evs, render).history;
      |h| == |s.history| + Strokes(evs) && h[..|s.history|] == s.history
    decreases |evs|
  {
    if evs != [] {
      var pre := evs[..|evs| - 1];
      assert forall i :: 0 <= i < |pre| ==> pre[i] == evs[i];
      HistoryGrowth(s, pre, render);
      LastEventHistory(s, evs, render);
    }
  }

  /** The last event of a run without undo, redo or clear keeps every
      snapshot already on `history` in place. */
  lemma SnapshotSurvives(s: State, evs: seq<Event>, k: nat, render: Renderer)
    requires !SnapshotThrows(s)
    requires evs != [] && !EditsHistory(evs[|evs| - 1])
    requires k < |Run(s, evs[..|evs| - 1], render).history|
    ensures k < |Run(s, evs, render).history|
    ensures Run(s, evs, render).history[k] == Run(s, evs[..|evs| - 1], render).history[k]
  {
    LastEventHistory(s, evs, render);
  }

  /** When a run without undo, redo or clear ends with a pointer-down, the
      snapshot it pushes sits just above the ones pushed before. */
  lemma SnapshotOfLastStroke(s: State, evs: seq<Event>, render: Renderer)
    requires !SnapshotThrows(s)
    requires forall i :: 0 <= i < |evs| ==> !EditsHistory(evs[i])
    requires evs != [] && evs[|evs| - 1].PointerDown?
    ensures var pre := evs[..|evs| - 1];
      var h := Run(s, evs, render).history;
      |s.history| + Strokes(pre) < |h| &&
      h[|s.history| + Strokes(pre)] == Run(s, pre, render).image
  {
    var pre := evs[..|evs| - 1];
    assert forall i :: 0 <= i < |pre| ==> pre[i] == evs[i];
    HistoryGrowth(s, pre, render);
    LastEventHistory(s, evs, render);
  }

  /** Without undo, redo or clear, the snapshot pushed by the stroke that
      begins at `evs[d]` is the buffer as it was just before that event, and
      it stays in place. */
  lemma {:induction false} StrokeSnapshotAt(s: State, evs: seq<Event>, d: nat, render: Renderer)
    requires !SnapshotThrows(s)
    requires forall i :: 0 <= i < |evs| ==> !EditsHistory(evs[i])
    requires d < |evs| && evs[d].PointerDown?
    ensures var h := Run(s, evs, render).history;
      |s.history| + Strokes(evs[..d]) < |h| &&
      h[|s.history| + Strokes(evs[..d])] == Run(s, evs[..d], render).image
    decreases |evs|
  {
    var pre := evs[..|evs| - 1];
    if d < |pre| {
      assert forall i :: 0 <= i < |pre| ==> pre[i] == evs[i];
      assert evs[..d] == pre[..d];
      StrokeSnapshotAt(s, pre, d, render);
      SnapshotSurvives(s, evs, |s.history| + Strokes(evs[..d]), render);
    } else {
      assert evs[..d] == pre;
      SnapshotOfLastStroke(s, evs, render);
    }
  }

  /** Without undo, redo or clear, `history` only grows: each pointer-down
      pushes exactly one snapshot, and the snapshot pushed by the stroke
      beginning at `evs[d]` is the buffer as it was just before that
      event. */
  lemma StrokesPushSnapshots(s: State, evs: seq<Event>, render: Renderer)
    requires !SnapshotThrows(s)
    requires forall i :: 0 <= i < |evs| ==> !EditsHistory(evs[i])
    ensures var h := Run(s, evs, render).history;
      |h| == |s.history| + Strokes(evs) &&
      h[..|s.history|] == s.history &&
      forall d :: 0 <= d < |evs| && evs[d].PointerDown? ==>
        |s.history| + Strokes(evs[..d]) < |h| &&
        h[|s.history| + Strokes(evs[..d])] == Run(s, evs[..d], render).image
  {
    HistoryGrowth(s, evs, render);
    forall d | 0 <= d < |evs| && evs[d].PointerDown?
      ensures var h := Run(s, evs, render).history;
        |s.history| + Strokes(evs[..d]) < |h| &&
        h[|s.history| + Strokes(evs[..d])] == Run(s, evs[..d], render).image
    {
      StrokeSnapshotAt(s, evs, d, render);
    }
  }

  /** `j` presses of the Undo button. */
  function Undos(j: nat): seq<Event> {
    seq(j, _ => UndoClick)
  }

  /** `j` undos on a history of at least `j` snapshots drop its last `j`
      entries and leave the buffer equal to the `j`-th most recent one; the
      redo stack is untouched. */
  lemma {:induction false} UndosPopInOrder(s: State, j: nat, render: Renderer)
    requires 0 < j <= |s.history|
    ensures Run(s, Undos(j), render).history == s.history[..|s.history| - j]
    ensures Run(s, Undos(j), render).image == s.history[|s.history| - j]
    ensures Run(s, Undos(j), render).redoStack == s.redoStack
    decreases j
  {
    assert Undos(j)[..j - 1] == Undos(j - 1);
    if j > 1 {
      UndosPopInOrder(s, j - 1, render);
    }
  }

  /** `j` undos after a run restore the `j`-th most recent snapshot. */
  lemma UndosAfterRun(s: State, evs: seq<Event>, j: nat, render: Renderer)
    requires 0 < j <= |Run(s, evs, render).history|
    ensures var h := Run(s, evs, render).history;
      Run(s, evs + Undos(j), render).image == h[|h| - j]
  {
    RunAppend(s, evs, Undos(j), render);
    UndosPopInOrder(Run(s, evs, render), j, render);
  }

  /** After a run of strokes with no undo, redo or clear in between, `j`
      undos restore the buffer to what it was just before the `j`-th most
      recent stroke began: for the stroke begun at `evs[d]`, `j` counts the
      strokes from `d` on. */
  lemma UndoRestoresStrokeStart(s: State, evs: seq<Event>, d: nat, render: Renderer)
    requires !SnapshotThrows(s)
    requires forall i :: 0 <= i < |evs| ==> !EditsHistory(evs[i])
    requires d < |evs| && evs[d].PointerDown?
    ensures var j := Strokes(evs[d..]);
      j > 0 && Run(s, evs + Undos(j), render).image == Run(s, evs[..d], render).image
  {
    var h := Run(s, evs, render).history;
    HistoryGrowth(s, evs, render);
    StrokeSnapshotAt(s, evs, d, render);
    var idx := |s.history| + Strokes(evs[..d]);
    assert h[idx] == Run(s, evs[..d], render).image;
    StrokesSplit(evs, d);
    var j := Strokes(evs[d..]);
    assert |h| - j == idx;
    UndosAfterRun(s, evs, j, render);
  }

  // ---------------------------------------------------------------------
  // Redo

  /** No handler pushes onto `redoStack`: once empty it stays empty. */
  lemma {:induction false} RedoStackStaysEmpty(s: State, evs: seq<Event>, render: Renderer)
    requires s.redoStack == []
    ensures Run(s, evs, render).redoStack == []
    decreases |evs|
  {
    if evs != [] {
      RedoStackStaysEmpty(s, evs[..|evs| - 1], render);
    }
  }

  /** In every state the widget can reach, `redoStack` is empty and pressing
      Redo changes nothing. */
  lemma {:induction false} RedoIsAlwaysNoOp(width: nat, height: nat, evs: seq<Event>, render: Renderer)
    ensures var s := Run(Initial(width, height), evs, render);
      s.redoStack == [] && Step(s, RedoClick, render) == s
  {
    RedoStackStaysEmpty(Initial(width, height), evs, render);
  }

  // ---------------------------------------------------------------------
  // Clear

  /** Clearing a well-formed state blanks the whole buffer and empties both
      stacks, so an undo right after it changes nothing. */
  lemma ClearThenUndoIsNoOp(s: State)
    requires WellFormed(s)
    ensures ClearCanvas(s).image == Blank(s.height, s.width)
    ensures ClearCanvas(s).history == [] && ClearCanvas(s).redoStack == []
    ensures Undo(ClearCanvas(s)) == ClearCanvas(s)
  {
    ClearWholeIsBlank(s.image, s.height, s.width);
  }
}
