/**
 * The drawing layer over a page: cursor positions mapped to image
 * coordinates, lines and rectangles drawn by dragging, text placed by a
 * click and typed in, and the keys that delete or deselect.  The
 * component's callbacks to its parent are logged in order.
 */
module DrawingCanvas {
  import opened Wrappers
  import opened JsText

  datatype Point = Point(x: real, y: real)

  datatype Tool = NoTool | SelectTool | LineTool | RectTool | TextTool

  /** A new element as the canvas hands it to its parent (no id, project, page or creation time yet). */
  datatype NewDrawing = NewDrawing(
    elementType: string,
    points: seq<real>,
    strokeColor: string,
    strokeWidth: int,
    fillColor: Option<string>,
    text: Option<string>,
    fontSize: int,
    fontFamily: string,
    textColor: string,
    imageData: Option<string>)

  /** A callback to the parent. */
  datatype Call = Create(drawing: NewDrawing) | SelectDrawing(selected: Option<string>) | DeleteDrawing(id: string)

  /**
   * `getScaledPoint`: the cursor relative to the canvas's top-left
   * corner, divided by the zoom; the origin when the canvas is not
   * mounted.
   */
  function ScaledPoint(client: Point, canvasOrigin: Option<Point>, scale: real): Point
    requires scale > 0.0
  {
    match canvasOrigin
    case None => Point(0.0, 0.0)
    case Some(o) => Point((client.x - o.x) / scale, (client.y - o.y) / scale)
  }

  /** Where an image point appears on the screen. */
  function OnScreen(p: Point, canvasOrigin: Point, scale: real): Point
  {
    Point(canvasOrigin.x + p.x * scale, canvasOrigin.y + p.y * scale)
  }

  /** Mapping to the image inverts drawing on the screen: both ways round. */
  lemma ScaledPointInverts(p: Point, client: Point, o: Point, scale: real)
    requires scale > 0.0
    ensures ScaledPoint(OnScreen(p, o, scale), Some(o), scale) == p
    ensures OnScreen(ScaledPoint(client, Some(o), scale), o, scale) == client
  {
  }

  function Min(a: real, b: real): real { if a <= b then a else b }
  function Max(a: real, b: real): real { if a >= b then a else b }

  /** The line drawn from `start` to `end`: the two points in drag order, no fill. */
  function LineDrawing(start: Point, end: Point, strokeColor: string, strokeWidth: int): NewDrawing
  {
    NewDrawing("line", [start.x, start.y, end.x, end.y], strokeColor, strokeWidth, None, None, 14, "Arial", "#000000", None)
  }

  /** The rectangle spanned by a drag, stored by its least and greatest corners. */
  function RectDrawing(start: Point, end: Point, strokeColor: string, strokeWidth: int, fillColor: Option<string>): NewDrawing
  {
    NewDrawing("rect", [Min(start.x, end.x), Min(start.y, end.y), Max(start.x, end.x), Max(start.y, end.y)],
               strokeColor, strokeWidth, fillColor, None, 14, "Arial", "#000000", None)
  }

  /** A line keeps its direction: its first point is where the drag started. */
  lemma LineKeepsDragOrder(start: Point, end: Point, c: string, w: int)
    ensures LineDrawing(start, end, c, w).points == [start.x, start.y, end.x, end.y]
    ensures LineDrawing(start, end, c, w).fillColor.None?
    ensures LineDrawing(end, start, c, w).points != LineDrawing(start, end, c, w).points <==> start != end
  {
    var p, q := LineDrawing(start, end, c, w).points, LineDrawing(end, start, c, w).points;
    if start != end {
      assert p[0] != q[0] || p[1] != q[1];
    }
  }

  /**
   * A rectangle's points are ordered, each corner of the drag lies inside
   * it on its edges, and it does not depend on the drag's direction.
   */
  lemma RectNormalised(start: Point, end: Point, c: string, w: int, fill: Option<string>)
    ensures var p := RectDrawing(start, end, c, w, fill).points;
      |p| == 4 && p[0] <= p[2] && p[1] <= p[3]
      && (p[0] == start.x || p[0] == end.x) && (p[2] == start.x || p[2] == end.x)
      && (p[1] == start.y || p[1] == end.y) && (p[3] == start.y || p[3] == end.y)
      && p[0] <= start.x <= p[2] && p[0] <= end.x <= p[2]
      && p[1] <= start.y <= p[3] && p[1] <= end.y <= p[3]
    ensures RectDrawing(end, start, c, w, fill) == RectDrawing(start, end, c, w, fill)
  {
  }

  /** The text element placed at `at`: one point, the typed text, coloured like the stroke. */
  function TextDrawing(at: Point, text: string, strokeColor: string, strokeWidth: int): NewDrawing
  {
    NewDrawing("text", [at.x, at.y], strokeColor, strokeWidth, None, Some(text), 14, "Arial", strokeColor, None)
  }

  /** A key's effect on the callbacks, for `handleKeyDown` and for the window's listener alike. */
  function DeleteKeyCalls(key: string, selectedDrawingId: Option<string>): seq<Call>
  {
    // an empty id is falsy
    if key == "Delete" && selectedDrawingId.Some? && selectedDrawingId.value != "" then
      [DeleteDrawing(selectedDrawingId.value), SelectDrawing(None)]
    else []
  }

  /** How many delete requests a sequence of callbacks makes for `id`. */
  function DeletesOf(calls: seq<Call>, id: string): nat
  {
    if calls == [] then 0
    else DeletesOf(calls[..|calls| - 1], id) + (if calls[|calls| - 1] == DeleteDrawing(id) then 1 else 0)
  }

  class Canvas {
    var isDrawing: bool
    var startPoint: Option<Point>
    var currentPoint: Option<Point>
    var textInput: string
    var textPosition: Option<Point>
    /** The callbacks made to the parent, oldest first. */
    var calls: seq<Call>

    constructor()
      ensures !isDrawing && startPoint.None? && currentPoint.None? && textInput == "" && textPosition.None? && calls == []
    {
      isDrawing, startPoint, currentPoint := false, None, None;
      textInput, textPosition := "", None;
      calls := [];
    }

    /**
     * `handleMouseDown`: with no tool or the select tool the selection is
     * cleared and nothing starts; the text tool opens an empty input at
     * the point; a shape tool starts a drag there.
     */
    method MouseDown(tool: Tool, client: Point, canvasOrigin: Option<Point>, scale: real)
      requires scale > 0.0
      modifies this
      ensures tool == NoTool || tool == SelectTool ==>
        calls == old(calls) + [SelectDrawing(None)]
        && isDrawing == old(isDrawing) && startPoint == old(startPoint) && currentPoint == old(currentPoint)
        && textInput == old(textInput) && textPosition == old(textPosition)
      ensures tool == TextTool ==>
        textPosition == Some(ScaledPoint(client, canvasOrigin, scale)) && textInput == ""
        && calls == old(calls) && isDrawing == old(isDrawing) && startPoint == old(startPoint) && currentPoint == old(currentPoint)
      ensures tool == LineTool || tool == RectTool ==>
        isDrawing && startPoint == Some(ScaledPoint(client, canvasOrigin, scale)) && currentPoint == startPoint
        && calls == old(calls) && textInput == old(textInput) && textPosition == old(textPosition)
    {
      if tool == NoTool || tool == SelectTool {
        calls := calls + [SelectDrawing(None)];
        return;
      }
      var point := ScaledPoint(client, canvasOrigin, scale);
      if tool == TextTool {
        textPosition := Some(point);
        textInput := "";
        return;
      }
      isDrawing := true;
      startPoint := Some(point);
      currentPoint := Some(point);
    }

    /** `handleMouseMove`: during a drag the current point follows the cursor. */
    method MouseMove(client: Point, canvasOrigin: Option<Point>, scale: real)
      requires scale > 0.0
      modifies this
      ensures isDrawing && startPoint.Some? ==> currentPoint == Some(ScaledPoint(client, canvasOrigin, scale))
      ensures !(isDrawing && startPoint.Some?) ==> currentPoint == old(currentPoint)
      ensures isDrawing == old(isDrawing) && startPoint == old(startPoint) && calls == old(calls)
      ensures textInput == old(textInput) && textPosition == old(textPosition)
    {
      if !isDrawing || startPoint.None? {
        return;
      }
      currentPoint := Some(ScaledPoint(client, canvasOrigin, scale));
    }

    /**
     * `handleMouseUp` (also on leaving the canvas): a finished drag
     * creates a line or a rectangle for those tools and ends; without a
     * drag in progress only the drawing flag is cleared.
     */
    method MouseUp(tool: Tool, strokeColor: string, strokeWidth: int, fillColor: Option<string>)
      modifies this
      ensures !isDrawing && textInput == old(textInput) && textPosition == old(textPosition)
      ensures !(old(isDrawing) && old(startPoint).Some? && old(currentPoint).Some?) ==>
        calls == old(calls) && startPoint == old(startPoint) && currentPoint == old(currentPoint)
      ensures old(isDrawing) && old(startPoint).Some? && old(currentPoint).Some? ==>
        startPoint.None? && currentPoint.None?
        && calls == old(calls) + (
             if tool == LineTool then [Create(LineDrawing(old(startPoint).value, old(currentPoint).value, strokeColor, strokeWidth))]
             else if tool == RectTool then [Create(RectDrawing(old(startPoint).value, old(currentPoint).value, strokeColor, strokeWidth, fillColor))]
             else [])
    {
      if !isDrawing || startPoint.None? || currentPoint.None? {
        isDrawing := false;
        return;
      }
      var s, c := startPoint.value, currentPoint.value;
      if tool == LineTool {
        calls := calls + [Create(LineDrawing(s, c, strokeColor, strokeWidth))];
      } else if tool == RectTool {
        calls := calls + [Create(RectDrawing(s, c, strokeColor, strokeWidth, fillColor))];
      }
      isDrawing := false;
      startPoint := None;
      currentPoint := None;
    }

    /** Typing in the text input. */
    method TypeText(value: string)
      modifies this
      ensures textInput == value
      ensures isDrawing == old(isDrawing) && startPoint == old(startPoint) && currentPoint == old(currentPoint)
      ensures textPosition == old(textPosition) && calls == old(calls)
    {
      textInput := value;
    }

    /**
     * `handleTextSubmit` (Enter or leaving the input): a text element is
     * created only when a position is open and the input is not blank;
     * the input is closed and emptied either way.
     */
    method TextSubmit(strokeColor: string, strokeWidth: int)
      modifies this
      ensures textPosition.None? && textInput == ""
      ensures isDrawing == old(isDrawing) && startPoint == old(startPoint) && currentPoint == old(currentPoint)
      ensures old(textPosition).Some? && !Blank(old(textInput)) ==>
        calls == old(calls) + [Create(TextDrawing(old(textPosition).value, old(textInput), strokeColor, strokeWidth))]
      ensures !(old(textPosition).Some? && !Blank(old(textInput))) ==> calls == old(calls)
    {
      TrimEmptyIffBlank(textInput);
      if textPosition.None? || Trim(textInput) == "" {
        textPosition := None;
        textInput := "";
        return;
      }
      calls := calls + [Create(TextDrawing(textPosition.value, textInput, strokeColor, strokeWidth))];
      textPosition := None;
      textInput := "";
    }

    /** Escape in the text input closes it without creating anything. */
    method TextEscape()
      modifies this
      ensures textPosition.None? && textInput == "" && calls == old(calls)
      ensures isDrawing == old(isDrawing) && startPoint == old(startPoint) && currentPoint == old(currentPoint)
    {
      textPosition := None;
      textInput := "";
    }

    /** A click on a drawn element selects it with the select tool and does nothing otherwise. */
    method DrawingClick(tool: Tool, id: string)
      modifies this
      ensures calls == old(calls) + (if tool == SelectTool then [SelectDrawing(Some(id))] else [])
      ensures isDrawing == old(isDrawing) && startPoint == old(startPoint) && currentPoint == old(currentPoint)
      ensures textPosition == old(textPosition) && textInput == old(textInput)
    {
      if tool == SelectTool {
        calls := calls + [SelectDrawing(Some(id))];
      }
    }

    /**
     * `handleKeyDown` on the focused canvas: Delete with a selection
     * deletes it and clears the selection; Escape closes any pending text
     * and clears the selection.
     */
    method KeyDown(key: string, selectedDrawingId: Option<string>)
      modifies this
      ensures calls == old(calls) + DeleteKeyCalls(key, selectedDrawingId) + (if key == "Escape" then [SelectDrawing(None)] else [])
      ensures key == "Escape" ==> textPosition.None? && textInput == ""
      ensures key != "Escape" ==> textPosition == old(textPosition) && textInput == old(textInput)
      ensures isDrawing == old(isDrawing) && startPoint == old(startPoint) && currentPoint == old(currentPoint)
    {
      if key == "Delete" && selectedDrawingId.Some? && selectedDrawingId.value != "" {
        calls := calls + [DeleteDrawing(selectedDrawingId.value), SelectDrawing(None)];
      }
      if key == "Escape" {
        textPosition := None;
        textInput := "";
        calls := calls + [SelectDrawing(None)];
      }
    }

    /** The listener on the window: only Delete with a selection acts. */
    method GlobalKeyDown(key: string, selectedDrawingId: Option<string>)
      modifies this
      ensures calls == old(calls) + DeleteKeyCalls(key, selectedDrawingId)
      ensures isDrawing == old(isDrawing) && startPoint == old(startPoint) && currentPoint == old(currentPoint)
      ensures textPosition == old(textPosition) && textInput == old(textInput)
    {
      if key == "Delete" && selectedDrawingId.Some? && selectedDrawingId.value != "" {
        calls := calls + [DeleteDrawing(selectedDrawingId.value), SelectDrawing(None)];
      }
    }

    /**
     * A key pressed while the canvas has the focus, as the code is
     * written: the canvas's handler runs and the event then bubbles to
     * the window's listener, which still sees the same selection.
     */
    method FocusedKeyDownAsWritten(key: string, selectedDrawingId: Option<string>)
      modifies this
      ensures calls == old(calls) + DeleteKeyCalls(key, selectedDrawingId)
                      + (if key == "Escape" then [SelectDrawing(None)] else []) + DeleteKeyCalls(key, selectedDrawingId)
      ensures isDrawing == old(isDrawing) && startPoint == old(startPoint) && currentPoint == old(currentPoint)
    {
      KeyDown(key, selectedDrawingId);
      GlobalKeyDown(key, selectedDrawingId);
    }

    /**
     * A key pressed in the text input, as the code is written: the input's
     * own handler (Enter submits, Escape closes the input), then the
     * canvas's handler the event bubbles to, then the window's listener.
     */
    method InputKeyDown(key: string, selectedDrawingId: Option<string>, strokeColor: string, strokeWidth: int)
      modifies this
      ensures key == "Enter" || key == "Escape" ==> textPosition.None? && textInput == ""
      ensures key != "Enter" && key != "Escape" ==> textPosition == old(textPosition) && textInput == old(textInput)
      ensures calls == old(calls)
                      + (if key == "Enter" && old(textPosition).Some? && !Blank(old(textInput))
                         then [Create(TextDrawing(old(textPosition).value, old(textInput), strokeColor, strokeWidth))] else [])
                      + DeleteKeyCalls(key, selectedDrawingId) + (if key == "Escape" then [SelectDrawing(None)] else [])
                      + DeleteKeyCalls(key, selectedDrawingId)
      ensures isDrawing == old(isDrawing) && startPoint == old(startPoint) && currentPoint == old(currentPoint)
    {
      if key == "Enter" {
        TextSubmit(strokeColor, strokeWidth);
      }
      if key == "Escape" {
        TextEscape();
      }
      KeyDown(key, selectedDrawingId);
      GlobalKeyDown(key, selectedDrawingId);
    }

    /** A key pressed while the canvas has the focus, handled once. */
    method FocusedKeyDown(key: string, selectedDrawingId: Option<string>)
      modifies this
      ensures calls == old(calls) + DeleteKeyCalls(key, selectedDrawingId) + (if key == "Escape" then [SelectDrawing(None)] else [])
      ensures key == "Escape" ==> textPosition.None? && textInput == ""
      ensures key != "Escape" ==> textPosition == old(textPosition) && textInput == old(textInput)
      ensures isDrawing == old(isDrawing) && startPoint == old(startPoint) && currentPoint == old(currentPoint)
    {
      KeyDown(key, selectedDrawingId);
    }
  }

  /** As written, Delete on the focused canvas asks the parent to delete the selected drawing twice. */
  lemma DeleteSentTwice(id: string)
    requires id != ""
    ensures var key := "Delete";
      DeletesOf(DeleteKeyCalls(key, Some(id)) + (if key == "Escape" then [SelectDrawing(None)] else []) + DeleteKeyCalls(key, Some(id)), id) == 2
  {
    var twice := [DeleteDrawing(id), SelectDrawing(None)] + [] + [DeleteDrawing(id), SelectDrawing(None)];
    assert twice[..3] == [DeleteDrawing(id), SelectDrawing(None), DeleteDrawing(id)];
    assert twice[..3][..2] == [DeleteDrawing(id), SelectDrawing(None)];
    assert twice[..3][..2][..1] == [DeleteDrawing(id)];
    assert [DeleteDrawing(id)][..0] == [];
    assert DeletesOf([DeleteDrawing(id)], id) == 1;
    assert DeletesOf(twice[..3][..2], id) == 1;
    assert DeletesOf(twice[..3], id) == 2;
  }

  /**
   * As written, Escape in the text input also clears the drawing
   * selection, and Delete typed into it with a drawing selected deletes
   * that drawing (twice) instead of only editing the text.
   */
  lemma InputKeysReachCanvas(id: string)
    requires id != ""
    ensures var esc := "Escape";
      SelectDrawing(None) in DeleteKeyCalls(esc, Some(id)) + (if esc == "Escape" then [SelectDrawing(None)] else []) + DeleteKeyCalls(esc, Some(id))
    ensures var del := "Delete";
      DeletesOf(DeleteKeyCalls(del, Some(id)) + (if del == "Escape" then [SelectDrawing(None)] else []) + DeleteKeyCalls(del, Some(id)), id) == 2
  {
    DeleteSentTwice(id);
  }

  /** Handled once, Delete deletes the selected drawing exactly once and nothing else, then clears the selection. */
  lemma DeleteSentOnce(id: string, other: string)
    requires id != "" && other != id
    ensures DeleteKeyCalls("Delete", Some(id)) == [DeleteDrawing(id), SelectDrawing(None)]
    ensures DeletesOf(DeleteKeyCalls("Delete", Some(id)), id) == 1
    ensures DeletesOf(DeleteKeyCalls("Delete", Some(id)), other) == 0
    ensures DeleteKeyCalls("Delete", None) == [] && DeleteKeyCalls("Delete", Some("")) == []
  {
    var once := [DeleteDrawing(id), SelectDrawing(None)];
    assert once[..1] == [DeleteDrawing(id)];
    assert [DeleteDrawing(id)][..0] == [];
    assert DeletesOf([DeleteDrawing(id)], id) == 1 && DeletesOf([DeleteDrawing(id)], other) == 0;
    assert DeletesOf(once, id) == 1 && DeletesOf(once, other) == 0;
  }
}
