/**
 * The read-only drawing layer shown over a page: each stored drawing
 * element becomes at most one SVG shape, scaled by the zoom, with the
 * falsy fields replaced by their defaults and the malformed elements
 * dropped.
 */
module DrawingOverlay {
  import opened Wrappers
  import opened Models
  import DrawingCanvas

  /** An SVG shape, in screen units. */
  datatype Shape =
    | Line(x1: real, y1: real, x2: real, y2: real, stroke: string, strokeWidth: real)
    | Polyline(coords: seq<real>, stroke: string, strokeWidth: real)
    | Rect(x: real, y: real, width: real, height: real, stroke: string, strokeWidth: real, fill: string)
    | Ellipse(cx: real, cy: real, rx: real, ry: real, stroke: string, strokeWidth: real, fill: string)
    | Image(x: real, y: real, width: real, height: real, href: string)
    | Text(x: real, y: real, fontSize: real, fill: string, fontFamily: string, text: string)

  /** `s || fallback` on a string. */
  function OrElse(s: string, fallback: string): string
  {
    if s == "" then fallback else s
  }

  /** A truthy optional string. */
  predicate Truthy(o: Option<string>)
  {
    o.Some? && o.value != ""
  }

  function Abs(a: real): real { if a >= 0.0 then a else -a }

  /** `(stroke_width || 2) * scale` */
  function StrokeWidth(d: DrawingElement, scale: real): real
  {
    (if d.strokeWidth == 0 then 2 else d.strokeWidth) as real * scale
  }

  /** The fill of a rectangle or an ellipse: the element's fill when truthy, otherwise none. */
  function Fill(d: DrawingElement): string
  {
    if Truthy(d.fillColor) then d.fillColor.value else "none"
  }

  /** The shape one element renders as, or nothing. */
  function Render(d: DrawingElement, scale: real): Option<Shape>
  {
    var stroke := OrElse(d.strokeColor, "#000000");
    var width := StrokeWidth(d, scale);
    var p := d.points;
    if d.elementType == "line" then
      if |p| >= 4 then Some(Line(p[0] * scale, p[1] * scale, p[2] * scale, p[3] * scale, stroke, width)) else None
    else if d.elementType == "polyline" then
      if |p| >= 4 && |p| % 2 == 0 then Some(Polyline(seq(|p|, i requires 0 <= i < |p| => p[i] * scale), stroke, width)) else None
    else if d.elementType == "rect" then
      if |p| >= 4 then Some(Rect(p[0] * scale, p[1] * scale, (p[2] - p[0]) * scale, (p[3] - p[1]) * scale, stroke, width, Fill(d))) else None
    else if d.elementType == "circle" then
      if |p| >= 4 then
        Some(Ellipse((p[0] + p[2]) / 2.0 * scale, (p[1] + p[3]) / 2.0 * scale,
                     Abs((p[2] - p[0]) / 2.0) * scale, Abs((p[3] - p[1]) / 2.0) * scale, stroke, width, Fill(d)))
      else None
    else if d.elementType == "image" then
      if Truthy(d.imageData) && |p| >= 4 then
        Some(Image(p[0] * scale, p[1] * scale, (p[2] - p[0]) * scale, (p[3] - p[1]) * scale, "data:image/png;base64," + d.imageData.value))
      else None
    else if d.elementType == "text" then
      if Truthy(d.text) && |p| >= 2 then
        Some(Text(p[0] * scale, p[1] * scale, (if d.fontSize == 0 then 14 else d.fontSize) as real * scale,
                  OrElse(d.textColor, "#000000"), OrElse(d.fontFamily, "Arial"), d.text.value))
      else None
    else None
  }

  /** The overlay: nothing at all without drawings, otherwise one entry per drawing (an empty entry renders nothing). */
  function Overlay(drawings: seq<DrawingElement>, scale: Option<real>): Option<seq<Option<Shape>>>
  {
    if |drawings| == 0 then None
    else Some(seq(|drawings|, i requires 0 <= i < |drawings| => Render(drawings[i], scale.GetOr(1.0))))
  }

  /** Without drawings nothing is rendered; otherwise the entries follow the drawings one for one, at zoom 1 by default. */
  lemma OverlayShape(drawings: seq<DrawingElement>, scale: Option<real>)
    ensures drawings == [] <==> Overlay(drawings, scale).None?
    ensures drawings != [] ==> (|Overlay(drawings, scale).value| == |drawings|
      && forall i :: 0 <= i < |drawings| ==> Overlay(drawings, scale).value[i] == Render(drawings[i], if scale.Some? then scale.value else 1.0))
  {
  }

  /** Exactly which elements render: the guards of each type, and nothing for an unknown type. */
  lemma RenderGuards(d: DrawingElement, scale: real)
    ensures Render(d, scale).Some? <==>
      ((d.elementType == "line" || d.elementType == "rect" || d.elementType == "circle") && |d.points| >= 4)
      || (d.elementType == "polyline" && |d.points| >= 4 && |d.points| % 2 == 0)
      || (d.elementType == "image" && Truthy(d.imageData) && |d.points| >= 4)
      || (d.elementType == "text" && Truthy(d.text) && |d.points| >= 2)
  {
  }

  /** Every stroked shape is drawn `(stroke_width || 2) * scale` wide in the stroke colour or black. */
  lemma StrokeRule(d: DrawingElement, scale: real)
    requires Render(d, scale).Some? && !Render(d, scale).value.Image? && !Render(d, scale).value.Text?
    ensures Render(d, scale).value.strokeWidth == (if d.strokeWidth == 0 then 2.0 else d.strokeWidth as real) * scale
    ensures Render(d, scale).value.stroke == (if d.strokeColor == "" then "#000000" else d.strokeColor)
  {
  }

  /** A circle element becomes the ellipse inscribed in its box: centred on the box's middle, radii half its sides. */
  lemma EllipseGeometry(d: DrawingElement, scale: real)
    requires d.elementType == "circle" && |d.points| >= 4 && scale >= 0.0
    ensures var e := Render(d, scale).value; var p := d.points;
      e.Ellipse? && e.rx >= 0.0 && e.ry >= 0.0
      && e.cx == (p[0] + p[2]) / 2.0 * scale && e.cy == (p[1] + p[3]) / 2.0 * scale
      && e.rx * 2.0 == Abs(p[2] - p[0]) * scale && e.ry * 2.0 == Abs(p[3] - p[1]) * scale
  {
  }

  /** A rect element spans its two corners: from the first, by the differences. */
  lemma RectGeometry(d: DrawingElement, scale: real)
    requires d.elementType == "rect" && |d.points| >= 4
    ensures var r := Render(d, scale).value; var p := d.points;
      r.Rect? && r.x == p[0] * scale && r.y == p[1] * scale
      && r.x + r.width == p[2] * scale && r.y + r.height == p[3] * scale
      && r.fill == (if Truthy(d.fillColor) then d.fillColor.value else "none")
  {
  }

  /** A text element is written at its first point, in its colour, family and size or their defaults. */
  lemma TextGeometry(d: DrawingElement, scale: real)
    requires d.elementType == "text" && Truthy(d.text) && |d.points| >= 2
    ensures var t := Render(d, scale).value;
      t.Text? && t.x == d.points[0] * scale && t.y == d.points[1] * scale && t.text == d.text.value
      && t.fontSize == (if d.fontSize == 0 then 14.0 else d.fontSize as real) * scale
      && t.fill == (if d.textColor == "" then "#000000" else d.textColor)
      && t.fontFamily == (if d.fontFamily == "" then "Arial" else d.fontFamily)
  {
  }

  /** A new drawing once stored, with the identity the server gives it. */
  function Stored(n: DrawingCanvas.NewDrawing, id: string, projectId: string, page: int, createdAt: int): DrawingElement
  {
    DrawingElement(id, projectId, page, n.elementType, n.points, n.strokeColor, n.strokeWidth, n.fillColor,
                   n.text, n.fontSize, n.fontFamily, n.textColor, n.imageData, createdAt)
  }

  /** A rectangle dragged on the canvas, once stored, renders with a non-negative size. */
  lemma CanvasRectRenders(start: DrawingCanvas.Point, end: DrawingCanvas.Point, c: string, w: int, fill: Option<string>,
                          id: string, projectId: string, page: int, createdAt: int, scale: real)
    requires scale >= 0.0
    ensures var d := Stored(DrawingCanvas.RectDrawing(start, end, c, w, fill), id, projectId, page, createdAt);
      |d.points| == PointCount(d.elementType)
      && Render(d, scale).Some? && Render(d, scale).value.Rect?
      && Render(d, scale).value.width >= 0.0 && Render(d, scale).value.height >= 0.0
  {
    DrawingCanvas.RectNormalised(start, end, c, w, fill);
    var d := Stored(DrawingCanvas.RectDrawing(start, end, c, w, fill), id, projectId, page, createdAt);
    var p := d.points;
    assert d.elementType == "rect" && |p| == 4;
    var r := Render(d, scale).value;
    assert r.width == (p[2] - p[0]) * scale && r.height == (p[3] - p[1]) * scale;
    ProductNonNegative(p[2] - p[0], scale);
    ProductNonNegative(p[3] - p[1], scale);
  }

  lemma ProductNonNegative(a: real, b: real)
    requires a >= 0.0 && b >= 0.0
    ensures a * b >= 0.0
  {
  }

  /** A text placed on the canvas with a non-empty message, once stored, renders at its point in the canvas's font. */
  lemma CanvasTextRenders(at: DrawingCanvas.Point, message: string, c: string, w: int,
                          id: string, projectId: string, page: int, createdAt: int, scale: real)
    requires message != ""
    ensures var t := Stored(DrawingCanvas.TextDrawing(at, message, c, w), id, projectId, page, createdAt);
      |t.points| == PointCount(t.elementType) && Render(t, scale).Some?
      && var s := Render(t, scale).value;
      s.Text? && s.x == at.x * scale && s.y == at.y * scale && s.text == message && s.fontSize == 14.0 * scale
      && s.fontFamily == "Arial" && s.fill == (if c == "" then "#000000" else c)
  {
    var t := Stored(DrawingCanvas.TextDrawing(at, message, c, w), id, projectId, page, createdAt);
    assert t.elementType == "text" && t.text == Some(message) && t.points == [at.x, at.y];
    TextGeometry(t, scale);
  }
}
