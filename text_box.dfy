/**
 * The editable text box drawn over a page for one region: dragging it,
 * resizing it by a corner, editing its translation in place, and the
 * colours and font size it is shown with.  Mouse and key events are
 * method calls; the updates the box asks its parent to apply are logged.
 */
module TextBox {
  import opened Wrappers
  import opened Models

  // ---------------------------------------------------------------- geometry

  /** Where a drag or a resize started: the cursor in screen pixels, the box in image pixels. */
  datatype DragStart = DragStart(x: real, y: real, bbox: Box)

  /** The four resize handles. */
  datatype Corner = NW | NE | SW | SE

  /** The box moved by a cursor delta measured from the start, converted to image pixels. */
  function Dragged(start: DragStart, cx: real, cy: real, scale: real): (b: Box)
    requires scale > 0.0
    ensures b.x2 - b.x1 == start.bbox.x2 - start.bbox.x1 && b.y2 - b.y1 == start.bbox.y2 - start.bbox.y1
    ensures b.x1 - start.bbox.x1 == (cx - start.x) / scale && b.y1 - start.bbox.y1 == (cy - start.y) / scale
  {
    var dx, dy := (cx - start.x) / scale, (cy - start.y) / scale;
    Box(start.bbox.x1 + dx, start.bbox.y1 + dy, start.bbox.x2 + dx, start.bbox.y2 + dy)
  }

  /** Dragging back to where the drag started puts the box back where it was. */
  lemma DragToStart(start: DragStart, scale: real)
    requires scale > 0.0
    ensures Dragged(start, start.x, start.y, scale) == start.bbox
  {
  }

  /** The box with the dragged corner moved by the delta; the opposite coordinates stay. */
  function Resized(start: DragStart, corner: Corner, cx: real, cy: real, scale: real): (b: Box)
    requires scale > 0.0
    ensures b.x1 == (if corner == NW || corner == SW then start.bbox.x1 + (cx - start.x) / scale else start.bbox.x1)
    ensures b.x2 == (if corner == NE || corner == SE then start.bbox.x2 + (cx - start.x) / scale else start.bbox.x2)
    ensures b.y1 == (if corner == NW || corner == NE then start.bbox.y1 + (cy - start.y) / scale else start.bbox.y1)
    ensures b.y2 == (if corner == SW || corner == SE then start.bbox.y2 + (cy - start.y) / scale else start.bbox.y2)
  {
    var dx, dy := (cx - start.x) / scale, (cy - start.y) / scale;
    var o := start.bbox;
    match corner
    case NW => Box(o.x1 + dx, o.y1 + dy, o.x2, o.y2)
    case NE => Box(o.x1, o.y1 + dy, o.x2 + dx, o.y2)
    case SW => Box(o.x1 + dx, o.y1, o.x2, o.y2 + dy)
    case SE => Box(o.x1, o.y1, o.x2 + dx, o.y2 + dy)
  }

  /** The smallest box a resize may produce, in image pixels (exclusive). */
  const MinWidth: real := 20.0
  const MinHeight: real := 10.0

  predicate LargeEnough(b: Box)
  {
    b.x2 - b.x1 > MinWidth && b.y2 - b.y1 > MinHeight
  }

  /** Each corner moves exactly two coordinates, one horizontal and one vertical. */
  lemma ResizeMovesOneCorner(start: DragStart, corner: Corner, cx: real, cy: real, scale: real)
    requires scale > 0.0
    ensures var b, o := Resized(start, corner, cx, cy, scale), start.bbox;
      (b.x1 == o.x1 || b.x2 == o.x2) && (b.y1 == o.y1 || b.y2 == o.y2)
      && (corner == NW ==> b.x2 == o.x2 && b.y2 == o.y2)
      && (corner == SE ==> b.x1 == o.x1 && b.y1 == o.y1)
      && (corner == NE ==> b.x1 == o.x1 && b.y2 == o.y2)
      && (corner == SW ==> b.x2 == o.x2 && b.y1 == o.y1)
  {
  }

  // ---------------------------------------------------------------- appearance

  const Grey := "#9ca3af"
  const Red := "#dc2626"
  const Green := "#16a34a"
  const Blue := "#2563eb"

  /** The border: locked before manual before selected before the default grey. */
  function BorderColor(locked: bool, isManual: bool, isSelected: bool): (c: string)
    ensures locked ==> c == Red
    ensures !locked && isManual ==> c == Green
    ensures !locked && !isManual && isSelected ==> c == Blue
    ensures !locked && !isManual && !isSelected ==> c == Grey
  {
    if locked then Red else if isManual then Green else if isSelected then Blue else Grey
  }

  function MinReal(a: real, b: real): real { if a <= b then a else b }
  function MaxReal(a: real, b: real): real { if a >= b then a else b }

  /** The font size shown, from the box's screen width and height. */
  function DisplayFontSize(swidth: real, sheight: real): (f: real)
    ensures f <= sheight * 0.6
    ensures f == sheight * 0.6 || f == 10.0 || f == swidth / 10.0
    ensures f >= MinReal(sheight * 0.6, 10.0)
    ensures swidth / 10.0 >= 10.0 && swidth / 10.0 <= sheight * 0.6 ==> f == swidth / 10.0
  {
    MinReal(sheight * 0.6, MaxReal(10.0, swidth / 10.0))
  }

  // ---------------------------------------------------------------- the component

  /** An update asked of the parent. */
  datatype Patch = BBoxPatch(bbox: Box) | TgtTextPatch(text: string)

  class EditableTextBox {
    var isDragging: bool
    var isResizing: bool
    var isEditing: bool
    var editText: string
    var dragStart: DragStart
    /** The corner whose move listener is attached, while a resize runs. */
    var resizeCorner: Option<Corner>
    /** The updates emitted, oldest first. */
    var emitted: seq<Patch>
    /** How many times the box asked to be selected. */
    var selects: nat

    constructor(region: TextRegion)
      ensures !isDragging && !isResizing && !isEditing && resizeCorner.None?
      ensures editText == OrEmpty(region.tgtText) && dragStart == DragStart(0.0, 0.0, region.bbox)
      ensures emitted == [] && selects == 0
    {
      isDragging, isResizing, isEditing := false, false, false;
      editText := OrEmpty(region.tgtText);
      dragStart := DragStart(0.0, 0.0, region.bbox);
      resizeCorner := None;
      emitted, selects := [], 0;
    }

    /** Mouse-down on the box: ignored while editing; otherwise select it and, unless locked, start a drag. */
    method MouseDown(region: TextRegion, cx: real, cy: real)
      modifies this
      ensures old(isEditing) ==> selects == old(selects) && isDragging == old(isDragging) && dragStart == old(dragStart)
      ensures !old(isEditing) ==> selects == old(selects) + 1
      ensures !old(isEditing) && !region.locked ==> isDragging && dragStart == DragStart(cx, cy, region.bbox)
      ensures old(isEditing) || region.locked ==> isDragging == old(isDragging) && dragStart == old(dragStart)
      ensures emitted == old(emitted) && isEditing == old(isEditing) && isResizing == old(isResizing)
      ensures editText == old(editText) && resizeCorner == old(resizeCorner)
    {
      if isEditing {
        return;
      }
      selects := selects + 1;
      if !region.locked {
        isDragging := true;
        dragStart := DragStart(cx, cy, region.bbox);
      }
    }

    /** Mouse-down on a resize handle: unless locked, start a resize from the current box. */
    method ResizeDown(region: TextRegion, corner: Corner, cx: real, cy: real)
      modifies this
      ensures region.locked ==> isResizing == old(isResizing) && dragStart == old(dragStart) && resizeCorner == old(resizeCorner)
      ensures !region.locked ==> isResizing && dragStart == DragStart(cx, cy, region.bbox) && resizeCorner == Some(corner)
      ensures emitted == old(emitted) && selects == old(selects) && isDragging == old(isDragging)
      ensures isEditing == old(isEditing) && editText == old(editText)
    {
      if region.locked {
        return;
      }
      isResizing := true;
      dragStart := DragStart(cx, cy, region.bbox);
      resizeCorner := Some(corner);
    }

    /**
     * A cursor move: a running drag emits the start box moved by the
     * whole delta; an attached resize emits the resized start box when
     * it is large enough.  The start is never changed, so deltas do not
     * accumulate.
     */
    method MouseMove(cx: real, cy: real, scale: real)
      requires scale > 0.0
      modifies this
      ensures emitted == old(emitted)
        + (if isDragging then [BBoxPatch(Dragged(dragStart, cx, cy, scale))] else [])
        + (if resizeCorner.Some? && LargeEnough(Resized(dragStart, resizeCorner.value, cx, cy, scale))
           then [BBoxPatch(Resized(dragStart, resizeCorner.value, cx, cy, scale))] else [])
      ensures isDragging == old(isDragging) && isResizing == old(isResizing) && isEditing == old(isEditing)
      ensures dragStart == old(dragStart) && resizeCorner == old(resizeCorner)
      ensures editText == old(editText) && selects == old(selects)
    {
      ghost var e0 := emitted;
      if isDragging {
        emitted := emitted + [BBoxPatch(Dragged(dragStart, cx, cy, scale))];
      }
      ghost var e1 := emitted;
      if resizeCorner.Some? {
        var b := Resized(dragStart, resizeCorner.value, cx, cy, scale);
        if b.x2 - b.x1 > 20.0 && b.y2 - b.y1 > 10.0 {
          emitted := emitted + [BBoxPatch(b)];
        }
      }
      assert emitted == e1 + (if resizeCorner.Some? && LargeEnough(Resized(dragStart, resizeCorner.value, cx, cy, scale))
                              then [BBoxPatch(Resized(dragStart, resizeCorner.value, cx, cy, scale))] else []);
    }

    /** Mouse-up: the drag and the resize end and the resize listener is removed. */
    method MouseUp()
      modifies this
      ensures !isDragging && !isResizing && resizeCorner.None?
      ensures emitted == old(emitted) && isEditing == old(isEditing) && editText == old(editText)
      ensures dragStart == old(dragStart) && selects == old(selects)
    {
      isDragging, isResizing := false, false;
      resizeCorner := None;
    }

    /** Double-click: unless locked, enter edit mode with the current translation. */
    method DoubleClick(region: TextRegion)
      modifies this
      ensures !region.locked ==> isEditing && editText == OrEmpty(region.tgtText)
      ensures region.locked ==> isEditing == old(isEditing) && editText == old(editText)
      ensures emitted == old(emitted) && isDragging == old(isDragging) && isResizing == old(isResizing)
      ensures dragStart == old(dragStart) && resizeCorner == old(resizeCorner) && selects == old(selects)
    {
      if !region.locked {
        isEditing := true;
        editText := OrEmpty(region.tgtText);
      }
    }

    /** Typing in the text area. */
    method Type(text: string)
      modifies this
      ensures editText == text && isEditing == old(isEditing) && emitted == old(emitted)
      ensures isDragging == old(isDragging) && isResizing == old(isResizing)
      ensures dragStart == old(dragStart) && resizeCorner == old(resizeCorner) && selects == old(selects)
    {
      editText := text;
    }

    /** Enter (or leaving the text area) commits the text as one update; Escape leaves edit mode without one. */
    method EditKey(key: string)
      modifies this
      ensures key == "Enter" ==> emitted == old(emitted) + [TgtTextPatch(old(editText))] && !isEditing
      ensures key == "Escape" ==> emitted == old(emitted) && !isEditing
      ensures key != "Enter" && key != "Escape" ==> emitted == old(emitted) && isEditing == old(isEditing)
      ensures editText == old(editText) && isDragging == old(isDragging) && isResizing == old(isResizing)
      ensures dragStart == old(dragStart) && resizeCorner == old(resizeCorner) && selects == old(selects)
    {
      if key == "Enter" {
        Submit();
      } else if key == "Escape" {
        isEditing := false;
      }
    }

    /** `handleEditSubmit`, which the text area's blur also calls. */
    method Submit()
      modifies this
      ensures emitted == old(emitted) + [TgtTextPatch(old(editText))] && !isEditing
      ensures editText == old(editText) && isDragging == old(isDragging) && isResizing == old(isResizing)
      ensures dragStart == old(dragStart) && resizeCorner == old(resizeCorner) && selects == old(selects)
    {
      emitted := emitted + [TgtTextPatch(editText)];
      isEditing := false;
    }
  }

  /**
   * A locked region never starts a drag, a resize or an edit: from a
   * resting box, the events that would start one leave it at rest.
   */
  method LockedStaysPut(box: EditableTextBox, region: TextRegion, corner: Corner, cx: real, cy: real)
    requires region.locked
    requires !box.isDragging && !box.isResizing && !box.isEditing && box.resizeCorner.None?
    modifies box
    ensures !box.isDragging && !box.isResizing && !box.isEditing && box.resizeCorner.None?
    ensures box.emitted == old(box.emitted)
  {
    box.MouseDown(region, cx, cy);
    box.ResizeDown(region, corner, cx, cy);
    box.DoubleClick(region);
    box.MouseMove(cx + 1.0, cy + 1.0, 1.0);
  }

  /** Two moves in a row: the second update depends only on the start and the last cursor position. */
  method DragDoesNotAccumulate(box: EditableTextBox, region: TextRegion, x0: real, y0: real, x1: real, y1: real,
                               x2: real, y2: real, scale: real)
    requires !region.locked && !box.isEditing && box.resizeCorner.None? && scale > 0.0
    modifies box
    ensures box.emitted == old(box.emitted) + [BBoxPatch(Dragged(DragStart(x0, y0, region.bbox), x1, y1, scale)),
                                               BBoxPatch(Dragged(DragStart(x0, y0, region.bbox), x2, y2, scale))]
  {
    box.MouseDown(region, x0, y0);
    box.MouseMove(x1, y1, scale);
    box.MouseMove(x2, y2, scale);
  }
}
