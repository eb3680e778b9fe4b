/**
 * The overlay that cuts snippets out of a page: dragging copies a region,
 * Shift-dragging pastes a copy of it centred under the cursor, and each
 * paste is handed to the parent as a crop.  The overlay's props (whether
 * it is active, where it sits, the zoom and the image size) are the
 * handlers' parameters; the callbacks it makes are logged.
 */
module CropOverlay {
  import opened Wrappers

  datatype Point = Point(x: real, y: real)

  function Min(a: real, b: real): real { if a <= b then a else b }
  function Max(a: real, b: real): real { if a >= b then a else b }
  function Abs(a: real): real { if a >= 0.0 then a else -a }

  /** `Math.max(0, Math.min(hi, v))` */
  function Clamp(v: real, hi: real): (r: real)
    ensures hi >= 0.0 ==> 0.0 <= r <= hi
    ensures 0.0 <= v <= hi ==> r == v
    ensures v < 0.0 ==> r == 0.0
    ensures hi >= 0.0 && v > hi ==> r == hi
  {
    Max(0.0, Min(hi, v))
  }

  /** `Math.round`: the nearest integer, halves rounded up. */
  function Round(x: real): (r: int)
    ensures x - 0.5 < r as real <= x + 0.5
  {
    (x + 0.5).Floor
  }

  /** Rounding an integer leaves it as it is. */
  lemma RoundInt(n: int)
    ensures Round(n as real) == n
  {
  }

  /** Rounding keeps the order of its arguments. */
  lemma RoundMonotone(a: real, b: real)
    requires a <= b
    ensures Round(a) <= Round(b)
  {
  }

  /**
   * `getCoords`: the cursor relative to the overlay, divided by the zoom
   * and clamped into the image; nothing when the overlay is not mounted.
   */
  function Coords(client: Point, overlayOrigin: Option<Point>, scale: real, width: real, height: real): (r: Option<Point>)
    requires scale > 0.0
    ensures r.Some? <==> overlayOrigin.Some?
    ensures r.Some? && width >= 0.0 ==> 0.0 <= r.value.x <= width
    ensures r.Some? && height >= 0.0 ==> 0.0 <= r.value.y <= height
  {
    match overlayOrigin
    case None => None
    case Some(o) => Some(Point(Clamp((client.x - o.x) / scale, width), Clamp((client.y - o.y) / scale, height)))
  }

  /** Inside the image the clamp changes nothing: the point under the cursor is found exactly. */
  lemma CoordsInside(p: Point, o: Point, scale: real, width: real, height: real)
    requires scale > 0.0 && 0.0 <= p.x <= width && 0.0 <= p.y <= height
    ensures Coords(Point(o.x + p.x * scale, o.y + p.y * scale), Some(o), scale, width, height) == Some(p)
  {
    assert (o.x + p.x * scale - o.x) / scale == p.x;
    assert (o.y + p.y * scale - o.y) / scale == p.y;
  }

  /** A drag in progress, in image coordinates. */
  datatype Selection = Selection(startX: real, startY: real, currentX: real, currentY: real)

  /** The copied region, rounded to whole pixels. */
  datatype Region = Region(x: int, y: int, w: int, h: int)

  /** A callback made to the parent. */
  datatype Output = Cropped(region: Region) | Cancelled

  /**
   * The region a finished drag copies: nothing for a drag at most 5
   * pixels wide or high; otherwise its box, from the smaller corner, with
   * every value rounded.
   */
  function Copied(s: Selection): (r: Option<Region>)
    ensures r.Some? <==> Abs(s.currentX - s.startX) > 5.0 && Abs(s.currentY - s.startY) > 5.0
    ensures r.Some? ==> r.value.w >= 5 && r.value.h >= 5
    ensures r.Some? ==>
      r.value.x as real - 0.5 <= Min(s.startX, s.currentX) < r.value.x as real + 0.5
      && r.value.y as real - 0.5 <= Min(s.startY, s.currentY) < r.value.y as real + 0.5
      && r.value.w as real - 0.5 <= Abs(s.currentX - s.startX) < r.value.w as real + 0.5
      && r.value.h as real - 0.5 <= Abs(s.currentY - s.startY) < r.value.h as real + 0.5
  {
    var w := Abs(s.currentX - s.startX);
    var h := Abs(s.currentY - s.startY);
    if w > 5.0 && h > 5.0 then
      RoundMonotone(5.0, w);
      RoundMonotone(5.0, h);
      Some(Region(Round(Min(s.startX, s.currentX)), Round(Min(s.startY, s.currentY)), Round(w), Round(h)))
    else None
  }

  /** The copied region does not depend on the direction of the drag. */
  lemma CopiedSymmetric(s: Selection)
    ensures Copied(s) == Copied(Selection(s.currentX, s.currentY, s.startX, s.startY))
  {
  }

  /** A drag between two points of the image copies a region that starts inside the image. */
  lemma CopiedInsideImage(s: Selection, width: real, height: real)
    requires 0.0 <= s.startX <= width && 0.0 <= s.currentX <= width
    requires 0.0 <= s.startY <= height && 0.0 <= s.currentY <= height
    requires Copied(s).Some?
    ensures 0 <= Copied(s).value.x <= Round(width) && 0 <= Copied(s).value.y <= Round(height)
  {
    RoundMonotone(0.0, Min(s.startX, s.currentX));
    RoundMonotone(Min(s.startX, s.currentX), width);
    RoundMonotone(0.0, Min(s.startY, s.currentY));
    RoundMonotone(Min(s.startY, s.currentY), height);
  }

  /** Where a paste goes: the copied region's top-left corner placed so that the region is centred on `at`. */
  function PasteAt(at: Point, r: Region): (p: Point)
    ensures p.x + r.w as real / 2.0 == at.x && p.y + r.h as real / 2.0 == at.y
  {
    Point(at.x - r.w as real / 2.0, at.y - r.h as real / 2.0)
  }

  /** The crop a paste at `p` hands over: the copied size at the rounded position. */
  function PasteCrop(p: Point, r: Region): (c: Region)
    ensures c.w == r.w && c.h == r.h
    ensures p.x - 0.5 < c.x as real <= p.x + 0.5 && p.y - 0.5 < c.y as real <= p.y + 0.5
  {
    RoundInt(r.w);
    RoundInt(r.h);
    Region(Round(p.x), Round(p.y), Round(r.w as real), Round(r.h as real))
  }

  /** Pasting under the point a region was copied from gives back the region (up to the rounding of half its size). */
  lemma PasteBackInPlace(r: Region)
    requires r.w % 2 == 0 && r.h % 2 == 0
    ensures PasteCrop(PasteAt(Point(r.x as real + r.w as real / 2.0, r.y as real + r.h as real / 2.0), r), r) == r
  {
    RoundInt(r.x);
    RoundInt(r.y);
  }

  class Overlay {
    var selection: Option<Selection>
    var copied: Option<Region>
    var pastePosition: Option<Point>
    var isDraggingPaste: bool
    /** The callbacks made so far, oldest first. */
    var outputs: seq<Output>

    /** A paste is under way exactly when it has a position, and only with a region copied. */
    predicate Valid()
      reads this
    {
      (isDraggingPaste <==> pastePosition.Some?)
      && (isDraggingPaste ==> copied.Some?)
      && (copied.Some? ==> copied.value.w >= 5 && copied.value.h >= 5)
    }

    constructor()
      ensures Valid() && selection.None? && copied.None? && pastePosition.None? && !isDraggingPaste && outputs == []
    {
      selection, copied, pastePosition, isDraggingPaste, outputs := None, None, None, false, [];
    }

    /**
     * Mouse-down: with a region copied and Shift held, a paste starts,
     * centred on the cursor; otherwise a drag starts at the cursor.
     * Nothing happens while inactive or unmounted.
     */
    method MouseDown(isActive: bool, client: Point, overlayOrigin: Option<Point>, scale: real, width: real, height: real, shift: bool)
      requires scale > 0.0 && Valid()
      modifies this
      ensures Valid() && copied == old(copied) && outputs == old(outputs)
      ensures !isActive || overlayOrigin.None? ==>
        selection == old(selection) && pastePosition == old(pastePosition) && isDraggingPaste == old(isDraggingPaste)
      ensures isActive && overlayOrigin.Some? ==>
        var at := Coords(client, overlayOrigin, scale, width, height).value;
        if copied.Some? && shift then
          isDraggingPaste && pastePosition == Some(PasteAt(at, copied.value)) && selection == old(selection)
        else
          selection == Some(Selection(at.x, at.y, at.x, at.y))
          && pastePosition == old(pastePosition) && isDraggingPaste == old(isDraggingPaste)
    {
      if !isActive {
        return;
      }
      var coords := Coords(client, overlayOrigin, scale, width, height);
      if coords.None? {
        return;
      }
      var at := coords.value;
      if copied.Some? && shift {
        pastePosition := Some(PasteAt(at, copied.value));
        isDraggingPaste := true;
        return;
      }
      selection := Some(Selection(at.x, at.y, at.x, at.y));
    }

    /** Mouse-move: a paste follows the cursor; otherwise a drag's current corner does. */
    method MouseMove(isActive: bool, client: Point, overlayOrigin: Option<Point>, scale: real, width: real, height: real)
      requires scale > 0.0 && Valid()
      modifies this
      ensures Valid() && copied == old(copied) && isDraggingPaste == old(isDraggingPaste) && outputs == old(outputs)
      ensures !isActive || overlayOrigin.None? ==> selection == old(selection) && pastePosition == old(pastePosition)
      ensures isActive && overlayOrigin.Some? ==>
        var at := Coords(client, overlayOrigin, scale, width, height).value;
        if isDraggingPaste then
          pastePosition == Some(PasteAt(at, copied.value)) && selection == old(selection)
        else
          pastePosition == old(pastePosition)
          && selection == (if old(selection).Some? then Some(old(selection).value.(currentX := at.x, currentY := at.y)) else None)
    {
      if !isActive {
        return;
      }
      if isDraggingPaste && copied.Some? {
        var coords := Coords(client, overlayOrigin, scale, width, height);
        if coords.Some? {
          pastePosition := Some(PasteAt(coords.value, copied.value));
        }
        return;
      }
      if selection.Some? {
        var coords := Coords(client, overlayOrigin, scale, width, height);
        if coords.Some? {
          selection := Some(selection.value.(currentX := coords.value.x, currentY := coords.value.y));
        }
      }
    }

    /**
     * Mouse-up (and the cursor leaving): a paste hands over one crop
     * and ends, the copied region staying for further pastes; a drag ends
     * and, when large enough, replaces the copied region.
     */
    method MouseUp()
      requires Valid()
      modifies this
      ensures Valid() && !isDraggingPaste && pastePosition.None?
      ensures old(isDraggingPaste) ==>
        outputs == old(outputs) + [Cropped(PasteCrop(old(pastePosition).value, old(copied).value))]
        && copied == old(copied) && selection == old(selection)
      ensures !old(isDraggingPaste) ==>
        outputs == old(outputs) && selection.None?
        && copied == (if old(selection).Some? && Copied(old(selection).value).Some? then Copied(old(selection).value) else old(copied))
    {
      if isDraggingPaste && copied.Some? && pastePosition.Some? {
        var p := pastePosition.value;
        var r := copied.value;
        outputs := outputs + [Cropped(Region(Round(p.x), Round(p.y), Round(r.w as real), Round(r.h as real)))];
        isDraggingPaste := false;
        pastePosition := None;
        return;
      }
      if selection.Some? {
        var s := selection.value;
        var x := Min(s.startX, s.currentX);
        var y := Min(s.startY, s.currentY);
        var w := Abs(s.currentX - s.startX);
        var h := Abs(s.currentY - s.startY);
        if w > 5.0 && h > 5.0 {
          copied := Some(Region(Round(x), Round(y), Round(w), Round(h)));
        }
        selection := None;
      }
    }

    /** The Paste button: the copied region is handed over where it was copied from. */
    method ConfirmPaste()
      requires Valid()
      modifies this
      ensures Valid()
      ensures selection == old(selection) && copied == old(copied)
      ensures pastePosition == old(pastePosition) && isDraggingPaste == old(isDraggingPaste)
      ensures outputs == old(outputs) + (if copied.Some? then [Cropped(copied.value)] else [])
    {
      if copied.Some? {
        var r := copied.value;
        RoundInt(r.x);
        RoundInt(r.y);
        RoundInt(r.w);
        RoundInt(r.h);
        outputs := outputs + [Cropped(Region(Round(r.x as real), Round(r.y as real), Round(r.w as real), Round(r.h as real)))];
      }
    }

    /** The Cancel button: everything is forgotten and the parent is told. */
    method Cancel()
      modifies this
      ensures Valid() && selection.None? && copied.None? && pastePosition.None? && !isDraggingPaste
      ensures outputs == old(outputs) + [Cancelled]
    {
      selection, copied, pastePosition, isDraggingPaste := None, None, None, false;
      outputs := outputs + [Cancelled];
    }

    /** The effect run when the overlay is switched off: everything is forgotten, silently. */
    method Deactivate()
      modifies this
      ensures Valid() && selection.None? && copied.None? && pastePosition.None? && !isDraggingPaste
      ensures outputs == old(outputs)
    {
      selection, copied, pastePosition, isDraggingPaste := None, None, None, false;
    }
  }
}
