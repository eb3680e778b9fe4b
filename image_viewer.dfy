/**
 * The page viewer: its zoom buttons, the marquee drawn by dragging over
 * the empty overlay, the regions the marquee selects, and selecting a
 * region by clicking it.  The selection the viewer reports to its parent
 * is kept here as the viewer's own field.
 */
module ImageViewer {
  import opened Wrappers
  import opened Models

  // ---------------------------------------------------------------- zoom

  const ZoomStep: real := 0.25
  const MinZoom: real := 0.25
  const MaxZoom: real := 4.0

  function ZoomOut(z: real): (r: real)
    ensures r >= MinZoom && r <= (if z - ZoomStep >= MinZoom then z - ZoomStep else MinZoom)
    ensures z - ZoomStep >= MinZoom ==> r == z - ZoomStep
  {
    if z - ZoomStep >= MinZoom then z - ZoomStep else MinZoom
  }

  function ZoomIn(z: real): (r: real)
    ensures r <= MaxZoom
    ensures z + ZoomStep <= MaxZoom ==> r == z + ZoomStep
    ensures z + ZoomStep > MaxZoom ==> r == MaxZoom
  {
    if z + ZoomStep <= MaxZoom then z + ZoomStep else MaxZoom
  }

  /** The reset button's zoom. */
  const ResetZoom: real := 1.0

  predicate OutDisabled(z: real) { z <= MinZoom }
  predicate InDisabled(z: real) { z >= MaxZoom }
  predicate ResetDisabled(z: real) { z == ResetZoom }

  /** Zooming keeps a zoom inside [0.25, 4] inside it. */
  lemma ZoomStaysInRange(z: real)
    requires MinZoom <= z <= MaxZoom
    ensures MinZoom <= ZoomOut(z) <= MaxZoom && MinZoom <= ZoomIn(z) <= MaxZoom
  {
  }

  /** A button is disabled exactly when pressing it would leave the zoom as it is. */
  lemma DisabledMeansNoChange(z: real)
    requires MinZoom <= z <= MaxZoom
    ensures OutDisabled(z) <==> ZoomOut(z) == z
    ensures InDisabled(z) <==> ZoomIn(z) == z
    ensures ResetDisabled(z) <==> ResetZoom == z
  {
  }

  /** Away from the limits, zooming in undoes zooming out and the other way round. */
  lemma ZoomRoundTrip(z: real)
    ensures MinZoom + ZoomStep <= z <= MaxZoom ==> ZoomIn(ZoomOut(z)) == z
    ensures MinZoom <= z <= MaxZoom - ZoomStep ==> ZoomOut(ZoomIn(z)) == z
  {
  }

  // ---------------------------------------------------------------- the marquee

  datatype Point = Point(x: real, y: real)

  /** A rectangle by its top-left corner and its size, in screen pixels. */
  datatype Rect = Rect(x: real, y: real, width: real, height: real)

  function Min(a: real, b: real): real { if a <= b then a else b }
  function Abs(a: real): real { if a >= 0.0 then a else -a }

  /** The rectangle spanned by the drag's start and the cursor. */
  function Marquee(start: Point, p: Point): (r: Rect)
    ensures r.width >= 0.0 && r.height >= 0.0
    ensures r.x <= start.x <= r.x + r.width && r.x <= p.x <= r.x + r.width
    ensures r.y <= start.y <= r.y + r.height && r.y <= p.y <= r.y + r.height
    ensures (r.x == start.x || r.x == p.x) && (r.x + r.width == start.x || r.x + r.width == p.x)
    ensures (r.y == start.y || r.y == p.y) && (r.y + r.height == start.y || r.y + r.height == p.y)
  {
    Rect(Min(start.x, p.x), Min(start.y, p.y), Abs(p.x - start.x), Abs(p.y - start.y))
  }

  /** The marquee does not depend on which corner the drag started from. */
  lemma MarqueeSymmetric(a: Point, b: Point)
    ensures Marquee(a, b) == Marquee(b, a)
  {
  }

  /** A region's box, scaled to the screen, meets the marquee (edges touching count). */
  predicate Meets(b: Box, scale: real, r: Rect)
  {
    !(b.x2 * scale < r.x || b.x1 * scale > r.x + r.width || b.y2 * scale < r.y || b.y1 * scale > r.y + r.height)
  }

  /** The ids of the regions the marquee meets. */
  function HitIds(regions: seq<TextRegion>, scale: real, r: Rect): set<string>
    decreases |regions|
  {
    if regions == [] then {}
    else
      var last := regions[|regions| - 1];
      HitIds(regions[..|regions| - 1], scale, r) + (if Meets(last.bbox, scale, r) then {last.id} else {})
  }

  /** An id is hit exactly when some region with that id meets the marquee. */
  lemma {:induction false} HitIdsMembers(regions: seq<TextRegion>, scale: real, r: Rect, id: string)
    ensures id in HitIds(regions, scale, r) <==> exists i :: 0 <= i < |regions| && regions[i].id == id && Meets(regions[i].bbox, scale, r)
    decreases |regions|
  {
    if regions != [] {
      var init := regions[..|regions| - 1];
      HitIdsMembers(init, scale, r, id);
      if id in HitIds(init, scale, r) {
        var i :| 0 <= i < |init| && init[i].id == id && Meets(init[i].bbox, scale, r);
        assert regions[i] == init[i];
      }
      if exists i :: 0 <= i < |regions| && regions[i].id == id && Meets(regions[i].bbox, scale, r) {
        var i :| 0 <= i < |regions| && regions[i].id == id && Meets(regions[i].bbox, scale, r);
        if i < |init| {
          assert init[i] == regions[i];
        }
      }
    }
  }

  // ---------------------------------------------------------------- clicking a region

  /** The modifier keys of a click. */
  datatype Modifiers = Modifiers(ctrl: bool, meta: bool)

  /**
   * The viewer's selection callback for a region: with Ctrl or Meta held
   * the region's id is toggled, otherwise it becomes the only selection.
   * The event is optional, as in the callback's signature.
   */
  function OnSelect(selected: set<string>, id: string, e: Option<Modifiers>): (r: set<string>)
    ensures e.Some? && (e.value.ctrl || e.value.meta) ==> r == (if id in selected then selected - {id} else selected + {id})
    ensures !(e.Some? && (e.value.ctrl || e.value.meta)) ==> r == {id}
  {
    if e.Some? && (e.value.ctrl || e.value.meta) then
      if id in selected then selected - {id} else selected + {id}
    else {id}
  }

  /** What a click on a region selects as the code is written: the text box calls the callback without its event. */
  function ClickSelectAsWritten(selected: set<string>, id: string, mods: Modifiers): set<string>
  {
    OnSelect(selected, id, None)
  }

  /** As written, holding Ctrl or Meta makes no difference: the click always selects just the region. */
  lemma CtrlClickIgnored(selected: set<string>, id: string, mods: Modifiers)
    ensures ClickSelectAsWritten(selected, id, mods) == {id}
    ensures ClickSelectAsWritten({"a"}, "b", Modifiers(true, false)) == {"b"}
  {
  }

  /** What a click on a region selects once the text box passes its event on. */
  function ClickSelect(selected: set<string>, id: string, mods: Modifiers): set<string>
  {
    OnSelect(selected, id, Some(mods))
  }

  /**
   * Ctrl- or Meta-click toggles exactly the clicked id, so clicking twice
   * restores the selection; a plain click selects exactly that id.
   */
  lemma ClickSelectToggles(selected: set<string>, id: string, mods: Modifiers)
    ensures mods.ctrl || mods.meta ==>
      (id in ClickSelect(selected, id, mods) <==> id !in selected)
      && (forall x :: x != id ==> (x in ClickSelect(selected, id, mods) <==> x in selected))
      && ClickSelect(ClickSelect(selected, id, mods), id, mods) == selected
    ensures !(mods.ctrl || mods.meta) ==> ClickSelect(selected, id, mods) == {id}
    ensures ClickSelect({"a"}, "b", Modifiers(true, false)) == {"a", "b"}
  {
  }

  // ---------------------------------------------------------------- the overlay

  class Viewer {
    /** The region ids selected. */
    var selected: set<string>
    var isDraggingSelection: bool
    var dragStart: Option<Point>
    var selectionRect: Option<Rect>

    constructor(selected: set<string>)
      ensures this.selected == selected && !isDraggingSelection && dragStart.None? && selectionRect.None?
    {
      this.selected := selected;
      isDraggingSelection := false;
      dragStart, selectionRect := None, None;
    }

    /**
     * Mouse-down at `p` on the overlay itself (not on a region): a
     * marquee starts, and without Ctrl or Meta the selection is cleared.
     */
    method OverlayMouseDown(p: Point, mods: Modifiers)
      modifies this
      ensures isDraggingSelection && dragStart == Some(p) && selectionRect == Some(Rect(p.x, p.y, 0.0, 0.0))
      ensures selected == if mods.ctrl || mods.meta then old(selected) else {}
    {
      dragStart := Some(p);
      selectionRect := Some(Rect(p.x, p.y, 0.0, 0.0));
      isDraggingSelection := true;
      if !mods.ctrl && !mods.meta {
        selected := {};
      }
    }

    /** A cursor move during a marquee drag redraws the marquee. */
    method MouseMove(p: Point)
      modifies this
      ensures isDraggingSelection && dragStart.Some? ==> selectionRect == Some(Marquee(dragStart.value, p))
      ensures !(isDraggingSelection && dragStart.Some?) ==> selectionRect == old(selectionRect)
      ensures selected == old(selected) && isDraggingSelection == old(isDraggingSelection) && dragStart == old(dragStart)
    {
      if !isDraggingSelection || dragStart.None? {
        return;
      }
      selectionRect := Some(Marquee(dragStart.value, p));
    }

    /**
     * Mouse-up: a marquee adds every region it meets to the selection,
     * keeping what was selected; the drag ends either way.
     */
    method MouseUp(regions: seq<TextRegion>, scale: real)
      modifies this
      ensures !isDraggingSelection && dragStart.None?
      ensures old(isDraggingSelection) && old(selectionRect).Some? ==>
        selected == old(selected) + HitIds(regions, scale, old(selectionRect).value) && selectionRect.None?
      ensures !(old(isDraggingSelection) && old(selectionRect).Some?) ==>
        selected == old(selected) && selectionRect == old(selectionRect)
    {
      if !isDraggingSelection || selectionRect.None? {
        isDraggingSelection := false;
        dragStart := None;
        return;
      }
      var rect := selectionRect.value;
      var selectedIds := selected;
      for i := 0 to |regions|
        invariant selectedIds == selected + HitIds(regions[..i], scale, rect)
      {
        assert regions[..i + 1][..i] == regions[..i];
        assert HitIds(regions[..i + 1], scale, rect) == HitIds(regions[..i], scale, rect)
          + (if Meets(regions[i].bbox, scale, rect) then {regions[i].id} else {});
        var b := regions[i].bbox;
        var intersects := !(b.x2 * scale < rect.x || b.x1 * scale > rect.x + rect.width
                             || b.y2 * scale < rect.y || b.y1 * scale > rect.y + rect.height);
        assert intersects == Meets(b, scale, rect);
        if intersects {
          selectedIds := selectedIds + {regions[i].id};
        }
      }
      assert regions[..|regions|] == regions;
      selected := selectedIds;
      isDraggingSelection := false;
      dragStart := None;
      selectionRect := None;
    }

    /** A click on a region, with its modifier keys. */
    method RegionClick(id: string, mods: Modifiers)
      modifies this
      ensures selected == ClickSelect(old(selected), id, mods)
      ensures isDraggingSelection == old(isDraggingSelection) && dragStart == old(dragStart) && selectionRect == old(selectionRect)
    {
      selected := ClickSelect(selected, id, mods);
    }
  }
}
