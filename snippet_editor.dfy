/**
 * The drawing layer of the snippet editor: the snippet's overlay
 * elements are shown through the drawing canvas under ids that encode
 * their position in the list, and the canvas's callbacks are mapped back
 * onto the list by parsing those ids.  The element list is the one the
 * parent holds; every list the editor emits is adopted as the new one.
 */
module SnippetEditor {
  import opened Wrappers
  import opened Models
  import opened PyFormat
  import opened JsText
  import DrawingCanvas

  /** An element drawn over a snippet. */
  datatype Element = Element(
    elementType: string,
    points: seq<real>,
    strokeColor: string,
    strokeWidth: int,
    fillColor: Option<string>,
    text: Option<string>,
    fontSize: int,
    fontFamily: string,
    textColor: string)

  const IdPrefix: string := "snippet-overlay-"

  /** The id the canvas sees for the element at position `i`. */
  function OverlayId(i: nat): string
  {
    IdPrefix + Decimal(i)
  }

  /** `s.replace(pattern, "")`: the first occurrence of the pattern removed, if there is one. */
  function RemoveFirst(s: string, pattern: string): string
    requires pattern != []
    decreases |s|
  {
    if |s| < |pattern| then s
    else if s[..|pattern|] == pattern then s[|pattern|..]
    else [s[0]] + RemoveFirst(s[1..], pattern)
  }

  /**
   * `Number(s)` when the result is used as a list index: white space
   * around the text is ignored, nothing at all reads as 0 and a decimal
   * digit string as its value.  Every other text counts as naming no
   * element.
   */
  function NumberIndex(s: string): (r: Option<nat>)
    ensures Blank(s) ==> r == Some(0)
  {
    TrimEmptyIffBlank(s);
    var t := Trim(s);
    if t == "" then Some(0)
    else if AllDigits(t) then Some(ValueOf(t))
    else None
  }

  /** The position an id names, if it names one: `Number(id.replace('snippet-overlay-', ''))`. */
  function IndexOf(id: string): Option<nat>
  {
    NumberIndex(RemoveFirst(id, IdPrefix))
  }

  /** An element's id gives back its position, so different positions have different ids. */
  lemma IdRoundTrip(i: nat, j: nat)
    ensures IndexOf(OverlayId(i)) == Some(i)
    ensures i != j ==> OverlayId(i) != OverlayId(j)
  {
    IdOf(i);
    IdOf(j);
  }

  lemma IdOf(i: nat)
    ensures IndexOf(OverlayId(i)) == Some(i)
  {
    var d := Decimal(i);
    assert (IdPrefix + d)[..|IdPrefix|] == IdPrefix;
    assert (IdPrefix + d)[|IdPrefix|..] == d;
    TrimVisible(d);
    DecimalRoundTrip(i);
  }

  /** `Number` quirks carried over to the ids: the bare prefix names the first element, a foreign id names none. */
  lemma IdQuirks()
    ensures IndexOf(IdPrefix) == Some(0)
    ensures IndexOf("drawing-7") == None
  {
    assert IdPrefix[..|IdPrefix|] == IdPrefix;
    assert IdPrefix[|IdPrefix|..] == "";
    var foreign := "drawing-7";
    assert !IsDigit(foreign[0]) && !JsIsSpace(foreign[0]) && !JsIsSpace(foreign[|foreign| - 1]);
    assert RemoveFirst(foreign, IdPrefix) == foreign;
    TrimVisible(foreign);
  }

  /** The id names an element of the list: `!Number.isNaN(idx) && elements[idx]`. */
  predicate Names(elements: seq<Element>, id: string)
  {
    IndexOf(id).Some? && IndexOf(id).value < |elements|
  }

  /** The drawings handed to the canvas: one per element, in order, under the element's id. */
  function AsDrawings(elements: seq<Element>, createdAt: int): (ds: seq<DrawingElement>)
    ensures |ds| == |elements|
    ensures forall i :: 0 <= i < |ds| ==> ds[i].id == OverlayId(i)
  {
    seq(|elements|, i requires 0 <= i < |elements| =>
      var e := elements[i];
      DrawingElement(OverlayId(i), "snippet-editor", 0, e.elementType, e.points, e.strokeColor, e.strokeWidth,
                     e.fillColor, e.text, e.fontSize, e.fontFamily, e.textColor, None, createdAt))
  }

  /** Every drawing the canvas reports back by id leads to the element it was made from. */
  lemma DrawingsResolve(elements: seq<Element>, createdAt: int, i: int)
    requires 0 <= i < |elements|
    ensures Names(elements, AsDrawings(elements, createdAt)[i].id)
    ensures IndexOf(AsDrawings(elements, createdAt)[i].id) == Some(i)
    ensures AsDrawings(elements, createdAt)[i].points == elements[i].points
  {
    IdOf(i);
  }

  /** The list without its element at `k`, the others in their order. */
  function RemoveAt(s: seq<Element>, k: nat): (r: seq<Element>)
    requires k < |s|
    ensures |r| == |s| - 1
    ensures forall j :: 0 <= j < k ==> r[j] == s[j]
    ensures forall j :: k <= j < |r| ==> r[j] == s[j + 1]
  {
    s[..k] + s[k + 1..]
  }

  /** Removing one element loses exactly that element. */
  lemma RemoveAtLosesOne(s: seq<Element>, k: nat)
    requires k < |s|
    ensures multiset(RemoveAt(s, k)) + multiset{s[k]} == multiset(s)
  {
    assert s == s[..k] + [s[k]] + s[k + 1..];
  }

  /** A field of a partial update: left out, given as null, or given. */
  datatype Field<T> = Undefined | Null | Given(value: T)

  /** `a ?? b` */
  function Coalesce<T>(f: Field<T>, fallback: T): T
  {
    if f.Given? then f.value else fallback
  }

  /** `a || b` on a string */
  function OrString(f: Field<string>, fallback: string): string
  {
    if f.Given? && f.value != "" then f.value else fallback
  }

  /** The fields an update from the canvas may carry. */
  datatype Patch = Patch(
    points: Field<seq<real>>,
    text: Field<string>,
    strokeColor: Field<string>,
    strokeWidth: Field<int>,
    fillColor: Field<string>,
    textColor: Field<string>)

  /**
   * The updater of `onDrawingUpdate`.  A list of points is truthy even
   * when empty, so points, text and stroke width are replaced whenever
   * they are given; the colours only when given non-empty; the fill is
   * replaced (possibly by null) whenever it is present at all.
   */
  function Apply(el: Element, p: Patch): Element
  {
    el.(points := Coalesce(p.points, el.points),
        text := if p.text.Given? then Some(p.text.value) else el.text,
        strokeColor := OrString(p.strokeColor, el.strokeColor),
        strokeWidth := Coalesce(p.strokeWidth, el.strokeWidth),
        fillColor := if p.fillColor.Undefined? then el.fillColor else if p.fillColor.Null? then None else Some(p.fillColor.value),
        textColor := OrString(p.textColor, el.textColor))
  }

  /**
   * An update changes only what it carries: an empty update changes
   * nothing, the type and the font never change, applying it twice is
   * applying it once, and null keeps every field except the fill, which
   * it clears.
   */
  lemma ApplyFacts(el: Element, p: Patch)
    ensures Apply(el, Patch(Undefined, Undefined, Undefined, Undefined, Undefined, Undefined)) == el
    ensures var r := Apply(el, p);
      r.elementType == el.elementType && r.fontSize == el.fontSize && r.fontFamily == el.fontFamily
    ensures Apply(Apply(el, p), p) == Apply(el, p)
    ensures Apply(el, Patch(Null, Null, Null, Null, Null, Null)) == el.(fillColor := None)
    ensures Apply(el, p.(strokeColor := Given(""), textColor := Given(""))).strokeColor == el.strokeColor
  {
  }

  /** The element a drawing made on the canvas becomes. */
  function FromCanvas(d: DrawingCanvas.NewDrawing): Element
  {
    Element(d.elementType, d.points, d.strokeColor, d.strokeWidth, d.fillColor, d.text, d.fontSize, d.fontFamily, d.textColor)
  }

  /** The element a text box placed at (x, y) becomes. */
  function TextItem(x: real, y: real, text: string, strokeColor: string, strokeWidth: int): Element
  {
    Element("text", [x, y], strokeColor, strokeWidth, None, Some(text), 14, "Arial", strokeColor)
  }

  /** A text box is stored just as the canvas stores a text drawing at the same place. */
  lemma TextItemAsCanvasText(x: real, y: real, text: string, c: string, w: int)
    ensures TextItem(x, y, text, c, w) == FromCanvas(DrawingCanvas.TextDrawing(DrawingCanvas.Point(x, y), text, c, w))
    ensures |TextItem(x, y, text, c, w).points| == PointCount("text")
  {
  }

  class Editor {
    /** The overlay elements, as the parent holds them. */
    var elements: seq<Element>
    var selectedIds: seq<string>
    /** The lists emitted through `onChange`, oldest first. */
    var emitted: seq<seq<Element>>

    constructor(elements: seq<Element>)
      ensures this.elements == elements && selectedIds == [] && emitted == []
    {
      this.elements := elements;
      selectedIds := [];
      emitted := [];
    }

    /** The parent's new list. */
    method Emit(next: seq<Element>)
      modifies this
      ensures elements == next && emitted == old(emitted) + [next] && selectedIds == old(selectedIds)
    {
      elements := next;
      emitted := emitted + [next];
    }

    /** `onDrawingSelect` */
    method Select(ids: seq<string>)
      modifies this
      ensures selectedIds == ids && elements == old(elements) && emitted == old(emitted)
    {
      selectedIds := ids;
    }

    /** `onDrawingDelete`: an id naming an element removes that element and clears the selection; any other id is ignored. */
    method Delete(id: string)
      modifies this
      ensures !Names(old(elements), id) ==>
        elements == old(elements) && selectedIds == old(selectedIds) && emitted == old(emitted)
      ensures Names(old(elements), id) ==>
        elements == RemoveAt(old(elements), IndexOf(id).value) && selectedIds == []
        && emitted == old(emitted) + [elements]
    {
      var idx := IndexOf(id);
      if idx.None? || idx.value >= |elements| {
        return;
      }
      var next := RemoveAt(elements, idx.value);
      Emit(next);
      selectedIds := [];
    }

    /** `onDrawingCreate`: the new drawing goes at the end and the selection is cleared. */
    method Create(d: DrawingCanvas.NewDrawing)
      modifies this
      ensures elements == old(elements) + [FromCanvas(d)] && selectedIds == []
      ensures emitted == old(emitted) + [elements]
    {
      Emit(elements + [FromCanvas(d)]);
      selectedIds := [];
    }

    /** `onDrawingUpdate`: an id naming an element updates that element alone; any other id is ignored. */
    method Update(id: string, p: Patch)
      modifies this
      ensures selectedIds == old(selectedIds)
      ensures !Names(old(elements), id) ==> elements == old(elements) && emitted == old(emitted)
      ensures Names(old(elements), id) ==>
        var k := IndexOf(id).value;
        |elements| == |old(elements)| && elements[k] == Apply(old(elements)[k], p)
        && (forall j :: 0 <= j < |elements| && j != k ==> elements[j] == old(elements)[j])
        && emitted == old(emitted) + [elements]
    {
      var idx := IndexOf(id);
      if idx.None? || idx.value >= |elements| {
        return;
      }
      var next := elements;
      next := next[idx.value := Apply(next[idx.value], p)];
      Emit(next);
    }

    /**
     * `onAddTextBox`: the prompt's answer, trimmed, becomes a text element
     * at the end of the list; a cancelled or blank answer adds nothing.
     * The selection is left as it is.
     */
    method AddTextBox(x: real, y: real, answer: Option<string>, strokeColor: string, strokeWidth: int)
      modifies this
      ensures selectedIds == old(selectedIds)
      ensures answer.None? || Blank(answer.value) ==> elements == old(elements) && emitted == old(emitted)
      ensures answer.Some? && !Blank(answer.value) ==>
        elements == old(elements) + [TextItem(x, y, Trim(answer.value), strokeColor, strokeWidth)]
        && Trim(answer.value) != "" && emitted == old(emitted) + [elements]
    {
      if answer.None? {
        return;
      }
      var text := Trim(answer.value);
      TrimEmptyIffBlank(answer.value);
      if text == "" {
        return;
      }
      Emit(elements + [TextItem(x, y, text, strokeColor, strokeWidth)]);
    }
  }
}
