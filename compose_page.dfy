/**
 * `compose_page`: regions are painted in ascending render order (a stable
 * sort); each patch-mode region with text gets a background rectangle and its
 * fitted lines, and a region whose text overflowed is flagged for review.
 * The glyphs themselves are not rasterised: the page keeps a log of the text
 * calls made, next to the image the rectangles are painted on.  Glyph ink,
 * which can fall outside a region's rectangle and which a later region's
 * background estimate would sample, is therefore not in the image.
 */
module ComposePage {
  import opened Wrappers
  import opened PyText
  import opened Models
  import opened ComposeColor
  import opened ComposeFit

  // ---------------------------------------------------------------- paint order

  /** Index `a` is painted before index `b`: a lower render order, or the same one and an earlier position. */
  predicate Before(keys: seq<int>, a: nat, b: nat)
    requires a < |keys| && b < |keys|
  {
    keys[a] < keys[b] || (keys[a] == keys[b] && a < b)
  }

  /** Every entry is an index of `keys`, and entries are strictly ascending in paint order. */
  predicate Ascending(keys: seq<int>, s: seq<nat>)
  {
    (forall k :: 0 <= k < |s| ==> s[k] < |keys|)
    && forall a, b :: 0 <= a < b < |s| ==> Before(keys, s[a], s[b])
  }

  /** Insert index `i`, later than every index in `s`, after all entries with a key up to its own. */
  function InsertIndex(keys: seq<int>, i: nat, s: seq<nat>): (r: seq<nat>)
    requires i < |keys|
    requires forall k :: 0 <= k < |s| ==> s[k] < |keys|
    ensures |r| == |s| + 1 && forall k :: 0 <= k < |r| ==> r[k] == i || r[k] in s
    decreases |s|
  {
    if s == [] then [i]
    else if keys[i] < keys[s[0]] then [i] + s
    else [s[0]] + InsertIndex(keys, i, s[1..])
  }

  lemma {:induction false} InsertIndexFacts(keys: seq<int>, i: nat, s: seq<nat>)
    requires i < |keys| && Ascending(keys, s)
    requires forall k :: 0 <= k < |s| ==> s[k] < i
    ensures Ascending(keys, InsertIndex(keys, i, s))
    ensures |InsertIndex(keys, i, s)| == |s| + 1
    ensures forall x :: x in InsertIndex(keys, i, s) <==> x == i || x in s
    ensures InsertIndex(keys, i, s)[0] == i || InsertIndex(keys, i, s)[0] == s[0]
    decreases |s|
  {
    if s != [] && keys[i] >= keys[s[0]] {
      InsertIndexFacts(keys, i, s[1..]);
      assert s == [s[0]] + s[1..];
    }
  }

  /** `sorted(range(n), key=render_order)`: the stable sort of the first `n` indices. */
  function PaintOrderUpTo(keys: seq<int>, n: nat): (s: seq<nat>)
    requires n <= |keys|
    ensures forall k :: 0 <= k < |s| ==> s[k] < n
  {
    if n == 0 then []
    else
      InsertIndex(keys, n - 1, PaintOrderUpTo(keys, n - 1))
  }

  /** The paint order is every index exactly once, ascending by render order and, on ties, by position. */
  lemma {:induction false} PaintOrderFacts(keys: seq<int>, n: nat)
    requires n <= |keys|
    ensures var s := PaintOrderUpTo(keys, n);
      |s| == n && Ascending(keys, s) && forall i :: i in s <==> 0 <= i < n
  {
    if n > 0 {
      PaintOrderFacts(keys, n - 1);
      InsertIndexFacts(keys, n - 1, PaintOrderUpTo(keys, n - 1));
    }
  }

  function RenderOrders(regions: seq<TextRegion>): seq<int>
  {
    seq(|regions|, k requires 0 <= k < |regions| => regions[k].renderOrder)
  }

  function PaintOrder(regions: seq<TextRegion>): (s: seq<nat>)
    ensures forall k :: 0 <= k < |s| ==> s[k] < |regions|
  {
    PaintOrderUpTo(RenderOrders(regions), |regions|)
  }

  /** Ascending order means distinct entries. */
  lemma AscendingDistinct(keys: seq<int>, s: seq<nat>)
    requires Ascending(keys, s)
    ensures forall a, b :: 0 <= a < b < |s| ==> s[a] != s[b]
  {
  }

  // ---------------------------------------------------------------- one region

  /** `region.tgt_text or region.src_text` */
  function RegionText(r: TextRegion): string
  {
    if r.tgtText.Some? && r.tgtText.value != "" then r.tgtText.value else r.srcText
  }

  /** One `draw.text` call with its colour and font. */
  datatype Drawn = Drawn(stroke: Stroke, color: Rgb, family: string, size: int)

  /** The page being composed: the image, the regions (whose review flag may be set) and the text calls so far. */
  datatype PageState = PageState(img: Image, regions: seq<TextRegion>, drawn: seq<Drawn>)

  /** The background colour: the region's own `bg_color` when set (raising when it is not hex), else the estimate. */
  function Background(img: Image, r: TextRegion): Outcome<Rgb>
    requires WellFormed(img)
  {
    if r.bgColor.Some? && r.bgColor.value != "" then
      match ParseHexColor(r.bgColor.value)
      case Some(c) => Done(c)
      case None => Raised
    else Done(EstimateBackground(img, r.bbox, DefaultMargin))
  }

  /** The text colour: the region's own `text_color` when set (raising when it is not hex), else the contrast colour. */
  function Foreground(r: TextRegion, bg: Rgb): Outcome<Rgb>
  {
    if r.textColor != "" then
      match ParseHexColor(r.textColor)
      case Some(c) => Done(c)
      case None => Raised
    else Done(TextColor(bg))
  }

  /** `region.needs_review = True` */
  function Flagged(r: TextRegion): TextRegion
  {
    r.(needsReview := true)
  }

  function Log(strokes: seq<Stroke>, color: Rgb, family: string, size: int): seq<Drawn>
  {
    seq(|strokes|, k requires 0 <= k < |strokes| => Drawn(strokes[k], color, family, size))
  }

  /** Whether the composed page keeps its size, its regions' count and a well-formed image. */
  predicate SameShape(st: PageState, st': PageState)
  {
    WellFormed(st'.img) && st'.img.width == st.img.width && st'.img.height == st.img.height
    && |st'.regions| == |st.regions|
  }

  /** Both colours of a region, or `Raised` when one it sets is not hex. */
  function Colors(img: Image, r: TextRegion): Outcome<(Rgb, Rgb)>
    requires WellFormed(img)
  {
    match Background(img, r)
    case Raised => Raised
    case Done(bg) =>
      match Foreground(r, bg)
      case Raised => Raised
      case Done(fg) => Done((bg, fg))
  }

  /** The page after patching the region at `idx` in its colours: the rectangle, the lines, the review flag. */
  function Patched(st: PageState, idx: nat, bg: Rgb, fg: Rgb, measure: Measure): (out: PageState)
    requires WellFormed(st.img) && idx < |st.regions|
    ensures SameShape(st, out)
  {
    var r := st.regions[idx];
    var fit := FitSpec(RegionText(r), Trunc(r.bbox.x2) - Trunc(r.bbox.x1), Trunc(r.bbox.y2) - Trunc(r.bbox.y1), r.fontSize, r.fontFamily, measure);
    Painted(st, idx, bg, fit.overflow, RegionLog(r, fit, fg, measure))
  }

  /** The page with the region's padded rectangle filled, its text calls logged and, on overflow, its review flag set. */
  function Painted(st: PageState, idx: nat, bg: Rgb, overflow: bool, log: seq<Drawn>): (out: PageState)
    requires WellFormed(st.img) && idx < |st.regions|
    ensures SameShape(st, out)
  {
    var r := st.regions[idx];
    var img := FillRect(st.img, Trunc(r.bbox.x1) - Padding, Trunc(r.bbox.y1) - Padding, Trunc(r.bbox.x2) + Padding, Trunc(r.bbox.y2) + Padding, bg);
    var regions := if overflow then st.regions[idx := Flagged(r)] else st.regions;
    PageState(img, regions, st.drawn + log)
  }

  /** The text calls for a region's fitted lines in its box, alignment, font and colour. */
  function RegionLog(r: TextRegion, fit: Fitted, fg: Rgb, measure: Measure): seq<Drawn>
  {
    var x1, y1, x2, y2 := Trunc(r.bbox.x1), Trunc(r.bbox.y1), Trunc(r.bbox.x2), Trunc(r.bbox.y2);
    Log(Strokes(fit.lines, x1, y1, x2, y2, r.textAlign, r.fontFamily, fit.size, measure), fg, r.fontFamily, fit.size)
  }

  /** The body of the region loop for the region at position `idx`. */
  function ComposeRegion(st: PageState, idx: nat, measure: Measure): (out: Outcome<PageState>)
    requires WellFormed(st.img) && idx < |st.regions|
    ensures out.Done? ==> SameShape(st, out.value)
  {
    var r := st.regions[idx];
    if RegionText(r) == "" || r.composeMode != "patch" then Done(st)
    else
      match Colors(st.img, r)
      case Raised => Raised
      case Done(c) => Done(Patched(st, idx, c.0, c.1, measure))
  }

  /** Whether the region's rectangle, grown by the padding, covers pixel `(y, x)`. */
  predicate Covers(r: TextRegion, y: int, x: int)
  {
    Trunc(r.bbox.x1) - Padding <= x <= Trunc(r.bbox.x2) + Padding
    && Trunc(r.bbox.y1) - Padding <= y <= Trunc(r.bbox.y2) + Padding
  }

  /** A region differs from another at most in its review flag, which it only ever gains. */
  predicate SameButReview(r: TextRegion, r': TextRegion)
  {
    r' == r || r' == Flagged(r)
  }

  /**
   * Composing one region leaves the other regions alone and at most flags
   * this one for review, exactly when its text overflowed; it appends the
   * region's lines to the log; and, with glyph ink left out of the image,
   * it repaints only pixels under the region's padded rectangle.
   */
  lemma ComposeRegionEffects(st: PageState, idx: nat, measure: Measure)
    requires WellFormed(st.img) && idx < |st.regions|
    requires ComposeRegion(st, idx, measure).Done?
    ensures var st' := ComposeRegion(st, idx, measure).value;
      (forall j :: 0 <= j < |st.regions| && j != idx ==> st'.regions[j] == st.regions[j])
      && SameButReview(st.regions[idx], st'.regions[idx])
      && |st'.drawn| >= |st.drawn| && st'.drawn[..|st.drawn|] == st.drawn
      && forall y, x :: 0 <= y < st.img.height && 0 <= x < st.img.width && !Covers(st.regions[idx], y, x) ==>
           st'.img.px[y][x] == st.img.px[y][x]
  {
  }

  /** A region without text, or not in patch mode, changes nothing. */
  lemma SkippedRegion(st: PageState, idx: nat, measure: Measure)
    requires WellFormed(st.img) && idx < |st.regions|
    requires RegionText(st.regions[idx]) == "" || st.regions[idx].composeMode != "patch"
    ensures ComposeRegion(st, idx, measure) == Done(st)
  {
  }

  /**
   * A patch region with text and a fixed size paints its whole padded
   * rectangle in the background colour and draws its text on one line,
   * never flagged for review.
   */
  lemma FixedSizeRegion(st: PageState, idx: nat, measure: Measure)
    requires WellFormed(st.img) && idx < |st.regions|
    requires var r := st.regions[idx]; RegionText(r) != "" && r.composeMode == "patch" && !r.AutoFit()
    requires ComposeRegion(st, idx, measure).Done?
    ensures var r := st.regions[idx]; var st' := ComposeRegion(st, idx, measure).value;
      st'.regions == st.regions && |st'.drawn| == |st.drawn| + 1 && st'.drawn[|st.drawn|].stroke.line == RegionText(r)
      && st'.drawn[|st.drawn|].size == r.fontSize.value
      && forall y, x :: 0 <= y < st.img.height && 0 <= x < st.img.width && Covers(r, y, x) ==>
           st'.img.px[y][x] == Background(st.img, r).value
  {
  }

  /** A patch region with text whose `bg_color` or `text_color` is not hex makes the whole page raise. */
  lemma BadColorRaises(st: PageState, idx: nat, measure: Measure)
    requires WellFormed(st.img) && idx < |st.regions|
    requires var r := st.regions[idx]; RegionText(r) != "" && r.composeMode == "patch"
    requires var r := st.regions[idx];
      (r.bgColor.Some? && r.bgColor.value != "" && ParseHexColor(r.bgColor.value).None?)
      || (r.textColor != "" && ParseHexColor(r.textColor).None?)
    ensures ComposeRegion(st, idx, measure) == Raised
  {
  }

  // ---------------------------------------------------------------- the page

  /** The page after painting the regions at `order[..n]`, raising at the first bad colour. */
  function ComposeUpTo(st: PageState, order: seq<nat>, n: nat, measure: Measure): (out: Outcome<PageState>)
    requires WellFormed(st.img) && n <= |order| && forall k :: 0 <= k < |order| ==> order[k] < |st.regions|
    ensures out.Done? ==> SameShape(st, out.value)
  {
    if n == 0 then Done(st)
    else
      match ComposeUpTo(st, order, n - 1, measure)
      case Raised => Raised
      case Done(s) => ComposeRegion(s, order[n - 1], measure)
  }

  /** `compose_page` on an image and a page's regions. */
  function ComposeSpec(img: Image, regions: seq<TextRegion>, measure: Measure): Outcome<PageState>
    requires WellFormed(img)
  {
    var order := PaintOrder(regions);
    ComposeUpTo(PageState(img, regions, []), order, |order|, measure)
  }

  /**
   * Over a whole page the regions keep every field but the review flag,
   * which is only ever set, and, with glyph ink left out of the image,
   * pixels outside every patch region's padded rectangle keep their colour.
   */
  lemma {:induction false} ComposeUpToEffects(st: PageState, order: seq<nat>, n: nat, measure: Measure)
    requires WellFormed(st.img) && n <= |order| && forall k :: 0 <= k < |order| ==> order[k] < |st.regions|
    requires ComposeUpTo(st, order, n, measure).Done?
    ensures var st' := ComposeUpTo(st, order, n, measure).value;
      (forall j :: 0 <= j < |st.regions| ==> SameButReview(st.regions[j], st'.regions[j]))
      && forall y, x :: (0 <= y < st.img.height && 0 <= x < st.img.width
                         && forall j :: 0 <= j < |st.regions| ==> !Covers(st.regions[j], y, x)) ==>
           st'.img.px[y][x] == st.img.px[y][x]
  {
    if n > 0 {
      ComposeUpToEffects(st, order, n - 1, measure);
      var s := ComposeUpTo(st, order, n - 1, measure).value;
      ComposeRegionEffects(s, order[n - 1], measure);
      var i := order[n - 1];
      var st' := ComposeUpTo(st, order, n, measure).value;
      forall j | 0 <= j < |st.regions| ensures SameButReview(st.regions[j], st'.regions[j]) {
      }
      forall y, x | (0 <= y < st.img.height && 0 <= x < st.img.width
                     && forall j :: 0 <= j < |st.regions| ==> !Covers(st.regions[j], y, x))
        ensures st'.img.px[y][x] == st.img.px[y][x]
      {
        assert !Covers(st.regions[i], y, x);
        assert Covers(s.regions[i], y, x) == Covers(st.regions[i], y, x);
      }
    }
  }

  /**
   * The regions as the loop leaves them after `order[..n]`: with every
   * review flag set so far, whether the loop went through or stopped at a
   * region that raised.
   */
  function RegionsUpTo(st: PageState, order: seq<nat>, n: nat, measure: Measure): (rs: seq<TextRegion>)
    requires WellFormed(st.img) && n <= |order| && forall k :: 0 <= k < |order| ==> order[k] < |st.regions|
    ensures |rs| == |st.regions|
  {
    if n == 0 then st.regions
    else
      match ComposeUpTo(st, order, n - 1, measure)
      case Raised => RegionsUpTo(st, order, n - 1, measure)
      case Done(s) =>
        match ComposeRegion(s, order[n - 1], measure)
        case Raised => s.regions
        case Done(s') => s'.regions
  }

  /** The regions `compose_page` leaves behind, flags included, whether it returns or raises. */
  function ComposedRegions(img: Image, regions: seq<TextRegion>, measure: Measure): (rs: seq<TextRegion>)
    requires WellFormed(img)
    ensures |rs| == |regions|
  {
    var order := PaintOrder(regions);
    RegionsUpTo(PageState(img, regions, []), order, |order|, measure)
  }

  /** When the loop goes through, the regions it leaves are those of the composed page. */
  lemma RegionsWhenDone(st: PageState, order: seq<nat>, n: nat, measure: Measure)
    requires WellFormed(st.img) && n <= |order| && forall k :: 0 <= k < |order| ==> order[k] < |st.regions|
    requires ComposeUpTo(st, order, n, measure).Done?
    ensures RegionsUpTo(st, order, n, measure) == ComposeUpTo(st, order, n, measure).value.regions
  {
  }

  /** Once a prefix raises, the regions stay as they were when it raised. */
  lemma {:induction false} RaisedRegionsStay(st: PageState, order: seq<nat>, m: nat, n: nat, measure: Measure)
    requires WellFormed(st.img) && m <= n <= |order| && forall k :: 0 <= k < |order| ==> order[k] < |st.regions|
    requires ComposeUpTo(st, order, m, measure) == Raised
    ensures RegionsUpTo(st, order, n, measure) == RegionsUpTo(st, order, m, measure)
    decreases n - m
  {
    if m < n {
      RaisedRegionsStay(st, order, m, n - 1, measure);
      RaisedStays(st, order, m, n - 1, measure);
    }
  }

  /**
   * Whether it returns or raises, `compose_page` changes the regions it was
   * handed only by setting review flags: each region is left as it was or
   * flagged.
   */
  lemma {:induction false} RegionsUpToReview(st: PageState, order: seq<nat>, n: nat, measure: Measure)
    requires WellFormed(st.img) && n <= |order| && forall k :: 0 <= k < |order| ==> order[k] < |st.regions|
    ensures var rs := RegionsUpTo(st, order, n, measure);
      forall j :: 0 <= j < |st.regions| ==> SameButReview(st.regions[j], rs[j])
  {
    if n > 0 {
      match ComposeUpTo(st, order, n - 1, measure)
      case Raised => RegionsUpToReview(st, order, n - 1, measure);
      case Done(s) =>
        ComposeUpToEffects(st, order, n - 1, measure);
        if ComposeUpTo(st, order, n, measure).Done? {
          ComposeUpToEffects(st, order, n, measure);
        }
    }
  }

  /** What `compose_page` leaves in the regions it was handed: each one as it was, or flagged for review. */
  lemma ComposedRegionsReview(img: Image, regions: seq<TextRegion>, measure: Measure)
    requires WellFormed(img)
    ensures var rs := ComposedRegions(img, regions, measure);
      forall j :: 0 <= j < |regions| ==> SameButReview(regions[j], rs[j])
    ensures ComposeSpec(img, regions, measure).Done? ==> ComposedRegions(img, regions, measure) == ComposeSpec(img, regions, measure).value.regions
  {
    var order := PaintOrder(regions);
    RegionsUpToReview(PageState(img, regions, []), order, |order|, measure);
    if ComposeSpec(img, regions, measure).Done? {
      RegionsWhenDone(PageState(img, regions, []), order, |order|, measure);
    }
  }

  /** The colour choice of the loop body. */
  method ChooseColors(img: Image, r: TextRegion) returns (c: Outcome<(Rgb, Rgb)>)
    requires WellFormed(img)
    ensures c == Colors(img, r)
  {
    var bg;
    if r.bgColor.Some? && r.bgColor.value != "" {
      var parsed := ParseHexColor(r.bgColor.value);
      if parsed.None? {
        assert Background(img, r) == Raised;
        return Raised;
      }
      bg := parsed.value;
    } else {
      bg := EstimateBackground(img, r.bbox, DefaultMargin);
    }
    assert Background(img, r) == Done(bg);
    var fg;
    if r.textColor != "" {
      var parsed := ParseHexColor(r.textColor);
      if parsed.None? {
        assert Foreground(r, bg) == Raised;
        return Raised;
      }
      fg := parsed.value;
    } else {
      fg := TextColor(bg);
    }
    assert Foreground(r, bg) == Done(fg);
    return Done((bg, fg));
  }

  /** The drawing part of the loop body: rectangle, fitting, lines, review flag. */
  method DrawPatch(st: PageState, idx: nat, bg: Rgb, fg: Rgb, measure: Measure) returns (out: PageState)
    requires WellFormed(st.img) && idx < |st.regions|
    ensures out == Patched(st, idx, bg, fg, measure)
  {
    var r := st.regions[idx];
    var fit := FitText(RegionText(r), Trunc(r.bbox.x2) - Trunc(r.bbox.x1), Trunc(r.bbox.y2) - Trunc(r.bbox.y1), r.fontSize, r.fontFamily, measure);
    var log := DrawRegionLines(r, fit, fg, measure);
    out := Painted(st, idx, bg, fit.overflow, log);
  }

  /** The line-drawing loop for one region, logged with the region's colour and font. */
  method DrawRegionLines(r: TextRegion, fit: Fitted, fg: Rgb, measure: Measure) returns (log: seq<Drawn>)
    ensures log == RegionLog(r, fit, fg, measure)
  {
    var x1, y1, x2, y2 := Trunc(r.bbox.x1), Trunc(r.bbox.y1), Trunc(r.bbox.x2), Trunc(r.bbox.y2);
    var strokes := DrawLines(fit.lines, x1, y1, x2, y2, r.textAlign, r.fontFamily, fit.size, measure);
    log := Log(strokes, fg, r.fontFamily, fit.size);
  }

  /** The body of the region loop. */
  method PaintRegion(st: PageState, idx: nat, measure: Measure) returns (out: Outcome<PageState>)
    requires WellFormed(st.img) && idx < |st.regions|
    ensures out == ComposeRegion(st, idx, measure)
  {
    var r := st.regions[idx];
    var text := if r.tgtText.Some? && r.tgtText.value != "" then r.tgtText.value else r.srcText;
    if text == "" || r.composeMode != "patch" {
      return Done(st);
    }
    var c := ChooseColors(st.img, r);
    if c.Raised? {
      return Raised;
    }
    var patched := DrawPatch(st, idx, c.value.0, c.value.1, measure);
    return Done(patched);
  }

  /**
   * The region loop of `compose_page` over the sorted regions; `reviewed`
   * is the regions as the loop leaves them, returning or raising, since the
   * flags it sets stay on the objects it was handed.
   */
  method ComposeRegions(img: Image, regions: seq<TextRegion>, measure: Measure) returns (out: Outcome<PageState>, reviewed: seq<TextRegion>)
    requires WellFormed(img)
    ensures out == ComposeSpec(img, regions, measure)
    ensures reviewed == ComposedRegions(img, regions, measure)
  {
    var order := PaintOrder(regions);
    var st := PageState(img, regions, []);
    ghost var st0 := st;
    for i := 0 to |order|
      invariant ComposeUpTo(st0, order, i, measure) == Done(st) && SameShape(st0, st)
      invariant RegionsUpTo(st0, order, i, measure) == st.regions
    {
      ComposeUpToStep(st0, order, i, measure, st);
      var next := PaintRegion(st, order[i], measure);
      ComposeLoopStep(st0, order, i, measure, st, next);
      if next.Raised? {
        return Raised, st.regions;
      }
      st := next.value;
    }
    return Done(st), st.regions;
  }

  /** One more region painted on a prefix that went through. */
  lemma ComposeUpToStep(st: PageState, order: seq<nat>, i: nat, measure: Measure, s: PageState)
    requires WellFormed(st.img) && i < |order| && forall k :: 0 <= k < |order| ==> order[k] < |st.regions|
    requires ComposeUpTo(st, order, i, measure) == Done(s)
    ensures WellFormed(s.img) && order[i] < |s.regions|
    ensures ComposeUpTo(st, order, i + 1, measure) == ComposeRegion(s, order[i], measure)
  {
  }

  /** One pass of the region loop: it either goes on with the painted page or has raised for good. */
  lemma ComposeLoopStep(st0: PageState, order: seq<nat>, i: nat, measure: Measure, st: PageState, next: Outcome<PageState>)
    requires WellFormed(st0.img) && i < |order| && forall k :: 0 <= k < |order| ==> order[k] < |st0.regions|
    requires ComposeUpTo(st0, order, i, measure) == Done(st) && RegionsUpTo(st0, order, i, measure) == st.regions
    requires WellFormed(st.img) && order[i] < |st.regions| && next == ComposeRegion(st, order[i], measure)
    ensures next.Raised? ==>
      ComposeUpTo(st0, order, |order|, measure) == Raised && RegionsUpTo(st0, order, |order|, measure) == st.regions
    ensures next.Done? ==>
      ComposeUpTo(st0, order, i + 1, measure) == next && SameShape(st0, next.value)
      && RegionsUpTo(st0, order, i + 1, measure) == next.value.regions
  {
    assert ComposeUpTo(st0, order, i + 1, measure) == next;
    if next.Raised? {
      assert RegionsUpTo(st0, order, i + 1, measure) == st.regions;
      RaisedStays(st0, order, i + 1, |order|, measure);
      RaisedRegionsStay(st0, order, i + 1, |order|, measure);
    } else {
      RegionsWhenDone(st0, order, i + 1, measure);
    }
  }

  /** Once a prefix raises, every longer prefix raises. */
  lemma {:induction false} RaisedStays(st: PageState, order: seq<nat>, m: nat, n: nat, measure: Measure)
    requires WellFormed(st.img) && m <= n <= |order| && forall k :: 0 <= k < |order| ==> order[k] < |st.regions|
    requires ComposeUpTo(st, order, m, measure) == Raised
    ensures ComposeUpTo(st, order, n, measure) == Raised
    decreases n - m
  {
    if m < n {
      RaisedStays(st, order, m + 1, n, measure);
    }
  }
}
