/**
 * The EasyOCR engine's post-processing of detector output: each detection
 * passes the pattern filters and the two script gates, its quadrilateral
 * becomes an axis-aligned box, and a region is built for it.  The detector
 * itself is an input sequence; fresh region ids come from an oracle.
 */
module OcrDetect {
  import opened Wrappers
  import opened PyText
  import opened Models
  import opened OcrFilters
  import PyFormat

  datatype Point = Point(x: real, y: real)

  /** One detector result: corner points, recognised text and confidence. */
  datatype RawDetection = RawDetection(quad: seq<Point>, text: string, confidence: real)

  /** An image file `<...>/<projectDir>/pages/<stem>.png`. */
  datatype ImagePath = ImagePath(projectDir: string, stem: string)

  /** An image handed to the batch detector, with its size. */
  datatype PageImage = PageImage(path: ImagePath, width: int, height: int)

  function MinOf(xs: seq<real>): (m: real)
    requires xs != []
    ensures forall i :: 0 <= i < |xs| ==> m <= xs[i]
    ensures exists i :: 0 <= i < |xs| && m == xs[i]
  {
    if |xs| == 1 then xs[0] else MinReal(xs[0], MinOf(xs[1..]))
  }

  function MaxOf(xs: seq<real>): (m: real)
    requires xs != []
    ensures forall i :: 0 <= i < |xs| ==> xs[i] <= m
    ensures exists i :: 0 <= i < |xs| && m == xs[i]
  {
    if |xs| == 1 then xs[0] else MaxReal(xs[0], MaxOf(xs[1..]))
  }

  function Xs(ps: seq<Point>): (r: seq<real>)
    ensures |r| == |ps| && forall i :: 0 <= i < |ps| ==> r[i] == ps[i].x
  {
    seq(|ps|, i requires 0 <= i < |ps| => ps[i].x)
  }

  function Ys(ps: seq<Point>): (r: seq<real>)
    ensures |r| == |ps| && forall i :: 0 <= i < |ps| ==> r[i] == ps[i].y
  {
    seq(|ps|, i requires 0 <= i < |ps| => ps[i].y)
  }

  predicate Inside(p: Point, b: Box)
  {
    b.x1 <= p.x <= b.x2 && b.y1 <= p.y <= b.y2
  }

  /**
   * The smallest box holding every point; `min()` of an empty list raises,
   * so there is none without points.
   */
  function BoxOf(ps: seq<Point>): (b: Option<Box>)
    ensures b.Some? <==> ps != []
    ensures b.Some? ==> Ordered(b.value)
    ensures b.Some? ==> forall i :: 0 <= i < |ps| ==> Inside(ps[i], b.value)
    ensures b.Some? ==> exists i :: 0 <= i < |ps| && ps[i].x == b.value.x1
    ensures b.Some? ==> exists i :: 0 <= i < |ps| && ps[i].x == b.value.x2
    ensures b.Some? ==> exists i :: 0 <= i < |ps| && ps[i].y == b.value.y1
    ensures b.Some? ==> exists i :: 0 <= i < |ps| && ps[i].y == b.value.y2
  {
    if ps == [] then None
    else
      var xs := Xs(ps);
      var ys := Ys(ps);
      var x1 := MinOf(xs);
      var x2 := MaxOf(xs);
      assert x1 <= xs[0] <= x2;
      var y1 := MinOf(ys);
      var y2 := MaxOf(ys);
      assert y1 <= ys[0] <= y2;
      Some(Box(x1, y1, x2, y2))
  }

  /** The box as fractions of the image size. */
  function Normalized(b: Box, width: int, height: int): Box
    requires width > 0 && height > 0
  {
    Box(b.x1 / width as real, b.y1 / height as real, b.x2 / width as real, b.y2 / height as real)
  }

  /**
   * Scaling the normalised box back by the image size gives the box again,
   * and a box inside the image normalises into the unit square.
   */
  lemma NormalizedScalesBack(b: Box, width: int, height: int)
    requires width > 0 && height > 0
    ensures var n := Normalized(b, width, height);
      n.x1 * width as real == b.x1 && n.x2 * width as real == b.x2
      && n.y1 * height as real == b.y1 && n.y2 * height as real == b.y2
    ensures Ordered(b) ==> Ordered(Normalized(b, width, height))
    ensures 0.0 <= b.x1 && b.x2 <= width as real && 0.0 <= b.y1 && b.y2 <= height as real ==>
      var n := Normalized(b, width, height);
      0.0 <= n.x1 && n.x2 <= 1.0 && 0.0 <= n.y1 && n.y2 <= 1.0
  {
    DivideMonotone(b.x1, b.x2, width as real);
    DivideMonotone(b.y1, b.y2, height as real);
    DivideMonotone(0.0, b.x1, width as real);
    DivideMonotone(0.0, b.y1, height as real);
    DivideMonotone(b.x2, width as real, width as real);
    DivideMonotone(b.y2, height as real, height as real);
  }

  lemma DivideMonotone(a: real, c: real, d: real)
    requires d > 0.0
    ensures a <= c ==> a / d <= c / d
  {
    if a <= c {
      assert (c - a) / d >= 0.0;
      assert c / d - a / d == (c - a) / d;
    }
  }

  /** `s.split("_")[0]`: everything before the first underscore. */
  function FirstField(s: string): (r: string)
    ensures |r| <= |s| && r == s[..|r|]
    ensures forall i :: 0 <= i < |r| ==> r[i] != '_'
    ensures |r| < |s| ==> s[|r|] == '_'
  {
    var i := Find(s, '_', 0);
    if i == -1 then s else s[..i]
  }

  /** `int(image_path.stem.split("_")[0])` */
  function StemPageNumber(stem: string): Option<int>
  {
    PyFormat.ParseInt(FirstField(stem))
  }

  /** The name under which a page's original rendering is stored. */
  function OriginalStem(page: int, dpi: int): string
  {
    PyFormat.ZeroPadded(page, 3) + "_original_" + PyFormat.ZeroPadded(dpi, 0)
  }

  /** The page number read back from a stored rendering's name is the page's own number. */
  lemma OriginalStemPageNumber(page: int, dpi: int)
    ensures StemPageNumber(OriginalStem(page, dpi)) == Some(page)
  {
    var head := PyFormat.ZeroPadded(page, 3);
    PyFormat.ZeroPaddedRoundTrip(page, 3);
    var s := OriginalStem(page, dpi);
    assert s[..|head|] == head;
    assert s[|head|] == '_';
    assert forall i :: 0 <= i < |head| ==> s[i] != '_' by {
      forall i | 0 <= i < |head| ensures s[i] != '_' {
        assert s[i] == head[i];
      }
    }
    assert Find(s, '_', 0) == |head|;
  }

  /** Whether a detection survives the filters and both script gates. */
  predicate Keep(d: RawDetection, filters: seq<RegionFilter>, minHanRatio: real, regex: (string, string, bool) -> RegexOutcome)
  {
    !AnyFilterMatches(filters, d.text, regex) && PassesScriptGates(d.text, minHanRatio)
  }

  /** The positions of the kept detections, in detector order. */
  function KeptIndices(dets: seq<RawDetection>, filters: seq<RegionFilter>, minHanRatio: real, regex: (string, string, bool) -> RegexOutcome): seq<nat>
    decreases |dets|
  {
    if dets == [] then []
    else
      var n := |dets| - 1;
      KeptIndices(dets[..n], filters, minHanRatio, regex) + (if Keep(dets[n], filters, minHanRatio, regex) then [n] else [])
  }

  /** The kept positions are strictly increasing and are exactly the detections that pass. */
  lemma {:induction false} KeptIndicesCorrect(dets: seq<RawDetection>, filters: seq<RegionFilter>, minHanRatio: real, regex: (string, string, bool) -> RegexOutcome)
    ensures var ks := KeptIndices(dets, filters, minHanRatio, regex);
      (forall i :: 0 <= i < |ks| ==> ks[i] < |dets|)
      && (forall i, j :: 0 <= i < j < |ks| ==> ks[i] < ks[j])
      && (forall k :: 0 <= k < |dets| ==> (k in ks <==> Keep(dets[k], filters, minHanRatio, regex)))
    decreases |dets|
  {
    if dets != [] {
      var n := |dets| - 1;
      var front := dets[..n];
      KeptIndicesCorrect(front, filters, minHanRatio, regex);
      var ks := KeptIndices(dets, filters, minHanRatio, regex);
      var ks0 := KeptIndices(front, filters, minHanRatio, regex);
      assert forall k :: 0 <= k < n ==> dets[k] == front[k];
      assert ks == ks0 + (if Keep(dets[n], filters, minHanRatio, regex) then [n] else []);
    }
  }

  /** The region built for a kept detection. */
  function RegionFor(path: ImagePath, width: int, height: int, page: int, d: RawDetection, box: Box, id: string): TextRegion
    requires width > 0 && height > 0
  {
    NewTextRegion(id, path.projectDir, page, box, Normalized(box, width, height), d.text).(confidence := d.confidence)
  }

  /** Whether every kept detection has at least one point. */
  predicate KeptHavePoints(dets: seq<RawDetection>, ks: seq<nat>)
  {
    forall i :: 0 <= i < |ks| ==> ks[i] < |dets| && dets[ks[i]].quad != []
  }

  /** The regions built for the kept positions `ks`, the i-th with id `ids(i)`. */
  function RegionsSeq(path: ImagePath, width: int, height: int, page: int, dets: seq<RawDetection>, ks: seq<nat>, ids: nat -> string): (rs: seq<TextRegion>)
    requires width > 0 && height > 0 && KeptHavePoints(dets, ks)
    ensures |rs| == |ks|
  {
    seq(|ks|, i requires 0 <= i < |ks| =>
      RegionFor(path, width, height, page, dets[ks[i]], BoxOf(dets[ks[i]].quad).value, ids(i)))
  }

  lemma RegionsSeqSnoc(path: ImagePath, width: int, height: int, page: int, dets: seq<RawDetection>, ks: seq<nat>, k: nat, ids: nat -> string)
    requires width > 0 && height > 0 && KeptHavePoints(dets, ks + [k])
    ensures k < |dets| && dets[k].quad != []
    ensures KeptHavePoints(dets, ks)
    ensures RegionsSeq(path, width, height, page, dets, ks + [k], ids)
      == RegionsSeq(path, width, height, page, dets, ks, ids) + [RegionFor(path, width, height, page, dets[k], BoxOf(dets[k].quad).value, ids(|ks|))]
  {
    assert forall i :: 0 <= i < |ks| ==> (ks + [k])[i] == ks[i];
    assert (ks + [k])[|ks|] == k;
  }

  /** The regions for the kept detections once the page number is known. */
  function RegionsGivenPage(path: ImagePath, width: int, height: int, page: int, dets: seq<RawDetection>, ks: seq<nat>, ids: nat -> string): Outcome<seq<TextRegion>>
    requires width > 0 && height > 0
  {
    if !KeptHavePoints(dets, ks) then Raised
    else Done(RegionsSeq(path, width, height, page, dets, ks, ids))
  }

  /**
   * `detect_text`: the page number is read from the file name only when a
   * region is kept, so an unreadable name raises only then.
   */
  function DetectSpec(path: ImagePath, width: int, height: int, dets: seq<RawDetection>, filters: seq<RegionFilter>,
                      minHanRatio: real, regex: (string, string, bool) -> RegexOutcome, ids: nat -> string): Outcome<seq<TextRegion>>
    requires width > 0 && height > 0
  {
    var ks := KeptIndices(dets, filters, minHanRatio, regex);
    if ks == [] then Done([])
    else match StemPageNumber(path.stem)
      case None => Raised
      case Some(page) => RegionsGivenPage(path, width, height, page, dets, ks, ids)
  }

  /** What a region built from detection `d` of the image at `path` carries. */
  predicate BuiltFrom(r: TextRegion, d: RawDetection, path: ImagePath, minHanRatio: real)
  {
    r.srcText == d.text && r.confidence == d.confidence && r.projectId == path.projectDir
    && Some(r.pageNumber) == StemPageNumber(path.stem)
    && Ordered(r.bbox) && (forall i :: 0 <= i < |d.quad| ==> Inside(d.quad[i], r.bbox))
    && PassesScriptGates(r.srcText, minHanRatio) && !r.Protected() && r.tgtText.None?
  }

  /**
   * The regions kept by `detect_text` are the passing detections, each once,
   * in detector order, with the detection's text and confidence, an ordered
   * box holding every corner, and the page number and project of the file.
   */
  lemma DetectKeepsOrder(path: ImagePath, width: int, height: int, dets: seq<RawDetection>, filters: seq<RegionFilter>,
                         minHanRatio: real, regex: (string, string, bool) -> RegexOutcome, ids: nat -> string)
    requires width > 0 && height > 0
    requires DetectSpec(path, width, height, dets, filters, minHanRatio, regex, ids).Done?
    ensures var rs := DetectSpec(path, width, height, dets, filters, minHanRatio, regex, ids).value;
      var ks := KeptIndices(dets, filters, minHanRatio, regex);
      |rs| == |ks|
      && (forall i, j :: 0 <= i < j < |ks| ==> ks[i] < ks[j])
      && (forall k :: 0 <= k < |dets| ==> (k in ks <==> Keep(dets[k], filters, minHanRatio, regex)))
      && (forall i :: 0 <= i < |rs| ==> ks[i] < |dets| && BuiltFrom(rs[i], dets[ks[i]], path, minHanRatio))
  {
    var ks := KeptIndices(dets, filters, minHanRatio, regex);
    KeptIndicesCorrect(dets, filters, minHanRatio, regex);
    if ks != [] {
      var page := StemPageNumber(path.stem).value;
      var rs := RegionsSeq(path, width, height, page, dets, ks, ids);
      forall i | 0 <= i < |rs| ensures BuiltFrom(rs[i], dets[ks[i]], path, minHanRatio) {
        var d := dets[ks[i]];
        assert Keep(d, filters, minHanRatio, regex);
        var b := BoxOf(d.quad).value;
        assert rs[i] == RegionFor(path, width, height, page, d, b, ids(i));
      }
    }
  }

  /** The regions built so far for the first i detections, once the page number is known. */
  predicate PageInv(path: ImagePath, width: int, height: int, page: int, dets: seq<RawDetection>, i: nat, filters: seq<RegionFilter>,
                    minHanRatio: real, regex: (string, string, bool) -> RegexOutcome, ids: nat -> string, regions: seq<TextRegion>)
    requires width > 0 && height > 0 && i <= |dets|
  {
    var ks := KeptIndices(dets[..i], filters, minHanRatio, regex);
    KeptHavePoints(dets, ks) && regions == RegionsSeq(path, width, height, page, dets, ks, ids)
  }

  lemma PageInvInit(path: ImagePath, width: int, height: int, page: int, dets: seq<RawDetection>, filters: seq<RegionFilter>,
                    minHanRatio: real, regex: (string, string, bool) -> RegexOutcome, ids: nat -> string)
    requires width > 0 && height > 0
    ensures PageInv(path, width, height, page, dets, 0, filters, minHanRatio, regex, ids, [])
  {
    assert dets[..0] == [];
  }

  /** A detection that fails a stage leaves the regions as they are. */
  lemma PageStepDropped(path: ImagePath, width: int, height: int, page: int, dets: seq<RawDetection>, i: nat, filters: seq<RegionFilter>,
                        minHanRatio: real, regex: (string, string, bool) -> RegexOutcome, ids: nat -> string, regions: seq<TextRegion>)
    requires width > 0 && height > 0 && i < |dets|
    requires !Keep(dets[i], filters, minHanRatio, regex)
    requires PageInv(path, width, height, page, dets, i, filters, minHanRatio, regex, ids, regions)
    ensures PageInv(path, width, height, page, dets, i + 1, filters, minHanRatio, regex, ids, regions)
    ensures KeptIndices(dets[..i + 1], filters, minHanRatio, regex) == KeptIndices(dets[..i], filters, minHanRatio, regex)
  {
    assert dets[..i + 1][..i] == dets[..i];
  }

  /** A detection that passes every stage adds its region at the end. */
  lemma PageStepKept(path: ImagePath, width: int, height: int, page: int, dets: seq<RawDetection>, i: nat, filters: seq<RegionFilter>,
                     minHanRatio: real, regex: (string, string, bool) -> RegexOutcome, ids: nat -> string, regions: seq<TextRegion>)
    requires width > 0 && height > 0 && i < |dets|
    requires Keep(dets[i], filters, minHanRatio, regex) && dets[i].quad != []
    requires PageInv(path, width, height, page, dets, i, filters, minHanRatio, regex, ids, regions)
    ensures PageInv(path, width, height, page, dets, i + 1, filters, minHanRatio, regex, ids,
                    regions + [RegionFor(path, width, height, page, dets[i], BoxOf(dets[i].quad).value, ids(|regions|))])
    ensures KeptIndices(dets[..i + 1], filters, minHanRatio, regex) == KeptIndices(dets[..i], filters, minHanRatio, regex) + [i]
  {
    assert dets[..i + 1][..i] == dets[..i];
    var ks := KeptIndices(dets[..i], filters, minHanRatio, regex);
    KeptIndicesCorrect(dets[..i], filters, minHanRatio, regex);
    RegionsSeqSnoc(path, width, height, page, dets, ks, i, ids);
  }

  /** A kept detection without points makes every longer prefix unable to build its regions. */
  lemma PageStepRaises(dets: seq<RawDetection>, i: nat, filters: seq<RegionFilter>,
                       minHanRatio: real, regex: (string, string, bool) -> RegexOutcome)
    requires i < |dets|
    requires Keep(dets[i], filters, minHanRatio, regex) && dets[i].quad == []
    ensures !KeptHavePoints(dets, KeptIndices(dets, filters, minHanRatio, regex))
    ensures KeptIndices(dets, filters, minHanRatio, regex) != []
  {
    assert dets[..i + 1][..i] == dets[..i];
    var ks := KeptIndices(dets[..i], filters, minHanRatio, regex) + [i];
    assert ks == KeptIndices(dets[..i + 1], filters, minHanRatio, regex);
    KeptToEnd(dets, ks, i + 1, filters, minHanRatio, regex);
    assert ks[|ks| - 1] == i;
    assert KeptIndices(dets, filters, minHanRatio, regex)[|ks| - 1] == i;
  }

  /** The filter and gate checks of the loop decide `Keep`. */
  method Passes(d: RawDetection, filters: seq<RegionFilter>, minHanRatio: real, regex: (string, string, bool) -> RegexOutcome) returns (keep: bool)
    ensures keep == Keep(d, filters, minHanRatio, regex)
  {
    var filteredOut := ApplyFilters(d.text, filters, regex);
    if filteredOut {
      return false;
    }
    if Script.HanRatio(d.text) < CjkRatioThreshold {
      return false;
    }
    if Script.HanRatio(d.text) < minHanRatio {
      return false;
    }
    return true;
  }

  /** The `detect_text` loop over the detector output. */
  method DetectText(path: ImagePath, width: int, height: int, dets: seq<RawDetection>, filters: seq<RegionFilter>,
                    minHanRatio: real, regex: (string, string, bool) -> RegexOutcome, ids: nat -> string)
    returns (out: Outcome<seq<TextRegion>>)
    requires width > 0 && height > 0
    ensures out == DetectSpec(path, width, height, dets, filters, minHanRatio, regex, ids)
  {
    var regions: seq<TextRegion> := [];
    // The page whose number the file name gives; only looked at once a region is kept.
    ghost var page := StemPageNumber(path.stem).GetOr(0);
    PageInvInit(path, width, height, page, dets, filters, minHanRatio, regex, ids);
    for i := 0 to |dets|
      invariant PageInv(path, width, height, page, dets, i, filters, minHanRatio, regex, ids, regions)
      invariant KeptIndices(dets[..i], filters, minHanRatio, regex) != [] ==> StemPageNumber(path.stem) == Some(page)
    {
      var d := dets[i];
      var keep := Passes(d, filters, minHanRatio, regex);
      if !keep {
        PageStepDropped(path, width, height, page, dets, i, filters, minHanRatio, regex, ids, regions);
        continue;
      }
      if d.quad == [] {
        PageStepRaises(dets, i, filters, minHanRatio, regex);
        return Raised;
      }
      var box := BoxOf(d.quad).value;
      var pageNumber := StemPageNumber(path.stem);
      if pageNumber.None? {
        PageStepKept(path, width, height, page, dets, i, filters, minHanRatio, regex, ids, regions);
        KeptToEnd(dets, KeptIndices(dets[..i + 1], filters, minHanRatio, regex), i + 1, filters, minHanRatio, regex);
        return Raised;
      }
      PageStepKept(path, width, height, page, dets, i, filters, minHanRatio, regex, ids, regions);
      regions := regions + [RegionFor(path, width, height, pageNumber.value, d, box, ids(|regions|))];
    }
    assert dets[..|dets|] == dets;
    out := Done(regions);
  }

  /** The kept positions of a prefix start the kept positions of the whole. */
  lemma {:induction false} KeptToEnd(dets: seq<RawDetection>, ks: seq<nat>, i: nat, filters: seq<RegionFilter>,
                                     minHanRatio: real, regex: (string, string, bool) -> RegexOutcome)
    requires i <= |dets| && ks == KeptIndices(dets[..i], filters, minHanRatio, regex)
    ensures ks <= KeptIndices(dets, filters, minHanRatio, regex)
    decreases |dets| - i
  {
    if i < |dets| {
      assert dets[..i + 1][..i] == dets[..i];
      KeptToEnd(dets, KeptIndices(dets[..i + 1], filters, minHanRatio, regex), i + 1, filters, minHanRatio, regex);
    } else {
      assert dets[..i] == dets;
    }
  }

  /** One page of the batch: its page number is read from the name before its detections are looked at. */
  function BatchPage(img: PageImage, dets: seq<RawDetection>, filters: seq<RegionFilter>, minHanRatio: real,
                     regex: (string, string, bool) -> RegexOutcome, ids: nat -> string): Outcome<seq<TextRegion>>
    requires img.width > 0 && img.height > 0
  {
    match StemPageNumber(img.path.stem)
    case None => Raised
    case Some(page) =>
      RegionsGivenPage(img.path, img.width, img.height, page, dets, KeptIndices(dets, filters, minHanRatio, regex), ids)
  }

  predicate PositiveSizes(images: seq<PageImage>)
  {
    forall j :: 0 <= j < |images| ==> images[j].width > 0 && images[j].height > 0
  }

  /**
   * `detect_text_batch`: images and detector results are paired with
   * `zip`, so surplus entries of the longer list are ignored; ids are drawn
   * per page from `ids(j, ·)`.
   */
  function BatchSpec(images: seq<PageImage>, results: seq<seq<RawDetection>>, filters: seq<RegionFilter>, minHanRatio: real,
                     regex: (string, string, bool) -> RegexOutcome, ids: (nat, nat) -> string): Outcome<seq<seq<TextRegion>>>
    requires PositiveSizes(images)
    decreases |images|
  {
    var n := MinInt(|images|, |results|);
    if n == 0 then Done([])
    else
      match BatchSpec(images[..n - 1], results[..n - 1], filters, minHanRatio, regex, ids)
      case Raised => Raised
      case Done(front) =>
        match BatchPage(images[n - 1], results[n - 1], filters, minHanRatio, regex, (k: nat) => ids(n - 1, k))
        case Raised => Raised
        case Done(last) => Done(front + [last])
  }

  /** Erases a region's id, to compare regions built with different id draws. */
  function WithoutId(r: TextRegion): TextRegion
  {
    r.(id := "")
  }

  /**
   * Each page of a batch keeps the same regions, in the same order, as
   * `detect_text` keeps for that image alone, and a page whose name has no
   * page number makes the batch raise even when it keeps nothing.
   */
  lemma BatchPageAgrees(img: PageImage, dets: seq<RawDetection>, filters: seq<RegionFilter>, minHanRatio: real,
                        regex: (string, string, bool) -> RegexOutcome, ids: nat -> string, ids': nat -> string)
    requires img.width > 0 && img.height > 0
    ensures StemPageNumber(img.path.stem).None? ==> BatchPage(img, dets, filters, minHanRatio, regex, ids).Raised?
    ensures var single := DetectSpec(img.path, img.width, img.height, dets, filters, minHanRatio, regex, ids');
      var batch := BatchPage(img, dets, filters, minHanRatio, regex, ids);
      single.Done? && batch.Done? ==>
        |single.value| == |batch.value| && forall i :: 0 <= i < |batch.value| ==> WithoutId(batch.value[i]) == WithoutId(single.value[i])
  {
    var ks := KeptIndices(dets, filters, minHanRatio, regex);
    var single := DetectSpec(img.path, img.width, img.height, dets, filters, minHanRatio, regex, ids');
    var batch := BatchPage(img, dets, filters, minHanRatio, regex, ids);
    if single.Done? && batch.Done? && ks != [] {
      var page := StemPageNumber(img.path.stem).value;
      var a := RegionsSeq(img.path, img.width, img.height, page, dets, ks, ids);
      var b := RegionsSeq(img.path, img.width, img.height, page, dets, ks, ids');
      assert batch.value == a && single.value == b;
      forall i | 0 <= i < |a| ensures WithoutId(a[i]) == WithoutId(b[i]) {
        var d := dets[ks[i]];
        var box := BoxOf(d.quad).value;
        assert a[i] == RegionFor(img.path, img.width, img.height, page, d, box, ids(i));
        assert b[i] == RegionFor(img.path, img.width, img.height, page, d, box, ids'(i));
      }
    }
  }

  /** The loop over one page's detections in the batch, with the page number already read. */
  method DetectPage(img: PageImage, page: int, dets: seq<RawDetection>, filters: seq<RegionFilter>, minHanRatio: real,
                    regex: (string, string, bool) -> RegexOutcome, ids: nat -> string)
    returns (out: Outcome<seq<TextRegion>>)
    requires img.width > 0 && img.height > 0
    ensures out == RegionsGivenPage(img.path, img.width, img.height, page, dets, KeptIndices(dets, filters, minHanRatio, regex), ids)
  {
    var regions: seq<TextRegion> := [];
    PageInvInit(img.path, img.width, img.height, page, dets, filters, minHanRatio, regex, ids);
    for i := 0 to |dets|
      invariant PageInv(img.path, img.width, img.height, page, dets, i, filters, minHanRatio, regex, ids, regions)
    {
      var d := dets[i];
      var keep := Passes(d, filters, minHanRatio, regex);
      if !keep {
        PageStepDropped(img.path, img.width, img.height, page, dets, i, filters, minHanRatio, regex, ids, regions);
        continue;
      }
      if d.quad == [] {
        PageStepRaises(dets, i, filters, minHanRatio, regex);
        return Raised;
      }
      var box := BoxOf(d.quad).value;
      PageStepKept(img.path, img.width, img.height, page, dets, i, filters, minHanRatio, regex, ids, regions);
      regions := regions + [RegionFor(img.path, img.width, img.height, page, d, box, ids(|regions|))];
    }
    assert dets[..|dets|] == dets;
    return Done(regions);
  }

  /** The batch outcome on one more image pair. */
  lemma BatchSnoc(images: seq<PageImage>, results: seq<seq<RawDetection>>, j: nat, filters: seq<RegionFilter>,
                  minHanRatio: real, regex: (string, string, bool) -> RegexOutcome, ids: (nat, nat) -> string)
    requires PositiveSizes(images) && j < MinInt(|images|, |results|)
    ensures PositiveSizes(images[..j]) && PositiveSizes(images[..j + 1])
    ensures BatchSpec(images[..j + 1], results[..j + 1], filters, minHanRatio, regex, ids)
      == match BatchSpec(images[..j], results[..j], filters, minHanRatio, regex, ids)
         case Raised => Raised
         case Done(front) =>
           match BatchPage(images[j], results[j], filters, minHanRatio, regex, (k: nat) => ids(j, k))
           case Raised => Raised
           case Done(last) => Done(front + [last])
  {
    assert images[..j + 1][..j] == images[..j] && results[..j + 1][..j] == results[..j];
  }

  /** The batch loop over images, in input order. */
  method DetectTextBatch(images: seq<PageImage>, results: seq<seq<RawDetection>>, filters: seq<RegionFilter>, minHanRatio: real,
                         regex: (string, string, bool) -> RegexOutcome, ids: (nat, nat) -> string)
    returns (out: Outcome<seq<seq<TextRegion>>>)
    requires PositiveSizes(images)
    ensures out == BatchSpec(images, results, filters, minHanRatio, regex, ids)
  {
    var n := MinInt(|images|, |results|);
    var all: seq<seq<TextRegion>> := [];
    for j := 0 to n
      invariant BatchSpec(images[..j], results[..j], filters, minHanRatio, regex, ids) == Done(all)
    {
      var regions := DetectBatchPage(images[j], results[j], filters, minHanRatio, regex, (k: nat) => ids(j, k));
      BatchStep(images, results, j, filters, minHanRatio, regex, ids, all, regions);
      if regions.Raised? {
        BatchRaisedStays(images, results, j + 1, filters, minHanRatio, regex, ids);
        return Raised;
      }
      all := all + [regions.value];
    }
    BatchPrefix(images, results, filters, minHanRatio, regex, ids);
    out := Done(all);
  }

  /** One image of the batch: its page number from the file name, then the page's detections. */
  method DetectBatchPage(img: PageImage, dets: seq<RawDetection>, filters: seq<RegionFilter>, minHanRatio: real,
                         regex: (string, string, bool) -> RegexOutcome, ids: nat -> string)
    returns (out: Outcome<seq<TextRegion>>)
    requires img.width > 0 && img.height > 0
    ensures out == BatchPage(img, dets, filters, minHanRatio, regex, ids)
  {
    var page := StemPageNumber(img.path.stem);
    if page.None? {
      return Raised;
    }
    out := DetectPage(img, page.value, dets, filters, minHanRatio, regex, ids);
  }

  /** One step of the batch loop: the prefix so far, then this image's page. */
  lemma BatchStep(images: seq<PageImage>, results: seq<seq<RawDetection>>, j: nat, filters: seq<RegionFilter>,
                  minHanRatio: real, regex: (string, string, bool) -> RegexOutcome, ids: (nat, nat) -> string,
                  all: seq<seq<TextRegion>>, regions: Outcome<seq<TextRegion>>)
    requires PositiveSizes(images) && j < MinInt(|images|, |results|)
    requires BatchSpec(images[..j], results[..j], filters, minHanRatio, regex, ids) == Done(all)
    requires regions == BatchPage(images[j], results[j], filters, minHanRatio, regex, (k: nat) => ids(j, k))
    ensures regions.Raised? ==> BatchSpec(images[..j + 1], results[..j + 1], filters, minHanRatio, regex, ids).Raised?
    ensures regions.Done? ==> BatchSpec(images[..j + 1], results[..j + 1], filters, minHanRatio, regex, ids) == Done(all + [regions.value])
  {
    BatchSnoc(images, results, j, filters, minHanRatio, regex, ids);
  }

  /** Once a prefix of the batch raises, the whole batch raises. */
  lemma {:induction false} BatchRaisedStays(images: seq<PageImage>, results: seq<seq<RawDetection>>, j: nat, filters: seq<RegionFilter>,
                                            minHanRatio: real, regex: (string, string, bool) -> RegexOutcome, ids: (nat, nat) -> string)
    requires PositiveSizes(images) && j <= |images| && j <= |results|
    requires BatchSpec(images[..j], results[..j], filters, minHanRatio, regex, ids).Raised?
    ensures BatchSpec(images, results, filters, minHanRatio, regex, ids).Raised?
    decreases |images| - j
  {
    if j < |images| && j < |results| {
      assert images[..j + 1][..j] == images[..j] && results[..j + 1][..j] == results[..j];
      BatchRaisedStays(images, results, j + 1, filters, minHanRatio, regex, ids);
    } else {
      BatchPrefix(images, results, filters, minHanRatio, regex, ids);
      if j == |images| {
        assert images[..j] == images;
      }
      if j == |results| {
        assert results[..j] == results;
      }
      assert images[..j] == images[..MinInt(|images|, |results|)];
      assert results[..j] == results[..MinInt(|images|, |results|)];
    }
  }

  /** The batch depends only on the zipped prefix of its two lists. */
  lemma BatchPrefix(images: seq<PageImage>, results: seq<seq<RawDetection>>, filters: seq<RegionFilter>,
                    minHanRatio: real, regex: (string, string, bool) -> RegexOutcome, ids: (nat, nat) -> string)
    requires PositiveSizes(images)
    ensures var n := MinInt(|images|, |results|);
      BatchSpec(images[..n], results[..n], filters, minHanRatio, regex, ids) == BatchSpec(images, results, filters, minHanRatio, regex, ids)
  {
    var n := MinInt(|images|, |results|);
    if n > 0 {
      assert images[..n][..n - 1] == images[..n - 1] && results[..n][..n - 1] == results[..n - 1];
    }
  }

  /**
   * The batch returns one list per zipped image, in input order, and each
   * list is what that page's rule keeps.
   */
  lemma {:induction false} BatchShape(images: seq<PageImage>, results: seq<seq<RawDetection>>, filters: seq<RegionFilter>,
                                      minHanRatio: real, regex: (string, string, bool) -> RegexOutcome, ids: (nat, nat) -> string)
    requires PositiveSizes(images)
    requires BatchSpec(images, results, filters, minHanRatio, regex, ids).Done?
    ensures var out := BatchSpec(images, results, filters, minHanRatio, regex, ids).value;
      |out| == MinInt(|images|, |results|)
      && forall j :: 0 <= j < |out| ==>
           BatchPage(images[j], results[j], filters, minHanRatio, regex, (k: nat) => ids(j, k)) == Done(out[j])
    decreases |images|
  {
    var n := MinInt(|images|, |results|);
    if n > 0 {
      var fi := images[..n - 1];
      var fr := results[..n - 1];
      BatchShape(fi, fr, filters, minHanRatio, regex, ids);
      var front := BatchSpec(fi, fr, filters, minHanRatio, regex, ids).value;
      assert MinInt(|fi|, |fr|) == n - 1;
      var out := BatchSpec(images, results, filters, minHanRatio, regex, ids).value;
      assert out[..n - 1] == front;
      forall j | 0 <= j < n
        ensures BatchPage(images[j], results[j], filters, minHanRatio, regex, (k: nat) => ids(j, k)) == Done(out[j])
      {
        if j < n - 1 {
          assert fi[j] == images[j] && fr[j] == results[j] && out[j] == front[j];
        }
      }
    }
  }

  /**
   * The timing message divides by the number of images, so the batch as
   * written raises on an empty list even though there is nothing to do.
   */
  function BatchAsWritten(images: seq<PageImage>, results: seq<seq<RawDetection>>, filters: seq<RegionFilter>, minHanRatio: real,
                          regex: (string, string, bool) -> RegexOutcome, ids: (nat, nat) -> string): Outcome<seq<seq<TextRegion>>>
    requires PositiveSizes(images)
  {
    var out := BatchSpec(images, results, filters, minHanRatio, regex, ids);
    if out.Done? && |images| == 0 then Raised else out
  }

  lemma EmptyBatchRaises(filters: seq<RegionFilter>, minHanRatio: real, regex: (string, string, bool) -> RegexOutcome, ids: (nat, nat) -> string)
    ensures BatchAsWritten([], [], filters, minHanRatio, regex, ids) == Raised
    ensures BatchSpec([], [], filters, minHanRatio, regex, ids) == Done([])
  {
  }
}
