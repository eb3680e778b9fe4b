/**
 * The PaddleOCR engine's `detect_text`: the raw engine result is unwrapped,
 * each item's fields are extracted defensively, the same filters and
 * script gates as the EasyOCR engine decide which items become regions, and
 * the region list then goes through the advanced mode or the recheck.
 * The engine result is a Python value of the `PyVal` type below; the
 * configuration values, `float()` on strings, the secondary reader, the
 * paragraph grouping and fresh ids are parameters.
 */
module PaddleOcr {
  import opened Wrappers
  import opened Models
  import opened OcrFilters
  import opened OcrDetect
  import OcrPostprocess
  import Script

  /** The Python values an engine result is made of. */
  datatype PyVal =
    | PNone
    | PBool(b: bool)
    | PInt(i: int)
    | PFloat(r: real)
    | PStr(s: string)
    | PList(items: seq<PyVal>)
    | PTuple(items: seq<PyVal>)
    | POther

  /** Python truthiness. */
  predicate Truthy(v: PyVal)
  {
    match v
    case PNone => false
    case PBool(b) => b
    case PInt(i) => i != 0
    case PFloat(r) => r != 0.0
    case PStr(s) => s != []
    case PList(items) => items != []
    case PTuple(items) => items != []
    case POther => true
  }

  /** `_parse_paddle_result` */
  function ParsePaddleResult(result: PyVal): (items: seq<PyVal>)
    ensures !result.PList? ==> items == []
    ensures result.PList? && |result.items| == 1 && result.items[0].PList? ==> items == result.items[0].items
    ensures result.PList? && !(|result.items| == 1 && result.items[0].PList?) ==> items == result.items
  {
    if !Truthy(result) then []
    else if result.PList? && |result.items| == 1 && result.items[0].PList? then result.items[0].items
    else if result.PList? then result.items
    else []
  }

  /**
   * The four cases: a falsy result and a non-list give no items, a list
   * holding one list is unwrapped once, any other list is the item list
   * itself; unwrapping happens at most once.
   */
  lemma ParsePaddleCases(xs: seq<PyVal>)
    ensures ParsePaddleResult(PNone) == [] && ParsePaddleResult(PList([])) == []
    ensures ParsePaddleResult(PList([PList(xs)])) == xs
    ensures ParsePaddleResult(PTuple([PList(xs)])) == []
    ensures !(|xs| == 1 && xs[0].PList?) ==> ParsePaddleResult(PList(xs)) == xs
    ensures ParsePaddleResult(PList([PList([PList(xs)])])) == [PList(xs)]
  {
  }

  /** `v[k]` for a non-negative index; None where Python raises. */
  function Index(v: PyVal, k: nat): (r: Option<PyVal>)
    ensures (v.PList? || v.PTuple?) ==> (r.Some? <==> k < |v.items|)
    ensures r.Some? && (v.PList? || v.PTuple?) ==> r.value == v.items[k]
  {
    match v
    case PList(items) => if k < |items| then Some(items[k]) else None
    case PTuple(items) => if k < |items| then Some(items[k]) else None
    case PStr(s) => if k < |s| then Some(PStr([s[k]])) else None
    case _ => None
  }

  /** `float(v)`; None where Python raises.  Strings go through the `parseFloat` oracle. */
  function ToFloat(v: PyVal, parseFloat: string -> Option<real>): Option<real>
  {
    match v
    case PBool(b) => Some(if b then 1.0 else 0.0)
    case PInt(i) => Some(i as real)
    case PFloat(r) => Some(r)
    case PStr(s) => parseFloat(s)
    case _ => None
  }

  /** What iterating over `v` yields; None where Python raises. */
  function Elements(v: PyVal): Option<seq<PyVal>>
  {
    match v
    case PList(items) => Some(items)
    case PTuple(items) => Some(items)
    case PStr(s) => Some(seq(|s|, i requires 0 <= i < |s| => PStr([s[i]])))
    case _ => None
  }

  /** The three fields of an item that the engine reads first. */
  datatype Fields = Fields(points: PyVal, text: PyVal, confidence: real)

  /** `item[0]`, `item[1][0]` and `float(item[1][1])`, or None when any of them raises. */
  function ExtractFields(item: PyVal, parseFloat: string -> Option<real>): (r: Option<Fields>)
    ensures r.Some? ==> Index(item, 0) == Some(r.value.points)
  {
    match Index(item, 0)
    case None => None
    case Some(points) =>
      match Index(item, 1)
      case None => None
      case Some(pair) =>
        match Index(pair, 0)
        case None => None
        case Some(text) =>
          match Index(pair, 1)
          case None => None
          case Some(c) =>
            match ToFloat(c, parseFloat)
            case None => None
            case Some(conf) => Some(Fields(points, text, conf))
  }

  /** One coordinate pair `(float(p[0]), float(p[1]))`. */
  function PointOf(p: PyVal, parseFloat: string -> Option<real>): Option<Point>
  {
    match Index(p, 0)
    case None => None
    case Some(a) =>
      match Index(p, 1)
      case None => None
      case Some(b) =>
        match ToFloat(a, parseFloat)
        case None => None
        case Some(x) =>
          match ToFloat(b, parseFloat)
          case None => None
          case Some(y) => Some(Point(x, y))
  }

  /** Every point of a list, or None as soon as one of them does not convert. */
  function PointsOfSeq(ps: seq<PyVal>, parseFloat: string -> Option<real>): (r: Option<seq<Point>>)
    ensures r.Some? ==> |r.value| == |ps|
    ensures r.Some? ==> forall i :: 0 <= i < |ps| ==> PointOf(ps[i], parseFloat) == Some(r.value[i])
    ensures r.None? ==> exists i :: 0 <= i < |ps| && PointOf(ps[i], parseFloat).None?
    decreases |ps|
  {
    if ps == [] then Some([])
    else
      var n := |ps| - 1;
      match PointsOfSeq(ps[..n], parseFloat)
      case None => None
      case Some(front) =>
        match PointOf(ps[n], parseFloat)
        case None => None
        case Some(p) => Some(front + [p])
  }

  /** The two coordinate comprehensions over `bbox_points`. */
  function Coordinates(points: PyVal, parseFloat: string -> Option<real>): Option<seq<Point>>
  {
    match Elements(points)
    case None => None
    case Some(ps) => PointsOfSeq(ps, parseFloat)
  }

  /**
   * What the loop does with one item: skip it, build a region from its
   * text, box and confidence, or raise.  A truthy text that is not a string
   * is taken to raise.
   */
  datatype Step = Skip | Region(text: string, box: Box, confidence: real) | Fails

  function ItemStep(item: PyVal, filters: seq<RegionFilter>, minHanRatio: real,
                    regex: (string, string, bool) -> RegexOutcome, parseFloat: string -> Option<real>): Step
  {
    match ExtractFields(item, parseFloat)
    case None => Skip
    case Some(f) =>
      if !Truthy(f.text) then Skip
      else if !f.text.PStr? then Fails
      else
        var t := f.text.s;
        if AnyFilterMatches(filters, t, regex) then Skip
        else if !PassesScriptGates(t, minHanRatio) then Skip
        else
          match Coordinates(f.points, parseFloat)
          case None => Skip
          case Some(ps) =>
            match BoxOf(ps)
            case None => Fails
            case Some(b) => Region(t, b, f.confidence)
  }

  /**
   * The stage order: an item whose fields do not extract, whose text is
   * empty, that a filter matches or that fails a script gate is skipped
   * before its coordinates are looked at, so even an item without any
   * point is then skipped rather than raising.  Only a text that passed
   * every stage reaches a region, with an ordered box holding its points.
   */
  lemma ItemStages(item: PyVal, filters: seq<RegionFilter>, minHanRatio: real,
                   regex: (string, string, bool) -> RegexOutcome, parseFloat: string -> Option<real>)
    ensures var s := ItemStep(item, filters, minHanRatio, regex, parseFloat);
      var f := ExtractFields(item, parseFloat);
      (f.None? ==> s == Skip)
      && (f.Some? && f.value.text.PStr? && AnyFilterMatches(filters, f.value.text.s, regex) ==> s == Skip)
      && (f.Some? && f.value.text.PStr? && !PassesScriptGates(f.value.text.s, minHanRatio) ==> s == Skip)
      && (s.Fails? ==> f.Some? && Truthy(f.value.text))
      && (s.Region? ==>
            f.Some? && f.value.text == PStr(s.text) && s.text != [] && s.confidence == f.value.confidence
            && !AnyFilterMatches(filters, s.text, regex) && PassesScriptGates(s.text, minHanRatio)
            && Ordered(s.box)
            && Coordinates(f.value.points, parseFloat).Some?
            && (forall i :: 0 <= i < |Coordinates(f.value.points, parseFloat).value| ==>
                  Inside(Coordinates(f.value.points, parseFloat).value[i], s.box)))
  {
    var f := ExtractFields(item, parseFloat);
    if f.Some? && f.value.text.PStr? {
      ScriptGateCases(f.value.text.s, minHanRatio);
    }
  }

  /** The region list after one more item. */
  function Advance(path: ImagePath, width: int, height: int, rs: seq<TextRegion>, step: Step, ids: nat -> string): Outcome<seq<TextRegion>>
    requires width > 0 && height > 0
  {
    match step
    case Skip => Done(rs)
    case Fails => Raised
    case Region(t, b, c) =>
      match StemPageNumber(path.stem)
      case None => Raised
      case Some(page) =>
        Done(rs + [NewTextRegion(ids(|rs|), path.projectDir, page, b, Normalized(b, width, height), t).(confidence := c)])
  }

  /** The regions built from an item list, in order; the i-th region takes id `ids(i)`. */
  function PaddleRegions(path: ImagePath, width: int, height: int, items: seq<PyVal>, filters: seq<RegionFilter>,
                         minHanRatio: real, regex: (string, string, bool) -> RegexOutcome,
                         parseFloat: string -> Option<real>, ids: nat -> string): Outcome<seq<TextRegion>>
    requires width > 0 && height > 0
    decreases |items|
  {
    if items == [] then Done([])
    else
      var n := |items| - 1;
      match PaddleRegions(path, width, height, items[..n], filters, minHanRatio, regex, parseFloat, ids)
      case Raised => Raised
      case Done(rs) => Advance(path, width, height, rs, ItemStep(items[n], filters, minHanRatio, regex, parseFloat), ids)
  }

  /** Whether a region is one the engine would build for this page from a kept text. */
  predicate Admitted(r: TextRegion, path: ImagePath, width: int, height: int, filters: seq<RegionFilter>,
                     minHanRatio: real, regex: (string, string, bool) -> RegexOutcome)
    requires width > 0 && height > 0
  {
    r.srcText != [] && !AnyFilterMatches(filters, r.srcText, regex) && PassesScriptGates(r.srcText, minHanRatio)
    && Ordered(r.bbox) && NormalizedBox(r, width, height)
    && r.projectId == path.projectDir && StemPageNumber(path.stem) == Some(r.pageNumber)
    && !r.Protected() && r.composeMode == "patch"
  }

  /**
   * Every region the loop builds passed the filters and both gates, has an
   * ordered box and its normalised form, the page number of the file name,
   * and the next fresh id; there are never more regions than items.
   */
  lemma {:induction false} PaddleRegionsAdmitted(path: ImagePath, width: int, height: int, items: seq<PyVal>,
                                                 filters: seq<RegionFilter>, minHanRatio: real,
                                                 regex: (string, string, bool) -> RegexOutcome,
                                                 parseFloat: string -> Option<real>, ids: nat -> string)
    requires width > 0 && height > 0
    ensures var out := PaddleRegions(path, width, height, items, filters, minHanRatio, regex, parseFloat, ids);
      out.Done? ==> (|out.value| <= |items| && FreshIds(out.value, ids)
        && AllAdmitted(out.value, path, width, height, filters, minHanRatio, regex))
    decreases |items|
  {
    if items != [] {
      var n := |items| - 1;
      PaddleRegionsAdmitted(path, width, height, items[..n], filters, minHanRatio, regex, parseFloat, ids);
      var prev := PaddleRegions(path, width, height, items[..n], filters, minHanRatio, regex, parseFloat, ids);
      if prev.Done? {
        var step := ItemStep(items[n], filters, minHanRatio, regex, parseFloat);
        RegionStepPasses(items[n], filters, minHanRatio, regex, parseFloat);
        AdvanceKeeps(path, width, height, prev.value, step, filters, minHanRatio, regex, ids);
      }
    }
  }

  /** The step of an item that becomes a region carries a text that passed every stage. */
  lemma RegionStepPasses(item: PyVal, filters: seq<RegionFilter>, minHanRatio: real,
                         regex: (string, string, bool) -> RegexOutcome, parseFloat: string -> Option<real>)
    ensures var s := ItemStep(item, filters, minHanRatio, regex, parseFloat);
      s.Region? ==> StepPasses(s, filters, minHanRatio, regex)
  {
    ItemStages(item, filters, minHanRatio, regex, parseFloat);
  }

  predicate StepPasses(s: Step, filters: seq<RegionFilter>, minHanRatio: real, regex: (string, string, bool) -> RegexOutcome)
    requires s.Region?
  {
    s.text != [] && Ordered(s.box) && !AnyFilterMatches(filters, s.text, regex) && PassesScriptGates(s.text, minHanRatio)
  }

  /** One more item keeps every region admitted and every id fresh. */
  lemma AdvanceKeeps(path: ImagePath, width: int, height: int, rs: seq<TextRegion>, step: Step,
                     filters: seq<RegionFilter>, minHanRatio: real,
                     regex: (string, string, bool) -> RegexOutcome, ids: nat -> string)
    requires width > 0 && height > 0
    requires FreshIds(rs, ids) && AllAdmitted(rs, path, width, height, filters, minHanRatio, regex)
    requires step.Region? ==> StepPasses(step, filters, minHanRatio, regex)
    ensures var out := Advance(path, width, height, rs, step, ids);
      out.Done? ==> (|out.value| <= |rs| + 1 && FreshIds(out.value, ids)
        && AllAdmitted(out.value, path, width, height, filters, minHanRatio, regex))
  {
    var out := Advance(path, width, height, rs, step, ids);
    if out.Done? && step.Region? {
      var x := out.value[|rs|];
      assert out.value == rs + [x];
      assert Admitted(x, path, width, height, filters, minHanRatio, regex);
      forall j | 0 <= j < |out.value|
        ensures out.value[j].id == ids(j) && Admitted(out.value[j], path, width, height, filters, minHanRatio, regex)
      {
        if j < |rs| {
          assert out.value[j] == rs[j];
        }
      }
    }
  }

  /** The region's normalised box is its box over the image size. */
  predicate NormalizedBox(r: TextRegion, width: int, height: int)
    requires width > 0 && height > 0
  {
    r.bboxNormalized == Normalized(r.bbox, width, height)
  }

  /** Region j carries the j-th fresh id. */
  predicate FreshIds(rs: seq<TextRegion>, ids: nat -> string)
  {
    forall j :: 0 <= j < |rs| ==> rs[j].id == ids(j)
  }

  /** `bool(get_ocr_enable_label_recheck()) or document_type == "manual"` */
  predicate RecheckEnabled(flag: bool, documentType: string)
  {
    flag || documentType == "manual"
  }

  /** The engine's configuration, read once per call. */
  datatype Settings = Settings(
    mode: string,
    recheckFlag: bool,
    minOcrConfidence: real,
    recheckCap: int)

  /** The post-processing the mode selects; neither stage runs on an empty list. */
  function Dispatch(regions: seq<TextRegion>, cfg: Settings, documentType: string, dpi: int, width: int, height: int,
                    reader: seq<OcrPostprocess.Crop> -> seq<seq<OcrPostprocess.SecItem>>): seq<TextRegion>
  {
    var enable := RecheckEnabled(cfg.recheckFlag, documentType);
    var scale := OcrPostprocess.RecheckScale(Some(dpi), OcrPostprocess.DefaultTargetDpi);
    if cfg.mode == "advanced" && regions != [] then
      OcrPostprocess.AdvancedOutput(regions, cfg.minOcrConfidence, enable, cfg.recheckCap, scale, width, height, reader)
    else if enable && regions != [] then
      OcrPostprocess.RecheckOutput(regions, cfg.recheckCap, scale, width, height, reader)
    else regions
  }

  /**
   * Mode dispatch: an empty list stays empty whatever the mode; outside the
   * advanced mode with the recheck off the regions pass unchanged; a manual
   * document is always rechecked; the advanced mode always returns
   * normalised survivors, and the basic recheck only drops regions.
   */
  lemma DispatchCases(regions: seq<TextRegion>, cfg: Settings, documentType: string, dpi: int, width: int, height: int,
                      reader: seq<OcrPostprocess.Crop> -> seq<seq<OcrPostprocess.SecItem>>)
    ensures regions == [] ==> Dispatch(regions, cfg, documentType, dpi, width, height, reader) == []
    ensures cfg.mode != "advanced" && !cfg.recheckFlag && documentType != "manual" ==>
      Dispatch(regions, cfg, documentType, dpi, width, height, reader) == regions
    ensures documentType == "manual" ==> RecheckEnabled(cfg.recheckFlag, documentType)
    ensures cfg.mode == "advanced" ==>
      forall r :: r in Dispatch(regions, cfg, documentType, dpi, width, height, reader) ==>
        r in regions || r in OcrPostprocess.Survivors(regions, cfg.minOcrConfidence)
    ensures cfg.mode != "advanced" ==>
      forall r :: r in Dispatch(regions, cfg, documentType, dpi, width, height, reader) ==> r in regions
  {
    var enable := RecheckEnabled(cfg.recheckFlag, documentType);
    var scale := OcrPostprocess.RecheckScale(Some(dpi), OcrPostprocess.DefaultTargetDpi);
    OcrPostprocess.AdvancedWithoutRecheck(regions, cfg.minOcrConfidence, enable, cfg.recheckCap, scale, width, height, reader);
    OcrPostprocess.RecheckOnlyDrops(regions, cfg.recheckCap, scale, width, height, reader);
  }

  /**
   * `detect_text` of the PaddleOCR engine: the item loop, the mode
   * dispatch, then the paragraph grouping for manuals with more than one
   * region.
   */
  function PaddleDetect(path: ImagePath, width: int, height: int, dpi: int, raw: PyVal, filters: seq<RegionFilter>,
                        minHanRatio: real, documentType: string, cfg: Settings,
                        regex: (string, string, bool) -> RegexOutcome, parseFloat: string -> Option<real>,
                        reader: seq<OcrPostprocess.Crop> -> seq<seq<OcrPostprocess.SecItem>>,
                        group: seq<TextRegion> -> seq<TextRegion>, ids: nat -> string): Outcome<seq<TextRegion>>
    requires width > 0 && height > 0
  {
    match PaddleRegions(path, width, height, ParsePaddleResult(raw), filters, minHanRatio, regex, parseFloat, ids)
    case Raised => Raised
    case Done(rs) =>
      var out := Dispatch(rs, cfg, documentType, dpi, width, height, reader);
      if documentType == "manual" && |out| > 1 then Done(group(out)) else Done(out)
  }

  /** Whether a region list holds only admitted regions. */
  predicate AllAdmitted(rs: seq<TextRegion>, path: ImagePath, width: int, height: int, filters: seq<RegionFilter>,
                        minHanRatio: real, regex: (string, string, bool) -> RegexOutcome)
    requires width > 0 && height > 0
  {
    forall j :: 0 <= j < |rs| ==> Admitted(rs[j], path, width, height, filters, minHanRatio, regex)
  }

  /**
   * A schematic page handled in basic mode without the recheck yields
   * exactly the admitted regions of the item loop; an empty engine result
   * yields no region at all.
   */
  lemma PaddleBasicSchematic(path: ImagePath, width: int, height: int, dpi: int, raw: PyVal, filters: seq<RegionFilter>,
                             minHanRatio: real, cfg: Settings,
                             regex: (string, string, bool) -> RegexOutcome, parseFloat: string -> Option<real>,
                             reader: seq<OcrPostprocess.Crop> -> seq<seq<OcrPostprocess.SecItem>>,
                             group: seq<TextRegion> -> seq<TextRegion>, ids: nat -> string)
    requires width > 0 && height > 0
    ensures !Truthy(raw) ==>
      PaddleDetect(path, width, height, dpi, raw, filters, minHanRatio, "schematic", cfg, regex, parseFloat, reader, group, ids) == Done([])
    ensures cfg.mode != "advanced" && !cfg.recheckFlag ==>
      var out := PaddleDetect(path, width, height, dpi, raw, filters, minHanRatio, "schematic", cfg, regex, parseFloat, reader, group, ids);
      out == PaddleRegions(path, width, height, ParsePaddleResult(raw), filters, minHanRatio, regex, parseFloat, ids)
      && (out.Done? ==> AllAdmitted(out.value, path, width, height, filters, minHanRatio, regex))
  {
    PaddleRegionsAdmitted(path, width, height, ParsePaddleResult(raw), filters, minHanRatio, regex, parseFloat, ids);
    var rs := PaddleRegions(path, width, height, ParsePaddleResult(raw), filters, minHanRatio, regex, parseFloat, ids);
    if rs.Done? {
      DispatchCases(rs.value, cfg, "schematic", dpi, width, height, reader);
    }
  }

  /** One item of the loop: the try around the field reads, then the stages in source order. */
  method ReadItem(item: PyVal, filters: seq<RegionFilter>, minHanRatio: real,
                  regex: (string, string, bool) -> RegexOutcome, parseFloat: string -> Option<real>) returns (s: Step)
    ensures s == ItemStep(item, filters, minHanRatio, regex, parseFloat)
  {
    var fields := ExtractFields(item, parseFloat);
    if fields.None? {
      return Skip;
    }
    var text := fields.value.text;
    if !Truthy(text) {
      return Skip;
    }
    if !text.PStr? {
      return Fails;
    }
    var filteredOut := ApplyFilters(text.s, filters, regex);
    if filteredOut {
      return Skip;
    }
    if Script.HanRatio(text.s) < CjkRatioThreshold {
      return Skip;
    }
    if Script.HanRatio(text.s) < minHanRatio {
      return Skip;
    }
    var coords := Coordinates(fields.value.points, parseFloat);
    if coords.None? {
      return Skip;
    }
    var box := BoxOf(coords.value);
    if box.None? {
      return Fails;
    }
    return Region(text.s, box.value, fields.value.confidence);
  }

  /** `detect_text` of the PaddleOCR engine, after the engine call. */
  method DetectTextPaddle(path: ImagePath, width: int, height: int, dpi: int, raw: PyVal, filters: seq<RegionFilter>,
                          minHanRatio: real, documentType: string, cfg: Settings,
                          regex: (string, string, bool) -> RegexOutcome, parseFloat: string -> Option<real>,
                          reader: seq<OcrPostprocess.Crop> -> seq<seq<OcrPostprocess.SecItem>>,
                          group: seq<TextRegion> -> seq<TextRegion>, ids: nat -> string)
    returns (out: Outcome<seq<TextRegion>>)
    requires width > 0 && height > 0
    ensures out == PaddleDetect(path, width, height, dpi, raw, filters, minHanRatio, documentType, cfg, regex, parseFloat, reader, group, ids)
  {
    var items := ParsePaddleResult(raw);
    var loop := PaddleItems(path, width, height, items, filters, minHanRatio, regex, parseFloat, ids);
    if loop.Raised? {
      return Raised;
    }
    var regions := DispatchRegions(loop.value, cfg, documentType, dpi, width, height, reader);
    if documentType == "manual" && |regions| > 1 {
      regions := group(regions);
    }
    out := Done(regions);
  }

  /** The mode dispatch of `detect_text`: the advanced filter, the recheck alone, or nothing. */
  method DispatchRegions(regions: seq<TextRegion>, cfg: Settings, documentType: string, dpi: int, width: int, height: int,
                         reader: seq<OcrPostprocess.Crop> -> seq<seq<OcrPostprocess.SecItem>>)
    returns (out: seq<TextRegion>)
    ensures out == Dispatch(regions, cfg, documentType, dpi, width, height, reader)
  {
    out := regions;
    var enable := cfg.recheckFlag || documentType == "manual";
    if cfg.mode == "advanced" && regions != [] {
      out := OcrPostprocess.FilterRegionsAdvanced(regions, cfg.minOcrConfidence, enable, cfg.recheckCap,
                                                  Some(dpi), OcrPostprocess.DefaultTargetDpi, width, height, reader);
    } else if enable && regions != [] {
      out := OcrPostprocess.RecheckSuspicious(regions, cfg.recheckCap, Some(dpi), OcrPostprocess.DefaultTargetDpi, width, height, reader);
    }
  }

  /** The item loop of `detect_text`: each engine item read in turn, a region built from each kept one. */
  method PaddleItems(path: ImagePath, width: int, height: int, items: seq<PyVal>, filters: seq<RegionFilter>,
                     minHanRatio: real, regex: (string, string, bool) -> RegexOutcome,
                     parseFloat: string -> Option<real>, ids: nat -> string)
    returns (out: Outcome<seq<TextRegion>>)
    requires width > 0 && height > 0
    ensures out == PaddleRegions(path, width, height, items, filters, minHanRatio, regex, parseFloat, ids)
  {
    var regions: seq<TextRegion> := [];
    for i := 0 to |items|
      invariant PaddleRegions(path, width, height, items[..i], filters, minHanRatio, regex, parseFloat, ids) == Done(regions)
    {
      assert items[..i + 1][..i] == items[..i];
      var step := ReadItem(items[i], filters, minHanRatio, regex, parseFloat);
      if step.Fails? {
        PaddleRaisedStays(path, width, height, items, i + 1, filters, minHanRatio, regex, parseFloat, ids);
        return Raised;
      }
      if step.Region? {
        var page := StemPageNumber(path.stem);
        if page.None? {
          PaddleRaisedStays(path, width, height, items, i + 1, filters, minHanRatio, regex, parseFloat, ids);
          return Raised;
        }
        var region := NewTextRegion(ids(|regions|), path.projectDir, page.value, step.box,
                                    Normalized(step.box, width, height), step.text).(confidence := step.confidence);
        regions := regions + [region];
      }
    }
    assert items[..|items|] == items;
    return Done(regions);
  }

  /** Once an item raises, the whole loop raises. */
  lemma {:induction false} PaddleRaisedStays(path: ImagePath, width: int, height: int, items: seq<PyVal>, i: nat,
                                             filters: seq<RegionFilter>, minHanRatio: real,
                                             regex: (string, string, bool) -> RegexOutcome,
                                             parseFloat: string -> Option<real>, ids: nat -> string)
    requires width > 0 && height > 0
    requires i <= |items|
    requires PaddleRegions(path, width, height, items[..i], filters, minHanRatio, regex, parseFloat, ids) == Raised
    ensures PaddleRegions(path, width, height, items, filters, minHanRatio, regex, parseFloat, ids) == Raised
    decreases |items| - i
  {
    if i < |items| {
      assert items[..i + 1][..i] == items[..i];
      PaddleRaisedStays(path, width, height, items, i + 1, filters, minHanRatio, regex, parseFloat, ids);
    } else {
      assert items[..i] == items;
    }
  }
}
