/**
 * The page endpoints of a project: rendering the original, the OCR pass
 * with its automatic translation, editing and deleting one text region,
 * composing the translated page and serving a page image.  Rendering,
 * detection, translation and composition are parameters (their results,
 * or oracles); the stores are the repository classes.
 */
module PagesApi {
  import opened Wrappers
  import opened Models
  import opened PyDict
  import opened Repository
  import GlobalGlossary
  import opened GlossaryApply
  import PyFormat
  import OcrDetect
  import PyText
  import opened ComposeColor
  import opened ComposeFit
  import opened ComposePage

  /** What an endpoint answers: success, or the HTTP error it raises. */
  datatype Response = Ok | NotFound(detail: string) | BadRequest(detail: string) | ServerError(detail: string)

  /** The checks `render_original` makes before rendering. */
  function RenderOriginalCheck(project: Option<Project>, page: int): (r: Response)
    ensures r == Ok <==> project.Some? && 0 <= page < project.value.pageCount
    ensures r.NotFound? <==> project.None?
  {
    if project.None? then NotFound("Project not found")
    else if page < 0 || page >= project.value.pageCount then BadRequest("Invalid page number")
    else Ok
  }

  /**
   * `render_original`: validate the page, render it, and mark it as having
   * an original.  `renderRaises` says whether `render_page` raises, which
   * FastAPI answers with a 500 and no mark.
   */
  method RenderOriginal(projects: ProjectsRepository, pages: PagesRepository, pid: string, page: int, renderRaises: bool)
    returns (r: Response)
    requires pages.Valid()
    modifies pages
    ensures pages.Valid()
    ensures RenderOriginalCheck(PyDict.Get(projects.cache, pid), page) != Ok ==> r == RenderOriginalCheck(PyDict.Get(projects.cache, pid), page)
    ensures RenderOriginalCheck(PyDict.Get(projects.cache, pid), page) == Ok ==>
      r == if renderRaises then ServerError("Internal Server Error") else Ok
    ensures r != Ok ==> pages.cache == old(pages.cache)
    ensures r == Ok ==>
      pages.cache == Put(Loaded(old(pages.cache), pid), pid,
                         Put(ProjectDict(old(pages.cache), pid), page,
                             Upserted(ProjectDict(old(pages.cache), pid), pid, page, PagePatch(Some(true), None))))
  {
    var project := projects.Get(pid);
    if project.None? {
      return NotFound("Project not found");
    }
    if page < 0 || page >= project.value.pageCount {
      return BadRequest("Invalid page number");
    }
    if renderRaises {
      return ServerError("Internal Server Error");
    }
    var _ := pages.Upsert(pid, page, PagePatch(Some(true), None));
    return Ok;
  }

  /** The regions `run_ocr` stores for what the detector found. */
  function OcrPassRegions(detected: seq<TextRegion>, m: map<string, string>, translate: seq<string> -> seq<string>): seq<TextRegion>
  {
    if detected == [] then [] else Translated(detected, m, TranslatorOutput(detected, m, translate))
  }

  /**
   * An OCR pass that finds nothing still replaces the page: its unlocked,
   * non-manual regions are gone and everything else stays.
   */
  lemma EmptyOcrPassClearsPage(d: Dict<string, TextRegion>, page: int, m: map<string, string>,
                               translate: seq<string> -> seq<string>, x: string)
    requires PyDict.Valid(d)
    ensures Get(ReplaceSpec(d, page, OcrPassRegions([], m, translate)), x) ==
      if x in d.m && !Replaceable(d.m[x], page) then Some(d.m[x]) else None
  {
    ReplaceForPageLookup(d, page, [], x);
  }

  /**
   * `run_ocr`.  The detector's outcome is a parameter (`Raised` is its
   * RuntimeError); the glossaries are read only when something was found.
   * The stored regions are returned with the count the endpoint reports.
   */
  method RunOcr(projects: ProjectsRepository, regionsRepo: TextRegionsRepository, glossary: GlossaryRepository,
                global: GlobalGlossary.GlobalGlossaryRepository, pid: string, page: int, imageExists: bool,
                detection: Outcome<seq<TextRegion>>, translate: seq<string> -> seq<string>, loadId: nat -> string)
    returns (r: Response, stored: seq<TextRegion>)
    requires regionsRepo.Valid() && glossary.Valid() && global.Valid()
    modifies regionsRepo, glossary, global
    ensures regionsRepo.Valid() && glossary.Valid() && global.Valid()
    ensures r == Ok <==> PyDict.Get(projects.cache, pid).Some? && imageExists && detection.Done?
    ensures PyDict.Get(projects.cache, pid).None? ==> r.NotFound?
    ensures r != Ok ==> regionsRepo.cache == old(regionsRepo.cache)
    ensures r == Ok && detection.value == [] ==>
      stored == [] && glossary.cache == old(glossary.cache) && global.cache == old(global.cache)
    ensures r == Ok && detection.value != [] ==>
      stored == OcrPassRegions(detection.value,
                               GlossaryMap(Values(global.cache), Values(ProjectDict(old(glossary.cache), pid))),
                               translate)
    ensures r == Ok ==>
      regionsRepo.cache == Put(Loaded(old(regionsRepo.cache), pid), pid,
                               ReplaceSpec(ProjectDict(old(regionsRepo.cache), pid), page, stored))
  {
    stored := [];
    var project := projects.Get(pid);
    if project.None? {
      return NotFound("Project not found"), stored;
    }
    if !imageExists {
      return BadRequest("Original image not rendered yet"), stored;
    }
    if detection.Raised? {
      return ServerError("OCR failed"), stored;
    }
    var regions := detection.value;
    stored := regions;
    if regions != [] {
      var globalEntries := global.ListAll(loadId);
      var localEntries := glossary.ListByProject(pid);
      var m := BuildGlossaryMap(globalEntries, localEntries);
      stored := TranslateRegions(regions, m, translate);
    }
    regionsRepo.ReplaceForPage(pid, page, stored);
    return Ok, stored;
  }

  /** `delete_text_region`: 404 unless some project held the region. */
  method DeleteTextRegion(regionsRepo: TextRegionsRepository, pid: string, rid: string) returns (r: Response)
    requires regionsRepo.Valid()
    modifies regionsRepo
    ensures regionsRepo.Valid()
    ensures var c := LoadedIf(old(regionsRepo.cache), Some(pid));
      match DeleteTarget(c, rid, Some(pid))
      case None => r == NotFound("Text region not found") && regionsRepo.cache == c
      case Some(t) => r == Ok && regionsRepo.cache == Put(c, t, Remove(c.m[t], rid))
  {
    var deleted := regionsRepo.Delete(rid, Some(pid));
    if !deleted {
      return NotFound("Text region not found");
    }
    return Ok;
  }

  /**
   * `update_text_region`: 404 when no project holds the region (the named
   * project first, then the whole cache); otherwise the update, which
   * searches the cache in order, always finds it and answers the patched
   * region.
   */
  method UpdateTextRegion(regionsRepo: TextRegionsRepository, pid: string, rid: string, patch: RegionPatch)
    returns (r: Response, updated: Option<TextRegion>)
    requires regionsRepo.Valid()
    modifies regionsRepo
    ensures regionsRepo.Valid()
    ensures var c := LoadedIf(old(regionsRepo.cache), Some(pid));
      match FirstHolder(c, rid)
      case None => r == NotFound("Text region not found") && updated.None? && regionsRepo.cache == c
      case Some(h) =>
        r == Ok && updated == Some(ApplyRegionPatch(c.m[h].m[rid], patch))
        && regionsRepo.cache == Put(c, h, Put(c.m[h], rid, updated.value))
  {
    var found := regionsRepo.Get(rid, Some(pid));
    if found.None? {
      return NotFound("Text region not found"), None;
    }
    updated := regionsRepo.Update(rid, patch);
    return Ok, updated;
  }

  /**
   * `render_translated`: the page's regions, with the glossary override
   * applied, go to the composer; the page is then marked as translated.  A
   * colour the composer cannot parse raises, which FastAPI answers with a
   * 500 and no mark.  Returning or raising, the override and the review
   * flags stay in the region store, because `list_by_page` hands out the
   * store's own objects.
   */
  method RenderTranslated(projects: ProjectsRepository, regionsRepo: TextRegionsRepository, glossary: GlossaryRepository,
                          global: GlobalGlossary.GlobalGlossaryRepository, pages: PagesRepository,
                          pid: string, page: int, imageExists: bool, img: Image, measure: Measure, loadId: nat -> string)
    returns (r: Response, composed: seq<TextRegion>)
    requires regionsRepo.Valid() && glossary.Valid() && global.Valid() && pages.Valid() && WellFormed(img)
    modifies regionsRepo, glossary, global, pages
    ensures regionsRepo.Valid() && glossary.Valid() && global.Valid() && pages.Valid()
    ensures r == Ok <==> PyDict.Get(projects.cache, pid).Some? && imageExists && ComposeSpec(img, composed, measure).Done?
    ensures r.ServerError? <==> PyDict.Get(projects.cache, pid).Some? && imageExists && ComposeSpec(img, composed, measure).Raised?
    ensures r != Ok ==> pages.cache == old(pages.cache)
    ensures !(PyDict.Get(projects.cache, pid).Some? && imageExists) ==> composed == [] && regionsRepo.cache == old(regionsRepo.cache)
    ensures PyDict.Get(projects.cache, pid).Some? && imageExists ==>
      composed == Overridden(OnPage(Values(ProjectDict(old(regionsRepo.cache), pid)), page),
                             GlossaryMap(Values(global.cache), Values(ProjectDict(old(glossary.cache), pid))))
      && regionsRepo.cache == PageWritten(old(regionsRepo.cache), pid, page, ComposedRegions(img, composed, measure))
    ensures r == Ok ==>
      pages.cache == Put(Loaded(old(pages.cache), pid), pid,
                         Put(ProjectDict(old(pages.cache), pid), page,
                             Upserted(ProjectDict(old(pages.cache), pid), pid, page, PagePatch(None, Some(true)))))
  {
    composed := [];
    var project := projects.Get(pid);
    if project.None? {
      return NotFound("Project not found"), composed;
    }
    if !imageExists {
      return BadRequest("Original image not rendered yet"), composed;
    }
    var regions := regionsRepo.ListByPage(pid, page);
    var globalEntries := global.ListAll(loadId);
    var localEntries := glossary.ListByProject(pid);
    var m := BuildGlossaryMap(globalEntries, localEntries);
    composed := OverrideRegions(regions, m);
    var out, reviewed := ComposeRegions(img, composed, measure);
    regionsRepo.StorePage(pid, page, reviewed);
    if out.Raised? {
      return ServerError("Internal Server Error"), composed;
    }
    var _ := pages.Upsert(pid, page, PagePatch(None, Some(true)));
    return Ok, composed;
  }

  /**
   * What composing a page leaves in its project's regions, whether the
   * composer returns or raises: the same keys in the same order; a region
   * on another page as it was; a region on the page with the glossary
   * override applied and, where its text overflowed, flagged for review.
   */
  lemma ComposedPageLookup(d: Dict<string, TextRegion>, page: int, m: map<string, string>, img: Image, measure: Measure, x: string)
    requires PyDict.Valid(d) && WellFormed(img) && x in d.m
    ensures var after := WritePage(d, page, ComposedRegions(img, Overridden(OnPage(Values(d), page), m), measure));
      after.keys == d.keys && x in after.m
      && (d.m[x].pageNumber != page ==> after.m[x] == d.m[x])
      && (d.m[x].pageNumber == page ==> SameButReview(Override(d.m[x], m), after.m[x]))
  {
    var listed := OnPage(Values(d), page);
    var composed := Overridden(listed, m);
    var rs := ComposedRegions(img, composed, measure);
    WritePageLookup(d, page, rs, x);
    if d.m[x].pageNumber == page {
      var i :| 0 <= i < |rs| && listed[i] == d.m[x] && WritePage(d, page, rs).m[x] == rs[i];
      assert composed[i] == Override(d.m[x], m);
      ComposedRegionsReview(img, composed, measure);
      assert SameButReview(composed[i], rs[i]);
    }
  }

  // ---------------------------------------------------------------- page images

  /** The stem of a page image of the given kind, or None for a kind the endpoint rejects. */
  function ImageStem(page: int, kind: string, dpi: int): (s: Option<string>)
    ensures s.Some? <==> kind == "original" || kind == "translated"
  {
    if kind == "original" then Some(OcrDetect.OriginalStem(page, dpi))
    else if kind == "translated" then Some(PyFormat.ZeroPadded(page, 3) + "_translated_" + PyFormat.ZeroPadded(dpi, 0))
    else None
  }

  /** The page number heads a stem written as the zero-padded number then an underscore. */
  lemma PaddedStemPage(page: int, rest: string)
    requires |rest| > 0 && rest[0] == '_'
    ensures OcrDetect.StemPageNumber(PyFormat.ZeroPadded(page, 3) + rest) == Some(page)
  {
    var head := PyFormat.ZeroPadded(page, 3);
    PyFormat.ZeroPaddedRoundTrip(page, 3);
    var s := head + rest;
    assert s[..|head|] == head;
    assert s[|head|] == '_';
    assert forall i :: 0 <= i < |head| ==> s[i] != '_' by {
      forall i | 0 <= i < |head| ensures s[i] != '_' {
        assert s[i] == head[i];
      }
    }
    assert PyText.Find(s, '_', 0) == |head|;
  }

  /** Both kinds of image carry the page number the OCR reads back from a file name. */
  lemma ImageStemPage(page: int, kind: string, dpi: int)
    requires ImageStem(page, kind, dpi).Some?
    ensures OcrDetect.StemPageNumber(ImageStem(page, kind, dpi).value) == Some(page)
  {
    if kind == "original" {
      OcrDetect.OriginalStemPageNumber(page, dpi);
    } else {
      var rest := "_translated_" + PyFormat.ZeroPadded(dpi, 0);
      assert ImageStem(page, kind, dpi).value == PyFormat.ZeroPadded(page, 3) + rest;
      PaddedStemPage(page, rest);
    }
  }

  /** `get_page_image`: 400 for an unknown kind, 404 when the file is missing, else the file's stem. */
  function PageImage(page: int, kind: string, dpi: int, exists_: string -> bool): (r: (Response, Option<string>))
    ensures r.0.BadRequest? <==> kind != "original" && kind != "translated"
    ensures r.0 == Ok <==> ImageStem(page, kind, dpi).Some? && exists_(ImageStem(page, kind, dpi).value)
    ensures r.0 == Ok ==> r.1 == ImageStem(page, kind, dpi)
  {
    var stem := ImageStem(page, kind, dpi);
    if stem.None? then (BadRequest("Invalid kind"), None)
    else if !exists_(stem.value) then (NotFound("Image not found"), None)
    else (Ok, stem)
  }
}
