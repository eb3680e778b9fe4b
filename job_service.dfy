/**
 * The background job that processes every page of a project: it renders
 * the original, runs OCR and translation, and composes the translated page,
 * saving the job's step and progress as it goes.  Rendering, detection,
 * translation and composition are the `Services` oracles; a call that
 * raises ends the job with status "error" and the exception's message.
 */
module JobService {
  import opened Wrappers
  import opened Models
  import opened PyDict
  import opened Repository
  import GlobalGlossary
  import opened GlossaryApply
  import PyFormat
  import OcrDetect
  import Seqs
  import opened ComposePage

  /** DEFAULT_DPI */
  const DefaultDpi: int := 450

  /** A call into a service: its value, or the message of the exception it raises. */
  datatype Call<T> = Returns(value: T) | Throws(message: string)

  /** The `default_dpi` configuration entry, as `int(...)` sees it. */
  datatype DpiSetting = DpiAbsent | DpiInteger(n: int) | DpiUnparsable

  /** The services the job calls; each may raise. */
  datatype Services = Services(
    imageExists: string -> bool,                                 // whether the original image with this stem is on disk
    render: int -> Option<string>,                               // what `render_page` raises for a page, if anything
    detect: (int, Option<seq<RegionFilter>>) -> Call<seq<TextRegion>>,
    translate: seq<string> -> Call<seq<string>>,
    compose: int -> Option<string>,                              // what `compose_page` raises for a page, if anything
    flagged: (int, seq<TextRegion>) -> set<nat>)                 // the positions among the regions handed to `compose_page`
                                                                 // whose review flag it set, before it returned or raised

  /** What the job fixes before the page loop. */
  datatype JobContext = JobContext(dpi: int, filters: Option<seq<RegionFilter>>, m: map<string, string>, svc: Services)

  // ---------------------------------------------------------------- the job file

  /** The jobs directory: one file per job id, and (ghost) every write in order. */
  class JobStore {
    var files: map<string, Job>
    ghost var saves: seq<Job>

    constructor()
      ensures files == map[] && saves == []
    {
      files := map[];
      saves := [];
    }

    /** `_save_job` */
    method Save(j: Job)
      modifies this
      ensures files == old(files)[j.id := j] && saves == old(saves) + [j]
      ensures files - {j.id} == old(files) - {j.id}
    {
      files := files[j.id := j];
      saves := saves + [j];
    }

    /** `_load_job` / `get_job` */
    method Load(id: string) returns (j: Option<Job>)
      ensures j == PyDict.Get(Dict([], files), id)
    {
      j := if id in files then Some(files[id]) else None;
    }

    /** `create_job`: a pending job under a fresh id, saved at once. */
    method Create(newId: string, pid: string, jobType: string, now: int) returns (j: Job)
      modifies this
      ensures j == NewJob(newId, pid, jobType, now)
      ensures files == old(files)[newId := j] && saves == old(saves) + [j]
    {
      j := NewJob(newId, pid, jobType, now);
      Save(j);
    }
  }

  // ---------------------------------------------------------------- set-up

  /** The DPI the job uses: the caller's, else the configured integer, else DEFAULT_DPI. */
  function JobDpi(dpi: Option<int>, setting: DpiSetting): (d: int)
    ensures dpi.Some? ==> d == dpi.value
    ensures dpi.None? ==> d == (if setting.DpiInteger? then setting.n else DefaultDpi)
  {
    match dpi
    case Some(v) => v
    case None => if setting.DpiInteger? then setting.n else DefaultDpi
  }

  /** The global filters of `gs[..n]` whose key is not a project filter's key, in order. */
  function NewGlobals(custom: seq<RegionFilter>, gs: seq<RegionFilter>, n: nat): seq<RegionFilter>
    requires n <= |gs|
  {
    if n == 0 then [] else NewGlobals(custom, gs, n - 1) + (if gs[n - 1] in custom then [] else [gs[n - 1]])
  }

  /** The filter list the job passes to OCR. */
  function MergedFilters(custom: seq<RegionFilter>, gs: seq<RegionFilter>): seq<RegionFilter>
  {
    custom + NewGlobals(custom, gs, |gs|)
  }

  /**
   * The project filters come first and unchanged; after them, each global
   * filter appears as often as in the global list unless a project filter
   * has its key, in which case it does not appear at all.
   */
  lemma {:induction false} NewGlobalsCount(custom: seq<RegionFilter>, gs: seq<RegionFilter>, n: nat, x: RegionFilter)
    requires n <= |gs|
    ensures multiset(NewGlobals(custom, gs, n))[x] == if x in custom then 0 else multiset(gs[..n])[x]
  {
    if n > 0 {
      NewGlobalsCount(custom, gs, n - 1, x);
      assert gs[..n] == gs[..n - 1] + [gs[n - 1]];
    }
  }

  lemma MergedFiltersFacts(custom: seq<RegionFilter>, gs: seq<RegionFilter>, x: RegionFilter)
    ensures MergedFilters(custom, gs)[..|custom|] == custom
    ensures multiset(MergedFilters(custom, gs))[x] ==
      multiset(custom)[x] + if x in custom then 0 else multiset(gs)[x]
    ensures x in MergedFilters(custom, gs) <==> x in custom || x in gs
  {
    NewGlobalsCount(custom, gs, |gs|, x);
    assert gs[..|gs|] == gs;
    var merged := MergedFilters(custom, gs);
    assert merged[..|custom|] == custom;
    assert multiset(merged) == multiset(custom) + multiset(NewGlobals(custom, gs, |gs|));
  }

  /** The filter merge of `run_render_all`. */
  method MergeFilters(custom: seq<RegionFilter>, gs: seq<RegionFilter>) returns (merged: seq<RegionFilter>)
    ensures merged == MergedFilters(custom, gs)
  {
    merged := custom;
    var seen := set i | 0 <= i < |custom| :: custom[i];
    for i := 0 to |gs|
      invariant merged == custom + NewGlobals(custom, gs, i)
    {
      if gs[i] !in seen {
        merged := merged + [gs[i]];
      }
    }
  }

  // ---------------------------------------------------------------- steps and progress

  datatype Phase = Rendering | Recognising | Composing

  /** The progress written at the start of a phase of page `p` of `total`. */
  function Progress(ph: Phase, p: nat, total: nat): real
    requires total > 0
  {
    var f := (p as real) / (total as real);
    match ph
    case Rendering => f * 0.2
    case Recognising => 0.2 + f * 0.3
    case Composing => 0.5 + f * 0.5
  }

  /** The step text written at the start of a phase of page `p` of `total`. */
  function StepText(ph: Phase, p: nat, total: nat): string
  {
    var of := PyFormat.Decimal(p + 1) + "/" + PyFormat.Decimal(total) + "...";
    match ph
    case Rendering => "Renderizando página " + of
    case Recognising => "OCR página " + of
    case Composing => "Componiendo página " + of
  }

  /** Within a page the three phases write increasing progress values, all in [0, 1). */
  lemma ProgressWithinPage(p: nat, total: nat)
    requires p < total
    ensures 0.0 <= Progress(Rendering, p, total) < Progress(Recognising, p, total)
    ensures Progress(Recognising, p, total) < Progress(Composing, p, total) < 1.0
  {
    var f := (p as real) / (total as real);
    assert f * (total as real) == p as real;
    assert 0.0 <= f < 1.0;
  }

  /** Progress is not monotone over the job: the next page's first phase writes less than this page's last. */
  lemma ProgressDropsBetweenPages(p: nat, total: nat)
    requires p + 1 < total
    ensures Progress(Rendering, p + 1, total) < Progress(Composing, p, total)
  {
    ProgressWithinPage(p + 1, total);
    var f := ((p + 1) as real) / (total as real);
    assert f * (total as real) == (p + 1) as real;
    assert f < 1.0;
  }

  lemma UpdateFrame<K, V>(a: map<K, V>, b: map<K, V>, k: K, v: V)
    requires a - {k} == b - {k}
    ensures a[k := v] == b[k := v]
  {
    forall x | x in a && x != k
      ensures x in b && b[x] == a[x]
    {
      assert x in a - {k};
    }
    forall x | x in b && x != k
      ensures x in a
    {
      assert x in b - {k};
    }
  }

  /** The job as saved at the start of a phase. */
  function AtStep(j: Job, ph: Phase, p: nat, total: nat): (s: Job)
    requires total > 0
    ensures s.id == j.id && s.status == j.status
  {
    j.(currentStep := Some(StepText(ph, p, total)), progress := Progress(ph, p, total))
  }

  function Completed(j: Job): Job
  {
    j.(status := "completed", progress := 1.0, currentStep := Some("Completado"))
  }

  function Failed(j: Job, message: string): Job
  {
    j.(status := "error", error := Some(message))
  }

  /** What page `p` saves up to and including the start of phase `ph`. */
  function PhaseSnapshots(j: Job, p: nat, total: nat, ph: Phase): (s: seq<Job>)
    requires total > 0
  {
    match ph
    case Rendering => [AtStep(j, Rendering, p, total)]
    case Recognising => [AtStep(j, Rendering, p, total), AtStep(j, Recognising, p, total)]
    case Composing => [AtStep(j, Rendering, p, total), AtStep(j, Recognising, p, total), AtStep(j, Composing, p, total)]
  }

  /** Each phase's saves extend the previous phase's by its own snapshot. */
  lemma PhaseSnapshotsGrow(j: Job, p: nat, total: nat)
    requires total > 0
    ensures PhaseSnapshots(j, p, total, Rendering) + [AtStep(j, Recognising, p, total)] == PhaseSnapshots(j, p, total, Recognising)
    ensures PhaseSnapshots(j, p, total, Recognising) + [AtStep(j, Composing, p, total)] == PhaseSnapshots(j, p, total, Composing)
  {
    Snoc(AtStep(j, Rendering, p, total), AtStep(j, Recognising, p, total), AtStep(j, Composing, p, total));
  }

  lemma Snoc<T>(a: T, b: T, c: T)
    ensures [a] + [b] == [a, b] && [a, b] + [c] == [a, b, c]
  {
  }

  /** What pages `0..n-1` save when none of them raises. */
  function PagesSaved(j: Job, n: nat, total: nat): (s: seq<Job>)
    requires 0 < total
    ensures |s| == 3 * n
  {
    if n == 0 then [] else PagesSaved(j, n - 1, total) + PhaseSnapshots(j, n - 1, total, Composing)
  }

  lemma {:induction false} PagesSavedAt(j: Job, n: nat, total: nat, q: nat)
    requires 0 < total && q < n
    ensures PagesSaved(j, n, total)[3 * q] == AtStep(j, Rendering, q, total)
    ensures PagesSaved(j, n, total)[3 * q + 1] == AtStep(j, Recognising, q, total)
    ensures PagesSaved(j, n, total)[3 * q + 2] == AtStep(j, Composing, q, total)
  {
    if q < n - 1 {
      PagesSavedAt(j, n - 1, total, q);
    }
  }

  // ---------------------------------------------------------------- one page

  /** What the translator yields for the job's batch; a raising batch never reaches here. */
  function Translator(svc: Services): seq<string> -> seq<string>
  {
    ts => if svc.translate(ts).Returns? then svc.translate(ts).value else []
  }

  /** What rendering page `p` raises: only a missing image is rendered. */
  function RenderRaised(ctx: JobContext, p: nat): Option<string>
  {
    if !ctx.svc.imageExists(OcrDetect.OriginalStem(p, ctx.dpi)) then ctx.svc.render(p) else None
  }

  /** What the OCR phase of page `p` raises: detection, or the translation of the texts the glossary does not cover. */
  function OcrRaised(ctx: JobContext, p: nat): Option<string>
  {
    match ctx.svc.detect(p, ctx.filters)
    case Throws(e) => Some(e)
    case Returns(rs) =>
      if PendingTexts(rs, ctx.m) != [] && ctx.svc.translate(PendingTexts(rs, ctx.m)).Throws? then
        Some(ctx.svc.translate(PendingTexts(rs, ctx.m)).message)
      else None
  }

  /** The first call of page `p` that raises, with its phase and message. */
  function PageFailure(ctx: JobContext, p: nat): Option<(Phase, string)>
  {
    if RenderRaised(ctx, p).Some? then Some((Rendering, RenderRaised(ctx, p).value))
    else if OcrRaised(ctx, p).Some? then Some((Recognising, OcrRaised(ctx, p).value))
    else if ctx.svc.compose(p).Some? then Some((Composing, ctx.svc.compose(p).value))
    else None
  }

  /** The regions the OCR phase of page `p` stores, once detection returned `rs`. */
  function StoredRegions(ctx: JobContext, rs: seq<TextRegion>): seq<TextRegion>
  {
    Translated(rs, ctx.m, TranslatorOutput(rs, ctx.m, Translator(ctx.svc)))
  }

  /** The page and region caches the job changes. */
  datatype Stores = Stores(pages: Cache<int, Page>, regions: Cache<string, TextRegion>)

  ghost predicate StoresValid(st: Stores)
  {
    CacheValid(st.pages) && CacheValid(st.regions)
  }

  function UpsertedCache(c: Cache<int, Page>, pid: string, p: int, patch: PagePatch): (r: Cache<int, Page>)
    requires CacheValid(c)
    ensures CacheValid(r)
  {
    var d := ProjectDict(c, pid);
    LoadedValid(c, pid);
    PutFacts(d, p, Upserted(d, pid, p, patch));
    PutProjectValid(Loaded(c, pid), pid, Put(d, p, Upserted(d, pid, p, patch)));
    Put(Loaded(c, pid), pid, Put(d, p, Upserted(d, pid, p, patch)))
  }

  /** After the render phase: the page has its original. */
  function AfterRender(st: Stores, pid: string, p: int): (r: Stores)
    requires StoresValid(st)
    ensures StoresValid(r)
  {
    st.(pages := UpsertedCache(st.pages, pid, p, PagePatch(Some(true), None)))
  }

  /** The region cache after the OCR phase: the page's regions are replaced only when something was detected. */
  function OcrRegions(c: Cache<string, TextRegion>, pid: string, p: int, stored: seq<TextRegion>): (r: Cache<string, TextRegion>)
    requires CacheValid(c)
    ensures CacheValid(r)
  {
    if stored == [] then c
    else
      var d := ProjectDict(c, pid);
      LoadedValid(c, pid);
      ReplaceForPageLookup(d, p, stored, "");
      PutProjectValid(Loaded(c, pid), pid, ReplaceSpec(d, p, stored));
      Put(Loaded(c, pid), pid, ReplaceSpec(d, p, stored))
  }

  function AfterOcr(st: Stores, pid: string, p: int, stored: seq<TextRegion>): (r: Stores)
    requires StoresValid(st)
    ensures StoresValid(r)
  {
    st.(regions := OcrRegions(st.regions, pid, p, stored))
  }

  /** The regions handed to the composer, with the review flag set at the positions in `flags`. */
  function Reviewed(rs: seq<TextRegion>, flags: set<nat>): (out: seq<TextRegion>)
    ensures |out| == |rs|
  {
    seq(|rs|, i requires 0 <= i < |rs| => if i in flags then Flagged(rs[i]) else rs[i])
  }

  /** The regions the compose phase writes back for page `p`: the listed ones, overridden, with the composer's flags. */
  function ComposedRegionsOf(c: Cache<string, TextRegion>, ctx: JobContext, pid: string, p: nat): (rs: seq<TextRegion>)
    requires CacheValid(c)
    ensures |rs| == |OnPage(Values(ProjectDict(c, pid)), p)|
  {
    var composed := Overridden(OnPage(Values(ProjectDict(c, pid)), p), ctx.m);
    Reviewed(composed, ctx.svc.flagged(p, composed))
  }

  /**
   * The compose phase's writes through the listed regions: the override
   * and the review flags stay in the region store whether composing
   * returns or raises.
   */
  function AfterListing(st: Stores, ctx: JobContext, pid: string, p: nat): (r: Stores)
    requires StoresValid(st)
    ensures StoresValid(r)
  {
    st.(regions := PageWritten(st.regions, pid, p, ComposedRegionsOf(st.regions, ctx, pid, p)))
  }

  /** After composing: the page has its translation. */
  function AfterCompose(st: Stores, pid: string, p: int): (r: Stores)
    requires StoresValid(st)
    ensures StoresValid(r)
  {
    st.(pages := UpsertedCache(st.pages, pid, p, PagePatch(None, Some(true))))
  }

  /** The stores after page `p`: all of it, or up to the phase that raised. */
  function PageStores(st: Stores, ctx: JobContext, pid: string, p: nat): (r: Stores)
    requires StoresValid(st)
    ensures StoresValid(r)
  {
    var failure := PageFailure(ctx, p);
    if failure.Some? && failure.value.0 == Rendering then st
    else
      var st1 := AfterRender(st, pid, p);
      if failure.Some? && failure.value.0 == Recognising then st1
      else
        var rs := ctx.svc.detect(p, ctx.filters).value;
        ComposedStores(AfterOcr(st1, pid, p, if rs == [] then [] else StoredRegions(ctx, rs)), ctx, pid, p)
  }

  /** The stores after the compose phase: the page's regions written through, then the page marked unless composing raised. */
  function ComposedStores(st: Stores, ctx: JobContext, pid: string, p: nat): (r: Stores)
    requires StoresValid(st)
    ensures StoresValid(r)
  {
    var st3 := AfterListing(st, ctx, pid, p);
    if ctx.svc.compose(p).Some? then st3 else AfterCompose(st3, pid, p)
  }

  lemma PageStoresRendering(st: Stores, ctx: JobContext, pid: string, p: nat)
    requires StoresValid(st) && RenderRaised(ctx, p).Some?
    ensures PageStores(st, ctx, pid, p) == st
  {
  }

  lemma PageStoresRecognising(st: Stores, ctx: JobContext, pid: string, p: nat)
    requires StoresValid(st) && RenderRaised(ctx, p).None? && OcrRaised(ctx, p).Some?
    ensures PageStores(st, ctx, pid, p) == AfterRender(st, pid, p)
  {
  }

  lemma PageStoresComposing(st: Stores, ctx: JobContext, pid: string, p: nat)
    requires StoresValid(st) && RenderRaised(ctx, p).None? && OcrRaised(ctx, p).None?
    ensures ctx.svc.detect(p, ctx.filters).Returns?
    ensures var rs := ctx.svc.detect(p, ctx.filters).value;
      PageStores(st, ctx, pid, p) == ComposedStores(AfterOcr(AfterRender(st, pid, p), pid, p, if rs == [] then [] else StoredRegions(ctx, rs)), ctx, pid, p)
  {
    var failure := PageFailure(ctx, p);
    assert failure.None? || failure.value.0 == Composing;
  }

  /** The stores after pages `0..n-1`. */
  function StoresAfter(st: Stores, ctx: JobContext, pid: string, n: nat): (r: Stores)
    requires StoresValid(st)
    ensures StoresValid(r)
  {
    if n == 0 then st else PageStores(StoresAfter(st, ctx, pid, n - 1), ctx, pid, n - 1)
  }

  /**
   * Unlike the page endpoint's OCR pass, a page on which OCR finds nothing
   * keeps every region it had, under the same keys in the same order; a
   * region on another page is untouched, and one on the page changes only
   * by the glossary override and the composer's review flag.
   */
  lemma EmptyDetectionKeepsRegions(st: Stores, ctx: JobContext, pid: string, p: nat, x: string)
    requires StoresValid(st) && PageFailure(ctx, p).None? && ctx.svc.detect(p, ctx.filters) == Returns([])
    ensures var before, after := ProjectDict(st.regions, pid), ProjectDict(PageStores(st, ctx, pid, p).regions, pid);
      after.keys == before.keys && (x in after.m <==> x in before.m)
      && (x in before.m && before.m[x].pageNumber != p ==> after.m[x] == before.m[x])
      && (x in before.m && before.m[x].pageNumber == p ==> SameButReview(Override(before.m[x], ctx.m), after.m[x]))
  {
    var before := ProjectDict(st.regions, pid);
    LoadedValid(st.regions, pid);
    var st1 := AfterRender(st, pid, p);
    assert PageStores(st, ctx, pid, p).regions == AfterListing(st1, ctx, pid, p).regions;
    if x in before.m {
      ReviewedPageLookup(before, p, ctx.m, ctx.svc.flagged, x);
    }
  }

  /** The compose phase's writes, key by key: a region on another page is untouched; one on the page is overridden and maybe flagged. */
  lemma ReviewedPageLookup(d: Dict<string, TextRegion>, p: nat, m: map<string, string>, flagged: (int, seq<TextRegion>) -> set<nat>, x: string)
    requires PyDict.Valid(d) && x in d.m
    ensures var composed := Overridden(OnPage(Values(d), p), m);
      var after := WritePage(d, p, Reviewed(composed, flagged(p, composed)));
      after.keys == d.keys && x in after.m
      && (d.m[x].pageNumber != p ==> after.m[x] == d.m[x])
      && (d.m[x].pageNumber == p ==> SameButReview(Override(d.m[x], m), after.m[x]))
  {
    var listed := OnPage(Values(d), p);
    var composed := Overridden(listed, m);
    var flags := flagged(p, composed);
    var rs := Reviewed(composed, flags);
    WritePageLookup(d, p, rs, x);
    if d.m[x].pageNumber == p {
      var i :| 0 <= i < |rs| && listed[i] == d.m[x] && WritePage(d, p, rs).m[x] == rs[i];
      assert composed[i] == Override(d.m[x], m);
      assert rs[i] == if i in flags then Flagged(composed[i]) else composed[i];
    }
  }

  /** The first page from `i` on that raises, or `total`. */
  function FirstFailing(ctx: JobContext, i: nat, total: nat): (k: nat)
    requires i <= total
    ensures i <= k <= total
    ensures k < total ==> PageFailure(ctx, k).Some?
    decreases total - i
  {
    if i == total then total else if PageFailure(ctx, i).Some? then i else FirstFailing(ctx, i + 1, total)
  }

  /** No page before the first raising one raises. */
  lemma {:induction false} FirstFailingBefore(ctx: JobContext, i: nat, total: nat, q: nat)
    requires i <= q && i <= total && q < FirstFailing(ctx, i, total)
    ensures PageFailure(ctx, q).None?
    decreases total - i
  {
    if q > i {
      FirstFailingBefore(ctx, i + 1, total, q);
    }
  }

  /** The first raising page is determined: any page with no failure before it and a failure at it (or the end) is the one found. */
  lemma {:induction false} FirstFailingIs(ctx: JobContext, i: nat, k: nat, total: nat)
    requires i <= k <= total
    requires forall q :: i <= q < k ==> PageFailure(ctx, q).None?
    requires k < total ==> PageFailure(ctx, k).Some?
    ensures FirstFailing(ctx, i, total) == k
    decreases k - i
  {
    if i < k {
      FirstFailingIs(ctx, i + 1, k, total);
    }
  }

  /** The saves after the pages that went through: completion, or the raising page's saves and the error. */
  function TraceEnd(r: Job, total: nat, k: nat, failure: Option<(Phase, string)>): seq<Job>
    requires 0 < total
  {
    match failure
    case None => [Completed(r)]
    case Some((ph, e)) => PhaseSnapshots(r, k, total, ph) + [Failed(AtStep(r, ph, k, total), e)]
  }

  /** The saves of the page loop and the job's end. */
  function LoopTrace(r: Job, ctx: JobContext, total: nat): seq<Job>
  {
    if total == 0 then [Completed(r)]
    else
      var k := FirstFailing(ctx, 0, total);
      PagesSaved(r, k, total) + TraceEnd(r, total, k, if k == total then None else PageFailure(ctx, k))
  }

  /** Every save of a job that reached the page loop, in order, from `job.status = "running"` on. */
  function JobTrace(r: Job, ctx: JobContext, total: nat): seq<Job>
  {
    [r] + LoopTrace(r, ctx, total)
  }

  lemma TraceParts(r: Job, ps: seq<Job>, tail: seq<Job>, i: nat)
    requires i < 1 + |ps| + |tail|
    ensures i == 0 ==> ([r] + ps + tail)[i] == r
    ensures 0 < i <= |ps| ==> ([r] + ps + tail)[i] == ps[i - 1]
    ensures |ps| < i ==> ([r] + ps + tail)[i] == tail[i - 1 - |ps|]
  {
  }

  /** The stores after the page loop: every page up to the one that raised, and that one's finished phases. */
  function JobStores(st: Stores, ctx: JobContext, pid: string, total: nat): (r: Stores)
    requires StoresValid(st)
    ensures StoresValid(r)
  {
    var k := FirstFailing(ctx, 0, total);
    var st1 := StoresAfter(st, ctx, pid, k);
    if k == total then st1 else PageStores(st1, ctx, pid, k)
  }

  /**
   * The saves of a running job: "running" first; every save in between is
   * a step with progress in [0, 1), increasing within each page; the last
   * is "completed" with progress 1.0 and step "Completado" iff no page
   * raised, else "error" with the message of the first exception.
   */
  lemma JobTraceFacts(r: Job, ctx: JobContext, total: nat)
    requires r.status == "running"
    ensures var t := JobTrace(r, ctx, total);
      |t| >= 2 && t[0] == r
      && (forall i :: 0 < i < |t| - 1 ==> t[i].status == "running" && 0.0 <= t[i].progress < 1.0)
      && (t[|t| - 1].status == "completed" <==> total == 0 || FirstFailing(ctx, 0, total) == total)
      && (t[|t| - 1].status == "completed" ==> t[|t| - 1].progress == 1.0 && t[|t| - 1].currentStep == Some("Completado"))
      && (t[|t| - 1].status != "completed" ==>
            t[|t| - 1].status == "error" && t[|t| - 1].error == Some(PageFailure(ctx, FirstFailing(ctx, 0, total)).value.1))
  {
    if total > 0 {
      var k := FirstFailing(ctx, 0, total);
      var ps := PagesSaved(r, k, total);
      var tail := TraceEnd(r, total, k, if k == total then None else PageFailure(ctx, k));
      var t := [r] + ps + tail;
      Seqs.ConcatAssoc([r], ps, tail);
      assert JobTrace(r, ctx, total) == t;
      TraceParts(r, ps, tail, |t| - 1);
      if k < total {
        ProgressWithinPage(k, total);
      }
      var failure := if k == total then None else PageFailure(ctx, k);
      forall i | 0 < i < |t| - 1
        ensures t[i].status == "running" && 0.0 <= t[i].progress < 1.0
      {
        TraceRunningAt(r, total, k, failure, i);
      }
    }
  }

  lemma TraceRunningAt(r: Job, total: nat, k: nat, failure: Option<(Phase, string)>, i: nat)
    requires r.status == "running" && 0 < total && k <= total && (failure.Some? ==> k < total)
    requires 0 < i < |[r] + PagesSaved(r, k, total) + TraceEnd(r, total, k, failure)| - 1
    ensures var t := [r] + PagesSaved(r, k, total) + TraceEnd(r, total, k, failure);
      t[i].status == "running" && 0.0 <= t[i].progress < 1.0
  {
    var ps := PagesSaved(r, k, total);
    var tail := TraceEnd(r, total, k, failure);
    forall j | 0 <= j < |ps| ensures RunningStep(ps[j]) {
      PagesRunning(r, k, total, j);
    }
    forall j | 0 <= j < |tail| - 1 ensures RunningStep(tail[j]) {
      TraceEndRunning(r, total, k, failure, j);
    }
    RunningBetween(r, ps, tail, i);
  }

  /** A save of a running job that is still under way. */
  ghost predicate RunningStep(j: Job)
  {
    j.status == "running" && 0.0 <= j.progress < 1.0
  }

  /** Between the first and the last save, a trace built of running parts holds a running step. */
  lemma RunningBetween(r: Job, ps: seq<Job>, tail: seq<Job>, i: nat)
    requires forall j :: 0 <= j < |ps| ==> RunningStep(ps[j])
    requires forall j :: 0 <= j < |tail| - 1 ==> RunningStep(tail[j])
    requires 0 < i < |[r] + ps + tail| - 1
    ensures RunningStep(([r] + ps + tail)[i])
  {
    TraceParts(r, ps, tail, i);
  }

  /** Before the error, the raising page's saves are running steps with progress in [0, 1). */
  lemma TraceEndRunning(r: Job, total: nat, k: nat, failure: Option<(Phase, string)>, i: nat)
    requires r.status == "running" && k < total && i + 1 < |TraceEnd(r, total, k, failure)|
    ensures TraceEnd(r, total, k, failure)[i].status == "running"
    ensures 0.0 <= TraceEnd(r, total, k, failure)[i].progress < 1.0
  {
    ProgressWithinPage(k, total);
  }

  /** Every save of the pages that went through is a running step with progress in [0, 1). */
  lemma PagesRunning(r: Job, n: nat, total: nat, i: nat)
    requires r.status == "running" && 0 < total && n <= total && i < 3 * n
    ensures PagesSaved(r, n, total)[i].status == "running"
    ensures 0.0 <= PagesSaved(r, n, total)[i].progress < 1.0
  {
    var q := i / 3;
    PagesSavedAt(r, n, total, q);
    ProgressWithinPage(q, total);
    assert i == 3 * q || i == 3 * q + 1 || i == 3 * q + 2;
  }

  lemma TraceStepsAt(r: Job, total: nat, k: nat, failure: Option<(Phase, string)>, q: nat)
    requires 0 < total && q < k <= total
    ensures var t := [r] + PagesSaved(r, k, total) + TraceEnd(r, total, k, failure);
      3 * q + 3 < |t| && t[3 * q + 1] == AtStep(r, Rendering, q, total)
      && t[3 * q + 2] == AtStep(r, Recognising, q, total) && t[3 * q + 3] == AtStep(r, Composing, q, total)
  {
    var ps := PagesSaved(r, k, total);
    var tail := TraceEnd(r, total, k, failure);
    PagesSavedAt(r, k, total, q);
    Seqs.MiddleIndex([r], ps, tail, 3 * q + 1);
    Seqs.MiddleIndex([r], ps, tail, 3 * q + 2);
    Seqs.MiddleIndex([r], ps, tail, 3 * q + 3);
  }

  /** Within a page that did not raise, the three saves carry increasing progress. */
  lemma JobTraceIncreasesWithinPage(r: Job, ctx: JobContext, total: nat, q: nat)
    requires 0 < total && q < FirstFailing(ctx, 0, total)
    ensures var t := JobTrace(r, ctx, total);
      3 * q + 3 < |t| && t[3 * q + 1].progress < t[3 * q + 2].progress < t[3 * q + 3].progress
  {
    var k := FirstFailing(ctx, 0, total);
    var failure := if k == total then None else PageFailure(ctx, k);
    Seqs.ConcatAssoc([r], PagesSaved(r, k, total), TraceEnd(r, total, k, failure));
    TraceStepsAt(r, total, k, failure, q);
    ProgressWithinPage(q, total);
  }

  // ---------------------------------------------------------------- the job

  /** FASE 1: the page's original is rendered unless its file exists, then the page is upserted. */
  method RenderPhase(pagesRepo: PagesRepository, ctx: JobContext, pid: string, p: nat) returns (raised: Option<string>)
    requires pagesRepo.Valid()
    modifies pagesRepo
    ensures pagesRepo.Valid()
    ensures raised == RenderRaised(ctx, p)
    ensures raised.Some? ==> pagesRepo.cache == old(pagesRepo.cache)
    ensures raised.None? ==> pagesRepo.cache == UpsertedCache(old(pagesRepo.cache), pid, p, PagePatch(Some(true), None))
  {
    raised := None;
    if !ctx.svc.imageExists(OcrDetect.OriginalStem(p, ctx.dpi)) {
      raised := ctx.svc.render(p);
      if raised.Some? {
        return;
      }
    }
    var _ := pagesRepo.Upsert(pid, p, PagePatch(Some(true), None));
  }

  /** FASE 2: detection, then the translation of what the glossary does not cover, then the page's regions are replaced. */
  method OcrPhase(regionsRepo: TextRegionsRepository, ctx: JobContext, pid: string, p: nat) returns (raised: Option<string>)
    requires regionsRepo.Valid()
    modifies regionsRepo
    ensures regionsRepo.Valid()
    ensures raised == OcrRaised(ctx, p)
    ensures raised.Some? ==> regionsRepo.cache == old(regionsRepo.cache)
    ensures raised.None? ==>
      var rs := ctx.svc.detect(p, ctx.filters).value;
      regionsRepo.cache == OcrRegions(old(regionsRepo.cache), pid, p, if rs == [] then [] else StoredRegions(ctx, rs))
  {
    var detected := ctx.svc.detect(p, ctx.filters);
    if detected.Throws? {
      return Some(detected.message);
    }
    var regions := detected.value;
    if regions != [] {
      var pending := PendingTexts(regions, ctx.m);
      if pending != [] && ctx.svc.translate(pending).Throws? {
        return Some(ctx.svc.translate(pending).message);
      }
      regions := TranslateRegions(regions, ctx.m, Translator(ctx.svc));
      regionsRepo.ReplaceForPage(pid, p, regions);
    }
    return None;
  }

  /**
   * FASE 3: the relisted regions, with the glossary override, go to the
   * composer; then the page is upserted.  The override and the composer's
   * review flags are written through the listed objects, so they stay in
   * the region store even when composing raises.
   */
  method ComposePhase(pagesRepo: PagesRepository, regionsRepo: TextRegionsRepository, ctx: JobContext, pid: string, p: nat)
    returns (raised: Option<string>, composed: seq<TextRegion>)
    requires pagesRepo.Valid() && regionsRepo.Valid()
    modifies pagesRepo, regionsRepo
    ensures pagesRepo.Valid() && regionsRepo.Valid()
    ensures raised == ctx.svc.compose(p)
    ensures composed == Overridden(OnPage(Values(ProjectDict(old(regionsRepo.cache), pid)), p), ctx.m)
    ensures regionsRepo.cache == PageWritten(old(regionsRepo.cache), pid, p, Reviewed(composed, ctx.svc.flagged(p, composed)))
    ensures raised.Some? ==> pagesRepo.cache == old(pagesRepo.cache)
    ensures raised.None? ==> pagesRepo.cache == UpsertedCache(old(pagesRepo.cache), pid, p, PagePatch(None, Some(true)))
  {
    ghost var c0 := regionsRepo.cache;
    var loaded := regionsRepo.ListByPage(pid, p);
    composed := OverrideRegions(loaded, ctx.m);
    raised := ctx.svc.compose(p);
    LoadedValid(c0, pid);
    regionsRepo.StorePage(pid, p, Reviewed(composed, ctx.svc.flagged(p, composed)));
    if raised.Some? {
      return;
    }
    var _ := pagesRepo.Upsert(pid, p, PagePatch(None, Some(true)));
  }

  /** One page of the loop; returns the exception it stopped at, if any. */
  method RunPage(jobs: JobStore, pagesRepo: PagesRepository, regionsRepo: TextRegionsRepository,
                 r: Job, ctx: JobContext, pid: string, p: nat, total: nat)
    returns (failure: Option<(Phase, string)>)
    requires p < total && pagesRepo.Valid() && regionsRepo.Valid()
    modifies jobs, pagesRepo, regionsRepo
    ensures pagesRepo.Valid() && regionsRepo.Valid()
    ensures failure == PageFailure(ctx, p)
    ensures jobs.saves == old(jobs.saves) + PhaseSnapshots(r, p, total, if failure.Some? then failure.value.0 else Composing)
    ensures jobs.files - {r.id} == old(jobs.files) - {r.id}
    ensures Stores(pagesRepo.cache, regionsRepo.cache) == PageStores(Stores(old(pagesRepo.cache), old(regionsRepo.cache)), ctx, pid, p)
  {
    ghost var s0 := jobs.saves;
    ghost var st0 := Stores(pagesRepo.cache, regionsRepo.cache);
    jobs.Save(AtStep(r, Rendering, p, total));
    assert jobs.saves == s0 + PhaseSnapshots(r, p, total, Rendering);
    var raised := RenderPhase(pagesRepo, ctx, pid, p);
    if raised.Some? {
      PageStoresRendering(st0, ctx, pid, p);
      return Some((Rendering, raised.value));
    }
    ghost var st1 := Stores(pagesRepo.cache, regionsRepo.cache);
    assert st1 == AfterRender(st0, pid, p);
    jobs.Save(AtStep(r, Recognising, p, total));
    Seqs.ConcatAssoc(s0, PhaseSnapshots(r, p, total, Rendering), [AtStep(r, Recognising, p, total)]);
    PhaseSnapshotsGrow(r, p, total);
    assert jobs.saves == s0 + PhaseSnapshots(r, p, total, Recognising);
    raised := OcrPhase(regionsRepo, ctx, pid, p);
    if raised.Some? {
      PageStoresRecognising(st0, ctx, pid, p);
      return Some((Recognising, raised.value));
    }
    ghost var st2 := Stores(pagesRepo.cache, regionsRepo.cache);
    ghost var s1 := jobs.saves;
    failure := ComposeStep(jobs, pagesRepo, regionsRepo, r, ctx, pid, p, total);
    Seqs.ConcatAssoc(s0, PhaseSnapshots(r, p, total, Recognising), [AtStep(r, Composing, p, total)]);
    PhaseSnapshotsGrow(r, p, total);
    assert jobs.saves == s0 + PhaseSnapshots(r, p, total, Composing);
    PageStoresComposing(st0, ctx, pid, p);
    ghost var rs := ctx.svc.detect(p, ctx.filters).value;
    assert st2 == AfterOcr(st1, pid, p, if rs == [] then [] else StoredRegions(ctx, rs));
  }

  /** The last phase of a page: its save, then composing; returns the exception it raised, if any. */
  method ComposeStep(jobs: JobStore, pagesRepo: PagesRepository, regionsRepo: TextRegionsRepository,
                     r: Job, ctx: JobContext, pid: string, p: nat, total: nat)
    returns (failure: Option<(Phase, string)>)
    requires p < total && pagesRepo.Valid() && regionsRepo.Valid()
    modifies jobs, pagesRepo, regionsRepo
    ensures pagesRepo.Valid() && regionsRepo.Valid()
    ensures failure == if ctx.svc.compose(p).Some? then Some((Composing, ctx.svc.compose(p).value)) else None
    ensures jobs.saves == old(jobs.saves) + [AtStep(r, Composing, p, total)]
    ensures jobs.files - {r.id} == old(jobs.files) - {r.id}
    ensures Stores(pagesRepo.cache, regionsRepo.cache) == ComposedStores(Stores(old(pagesRepo.cache), old(regionsRepo.cache)), ctx, pid, p)
  {
    jobs.Save(AtStep(r, Composing, p, total));
    var raised, composed := ComposePhase(pagesRepo, regionsRepo, ctx, pid, p);
    if raised.Some? {
      return Some((Composing, raised.value));
    }
    return None;
  }

  /** The page loop: stops at the first page that raises. */
  method RunPages(jobs: JobStore, pagesRepo: PagesRepository, regionsRepo: TextRegionsRepository,
                  r: Job, ctx: JobContext, pid: string, total: nat)
    returns (failure: Option<(Phase, string)>)
    requires total > 0 && pagesRepo.Valid() && regionsRepo.Valid()
    modifies jobs, pagesRepo, regionsRepo
    ensures pagesRepo.Valid() && regionsRepo.Valid()
    ensures var k := FirstFailing(ctx, 0, total);
      failure == (if k == total then None else PageFailure(ctx, k))
    ensures var k := FirstFailing(ctx, 0, total);
      jobs.saves == old(jobs.saves) + PagesSaved(r, k, total)
        + (if failure.None? then [] else PhaseSnapshots(r, k, total, failure.value.0))
    ensures jobs.files - {r.id} == old(jobs.files) - {r.id}
    ensures Stores(pagesRepo.cache, regionsRepo.cache) == JobStores(Stores(old(pagesRepo.cache), old(regionsRepo.cache)), ctx, pid, total)
  {
    ghost var st0 := Stores(pagesRepo.cache, regionsRepo.cache);
    ghost var saves0 := jobs.saves;
    ghost var files0 := jobs.files;
    ghost var k := FirstFailing(ctx, 0, total);
    for page := 0 to total
      invariant pagesRepo.Valid() && regionsRepo.Valid()
      invariant page <= k
      invariant jobs.saves == saves0 + PagesSaved(r, page, total)
      invariant jobs.files - {r.id} == files0 - {r.id}
      invariant Stores(pagesRepo.cache, regionsRepo.cache) == StoresAfter(st0, ctx, pid, page)
    {
      failure := RunPage(jobs, pagesRepo, regionsRepo, r, ctx, pid, page, total);
      if failure.Some? {
        RunPagesFailed(jobs.saves, Stores(pagesRepo.cache, regionsRepo.cache), r, ctx, pid, total, page, failure, st0, saves0);
        return failure;
      }
      FirstFailingAhead(ctx, total, page);
      RunPagesNext(jobs.saves, Stores(pagesRepo.cache, regionsRepo.cache), r, ctx, pid, total, page, st0, saves0);
    }
    JobStoresAt(st0, ctx, pid, total);
    return None;
  }

  /** The exit of the page loop at the first page that raised: the loop's postconditions hold there. */
  lemma RunPagesFailed(saves: seq<Job>, stores: Stores, r: Job, ctx: JobContext, pid: string, total: nat, page: nat,
                       failure: Option<(Phase, string)>, st0: Stores, saves0: seq<Job>)
    requires page < total && page <= FirstFailing(ctx, 0, total) && StoresValid(st0)
    requires failure == PageFailure(ctx, page) && failure.Some?
    requires saves == saves0 + PagesSaved(r, page, total) + PhaseSnapshots(r, page, total, failure.value.0)
    requires stores == PageStores(StoresAfter(st0, ctx, pid, page), ctx, pid, page)
    ensures var k := FirstFailing(ctx, 0, total);
      failure == (if k == total then None else PageFailure(ctx, k))
    ensures var k := FirstFailing(ctx, 0, total);
      saves == saves0 + PagesSaved(r, k, total) + (if failure.None? then [] else PhaseSnapshots(r, k, total, failure.value.0))
    ensures stores == JobStores(st0, ctx, pid, total)
  {
    if page < FirstFailing(ctx, 0, total) {
      FirstFailingBefore(ctx, 0, total, page);
    }
    assert page == FirstFailing(ctx, 0, total);
    JobStoresAt(st0, ctx, pid, total);
  }

  /** A page that went through: the page loop's invariants hold for the next page. */
  lemma RunPagesNext(saves: seq<Job>, stores: Stores, r: Job, ctx: JobContext, pid: string, total: nat, page: nat,
                     st0: Stores, saves0: seq<Job>)
    requires page < total && StoresValid(st0)
    requires saves == saves0 + PagesSaved(r, page, total) + PhaseSnapshots(r, page, total, Composing)
    requires stores == PageStores(StoresAfter(st0, ctx, pid, page), ctx, pid, page)
    ensures saves == saves0 + PagesSaved(r, page + 1, total)
    ensures stores == StoresAfter(st0, ctx, pid, page + 1)
  {
    StoresAfterStep(st0, ctx, pid, page);
    assert PagesSaved(r, page + 1, total) == PagesSaved(r, page, total) + PhaseSnapshots(r, page, total, Composing);
    Seqs.ConcatAssoc(saves0, PagesSaved(r, page, total), PhaseSnapshots(r, page, total, Composing));
  }

  /** A page before the first raising one that does not raise leaves the first raising page ahead. */
  lemma FirstFailingAhead(ctx: JobContext, total: nat, page: nat)
    requires page < total && page <= FirstFailing(ctx, 0, total) && PageFailure(ctx, page).None?
    ensures page + 1 <= FirstFailing(ctx, 0, total)
  {
  }

  lemma StoresAfterStep(st: Stores, ctx: JobContext, pid: string, n: nat)
    requires StoresValid(st)
    ensures StoresAfter(st, ctx, pid, n + 1) == PageStores(StoresAfter(st, ctx, pid, n), ctx, pid, n)
  {
  }

  lemma JobStoresAt(st: Stores, ctx: JobContext, pid: string, total: nat)
    requires StoresValid(st)
    ensures var k := FirstFailing(ctx, 0, total);
      JobStores(st, ctx, pid, total) == if k == total then StoresAfter(st, ctx, pid, k) else PageStores(StoresAfter(st, ctx, pid, k), ctx, pid, k)
  {
  }

  /** `run_render_all` from the page loop on, for a running job. */
  method RunJob(jobs: JobStore, pagesRepo: PagesRepository, regionsRepo: TextRegionsRepository,
                r: Job, ctx: JobContext, pid: string, total: nat)
    requires pagesRepo.Valid() && regionsRepo.Valid()
    modifies jobs, pagesRepo, regionsRepo
    ensures pagesRepo.Valid() && regionsRepo.Valid()
    ensures jobs.saves == old(jobs.saves) + LoopTrace(r, ctx, total)
    ensures jobs.files == old(jobs.files)[r.id := jobs.saves[|jobs.saves| - 1]]
    ensures Stores(pagesRepo.cache, regionsRepo.cache) == JobStores(Stores(old(pagesRepo.cache), old(regionsRepo.cache)), ctx, pid, total)
  {
    ghost var files0 := jobs.files;
    ghost var saves0 := jobs.saves;
    ghost var k := if total > 0 then FirstFailing(ctx, 0, total) else 0;
    var failure: Option<(Phase, string)> := None;
    if total > 0 {
      failure := RunPages(jobs, pagesRepo, regionsRepo, r, ctx, pid, total);
    } else {
      assert FirstFailing(ctx, 0, total) == 0;
    }
    ghost var files1 := jobs.files;
    ghost var saves1 := jobs.saves;
    var last;
    if failure.None? {
      last := Completed(r);
    } else {
      var (ph, e) := failure.value;
      last := Failed(AtStep(r, ph, FirstFailing(ctx, 0, total), total), e);
    }
    jobs.Save(last);
    UpdateFrame(files1, files0, r.id, last);
    if total > 0 {
      ghost var ps := PagesSaved(r, k, total);
      ghost var mid := if failure.None? then [] else PhaseSnapshots(r, k, total, failure.value.0);
      assert saves1 == saves0 + ps + mid;
      assert TraceEnd(r, total, k, failure) == mid + [last];
      assert LoopTrace(r, ctx, total) == ps + (mid + [last]);
      Seqs.ConcatAssoc(ps, mid, [last]);
      Seqs.ConcatAssoc(saves0, ps + mid, [last]);
      Seqs.ConcatAssoc(saves0, ps, mid);
    }
  }

  /** The job's settings: its DPI, the project's filters merged with the global ones, and the glossary map. */
  function ContextOf(project: Project, dpi: Option<int>, setting: DpiSetting, globalFilters: seq<RegionFilter>,
                     globalCache: Dict<string, GlossaryEntry>, glossaryCache: Cache<string, GlossaryEntry>,
                     pid: string, svc: Services): JobContext
    requires PyDict.Valid(globalCache) && CacheValid(glossaryCache)
  {
    var merged := MergedFilters(project.ocrRegionFilters, globalFilters);
    JobContext(JobDpi(dpi, setting), if merged == [] then None else Some(merged),
               GlossaryMap(Values(globalCache), Values(ProjectDict(glossaryCache, pid))), svc)
  }

  /** The set-up of `run_render_all` before the page loop: both glossaries listed, the filters merged. */
  method PrepareContext(glossary: GlossaryRepository, global: GlobalGlossary.GlobalGlossaryRepository,
                        project: Project, dpi: Option<int>, setting: DpiSetting, globalFilters: seq<RegionFilter>,
                        pid: string, svc: Services, loadId: nat -> string)
    returns (ctx: JobContext)
    requires glossary.Valid() && global.Valid()
    modifies glossary, global
    ensures glossary.Valid() && global.Valid()
    ensures ctx == ContextOf(project, dpi, setting, globalFilters, global.cache, old(glossary.cache), pid, svc)
  {
    var jobDpi := JobDpi(dpi, setting);
    var globalEntries := global.ListAll(loadId);
    var localEntries := glossary.ListByProject(pid);
    var m := BuildGlossaryMap(globalEntries, localEntries);
    var custom := MergeFilters(project.ocrRegionFilters, globalFilters);
    ctx := JobContext(jobDpi, if custom == [] then None else Some(custom), m, svc);
  }

  /**
   * `run_render_all`.  A missing job does nothing; a missing project saves
   * the job as "error" with "Project not found" and touches no store;
   * otherwise the job runs, and its saves and the page and region stores
   * are those of `JobTrace` and `JobStores` for the context it builds: the
   * resolved DPI, the merged filters (None when empty), and the glossary
   * map.
   */
  method RunRenderAll(jobs: JobStore, projects: ProjectsRepository, pagesRepo: PagesRepository,
                      regionsRepo: TextRegionsRepository, glossary: GlossaryRepository,
                      global: GlobalGlossary.GlobalGlossaryRepository,
                      jobId: string, pid: string, dpi: Option<int>, setting: DpiSetting,
                      globalFilters: seq<RegionFilter>, svc: Services, loadId: nat -> string)
    requires pagesRepo.Valid() && regionsRepo.Valid() && glossary.Valid() && global.Valid()
    modifies jobs, pagesRepo, regionsRepo, glossary, global
    ensures pagesRepo.Valid() && regionsRepo.Valid() && glossary.Valid() && global.Valid()
    ensures jobId !in old(jobs.files) ==>
      jobs.saves == old(jobs.saves) && jobs.files == old(jobs.files)
      && pagesRepo.cache == old(pagesRepo.cache) && regionsRepo.cache == old(regionsRepo.cache)
      && glossary.cache == old(glossary.cache) && global.cache == old(global.cache)
    ensures jobId in old(jobs.files) && pid !in projects.cache.m ==>
      var j := old(jobs.files)[jobId];
      var failed := j.(status := "error", error := Some("Project not found"));
      jobs.saves == old(jobs.saves) + [failed] && jobs.files == old(jobs.files)[j.id := failed]
      && pagesRepo.cache == old(pagesRepo.cache) && regionsRepo.cache == old(regionsRepo.cache)
      && glossary.cache == old(glossary.cache) && global.cache == old(global.cache)
    ensures jobId in old(jobs.files) && pid in projects.cache.m ==>
      var j := old(jobs.files)[jobId];
      var project := projects.cache.m[pid];
      var total := if project.pageCount > 0 then project.pageCount else 0;
      var ctx := ContextOf(project, dpi, setting, globalFilters, global.cache, old(glossary.cache), pid, svc);
      jobs.saves == old(jobs.saves) + JobTrace(j.(status := "running"), ctx, total)
      && jobs.files == old(jobs.files)[j.id := jobs.saves[|jobs.saves| - 1]]
      && Stores(pagesRepo.cache, regionsRepo.cache) ==
           JobStores(Stores(old(pagesRepo.cache), old(regionsRepo.cache)), ctx, pid, total)
  {
    var loaded := jobs.Load(jobId);
    if loaded.None? {
      return;
    }
    var job := loaded.value;
    var project := projects.Get(pid);
    if project.None? {
      job := job.(status := "error", error := Some("Project not found"));
      jobs.Save(job);
      return;
    }
    RunLoaded(jobs, pagesRepo, regionsRepo, glossary, global, job, project.value, pid, dpi, setting, globalFilters, svc, loadId);
  }

  /** `run_render_all` once the job and its project are found: the job runs. */
  method RunLoaded(jobs: JobStore, pagesRepo: PagesRepository, regionsRepo: TextRegionsRepository,
                   glossary: GlossaryRepository, global: GlobalGlossary.GlobalGlossaryRepository,
                   loaded: Job, project: Project, pid: string, dpi: Option<int>, setting: DpiSetting,
                   globalFilters: seq<RegionFilter>, svc: Services, loadId: nat -> string)
    requires pagesRepo.Valid() && regionsRepo.Valid() && glossary.Valid() && global.Valid()
    modifies jobs, pagesRepo, regionsRepo, glossary, global
    ensures pagesRepo.Valid() && regionsRepo.Valid() && glossary.Valid() && global.Valid()
    ensures var total := if project.pageCount > 0 then project.pageCount else 0;
      var ctx := ContextOf(project, dpi, setting, globalFilters, global.cache, old(glossary.cache), pid, svc);
      jobs.saves == old(jobs.saves) + JobTrace(loaded.(status := "running"), ctx, total)
      && jobs.files == old(jobs.files)[loaded.id := jobs.saves[|jobs.saves| - 1]]
      && Stores(pagesRepo.cache, regionsRepo.cache) ==
           JobStores(Stores(old(pagesRepo.cache), old(regionsRepo.cache)), ctx, pid, total)
  {
    var job := loaded.(status := "running");
    ghost var files0 := jobs.files;
    ghost var saves0 := jobs.saves;
    jobs.Save(job);
    var total := if project.pageCount > 0 then project.pageCount else 0;
    var ctx := PrepareContext(glossary, global, project, dpi, setting, globalFilters, pid, svc, loadId);
    ghost var files1 := jobs.files;
    RunJob(jobs, pagesRepo, regionsRepo, job, ctx, pid, total);
    Seqs.ConcatAssoc(saves0, [job], LoopTrace(job, ctx, total));
    UpdateFrame(files1, files0, job.id, jobs.saves[|jobs.saves| - 1]);
  }
}
