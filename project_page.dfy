/**
 * The project page's region tools: the text filter over the page's
 * regions, the list it displays, deleting every filtered region (on the
 * page or across the project), and adding a region's translation to a
 * glossary.  Server requests are logged; what they answer is a parameter.
 */
module ProjectPage {
  import opened Wrappers
  import opened Models
  import opened PyText
  import OcrFilters
  import Seqs
  import opened JsText

  // ---------------------------------------------------------------- blank filter text

  /** Lowering the case keeps a text blank or not blank. */
  lemma BlankLower(s: string)
    ensures Blank(Lower(s)) <==> Blank(s)
  {
    assert forall i :: 0 <= i < |s| ==> (JsIsSpace(Lower(s)[i]) <==> JsIsSpace(s[i]));
  }

  // ---------------------------------------------------------------- the filter

  /** The filter controls. */
  datatype Filter = Filter(text: string, field: string, mode: string, caseSensitive: bool, showOnlyFiltered: bool)

  /** `normalizedFilterText` */
  function Normalized(f: Filter): string
  {
    if f.caseSensitive then f.text else Lower(f.text)
  }

  /** The text the filter looks at: the source text, or the translation with none read as empty. */
  function RawValue(f: Filter, r: TextRegion): string
  {
    if f.field == "src" then r.srcText else OrEmpty(r.tgtText)
  }

  /**
   * `matchesRegionFilter`: a blank filter, an unknown mode and a regex
   * that does not compile match everything; otherwise the mode's test on
   * both sides lowered unless case-sensitive (the regex on the raw text,
   * with the `i` flag unless case-sensitive).
   */
  predicate Matches(f: Filter, r: TextRegion, regex: (string, string, bool) -> OcrFilters.RegexOutcome)
  {
    var needle := Normalized(f);
    if Blank(needle) then true
    else
      var raw := RawValue(f, r);
      var value := if f.caseSensitive then raw else Lower(raw);
      if f.mode == "contains" then Contains(value, needle)
      else if f.mode == "starts" then StartsWith(value, needle)
      else if f.mode == "ends" then EndsWith(value, needle)
      else if f.mode == "regex" then regex(f.text, raw, !f.caseSensitive) != OcrFilters.NotFound
      else true
  }

  /** The modes on a non-blank filter; a regex that does not compile keeps every region. */
  lemma MatchesModes(f: Filter, r: TextRegion, regex: (string, string, bool) -> OcrFilters.RegexOutcome)
    ensures Blank(f.text) ==> Matches(f, r, regex)
    ensures !Blank(f.text) && f.caseSensitive && f.mode == "starts" ==>
      (Matches(f, r, regex) <==> StartsWith(RawValue(f, r), f.text))
    ensures !Blank(f.text) && !f.caseSensitive && f.mode == "contains" ==>
      (Matches(f, r, regex) <==> Contains(Lower(RawValue(f, r)), Lower(f.text)))
    ensures !Blank(f.text) && f.mode == "regex" && regex(f.text, RawValue(f, r), !f.caseSensitive) == OcrFilters.Invalid ==>
      Matches(f, r, regex)
    ensures f.mode != "contains" && f.mode != "starts" && f.mode != "ends" && f.mode != "regex" ==> Matches(f, r, regex)
  {
    BlankLower(f.text);
  }

  /** The regions the filter keeps, in order. */
  function Filtered(f: Filter, regions: seq<TextRegion>, regex: (string, string, bool) -> OcrFilters.RegexOutcome): seq<TextRegion>
  {
    Seqs.Select(regions, r => Matches(f, r, regex))
  }

  /** The filter keeps exactly the regions it matches. */
  lemma FilteredMembers(f: Filter, regions: seq<TextRegion>, regex: (string, string, bool) -> OcrFilters.RegexOutcome)
    ensures forall r :: r in Filtered(f, regions, regex) <==> r in regions && Matches(f, r, regex)
  {
    Seqs.SelectMembers(regions, r => Matches(f, r, regex));
  }

  /** A blank filter keeps every region. */
  lemma BlankFilterKeepsAll(f: Filter, regions: seq<TextRegion>, regex: (string, string, bool) -> OcrFilters.RegexOutcome)
    requires Blank(f.text)
    ensures Filtered(f, regions, regex) == regions
  {
    BlankLower(f.text);
    Seqs.SelectAll(regions, r => Matches(f, r, regex));
  }

  /** `displayedRegions`: the filtered list only when asked for and the filter is not blank. */
  function Displayed(f: Filter, regions: seq<TextRegion>, regex: (string, string, bool) -> OcrFilters.RegexOutcome): seq<TextRegion>
  {
    if f.showOnlyFiltered && !Blank(f.text) then Filtered(f, regions, regex) else regions
  }

  /**
   * With "show only filtered" on, the list is what the filter keeps (with a
   * blank filter, everything); with it off, every region.  Either way only
   * regions of the page are displayed.
   */
  lemma DisplayedIsFilteredOrAll(f: Filter, regions: seq<TextRegion>, regex: (string, string, bool) -> OcrFilters.RegexOutcome)
    ensures f.showOnlyFiltered ==> Displayed(f, regions, regex) == Filtered(f, regions, regex)
    ensures !f.showOnlyFiltered ==> Displayed(f, regions, regex) == regions
    ensures forall r :: r in Displayed(f, regions, regex) ==> r in regions
  {
    FilteredMembers(f, regions, regex);
    if Blank(f.text) {
      BlankFilterKeepsAll(f, regions, regex);
    }
  }

  function Ids(rs: seq<TextRegion>): (ids: seq<string>)
    ensures |ids| == |rs| && forall i :: 0 <= i < |rs| ==> ids[i] == rs[i].id
  {
    seq(|rs|, i requires 0 <= i < |rs| => rs[i].id)
  }

  // ---------------------------------------------------------------- bulk delete

  datatype Scope = PageScope | ProjectScope

  /** The progress shown: the running count and the total. */
  datatype Progress = Progress(current: nat, total: nat)

  /** What the page does during a bulk delete, in order: delete requests and progress updates. */
  datatype Event = DeleteRequest(id: string) | ShowProgress(shown: Option<Progress>)

  /** One delete request per id, in order. */
  function Requests(ids: seq<string>): (es: seq<Event>)
    ensures |es| == |ids|
  {
    if ids == [] then [] else Requests(ids[..|ids| - 1]) + [DeleteRequest(ids[|ids| - 1])]
  }

  /** The ids of a page's regions the filter keeps. */
  function PageDeletes(f: Filter, page: seq<TextRegion>, regex: (string, string, bool) -> OcrFilters.RegexOutcome): seq<string>
  {
    Ids(Filtered(f, page, regex))
  }

  /** The page-scope run after `k` deletes: the count at 0, then each delete followed by the new count. */
  function PageRun(ids: seq<string>, k: nat): seq<Event>
    requires k <= |ids|
  {
    if k == 0 then [ShowProgress(Some(Progress(0, |ids|)))]
    else PageRun(ids, k - 1) + [DeleteRequest(ids[k - 1])] + [ShowProgress(Some(Progress(k, |ids|)))]
  }

  /** The ids to delete on each page: the filtered regions of the page as fetched. */
  function PageIds(f: Filter, fetch: int -> seq<TextRegion>, regex: (string, string, bool) -> OcrFilters.RegexOutcome): int -> seq<string>
  {
    p => PageDeletes(f, fetch(p), regex)
  }

  /** The project-scope run after `n` pages: each page's deletes followed by the count of pages done. */
  function ProjectRun(pages: seq<int>, n: nat, idsOf: int -> seq<string>): seq<Event>
    requires n <= |pages|
  {
    if n == 0 then [ShowProgress(Some(Progress(0, |pages|)))]
    else ProjectRun(pages, n - 1, idsOf) + Requests(idsOf(pages[n - 1])) + [ShowProgress(Some(Progress(n, |pages|)))]
  }

  /** The ids a log asks to delete, in order. */
  function DeletedIds(es: seq<Event>): seq<string>
  {
    if es == [] then []
    else DeletedIds(es[..|es| - 1]) + (if es[|es| - 1].DeleteRequest? then [es[|es| - 1].id] else [])
  }

  /** The progress values a log shows, in order. */
  function Shown(es: seq<Event>): seq<Option<Progress>>
  {
    if es == [] then []
    else Shown(es[..|es| - 1]) + (if es[|es| - 1].ShowProgress? then [es[|es| - 1].shown] else [])
  }

  /** Every count from 0 up to `k`, out of `n`. */
  function Counts(k: nat, n: nat): (ps: seq<Option<Progress>>)
    ensures |ps| == k + 1
  {
    if k == 0 then [Some(Progress(0, n))] else Counts(k - 1, n) + [Some(Progress(k, n))]
  }

  /** The counts go from 0 up to `k` one step at a time. */
  lemma {:induction false} CountsStep(k: nat, n: nat)
    ensures forall i :: 0 <= i <= k ==> Counts(k, n)[i] == Some(Progress(i, n))
  {
    if k > 0 {
      CountsStep(k - 1, n);
    }
  }

  /** Reading a concatenated log reads each part. */
  lemma {:induction false} ReadAppend(a: seq<Event>, b: seq<Event>)
    ensures DeletedIds(a + b) == DeletedIds(a) + DeletedIds(b)
    ensures Shown(a + b) == Shown(a) + Shown(b)
    decreases |b|
  {
    if b == [] {
      assert a + b == a;
    } else {
      var init := b[..|b| - 1];
      assert (a + b)[..|a + b| - 1] == a + init;
      ReadAppend(a, init);
    }
  }

  /** A one-event log. */
  lemma ReadOne(e: Event)
    ensures DeletedIds([e]) == (if e.DeleteRequest? then [e.id] else [])
    ensures Shown([e]) == (if e.ShowProgress? then [e.shown] else [])
  {
    assert [e][..0] == [];
  }

  /** Delete requests show nothing and ask to delete exactly their ids. */
  lemma {:induction false} ReadRequests(ids: seq<string>)
    ensures DeletedIds(Requests(ids)) == ids && Shown(Requests(ids)) == []
    decreases |ids|
  {
    if ids != [] {
      var init := ids[..|ids| - 1];
      ReadRequests(init);
      ReadOne(DeleteRequest(ids[|ids| - 1]));
      ReadAppend(Requests(init), [DeleteRequest(ids[|ids| - 1])]);
      Seqs.InitLast(ids);
    }
  }

  /** A page-scope run deletes the first `k` ids and shows the counts 0 to `k`. */
  lemma ReadPageRun(ids: seq<string>, k: nat)
    requires k <= |ids|
    ensures DeletedIds(PageRun(ids, k)) == ids[..k]
    ensures Shown(PageRun(ids, k)) == Counts(k, |ids|)
  {
    PageRunDeletes(ids, k);
    PageRunShows(ids, k);
  }

  lemma {:induction false} PageRunDeletes(ids: seq<string>, k: nat)
    requires k <= |ids|
    ensures DeletedIds(PageRun(ids, k)) == ids[..k]
  {
    if k == 0 {
      ReadOne(ShowProgress(Some(Progress(0, |ids|))));
    } else {
      PageRunDeletes(ids, k - 1);
      var prev := PageRun(ids, k - 1);
      var del, show := DeleteRequest(ids[k - 1]), ShowProgress(Some(Progress(k, |ids|)));
      ReadOne(del);
      ReadOne(show);
      ReadAppend(prev, [del]);
      ReadAppend(prev + [del], [show]);
      Seqs.AppendEmpty(DeletedIds(prev) + [ids[k - 1]]);
      Seqs.TakeSnoc(ids, k);
      calc {
        DeletedIds(PageRun(ids, k));
        DeletedIds(prev + [del] + [show]);
        DeletedIds(prev + [del]) + DeletedIds([show]);
        ids[..k - 1] + [ids[k - 1]] + [];
        ids[..k];
      }
    }
  }

  lemma {:induction false} PageRunShows(ids: seq<string>, k: nat)
    requires k <= |ids|
    ensures Shown(PageRun(ids, k)) == Counts(k, |ids|)
  {
    if k == 0 {
      ReadOne(ShowProgress(Some(Progress(0, |ids|))));
    } else {
      PageRunShows(ids, k - 1);
      var prev := PageRun(ids, k - 1);
      var del, show := DeleteRequest(ids[k - 1]), ShowProgress(Some(Progress(k, |ids|)));
      ReadOne(del);
      ReadOne(show);
      ReadAppend(prev, [del]);
      ReadAppend(prev + [del], [show]);
      assert PageRun(ids, k) == prev + [del] + [show];
      Seqs.AppendEmpty(Shown(prev));
    }
  }

  /** The ids deleted on the first `n` pages, page by page. */
  function DeletesUpTo(pages: seq<int>, n: nat, idsOf: int -> seq<string>): seq<string>
    requires n <= |pages|
  {
    if n == 0 then [] else DeletesUpTo(pages, n - 1, idsOf) + idsOf(pages[n - 1])
  }

  /** The ids deleted across all the pages. */
  function ProjectDeletes(f: Filter, pages: seq<int>, fetch: int -> seq<TextRegion>,
                          regex: (string, string, bool) -> OcrFilters.RegexOutcome): seq<string>
  {
    DeletesUpTo(pages, |pages|, PageIds(f, fetch, regex))
  }

  /** A project-scope run deletes each page's ids in turn. */
  lemma {:induction false} ProjectRunDeletes(pages: seq<int>, n: nat, idsOf: int -> seq<string>)
    requires n <= |pages|
    ensures DeletedIds(ProjectRun(pages, n, idsOf)) == DeletesUpTo(pages, n, idsOf)
  {
    if n == 0 {
      ReadOne(ShowProgress(Some(Progress(0, |pages|))));
    } else {
      ProjectRunDeletes(pages, n - 1, idsOf);
      var prev := ProjectRun(pages, n - 1, idsOf);
      var ids := idsOf(pages[n - 1]);
      var show := ShowProgress(Some(Progress(n, |pages|)));
      ReadOne(show);
      ReadRequests(ids);
      ReadAppend(prev, Requests(ids));
      ReadAppend(prev + Requests(ids), [show]);
      assert DeletedIds(prev + Requests(ids) + [show]) == DeletedIds(prev) + ids;
    }
  }

  /** A project-scope run shows the count of pages done, from 0 to `n`. */
  lemma {:induction false} ProjectRunShows(pages: seq<int>, n: nat, idsOf: int -> seq<string>)
    requires n <= |pages|
    ensures Shown(ProjectRun(pages, n, idsOf)) == Counts(n, |pages|)
  {
    if n == 0 {
      ReadOne(ShowProgress(Some(Progress(0, |pages|))));
    } else {
      ProjectRunShows(pages, n - 1, idsOf);
      var prev := ProjectRun(pages, n - 1, idsOf);
      var ids := idsOf(pages[n - 1]);
      var show := ShowProgress(Some(Progress(n, |pages|)));
      ReadOne(show);
      ReadRequests(ids);
      ReadAppend(prev, Requests(ids));
      ReadAppend(prev + Requests(ids), [show]);
      assert Shown(prev + Requests(ids)) == Shown(prev);
      assert Shown(prev + Requests(ids) + [show]) == Shown(prev) + [show.shown];
      assert ProjectRun(pages, n, idsOf) == prev + Requests(ids) + [show];
      assert Counts(n, |pages|) == Counts(n - 1, |pages|) + [show.shown];
    }
  }

  /** One delete request per id, in order. */
  method RequestEvents(ids: seq<string>) returns (events: seq<Event>)
    ensures events == Requests(ids)
  {
    events := [];
    for k := 0 to |ids|
      invariant events == Requests(ids[..k])
    {
      assert ids[..k + 1][..k] == ids[..k];
      events := events + [DeleteRequest(ids[k])];
    }
    assert ids[..|ids|] == ids;
  }

  /** The events of the project-wide page loop, in order. */
  method PagesEvents(f: Filter, pages: seq<int>, fetch: int -> seq<TextRegion>, regex: (string, string, bool) -> OcrFilters.RegexOutcome)
    returns (events: seq<Event>)
    ensures events == ProjectRun(pages, |pages|, PageIds(f, fetch, regex))
  {
    events := [ShowProgress(Some(Progress(0, |pages|)))];
    for i := 0 to |pages|
      invariant events == ProjectRun(pages, i, PageIds(f, fetch, regex))
    {
      var toDelete := PageDeletes(f, fetch(pages[i]), regex);
      assert toDelete == PageIds(f, fetch, regex)(pages[i]);
      var requests := RequestEvents(toDelete);
      events := events + requests;
      events := events + [ShowProgress(Some(Progress(i + 1, |pages|)))];
    }
  }

  class RegionsPage {
    /** Delete requests and progress updates, oldest first. */
    var log: seq<Event>
    var bulkDeleting: bool
    var confirmDeleteFiltered: bool
    /** The region open in the properties panel. */
    var selectedRegion: Option<string>

    constructor(selected: Option<string>)
      ensures log == [] && !bulkDeleting && !confirmDeleteFiltered && selectedRegion == selected
    {
      log := [];
      bulkDeleting, confirmDeleteFiltered := false, false;
      selectedRegion := selected;
    }

    /** Deletes the filtered regions of the page, counting them off one by one. */
    method DeletePageRegions(ids: seq<string>)
      modifies this
      ensures log == old(log) + PageRun(ids, |ids|)
      ensures selectedRegion == if old(selectedRegion).Some? && old(selectedRegion).value in ids then None else old(selectedRegion)
      ensures bulkDeleting == old(bulkDeleting) && confirmDeleteFiltered == old(confirmDeleteFiltered)
    {
      var events := log + [ShowProgress(Some(Progress(0, |ids|)))];
      for i := 0 to |ids|
        invariant events == log + PageRun(ids, i)
      {
        events := events + [DeleteRequest(ids[i])] + [ShowProgress(Some(Progress(i + 1, |ids|)))];
      }
      log := events;
      if selectedRegion.Some? && selectedRegion.value in ids {
        selectedRegion := None;
      }
    }

    /** The page loop of the project-wide delete: each page fetched, its filtered regions deleted, then the count advanced. */
    method DeletePages(f: Filter, pages: seq<int>, fetch: int -> seq<TextRegion>, regex: (string, string, bool) -> OcrFilters.RegexOutcome)
      modifies this
      ensures log == old(log) + ProjectRun(pages, |pages|, PageIds(f, fetch, regex))
      ensures selectedRegion == old(selectedRegion)
      ensures bulkDeleting == old(bulkDeleting) && confirmDeleteFiltered == old(confirmDeleteFiltered)
    {
      var events := PagesEvents(f, pages, fetch, regex);
      log := log + events;
    }

    /**
     * Deletes the filtered regions of every page, each page's regions as
     * fetched; the progress counts pages.  The selected region is closed
     * when the current page, fetched again, no longer has it: the page as
     * first fetched without the ids deleted.
     */
    method DeleteProjectRegions(f: Filter, pages: seq<int>, fetch: int -> seq<TextRegion>, selectedPage: int,
                                regex: (string, string, bool) -> OcrFilters.RegexOutcome)
      modifies this
      ensures log == old(log) + ProjectRun(pages, |pages|, PageIds(f, fetch, regex))
      ensures selectedRegion == if old(selectedRegion).Some? && !StillThere(old(selectedRegion).value, fetch(selectedPage), ProjectDeletes(f, pages, fetch, regex))
                                then None else old(selectedRegion)
      ensures bulkDeleting == old(bulkDeleting) && confirmDeleteFiltered == old(confirmDeleteFiltered)
    {
      DeletePages(f, pages, fetch, regex);
      if selectedRegion.Some? {
        // the server's copy of the page no longer holds the deleted ids
        var stillExists := StillThere(selectedRegion.value, fetch(selectedPage), ProjectDeletes(f, pages, fetch, regex));
        if !stillExists {
          selectedRegion := None;
        }
      }
    }

    /**
     * `bulkDeleteFiltered`: nothing without a project or with a blank
     * filter; otherwise the busy flag and a hidden progress, the deletes
     * of the chosen scope, then the flags cleared and the progress hidden.
     */
    method BulkDeleteFiltered(projectId: Option<string>, f: Filter, scope: Scope, regions: seq<TextRegion>,
                              pages: seq<int>, fetch: int -> seq<TextRegion>, selectedPage: int,
                              regex: (string, string, bool) -> OcrFilters.RegexOutcome)
      modifies this
      ensures projectId.None? || Blank(f.text) ==>
        log == old(log) && selectedRegion == old(selectedRegion)
        && bulkDeleting == old(bulkDeleting) && confirmDeleteFiltered == old(confirmDeleteFiltered)
      ensures projectId.Some? && !Blank(f.text) ==>
        !bulkDeleting && !confirmDeleteFiltered
        && (scope == PageScope ==>
              var ids := PageDeletes(f, regions, regex);
              log == old(log) + [ShowProgress(None)] + PageRun(ids, |ids|) + [ShowProgress(None)]
              && selectedRegion == if old(selectedRegion).Some? && old(selectedRegion).value in ids then None else old(selectedRegion))
        && (scope == ProjectScope ==>
              log == old(log) + [ShowProgress(None)] + ProjectRun(pages, |pages|, PageIds(f, fetch, regex)) + [ShowProgress(None)]
              && selectedRegion == if old(selectedRegion).Some? && !StillThere(old(selectedRegion).value, fetch(selectedPage), ProjectDeletes(f, pages, fetch, regex))
                                   then None else old(selectedRegion))
    {
      if projectId.None? || Blank(f.text) {
        return;
      }
      bulkDeleting := true;
      log := log + [ShowProgress(None)];
      if scope == PageScope {
        var idsToDelete := PageDeletes(f, regions, regex);
        DeletePageRegions(idsToDelete);
      } else {
        DeleteProjectRegions(f, pages, fetch, selectedPage, regex);
      }
      bulkDeleting := false;
      confirmDeleteFiltered := false;
      log := log + [ShowProgress(None)];
    }
  }

  /** The region is on the page as fetched and was not deleted. */
  predicate StillThere(id: string, page: seq<TextRegion>, deleted: seq<string>)
  {
    (exists i :: 0 <= i < |page| && page[i].id == id) && id !in deleted
  }

  /** A page-scope delete asks to delete exactly the ids of the regions the filter matches. */
  lemma PageDeleteIsFiltered(f: Filter, regions: seq<TextRegion>, regex: (string, string, bool) -> OcrFilters.RegexOutcome, id: string)
    ensures id in DeletedIds(PageRun(PageDeletes(f, regions, regex), |PageDeletes(f, regions, regex)|))
            <==> exists i :: 0 <= i < |regions| && regions[i].id == id && Matches(f, regions[i], regex)
  {
    var ids := PageDeletes(f, regions, regex);
    ReadPageRun(ids, |ids|);
    assert ids[..|ids|] == ids;
    var rs := Filtered(f, regions, regex);
    FilteredMembers(f, regions, regex);
    if id in ids {
      var k :| 0 <= k < |rs| && ids[k] == id;
      assert rs[k] in rs;
      var i :| 0 <= i < |regions| && regions[i] == rs[k];
    }
    if exists i :: 0 <= i < |regions| && regions[i].id == id && Matches(f, regions[i], regex) {
      var i :| 0 <= i < |regions| && regions[i].id == id && Matches(f, regions[i], regex);
      assert regions[i] in rs;
      var k :| 0 <= k < |rs| && rs[k] == regions[i];
      assert ids[k] == id;
    }
  }

  /** A project-scope delete asks to delete each page's filtered ids, page by page, and counts the pages 0 to the total. */
  lemma ProjectDeleteReads(f: Filter, pages: seq<int>, fetch: int -> seq<TextRegion>, regex: (string, string, bool) -> OcrFilters.RegexOutcome)
    ensures DeletedIds(ProjectRun(pages, |pages|, PageIds(f, fetch, regex))) == ProjectDeletes(f, pages, fetch, regex)
    ensures |Shown(ProjectRun(pages, |pages|, PageIds(f, fetch, regex)))| == |pages| + 1
    ensures forall i :: 0 <= i <= |pages| ==> Shown(ProjectRun(pages, |pages|, PageIds(f, fetch, regex)))[i] == Some(Progress(i, |pages|))
  {
    ProjectRunDeletes(pages, |pages|, PageIds(f, fetch, regex));
    ProjectRunShows(pages, |pages|, PageIds(f, fetch, regex));
    CountsStep(|pages|, |pages|);
  }

  // ---------------------------------------------------------------- adding to a glossary

  /** A glossary entry as the page sends it. */
  datatype TermEntry = TermEntry(srcTerm: string, tgtTerm: string, locked: bool)

  datatype GlossaryScope = GlobalScope | LocalScope

  /** What adding a region to a glossary does. */
  datatype AddResult =
    | Skipped                            // no source text or no translation
    | AlreadyInGlobal
    | AlreadyInProject
    | SavedGlobal(entries: seq<TermEntry>)
    | SavedProject(entries: seq<TermEntry>)

  predicate HasTerm(entries: seq<TermEntry>, src: string)
  {
    exists i :: 0 <= i < |entries| && entries[i].srcTerm == src
  }

  /**
   * The add-to-glossary button: a term already in the global glossary is
   * refused for either scope, one already in the project's glossary for
   * the project scope; otherwise one locked entry is appended and saved.
   */
  function AddToGlossary(r: TextRegion, scope: GlossaryScope, global: seq<TermEntry>, local: seq<TermEntry>): (a: AddResult)
    ensures r.srcText == "" || OrEmpty(r.tgtText) == "" ==> a == Skipped
    ensures a.SavedGlobal? ==> scope == GlobalScope && !HasTerm(global, r.srcText)
                               && a.entries == global + [TermEntry(r.srcText, r.tgtText.value, true)]
    ensures a.SavedProject? ==> scope == LocalScope && !HasTerm(global, r.srcText) && !HasTerm(local, r.srcText)
                                && a.entries == local + [TermEntry(r.srcText, r.tgtText.value, true)]
    ensures a == AlreadyInGlobal <==> r.srcText != "" && OrEmpty(r.tgtText) != "" && HasTerm(global, r.srcText)
    ensures a == AlreadyInProject <==> r.srcText != "" && OrEmpty(r.tgtText) != "" && scope == LocalScope
                                       && !HasTerm(global, r.srcText) && HasTerm(local, r.srcText)
  {
    if r.srcText == "" || OrEmpty(r.tgtText) == "" then Skipped
    else if HasTerm(global, r.srcText) then AlreadyInGlobal
    else if scope.GlobalScope? then SavedGlobal(global + [TermEntry(r.srcText, r.tgtText.value, true)])
    else if HasTerm(local, r.srcText) then AlreadyInProject
    else SavedProject(local + [TermEntry(r.srcText, r.tgtText.value, true)])
  }

  /** Adding never creates a duplicate: the glossary saved holds the term exactly once, as its last entry. */
  lemma AddNeverDuplicates(r: TextRegion, scope: GlossaryScope, global: seq<TermEntry>, local: seq<TermEntry>)
    ensures var a := AddToGlossary(r, scope, global, local);
      (a.SavedGlobal? || a.SavedProject?) ==>
        forall i :: 0 <= i < |a.entries| && a.entries[i].srcTerm == r.srcText ==> i == |a.entries| - 1
  {
    var a := AddToGlossary(r, scope, global, local);
    if a.SavedGlobal? {
      forall i | 0 <= i < |a.entries| - 1 ensures a.entries[i].srcTerm != r.srcText {
        assert a.entries[i] == global[i];
      }
    } else if a.SavedProject? {
      forall i | 0 <= i < |a.entries| - 1 ensures a.entries[i].srcTerm != r.srcText {
        assert a.entries[i] == local[i];
      }
    }
  }
}
