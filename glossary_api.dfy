/**
 * The project glossary endpoints: replacing a project's glossary, with its
 * two refusals, and applying the glossary map to every unlocked region of
 * the project's pages.  The background sync to the remote store is not
 * modelled.
 */
module GlossaryApi {
  import opened Wrappers
  import opened Models
  import opened PyDict
  import opened Repository
  import GlobalGlossary
  import opened GlossaryApply
  import PagesApi

  // ---------------------------------------------------------------- update_glossary

  /** `{e.src_term for e in entries}` */
  function SrcTerms(es: seq<GlossaryEntry>): (ts: set<string>)
    ensures forall t :: t in ts <==> exists i :: 0 <= i < |es| && es[i].srcTerm == t
  {
    set i | 0 <= i < |es| :: es[i].srcTerm
  }

  /** The first request entry whose term is already global, or -1. */
  function FirstClash(entries: seq<EntryInput>, terms: set<string>, n: nat): (k: int)
    requires n <= |entries|
    ensures k == -1 || (0 <= k < n && entries[k].srcTerm in terms)
    ensures forall j :: 0 <= j < n && (k == -1 || j < k) ==> entries[j].srcTerm !in terms
  {
    if n == 0 then -1
    else
      var k := FirstClash(entries, terms, n - 1);
      if k >= 0 then k else if entries[n - 1].srcTerm in terms then n - 1 else -1
  }

  /** The answer `update_glossary` gives before replacing anything. */
  function UpdateCheck(project: Option<Project>, entries: seq<EntryInput>, existing: seq<GlossaryEntry>,
                       globalEntries: seq<GlossaryEntry>): PagesApi.Response
  {
    if project.None? then PagesApi.NotFound("Project not found")
    else if |entries| == 0 && |existing| > 0 then
      PagesApi.BadRequest("Refusing to overwrite non-empty glossary with empty entries")
    else ClashCheck(entries, globalEntries)
  }

  /** The last refusal: a requested term that is already a global term. */
  function ClashCheck(entries: seq<EntryInput>, globalEntries: seq<GlossaryEntry>): PagesApi.Response
  {
    var k := FirstClash(entries, SrcTerms(globalEntries), |entries|);
    if k >= 0 then PagesApi.BadRequest("Term already exists in global glossary: " + entries[k].srcTerm)
    else PagesApi.Ok
  }

  /**
   * The update goes through iff the project exists, the request does not
   * empty a non-empty glossary, and no requested term is a global term,
   * locked or not.
   */
  lemma UpdateCheckOk(project: Option<Project>, entries: seq<EntryInput>, existing: seq<GlossaryEntry>,
                      globalEntries: seq<GlossaryEntry>)
    ensures UpdateCheck(project, entries, existing, globalEntries) == PagesApi.Ok <==>
      project.Some? && !(|entries| == 0 && |existing| > 0)
      && forall i, j :: 0 <= i < |entries| && 0 <= j < |globalEntries| ==> entries[i].srcTerm != globalEntries[j].srcTerm
    ensures project.None? <==> UpdateCheck(project, entries, existing, globalEntries).NotFound?
  {
    var terms := SrcTerms(globalEntries);
    var k := FirstClash(entries, terms, |entries|);
    if k >= 0 {
      var j :| 0 <= j < |globalEntries| && globalEntries[j].srcTerm == entries[k].srcTerm;
    }
  }

  /** The loop of `update_glossary` over the requested entries: the first one whose term is global, or -1. */
  method FindClash(entries: seq<EntryInput>, terms: set<string>) returns (k: int)
    ensures k == FirstClash(entries, terms, |entries|)
  {
    for i := 0 to |entries|
      invariant FirstClash(entries, terms, i) == -1
    {
      if entries[i].srcTerm in terms {
        return i;
      }
    }
    return -1;
  }

  /** `update_glossary` */
  method UpdateGlossary(projects: ProjectsRepository, glossary: GlossaryRepository,
                        global: GlobalGlossary.GlobalGlossaryRepository,
                        pid: string, entries: seq<EntryInput>, loadId: nat -> string, newId: nat -> string)
    returns (r: PagesApi.Response)
    requires glossary.Valid() && global.Valid()
    modifies glossary, global
    ensures glossary.Valid() && global.Valid()
    ensures r == UpdateCheck(PyDict.Get(projects.cache, pid), entries, Values(ProjectDict(old(glossary.cache), pid)),
                             Values(global.cache))
    ensures r != PagesApi.Ok ==> ProjectDict(glossary.cache, pid) == ProjectDict(old(glossary.cache), pid)
    ensures r == PagesApi.Ok ==>
      glossary.cache == Put(Loaded(old(glossary.cache), pid), pid, ReplacedGlossary(pid, entries, newId))
  {
    var project := projects.Get(pid);
    if project.None? {
      return PagesApi.NotFound("Project not found");
    }
    ghost var before := glossary.cache;
    var existing := glossary.ListByProject(pid);
    LoadedValid(before, pid);
    assert ProjectDict(glossary.cache, pid) == ProjectDict(before, pid);
    if |entries| == 0 && |existing| > 0 {
      return PagesApi.BadRequest("Refusing to overwrite non-empty glossary with empty entries");
    }
    r := ReplaceUnlessGlobal(glossary, global, pid, entries, loadId, newId);
  }

  /** The global-term check of `update_glossary`, then the replacement when it passes. */
  method ReplaceUnlessGlobal(glossary: GlossaryRepository, global: GlobalGlossary.GlobalGlossaryRepository,
                             pid: string, entries: seq<EntryInput>, loadId: nat -> string, newId: nat -> string)
    returns (r: PagesApi.Response)
    requires glossary.Valid() && global.Valid()
    modifies glossary, global
    ensures glossary.Valid() && global.Valid()
    ensures r == ClashCheck(entries, Values(global.cache))
    ensures r != PagesApi.Ok ==> glossary.cache == old(glossary.cache)
    ensures r == PagesApi.Ok ==> glossary.cache == Put(old(glossary.cache), pid, ReplacedGlossary(pid, entries, newId))
  {
    var globalEntries := global.ListAll(loadId);
    var terms := SrcTerms(globalEntries);
    var k := FindClash(entries, terms);
    if k >= 0 {
      return PagesApi.BadRequest("Term already exists in global glossary: " + entries[k].srcTerm);
    }
    glossary.ReplaceForProject(pid, entries, newId);
    return PagesApi.Ok;
  }

  // ---------------------------------------------------------------- apply_glossary

  /** Whether `apply_glossary` rewrites the region. */
  predicate Applies(r: TextRegion, m: map<string, string>)
  {
    !r.locked && r.srcText in m
  }

  /** How many of `rs[..n]` the glossary applies to. */
  function MatchCount(rs: seq<TextRegion>, m: map<string, string>, n: nat): (c: nat)
    requires n <= |rs|
    ensures c <= n
  {
    if n == 0 then 0 else MatchCount(rs, m, n - 1) + (if Applies(rs[n - 1], m) then 1 else 0)
  }

  /** How many regions of one page of a project, its regions `vs` in dictionary order, the glossary applies to. */
  function PageCount(vs: seq<TextRegion>, m: map<string, string>, page: int): nat
  {
    var rs := OnPage(vs, page);
    MatchCount(rs, m, |rs|)
  }

  /** `updated_count` after pages `0..p-1` of a project whose regions are `vs`. */
  function PagesCount(vs: seq<TextRegion>, m: map<string, string>, p: nat): nat
  {
    if p == 0 then 0 else PagesCount(vs, m, p - 1) + PageCount(vs, m, p - 1)
  }

  /** Two regions that differ at most in their translation. */
  predicate SameButTgt(a: TextRegion, b: TextRegion)
  {
    a.(tgtText := b.tgtText) == b
  }

  ghost predicate SameButTgtSeq(as_: seq<TextRegion>, bs: seq<TextRegion>)
  {
    |as_| == |bs| && forall i :: 0 <= i < |as_| ==> SameButTgt(as_[i], bs[i])
  }

  ghost predicate SameButTgtDict(d: Dict<string, TextRegion>, e: Dict<string, TextRegion>)
  {
    d.keys == e.keys && d.m.Keys == e.m.Keys && forall k :: k in d.m ==> SameButTgt(d.m[k], e.m[k])
  }

  /** Two caches with the same projects and regions in the same order, differing at most in translations. */
  ghost predicate SameButTgtCache(c: Cache<string, TextRegion>, e: Cache<string, TextRegion>)
  {
    c.keys == e.keys && c.m.Keys == e.m.Keys && forall p :: p in c.m ==> SameButTgtDict(c.m[p], e.m[p])
  }

  lemma SameButTgtRefl(c: Cache<string, TextRegion>)
    ensures SameButTgtCache(c, c)
  {
  }

  lemma {:induction false} SameButTgtOnPage(as_: seq<TextRegion>, bs: seq<TextRegion>, page: int)
    requires SameButTgtSeq(as_, bs)
    ensures SameButTgtSeq(OnPage(as_, page), OnPage(bs, page))
  {
    if as_ != [] {
      SameButTgtOnPage(as_[1..], bs[1..], page);
    }
  }

  lemma {:induction false} SameButTgtCount(as_: seq<TextRegion>, bs: seq<TextRegion>, m: map<string, string>, n: nat)
    requires SameButTgtSeq(as_, bs) && n <= |as_|
    ensures MatchCount(as_, m, n) == MatchCount(bs, m, n)
  {
    if n > 0 {
      SameButTgtCount(as_, bs, m, n - 1);
    }
  }

  /** Listing a page of caches that differ only in translations finds the same number of regions to rewrite. */
  lemma SameButTgtPage(c: Cache<string, TextRegion>, e: Cache<string, TextRegion>, pid: string, page: int, m: map<string, string>)
    requires CacheValid(c) && CacheValid(e) && SameButTgtCache(c, e) && pid in c.m
    ensures PageCount(Values(e.m[pid]), m, page) == PageCount(Values(c.m[pid]), m, page)
  {
    SameButTgtOnPage(Values(c.m[pid]), Values(e.m[pid]), page);
    var a := OnPage(Values(c.m[pid]), page);
    var b := OnPage(Values(e.m[pid]), page);
    SameButTgtCount(a, b, m, |a|);
  }

  lemma SameButTgtTrans(a: TextRegion, b: TextRegion, u: TextRegion)
    requires SameButTgt(a, b) && SameButTgt(b, u)
    ensures SameButTgt(a, u)
  {
  }

  lemma DictUpdateSame(d0: Dict<string, TextRegion>, d: Dict<string, TextRegion>, rid: string, u: TextRegion)
    requires SameButTgtDict(d0, d) && rid in d.m && SameButTgt(d.m[rid], u)
    ensures SameButTgtDict(d0, Put(d, rid, u))
  {
    var d1 := Put(d, rid, u);
    forall k | k in d0.m
      ensures SameButTgt(d0.m[k], d1.m[k])
    {
      if k == rid {
        SameButTgtTrans(d0.m[k], d.m[k], u);
      }
    }
  }

  /** A translation-only update of any region keeps a cache translation-equivalent. */
  lemma UpdateKeepsSame(c0: Cache<string, TextRegion>, c: Cache<string, TextRegion>, h: string, rid: string, t: string)
    requires SameButTgtCache(c0, c) && h in c.m && rid in c.m[h].m
    ensures var u := ApplyRegionPatch(c.m[h].m[rid], RegionPatch(Some(t), None, None, None, None));
      SameButTgtCache(c0, Put(c, h, Put(c.m[h], rid, u)))
  {
    var u := ApplyRegionPatch(c.m[h].m[rid], RegionPatch(Some(t), None, None, None, None));
    assert SameButTgt(c.m[h].m[rid], u);
    DictUpdateSame(c0.m[h], c.m[h], rid, u);
    var c1 := Put(c, h, Put(c.m[h], rid, u));
    forall p | p in c0.m
      ensures SameButTgtDict(c0.m[p], c1.m[p])
    {
    }
  }

  // ---------------------------------------------------------------- which translation lands

  /** Project `p` files a region under key `k`. */
  predicate Filed(c: Cache<string, TextRegion>, p: string, k: string)
  {
    p in c.m && k in c.m[p].m
  }

  /**
   * Every stored region sits under its own id, as loading and
   * `replace_for_page` file them, and no id is filed for two projects, as
   * fresh uuids make it; then `update(region.id, ...)` reaches the very
   * region `list_by_page` handed out.
   */
  ghost predicate WellKeyed(c: Cache<string, TextRegion>)
  {
    (forall p, k {:trigger Filed(c, p, k)} :: Filed(c, p, k) ==> c.m[p].m[k].id == k)
    && (forall p, q, k {:trigger Filed(c, p, k), Filed(c, q, k)} :: Filed(c, p, k) && Filed(c, q, k) ==> p == q)
  }

  lemma WellKeyedSame(c0: Cache<string, TextRegion>, c: Cache<string, TextRegion>)
    requires WellKeyed(c0) && SameButTgtCache(c0, c)
    ensures WellKeyed(c)
  {
    forall p, k | Filed(c, p, k)
      ensures c.m[p].m[k].id == k
    {
      assert Filed(c0, p, k);
      assert SameButTgt(c0.m[p].m[k], c.m[p].m[k]);
    }
    forall p, q, k | Filed(c, p, k) && Filed(c, q, k)
      ensures p == q
    {
      assert Filed(c0, p, k) && Filed(c0, q, k);
    }
  }

  /** Loading a project that was not cached adds an empty dictionary, which files nothing. */
  lemma WellKeyedLoaded(c: Cache<string, TextRegion>, pid: string)
    requires WellKeyed(c)
    ensures WellKeyed(Loaded(c, pid))
  {
    var l := Loaded(c, pid);
    forall p, k | Filed(l, p, k)
      ensures l.m[p].m[k].id == k
    {
      assert Filed(c, p, k);
    }
    forall p, q, k | Filed(l, p, k) && Filed(l, q, k)
      ensures p == q
    {
      assert Filed(c, p, k) && Filed(c, q, k);
    }
  }

  /** On a well-keyed store, `update` finds an id of `pid` in `pid` itself. */
  lemma HolderIsProject(c: Cache<string, TextRegion>, pid: string, rid: string)
    requires CacheValid(c) && WellKeyed(c) && Filed(c, pid, rid)
    ensures FirstHolder(c, rid) == Some(pid)
  {
    var h := FirstHolder(c, rid);
    assert h.Some?;
    assert Filed(c, h.value, rid);
  }

  /** The regions filed under the keys `ks` rewritten by the glossary, every other region as it was. */
  function OverrideKeys(d: Dict<string, TextRegion>, ks: set<string>, m: map<string, string>): Dict<string, TextRegion>
  {
    Dict(d.keys, map k | k in d.m :: if k in ks then Override(d.m[k], m) else d.m[k])
  }

  /** The keys of the regions on page `page`. */
  function PageSet(d: Dict<string, TextRegion>, page: int): set<string>
  {
    set k | k in d.m && d.m[k].pageNumber == page
  }

  /** The keys of the regions on pages `0..n-1`. */
  function PagesBelow(d: Dict<string, TextRegion>, n: int): set<string>
  {
    set k | k in d.m && 0 <= d.m[k].pageNumber < n
  }

  /** The project's regions after `apply_glossary`: those of pages `0..pageCount-1` rewritten by the glossary, the rest as they were. */
  function Applied(d: Dict<string, TextRegion>, m: map<string, string>, pageCount: int): Dict<string, TextRegion>
  {
    OverrideKeys(d, PagesBelow(d, pageCount), m)
  }

  /** The ids of `rs[..n]`. */
  function IdsUpTo(rs: seq<TextRegion>, n: nat): set<string>
    requires n <= |rs|
  {
    if n == 0 then {} else IdsUpTo(rs, n - 1) + {rs[n - 1].id}
  }

  lemma {:induction false} IdsUpToMembers(rs: seq<TextRegion>, n: nat, k: string)
    requires n <= |rs|
    ensures k in IdsUpTo(rs, n) <==> exists i :: 0 <= i < n && rs[i].id == k
  {
    if n > 0 {
      IdsUpToMembers(rs, n - 1, k);
    }
  }

  /** Every listed region is the one filed under its id in `d`. */
  ghost predicate Listed(d: Dict<string, TextRegion>, rs: seq<TextRegion>)
  {
    forall i :: 0 <= i < |rs| ==> rs[i].id in d.m && d.m[rs[i].id] == rs[i]
  }

  /** A rewrite is idempotent, and the rewrites of two key sets add up. */
  lemma OverrideKeysTwice(d: Dict<string, TextRegion>, a: set<string>, b: set<string>, m: map<string, string>)
    ensures OverrideKeys(OverrideKeys(d, a, m), b, m) == OverrideKeys(d, a + b, m)
  {
    assert OverrideKeys(OverrideKeys(d, a, m), b, m).m == OverrideKeys(d, a + b, m).m;
  }

  /** Rewriting the project twice is rewriting it once, in the outer cache. */
  lemma PutTwice(c: Cache<string, TextRegion>, pid: string, d: Dict<string, TextRegion>, e: Dict<string, TextRegion>)
    requires pid in c.m
    ensures Put(Put(c, pid, d), pid, e) == Put(c, pid, e)
  {
  }

  /** Rewriting no key changes nothing. */
  lemma OverrideNone(c: Cache<string, TextRegion>, pid: string, m: map<string, string>)
    requires pid in c.m
    ensures Put(c, pid, OverrideKeys(c.m[pid], {}, m)) == c
  {
    assert OverrideKeys(c.m[pid], {}, m) == c.m[pid];
  }

  /** Rewriting one key the glossary applies to is writing that one translation. */
  lemma OverrideOne(d: Dict<string, TextRegion>, k: string, m: map<string, string>)
    requires k in d.m && Applies(d.m[k], m)
    ensures OverrideKeys(d, {k}, m) == Put(d, k, d.m[k].(tgtText := Some(m[d.m[k].srcText])))
  {
    var u := d.m[k].(tgtText := Some(m[d.m[k].srcText]));
    assert OverrideKeys(d, {k}, m).m == d.m[k := u];
  }

  /** Rewriting the glossary's matches in one project keeps the store valid and changes only translations. */
  lemma OverrideSame(c: Cache<string, TextRegion>, pid: string, s: set<string>, m: map<string, string>)
    requires CacheValid(c) && pid in c.m
    ensures var e := Put(c, pid, OverrideKeys(c.m[pid], s, m));
      CacheValid(e) && SameButTgtCache(c, e)
  {
    var d := OverrideKeys(c.m[pid], s, m);
    assert d.m.Keys == c.m[pid].m.Keys;
    PutProjectValid(c, pid, d);
    var e := Put(c, pid, d);
    forall p | p in c.m
      ensures SameButTgtDict(c.m[p], e.m[p])
    {
    }
  }

  /**
   * The store after one step of the inner loop: when the glossary applies
   * to the listed region, `update(region.id, ...)` rewrites the translation
   * of the region filed under that id in the first project holding it.
   */
  function RegionRun(c: Cache<string, TextRegion>, r: TextRegion, m: map<string, string>): (e: Cache<string, TextRegion>)
    requires CacheValid(c)
    ensures CacheValid(e) && e.m.Keys == c.m.Keys
  {
    if !Applies(r, m) then c
    else match FirstHolder(c, r.id)
      case None => c
      case Some(h) =>
        var d := Put(c.m[h], r.id, c.m[h].m[r.id].(tgtText := Some(m[r.srcText])));
        PutFacts(c.m[h], r.id, d.m[r.id]);
        PutProjectValid(c, h, d);
        Put(c, h, d)
  }

  /** The store after the inner loop has run over `rs[..j]`. */
  function RegionsRun(c: Cache<string, TextRegion>, rs: seq<TextRegion>, j: nat, m: map<string, string>): (e: Cache<string, TextRegion>)
    requires CacheValid(c) && j <= |rs|
    ensures CacheValid(e) && e.m.Keys == c.m.Keys
  {
    if j == 0 then c else RegionRun(RegionsRun(c, rs, j - 1, m), rs[j - 1], m)
  }

  lemma RegionsRunNext(c: Cache<string, TextRegion>, rs: seq<TextRegion>, j: nat, m: map<string, string>)
    requires CacheValid(c) && j < |rs|
    ensures RegionsRun(c, rs, j + 1, m) == RegionRun(RegionsRun(c, rs, j, m), rs[j], m)
  {
  }

  /**
   * On a well-keyed store the step for a listed region of `pid` rewrites
   * that region's key in `pid`, however far the loop has got.
   */
  lemma RegionStep(cs: Cache<string, TextRegion>, pid: string, cur: Cache<string, TextRegion>, r: TextRegion, m: map<string, string>)
    requires CacheValid(cur) && WellKeyed(cs) && SameButTgtCache(cs, cur)
    requires Filed(cs, pid, r.id) && cs.m[pid].m[r.id] == r
    ensures RegionRun(cur, r, m) == Put(cur, pid, OverrideKeys(cur.m[pid], {r.id}, m))
  {
    assert Filed(cs, pid, r.id);
    var e := cur.m[pid];
    var x := e.m[r.id];
    assert SameButTgt(r, x);
    if Applies(r, m) {
      assert FirstHolder(cur, r.id) == Some(pid) by {
        WellKeyedSame(cs, cur);
        assert Filed(cur, pid, r.id);
        HolderIsProject(cur, pid, r.id);
      }
      OverrideOne(e, r.id, m);
    } else {
      assert OverrideKeys(e, {r.id}, m).m == e.m;
      assert Put(cur, pid, e) == cur;
    }
  }

  /**
   * On a well-keyed store, running the inner loop over regions of `pid`
   * filed under their ids rewrites exactly those ids' regions by the glossary.
   */
  lemma {:induction false} RegionsRunAll(cs: Cache<string, TextRegion>, pid: string, rs: seq<TextRegion>, n: nat, m: map<string, string>)
    requires CacheValid(cs) && WellKeyed(cs) && pid in cs.m && n <= |rs| && Listed(cs.m[pid], rs)
    ensures RegionsRun(cs, rs, n, m) == Put(cs, pid, OverrideKeys(cs.m[pid], IdsUpTo(rs, n), m))
    decreases n, 1
  {
    if n == 0 {
      OverrideNone(cs, pid, m);
    } else {
      RegionsRunGrow(cs, pid, rs, n, m);
    }
  }

  lemma RegionsRunGrow(cs: Cache<string, TextRegion>, pid: string, rs: seq<TextRegion>, n: nat, m: map<string, string>)
    requires CacheValid(cs) && WellKeyed(cs) && pid in cs.m && 0 < n <= |rs| && Listed(cs.m[pid], rs)
    ensures RegionsRun(cs, rs, n, m) == Put(cs, pid, OverrideKeys(cs.m[pid], IdsUpTo(rs, n), m))
    decreases n, 0
  {
    RegionsRunAll(cs, pid, rs, n - 1, m);
    var cur := RegionsRun(cs, rs, n - 1, m);
    OverrideSame(cs, pid, IdsUpTo(rs, n - 1), m);
    assert Filed(cs, pid, rs[n - 1].id);
    RegionStep(cs, pid, cur, rs[n - 1], m);
    OverrideKeysTwice(cs.m[pid], IdsUpTo(rs, n - 1), {rs[n - 1].id}, m);
    PutTwice(cs, pid, cur.m[pid], OverrideKeys(cs.m[pid], IdsUpTo(rs, n), m));
  }

  /** Rewriting translations moves no region to another page. */
  lemma PageSetKept(d: Dict<string, TextRegion>, s: set<string>, page: int, m: map<string, string>)
    ensures PageSet(OverrideKeys(d, s, m), page) == PageSet(d, page)
  {
  }

  lemma PagesBelowNext(d: Dict<string, TextRegion>, n: nat)
    requires n > 0
    ensures PagesBelow(d, n - 1) + PageSet(d, n - 1) == PagesBelow(d, n)
  {
  }

  /** Rewriting page `n-1` after pages `0..n-2` is rewriting pages `0..n-1`. */
  lemma PageStep(d: Dict<string, TextRegion>, n: nat, m: map<string, string>)
    requires n > 0
    ensures var prev := Applied(d, m, n - 1);
      OverrideKeys(prev, PageSet(prev, n - 1), m) == Applied(d, m, n)
  {
    PageSetKept(d, PagesBelow(d, n - 1), n - 1, m);
    OverrideKeysTwice(d, PagesBelow(d, n - 1), PageSet(d, n - 1), m);
    PagesBelowNext(d, n);
  }

  /** The store after one page of `apply_glossary`: the inner loop over the page as listed. */
  function PageRun(c: Cache<string, TextRegion>, pid: string, page: int, m: map<string, string>): (e: Cache<string, TextRegion>)
    requires CacheValid(c) && pid in c.m
    ensures CacheValid(e) && e.m.Keys == c.m.Keys
  {
    var rs := OnPage(Values(c.m[pid]), page);
    RegionsRun(c, rs, |rs|, m)
  }

  /** The store after the outer loop has run over pages `0..n-1`. */
  function PagesRun(c: Cache<string, TextRegion>, pid: string, m: map<string, string>, n: nat): (e: Cache<string, TextRegion>)
    requires CacheValid(c) && pid in c.m
    ensures CacheValid(e) && e.m.Keys == c.m.Keys
  {
    if n == 0 then c else PageRun(PagesRun(c, pid, m, n - 1), pid, n - 1, m)
  }

  lemma PagesRunNext(c: Cache<string, TextRegion>, pid: string, m: map<string, string>, page: nat)
    requires CacheValid(c) && pid in c.m
    ensures PagesRun(c, pid, m, page + 1) == PageRun(PagesRun(c, pid, m, page), pid, page, m)
  {
  }

  lemma SameButTgtCacheTrans(a: Cache<string, TextRegion>, b: Cache<string, TextRegion>, c: Cache<string, TextRegion>)
    requires SameButTgtCache(a, b) && SameButTgtCache(b, c)
    ensures SameButTgtCache(a, c)
  {
    forall p | p in a.m
      ensures SameButTgtDict(a.m[p], c.m[p])
    {
      forall k | k in a.m[p].m
        ensures SameButTgt(a.m[p].m[k], c.m[p].m[k])
      {
        SameButTgtTrans(a.m[p].m[k], b.m[p].m[k], c.m[p].m[k]);
      }
    }
  }

  /** One step of the inner loop changes at most a translation. */
  lemma RegionRunSame(c: Cache<string, TextRegion>, r: TextRegion, m: map<string, string>)
    requires CacheValid(c)
    ensures SameButTgtCache(c, RegionRun(c, r, m))
  {
    SameButTgtRefl(c);
    if Applies(r, m) {
      var h := FirstHolder(c, r.id);
      if h.Some? {
        var x := c.m[h.value].m[r.id];
        assert ApplyRegionPatch(x, RegionPatch(Some(m[r.srcText]), None, None, None, None)) == x.(tgtText := Some(m[r.srcText]));
        UpdateKeepsSame(c, c, h.value, r.id, m[r.srcText]);
      }
    }
  }

  /** The inner loop over `rs[..j]` changes at most translations. */
  lemma {:induction false} RegionsRunSame(c: Cache<string, TextRegion>, rs: seq<TextRegion>, j: nat, m: map<string, string>)
    requires CacheValid(c) && j <= |rs|
    ensures SameButTgtCache(c, RegionsRun(c, rs, j, m))
  {
    if j == 0 {
      SameButTgtRefl(c);
    } else {
      var x := RegionsRun(c, rs, j - 1, m);
      RegionsRunSame(c, rs, j - 1, m);
      RegionRunSame(x, rs[j - 1], m);
      SameButTgtCacheTrans(c, x, RegionRun(x, rs[j - 1], m));
    }
  }

  lemma PageRunSame(c: Cache<string, TextRegion>, pid: string, page: int, m: map<string, string>)
    requires CacheValid(c) && pid in c.m
    ensures SameButTgtCache(c, PageRun(c, pid, page, m))
  {
    var rs := OnPage(Values(c.m[pid]), page);
    RegionsRunSame(c, rs, |rs|, m);
  }

  /** The outer loop over pages `0..n-1` changes at most translations. */
  lemma {:induction false} PagesRunSame(c: Cache<string, TextRegion>, pid: string, m: map<string, string>, n: nat)
    requires CacheValid(c) && pid in c.m
    ensures SameButTgtCache(c, PagesRun(c, pid, m, n))
    decreases n, 1
  {
    if n == 0 {
      SameButTgtRefl(c);
    } else {
      PagesRunSameGrow(c, pid, m, n);
    }
  }

  lemma PagesRunSameGrow(c: Cache<string, TextRegion>, pid: string, m: map<string, string>, n: nat)
    requires CacheValid(c) && pid in c.m && n > 0
    ensures SameButTgtCache(c, PagesRun(c, pid, m, n))
    decreases n, 0
  {
    PagesRunSame(c, pid, m, n - 1);
    PageRunKeepsSame(c, PagesRun(c, pid, m, n - 1), pid, n - 1, m);
  }

  lemma PageRunKeepsSame(c0: Cache<string, TextRegion>, c: Cache<string, TextRegion>, pid: string, page: int, m: map<string, string>)
    requires CacheValid(c) && pid in c.m && SameButTgtCache(c0, c)
    ensures SameButTgtCache(c0, PageRun(c, pid, page, m))
  {
    PageRunSame(c, pid, page, m);
    SameButTgtCacheTrans(c0, c, PageRun(c, pid, page, m));
  }

  /** On a well-keyed store one page rewrites exactly the regions on that page. */
  lemma PageRunWellKeyed(c: Cache<string, TextRegion>, pid: string, page: int, m: map<string, string>)
    requires CacheValid(c) && WellKeyed(c) && pid in c.m
    ensures PageRun(c, pid, page, m) == Put(c, pid, OverrideKeys(c.m[pid], PageSet(c.m[pid], page), m))
  {
    var rs := OnPage(Values(c.m[pid]), page);
    ListedPage(c, pid, page);
    RegionsRunAll(c, pid, rs, |rs|, m);
  }

  /**
   * On a well-keyed store the outer loop over pages `0..n-1` rewrites each
   * region of those pages by the glossary once, and nothing else.
   */
  lemma {:induction false} PagesRunApplied(c: Cache<string, TextRegion>, pid: string, m: map<string, string>, n: nat)
    requires CacheValid(c) && WellKeyed(c) && pid in c.m
    ensures PagesRun(c, pid, m, n) == Put(c, pid, Applied(c.m[pid], m, n))
    decreases n, 1
  {
    if n == 0 {
      assert PagesBelow(c.m[pid], 0) == {};
      OverrideNone(c, pid, m);
    } else {
      PagesRunGrow(c, pid, m, n);
    }
  }

  lemma PagesRunGrow(c: Cache<string, TextRegion>, pid: string, m: map<string, string>, n: nat)
    requires CacheValid(c) && WellKeyed(c) && pid in c.m && n > 0
    ensures PagesRun(c, pid, m, n) == Put(c, pid, Applied(c.m[pid], m, n))
    decreases n, 0
  {
    var d := c.m[pid];
    var prev := Applied(d, m, n - 1);
    var cur := PagesRun(c, pid, m, n - 1);
    assert cur == Put(c, pid, prev) by {
      PagesRunApplied(c, pid, m, n - 1);
    }
    assert CacheValid(cur) && WellKeyed(cur) by {
      OverrideSame(c, pid, PagesBelow(d, n - 1), m);
      WellKeyedSame(c, cur);
    }
    assert cur.m[pid] == prev;
    assert PageRun(cur, pid, n - 1, m) == Put(cur, pid, OverrideKeys(cur.m[pid], PageSet(cur.m[pid], n - 1), m)) by {
      PageRunWellKeyed(cur, pid, n - 1, m);
    }
    assert OverrideKeys(prev, PageSet(prev, n - 1), m) == Applied(d, m, n) by {
      PageStep(d, n, m);
    }
    PutTwice(c, pid, prev, Applied(d, m, n));
  }

  /** One turn of the outer loop of `apply_glossary`: the store and the count after page `page`. */
  lemma PagesStep(cs: Cache<string, TextRegion>, pid: string, m: map<string, string>, page: nat,
                  before: Cache<string, TextRegion>, after: Cache<string, TextRegion>,
                  vs: seq<TextRegion>, count: nat, n: nat)
    requires CacheValid(cs) && pid in cs.m && before == PagesRun(cs, pid, m, page)
    requires after == PageRun(before, pid, page, m)
    requires vs == Values(cs.m[pid]) && count == PagesCount(vs, m, page) && n == PageCount(Values(before.m[pid]), m, page)
    ensures after == PagesRun(cs, pid, m, page + 1) && pid in after.m
    ensures count + n == PagesCount(vs, m, page + 1)
  {
    PagesRunNext(cs, pid, m, page);
    PagesRunSame(cs, pid, m, page);
    SameButTgtPage(cs, before, pid, page, m);
    PagesCountNext(vs, m, page, count, n);
  }

  lemma PagesCountNext(vs: seq<TextRegion>, m: map<string, string>, page: nat, before: nat, n: nat)
    requires before == PagesCount(vs, m, page) && n == PageCount(vs, m, page)
    ensures before + n == PagesCount(vs, m, page + 1)
  {
  }

  /** The count `apply_glossary` reports: every rewritable region of pages `0..page_count-1`, whatever its current text. */
  function ApplyCount(d: Dict<string, TextRegion>, m: map<string, string>, pageCount: int): nat
    requires PyDict.Valid(d)
  {
    if pageCount <= 0 then 0 else PagesCount(Values(d), m, pageCount)
  }

  /** The body of `apply_glossary`'s inner loop: rewrite one region's translation if the glossary applies to it. */
  method ApplyToRegion(regionsRepo: TextRegionsRepository, region: TextRegion, m: map<string, string>,
                       ghost c0: Cache<string, TextRegion>)
    returns (applied: bool)
    requires regionsRepo.Valid() && SameButTgtCache(c0, regionsRepo.cache)
    modifies regionsRepo
    ensures regionsRepo.Valid() && SameButTgtCache(c0, regionsRepo.cache)
    ensures applied == Applies(region, m)
    ensures !applied ==> regionsRepo.cache == old(regionsRepo.cache)
    ensures applied ==> match FirstHolder(old(regionsRepo.cache), region.id)
      case None => regionsRepo.cache == old(regionsRepo.cache)
      case Some(h) =>
        var c := old(regionsRepo.cache);
        regionsRepo.cache == Put(c, h, Put(c.m[h], region.id, c.m[h].m[region.id].(tgtText := Some(m[region.srcText]))))
  {
    applied := !region.locked && region.srcText in m;
    if applied {
      ghost var c := regionsRepo.cache;
      ghost var holder := FirstHolder(c, region.id);
      if holder.Some? {
        UpdateKeepsSame(c0, c, holder.value, region.id, m[region.srcText]);
      }
      var _ := regionsRepo.Update(region.id, RegionPatch(Some(m[region.srcText]), None, None, None, None));
    }
  }

  /** On a well-keyed store a page lists the regions filed under their ids, and those ids are the page's keys. */
  lemma ListedPage(c: Cache<string, TextRegion>, pid: string, page: int)
    requires CacheValid(c) && WellKeyed(c) && pid in c.m
    ensures var d := c.m[pid];
      var rs := OnPage(Values(d), page);
      Listed(d, rs) && IdsUpTo(rs, |rs|) == PageSet(d, page)
  {
    var d := c.m[pid];
    var rs := OnPage(Values(d), page);
    PageKeysFacts(d, page);
    var ks := PageKeys(d.keys, d.m, page);
    forall i | 0 <= i < |rs|
      ensures rs[i] == d.m[ks[i]] && rs[i].id == ks[i]
    {
      assert Filed(c, pid, ks[i]);
    }
    assert forall k :: k in ks <==> k in d.m && d.m[k].pageNumber == page;
    IdsOfKeys(d, page, rs, ks);
  }

  /** Regions listed with their own keys as ids have exactly the page's keys as ids. */
  lemma IdsOfKeys(d: Dict<string, TextRegion>, page: int, rs: seq<TextRegion>, ks: seq<string>)
    requires |rs| == |ks| && forall i :: 0 <= i < |rs| ==> rs[i].id == ks[i]
    requires forall k :: k in ks <==> k in d.m && d.m[k].pageNumber == page
    ensures IdsUpTo(rs, |rs|) == PageSet(d, page)
  {
    forall k
      ensures k in IdsUpTo(rs, |rs|) <==> k in PageSet(d, page)
    {
      IdsUpToMembers(rs, |rs|, k);
      if k in PageSet(d, page) {
        var i :| 0 <= i < |ks| && ks[i] == k;
        assert rs[i].id == k;
      }
    }
  }

  /** One page of `apply_glossary`: `list_by_page`, then the inner loop over what it listed. */
  method ApplyToPage(regionsRepo: TextRegionsRepository, pid: string, page: int, m: map<string, string>)
    returns (count: nat)
    requires regionsRepo.Valid() && pid in regionsRepo.cache.m
    modifies regionsRepo
    ensures regionsRepo.Valid()
    ensures count == PageCount(Values(old(regionsRepo.cache).m[pid]), m, page)
    ensures regionsRepo.cache == PageRun(old(regionsRepo.cache), pid, page, m)
  {
    ghost var c0 := regionsRepo.cache;
    ghost var d := c0.m[pid];
    SameButTgtRefl(c0);
    assert Loaded(c0, pid) == c0;
    var regions := regionsRepo.ListByPage(pid, page);
    assert regions == OnPage(Values(d), page);
    count := ApplyToRegions(regionsRepo, regions, m, c0);
  }

  /** The inner loop of `apply_glossary`, over the regions of one page as listed. */
  method ApplyToRegions(regionsRepo: TextRegionsRepository, regions: seq<TextRegion>, m: map<string, string>,
                        ghost c0: Cache<string, TextRegion>)
    returns (count: nat)
    requires regionsRepo.Valid() && SameButTgtCache(c0, regionsRepo.cache)
    modifies regionsRepo
    ensures regionsRepo.Valid() && SameButTgtCache(c0, regionsRepo.cache)
    ensures count == MatchCount(regions, m, |regions|)
    ensures regionsRepo.cache == RegionsRun(old(regionsRepo.cache), regions, |regions|, m)
  {
    count := 0;
    ghost var cs := regionsRepo.cache;
    for j := 0 to |regions|
      invariant regionsRepo.Valid() && SameButTgtCache(c0, regionsRepo.cache)
      invariant count == MatchCount(regions, m, j)
      invariant regionsRepo.cache == RegionsRun(cs, regions, j, m)
    {
      var applied := ApplyToRegion(regionsRepo, regions[j], m, c0);
      RegionsRunNext(cs, regions, j, m);
      if applied {
        count := count + 1;
      }
    }
  }

  /** The outer loop of `apply_glossary`, over pages `0..pageCount-1`. */
  method ApplyToPages(regionsRepo: TextRegionsRepository, pid: string, pageCount: nat, m: map<string, string>)
    returns (count: nat)
    requires regionsRepo.Valid() && pid in regionsRepo.cache.m
    modifies regionsRepo
    ensures regionsRepo.Valid()
    ensures count == PagesCount(Values(old(regionsRepo.cache).m[pid]), m, pageCount)
    ensures regionsRepo.cache == PagesRun(old(regionsRepo.cache), pid, m, pageCount)
  {
    count := 0;
    ghost var cs := regionsRepo.cache;
    ghost var vs := Values(cs.m[pid]);
    for page := 0 to pageCount
      invariant regionsRepo.Valid() && pid in regionsRepo.cache.m
      invariant regionsRepo.cache == PagesRun(cs, pid, m, page)
      invariant count == PagesCount(vs, m, page)
    {
      ghost var before := regionsRepo.cache;
      var n := ApplyToPage(regionsRepo, pid, page, m);
      PagesStep(cs, pid, m, page, before, regionsRepo.cache, vs, count, n);
      count := count + n;
    }
  }

  /**
   * `apply_glossary`: 404 for an unknown project; otherwise every update is
   * translation-only, and the count is the number of unlocked regions of
   * pages `0..page_count-1` whose text is a key, counted once each even
   * when the translation was already equal.
   */
  method ApplyGlossary(projects: ProjectsRepository, regionsRepo: TextRegionsRepository, glossary: GlossaryRepository,
                       global: GlobalGlossary.GlobalGlossaryRepository, pid: string, loadId: nat -> string)
    returns (r: PagesApi.Response, updatedCount: nat)
    requires regionsRepo.Valid() && glossary.Valid() && global.Valid()
    modifies regionsRepo, glossary, global
    ensures regionsRepo.Valid() && glossary.Valid() && global.Valid()
    ensures r == PagesApi.Ok <==> PyDict.Get(projects.cache, pid).Some?
    ensures r != PagesApi.Ok ==> r.NotFound? && regionsRepo.cache == old(regionsRepo.cache)
    ensures r == PagesApi.Ok ==>
      var m := GlossaryMap(Values(global.cache), Values(ProjectDict(old(glossary.cache), pid)));
      var pageCount := projects.cache.m[pid].pageCount;
      var c0 := if pageCount > 0 then Loaded(old(regionsRepo.cache), pid) else old(regionsRepo.cache);
      SameButTgtCache(c0, regionsRepo.cache)
      && updatedCount == ApplyCount(ProjectDict(old(regionsRepo.cache), pid), m, pageCount)
    ensures r == PagesApi.Ok && projects.cache.m[pid].pageCount <= 0 ==> regionsRepo.cache == old(regionsRepo.cache)
    ensures r == PagesApi.Ok && projects.cache.m[pid].pageCount > 0 ==>
      var m := GlossaryMap(Values(global.cache), Values(ProjectDict(old(glossary.cache), pid)));
      var c0 := Loaded(old(regionsRepo.cache), pid);
      CacheValid(c0) && pid in c0.m
      && regionsRepo.cache == PagesRun(c0, pid, m, projects.cache.m[pid].pageCount)
      && (WellKeyed(old(regionsRepo.cache)) ==>
            regionsRepo.cache == Put(c0, pid, Applied(c0.m[pid], m, projects.cache.m[pid].pageCount)))
  {
    updatedCount := 0;
    var project := projects.Get(pid);
    if project.None? {
      return PagesApi.NotFound("Project not found"), 0;
    }
    var globalEntries := global.ListAll(loadId);
    var localEntries := glossary.ListByProject(pid);
    var m := BuildGlossaryMap(globalEntries, localEntries);
    SameButTgtRefl(regionsRepo.cache);
    if project.value.pageCount > 0 {
      // the first `list_by_page` loads the project's regions
      var _ := regionsRepo.ProjectRegions(pid);
      ghost var c0 := regionsRepo.cache;
      LoadedValid(old(regionsRepo.cache), pid);
      updatedCount := ApplyToPages(regionsRepo, pid, project.value.pageCount, m);
      PagesRunSame(c0, pid, m, project.value.pageCount);
      if WellKeyed(old(regionsRepo.cache)) {
        WellKeyedLoaded(old(regionsRepo.cache), pid);
        PagesRunApplied(c0, pid, m, project.value.pageCount);
      }
    }
    return PagesApi.Ok, updatedCount;
  }
}
