/**
 * The in-memory stores behind the API: per-project dictionaries of text
 * regions, pages, glossary entries and drawings, the project and snippet
 * indexes.  Reading and writing the JSON files is not modelled: a project
 * the cache has not seen yet loads as empty, and fresh uuids are parameters.
 */
module Repository {
  import opened Wrappers
  import opened Models
  import opened PyDict
  import Seqs

  /** A per-project cache: project id to that project's dictionary. */
  type Cache<K(==,!new), V> = Dict<string, Dict<K, V>>

  ghost predicate CacheValid<K(!new), V>(c: Cache<K, V>)
  {
    PyDict.Valid(c) && forall p :: p in c.m ==> PyDict.Valid(c.m[p])
  }

  /** `_get_project_...`: the cache after making sure it holds an entry for `pid`. */
  function Loaded<K(==,!new), V>(c: Cache<K, V>, pid: string): Cache<K, V>
  {
    if pid in c.m then c else Put(c, pid, Empty())
  }

  /** The dictionary cached for `pid`, empty when the project has not been loaded. */
  function ProjectDict<K(==,!new), V>(c: Cache<K, V>, pid: string): Dict<K, V>
  {
    if pid in c.m then c.m[pid] else Empty()
  }

  lemma LoadedValid<K(!new), V>(c: Cache<K, V>, pid: string)
    requires CacheValid(c)
    ensures CacheValid(Loaded(c, pid)) && pid in Loaded(c, pid).m
    ensures Loaded(c, pid).m[pid] == ProjectDict(c, pid)
  {
    PutFacts(c, pid, Empty());
  }

  lemma PutProjectValid<K(!new), V>(c: Cache<K, V>, pid: string, d: Dict<K, V>)
    requires CacheValid(c) && PyDict.Valid(d)
    ensures CacheValid(Put(c, pid, d))
  {
    PutFacts(c, pid, d);
  }

  /** The first project, in cache order from position `i`, whose dictionary holds `key`. */
  function FirstHolderFrom<K(==,!new), V>(c: Cache<K, V>, key: K, i: nat): (r: Option<string>)
    requires CacheValid(c)
    ensures r.Some? ==> r.value in c.m && key in c.m[r.value].m
    ensures r.None? ==> forall j :: i <= j < |c.keys| ==> key !in c.m[c.keys[j]].m
    decreases |c.keys| - i
  {
    if i >= |c.keys| then None
    else if key in c.m[c.keys[i]].m then Some(c.keys[i])
    else FirstHolderFrom(c, key, i + 1)
  }

  function FirstHolder<K(==,!new), V>(c: Cache<K, V>, key: K): (r: Option<string>)
    requires CacheValid(c)
    ensures r.Some? ==> r.value in c.m && key in c.m[r.value].m
    ensures r.None? <==> forall p :: p in c.m ==> key !in c.m[p].m
  {
    var r := FirstHolderFrom(c, key, 0);
    if r.None? then
      assert forall p :: p in c.m ==> key !in c.m[p].m by {
        forall p | p in c.m ensures key !in c.m[p].m {
          var j :| 0 <= j < |c.keys| && c.keys[j] == p;
        }
      }
      r
    else r
  }

  // ---------------------------------------------------------------- text regions

  /** Whether `replace_for_page` deletes the stored region: on the page, neither locked nor manual. */
  predicate Replaceable(r: TextRegion, page: int)
  {
    r.pageNumber == page && !r.locked && !r.isManual
  }

  /** `to_delete`: the ids among `keys[..n]`, in order, of the replaceable regions. */
  function ToDeleteUpTo(d: Dict<string, TextRegion>, page: int, n: nat): (ks: seq<string>)
    requires PyDict.Valid(d) && n <= |d.keys|
    ensures forall x :: x in ks <==> x in d.keys[..n] && Replaceable(d.m[x], page)
  {
    if n == 0 then []
    else
      var ks := ToDeleteUpTo(d, page, n - 1);
      assert d.keys[..n] == d.keys[..n - 1] + [d.keys[n - 1]];
      if Replaceable(d.m[d.keys[n - 1]], page) then ks + [d.keys[n - 1]] else ks
  }

  function ToDelete(d: Dict<string, TextRegion>, page: int): (ks: seq<string>)
    requires PyDict.Valid(d)
    ensures forall x :: x in ks <==> x in d.m && Replaceable(d.m[x], page)
  {
    assert d.keys[..|d.keys|] == d.keys;
    ToDeleteUpTo(d, page, |d.keys|)
  }

  /** `del d[k]` for each `k` of `ks[..n]`, in order. */
  function RemoveAll<V>(d: Dict<string, V>, ks: seq<string>, n: nat): Dict<string, V>
    requires n <= |ks|
  {
    if n == 0 then d else Remove(RemoveAll(d, ks, n - 1), ks[n - 1])
  }

  lemma {:induction false} RemoveAllFacts<V>(d: Dict<string, V>, ks: seq<string>, n: nat)
    requires PyDict.Valid(d) && n <= |ks|
    ensures PyDict.Valid(RemoveAll(d, ks, n))
    ensures forall x :: Get(RemoveAll(d, ks, n), x) == if x in ks[..n] then None else Get(d, x)
  {
    if n > 0 {
      RemoveAllFacts(d, ks, n - 1);
      RemoveFacts(RemoveAll(d, ks, n - 1), ks[n - 1]);
      assert ks[..n] == ks[..n - 1] + [ks[n - 1]];
    }
  }

  /** `d[ks[i]] = vs[i]` for each `i` below `n`, in order. */
  function PutAll<V>(d: Dict<string, V>, ks: seq<string>, vs: seq<V>, n: nat): Dict<string, V>
    requires |ks| == |vs| && n <= |ks|
  {
    if n == 0 then d else Put(PutAll(d, ks, vs, n - 1), ks[n - 1], vs[n - 1])
  }

  /** The last position in `ks[..n]` holding `x`, or -1. */
  function LastIndex(ks: seq<string>, n: nat, x: string): (k: int)
    requires n <= |ks|
    ensures k == -1 || (0 <= k < n && ks[k] == x)
    ensures forall j :: k < j < n ==> ks[j] != x
  {
    if n == 0 then -1 else if ks[n - 1] == x then n - 1 else LastIndex(ks, n - 1, x)
  }

  /** After the assignments a key gives the value of its last assignment, or what it gave before. */
  lemma {:induction false} PutAllFacts<V>(d: Dict<string, V>, ks: seq<string>, vs: seq<V>, n: nat)
    requires PyDict.Valid(d) && |ks| == |vs| && n <= |ks|
    ensures PyDict.Valid(PutAll(d, ks, vs, n))
    ensures forall x :: (Get(PutAll(d, ks, vs, n), x) ==
                          if LastIndex(ks, n, x) >= 0 then Some(vs[LastIndex(ks, n, x)]) else Get(d, x))
  {
    if n > 0 {
      PutAllFacts(d, ks, vs, n - 1);
      PutFacts(PutAll(d, ks, vs, n - 1), ks[n - 1], vs[n - 1]);
    }
  }

  function RegionIds(rs: seq<TextRegion>): (ks: seq<string>)
    ensures |ks| == |rs| && forall i :: 0 <= i < |rs| ==> ks[i] == rs[i].id
  {
    seq(|rs|, i requires 0 <= i < |rs| => rs[i].id)
  }

  /** What `replace_for_page` leaves in a project's dictionary. */
  function ReplaceSpec(d: Dict<string, TextRegion>, page: int, rs: seq<TextRegion>): Dict<string, TextRegion>
    requires PyDict.Valid(d)
  {
    var ks := ToDelete(d, page);
    PutAll(RemoveAll(d, ks, |ks|), RegionIds(rs), rs, |rs|)
  }

  /**
   * After `replace_for_page(page, rs)` an id names the last new region with
   * that id if there is one, else the stored region it named unless that one
   * was a replaceable region of the page, else nothing.  So the page keeps
   * its locked and manual regions, gains every new region (a new id
   * overriding an old one), and other pages are untouched.
   */
  lemma ReplaceForPageLookup(d: Dict<string, TextRegion>, page: int, rs: seq<TextRegion>, x: string)
    requires PyDict.Valid(d)
    ensures PyDict.Valid(ReplaceSpec(d, page, rs))
    ensures Get(ReplaceSpec(d, page, rs), x) ==
      if LastIndex(RegionIds(rs), |rs|, x) >= 0 then Some(rs[LastIndex(RegionIds(rs), |rs|, x)])
      else if x in d.m && !Replaceable(d.m[x], page) then Some(d.m[x])
      else None
  {
    var ks := ToDelete(d, page);
    assert ks[..|ks|] == ks;
    RemoveAllFacts(d, ks, |ks|);
    PutAllFacts(RemoveAll(d, ks, |ks|), RegionIds(rs), rs, |rs|);
  }

  /** `[r for r in regions.values() if r.page_number == page]` */
  function OnPage(vs: seq<TextRegion>, page: int): (out: seq<TextRegion>)
    ensures forall r :: r in out <==> r in vs && r.pageNumber == page
  {
    if vs == [] then []
    else (if vs[0].pageNumber == page then [vs[0]] else []) + OnPage(vs[1..], page)
  }

  /** The keys whose regions lie on the page, in dictionary order. */
  function PageKeys(keys: seq<string>, m: map<string, TextRegion>, page: int): (ks: seq<string>)
    ensures forall k :: k in ks <==> k in keys && k in m && m[k].pageNumber == page
  {
    if keys == [] then []
    else (if keys[0] in m && m[keys[0]].pageNumber == page then [keys[0]] else []) + PageKeys(keys[1..], m, page)
  }

  /** The regions at the given keys, in order. */
  function At(m: map<string, TextRegion>, ks: seq<string>): (rs: seq<TextRegion>)
    requires forall k :: k in ks ==> k in m
    ensures |rs| == |ks|
  {
    seq(|ks|, i requires 0 <= i < |ks| => m[ks[i]])
  }

  lemma {:induction false} PageKeysListed(keys: seq<string>, m: map<string, TextRegion>, page: int)
    requires forall k :: k in keys ==> k in m
    ensures OnPage(At(m, keys), page) == At(m, PageKeys(keys, m, page))
  {
    if keys != [] {
      PageKeysListed(keys[1..], m, page);
      var head := if m[keys[0]].pageNumber == page then [keys[0]] else [];
      var rest := PageKeys(keys[1..], m, page);
      var vs := At(m, keys);
      AtSplit(m, keys);
      var h := if vs[0].pageNumber == page then [vs[0]] else [];
      assert At(m, head) == h;
      assert PageKeys(keys, m, page) == head + rest;
      AtConcat(m, head, rest);
      assert OnPage(vs, page) == h + OnPage(vs[1..], page);
      Seqs.JoinEqual(OnPage(vs, page), h, OnPage(vs[1..], page), At(m, PageKeys(keys, m, page)), At(m, head), At(m, rest));
    }
  }

  lemma AtSplit(m: map<string, TextRegion>, keys: seq<string>)
    requires forall k :: k in keys ==> k in m
    requires keys != []
    ensures At(m, keys)[0] == m[keys[0]] && At(m, keys)[1..] == At(m, keys[1..])
  {
  }

  lemma AtConcat(m: map<string, TextRegion>, a: seq<string>, b: seq<string>)
    requires forall k :: k in a + b ==> k in m
    ensures At(m, a + b) == At(m, a) + At(m, b)
  {
  }

  predicate Distinct(ks: seq<string>)
  {
    forall i, j :: 0 <= i < j < |ks| ==> ks[i] != ks[j]
  }

  lemma {:induction false} PageKeysDistinct(keys: seq<string>, m: map<string, TextRegion>, page: int)
    requires Distinct(keys)
    ensures Distinct(PageKeys(keys, m, page))
  {
    if keys != [] {
      PageKeysDistinct(keys[1..], m, page);
      var rest := PageKeys(keys[1..], m, page);
      assert keys[0] !in keys[1..];
      assert keys[0] !in rest;
      var ks := PageKeys(keys, m, page);
      var onPage := keys[0] in m && m[keys[0]].pageNumber == page;
      assert ks == (if onPage then [keys[0]] else []) + rest;
      forall i, j | 0 <= i < j < |ks| ensures ks[i] != ks[j] {
        if !onPage {
          assert ks == rest;
          assert rest[i] != rest[j];
        } else {
          assert ks == [keys[0]] + rest;
          if i == 0 {
            assert ks[j] == rest[j - 1] && rest[j - 1] in rest;
          } else {
            assert ks[i] == rest[i - 1] && ks[j] == rest[j - 1];
            assert rest[i - 1] != rest[j - 1];
          }
        }
      }
    }
  }

  /** The keys of the regions `list_by_page` returns: the dictionary's own entries for the page, in order and distinct. */
  lemma PageKeysFacts(d: Dict<string, TextRegion>, page: int)
    requires PyDict.Valid(d)
    ensures var ks := PageKeys(d.keys, d.m, page);
      (forall k :: k in ks ==> k in d.m)
      && Distinct(ks)
      && OnPage(Values(d), page) == At(d.m, ks)
  {
    PageKeysDistinct(d.keys, d.m, page);
    PageKeysListed(d.keys, d.m, page);
    assert Values(d) == At(d.m, d.keys);
  }

  /**
   * The project's dictionary after writes through the objects `list_by_page`
   * returned: the `i`-th region listed for the page is now `rs[i]`, every
   * other entry and the key order stay.
   */
  function WritePage(d: Dict<string, TextRegion>, page: int, rs: seq<TextRegion>): (out: Dict<string, TextRegion>)
    requires PyDict.Valid(d) && |rs| == |OnPage(Values(d), page)|
    ensures PyDict.Valid(out) && out.keys == d.keys
  {
    var ks := PageKeys(d.keys, d.m, page);
    PageKeysFacts(d, page);
    Dict(d.keys, d.m + Assigned(ks, rs))
  }

  /** The entries the writes set: key `ks[i]` takes `rs[i]`. */
  function Assigned(ks: seq<string>, rs: seq<TextRegion>): (u: map<string, TextRegion>)
    requires Distinct(ks) && |ks| == |rs|
    ensures forall k :: k in u <==> k in ks
    ensures forall i :: 0 <= i < |ks| ==> u[ks[i]] == rs[i]
  {
    var u := map i | 0 <= i < |ks| :: ks[i] := rs[i];
    assert forall i :: 0 <= i < |ks| ==> ks[i] in u by {
      forall i | 0 <= i < |ks| ensures ks[i] in u {
        assert ks[i] == ks[i];
      }
    }
    u
  }

  /**
   * After the writes, a region on another page keeps its value, and the
   * region listed at position `i` is `rs[i]`.
   */
  lemma WritePageLookup(d: Dict<string, TextRegion>, page: int, rs: seq<TextRegion>, x: string)
    requires PyDict.Valid(d) && |rs| == |OnPage(Values(d), page)| && x in d.m
    ensures x in WritePage(d, page, rs).m
    ensures d.m[x].pageNumber != page ==> WritePage(d, page, rs).m[x] == d.m[x]
    ensures d.m[x].pageNumber == page ==>
      exists i :: 0 <= i < |rs| && OnPage(Values(d), page)[i] == d.m[x] && WritePage(d, page, rs).m[x] == rs[i]
  {
    var ks := PageKeys(d.keys, d.m, page);
    PageKeysFacts(d, page);
    if d.m[x].pageNumber == page {
      var i :| 0 <= i < |ks| && ks[i] == x;
      assert At(d.m, ks)[i] == d.m[x];
    }
  }

  /** Writing back regions that stay on the page makes them what `list_by_page` returns next. */
  lemma WritePageListed(d: Dict<string, TextRegion>, page: int, rs: seq<TextRegion>)
    requires PyDict.Valid(d) && |rs| == |OnPage(Values(d), page)|
    requires forall i :: 0 <= i < |rs| ==> rs[i].pageNumber == page
    ensures OnPage(Values(WritePage(d, page, rs)), page) == rs
  {
    var out := WritePage(d, page, rs);
    var ks := PageKeys(d.keys, d.m, page);
    PageKeysFacts(d, page);
    WrittenAt(d, page, rs);
    forall k | k in d.keys ensures k in out.m && (d.m[k].pageNumber == page <==> out.m[k].pageNumber == page) {
      if k !in ks {
        WrittenElsewhere(d, page, rs, k);
      } else {
        var i :| 0 <= i < |ks| && ks[i] == k;
      }
    }
    SameSubsequence(d.keys, d.m, out.m, page);
    PageKeysFacts(out, page);
    assert At(out.m, ks) == rs;
  }

  lemma WrittenAt(d: Dict<string, TextRegion>, page: int, rs: seq<TextRegion>)
    requires PyDict.Valid(d) && |rs| == |OnPage(Values(d), page)|
    ensures var ks := PageKeys(d.keys, d.m, page);
      |ks| == |rs| && forall i :: 0 <= i < |ks| ==> ks[i] in WritePage(d, page, rs).m && WritePage(d, page, rs).m[ks[i]] == rs[i]
  {
    PageKeysFacts(d, page);
  }

  lemma WrittenElsewhere(d: Dict<string, TextRegion>, page: int, rs: seq<TextRegion>, k: string)
    requires PyDict.Valid(d) && |rs| == |OnPage(Values(d), page)|
    requires k in d.m && k !in PageKeys(d.keys, d.m, page)
    ensures k in WritePage(d, page, rs).m && WritePage(d, page, rs).m[k] == d.m[k]
  {
    PageKeysFacts(d, page);
    var ks := PageKeys(d.keys, d.m, page);
    assert forall i :: 0 <= i < |ks| ==> ks[i] != k;
  }

  /** Two dictionaries over the same keys that agree on which keys lie on the page list the same keys for it. */
  lemma {:induction false} SameSubsequence(keys: seq<string>, m: map<string, TextRegion>, m': map<string, TextRegion>, page: int)
    requires forall k :: k in keys ==> k in m && k in m'
    requires forall k :: k in keys ==> (m[k].pageNumber == page <==> m'[k].pageNumber == page)
    ensures PageKeys(keys, m, page) == PageKeys(keys, m', page)
  {
    if keys != [] {
      SameSubsequence(keys[1..], m, m', page);
    }
  }

  /** Writing back what was listed, unchanged, leaves the dictionary as it was. */
  lemma WritePageUnchanged(d: Dict<string, TextRegion>, page: int)
    requires PyDict.Valid(d)
    ensures WritePage(d, page, OnPage(Values(d), page)) == d
  {
    var out := WritePage(d, page, OnPage(Values(d), page));
    forall k | k in d.m ensures out.m[k] == d.m[k] {
      WritePageLookup(d, page, OnPage(Values(d), page), k);
    }
    assert out.m == d.m;
  }

  /** The region cache after writes through the objects listed for `pid`'s page, which loads the project. */
  function PageWritten(c: Cache<string, TextRegion>, pid: string, page: int, rs: seq<TextRegion>): (r: Cache<string, TextRegion>)
    requires CacheValid(c) && |rs| == |OnPage(Values(ProjectDict(c, pid)), page)|
    ensures CacheValid(r)
  {
    LoadedValid(c, pid);
    PutProjectValid(Loaded(c, pid), pid, WritePage(ProjectDict(c, pid), page, rs));
    Put(Loaded(c, pid), pid, WritePage(ProjectDict(c, pid), page, rs))
  }

  /** The fields the region PATCH endpoint can set; `None` leaves a field alone. */
  datatype RegionPatch = RegionPatch(
    tgtText: Option<string>,
    locked: Option<bool>,
    composeMode: Option<string>,
    fontSize: Option<int>,
    renderOrder: Option<int>)

  /** `setattr` of every field the patch gives a non-None value. */
  function ApplyRegionPatch(r: TextRegion, p: RegionPatch): TextRegion
  {
    r.(tgtText := if p.tgtText.Some? then p.tgtText else r.tgtText,
       locked := p.locked.GetOr(r.locked),
       composeMode := p.composeMode.GetOr(r.composeMode),
       fontSize := if p.fontSize.Some? then p.fontSize else r.fontSize,
       renderOrder := p.renderOrder.GetOr(r.renderOrder))
  }

  /**
   * An update touches only the five patchable fields, never clears the
   * translation or the fixed font size, and applying the same patch twice
   * changes nothing more.
   */
  lemma RegionPatchFacts(r: TextRegion, p: RegionPatch)
    ensures ApplyRegionPatch(r, p).(tgtText := r.tgtText, locked := r.locked, composeMode := r.composeMode,
                                    fontSize := r.fontSize, renderOrder := r.renderOrder) == r
    ensures r.tgtText.Some? ==> ApplyRegionPatch(r, p).tgtText.Some?
    ensures r.fontSize.Some? ==> ApplyRegionPatch(r, p).fontSize.Some?
    ensures ApplyRegionPatch(ApplyRegionPatch(r, p), p) == ApplyRegionPatch(r, p)
    ensures ApplyRegionPatch(r, RegionPatch(None, None, None, None, None)) == r
  {
  }

  /** What `delete(region_id, project_id)` removes from: the named project if it holds the id, else the first holder. */
  function DeleteTarget(c: Cache<string, TextRegion>, rid: string, pid: Option<string>): (t: Option<string>)
    requires CacheValid(c)
    ensures t.Some? ==> t.value in c.m && rid in c.m[t.value].m
    ensures t.None? <==> forall p :: p in c.m ==> rid !in c.m[p].m
  {
    if pid.Some? && pid.value != "" && pid.value in c.m && rid in c.m[pid.value].m then pid
    else FirstHolder(c, rid)
  }

  /** The cache a region operation leaves after its lazy load of `pid`, when one is named. */
  function LoadedIf<K(==,!new), V>(c: Cache<K, V>, pid: Option<string>): Cache<K, V>
  {
    if pid.Some? && pid.value != "" then Loaded(c, pid.value) else c
  }

  /**
   * `delete` answers true iff some project held the id; it removes that one
   * id from that one project, and every other id of every project keeps its
   * region.
   */
  lemma DeleteRemovesOnlyThat(c: Cache<string, TextRegion>, rid: string, pid: Option<string>, q: string, x: string)
    requires CacheValid(c)
    requires DeleteTarget(c, rid, pid).Some? && q in c.m
    ensures var t := DeleteTarget(c, rid, pid).value;
      var c' := Put(c, t, Remove(c.m[t], rid));
      CacheValid(c') && q in c'.m
      && Get(c'.m[q], x) == (if q == t && x == rid then None else Get(c.m[q], x))
  {
    var t := DeleteTarget(c, rid, pid).value;
    RemoveFacts(c.m[t], rid);
    PutProjectValid(c, t, Remove(c.m[t], rid));
  }

  class TextRegionsRepository {
    var cache: Cache<string, TextRegion>

    ghost predicate Valid()
      reads this
    {
      CacheValid(cache)
    }

    constructor()
      ensures Valid() && cache == Empty()
    {
      cache := Empty();
    }

    /** `_get_project_regions` */
    method ProjectRegions(pid: string) returns (d: Dict<string, TextRegion>)
      requires Valid()
      modifies this
      ensures Valid() && cache == Loaded(old(cache), pid)
      ensures d == ProjectDict(old(cache), pid) && PyDict.Valid(d)
    {
      LoadedValid(cache, pid);
      if pid !in cache.m {
        cache := Put(cache, pid, Empty());
      }
      d := cache.m[pid];
    }

    /** `list_by_page` */
    method ListByPage(pid: string, page: int) returns (rs: seq<TextRegion>)
      requires Valid()
      modifies this
      ensures Valid() && cache == Loaded(old(cache), pid)
      ensures rs == OnPage(Values(ProjectDict(old(cache), pid)), page)
    {
      var d := ProjectRegions(pid);
      rs := OnPage(Values(d), page);
    }

    /**
     * The writes a caller makes through the objects `list_by_page` handed
     * it, which are the cache's own: the page's listed regions become `rs`.
     */
    method StorePage(pid: string, page: int, rs: seq<TextRegion>)
      requires Valid() && |rs| == |OnPage(Values(ProjectDict(cache, pid)), page)|
      modifies this
      ensures Valid() && cache == PageWritten(old(cache), pid, page, rs)
    {
      cache := PageWritten(cache, pid, page, rs);
    }

    /** `replace_for_page` */
    method ReplaceForPage(pid: string, page: int, regions: seq<TextRegion>)
      requires Valid()
      modifies this
      ensures Valid() && cache == Put(Loaded(old(cache), pid), pid, ReplaceSpec(ProjectDict(old(cache), pid), page, regions))
    {
      var d := ProjectRegions(pid);
      ghost var d0 := d;
      ghost var c := cache;
      var toDelete := ToDelete(d, page);
      for i := 0 to |toDelete|
        invariant d == RemoveAll(d0, toDelete, i) && PyDict.Valid(d) && cache == c
      {
        RemoveAllFacts(d0, toDelete, i + 1);
        d := Remove(d, toDelete[i]);
      }
      ghost var d1 := d;
      ghost var ids := RegionIds(regions);
      for i := 0 to |regions|
        invariant d == PutAll(d1, ids, regions, i) && PyDict.Valid(d) && cache == c
      {
        PutAllFacts(d1, ids, regions, i + 1);
        d := Put(d, regions[i].id, regions[i]);
      }
      PutProjectValid(cache, pid, d);
      cache := Put(cache, pid, d);
    }

    /** The project holding `rid` first in cache order, found the way `update` and `delete` walk the cache. */
    method FindHolder(rid: string) returns (holder: Option<string>)
      requires Valid()
      ensures holder == FirstHolder(cache, rid)
    {
      for i := 0 to |cache.keys|
        invariant FirstHolderFrom(cache, rid, 0) == FirstHolderFrom(cache, rid, i)
      {
        var pid := cache.keys[i];
        if rid in cache.m[pid].m {
          return Some(pid);
        }
      }
      return None;
    }

    /** `update`: the patched region, or None for an unknown id. */
    method Update(rid: string, patch: RegionPatch) returns (updated: Option<TextRegion>)
      requires Valid()
      modifies this
      ensures Valid()
      ensures match FirstHolder(old(cache), rid)
        case None => updated.None? && cache == old(cache)
        case Some(p) =>
          var r := ApplyRegionPatch(old(cache).m[p].m[rid], patch);
          updated == Some(r) && cache == Put(old(cache), p, Put(old(cache).m[p], rid, r))
    {
      var holder := FindHolder(rid);
      if holder.None? {
        return None;
      }
      var pid := holder.value;
      var r := ApplyRegionPatch(cache.m[pid].m[rid], patch);
      PutFacts(cache.m[pid], rid, r);
      PutProjectValid(cache, pid, Put(cache.m[pid], rid, r));
      cache := Put(cache, pid, Put(cache.m[pid], rid, r));
      return Some(r);
    }

    /** `delete`: true iff the id was present; only that id of that project is removed. */
    method Delete(rid: string, pid: Option<string>) returns (deleted: bool)
      requires Valid()
      modifies this
      ensures Valid()
      ensures var c := LoadedIf(old(cache), pid);
        match DeleteTarget(c, rid, pid)
        case None => !deleted && cache == c
        case Some(t) => deleted && cache == Put(c, t, Remove(c.m[t], rid))
    {
      if pid.Some? && pid.value != "" {
        var d := ProjectRegions(pid.value);
        if rid in d.m {
          RemoveFacts(d, rid);
          PutProjectValid(cache, pid.value, Remove(d, rid));
          cache := Put(cache, pid.value, Remove(d, rid));
          return true;
        }
      }
      var holder := FindHolder(rid);
      if holder.None? {
        return false;
      }
      var t := holder.value;
      RemoveFacts(cache.m[t], rid);
      PutProjectValid(cache, t, Remove(cache.m[t], rid));
      cache := Put(cache, t, Remove(cache.m[t], rid));
      return true;
    }

    /** `get`: the named project first (loading it), then the whole cache in order. */
    method Get(rid: string, pid: Option<string>) returns (r: Option<TextRegion>)
      requires Valid()
      modifies this
      ensures Valid() && cache == LoadedIf(old(cache), pid)
      ensures match DeleteTarget(cache, rid, pid)
        case None => r.None?
        case Some(t) => r == Some(cache.m[t].m[rid])
    {
      if pid.Some? && pid.value != "" {
        var d := ProjectRegions(pid.value);
        if rid in d.m {
          return Some(d.m[rid]);
        }
      }
      var holder := FindHolder(rid);
      if holder.None? {
        return None;
      }
      return Some(cache.m[holder.value].m[rid]);
    }
  }

  // ---------------------------------------------------------------- pages

  /** The keyword arguments `upsert` receives; `None` means not given. */
  datatype PagePatch = PagePatch(hasOriginal: Option<bool>, hasTranslated: Option<bool>)

  /** The page `upsert` leaves: the stored page with the given flags set, or a new page with unset flags False. */
  function Upserted(d: Dict<int, Page>, pid: string, n: int, p: PagePatch): Page
  {
    if n in d.m then
      var pg := d.m[n];
      pg.(hasOriginal := p.hasOriginal.GetOr(pg.hasOriginal),
          hasTranslated := p.hasTranslated.GetOr(pg.hasTranslated))
    else Page(pid, n, p.hasOriginal.GetOr(false), p.hasTranslated.GetOr(false))
  }

  /**
   * `upsert` creates the page when absent, with False for every flag not
   * given; otherwise it sets only the given flags.  Either way the page is
   * stored under its own number and keeps every flag not given.
   */
  lemma UpsertFacts(d: Dict<int, Page>, pid: string, n: int, p: PagePatch)
    ensures var pg := Upserted(d, pid, n, p);
      pg.pageNumber == (if n in d.m then d.m[n].pageNumber else n)
      && (n !in d.m ==> pg.projectId == pid && pg.pageNumber == n)
      && pg.hasOriginal == (if p.hasOriginal.Some? then p.hasOriginal.value else n in d.m && d.m[n].hasOriginal)
      && pg.hasTranslated == (if p.hasTranslated.Some? then p.hasTranslated.value else n in d.m && d.m[n].hasTranslated)
      && (n in d.m && p == PagePatch(None, None) ==> pg == d.m[n])
  {
  }

  class PagesRepository {
    var cache: Cache<int, Page>

    ghost predicate Valid()
      reads this
    {
      CacheValid(cache)
    }

    constructor()
      ensures Valid() && cache == Empty()
    {
      cache := Empty();
    }

    /** `_get_project_pages` */
    method ProjectPages(pid: string) returns (d: Dict<int, Page>)
      requires Valid()
      modifies this
      ensures Valid() && cache == Loaded(old(cache), pid)
      ensures d == ProjectDict(old(cache), pid) && PyDict.Valid(d)
    {
      LoadedValid(cache, pid);
      if pid !in cache.m {
        cache := Put(cache, pid, Empty());
      }
      d := cache.m[pid];
    }

    /** `upsert` */
    method Upsert(pid: string, n: int, patch: PagePatch) returns (page: Page)
      requires Valid()
      modifies this
      ensures Valid()
      ensures page == Upserted(ProjectDict(old(cache), pid), pid, n, patch)
      ensures cache == Put(Loaded(old(cache), pid), pid, Put(ProjectDict(old(cache), pid), n, page))
    {
      var d := ProjectPages(pid);
      if n in d.m {
        var pg := d.m[n];
        page := pg.(hasOriginal := patch.hasOriginal.GetOr(pg.hasOriginal),
                    hasTranslated := patch.hasTranslated.GetOr(pg.hasTranslated));
      } else {
        page := Page(pid, n, patch.hasOriginal.GetOr(false), patch.hasTranslated.GetOr(false));
      }
      PutFacts(d, n, page);
      PutProjectValid(cache, pid, Put(d, n, page));
      cache := Put(cache, pid, Put(d, n, page));
    }

    /** `list_by_project` */
    method ListByProject(pid: string) returns (ps: seq<Page>)
      requires Valid()
      modifies this
      ensures Valid() && cache == Loaded(old(cache), pid)
      ensures ps == Values(ProjectDict(old(cache), pid))
    {
      var d := ProjectPages(pid);
      ps := Values(d);
    }
  }

  // ---------------------------------------------------------------- project glossary

  /** One entry of a glossary update request; `id` may be missing or empty. */
  datatype EntryInput = EntryInput(id: Option<string>, srcTerm: string, tgtTerm: string, locked: bool)

  /** `e.id or str(uuid.uuid4())`, the uuid of position `i` being `newId(i)`. */
  function EntryId(e: EntryInput, i: nat, newId: nat -> string): string
  {
    if e.id.Some? && e.id.value != "" then e.id.value else newId(i)
  }

  function EntryIds(es: seq<EntryInput>, newId: nat -> string): (ks: seq<string>)
    ensures |ks| == |es| && forall i :: 0 <= i < |es| ==> ks[i] == EntryId(es[i], i, newId)
  {
    seq(|es|, i requires 0 <= i < |es| => EntryId(es[i], i, newId))
  }

  /** The stored entries, one per input, all of project `pid`. */
  function StoredEntries(pid: string, es: seq<EntryInput>, newId: nat -> string): (gs: seq<GlossaryEntry>)
    ensures |gs| == |es|
  {
    seq(|es|, i requires 0 <= i < |es| =>
      GlossaryEntry(EntryId(es[i], i, newId), pid, es[i].srcTerm, es[i].tgtTerm, es[i].locked))
  }

  /** The dictionary `replace_for_project` builds for a project. */
  function ReplacedGlossary(pid: string, es: seq<EntryInput>, newId: nat -> string): Dict<string, GlossaryEntry>
  {
    PutAll(Empty(), EntryIds(es, newId), StoredEntries(pid, es, newId), |es|)
  }

  /**
   * After `replace_for_project` nothing of the old glossary is left: an id
   * names the last input entry that got that id (its own, or the newId one),
   * stored with the project's id and the input's terms and lock, and any
   * other id names nothing.
   */
  lemma ReplacedGlossaryLookup(pid: string, es: seq<EntryInput>, newId: nat -> string, x: string)
    ensures PyDict.Valid(ReplacedGlossary(pid, es, newId))
    ensures var k := LastIndex(EntryIds(es, newId), |es|, x);
      Get(ReplacedGlossary(pid, es, newId), x) ==
        (if k >= 0 then Some(GlossaryEntry(x, pid, es[k].srcTerm, es[k].tgtTerm, es[k].locked)) else None)
  {
    PutAllFacts(Empty(), EntryIds(es, newId), StoredEntries(pid, es, newId), |es|);
  }

  class GlossaryRepository {
    var cache: Cache<string, GlossaryEntry>

    ghost predicate Valid()
      reads this
    {
      CacheValid(cache)
    }

    constructor()
      ensures Valid() && cache == Empty()
    {
      cache := Empty();
    }

    /** `_get_project_glossary` */
    method ProjectGlossary(pid: string) returns (d: Dict<string, GlossaryEntry>)
      requires Valid()
      modifies this
      ensures Valid() && cache == Loaded(old(cache), pid)
      ensures d == ProjectDict(old(cache), pid) && PyDict.Valid(d)
    {
      LoadedValid(cache, pid);
      if pid !in cache.m {
        cache := Put(cache, pid, Empty());
      }
      d := cache.m[pid];
    }

    /** `list_by_project` */
    method ListByProject(pid: string) returns (es: seq<GlossaryEntry>)
      requires Valid()
      modifies this
      ensures Valid() && cache == Loaded(old(cache), pid)
      ensures es == Values(ProjectDict(old(cache), pid))
    {
      var d := ProjectGlossary(pid);
      es := Values(d);
    }

    /** `replace_for_project` */
    method ReplaceForProject(pid: string, entries: seq<EntryInput>, newId: nat -> string)
      requires Valid()
      modifies this
      ensures Valid() && cache == Put(old(cache), pid, ReplacedGlossary(pid, entries, newId))
    {
      var d := BuildGlossary(pid, entries, newId);
      PutProjectValid(cache, pid, d);
      cache := Put(cache, pid, d);
    }
  }

  /** The loop of `replace_for_project`: one entry stored per input, under its own id or a new one. */
  method BuildGlossary(pid: string, entries: seq<EntryInput>, newId: nat -> string) returns (d: Dict<string, GlossaryEntry>)
    ensures d == ReplacedGlossary(pid, entries, newId) && PyDict.Valid(d)
  {
    d := Empty();
    ghost var ks := EntryIds(entries, newId);
    ghost var gs := StoredEntries(pid, entries, newId);
    for i := 0 to |entries|
      invariant d == PutAll(Empty(), ks, gs, i) && PyDict.Valid(d)
    {
      var e := entries[i];
      var id := if e.id.Some? && e.id.value != "" then e.id.value else newId(i);
      var entry := GlossaryEntry(id, pid, e.srcTerm, e.tgtTerm, e.locked);
      assert id == ks[i] && entry == gs[i];
      PutFacts(d, id, entry);
      d := Put(d, id, entry);
    }
  }

  // ---------------------------------------------------------------- projects

  /** The non-None keyword arguments `update` may set. */
  datatype ProjectPatch = ProjectPatch(
    name: Option<string>,
    pageCount: Option<int>,
    status: Option<ProjectStatus>,
    ocrRegionFilters: Option<seq<RegionFilter>>,
    documentType: Option<DocumentType>)

  function ApplyProjectPatch(p: Project, u: ProjectPatch): Project
  {
    p.(name := u.name.GetOr(p.name),
       pageCount := u.pageCount.GetOr(p.pageCount),
       status := u.status.GetOr(p.status),
       ocrRegionFilters := u.ocrRegionFilters.GetOr(p.ocrRegionFilters),
       documentType := u.documentType.GetOr(p.documentType))
  }

  /** A project as `create` builds it: status created, no filters. */
  function NewProject(id: string, name: string, pageCount: int, documentType: DocumentType, now: int): (p: Project)
    ensures p.id == id && p.name == name && p.pageCount == pageCount && p.documentType == documentType
    ensures p.status == Created && p.ocrRegionFilters == [] && p.createdAt == now
  {
    Project(id, name, pageCount, Created, now, [], documentType)
  }

  /**
   * `update` keeps the id and the creation time, sets every given field and
   * keeps every other; the empty update changes nothing.
   */
  lemma ProjectPatchFacts(p: Project, u: ProjectPatch)
    ensures var q := ApplyProjectPatch(p, u);
      q.id == p.id && q.createdAt == p.createdAt
      && q.name == (if u.name.Some? then u.name.value else p.name)
      && q.pageCount == (if u.pageCount.Some? then u.pageCount.value else p.pageCount)
      && q.status == (if u.status.Some? then u.status.value else p.status)
      && q.ocrRegionFilters == (if u.ocrRegionFilters.Some? then u.ocrRegionFilters.value else p.ocrRegionFilters)
      && q.documentType == (if u.documentType.Some? then u.documentType.value else p.documentType)
    ensures ApplyProjectPatch(p, ProjectPatch(None, None, None, None, None)) == p
  {
  }

  class ProjectsRepository {
    var cache: Dict<string, Project>

    ghost predicate Valid()
      reads this
    {
      PyDict.Valid(cache)
    }

    constructor()
      ensures Valid() && cache == Empty()
    {
      cache := Empty();
    }

    /** `create` */
    method Create(id: string, name: string, pageCount: int, documentType: DocumentType, now: int) returns (p: Project)
      requires Valid()
      modifies this
      ensures Valid() && p == NewProject(id, name, pageCount, documentType, now)
      ensures cache == Put(old(cache), id, p)
    {
      p := Project(id, name, pageCount, Created, now, [], documentType);
      PutFacts(cache, id, p);
      cache := Put(cache, id, p);
    }

    /** `get` */
    method Get(id: string) returns (p: Option<Project>)
      ensures p == PyDict.Get(cache, id)
    {
      p := if id in cache.m then Some(cache.m[id]) else None;
    }

    /** `list_all`: every project once, in insertion order. */
    method ListAll() returns (ps: seq<Project>)
      requires Valid()
      ensures ps == Values(cache)
      ensures |ps| == |cache.keys| && forall p :: p in ps <==> exists id :: id in cache.m && cache.m[id] == p
    {
      ValuesMembers(cache);
      ps := Values(cache);
    }

    /** `update`: the updated project, or None for an unknown id. */
    method Update(id: string, patch: ProjectPatch) returns (p: Option<Project>)
      requires Valid()
      modifies this
      ensures Valid()
      ensures id !in old(cache).m ==> p.None? && cache == old(cache)
      ensures id in old(cache).m ==>
        p == Some(ApplyProjectPatch(old(cache).m[id], patch)) && cache == Put(old(cache), id, p.value)
    {
      if id !in cache.m {
        return None;
      }
      var q := ApplyProjectPatch(cache.m[id], patch);
      PutFacts(cache, id, q);
      cache := Put(cache, id, q);
      return Some(q);
    }

    /** `delete` */
    method Delete(id: string)
      requires Valid()
      modifies this
      ensures Valid() && cache == Remove(old(cache), id)
    {
      RemoveFacts(cache, id);
      cache := Remove(cache, id);
    }
  }

  // ---------------------------------------------------------------- drawings

  /** The optional keyword arguments of `create`; `None` means not given and takes the default. */
  datatype DrawingOptions = DrawingOptions(
    strokeColor: Option<string>,
    strokeWidth: Option<int>,
    fillColor: Option<string>,
    text: Option<string>,
    fontSize: Option<int>,
    fontFamily: Option<string>,
    textColor: Option<string>,
    imageData: Option<string>)

  /** The element `create` builds under the newId id. */
  function NewDrawing(id: string, pid: string, page: int, elementType: string, points: seq<real>,
                      o: DrawingOptions, now: int): (d: DrawingElement)
    ensures d.id == id && d.projectId == pid && d.pageNumber == page
    ensures d.elementType == elementType && d.points == points && d.createdAt == now
    ensures d.strokeColor == (if o.strokeColor.Some? then o.strokeColor.value else "#000000")
    ensures d.strokeWidth == (if o.strokeWidth.Some? then o.strokeWidth.value else 2)
    ensures d.fontSize == (if o.fontSize.Some? then o.fontSize.value else 14)
    ensures d.fontFamily == (if o.fontFamily.Some? then o.fontFamily.value else "Arial")
    ensures d.textColor == (if o.textColor.Some? then o.textColor.value else "#000000")
    ensures d.fillColor == o.fillColor && d.text == o.text && d.imageData == o.imageData
  {
    DrawingElement(id, pid, page, elementType, points,
      o.strokeColor.GetOr("#000000"), o.strokeWidth.GetOr(2), o.fillColor, o.text,
      o.fontSize.GetOr(14), o.fontFamily.GetOr("Arial"), o.textColor.GetOr("#000000"), o.imageData, now)
  }

  /** The fields `update` may set; `None` leaves a field alone. */
  datatype DrawingPatch = DrawingPatch(
    points: Option<seq<real>>,
    strokeColor: Option<string>,
    strokeWidth: Option<int>,
    fillColor: Option<string>,
    text: Option<string>,
    fontSize: Option<int>,
    fontFamily: Option<string>,
    textColor: Option<string>,
    imageData: Option<string>)

  function ApplyDrawingPatch(d: DrawingElement, u: DrawingPatch): DrawingElement
  {
    d.(points := u.points.GetOr(d.points),
       strokeColor := u.strokeColor.GetOr(d.strokeColor),
       strokeWidth := u.strokeWidth.GetOr(d.strokeWidth),
       fillColor := if u.fillColor.Some? then u.fillColor else d.fillColor,
       text := if u.text.Some? then u.text else d.text,
       fontSize := u.fontSize.GetOr(d.fontSize),
       fontFamily := u.fontFamily.GetOr(d.fontFamily),
       textColor := u.textColor.GetOr(d.textColor),
       imageData := if u.imageData.Some? then u.imageData else d.imageData)
  }

  /**
   * `update` never changes what an element is (id, project, page, type,
   * creation time), cannot clear an optional field, and the empty update
   * changes nothing.
   */
  lemma DrawingPatchFacts(d: DrawingElement, u: DrawingPatch)
    ensures var e := ApplyDrawingPatch(d, u);
      e.id == d.id && e.projectId == d.projectId && e.pageNumber == d.pageNumber
      && e.elementType == d.elementType && e.createdAt == d.createdAt
      && (d.fillColor.Some? ==> e.fillColor.Some?)
      && (d.text.Some? ==> e.text.Some?)
      && (d.imageData.Some? ==> e.imageData.Some?)
      && (u.points.Some? ==> e.points == u.points.value)
      && (u.points.None? ==> e.points == d.points)
    ensures ApplyDrawingPatch(d, DrawingPatch(None, None, None, None, None, None, None, None, None)) == d
  {
  }

  /** `[d for d in drawings.values() if d.page_number == page]` */
  function DrawingsOnPage(vs: seq<DrawingElement>, page: int): (out: seq<DrawingElement>)
    ensures forall d :: d in out <==> d in vs && d.pageNumber == page
  {
    if vs == [] then []
    else (if vs[0].pageNumber == page then [vs[0]] else []) + DrawingsOnPage(vs[1..], page)
  }

  class DrawingsRepository {
    var cache: Cache<string, DrawingElement>

    ghost predicate Valid()
      reads this
    {
      CacheValid(cache)
    }

    constructor()
      ensures Valid() && cache == Empty()
    {
      cache := Empty();
    }

    /** `_get_project_drawings` */
    method ProjectDrawings(pid: string) returns (d: Dict<string, DrawingElement>)
      requires Valid()
      modifies this
      ensures Valid() && cache == Loaded(old(cache), pid)
      ensures d == ProjectDict(old(cache), pid) && PyDict.Valid(d)
    {
      LoadedValid(cache, pid);
      if pid !in cache.m {
        cache := Put(cache, pid, Empty());
      }
      d := cache.m[pid];
    }

    /** `create`, with the uuid and the clock as parameters. */
    method Create(pid: string, page: int, elementType: string, points: seq<real>, options: DrawingOptions,
                  freshId: string, now: int) returns (drawing: DrawingElement)
      requires Valid()
      modifies this
      ensures Valid() && drawing == NewDrawing(freshId, pid, page, elementType, points, options, now)
      ensures cache == Put(Loaded(old(cache), pid), pid, Put(ProjectDict(old(cache), pid), freshId, drawing))
    {
      drawing := DrawingElement(freshId, pid, page, elementType, points,
        options.strokeColor.GetOr("#000000"), options.strokeWidth.GetOr(2), options.fillColor, options.text,
        options.fontSize.GetOr(14), options.fontFamily.GetOr("Arial"), options.textColor.GetOr("#000000"),
        options.imageData, now);
      var d := ProjectDrawings(pid);
      PutFacts(d, freshId, drawing);
      PutProjectValid(cache, pid, Put(d, freshId, drawing));
      cache := Put(cache, pid, Put(d, freshId, drawing));
    }

    /** `get` */
    method Get(did: string, pid: string) returns (drawing: Option<DrawingElement>)
      requires Valid()
      modifies this
      ensures Valid() && cache == Loaded(old(cache), pid)
      ensures drawing == PyDict.Get(ProjectDict(old(cache), pid), did)
    {
      var d := ProjectDrawings(pid);
      drawing := if did in d.m then Some(d.m[did]) else None;
    }

    /** `list_by_page` */
    method ListByPage(pid: string, page: int) returns (ds: seq<DrawingElement>)
      requires Valid()
      modifies this
      ensures Valid() && cache == Loaded(old(cache), pid)
      ensures ds == DrawingsOnPage(Values(ProjectDict(old(cache), pid)), page)
    {
      var d := ProjectDrawings(pid);
      ds := DrawingsOnPage(Values(d), page);
    }

    /** `list_by_project` */
    method ListByProject(pid: string) returns (ds: seq<DrawingElement>)
      requires Valid()
      modifies this
      ensures Valid() && cache == Loaded(old(cache), pid)
      ensures ds == Values(ProjectDict(old(cache), pid))
    {
      var d := ProjectDrawings(pid);
      ds := Values(d);
    }

    /** `update`: the updated element, or None when the project has no such drawing. */
    method Update(did: string, pid: string, patch: DrawingPatch) returns (drawing: Option<DrawingElement>)
      requires Valid()
      modifies this
      ensures Valid()
      ensures var d := ProjectDict(old(cache), pid);
        if did in d.m then
          drawing == Some(ApplyDrawingPatch(d.m[did], patch))
          && cache == Put(Loaded(old(cache), pid), pid, Put(d, did, drawing.value))
        else drawing.None? && cache == Loaded(old(cache), pid)
    {
      var d := ProjectDrawings(pid);
      if did !in d.m {
        return None;
      }
      var e := ApplyDrawingPatch(d.m[did], patch);
      PutFacts(d, did, e);
      PutProjectValid(cache, pid, Put(d, did, e));
      cache := Put(cache, pid, Put(d, did, e));
      return Some(e);
    }

    /** `delete`: true iff the project had the drawing, which is then gone. */
    method Delete(did: string, pid: string) returns (deleted: bool)
      requires Valid()
      modifies this
      ensures Valid()
      ensures var d := ProjectDict(old(cache), pid);
        deleted == (did in d.m)
        && cache == (if deleted then Put(Loaded(old(cache), pid), pid, Remove(d, did)) else Loaded(old(cache), pid))
    {
      var d := ProjectDrawings(pid);
      if did !in d.m {
        return false;
      }
      RemoveFacts(d, did);
      PutProjectValid(cache, pid, Remove(d, did));
      cache := Put(cache, pid, Remove(d, did));
      return true;
    }
  }

  // ---------------------------------------------------------------- snippets

  /** Whether `a` sorts no later than `b` in the newest-first listing. */
  predicate NewerOrSame(a: Snippet, b: Snippet)
  {
    a.createdAt >= b.createdAt
  }

  /** Insert `x` after every element at least as new, as a stable sort does. */
  function InsertNewest(s: seq<Snippet>, x: Snippet): (r: seq<Snippet>)
    ensures multiset(r) == multiset(s) + multiset{x}
  {
    if s == [] || s[0].createdAt < x.createdAt then [x] + s
    else
      assert s == [s[0]] + s[1..];
      [s[0]] + InsertNewest(s[1..], x)
  }

  /** `sorted(values, key=created_at, reverse=True)` */
  function NewestFirst(s: seq<Snippet>): (r: seq<Snippet>)
    ensures multiset(r) == multiset(s)
  {
    if s == [] then []
    else
      assert s == s[..|s| - 1] + [s[|s| - 1]];
      InsertNewest(NewestFirst(s[..|s| - 1]), s[|s| - 1])
  }

  predicate Descending(s: seq<Snippet>)
  {
    forall i, j :: 0 <= i < j < |s| ==> NewerOrSame(s[i], s[j])
  }

  /** The snippets of `s` created at time `t`, in order. */
  function CreatedAt(s: seq<Snippet>, t: int): seq<Snippet>
  {
    if s == [] then [] else (if s[0].createdAt == t then [s[0]] else []) + CreatedAt(s[1..], t)
  }

  lemma {:induction false} CreatedAtConcat(a: seq<Snippet>, b: seq<Snippet>, t: int)
    ensures CreatedAt(a + b, t) == CreatedAt(a, t) + CreatedAt(b, t)
  {
    if a == [] {
      assert a + b == b;
    } else {
      var ab := a + b;
      var h := if a[0].createdAt == t then [a[0]] else [];
      assert ab[0] == a[0] && ab[1..] == a[1..] + b;
      assert CreatedAt(ab, t) == h + CreatedAt(a[1..] + b, t);
      CreatedAtConcat(a[1..], b, t);
      Seqs.ConcatAssoc(h, CreatedAt(a[1..], t), CreatedAt(b, t));
    }
  }

  lemma {:induction false} InsertNewestSorted(s: seq<Snippet>, x: Snippet)
    requires Descending(s)
    ensures Descending(InsertNewest(s, x))
    decreases |s|
  {
    if !(s == [] || s[0].createdAt < x.createdAt) {
      InsertNewestSorted(s[1..], x);
      var r := InsertNewest(s, x);
      var r' := InsertNewest(s[1..], x);
      assert r == [s[0]] + r';
      forall j | 0 < j < |r| ensures NewerOrSame(r[0], r[j]) {
        assert r[j] == r'[j - 1];
        assert r'[j - 1] in multiset(r');
        if r'[j - 1] in multiset(s[1..]) {
          var k :| 0 <= k < |s[1..]| && s[1..][k] == r'[j - 1];
          assert s[k + 1] == r[j];
        }
      }
      assert forall i, j :: 0 < i < j < |r| ==> r[i] == r'[i - 1] && r[j] == r'[j - 1];
    }
  }

  lemma {:induction false} InsertNewestStable(s: seq<Snippet>, x: Snippet, t: int)
    requires Descending(s)
    ensures CreatedAt(InsertNewest(s, x), t) == CreatedAt(s, t) + (if x.createdAt == t then [x] else [])
    decreases |s|
  {
    var mine: seq<Snippet> := if x.createdAt == t then [x] else [];
    if s == [] || s[0].createdAt < x.createdAt {
      Seqs.ConsTail(x, s);
      assert CreatedAt([x] + s, t) == mine + CreatedAt(s, t);
      if x.createdAt == t {
        assert forall i :: 0 <= i < |s| ==> s[i].createdAt < t by {
          forall i | 0 <= i < |s| ensures s[i].createdAt < t {
            if i > 0 {
              assert NewerOrSame(s[0], s[i]);
            }
          }
        }
        OlderNone(s, t);
        Seqs.AppendEmpty(mine);
        Seqs.EmptyConcat(mine);
      } else {
        Seqs.AppendEmpty(CreatedAt(s, t));
        Seqs.EmptyConcat(CreatedAt(s, t));
      }
    } else {
      var tail := s[1..];
      assert Descending(tail) by {
        forall i, j | 0 <= i < j < |tail| ensures NewerOrSame(tail[i], tail[j]) {
          assert tail[i] == s[i + 1] && tail[j] == s[j + 1];
        }
      }
      InsertNewestStable(tail, x, t);
      var rest := InsertNewest(tail, x);
      Seqs.ConsTail(s[0], rest);
      Seqs.ConsTail(s[0], tail);
      assert s == [s[0]] + tail;
      var head: seq<Snippet> := if s[0].createdAt == t then [s[0]] else [];
      assert CreatedAt([s[0]] + rest, t) == head + CreatedAt(rest, t);
      assert CreatedAt(s, t) == head + CreatedAt(tail, t);
      Seqs.ConcatAssoc(head, CreatedAt(tail, t), mine);
    }
  }

  lemma {:induction false} OlderNone(s: seq<Snippet>, t: int)
    requires forall i :: 0 <= i < |s| ==> s[i].createdAt < t
    ensures CreatedAt(s, t) == []
    decreases |s|
  {
    if s != [] {
      OlderNone(s[1..], t);
    }
  }

  /**
   * `list_all` lists every snippet once, newest first, and snippets created
   * at the same time keep their dictionary order (the sort is stable).
   */
  lemma {:induction false} NewestFirstFacts(s: seq<Snippet>, t: int)
    ensures multiset(NewestFirst(s)) == multiset(s)
    ensures Descending(NewestFirst(s))
    ensures CreatedAt(NewestFirst(s), t) == CreatedAt(s, t)
    decreases |s|
  {
    if s != [] {
      var init, last := s[..|s| - 1], s[|s| - 1];
      NewestFirstFacts(init, t);
      InsertNewestSorted(NewestFirst(init), last);
      InsertNewestStable(NewestFirst(init), last, t);
      Seqs.InitLast(s);
      CreatedAtConcat(init, [last], t);
      Seqs.ConsTail(last, []);
      Seqs.AppendEmpty(if last.createdAt == t then [last] else []);
      assert CreatedAt([last], t) == (if last.createdAt == t then [last] else []);
    }
  }

  /** `create`'s snippet: `ocr_detections or []`, no version yet. */
  function NewSnippet(id: string, name: string, width: int, height: int, hasTransparent: bool,
                      detections: Option<seq<SnippetDetection>>, textErased: bool, now: int): (s: Snippet)
    ensures s.id == id && s.name == name && s.width == width && s.height == height
    ensures s.hasTransparent == hasTransparent && s.textErased == textErased && s.createdAt == now
    ensures s.ocrDetections == (if detections.Some? then detections.value else [])
    ensures s.currentVersion.None?
  {
    Snippet(id, name, width, height, hasTransparent, detections.GetOr([]), textErased, now, None)
  }

  class SnippetsRepository {
    var cache: Dict<string, Snippet>

    ghost predicate Valid()
      reads this
    {
      PyDict.Valid(cache)
    }

    constructor()
      ensures Valid() && cache == Empty()
    {
      cache := Empty();
    }

    /** `create`, with the uuid and the clock as parameters. */
    method Create(name: string, width: int, height: int, hasTransparent: bool,
                  detections: Option<seq<SnippetDetection>>, textErased: bool,
                  freshId: string, now: int) returns (s: Snippet)
      requires Valid()
      modifies this
      ensures Valid() && s == NewSnippet(freshId, name, width, height, hasTransparent, detections, textErased, now)
      ensures cache == Put(old(cache), freshId, s)
    {
      s := Snippet(freshId, name, width, height, hasTransparent, detections.GetOr([]), textErased, now, None);
      PutFacts(cache, freshId, s);
      cache := Put(cache, freshId, s);
    }

    /** `get` */
    method Get(id: string) returns (s: Option<Snippet>)
      ensures s == PyDict.Get(cache, id)
    {
      s := if id in cache.m then Some(cache.m[id]) else None;
    }

    /** `list_all` */
    method ListAll() returns (ss: seq<Snippet>)
      requires Valid()
      ensures ss == NewestFirst(Values(cache))
    {
      ss := NewestFirst(Values(cache));
    }

    /** `update_ocr_detections`: the updated snippet, or None for an unknown id. */
    method UpdateOcrDetections(id: string, detections: seq<SnippetDetection>) returns (s: Option<Snippet>)
      requires Valid()
      modifies this
      ensures Valid()
      ensures id !in old(cache).m ==> s.None? && cache == old(cache)
      ensures id in old(cache).m ==>
        s == Some(old(cache).m[id].(ocrDetections := detections)) && cache == Put(old(cache), id, s.value)
    {
      if id !in cache.m {
        return None;
      }
      var u := cache.m[id].(ocrDetections := detections);
      PutFacts(cache, id, u);
      cache := Put(cache, id, u);
      return Some(u);
    }

    /** `delete`: true iff the snippet existed, which is then gone. */
    method Delete(id: string) returns (deleted: bool)
      requires Valid()
      modifies this
      ensures Valid() && deleted == (id in old(cache).m)
      ensures cache == (if deleted then Remove(old(cache), id) else old(cache))
    {
      if id !in cache.m {
        return false;
      }
      RemoveFacts(cache, id);
      cache := Remove(cache, id);
      return true;
    }
  }
}
