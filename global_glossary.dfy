/**
 * The global glossary: one dictionary of entries shared by every project,
 * read from its file at most once.  The file's entries are given to the
 * constructor; writing the file back is not modelled, and fresh uuids are
 * a parameter indexed by the entry's position.
 */
module GlobalGlossary {
  import opened Wrappers
  import opened Models
  import opened PyDict
  import Repository

  /** The project id every global entry carries. */
  const GlobalProject := "__global__"

  /** A JSON value as the file may hold it, for Python's `bool(...)`. */
  datatype JsonValue = JNull | JBool(b: bool) | JNumber(r: real) | JString(s: string) | JArray(size: nat) | JObject(size: nat)

  /** Python truthiness of a decoded JSON value. */
  predicate Truthy(v: JsonValue)
  {
    match v
    case JNull => false
    case JBool(b) => b
    case JNumber(r) => r != 0.0
    case JString(s) => s != ""
    case JArray(n) => n > 0
    case JObject(n) => n > 0
  }

  /** One object of the file; `None` is a missing key. */
  datatype StoredEntry = StoredEntry(id: Option<string>, srcTerm: Option<string>, tgtTerm: Option<string>, locked: Option<JsonValue>)

  /** `e.get("id") or uuid`, `e.get(key, "")` and `bool(e.get("locked", False))`. */
  function FromStored(e: StoredEntry, i: nat, newId: nat -> string): (g: GlossaryEntry)
    ensures g.projectId == GlobalProject
    ensures g.id == (if e.id.Some? && e.id.value != "" then e.id.value else newId(i))
    ensures g.locked <==> e.locked.Some? && Truthy(e.locked.value)
    ensures g.srcTerm == (if e.srcTerm.Some? then e.srcTerm.value else "")
  {
    GlossaryEntry(
      if e.id.Some? && e.id.value != "" then e.id.value else newId(i),
      GlobalProject,
      e.srcTerm.GetOr(""),
      e.tgtTerm.GetOr(""),
      e.locked.Some? && Truthy(e.locked.value))
  }

  function FromStoredAll(es: seq<StoredEntry>, newId: nat -> string): (gs: seq<GlossaryEntry>)
    ensures |gs| == |es| && forall i :: 0 <= i < |es| ==> gs[i] == FromStored(es[i], i, newId)
  {
    seq(|es|, i requires 0 <= i < |es| => FromStored(es[i], i, newId))
  }

  /** The entry `replace_all` builds from a request entry. */
  function FromInput(e: Repository.EntryInput, i: nat, newId: nat -> string): (g: GlossaryEntry)
    ensures g.projectId == GlobalProject && g.id == Repository.EntryId(e, i, newId)
    ensures g.srcTerm == e.srcTerm && g.tgtTerm == e.tgtTerm && g.locked == e.locked
  {
    GlossaryEntry(Repository.EntryId(e, i, newId), GlobalProject, e.srcTerm, e.tgtTerm, e.locked)
  }

  function FromInputAll(es: seq<Repository.EntryInput>, newId: nat -> string): (gs: seq<GlossaryEntry>)
    ensures |gs| == |es| && forall i :: 0 <= i < |es| ==> gs[i] == FromInput(es[i], i, newId)
  {
    seq(|es|, i requires 0 <= i < |es| => FromInput(es[i], i, newId))
  }

  /** `self._cache[g.id] = g` for each `g` of `gs[..n]` with a non-empty source term. */
  function Admit(d: Dict<string, GlossaryEntry>, gs: seq<GlossaryEntry>, n: nat): Dict<string, GlossaryEntry>
    requires n <= |gs|
  {
    if n == 0 then d
    else if gs[n - 1].srcTerm != "" then Put(Admit(d, gs, n - 1), gs[n - 1].id, gs[n - 1])
    else Admit(d, gs, n - 1)
  }

  /** The last position below `n` of an admitted entry with id `x`, or -1. */
  function LastAdmitted(gs: seq<GlossaryEntry>, n: nat, x: string): (k: int)
    requires n <= |gs|
    ensures k == -1 || (0 <= k < n && gs[k].id == x && gs[k].srcTerm != "")
    ensures forall j :: k < j < n ==> gs[j].id != x || gs[j].srcTerm == ""
  {
    if n == 0 then -1
    else if gs[n - 1].id == x && gs[n - 1].srcTerm != "" then n - 1
    else LastAdmitted(gs, n - 1, x)
  }

  /** Every cached entry is a global entry with a source term. */
  ghost predicate AllGlobal(d: Dict<string, GlossaryEntry>)
  {
    forall x :: x in d.m ==> d.m[x].srcTerm != "" && d.m[x].projectId == GlobalProject && d.m[x].id == x
  }

  /**
   * After admitting, an id gives the last admitted entry carrying it, or what
   * it gave before; entries with an empty source term never get in.
   */
  lemma {:induction false} AdmitFacts(d: Dict<string, GlossaryEntry>, gs: seq<GlossaryEntry>, n: nat)
    requires PyDict.Valid(d) && n <= |gs|
    ensures PyDict.Valid(Admit(d, gs, n))
    ensures forall x :: (Get(Admit(d, gs, n), x) ==
                          if LastAdmitted(gs, n, x) >= 0 then Some(gs[LastAdmitted(gs, n, x)]) else Get(d, x))
  {
    if n > 0 {
      AdmitFacts(d, gs, n - 1);
      if gs[n - 1].srcTerm != "" {
        PutFacts(Admit(d, gs, n - 1), gs[n - 1].id, gs[n - 1]);
      }
    }
  }

  lemma AdmitGlobal(gs: seq<GlossaryEntry>)
    requires forall i :: 0 <= i < |gs| ==> gs[i].projectId == GlobalProject
    ensures PyDict.Valid(Admit(Empty(), gs, |gs|)) && AllGlobal(Admit(Empty(), gs, |gs|))
  {
    AdmitFacts(Empty(), gs, |gs|);
    var d := Admit(Empty(), gs, |gs|);
    forall x | x in d.m ensures d.m[x].srcTerm != "" && d.m[x].projectId == GlobalProject && d.m[x].id == x {
      assert Get(d, x) == Some(d.m[x]);
    }
  }

  /** What `_load` fills the cache with. */
  function LoadedCache(stored: seq<StoredEntry>, newId: nat -> string): Dict<string, GlossaryEntry>
  {
    Admit(Empty(), FromStoredAll(stored, newId), |stored|)
  }

  /** What `replace_all` leaves in the cache. */
  function ReplacedCache(entries: seq<Repository.EntryInput>, newId: nat -> string): Dict<string, GlossaryEntry>
  {
    Admit(Empty(), FromInputAll(entries, newId), |entries|)
  }

  /**
   * After `replace_all` nothing of the previous cache is left: an id names
   * the last request entry with a non-empty source term that got that id,
   * as a global entry with that entry's terms and lock, and every other id
   * names nothing.
   */
  lemma ReplacedCacheLookup(entries: seq<Repository.EntryInput>, newId: nat -> string, x: string)
    ensures PyDict.Valid(ReplacedCache(entries, newId)) && AllGlobal(ReplacedCache(entries, newId))
    ensures var k := LastAdmitted(FromInputAll(entries, newId), |entries|, x);
      Get(ReplacedCache(entries, newId), x) ==
        (if k >= 0
         then Some(GlossaryEntry(x, GlobalProject, entries[k].srcTerm, entries[k].tgtTerm, entries[k].locked))
         else None)
    ensures var k := LastAdmitted(FromInputAll(entries, newId), |entries|, x);
      k >= 0 <==> exists i :: 0 <= i < |entries| && Repository.EntryId(entries[i], i, newId) == x && entries[i].srcTerm != ""
  {
    var gs := FromInputAll(entries, newId);
    AdmitFacts(Empty(), gs, |entries|);
    AdmitGlobal(gs);
    var k := LastAdmitted(gs, |entries|, x);
    if k < 0 {
      forall i | 0 <= i < |entries| ensures !(Repository.EntryId(entries[i], i, newId) == x && entries[i].srcTerm != "") {
        assert gs[i] == FromInput(entries[i], i, newId);
      }
    }
  }

  /** `any(e.src_term == t for e in entries)` */
  function HasSrcTerm(vs: seq<GlossaryEntry>, t: string): (b: bool)
    ensures b <==> exists i :: 0 <= i < |vs| && vs[i].srcTerm == t
  {
    if vs == [] then false
    else if vs[0].srcTerm == t then true
    else
      var b := HasSrcTerm(vs[1..], t);
      assert b <==> exists i :: 1 <= i < |vs| && vs[i].srcTerm == t by {
        if b {
          var i :| 0 <= i < |vs[1..]| && vs[1..][i].srcTerm == t;
          assert vs[i + 1].srcTerm == t;
        }
      }
      b
  }

  /** `contains_src_term` scans the whole cache: true iff some cached entry has that source term. */
  lemma HasSrcTermCache(d: Dict<string, GlossaryEntry>, t: string)
    requires PyDict.Valid(d)
    ensures HasSrcTerm(Values(d), t) <==> exists x :: x in d.m && d.m[x].srcTerm == t
  {
    if exists x :: x in d.m && d.m[x].srcTerm == t {
      var x :| x in d.m && d.m[x].srcTerm == t;
      var i :| 0 <= i < |d.keys| && d.keys[i] == x;
      assert Values(d)[i].srcTerm == t;
    }
  }

  /** The loop of `_load`: each stored entry read in turn, those with a source term kept under their id. */
  method AdmitStored(stored: seq<StoredEntry>, newId: nat -> string) returns (d: Dict<string, GlossaryEntry>)
    ensures d == LoadedCache(stored, newId) && PyDict.Valid(d)
  {
    d := Empty();
    ghost var gs := FromStoredAll(stored, newId);
    for i := 0 to |stored|
      invariant d == Admit(Empty(), gs, i) && PyDict.Valid(d)
    {
      var e := stored[i];
      var entry := GlossaryEntry(
        if e.id.Some? && e.id.value != "" then e.id.value else newId(i),
        GlobalProject,
        e.srcTerm.GetOr(""),
        e.tgtTerm.GetOr(""),
        e.locked.Some? && Truthy(e.locked.value));
      assert entry == gs[i];
      if entry.srcTerm != "" {
        PutFacts(d, entry.id, entry);
        d := Put(d, entry.id, entry);
      }
    }
  }

  /** The loop of `replace_all`: every request entry with a source term stored under its own id or a new one. */
  method AdmitInputs(entries: seq<Repository.EntryInput>, newId: nat -> string) returns (d: Dict<string, GlossaryEntry>)
    ensures d == ReplacedCache(entries, newId) && PyDict.Valid(d)
  {
    d := Empty();
    ghost var gs := FromInputAll(entries, newId);
    for i := 0 to |entries|
      invariant d == Admit(Empty(), gs, i) && PyDict.Valid(d)
    {
      var e := entries[i];
      var id := if e.id.Some? && e.id.value != "" then e.id.value else newId(i);
      var entry := GlossaryEntry(id, GlobalProject, e.srcTerm, e.tgtTerm, e.locked);
      assert entry == gs[i];
      if e.srcTerm != "" {
        PutFacts(d, id, entry);
        d := Put(d, id, entry);
      }
    }
  }

  class GlobalGlossaryRepository {
    /** The entries of the glossary file when it is first read (empty for a missing or unreadable file). */
    const stored: seq<StoredEntry>
    var cache: Dict<string, GlossaryEntry>
    var loaded: bool

    ghost predicate Valid()
      reads this
    {
      PyDict.Valid(cache) && AllGlobal(cache) && (!loaded ==> cache == Empty())
    }

    constructor(stored: seq<StoredEntry>)
      ensures Valid() && this.stored == stored && !loaded && cache == Empty()
    {
      this.stored := stored;
      cache := Empty();
      loaded := false;
    }

    /** `_load`: reads the file once; later calls change nothing. */
    method Load(newId: nat -> string)
      requires Valid()
      modifies this
      ensures Valid() && loaded
      ensures old(loaded) ==> cache == old(cache)
      ensures !old(loaded) ==> cache == LoadedCache(stored, newId)
    {
      if loaded {
        return;
      }
      loaded := true;
      AdmitGlobal(FromStoredAll(stored, newId));
      cache := AdmitStored(stored, newId);
    }

    /** `list_all` */
    method ListAll(newId: nat -> string) returns (es: seq<GlossaryEntry>)
      requires Valid()
      modifies this
      ensures Valid() && loaded && es == Values(cache)
      ensures old(loaded) ==> cache == old(cache)
      ensures !old(loaded) ==> cache == LoadedCache(stored, newId)
    {
      Load(newId);
      es := Values(cache);
    }

    /** `replace_all` */
    method ReplaceAll(entries: seq<Repository.EntryInput>, loadId: nat -> string, newId: nat -> string)
      requires Valid()
      modifies this
      ensures Valid() && loaded && cache == ReplacedCache(entries, newId)
    {
      Load(loadId);
      AdmitGlobal(FromInputAll(entries, newId));
      cache := AdmitInputs(entries, newId);
    }

    /** `contains_src_term` */
    method ContainsSrcTerm(t: string, newId: nat -> string) returns (b: bool)
      requires Valid()
      modifies this
      ensures Valid() && loaded
      ensures old(loaded) ==> cache == old(cache)
      ensures !old(loaded) ==> cache == LoadedCache(stored, newId)
      ensures b <==> exists x :: x in cache.m && cache.m[x].srcTerm == t
    {
      Load(newId);
      HasSrcTermCache(cache, t);
      b := HasSrcTerm(Values(cache), t);
    }
  }
}
