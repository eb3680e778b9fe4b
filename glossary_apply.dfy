/**
 * How the glossaries reach the regions: the precedence map built from the
 * global and the project glossary, the translation bookkeeping of an OCR
 * pass, and the override of unlocked regions before composing.  The page
 * endpoints, the glossary endpoint and the batch job all use these same
 * steps.
 */
module GlossaryApply {
  import opened Wrappers
  import opened Models
  import Seqs

  // ---------------------------------------------------------------- the map

  /** `{e.src_term: e.tgt_term for e in gs[..n] if e.locked}`: a later duplicate overwrites. */
  function GlobalMap(gs: seq<GlossaryEntry>, n: nat): map<string, string>
    requires n <= |gs|
  {
    if n == 0 then map[]
    else if gs[n - 1].locked then GlobalMap(gs, n - 1)[gs[n - 1].srcTerm := gs[n - 1].tgtTerm]
    else GlobalMap(gs, n - 1)
  }

  /** The local loop over `ls[..n]`: a locked entry whose term is not a key yet is added. */
  function WithLocal(m: map<string, string>, ls: seq<GlossaryEntry>, n: nat): map<string, string>
    requires n <= |ls|
  {
    if n == 0 then m
    else
      var m' := WithLocal(m, ls, n - 1);
      if ls[n - 1].locked && ls[n - 1].srcTerm !in m' then m'[ls[n - 1].srcTerm := ls[n - 1].tgtTerm] else m'
  }

  /** The glossary map of global entries `gs` and project entries `ls`. */
  function GlossaryMap(gs: seq<GlossaryEntry>, ls: seq<GlossaryEntry>): map<string, string>
  {
    WithLocal(GlobalMap(gs, |gs|), ls, |ls|)
  }

  /** The last locked entry of `gs[..n]` for term `k`, or -1. */
  function LastLocked(gs: seq<GlossaryEntry>, n: nat, k: string): (i: int)
    requires n <= |gs|
    ensures i == -1 || (0 <= i < n && gs[i].locked && gs[i].srcTerm == k)
    ensures forall j :: i < j < n ==> !(gs[j].locked && gs[j].srcTerm == k)
  {
    if n == 0 then -1
    else if gs[n - 1].locked && gs[n - 1].srcTerm == k then n - 1
    else LastLocked(gs, n - 1, k)
  }

  /** The first locked entry of `ls[..n]` for term `k`, or -1. */
  function FirstLocked(ls: seq<GlossaryEntry>, n: nat, k: string): (i: int)
    requires n <= |ls|
    ensures i == -1 || (0 <= i < n && ls[i].locked && ls[i].srcTerm == k)
    ensures forall j :: 0 <= j < n && (i == -1 || j < i) ==> !(ls[j].locked && ls[j].srcTerm == k)
  {
    if n == 0 then -1
    else
      var f := FirstLocked(ls, n - 1, k);
      if f >= 0 then f else if ls[n - 1].locked && ls[n - 1].srcTerm == k then n - 1 else -1
  }

  lemma {:induction false} GlobalMapLookup(gs: seq<GlossaryEntry>, n: nat, k: string)
    requires n <= |gs|
    ensures k in GlobalMap(gs, n) <==> LastLocked(gs, n, k) >= 0
    ensures k in GlobalMap(gs, n) ==> GlobalMap(gs, n)[k] == gs[LastLocked(gs, n, k)].tgtTerm
  {
    if n > 0 {
      GlobalMapLookup(gs, n - 1, k);
    }
  }

  lemma {:induction false} WithLocalLookup(m: map<string, string>, ls: seq<GlossaryEntry>, n: nat, k: string)
    requires n <= |ls|
    ensures k in WithLocal(m, ls, n) <==> k in m || FirstLocked(ls, n, k) >= 0
    ensures k in m ==> WithLocal(m, ls, n)[k] == m[k]
    ensures k !in m && FirstLocked(ls, n, k) >= 0 ==> WithLocal(m, ls, n)[k] == ls[FirstLocked(ls, n, k)].tgtTerm
  {
    if n > 0 {
      WithLocalLookup(m, ls, n - 1, k);
    }
  }

  /**
   * A term is a key iff some locked entry, global or local, has it.  A
   * locked global entry wins (the last one for that term); otherwise the
   * first locked local entry gives the translation.  Unlocked entries are
   * never consulted.
   */
  lemma GlossaryMapLookup(gs: seq<GlossaryEntry>, ls: seq<GlossaryEntry>, k: string)
    ensures k in GlossaryMap(gs, ls) <==> LastLocked(gs, |gs|, k) >= 0 || FirstLocked(ls, |ls|, k) >= 0
    ensures LastLocked(gs, |gs|, k) >= 0 ==> GlossaryMap(gs, ls)[k] == gs[LastLocked(gs, |gs|, k)].tgtTerm
    ensures (LastLocked(gs, |gs|, k) < 0 && FirstLocked(ls, |ls|, k) >= 0 ==>
             GlossaryMap(gs, ls)[k] == ls[FirstLocked(ls, |ls|, k)].tgtTerm)
  {
    GlobalMapLookup(gs, |gs|, k);
    WithLocalLookup(GlobalMap(gs, |gs|), ls, |ls|, k);
  }

  /** The glossary-map loops of the page endpoints, the glossary endpoint and the job. */
  method BuildGlossaryMap(globalEntries: seq<GlossaryEntry>, localEntries: seq<GlossaryEntry>)
    returns (m: map<string, string>)
    ensures m == GlossaryMap(globalEntries, localEntries)
  {
    m := map[];
    for i := 0 to |globalEntries|
      invariant m == GlobalMap(globalEntries, i)
    {
      var e := globalEntries[i];
      if e.locked {
        m := m[e.srcTerm := e.tgtTerm];
      }
    }
    ghost var g := m;
    for i := 0 to |localEntries|
      invariant m == WithLocal(g, localEntries, i)
    {
      var e := localEntries[i];
      if !e.locked {
        continue;
      }
      if e.srcTerm in m {
        continue;
      }
      m := m[e.srcTerm := e.tgtTerm];
    }
  }

  // ---------------------------------------------------------------- translating an OCR pass

  /** `translate_indexes` after `rs[..n]`: the positions whose text is not a glossary key. */
  function PendingIndexes(rs: seq<TextRegion>, m: map<string, string>, n: nat): (idx: seq<nat>)
    requires n <= |rs|
    ensures forall j :: 0 <= j < |idx| ==> idx[j] < n && rs[idx[j]].srcText !in m
    ensures |idx| <= n
  {
    if n == 0 then []
    else PendingIndexes(rs, m, n - 1) + (if rs[n - 1].srcText !in m then [n - 1] else [])
  }

  /** `texts_to_translate`: the texts at the pending positions, in order. */
  function PendingTexts(rs: seq<TextRegion>, m: map<string, string>): (ts: seq<string>)
    ensures |ts| == |PendingIndexes(rs, m, |rs|)|
    ensures forall j :: 0 <= j < |ts| ==> ts[j] == rs[PendingIndexes(rs, m, |rs|)[j]].srcText
  {
    var idx := PendingIndexes(rs, m, |rs|);
    seq(|idx|, j requires 0 <= j < |idx| => rs[idx[j]].srcText)
  }

  /** How many pending positions come before position `i`: where its translation sits. */
  function Rank(rs: seq<TextRegion>, m: map<string, string>, i: nat): nat
    requires i <= |rs|
  {
    |PendingIndexes(rs, m, i)|
  }

  lemma {:induction false} PendingPrefix(rs: seq<TextRegion>, m: map<string, string>, i: nat, n: nat)
    requires i <= n <= |rs|
    ensures |PendingIndexes(rs, m, i)| <= |PendingIndexes(rs, m, n)|
    ensures PendingIndexes(rs, m, n)[..|PendingIndexes(rs, m, i)|] == PendingIndexes(rs, m, i)
  {
    if i < n {
      PendingPrefix(rs, m, i, n - 1);
      var p := PendingIndexes(rs, m, n - 1);
      assert PendingIndexes(rs, m, n)[..|p|] == p;
    }
  }

  /** The pending positions are increasing. */
  lemma {:induction false} PendingIncreasing(rs: seq<TextRegion>, m: map<string, string>, n: nat)
    requires n <= |rs|
    ensures forall a, b :: 0 <= a < b < |PendingIndexes(rs, m, n)| ==> PendingIndexes(rs, m, n)[a] < PendingIndexes(rs, m, n)[b]
  {
    if n > 0 {
      PendingIncreasing(rs, m, n - 1);
    }
  }

  /** Every pending region is listed, at its rank. */
  lemma PendingAtRank(rs: seq<TextRegion>, m: map<string, string>, i: nat, n: nat)
    requires i < n <= |rs| && rs[i].srcText !in m
    ensures Rank(rs, m, i) < |PendingIndexes(rs, m, n)| && PendingIndexes(rs, m, n)[Rank(rs, m, i)] == i
  {
    PendingPrefix(rs, m, i + 1, n);
    assert PendingIndexes(rs, m, i + 1) == PendingIndexes(rs, m, i) + [i];
  }

  /** The pending positions are exactly the regions whose text is not a key, in increasing order, each at its rank. */
  lemma PendingFacts(rs: seq<TextRegion>, m: map<string, string>)
    ensures forall a, b :: 0 <= a < b < |PendingIndexes(rs, m, |rs|)| ==> PendingIndexes(rs, m, |rs|)[a] < PendingIndexes(rs, m, |rs|)[b]
    ensures forall i :: 0 <= i < |rs| && rs[i].srcText !in m ==>
      Rank(rs, m, i) < |PendingIndexes(rs, m, |rs|)| && PendingIndexes(rs, m, |rs|)[Rank(rs, m, i)] == i
  {
    PendingIncreasing(rs, m, |rs|);
    forall i | 0 <= i < |rs| && rs[i].srcText !in m
      ensures Rank(rs, m, i) < |PendingIndexes(rs, m, |rs|)| && PendingIndexes(rs, m, |rs|)[Rank(rs, m, i)] == i
    {
      PendingAtRank(rs, m, i, |rs|);
    }
  }

  /** `regions[i].tgt_text = t` */
  function WithTranslation(r: TextRegion, t: string): TextRegion
  {
    r.(tgtText := Some(t))
  }

  /** A region whose text is a glossary key takes the key's value. */
  function KeyTranslated(r: TextRegion, m: map<string, string>): TextRegion
  {
    if r.srcText in m then WithTranslation(r, m[r.srcText]) else r
  }

  /**
   * Region `i` as `run_ocr` stores it: a glossary key takes its glossary
   * value; any other region takes the translation at its rank when the
   * translator gave that many (the `zip` stops at the shorter list), else
   * keeps its text.
   */
  function TranslatedAt(rs: seq<TextRegion>, m: map<string, string>, trs: seq<string>, i: nat): TextRegion
    requires i < |rs|
  {
    if rs[i].srcText in m then KeyTranslated(rs[i], m)
    else if Rank(rs, m, i) < |trs| then WithTranslation(rs[i], trs[Rank(rs, m, i)])
    else rs[i]
  }

  function Translated(rs: seq<TextRegion>, m: map<string, string>, trs: seq<string>): (out: seq<TextRegion>)
    ensures |out| == |rs|
  {
    seq(|rs|, i requires 0 <= i < |rs| => TranslatedAt(rs, m, trs, i))
  }

  /** What the translator is asked for: nothing when every text is a glossary key. */
  function TranslatorOutput(rs: seq<TextRegion>, m: map<string, string>, translate: seq<string> -> seq<string>): seq<string>
  {
    if PendingTexts(rs, m) == [] then [] else translate(PendingTexts(rs, m))
  }

  /**
   * Only the translation changes; a glossary key is never sent and takes
   * its value; with at least one translation per pending text, every
   * region ends up translated.
   */
  lemma TranslatedFacts(rs: seq<TextRegion>, m: map<string, string>, trs: seq<string>, i: nat)
    requires i < |rs|
    ensures TranslatedAt(rs, m, trs, i).(tgtText := rs[i].tgtText) == rs[i]
    ensures rs[i].srcText in m ==> TranslatedAt(rs, m, trs, i).tgtText == Some(m[rs[i].srcText])
    ensures rs[i].srcText in m ==> i !in PendingIndexes(rs, m, |rs|)
    ensures |trs| >= |PendingTexts(rs, m)| ==> TranslatedAt(rs, m, trs, i).tgtText.Some?
  {
    if rs[i].srcText !in m {
      PendingAtRank(rs, m, i, |rs|);
    }
  }

  /**
   * Each pending text is sent exactly once, in position order: the `j`-th
   * text sent is the text of the `j`-th pending region, and its translation
   * comes back to that region.
   */
  lemma SentOncePerRegion(rs: seq<TextRegion>, m: map<string, string>, trs: seq<string>, j: nat)
    requires j < |PendingTexts(rs, m)| && j < |trs|
    ensures var i := PendingIndexes(rs, m, |rs|)[j];
      PendingTexts(rs, m)[j] == rs[i].srcText && TranslatedAt(rs, m, trs, i).tgtText == Some(trs[j])
  {
    var p := PendingIndexes(rs, m, |rs|);
    var i := p[j];
    PendingIncreasing(rs, m, |rs|);
    PendingAtRank(rs, m, i, |rs|);
    // i sits at its rank, and the list is increasing, so its rank is j
    assert p[Rank(rs, m, i)] == i;
  }

  /** The state after the first loop of `TranslateRegions` has seen `rs[..i]`. */
  ghost predicate CollectedUpTo(rs: seq<TextRegion>, m: map<string, string>, i: nat,
                                out: seq<TextRegion>, texts: seq<string>, indexes: seq<nat>)
    requires i <= |rs|
  {
    |out| == |rs| && indexes == PendingIndexes(rs, m, i)
    && |texts| == |indexes| && (forall j :: 0 <= j < |texts| ==> texts[j] == rs[indexes[j]].srcText)
    && (forall k :: 0 <= k < |rs| ==> out[k] == (if k < i then KeyTranslated(rs[k], m) else rs[k]))
  }

  /** The state after the second loop of `TranslateRegions` has written `j` translations. */
  ghost predicate AppliedUpTo(rs: seq<TextRegion>, m: map<string, string>, trs: seq<string>, j: nat, out: seq<TextRegion>)
  {
    |out| == |rs|
    && forall k :: 0 <= k < |rs| ==>
      out[k] == (if rs[k].srcText !in m && Rank(rs, m, k) < j && Rank(rs, m, k) < |trs|
                 then WithTranslation(rs[k], trs[Rank(rs, m, k)])
                 else KeyTranslated(rs[k], m))
  }

  lemma ApplyStep(rs: seq<TextRegion>, m: map<string, string>, trs: seq<string>, j: nat, out: seq<TextRegion>)
    requires AppliedUpTo(rs, m, trs, j, out)
    requires j < |PendingIndexes(rs, m, |rs|)| && j < |trs|
    ensures var idx := PendingIndexes(rs, m, |rs|)[j];
      AppliedUpTo(rs, m, trs, j + 1, out[idx := WithTranslation(out[idx], trs[j])])
  {
    var p := PendingIndexes(rs, m, |rs|);
    var idx := p[j];
    PendingIncreasing(rs, m, |rs|);
    PendingAtRank(rs, m, idx, |rs|);
    assert Rank(rs, m, idx) == j;
    forall k | 0 <= k < |rs| && k != idx && rs[k].srcText !in m
      ensures Rank(rs, m, k) != j
    {
      PendingAtRank(rs, m, k, |rs|);
    }
  }

  lemma AppliedAll(rs: seq<TextRegion>, m: map<string, string>, trs: seq<string>, n: nat, out: seq<TextRegion>)
    requires AppliedUpTo(rs, m, trs, n, out)
    requires n == |PendingIndexes(rs, m, |rs|)| || n == |trs|
    ensures out == Translated(rs, m, trs)
  {
    forall k | 0 <= k < |rs| && rs[k].srcText !in m ensures Rank(rs, m, k) < |PendingIndexes(rs, m, |rs|)| {
      PendingAtRank(rs, m, k, |rs|);
    }
  }

  /** The two loops of `run_ocr` (and of the job's OCR phase) around the translator. */
  method TranslateRegions(regions: seq<TextRegion>, m: map<string, string>, translate: seq<string> -> seq<string>)
    returns (out: seq<TextRegion>)
    ensures out == Translated(regions, m, TranslatorOutput(regions, m, translate))
  {
    var keyed, texts, indexes := CollectPending(regions, m);
    assert texts == PendingTexts(regions, m);
    var translations: seq<string> := [];
    if texts != [] {
      translations := translate(texts);
    }
    out := WriteTranslations(regions, m, translations, indexes, keyed);
  }

  /** The first loop of `TranslateRegions`: glossary keys take their value, the other texts are listed. */
  method CollectPending(regions: seq<TextRegion>, m: map<string, string>)
    returns (out: seq<TextRegion>, texts: seq<string>, indexes: seq<nat>)
    ensures CollectedUpTo(regions, m, |regions|, out, texts, indexes)
  {
    out := regions;
    texts, indexes := [], [];
    for i := 0 to |regions|
      invariant CollectedUpTo(regions, m, i, out, texts, indexes)
    {
      var r := regions[i];
      if r.srcText in m {
        Seqs.AppendEmpty(indexes);
        assert PendingIndexes(regions, m, i + 1) == indexes;
        out := out[i := WithTranslation(r, m[r.srcText])];
        continue;
      }
      assert PendingIndexes(regions, m, i + 1) == indexes + [i];
      texts := texts + [r.srcText];
      indexes := indexes + [i];
    }
  }

  /** The second loop of `TranslateRegions`: each translation written back to its region, in order. */
  method WriteTranslations(regions: seq<TextRegion>, m: map<string, string>, translations: seq<string>,
                           indexes: seq<nat>, keyed: seq<TextRegion>)
    returns (out: seq<TextRegion>)
    requires CollectedUpTo(regions, m, |regions|, keyed, PendingTexts(regions, m), indexes)
    ensures out == Translated(regions, m, translations)
  {
    out := keyed;
    var n := if |indexes| <= |translations| then |indexes| else |translations|;
    for j := 0 to n
      invariant AppliedUpTo(regions, m, translations, j, out)
    {
      ApplyStep(regions, m, translations, j, out);
      var idx := indexes[j];
      out := out[idx := WithTranslation(out[idx], translations[j])];
    }
    AppliedAll(regions, m, translations, n, out);
  }

  // ---------------------------------------------------------------- overriding before composing

  /** `if not r.locked and r.src_text in glossary_map: r.tgt_text = glossary_map[r.src_text]` */
  function Override(r: TextRegion, m: map<string, string>): TextRegion
  {
    if !r.locked && r.srcText in m then WithTranslation(r, m[r.srcText]) else r
  }

  function Overridden(rs: seq<TextRegion>, m: map<string, string>): (out: seq<TextRegion>)
    ensures |out| == |rs|
  {
    seq(|rs|, i requires 0 <= i < |rs| => Override(rs[i], m))
  }

  /**
   * The override touches only the translation, and only of unlocked regions
   * whose source text is a key, which then carry that key's value; applying
   * it twice is applying it once.
   */
  lemma OverrideFacts(r: TextRegion, m: map<string, string>)
    ensures Override(r, m).(tgtText := r.tgtText) == r
    ensures r.locked || r.srcText !in m ==> Override(r, m) == r
    ensures !r.locked && r.srcText in m ==> Override(r, m).tgtText == Some(m[r.srcText])
    ensures Override(Override(r, m), m) == Override(r, m)
  {
  }

  /** The override loop of `render_translated` and of the job's compose phase. */
  method OverrideRegions(regions: seq<TextRegion>, m: map<string, string>) returns (out: seq<TextRegion>)
    ensures out == Overridden(regions, m)
  {
    out := regions;
    for i := 0 to |regions|
      invariant |out| == |regions|
      invariant forall k :: 0 <= k < |regions| ==> out[k] == (if k < i then Override(regions[k], m) else regions[k])
    {
      var r := regions[i];
      if r.locked {
        continue;
      }
      if r.srcText in m {
        out := out[i := WithTranslation(r, m[r.srcText])];
      }
    }
  }
}
