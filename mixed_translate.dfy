/**
 * `translate_batch_preserving_non_han`: every text is cut into Han and
 * non-Han runs; the Han runs that are not glossary terms go to the
 * translator in one batch, and each text is rebuilt run by run, copying
 * non-Han runs, substituting glossary terms and using the translation of
 * the remaining Han runs.  The translator is an oracle from the batch of
 * segment texts to the list it returns.
 */
module MixedTranslate {
  import opened Wrappers
  import opened PyText
  import opened Script

  /** A Han run sent to the translator: its text index, run index and stripped text. */
  datatype Segment = Segment(i: nat, j: nat, text: string)

  function Key(s: Segment): (nat, nat)
  {
    (s.i, s.j)
  }

  /** Whether a run goes to the translator. */
  predicate Sent(run: Run, glossary: map<string, string>)
  {
    run.isHan && Strip(run.text) != [] && Strip(run.text) !in glossary
  }

  /** The runs of every text, `None` read as the empty text. */
  function RunsOf(texts: seq<Option<string>>): (split: seq<seq<Run>>)
    ensures |split| == |texts|
  {
    seq(|texts|, i requires 0 <= i < |texts| => HanRuns(OrEmpty(texts[i])))
  }

  /** The segments of the first `n` runs of text `i`. */
  function TextSegments(i: nat, runs: seq<Run>, glossary: map<string, string>, n: nat): seq<Segment>
    requires n <= |runs|
  {
    if n == 0 then []
    else
      TextSegments(i, runs, glossary, n - 1)
      + (if Sent(runs[n - 1], glossary) then [Segment(i, n - 1, Strip(runs[n - 1].text))] else [])
  }

  /** The segments of the first `m` texts, in text order. */
  function SegmentsUpTo(split: seq<seq<Run>>, glossary: map<string, string>, m: nat): seq<Segment>
    requires m <= |split|
  {
    if m == 0 then []
    else SegmentsUpTo(split, glossary, m - 1) + TextSegments(m - 1, split[m - 1], glossary, |split[m - 1]|)
  }

  /** The lists `segment_keys` and `segment_texts`, as one list of segments. */
  function Segments(split: seq<seq<Run>>, glossary: map<string, string>): seq<Segment>
  {
    SegmentsUpTo(split, glossary, |split|)
  }

  /** `segment_texts`, one stripped Han text per segment. */
  function SegmentTexts(segs: seq<Segment>): (r: seq<string>)
    ensures |r| == |segs|
  {
    seq(|segs|, k requires 0 <= k < |segs| => segs[k].text)
  }

  /** `segment_keys`, one `(i, j)` per segment. */
  function SegmentKeys(segs: seq<Segment>): (r: seq<(nat, nat)>)
    ensures |r| == |segs|
  {
    seq(|segs|, k requires 0 <= k < |segs| => Key(segs[k]))
  }

  /** The dictionary `translated_by_key` after the first `n` pairs of `zip(segment_keys, translations)`. */
  function KeyMapUpTo(segs: seq<Segment>, trs: seq<string>, n: nat): map<(nat, nat), string>
    requires n <= |segs| && n <= |trs|
  {
    if n == 0 then map[]
    else KeyMapUpTo(segs, trs, n - 1)[Key(segs[n - 1]) := trs[n - 1]]
  }

  /** `zip` stops at the shorter list. */
  function KeyMap(segs: seq<Segment>, trs: seq<string>): map<(nat, nat), string>
  {
    KeyMapUpTo(segs, trs, MinInt(|segs|, |trs|))
  }

  /** What run `j` of text `i` contributes to the output. */
  function Part(i: nat, j: nat, run: Run, glossary: map<string, string>, byKey: map<(nat, nat), string>): string
  {
    if !run.isHan then run.text
    else if Strip(run.text) == [] then run.text
    else if Strip(run.text) in glossary then glossary[Strip(run.text)]
    else if (i, j) in byKey then byKey[(i, j)]
    else run.text
  }

  /** The parts of the first `n` runs of text `i`, joined. */
  function Joined(i: nat, runs: seq<Run>, glossary: map<string, string>, byKey: map<(nat, nat), string>, n: nat): string
    requires n <= |runs|
  {
    if n == 0 then ""
    else Joined(i, runs, glossary, byKey, n - 1) + Part(i, n - 1, runs[n - 1], glossary, byKey)
  }

  /** The translator's answer: it is only called when there is something to translate. */
  function Translations(segs: seq<Segment>, translate: seq<string> -> seq<string>): seq<string>
  {
    if segs != [] then translate(SegmentTexts(segs)) else []
  }

  function MixedSpec(texts: seq<Option<string>>, glossary: map<string, string>,
                     translate: seq<string> -> seq<string>): (out: seq<string>)
    ensures |out| == |texts|
  {
    var split := RunsOf(texts);
    var segs := Segments(split, glossary);
    Rebuild(split, glossary, KeyMap(segs, Translations(segs, translate)))
  }

  /** The output texts, each the join of its runs' parts. */
  function Rebuild(split: seq<seq<Run>>, glossary: map<string, string>, byKey: map<(nat, nat), string>): (out: seq<string>)
    ensures |out| == |split|
  {
    seq(|split|, i requires 0 <= i < |split| => Joined(i, split[i], glossary, byKey, |split[i]|))
  }

  // ---------------------------------------------------------------- the segment list

  predicate KeyBefore(a: Segment, b: Segment)
  {
    a.i < b.i || (a.i == b.i && a.j < b.j)
  }

  /** Segments appear in strictly increasing (text, run) order, so no key is repeated. */
  predicate Sorted(segs: seq<Segment>)
  {
    forall k, l :: 0 <= k < l < |segs| ==> KeyBefore(segs[k], segs[l])
  }

  /** The segment names a run that is sent, and carries that run's stripped text. */
  predicate Names(seg: Segment, split: seq<seq<Run>>, glossary: map<string, string>)
  {
    seg.i < |split| && seg.j < |split[seg.i]|
    && Sent(split[seg.i][seg.j], glossary) && seg.text == Strip(split[seg.i][seg.j].text)
  }

  predicate HasSegment(segs: seq<Segment>, i: nat, j: nat)
  {
    exists k :: 0 <= k < |segs| && Key(segs[k]) == (i, j)
  }

  /** Each segment names a run that is sent. */
  predicate Sound(segs: seq<Segment>, split: seq<seq<Run>>, glossary: map<string, string>)
  {
    forall k :: 0 <= k < |segs| ==> Names(segs[k], split, glossary)
  }

  /** Each run that is sent among the first `m` texts has a segment. */
  predicate Complete(segs: seq<Segment>, split: seq<seq<Run>>, glossary: map<string, string>, m: nat)
  {
    forall i, j :: 0 <= i < m && i < |split| && 0 <= j < |split[i]| && Sent(split[i][j], glossary) ==>
      HasSegment(segs, i, j)
  }

  /** The segment names one of the first `n` runs of text `i`, a run that is sent, with its stripped text. */
  predicate NamesRun(seg: Segment, i: nat, runs: seq<Run>, glossary: map<string, string>, n: nat)
  {
    seg.i == i && seg.j < n && seg.j < |runs| && Sent(runs[seg.j], glossary) && seg.text == Strip(runs[seg.j].text)
  }

  /** The segments of one text: sorted by run, each naming a sent run, every sent run named. */
  lemma {:induction false} TextSegmentsFacts(i: nat, runs: seq<Run>, glossary: map<string, string>, n: nat)
    requires n <= |runs|
    ensures forall k :: 0 <= k < |TextSegments(i, runs, glossary, n)| ==>
      NamesRun(TextSegments(i, runs, glossary, n)[k], i, runs, glossary, n)
    ensures Sorted(TextSegments(i, runs, glossary, n))
    ensures forall j :: 0 <= j < n && Sent(runs[j], glossary) ==> HasSegment(TextSegments(i, runs, glossary, n), i, j)
  {
    if n > 0 {
      var front := TextSegments(i, runs, glossary, n - 1);
      TextSegmentsFacts(i, runs, glossary, n - 1);
      var extra := if Sent(runs[n - 1], glossary) then [Segment(i, n - 1, Strip(runs[n - 1].text))] else [];
      var ts := TextSegments(i, runs, glossary, n);
      assert ts == front + extra;
      forall k | 0 <= k < |ts| ensures NamesRun(ts[k], i, runs, glossary, n) {
        if k < |front| {
          assert ts[k] == front[k] && NamesRun(front[k], i, runs, glossary, n - 1);
        } else {
          assert ts[k] == extra[0];
        }
      }
      assert Sorted(ts) by {
        forall k, l | 0 <= k < l < |ts| ensures KeyBefore(ts[k], ts[l]) {
          assert ts[k] == front[k];
          if l < |front| {
            assert ts[l] == front[l];
            assert KeyBefore(front[k], front[l]);
          } else {
            assert ts[l] == extra[0];
          }
        }
      }
      forall j | 0 <= j < n && Sent(runs[j], glossary) ensures HasSegment(ts, i, j) {
        if j < n - 1 {
          var k :| 0 <= k < |front| && Key(front[k]) == (i, j);
          assert ts[k] == front[k];
        } else {
          assert Key(ts[|front|]) == (i, j);
        }
      }
    }
  }

  /** Each segment of the first `m` texts names a run of one of them that is sent. */
  lemma {:induction false} SegmentsSound(split: seq<seq<Run>>, glossary: map<string, string>, m: nat)
    requires m <= |split|
    ensures Sound(SegmentsUpTo(split, glossary, m), split, glossary)
    ensures forall k :: 0 <= k < |SegmentsUpTo(split, glossary, m)| ==> SegmentsUpTo(split, glossary, m)[k].i < m
  {
    if m > 0 {
      var segs := SegmentsUpTo(split, glossary, m);
      var front := SegmentsUpTo(split, glossary, m - 1);
      var ts := TextSegments(m - 1, split[m - 1], glossary, |split[m - 1]|);
      SegmentsSound(split, glossary, m - 1);
      TextSegmentsFacts(m - 1, split[m - 1], glossary, |split[m - 1]|);
      assert segs == front + ts;
      forall k | 0 <= k < |segs| ensures Names(segs[k], split, glossary) && segs[k].i < m {
        if k < |front| {
          assert segs[k] == front[k] && Names(front[k], split, glossary);
        } else {
          var t := ts[k - |front|];
          assert segs[k] == t && NamesRun(t, m - 1, split[m - 1], glossary, |split[m - 1]|);
        }
      }
    }
  }

  /** The segments come in strictly increasing (text index, run index) order. */
  lemma {:induction false} SegmentsSorted(split: seq<seq<Run>>, glossary: map<string, string>, m: nat)
    requires m <= |split|
    ensures Sorted(SegmentsUpTo(split, glossary, m))
  {
    if m > 0 {
      var segs := SegmentsUpTo(split, glossary, m);
      var front := SegmentsUpTo(split, glossary, m - 1);
      var ts := TextSegments(m - 1, split[m - 1], glossary, |split[m - 1]|);
      SegmentsSorted(split, glossary, m - 1);
      SegmentsSound(split, glossary, m - 1);
      TextSegmentsFacts(m - 1, split[m - 1], glossary, |split[m - 1]|);
      assert segs == front + ts;
      forall k, l | 0 <= k < l < |segs| ensures KeyBefore(segs[k], segs[l]) {
        if l < |front| {
          assert segs[k] == front[k] && segs[l] == front[l];
          assert KeyBefore(front[k], front[l]);
        } else if k >= |front| {
          assert segs[k] == ts[k - |front|] && segs[l] == ts[l - |front|];
          assert KeyBefore(ts[k - |front|], ts[l - |front|]);
        } else {
          assert segs[k] == front[k] && front[k].i < m - 1;
          assert segs[l] == ts[l - |front|] && NamesRun(ts[l - |front|], m - 1, split[m - 1], glossary, |split[m - 1]|);
        }
      }
    }
  }

  /** Every run that is sent, among the first `m` texts, has a segment. */
  lemma {:induction false} SegmentsComplete(split: seq<seq<Run>>, glossary: map<string, string>, m: nat)
    requires m <= |split|
    ensures Complete(SegmentsUpTo(split, glossary, m), split, glossary, m)
  {
    if m > 0 {
      var segs := SegmentsUpTo(split, glossary, m);
      var front := SegmentsUpTo(split, glossary, m - 1);
      var ts := TextSegments(m - 1, split[m - 1], glossary, |split[m - 1]|);
      SegmentsComplete(split, glossary, m - 1);
      TextSegmentsFacts(m - 1, split[m - 1], glossary, |split[m - 1]|);
      assert segs == front + ts;
      forall i, j | 0 <= i < m && i < |split| && 0 <= j < |split[i]| && Sent(split[i][j], glossary)
        ensures HasSegment(segs, i, j)
      {
        if i < m - 1 {
          var k :| 0 <= k < |front| && Key(front[k]) == (i, j);
          assert segs[k] == front[k];
        } else {
          var k :| 0 <= k < |ts| && Key(ts[k]) == (i, j);
          assert segs[|front| + k] == ts[k];
        }
      }
    }
  }

  /**
   * The segment list is exactly the runs that are sent, each once, in
   * (text index, run index) order.
   */
  lemma SegmentsExact(split: seq<seq<Run>>, glossary: map<string, string>)
    ensures var segs := Segments(split, glossary);
      Sorted(segs) && Sound(segs, split, glossary) && Complete(segs, split, glossary, |split|)
  {
    SegmentsSound(split, glossary, |split|);
    SegmentsSorted(split, glossary, |split|);
    SegmentsComplete(split, glossary, |split|);
  }

  /** No segment's text is a glossary term: glossary terms never reach the translator. */
  lemma GlossaryNeverSent(texts: seq<Option<string>>, glossary: map<string, string>)
    ensures forall t :: t in SegmentTexts(Segments(RunsOf(texts), glossary)) ==> t !in glossary
  {
    var split := RunsOf(texts);
    var segs := Segments(split, glossary);
    SegmentsExact(split, glossary);
    forall t | t in SegmentTexts(segs) ensures t !in glossary {
      var k :| 0 <= k < |segs| && SegmentTexts(segs)[k] == t;
      assert Names(segs[k], split, glossary);
    }
  }

  /**
   * The dictionary holds the translation of exactly the segments the
   * translator answered: the k-th answer for the k-th segment.
   */
  lemma {:induction false} KeyMapLookup(segs: seq<Segment>, trs: seq<string>, n: nat)
    requires Sorted(segs) && n <= |segs| && n <= |trs|
    ensures forall k :: 0 <= k < n ==>
      Key(segs[k]) in KeyMapUpTo(segs, trs, n) && KeyMapUpTo(segs, trs, n)[Key(segs[k])] == trs[k]
    ensures forall key :: key in KeyMapUpTo(segs, trs, n) ==>
      exists k :: 0 <= k < n && Key(segs[k]) == key
  {
    if n > 0 {
      KeyMapLookup(segs, trs, n - 1);
      var km := KeyMapUpTo(segs, trs, n);
      forall k | 0 <= k < n ensures Key(segs[k]) in km && km[Key(segs[k])] == trs[k] {
        if k < n - 1 {
          assert KeyBefore(segs[k], segs[n - 1]);
        }
      }
    }
  }

  /**
   * The part of the run named by segment `k` is the k-th answer, or the
   * run's own text when the translator returned fewer than `k + 1` answers.
   */
  lemma AnsweredPart(segs: seq<Segment>, trs: seq<string>, k: nat, run: Run, glossary: map<string, string>)
    requires Sorted(segs) && k < |segs| && Sent(run, glossary)
    ensures Part(segs[k].i, segs[k].j, run, glossary, KeyMap(segs, trs)) == (if k < |trs| then trs[k] else run.text)
  {
    var n := MinInt(|segs|, |trs|);
    KeyMapLookup(segs, trs, n);
    if k >= |trs| {
      forall k' | 0 <= k' < n ensures Key(segs[k']) != Key(segs[k]) {
        assert KeyBefore(segs[k'], segs[k]);
      }
    }
  }

  /**
   * A run that is sent has its segment, carrying the run's stripped text,
   * and becomes the translator's answer for that segment, or stays as it
   * was when the translator returned too few answers.
   */
  lemma SentRunTranslated(texts: seq<Option<string>>, glossary: map<string, string>,
                          translate: seq<string> -> seq<string>, i: nat, j: nat)
    requires i < |texts| && j < |RunsOf(texts)[i]| && Sent(RunsOf(texts)[i][j], glossary)
    ensures var segs := Segments(RunsOf(texts), glossary);
      var trs := Translations(segs, translate);
      exists k :: 0 <= k < |segs| && Key(segs[k]) == (i, j) && segs[k].text == Strip(RunsOf(texts)[i][j].text)
        && Part(i, j, RunsOf(texts)[i][j], glossary, KeyMap(segs, trs)) == (if k < |trs| then trs[k] else RunsOf(texts)[i][j].text)
  {
    var split := RunsOf(texts);
    var segs := Segments(split, glossary);
    var trs := Translations(segs, translate);
    SegmentsExact(split, glossary);
    var k :| 0 <= k < |segs| && Key(segs[k]) == (i, j);
    assert Names(segs[k], split, glossary);
    AnsweredPart(segs, trs, k, split[i][j], glossary);
  }

  // ---------------------------------------------------------------- end-to-end

  /** When every run's part is its own text, the joined parts are the text again. */
  lemma {:induction false} JoinedIdentity(i: nat, runs: seq<Run>, glossary: map<string, string>,
                                          byKey: map<(nat, nat), string>, n: nat)
    requires n <= |runs|
    requires forall j :: 0 <= j < n ==> Part(i, j, runs[j], glossary, byKey) == runs[j].text
    ensures Joined(i, runs, glossary, byKey, n) == Concat(runs[..n])
  {
    if n > 0 {
      JoinedIdentity(i, runs, glossary, byKey, n - 1);
      assert runs[..n][..n - 1] == runs[..n - 1];
    }
  }

  /** A Han run has no whitespace to strip. */
  lemma HanRunStripped(run: Run)
    requires UniformRun(run) && run.isHan
    ensures Strip(run.text) == run.text
  {
    HanIsNotSpace(run.text[0]);
    HanIsNotSpace(run.text[|run.text| - 1]);
    StripTrimmed(run.text);
  }

  /** The first character of every run occurs in the runs' concatenation. */
  lemma {:induction false} ConcatHas(runs: seq<Run>, j: nat)
    requires j < |runs| && runs[j].text != []
    ensures exists c :: 0 <= c < |Concat(runs)| && Concat(runs)[c] == runs[j].text[0]
    decreases |runs|
  {
    var n := |runs| - 1;
    var front := Concat(runs[..n]);
    assert Concat(runs) == front + runs[n].text;
    if j == n {
      assert Concat(runs)[|front|] == runs[j].text[0];
    } else {
      assert runs[..n][j] == runs[j];
      ConcatHas(runs[..n], j);
      var c :| 0 <= c < |front| && front[c] == runs[j].text[0];
      assert Concat(runs)[c] == front[c];
    }
  }

  /** A text without Han characters comes back unchanged, whatever the glossary and the translator. */
  lemma NoHanUnchanged(texts: seq<Option<string>>, glossary: map<string, string>, translate: seq<string> -> seq<string>,
                       i: nat)
    requires i < |texts| && !HasHan(OrEmpty(texts[i]))
    ensures MixedSpec(texts, glossary, translate)[i] == OrEmpty(texts[i])
  {
    var t := OrEmpty(texts[i]);
    var runs := HanRuns(t);
    HanRunsCorrect(t);
    var split := RunsOf(texts);
    var segs := Segments(split, glossary);
    var km := KeyMap(segs, Translations(segs, translate));
    forall j | 0 <= j < |runs| ensures !runs[j].isHan {
      assert UniformRun(runs[j]);
      ConcatHas(runs, j);
      var c :| 0 <= c < |t| && t[c] == runs[j].text[0];
      assert IsHanChar(t[c]) == runs[j].isHan;
    }
    JoinedIdentity(i, runs, glossary, km, |runs|);
    assert runs[..|runs|] == runs;
  }

  /**
   * With an empty glossary and a translator that returns its input, every
   * text comes back unchanged: the service only ever replaces Han runs.
   */
  lemma IdentityTranslation(texts: seq<Option<string>>, translate: seq<string> -> seq<string>)
    requires forall xs :: translate(xs) == xs
    ensures forall i :: 0 <= i < |texts| ==> MixedSpec(texts, map[], translate)[i] == OrEmpty(texts[i])
  {
    var glossary: map<string, string> := map[];
    var split := RunsOf(texts);
    var segs := Segments(split, glossary);
    var trs := Translations(segs, translate);
    var km := KeyMap(segs, trs);
    assert |trs| == |segs|;
    SegmentsExact(split, glossary);
    forall i | 0 <= i < |texts| ensures MixedSpec(texts, glossary, translate)[i] == OrEmpty(texts[i]) {
      var runs := split[i];
      HanRunsCorrect(OrEmpty(texts[i]));
      forall j | 0 <= j < |runs| ensures Part(i, j, runs[j], glossary, km) == runs[j].text {
        assert UniformRun(runs[j]);
        if runs[j].isHan {
          HanRunStripped(runs[j]);
          assert HasSegment(segs, i, j);
          var k :| 0 <= k < |segs| && Key(segs[k]) == (i, j);
          assert Names(segs[k], split, glossary);
          AnsweredPart(segs, trs, k, runs[j], glossary);
          assert trs[k] == SegmentTexts(segs)[k];
        }
      }
      JoinedIdentity(i, runs, glossary, km, |runs|);
      assert runs[..|runs|] == runs;
    }
  }

  // ---------------------------------------------------------------- the service

  /** `translate_batch_preserving_non_han` */
  method TranslateBatchPreservingNonHan(texts: seq<Option<string>>, glossary: map<string, string>,
                                        translate: seq<string> -> seq<string>) returns (out: seq<string>)
    ensures out == MixedSpec(texts, glossary, translate)
  {
    ghost var segs := Segments(RunsOf(texts), glossary);
    var splitRuns, segmentKeys, segmentTexts := CollectSegments(texts, glossary);
    var translations: seq<string> := [];
    if segmentTexts != [] {
      translations := translate(segmentTexts);
    }
    assert translations == Translations(segs, translate);
    var byKey := ZipKeys(segmentKeys, translations, segs);
    out := RebuildTexts(splitRuns, glossary, byKey);
  }

  /** The last loop of `translate_batch_preserving_non_han`: every text joined again from its runs. */
  method RebuildTexts(splitRuns: seq<seq<Run>>, glossary: map<string, string>, byKey: map<(nat, nat), string>)
    returns (out: seq<string>)
    ensures out == Rebuild(splitRuns, glossary, byKey)
  {
    ghost var rebuilt := Rebuild(splitRuns, glossary, byKey);
    out := [];
    for i := 0 to |splitRuns|
      invariant out == rebuilt[..i]
    {
      var joined := JoinRuns(i, splitRuns[i], glossary, byKey);
      out := out + [joined];
    }
    assert out == rebuilt;
  }

  /** The first loop of `translate_batch_preserving_non_han`: splits every text and lists the segments to send. */
  method CollectSegments(texts: seq<Option<string>>, glossary: map<string, string>)
    returns (splitRuns: seq<seq<Run>>, segmentKeys: seq<(nat, nat)>, segmentTexts: seq<string>)
    ensures splitRuns == RunsOf(texts)
    ensures segmentKeys == SegmentKeys(Segments(RunsOf(texts), glossary))
    ensures segmentTexts == SegmentTexts(Segments(RunsOf(texts), glossary))
  {
    ghost var split := RunsOf(texts);
    ghost var segs: seq<Segment> := [];
    segmentTexts := [];
    segmentKeys := [];
    splitRuns := [];
    for i := 0 to |texts|
      invariant |splitRuns| == i && forall i' :: 0 <= i' < i ==> splitRuns[i'] == split[i']
      invariant segs == SegmentsUpTo(split, glossary, i)
      invariant segmentTexts == SegmentTexts(segs) && segmentKeys == SegmentKeys(segs)
    {
      var runs := IterHanRuns(OrEmpty(texts[i]));
      assert runs == split[i];
      var keys, segTexts := SegmentsOfText(i, runs, glossary);
      ghost var ts := TextSegments(i, runs, glossary, |runs|);
      SegmentListsAppend(segs, ts);
      segs := segs + ts;
      segmentKeys := segmentKeys + keys;
      segmentTexts := segmentTexts + segTexts;
      splitRuns := splitRuns + [runs];
    }
    assert splitRuns == split;
  }

  /** The inner loop over the runs of text `i`. */
  method SegmentsOfText(i: nat, runs: seq<Run>, glossary: map<string, string>)
    returns (keys: seq<(nat, nat)>, segTexts: seq<string>)
    ensures keys == SegmentKeys(TextSegments(i, runs, glossary, |runs|))
    ensures segTexts == SegmentTexts(TextSegments(i, runs, glossary, |runs|))
  {
    keys, segTexts := [], [];
    for j := 0 to |runs|
      invariant keys == SegmentKeys(TextSegments(i, runs, glossary, j))
      invariant segTexts == SegmentTexts(TextSegments(i, runs, glossary, j))
    {
      SegmentListsAppend(TextSegments(i, runs, glossary, j), [Segment(i, j, Strip(runs[j].text))]);
      var run := runs[j];
      if !run.isHan {
        continue;
      }
      var seg := Strip(run.text);
      if seg == [] {
        continue;
      }
      if seg in glossary {
        continue;
      }
      keys := keys + [(i, j)];
      segTexts := segTexts + [seg];
    }
  }

  lemma SegmentListsAppend(a: seq<Segment>, b: seq<Segment>)
    ensures SegmentKeys(a + b) == SegmentKeys(a) + SegmentKeys(b)
    ensures SegmentTexts(a + b) == SegmentTexts(a) + SegmentTexts(b)
  {
    assert forall k :: 0 <= k < |a| ==> (a + b)[k] == a[k];
    assert forall k :: |a| <= k < |a| + |b| ==> (a + b)[k] == b[k - |a|];
  }

  /** `for (i, j), t in zip(segment_keys, translations): translated_by_key[(i, j)] = t` */
  method ZipKeys(segmentKeys: seq<(nat, nat)>, translations: seq<string>, ghost segs: seq<Segment>)
    returns (byKey: map<(nat, nat), string>)
    requires segmentKeys == SegmentKeys(segs)
    ensures byKey == KeyMap(segs, translations)
  {
    byKey := map[];
    var n := MinInt(|segmentKeys|, |translations|);
    for k := 0 to n
      invariant byKey == KeyMapUpTo(segs, translations, k)
    {
      byKey := byKey[segmentKeys[k] := translations[k]];
    }
  }

  /** The second loop of `translate_batch_preserving_non_han`, for one text: `"".join(parts)`. */
  method JoinRuns(i: nat, runs: seq<Run>, glossary: map<string, string>, byKey: map<(nat, nat), string>)
    returns (joined: string)
    ensures joined == Joined(i, runs, glossary, byKey, |runs|)
  {
    joined := "";
    for j := 0 to |runs|
      invariant joined == Joined(i, runs, glossary, byKey, j)
    {
      var run := runs[j];
      var part: string;
      if !run.isHan {
        part := run.text;
      } else {
        var stripped := Strip(run.text);
        if stripped == [] {
          part := run.text;
        } else if stripped in glossary {
          part := glossary[stripped];
        } else if (i, j) in byKey {
          part := byKey[(i, j)];
        } else {
          part := run.text;
        }
      }
      joined := joined + part;
    }
  }
}
