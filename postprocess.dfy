/**
 * Post-processing of detected regions: the recheck of short texts with a
 * secondary English reader, and the advanced mode's normalisation,
 * confidence gate and label dropping.  The secondary reader is an oracle
 * from crop rectangles to its result lists.
 */
module OcrPostprocess {
  import opened Wrappers
  import opened PyText
  import opened Models
  import Script
  import Seqs

  /**
   * One item of the secondary reader's result for a crop: a box, text and
   * confidence triple (with None when `float()` rejects the confidence), a
   * pair without confidence, or an item too short to hold a text.
   */
  datatype SecItem = Scored(text: string, conf: Option<real>) | Unscored(text: string) | Bare

  /** The confidence a secondary text needs before its region may be dropped. */
  const RecheckMinConfidence: real := 0.6

  /** The `target_dpi` default of both recheck passes; no caller passes another. */
  const DefaultTargetDpi: int := 150

  /** Whether every item's confidence converts to a number. */
  predicate ScoresParse(res: seq<SecItem>)
  {
    forall i :: 0 <= i < |res| ==> !(res[i].Scored? && res[i].conf.None?)
  }

  /** The key `max` ranks items by: the confidence, 0.0 for items without one. */
  function Score(it: SecItem): real
    requires !(it.Scored? && it.conf.None?)
  {
    if it.Scored? then it.conf.value else 0.0
  }

  /** `max(res, key=...)`: the first item with the highest score. */
  function BestIndex(res: seq<SecItem>): (b: nat)
    requires res != [] && ScoresParse(res)
    ensures b < |res|
    ensures forall i :: 0 <= i < |res| ==> Score(res[i]) <= Score(res[b])
    ensures forall i :: 0 <= i < b ==> Score(res[i]) < Score(res[b])
    decreases |res|
  {
    if |res| == 1 then 0
    else
      var front := res[..|res| - 1];
      assert forall i :: 0 <= i < |front| ==> front[i] == res[i];
      var b := BestIndex(front);
      if Score(res[|res| - 1]) > Score(front[b]) then |res| - 1 else b
  }

  /**
   * Whether the secondary result drops its region: it is non-empty, every
   * score converts, and the best item has a text whose normalised form is
   * label-like, without Han, read with confidence at least 0.6.  Every
   * failure while reading the result keeps the region.
   */
  predicate RemovedByRecheck(res: seq<SecItem>)
  {
    res != [] && ScoresParse(res) &&
    var best := res[BestIndex(res)];
    !best.Bare? &&
    var t := Script.NormalizeOcrText(Some(best.text));
    Score(best) >= RecheckMinConfidence && Script.IsPureLabelLike(t) && !Script.HasHan(t)
  }

  /** The verdict loop: `max` over the items, then the three conditions. */
  method RecheckVerdict(res: seq<SecItem>) returns (remove: bool)
    ensures remove == RemovedByRecheck(res)
  {
    if res == [] {
      return false;
    }
    var b := 0;
    for i := 0 to |res|
      invariant ScoresParse(res[..i])
      invariant i == 0 ==> b == 0
      invariant i > 0 ==> b == BestIndex(res[..i])
    {
      if res[i].Scored? && res[i].conf.None? {
        // float() raised while ranking: the region is kept.
        assert !ScoresParse(res);
        return false;
      }
      assert forall j :: 0 <= j < i ==> res[..i + 1][j] == res[..i][j];
      assert res[..i + 1][..i] == res[..i];
      if i > 0 && Score(res[i]) > Score(res[b]) {
        b := i;
      }
    }
    assert res[..|res|] == res;
    var best := res[b];
    if best.Bare? {
      return false;
    }
    var t := Script.NormalizeOcrText(Some(best.text));
    remove := Score(best) >= RecheckMinConfidence && Script.IsPureLabelLike(t) && !Script.HasHan(t);
  }

  /**
   * Fail open: an empty result, a confidence that does not convert, or a
   * best item without a confidence never drops a region; a dropped region's
   * secondary text is label-like and free of Han.
   */
  lemma RecheckFailOpen(res: seq<SecItem>)
    ensures res == [] ==> !RemovedByRecheck(res)
    ensures !ScoresParse(res) ==> !RemovedByRecheck(res)
    ensures res != [] && ScoresParse(res) && !res[BestIndex(res)].Scored? ==> !RemovedByRecheck(res)
    ensures RemovedByRecheck(res) ==>
      var best := res[BestIndex(res)];
      best.Scored? && best.conf.value >= RecheckMinConfidence
      && (forall i :: 0 <= i < |res| ==> Score(res[i]) <= best.conf.value)
      && !Script.HasHan(Script.NormalizeOcrText(Some(best.text)))
  {
  }

  /** A crop rectangle handed to the secondary reader, with the size it is resized to, if any. */
  datatype Crop = Crop(left: int, top: int, right: int, bottom: int, resized: Option<(int, int)>)

  /** `max(1, int(min(w, h) * 0.002))` */
  function Pad(w: int, h: int): int
  {
    MaxInt(1, Trunc(MinInt(w, h) as real * 0.002))
  }

  /** The pad is one pixel per 500 of the smaller side, and at least one. */
  lemma PadValue(w: int, h: int)
    requires w >= 0 && h >= 0
    ensures Pad(w, h) == MaxInt(1, MinInt(w, h) / 500) && Pad(w, h) >= 1
  {
    var m := MinInt(w, h);
    var q := m / 500;
    var r := m % 500;
    assert m == 500 * q + r && 0 <= r < 500;
    assert m as real * 0.002 == q as real + r as real / 500.0;
    assert (m as real * 0.002).Floor == q;
  }

  /** `_crop_np`: the int-truncated box, padded and clamped to the image. */
  function CropBox(w: int, h: int, b: Box): Crop
  {
    var pad := Pad(w, h);
    Crop(MaxInt(0, Trunc(b.x1) - pad), MaxInt(0, Trunc(b.y1) - pad),
         MinInt(w, Trunc(b.x2) + pad), MinInt(h, Trunc(b.y2) + pad), None)
  }

  /**
   * The crop lies inside the image and extends the truncated box by the pad
   * on every side, except where the image edge cuts it.
   */
  lemma CropBoxBounds(w: int, h: int, b: Box)
    requires w >= 0 && h >= 0
    ensures var c := CropBox(w, h, b);
      0 <= c.left && c.right <= w && 0 <= c.top && c.bottom <= h
      && (c.left == Trunc(b.x1) - Pad(w, h) || c.left == 0)
      && (c.top == Trunc(b.y1) - Pad(w, h) || c.top == 0)
      && (c.right == Trunc(b.x2) + Pad(w, h) || c.right == w)
      && (c.bottom == Trunc(b.y2) + Pad(w, h) || c.bottom == h)
  {
    PadValue(w, h);
  }

  /** The secondary reader's resolution over the page's: never more than 1. */
  function RecheckScale(sourceDpi: Option<int>, targetDpi: int): (s: real)
    ensures s <= 1.0
    ensures targetDpi > 0 ==> s > 0.0
    ensures (sourceDpi.None? || sourceDpi.value <= 0) ==> s == 1.0
    ensures sourceDpi.Some? && 0 < sourceDpi.value <= targetDpi ==> s == 1.0
    ensures sourceDpi.Some? && sourceDpi.value > targetDpi && sourceDpi.value > 0 ==>
      s == targetDpi as real / sourceDpi.value as real
  {
    if sourceDpi.Some? && sourceDpi.value > 0 then MinReal(1.0, targetDpi as real / sourceDpi.value as real) else 1.0
  }

  /** `_crop_np_scaled`: a scale of 0.999 or more uses the plain crop. */
  function ScaledCrop(w: int, h: int, b: Box, scale: real): Crop
  {
    Shrunk(CropBox(w, h, b), scale)
  }

  /** A crop resized by `scale`, unless the scale is 0.999 or more. */
  function Shrunk(c: Crop, scale: real): Crop
  {
    if scale >= 0.999 then c
    else c.(resized := Some((MaxInt(1, Trunc((c.right - c.left) as real * scale)), MaxInt(1, Trunc((c.bottom - c.top) as real * scale)))))
  }

  /** Crops are never enlarged: a resized crop is no bigger than the plain one. */
  lemma NeverUpscaled(w: int, h: int, b: Box, scale: real)
    requires 0.0 <= scale <= 1.0
    ensures var c := ScaledCrop(w, h, b, scale);
      c.left == CropBox(w, h, b).left && c.right == CropBox(w, h, b).right
      && c.top == CropBox(w, h, b).top && c.bottom == CropBox(w, h, b).bottom
      && (c.resized.Some? <==> scale < 0.999)
      && (c.resized.Some? && c.right - c.left >= 1 ==> 1 <= c.resized.value.0 <= c.right - c.left)
      && (c.resized.Some? && c.bottom - c.top >= 1 ==> 1 <= c.resized.value.1 <= c.bottom - c.top)
  {
    ShrunkFacts(CropBox(w, h, b), scale);
  }

  lemma ShrunkFacts(c: Crop, scale: real)
    requires 0.0 <= scale <= 1.0 && c.resized.None?
    ensures var r := Shrunk(c, scale);
      r.left == c.left && r.right == c.right && r.top == c.top && r.bottom == c.bottom
      && (r.resized.Some? <==> scale < 0.999)
      && (r.resized.Some? && c.right - c.left >= 1 ==> 1 <= r.resized.value.0 <= c.right - c.left)
      && (r.resized.Some? && c.bottom - c.top >= 1 ==> 1 <= r.resized.value.1 <= c.bottom - c.top)
  {
    if scale < 0.999 {
      if c.right - c.left >= 1 {
        ShrunkSide(c.right - c.left, scale);
      }
      if c.bottom - c.top >= 1 {
        ShrunkSide(c.bottom - c.top, scale);
      }
    }
  }

  /** One side of a resized crop: between 1 and the side itself. */
  lemma ShrunkSide(n: int, scale: real)
    requires n >= 1 && 0.0 <= scale <= 1.0
    ensures 1 <= MaxInt(1, Trunc(n as real * scale)) <= n
  {
    var x := n as real * scale;
    var y := n as real * (1.0 - scale);
    assert 0.0 <= x && 0.0 <= y;
    assert x + y == n as real;
    assert Trunc(x) == x.Floor && x.Floor <= n;
  }

  function Crops(rs: seq<TextRegion>, w: int, h: int, scale: real): (cs: seq<Crop>)
    ensures |cs| == |rs|
  {
    seq(|rs|, i requires 0 <= i < |rs| => ScaledCrop(w, h, rs[i].bbox, scale))
  }

  /** `s[:cap]` splits a list of length n at this point, Python's slice rules included. */
  function CapPoint(n: nat, cap: int): (p: nat)
    ensures p <= n
  {
    if cap >= 0 then MinInt(cap, n) else MaxInt(0, n + cap)
  }

  /** A non-negative cap rechecks the first `cap` items; a negative one all but the last `-cap`. */
  lemma CapPointCases(n: nat, cap: int)
    ensures cap >= n ==> CapPoint(n, cap) == n
    ensures 0 <= cap <= n ==> CapPoint(n, cap) == cap
    ensures cap < 0 ==> n - CapPoint(n, cap) == MinInt(n, -cap)
  {
  }

  /** A region whose stripped text has at most four characters. */
  predicate IsShort(r: TextRegion)
  {
    |Strip(r.srcText)| <= 4
  }

  predicate IsLong(r: TextRegion)
  {
    !IsShort(r)
  }

  /**
   * The rechecked regions that stay, paired with the reader's results by
   * `zip`: a rechecked region without a result is dropped.
   */
  function KeptAfter(toCheck: seq<TextRegion>, results: seq<seq<SecItem>>): (kept: seq<TextRegion>)
    ensures |kept| <= MinInt(|toCheck|, |results|)
    decreases |toCheck|
  {
    var n := MinInt(|toCheck|, |results|);
    if n == 0 then []
    else KeptAfter(toCheck[..n - 1], results[..n - 1]) + (if RemovedByRecheck(results[n - 1]) then [] else [toCheck[n - 1]])
  }

  /** Each kept region is a rechecked one whose result does not drop it. */
  lemma {:induction false} KeptAfterMembers(toCheck: seq<TextRegion>, results: seq<seq<SecItem>>)
    ensures forall r :: r in KeptAfter(toCheck, results) ==>
      exists i :: 0 <= i < MinInt(|toCheck|, |results|) && toCheck[i] == r && !RemovedByRecheck(results[i])
    decreases |toCheck|
  {
    var n := MinInt(|toCheck|, |results|);
    if n > 0 {
      var tc := toCheck[..n - 1];
      var rs := results[..n - 1];
      KeptAfterMembers(tc, rs);
      assert MinInt(|tc|, |rs|) == n - 1;
      forall r | r in KeptAfter(toCheck, results)
        ensures exists i :: 0 <= i < n && toCheck[i] == r && !RemovedByRecheck(results[i])
      {
        if r in KeptAfter(tc, rs) {
          var i :| 0 <= i < n - 1 && tc[i] == r && !RemovedByRecheck(rs[i]);
          assert toCheck[i] == r && results[i] == rs[i];
        } else {
          assert toCheck[n - 1] == r && !RemovedByRecheck(results[n - 1]);
        }
      }
    }
  }

  /** Whether the reader returned a result for every rechecked region and none of them drops its region. */
  predicate AllKept(toCheck: seq<TextRegion>, results: seq<seq<SecItem>>)
  {
    |results| >= |toCheck| && forall i :: 0 <= i < |toCheck| ==> !RemovedByRecheck(results[i])
  }

  /** When every paired result keeps its region and none is missing, every rechecked region stays, in order. */
  lemma {:induction false} KeptAfterFailOpen(toCheck: seq<TextRegion>, results: seq<seq<SecItem>>)
    requires AllKept(toCheck, results)
    ensures KeptAfter(toCheck, results) == toCheck
    decreases |toCheck|
  {
    var n := |toCheck|;
    if n > 0 {
      KeptAfterFailOpen(toCheck[..n - 1], results[..n - 1]);
    }
  }

  /** Results beyond the number of rechecked regions are ignored. */
  lemma KeptAfterPrefix(toCheck: seq<TextRegion>, results: seq<seq<SecItem>>, n: nat)
    requires n == MinInt(|toCheck|, |results|)
    ensures KeptAfter(toCheck[..n], results[..n]) == KeptAfter(toCheck, results)
  {
    if n > 0 {
      assert toCheck[..n][..n - 1] == toCheck[..n - 1];
      assert results[..n][..n - 1] == results[..n - 1];
    }
  }

  /**
   * The short regions after the recheck: the kept rechecked ones, then the
   * ones beyond the cap unchanged.
   */
  function RecheckShort(short: seq<TextRegion>, cap: int, scale: real, w: int, h: int,
                        reader: seq<Crop> -> seq<seq<SecItem>>): seq<TextRegion>
  {
    var p := CapPoint(|short|, cap);
    var toCheck := short[..p];
    KeptAfter(toCheck, reader(Crops(toCheck, w, h, scale))) + short[p..]
  }

  /** `recheck_suspicious_regions`: long regions, then the recheck of the short ones. */
  function RecheckOutput(regions: seq<TextRegion>, cap: int, scale: real, w: int, h: int,
                         reader: seq<Crop> -> seq<seq<SecItem>>): seq<TextRegion>
  {
    var short := Seqs.Select(regions, IsShort);
    var long := Seqs.Select(regions, IsLong);
    if short == [] then long else long + RecheckShort(short, cap, scale, w, h, reader)
  }

  /**
   * The recheck output consists of the long regions in input order, then
   * the kept rechecked short regions, then the short regions beyond the
   * cap; only the first `CapPoint` short regions reach the reader.
   */
  lemma RecheckBlocks(regions: seq<TextRegion>, cap: int, scale: real, w: int, h: int,
                      reader: seq<Crop> -> seq<seq<SecItem>>)
    requires Seqs.Select(regions, IsShort) != []
    ensures var short := Seqs.Select(regions, IsShort);
      var p := CapPoint(|short|, cap);
      var toCheck := short[..p];
      RecheckOutput(regions, cap, scale, w, h, reader)
        == Seqs.Select(regions, IsLong) + KeptAfter(toCheck, reader(Crops(toCheck, w, h, scale))) + short[p..]
  {
  }

  /** Without short regions the input comes back unchanged. */
  lemma RecheckWithoutShort(regions: seq<TextRegion>, cap: int, scale: real, w: int, h: int,
                            reader: seq<Crop> -> seq<seq<SecItem>>)
    requires Seqs.Select(regions, IsShort) == []
    ensures RecheckOutput(regions, cap, scale, w, h, reader) == regions
  {
    Seqs.SelectMembers(regions, IsShort);
    forall i | 0 <= i < |regions| ensures IsLong(regions[i]) {
      assert regions[i] in regions;
    }
    Seqs.SelectAll(regions, IsLong);
  }

  /** The recheck only drops regions: every output region is an input region. */
  lemma RecheckOnlyDrops(regions: seq<TextRegion>, cap: int, scale: real, w: int, h: int,
                         reader: seq<Crop> -> seq<seq<SecItem>>)
    ensures forall r :: r in RecheckOutput(regions, cap, scale, w, h, reader) ==> r in regions
  {
    var short := Seqs.Select(regions, IsShort);
    Seqs.SelectMembers(regions, IsShort);
    Seqs.SelectMembers(regions, IsLong);
    if short != [] {
      var p := CapPoint(|short|, cap);
      var toCheck := short[..p];
      var results := reader(Crops(toCheck, w, h, scale));
      KeptAfterMembers(toCheck, results);
      forall r | r in RecheckOutput(regions, cap, scale, w, h, reader) ensures r in regions {
        if r in KeptAfter(toCheck, results) {
          var i :| 0 <= i < MinInt(|toCheck|, |results|) && toCheck[i] == r && !RemovedByRecheck(results[i]);
          assert r in short;
        } else if r in short[p..] {
          assert r in short;
        }
      }
    }
  }

  /**
   * When the cap covers every short region and the reader keeps each of
   * them, the recheck loses nothing: the output is a permutation of the input.
   */
  lemma RecheckLossless(regions: seq<TextRegion>, cap: int, scale: real, w: int, h: int,
                        reader: seq<Crop> -> seq<seq<SecItem>>)
    requires cap >= |Seqs.Select(regions, IsShort)|
    requires AllKept(Seqs.Select(regions, IsShort), reader(Crops(Seqs.Select(regions, IsShort), w, h, scale)))
    ensures multiset(RecheckOutput(regions, cap, scale, w, h, reader)) == multiset(regions)
  {
    var short := Seqs.Select(regions, IsShort);
    var long := Seqs.Select(regions, IsLong);
    Seqs.SelectSplitCount(regions, IsShort, IsLong);
    assert multiset(long) + multiset(short) == multiset(regions);
    if short == [] {
      RecheckWithoutShort(regions, cap, scale, w, h, reader);
    } else {
      RecheckShortAllKept(short, cap, scale, w, h, reader);
      assert RecheckOutput(regions, cap, scale, w, h, reader) == long + short;
    }
  }

  /** With the cap covering them and a reader that keeps them all, the short regions come back unchanged. */
  lemma RecheckShortAllKept(short: seq<TextRegion>, cap: int, scale: real, w: int, h: int,
                            reader: seq<Crop> -> seq<seq<SecItem>>)
    requires cap >= |short|
    requires AllKept(short, reader(Crops(short, w, h, scale)))
    ensures RecheckShort(short, cap, scale, w, h, reader) == short
  {
    var p := CapPoint(|short|, cap);
    assert short[..p] == short;
    KeptAfterFailOpen(short, reader(Crops(short, w, h, scale)));
    assert short[p..] == [];
  }

  /** The loop applying the recheck to the short regions. */
  method CheckShort(suspicious: seq<TextRegion>, cap: int, sourceDpi: Option<int>, targetDpi: int, w: int, h: int,
                    reader: seq<Crop> -> seq<seq<SecItem>>) returns (res: seq<TextRegion>)
    ensures res == RecheckShort(suspicious, cap, RecheckScale(sourceDpi, targetDpi), w, h, reader)
  {
    var p := CapPoint(|suspicious|, cap);
    var toCheck := suspicious[..p];
    var passthrough := suspicious[p..];
    var scale := 1.0;
    if sourceDpi.Some? && sourceDpi.value > 0 {
      scale := MinReal(1.0, targetDpi as real / sourceDpi.value as real);
    }
    assert scale == RecheckScale(sourceDpi, targetDpi);
    var crops := CropAll(toCheck, w, h, scale);
    var results := reader(crops);
    res := KeepRechecked(toCheck, results);
    res := res + passthrough;
  }

  /** The crops of the regions to recheck, one per region. */
  method CropAll(toCheck: seq<TextRegion>, w: int, h: int, scale: real) returns (crops: seq<Crop>)
    ensures crops == Crops(toCheck, w, h, scale)
  {
    crops := [];
    for i := 0 to |toCheck|
      invariant crops == Crops(toCheck[..i], w, h, scale)
    {
      crops := crops + [ScaledCrop(w, h, toCheck[i].bbox, scale)];
    }
    assert toCheck[..|toCheck|] == toCheck;
  }

  /** The rechecked regions whose result does not drop them, in order. */
  method KeepRechecked(toCheck: seq<TextRegion>, results: seq<seq<SecItem>>) returns (res: seq<TextRegion>)
    ensures res == KeptAfter(toCheck, results)
  {
    res := [];
    var n := MinInt(|toCheck|, |results|);
    for i := 0 to n
      invariant res == KeptAfter(toCheck[..i], results[..i])
    {
      assert toCheck[..i + 1][..i] == toCheck[..i] && results[..i + 1][..i] == results[..i];
      var remove := RecheckVerdict(results[i]);
      if !remove {
        res := res + [toCheck[i]];
      }
    }
    KeptAfterPrefix(toCheck, results, n);
  }

  /** `recheck_suspicious_regions` */
  method RecheckSuspicious(regions: seq<TextRegion>, cap: int, sourceDpi: Option<int>, targetDpi: int, w: int, h: int,
                           reader: seq<Crop> -> seq<seq<SecItem>>) returns (out: seq<TextRegion>)
    ensures out == RecheckOutput(regions, cap, RecheckScale(sourceDpi, targetDpi), w, h, reader)
  {
    out := [];
    var suspicious: seq<TextRegion> := [];
    for i := 0 to |regions|
      invariant out == Seqs.Select(regions[..i], IsLong)
      invariant suspicious == Seqs.Select(regions[..i], IsShort)
    {
      assert regions[..i + 1][..i] == regions[..i];
      var r := regions[i];
      if |Strip(r.srcText)| <= 4 {
        suspicious := suspicious + [r];
      } else {
        out := out + [r];
      }
    }
    assert regions[..|regions|] == regions;
    if suspicious == [] {
      return;
    }
    var tail := CheckShort(suspicious, cap, sourceDpi, targetDpi, w, h, reader);
    out := out + tail;
  }

  /** The region with its text normalised. */
  function NormalizeRegion(r: TextRegion): TextRegion
  {
    r.(srcText := Script.NormalizeOcrText(Some(r.srcText)))
  }

  /** Whether a normalised region passes the confidence gate and is not label-like. */
  predicate Survives(r: TextRegion, minConfidence: real)
  {
    r.confidence >= minConfidence && !Script.IsPureLabelLike(r.srcText)
  }

  /** The normalised regions that pass the confidence and label gates, in input order. */
  function Survivors(regions: seq<TextRegion>, minConfidence: real): seq<TextRegion>
    decreases |regions|
  {
    if regions == [] then []
    else
      var r := NormalizeRegion(regions[|regions| - 1]);
      Survivors(regions[..|regions| - 1], minConfidence) + (if Survives(r, minConfidence) then [r] else [])
  }

  /**
   * Every survivor is an input region with its text normalised (so without
   * outer or doubled whitespace), confident enough and not label-like, hence
   * never empty.
   */
  lemma {:induction false} SurvivorsMembers(regions: seq<TextRegion>, minConfidence: real)
    ensures forall r :: r in Survivors(regions, minConfidence) ==>
      (exists k :: 0 <= k < |regions| && r == NormalizeRegion(regions[k]))
      && r.confidence >= minConfidence && !Script.IsPureLabelLike(r.srcText) && r.srcText != []
      && Collapsed(r.srcText)
    decreases |regions|
  {
    if regions != [] {
      var n := |regions| - 1;
      SurvivorsMembers(regions[..n], minConfidence);
      Script.NormalizeCollapses(Some(regions[n].srcText));
      forall r | r in Survivors(regions, minConfidence)
        ensures exists k :: 0 <= k < |regions| && r == NormalizeRegion(regions[k])
      {
        if r in Survivors(regions[..n], minConfidence) {
          var k :| 0 <= k < n && r == NormalizeRegion(regions[..n][k]);
          assert regions[..n][k] == regions[k];
        }
      }
      forall r | r in Survivors(regions, minConfidence) ensures Collapsed(r.srcText) {
        if !(r in Survivors(regions[..n], minConfidence)) {
          assert r == NormalizeRegion(regions[n]);
        }
      }
    }
  }

  /** Conversely, every input region that passes both gates once normalised is among the survivors. */
  lemma {:induction false} SurvivorsComplete(regions: seq<TextRegion>, minConfidence: real, k: nat)
    requires k < |regions| && Survives(NormalizeRegion(regions[k]), minConfidence)
    ensures NormalizeRegion(regions[k]) in Survivors(regions, minConfidence)
    decreases |regions|
  {
    var n := |regions| - 1;
    if k < n {
      assert regions[..n][k] == regions[k];
      SurvivorsComplete(regions[..n], minConfidence, k);
    }
  }

  /**
   * `filter_regions_advanced`: the survivors, rechecked like
   * `recheck_suspicious_regions` when the recheck is enabled.
   */
  function AdvancedOutput(regions: seq<TextRegion>, minConfidence: real, enableRecheck: bool, cap: int, scale: real,
                          w: int, h: int, reader: seq<Crop> -> seq<seq<SecItem>>): seq<TextRegion>
  {
    var survivors := Survivors(regions, minConfidence);
    if !enableRecheck then survivors else RecheckOutput(survivors, cap, scale, w, h, reader)
  }

  /**
   * With the recheck disabled, or with no short survivor, the advanced mode
   * returns the survivors in input order; every region it returns is a
   * survivor.
   */
  lemma AdvancedWithoutRecheck(regions: seq<TextRegion>, minConfidence: real, enableRecheck: bool, cap: int, scale: real,
                               w: int, h: int, reader: seq<Crop> -> seq<seq<SecItem>>)
    ensures var survivors := Survivors(regions, minConfidence);
      var out := AdvancedOutput(regions, minConfidence, enableRecheck, cap, scale, w, h, reader);
      ((!enableRecheck || Seqs.Select(survivors, IsShort) == []) ==> out == survivors)
      && (forall r :: r in out ==> r in survivors)
  {
    var survivors := Survivors(regions, minConfidence);
    RecheckOnlyDrops(survivors, cap, scale, w, h, reader);
    if Seqs.Select(survivors, IsShort) == [] {
      RecheckWithoutShort(survivors, cap, scale, w, h, reader);
    }
  }

  /** The advanced-mode loop. */
  method FilterRegionsAdvanced(regions: seq<TextRegion>, minConfidence: real, enableRecheck: bool, cap: int,
                               sourceDpi: Option<int>, targetDpi: int, w: int, h: int,
                               reader: seq<Crop> -> seq<seq<SecItem>>) returns (out: seq<TextRegion>)
    ensures out == AdvancedOutput(regions, minConfidence, enableRecheck, cap, RecheckScale(sourceDpi, targetDpi), w, h, reader)
  {
    out := [];
    var suspicious: seq<TextRegion> := [];
    ghost var survivors: seq<TextRegion> := [];
    for i := 0 to |regions|
      invariant survivors == Survivors(regions[..i], minConfidence)
      invariant enableRecheck ==> out == Seqs.Select(survivors, IsLong) && suspicious == Seqs.Select(survivors, IsShort)
      invariant !enableRecheck ==> out == survivors && suspicious == []
    {
      assert regions[..i + 1][..i] == regions[..i];
      var r := regions[i].(srcText := Script.NormalizeOcrText(Some(regions[i].srcText)));
      if r.confidence < minConfidence {
        continue;
      }
      if Script.IsPureLabelLike(r.srcText) {
        continue;
      }
      Seqs.SelectSnoc(survivors, r, IsLong);
      Seqs.SelectSnoc(survivors, r, IsShort);
      survivors := survivors + [r];
      if enableRecheck && |Strip(r.srcText)| <= 4 {
        suspicious := suspicious + [r];
      } else {
        out := out + [r];
      }
    }
    assert regions[..|regions|] == regions;
    if !enableRecheck || suspicious == [] {
      out := out + suspicious;
      return;
    }
    var tail := CheckShort(suspicious, cap, sourceDpi, targetDpi, w, h, reader);
    out := out + tail;
  }
}
