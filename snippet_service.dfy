/**
 * The snippet service: the pixel operations a snippet's edit history is
 * made of (removing a white background, erasing detected text), replaying
 * that history over the base render, and the version records kept beside
 * each snippet.  Images are RGBA pixel grids; an image being edited is a
 * two-dimensional array that the operations overwrite, an image on disk
 * is its grid of pixels.
 */
module SnippetService {
  import opened Wrappers
  import opened Models
  import opened PyDict
  import opened Repository
  import opened PyText
  import PyFormat

  /** An RGBA pixel, each channel a byte. */
  datatype Rgba = Rgba(r: int, g: int, b: int, a: int)

  /** Rows of pixels, top to bottom. */
  type Pixels = seq<seq<Rgba>>

  /** PIL's `"white"` on an RGBA image. */
  const White: Rgba := Rgba(255, 255, 255, 255)

  const DefaultThreshold: int := 240
  const DefaultShrink: int := 2

  /** `h` rows of `w` pixels each. */
  predicate Grid(p: Pixels, h: nat, w: nat)
  {
    |p| == h && forall y :: 0 <= y < |p| ==> |p[y]| == w
  }

  /** The pixels of an array image, as a grid. */
  function Snapshot(a: array2<Rgba>): (p: Pixels)
    reads a
    ensures Grid(p, a.Length0, a.Length1)
    ensures forall y, x :: 0 <= y < a.Length0 && 0 <= x < a.Length1 ==> p[y][x] == a[y, x]
  {
    seq(a.Length0, y requires 0 <= y < a.Length0 reads a =>
      seq(a.Length1, x requires 0 <= x < a.Length1 reads a => a[y, x]))
  }

  /** A new array holding a grid's pixels (`img.convert("RGBA")` of an RGBA image, a copy). */
  method ToArray(p: Pixels, h: nat, w: nat) returns (a: array2<Rgba>)
    requires Grid(p, h, w)
    ensures fresh(a) && a.Length0 == h && a.Length1 == w
    ensures Snapshot(a) == p
  {
    a := new Rgba[h, w]((y, x) requires 0 <= y < h && 0 <= x < w => p[y][x]);
    assert forall y :: 0 <= y < h ==> Snapshot(a)[y] == p[y];
  }

  /** A copy of an array image. */
  method Copy(img: array2<Rgba>) returns (a: array2<Rgba>)
    ensures fresh(a) && a.Length0 == img.Length0 && a.Length1 == img.Length1
    ensures Snapshot(a) == Snapshot(img)
  {
    var h, w := img.Length0, img.Length1;
    a := new Rgba[h, w]((y, x) reads img requires 0 <= y < h && 0 <= x < w => img[y, x]);
    assert forall y :: 0 <= y < h ==> Snapshot(a)[y] == Snapshot(img)[y];
  }

  // ---------------------------------------------------------------- white background

  /** The mean of a pixel's three colour channels. */
  function Mean(p: Rgba): real
  {
    (p.r + p.g + p.b) as real / 3.0
  }

  /**
   * The pixel after `remove_white_background`: the colour is kept and the
   * alpha becomes 0 when the channel mean is above the threshold, 255
   * otherwise.
   */
  function Cleared(p: Rgba, threshold: int): (q: Rgba)
    ensures q.r == p.r && q.g == p.g && q.b == p.b
    ensures q.a == 0 <==> Mean(p) > threshold as real
    ensures q.a == 0 || q.a == 255
  {
    p.(a := if p.r + p.g + p.b > 3 * threshold then 0 else 255)
  }

  /** `remove_white_background` on a grid. */
  function NoBackground(p: Pixels, threshold: int): Pixels
  {
    seq(|p|, y requires 0 <= y < |p| => seq(|p[y]|, x requires 0 <= x < |p[y]| => Cleared(p[y][x], threshold)))
  }

  /** The alpha written depends on the colour only, so removing the background twice is removing it once. */
  lemma NoBackgroundIdempotent(p: Pixels, threshold: int)
    ensures NoBackground(NoBackground(p, threshold), threshold) == NoBackground(p, threshold)
  {
    var q := NoBackground(p, threshold);
    forall y | 0 <= y < |p| ensures NoBackground(q, threshold)[y] == q[y] {
      assert forall x :: 0 <= x < |p[y]| ==> Cleared(q[y][x], threshold) == q[y][x];
    }
  }

  /**
   * `remove_white_background`: the pixels are copied, then the alpha plane
   * of the copy is overwritten pixel by pixel.
   */
  method RemoveWhiteBackground(img: array2<Rgba>, threshold: int) returns (out: array2<Rgba>)
    ensures fresh(out) && out.Length0 == img.Length0 && out.Length1 == img.Length1
    ensures Snapshot(out) == NoBackground(Snapshot(img), threshold)
  {
    out := Copy(img);
    var h, w := out.Length0, out.Length1;
    for y := 0 to h
      invariant forall yy, xx :: 0 <= yy < h && 0 <= xx < w ==>
        out[yy, xx] == if yy < y then Cleared(img[yy, xx], threshold) else img[yy, xx]
    {
      for x := 0 to w
        invariant forall yy, xx :: 0 <= yy < h && 0 <= xx < w ==>
          out[yy, xx] == if yy < y || (yy == y && xx < x) then Cleared(img[yy, xx], threshold) else img[yy, xx]
      {
        var p := out[y, x];
        var luminanceAbove := p.r + p.g + p.b > 3 * threshold;
        out[y, x] := p.(a := if luminanceAbove then 0 else 255);
      }
    }
    assert forall y :: 0 <= y < h ==> Snapshot(out)[y] == NoBackground(Snapshot(img), threshold)[y];
  }

  // ---------------------------------------------------------------- erasing text

  /** A rectangle with both corners inclusive, as PIL draws it. */
  datatype Rect = Rect(x1: int, y1: int, x2: int, y2: int)

  predicate InRect(r: Rect, y: int, x: int)
  {
    r.x1 <= x <= r.x2 && r.y1 <= y <= r.y2
  }

  /** `max(0, min(v, hi))` */
  function Clamp(v: int, hi: nat): (c: int)
    ensures 0 <= c <= hi
  {
    MaxInt(0, MinInt(v, hi))
  }

  /**
   * The rectangle `erase_text_regions` fills for one detection: its box
   * shrunk by `shrink` on every side and clamped to the image, or None when
   * the detection has no four-value box or the clamped box is empty.
   */
  function EraseBox(d: SnippetDetection, shrink: int, w: nat, h: nat): (r: Option<Rect>)
    ensures r.Some? ==> d.bbox.Some? && |d.bbox.value| == 4
    ensures r.Some? ==> 0 <= r.value.x1 < r.value.x2 <= w && 0 <= r.value.y1 < r.value.y2 <= h
  {
    if d.bbox.None? || |d.bbox.value| == 0 || |d.bbox.value| != 4 then None
    else
      var b := d.bbox.value;
      var x1 := Clamp(Trunc(b[0]) + shrink, w);
      var y1 := Clamp(Trunc(b[1]) + shrink, h);
      var x2 := Clamp(Trunc(b[2]) - shrink, w);
      var y2 := Clamp(Trunc(b[3]) - shrink, h);
      if x2 <= x1 || y2 <= y1 then None else Some(Rect(x1, y1, x2, y2))
  }

  /**
   * Inside the image, a filled rectangle covers exactly the pixels of the
   * shrunk box.
   */
  lemma EraseBoxCovers(d: SnippetDetection, shrink: int, w: nat, h: nat, y: int, x: int)
    requires EraseBox(d, shrink, w, h).Some? && 0 <= y < h && 0 <= x < w
    ensures var b := d.bbox.value;
      InRect(EraseBox(d, shrink, w, h).value, y, x) <==>
        Trunc(b[0]) + shrink <= x <= Trunc(b[2]) - shrink && Trunc(b[1]) + shrink <= y <= Trunc(b[3]) - shrink
  {
  }

  /** The rectangles filled for a list of detections, in order. */
  function Boxes(ds: seq<SnippetDetection>, shrink: int, w: nat, h: nat): (rs: seq<Rect>)
    ensures forall i :: 0 <= i < |rs| ==> 0 <= rs[i].x1 && 0 <= rs[i].y1
    decreases |ds|
  {
    if ds == [] then []
    else
      var e := EraseBox(ds[|ds| - 1], shrink, w, h);
      Boxes(ds[..|ds| - 1], shrink, w, h) + (if e.Some? then [e.value] else [])
  }

  /** Some rectangle covers the pixel. */
  predicate Covered(rs: seq<Rect>, y: int, x: int)
  {
    exists i :: 0 <= i < |rs| && InRect(rs[i], y, x)
  }

  lemma CoveredSnoc(rs: seq<Rect>, r: Rect, y: int, x: int)
    ensures Covered(rs + [r], y, x) <==> Covered(rs, y, x) || InRect(r, y, x)
  {
    if Covered(rs, y, x) {
      var i :| 0 <= i < |rs| && InRect(rs[i], y, x);
      assert (rs + [r])[i] == rs[i];
    }
    if InRect(r, y, x) {
      assert (rs + [r])[|rs|] == r;
    }
    if Covered(rs + [r], y, x) {
      var i :| 0 <= i < |rs + [r]| && InRect((rs + [r])[i], y, x);
      if i < |rs| {
        assert (rs + [r])[i] == rs[i];
      }
    }
  }

  /** The width of a grid (its first row's length). */
  function Width(p: Pixels): nat
  {
    if |p| == 0 then 0 else |p[0]|
  }

  /** `erase_text_regions` on a grid: unchanged without detections, else every covered pixel white. */
  function ErasedPixels(p: Pixels, ds: seq<SnippetDetection>, shrink: int): Pixels
  {
    if ds == [] then p
    else
      var rs := Boxes(ds, shrink, Width(p), |p|);
      seq(|p|, y requires 0 <= y < |p| =>
        seq(|p[y]|, x requires 0 <= x < |p[y]| => if Covered(rs, y, x) then White else p[y][x]))
  }

  /** Erasing keeps the grid's dimensions. */
  lemma ErasedGrid(p: Pixels, ds: seq<SnippetDetection>, shrink: int, h: nat, w: nat)
    requires Grid(p, h, w)
    ensures Grid(ErasedPixels(p, ds, shrink), h, w)
  {
  }

  /** `draw.rectangle(r, fill="white")`: the rectangle's pixels inside the image become white. */
  method FillWhite(a: array2<Rgba>, r: Rect)
    modifies a
    ensures forall y, x :: 0 <= y < a.Length0 && 0 <= x < a.Length1 ==>
      a[y, x] == if InRect(r, y, x) then White else old(a[y, x])
  {
    var h, w := a.Length0, a.Length1;
    var y0, x0 := MaxInt(0, r.y1), MaxInt(0, r.x1);
    var y := y0;
    while y <= r.y2 && y < h
      invariant y0 <= y
      invariant forall yy, xx :: 0 <= yy < h && 0 <= xx < w ==>
        a[yy, xx] == if InRect(r, yy, xx) && yy < y then White else old(a[yy, xx])
      decreases h - y
    {
      var x := x0;
      while x <= r.x2 && x < w
        invariant x0 <= x
        invariant forall yy, xx :: 0 <= yy < h && 0 <= xx < w ==>
          a[yy, xx] == if InRect(r, yy, xx) && (yy < y || (yy == y && xx < x)) then White else old(a[yy, xx])
        decreases w - x
      {
        a[y, x] := White;
        x := x + 1;
      }
      y := y + 1;
    }
  }

  /** The loop body of `erase_text_regions`: fill a detection's rectangle, if it has one. */
  method EraseDetection(out: array2<Rgba>, d: SnippetDetection, shrink: int)
    modifies out
    ensures var e := EraseBox(d, shrink, out.Length1, out.Length0);
      forall y, x :: 0 <= y < out.Length0 && 0 <= x < out.Length1 ==>
        out[y, x] == if e.Some? && InRect(e.value, y, x) then White else old(out[y, x])
  {
    var h, w := out.Length0, out.Length1;
    var bbox := d.bbox;
    if bbox.None? || |bbox.value| == 0 || |bbox.value| != 4 {
      return;
    }
    var x1 := MaxInt(0, MinInt(Trunc(bbox.value[0]) + shrink, w));
    var y1 := MaxInt(0, MinInt(Trunc(bbox.value[1]) + shrink, h));
    var x2 := MaxInt(0, MinInt(Trunc(bbox.value[2]) - shrink, w));
    var y2 := MaxInt(0, MinInt(Trunc(bbox.value[3]) - shrink, h));
    if x2 <= x1 || y2 <= y1 {
      return;
    }
    FillWhite(out, Rect(x1, y1, x2, y2));
  }

  /**
   * `erase_text_regions`: with no detections the image itself is returned;
   * otherwise a copy on which each detection's rectangle is filled white.
   */
  method EraseTextRegions(img: array2<Rgba>, ds: seq<SnippetDetection>, shrink: int) returns (out: array2<Rgba>)
    ensures ds == [] ==> out == img
    ensures ds != [] ==> fresh(out)
    ensures out.Length0 == img.Length0 && out.Length1 == img.Length1
    ensures forall y, x :: 0 <= y < img.Length0 && 0 <= x < img.Length1 ==>
      out[y, x] == if Covered(Boxes(ds, shrink, img.Length1, img.Length0), y, x) then White else img[y, x]
    ensures Snapshot(out) == ErasedPixels(Snapshot(img), ds, shrink)
  {
    if ds == [] {
      return img;
    }
    out := Copy(img);
    var h, w := out.Length0, out.Length1;
    for i := 0 to |ds|
      invariant forall y, x :: 0 <= y < h && 0 <= x < w ==>
        out[y, x] == if Covered(Boxes(ds[..i], shrink, w, h), y, x) then White else img[y, x]
    {
      assert ds[..i + 1][..i] == ds[..i];
      ghost var e := EraseBox(ds[i], shrink, w, h);
      ghost var rs := Boxes(ds[..i], shrink, w, h);
      assert Boxes(ds[..i + 1], shrink, w, h) == rs + (if e.Some? then [e.value] else []);
      EraseDetection(out, ds[i], shrink);
      if e.Some? {
        forall y, x | 0 <= y < h && 0 <= x < w
          ensures Covered(rs + [e.value], y, x) <==> Covered(rs, y, x) || InRect(e.value, y, x)
        {
          CoveredSnoc(rs, e.value, y, x);
        }
      } else {
        assert rs + [] == rs;
      }
    }
    assert ds[..|ds|] == ds;
    assert h > 0 ==> Width(Snapshot(img)) == w;
    assert forall y :: 0 <= y < h ==> Snapshot(out)[y] == ErasedPixels(Snapshot(img), ds, shrink)[y];
  }

  // ---------------------------------------------------------------- replaying the edit history

  /** One entry of a snippet's `ops`: its `type`, and its payload's `regions` and `shrink_px` when present. */
  datatype Op = Op(opType: Option<string>, regions: Option<seq<SnippetDetection>>, shrinkPx: Option<int>)

  /** The OCR pass `run_ocr_on_image` makes on an image (the engines are not modelled). */
  type Ocr = Pixels -> seq<SnippetDetection>

  /** `regions or run_ocr_on_image(current)` */
  function OpDetections(op: Op, p: Pixels, ocr: Ocr): seq<SnippetDetection>
  {
    if op.regions.Some? && op.regions.value != [] then op.regions.value else ocr(p)
  }

  /** What one op does to the image; an op of any other type leaves it as it is. */
  function ApplyOp(p: Pixels, op: Op, ocr: Ocr): Pixels
  {
    if op.opType == Some("remove_bg") then NoBackground(p, DefaultThreshold)
    else if op.opType == Some("ocr_remove_text") then
      ErasedPixels(p, OpDetections(op, p, ocr), op.shrinkPx.GetOr(DefaultShrink))
    else p
  }

  /** The image after the ops, applied from left to right. */
  function Replayed(p: Pixels, ops: seq<Op>, ocr: Ocr): Pixels
    decreases |ops|
  {
    if ops == [] then p else ApplyOp(Replayed(p, ops[..|ops| - 1], ocr), ops[|ops| - 1], ocr)
  }

  predicate Supported(op: Op)
  {
    op.opType == Some("remove_bg") || op.opType == Some("ocr_remove_text")
  }

  /** The ops of a supported type, in order. */
  function SupportedOps(ops: seq<Op>): (r: seq<Op>)
    ensures forall i :: 0 <= i < |r| ==> Supported(r[i])
    decreases |ops|
  {
    if ops == [] then []
    else SupportedOps(ops[..|ops| - 1]) + (if Supported(ops[|ops| - 1]) then [ops[|ops| - 1]] else [])
  }

  /** Replaying a history is replaying its supported ops: the others are skipped. */
  lemma {:induction false} ReplayedSkipsUnsupported(p: Pixels, ops: seq<Op>, ocr: Ocr)
    ensures Replayed(p, ops, ocr) == Replayed(p, SupportedOps(ops), ocr)
    decreases |ops|
  {
    if ops != [] {
      var init, last := ops[..|ops| - 1], ops[|ops| - 1];
      ReplayedSkipsUnsupported(p, init, ocr);
      var s := SupportedOps(init);
      if Supported(last) {
        assert (s + [last])[..|s + [last]| - 1] == s;
      } else {
        assert s + [] == s;
      }
    }
  }

  /** Replaying `a + b` is replaying `b` over the image `a` produced. */
  lemma {:induction false} ReplayedAppend(p: Pixels, a: seq<Op>, b: seq<Op>, ocr: Ocr)
    ensures Replayed(p, a + b, ocr) == Replayed(Replayed(p, a, ocr), b, ocr)
    decreases |b|
  {
    if b == [] {
      assert a + b == a;
    } else {
      var b' := b[..|b| - 1];
      assert (a + b)[..|a + b| - 1] == a + b';
      ReplayedAppend(p, a, b', ocr);
    }
  }

  /** Every op keeps the image's dimensions. */
  lemma {:induction false} ReplayedGrid(p: Pixels, ops: seq<Op>, ocr: Ocr, h: nat, w: nat)
    requires Grid(p, h, w)
    ensures Grid(Replayed(p, ops, ocr), h, w)
    decreases |ops|
  {
    if ops != [] {
      var init, last := ops[..|ops| - 1], ops[|ops| - 1];
      ReplayedGrid(p, init, ocr, h, w);
      var q := Replayed(p, init, ocr);
      ErasedGrid(q, OpDetections(last, q, ocr), last.shrinkPx.GetOr(DefaultShrink), h, w);
    }
  }

  // ---------------------------------------------------------------- files

  /** An image of a given size. */
  datatype Picture = Picture(width: nat, height: nat, px: Pixels)

  predicate PictureOk(p: Picture)
  {
    Grid(p.px, p.height, p.width)
  }

  /** A file of the snippets directory: a PNG, or one PIL cannot open. */
  datatype ImageFile = Png(pic: Picture) | Unreadable

  /** `Image.open(path)`: raises for a missing or unreadable file. */
  function Open(files: map<string, ImageFile>, path: string): (r: Outcome<Picture>)
    ensures r.Done? <==> path in files && files[path].Png?
  {
    if path in files && files[path].Png? then Done(files[path].pic) else Raised
  }

  /** The snippets directory, by file name. */
  class SnippetDir {
    var files: map<string, ImageFile>

    ghost predicate Valid()
      reads this
    {
      forall n :: n in files && files[n].Png? ==> PictureOk(files[n].pic)
    }
  }

  /** `getattr(snippet, "current_version", 1)` */
  function CurrentVersion(s: Snippet): int
  {
    s.currentVersion.GetOr(1)
  }

  /** `version or (current_version if snippet else 1)` */
  function RequestedVersion(s: Option<Snippet>, version: Option<int>): int
  {
    if version.Some? && version.value != 0 then version.value
    else if s.Some? then CurrentVersion(s.value) else 1
  }

  /** `"_nobg"` only for a transparent request on a snippet that has a transparent render. */
  function Suffix(s: Option<Snippet>, transparent: bool): (sfx: string)
    ensures sfx == "_nobg" <==> transparent && s.Some? && s.value.hasTransparent
    ensures sfx == "" || sfx == "_nobg"
  {
    if transparent && s.Some? && s.value.hasTransparent then "_nobg" else ""
  }

  /** `{id}_v{n}{suffix}.png` */
  function VersionFile(id: string, n: int, sfx: string): string
  {
    id + "_v" + PyFormat.ZeroPadded(n, 0) + sfx + ".png"
  }

  /** `{id}{suffix}.png` */
  function BaseFile(id: string, sfx: string): string
  {
    id + sfx + ".png"
  }

  /** `get_render_path`, with the names of the files that exist. */
  function RenderPath(s: Option<Snippet>, id: string, version: Option<int>, transparent: bool, existing: set<string>): string
  {
    var n := RequestedVersion(s, version);
    var sfx := Suffix(s, transparent);
    if n > 1 && VersionFile(id, n, sfx) in existing then VersionFile(id, n, sfx) else BaseFile(id, sfx)
  }

  /**
   * The versioned render is chosen exactly when the requested version is
   * above 1 and its file exists; otherwise the base render.
   */
  lemma RenderPathCases(s: Option<Snippet>, id: string, version: Option<int>, transparent: bool, existing: set<string>)
    ensures var n, sfx := RequestedVersion(s, version), Suffix(s, transparent);
      (RenderPath(s, id, version, transparent, existing) == VersionFile(id, n, sfx) <==> n > 1 && VersionFile(id, n, sfx) in existing)
      && (RenderPath(s, id, version, transparent, existing) == BaseFile(id, sfx) <==> !(n > 1 && VersionFile(id, n, sfx) in existing))
  {
    var n, sfx := RequestedVersion(s, version), Suffix(s, transparent);
    PyFormat.ZeroPaddedRoundTrip(n, 0);
    assert |VersionFile(id, n, sfx)| > |BaseFile(id, sfx)|;
  }

  /**
   * `render_from_ops`: open the snippet's current render, then apply the
   * ops one after the other.
   */
  method RenderFromOps(repo: SnippetsRepository, dir: SnippetDir, id: string, ops: Option<seq<Op>>, ocr: Ocr)
    returns (r: Outcome<array2<Rgba>>)
    requires dir.Valid()
    ensures var base := Open(dir.files, RenderPath(PyDict.Get(repo.cache, id), id, None, false, dir.files.Keys));
      (r.Done? <==> base.Done?)
      && (r.Done? ==> fresh(r.value) && r.value.Length0 == base.value.height && r.value.Length1 == base.value.width
                      && Snapshot(r.value) == Replayed(base.value.px, ops.GetOr([]), ocr))
  {
    var snippet := repo.Get(id);
    var basePath := RenderPath(snippet, id, None, false, dir.files.Keys);
    var loaded := Open(dir.files, basePath);
    if loaded.Raised? {
      return Raised;
    }
    var pic := loaded.value;
    var current := ToArray(pic.px, pic.height, pic.width);
    var os := if ops.Some? then ops.value else [];
    for i := 0 to |os|
      invariant fresh(current) && current.Length0 == pic.height && current.Length1 == pic.width
      invariant Snapshot(current) == Replayed(pic.px, os[..i], ocr)
    {
      assert os[..i + 1][..i] == os[..i];
      var op := os[i];
      if op.opType == Some("remove_bg") {
        current := RemoveWhiteBackground(current, DefaultThreshold);
      } else if op.opType == Some("ocr_remove_text") {
        var regions := op.regions;
        var detections := if regions.Some? && regions.value != [] then regions.value else ocr(Snapshot(current));
        current := EraseTextRegions(current, detections, if op.shrinkPx.Some? then op.shrinkPx.value else DefaultShrink);
      }
    }
    assert os[..|os|] == os;
    return Done(current);
  }

  // ---------------------------------------------------------------- versions

  /** One record of a snippet's `versions`. */
  datatype Version = Version(number: int, createdAt: string, comment: string, checksum: string, opsSnapshot: seq<Op>)

  /** A snippet's meta record: its current ops and its version history. */
  datatype Meta = Meta(ops: seq<Op>, versions: seq<Version>)

  /** The store of meta records (its persistence is not part of this model). */
  class MetaStore {
    var metas: map<string, Meta>

    /** `load_snippet_meta`: the stored record, or an empty one. */
    function Loaded(id: string): Meta
      reads this
    {
      if id in metas then metas[id] else Meta([], [])
    }

    method Load(id: string) returns (m: Meta)
      ensures m == Loaded(id)
    {
      m := if id in metas then metas[id] else Meta([], []);
    }

    /** `save_snippet_meta` */
    method Save(id: string, m: Meta)
      modifies this
      ensures metas == old(metas)[id := m]
    {
      metas := metas[id := m];
    }
  }

  /** The snippet after `create_version` bumps it: one version further on, renamed when a name is given. */
  function Bumped(s: Snippet, name: Option<string>): (t: Snippet)
    ensures CurrentVersion(t) == CurrentVersion(s) + 1
    ensures t.name == if name.Some? && name.value != "" then name.value else s.name
    ensures t.(name := s.name, currentVersion := s.currentVersion) == s
  {
    s.(name := if name.Some? && name.value != "" then name.value else s.name,
       currentVersion := Some(CurrentVersion(s) + 1))
  }

  /** The meta record after `create_version`: the ops replaced and one version record appended. */
  function Recorded(m: Meta, ops: seq<Op>, number: int, comment: string, now: string): (m': Meta)
    ensures m'.ops == ops && |m'.versions| == |m.versions| + 1
    ensures m'.versions[..|m.versions|] == m.versions
    ensures m'.versions[|m.versions|] == Version(number, now, comment, "", ops)
  {
    Meta(ops, m.versions + [Version(number, now, comment, "", ops)])
  }

  /** Version numbers strictly increase along the history. */
  predicate Ascending(vs: seq<Version>)
  {
    forall i, j :: 0 <= i < j < |vs| ==> vs[i].number < vs[j].number
  }

  /** An ascending history none of whose numbers is past the snippet's counter. */
  predicate Consistent(s: Snippet, m: Meta)
  {
    Ascending(m.versions) && forall i :: 0 <= i < |m.versions| ==> m.versions[i].number <= CurrentVersion(s)
  }

  /** `create_version` keeps a snippet and its history consistent, the new record being the latest. */
  lemma CreateKeepsConsistent(s: Snippet, m: Meta, name: Option<string>, ops: seq<Op>, comment: string, now: string)
    requires Consistent(s, m)
    ensures var t := Bumped(s, name);
      var m' := Recorded(m, ops, CurrentVersion(t), comment, now);
      Consistent(t, m') && m'.versions[|m'.versions| - 1].number == CurrentVersion(t)
  {
  }

  /** `next(v for v in versions if v["version"] == n)` */
  function FindVersion(vs: seq<Version>, n: int): (r: Option<Version>)
    ensures r.Some? ==> r.value in vs && r.value.number == n
    ensures r.None? <==> forall i :: 0 <= i < |vs| ==> vs[i].number != n
  {
    if vs == [] then None else if vs[0].number == n then Some(vs[0]) else FindVersion(vs[1..], n)
  }

  /** In an ascending history the record found is the one record with that number. */
  lemma {:induction false} FindVersionUnique(vs: seq<Version>, i: nat)
    requires Ascending(vs) && i < |vs|
    ensures FindVersion(vs, vs[i].number) == Some(vs[i])
    decreases i
  {
    if i > 0 {
      var rest := vs[1..];
      assert vs[0].number < vs[i].number;
      assert Ascending(rest) by {
        forall k, l | 0 <= k < l < |rest| ensures rest[k].number < rest[l].number {
          assert rest[k] == vs[k + 1] && rest[l] == vs[l + 1];
        }
      }
      assert rest[i - 1] == vs[i];
      FindVersionUnique(rest, i - 1);
    }
  }

  /**
   * The picture `create_version` saves as the new version's render, None
   * when it saves none, or `Raised` when opening a render throws: the one
   * given; else, with ops, the base render with the ops replayed; else a
   * copy of the previous version's render, if that file exists.
   */
  function NewRender(files: map<string, ImageFile>, t: Snippet, id: string, current: int, ops: seq<Op>,
                     rendered: Option<Picture>, ocr: Ocr): Outcome<Option<Picture>>
  {
    if rendered.Some? then Done(rendered)
    else if ops != [] then
      var base := Open(files, RenderPath(Some(t), id, None, false, files.Keys));
      if base.Raised? then Raised
      else Done(Some(Picture(base.value.width, base.value.height, Replayed(base.value.px, ops, ocr))))
    else
      var previous := RenderPath(Some(t), id, Some(current), false, files.Keys);
      if previous !in files then Done(None)
      else if files[previous].Unreadable? then Raised
      else Done(Some(files[previous].pic))
  }

  /** A saved render has the dimensions it declares. */
  lemma NewRenderOk(files: map<string, ImageFile>, t: Snippet, id: string, current: int, ops: seq<Op>,
                    rendered: Option<Picture>, ocr: Ocr)
    requires forall n :: n in files && files[n].Png? ==> PictureOk(files[n].pic)
    requires rendered.Some? ==> PictureOk(rendered.value)
    ensures var nr := NewRender(files, t, id, current, ops, rendered, ocr);
      nr.Done? && nr.value.Some? ==> PictureOk(nr.value.value)
  {
    if rendered.None? && ops != [] {
      var base := Open(files, RenderPath(Some(t), id, None, false, files.Keys));
      if base.Done? {
        ReplayedGrid(base.value.px, ops, ocr, base.value.height, base.value.width);
      }
    }
  }

  /** The directory once the new version's render, if any, is saved. */
  function SavedRender(files: map<string, ImageFile>, name: string, nr: Outcome<Option<Picture>>): map<string, ImageFile>
  {
    if nr.Done? && nr.value.Some? then files[name := Png(nr.value.value)] else files
  }

  /**
   * The rendering half of `create_version`, once the snippet `t` is in the
   * repository: save the render `NewRender` describes under the new
   * version's name.
   */
  method SaveNewRender(repo: SnippetsRepository, dir: SnippetDir, id: string, t: Snippet, current: int,
                       ops: seq<Op>, rendered: Option<Picture>, ocr: Ocr) returns (ok: bool)
    requires dir.Valid() && PyDict.Get(repo.cache, id) == Some(t)
    requires rendered.Some? ==> PictureOk(rendered.value)
    modifies dir
    ensures dir.Valid()
    ensures var nr := NewRender(old(dir.files), t, id, current, ops, rendered, ocr);
      ok == nr.Done? && dir.files == SavedRender(old(dir.files), VersionFile(id, CurrentVersion(t), ""), nr)
  {
    ghost var nr := NewRender(dir.files, t, id, current, ops, rendered, ocr);
    NewRenderOk(dir.files, t, id, current, ops, rendered, ocr);
    var name := VersionFile(id, CurrentVersion(t), "");
    var image := rendered;
    if image.None? && ops != [] {
      var out := RenderFromOps(repo, dir, id, Some(ops), ocr);
      if out.Raised? {
        return false;
      }
      image := Some(Picture(out.value.Length1, out.value.Length0, Snapshot(out.value)));
    }
    if image.Some? {
      dir.files := dir.files[name := Png(image.value)];
    } else {
      var previous := RenderPath(Some(t), id, Some(current), false, dir.files.Keys);
      if previous in dir.files {
        var loaded := Open(dir.files, previous);
        if loaded.Raised? {
          return false;
        }
        dir.files := dir.files[name := Png(loaded.value)];
      }
    }
    return true;
  }

  /**
   * `create_version`: bump the snippet's counter (renaming it when a name
   * is given), record the version with its ops, and save a render for it.
   * The snippet is the repository's own record, so the bump is visible in
   * the repository.  An exception while rendering comes after the record
   * and the bump are saved.
   */
  method CreateVersion(repo: SnippetsRepository, metas: MetaStore, dir: SnippetDir, id: string,
                       name: Option<string>, ops: Option<seq<Op>>, comment: string, rendered: Option<Picture>,
                       now: string, ocr: Ocr) returns (r: Outcome<Snippet>)
    requires repo.Valid() && dir.Valid()
    requires rendered.Some? ==> PictureOk(rendered.value)
    modifies repo, metas, dir
    ensures repo.Valid() && dir.Valid()
    ensures id !in old(repo.cache.m) ==>
      r.Raised? && repo.cache == old(repo.cache) && metas.metas == old(metas.metas) && dir.files == old(dir.files)
    ensures id in old(repo.cache.m) ==>
      var s := old(repo.cache.m[id]);
      var t := Bumped(s, name);
      var nr := NewRender(old(dir.files), t, id, CurrentVersion(s), ops.GetOr([]), rendered, ocr);
      repo.cache == Put(old(repo.cache), id, t)
      && metas.metas == old(metas.metas)[id := Recorded(old(metas.Loaded(id)), ops.GetOr([]), CurrentVersion(t), comment, now)]
      && r == (if nr.Raised? then Raised else Done(t))
      && dir.files == SavedRender(old(dir.files), VersionFile(id, CurrentVersion(t), ""), nr)
  {
    var snippet := repo.Get(id);
    if snippet.None? {
      return Raised;
    }
    var s := snippet.value;
    var current := CurrentVersion(s);
    var next := current + 1;
    var t := s.(name := if name.Some? && name.value != "" then name.value else s.name, currentVersion := Some(next));
    assert t == Bumped(s, name);
    PutFacts(repo.cache, id, t);
    repo.cache := Put(repo.cache, id, t);
    var meta := metas.Load(id);
    var normalized := if ops.Some? then ops.value else [];
    metas.Save(id, Meta(normalized, meta.versions + [Version(next, now, comment, "", normalized)]));
    var ok := SaveNewRender(repo, dir, id, t, current, normalized, rendered, ocr);
    r := if ok then Done(t) else Raised;
  }

  /** The comment of a restore: the one given, or `Restore v{n}`. */
  function RestoreComment(comment: string, target: int): string
  {
    if comment != "" then comment else "Restore v" + PyFormat.ZeroPadded(target, 0)
  }

  /**
   * `restore_version`: a new version whose ops are the target version's
   * snapshot and whose render is a copy of the target's render.
   */
  method RestoreVersion(repo: SnippetsRepository, metas: MetaStore, dir: SnippetDir, id: string, target: int,
                        comment: string, now: string, ocr: Ocr) returns (r: Outcome<Snippet>)
    requires repo.Valid() && dir.Valid()
    modifies repo, metas, dir
    ensures repo.Valid() && dir.Valid()
    ensures var found := FindVersion(old(metas.Loaded(id)).versions, target);
      var source := Open(old(dir.files), RenderPath(PyDict.Get(old(repo.cache), id), id, Some(target), false, old(dir.files).Keys));
      (r.Done? <==> id in old(repo.cache.m) && found.Some? && source.Done?)
      && (r.Raised? ==> repo.cache == old(repo.cache) && metas.metas == old(metas.metas) && dir.files == old(dir.files))
      && (r.Done? ==>
            var t := Bumped(old(repo.cache.m[id]), None);
            r.value == t && repo.cache == Put(old(repo.cache), id, t)
            && metas.metas == old(metas.metas)[id := Recorded(old(metas.Loaded(id)), found.value.opsSnapshot,
                                                               CurrentVersion(t), RestoreComment(comment, target), now)]
            && dir.files == old(dir.files)[VersionFile(id, CurrentVersion(t), "") := Png(source.value)])
  {
    var snippet := repo.Get(id);
    if snippet.None? {
      return Raised;
    }
    var meta := metas.Load(id);
    var found := FindVersion(meta.versions, target);
    if found.None? {
      return Raised;
    }
    var sourcePath := RenderPath(snippet, id, Some(target), false, dir.files.Keys);
    var loaded := Open(dir.files, sourcePath);
    if loaded.Raised? {
      return Raised;
    }
    assert PictureOk(loaded.value);
    var c := if comment != "" then comment else "Restore v" + PyFormat.ZeroPadded(target, 0);
    r := CreateVersion(repo, metas, dir, id, None, Some(found.value.opsSnapshot), c, Some(loaded.value), now, ocr);
  }

  // ---------------------------------------------------------------- validation

  /** What `qa_validate` reports. */
  datatype QaReport = QaReport(passed: bool, exists_: bool, sizeOk: bool, dims: (int, int), path: string)

  /** `qa_validate`: the current render must exist, open, and have both dimensions above 0. */
  function QaValidate(s: Option<Snippet>, id: string, files: map<string, ImageFile>): (q: QaReport)
    ensures q.path == RenderPath(s, id, None, false, files.Keys)
    ensures q.exists_ <==> q.path in files
    ensures q.passed <==> q.path in files && files[q.path].Png? && files[q.path].pic.width > 0 && files[q.path].pic.height > 0
    ensures q.passed <==> q.exists_ && q.sizeOk
  {
    var path := RenderPath(s, id, None, false, files.Keys);
    if path !in files then QaReport(false, false, false, (0, 0), path)
    else match files[path]
      case Unreadable => QaReport(false, true, false, (0, 0), path)
      case Png(pic) =>
        var ok := pic.width > 0 && pic.height > 0;
        QaReport(ok, true, ok, (pic.width, pic.height), path)
  }
}
