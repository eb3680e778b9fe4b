/**
 * The snippet library endpoints: capturing a region of a rendered page,
 * uploading an image, serving a snippet's image (opaque or transparent)
 * and deleting a snippet.  Directories are maps from file names to
 * images; the order `iterdir` lists a directory in is a parameter.
 */
module SnippetsApi {
  import opened Wrappers
  import opened Models
  import opened PyDict
  import opened Repository
  import opened PyText
  import PyFormat
  import opened SnippetService
  import opened PagesApi

  // ---------------------------------------------------------------- the background rule

  /** `w` by `h` pixels of one colour, as `Image.new` makes them. */
  function Uniform(c: Rgba, h: nat, w: nat): (p: Pixels)
    ensures Grid(p, h, w)
  {
    seq(h, _ => seq(w, _ => c))
  }

  /** Removing the background of a one-colour image gives a one-colour image. */
  lemma UniformNoBackground(c: Rgba, h: nat, w: nat, threshold: int)
    ensures NoBackground(Uniform(c, h, w), threshold) == Uniform(Cleared(c, threshold), h, w)
  {
    var p := Uniform(c, h, w);
    forall y | 0 <= y < h ensures NoBackground(p, threshold)[y] == Uniform(Cleared(c, threshold), h, w)[y] {
      assert |p[y]| == w;
    }
  }

  /**
   * With the threshold 240: white becomes fully transparent (opaque or
   * not), black and a light grey of 230 stay fully opaque, the comparison
   * being strict.
   */
  lemma BackgroundBoundaries(h: nat, w: nat)
    ensures NoBackground(Uniform(Rgba(255, 255, 255, 255), h, w), 240) == Uniform(Rgba(255, 255, 255, 0), h, w)
    ensures NoBackground(Uniform(Rgba(0, 0, 0, 255), h, w), 240) == Uniform(Rgba(0, 0, 0, 255), h, w)
    ensures NoBackground(Uniform(Rgba(230, 230, 230, 255), h, w), 240) == Uniform(Rgba(230, 230, 230, 255), h, w)
    ensures Cleared(Rgba(240, 240, 240, 255), 240).a == 255 && Cleared(Rgba(241, 240, 240, 255), 240).a == 0
  {
    UniformNoBackground(Rgba(255, 255, 255, 255), h, w, 240);
    UniformNoBackground(Rgba(0, 0, 0, 255), h, w, 240);
    UniformNoBackground(Rgba(230, 230, 230, 255), h, w, 240);
  }

  // ---------------------------------------------------------------- finding the page image

  /** `Path(name).suffix`: from the last dot, unless that dot starts or ends the name. */
  function PathSuffix(name: string): string
  {
    var i := RFind(name, '.', |name|);
    if 0 < i < |name| - 1 then name[i..] else ""
  }

  /** A name has the suffix `.png` exactly when it ends in `.png` after at least one other character. */
  lemma PngSuffix(name: string)
    ensures PathSuffix(name) == ".png" <==> |name| > 4 && EndsWith(name, ".png")
  {
    var i := RFind(name, '.', |name|);
    if |name| > 4 && EndsWith(name, ".png") {
      var k := |name| - 4;
      assert name[k] == '.' && name[k + 1] == 'p' && name[k + 2] == 'n' && name[k + 3] == 'g';
      assert RFind(name, '.', k + 1) == k;
      assert RFind(name, '.', k + 2) == k;
      assert RFind(name, '.', k + 3) == k;
    }
  }

  /** The pages directory of a project: whether it exists, its listing in `iterdir` order, its files. */
  datatype PagesDir = PagesDir(exists_: bool, listing: seq<string>, files: map<string, ImageFile>)

  /** The name of a rendered original of the page, at any resolution. */
  predicate IsOriginal(name: string, page: int)
  {
    StartsWith(name, PyFormat.ZeroPadded(page, 3) + "_original_") && PathSuffix(name) == ".png"
  }

  /** The first name of the listing that is an original of the page. */
  function FirstOriginal(listing: seq<string>, page: int): Option<string>
  {
    if listing == [] then None
    else if IsOriginal(listing[0], page) then Some(listing[0])
    else FirstOriginal(listing[1..], page)
  }

  /**
   * The scan finds nothing exactly when no name of the listing is an
   * original; what it finds is an original of the listing with none before it.
   */
  lemma {:induction false} FirstOriginalSpec(listing: seq<string>, page: int)
    ensures var r := FirstOriginal(listing, page);
      (r.None? <==> forall i :: 0 <= i < |listing| ==> !IsOriginal(listing[i], page))
      && (r.Some? ==> exists i :: 0 <= i < |listing| && listing[i] == r.value && IsOriginal(r.value, page)
                                  && forall j :: 0 <= j < i ==> !IsOriginal(listing[j], page))
  {
    if listing != [] && !IsOriginal(listing[0], page) {
      var tail := listing[1..];
      FirstOriginalSpec(tail, page);
      assert forall i :: 1 <= i < |listing| ==> listing[i] == tail[i - 1];
      var r := FirstOriginal(tail, page);
      if r.Some? {
        var i :| 0 <= i < |tail| && tail[i] == r.value && IsOriginal(r.value, page)
                 && forall j :: 0 <= j < i ==> !IsOriginal(tail[j], page);
        assert listing[i + 1] == r.value;
        assert forall j :: 0 <= j < i + 1 ==> !IsOriginal(listing[j], page) by {
          forall j | 0 <= j < i + 1
            ensures !IsOriginal(listing[j], page)
          {
            if j > 0 {
              assert listing[j] == tail[j - 1];
            }
          }
        }
      }
    }
  }

  /** The original `_find_original_image` returns: none when the directory is missing. */
  function OriginalFor(dir: PagesDir, page: int): Option<string>
  {
    if dir.exists_ then FirstOriginal(dir.listing, page) else None
  }

  /** `_find_original_image`: scan the listing in order for an original of the page. */
  method FindOriginalImage(dir: PagesDir, page: int) returns (r: Option<string>)
    ensures r == OriginalFor(dir, page)
  {
    if !dir.exists_ {
      return None;
    }
    var prefix := PyFormat.ZeroPadded(page, 3) + "_original_";
    for i := 0 to |dir.listing|
      invariant FirstOriginal(dir.listing, page) == FirstOriginal(dir.listing[i..], page)
    {
      var f := dir.listing[i];
      assert dir.listing[i..][0] == f && dir.listing[i..][1..] == dir.listing[i + 1..];
      if StartsWith(f, prefix) && PathSuffix(f) == ".png" {
        return Some(f);
      }
    }
    return None;
  }

  // ---------------------------------------------------------------- capture

  /** `max(0, min(v, hi))` */
  function ClampTo(v: int, hi: nat): (r: int)
    ensures 0 <= r <= hi
    ensures 0 <= v <= hi ==> r == v
  {
    MaxInt(0, MinInt(v, hi))
  }

  /** The capture box: the four coordinates truncated to integers, then clamped to the image. */
  datatype CropBox = CropBox(x1: int, y1: int, x2: int, y2: int)

  function CaptureBox(bbox: seq<real>, w: nat, h: nat): (b: CropBox)
    requires |bbox| == 4
    ensures 0 <= b.x1 <= w && 0 <= b.x2 <= w && 0 <= b.y1 <= h && 0 <= b.y2 <= h
    ensures b == CropBox(ClampTo(Trunc(bbox[0]), w), ClampTo(Trunc(bbox[1]), h), ClampTo(Trunc(bbox[2]), w), ClampTo(Trunc(bbox[3]), h))
  {
    CropBox(ClampTo(Trunc(bbox[0]), w), ClampTo(Trunc(bbox[1]), h), ClampTo(Trunc(bbox[2]), w), ClampTo(Trunc(bbox[3]), h))
  }

  predicate NonEmpty(b: CropBox)
  {
    b.x1 < b.x2 && b.y1 < b.y2
  }

  /** `img.crop(box)` of a box inside the image. */
  function Crop(p: Pixels, b: CropBox, w: nat, h: nat): (q: Pixels)
    requires Grid(p, h, w) && 0 <= b.x1 < b.x2 <= w && 0 <= b.y1 < b.y2 <= h
    ensures Grid(q, b.y2 - b.y1, b.x2 - b.x1)
    ensures forall y, x :: 0 <= y < b.y2 - b.y1 && 0 <= x < b.x2 - b.x1 ==> q[y][x] == p[b.y1 + y][b.x1 + x]
  {
    seq(b.y2 - b.y1, y requires 0 <= y < b.y2 - b.y1 => p[b.y1 + y][b.x1 .. b.x2])
  }

  /** A box whose coordinates already lie inside the image is kept as it was sent. */
  lemma CaptureBoxInside(bbox: seq<int>, w: nat, h: nat)
    requires |bbox| == 4
    requires 0 <= bbox[0] <= w && 0 <= bbox[2] <= w && 0 <= bbox[1] <= h && 0 <= bbox[3] <= h
    ensures CaptureBox([bbox[0] as real, bbox[1] as real, bbox[2] as real, bbox[3] as real], w, h)
         == CropBox(bbox[0], bbox[1], bbox[2], bbox[3])
  {
  }

  /** The picture a capture saves, and its transparent variant. */
  function Captured(pic: Picture, b: CropBox): (c: Picture)
    requires PictureOk(pic) && 0 <= b.x1 < b.x2 <= pic.width && 0 <= b.y1 < b.y2 <= pic.height
    ensures PictureOk(c) && c.width == b.x2 - b.x1 && c.height == b.y2 - b.y1
  {
    Picture(b.x2 - b.x1, b.y2 - b.y1, Crop(pic.px, b, pic.width, pic.height))
  }

  /** Every PNG of a directory has the dimensions it declares. */
  predicate FilesOk(files: map<string, ImageFile>)
  {
    forall n :: n in files && files[n].Png? ==> PictureOk(files[n].pic)
  }

  /** What `capture_snippet` receives. */
  datatype CaptureRequest = CaptureRequest(projectId: string, pageNumber: int, bbox: seq<real>, name: string, removeBg: bool)

  /** How `capture_snippet` decides: the response it fails with, or the image and the box it crops. */
  datatype CapturePlan = Rejected(response: Response) | Accepted(pic: Picture, box: CropBox)

  function PlanCapture(projectKnown: bool, pages: PagesDir, req: CaptureRequest): (c: CapturePlan)
    requires FilesOk(pages.files)
    ensures c.Accepted? ==> PictureOk(c.pic) && 0 <= c.box.x1 < c.box.x2 <= c.pic.width && 0 <= c.box.y1 < c.box.y2 <= c.pic.height
  {
    if !projectKnown then Rejected(NotFound("Project not found"))
    else
      var found := OriginalFor(pages, req.pageNumber);
      if found.None? then Rejected(NotFound("Original image not found for this page"))
      else
        var img := Open(pages.files, found.value);
        if img.Raised? || |req.bbox| != 4 then Rejected(ServerError("Internal Server Error"))
        else
          var b := CaptureBox(req.bbox, img.value.width, img.value.height);
          if !NonEmpty(b) then Rejected(BadRequest("Invalid bounding box"))
          else Accepted(img.value, b)
  }

  /**
   * A capture is accepted exactly for a known project whose page has a
   * readable original and a four-number box that is not empty once
   * clamped; an unknown project is rejected whatever else is wrong.
   */
  lemma PlanCaptureCases(projectKnown: bool, pages: PagesDir, req: CaptureRequest)
    requires FilesOk(pages.files)
    ensures !projectKnown ==> PlanCapture(projectKnown, pages, req) == Rejected(NotFound("Project not found"))
    ensures PlanCapture(projectKnown, pages, req).Accepted? <==>
      projectKnown && OriginalFor(pages, req.pageNumber).Some?
      && Open(pages.files, OriginalFor(pages, req.pageNumber).value).Done? && |req.bbox| == 4
      && NonEmpty(CaptureBox(req.bbox, Open(pages.files, OriginalFor(pages, req.pageNumber).value).value.width,
                                       Open(pages.files, OriginalFor(pages, req.pageNumber).value).value.height))
    ensures PlanCapture(projectKnown, pages, req).Accepted? ==>
      IsOriginal(OriginalFor(pages, req.pageNumber).value, req.pageNumber)
  {
    FirstOriginalSpec(pages.listing, req.pageNumber);
  }

  /** The snippets directory after a snippet's files are saved: its render and, when asked, its transparent variant. */
  function SavedFiles(files: map<string, ImageFile>, id: string, pic: Picture, removeBg: bool): map<string, ImageFile>
  {
    if removeBg then files[id + ".png" := Png(pic)][id + "_nobg.png" := Png(Picture(pic.width, pic.height, NoBackground(pic.px, DefaultThreshold)))]
    else files[id + ".png" := Png(pic)]
  }

  /** The render is saved as given and the transparent variant, when asked for, is its background removed. */
  lemma SavedFilesContents(files: map<string, ImageFile>, id: string, pic: Picture, removeBg: bool)
    ensures var f := SavedFiles(files, id, pic, removeBg);
      Open(f, id + ".png") == Done(pic)
      && (removeBg ==> Open(f, id + "_nobg.png") == Done(Picture(pic.width, pic.height, NoBackground(pic.px, DefaultThreshold))))
      && f.Keys == files.Keys + {id + ".png"} + (if removeBg then {id + "_nobg.png"} else {})
      && forall n :: n in files && n != id + ".png" && (removeBg ==> n != id + "_nobg.png") ==> f[n] == files[n]
  {
    var a, b := id + ".png", id + "_nobg.png";
    assert a != b by {
      assert |a| != |b|;
    }
  }

  /** Saves a snippet's render and, when asked, its transparent variant. */
  method SaveSnippetFiles(dir: SnippetDir, id: string, pic: Picture, removeBg: bool)
    requires dir.Valid() && PictureOk(pic)
    modifies dir
    ensures dir.Valid()
    ensures dir.files == SavedFiles(old(dir.files), id, pic, removeBg)
  {
    dir.files := dir.files[id + ".png" := Png(pic)];
    if removeBg {
      var a := ToArray(pic.px, pic.height, pic.width);
      var nobg := RemoveWhiteBackground(a, DefaultThreshold);
      dir.files := dir.files[id + "_nobg.png" := Png(Picture(pic.width, pic.height, Snapshot(nobg)))];
    }
  }

  /** The checks `capture_snippet` makes, in its order, up to the box it crops. */
  method CheckCapture(projects: ProjectsRepository, pages: PagesDir, req: CaptureRequest) returns (plan: CapturePlan)
    requires FilesOk(pages.files)
    ensures plan == PlanCapture(PyDict.Get(projects.cache, req.projectId).Some?, pages, req)
  {
    var project := projects.Get(req.projectId);
    if project.None? {
      return Rejected(NotFound("Project not found"));
    }
    var imgPath := FindOriginalImage(pages, req.pageNumber);
    if imgPath.None? {
      return Rejected(NotFound("Original image not found for this page"));
    }
    var img := Open(pages.files, imgPath.value);
    if img.Raised? || |req.bbox| != 4 {
      return Rejected(ServerError("Internal Server Error"));
    }
    var pic := img.value;
    var b := CaptureBox(req.bbox, pic.width, pic.height);
    if b.x2 <= b.x1 || b.y2 <= b.y1 {
      return Rejected(BadRequest("Invalid bounding box"));
    }
    return Accepted(pic, b);
  }

  /**
   * `capture_snippet`: a rejected capture changes nothing; an accepted one
   * creates a snippet the size of the crop and saves the crop's files.
   */
  method CaptureSnippet(projects: ProjectsRepository, repo: SnippetsRepository, dir: SnippetDir, pages: PagesDir,
                        req: CaptureRequest, freshId: string, now: int) returns (r: Response, s: Option<Snippet>)
    requires repo.Valid() && dir.Valid() && FilesOk(pages.files)
    modifies repo, dir
    ensures repo.Valid() && dir.Valid()
    ensures match PlanCapture(old(PyDict.Get(projects.cache, req.projectId)).Some?, pages, req)
      case Rejected(response) =>
        r == response && s.None? && repo.cache == old(repo.cache) && dir.files == old(dir.files)
      case Accepted(pic, b) =>
        r == Ok && s.Some? && s.value == NewSnippet(freshId, req.name, b.x2 - b.x1, b.y2 - b.y1, req.removeBg, None, false, now)
        && repo.cache == Put(old(repo.cache), freshId, s.value)
        && dir.files == SavedFiles(old(dir.files), freshId, Captured(pic, b), req.removeBg)
  {
    var plan := CheckCapture(projects, pages, req);
    if plan.Rejected? {
      return plan.response, None;
    }
    var snippet := StoreCapture(repo, dir, plan, req, freshId, now);
    r, s := Ok, Some(snippet);
  }

  /** The accepted half of `capture_snippet`: the snippet record and the crop's files. */
  method StoreCapture(repo: SnippetsRepository, dir: SnippetDir, plan: CapturePlan,
                      req: CaptureRequest, freshId: string, now: int) returns (snippet: Snippet)
    requires repo.Valid() && dir.Valid()
    requires plan.Accepted? && PictureOk(plan.pic)
    requires 0 <= plan.box.x1 < plan.box.x2 <= plan.pic.width && 0 <= plan.box.y1 < plan.box.y2 <= plan.pic.height
    modifies repo, dir
    ensures repo.Valid() && dir.Valid()
    ensures snippet == NewSnippet(freshId, req.name, plan.box.x2 - plan.box.x1, plan.box.y2 - plan.box.y1, req.removeBg, None, false, now)
    ensures repo.cache == Put(old(repo.cache), freshId, snippet)
    ensures dir.files == SavedFiles(old(dir.files), freshId, Captured(plan.pic, plan.box), req.removeBg)
  {
    var cropped := Captured(plan.pic, plan.box);
    snippet := repo.Create(req.name, cropped.width, cropped.height, req.removeBg, None, false, freshId, now);
    SaveSnippetFiles(dir, snippet.id, cropped, req.removeBg);
  }

  /**
   * `upload_snippet`: 400 when the bytes do not decode as an image (the
   * decoder's outcome is a parameter); otherwise a snippet of the image's
   * size is created and its files saved.
   */
  method UploadSnippet(repo: SnippetsRepository, dir: SnippetDir, decoded: Outcome<Picture>, name: string,
                       removeBg: bool, freshId: string, now: int) returns (r: Response, s: Option<Snippet>)
    requires repo.Valid() && dir.Valid()
    requires decoded.Done? ==> PictureOk(decoded.value)
    modifies repo, dir
    ensures repo.Valid() && dir.Valid()
    ensures decoded.Raised? ==> r == BadRequest("Invalid image file") && s.None?
                                && repo.cache == old(repo.cache) && dir.files == old(dir.files)
    ensures decoded.Done? ==>
      r == Ok && s == Some(NewSnippet(freshId, name, decoded.value.width, decoded.value.height, removeBg, None, false, now))
      && repo.cache == Put(old(repo.cache), freshId, s.value)
      && dir.files == SavedFiles(old(dir.files), freshId, decoded.value, removeBg)
  {
    if decoded.Raised? {
      return BadRequest("Invalid image file"), None;
    }
    var img := decoded.value;
    var snippet := repo.Create(name, img.width, img.height, removeBg, None, false, freshId, now);
    SaveSnippetFiles(dir, snippet.id, img, removeBg);
    return Ok, Some(snippet);
  }

  // ---------------------------------------------------------------- serving and deleting

  /** The file `get_snippet_image` and `get_snippet_base64` serve. */
  function ImageFileName(s: Snippet, id: string, transparent: bool): string
  {
    if transparent && s.hasTransparent then id + "_nobg.png" else id + ".png"
  }

  /** The transparent variant is served exactly when it is asked for and the snippet has one. */
  lemma ImageFileNameCases(s: Snippet, id: string, transparent: bool)
    ensures ImageFileName(s, id, transparent) == id + "_nobg.png" <==> transparent && s.hasTransparent
    ensures ImageFileName(s, id, transparent) == id + ".png" <==> !(transparent && s.hasTransparent)
  {
    var a, b := id + "_nobg.png", id + ".png";
    assert |a| != |b|;
  }

  /** The checks of both image endpoints: 404 for an unknown snippet or a missing file, else the file to send. */
  function ServedImage(s: Option<Snippet>, id: string, transparent: bool, files: set<string>): (r: (Response, Option<string>))
    ensures r.0 == Ok <==> s.Some? && ImageFileName(s.value, id, transparent) in files
    ensures r.0 == Ok ==> r.1 == Some(ImageFileName(s.value, id, transparent))
    ensures s.None? ==> r.0 == NotFound("Snippet not found")
    ensures r.0 != Ok ==> r.0.NotFound? && r.1.None?
  {
    if s.None? then (NotFound("Snippet not found"), None)
    else
      var name := ImageFileName(s.value, id, transparent);
      if name !in files then (NotFound("Snippet image not found"), None) else (Ok, Some(name))
  }

  /** The snippets directory after `delete` unlinks a snippet's render and its transparent variant, where they exist. */
  function Unlinked(files: map<string, ImageFile>, id: string): (f: map<string, ImageFile>)
    ensures id + ".png" !in f && id + "_nobg.png" !in f
    ensures forall n :: n in files && n != id + ".png" && n != id + "_nobg.png" ==> n in f && f[n] == files[n]
    ensures f.Keys <= files.Keys
  {
    files - {id + ".png", id + "_nobg.png"}
  }

  /** Deleting a snippet takes away exactly the files saving it added or replaced. */
  lemma SavedThenUnlinked(files: map<string, ImageFile>, id: string, pic: Picture, removeBg: bool)
    ensures Unlinked(SavedFiles(files, id, pic, removeBg), id) == Unlinked(files, id)
  {
    SavedFilesContents(files, id, pic, removeBg);
    var a := Unlinked(SavedFiles(files, id, pic, removeBg), id);
    var b := Unlinked(files, id);
    assert a.Keys == b.Keys;
  }

  /**
   * `delete_snippet`: 404 unless the snippet was there; `delete` then drops
   * it from the index and unlinks `{id}.png` and `{id}_nobg.png`.
   */
  method DeleteSnippet(repo: SnippetsRepository, dir: SnippetDir, id: string) returns (r: Response)
    requires repo.Valid() && dir.Valid()
    modifies repo, dir
    ensures repo.Valid() && dir.Valid()
    ensures r == Ok <==> id in old(repo.cache.m)
    ensures r != Ok ==> r == NotFound("Snippet not found") && repo.cache == old(repo.cache) && dir.files == old(dir.files)
    ensures r == Ok ==> dir.files == Unlinked(old(dir.files), id) && repo.cache == Remove(old(repo.cache), id)
    ensures id !in repo.cache.m
  {
    var deleted := repo.Delete(id);
    if !deleted {
      return NotFound("Snippet not found");
    }
    // for suffix in [".png", "_nobg.png"]: unlink the file if it exists
    dir.files := dir.files - {id + ".png"};
    dir.files := dir.files - {id + "_nobg.png"};
    assert dir.files == Unlinked(old(dir.files), id);
    return Ok;
  }
}
