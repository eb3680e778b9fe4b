/**
 * The backend's records: projects, pages, text regions, glossary entries,
 * jobs, drawing elements and snippets, with the defaults their dataclasses
 * give to omitted fields.  Timestamps are plain integers (larger is later).
 */
module Models {
  import opened Wrappers

  datatype ProjectStatus = Created | Processing | Completed | Error

  datatype DocumentType = Schematic | Manual
  {
    /** The enum's string value. */
    function Value(): string
    {
      match this
      case Schematic => "schematic"
      case Manual => "manual"
    }
  }

  /** `DocumentType(s)`: the enum lookup by value; any other string raises. */
  function ParseDocumentType(s: string): (r: Option<DocumentType>)
    ensures r.Some? <==> s == "schematic" || s == "manual"
    ensures r.Some? ==> r.value.Value() == s
  {
    if s == "schematic" then Some(Schematic)
    else if s == "manual" then Some(Manual)
    else None
  }

  /** Exactly two document types exist, and each one parses back from its value. */
  lemma DocumentTypeRoundTrip(d: DocumentType)
    ensures ParseDocumentType(d.Value()) == Some(d)
    ensures d == Schematic || d == Manual
    ensures Schematic.Value() != Manual.Value()
  {
  }

  /** One user-defined OCR filter, as stored in a project or the settings. */
  datatype RegionFilter = RegionFilter(mode: Option<string>, pattern: Option<string>, caseSensitive: Option<bool>)

  datatype Project = Project(
    id: string,
    name: string,
    pageCount: int,
    status: ProjectStatus,
    createdAt: int,
    ocrRegionFilters: seq<RegionFilter>,
    documentType: DocumentType)

  datatype Page = Page(projectId: string, pageNumber: int, hasOriginal: bool, hasTranslated: bool)

  /** A box [x1, y1, x2, y2] in image pixels, or normalised to the image size. */
  datatype Box = Box(x1: real, y1: real, x2: real, y2: real)

  /** Whether a region's stored corner order is the usual one. */
  predicate Ordered(b: Box)
  {
    b.x1 <= b.x2 && b.y1 <= b.y2
  }

  datatype TextRegion = TextRegion(
    id: string,
    projectId: string,
    pageNumber: int,
    bbox: Box,
    bboxNormalized: Box,
    srcText: string,
    tgtText: Option<string>,
    confidence: real,
    locked: bool,
    needsReview: bool,
    composeMode: string,
    fontSize: Option<int>,
    renderOrder: int,
    fontFamily: string,
    textColor: string,
    bgColor: Option<string>,
    textAlign: string,
    rotation: real,
    isManual: bool,
    lineHeight: real)
  {
    /** Regions that survive an OCR re-run of their page. */
    predicate Protected()
    {
      locked || isManual
    }

    /** Regions whose font size the composer chooses itself. */
    predicate AutoFit()
    {
      fontSize.None? || fontSize == Some(0)
    }
  }

  /** A region built from its required fields only; every other field takes its dataclass default. */
  function NewTextRegion(id: string, projectId: string, pageNumber: int, bbox: Box, bboxNormalized: Box, srcText: string): TextRegion
  {
    TextRegion(id, projectId, pageNumber, bbox, bboxNormalized, srcText,
      None, 0.0, false, false, "patch", None, 0,
      "Arial", "#000000", None, "center", 0.0, false, 1.0)
  }

  /**
   * A fresh region is an unprotected, unreviewed patch-mode region with an
   * automatic font size, the first paint order and no translation yet.
   */
  lemma NewTextRegionDefaults(id: string, projectId: string, pageNumber: int, bbox: Box, bboxNormalized: Box, srcText: string)
    ensures var r := NewTextRegion(id, projectId, pageNumber, bbox, bboxNormalized, srcText);
      !r.Protected() && !r.needsReview && r.AutoFit() && r.composeMode == "patch"
      && r.renderOrder == 0 && r.tgtText.None? && r.confidence == 0.0
      && r.id == id && r.pageNumber == pageNumber && r.srcText == srcText
  {
  }

  datatype GlossaryEntry = GlossaryEntry(id: string, projectId: string, srcTerm: string, tgtTerm: string, locked: bool)

  datatype Job = Job(
    id: string,
    projectId: string,
    jobType: string,
    status: string,
    progress: real,
    currentStep: Option<string>,
    error: Option<string>,
    createdAt: int)

  /** A job as created: pending, no progress, no step and no error. */
  function NewJob(id: string, projectId: string, jobType: string, createdAt: int): (j: Job)
    ensures j.status == "pending" && j.progress == 0.0
    ensures j.currentStep.None? && j.error.None?
    ensures j.id == id && j.projectId == projectId && j.jobType == jobType
  {
    Job(id, projectId, jobType, "pending", 0.0, None, None, createdAt)
  }

  datatype DrawingElement = DrawingElement(
    id: string,
    projectId: string,
    pageNumber: int,
    elementType: string,
    points: seq<real>,
    strokeColor: string,
    strokeWidth: int,
    fillColor: Option<string>,
    text: Option<string>,
    fontSize: int,
    fontFamily: string,
    textColor: string,
    imageData: Option<string>,
    createdAt: int)

  /** How many coordinates an element of the given type stores. */
  function PointCount(elementType: string): nat
  {
    if elementType == "text" then 2 else 4
  }

  /**
   * A snippet of the image library.  `currentVersion` is None for records
   * that predate versioning.
   */
  datatype Snippet = Snippet(
    id: string,
    name: string,
    width: int,
    height: int,
    hasTransparent: bool,
    ocrDetections: seq<SnippetDetection>,
    textErased: bool,
    createdAt: int,
    currentVersion: Option<int>)

  /** One OCR detection stored with a snippet: its box list, if any. */
  datatype SnippetDetection = SnippetDetection(bbox: Option<seq<real>>)
}
