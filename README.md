# Document translator core, modelled in Dafny

This project models the deterministic core of a desktop tool that translates
technical documents (schematics and manuals) from Chinese. The tool
rasterises each page, runs an OCR engine over it and keeps only the
detections that are really Chinese text. It rechecks short detections with
a secondary English reader to discard component labels ("R1", "AC-220V"),
fills in translations from a glossary and a translation backend, and paints
the translated text back into each region's box. The desktop front end
lets users edit, drag and resize these regions, draw annotations, and cut
image snippets with undo/redo.

Every OCR engine, the translator, the font rasteriser, the regex engine,
the clock, uuid generation and the file system are parameters here: an
input sequence, an oracle function, or a fresh-id function. Everything
between them is modelled; what is left out is listed at the end.

One Dafny module is written per source file:

| module | file | source |
|---|---|---|
| `Script` | script.dfy | backend/app/services/text_script_utils.py (and the copies `_is_han_char`/`_han_ratio` in the two OCR services) |
| `OcrFilters`, `OcrDetect` | ocr_filters.dfy, ocr_detect.dfy | backend/app/services/ocr_service.py, backend/app/config.py |
| `PaddleOcr` | paddle.dfy | backend/app/services/ocr_service_paddle.py |
| `OcrPostprocess` | postprocess.dfy | backend/app/services/ocr_postprocess.py |
| `MixedTranslate` | mixed_translate.dfy | backend/app/services/translate_mixed_service.py |
| `ComposeColor`, `ComposeFit`, `ComposePage` | compose_color.dfy, compose_fit.dfy, compose_page.dfy | backend/app/services/compose_service.py |
| `Models` | models.dfy | backend/app/db/models.py |
| `Repository` | repository.dfy | backend/app/db/repository.py |
| `GlobalGlossary` | global_glossary.dfy | backend/app/db/global_glossary_repository.py |
| `GlossaryApply`, `PagesApi` | glossary_apply.dfy, pages_api.dfy | backend/app/api/pages.py |
| `GlossaryApi` | glossary_api.dfy | backend/app/api/glossary.py |
| `JobService` | job_service.dfy | backend/app/services/job_service.py |
| `SettingsApi` | settings_api.dfy | backend/app/api/settings.py |
| `SnippetService` | snippet_service.dfy | backend/app/services/snippet_service.py |
| `SnippetsApi` | snippets_api.dfy | backend/app/api/snippets.py |
| `UndoRedo` | undo_redo.dfy | desktop/src/lib/undoRedo.ts |
| `TextBox` | text_box.dfy | desktop/src/components/EditableTextBox.tsx |
| `ImageViewer` | image_viewer.dfy | desktop/src/components/ImageViewer.tsx |
| `ProjectPage` | project_page.dfy | desktop/src/pages/ProjectPage.tsx |
| `DrawingCanvas` | drawing_canvas.dfy | desktop/src/components/DrawingCanvas.tsx |
| `DrawingOverlay` | drawing_overlay.dfy | desktop/src/components/DrawingOverlay.tsx |
| `CropOverlay` | crop_overlay.dfy | desktop/src/components/SnippetCropOverlay.tsx |
| `SnippetEditor` | snippet_editor.dfy | desktop/src/components/SnippetDrawingEditor.tsx |

Some helper modules model the host languages' own library semantics:

- `Wrappers` holds `Option` (Python `None`, JavaScript `null`) and `Outcome` (a call that may raise).
- `PyText` covers Python `str`: the `isspace` set, `strip`, `split()`, `" ".join`, ASCII `lower`, `in`/`startswith`/`endswith`, `find`/`rfind`, and `int()` truncation.
- `JsText` covers JavaScript `trim`.
- `PyDict` is an insertion-ordered dict.
- `PyFormat` covers `int()` parsing and zero-padded formatting.
- `Seqs` holds order-preserving selection.

Code that works step by step is modelled imperatively, as the source does it:

- Loops become methods with invariants, each proved equal to a specification function.
- Stores, the job runner, the settings file and the front-end components become classes.
- The pixel buffer is an array.

Pure code is modelled as functions, with lemmas stating what the source promises.

Python floats are modelled as exact `real`s. The luminance thresholds
(0.299, 0.587, 0.114 against 200 and 128) are multiplied by 1000 and
compared as integers.

## Model

| member | source | states |
|---|---|---|
| Script.HanCharInBlocks | backend/app/services/text_script_utils.py:5-16 | a character is Han exactly when its code point lies in one of the eight CJK blocks (4E00-9FFF, 3400-4DBF, 20000-2A6DF, 2A700-2B73F, 2B740-2B81F, 2B820-2CEAF, F900-FAFF, 2F800-2FA1F) |
| Script.HanCountZero | backend/app/services/text_script_utils.py:19-27 | the Han count is zero exactly when `has_han` is false (so the empty text has no Han) |
| Script.HanCountFull | backend/app/services/text_script_utils.py:23-27 | the Han count equals the length exactly when every character is Han |
| Script.HanRatioBounds | backend/app/services/text_script_utils.py:23-27 | `han_ratio` lies in [0,1]; it is 0 iff the text has no Han (the empty text included) and 1 iff the text is non-empty and all Han |
| Script.LabelLikeCases | backend/app/services/text_script_utils.py:30-38 | the empty text is label-like; any Han makes it not label-like; otherwise it is label-like iff it is not all whitespace and every character is in `[A-Za-z0-9-_/().:+,]` or whitespace |
| Script.NormalizeCollapses | backend/app/services/text_script_utils.py:41-44 | the result has no outer whitespace, no two adjacent whitespace characters, only `' '` as whitespace, and the same words as the input |
| Script.NormalizeIdempotent | backend/app/services/text_script_utils.py:41-44 | normalising twice equals normalising once |
| Script.HanRunsCorrect | backend/app/services/text_script_utils.py:47-67 | the runs concatenate back to the input; each run is non-empty with all characters carrying its flag; neighbouring runs differ in flag; there are no runs iff the text is empty |
| Script.IterHanRuns | backend/app/services/text_script_utils.py:47-67 | the buffer loop returns exactly the run list of the specification (so the run properties above hold of its output) |
| OcrFilters.ApplyFilters | backend/app/services/ocr_service_paddle.py:59-82 | the loop returns true iff some filter with a non-empty mode and pattern matches; contains/starts/ends compare lowercased text and pattern unless case sensitive; regex asks the search oracle with IGNORECASE unless case sensitive; an invalid regex matches nothing |
| OcrFilters.CaseInsensitiveModes | backend/app/services/ocr_service.py:93-106 | a case-insensitive substring/prefix/suffix filter cannot tell a text from its lowercased form |
| OcrFilters.FilterModes | backend/app/services/ocr_service.py:88-111 | a filter lacking mode or pattern matches nothing; a case-sensitive `contains` filter matches iff the raw text holds the pattern; a regex filter matches iff the search finds the pattern in the raw text |
| OcrFilters.MoreFiltersDropMore | backend/app/services/ocr_service.py:88-116 | a detection is dropped by a concatenated filter list iff one of the two lists drops it |
| OcrFilters.EffectiveFilters | backend/app/services/ocr_service.py:80 | `custom_filters=None` selects the global filters; a supplied list, even an empty one, is used as it is |
| OcrFilters.ScriptGateCases | backend/app/services/ocr_service.py:118-124 | with the default minimum 1.0 only non-empty all-Han texts pass; with a minimum of at most 0.2 the 0.2 gate alone decides; an empty text never passes; a passing text has Han |
| OcrFilters.MinHanRatio | backend/app/config.py:47-58 | the configured minimum Han ratio is clamped to [0,1], with 1.0 when it is absent or unparsable |
| OcrDetect.BoxOf | backend/app/services/ocr_service.py:126-130 | the bbox is [min x, min y, max x, max y] of the quad points: ordered, holding every point, each side touching some point; an empty point list has no box (Python's `min` raises) |
| OcrDetect.NormalizedScalesBack | backend/app/services/ocr_service.py:132-138 | `bbox_normalized` times the image size gives the bbox back; it is ordered when the bbox is, and a bbox inside the image normalises into the unit square |
| OcrDetect.FirstField | backend/app/services/ocr_service.py:142 | `stem.split("_")[0]` is the longest underscore-free prefix of the stem |
| OcrDetect.OriginalStemPageNumber | backend/app/services/ocr_service.py:142 | the page number read back from a rendered page's file name `{page:03d}_original_{dpi}` is that page's number |
| OcrDetect.KeptIndicesCorrect | backend/app/services/ocr_service.py:82-124 | the kept positions are strictly increasing and are exactly the detections that pass the filters and both script gates |
| OcrDetect.DetectKeepsOrder | backend/app/services/ocr_service.py:82-155 | `detect_text` keeps an order-preserving subsequence of the detector output: each passing detection exactly once, with its text and confidence, an ordered bbox holding every corner, the project of the grandparent directory and the page of the file-name prefix, unlocked and untranslated |
| OcrDetect.Passes | backend/app/services/ocr_service.py:87-124 | one detection's checks, run in the source's order (filters, then the 0.2 gate, then the configured gate), decide exactly the keep predicate |
| OcrDetect.DetectText | backend/app/services/ocr_service.py:57-155 | the detection loop returns the specification's regions; it raises only when a kept detection has no points or the file name has no page number, and the name is read only once a region is kept |
| OcrDetect.BatchPageAgrees | backend/app/services/ocr_service.py:196-267 | each page of a batch keeps the same regions in the same order as `detect_text` on that image (ids aside); a page whose name has no number raises even when it keeps nothing |
| OcrDetect.DetectPage | backend/app/services/ocr_service.py:201-265 | the per-page loop of the batch returns the regions of the page's kept detections |
| OcrDetect.DetectBatchPage | backend/app/services/ocr_service.py:197-267 | one batch page reads its page number before its detections, then returns its regions |
| OcrDetect.DetectTextBatch | backend/app/services/ocr_service.py:158-267 | the batch loop returns the batch specification: pages in input order, paired by `zip` |
| OcrDetect.BatchPrefix | backend/app/services/ocr_service.py:196 | `zip` pairs images with results, so the batch depends only on the first min(#images, #results) of each |
| OcrDetect.BatchShape | backend/app/services/ocr_service.py:196-267 | the batch returns one list per zipped image, in input order, each the page rule's result for that image |
| OcrDetect.EmptyBatchRaises | backend/app/services/ocr_service.py:269-270 | the batch as written raises on an empty image list (see Findings), while the corrected batch returns [] |
| PaddleOcr.ParsePaddleResult | backend/app/services/ocr_service_paddle.py:85-94 | a non-list gives []; a one-element list holding a list gives that inner list; any other list is returned unchanged |
| PaddleOcr.ParsePaddleCases | backend/app/services/ocr_service_paddle.py:85-94 | the four cases on concrete shapes: falsy input gives []; a list holding one list is unwrapped exactly once; any other list is returned as is; a tuple is not a list |
| PaddleOcr.ItemStages | backend/app/services/ocr_service_paddle.py:116-143 | the stage order: an item whose fields cannot be read, or that a filter or a script gate rejects, is skipped before its coordinates are read; a region arises only from a non-empty text that passed every stage, with an ordered box holding its points |
| PaddleOcr.ReadItem | backend/app/services/ocr_service_paddle.py:116-143 | one item's checks, in source order, give the item's step (skip, region or raise) |
| PaddleOcr.PaddleItems | backend/app/services/ocr_service_paddle.py:114-164 | the item loop returns the specification's region list and raises once any item raises |
| PaddleOcr.PaddleRegionsAdmitted | backend/app/services/ocr_service_paddle.py:116-164 | every region built passed the filters and both gates, has a non-empty text, an ordered bbox with its normalised form, the file's page and project, and the next fresh id; there are never more regions than items |
| PaddleOcr.DispatchCases | backend/app/services/ocr_service_paddle.py:166-188 | an empty list stays empty in every mode; with basic mode and the recheck off, the regions pass unchanged; a manual document always enables the recheck; the advanced mode returns only survivors of its gates; the basic recheck only drops regions |
| PaddleOcr.DispatchRegions | backend/app/services/ocr_service_paddle.py:166-188 | the dispatch runs `filter_regions_advanced` in advanced mode and the recheck in basic mode when enabled, never on an empty list |
| PaddleOcr.DetectTextPaddle | backend/app/services/ocr_service_paddle.py:97-195 | the engine's `detect_text` after the engine call equals the specification: the item loop, then the mode dispatch, then paragraph grouping for manuals with more than one region |
| PaddleOcr.PaddleBasicSchematic | backend/app/services/ocr_service_paddle.py:97-195 | a falsy engine result yields no region; a schematic page in basic mode without the recheck yields exactly the admitted regions of the item loop |
| OcrPostprocess.BestIndex | backend/app/services/ocr_postprocess.py:121 | `max(res, key=...)` picks an item of highest score, the first one on ties |
| OcrPostprocess.RecheckVerdict | backend/app/services/ocr_postprocess.py:118-129 | the verdict loop removes a region iff the secondary result is non-empty, every score converts, and the best item's normalised text reaches confidence 0.6, is label-like and has no Han |
| OcrPostprocess.RecheckFailOpen | backend/app/services/ocr_postprocess.py:118-129 | an empty result, an unconvertible confidence, or a best item without a confidence keeps the region (fail open); a removed region's best text is Han-free with confidence at least 0.6 and maximal |
| OcrPostprocess.PadValue | backend/app/services/ocr_postprocess.py:33 | the pad `max(1, int(min(w,h)*0.002))` is one pixel per 500 of the shorter side, and at least 1 |
| OcrPostprocess.CropBoxBounds | backend/app/services/ocr_postprocess.py:29-39 | the crop lies inside [0,w]x[0,h] and extends the int-truncated bbox by the pad on every side, except where the image edge cuts it |
| OcrPostprocess.RecheckScale | backend/app/services/ocr_postprocess.py:94-96 | the scale never exceeds 1 and is positive for a positive target; it is 1 without a positive source DPI or when the source is no finer than the target, and target/source otherwise |
| OcrPostprocess.NeverUpscaled | backend/app/services/ocr_postprocess.py:42-57 | a scale of 0.999 or more uses the plain crop; a smaller one resizes it to sides between 1 and the crop's own, so crops are never enlarged |
| OcrPostprocess.CapPoint | backend/app/services/ocr_postprocess.py:90-92 | the slice point of `suspicious[:cap]` never exceeds the list length |
| OcrPostprocess.CapPointCases | backend/app/services/ocr_postprocess.py:90-92 | a cap of at least n rechecks all n; a cap in [0,n] rechecks exactly that many; a negative cap leaves the last `-cap` unchecked (Python slicing) |
| OcrPostprocess.KeptAfterMembers | backend/app/services/ocr_postprocess.py:118-129 | each rechecked region that stays was paired by `zip` with a result that does not remove it |
| OcrPostprocess.KeptAfterFailOpen | backend/app/services/ocr_postprocess.py:118-129 | when every rechecked region has a result and none removes it, every rechecked region stays, in order |
| OcrPostprocess.RecheckWithoutShort | backend/app/services/ocr_postprocess.py:87-88 | without short regions the input comes back unchanged |
| OcrPostprocess.RecheckOnlyDrops | backend/app/services/ocr_postprocess.py:64-133 | the recheck only drops regions: every output region is an input region |
| OcrPostprocess.RecheckLossless | backend/app/services/ocr_postprocess.py:64-133 | when the cap covers every short region and the reader keeps each, the output is a permutation of the input |
| OcrPostprocess.RecheckShortAllKept | backend/app/services/ocr_postprocess.py:90-131 | with the cap covering them and a reader keeping them all, the short regions come back unchanged |
| OcrPostprocess.CheckShort | backend/app/services/ocr_postprocess.py:90-131 | the cap split, scale, crops, reader call and verdicts give the kept rechecked regions followed by the pass-through ones |
| OcrPostprocess.CropAll | backend/app/services/ocr_postprocess.py:99-104 | one scaled crop per rechecked region, in order |
| OcrPostprocess.KeepRechecked | backend/app/services/ocr_postprocess.py:118-129 | the `zip` loop keeps, in order, the rechecked regions whose result does not remove them |
| OcrPostprocess.RecheckSuspicious | backend/app/services/ocr_postprocess.py:64-133 | `recheck_suspicious_regions` equals the three-block specification |
| OcrPostprocess.SurvivorsMembers | backend/app/services/ocr_postprocess.py:149-164 | each survivor of the advanced gates is an input region with its text normalised, confidence at least the minimum, not label-like and hence non-empty |
| OcrPostprocess.SurvivorsComplete | backend/app/services/ocr_postprocess.py:149-164 | conversely, every input region whose normalised form is confident enough and not label-like is a survivor |
| OcrPostprocess.AdvancedWithoutRecheck | backend/app/services/ocr_postprocess.py:166-167 | with the recheck disabled, or with no short survivor, the result is the survivors in input order; the result only ever holds survivors |
| OcrPostprocess.FilterRegionsAdvanced | backend/app/services/ocr_postprocess.py:136-211 | the advanced loop normalises, gates by confidence and label, then rechecks the short survivors like the basic recheck |
| MixedTranslate.SegmentsExact | backend/app/services/translate_mixed_service.py:15-27 | the segments sent to the translator are in strictly increasing (text, run) order; each names a Han run whose stripped text is non-empty and not a glossary key, and carries that stripped text; every such run has a segment |
| MixedTranslate.GlossaryNeverSent | backend/app/services/translate_mixed_service.py:24-25 | no text sent to the translator is a glossary key |
| MixedTranslate.KeyMapLookup | backend/app/services/translate_mixed_service.py:33-35 | the `zip` dict maps the k-th segment's key to the k-th translation for every k the translation list reaches, and holds no other key |
| MixedTranslate.SentRunTranslated | backend/app/services/translate_mixed_service.py:29-51 | a sent run has a segment with its stripped text, and it is replaced by that segment's translation, or kept as it is when the translator returned too few items |
| MixedTranslate.NoHanUnchanged | backend/app/services/translate_mixed_service.py:37-52 | a text without Han (None read as "") comes back unchanged, whatever the glossary and translator |
| MixedTranslate.IdentityTranslation | backend/app/services/translate_mixed_service.py:7-54 | with an empty glossary and a translator that returns its input, every text comes back unchanged |
| MixedTranslate.TranslateBatchPreservingNonHan | backend/app/services/translate_mixed_service.py:7-54 | the function returns the specification: one output per input, each the join of its runs, with non-Han and blank runs kept, glossary runs replaced, and sent runs looked up by key |
| MixedTranslate.CollectSegments | backend/app/services/translate_mixed_service.py:10-27 | the first loop builds the run lists of every text and the keys and stripped texts of exactly the sent runs, in order |
| MixedTranslate.SegmentsOfText | backend/app/services/translate_mixed_service.py:18-27 | the inner loop collects the keys and stripped texts of one text's sent runs |
| MixedTranslate.ZipKeys | backend/app/services/translate_mixed_service.py:33-35 | the dict loop builds exactly the key map of the zipped keys and translations |
| MixedTranslate.RebuildTexts | backend/app/services/translate_mixed_service.py:37-52 | the output loop joins every text's parts, in order |
| MixedTranslate.JoinRuns | backend/app/services/translate_mixed_service.py:39-52 | the parts loop of one text joins its runs' parts in order |
| ComposeColor.LuminanceAbove | backend/app/services/compose_service.py:51-52 | a luminance threshold test `0.299 R + 0.587 G + 0.114 B > t` is exactly the integer test `299 R + 587 G + 114 B > 1000 t` |
| ComposeColor.TextColorRule | backend/app/services/compose_service.py:63-66 | the text colour is black exactly when the background's luminance exceeds 128, and white otherwise |
| ComposeColor.ParseSixDigits | backend/app/services/compose_service.py:196-199 | `#` and three two-character pairs parse to the pairs' values as `int(p, 16)` reads them, and fail (Python raises) as soon as one pair is unreadable |
| ComposeColor.HexValueForms | backend/app/services/compose_service.py:196-199 | `int(p, 16)` on a pair reads two digits, a digit with a sign or whitespace before it, or a digit with whitespace after it; a `0x` prefix, an underscore, a lone sign or blank and the empty slice raise |
| ComposeColor.ParseSigned | backend/app/services/compose_service.py:196-199 | signed pairs parse: `#+f+f+f` is (15, 15, 15) and `#-f0000` has a negative red channel |
| ComposeColor.ParsePadded | backend/app/services/compose_service.py:196-199 | blank-padded pairs parse: `# 1 2 3` is (1, 2, 3) |
| ComposeColor.ParseFormatHexColor | backend/app/services/compose_service.py:196-199 | every colour written as `#rrggbb` parses back to itself |
| ComposeColor.DefaultTextColorIsBlack | backend/app/db/models.py:59 | the default `text_color` `#000000` parses to black |
| ComposeColor.FillRectFootprint | backend/app/services/compose_service.py:213-217 | the filled rectangle changes exactly the pixels inside its inclusive corners, to the fill colour |
| ComposeColor.FrameInImage | backend/app/services/compose_service.py:20-43 | every frame pixel lies inside the image, whatever the box (numpy slices clamp) |
| ComposeColor.FrameExact | backend/app/services/compose_service.py:20-43 | for a box inside the image, the frame is exactly the pixels of the box grown by the margin (clipped to the image) that are not inside the box |
| ComposeColor.SortIntsCorrect | backend/app/services/compose_service.py:56 | the median's sort returns a sorted permutation of the values |
| ComposeColor.MedianBounds | backend/app/services/compose_service.py:56 | the truncated median lies between any bounds of the values |
| ComposeColor.EstimateWithoutLight | backend/app/services/compose_service.py:45-60 | a frame with no pixel of luminance above 200 (the empty frame included) gives white |
| ComposeColor.EstimateValid | backend/app/services/compose_service.py:48-57 | the estimate of a frame of valid colours is a valid colour |
| ComposeColor.EstimateUniform | backend/app/services/compose_service.py:50-57 | when all light frame pixels have one colour, that colour is the estimate |
| ComposeColor.EstimateIgnoresInterior | backend/app/services/compose_service.py:28-43 | the estimate does not depend on the pixels inside the box |
| ComposeFit.SplitIndex | backend/app/services/compose_service.py:125-128 | the wrap point is -1 or the index of a space |
| ComposeFit.TwoLinesRejoin | backend/app/services/compose_service.py:130-132 | the two wrapped lines joined by a space give the text back |
| ComposeFit.TryAtFits | backend/app/services/compose_service.py:114-141 | a size accepted by the one-line or two-line test yields one or two lines that fit the box and rejoin to the text |
| ComposeFit.AutoFitLargest | backend/app/services/compose_service.py:103-153 | the search picks the largest size from 72 down to 8 at which the text fits; when none fits it reports overflow at size 8 with the text on one line |
| ComposeFit.FitSpecLines | backend/app/services/compose_service.py:69-153 | `_fit_text` returns the text on one line or wrapped once onto two, losing no character; an overflow result is one line at size 8; an automatic, non-overflowing result fits the box |
| ComposeFit.FitText | backend/app/services/compose_service.py:69-153 | the size loop with its early returns computes the fitting specification (a truthy fixed size is used as it is, unmeasured) |
| ComposeFit.VerticalCentring | backend/app/services/compose_service.py:236 | the block of lines is centred vertically: the space below exceeds the space above by 0 or 1 pixel |
| ComposeFit.LineXAlignment | backend/app/services/compose_service.py:243-250 | left-aligned lines start 2 pixels in; right-aligned lines end 2 pixels in; otherwise a line is centred, the right gap exceeding the left by 0 or 1 |
| ComposeFit.StrokesStack | backend/app/services/compose_service.py:228-253 | each line is drawn right below the previous one, the last one ending at the bottom of the centred block, and the lines are drawn in order |
| ComposeFit.DrawLines | backend/app/services/compose_service.py:238-253 | the drawing loop issues exactly the stroke sequence of the layout |
| ComposePage.PaintOrderFacts | backend/app/services/compose_service.py:181 | the paint order is a stable sort: each region exactly once, ascending in `render_order`, ties kept in list order |
| ComposePage.AscendingDistinct | backend/app/services/compose_service.py:181 | no region is painted twice |
| ComposePage.SkippedRegion | backend/app/services/compose_service.py:185-193 | a region with no text (`tgt_text or src_text` empty) or not in patch mode leaves the page as it is |
| ComposePage.FixedSizeRegion | backend/app/services/compose_service.py:193-257 | a patch region with a fixed font size draws its whole text as one line at that size, never flags review, and paints its padded rectangle in its background colour |
| ComposePage.BadColorRaises | backend/app/services/compose_service.py:196-208 | a set `bg_color` or `text_color` that `int(p, 16)` cannot read pair by pair makes composing raise |
| ComposePage.ComposeRegionEffects | backend/app/services/compose_service.py:183-257 | composing one region leaves the other regions alone, at most sets this one's review flag, only appends text calls, and, since glyphs are not painted, repaints only pixels under its padded rectangle |
| ComposePage.ComposeUpToEffects | backend/app/services/compose_service.py:180-257 | over a whole page the regions keep every field but the review flag, which is only ever set, and, since glyphs are not painted, pixels outside every region's padded rectangle keep their colour |
| ComposePage.ChooseColors | backend/app/services/compose_service.py:194-210 | the colour choice gives the region's own colours as `int(p, 16)` reads them, or else the estimated background and its contrast colour, and raises on a colour with an unreadable pair |
| ComposePage.DrawPatch | backend/app/services/compose_service.py:212-257 | the patch draws the padded rectangle, then the fitted lines, and flags review on overflow |
| ComposePage.DrawRegionLines | backend/app/services/compose_service.py:227-253 | the lines of a region are drawn in its alignment, font and colour at the fitted size |
| ComposePage.PaintRegion | backend/app/services/compose_service.py:183-257 | the loop body for one region computes the one-region specification |
| ComposePage.ComposeRegions | backend/app/services/compose_service.py:176-259 | `compose_page` paints the regions in the stable `render_order` order and returns the specification's page, text calls and review flags, together with the regions it was handed as it leaves them; the page image carries the rectangles but no glyph ink |
| ComposePage.RegionsUpToReview | backend/app/services/compose_service.py:256-257 | after painting any prefix of the order, each handed region is as it was or only flagged for review, even when a later region raises |
| ComposePage.ComposedRegionsReview | backend/app/services/compose_service.py:183-258 | what `compose_page` leaves in the regions it was handed differs from them at most in the review flag, and on success equals the page's regions |
| Models.ParseDocumentType | backend/app/db/models.py:18-20 | `DocumentType(s)` succeeds exactly for "schematic" and "manual", and the member's value is `s` |
| Models.DocumentTypeRoundTrip | backend/app/db/models.py:18-20 | looking up a document type by its value gives it back; there are exactly two, with different values |
| Models.NewTextRegionDefaults | backend/app/db/models.py:42-65 | a region built from its required fields is unlocked, not manual, not flagged for review, in patch mode, auto-sized, first in paint order, untranslated and at confidence 0, with the given id, page and text |
| Models.NewJob | backend/app/db/models.py:77-86 | a new job is pending at progress 0 with no step and no error |
| Repository.FirstHolder | backend/app/db/repository.py:219-220 | the first project in cache order whose dictionary holds the key, or None exactly when no project does |
| Repository.ToDelete | backend/app/db/repository.py:207-210 | `to_delete` holds exactly the ids of the stored regions on the page that are neither locked nor manual |
| Repository.RemoveAllFacts | backend/app/db/repository.py:211-212 | deleting a list of ids removes exactly those ids and keeps every other entry |
| Repository.PutAllFacts | backend/app/db/repository.py:214-215 | after assigning a list of keys, each key holds the value of its last assignment and every other key keeps its value |
| Repository.ReplaceForPageLookup | backend/app/db/repository.py:200-216 | after `replace_for_page` an id names the last new region with that id, else the stored region unless it was an unlocked non-manual region of that page, else nothing: locked and manual regions survive and other pages are untouched |
| Repository.OnPage | backend/app/db/repository.py:198 | the listed regions are exactly the stored regions on that page |
| Repository.RegionPatchFacts | backend/app/db/repository.py:218-226 | an update changes only the five patchable fields, cannot clear the translation or the fixed font size, is idempotent, and the empty patch changes nothing |
| Repository.DeleteTarget | backend/app/db/repository.py:229-242 | the project deleted from holds the id, and there is none exactly when no cached project holds it |
| Repository.DeleteRemovesOnlyThat | backend/app/db/repository.py:229-243 | `delete` removes that one id from that one project; every other id of every project keeps its region |
| Repository.TextRegionsRepository.ProjectRegions | backend/app/db/repository.py:144-153 | the project's dictionary is loaded once, as empty when never stored, and the cache keeps every other project |
| Repository.TextRegionsRepository.ListByPage | backend/app/db/repository.py:196-198 | the page's regions in dictionary order, after loading the project |
| Repository.PageKeysFacts | backend/app/db/repository.py:196-198 | the keys of a page's regions are distinct keys of the dictionary, and `list_by_page` returns exactly their regions in that order |
| Repository.WritePageLookup | backend/app/db/repository.py:196-198 | after writing through the listed objects, a region on another page keeps its value and a region on the page holds what was written to its listed position |
| Repository.WritePageListed | backend/app/db/repository.py:196-198 | writes that keep the regions on the page are what `list_by_page` returns next |
| Repository.WritePageUnchanged | backend/app/db/repository.py:196-198 | writing back the listed objects unchanged leaves the dictionary as it was |
| Repository.TextRegionsRepository.StorePage | backend/app/db/repository.py:196-198 | writes a caller makes through the objects `list_by_page` handed it land in the cache, the project loaded first |
| Repository.TextRegionsRepository.ReplaceForPage | backend/app/db/repository.py:200-216 | the deletion and insertion loops leave the project's dictionary as the replacement specification and change no other project |
| Repository.TextRegionsRepository.FindHolder | backend/app/db/repository.py:219-220 | the search loop returns the first holder in cache order |
| Repository.TextRegionsRepository.Update | backend/app/db/repository.py:218-227 | an unknown id changes nothing and gives None; otherwise the first holder's region is patched in place and returned |
| Repository.TextRegionsRepository.Delete | backend/app/db/repository.py:229-243 | the named project (loaded first) is searched, then the whole cache; the answer is true iff some project held the id, and only that entry is removed |
| Repository.TextRegionsRepository.Get | backend/app/db/repository.py:184-194 | the region of the named project if it has the id, else of the first holder in the cache, else None |
| Repository.TextRegionsRepository.constructor | backend/app/db/repository.py:141-142 | no project is loaded yet: the cache is empty |
| Repository.UpsertFacts | backend/app/db/repository.py:121-132 | `upsert` creates an absent page with False for every flag not given, sets only the given flags of an existing page, and keeps the page's number |
| Repository.PagesRepository.ProjectPages | backend/app/db/repository.py:95-105 | the project's page dictionary is loaded once, as empty when never stored |
| Repository.PagesRepository.Upsert | backend/app/db/repository.py:121-132 | the page returned is the upserted page and is stored under its number |
| Repository.PagesRepository.ListByProject | backend/app/db/repository.py:134-135 | the project's pages in insertion order |
| Repository.PagesRepository.constructor | backend/app/db/repository.py:92-93 | no project is loaded yet: the cache is empty |
| Repository.ReplacedGlossaryLookup | backend/app/db/repository.py:281-292 | after `replace_for_project` nothing of the old glossary is left: an id names the last input entry that got it (its own id, or a fresh uuid when empty), with the project's id and the entry's terms and lock |
| Repository.GlossaryRepository.ProjectGlossary | backend/app/db/repository.py:252-261 | the project's glossary dictionary is loaded once, as empty when never stored |
| Repository.GlossaryRepository.ListByProject | backend/app/db/repository.py:278-279 | the project's entries in insertion order |
| Repository.GlossaryRepository.ReplaceForProject | backend/app/db/repository.py:281-292 | the project's dictionary becomes the replaced glossary, without loading the old one |
| Repository.GlossaryRepository.constructor | backend/app/db/repository.py:249-250 | no project is loaded yet: the cache is empty |
| Repository.BuildGlossary | backend/app/db/repository.py:282-291 | the entry loop builds exactly the replaced glossary |
| Repository.NewProject | backend/app/db/repository.py:62-63 | a new project has the given id, name, page count and document type, status created and no filters |
| Repository.ProjectPatchFacts | backend/app/db/repository.py:74-82 | `update` keeps the id and creation time, sets every given field and keeps every other; the empty update changes nothing |
| Repository.ProjectsRepository.Create | backend/app/db/repository.py:62-66 | the new project is stored under its id, replacing any project with that id |
| Repository.ProjectsRepository.Get | backend/app/db/repository.py:68-69 | the stored project, or None |
| Repository.ProjectsRepository.ListAll | backend/app/db/repository.py:71-72 | every stored project once, in insertion order |
| Repository.ProjectsRepository.Update | backend/app/db/repository.py:74-82 | an unknown id gives None and changes nothing; otherwise the patched project is stored and returned |
| Repository.ProjectsRepository.Delete | backend/app/db/repository.py:84-86 | the id is removed if present, and nothing else changes |
| Repository.ProjectsRepository.constructor | backend/app/db/repository.py:19-20 | the repository starts with an empty cache |
| Repository.NewDrawing | backend/app/db/repository.py:356-372 | a new element has the given id, project, page, type and points, the given options, and the defaults `#000000`, 2, 14 and Arial for those not given |
| Repository.DrawingPatchFacts | backend/app/db/repository.py:389-398 | an update never changes what an element is (id, project, page, type, creation time), cannot clear an optional field, and the empty update changes nothing |
| Repository.DrawingsOnPage | backend/app/db/repository.py:384 | the listed elements are exactly the stored elements on that page |
| Repository.DrawingsRepository.ProjectDrawings | backend/app/db/repository.py:301-330 | the project's drawing dictionary is loaded once, as empty when never stored |
| Repository.DrawingsRepository.Create | backend/app/db/repository.py:356-376 | the new element, under the fresh id, is added to its project |
| Repository.DrawingsRepository.Get | backend/app/db/repository.py:378-380 | the project's element with that id, or None |
| Repository.DrawingsRepository.ListByPage | backend/app/db/repository.py:382-384 | the page's elements in insertion order |
| Repository.DrawingsRepository.ListByProject | backend/app/db/repository.py:386-387 | the project's elements in insertion order |
| Repository.DrawingsRepository.Update | backend/app/db/repository.py:389-398 | an element the project lacks gives None; otherwise the patched element is stored and returned |
| Repository.DrawingsRepository.Delete | backend/app/db/repository.py:400-406 | true iff the project had the element, which is then gone and nothing else changes |
| Repository.DrawingsRepository.constructor | backend/app/db/repository.py:298-299 | no project is loaded yet: the cache is empty |
| Repository.NewestFirstFacts | backend/app/db/repository.py:476-477 | `list_all` lists every snippet once, newest first, and snippets created at the same time keep their dictionary order (the sort is stable) |
| Repository.NewSnippet | backend/app/db/repository.py:458-468 | a new snippet has the given fields, `ocr_detections or []`, and no version yet |
| Repository.SnippetsRepository.Create | backend/app/db/repository.py:458-471 | the new snippet is stored under the fresh id |
| Repository.SnippetsRepository.ListAll | backend/app/db/repository.py:476-477 | the stored snippets sorted newest first |
| Repository.SnippetsRepository.UpdateOcrDetections | backend/app/db/repository.py:479-485 | an unknown id gives None and changes nothing; otherwise only the snippet's detections change |
| Repository.SnippetsRepository.Delete | backend/app/db/repository.py:487-497 | true iff the snippet existed, which is then gone |
| Repository.SnippetsRepository.Get | backend/app/db/repository.py:473-474 | the stored snippet, or None |
| Repository.SnippetsRepository.constructor | backend/app/db/repository.py:414-415 | the repository starts with an empty cache |
| GlobalGlossary.FromStored | backend/app/db/global_glossary_repository.py:26-32 | a stored object becomes a global entry with its id (or a fresh uuid when missing or empty), its terms ("" when missing) and the truthiness of its `locked` |
| GlobalGlossary.AdmitFacts | backend/app/db/global_glossary_repository.py:33-34 | after admitting entries, an id names the last entry with that id and a non-empty source term, else what it named before |
| GlobalGlossary.ReplacedCacheLookup | backend/app/db/global_glossary_repository.py:58-74 | after `replace_all` only global entries remain; an id names the last input entry with that id and a non-empty source term, and exists exactly when there is one |
| GlobalGlossary.HasSrcTermCache | backend/app/db/global_glossary_repository.py:77-79 | `any(e.src_term == t ...)` holds exactly when some cached entry has that source term |
| GlobalGlossary.AdmitStored | backend/app/db/global_glossary_repository.py:25-34 | the load loop builds exactly the loaded cache |
| GlobalGlossary.AdmitInputs | backend/app/db/global_glossary_repository.py:60-74 | the replace loop builds exactly the replaced cache |
| GlobalGlossary.GlobalGlossaryRepository.Load | backend/app/db/global_glossary_repository.py:14-34 | the file is read once: later loads change nothing |
| GlobalGlossary.GlobalGlossaryRepository.ListAll | backend/app/db/global_glossary_repository.py:54-56 | the entries after the lazy load, in insertion order |
| GlobalGlossary.GlobalGlossaryRepository.ReplaceAll | backend/app/db/global_glossary_repository.py:58-75 | the cache becomes the replaced cache, whatever was loaded before |
| GlobalGlossary.GlobalGlossaryRepository.ContainsSrcTerm | backend/app/db/global_glossary_repository.py:77-79 | true iff some entry, after the lazy load, has that source term |
| GlobalGlossary.GlobalGlossaryRepository.constructor | backend/app/db/global_glossary_repository.py:10-12 | the cache is empty and the file not read yet |
| GlossaryApi.SrcTerms | backend/app/api/glossary.py:81 | the set of global source terms is exactly the terms some entry carries |
| GlossaryApi.FirstClash | backend/app/api/glossary.py:82-87 | the first requested entry whose term is global, or -1 when none is |
| GlossaryApi.UpdateCheckOk | backend/app/api/glossary.py:66-94 | the update goes through iff the project exists, the request does not empty a non-empty glossary, and no requested term equals any global term (locked or not); 404 iff the project is unknown |
| GlossaryApi.FindClash | backend/app/api/glossary.py:82-87 | the loop stops at the first clashing entry |
| GlossaryApi.UpdateGlossary | backend/app/api/glossary.py:65-94 | the answer is the check's answer; a refusal leaves the project's glossary as it was; success replaces it with the requested entries |
| GlossaryApi.ReplaceUnlessGlobal | backend/app/api/glossary.py:81-89 | a global clash refuses and changes nothing; otherwise the project's glossary is replaced |
| GlossaryApi.ApplyToRegion | backend/app/api/glossary.py:122-127 | a region is counted iff it is unlocked and its text is a key; then the region filed under its id in the first project holding that id takes the key's value as its translation and nothing else changes; otherwise the store is unchanged |
| GlossaryApi.ApplyToRegions | backend/app/api/glossary.py:121-127 | the count over a list of regions is the number of applicable ones; the store is the one the per-region step leaves after each listed region in turn |
| GlossaryApi.ApplyToPage | backend/app/api/glossary.py:120-127 | one page's count is the number of applicable regions listed for it; the store is the inner loop's over that page's listing |
| GlossaryApi.ApplyToPages | backend/app/api/glossary.py:119-127 | the count over pages `0..page_count-1` sums, page by page, the applicable regions of the project as it stood before the loop; the store is the page step applied to pages `0..page_count-1` in turn |
| GlossaryApi.PagesStep | backend/app/api/glossary.py:119-127 | one turn of the outer loop adds the page's applicable regions as listed from the current store, which are as many as before the loop began, since only translations have changed |
| GlossaryApi.RegionRunSame | backend/app/api/glossary.py:122-126 | one step of the inner loop changes nothing but a translation |
| GlossaryApi.RegionsRunSame | backend/app/api/glossary.py:121-126 | the inner loop changes nothing but translations: the same projects, the same keys in the same order, each region equal but for its translation |
| GlossaryApi.PagesRunSame | backend/app/api/glossary.py:119-127 | the outer loop over pages `0..n-1` changes nothing but translations |
| GlossaryApi.ApplyGlossary | backend/app/api/glossary.py:97-129 | 404 iff the project is unknown, and then nothing changes; with no pages nothing changes; otherwise only translations change, the count is the number of applicable regions of pages `0..page_count-1`, and on a store where every region is filed under its own id in one project exactly those regions take their text's glossary value |
| GlossaryApi.HolderIsProject | backend/app/db/repository.py:218-227 | when every region is filed under its id and no id is filed twice, `update` finds a project's region in that project |
| GlossaryApi.RegionStep | backend/app/api/glossary.py:121-126 | on such a store the step for a listed region of the project rewrites exactly that region's key of that project by the glossary, however many steps came before |
| GlossaryApi.RegionsRunAll | backend/app/api/glossary.py:121-126 | running the inner loop over regions filed under their ids rewrites by the glossary exactly the regions with those ids |
| GlossaryApi.ListedPage | backend/app/db/repository.py:196-198 | on such a store `list_by_page` lists regions filed under their ids, and their ids are exactly the page's keys |
| GlossaryApi.PageRunWellKeyed | backend/app/api/glossary.py:120-127 | on such a store one page rewrites by the glossary exactly the regions on that page |
| GlossaryApi.PagesRunApplied | backend/app/api/glossary.py:119-127 | on such a store the outer loop over pages `0..n-1` rewrites each region of those pages by the glossary once, and no other region |
| GlossaryApi.OverrideSame | backend/app/api/glossary.py:123-126 | rewriting translations keeps the store valid and changes nothing but translations |
| GlossaryApply.LastLocked | backend/app/api/pages.py:117 | the last locked global entry with that term, or -1 |
| GlossaryApply.FirstLocked | backend/app/api/pages.py:119-125 | the first locked project entry with that term, or -1 |
| GlossaryApply.GlobalMapLookup | backend/app/api/pages.py:117 | a term is a key of the global map iff a locked global entry has it; the last such entry gives the value |
| GlossaryApply.WithLocalLookup | backend/app/api/pages.py:119-125 | the local loop adds a term iff it is not a key yet and a locked project entry has it; the first such entry gives the value; existing keys keep theirs |
| GlossaryApply.GlossaryMapLookup | backend/app/api/pages.py:116-125 | a term is a key iff some locked entry has it; a locked global entry wins over every project entry; unlocked entries are never consulted |
| GlossaryApply.BuildGlossaryMap | backend/app/api/pages.py:116-125 | the two loops build exactly the glossary map |
| GlossaryApply.PendingIndexes | backend/app/api/pages.py:127-134 | the listed positions are positions whose text is not a key |
| GlossaryApply.PendingTexts | backend/app/api/pages.py:127-134 | the texts sent are the texts at the listed positions, in order |
| GlossaryApply.PendingPrefix | backend/app/api/pages.py:129-134 | the list after a prefix is a prefix of the later list |
| GlossaryApply.PendingIncreasing | backend/app/api/pages.py:129-134 | the listed positions increase |
| GlossaryApply.PendingAtRank | backend/app/api/pages.py:129-134 | every region whose text is not a key is listed, at its rank |
| GlossaryApply.PendingFacts | backend/app/api/pages.py:127-134 | the pending positions are exactly the non-key regions, increasing, each at its rank |
| GlossaryApply.Translated | backend/app/api/pages.py:129-139 | the stored list has one region per detected region |
| GlossaryApply.TranslatedFacts | backend/app/api/pages.py:129-139 | only the translation changes; a key takes its value and is never sent; with enough translations every region ends up translated |
| GlossaryApply.SentOncePerRegion | backend/app/api/pages.py:133-139 | the j-th text sent is the j-th pending region's text, and the j-th translation comes back to that region |
| GlossaryApply.ApplyStep | backend/app/api/pages.py:138-139 | writing the next translation extends the written prefix by one |
| GlossaryApply.AppliedAll | backend/app/api/pages.py:138-139 | once `zip` stops, the regions are exactly the translated regions |
| GlossaryApply.TranslateRegions | backend/app/api/pages.py:127-139 | the regions become the translated regions; the translator is called only when some text is not a key |
| GlossaryApply.CollectPending | backend/app/api/pages.py:127-134 | the first loop gives keys their value and lists the other texts and positions |
| GlossaryApply.WriteTranslations | backend/app/api/pages.py:136-139 | the second loop writes each translation back to its region |
| GlossaryApply.Overridden | backend/app/api/pages.py:245-249 | the override keeps one region per region |
| GlossaryApply.OverrideFacts | backend/app/api/pages.py:245-249 | only the translation of an unlocked region whose text is a key changes, to the key's value; applying the override twice is applying it once |
| GlossaryApply.OverrideRegions | backend/app/api/pages.py:245-249 | the loop applies the override to every region |
| PagesApi.RenderOriginalCheck | backend/app/api/pages.py:73-78 | success iff the project exists and the page is in `0..page_count-1`; 404 iff the project is unknown |
| PagesApi.RenderOriginal | backend/app/api/pages.py:66-88 | a refused check gives its answer; otherwise a raising render answers 500 and a render that succeeds answers success; nothing but success changes a page, which it marks as having an original |
| PagesApi.EmptyOcrPassClearsPage | backend/app/api/pages.py:115-142 | an OCR pass that finds nothing still removes the page's unlocked, non-manual regions and keeps the rest |
| PagesApi.RunOcr | backend/app/api/pages.py:91-144 | success iff the project exists, the image exists and detection succeeds; failures change no region; an empty detection reads no glossary; otherwise the stored regions are the translated detections and replace the page |
| PagesApi.DeleteTextRegion | backend/app/api/pages.py:170-176 | 404 iff no project holds the region; otherwise it is removed from its holder only |
| PagesApi.UpdateTextRegion | backend/app/api/pages.py:179-212 | 404 iff no project holds the region; otherwise the holder's region is replaced by the patched region, which is answered |
| PagesApi.RenderTranslated | backend/app/api/pages.py:215-262 | a missing project or image changes no region; otherwise the composer receives the page's regions with the glossary override, those regions as compose leaves them (override and review flags) are written back, success iff composing does not raise, a raise answers 500; only success marks the page translated |
| PagesApi.ComposedPageLookup | backend/app/api/pages.py:245-259 | after the endpoint's writes, a region on another page keeps its value and a region on the page is its glossary override, at most flagged for review |
| PagesApi.ImageStem | backend/app/api/pages.py:275-280 | a stem exists iff the kind is "original" or "translated" |
| PagesApi.PaddedStemPage | backend/app/api/pages.py:276-278 | a zero-padded page number followed by `_` reads back as that page |
| PagesApi.ImageStemPage | backend/app/api/pages.py:275-278 | both kinds of page image name carry their page number |
| PagesApi.PageImage | backend/app/api/pages.py:265-285 | 400 iff the kind is unknown; success iff the file exists, answering its stem |
| JobService.JobStore.Save | backend/app/services/job_service.py:17-30 | the job's file now holds the job; no other job file changes |
| JobService.JobStore.Load | backend/app/services/job_service.py:33-49 | a job id without a file gives None, otherwise the saved job |
| JobService.JobStore.Create | backend/app/services/job_service.py:52-60 | a new pending job under the fresh id, saved at once |
| JobService.JobDpi | backend/app/services/job_service.py:92-98 | the caller's DPI wins; otherwise the configured integer; otherwise DEFAULT_DPI (450) |
| JobService.NewGlobalsCount | backend/app/services/job_service.py:118-124 | a global filter is added as often as it occurs in the global list, unless a project filter has its (mode, pattern, case_sensitive) key |
| JobService.MergedFiltersFacts | backend/app/services/job_service.py:118-124 | the project filters come first and unchanged; the merged list holds a filter iff the project or the global list does, with the counts above |
| JobService.MergeFilters | backend/app/services/job_service.py:118-124 | the merge loop builds exactly the merged list |
| JobService.ProgressWithinPage | backend/app/services/job_service.py:134-181 | within a page the three phases write increasing progress, all in [0, 1) |
| JobService.ProgressDropsBetweenPages | backend/app/services/job_service.py:134-181 | the next page's render phase writes a smaller progress than this page's compose phase |
| JobService.AtStep | backend/app/services/job_service.py:133-135 | a phase's save keeps the job's id and status |
| JobService.PhaseSnapshotsGrow | backend/app/services/job_service.py:133-182 | each phase's saves extend the previous phase's by one snapshot |
| JobService.PagesSavedAt | backend/app/services/job_service.py:129-182 | page q's three saves sit at positions 3q, 3q+1 and 3q+2, one per phase |
| JobService.PageStoresRendering | backend/app/services/job_service.py:137-142 | a page whose rendering raises changes no store |
| JobService.PageStoresRecognising | backend/app/services/job_service.py:142-176 | a page whose OCR phase raises has only been marked as having an original |
| JobService.PageStoresComposing | backend/app/services/job_service.py:150-199 | a page whose render and OCR go through has had detection succeed, and its stores are those after rendering, storing the detected regions (none when nothing was found) and composing, whose region writes persist even when it raises |
| JobService.EmptyDetectionKeepsRegions | backend/app/services/job_service.py:158-199 | a page on which OCR finds nothing keeps every region id it had and every region of other pages; its own regions change only by the glossary override and the review flag |
| JobService.FirstFailing | backend/app/services/job_service.py:129-214 | the first page that raises, or the page count when none does |
| JobService.FirstFailingBefore | backend/app/services/job_service.py:129-214 | no page before the first raising one raises |
| JobService.FirstFailingIs | backend/app/services/job_service.py:129-214 | a page with no failure before it and a failure at it is the first raising page |
| JobService.JobTraceFacts | backend/app/services/job_service.py:88-214 | the saves start with "running"; every save in between is running with progress in [0, 1); the last is "completed" with progress 1.0 and step "Completado" iff no page raised, else "error" with the first exception's message |
| JobService.JobTraceIncreasesWithinPage | backend/app/services/job_service.py:133-182 | the three saves of a page that went through carry increasing progress |
| JobService.RenderPhase | backend/app/services/job_service.py:137-142 | only a missing image is rendered; a raising render changes no page, otherwise the page is marked as having an original |
| JobService.OcrPhase | backend/app/services/job_service.py:150-176 | detection, then the translation of the texts the glossary does not cover; a raise changes no region; otherwise the page's regions are replaced only when something was detected |
| JobService.ComposePhase | backend/app/services/job_service.py:184-199 | the composer receives the relisted regions with the glossary override, and those regions, overridden and with the composer's review flags, are written back whether or not it raises; a raise leaves the page unmarked, otherwise it is marked translated |
| JobService.ReviewedPageLookup | backend/app/services/job_service.py:191-199 | after the job's compose writes, a region on another page keeps its value and a region on the page is its glossary override, at most flagged for review |
| JobService.RunPage | backend/app/services/job_service.py:129-199 | one page's failure, saves and stores are those of its specification |
| JobService.ComposeStep | backend/app/services/job_service.py:179-199 | the compose phase's save, then composing |
| JobService.RunPages | backend/app/services/job_service.py:129-200 | the loop stops at the first raising page, with every earlier page's saves and stores |
| JobService.RunPagesFailed | backend/app/services/job_service.py:129-214 | at the raising page the loop's postconditions hold |
| JobService.RunPagesNext | backend/app/services/job_service.py:129-200 | after a page that went through, the loop invariants hold for the next page |
| JobService.FirstFailingAhead | backend/app/services/job_service.py:129-200 | a non-raising page before the first raising one leaves that page ahead |
| JobService.RunJob | backend/app/services/job_service.py:129-214 | the saves are the loop trace, the job file holds the last save, the stores are the job's stores |
| JobService.PrepareContext | backend/app/services/job_service.py:92-124 | the job's DPI, the merged filters (None when empty) and the glossary map |
| JobService.RunRenderAll | backend/app/services/job_service.py:68-214 | a missing job does nothing; a missing project saves "error" with "Project not found" to the job's file and touches no page, region or glossary store; otherwise the saves and stores are the job trace and the job stores |
| JobService.RunLoaded | backend/app/services/job_service.py:88-214 | a found job runs: "running" is saved first, then the trace of the page loop |
| SettingsApi.MaskedKey | backend/app/api/settings.py:54 | a key of at most 12 characters shows as ""; a longer one as 15 characters, its first 8, "..." and its last 4 |
| SettingsApi.MaskedKeyShowsOnlyEnds | backend/app/api/settings.py:54 | keys that share their first 8 and last 4 characters are masked alike |
| SettingsApi.ShownKey | backend/app/api/settings.py:51-54 | no stored key shows as ""; a stored string shows masked |
| SettingsApi.ClampUnit | backend/app/api/settings.py:78-83 | a ratio is stored in [0, 1], unchanged when already there, 0 below and 1 above |
| SettingsApi.EngineName | backend/app/api/settings.py:84-88 | the stored engine is "easyocr" or "paddleocr"; "paddleocr" iff the lower-cased, stripped request is "paddleocr" |
| SettingsApi.ModeName | backend/app/api/settings.py:89-93 | the stored mode is "basic" or "advanced"; "advanced" iff the lower-cased, stripped request is "advanced" |
| SettingsApi.Confidence | backend/app/api/settings.py:94-103 | the stored confidence is in [0, 1]: the converted value clamped, or 0.55 when the conversion throws |
| SettingsApi.RecheckCap | backend/app/api/settings.py:106-113 | the stored cap is non-negative: the converted value, 0 for a negative one, 200 when the conversion throws |
| SettingsApi.NormalisationIdempotent | backend/app/api/settings.py:77-113 | every stored value is its own normal form: submitting it again stores it unchanged |
| SettingsApi.FoldedFixes | backend/app/api/settings.py:85 | a lower-case name without whitespace is unchanged by lower-casing and stripping |
| SettingsApi.KeyOf | backend/app/api/settings.py:73-116 | a configuration key maps back to the settings field written under it |
| SettingsApi.NameRoundTrip | backend/app/api/settings.py:73-116 | each settings field is written under its own key |
| SettingsApi.UpdatedLookup | backend/app/api/settings.py:68-118 | each present field is stored normalised under its own key; an absent field and every other key keep their value; old keys keep their order |
| SettingsApi.UpdatedRatios | backend/app/api/settings.py:77-103 | a given ratio or confidence is stored in [0, 1]; an absent one keeps its stored value |
| SettingsApi.UpdatedNames | backend/app/api/settings.py:84-113 | whatever is requested, a stored engine and mode are names the OCR understands and a stored cap is non-negative |
| SettingsApi.ApplyOnFixed | backend/app/api/settings.py:73-116 | conditionals that would write what is already stored change nothing, key order included |
| SettingsApi.UpdateIdempotent | backend/app/api/settings.py:68-118 | sending the same update twice leaves the configuration as sending it once |
| SettingsApi.ShownAfterUpdate | backend/app/api/settings.py:49-83 | after a key is set, reading the settings shows it masked |
| SettingsApi.ConfigFile.Read | backend/app/api/settings.py:51 | the stored configuration, or `{}` when there is none |
| SettingsApi.ConfigFile.Save | backend/app/api/settings.py:117 | the stored configuration becomes the one saved |
| SettingsApi.GetSettings | backend/app/api/settings.py:48-65 | the key field is the stored key masked |
| SettingsApi.AssignField | backend/app/api/settings.py:73-116 | one conditional: a present field is normalised and assigned under its key, an absent one changes nothing |
| SettingsApi.UpdateSettings | backend/app/api/settings.py:68-118 | the saved configuration is the old one with every conditional applied in order; the answer is "ok" |
| SnippetService.Copy | backend/app/services/snippet_service.py:34 | a fresh image with the same size and pixels |
| SnippetService.Cleared | backend/app/services/snippet_service.py:49-50 | the colour is kept; alpha is 0 iff the mean of the three channels is above the threshold, else 255 |
| SnippetService.NoBackgroundIdempotent | backend/app/services/snippet_service.py:46-51 | removing the white background twice is removing it once |
| SnippetService.RemoveWhiteBackground | backend/app/services/snippet_service.py:46-51 | a fresh image of the same size whose pixels are the cleared pixels |
| SnippetService.Clamp | backend/app/services/snippet_service.py:136-139 | `max(0, min(v, hi))` lies in [0, hi] |
| SnippetService.EraseBox | backend/app/services/snippet_service.py:133-140 | a rectangle only for a four-value box, non-empty and inside the image once shrunk and clamped |
| SnippetService.EraseBoxCovers | backend/app/services/snippet_service.py:136-142 | inside the image, the filled rectangle covers exactly the pixels of the shrunk box |
| SnippetService.Boxes | backend/app/services/snippet_service.py:132-142 | the filled rectangles start inside the image |
| SnippetService.ErasedGrid | backend/app/services/snippet_service.py:126-143 | erasing keeps the image's dimensions |
| SnippetService.FillWhite | backend/app/services/snippet_service.py:142 | the rectangle's pixels inside the image become white, all others are kept |
| SnippetService.EraseDetection | backend/app/services/snippet_service.py:133-142 | one detection whitens exactly its rectangle, if it has one |
| SnippetService.EraseTextRegions | backend/app/services/snippet_service.py:126-143 | no detections gives the image itself; otherwise a fresh copy whose covered pixels are white and the rest unchanged |
| SnippetService.SupportedOps | backend/app/services/snippet_service.py:151-161 | only `remove_bg` and `ocr_remove_text` ops are kept |
| SnippetService.ReplayedSkipsUnsupported | backend/app/services/snippet_service.py:151-161 | replaying a history is replaying its supported ops: the others are skipped |
| SnippetService.ReplayedAppend | backend/app/services/snippet_service.py:151-161 | replaying `a + b` is replaying `b` over what `a` produced |
| SnippetService.ReplayedGrid | backend/app/services/snippet_service.py:146-163 | replaying keeps the image's dimensions |
| SnippetService.Open | backend/app/services/snippet_service.py:148 | opening succeeds iff the file exists and is a PNG |
| SnippetService.Suffix | backend/app/services/snippet_service.py:22 | "_nobg" iff a transparent render is requested and the snippet has one |
| SnippetService.RenderPathCases | backend/app/services/snippet_service.py:19-27 | the versioned render is chosen iff the requested version is above 1 and its file exists; otherwise the base render |
| SnippetService.RenderFromOps | backend/app/services/snippet_service.py:146-163 | fails iff the current render cannot be opened; otherwise a fresh image, the render with the ops replayed in order |
| SnippetService.MetaStore.Load | backend/app/services/snippet_service.py:186 | the stored meta record, or an empty one |
| SnippetService.MetaStore.Save | backend/app/services/snippet_service.py:198 | the snippet's meta record is replaced |
| SnippetService.Bumped | backend/app/services/snippet_service.py:178-183 | the version counter goes up by one; the name changes only for a non-empty new name; nothing else changes |
| SnippetService.Recorded | backend/app/services/snippet_service.py:186-197 | the ops are replaced and exactly one record is appended, carrying the new number, the comment, an empty checksum and the ops |
| SnippetService.CreateKeepsConsistent | backend/app/services/snippet_service.py:178-197 | version numbers stay increasing and none passes the counter; the new record is the latest version |
| SnippetService.FindVersion | backend/app/services/snippet_service.py:219 | a record found has the number sought; none is found iff no record has it |
| SnippetService.FindVersionUnique | backend/app/services/snippet_service.py:219 | in an increasing history the record found is the only one with that number |
| SnippetService.NewRenderOk | backend/app/services/snippet_service.py:200-207 | a render saved for the new version has the dimensions it declares |
| SnippetService.SaveNewRender | backend/app/services/snippet_service.py:200-207 | the given render, else the replayed ops, else a copy of the previous render, is saved under the new version's name |
| SnippetService.CreateVersion | backend/app/services/snippet_service.py:166-209 | an unknown snippet raises and changes nothing; otherwise the bump and the record are saved, then the render; a failing render raises after them |
| SnippetService.RestoreVersion | backend/app/services/snippet_service.py:212-233 | succeeds iff the snippet, the target record and its render exist; then a new version carrying the target's ops and a copy of its render; a failure changes nothing |
| SnippetService.QaValidate | backend/app/services/snippet_service.py:236-258 | the report names the current render; it passes iff the file exists, opens and has both dimensions above 0 |
| SnippetsApi.Uniform | backend/app/api/snippets.py:38-46 | a one-colour image has the requested size |
| SnippetsApi.UniformNoBackground | backend/app/api/snippets.py:38-46 | removing the background of a one-colour image gives a one-colour image of the cleared colour |
| SnippetsApi.BackgroundBoundaries | backend/app/api/snippets.py:38-46 | at threshold 240 white becomes transparent, black and a grey of 230 stay opaque, and a mean of exactly 240 stays opaque |
| SnippetsApi.PngSuffix | backend/app/api/snippets.py:56 | a name's suffix is ".png" iff it ends in ".png" after at least one other character |
| SnippetsApi.FirstOriginalSpec | backend/app/api/snippets.py:55-58 | the scan finds nothing iff no listed name is an original of the page; what it finds is the first one |
| SnippetsApi.FindOriginalImage | backend/app/api/snippets.py:49-58 | none when the pages directory is missing; otherwise the first original of the page in listing order |
| SnippetsApi.ClampTo | backend/app/api/snippets.py:75-78 | `max(0, min(v, hi))` lies in [0, hi] and keeps a value already inside |
| SnippetsApi.CaptureBox | backend/app/api/snippets.py:74-78 | the four coordinates truncated to integers, then clamped to the image |
| SnippetsApi.Crop | backend/app/api/snippets.py:83 | the crop has the box's size and the image's pixels at the box's offset |
| SnippetsApi.CaptureBoxInside | backend/app/api/snippets.py:74-78 | a box already inside the image is kept as sent |
| SnippetsApi.Captured | backend/app/api/snippets.py:83-90 | the captured picture has the crop's width and height |
| SnippetsApi.PlanCapture | backend/app/api/snippets.py:61-83 | an accepted capture crops a non-empty box inside a readable image |
| SnippetsApi.PlanCaptureCases | backend/app/api/snippets.py:61-83 | a capture is accepted iff the project is known, the page has a readable original and the four-number box is non-empty once clamped; an unknown project is refused first |
| SnippetsApi.SavedFilesContents | backend/app/api/snippets.py:93-98 | the render is saved as given and the transparent variant, when asked for, is its background removed |
| SnippetsApi.SaveSnippetFiles | backend/app/api/snippets.py:93-98 | the directory gains the render and, when asked, its transparent variant |
| SnippetsApi.CheckCapture | backend/app/api/snippets.py:64-81 | the checks in their order give the capture plan |
| SnippetsApi.CaptureSnippet | backend/app/api/snippets.py:61-107 | a refused capture changes nothing; an accepted one creates a snippet the size of the crop and saves its files |
| SnippetsApi.StoreCapture | backend/app/api/snippets.py:85-98 | the new snippet is stored under the fresh id and the crop's files are saved |
| SnippetsApi.UploadSnippet | backend/app/api/snippets.py:110-148 | 400 and no change for undecodable bytes; otherwise a snippet of the image's size is created and its files saved |
| SnippetsApi.ImageFileNameCases | backend/app/api/snippets.py:175-178 | the transparent variant is served iff it is asked for and the snippet has one |
| SnippetsApi.ServedImage | backend/app/api/snippets.py:168-204 | success iff the snippet exists and its file exists, answering that file; otherwise 404 |
| SnippetsApi.DeleteSnippet | backend/app/api/snippets.py:207-213 | success iff the snippet existed; afterwards it is gone and the index is the old one with exactly that entry removed, every other snippet kept in order; a 404 changes nothing, files included; success also unlinks `{id}.png` and `{id}_nobg.png` and keeps every other file |
| SnippetsApi.Unlinked | backend/app/db/repository.py:492-496 | neither of the snippet's two image files remains, every other file is kept, and no file appears |
| SnippetsApi.SavedThenUnlinked | backend/app/db/repository.py:487-497 | deleting a snippet removes exactly what saving its files added: saved-then-unlinked equals unlinked |
| UndoRedo.Undone | desktop/src/lib/undoRedo.ts:44-47 | the latest done action moves to the front of the redo stack; nothing else changes |
| UndoRedo.Redone | desktop/src/lib/undoRedo.ts:57-64 | the first undone action moves to the end of the done stack; nothing else changes |
| UndoRedo.RedoAfterUndo | desktop/src/lib/undoRedo.ts:40-68 | redoing what was just undone restores both stacks |
| UndoRedo.UndoAfterRedo | desktop/src/lib/undoRedo.ts:40-68 | undoing what was just redone restores both stacks |
| UndoRedo.MovesKeepActions | desktop/src/lib/undoRedo.ts:40-68 | undo and redo only move one action between the stacks; none is lost or duplicated |
| UndoRedo.History.CanUndo | desktop/src/lib/undoRedo.ts:22 | true iff some action can be undone |
| UndoRedo.History.CanRedo | desktop/src/lib/undoRedo.ts:23 | true iff some action can be redone |
| UndoRedo.History.Execute | desktop/src/lib/undoRedo.ts:25-38 | refused while another operation runs; otherwise `do` is called, and only if it resolves is the action pushed and the redo stack emptied; the flag is clear afterwards |
| UndoRedo.History.Undo | desktop/src/lib/undoRedo.ts:40-51 | nothing with an empty history or while an operation runs; otherwise the latest action's `undo` is called and, if it resolves, the action moves to the redo stack |
| UndoRedo.History.Redo | desktop/src/lib/undoRedo.ts:53-68 | nothing with an empty redo stack or while an operation runs; otherwise `redo` (or `do`) of the first undone action is called and, if it resolves, the action moves back |
| UndoRedo.History.Clear | desktop/src/lib/undoRedo.ts:70-73 | both stacks are emptied |
| UndoRedo.History.constructor | desktop/src/lib/undoRedo.ts:18-20 | both stacks start empty and no operation is running |
| TextBox.Dragged | desktop/src/components/EditableTextBox.tsx:69-85 | the dragged box keeps its size and is offset from the start box by the cursor delta divided by the scale |
| TextBox.DragToStart | desktop/src/components/EditableTextBox.tsx:69-85 | dragging back to where the drag started puts the box back where it was |
| TextBox.Resized | desktop/src/components/EditableTextBox.tsx:120-136 | the dragged corner's two coordinates move by the scaled delta; the opposite ones stay |
| TextBox.ResizeMovesOneCorner | desktop/src/components/EditableTextBox.tsx:128-136 | each corner moves exactly one horizontal and one vertical coordinate, and the opposite corner stays |
| TextBox.BorderColor | desktop/src/components/EditableTextBox.tsx:47-51 | red when locked, else green when manual, else blue when selected, else grey |
| TextBox.DisplayFontSize | desktop/src/components/EditableTextBox.tsx:218 | the font is at most 0.6 of the box height; it is that, 10 or a tenth of the width, never below the smaller of 0.6 of the height and 10 |
| TextBox.EditableTextBox.constructor | desktop/src/components/EditableTextBox.tsx:27-31 | at rest, with the edit text the current translation or "" |
| TextBox.EditableTextBox.MouseDown | desktop/src/components/EditableTextBox.tsx:54-67 | ignored while editing; otherwise the box is selected and, unless locked, a drag starts from the cursor and the current box |
| TextBox.EditableTextBox.ResizeDown | desktop/src/components/EditableTextBox.tsx:109-118 | unless locked, a resize of that corner starts from the cursor and the current box |
| TextBox.EditableTextBox.MouseMove | desktop/src/components/EditableTextBox.tsx:69-85 | a drag emits the start box moved by the whole delta; a resize emits the resized start box only when it is wider than 20 and taller than 10; the start never changes |
| TextBox.EditableTextBox.MouseUp | desktop/src/components/EditableTextBox.tsx:87-94 | the drag and the resize end |
| TextBox.EditableTextBox.DoubleClick | desktop/src/components/EditableTextBox.tsx:155-160 | unless locked, edit mode starts with the current translation |
| TextBox.EditableTextBox.Type | desktop/src/components/EditableTextBox.tsx:207 | the edit text becomes what was typed |
| TextBox.EditableTextBox.EditKey | desktop/src/components/EditableTextBox.tsx:167-173 | Enter commits the edit text as one update and leaves edit mode; Escape leaves without an update; other keys change nothing |
| TextBox.EditableTextBox.Submit | desktop/src/components/EditableTextBox.tsx:162-165 | the edit text is committed as one update and edit mode ends |
| TextBox.LockedStaysPut | desktop/src/components/EditableTextBox.tsx:54-160 | a locked region at rest never starts a drag, a resize or an edit, and emits nothing |
| TextBox.DragDoesNotAccumulate | desktop/src/components/EditableTextBox.tsx:69-85 | two moves in a row emit boxes that depend only on the drag start and each cursor position |
| ImageViewer.ZoomOut | desktop/src/components/ImageViewer.tsx:178 | zooming out lowers the level by 0.25 but never below 0.25 |
| ImageViewer.ZoomIn | desktop/src/components/ImageViewer.tsx:189 | zooming in raises the level by 0.25 but never above 4 |
| ImageViewer.ZoomStaysInRange | desktop/src/components/ImageViewer.tsx:54-56 | from any level in [0.25, 4] both buttons keep the level in [0.25, 4] |
| ImageViewer.DisabledMeansNoChange | desktop/src/components/ImageViewer.tsx:178-198 | each zoom button is disabled exactly when pressing it would leave the level unchanged |
| ImageViewer.ZoomRoundTrip | desktop/src/components/ImageViewer.tsx:178-194 | away from the bounds, zooming out then in (or in then out) returns to the same level |
| ImageViewer.Marquee | desktop/src/components/ImageViewer.tsx:266-271 | the marquee is the smallest non-negative rectangle whose corners are the drag start and the cursor |
| ImageViewer.MarqueeSymmetric | desktop/src/components/ImageViewer.tsx:266-271 | the marquee does not depend on which corner the drag started from |
| ImageViewer.HitIdsMembers | desktop/src/components/ImageViewer.tsx:281-296 | an id is hit exactly when some region with that id has a scaled box meeting the marquee, edges touching included |
| ImageViewer.OnSelect | desktop/src/components/ImageViewer.tsx:325-334 | with Ctrl or Meta the clicked id is toggled in the selection; otherwise the selection becomes just that id |
| ImageViewer.CtrlClickIgnored | desktop/src/components/EditableTextBox.tsx:57 | as written, a click on a region selects only that region whatever modifier keys are held |
| ImageViewer.ClickSelectToggles | desktop/src/components/ImageViewer.tsx:325-334 | when the event is passed on, Ctrl/Meta-click toggles exactly the clicked id and twice restores the selection; a plain click selects just that id |
| ImageViewer.Viewer.constructor | desktop/src/components/ImageViewer.tsx:103-105 | no drag in progress, no drag start, no marquee |
| ImageViewer.Viewer.OverlayMouseDown | desktop/src/components/ImageViewer.tsx:248-260 | a marquee of size zero starts at the cursor; the selection is cleared unless Ctrl or Meta is held |
| ImageViewer.Viewer.MouseMove | desktop/src/components/ImageViewer.tsx:261-273 | during a drag the marquee spans the drag start and the cursor; otherwise nothing changes |
| ImageViewer.Viewer.MouseUp | desktop/src/components/ImageViewer.tsx:274-301 | a marquee adds every region it meets to the selection and is cleared; the drag ends either way |
| ImageViewer.Viewer.RegionClick | desktop/src/components/ImageViewer.tsx:325-334 | the selection becomes what the corrected click rule gives; the marquee state is untouched |
| DrawingCanvas.ScaledPointInverts | desktop/src/components/DrawingCanvas.tsx:40-47 | mapping a cursor to image coordinates inverts placing an image point on the screen, both ways round |
| DrawingCanvas.LineKeepsDragOrder | desktop/src/components/DrawingCanvas.tsx:79-91 | a line stores its two points in drag order with no fill, so reversing the drag changes it exactly when the points differ |
| DrawingCanvas.RectNormalised | desktop/src/components/DrawingCanvas.tsx:92-108 | a rectangle stores its least then greatest corner, both drag corners lie on it, and the drag direction does not matter |
| DrawingCanvas.Canvas.constructor | desktop/src/components/DrawingCanvas.tsx:33-37 | nothing is being drawn, no text input is open and no callback has been made |
| DrawingCanvas.Canvas.MouseDown | desktop/src/components/DrawingCanvas.tsx:49-66 | with the select tool the selection is cleared (the handler does the same without a tool, a case the component never reaches because it renders nothing then, DrawingCanvas.tsx:273); the text tool opens an empty input at the scaled point; a shape tool starts a drag there |
| DrawingCanvas.Canvas.MouseMove | desktop/src/components/DrawingCanvas.tsx:68-71 | during a drag only the current point follows the cursor |
| DrawingCanvas.Canvas.MouseUp | desktop/src/components/DrawingCanvas.tsx:73-114 | a finished drag creates one line or rectangle for those tools and resets the drag; otherwise only the drawing flag is cleared |
| DrawingCanvas.Canvas.TypeText | desktop/src/components/DrawingCanvas.tsx:315 | the text input holds what was typed |
| DrawingCanvas.Canvas.TextSubmit | desktop/src/components/DrawingCanvas.tsx:116-138 | a text element is created exactly when an input is open and its text is not blank; the input closes either way |
| DrawingCanvas.Canvas.TextEscape | desktop/src/components/DrawingCanvas.tsx:318-321 | Escape in the input closes it without creating anything |
| DrawingCanvas.Canvas.DrawingClick | desktop/src/components/DrawingCanvas.tsx:178-181 | the click handler on a drawn element selects it with the select tool and does nothing with other tools |
| DrawingCanvas.Canvas.KeyDown | desktop/src/components/DrawingCanvas.tsx:140-150 | Delete with a non-empty selection deletes it then clears the selection; Escape closes the text input and clears the selection |
| DrawingCanvas.Canvas.GlobalKeyDown | desktop/src/components/DrawingCanvas.tsx:152-161 | the window listener acts only on Delete with a non-empty selection, deleting it and clearing the selection |
| DrawingCanvas.Canvas.FocusedKeyDownAsWritten | desktop/src/components/DrawingCanvas.tsx:140-161 | as written, a key on the focused canvas runs the canvas handler and then the window listener with the same selection |
| DrawingCanvas.Canvas.InputKeyDown | desktop/src/components/DrawingCanvas.tsx:316-322 | a key in the text input runs the input's handler (Enter submits, Escape closes), then bubbles to the canvas handler and the window listener with the same selection |
| DrawingCanvas.Canvas.FocusedKeyDown | desktop/src/components/DrawingCanvas.tsx:140-150 | a key on the focused canvas is handled once |
| DrawingCanvas.DeleteSentTwice | desktop/src/components/DrawingCanvas.tsx:140-161 | as written, Delete on the focused canvas asks the parent to delete the selected drawing twice |
| DrawingCanvas.InputKeysReachCanvas | desktop/src/components/DrawingCanvas.tsx:288 | as written, Escape in the text input also clears the drawing selection, and Delete typed there with a drawing selected asks to delete it twice |
| DrawingCanvas.DeleteSentOnce | desktop/src/components/DrawingCanvas.tsx:141-144 | handled once, Delete requests exactly one deletion of the selected drawing and none of any other; no selection deletes nothing |
| DrawingOverlay.OverlayShape | desktop/src/components/DrawingOverlay.tsx:8-21 | no drawings renders nothing at all; otherwise one entry per drawing in order, at zoom 1 when no scale is given |
| DrawingOverlay.RenderGuards | desktop/src/components/DrawingOverlay.tsx:26-161 | an element renders exactly when its type is known and its guard holds: four points for line, rect and circle, an even count of at least four for polyline, image data for image, text and two points for text |
| DrawingOverlay.StrokeRule | desktop/src/components/DrawingOverlay.tsx:22-23 | every stroked shape uses the stroke colour or black and the stroke width or 2, times the scale |
| DrawingOverlay.EllipseGeometry | desktop/src/components/DrawingOverlay.tsx:96-117 | a circle becomes the ellipse inscribed in its box, radii half the box's sides and never negative |
| DrawingOverlay.RectGeometry | desktop/src/components/DrawingOverlay.tsx:75-94 | a rect spans from its first corner to its second, filled with its fill or none |
| DrawingOverlay.TextGeometry | desktop/src/components/DrawingOverlay.tsx:139-157 | a text is drawn at its first point with its colour, family and size, defaulting to black, Arial and 14 |
| DrawingOverlay.CanvasRectRenders | desktop/src/components/DrawingCanvas.tsx:92-108 | a rectangle dragged on the canvas, once stored, renders as a rect of non-negative size |
| DrawingOverlay.CanvasTextRenders | desktop/src/components/DrawingCanvas.tsx:123-134 | a non-empty text placed on the canvas, once stored, renders at its point in 14-point Arial in the stroke colour |
| CropOverlay.Clamp | desktop/src/components/SnippetCropOverlay.tsx:40 | a coordinate is clamped into [0, size]: unchanged inside, 0 below, the size above |
| CropOverlay.Round | desktop/src/components/SnippetCropOverlay.tsx:81-84 | rounding gives the integer nearest to the value, halves going up |
| CropOverlay.Coords | desktop/src/components/SnippetCropOverlay.tsx:35-41 | a cursor maps to a point inside the image exactly when the overlay is mounted |
| CropOverlay.CoordsInside | desktop/src/components/SnippetCropOverlay.tsx:35-41 | inside the image, the point shown under the cursor is found exactly |
| CropOverlay.Copied | desktop/src/components/SnippetCropOverlay.tsx:92-106 | a drag copies a region exactly when it is more than 5 pixels wide and high; the region is the drag's box from its smaller corner, each value rounded |
| CropOverlay.CopiedSymmetric | desktop/src/components/SnippetCropOverlay.tsx:93-96 | the copied region does not depend on the drag's direction |
| CropOverlay.CopiedInsideImage | desktop/src/components/SnippetCropOverlay.tsx:40-104 | a drag between points of the image copies a region whose corner lies inside the image |
| CropOverlay.PasteAt | desktop/src/components/SnippetCropOverlay.tsx:50 | a paste is placed so that the copied region is centred on the cursor |
| CropOverlay.PasteCrop | desktop/src/components/SnippetCropOverlay.tsx:80-85 | a paste hands over the copied size at the rounded paste position |
| CropOverlay.PasteBackInPlace | desktop/src/components/SnippetCropOverlay.tsx:50-85 | pasting a region of even size under its own centre gives back the same region |
| CropOverlay.Overlay.constructor | desktop/src/components/SnippetCropOverlay.tsx:29-32 | no drag, no copied region, no paste and no callback yet |
| CropOverlay.Overlay.MouseDown | desktop/src/components/SnippetCropOverlay.tsx:43-56 | with a region copied and Shift held a paste starts centred on the cursor; otherwise a drag starts there; inactive or unmounted does nothing |
| CropOverlay.Overlay.MouseMove | desktop/src/components/SnippetCropOverlay.tsx:58-75 | a paste follows the cursor; otherwise a drag's current corner does |
| CropOverlay.Overlay.MouseUp | desktop/src/components/SnippetCropOverlay.tsx:77-109 | a paste hands over one crop and ends, keeping the copied region; a drag ends and replaces the copied region when large enough |
| CropOverlay.Overlay.ConfirmPaste | desktop/src/components/SnippetCropOverlay.tsx:111-120 | the copied region, if any, is handed over where it was copied from, and nothing else changes |
| CropOverlay.Overlay.Cancel | desktop/src/components/SnippetCropOverlay.tsx:122-128 | everything is forgotten and the parent is told once |
| CropOverlay.Overlay.Deactivate | desktop/src/components/SnippetCropOverlay.tsx:130-137 | switching the overlay off forgets everything without a callback |
| SnippetEditor.NumberIndex | desktop/src/components/SnippetDrawingEditor.tsx:52 | blank text reads as position 0 |
| SnippetEditor.IdRoundTrip | desktop/src/components/SnippetDrawingEditor.tsx:34-53 | parsing an element's id gives back its position, so different positions have different ids |
| SnippetEditor.IdQuirks | desktop/src/components/SnippetDrawingEditor.tsx:52-53 | the bare prefix names the first element and an id from elsewhere names none |
| SnippetEditor.AsDrawings | desktop/src/components/SnippetDrawingEditor.tsx:32-49 | the canvas gets one drawing per element, in order, each under the id of its position |
| SnippetEditor.DrawingsResolve | desktop/src/components/SnippetDrawingEditor.tsx:32-53 | every drawing handed to the canvas resolves back to the element it was made from |
| SnippetEditor.RemoveAt | desktop/src/components/SnippetDrawingEditor.tsx:74 | removing position k keeps the elements before k and shifts those after it down by one |
| SnippetEditor.RemoveAtLosesOne | desktop/src/components/SnippetDrawingEditor.tsx:74 | removal loses exactly the element at that position |
| SnippetEditor.ApplyFacts | desktop/src/components/SnippetDrawingEditor.tsx:93-103 | an empty update changes nothing, type and font never change, applying an update twice is applying it once, null clears only the fill, and empty colours keep the old ones |
| SnippetEditor.TextItemAsCanvasText | desktop/src/components/SnippetDrawingEditor.tsx:104-119 | a text box is stored exactly as the canvas stores a text drawing at the same place |
| SnippetEditor.Editor.constructor | desktop/src/components/SnippetDrawingEditor.tsx:19-30 | the editor starts on the parent's list with nothing selected |
| SnippetEditor.Editor.Select | desktop/src/components/SnippetDrawingEditor.tsx:70 | the selection becomes the given ids and the list is untouched |
| SnippetEditor.Editor.Delete | desktop/src/components/SnippetDrawingEditor.tsx:71-77 | an id naming an element removes exactly that element, emits the new list and clears the selection; any other id changes nothing |
| SnippetEditor.Editor.Create | desktop/src/components/SnippetDrawingEditor.tsx:78-92 | the new drawing is appended as an element, the list is emitted and the selection cleared |
| SnippetEditor.Editor.Update | desktop/src/components/SnippetDrawingEditor.tsx:51-57 | an id naming an element updates that element alone and emits the list; any other id changes nothing |
| SnippetEditor.Editor.AddTextBox | desktop/src/components/SnippetDrawingEditor.tsx:104-119 | a non-blank answer, trimmed, is appended as a text element; a cancelled or blank answer adds nothing |
| ProjectPage.MatchesModes | desktop/src/pages/ProjectPage.tsx:111-135 | a blank filter and an unknown mode match every region; "starts" compares the raw text when case-sensitive; "contains" compares both sides lowered otherwise; a regex that does not compile matches everything |
| ProjectPage.FilteredMembers | desktop/src/pages/ProjectPage.tsx:137 | the filtered list holds exactly the regions of the page that the filter matches |
| ProjectPage.BlankFilterKeepsAll | desktop/src/pages/ProjectPage.tsx:116-137 | a blank filter keeps every region, in order |
| ProjectPage.DisplayedIsFilteredOrAll | desktop/src/pages/ProjectPage.tsx:138 | with "show only filtered" the list shown is the filtered one, otherwise every region; only regions of the page are ever shown |
| ProjectPage.ReadPageRun | desktop/src/pages/ProjectPage.tsx:148-153 | deleting on the page asks to delete the ids in order and shows the counts 0 to k out of the total |
| ProjectPage.RequestEvents | desktop/src/pages/ProjectPage.tsx:170-172 | one delete request per id, in order |
| ProjectPage.PagesEvents | desktop/src/pages/ProjectPage.tsx:161-175 | the page loop fetches each page, deletes its filtered regions and then advances the page count |
| ProjectPage.RegionsPage.constructor | desktop/src/pages/ProjectPage.tsx:26-28 | nothing logged, not deleting, no pending confirmation |
| ProjectPage.RegionsPage.DeletePageRegions | desktop/src/pages/ProjectPage.tsx:147-158 | the page's filtered regions are deleted one by one with the count shown after each, and the open region is closed if it was among them |
| ProjectPage.RegionsPage.DeletePages | desktop/src/pages/ProjectPage.tsx:161-175 | the project loop's events are each page's deletes followed by the count of pages done |
| ProjectPage.RegionsPage.DeleteProjectRegions | desktop/src/pages/ProjectPage.tsx:161-182 | every page's filtered regions are deleted; the open region is closed when the current page no longer holds it |
| ProjectPage.RegionsPage.BulkDeleteFiltered | desktop/src/pages/ProjectPage.tsx:140-193 | nothing happens without a project or with a blank filter; otherwise the chosen scope's deletes run between a hidden progress and a hidden progress, and the busy and confirmation flags end cleared |
| ProjectPage.PageDeleteIsFiltered | desktop/src/pages/ProjectPage.tsx:147-153 | a page-scope delete asks to delete an id exactly when some region of the page with that id matches the filter |
| ProjectPage.ProjectDeleteReads | desktop/src/pages/ProjectPage.tsx:161-175 | a project-scope delete asks to delete each page's filtered ids page by page and shows the page counts 0 to the total |
| ProjectPage.AddToGlossary | desktop/src/pages/ProjectPage.tsx:667-708 | nothing happens without source text or translation; a term in the global glossary is refused for both scopes, one in the project glossary for the project scope; otherwise one locked entry is appended to the chosen glossary |
| ProjectPage.AddNeverDuplicates | desktop/src/pages/ProjectPage.tsx:667-708 | a saved glossary holds the added term only in its last entry |

## Left out

- HexValue: `int(p, 16)` also reads non-ASCII decimal digits (Arabic-Indic, full-width); the model treats them as unreadable, so such a colour raises.
- ComposeColor.ParseSigned: a negative channel is passed to the drawing as it is; how Pillow paints a negative colour component is not modelled.
- PyFormat.ParseInt: Python's `int()` also strips whitespace and accepts `_` between digits and non-ASCII digits; the model reads only an optional sign and ASCII digits. The file names it parses are the app's own, which never carry them.
- JobService.ComposePhase: the job's composer is an oracle (whether it raises, which regions it flags), not tied to ComposePage.ComposeSpec, because the job model carries no page image.
- DrawingCanvas.Canvas.DrawingClick: models the body of the click handler on drawn elements. As written that handler never fires, because the svg holding the drawings has `pointerEvents: 'none'` (desktop/src/components/DrawingCanvas.tsx:294); the model does not capture pointer-event routing.
- DrawingCanvas.Canvas.InputKeyDown: the input's `onBlur` submit when Escape unmounts it is not modelled; whether a blur fires on removal depends on the browser.
- Repository.SnippetsRepository.Delete: the unlinking of `{id}.png` and `{id}_nobg.png` that `delete` does after dropping the index entry is stated by SnippetsApi.DeleteSnippet, its only caller, because the snippets directory is declared with the snippet service, which the repository module does not import.
- OCR engines (EasyOCR, PaddleOCR, RapidOCR, the secondary English reader) and `run_ocr_on_image` are foreign calls: their outputs are input sequences or oracle functions.
- The translator is an oracle from a batch of texts to a batch of answers. The document renderer is not part of this model: a render is a step that succeeds or raises.
- ComposePage.ComposeRegionEffects: its pixel clause (only pixels under the region's padded rectangle change) holds of the model only. `draw.text` (compose_service.py:252) paints glyphs with no clip, so centred text wider than its box, drawn at the fallback size 8, inks pixels left and right of the rectangle in the source.
- ComposePage.ComposeUpToEffects: for the same reason, pixels outside every padded rectangle keep their colour in the model only. In the source, overflowing glyphs can change them.
- ComposePage.ComposeRegions: the returned image has the rectangles but no glyph ink. A later region without `bg_color` estimates its background (compose_service.py:202) from a frame that in the source may hold an earlier region's text; the model samples the image without it.
- An explicit JSON `null` is read like a missing key. `payload.get("shrink_px", 2)` (snippet_service.py:159) gives `None` for `"shrink_px": null`, and the erase then raises a TypeError; SnippetService models it as 2. `kwargs.get("stroke_color", "#000000")` and its siblings (repository.py:364-370) store `None` when the drawings endpoint passes one on; Repository.NewDrawing stores the default. No caller in the repository sends such nulls.
- PIL and numpy image I/O, PNG and thumbnail saving, and font loading are left out. The font measure (`textbbox`) is an oracle. Glyphs are not painted: each `draw.text` call is logged (position, text, colour, font, size) and the image is left as it was. Images are row-major arrays of RGB (or RGBA) pixels.
- LANCZOS and BILINEAR resampling of recheck crops is float numerics: the resized crop is passed to the secondary reader unchanged.
- Floating point is modelled as exact reals: rounding errors in ratios, progress values and zoom steps are not modelled.
- Python `re` and JavaScript `RegExp` are left out: a regex search is an oracle that finds, does not find, or fails to compile.
- Unicode case mapping beyond ASCII is left out: `lower()` and `toLowerCase()` fold A-Z only.
- Reading and writing JSON files, `config.py` reads, paths, `uuid4` and the clock are left out. Stores are in-memory dictionaries, a project the cache has not seen loads as empty, and fresh ids and timestamps are parameters.
- Repository.ProjectsRepository.constructor: reading every project file at start-up (`_load_all`) is not modelled; the repository starts empty and is filled by `Create`.
- Repository.SnippetsRepository.constructor: reading the snippet index at start-up (`_load`) is not modelled; the repository starts empty.
- Several names the services import are not defined in `config.py` at this revision: the PaddleOCR service's getters, `get_ocr_region_filters`, `get_ocr_engine`, `SNIPPETS_DIR` and `GLOSSARY_GLOBAL_FILE`. Their values are parameters: a settings value, the global filter list, the engine name, and the snippet and global glossary stores. Paragraph grouping (`_group_lines_into_paragraphs`) is not part of this model and is an oracle step.
- `models.py` at this revision defines no `Snippet`; the snippet record has the fields `repository.py` and `api/snippets.py` use.
- The snippet meta store (`load_snippet_meta`, `persist`) is not part of this model; a snippet without a record loads with no ops and no versions.
- FastAPI routing, validation and HTTP transport are left out. Responses are `Ok`, `NotFound`, `BadRequest` or `ServerError`. An uncaught exception in a handler is a `ServerError`.
- Background tasks (`BackgroundTasks`, the `asyncio.create_task` glossary sync in `update_glossary`) are not modelled. Every operation runs to completion, one at a time.
- In-place mutation and aliasing of Python objects are modelled as value replacement. The objects `list_by_page` hands out are the cache's own, so writes through them (the glossary override, the review flag) are written back into the store explicitly (Repository.TextRegionsRepository.StorePage).
- Timing prints and log lines are left out; the one print that raises is modelled (see Findings).
- Inpaint compose mode paints nothing in the code; only patch mode is modelled as painting.
- list_pages, get_text_regions and get_thumbnail are read-only projections of the stores and are not modelled.
- PagesApi.RunOcr: the error detail is the constant "OCR failed", not the text of the exception.
- GlossaryApi.ApplyGlossary: which translation lands on each region is stated only for a store in which every region is filed under its own id and no id is filed for two projects. Loading and `replace_for_page` file regions that way, and fresh uuids keep ids apart. On any other store the model gives the resulting state as the step-by-step function `PagesRun`, with nothing proved about it beyond "only translations change".
- SettingsApi.GetSettings: models only the masked API key; the other settings it echoes are plain reads of the configuration.
- SettingsApi.ShownKey: a list stored under the key is treated as raising.
- SnippetsApi.UploadSnippet: the conversion of the uploaded image to RGBA is not modelled; the decoder's outcome is a parameter.
- A region's `confidence` of None is not modelled: confidence is always a number.
- React rendering is left out: re-render timing, stale closures, effects other than the deactivation reset, and async interleaving. Each handler runs on the state left by the previous one. Window listeners are modelled as separate handlers.
- ImageViewer.Viewer.RegionClick: uses the corrected click rule (see Findings); the click as written is ImageViewer.CtrlClickIgnored.
- DrawingCanvas: at this revision the callers pass props the component does not declare (`selectedDrawingIds`, `onDrawingUpdate`, `onAddTextBox`). The component is modelled as it declares its props.
- SnippetEditor.NumberIndex: a hex, exponent, signed or fractional text that `Number` reads as a whole number counts as naming no element. The canvas only reports ids the editor made.
- ProjectPage.RegionsPage.BulkDeleteFiltered: a failing request (the catch branch with its alert) is not modelled, and neither is the refetch of the page's regions. Fetching a page again after the deletes is modelled as the page first fetched without the deleted ids.
- Presentational React (layout, styling, icons, toolbars, text labels) is left out.

## Findings

| source | as written | input that shows it | evidently intended | confidence | as-written member | corrected member |
|---|---|---|---|---|---|---|
| backend/app/services/ocr_service.py:269-270 | the timing print divides the elapsed time by the number of image paths | `detect_text_batch([])` raises ZeroDivisionError instead of returning | an empty batch returns an empty list | high; not executed | OcrDetect.EmptyBatchRaises | OcrDetect.DetectTextBatch |
| desktop/src/components/EditableTextBox.tsx:57 | the text box calls `onSelect()` without its mouse event, so the viewer's `e?.ctrlKey \|\| e?.metaKey` test is always false | a Ctrl-click on region "b" while {"a"} is selected selects {"b"} | the event is passed on: Ctrl/Meta-click toggles the id, giving {"a", "b"} | high; not executed | ImageViewer.CtrlClickIgnored | ImageViewer.ClickSelectToggles |
| desktop/src/components/DrawingCanvas.tsx:140-161 | Delete is handled by the focused canvas's `onKeyDown` and again by the window listener, with the same selection. This bites only for a parent that passes `selectedDrawingId`: the one parent in the app, desktop/src/components/ImageViewer.tsx:348-358, passes `selectedDrawingIds` instead, so there the prop is undefined and Delete does nothing | a parent passing `selectedDrawingId="d"`: Delete on the focused canvas asks it to delete "d" twice | one delete request per key press | low; not executed | DrawingCanvas.DeleteSentTwice | DrawingCanvas.DeleteSentOnce |
