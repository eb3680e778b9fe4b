/**
 * The per-detection stages shared by both OCR engines: the user's pattern
 * filters, the two Han-ratio gates, and the configured minimum ratio.
 */
module OcrFilters {
  import opened Wrappers
  import opened PyText
  import opened Models
  import Script

  /**
   * The outcome of `re.search(pattern, text, flags)`.  Python's regular
   * expressions are not modelled: a search is an oracle of this type,
   * called with the pattern, the text and whether IGNORECASE is set.
   * `Invalid` stands for `re.error` on a malformed pattern.
   */
  datatype RegexOutcome = Found | NotFound | Invalid

  /** A filter takes part only when both its mode and its pattern are non-empty. */
  predicate Active(f: RegionFilter)
  {
    f.mode.Some? && f.mode.value != [] && f.pattern.Some? && f.pattern.value != []
  }

  /** `bool(f.get("case_sensitive", False))` */
  predicate CaseSensitive(f: RegionFilter)
  {
    f.caseSensitive == Some(true)
  }

  /** The text a non-regex filter compares: lowercased unless the filter is case sensitive. */
  function Folded(f: RegionFilter, s: string): string
  {
    if CaseSensitive(f) then s else Lower(s)
  }

  /**
   * Whether one filter drops a detection with this text.  A regex that
   * fails to compile drops nothing.
   */
  predicate FilterMatches(f: RegionFilter, text: string, regex: (string, string, bool) -> RegexOutcome)
  {
    Active(f) &&
    var value := Folded(f, text);
    var target := Folded(f, f.pattern.value);
    var mode := f.mode.value;
    (mode == "contains" && Contains(value, target))
    || (mode == "starts" && StartsWith(value, target))
    || (mode == "ends" && EndsWith(value, target))
    || (mode == "regex" && regex(f.pattern.value, text, !CaseSensitive(f)) == Found)
  }

  /** Whether some filter of the list drops a detection with this text. */
  predicate AnyFilterMatches(filters: seq<RegionFilter>, text: string, regex: (string, string, bool) -> RegexOutcome)
  {
    exists k :: 0 <= k < |filters| && FilterMatches(filters[k], text, regex)
  }

  /** The filter loop: stops at the first filter that matches. */
  method ApplyFilters(text: string, filters: seq<RegionFilter>, regex: (string, string, bool) -> RegexOutcome) returns (hit: bool)
    ensures hit <==> AnyFilterMatches(filters, text, regex)
  {
    for k := 0 to |filters|
      invariant forall j :: 0 <= j < k ==> !FilterMatches(filters[j], text, regex)
    {
      var f := filters[k];
      if f.mode.None? || f.mode.value == [] || f.pattern.None? || f.pattern.value == [] {
        continue;
      }
      var caseSensitive := f.caseSensitive == Some(true);
      var value := if caseSensitive then text else Lower(text);
      var target := if caseSensitive then f.pattern.value else Lower(f.pattern.value);
      var mode := f.mode.value;
      if mode == "contains" && Contains(value, target) {
        return true;
      }
      if mode == "starts" && StartsWith(value, target) {
        return true;
      }
      if mode == "ends" && EndsWith(value, target) {
        return true;
      }
      if mode == "regex" {
        var outcome := regex(f.pattern.value, text, !caseSensitive);
        if outcome == Found {
          return true;
        }
      }
    }
    return false;
  }

  lemma {:induction false} LowerIdempotent(s: string)
    ensures Lower(Lower(s)) == Lower(s)
  {
    assert forall i :: 0 <= i < |s| ==> LowerChar(LowerChar(s[i])) == LowerChar(s[i]);
  }

  /**
   * Unless the filter is case sensitive, the substring, prefix and suffix
   * modes cannot tell a text from its lowercased form.
   */
  lemma CaseInsensitiveModes(f: RegionFilter, text: string, regex: (string, string, bool) -> RegexOutcome)
    requires !CaseSensitive(f) && f.mode != Some("regex")
    ensures FilterMatches(f, text, regex) == FilterMatches(f, Lower(text), regex)
  {
    LowerIdempotent(text);
  }

  /**
   * A case-sensitive substring filter matches exactly the texts that hold
   * its pattern verbatim; filters without a mode or a pattern match nothing.
   */
  lemma FilterModes(f: RegionFilter, text: string, regex: (string, string, bool) -> RegexOutcome)
    ensures !Active(f) ==> !FilterMatches(f, text, regex)
    ensures Active(f) && CaseSensitive(f) && f.mode.value == "contains" ==>
      (FilterMatches(f, text, regex) <==> Contains(text, f.pattern.value))
    ensures Active(f) && f.mode.value == "regex" ==>
      (FilterMatches(f, text, regex) <==> regex(f.pattern.value, text, !CaseSensitive(f)) == Found)
  {
  }

  /** Adding filters can only drop more detections. */
  lemma MoreFiltersDropMore(fs: seq<RegionFilter>, gs: seq<RegionFilter>, text: string, regex: (string, string, bool) -> RegexOutcome)
    ensures AnyFilterMatches(fs, text, regex) ==> AnyFilterMatches(fs + gs, text, regex)
    ensures AnyFilterMatches(gs, text, regex) ==> AnyFilterMatches(fs + gs, text, regex)
    ensures AnyFilterMatches(fs + gs, text, regex) ==> AnyFilterMatches(fs, text, regex) || AnyFilterMatches(gs, text, regex)
  {
    if AnyFilterMatches(gs, text, regex) {
      var k :| 0 <= k < |gs| && FilterMatches(gs[k], text, regex);
      assert (fs + gs)[|fs| + k] == gs[k];
    }
    if AnyFilterMatches(fs + gs, text, regex) {
      var k :| 0 <= k < |fs + gs| && FilterMatches((fs + gs)[k], text, regex);
      if k < |fs| {
        assert (fs + gs)[k] == fs[k];
      } else {
        assert (fs + gs)[k] == gs[k - |fs|];
      }
    }
    if AnyFilterMatches(fs, text, regex) {
      var k :| 0 <= k < |fs| && FilterMatches(fs[k], text, regex);
      assert (fs + gs)[k] == fs[k];
    }
  }

  /** `custom_filters if custom_filters is not None else <global filters>` */
  function EffectiveFilters(custom: Option<seq<RegionFilter>>, global: seq<RegionFilter>): (r: seq<RegionFilter>)
    ensures custom.Some? ==> r == custom.value
    ensures custom.None? ==> r == global
  {
    if custom.Some? then custom.value else global
  }

  /** CJK_RATIO_THRESHOLD: below this Han ratio a detection is noise. */
  const CjkRatioThreshold: real := 0.2

  /** DEFAULT_MIN_HAN_RATIO */
  const DefaultMinHanRatio: real := 1.0

  /** Both script gates, in the order the engines apply them. */
  predicate PassesScriptGates(text: string, minHanRatio: real)
  {
    Script.HanRatio(text) >= CjkRatioThreshold && Script.HanRatio(text) >= minHanRatio
  }

  /**
   * With the default minimum ratio only all-Han texts pass; with a minimum
   * of at most 0.2 the 0.2 gate alone decides; an empty text never passes.
   */
  lemma ScriptGateCases(text: string, minHanRatio: real)
    ensures minHanRatio == DefaultMinHanRatio ==>
      (PassesScriptGates(text, minHanRatio) <==> text != [] && forall i :: 0 <= i < |text| ==> Script.IsHanChar(text[i]))
    ensures minHanRatio <= CjkRatioThreshold ==>
      (PassesScriptGates(text, minHanRatio) <==> Script.HanRatio(text) >= CjkRatioThreshold)
    ensures text == [] ==> !PassesScriptGates(text, minHanRatio)
    ensures PassesScriptGates(text, minHanRatio) ==> Script.HasHan(text)
  {
    Script.HanRatioBounds(text);
  }

  /** A number read from the configuration: absent, not convertible by `float()`, or a value. */
  datatype ConfigNumber = Absent | Unparsable | Number(v: real)

  /** `get_min_han_ratio()`: the configured ratio, 1.0 when absent or unparsable, clamped to [0, 1]. */
  function MinHanRatio(c: ConfigNumber): (r: real)
    ensures 0.0 <= r <= 1.0
    ensures !c.Number? ==> r == DefaultMinHanRatio
    ensures c.Number? && 0.0 <= c.v <= 1.0 ==> r == c.v
    ensures c.Number? && c.v < 0.0 ==> r == 0.0
    ensures c.Number? && c.v > 1.0 ==> r == 1.0
  {
    var value := if c.Number? then c.v else DefaultMinHanRatio;
    if value < 0.0 then 0.0 else if value > 1.0 then 1.0 else value
  }
}
