/**
 * The settings endpoints: reading the persistent configuration with the
 * DeepL key masked, and updating it field by field, each field normalised
 * (ratios clamped to [0, 1], engine and mode names folded onto the values
 * the OCR understands, the recheck cap kept non-negative) before it is
 * written under its own key.  The configuration is the JSON object kept
 * in the configuration file, an insertion-ordered dict.
 */
module SettingsApi {
  import opened Wrappers
  import opened Models
  import opened PyDict
  import PyText

  /** A JSON value stored in the configuration. */
  datatype Json = JStr(s: string) | JInt(i: int) | JReal(r: real) | JBool(b: bool)
                | JFilters(filters: seq<RegionFilter>) | JNull

  type Config = Dict<string, Json>

  /** One `config[key] = value` assignment. */
  type Write = (string, Json)

  /**
   * A `SettingsUpdate` request: a field is None when the client left it
   * out.  The two numbers that go through a `try: float(...)` / `int(...)`
   * carry the conversion's outcome, `Raised` when it throws.
   */
  datatype Update = Update(
    deeplApiKey: Option<string>,
    defaultDpi: Option<int>,
    minHanRatio: Option<real>,
    ocrEngine: Option<string>,
    ocrMode: Option<string>,
    minOcrConfidence: Option<Outcome<real>>,
    labelRecheck: Option<bool>,
    recheckCap: Option<Outcome<int>>,
    regionFilters: Option<seq<RegionFilter>>)

  const DefaultMinOcrConfidence: real := 0.55
  const DefaultRecheckCap: int := 200

  // ---------------------------------------------------------------- masking

  /** What `get_settings` shows of a key: its first 8 and last 4 characters, or nothing for a short key. */
  function MaskedKey(key: string): (r: string)
    ensures r == [] <==> |key| <= 12
    ensures r != [] ==>
      |r| == 15 && r[8..11] == "..." && PyText.StartsWith(key, r[..8]) && PyText.EndsWith(key, r[11..])
  {
    if |key| > 12 then key[..8] + "..." + key[|key| - 4..] else ""
  }

  /** The mask shows nothing but the two ends: keys that share them are masked alike. */
  lemma MaskedKeyShowsOnlyEnds(a: string, b: string)
    requires |a| > 12 && |b| > 12
    requires a[..8] == b[..8] && a[|a| - 4..] == b[|b| - 4..]
    ensures MaskedKey(a) == MaskedKey(b)
  {
  }

  /**
   * The key field of `get_settings`: the stored key masked, "" when none is
   * stored; `len()` of a stored number, boolean or null raises.
   */
  function ShownKey(c: Config): (r: Outcome<string>)
    ensures Get(c, "deepl_api_key").None? ==> r == Done("")
    ensures r.Done? && Get(c, "deepl_api_key").Some? ==>
      Get(c, "deepl_api_key").value.JStr? && r.value == MaskedKey(Get(c, "deepl_api_key").value.s)
  {
    var stored: Option<Json> := Get(c, "deepl_api_key");
    if stored.None? then Done("")
    else if stored.value.JStr? then Done(MaskedKey(stored.value.s))
    else Raised
  }

  // ---------------------------------------------------------------- normalisation

  /** The two bounds checks `update_settings` applies to a ratio. */
  function ClampUnit(x: real): (r: real)
    ensures 0.0 <= r <= 1.0
    ensures 0.0 <= x <= 1.0 ==> r == x
    ensures x < 0.0 ==> r == 0.0
    ensures x > 1.0 ==> r == 1.0
  {
    var v := if x < 0.0 then 0.0 else x;
    if v > 1.0 then 1.0 else v
  }

  /** `str(x).lower().strip()` */
  function Folded(s: string): string
  {
    PyText.Strip(PyText.Lower(s))
  }

  /** The OCR engine stored for a requested name. */
  function EngineName(s: string): (r: string)
    ensures r == "easyocr" || r == "paddleocr"
    ensures r == "paddleocr" <==> Folded(s) == "paddleocr"
    ensures Folded(s) == "easyocr" ==> r == "easyocr"
  {
    var v := Folded(s);
    if v == "easyocr" || v == "paddleocr" then v else "easyocr"
  }

  /** The OCR mode stored for a requested name. */
  function ModeName(s: string): (r: string)
    ensures r == "basic" || r == "advanced"
    ensures r == "advanced" <==> Folded(s) == "advanced"
    ensures Folded(s) == "basic" ==> r == "basic"
  {
    var v := Folded(s);
    if v == "basic" || v == "advanced" then v else "basic"
  }

  /** The confidence stored: the converted value clamped, or 0.55 clamped when the conversion throws. */
  function Confidence(x: Outcome<real>): (r: real)
    ensures 0.0 <= r <= 1.0
    ensures x.Raised? ==> r == DefaultMinOcrConfidence
    ensures x.Done? ==> r == ClampUnit(x.value)
  {
    ClampUnit(if x.Done? then x.value else DefaultMinOcrConfidence)
  }

  /** The recheck cap stored: the converted value, at least 0, or 200 when the conversion throws. */
  function RecheckCap(x: Outcome<int>): (r: int)
    ensures r >= 0
    ensures x.Raised? ==> r == DefaultRecheckCap
    ensures x.Done? && x.value >= 0 ==> r == x.value
    ensures x.Done? && x.value < 0 ==> r == 0
  {
    var v := if x.Done? then x.value else DefaultRecheckCap;
    if v < 0 then 0 else v
  }

  /**
   * Every stored value is its own normal form, so a value read back from
   * the configuration and submitted again is stored unchanged.
   */
  lemma NormalisationIdempotent(x: real, s: string, n: int)
    ensures ClampUnit(ClampUnit(x)) == ClampUnit(x)
    ensures EngineName(EngineName(s)) == EngineName(s)
    ensures ModeName(ModeName(s)) == ModeName(s)
    ensures Confidence(Done(Confidence(Done(x)))) == Confidence(Done(x))
    ensures RecheckCap(Done(RecheckCap(Done(n)))) == RecheckCap(Done(n))
  {
    FoldedFixes("easyocr");
    FoldedFixes("paddleocr");
    FoldedFixes("basic");
    FoldedFixes("advanced");
  }

  /** A lowercase name without surrounding whitespace folds to itself. */
  lemma FoldedFixes(s: string)
    requires forall i :: 0 <= i < |s| ==> 'a' <= s[i] <= 'z'
    ensures Folded(s) == s
  {
    assert PyText.Lower(s) == s;
    if s != [] {
      assert !PyText.IsSpace(s[0]) && !PyText.IsSpace(s[|s| - 1]);
    }
    PyText.StripTrimmed(s);
  }

  // ---------------------------------------------------------------- writes

  /** The configuration keys `update_settings` writes, in the order of its conditionals. */
  datatype Key = DeeplApiKey | DefaultDpi | MinHanRatio | OcrEngine | OcrMode
               | MinOcrConfidence | LabelRecheck | RecheckCapKey | RegionFilters

  const KeyCount: nat := 9

  function Name(k: Key): string
  {
    match k
    case DeeplApiKey => "deepl_api_key"
    case DefaultDpi => "default_dpi"
    case MinHanRatio => "min_han_ratio"
    case OcrEngine => "ocr_engine"
    case OcrMode => "ocr_mode"
    case MinOcrConfidence => "min_ocr_confidence"
    case LabelRecheck => "ocr_enable_label_recheck"
    case RecheckCapKey => "ocr_recheck_max_regions_per_page"
    case RegionFilters => "ocr_region_filters"
  }

  /** The settings key a configuration key names, if any. */
  function KeyOf(s: string): (r: Option<Key>)
    ensures r.Some? ==> Name(r.value) == s
  {
    if s == "deepl_api_key" then Some(DeeplApiKey)
    else if s == "default_dpi" then Some(DefaultDpi)
    else if s == "min_han_ratio" then Some(MinHanRatio)
    else if s == "ocr_engine" then Some(OcrEngine)
    else if s == "ocr_mode" then Some(OcrMode)
    else if s == "min_ocr_confidence" then Some(MinOcrConfidence)
    else if s == "ocr_enable_label_recheck" then Some(LabelRecheck)
    else if s == "ocr_recheck_max_regions_per_page" then Some(RecheckCapKey)
    else if s == "ocr_region_filters" then Some(RegionFilters)
    else None
  }

  /** Each settings key has its own name. */
  lemma NameRoundTrip(k: Key)
    ensures KeyOf(Name(k)) == Some(k)
  {
  }

  /** The position of a key's conditional in `update_settings`. */
  function Index(k: Key): (i: nat)
    ensures i < KeyCount
  {
    match k
    case DeeplApiKey => 0
    case DefaultDpi => 1
    case MinHanRatio => 2
    case OcrEngine => 3
    case OcrMode => 4
    case MinOcrConfidence => 5
    case LabelRecheck => 6
    case RecheckCapKey => 7
    case RegionFilters => 8
  }

  lemma IndexInjective(a: Key, b: Key)
    ensures Index(a) == Index(b) ==> a == b
  {
  }

  /** The key of the conditional at a position. */
  function At(i: nat): (k: Key)
    requires i < KeyCount
    ensures Index(k) == i
  {
    if i == 0 then DeeplApiKey else if i == 1 then DefaultDpi else if i == 2 then MinHanRatio
    else if i == 3 then OcrEngine else if i == 4 then OcrMode else if i == 5 then MinOcrConfidence
    else if i == 6 then LabelRecheck else if i == 7 then RecheckCapKey else RegionFilters
  }

  /** The normalised value a request gives a key, or None when it leaves the field out. */
  function Given(u: Update, k: Key): Option<Json>
  {
    match k
    case DeeplApiKey => if u.deeplApiKey.Some? then Some(JStr(u.deeplApiKey.value)) else None
    case DefaultDpi => if u.defaultDpi.Some? then Some(JInt(u.defaultDpi.value)) else None
    case MinHanRatio => if u.minHanRatio.Some? then Some(JReal(ClampUnit(u.minHanRatio.value))) else None
    case OcrEngine => if u.ocrEngine.Some? then Some(JStr(EngineName(u.ocrEngine.value))) else None
    case OcrMode => if u.ocrMode.Some? then Some(JStr(ModeName(u.ocrMode.value))) else None
    case MinOcrConfidence =>
      if u.minOcrConfidence.Some? then Some(JReal(Confidence(u.minOcrConfidence.value))) else None
    case LabelRecheck => if u.labelRecheck.Some? then Some(JBool(u.labelRecheck.value)) else None
    case RecheckCapKey => if u.recheckCap.Some? then Some(JInt(RecheckCap(u.recheckCap.value))) else None
    case RegionFilters => if u.regionFilters.Some? then Some(JFilters(u.regionFilters.value)) else None
  }

  /** `config[key] = value` when the field is present; nothing otherwise. */
  function PutIf(c: Config, key: string, v: Option<Json>): Config
  {
    if v.None? then c else Put(c, key, v.value)
  }

  /** The configuration after the first `n` conditionals of `update_settings`. */
  function Apply(c: Config, u: Update, n: nat): Config
    requires n <= KeyCount
  {
    if n == 0 then c else PutIf(Apply(c, u, n - 1), Name(At(n - 1)), Given(u, At(n - 1)))
  }

  /** The configuration after an update. */
  function Updated(c: Config, u: Update): Config
  {
    Apply(c, u, KeyCount)
  }

  /** The conditionals keep the dict valid, with the old keys first and in their old order. */
  lemma {:induction false} ApplyValid(c: Config, u: Update, n: nat)
    requires Valid(c) && n <= KeyCount
    ensures Valid(Apply(c, u, n))
    ensures |c.keys| <= |Apply(c, u, n).keys| && Apply(c, u, n).keys[..|c.keys|] == c.keys
  {
    if n > 0 {
      ApplyValid(c, u, n - 1);
      var d := Apply(c, u, n - 1);
      var k := At(n - 1);
      if Given(u, k).Some? {
        PutFacts(d, Name(k), Given(u, k).value);
        assert Apply(c, u, n).keys[..|c.keys|] == d.keys[..|c.keys|];
      }
    }
  }

  /**
   * After the first `n` conditionals, a key whose conditional has run and
   * whose field is present holds the field's normalised value; every other
   * key holds what it held.
   */
  lemma {:induction false} ApplyLookup(c: Config, u: Update, n: nat, x: string)
    requires n <= KeyCount
    ensures Get(Apply(c, u, n), x) ==
      if KeyOf(x).Some? && Index(KeyOf(x).value) < n && Given(u, KeyOf(x).value).Some?
      then Given(u, KeyOf(x).value) else Get(c, x)
  {
    if n > 0 {
      ApplyLookup(c, u, n - 1, x);
      var d := Apply(c, u, n - 1);
      var k := At(n - 1);
      NameRoundTrip(k);
      var o := KeyOf(x);
      if x == Name(k) {
        assert o == Some(k);
      } else {
        assert Get(Apply(c, u, n), x) == Get(d, x);
        if o.Some? {
          IndexInjective(o.value, k);
        }
      }
    }
  }

  /**
   * Each present field is stored, normalised, under its own key; an absent
   * field leaves its key as it was; no other key changes; the old keys keep
   * their order with any new ones after them.
   */
  lemma UpdatedLookup(c: Config, u: Update, x: string)
    requires Valid(c)
    ensures Valid(Updated(c, u))
    ensures Get(Updated(c, u), x) ==
      match KeyOf(x)
      case None => Get(c, x)
      case Some(k) => if Given(u, k).Some? then Given(u, k) else Get(c, x)
    ensures |c.keys| <= |Updated(c, u).keys| && Updated(c, u).keys[..|c.keys|] == c.keys
  {
    ApplyValid(c, u, KeyCount);
    ApplyLookup(c, u, KeyCount, x);
  }

  /** The two ratios, when given, are stored clamped to [0, 1]; when not, they are left as they were. */
  lemma UpdatedRatios(c: Config, u: Update)
    requires Valid(c)
    ensures u.minHanRatio.Some? ==>
      exists r :: Get(Updated(c, u), "min_han_ratio") == Some(JReal(r)) && 0.0 <= r <= 1.0
    ensures u.minHanRatio.None? ==> Get(Updated(c, u), "min_han_ratio") == Get(c, "min_han_ratio")
    ensures u.minOcrConfidence.Some? ==>
      exists r :: Get(Updated(c, u), "min_ocr_confidence") == Some(JReal(r)) && 0.0 <= r <= 1.0
    ensures u.minOcrConfidence.None? ==> Get(Updated(c, u), "min_ocr_confidence") == Get(c, "min_ocr_confidence")
  {
    UpdatedLookup(c, u, Name(MinHanRatio));
    NameRoundTrip(MinHanRatio);
    if u.minHanRatio.Some? {
      assert Get(Updated(c, u), "min_han_ratio") == Some(JReal(ClampUnit(u.minHanRatio.value)));
    }
    UpdatedLookup(c, u, Name(MinOcrConfidence));
    NameRoundTrip(MinOcrConfidence);
    if u.minOcrConfidence.Some? {
      assert Get(Updated(c, u), "min_ocr_confidence") == Some(JReal(Confidence(u.minOcrConfidence.value)));
    }
  }

  /** Whatever is requested, a stored engine and a stored mode are names the OCR understands, and a stored cap is non-negative. */
  lemma UpdatedNames(c: Config, u: Update)
    requires Valid(c)
    ensures u.ocrEngine.Some? ==>
      Get(Updated(c, u), "ocr_engine") == Some(JStr("easyocr")) || Get(Updated(c, u), "ocr_engine") == Some(JStr("paddleocr"))
    ensures u.ocrMode.Some? ==>
      Get(Updated(c, u), "ocr_mode") == Some(JStr("basic")) || Get(Updated(c, u), "ocr_mode") == Some(JStr("advanced"))
    ensures u.recheckCap.Some? ==>
      exists n :: Get(Updated(c, u), "ocr_recheck_max_regions_per_page") == Some(JInt(n)) && n >= 0
  {
    if u.ocrEngine.Some? {
      UpdatedLookup(c, u, Name(OcrEngine));
      NameRoundTrip(OcrEngine);
      assert Get(Updated(c, u), "ocr_engine") == Some(JStr(EngineName(u.ocrEngine.value)));
    }
    if u.ocrMode.Some? {
      UpdatedLookup(c, u, Name(OcrMode));
      NameRoundTrip(OcrMode);
      assert Get(Updated(c, u), "ocr_mode") == Some(JStr(ModeName(u.ocrMode.value)));
    }
    if u.recheckCap.Some? {
      UpdatedLookup(c, u, Name(RecheckCapKey));
      NameRoundTrip(RecheckCapKey);
      assert Get(Updated(c, u), "ocr_recheck_max_regions_per_page") == Some(JInt(RecheckCap(u.recheckCap.value)));
    }
  }

  /** Conditionals that would write what is already stored change nothing, key order included. */
  lemma {:induction false} ApplyOnFixed(d: Config, u: Update, n: nat)
    requires n <= KeyCount
    requires forall k :: Index(k) < n && Given(u, k).Some? ==> Get(d, Name(k)) == Given(u, k)
    ensures Apply(d, u, n) == d
  {
    if n > 0 {
      ApplyOnFixed(d, u, n - 1);
      var k := At(n - 1);
      if Given(u, k).Some? {
        assert Name(k) in d.m;
        assert d.m[Name(k) := Given(u, k).value] == d.m;
      }
    }
  }

  /** Sending the same update twice leaves the configuration as sending it once, key order included. */
  lemma UpdateIdempotent(c: Config, u: Update)
    requires Valid(c)
    ensures Updated(Updated(c, u), u) == Updated(c, u)
  {
    var d := Updated(c, u);
    forall k | Index(k) < KeyCount && Given(u, k).Some?
      ensures Get(d, Name(k)) == Given(u, k)
    {
      NameRoundTrip(k);
      UpdatedLookup(c, u, Name(k));
    }
    ApplyOnFixed(d, u, KeyCount);
  }

  /** After a key is set, `get_settings` shows it masked. */
  lemma ShownAfterUpdate(c: Config, u: Update)
    requires Valid(c) && u.deeplApiKey.Some?
    ensures ShownKey(Updated(c, u)) == Done(MaskedKey(u.deeplApiKey.value))
  {
    UpdatedLookup(c, u, Name(DeeplApiKey));
    NameRoundTrip(DeeplApiKey);
  }

  // ---------------------------------------------------------------- the endpoints

  /** The configuration file: its JSON object, or None when it is missing or does not parse. */
  class ConfigFile {
    var stored: Option<Config>

    ghost predicate Valid()
      reads this
    {
      stored.Some? ==> PyDict.Valid(stored.value)
    }

    /** What `get_config` returns. */
    function Current(): (c: Config)
      reads this
    {
      if stored.Some? then stored.value else Empty()
    }

    /** `get_config()`: the stored object, or `{}` when there is none. */
    method Read() returns (c: Config)
      requires Valid()
      ensures c == Current() && PyDict.Valid(c)
    {
      if stored.Some? {
        c := stored.value;
      } else {
        c := Empty();
      }
    }

    /** `save_config(config)` */
    method Save(c: Config)
      requires PyDict.Valid(c)
      modifies this
      ensures stored == Some(c) && Valid()
    {
      stored := Some(c);
    }
  }

  /** `get_settings`, for the key it masks. */
  method GetSettings(file: ConfigFile) returns (key: Outcome<string>)
    requires file.Valid()
    ensures key == ShownKey(file.Current())
  {
    var config := file.Read();
    var apiKey := Get(config, "deepl_api_key");
    if apiKey.None? {
      key := Done(MaskedKey(""));
    } else if apiKey.value.JStr? {
      key := Done(MaskedKey(apiKey.value.s));
    } else {
      key := Raised;
    }
  }

  /**
   * One conditional of `update_settings`: when the request carries the
   * field, normalise it and assign it under its key.
   */
  method AssignField(config: Config, u: Update, k: Key) returns (c: Config)
    ensures c == PutIf(config, Name(k), Given(u, k))
  {
    c := config;
    match k
    case DeeplApiKey =>
      if u.deeplApiKey.Some? {
        c := Put(c, "deepl_api_key", JStr(u.deeplApiKey.value));
      }
    case DefaultDpi =>
      if u.defaultDpi.Some? {
        c := Put(c, "default_dpi", JInt(u.defaultDpi.value));
      }
    case MinHanRatio =>
      if u.minHanRatio.Some? {
        var value := u.minHanRatio.value;
        if value < 0.0 {
          value := 0.0;
        }
        if value > 1.0 {
          value := 1.0;
        }
        c := Put(c, "min_han_ratio", JReal(value));
      }
    case OcrEngine =>
      if u.ocrEngine.Some? {
        var value := Folded(u.ocrEngine.value);
        if value != "easyocr" && value != "paddleocr" {
          value := "easyocr";
        }
        c := Put(c, "ocr_engine", JStr(value));
      }
    case OcrMode =>
      if u.ocrMode.Some? {
        var value := Folded(u.ocrMode.value);
        if value != "basic" && value != "advanced" {
          value := "basic";
        }
        c := Put(c, "ocr_mode", JStr(value));
      }
    case MinOcrConfidence =>
      if u.minOcrConfidence.Some? {
        var value: real;
        if u.minOcrConfidence.value.Done? {
          value := u.minOcrConfidence.value.value;
        } else {
          value := DefaultMinOcrConfidence;
        }
        if value < 0.0 {
          value := 0.0;
        }
        if value > 1.0 {
          value := 1.0;
        }
        c := Put(c, "min_ocr_confidence", JReal(value));
      }
    case LabelRecheck =>
      if u.labelRecheck.Some? {
        c := Put(c, "ocr_enable_label_recheck", JBool(u.labelRecheck.value));
      }
    case RecheckCapKey =>
      if u.recheckCap.Some? {
        var value: int;
        if u.recheckCap.value.Done? {
          value := u.recheckCap.value.value;
        } else {
          value := DefaultRecheckCap;
        }
        if value < 0 {
          value := 0;
        }
        c := Put(c, "ocr_recheck_max_regions_per_page", JInt(value));
      }
    case RegionFilters =>
      if u.regionFilters.Some? {
        c := Put(c, "ocr_region_filters", JFilters(u.regionFilters.value));
      }
  }

  /**
   * `update_settings`: read the configuration, run the conditionals in
   * order, and save.
   */
  method UpdateSettings(file: ConfigFile, u: Update) returns (status: string)
    requires file.Valid()
    modifies file
    ensures file.Valid()
    ensures file.stored == Some(Updated(old(file.Current()), u))
    ensures status == "ok"
  {
    var config := file.Read();
    ghost var c0 := config;
    config := AssignField(config, u, DeeplApiKey);
    assert config == Apply(c0, u, 1);
    config := AssignField(config, u, DefaultDpi);
    assert config == Apply(c0, u, 2);
    config := AssignField(config, u, MinHanRatio);
    assert config == Apply(c0, u, 3);
    config := AssignField(config, u, OcrEngine);
    assert config == Apply(c0, u, 4);
    config := AssignField(config, u, OcrMode);
    assert config == Apply(c0, u, 5);
    config := AssignField(config, u, MinOcrConfidence);
    assert config == Apply(c0, u, 6);
    config := AssignField(config, u, LabelRecheck);
    assert config == Apply(c0, u, 7);
    config := AssignField(config, u, RecheckCapKey);
    assert config == Apply(c0, u, 8);
    config := AssignField(config, u, RegionFilters);
    assert config == Apply(c0, u, 9);
    ApplyValid(c0, u, KeyCount);
    file.Save(config);
    return "ok";
  }
}
