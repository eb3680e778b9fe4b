/**
 * Script classification and OCR text normalisation: which characters are
 * Han ideographs, how much of a text is Han, whether a text looks like a
 * Latin label, whitespace collapsing, and splitting a text into maximal Han
 * and non-Han runs.
 */
module Script {
  import opened Wrappers
  import opened PyText

  /** Code points of a Han ideograph, as eight inclusive ranges. */
  predicate IsHanChar(c: char)
  {
    var code := c as int;
    (0x4E00 <= code <= 0x9FFF)        // CJK Unified Ideographs
    || (0x3400 <= code <= 0x4DBF)     // Extension A
    || (0x20000 <= code <= 0x2A6DF)   // Extension B
    || (0x2A700 <= code <= 0x2B73F)   // Extension C
    || (0x2B740 <= code <= 0x2B81F)   // Extension D
    || (0x2B820 <= code <= 0x2CEAF)   // Extension E
    || (0xF900 <= code <= 0xFAFF)     // Compatibility Ideographs
    || (0x2F800 <= code <= 0x2FA1F)   // Compatibility Supplement
  }

  /** The same ranges as a table of (first, last) code points. */
  const HanBlocks: seq<(int, int)> :=
    [(0x4E00, 0x9FFF), (0x3400, 0x4DBF), (0x20000, 0x2A6DF), (0x2A700, 0x2B73F),
     (0x2B740, 0x2B81F), (0x2B820, 0x2CEAF), (0xF900, 0xFAFF), (0x2F800, 0x2FA1F)]

  predicate InBlock(c: char, k: int)
    requires 0 <= k < |HanBlocks|
  {
    HanBlocks[k].0 <= c as int <= HanBlocks[k].1
  }

  /** A character is Han exactly when its code point lies in one of the eight blocks. */
  lemma HanCharInBlocks(c: char)
    ensures IsHanChar(c) <==> exists k :: 0 <= k < |HanBlocks| && InBlock(c, k)
  {
    var code := c as int;
    if IsHanChar(c) {
      var k :=
        if 0x4E00 <= code <= 0x9FFF then 0 else if 0x3400 <= code <= 0x4DBF then 1
        else if 0x20000 <= code <= 0x2A6DF then 2 else if 0x2A700 <= code <= 0x2B73F then 3
        else if 0x2B740 <= code <= 0x2B81F then 4 else if 0x2B820 <= code <= 0x2CEAF then 5
        else if 0xF900 <= code <= 0xFAFF then 6 else 7;
      assert InBlock(c, k);
    }
  }

  /** No Han character is whitespace, so `strip()` never touches a Han run. */
  lemma HanIsNotSpace(c: char)
    ensures IsHanChar(c) ==> !IsSpace(c)
  {
  }

  /** `has_han`: some character is Han (false for the empty text). */
  predicate HasHan(t: string)
  {
    exists i :: 0 <= i < |t| && IsHanChar(t[i])
  }

  function HanCount(t: string): (n: nat)
    ensures n <= |t|
  {
    if t == [] then 0 else (if IsHanChar(t[0]) then 1 else 0) + HanCount(t[1..])
  }

  /** `han_ratio`: 0 for the empty text, else Han characters over length. */
  function HanRatio(t: string): real
  {
    if t == [] then 0.0 else HanCount(t) as real / |t| as real
  }

  lemma {:induction false} HanCountZero(t: string)
    ensures HanCount(t) == 0 <==> !HasHan(t)
    decreases |t|
  {
    if t != [] {
      HanCountZero(t[1..]);
      if HasHan(t) && !IsHanChar(t[0]) {
        var i :| 0 <= i < |t| && IsHanChar(t[i]);
        assert IsHanChar(t[1..][i - 1]);
      }
      if HasHan(t[1..]) {
        var i :| 0 <= i < |t| - 1 && IsHanChar(t[1..][i]);
        assert IsHanChar(t[i + 1]);
      }
    }
  }

  lemma {:induction false} HanCountFull(t: string)
    ensures HanCount(t) == |t| <==> forall i :: 0 <= i < |t| ==> IsHanChar(t[i])
    decreases |t|
  {
    if t != [] {
      HanCountFull(t[1..]);
      if forall i :: 0 <= i < |t| ==> IsHanChar(t[i]) {
        assert forall i :: 0 <= i < |t| - 1 ==> IsHanChar(t[1..][i]) by {
          forall i | 0 <= i < |t| - 1 ensures IsHanChar(t[1..][i]) { assert t[1..][i] == t[i + 1]; }
        }
      }
      if HanCount(t) == |t| {
        forall i | 0 <= i < |t| ensures IsHanChar(t[i]) {
          if i > 0 { assert t[i] == t[1..][i - 1]; }
        }
      }
    }
  }

  /**
   * The Han ratio is a fraction in [0, 1]; it is 0 exactly when the text has
   * no Han character and 1 exactly when the text is non-empty and all Han.
   */
  lemma HanRatioBounds(t: string)
    ensures 0.0 <= HanRatio(t) <= 1.0
    ensures HanRatio(t) == 0.0 <==> !HasHan(t)
    ensures HanRatio(t) == 1.0 <==> t != [] && forall i :: 0 <= i < |t| ==> IsHanChar(t[i])
  {
    HanCountZero(t);
    HanCountFull(t);
    if t != [] {
      Fraction(HanCount(t), |t|);
    }
  }

  /** A count over a positive total is a fraction in [0, 1], at its ends exactly for none and all. */
  lemma Fraction(n: nat, d: nat)
    requires 0 < d && n <= d
    ensures 0.0 <= n as real / d as real <= 1.0
    ensures n as real / d as real == 0.0 <==> n == 0
    ensures n as real / d as real == 1.0 <==> n == d
  {
    var r := n as real / d as real;
    assert r * d as real == n as real;
  }

  /** A character of the label class `[A-Za-z0-9\-_/().:+,\s]`. */
  predicate IsLabelChar(c: char)
  {
    ('A' <= c <= 'Z') || ('a' <= c <= 'z') || ('0' <= c <= '9')
    || c == '-' || c == '_' || c == '/' || c == '(' || c == ')' || c == '.'
    || c == ':' || c == '+' || c == ',' || IsSpace(c)
  }

  /**
   * The anchored label pattern `^[...]+$` matched against a stripped text:
   * one or more label characters and nothing else (a stripped text never
   * ends in a newline, so `$` can only match at the very end).
   */
  predicate MatchesLabelPattern(s: string)
  {
    s != [] && AllLabelChars(s)
  }

  /** `is_pure_label_like` */
  predicate IsPureLabelLike(t: string)
  {
    if t == [] then true
    else if HasHan(t) then false
    else MatchesLabelPattern(Strip(t))
  }

  /**
   * The three cases of the label test, stated on the text itself rather than
   * on its stripped form: the empty text is label-like, Han text never is,
   * and any other text is label-like exactly when it is not all whitespace
   * and every character is in the label class.
   */
  lemma LabelLikeCases(t: string)
    ensures t == [] ==> IsPureLabelLike(t)
    ensures HasHan(t) ==> !IsPureLabelLike(t)
    ensures t != [] && !HasHan(t) ==>
      (IsPureLabelLike(t) <==> !AllSpace(t) && AllLabelChars(t))
  {
    StripIsTrimmedSlice(t);
    var a, b :| 0 <= a <= b <= |t| && Strip(t) == t[a..b] && AllSpace(t[..a]) && AllSpace(t[b..]);
    LabelCharsOfSlice(t, a, b);
  }

  predicate AllLabelChars(s: string)
  {
    forall i :: 0 <= i < |s| ==> IsLabelChar(s[i])
  }

  /** Whitespace is in the label class, so trimming it does not change the outcome. */
  lemma LabelCharsOfSlice(t: string, a: nat, b: nat)
    requires a <= b <= |t| && AllSpace(t[..a]) && AllSpace(t[b..])
    ensures AllLabelChars(t) <==> AllLabelChars(t[a..b])
  {
    if AllLabelChars(t[a..b]) {
      forall i | 0 <= i < |t| ensures IsLabelChar(t[i]) {
        if i < a { assert t[i] == t[..a][i]; }
        else if i < b { assert t[i] == t[a..b][i - a]; }
        else { assert t[i] == t[b..][i - b]; }
      }
    }
  }

  /** `normalize_ocr_text`: `None` becomes "", otherwise whitespace is collapsed. */
  function NormalizeOcrText(t: Option<string>): string
  {
    match t
    case None => ""
    case Some(s) => JoinSpace(Words(Strip(s)))
  }

  /**
   * The normal form has no leading or trailing whitespace, never two
   * whitespace characters in a row, only `' '` as whitespace, and the same
   * words as the input.
   */
  lemma NormalizeCollapses(t: Option<string>)
    ensures Collapsed(NormalizeOcrText(t))
    ensures t.Some? ==> Words(NormalizeOcrText(t)) == Words(t.value)
  {
    if t.Some? {
      WordsOfStrip(t.value);
      WordsWellFormed(t.value);
      JoinCollapsed(Words(t.value));
      WordsOfJoin(Words(t.value));
    }
  }

  /** Normalising twice is normalising once. */
  lemma NormalizeIdempotent(t: Option<string>)
    ensures NormalizeOcrText(Some(NormalizeOcrText(t))) == NormalizeOcrText(t)
  {
    var n := NormalizeOcrText(t);
    NormalizeCollapses(t);
    StripTrimmed(n);
    if t.Some? {
      WordsOfStrip(t.value);
    } else {
      assert Words("") == [];
    }
  }

  // ---------------------------------------------------------------- runs

  /** One `(is_han, text)` pair produced by `iter_han_runs`. */
  datatype Run = Run(isHan: bool, text: string)

  /** Appends one character: it joins the last run when the flags agree. */
  function Extend(runs: seq<Run>, c: char): seq<Run>
  {
    if runs != [] && runs[|runs| - 1].isHan == IsHanChar(c)
    then runs[..|runs| - 1] + [Run(IsHanChar(c), runs[|runs| - 1].text + [c])]
    else runs + [Run(IsHanChar(c), [c])]
  }

  /** The runs of a text, defined by reading it one character at a time. */
  function HanRuns(s: string): seq<Run>
    decreases |s|
  {
    if s == [] then [] else Extend(HanRuns(s[..|s| - 1]), s[|s| - 1])
  }

  function Concat(runs: seq<Run>): string
  {
    if runs == [] then "" else Concat(runs[..|runs| - 1]) + runs[|runs| - 1].text
  }

  /** Each run is non-empty, its characters all carry its flag, and neighbours differ. */
  predicate ProperRuns(runs: seq<Run>)
  {
    (forall k :: 0 <= k < |runs| ==> UniformRun(runs[k]))
    && (forall k :: 0 <= k < |runs| - 1 ==> runs[k].isHan != runs[k + 1].isHan)
  }

  /** A non-empty run whose characters all carry its flag. */
  predicate UniformRun(r: Run)
  {
    r.text != [] && forall i :: 0 <= i < |r.text| ==> IsHanChar(r.text[i]) == r.isHan
  }

  /**
   * The runs of a text concatenate back to the text, are proper, and there are
   * none exactly when the text is empty.
   */
  lemma {:induction false} HanRunsCorrect(s: string)
    ensures Concat(HanRuns(s)) == s
    ensures ProperRuns(HanRuns(s))
    ensures HanRuns(s) == [] <==> s == []
    decreases |s|
  {
    if s != [] {
      var p, c := s[..|s| - 1], s[|s| - 1];
      HanRunsCorrect(p);
      assert s == p + [c];
      ExtendCorrect(HanRuns(p), c);
    }
  }

  /** Extending proper runs by one character keeps them proper and appends the character. */
  lemma ExtendCorrect(runs: seq<Run>, c: char)
    requires ProperRuns(runs)
    ensures ProperRuns(Extend(runs, c))
    ensures Concat(Extend(runs, c)) == Concat(runs) + [c]
    ensures Extend(runs, c) != []
  {
    var r := Extend(runs, c);
    if runs != [] && runs[|runs| - 1].isHan == IsHanChar(c) {
      var last := runs[|runs| - 1];
      var next := Run(IsHanChar(c), last.text + [c]);
      assert r[..|r| - 1] == runs[..|runs| - 1];
      assert UniformRun(last);
      assert UniformRun(next) by {
        forall i | 0 <= i < |next.text| ensures IsHanChar(next.text[i]) == next.isHan {
          if i < |last.text| { assert next.text[i] == last.text[i]; }
        }
      }
      assert Concat(runs) == Concat(runs[..|runs| - 1]) + last.text;
      assert Concat(r) == Concat(runs[..|runs| - 1]) + (last.text + [c]);
    } else {
      assert r[..|r| - 1] == runs;
      assert UniformRun(Run(IsHanChar(c), [c]));
    }
  }

  /**
   * `iter_han_runs`: one pass over the text with a current buffer and its
   * flag; the buffer is flushed whenever the flag changes and at the end.
   */
  method IterHanRuns(text: string) returns (runs: seq<Run>)
    ensures runs == HanRuns(text)
  {
    if text == [] {
      return [];
    }
    var out: seq<Run> := [];
    var buf: string := [];
    var bufIsHan := IsHanChar(text[0]);
    for i := 0 to |text|
      invariant i == 0 ==> out == [] && buf == [] && bufIsHan == IsHanChar(text[0])
      invariant i > 0 ==> buf != [] && out + [Run(bufIsHan, buf)] == HanRuns(text[..i])
    {
      var ch := text[i];
      var chIsHan := IsHanChar(ch);
      assert text[..i + 1][..i] == text[..i];
      assert HanRuns(text[..i + 1]) == Extend(HanRuns(text[..i]), ch);
      if i == 0 {
        assert Extend([], ch) == [Run(chIsHan, [ch])];
        assert HanRuns(text[..i + 1]) == [Run(chIsHan, [ch])];
        assert buf + [ch] == [ch];
      }
      if chIsHan == bufIsHan {
        if i > 0 {
          var prev := out + [Run(bufIsHan, buf)];
          assert prev[..|prev| - 1] == out;
          assert Extend(prev, ch) == out + [Run(chIsHan, buf + [ch])];
        }
        buf := buf + [ch];
      } else {
        var prev := out + [Run(bufIsHan, buf)];
        assert prev[|prev| - 1].isHan != chIsHan;
        assert Extend(prev, ch) == prev + [Run(chIsHan, [ch])];
        out := prev;
        buf := [ch];
        bufIsHan := chIsHan;
      }
    }
    assert text[..|text|] == text;
    runs := out + [Run(bufIsHan, buf)];
    HanRunsCorrect(text);
  }
}
