/** JavaScript's `String.prototype.trim` and the falsy test on its result, shared by the desktop components. */
module JsText {
  /** The characters `trim` removes: ECMAScript white space and line terminators. */
  predicate JsIsSpace(c: char)
  {
    var n := c as int;
    (9 <= n <= 13) || n == 0x20 || n == 0xA0 || n == 0x1680 || (0x2000 <= n <= 0x200A)
    || n == 0x2028 || n == 0x2029 || n == 0x202F || n == 0x205F || n == 0x3000 || n == 0xFEFF
  }

  /** Leading white space removed. */
  function TrimStart(s: string): string
    decreases |s|
  {
    if s != [] && JsIsSpace(s[0]) then TrimStart(s[1..]) else s
  }

  /** Trailing white space removed. */
  function TrimEnd(s: string): string
    decreases |s|
  {
    if s != [] && JsIsSpace(s[|s| - 1]) then TrimEnd(s[..|s| - 1]) else s
  }

  /** `s.trim()` */
  function Trim(s: string): string
  {
    TrimEnd(TrimStart(s))
  }

  /** `!s.trim()`, stated directly: every character is white space. */
  predicate Blank(s: string)
  {
    forall i :: 0 <= i < |s| ==> JsIsSpace(s[i])
  }

  /** Trimming the start leaves nothing exactly when the text is blank. */
  lemma {:induction false} TrimStartBlank(s: string)
    ensures TrimStart(s) == [] <==> Blank(s)
    ensures TrimStart(s) != [] ==> !JsIsSpace(TrimStart(s)[0])
    decreases |s|
  {
    if s != [] && JsIsSpace(s[0]) {
      TrimStartBlank(s[1..]);
      assert forall i :: 1 <= i < |s| ==> s[i] == s[1..][i - 1];
    }
  }

  /** Trimming the end of a text that starts with a visible character leaves that character. */
  lemma {:induction false} TrimEndKeepsVisible(s: string)
    requires s != [] && !JsIsSpace(s[0])
    ensures TrimEnd(s) != [] && TrimEnd(s)[0] == s[0]
    decreases |s|
  {
    if JsIsSpace(s[|s| - 1]) {
      TrimEndKeepsVisible(s[..|s| - 1]);
    }
  }

  /** The falsy test on a trimmed text is exactly blankness. */
  lemma TrimEmptyIffBlank(s: string)
    ensures Trim(s) == "" <==> Blank(s)
  {
    TrimStartBlank(s);
    if TrimStart(s) != [] {
      TrimEndKeepsVisible(TrimStart(s));
    }
  }

  /** A text that neither starts nor ends with white space is its own trim. */
  lemma TrimVisible(s: string)
    requires s != [] ==> !JsIsSpace(s[0]) && !JsIsSpace(s[|s| - 1])
    ensures Trim(s) == s
  {
  }

  /** A concrete case: white space of several kinds trims to nothing, a visible character does not. */
  lemma TrimExamples()
    ensures Trim(" \t ") == ""
    ensures Trim(" a ") == "a"
  {
    assert " \t "[1..] == "\t ";
    assert "\t "[1..] == " ";
    assert " a "[1..] == "a ";
    assert "a "[..1] == "a";
  }
}
