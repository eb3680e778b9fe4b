/**
 * The pieces of Python's `str` semantics the backend relies on: the
 * `str.isspace` character set (shared by `strip()`, `split()` and the `\s`
 * class of `re` for `str` patterns), `strip`, `split`, `" ".join`, ASCII
 * `lower`, `in` / `startswith` / `endswith`, `find` / `rfind`, and `int()`
 * applied to a float.
 */
module PyText {
  import Seqs

  /** Python `str.isspace()` for one character. */
  predicate IsSpace(c: char)
  {
    var n := c as int;
    (9 <= n <= 13) || (0x1C <= n <= 0x20) || n == 0x85 || n == 0xA0 || n == 0x1680
    || (0x2000 <= n <= 0x200A) || n == 0x2028 || n == 0x2029 || n == 0x202F
    || n == 0x205F || n == 0x3000
  }

  predicate NoSpace(s: string)
  {
    forall i :: 0 <= i < |s| ==> !IsSpace(s[i])
  }

  predicate AllSpace(s: string)
  {
    forall i :: 0 <= i < |s| ==> IsSpace(s[i])
  }

  // ---------------------------------------------------------------- strip

  /** Python `s.lstrip()`. */
  function LStrip(s: string): string
  {
    if s != [] && IsSpace(s[0]) then LStrip(s[1..]) else s
  }

  /** Python `s.rstrip()`. */
  function RStrip(s: string): string
  {
    if s != [] && IsSpace(s[|s| - 1]) then RStrip(s[..|s| - 1]) else s
  }

  /** `lstrip` drops a whitespace prefix and leaves a suffix that starts with a non-space. */
  lemma {:induction false} LStripFacts(s: string)
    ensures |LStrip(s)| <= |s| && LStrip(s) == s[|s| - |LStrip(s)|..]
    ensures LStrip(s) != [] ==> !IsSpace(LStrip(s)[0])
    ensures AllSpace(s[..|s| - |LStrip(s)|])
    decreases |s|
  {
    if s != [] && IsSpace(s[0]) {
      LStripFacts(s[1..]);
      var k := |s| - |LStrip(s)|;
      assert s[1..][|s| - 1 - |LStrip(s)|..] == s[k..];
      forall i | 0 <= i < k ensures IsSpace(s[..k][i]) {
        if i > 0 {
          assert s[..k][i] == s[1..][..k - 1][i - 1];
        }
      }
    }
  }

  /** `rstrip` drops a whitespace suffix and leaves a prefix that ends with a non-space. */
  lemma {:induction false} RStripFacts(s: string)
    ensures |RStrip(s)| <= |s| && RStrip(s) == s[..|RStrip(s)|]
    ensures RStrip(s) != [] ==> !IsSpace(RStrip(s)[|RStrip(s)| - 1])
    ensures AllSpace(s[|RStrip(s)|..])
    decreases |s|
  {
    if s != [] && IsSpace(s[|s| - 1]) {
      var n := |s| - 1;
      RStripFacts(s[..n]);
      var k := |RStrip(s)|;
      assert s[..n][..k] == s[..k];
      forall i | 0 <= i < |s| - k ensures IsSpace(s[k..][i]) {
        if k + i < n {
          assert s[k..][i] == s[..n][k..][i];
        }
      }
    }
  }

  /** Python `s.strip()`. */
  function Strip(s: string): string
  {
    RStrip(LStrip(s))
  }

  /**
   * `s.strip()` is the slice of `s` between its leading and trailing
   * whitespace: it starts and ends with a non-space, and it is empty exactly
   * when `s` is all whitespace.
   */
  lemma StripIsTrimmedSlice(s: string)
    ensures exists a, b :: 0 <= a <= b <= |s| && Strip(s) == s[a..b]
                            && AllSpace(s[..a]) && AllSpace(s[b..])
    ensures Strip(s) != [] ==> !IsSpace(Strip(s)[0]) && !IsSpace(Strip(s)[|Strip(s)| - 1])
    ensures Strip(s) == [] <==> AllSpace(s)
  {
    var l := LStrip(s);
    LStripFacts(s);
    var a := |s| - |l|;
    var r := RStrip(l);
    RStripFacts(l);
    var b := a + |r|;
    assert s[a..b] == r;
    assert s[..a] == s[..|s| - |l|];
    assert s[b..] == l[|r|..];
    if r == [] {
      assert l[|r|..] == l;
      assert l == [];
      forall i | 0 <= i < |s| ensures IsSpace(s[i]) {
        assert s[i] == s[..a][i];
      }
    }
    if r != [] {
      assert r[0] == l[0];
    }
  }

  /** A string with no leading or trailing whitespace is its own `strip()`. */
  lemma StripTrimmed(s: string)
    requires s != [] ==> !IsSpace(s[0]) && !IsSpace(s[|s| - 1])
    ensures Strip(s) == s
  {
  }

  // ---------------------------------------------------------------- split

  /** Length of the leading run of non-whitespace characters. */
  function WordLen(s: string): (k: nat)
    ensures k <= |s| && NoSpace(s[..k])
    ensures k < |s| ==> IsSpace(s[k])
  {
    if s == [] || IsSpace(s[0]) then 0 else 1 + WordLen(s[1..])
  }

  /** Python `s.split()`: the maximal runs of non-whitespace characters. */
  function Words(s: string): (ws: seq<string>)
    decreases |s|
  {
    if s == [] then []
    else if IsSpace(s[0]) then Words(s[1..])
    else
      var k := WordLen(s);
      [s[..k]] + Words(s[k..])
  }

  /** Every item `split()` returns is non-empty and holds no whitespace. */
  predicate WellFormedWords(ws: seq<string>)
  {
    forall k :: 0 <= k < |ws| ==> ws[k] != [] && NoSpace(ws[k])
  }

  /** Python `" ".join(ws)`. */
  function JoinSpace(ws: seq<string>): string
  {
    if |ws| == 0 then "" else if |ws| == 1 then ws[0] else ws[0] + " " + JoinSpace(ws[1..])
  }

  lemma {:induction false} WordsWellFormed(s: string)
    ensures WellFormedWords(Words(s))
    decreases |s|
  {
    if s == [] {
    } else if IsSpace(s[0]) {
      WordsWellFormed(s[1..]);
    } else {
      var k := WordLen(s);
      WordsWellFormed(s[k..]);
      assert Words(s) == [s[..k]] + Words(s[k..]);
    }
  }

  /** Leading whitespace does not change `split()`. */
  lemma {:induction false} WordsSkipSpace(s: string, n: nat)
    requires n <= |s| && AllSpace(s[..n])
    ensures Words(s) == Words(s[n..])
    decreases n
  {
    if n > 0 {
      assert IsSpace(s[..n][0]);
      assert s[1..][..n - 1] == s[..n][1..];
      WordsSkipSpace(s[1..], n - 1);
      assert s[1..][n - 1..] == s[n..];
    }
  }

  /** Trailing whitespace does not change `split()`. */
  lemma {:induction false} WordsDropTrailingSpace(s: string, t: string)
    requires AllSpace(t)
    ensures Words(s + t) == Words(s)
    decreases |s|
  {
    if s == [] {
      assert s + t == t;
      WordsSkipSpace(t, |t|);
      assert t[|t|..] == [];
    } else if IsSpace(s[0]) {
      assert (s + t)[1..] == s[1..] + t;
      WordsDropTrailingSpace(s[1..], t);
    } else {
      var k := WordLen(s);
      WordLenAppend(s, t);
      assert (s + t)[..k] == s[..k];
      assert (s + t)[k..] == s[k..] + t;
      WordsDropTrailingSpace(s[k..], t);
    }
  }

  /** The first word of `s + t` is the first word of `s` when it ends inside `s`. */
  lemma {:induction false} WordLenAppend(s: string, t: string)
    requires s != [] && !IsSpace(s[0])
    requires WordLen(s) < |s| || t == [] || IsSpace(t[0]) || AllSpace(t)
    ensures WordLen(s + t) == WordLen(s)
    decreases |s|
  {
    if |s| == 1 {
      assert (s + t)[1..] == t;
      if |t| > 0 { assert IsSpace(t[0]) || AllSpace(t); }
    } else if IsSpace(s[1]) {
      assert (s + t)[1..] == s[1..] + t;
    } else {
      assert (s + t)[1..] == s[1..] + t;
      WordLenAppend(s[1..], t);
    }
  }

  /** `split()` of stripped text equals `split()` of the text. */
  lemma WordsOfStrip(s: string)
    ensures Words(Strip(s)) == Words(s)
  {
    StripIsTrimmedSlice(s);
    var a, b :| 0 <= a <= b <= |s| && Strip(s) == s[a..b] && AllSpace(s[..a]) && AllSpace(s[b..]);
    var core, trail := s[a..b], s[b..];
    WordsSkipSpace(s, a);
    Seqs.SuffixSplit(s, a, b);
    WordsDropTrailingSpace(core, trail);
    assert Words(s) == Words(core + trail) == Words(core);
  }

  /** A whitespace-free non-empty string is a single word. */
  lemma {:induction false} WordsOfWord(w: string)
    requires w != [] && NoSpace(w)
    ensures WordLen(w) == |w|
    ensures Words(w) == [w]
    decreases |w|
  {
    if |w| > 1 {
      assert NoSpace(w[1..]);
      WordsOfWord(w[1..]);
    }
    assert w[|w|..] == [];
    assert w[..|w|] == w;
  }

  /** Splitting a space-joined list of words gives the words back. */
  lemma {:induction false} WordsOfJoin(ws: seq<string>)
    requires WellFormedWords(ws)
    ensures Words(JoinSpace(ws)) == ws
    decreases |ws|
  {
    if |ws| == 1 {
      WordsOfWord(ws[0]);
    } else if |ws| > 1 {
      var w := ws[0];
      var rest := " " + JoinSpace(ws[1..]);
      WordsOfWord(w);
      WordLenAppend(w, rest);
      assert JoinSpace(ws) == w + rest;
      assert (w + rest)[..|w|] == w;
      assert (w + rest)[|w|..] == rest;
      assert rest[1..] == JoinSpace(ws[1..]);
      WordsOfJoin(ws[1..]);
      assert ws == [w] + ws[1..];
    }
  }

  /**
   * Whitespace in a space-joined list of clean words is only the single
   * separators: no whitespace at the ends, no two whitespace characters in a
   * row, and every whitespace character is `' '`.
   */
  predicate Collapsed(r: string)
  {
    (r != [] ==> !IsSpace(r[0]) && !IsSpace(r[|r| - 1]))
    && (forall i :: 0 <= i < |r| - 1 ==> !(IsSpace(r[i]) && IsSpace(r[i + 1])))
    && (forall i :: 0 <= i < |r| && IsSpace(r[i]) ==> r[i] == ' ')
  }

  lemma {:induction false} JoinCollapsed(ws: seq<string>)
    requires WellFormedWords(ws)
    ensures Collapsed(JoinSpace(ws))
    decreases |ws|
  {
    if |ws| > 1 {
      var w := ws[0];
      var tail := JoinSpace(ws[1..]);
      JoinCollapsed(ws[1..]);
      JoinNonEmpty(ws[1..]);
      var r := w + " " + tail;
      assert r == JoinSpace(ws);
      forall i | 0 <= i < |r| - 1 ensures !(IsSpace(r[i]) && IsSpace(r[i + 1])) {
        if i < |w| - 1 { assert r[i] == w[i]; }
        else if i == |w| - 1 { assert r[i + 1] == ' ' && r[i] == w[i]; }
        else if i == |w| { assert r[i + 1] == tail[0]; }
        else { assert r[i] == tail[i - |w| - 1] && r[i + 1] == tail[i - |w|]; }
      }
      forall i | 0 <= i < |r| ensures IsSpace(r[i]) ==> r[i] == ' ' {
        if i < |w| { assert r[i] == w[i]; }
        else if i > |w| { assert r[i] == tail[i - |w| - 1]; }
      }
      assert r[|r| - 1] == tail[|tail| - 1];
    }
  }

  lemma {:induction false} JoinNonEmpty(ws: seq<string>)
    requires WellFormedWords(ws) && ws != []
    ensures JoinSpace(ws) != []
    ensures JoinSpace(ws)[0] == ws[0][0]
    decreases |ws|
  {
    if |ws| > 1 {
      assert (ws[0] + " " + JoinSpace(ws[1..]))[0] == ws[0][0];
    }
  }

  // ---------------------------------------------------------------- case

  /** `lower()` restricted to ASCII letters. */
  function LowerChar(c: char): char
  {
    if 'A' <= c <= 'Z' then (c as int + 32) as char else c
  }

  function Lower(s: string): (r: string)
    ensures |r| == |s|
  {
    seq(|s|, i requires 0 <= i < |s| => LowerChar(s[i]))
  }

  // ---------------------------------------------------------------- search

  /** `p` occurs in `s` starting at index `i`. */
  predicate OccursAt(s: string, p: string, i: int)
  {
    0 <= i <= |s| - |p| && s[i..i + |p|] == p
  }

  /** Python `p in s`. */
  predicate Contains(s: string, p: string)
  {
    exists i :: 0 <= i <= |s| - |p| && OccursAt(s, p, i)
  }

  /** Python `s.startswith(p)`. */
  predicate StartsWith(s: string, p: string)
  {
    |p| <= |s| && s[..|p|] == p
  }

  /** Python `s.endswith(p)`. */
  predicate EndsWith(s: string, p: string)
  {
    |p| <= |s| && s[|s| - |p|..] == p
  }

  /** Python `s.find(c, start)` for a one-character needle: -1 when absent. */
  function Find(s: string, c: char, start: nat): (r: int)
    ensures r == -1 || (start <= r < |s| && s[r] == c)
    ensures r == -1 ==> forall i :: start <= i < |s| ==> s[i] != c
    ensures r != -1 ==> forall i :: start <= i < r ==> s[i] != c
    decreases |s| - start
  {
    if start >= |s| then -1 else if s[start] == c then start else Find(s, c, start + 1)
  }

  /** Python `s.rfind(c, 0, end)` for a one-character needle: -1 when absent. */
  function RFind(s: string, c: char, end: nat): (r: int)
    requires end <= |s|
    ensures r == -1 || (0 <= r < end && s[r] == c)
    ensures r == -1 ==> forall i :: 0 <= i < end ==> s[i] != c
    ensures r != -1 ==> forall i :: r < i < end ==> s[i] != c
  {
    if end == 0 then -1 else if s[end - 1] == c then end - 1 else RFind(s, c, end - 1)
  }

  // ---------------------------------------------------------------- numbers

  /** Python `int(x)` of a float: truncation toward zero. */
  function Trunc(x: real): int
  {
    if x >= 0.0 then x.Floor else -((-x).Floor)
  }

  function MinInt(a: int, b: int): int { if a <= b then a else b }
  function MaxInt(a: int, b: int): int { if a >= b then a else b }
  function MinReal(a: real, b: real): real { if a <= b then a else b }
  function MaxReal(a: real, b: real): real { if a >= b then a else b }
  function AbsReal(a: real): real { if a >= 0.0 then a else -a }

  /** `max(lo, min(hi, x))` */
  function ClampReal(x: real, lo: real, hi: real): real
  {
    MaxReal(lo, MinReal(hi, x))
  }
}
