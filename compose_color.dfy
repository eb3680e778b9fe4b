/**
 * Colours for the composer: luminance, the contrast text colour, `#rrggbb`
 * parsing, the page image as a grid of pixels, the rectangle fill and the
 * background estimate from the frame around a box.
 */
module ComposeColor {
  import opened Wrappers
  import opened PyText
  import opened Models
  import Seqs

  datatype Rgb = Rgb(r: int, g: int, b: int)

  const White := Rgb(255, 255, 255)
  const Black := Rgb(0, 0, 0)

  predicate ValidColor(c: Rgb)
  {
    0 <= c.r <= 255 && 0 <= c.g <= 255 && 0 <= c.b <= 255
  }

  /** `0.299 * R + 0.587 * G + 0.114 * B` */
  function Luminance(c: Rgb): real
  {
    0.299 * c.r as real + 0.587 * c.g as real + 0.114 * c.b as real
  }

  /** The luminance coefficients are exact decimals, so a threshold test is an integer inequality. */
  lemma LuminanceAbove(c: Rgb, t: int)
    ensures Luminance(c) > t as real <==> 299 * c.r + 587 * c.g + 114 * c.b > 1000 * t
  {
    assert Luminance(c) * 1000.0 == (299 * c.r + 587 * c.g + 114 * c.b) as real;
  }

  /** `_get_text_color`: black on a light background, white otherwise. */
  function TextColor(bg: Rgb): Rgb
  {
    if Luminance(bg) > 128.0 then Black else White
  }

  /** The text is black exactly when `299 R + 587 G + 114 B > 128000`, and white otherwise. */
  lemma TextColorRule(bg: Rgb)
    ensures TextColor(bg) == Black <==> 299 * bg.r + 587 * bg.g + 114 * bg.b > 128000
    ensures TextColor(bg) != Black ==> TextColor(bg) == White
  {
    LuminanceAbove(bg, 128);
  }

  // ---------------------------------------------------------------- `#rrggbb`

  function HexDigit(c: char): Option<int>
  {
    if '0' <= c <= '9' then Some(c as int - '0' as int)
    else if 'a' <= c <= 'f' then Some(c as int - 'a' as int + 10)
    else if 'A' <= c <= 'F' then Some(c as int - 'A' as int + 10)
    else None
  }

  /**
   * The whitespace `int()` skips around its digits: the ASCII characters
   * `\t`, `\n`, `\v`, `\f`, `\r` and space, and every non-ASCII character
   * `str.isspace` accepts (U+001C..U+001F are spaces to `str.isspace` but
   * not to `int()`).
   */
  predicate IntSpace(c: char)
  {
    if c as int < 127 then c == ' ' || '\t' <= c <= '\r' else IsSpace(c)
  }

  /**
   * `int(p, 16)` for the one- or two-character slices the composer takes:
   * one digit, two digits, a digit after a sign, or a digit with whitespace
   * before or after it; anything else raises.
   */
  function HexValue(p: string): Option<int>
  {
    if |p| == 1 then HexDigit(p[0])
    else if |p| != 2 then None
    else if HexDigit(p[0]).Some? && HexDigit(p[1]).Some? then Some(HexDigit(p[0]).value * 16 + HexDigit(p[1]).value)
    else if HexDigit(p[1]).Some? && (p[0] == '+' || IntSpace(p[0])) then HexDigit(p[1])
    else if HexDigit(p[1]).Some? && p[0] == '-' then Some(-HexDigit(p[1]).value)
    else if HexDigit(p[0]).Some? && IntSpace(p[1]) then HexDigit(p[0])
    else None
  }

  /**
   * The pairs `int(p, 16)` reads besides two digits: a sign or whitespace
   * before a digit, whitespace after one; a prefix, a separator, a lone
   * sign or blank, and the empty slice raise.
   */
  lemma HexValueForms()
    ensures HexValue("ff") == Some(255) && HexValue("0A") == Some(10)
    ensures HexValue("+f") == Some(15) && HexValue("-f") == Some(-15)
    ensures HexValue(" f") == Some(15) && HexValue("f ") == Some(15) && HexValue("\tf") == Some(15)
    ensures HexValue("\U{3000}" + "f") == Some(15)
    ensures HexValue("\U{1C}" + "f") == None
    ensures HexValue("0x") == None && HexValue("_f") == None && HexValue("f_") == None
    ensures HexValue("+") == None && HexValue(" ") == None && HexValue("  ") == None && HexValue("") == None
    ensures HexValue("zz") == None && HexValue("fff") == None
  {
    assert IsSpace('\U{3000}');
  }

  /** `s.lstrip(c)` */
  function LStripChar(s: string, c: char): (r: string)
    ensures |r| <= |s| && r == s[|s| - |r|..]
    ensures r != [] ==> r[0] != c
    decreases |s|
  {
    if s != [] && s[0] == c then LStripChar(s[1..], c) else s
  }

  /** `h[i:i + 2]` with Python's clamping of slice bounds. */
  function Pair(h: string, i: nat): string
  {
    h[MinInt(i, |h|)..MinInt(i + 2, |h|)]
  }

  /** `tuple(int(h[i:i+2], 16) for i in (0, 2, 4))` with `h = s.lstrip('#')`; `None` where Python raises. */
  function ParseHexColor(s: string): Option<Rgb>
  {
    var h := LStripChar(s, '#');
    var r, g, b := HexValue(Pair(h, 0)), HexValue(Pair(h, 2)), HexValue(Pair(h, 4));
    if r.Some? && g.Some? && b.Some? then Some(Rgb(r.value, g.value, b.value)) else None
  }

  function HexChar(d: int): char
    requires 0 <= d < 16
  {
    if d < 10 then (d + '0' as int) as char else (d - 10 + 'a' as int) as char
  }

  /** Two lower-case hex digits of a channel. */
  function HexByte(v: int): string
    requires 0 <= v < 256
  {
    [HexChar(v / 16), HexChar(v % 16)]
  }

  /** The `#rrggbb` spelling of a colour. */
  function FormatHexColor(c: Rgb): string
    requires ValidColor(c)
  {
    "#" + HexByte(c.r) + HexByte(c.g) + HexByte(c.b)
  }

  lemma HexCharDigit(d: int)
    requires 0 <= d < 16
    ensures HexDigit(HexChar(d)) == Some(d) && HexChar(d) != '#'
  {
  }

  lemma HexByteValue(v: int)
    requires 0 <= v < 256
    ensures HexValue(HexByte(v)) == Some(v) && HexByte(v)[0] != '#'
  {
    HexCharDigit(v / 16);
    HexCharDigit(v % 16);
  }

  lemma ParseSixDigits(r: string, g: string, b: string)
    requires |r| == |g| == |b| == 2 && r[0] != '#'
    ensures ParseHexColor("#" + r + g + b) ==
      (if HexValue(r).Some? && HexValue(g).Some? && HexValue(b).Some?
       then Some(Rgb(HexValue(r).value, HexValue(g).value, HexValue(b).value)) else None)
  {
    var s := "#" + r + g + b;
    var h := r + g + b;
    assert s[1..] == h;
    assert LStripChar(s, '#') == LStripChar(h, '#') == h;
    assert Pair(h, 0) == r;
    assert Pair(h, 2) == g;
    assert Pair(h, 4) == b;
  }

  /** A colour whose pairs carry signs paints what Python reads from it, a negative channel included. */
  lemma ParseSigned()
    ensures ParseHexColor("#+f+f+f") == Some(Rgb(15, 15, 15))
    ensures ParseHexColor("#-f0000") == Some(Rgb(-15, 0, 0))
  {
    var a, c, z := "+f", "-f", "00";
    assert HexValue(a) == Some(15);
    assert HexValue(c) == Some(-15) && HexValue(z) == Some(0);
    ParsePairs(a, a, a, 15, 15, 15);
    ParsePairs(c, z, z, -15, 0, 0);
    SignedSpelledOut(a, c, z);
  }

  lemma SignedSpelledOut(a: string, c: string, z: string)
    requires a == "+f" && c == "-f" && z == "00"
    ensures "#+f+f+f" == "#" + a + a + a && "#-f0000" == "#" + c + z + z
  {
    var t, u := "#" + a + a + a, "#" + c + z + z;
    assert |t| == 7 && t[0] == '#' && t[1] == '+' && t[2] == 'f' && t[3] == '+' && t[4] == 'f' && t[5] == '+' && t[6] == 'f';
    assert |u| == 7 && u[0] == '#' && u[1] == '-' && u[2] == 'f' && u[3] == '0' && u[4] == '0' && u[5] == '0' && u[6] == '0';
  }

  /** A colour whose pairs are padded with blanks paints what Python reads from it. */
  lemma ParsePadded()
    ensures ParseHexColor("# 1 2 3") == Some(Rgb(1, 2, 3))
  {
    var a, b, c := " 1", " 2", " 3";
    PaddedDigits();
    ParsePairs(a, b, c, 1, 2, 3);
    SpelledOut(a, b, c);
  }

  lemma PaddedDigits()
    ensures HexValue(" 1") == Some(1) && HexValue(" 2") == Some(2) && HexValue(" 3") == Some(3)
  {
    assert IntSpace(' ') && HexDigit(' ').None?;
  }

  lemma SpelledOut(a: string, b: string, c: string)
    requires a == " 1" && b == " 2" && c == " 3"
    ensures "# 1 2 3" == "#" + a + b + c
  {
    var t := "#" + a + b + c;
    assert |t| == 7 && t[0] == '#' && t[1] == ' ' && t[2] == '1' && t[3] == ' ' && t[4] == '2' && t[5] == ' ' && t[6] == '3';
  }

  lemma ParsePairs(r: string, g: string, b: string, vr: int, vg: int, vb: int)
    requires |r| == |g| == |b| == 2 && r[0] != '#'
    requires HexValue(r) == Some(vr) && HexValue(g) == Some(vg) && HexValue(b) == Some(vb)
    ensures ParseHexColor("#" + r + g + b) == Some(Rgb(vr, vg, vb))
  {
    ParseSixDigits(r, g, b);
  }

  /** Parsing the `#rrggbb` spelling of a colour gives the colour back. */
  lemma ParseFormatHexColor(c: Rgb)
    requires ValidColor(c)
    ensures ParseHexColor(FormatHexColor(c)) == Some(c)
  {
    HexByteValue(c.r);
    HexByteValue(c.g);
    HexByteValue(c.b);
    ParseSixDigits(HexByte(c.r), HexByte(c.g), HexByte(c.b));
  }

  /** The dataclass default `"#000000"` is black. */
  lemma DefaultTextColorIsBlack()
    ensures ParseHexColor("#000000") == Some(Black)
  {
    assert FormatHexColor(Black) == "#000000";
    ParseFormatHexColor(Black);
  }

  // ---------------------------------------------------------------- the image

  /** An RGB image: `height` rows of `width` pixels. */
  datatype Image = Image(width: nat, height: nat, px: seq<seq<Rgb>>)

  predicate WellFormed(img: Image)
  {
    |img.px| == img.height && forall y :: 0 <= y < |img.px| ==> |img.px[y]| == img.width
  }

  /** PIL `draw.rectangle([x0, y0, x1, y1], fill=c)`: both corners inclusive, clipped to the image. */
  function FillRect(img: Image, x0: int, y0: int, x1: int, y1: int, c: Rgb): (out: Image)
    requires WellFormed(img)
    ensures WellFormed(out) && out.width == img.width && out.height == img.height
  {
    Image(img.width, img.height,
      seq(img.height, y requires 0 <= y < img.height =>
        seq(img.width, x requires 0 <= x < img.width =>
          if x0 <= x <= x1 && y0 <= y <= y1 then c else img.px[y][x])))
  }

  /** The fill paints exactly the pixels of the rectangle and leaves every other pixel as it was. */
  lemma FillRectFootprint(img: Image, x0: int, y0: int, x1: int, y1: int, c: Rgb, y: nat, x: nat)
    requires WellFormed(img) && y < img.height && x < img.width
    ensures FillRect(img, x0, y0, x1, y1, c).px[y][x] == (if x0 <= x <= x1 && y0 <= y <= y1 then c else img.px[y][x])
  {
  }

  // ---------------------------------------------------------------- the frame

  /** A Python slice bound clamped to `[0, n]`, negative values counting from the end. */
  function PyIndex(i: int, n: nat): (k: nat)
    ensures k <= n
  {
    if i < 0 then (if n + i < 0 then 0 else n + i) else (if i < n then i else n)
  }

  /** The pixel coordinates `(y, x)` of rows `y0..y1-1` times columns `x0..x1-1`, row by row. */
  function Block(y0: int, y1: int, x0: int, x1: int): seq<(int, int)>
    decreases y1 - y0
  {
    if y1 <= y0 then []
    else Block(y0, y1 - 1, x0, x1) + seq(if x1 > x0 then x1 - x0 else 0, k => (y1 - 1, x0 + k))
  }

  lemma {:induction false} BlockMembers(y0: int, y1: int, x0: int, x1: int)
    ensures forall p :: p in Block(y0, y1, x0, x1) <==> y0 <= p.0 < y1 && x0 <= p.1 < x1
    decreases y1 - y0
  {
    if y1 > y0 {
      BlockMembers(y0, y1 - 1, x0, x1);
      var row := seq(if x1 > x0 then x1 - x0 else 0, k => (y1 - 1, x0 + k));
      forall p ensures p in row <==> p.0 == y1 - 1 && x0 <= p.1 < x1 {
        if p.0 == y1 - 1 && x0 <= p.1 < x1 {
          assert row[p.1 - x0] == p;
        }
      }
    }
  }

  /** `img_array[a:b, c:d].reshape(-1, 3)` as coordinates. */
  function Slice2(a: int, b: int, c: int, d: int, w: nat, h: nat): seq<(int, int)>
  {
    Block(PyIndex(a, h), PyIndex(b, h), PyIndex(c, w), PyIndex(d, w))
  }

  /** The four strips `_estimate_background_color` reads: top, bottom, left, right, in that order. */
  function Frame(w: nat, h: nat, x1: int, y1: int, x2: int, y2: int, margin: int): seq<(int, int)>
  {
    var x1o, y1o := MaxInt(0, x1 - margin), MaxInt(0, y1 - margin);
    var x2o, y2o := MinInt(w, x2 + margin), MinInt(h, y2 + margin);
    (if y1o < y1 then Slice2(y1o, y1, x1o, x2o, w, h) else [])
    + (if y2 < y2o then Slice2(y2, y2o, x1o, x2o, w, h) else [])
    + (if x1o < x1 then Slice2(y1, y2, x1o, x1, w, h) else [])
    + (if x2 < x2o then Slice2(y1, y2, x2, x2o, w, h) else [])
  }

  lemma SliceInImage(a: int, b: int, c: int, d: int, w: nat, h: nat)
    ensures forall p :: p in Slice2(a, b, c, d, w, h) ==> 0 <= p.0 < h && 0 <= p.1 < w
  {
    BlockMembers(PyIndex(a, h), PyIndex(b, h), PyIndex(c, w), PyIndex(d, w));
  }

  /** Whatever the box, every sampled coordinate lies inside the image. */
  lemma FrameInImage(w: nat, h: nat, x1: int, y1: int, x2: int, y2: int, margin: int)
    ensures forall p :: p in Frame(w, h, x1, y1, x2, y2, margin) ==> 0 <= p.0 < h && 0 <= p.1 < w
  {
    var x1o, y1o := MaxInt(0, x1 - margin), MaxInt(0, y1 - margin);
    var x2o, y2o := MinInt(w, x2 + margin), MinInt(h, y2 + margin);
    SliceInImage(y1o, y1, x1o, x2o, w, h);
    SliceInImage(y2, y2o, x1o, x2o, w, h);
    SliceInImage(y1, y2, x1o, x1, w, h);
    SliceInImage(y1, y2, x2, x2o, w, h);
  }

  /**
   * For a box inside the image the strips cover exactly the margin frame:
   * a pixel is sampled iff it lies in the box grown by `margin` (clipped to
   * the image) and not in the box itself.
   */
  lemma FrameExact(w: nat, h: nat, x1: int, y1: int, x2: int, y2: int, margin: int)
    requires 0 <= x1 <= x2 <= w && 0 <= y1 <= y2 <= h && margin >= 0
    ensures forall p :: p in Frame(w, h, x1, y1, x2, y2, margin) <==>
      (MaxInt(0, y1 - margin) <= p.0 < MinInt(h, y2 + margin) && MaxInt(0, x1 - margin) <= p.1 < MinInt(w, x2 + margin)
       && !(y1 <= p.0 < y2 && x1 <= p.1 < x2))
  {
    var x1o, y1o := MaxInt(0, x1 - margin), MaxInt(0, y1 - margin);
    var x2o, y2o := MinInt(w, x2 + margin), MinInt(h, y2 + margin);
    var top: seq<(int, int)> := if y1o < y1 then Slice2(y1o, y1, x1o, x2o, w, h) else [];
    var bottom: seq<(int, int)> := if y2 < y2o then Slice2(y2, y2o, x1o, x2o, w, h) else [];
    var left: seq<(int, int)> := if x1o < x1 then Slice2(y1, y2, x1o, x1, w, h) else [];
    var right: seq<(int, int)> := if x2 < x2o then Slice2(y1, y2, x2, x2o, w, h) else [];
    assert Frame(w, h, x1, y1, x2, y2, margin) == top + bottom + left + right;
    StripMembers(y1o, y1, x1o, x2o, w, h);
    StripMembers(y2, y2o, x1o, x2o, w, h);
    StripMembers(y1, y2, x1o, x1, w, h);
    StripMembers(y1, y2, x2, x2o, w, h);
    forall p: (int, int)
      ensures p in top + bottom + left + right <==>
        (y1o <= p.0 < y2o && x1o <= p.1 < x2o && !(y1 <= p.0 < y2 && x1 <= p.1 < x2))
    {
      assert p in top + bottom + left + right <==> p in top || p in bottom || p in left || p in right;
    }
  }

  /** A strip whose bounds lie inside the image holds exactly the pixels between them. */
  lemma StripMembers(a: int, b: int, c: int, d: int, w: nat, h: nat)
    requires 0 <= a <= h && 0 <= b <= h && 0 <= c <= w && 0 <= d <= w
    ensures forall p :: p in Slice2(a, b, c, d, w, h) <==> a <= p.0 < b && c <= p.1 < d
  {
    assert PyIndex(a, h) == a && PyIndex(b, h) == b && PyIndex(c, w) == c && PyIndex(d, w) == d;
    BlockMembers(a, b, c, d);
  }

  // ---------------------------------------------------------------- median

  predicate SortedInts(s: seq<int>)
  {
    forall i, j :: 0 <= i < j < |s| ==> s[i] <= s[j]
  }

  function InsertInt(x: int, s: seq<int>): seq<int>
    decreases |s|
  {
    if s == [] then [x] else if x <= s[0] then [x] + s else [s[0]] + InsertInt(x, s[1..])
  }

  function SortInts(s: seq<int>): seq<int>
    decreases |s|
  {
    if s == [] then [] else InsertInt(s[0], SortInts(s[1..]))
  }

  lemma {:induction false} InsertIntSorted(x: int, s: seq<int>)
    requires SortedInts(s)
    ensures |InsertInt(x, s)| == |s| + 1
    ensures SortedInts(InsertInt(x, s))
    ensures InsertInt(x, s)[0] == x || (s != [] && InsertInt(x, s)[0] == s[0])
    decreases |s|
  {
    if s == [] {
    } else if x <= s[0] {
      ConsSorted(x, s);
    } else {
      SortedTail(s);
      InsertIntSorted(x, s[1..]);
      ConsSorted(s[0], InsertInt(x, s[1..]));
    }
  }

  lemma {:induction false} InsertIntPermutes(x: int, s: seq<int>)
    ensures multiset(InsertInt(x, s)) == multiset(s) + multiset{x}
    decreases |s|
  {
    if s != [] && x > s[0] {
      InsertIntPermutes(x, s[1..]);
      assert s == [s[0]] + s[1..];
    }
  }

  lemma SortedTail(s: seq<int>)
    requires SortedInts(s) && s != []
    ensures SortedInts(s[1..])
  {
    forall i, j | 0 <= i < j < |s| - 1 ensures s[1..][i] <= s[1..][j] {
      assert s[1..][i] == s[i + 1] && s[1..][j] == s[j + 1];
    }
  }

  lemma ConsSorted(a: int, r: seq<int>)
    requires SortedInts(r) && (r != [] ==> a <= r[0])
    ensures SortedInts([a] + r)
  {
    var t := [a] + r;
    forall i, j | 0 <= i < j < |t| ensures t[i] <= t[j] {
      if i > 0 {
        assert t[i] == r[i - 1] && t[j] == r[j - 1];
      } else {
        assert t[j] == r[j - 1] && r[0] <= r[j - 1];
      }
    }
  }

  /** Sorting gives an ascending permutation. */
  lemma SortIntsCorrect(s: seq<int>)
    ensures SortedInts(SortInts(s)) && multiset(SortInts(s)) == multiset(s)
  {
    SortIntsSorted(s);
    SortIntsPermutes(s);
  }

  lemma {:induction false} SortIntsSorted(s: seq<int>)
    ensures SortedInts(SortInts(s))
    decreases |s|
  {
    if s != [] {
      SortIntsSorted(s[1..]);
      InsertIntSorted(s[0], SortInts(s[1..]));
    }
  }

  lemma {:induction false} SortIntsPermutes(s: seq<int>)
    ensures multiset(SortInts(s)) == multiset(s)
    decreases |s|
  {
    if s != [] {
      SortIntsPermutes(s[1..]);
      InsertIntPermutes(s[0], SortInts(s[1..]));
      assert s == [s[0]] + s[1..];
    }
  }

  /** `int(np.median(s))`: the middle of the sorted values, or the truncated mean of the two middle ones. */
  function Median(s: seq<int>): int
    requires s != []
  {
    SortIntsCorrect(s);
    var t := SortInts(s);
    var n := |t|;
    if n % 2 == 1 then t[n / 2] else Trunc((t[n / 2 - 1] + t[n / 2]) as real / 2.0)
  }

  lemma TruncBetween(v: real, lo: int, hi: int)
    requires lo as real <= v <= hi as real
    ensures lo <= Trunc(v) <= hi
  {
    if v < 0.0 {
      assert (-v).Floor as real <= -v < (-v).Floor as real + 1.0;
    }
  }

  /** The median lies between any bounds of the values. */
  lemma MedianBounds(s: seq<int>, lo: int, hi: int)
    requires s != [] && forall i :: 0 <= i < |s| ==> lo <= s[i] <= hi
    ensures lo <= Median(s) <= hi
  {
    SortIntsCorrect(s);
    var t := SortInts(s);
    forall i | 0 <= i < |t| ensures lo <= t[i] <= hi {
      assert t[i] in multiset(s);
    }
    var n := |t|;
    if n % 2 == 0 {
      TruncBetween((t[n / 2 - 1] + t[n / 2]) as real / 2.0, lo, hi);
    }
  }

  // ---------------------------------------------------------------- background estimate

  /** `luminance > 200` */
  predicate IsLight(c: Rgb)
  {
    Luminance(c) > 200.0
  }

  function Pixels(img: Image, coords: seq<(int, int)>): (ps: seq<Rgb>)
    requires WellFormed(img) && forall p :: p in coords ==> 0 <= p.0 < img.height && 0 <= p.1 < img.width
    ensures |ps| == |coords|
  {
    seq(|coords|, k requires 0 <= k < |coords| => img.px[coords[k].0][coords[k].1])
  }

  function Reds(ps: seq<Rgb>): seq<int> { seq(|ps|, k requires 0 <= k < |ps| => ps[k].r) }
  function Greens(ps: seq<Rgb>): seq<int> { seq(|ps|, k requires 0 <= k < |ps| => ps[k].g) }
  function Blues(ps: seq<Rgb>): seq<int> { seq(|ps|, k requires 0 <= k < |ps| => ps[k].b) }

  /** The frame pixels of a box, with the box corners truncated to ints. */
  function FramePixels(img: Image, bbox: Box, margin: int): seq<Rgb>
    requires WellFormed(img)
  {
    FrameInImage(img.width, img.height, Trunc(bbox.x1), Trunc(bbox.y1), Trunc(bbox.x2), Trunc(bbox.y2), margin);
    Pixels(img, Frame(img.width, img.height, Trunc(bbox.x1), Trunc(bbox.y1), Trunc(bbox.x2), Trunc(bbox.y2), margin))
  }

  const DefaultMargin := 5

  /**
   * `_estimate_background_color`: the per-channel median of the light frame
   * pixels, or white when the frame is empty or has no light pixel.
   */
  function EstimateBackground(img: Image, bbox: Box, margin: int): Rgb
    requires WellFormed(img)
  {
    var pixels := FramePixels(img, bbox, margin);
    if pixels == [] then White
    else
      var light := Seqs.Select(pixels, IsLight);
      if |light| > 0 then Rgb(Median(Reds(light)), Median(Greens(light)), Median(Blues(light)))
      else White
  }

  /** Without a light frame pixel the estimate is white. */
  lemma EstimateWithoutLight(img: Image, bbox: Box, margin: int)
    requires WellFormed(img)
    requires forall k :: 0 <= k < |FramePixels(img, bbox, margin)| ==> !IsLight(FramePixels(img, bbox, margin)[k])
    ensures EstimateBackground(img, bbox, margin) == White
  {
    Seqs.SelectNone(FramePixels(img, bbox, margin), IsLight);
  }

  /** On valid pixels the estimate is a valid colour. */
  lemma EstimateValid(img: Image, bbox: Box, margin: int)
    requires WellFormed(img)
    requires forall k :: 0 <= k < |FramePixels(img, bbox, margin)| ==> ValidColor(FramePixels(img, bbox, margin)[k])
    ensures ValidColor(EstimateBackground(img, bbox, margin))
  {
    var pixels := FramePixels(img, bbox, margin);
    var light := Seqs.Select(pixels, IsLight);
    Seqs.SelectMembers(pixels, IsLight);
    if pixels != [] && |light| > 0 {
      forall k | 0 <= k < |light| ensures ValidColor(light[k]) {
        assert light[k] in pixels;
      }
      MedianBounds(Reds(light), 0, 255);
      MedianBounds(Greens(light), 0, 255);
      MedianBounds(Blues(light), 0, 255);
    }
  }

  /** When every light frame pixel has the same colour `c`, and there is one, the estimate is `c`. */
  lemma EstimateUniform(img: Image, bbox: Box, margin: int, c: Rgb)
    requires WellFormed(img)
    requires exists k :: 0 <= k < |FramePixels(img, bbox, margin)| && IsLight(FramePixels(img, bbox, margin)[k])
    requires forall k :: 0 <= k < |FramePixels(img, bbox, margin)| && IsLight(FramePixels(img, bbox, margin)[k]) ==>
      FramePixels(img, bbox, margin)[k] == c
    ensures EstimateBackground(img, bbox, margin) == c
  {
    var pixels := FramePixels(img, bbox, margin);
    var light := Seqs.Select(pixels, IsLight);
    Seqs.SelectMembers(pixels, IsLight);
    var k :| 0 <= k < |pixels| && IsLight(pixels[k]);
    assert pixels[k] in light;
    forall i | 0 <= i < |light| ensures light[i] == c {
      assert light[i] in pixels;
    }
    MedianBounds(Reds(light), c.r, c.r);
    MedianBounds(Greens(light), c.g, c.g);
    MedianBounds(Blues(light), c.b, c.b);
  }

  /**
   * The estimate never looks inside the box: two images of the same size
   * that agree outside a box lying in the image give the same estimate.
   */
  lemma EstimateIgnoresInterior(img1: Image, img2: Image, bbox: Box, margin: int)
    requires WellFormed(img1) && WellFormed(img2) && img1.width == img2.width && img1.height == img2.height
    requires 0 <= Trunc(bbox.x1) <= Trunc(bbox.x2) <= img1.width && 0 <= Trunc(bbox.y1) <= Trunc(bbox.y2) <= img1.height
    requires margin >= 0
    requires forall y, x ::
      (0 <= y < img1.height && 0 <= x < img1.width
       && !(Trunc(bbox.y1) <= y < Trunc(bbox.y2) && Trunc(bbox.x1) <= x < Trunc(bbox.x2))) ==> img1.px[y][x] == img2.px[y][x]
    ensures EstimateBackground(img1, bbox, margin) == EstimateBackground(img2, bbox, margin)
  {
    var x1, y1, x2, y2 := Trunc(bbox.x1), Trunc(bbox.y1), Trunc(bbox.x2), Trunc(bbox.y2);
    var coords := Frame(img1.width, img1.height, x1, y1, x2, y2, margin);
    FrameExact(img1.width, img1.height, x1, y1, x2, y2, margin);
    FrameInImage(img1.width, img1.height, x1, y1, x2, y2, margin);
    assert FramePixels(img1, bbox, margin) == FramePixels(img2, bbox, margin) by {
      forall k | 0 <= k < |coords| ensures img1.px[coords[k].0][coords[k].1] == img2.px[coords[k].0][coords[k].1] {
        assert coords[k] in coords;
      }
    }
  }
}
