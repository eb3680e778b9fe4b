/**
 * Fitting a region's text into its box and laying out the lines: the
 * font-size search from 72 down to 8 points with an optional two-line wrap,
 * and the horizontal and vertical placement of each line.  Text measurement
 * (PIL's `textbbox` for a font family at a size) is an oracle.
 */
module ComposeFit {
  import opened Wrappers
  import opened PyText

  /** Width and height of a rendered string's bounding box. */
  datatype Extent = Extent(w: int, h: int)

  /** `measure(text, family, size)`: the extent of `text` in the font `family` at `size` points. */
  type Measure = (string, string, int) -> Extent

  const MinFontSize := 8
  const MaxFontSize := 72

  /** The lines to draw, whether nothing fitted, and the font size used. */
  datatype Fitted = Fitted(lines: seq<string>, overflow: bool, size: int)

  /** Where the text is wrapped: the first space at or after the middle, else the last one before it; -1 for none. */
  function SplitIndex(text: string): (k: int)
    ensures k == -1 || (0 <= k < |text| && text[k] == ' ')
  {
    var mid := |text| / 2;
    var k := Find(text, ' ', mid);
    if k == -1 then RFind(text, ' ', mid) else k
  }

  /** The two lines around the split space. */
  function TwoLines(text: string, k: int): seq<string>
    requires 0 <= k < |text|
  {
    [text[..k], text[k + 1..]]
  }

  lemma TwoLinesRejoin(text: string, k: int)
    requires 0 <= k < |text| && text[k] == ' '
    ensures JoinSpace(TwoLines(text, k)) == text
  {
    assert text == text[..k] + [text[k]] + text[k + 1..];
  }

  /** The lines that fit at `size`, trying the whole text first and then the wrap. */
  function TryAt(text: string, bw: int, bh: int, family: string, size: int, measure: Measure): Option<seq<string>>
  {
    var e := measure(text, family, size);
    if e.w <= bw && e.h <= bh then Some([text])
    else if |Words(text)| > 1 && SplitIndex(text) > 0 then
      var lines := TwoLines(text, SplitIndex(text));
      var e1, e2 := measure(lines[0], family, size), measure(lines[1], family, size);
      if MaxInt(e1.w, e2.w) <= bw && e1.h + e2.h <= bh then Some(lines) else None
    else None
  }

  /** The search from `size` downward: the first size with a fit, or the minimum size flagged as overflow. */
  function AutoFitFrom(text: string, bw: int, bh: int, family: string, size: int, measure: Measure): Fitted
    decreases size
  {
    if size < MinFontSize then Fitted([text], true, MinFontSize)
    else
      match TryAt(text, bw, bh, family, size, measure)
      case Some(lines) => Fitted(lines, false, size)
      case None => AutoFitFrom(text, bw, bh, family, size - 1, measure)
  }

  /** `_fit_text`: a truthy fixed size is used as is, with no measuring and no overflow. */
  function FitSpec(text: string, bw: int, bh: int, fixed: Option<int>, family: string, measure: Measure): Fitted
  {
    if fixed.Some? && fixed.value != 0 then Fitted([text], false, fixed.value)
    else AutoFitFrom(text, bw, bh, family, MaxFontSize, measure)
  }

  /** Whether `lines` fit the box at `size`: every line within the width, their heights summed within the height. */
  predicate LinesFit(lines: seq<string>, bw: int, bh: int, family: string, size: int, measure: Measure)
  {
    (forall k :: 0 <= k < |lines| ==> measure(lines[k], family, size).w <= bw)
    && SumTo(Heights(lines, family, size, measure), |lines|) <= bh
  }

  /** What `TryAt` answers is a one- or two-line arrangement of the text that fits. */
  lemma TryAtFits(text: string, bw: int, bh: int, family: string, size: int, measure: Measure)
    requires TryAt(text, bw, bh, family, size, measure).Some?
    ensures var lines := TryAt(text, bw, bh, family, size, measure).value;
      LinesFit(lines, bw, bh, family, size, measure) && JoinSpace(lines) == text && 1 <= |lines| <= 2
  {
    var lines := TryAt(text, bw, bh, family, size, measure).value;
    var hs := Heights(lines, family, size, measure);
    if |lines| == 2 {
      TwoLinesRejoin(text, SplitIndex(text));
      assert SumTo(hs, 1) == hs[0];
      assert SumTo(hs, 2) == hs[0] + hs[1];
    } else {
      assert SumTo(hs, 1) == hs[0];
    }
  }

  /**
   * The automatic search picks the largest size from `start` down to 8 at
   * which the text fits; when none fits it reports overflow at the minimum
   * size with the text on one line.
   */
  lemma {:induction false} AutoFitLargest(text: string, bw: int, bh: int, family: string, start: int, measure: Measure)
    ensures var r := AutoFitFrom(text, bw, bh, family, start, measure);
      (!r.overflow ==> (MinFontSize <= r.size <= start && TryAt(text, bw, bh, family, r.size, measure) == Some(r.lines)
                        && forall s :: r.size < s <= start ==> TryAt(text, bw, bh, family, s, measure).None?))
      && (r.overflow ==> (r == Fitted([text], true, MinFontSize)
                          && forall s :: MinFontSize <= s <= start ==> TryAt(text, bw, bh, family, s, measure).None?))
    decreases start
  {
    if start >= MinFontSize && TryAt(text, bw, bh, family, start, measure).None? {
      AutoFitLargest(text, bw, bh, family, start - 1, measure);
    }
  }

  /**
   * Whatever `_fit_text` returns is the text itself on one line or wrapped
   * at one space onto two, so no character is lost; and unless a fixed size
   * was asked for or overflow is reported, the lines fit the box.
   */
  lemma FitSpecLines(text: string, bw: int, bh: int, fixed: Option<int>, family: string, measure: Measure)
    ensures var r := FitSpec(text, bw, bh, fixed, family, measure);
      1 <= |r.lines| <= 2 && JoinSpace(r.lines) == text
      && (r.overflow ==> r.lines == [text] && r.size == MinFontSize)
      && (!(fixed.Some? && fixed.value != 0) && !r.overflow ==> LinesFit(r.lines, bw, bh, family, r.size, measure))
  {
    if !(fixed.Some? && fixed.value != 0) {
      AutoFitLargest(text, bw, bh, family, MaxFontSize, measure);
      var r := AutoFitFrom(text, bw, bh, family, MaxFontSize, measure);
      if !r.overflow {
        TryAtFits(text, bw, bh, family, r.size, measure);
      }
    }
  }

  /** `_fit_text` as written: the size loop with its early returns. */
  method FitText(text: string, bw: int, bh: int, fixed: Option<int>, family: string, measure: Measure) returns (r: Fitted)
    ensures r == FitSpec(text, bw, bh, fixed, family, measure)
  {
    if fixed.Some? && fixed.value != 0 {
      return Fitted([text], false, fixed.value);
    }
    var size := MaxFontSize;
    while size >= MinFontSize
      invariant MinFontSize - 1 <= size <= MaxFontSize
      invariant AutoFitFrom(text, bw, bh, family, MaxFontSize, measure) == AutoFitFrom(text, bw, bh, family, size, measure)
    {
      var e := measure(text, family, size);
      if e.w <= bw && e.h <= bh {
        return Fitted([text], false, size);
      }
      if |Words(text)| > 1 {
        var k := Find(text, ' ', |text| / 2);
        if k == -1 {
          k := RFind(text, ' ', |text| / 2);
        }
        if k > 0 {
          var line1, line2 := text[..k], text[k + 1..];
          var e1, e2 := measure(line1, family, size), measure(line2, family, size);
          if MaxInt(e1.w, e2.w) <= bw && e1.h + e2.h <= bh {
            return Fitted([line1, line2], false, size);
          }
        }
      }
      size := size - 1;
    }
    return Fitted([text], true, MinFontSize);
  }

  // ---------------------------------------------------------------- layout

  function Heights(lines: seq<string>, family: string, size: int, measure: Measure): (hs: seq<int>)
    ensures |hs| == |lines|
  {
    seq(|lines|, k requires 0 <= k < |lines| => measure(lines[k], family, size).h)
  }

  /** `hs[0] + ... + hs[n - 1]` */
  function SumTo(hs: seq<int>, n: nat): int
    requires n <= |hs|
  {
    if n == 0 then 0 else SumTo(hs, n - 1) + hs[n - 1]
  }

  const Padding := 2

  /** The left edge of a line of width `w` in the box `[x1, x2]` for the alignment `align`. */
  function LineX(align: string, x1: int, x2: int, w: int): int
  {
    if align == "left" then x1 + Padding
    else if align == "right" then x2 - w - Padding
    else x1 + (x2 - x1 - w) / 2
  }

  /** Where the first line starts: the block of lines centred vertically, rounding down. */
  function TopY(y1: int, y2: int, total: int): int
  {
    y1 + (y2 - y1 - total) / 2
  }

  /** One `draw.text` call. */
  datatype Stroke = Stroke(x: int, y: int, line: string)

  /** The calls that draw `lines`, in order, each line below the previous one. */
  function Strokes(lines: seq<string>, x1: int, y1: int, x2: int, y2: int, align: string, family: string, size: int, measure: Measure): (ds: seq<Stroke>)
    ensures |ds| == |lines|
  {
    var hs := Heights(lines, family, size, measure);
    var top := TopY(y1, y2, SumTo(hs, |lines|));
    seq(|lines|, k requires 0 <= k < |lines| =>
      Stroke(LineX(align, x1, x2, measure(lines[k], family, size).w), top + SumTo(hs, k), lines[k]))
  }

  /** The block of lines is centred vertically: the space below it exceeds the space above by 0 or 1. */
  lemma VerticalCentring(y1: int, y2: int, total: int)
    ensures var top := TopY(y1, y2, total) - y1; var bottom := y2 - (TopY(y1, y2, total) + total);
      top <= bottom <= top + 1
  {
  }

  /** Lines follow each other without gaps or overlaps, and the block ends `total` below its top. */
  lemma StrokesStack(lines: seq<string>, x1: int, y1: int, x2: int, y2: int, align: string, family: string, size: int, measure: Measure)
    ensures var ds := Strokes(lines, x1, y1, x2, y2, align, family, size, measure);
      var hs := Heights(lines, family, size, measure);
      (forall k :: 0 <= k < |ds| - 1 ==> ds[k + 1].y == ds[k].y + hs[k])
      && (|ds| > 0 ==> ds[|ds| - 1].y + hs[|ds| - 1] == TopY(y1, y2, SumTo(hs, |lines|)) + SumTo(hs, |lines|))
      && (forall k :: 0 <= k < |ds| ==> ds[k].line == lines[k])
  {
    var hs := Heights(lines, family, size, measure);
    forall k | 0 <= k < |lines| ensures SumTo(hs, k + 1) == SumTo(hs, k) + hs[k] {
    }
  }

  /** Left- and right-aligned lines keep the padding to their edge; centred lines are centred to within one pixel. */
  lemma LineXAlignment(align: string, x1: int, x2: int, w: int)
    ensures align == "left" ==> LineX(align, x1, x2, w) - x1 == Padding
    ensures align == "right" ==> x2 - (LineX(align, x1, x2, w) + w) == Padding
    ensures align != "left" && align != "right" ==>
      var left := LineX(align, x1, x2, w) - x1; var right := x2 - (LineX(align, x1, x2, w) + w);
      left <= right <= left + 1
  {
  }

  /** The drawing loop of `compose_page`: each line at its aligned x, then y advances by its height. */
  method DrawLines(lines: seq<string>, x1: int, y1: int, x2: int, y2: int, align: string, family: string, size: int, measure: Measure)
    returns (ds: seq<Stroke>)
    ensures ds == Strokes(lines, x1, y1, x2, y2, align, family, size, measure)
  {
    ghost var hs := Heights(lines, family, size, measure);
    var lineHeights := [];
    var total := 0;
    for i := 0 to |lines|
      invariant lineHeights == hs[..i] && total == SumTo(hs, i)
    {
      var h := measure(lines[i], family, size).h;
      lineHeights := lineHeights + [h];
      total := total + h;
    }
    assert lineHeights == hs;
    var y := y1 + (y2 - y1 - total) / 2;
    ghost var top := y;
    ds := [];
    for i := 0 to |lines|
      invariant |ds| == i && y == top + SumTo(hs, i)
      invariant ds == Strokes(lines, x1, y1, x2, y2, align, family, size, measure)[..i]
    {
      var w := measure(lines[i], family, size).w;
      var x;
      if align == "left" {
        x := x1 + Padding;
      } else if align == "right" {
        x := x2 - w - Padding;
      } else {
        x := x1 + (x2 - x1 - w) / 2;
      }
      ds := ds + [Stroke(x, y, lines[i])];
      y := y + lineHeights[i];
    }
    assert ds == Strokes(lines, x1, y1, x2, y2, align, family, size, measure)[..|lines|];
  }
}
