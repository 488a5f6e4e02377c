/**
 * The arithmetic of collision-aware glyph packing in WordRendererUtils,
 * stated on values: the blank margins of one pixel row, the per-row gap
 * between two neighbouring glyphs, the minimum over rows, and the x
 * position every glyph is drawn at. The imperative methods in
 * WordRenderer are proved against these definitions.
 *
 * A row is given by its ink mask: `ink[j]` holds when the pixel in column
 * j is not fully zero (all four ARGB samples 0 is transparent).
 */
module Layout {

  /** Integer.MAX_VALUE, the start value of `min`. */
  const IntMaxValue: int := 0x7fff_ffff

  /** One row of calculateBlankNum's result: [0] = left blank count, [1] = right blank count. */
  datatype Margin = Margin(left: int, right: int)

  // ---------------------------------------------------------------------
  // Row margins, as the left-to-right column scan leaves them
  // ---------------------------------------------------------------------

  /**
   * result[i][0] after scanning the columns of `ink`: starts at 0 and takes
   * the column of an ink pixel only while it is still 0. Because 0 also
   * means "unset", ink in column 0 never locks the value.
   */
  function LeftBlank(ink: seq<bool>): (r: int)
    ensures r == 0 || (0 < r < |ink| && ink[r])
  {
    if |ink| == 0 then 0
    else
      var v := LeftBlank(ink[..|ink| - 1]);
      if ink[|ink| - 1] && v == 0 then |ink| - 1 else v
  }

  /** result[i][1] after scanning the columns of `ink` in a row `width` wide. */
  function RightBlank(ink: seq<bool>, width: int): (r: int)
    ensures r == width || (0 <= width - 1 - r < |ink| && ink[width - 1 - r])
  {
    if |ink| == 0 then width
    else if ink[|ink| - 1] then width - |ink|
    else RightBlank(ink[..|ink| - 1], width)
  }

  /** The left blank count is the first ink column greater than 0, or 0 if there is none. */
  lemma {:induction false} LeftBlankIsFirstInkAfterColumnZero(ink: seq<bool>)
    ensures LeftBlank(ink) == 0 <==> forall j :: 0 < j < |ink| ==> !ink[j]
    ensures LeftBlank(ink) != 0 ==>
              0 < LeftBlank(ink) < |ink| && ink[LeftBlank(ink)] &&
              forall j :: 0 < j < LeftBlank(ink) ==> !ink[j]
  {
    if |ink| > 0 {
      var p := ink[..|ink| - 1];
      LeftBlankIsFirstInkAfterColumnZero(p);
      assert forall j :: 0 <= j < |p| ==> p[j] == ink[j];
    }
  }

  /** Ink in column 0 is invisible to the left blank count. */
  lemma {:induction false} LeftBlankIgnoresColumnZero(ink: seq<bool>)
    requires |ink| > 0
    ensures LeftBlank(ink) == LeftBlank(ink[0 := false])
  {
    var other := ink[0 := false];
    LeftBlankIsFirstInkAfterColumnZero(ink);
    LeftBlankIsFirstInkAfterColumnZero(other);
    assert forall j :: 0 < j < |ink| ==> other[j] == ink[j];
  }

  /**
   * A row with no ink keeps the right count at `width`; otherwise it is
   * `width - 1 - c` for the last ink column c.
   */
  lemma {:induction false} RightBlankIsAfterLastInk(ink: seq<bool>, width: int)
    ensures (forall j :: 0 <= j < |ink| ==> !ink[j]) ==> RightBlank(ink, width) == width
    ensures (exists j :: 0 <= j < |ink| && ink[j]) ==>
              var c := width - 1 - RightBlank(ink, width);
              0 <= c < |ink| && ink[c] && forall j :: c < j < |ink| ==> !ink[j]
  {
    if |ink| > 0 && !ink[|ink| - 1] {
      var p := ink[..|ink| - 1];
      RightBlankIsAfterLastInk(p, width);
      assert forall j :: 0 <= j < |p| ==> p[j] == ink[j];
      if exists j :: 0 <= j < |ink| && ink[j] {
        var j :| 0 <= j < |ink| && ink[j];
        assert p[j] == ink[j];
      }
    }
  }

  /** On a full row of width w the counts lie in range: left in [0, w), right in [0, w]. */
  lemma RowMarginBounds(ink: seq<bool>)
    ensures 0 <= LeftBlank(ink) && (|ink| > 0 ==> LeftBlank(ink) < |ink|)
    ensures 0 <= RightBlank(ink, |ink|) <= |ink|
    ensures (exists j :: 0 <= j < |ink| && ink[j]) ==> RightBlank(ink, |ink|) <= |ink| - 1
  {
    LeftBlankIsFirstInkAfterColumnZero(ink);
    RightBlankIsAfterLastInk(ink, |ink|);
  }

  /** The margins of one row of a glyph `width` columns wide. */
  function RowMargin(ink: seq<bool>, width: int): Margin
  {
    Margin(LeftBlank(ink), RightBlank(ink, width))
  }

  // ---------------------------------------------------------------------
  // Distance between two neighbouring glyphs
  // ---------------------------------------------------------------------

  /** The value of tempArray[i]: a right-hand left count of 0 is read as "no ink", replaced by the left width. */
  function RowGap(l: Margin, r: Margin, leftWidth: int): int
  {
    l.right + (if r.left == 0 then leftWidth else r.left)
  }

  /** tempArray: one gap per row of the left glyph; the right glyph must have as many rows. */
  function Gaps(lefts: seq<Margin>, rights: seq<Margin>, leftWidth: int): (g: seq<int>)
    requires |rights| >= |lefts|
    ensures |g| == |lefts|
  {
    seq(|lefts|, i requires 0 <= i < |lefts| => RowGap(lefts[i], rights[i], leftWidth))
  }

  /** `min`: Integer.MAX_VALUE lowered by every smaller element, scanning left to right. */
  function SeqMin(s: seq<int>): (m: int)
    ensures m <= IntMaxValue && forall k :: 0 <= k < |s| ==> m <= s[k]
  {
    if |s| == 0 then IntMaxValue
    else
      var m := SeqMin(s[..|s| - 1]);
      if s[|s| - 1] < m then s[|s| - 1] else m
  }

  /** `min` is a lower bound of every element and of MAX_VALUE, and is attained. */
  lemma {:induction false} SeqMinIsMinimum(s: seq<int>)
    ensures SeqMin(s) <= IntMaxValue
    ensures forall k :: 0 <= k < |s| ==> SeqMin(s) <= s[k]
    ensures SeqMin(s) == IntMaxValue || exists k :: 0 <= k < |s| && s[k] == SeqMin(s)
  {
    if |s| > 0 {
      var p := s[..|s| - 1];
      SeqMinIsMinimum(p);
      assert forall k :: 0 <= k < |p| ==> p[k] == s[k];
      if SeqMin(p) != IntMaxValue && SeqMin(s) == SeqMin(p) {
        var k :| 0 <= k < |p| && p[k] == SeqMin(p);
        assert s[k] == SeqMin(s);
      }
    }
  }

  /** When no element exceeds MAX_VALUE, a non-empty array's `min` is one of its elements. */
  lemma SeqMinAttained(s: seq<int>)
    requires |s| > 0
    requires forall k :: 0 <= k < |s| ==> s[k] <= IntMaxValue
    ensures exists k :: 0 <= k < |s| && s[k] == SeqMin(s)
  {
    SeqMinIsMinimum(s);
    if SeqMin(s) == IntMaxValue {
      assert s[0] >= SeqMin(s);
    }
  }

  /**
   * calculateDistanceBetweenChar2 on blank-count tables: MAX_VALUE lowered
   * by the gap of every row of the left glyph.
   */
  function PairDistance(lefts: seq<Margin>, rights: seq<Margin>, leftWidth: int): (d: int)
    requires |rights| >= |lefts|
    ensures d <= IntMaxValue && forall i :: 0 <= i < |lefts| ==> d <= RowGap(lefts[i], rights[i], leftWidth)
  {
    if |lefts| == 0 then IntMaxValue
    else
      var m := PairDistance(lefts[..|lefts| - 1], rights, leftWidth);
      var g := RowGap(lefts[|lefts| - 1], rights[|lefts| - 1], leftWidth);
      if g < m then g else m
  }

  /** The distance is the `min` of the tempArray the source fills. */
  lemma {:induction false} PairDistanceIsMinOfGaps(lefts: seq<Margin>, rights: seq<Margin>, leftWidth: int)
    requires |rights| >= |lefts|
    ensures PairDistance(lefts, rights, leftWidth) == SeqMin(Gaps(lefts, rights, leftWidth))
  {
    if |lefts| > 0 {
      var n := |lefts|;
      PairDistanceIsMinOfGaps(lefts[..n - 1], rights, leftWidth);
      assert Gaps(lefts, rights, leftWidth)[..n - 1] == Gaps(lefts[..n - 1], rights, leftWidth);
    }
  }

  /** The distance is no larger than any row's gap, and equals one of them when the left glyph has rows. */
  lemma PairDistanceIsTightestRow(lefts: seq<Margin>, rights: seq<Margin>, leftWidth: int)
    requires |rights| >= |lefts|
    ensures forall i :: 0 <= i < |lefts| ==> PairDistance(lefts, rights, leftWidth) <= RowGap(lefts[i], rights[i], leftWidth)
    ensures |lefts| == 0 ==> PairDistance(lefts, rights, leftWidth) == IntMaxValue
    ensures |lefts| > 0 && (forall i :: 0 <= i < |lefts| ==> RowGap(lefts[i], rights[i], leftWidth) <= IntMaxValue) ==>
              exists i :: 0 <= i < |lefts| && PairDistance(lefts, rights, leftWidth) == RowGap(lefts[i], rights[i], leftWidth)
  {
    var g := Gaps(lefts, rights, leftWidth);
    PairDistanceIsMinOfGaps(lefts, rights, leftWidth);
    SeqMinIsMinimum(g);
    if |lefts| > 0 && forall i :: 0 <= i < |lefts| ==> RowGap(lefts[i], rights[i], leftWidth) <= IntMaxValue {
      SeqMinAttained(g);
    }
  }

  /**
   * Margin tables of two glyphs given by their ink masks (one mask per row,
   * every row of the left glyph `leftWidth` wide).
   */
  function Margins(rows: seq<seq<bool>>, width: int): (m: seq<Margin>)
    ensures |m| == |rows|
  {
    seq(|rows|, i requires 0 <= i < |rows| => RowMargin(rows[i], width))
  }

  /**
   * What the distance measures: were the right glyph to start
   * `leftWidth - distance` columns after the left one, then on every row in
   * which the right glyph has no ink in column 0, each of its ink pixels
   * would lie strictly to the right of each ink pixel of the left glyph. (Ink
   * in column 0 is read as a blank row, so such rows get no guarantee.)
   * appendImages places the glyph 2 columns further left than this offset.
   */
  lemma NoCollisionAtDistance(left: seq<seq<bool>>, right: seq<seq<bool>>, leftWidth: int, i: int, a: int, b: int)
    requires |right| >= |left|
    requires forall r :: 0 <= r < |left| ==> |left[r]| == leftWidth
    requires 0 <= i < |left|
    requires 0 <= a < leftWidth && left[i][a]
    requires 0 <= b < |right[i]| && right[i][b] && !right[i][0]
    ensures a < leftWidth - PairDistance(Margins(left, leftWidth), Margins(right, leftWidth), leftWidth) + b
  {
    var lm, rm := Margins(left, leftWidth), Margins(right, leftWidth);
    PairDistanceIsTightestRow(lm, rm, leftWidth);
    RightBlankIsAfterLastInk(left[i], leftWidth);
    LeftBlankIsFirstInkAfterColumnZero(right[i]);
    assert lm[i] == RowMargin(left[i], leftWidth) && rm[i] == RowMargin(right[i], leftWidth);
    assert b > 0;
  }

  /**
   * appendImages places the right glyph two columns further left than the
   * offset above (the +2 is there to make the glyphs stick together). So on
   * every row in which the right glyph has no ink in column 0, its ink lands
   * at most one column left of the left glyph's ink.
   */
  lemma TightenedNeighboursOverlapByAtMostOne(left: seq<seq<bool>>, right: seq<seq<bool>>, leftWidth: int, i: int, a: int, b: int, xl: int)
    requires |right| >= |left|
    requires forall r :: 0 <= r < |left| ==> |left[r]| == leftWidth
    requires 0 <= i < |left|
    requires 0 <= a < leftWidth && left[i][a]
    requires 0 <= b < |right[i]| && right[i][b] && !right[i][0]
    ensures var d := PairDistance(Margins(left, leftWidth), Margins(right, leftWidth), leftWidth);
            xl + a <= (xl + leftWidth - (d + 2)) + b + 1
  {
    NoCollisionAtDistance(left, right, leftWidth, i, a, b);
  }

  /**
   * The overlap is real: a left row inked in all three columns and a right
   * row inked in its middle column are 1 apart, so the right glyph is drawn
   * at the left glyph's own x and its ink (column 1) lands left of the left
   * glyph's ink in column 2.
   */
  lemma TighteningOverlapsInk()
    ensures var left, right := [[true, true, true]], [[false, true, false]];
            var d := PairDistance(Margins(left, 3), Margins(right, 3), 3);
            d == 1 && GlyphX(0, [3, 3], [d], 1) == 0 && GlyphX(0, [3, 3], [d], 1) + 1 < GlyphX(0, [3, 3], [d], 0) + 2
  {
    var left, right := [[true, true, true]], [[false, true, false]];
    assert [false, true, false][..2] == [false, true] && [false, true][..1] == [false];
    assert LeftBlank([false, true]) == 1;
    assert LeftBlank([false, true, false]) == 1;
    assert RightBlank([true, true, true], 3) == 0;
    var lm, rm := Margins(left, 3), Margins(right, 3);
    assert lm[..0] == [];
  }

  /**
   * Ink only in column 0 of the right glyph is taken for a blank row: with
   * the left glyph inked in both of its 2 columns, the distance is the whole
   * left width, so the right glyph is drawn at x = -2 and its ink lands
   * three columns left of the left glyph's last ink, beyond the one-column
   * bound that holds for rows without column-0 ink.
   */
  lemma ColumnZeroInkMisplaced()
    ensures var left, right := [[true, true]], [[true, false]];
            var d := PairDistance(Margins(left, 2), Margins(right, 2), 2);
            d == 2 && GlyphX(0, [2, 2], [d], 1) == -2
            && GlyphX(0, [2, 2], [d], 1) + 0 + 3 == GlyphX(0, [2, 2], [d], 0) + 1
  {
    var left, right := [[true, true]], [[true, false]];
    assert LeftBlank([true, false]) == 0;
    assert RightBlank([true, true], 2) == 0;
    var lm, rm := Margins(left, 2), Margins(right, 2);
    assert lm[..0] == [];
  }

  // ---------------------------------------------------------------------
  // Placement of the glyphs on the canvas
  // ---------------------------------------------------------------------

  function Sum(s: seq<int>): int
  {
    if |s| == 0 then 0 else Sum(s[..|s| - 1]) + s[|s| - 1]
  }

  /**
   * The initial drawX of appendImages: n glyphs of the first glyph's width
   * w0 minus the summed distances d are centred when narrower than the
   * canvas, and start at 0 otherwise. The numerator is positive whenever
   * it is divided, so Java's truncating division agrees with Dafny's.
   */
  function StartX(n: int, w0: int, d: int, width: int): (x: int)
    ensures x >= 0 && (n * w0 - d < width ==> 2 * x <= width - (n * w0 - d))
  {
    if n * w0 - d < width then (width - (n * w0 - d)) / 2 else 0
  }

  /** The x position glyph k is drawn at: each glyph after the first is pulled back by its distance plus 2. */
  function GlyphX(start: int, widths: seq<int>, dists: seq<int>, k: nat): int
    requires k < |widths| && |dists| == |widths| - 1
  {
    if k == 0 then start
    else GlyphX(start, widths, dists, k - 1) + widths[k - 1] - (dists[k - 1] + 2)
  }

  /** Closed form of the placement: start, plus the widths before k, minus the distances before k and 2 per join. */
  lemma {:induction false} GlyphXClosedForm(start: int, widths: seq<int>, dists: seq<int>, k: nat)
    requires k < |widths| && |dists| == |widths| - 1
    ensures GlyphX(start, widths, dists, k) == start + Sum(widths[..k]) - Sum(dists[..k]) - 2 * k
  {
    if k > 0 {
      GlyphXClosedForm(start, widths, dists, k - 1);
      assert widths[..k][..k - 1] == widths[..k - 1];
      assert dists[..k][..k - 1] == dists[..k - 1];
    }
  }

  /** When the run is narrower than the canvas, the untightened run fits inside it. */
  lemma StartXCentres(n: int, w0: int, d: int, width: int)
    ensures n * w0 - d >= width ==> StartX(n, w0, d, width) == 0
    ensures n * w0 - d < width ==>
              0 <= StartX(n, w0, d, width) &&
              StartX(n, w0, d, width) + (n * w0 - d) <= width &&
              width - (StartX(n, w0, d, width) + (n * w0 - d)) - StartX(n, w0, d, width) == (width - (n * w0 - d)) % 2
  {
  }

  lemma {:induction false} SumOfConstant(s: seq<int>, w: int)
    requires forall k :: 0 <= k < |s| ==> s[k] == w
    ensures Sum(s) == |s| * w
  {
    if |s| > 0 {
      SumOfConstant(s[..|s| - 1], w);
    }
  }

  /**
   * For glyphs of one width w0 (as renderWord makes them), when the run is
   * centred the blank space right of the last glyph exceeds the space left
   * of the first by 2 per join (plus the odd pixel): the start is computed
   * without the tightening constant that the placement then applies.
   */
  lemma CentredRunIsShiftedLeft(widths: seq<int>, dists: seq<int>, width: int)
    requires |widths| > 0 && |dists| == |widths| - 1
    requires forall k :: 0 <= k < |widths| ==> widths[k] == widths[0]
    requires |widths| * widths[0] - Sum(dists) < width
    ensures var n := |widths|;
            var start := StartX(n, widths[0], Sum(dists), width);
            var end := GlyphX(start, widths, dists, n - 1) + widths[n - 1];
            (width - end) - start == 2 * (n - 1) + (width - (n * widths[0] - Sum(dists))) % 2
  {
    var n, w0, d := |widths|, widths[0], Sum(dists);
    var start := StartX(n, w0, d, width);
    GlyphXClosedForm(start, widths, dists, n - 1);
    SumOfConstant(widths[..n - 1], w0);
    assert dists[..n - 1] == dists;
    assert (n - 1) * w0 + w0 == n * w0;
    var ext := n * w0 - d;
    assert GlyphX(start, widths, dists, n - 1) + widths[n - 1] == start + ext - 2 * (n - 1);
    StartXCentres(n, w0, d, width);
  }

  /** A single glyph needs no distance: it is centred by its own width, or drawn at 0 when too wide. */
  lemma SingleGlyphPlacement(w0: int, width: int)
    ensures GlyphX(StartX(1, w0, Sum([]), width), [w0], [], 0) == (if w0 < width then (width - w0) / 2 else 0)
  {
  }
}
