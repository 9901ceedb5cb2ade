/**
 * MixAlignTextView: a view that keeps, between measuring and drawing, the
 * units of every paragraph, the lines of every paragraph and a running line
 * count. onMeasure rebuilds the lists and reports the size; onDraw walks the
 * lines, stretching every line but the last of a paragraph across the view.
 */
module MixAlign {
  import opened Wrappers
  import opened Platform
  import Paragraphs
  import LineBreaker
  import Layout

  // ---------------------------------------------------------------------
  // Breaking every paragraph

  /** The lines of the paragraphs broken so far, and the exception that stopped the loop, if any. */
  datatype Broken = Broken(done: seq<seq<seq<Text>>>, failure: Option<LineBreaker.Failure>)

  /**
   * getParagraphLineList over the first `n` unit lists: each is broken in
   * turn, and the first exception ends the loop.
   */
  function LinesOfAll(paras: seq<seq<Text>>, n: nat, width: real, measure: Text -> real): (r: Broken)
    requires n <= |paras|
    ensures r.failure.None? ==> |r.done| == n
    ensures r.failure.Some? ==> |r.done| < n
  {
    if n == 0 then Broken([], None)
    else
      var before := LinesOfAll(paras, n - 1, width, measure);
      if before.failure.Some? then before
      else
        match LineBreaker.Lines(paras[n - 1], width, measure)
        case Err(e) => Broken(before.done, Some(e))
        case Ok(lines) => Broken(before.done + [lines], None)
  }

  /** Paragraph `i` among those broken is broken into its own lines. */
  lemma {:induction false} LinesOfAllBreaksEach(paras: seq<seq<Text>>, n: nat, i: nat, width: real, measure: Text -> real)
    requires n <= |paras| && i < |LinesOfAll(paras, n, width, measure).done|
    ensures LineBreaker.Lines(paras[i], width, measure) == Ok(LinesOfAll(paras, n, width, measure).done[i])
  {
    var before := LinesOfAll(paras, n - 1, width, measure);
    if before.failure.None? && i == n - 1 {
      assert LinesOfAll(paras, n, width, measure).done[i] == LineBreaker.Lines(paras[n - 1], width, measure).value;
    } else {
      assert LinesOfAll(paras, n, width, measure).done[i] == before.done[i];
      LinesOfAllBreaksEach(paras, n - 1, i, width, measure);
    }
  }

  /** When the loop stopped, the next paragraph is the one that threw. */
  lemma {:induction false} LinesOfAllStopsAtFailure(paras: seq<seq<Text>>, n: nat, width: real, measure: Text -> real)
    requires n <= |paras| && LinesOfAll(paras, n, width, measure).failure.Some?
    ensures var r := LinesOfAll(paras, n, width, measure);
            LineBreaker.Lines(paras[|r.done|], width, measure) == Err(r.failure.value)
  {
    if LinesOfAll(paras, n - 1, width, measure).failure.Some? {
      LinesOfAllStopsAtFailure(paras, n - 1, width, measure);
    }
  }

  /** Once a paragraph has thrown, the later ones are never broken. */
  lemma {:induction false} LinesOfAllFailureSticky(paras: seq<seq<Text>>, m: nat, n: nat, width: real, measure: Text -> real)
    requires m <= n <= |paras| && LinesOfAll(paras, m, width, measure).failure.Some?
    ensures LinesOfAll(paras, n, width, measure) == LinesOfAll(paras, m, width, measure)
    decreases n - m
  {
    if m < n {
      LinesOfAllFailureSticky(paras, m, n - 1, width, measure);
    }
  }

  /** One more piece of the split text adds its unit list when it is not empty. */
  lemma WordsOfKeptSnoc(parts: seq<Text>, i: nat, punct: CodeUnit -> bool)
    requires i < |parts|
    ensures Paragraphs.WordsOfEach(Paragraphs.KeepNonEmpty(parts[..i + 1]), punct)
            == Paragraphs.WordsOfEach(Paragraphs.KeepNonEmpty(parts[..i]), punct)
               + (if parts[i] != [] then [Paragraphs.Words(parts[i], punct)] else [])
  {
    assert parts[..i + 1][..i] == parts[..i];
    var kept := Paragraphs.KeepNonEmpty(parts[..i]);
    if parts[i] != [] {
      KeptSnoc(kept, parts[i], punct);
    } else {
      assert kept + [] == kept;
    }
  }

  lemma KeptSnoc(kept: seq<Text>, u: Text, punct: CodeUnit -> bool)
    ensures Paragraphs.WordsOfEach(kept + [u], punct) == Paragraphs.WordsOfEach(kept, punct) + [Paragraphs.Words(u, punct)]
  {
    assert (kept + [u])[..|kept|] == kept;
  }

  /** The size setMeasuredDimension is given. */
  datatype Dimension = Dimension(width: int, height: int)

  // ---------------------------------------------------------------------
  // Drawing

  /** The x at which drawScaleText draws unit `k`: x0 = 0 and x(k+1) = x(k) + width(unit k) + d. */
  function UnitX(line: seq<Text>, k: nat, d: real, measure: Text -> real): real
    requires k <= |line|
  {
    if k == 0 then 0.0 else UnitX(line, k - 1, d, measure) + measure(line[k - 1]) + d
  }

  /** The sum of the widths of the first `k` units, each measured alone. */
  function UnitsWidth(line: seq<Text>, k: nat, measure: Text -> real): real
    requires k <= |line|
  {
    if k == 0 then 0.0 else UnitsWidth(line, k - 1, measure) + measure(line[k - 1])
  }

  /**
   * The gap drawScaleText puts between units: the room the line leaves in
   * the view, shared among `|line| - 1` gaps. With fewer than two units no
   * gap is ever added to a drawn position, so its value does not matter.
   */
  function UnitGap(line: seq<Text>, viewWidth: int, measure: Text -> real): real
  {
    if |line| >= 2 then (viewWidth as real - measure(Flatten(line))) / ((|line| - 1) as real) else 0.0
  }

  /** The calls drawScaleText makes for the first `n` units of `line`. */
  function ScaleOps(line: seq<Text>, n: nat, y: real, d: real, measure: Text -> real): (ops: seq<DrawOp>)
    requires n <= |line|
    ensures |ops| == n
  {
    if n == 0 then []
    else ScaleOps(line, n - 1, y, d, measure) + [DrawText(line[n - 1], UnitX(line, n - 1, d, measure), y)]
  }

  /** Call `k` draws unit `k` whole at its x, on the line's baseline. */
  lemma {:induction false} ScaleOpsAt(line: seq<Text>, n: nat, k: nat, y: real, d: real, measure: Text -> real)
    requires k < n <= |line|
    ensures ScaleOps(line, n, y, d, measure)[k] == DrawText(line[k], UnitX(line, k, d, measure), y)
  {
    if k < n - 1 {
      ScaleOpsAt(line, n - 1, k, y, d, measure);
    }
  }

  /** What onDraw draws for one line: the last line of a paragraph whole at x 0, any other unit by unit. */
  function LineOps(line: seq<Text>, last: bool, y: real, viewWidth: int, measure: Text -> real): seq<DrawOp>
  {
    if last then [DrawText(Flatten(line), 0.0, y)]
    else ScaleOps(line, |line|, y, UnitGap(line, viewWidth, measure), measure)
  }

  /** How far the baseline moves over `n` lines: one line height each. */
  function LinesAdvance(n: nat, lineHeight: int): int
  {
    if n == 0 then 0 else LinesAdvance(n - 1, lineHeight) + lineHeight
  }

  /**
   * The first `n` lines of one paragraph drawn from baseline `y0`: line `k`
   * on the baseline `k` line heights further down, the last line whole.
   */
  function ParagraphOps(lines: seq<seq<Text>>, n: nat, y0: real, viewWidth: int, lineHeight: int, measure: Text -> real): seq<DrawOp>
    requires n <= |lines|
  {
    if n == 0 then []
    else
      ParagraphOps(lines, n - 1, y0, viewWidth, lineHeight, measure)
      + LineOps(lines[n - 1], n - 1 == |lines| - 1, y0 + LinesAdvance(n - 1, lineHeight) as real, viewWidth, measure)
  }

  /** How far the baseline moves over the first `n` paragraphs: their lines and one gap each. */
  function ParagraphsAdvance(paras: seq<seq<seq<Text>>>, n: nat, lineHeight: int, paragraphSpace: int): int
    requires n <= |paras|
  {
    if n == 0 then 0
    else ParagraphsAdvance(paras, n - 1, lineHeight, paragraphSpace) + LinesAdvance(|paras[n - 1]|, lineHeight) + paragraphSpace
  }

  /** The first `n` paragraphs drawn from baseline `y0`, each starting where the one before left the baseline. */
  function ParagraphsOps(paras: seq<seq<seq<Text>>>, n: nat, y0: real,
                         viewWidth: int, lineHeight: int, paragraphSpace: int, measure: Text -> real): seq<DrawOp>
    requires n <= |paras|
  {
    if n == 0 then []
    else
      var y := y0 + ParagraphsAdvance(paras, n - 1, lineHeight, paragraphSpace) as real;
      ParagraphsOps(paras, n - 1, y0, viewWidth, lineHeight, paragraphSpace, measure)
      + ParagraphOps(paras[n - 1], |paras[n - 1]|, y, viewWidth, lineHeight, measure)
  }

  /** The x of unit `k` in closed form: the widths of the units before it and `k` gaps. */
  lemma {:induction false} UnitXClosedForm(line: seq<Text>, k: nat, d: real, measure: Text -> real)
    requires k <= |line|
    ensures UnitX(line, k, d, measure) == UnitsWidth(line, k, measure) + (k as real) * d
  {
    if k > 0 {
      UnitXClosedForm(line, k - 1, d, measure);
    }
  }

  /**
   * The purpose of drawScaleText: when the line measures as the sum of its
   * units, the right edge of its last unit lands on the view's width.
   */
  lemma ScaledLineSpansView(line: seq<Text>, viewWidth: int, measure: Text -> real)
    requires |line| >= 2 && measure(Flatten(line)) == UnitsWidth(line, |line|, measure)
    ensures var n := |line|;
            UnitX(line, n - 1, UnitGap(line, viewWidth, measure), measure) + measure(line[n - 1]) == viewWidth as real
  {
    var d := UnitGap(line, viewWidth, measure);
    var w := viewWidth as real;
    var t := measure(Flatten(line));
    UnitGapFills(line, viewWidth, measure);
    assert ((|line| - 1) as real) * d == w - t;
    assert t == UnitsWidth(line, |line|, measure);
    SpansWithGap(line, d, w, measure);
  }

  /** The gaps of a line with several units add up to the room the line leaves in the view. */
  lemma UnitGapFills(line: seq<Text>, viewWidth: int, measure: Text -> real)
    requires |line| >= 2
    ensures ((|line| - 1) as real) * UnitGap(line, viewWidth, measure) == viewWidth as real - measure(Flatten(line))
  {
    ShareOut(viewWidth as real - measure(Flatten(line)), (|line| - 1) as real);
  }

  /** With `n - 1` gaps of `d` that fill the room the units leave in `width`, the last unit ends at `width`. */
  lemma SpansWithGap(line: seq<Text>, d: real, width: real, measure: Text -> real)
    requires |line| >= 2 && ((|line| - 1) as real) * d == width - UnitsWidth(line, |line|, measure)
    ensures var n := |line|;
            UnitX(line, n - 1, d, measure) + measure(line[n - 1]) == width
  {
    var n := |line|;
    UnitXClosedForm(line, n - 1, d, measure);
    assert UnitsWidth(line, n, measure) == UnitsWidth(line, n - 1, measure) + measure(line[n - 1]);
  }

  /** A paragraph moves the baseline on by one line height per line. */
  lemma {:induction false} LinesAdvanceClosedForm(n: nat, lineHeight: int)
    ensures LinesAdvance(n, lineHeight) == n * lineHeight
  {
    if n > 0 {
      LinesAdvanceClosedForm(n - 1, lineHeight);
      assert (n - 1) * lineHeight + lineHeight == n * lineHeight;
    }
  }

  /** The paragraphs move the baseline on by one line height per line and one gap per paragraph. */
  lemma {:induction false} ParagraphsAdvanceClosedForm(paras: seq<seq<seq<Text>>>, n: nat, lineHeight: int, paragraphSpace: int)
    requires n <= |paras|
    ensures ParagraphsAdvance(paras, n, lineHeight, paragraphSpace)
            == Layout.LineTotal(paras[..n]) * lineHeight + n * paragraphSpace
  {
    if n > 0 {
      LinesAdvanceClosedForm(|paras[n - 1]|, lineHeight);
      ParagraphsAdvanceClosedForm(paras, n - 1, lineHeight, paragraphSpace);
      assert paras[..n][..n - 1] == paras[..n - 1];
      var before := Layout.LineTotal(paras[..n - 1]);
      assert Layout.LineTotal(paras[..n]) == before + |paras[n - 1]|;
      assert (before + |paras[n - 1]|) * lineHeight == before * lineHeight + |paras[n - 1]| * lineHeight;
      assert n * paragraphSpace == (n - 1) * paragraphSpace + paragraphSpace;
    }
  }

  /**
   * Drawing and measuring agree: onDraw moves the baseline on by exactly
   * the height onMeasure reports for these lines, plus one paragraph gap
   * (the gap after the last paragraph, which the height leaves out).
   */
  lemma DrawnHeightMatchesMeasure(paras: seq<seq<seq<Text>>>, lineHeight: int, paragraphSpace: int)
    ensures ParagraphsAdvance(paras, |paras|, lineHeight, paragraphSpace)
            == Layout.ContentHeight(|paras|, Layout.LineTotal(paras), paragraphSpace, lineHeight) + paragraphSpace
  {
    ParagraphsAdvanceClosedForm(paras, |paras|, lineHeight, paragraphSpace);
    assert paras[..|paras|] == paras;
  }

  /**
   * What keeping the line count costs: measured a second time, the same
   * lines report a height larger than the drawing needs by one line height
   * per line.
   */
  lemma SecondMeasureOvershoots(paras: seq<seq<seq<Text>>>, lineHeight: int, paragraphSpace: int)
    ensures var total := Layout.LineTotal(paras);
            Layout.ContentHeight(|paras|, total + total, paragraphSpace, lineHeight)
            == ParagraphsAdvance(paras, |paras|, lineHeight, paragraphSpace) - paragraphSpace + total * lineHeight
  {
    var total := Layout.LineTotal(paras);
    DrawnHeightMatchesMeasure(paras, lineHeight, paragraphSpace);
    Layout.ContentHeightPerLine(|paras|, total, total, paragraphSpace, lineHeight);
  }

  // ---------------------------------------------------------------------
  // The view

  class MixAlignTextView {
    /** mParagraphSpace, read once from the attributes. */
    const paragraphSpace: int
    /** The TextView's line height, text size and top padding. */
    const lineHeight: int
    const textSize: real
    const paddingTop: real
    /** The paint's width of a text (StaticLayout.getDesiredWidth). */
    const measure: Text -> real
    /** Unicode general category P, for isSymbol. */
    const punct: CodeUnit -> bool

    const text: Text
    var baseLineY: real
    var viewWidth: int
    var lineCount: int
    var paragraphWordsList: seq<seq<Text>>
    var paragraphLineList: seq<seq<seq<Text>>>

    constructor(text: Text, paragraphSpace: int, lineHeight: int, textSize: real, paddingTop: real,
                measure: Text -> real, punct: CodeUnit -> bool)
      ensures this.text == text && this.paragraphSpace == paragraphSpace && this.lineHeight == lineHeight
      ensures this.textSize == textSize && this.paddingTop == paddingTop
      ensures this.measure == measure && this.punct == punct
      ensures baseLineY == 0.0 && viewWidth == 0 && lineCount == 0
      ensures paragraphWordsList == [] && paragraphLineList == []
    {
      this.text := text;
      this.paragraphSpace := paragraphSpace;
      this.lineHeight := lineHeight;
      this.textSize := textSize;
      this.paddingTop := paddingTop;
      this.measure := measure;
      this.punct := punct;
      baseLineY := 0.0;
      viewWidth := 0;
      lineCount := 0;
      paragraphWordsList := [];
      paragraphLineList := [];
    }

    /** getParagraphWordsList: the unit list of every non-empty paragraph is appended. */
    method GetParagraphWordsList()
      modifies this`paragraphWordsList
      ensures paragraphWordsList == old(paragraphWordsList) + Paragraphs.ParagraphWords(text, punct)
    {
      var content := Paragraphs.Normalize(text);
      var paragraphs := Split(content, LF);
      ghost var added: seq<seq<Text>> := [];
      for i := 0 to |paragraphs|
        invariant added == Paragraphs.WordsOfEach(Paragraphs.KeepNonEmpty(paragraphs[..i]), punct)
        invariant paragraphWordsList == old(paragraphWordsList) + added
      {
        WordsOfKeptSnoc(paragraphs, i, punct);
        ghost var more := if paragraphs[i] != [] then [Paragraphs.Words(paragraphs[i], punct)] else [];
        AppendAssoc(old(paragraphWordsList), added, more);
        AddParagraph(paragraphs[i]);
        added := added + more;
      }
      assert paragraphs[..|paragraphs|] == paragraphs;
    }

    /** The body of the loop of getParagraphWordsList: a non-empty paragraph adds its unit list. */
    method AddParagraph(item: Text)
      modifies this`paragraphWordsList
      ensures paragraphWordsList == old(paragraphWordsList) + (if item != [] then [Paragraphs.Words(item, punct)] else [])
    {
      if item != [] {
        var words := Paragraphs.WordsList(item, punct);
        paragraphWordsList := paragraphWordsList + [words];
      }
    }

    /**
     * getParagraphLineList: the lines of every unit list are appended and
     * counted, until one of them throws.
     */
    method GetParagraphLineList() returns (failure: Option<LineBreaker.Failure>)
      modifies this`paragraphLineList, this`lineCount
      ensures var r := LinesOfAll(paragraphWordsList, |paragraphWordsList|, viewWidth as real, measure);
              && paragraphLineList == old(paragraphLineList) + r.done
              && lineCount == old(lineCount) + Layout.LineTotal(r.done)
              && failure == r.failure
    {
      var width := viewWidth as real;
      ghost var done: seq<seq<seq<Text>>> := [];
      for p := 0 to |paragraphWordsList|
        invariant LinesOfAll(paragraphWordsList, p, width, measure) == Broken(done, None)
        invariant paragraphLineList == old(paragraphLineList) + done
        invariant lineCount == old(lineCount) + Layout.LineTotal(done)
      {
        var r := LineBreaker.LineList(paragraphWordsList[p], width, measure);
        if r.Err? {
          LinesOfAllFailureSticky(paragraphWordsList, p + 1, |paragraphWordsList|, width, measure);
          return Some(r.error);
        }
        AppendAssoc(old(paragraphLineList), done, [r.value]);
        AddLineList(r.value);
        Layout.LineTotalAppend(done, [r.value]);
        done := done + [r.value];
      }
      return None;
    }

    /** What the loop of getParagraphLineList does with a paragraph's lines: store them and count them. */
    method AddLineList(lines: seq<seq<Text>>)
      modifies this`paragraphLineList, this`lineCount
      ensures paragraphLineList == old(paragraphLineList) + [lines]
      ensures lineCount == old(lineCount) + |lines|
    {
      lineCount := lineCount + |lines|;
      paragraphLineList := paragraphLineList + [lines];
    }

    /**
     * onMeasure: the lists and the baseline are reset, the text width is
     * the measured width less the paddings, and the height is the
     * paragraph gaps plus one line height per counted line. The line count
     * is not reset, so it goes on growing from earlier measures.
     */
    method OnMeasure(measuredWidth: int, paddingLeft: int, paddingRight: int)
      returns (r: Result<Dimension, LineBreaker.Failure>)
      modifies this`paragraphWordsList, this`paragraphLineList, this`baseLineY, this`viewWidth, this`lineCount
      ensures baseLineY == 0.0 && viewWidth == measuredWidth - paddingLeft - paddingRight
      ensures paragraphWordsList == Paragraphs.ParagraphWords(text, punct)
      ensures var b := LinesOfAll(paragraphWordsList, |paragraphWordsList|, viewWidth as real, measure);
              && paragraphLineList == b.done
              && lineCount == old(lineCount) + Layout.LineTotal(b.done)
              && (match b.failure
                  case Some(e) => r == Err(e)
                  case None => r == Ok(Dimension(viewWidth, Layout.ContentHeight(|paragraphWordsList|, lineCount, paragraphSpace, lineHeight))))
    {
      paragraphWordsList := [];
      paragraphLineList := [];
      baseLineY := 0.0;
      viewWidth := measuredWidth - paddingLeft - paddingRight;
      ghost var count := lineCount;
      GetParagraphWordsList();
      ghost var words := paragraphWordsList;
      assert words == Paragraphs.ParagraphWords(text, punct);
      ghost var b := LinesOfAll(words, |words|, viewWidth as real, measure);
      var failure := GetParagraphLineList();
      assert paragraphWordsList == words && baseLineY == 0.0;
      assert paragraphLineList == [] + b.done == b.done;
      assert lineCount == count + Layout.LineTotal(b.done);
      if failure.Some? {
        return Err(failure.value);
      }
      var height := Layout.ContentHeight(|paragraphWordsList|, lineCount, paragraphSpace, lineHeight);
      return Ok(Dimension(viewWidth, height));
    }

    /**
     * Two measures in a row of the same text and width: both succeed or
     * fail alike, and the second counts every line a second time, because
     * the line count is not reset.
     */
    method Remeasure(measuredWidth: int, paddingLeft: int, paddingRight: int)
      returns (first: Result<Dimension, LineBreaker.Failure>, second: Result<Dimension, LineBreaker.Failure>)
      modifies this`paragraphWordsList, this`paragraphLineList, this`baseLineY, this`viewWidth, this`lineCount
      ensures first.Ok? <==> second.Ok?
      ensures lineCount == old(lineCount) + 2 * Layout.LineTotal(paragraphLineList)
    {
      first := OnMeasure(measuredWidth, paddingLeft, paddingRight);
      ghost var words := paragraphWordsList;
      ghost var vw := viewWidth;
      ghost var b := LinesOfAll(words, |words|, viewWidth as real, measure);
      second := OnMeasure(measuredWidth, paddingLeft, paddingRight);
      assert paragraphWordsList == words;
      assert viewWidth == vw;
      assert LinesOfAll(paragraphWordsList, |paragraphWordsList|, viewWidth as real, measure) == b;
    }

    /** onMeasure with the line count reset along with the lists: the height depends on the text and width alone. */
    method OnMeasureFixed(measuredWidth: int, paddingLeft: int, paddingRight: int)
      returns (r: Result<Dimension, LineBreaker.Failure>)
      modifies this`paragraphWordsList, this`paragraphLineList, this`baseLineY, this`viewWidth, this`lineCount
      ensures baseLineY == 0.0 && viewWidth == measuredWidth - paddingLeft - paddingRight
      ensures paragraphWordsList == Paragraphs.ParagraphWords(text, punct)
      ensures var b := LinesOfAll(paragraphWordsList, |paragraphWordsList|, viewWidth as real, measure);
              && paragraphLineList == b.done
              && lineCount == Layout.LineTotal(paragraphLineList)
              && (match b.failure
                  case Some(e) => r == Err(e)
                  case None => r == Ok(Dimension(viewWidth, Layout.ContentHeight(|paragraphLineList|, Layout.LineTotal(paragraphLineList), paragraphSpace, lineHeight))))
    {
      lineCount := 0;
      r := OnMeasure(measuredWidth, paddingLeft, paddingRight);
    }

    /** drawEndText's buffer: the units of a line joined. */
    method JoinLine(line: seq<Text>) returns (drawText: Text)
      ensures drawText == Flatten(line)
    {
      drawText := [];
      for i := 0 to |line|
        invariant drawText == Flatten(line[..i])
      {
        assert line[..i + 1][..i] == line[..i];
        drawText := drawText + line[i];
      }
      assert line[..|line|] == line;
    }

    /** drawScaleText: each unit in turn, moving on by its width and the shared gap. */
    method DrawScaleText(line: seq<Text>) returns (ops: seq<DrawOp>)
      ensures ops == LineOps(line, false, baseLineY, viewWidth, measure)
    {
      var drawText := JoinLine(line);
      var strWidth := measure(drawText);
      var d := 0.0;
      if |line| >= 2 {
        d := (viewWidth as real - strWidth) / ((|line| - 1) as real);
      }
      assert d == UnitGap(line, viewWidth, measure);
      var cw := 0.0;
      ops := [];
      for k := 0 to |line|
        invariant ops == ScaleOps(line, k, baseLineY, d, measure)
        invariant cw == UnitX(line, k, d, measure)
      {
        ops := ops + [DrawText(line[k], cw, baseLineY)];
        cw := cw + measure(line[k]) + d;
      }
      assert ops == ScaleOps(line, |line|, baseLineY, UnitGap(line, viewWidth, measure), measure);
    }

    /** One paragraph's lines, the last drawn whole and the others stretched. */
    method DrawParagraph(lineList: seq<seq<Text>>) returns (ops: seq<DrawOp>)
      modifies this`baseLineY
      ensures ops == ParagraphOps(lineList, |lineList|, old(baseLineY), viewWidth, lineHeight, measure)
      ensures baseLineY == old(baseLineY) + LinesAdvance(|lineList|, lineHeight) as real
    {
      ops := [];
      ghost var y0 := baseLineY;
      for index := 0 to |lineList|
        invariant ops == ParagraphOps(lineList, index, y0, viewWidth, lineHeight, measure)
        invariant baseLineY == y0 + LinesAdvance(index, lineHeight) as real
      {
        var drawn := DrawLine(lineList, index);
        ops := ops + drawn;
      }
    }

    /** The body of the loop over a paragraph's lines: draw line `index`, then move down one line. */
    method DrawLine(lineList: seq<seq<Text>>, index: nat) returns (drawn: seq<DrawOp>)
      requires index < |lineList|
      modifies this`baseLineY
      ensures drawn == LineOps(lineList[index], index == |lineList| - 1, old(baseLineY), viewWidth, measure)
      ensures baseLineY == old(baseLineY) + lineHeight as real
    {
      if index == |lineList| - 1 {
        var drawText := JoinLine(lineList[index]);
        drawn := [DrawText(drawText, 0.0, baseLineY)];
      } else {
        drawn := DrawScaleText(lineList[index]);
      }
      baseLineY := baseLineY + lineHeight as real;
    }

    /**
     * onDraw: nothing without a layout or a canvas; otherwise the baseline
     * starts at the text size below the top padding and every paragraph is
     * drawn in turn, a paragraph gap after each.
     */
    method OnDraw(ready: bool) returns (ops: seq<DrawOp>)
      modifies this`baseLineY
      ensures !ready ==> ops == [] && baseLineY == old(baseLineY)
      ensures ready ==> var y0 := textSize + paddingTop;
                        && ops == ParagraphsOps(paragraphLineList, |paragraphLineList|, y0, viewWidth, lineHeight, paragraphSpace, measure)
                        && baseLineY == y0 + ParagraphsAdvance(paragraphLineList, |paragraphLineList|, lineHeight, paragraphSpace) as real
    {
      ops := [];
      if !ready {
        return;
      }
      baseLineY := textSize + paddingTop;
      ghost var y0 := baseLineY;
      for p := 0 to |paragraphLineList|
        invariant ops == ParagraphsOps(paragraphLineList, p, y0, viewWidth, lineHeight, paragraphSpace, measure)
        invariant baseLineY == y0 + ParagraphsAdvance(paragraphLineList, p, lineHeight, paragraphSpace) as real
      {
        var drawn := DrawParagraph(paragraphLineList[p]);
        ops := ops + drawn;
        baseLineY := baseLineY + paragraphSpace as real;
      }
    }
  }
}
