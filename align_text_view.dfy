/**
 * AlignTextView: the TextView's own lines, each either drawn plain at the
 * left padding or stretched character by character so that it spans the
 * view's width. The lines and their baselines come from the TextView's
 * layout and are inputs here.
 */
module AlignTextView {
  import opened Platform

  /** How a line is drawn. */
  datatype Mode = Stretched | Plain

  /**
   * The choice in onDraw for line `lineItem` of `lineCount`: a lone line is
   * stretched when alignOnlyOneLine is set, the last line is drawn plain, and
   * every other line is stretched.
   */
  function LineMode(alignOnlyOneLine: bool, lineItem: nat, lineCount: nat): Mode
  {
    if alignOnlyOneLine && lineCount == 1 then Stretched
    else if lineItem == lineCount - 1 then Plain
    else Stretched
  }

  lemma LineModeChoice(alignOnlyOneLine: bool, lineItem: nat, lineCount: nat)
    requires lineItem < lineCount
    ensures LineMode(alignOnlyOneLine, lineItem, lineCount) == Stretched
            <==> lineItem < lineCount - 1 || (alignOnlyOneLine && lineCount == 1)
    ensures lineCount > 1 ==> (LineMode(alignOnlyOneLine, lineItem, lineCount) == Plain <==> lineItem == lineCount - 1)
  {
  }

  /** The line feed that ends a line broken by a forced newline. */
  const NEWLINE: CodeUnit := 10

  /** The sum of the widths of the characters of `s`, each measured alone. */
  function CharsWidth(s: Text, measure: Text -> real): real
  {
    if s == [] then 0.0 else CharsWidth(s[..|s| - 1], measure) + measure([s[|s| - 1]])
  }

  /**
   * The gap drawScaleText puts between neighbouring characters: the room the
   * line leaves in the view, shared among `|lineText| - 1` gaps.
   */
  function Gap(lineText: Text, lineWidth: real, measuredWidth: real, paddingStart: real, paddingEnd: real): real
    requires |lineText| >= 2
  {
    (measuredWidth - lineWidth - paddingStart - paddingEnd) / ((|lineText| - 1) as real)
  }

  /** A line drawn whole in one call: empty text draws nothing. */
  predicate DrawnWhole(lineText: Text)
  {
    lineText != [] && (lineText[|lineText| - 1] == NEWLINE || |lineText| == 1)
  }

  /** The x of character `k`: x0 = paddingLeft and x(k+1) = x(k) + width(char k) + d. */
  function CharX(lineText: Text, k: nat, paddingLeft: real, d: real, measure: Text -> real): real
    requires k <= |lineText|
  {
    if k == 0 then paddingLeft
    else CharX(lineText, k - 1, paddingLeft, d, measure) + measure([lineText[k - 1]]) + d
  }

  /** The accumulated x in closed form: the left padding, the widths before `k`, and `k` gaps. */
  lemma {:induction false} CharXClosedForm(lineText: Text, k: nat, paddingLeft: real, d: real, measure: Text -> real)
    requires k <= |lineText|
    ensures CharX(lineText, k, paddingLeft, d, measure) == paddingLeft + CharsWidth(lineText[..k], measure) + (k as real) * d
  {
    if k > 0 {
      CharXClosedForm(lineText, k - 1, paddingLeft, d, measure);
      assert lineText[..k][..k - 1] == lineText[..k - 1];
    }
  }

  /** What drawScaleText draws: one call per character, at CharX, when the line is stretched. */
  function ScaleOps(lineText: Text, baseLineY: real, lineWidth: real, measuredWidth: real,
                    paddingLeft: real, paddingStart: real, paddingEnd: real, measure: Text -> real): seq<DrawOp>
  {
    if lineText == [] then []
    else if DrawnWhole(lineText) then [DrawText(lineText, paddingLeft, baseLineY)]
    else
      var d := Gap(lineText, lineWidth, measuredWidth, paddingStart, paddingEnd);
      CharOps(lineText, |lineText|, baseLineY, paddingLeft, d, measure)
  }

  /**
   * drawScaleText draws nothing for an empty line, the whole line at the
   * left padding when it ends in a line feed or has one character, and
   * otherwise every character in turn at its own x.
   */
  lemma ScaleOpsCases(lineText: Text, baseLineY: real, lineWidth: real, measuredWidth: real,
                      paddingLeft: real, paddingStart: real, paddingEnd: real, measure: Text -> real)
    ensures var ops := ScaleOps(lineText, baseLineY, lineWidth, measuredWidth, paddingLeft, paddingStart, paddingEnd, measure);
            && (lineText == [] ==> ops == [])
            && (DrawnWhole(lineText) ==> ops == [DrawText(lineText, paddingLeft, baseLineY)])
            && (lineText != [] && !DrawnWhole(lineText) ==>
                  var d := Gap(lineText, lineWidth, measuredWidth, paddingStart, paddingEnd);
                  |ops| == |lineText|
                  && forall k :: 0 <= k < |lineText| ==>
                       ops[k] == DrawText([lineText[k]], CharX(lineText, k, paddingLeft, d, measure), baseLineY))
  {
    if lineText != [] && !DrawnWhole(lineText) {
      var d := Gap(lineText, lineWidth, measuredWidth, paddingStart, paddingEnd);
      forall k | 0 <= k < |lineText|
        ensures CharOps(lineText, |lineText|, baseLineY, paddingLeft, d, measure)[k]
                == DrawText([lineText[k]], CharX(lineText, k, paddingLeft, d, measure), baseLineY)
      {
        CharOpsAt(lineText, |lineText|, k, baseLineY, paddingLeft, d, measure);
      }
    }
  }

  /** The calls for the first `n` characters of a stretched line. */
  function CharOps(lineText: Text, n: nat, baseLineY: real, paddingLeft: real, d: real, measure: Text -> real): (ops: seq<DrawOp>)
    requires n <= |lineText|
    ensures |ops| == n
  {
    if n == 0 then []
    else
      CharOps(lineText, n - 1, baseLineY, paddingLeft, d, measure)
      + [DrawText([lineText[n - 1]], CharX(lineText, n - 1, paddingLeft, d, measure), baseLineY)]
  }

  /** Call `k` draws character `k` alone at its x. */
  lemma {:induction false} CharOpsAt(lineText: Text, n: nat, k: nat, baseLineY: real, paddingLeft: real, d: real, measure: Text -> real)
    requires k < n <= |lineText|
    ensures CharOps(lineText, n, baseLineY, paddingLeft, d, measure)[k]
            == DrawText([lineText[k]], CharX(lineText, k, paddingLeft, d, measure), baseLineY)
  {
    if k < n - 1 {
      CharOpsAt(lineText, n - 1, k, baseLineY, paddingLeft, d, measure);
    }
  }

  /**
   * drawScaleText as the source runs it: it returns early for an empty line
   * and for a line drawn whole, and otherwise draws each character and moves
   * `start` on by its width and the gap.
   */
  method DrawScaleText(lineText: Text, baseLineY: real, lineWidth: real, measuredWidth: real,
                       paddingLeft: real, paddingStart: real, paddingEnd: real, measure: Text -> real)
    returns (ops: seq<DrawOp>)
    ensures ops == ScaleOps(lineText, baseLineY, lineWidth, measuredWidth, paddingLeft, paddingStart, paddingEnd, measure)
  {
    ops := [];
    if lineText == [] {
      return;
    }
    var start := paddingLeft;
    var length := |lineText| - 1;
    var forceNextLine := lineText[length] == NEWLINE;
    if forceNextLine || 0 == length {
      ops := ops + [DrawText(lineText, start, baseLineY)];
      return;
    }
    var d := (measuredWidth - lineWidth - paddingStart - paddingEnd) / (length as real);
    for k := 0 to |lineText|
      invariant ops == CharOps(lineText, k, baseLineY, paddingLeft, d, measure)
      invariant start == CharX(lineText, k, paddingLeft, d, measure)
    {
      var c := [lineText[k]];
      var cw := measure(c);
      ops := ops + [DrawText(c, start, baseLineY)];
      start := start + cw + d;
    }
  }

  /**
   * The purpose of stretching: when the line's width is the sum of its
   * characters' widths, the right edge of the last character lands on the
   * view's width less the end padding, counted from the left padding.
   */
  lemma StretchedLineSpansView(lineText: Text, lineWidth: real, measuredWidth: real,
                               paddingLeft: real, paddingStart: real, paddingEnd: real, measure: Text -> real)
    requires |lineText| >= 2 && lineWidth == CharsWidth(lineText, measure)
    ensures var n := |lineText|;
            var d := Gap(lineText, lineWidth, measuredWidth, paddingStart, paddingEnd);
            CharX(lineText, n - 1, paddingLeft, d, measure) + measure([lineText[n - 1]])
            == paddingLeft + measuredWidth - paddingStart - paddingEnd
  {
    var n := |lineText|;
    var d := Gap(lineText, lineWidth, measuredWidth, paddingStart, paddingEnd);
    CharXClosedForm(lineText, n - 1, paddingLeft, d, measure);
    assert lineText[..n] == lineText;
    assert CharsWidth(lineText, measure) == CharsWidth(lineText[..n - 1], measure) + measure([lineText[n - 1]]);
    ShareOut(measuredWidth - lineWidth - paddingStart - paddingEnd, (n - 1) as real);
    assert ((n - 1) as real) * d == measuredWidth - lineWidth - paddingStart - paddingEnd;
  }

  /** One line of the TextView's layout, as onDraw reads it. */
  datatype LayoutLine = LayoutLine(text: Text, baseline: real)

  /** What onDraw draws for line `i` of `lines`. */
  function LineOps(lines: seq<LayoutLine>, i: nat, alignOnlyOneLine: bool, measuredWidth: real,
                   paddingLeft: real, paddingTop: real, paddingStart: real, paddingEnd: real,
                   measure: Text -> real): seq<DrawOp>
    requires i < |lines|
  {
    var lineText := lines[i].text;
    var lineBase := lines[i].baseline + paddingTop;
    match LineMode(alignOnlyOneLine, i, |lines|)
    case Plain => [DrawText(lineText, paddingLeft, lineBase)]
    case Stretched =>
      ScaleOps(lineText, lineBase, measure(lineText), measuredWidth, paddingLeft, paddingStart, paddingEnd, measure)
  }

  /** What onDraw draws for the first `n` lines. */
  function DrawLines(lines: seq<LayoutLine>, n: nat, alignOnlyOneLine: bool, measuredWidth: real,
                     paddingLeft: real, paddingTop: real, paddingStart: real, paddingEnd: real,
                     measure: Text -> real): seq<DrawOp>
    requires n <= |lines|
  {
    if n == 0 then []
    else
      DrawLines(lines, n - 1, alignOnlyOneLine, measuredWidth, paddingLeft, paddingTop, paddingStart, paddingEnd, measure)
      + LineOps(lines, n - 1, alignOnlyOneLine, measuredWidth, paddingLeft, paddingTop, paddingStart, paddingEnd, measure)
  }

  /** onDraw for a String text: every layout line in turn, stretched or plain. */
  method OnDraw(lines: seq<LayoutLine>, alignOnlyOneLine: bool, measuredWidth: real,
                paddingLeft: real, paddingTop: real, paddingStart: real, paddingEnd: real, measure: Text -> real)
    returns (ops: seq<DrawOp>)
    ensures ops == DrawLines(lines, |lines|, alignOnlyOneLine, measuredWidth, paddingLeft, paddingTop, paddingStart, paddingEnd, measure)
  {
    ops := [];
    for lineItem := 0 to |lines|
      invariant ops == DrawLines(lines, lineItem, alignOnlyOneLine, measuredWidth, paddingLeft, paddingTop, paddingStart, paddingEnd, measure)
    {
      var drawn := DrawLine(lines, lineItem, alignOnlyOneLine, measuredWidth, paddingLeft, paddingTop, paddingStart, paddingEnd, measure);
      ops := ops + drawn;
    }
  }

  /** The body of the loop of onDraw for line `lineItem`. */
  method DrawLine(lines: seq<LayoutLine>, lineItem: nat, alignOnlyOneLine: bool, measuredWidth: real,
                  paddingLeft: real, paddingTop: real, paddingStart: real, paddingEnd: real, measure: Text -> real)
    returns (drawn: seq<DrawOp>)
    requires lineItem < |lines|
    ensures drawn == LineOps(lines, lineItem, alignOnlyOneLine, measuredWidth, paddingLeft, paddingTop, paddingStart, paddingEnd, measure)
  {
    var lineBase := lines[lineItem].baseline + paddingTop;
    var lineText := lines[lineItem].text;
    if alignOnlyOneLine && |lines| == 1 {
      var lineWidth := measure(lineText);
      drawn := DrawScaleText(lineText, lineBase, lineWidth, measuredWidth, paddingLeft, paddingStart, paddingEnd, measure);
    } else if lineItem == |lines| - 1 {
      drawn := [DrawText(lineText, paddingLeft, lineBase)];
    } else {
      var lineWidth := measure(lineText);
      drawn := DrawScaleText(lineText, lineBase, lineWidth, measuredWidth, paddingLeft, paddingStart, paddingEnd, measure);
    }
  }
}
