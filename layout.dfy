/**
 * The whole of MixAlignTextView's layout with the corrected line breaker:
 * the text is cut into paragraphs and units, each paragraph is broken into
 * lines, and the content height is counted from the lines.
 */
module Layout {
  import opened Platform
  import Paragraphs
  import LineBreakerFixed

  /** The lines of each unit list, in order. */
  function LinesOfEach(lists: seq<seq<Text>>, width: real, measure: Text -> real): (ls: seq<seq<seq<LineBreakerFixed.Piece>>>)
    ensures |ls| == |lists|
  {
    if lists == [] then []
    else LinesOfEach(lists[..|lists| - 1], width, measure) + [LineBreakerFixed.Lines(lists[|lists| - 1], width, measure)]
  }

  /** Entry `i` is the lines of unit list `i`. */
  lemma {:induction false} LinesOfEachAt(lists: seq<seq<Text>>, i: nat, width: real, measure: Text -> real)
    requires i < |lists|
    ensures LinesOfEach(lists, width, measure)[i] == LineBreakerFixed.Lines(lists[i], width, measure)
  {
    var init := lists[..|lists| - 1];
    var last := LineBreakerFixed.Lines(lists[|lists| - 1], width, measure);
    var prev := LinesOfEach(init, width, measure);
    assert LinesOfEach(lists, width, measure) == prev + [last];
    if i < |init| {
      LinesOfEachAt(init, i, width, measure);
      assert init[i] == lists[i];
      assert (prev + [last])[i] == prev[i];
    } else {
      assert (prev + [last])[i] == last;
    }
  }

  /** Each paragraph of `text` broken into lines. */
  function LayOut(text: Text, punct: CodeUnit -> bool, width: real, measure: Text -> real): seq<seq<seq<LineBreakerFixed.Piece>>>
  {
    LinesOfEach(Paragraphs.ParagraphWords(text, punct), width, measure)
  }

  /**
   * Nothing is lost or repeated: the characters on the lines of each
   * paragraph are that paragraph's characters with the whitespace left out.
   */
  lemma LayOutKeepsText(text: Text, punct: CodeUnit -> bool, width: real, measure: Text -> real)
    ensures var paragraphs := Paragraphs.SplitParagraphs(text);
            var laid := LayOut(text, punct, width, measure);
            && |laid| == |paragraphs|
            && forall i :: 0 <= i < |paragraphs| ==>
                 LineBreakerFixed.AllText(laid[i]) == RemoveWhitespace(paragraphs[i])
  {
    var paragraphs := Paragraphs.SplitParagraphs(text);
    var words := Paragraphs.ParagraphWords(text, punct);
    forall i | 0 <= i < |paragraphs|
      ensures LineBreakerFixed.AllText(LayOut(text, punct, width, measure)[i]) == RemoveWhitespace(paragraphs[i])
    {
      Paragraphs.WordsOfEachAt(paragraphs, i, punct);
      LinesOfEachAt(words, i, width, measure);
      Paragraphs.WordsRebuildParagraph(paragraphs[i], punct);
      LineBreakerFixed.LinesRebuildUnits(words[i], width, measure);
    }
  }

  /** The characters on all the lines of all paragraphs, in order, hyphens left out. */
  function LaidText(laid: seq<seq<seq<LineBreakerFixed.Piece>>>): Text
  {
    if laid == [] then [] else LaidText(laid[..|laid| - 1]) + LineBreakerFixed.AllText(laid[|laid| - 1])
  }

  /** Laying out paragraphs one by one places their characters, whitespace left out, in order. */
  lemma {:induction false} LaidParagraphsKeepText(paragraphs: seq<Text>, punct: CodeUnit -> bool, width: real, measure: Text -> real)
    ensures LaidText(LinesOfEach(Paragraphs.WordsOfEach(paragraphs, punct), width, measure))
            == RemoveWhitespace(Flatten(paragraphs))
  {
    if paragraphs != [] {
      var init := paragraphs[..|paragraphs| - 1];
      var last := paragraphs[|paragraphs| - 1];
      var words := Paragraphs.WordsOfEach(init, punct);
      var units := Paragraphs.Words(last, punct);
      LaidParagraphsKeepText(init, punct, width, measure);
      assert Paragraphs.WordsOfEach(paragraphs, punct) == words + [units];
      assert (words + [units])[..|words|] == words;
      var laid := LinesOfEach(words, width, measure);
      assert LinesOfEach(words + [units], width, measure) == laid + [LineBreakerFixed.Lines(units, width, measure)];
      assert (laid + [LineBreakerFixed.Lines(units, width, measure)])[..|laid|] == laid;
      Paragraphs.WordsRebuildParagraph(last, punct);
      LineBreakerFixed.LinesRebuildUnits(units, width, measure);
      RemoveWhitespaceAppend(Flatten(init), last);
    }
  }

  /**
   * The whole-text round trip: the characters on all lines of the layout
   * are the characters of the text that are not whitespace, each once and
   * in order.
   */
  lemma LayOutKeepsAllText(text: Text, punct: CodeUnit -> bool, width: real, measure: Text -> real)
    ensures LaidText(LayOut(text, punct, width, measure)) == RemoveWhitespace(text)
  {
    var paragraphs := Paragraphs.SplitParagraphs(text);
    LaidParagraphsKeepText(paragraphs, punct, width, measure);
    Paragraphs.ParagraphsKeepText(text);
  }

  /** The number of lines over all paragraphs. */
  function LineTotal<L>(paragraphs: seq<seq<L>>): (n: nat)
    ensures paragraphs == [] ==> n == 0
  {
    if paragraphs == [] then 0 else LineTotal(paragraphs[..|paragraphs| - 1]) + |paragraphs[|paragraphs| - 1]|
  }

  lemma LineTotalAppend<L>(a: seq<seq<L>>, b: seq<seq<L>>)
    ensures LineTotal(a + b) == LineTotal(a) + LineTotal(b)
    decreases |b|
  {
    if b == [] {
      assert a + b == a;
    } else {
      assert (a + b)[..|a + b| - 1] == a + b[..|b| - 1];
      assert (a + b)[|a + b| - 1] == b[|b| - 1];
      LineTotalAppend(a, b[..|b| - 1]);
    }
  }

  /** The height onMeasure reports: paragraph gaps between paragraphs, and one line height per line. */
  function ContentHeight(paragraphCount: nat, lineCount: int, paragraphSpace: int, lineHeight: int): int
  {
    (paragraphCount - 1) * paragraphSpace + lineCount * lineHeight
  }

  /** Every extra line counted adds one line height to the height. */
  lemma ContentHeightPerLine(paragraphCount: nat, lineCount: int, extra: int, paragraphSpace: int, lineHeight: int)
    ensures ContentHeight(paragraphCount, lineCount + extra, paragraphSpace, lineHeight)
            == ContentHeight(paragraphCount, lineCount, paragraphSpace, lineHeight) + extra * lineHeight
  {
    assert (lineCount + extra) * lineHeight == lineCount * lineHeight + extra * lineHeight;
  }
}
