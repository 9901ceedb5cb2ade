/**
 * getLineList with its evident intent restored: the character scan stops at
 * the first overflow, a vowel cut carries the rest of the word from after
 * the two characters it kept on the line, a word the scan cannot place is
 * carried whole instead of being lost, and `sb` is cut back to no less than
 * nothing. A vowel cut also needs a character left to carry: at index
 * |w| - 2, where getLineList puts the whole word and a hyphen on the line,
 * the word is carried whole instead. Under these rules every character of
 * the paragraph's units reaches exactly one line, in order.
 */
module LineBreakerFixed {
  import opened Wrappers
  import opened Platform
  import opened Extension
  import LineBreaker

  /** A unit on a line: a whole unit, or the head of a word whose rest opens the next line. */
  datatype Piece = Whole(text: Text) | Head(text: Text)

  /** What is drawn for a piece: a head is followed by the hyphen. */
  function Render(p: Piece): Text
  {
    match p
    case Whole(t) => t
    case Head(t) => t + [LineBreaker.HYPHEN]
  }

  /** The characters of the units on a line, hyphens left out. */
  function LineText(line: seq<Piece>): Text
  {
    if line == [] then [] else LineText(line[..|line| - 1]) + line[|line| - 1].text
  }

  /** The characters of the units on all lines, in order. */
  function AllText(lines: seq<seq<Piece>>): Text
  {
    if lines == [] then [] else AllText(lines[..|lines| - 1]) + LineText(lines[|lines| - 1])
  }

  /** The local state of the corrected loop: as in getLineList, with pieces on the lines. */
  datatype State = State(lines: seq<seq<Piece>>, line: seq<Piece>, sb: Text, cutWord: Text)

  const Start := State([], [], [], [])

  function Commit(b: State): State
  {
    b.(lines := b.lines + [b.line], line := [])
  }

  /**
   * The character scan, stopping at the first decision. It gives the length
   * of the head to keep on the line, or None when the word is to be carried
   * whole. As in getLineList, the character after a vowel joins `sb` with
   * the vowel and stays there, and the next turn appends it once more.
   */
  function FirstCut(sb: Text, w: Text, j: nat, width: real, measure: Text -> real): (head: Option<nat>)
    ensures head.Some? ==> 3 <= head.value < |w|
    decreases |w| - j
  {
    if j >= |w| then None
    else
      var sb' := sb + [w[j]];
      if LineBreaker.IsVowel(w[j]) then
        if j + 1 >= |w| then None
        else
          var sb2 := sb' + [w[j + 1]];
          if measure(sb2) > width then (if 2 < j && j + 2 < |w| then Some(j + 2) else None)
          else FirstCut(sb2, w, j + 1, width, measure)
      else if measure(sb') > width then
        (if 2 < j <= |w| - 2 then Some(j) else None)
      else FirstCut(sb', w, j + 1, width, measure)
  }

  function Resume(b: State): State
  {
    if b.cutWord != [] then
      State(b.lines, b.line + [Whole(b.cutWord)],
            b.sb + b.cutWord + (if IsCN(b.cutWord) then [] else [LineBreaker.BLANK]), [])
    else b
  }

  function Append(b: State, units: seq<Text>, i: nat): State
    requires i < |units|
  {
    var b1 := Resume(b);
    b1.(sb := b1.sb + LineBreaker.Spaced(units, i), line := b1.line + [Whole(units[i])])
  }

  /** The overflow branch: the word leaves the line and is carried whole or cut once. */
  function Overflow(b: State, w: Text, width: real, measure: Text -> real): State
    requires b.line != []
  {
    var b1 := b.(line := b.line[..|b.line| - 1]);
    if IsCN(w) || |w| <= 3 then Commit(b1).(cutWord := w, sb := [])
    else
      var end := if |b1.sb| - |w| - 1 < 0 then 0 else |b1.sb| - |w| - 1;
      match FirstCut(b1.sb[..end] + [LineBreaker.BLANK], w, 0, width, measure)
      case None => Commit(b1).(cutWord := w, sb := [])
      case Some(h) => Commit(b1.(line := b1.line + [Head(w[..h])])).(cutWord := w[h..], sb := [])
  }

  function Close(b: State, last: bool): State
  {
    if |b.line| > 0 && last then Commit(b) else b
  }

  function Step(b: State, units: seq<Text>, i: nat, width: real, measure: Text -> real): State
    requires i < |units|
  {
    var b2 := Append(b, units, i);
    var b3 := if measure(b2.sb) > width then Overflow(b2, units[i], width, measure) else b2;
    Close(b3, i == |units| - 1)
  }

  function Run(units: seq<Text>, n: nat, width: real, measure: Text -> real): State
    requires n <= |units|
  {
    if n == 0 then Start else Step(Run(units, n - 1, width, measure), units, n - 1, width, measure)
  }

  function Finish(b: State): seq<seq<Piece>>
  {
    if b.cutWord != [] then b.lines + [b.line + [Whole(b.cutWord)]] else b.lines
  }

  /** The lines of a paragraph; unlike getLineList this never throws. */
  function Lines(units: seq<Text>, width: real, measure: Text -> real): seq<seq<Piece>>
  {
    Finish(Run(units, |units|, width, measure))
  }

  // ---------------------------------------------------------------------
  // Every character lands on exactly one line

  lemma LineTextSnoc(line: seq<Piece>, p: Piece)
    ensures LineText(line + [p]) == LineText(line) + p.text
  {
    assert (line + [p])[..|line|] == line;
  }

  lemma AllTextSnoc(lines: seq<seq<Piece>>, line: seq<Piece>)
    ensures AllText(lines + [line]) == AllText(lines) + LineText(line)
  {
    assert (lines + [line])[..|lines|] == lines;
  }

  /** The text a state has placed or holds pending: finished lines, working line, carried rest. */
  function Placed(b: State): Text
  {
    AllText(b.lines) + LineText(b.line) + b.cutWord
  }

  lemma CommitPlaced(b: State)
    ensures Placed(Commit(b)) == Placed(b)
  {
    AllTextSnoc(b.lines, b.line);
  }

  lemma AppendPlaced(b: State, units: seq<Text>, i: nat)
    requires i < |units|
    ensures Placed(Append(b, units, i)) == Placed(b) + units[i]
    ensures Append(b, units, i).cutWord == []
  {
    var b1 := Resume(b);
    ResumePlaced(b);
    AppendShape(b, units, i);
    LineTextSnoc(b1.line, Whole(units[i]));
  }

  /** Appending a unit puts it on the resumed line and leaves nothing pending. */
  lemma AppendShape(b: State, units: seq<Text>, i: nat)
    requires i < |units|
    ensures var a := Append(b, units, i);
            a.lines == Resume(b).lines && a.line == Resume(b).line + [Whole(units[i])] && a.cutWord == []
  {
  }

  /** A pending `cutWord` moved onto the line is still placed, and nothing is pending after. */
  lemma ResumePlaced(b: State)
    ensures Placed(Resume(b)) == Placed(b) && Resume(b).cutWord == []
  {
    if b.cutWord != [] {
      LineTextSnoc(b.line, Whole(b.cutWord));
    }
  }

  /** Carrying a word pending leaves the placed text as it was. */
  lemma CarryPlaced(b: State, w: Text)
    requires b.cutWord == []
    ensures Placed(Commit(b).(cutWord := w, sb := [])) == Placed(b) + w
  {
    AllTextSnoc(b.lines, b.line);
  }

  /** Cutting a word into a head on the line and a pending rest leaves the placed text as it was. */
  lemma HeadPlaced(b: State, w: Text, h: nat)
    requires b.cutWord == [] && h <= |w|
    ensures Placed(Commit(b.(line := b.line + [Head(w[..h])])).(cutWord := w[h..], sb := [])) == Placed(b) + w
  {
    var b' := b.(line := b.line + [Head(w[..h])]);
    var c := Commit(b').(cutWord := w[h..], sb := []);
    var a, l, empty := AllText(b.lines), LineText(b.line), LineText([]);
    AllTextSnoc(b.lines, b'.line);
    LineTextSnoc(b.line, Head(w[..h]));
    assert AllText(c.lines) == a + (l + w[..h]);
    assert empty == [];
    assert Placed(c) == (a + (l + w[..h]) + empty) + w[h..];
    assert Placed(b) == a + l + [];
    AppendAssoc(a, l, w[..h]);
    AppendAssoc(a + l, w[..h], w[h..]);
    assert w[..h] + w[h..] == w;
  }

  lemma OverflowPlaced(b: State, w: Text, width: real, measure: Text -> real)
    requires b.line != [] && b.line[|b.line| - 1] == Whole(w) && b.cutWord == []
    ensures Placed(Overflow(b, w, width, measure)) == Placed(b)
  {
    var b1 := b.(line := b.line[..|b.line| - 1]);
    assert b1.line + [Whole(w)] == b.line;
    LineTextSnoc(b1.line, Whole(w));
    assert Placed(b) == Placed(b1) + w;
    CarryPlaced(b1, w);
    var end := if |b1.sb| - |w| - 1 < 0 then 0 else |b1.sb| - |w| - 1;
    var cut := FirstCut(b1.sb[..end] + [LineBreaker.BLANK], w, 0, width, measure);
    if IsCN(w) || |w| <= 3 || cut.None? {
      assert Overflow(b, w, width, measure) == Commit(b1).(cutWord := w, sb := []);
    } else {
      HeadPlaced(b1, w, cut.value);
      assert Overflow(b, w, width, measure)
          == Commit(b1.(line := b1.line + [Head(w[..cut.value])])).(cutWord := w[cut.value..], sb := []);
    }
  }

  lemma StepPlaced(b: State, units: seq<Text>, i: nat, width: real, measure: Text -> real)
    requires i < |units|
    ensures Placed(Step(b, units, i, width, measure)) == Placed(b) + units[i]
    ensures i == |units| - 1 ==> Step(b, units, i, width, measure).line == []
  {
    var b2 := Append(b, units, i);
    AppendPlaced(b, units, i);
    var b3 := if measure(b2.sb) > width then Overflow(b2, units[i], width, measure) else b2;
    if measure(b2.sb) > width {
      OverflowPlaced(b2, units[i], width, measure);
    }
    CommitPlaced(b3);
  }

  lemma {:induction false} RunPlaced(units: seq<Text>, n: nat, width: real, measure: Text -> real)
    requires n <= |units|
    ensures Placed(Run(units, n, width, measure)) == Flatten(units[..n])
  {
    if n > 0 {
      RunPlaced(units, n - 1, width, measure);
      StepPlaced(Run(units, n - 1, width, measure), units, n - 1, width, measure);
      assert units[..n][..n - 1] == units[..n - 1];
    }
  }

  /** After the last unit the working line is empty. */
  lemma RunEndsWithEmptyLine(units: seq<Text>, width: real, measure: Text -> real)
    ensures Run(units, |units|, width, measure).line == []
  {
    if units != [] {
      StepPlaced(Run(units, |units| - 1, width, measure), units, |units| - 1, width, measure);
    }
  }

  /**
   * The round trip the line breaker is for: joining the characters of all
   * pieces of all lines, hyphens dropped, gives back the units of the paragraph.
   */
  lemma LinesRebuildUnits(units: seq<Text>, width: real, measure: Text -> real)
    ensures AllText(Lines(units, width, measure)) == Flatten(units)
  {
    RunPlaced(units, |units|, width, measure);
    RunEndsWithEmptyLine(units, width, measure);
    FinishPlaced(Run(units, |units|, width, measure));
    assert units[..|units|] == units;
  }

  lemma FinishPlaced(b: State)
    requires b.line == []
    ensures AllText(Finish(b)) == Placed(b)
  {
    assert LineText([]) == [];
    if b.cutWord != [] {
      AllTextSnoc(b.lines, b.line + [Whole(b.cutWord)]);
      LineTextSnoc(b.line, Whole(b.cutWord));
    }
  }

  /** A head is cut after at least three characters and leaves at least one for the next line. */
  lemma HeadsAreProperPrefixes(sb: Text, w: Text, width: real, measure: Text -> real)
    ensures var h := FirstCut(sb, w, 0, width, measure);
            h.Some? ==> 3 <= |w[..h.value]| && w[h.value..] != [] && w[..h.value] + w[h.value..] == w
  {
  }

  /**
   * When the paragraph's spaced text fits the width and the measurer is
   * monotone, nothing overflows: `sb` holds the spaced text so far and a
   * non-empty paragraph ends as one line of whole units.
   */
  lemma {:induction false} RunWithoutOverflow(units: seq<Text>, n: nat, width: real, measure: Text -> real)
    requires n <= |units| && LineBreaker.Monotone(measure)
    requires measure(LineBreaker.SpacedText(units, |units|)) <= width
    ensures var b := Run(units, n, width, measure);
            && b.cutWord == [] && b.sb == LineBreaker.SpacedText(units, n)
            && (if 0 < n == |units| then b.lines == [Wholes(units)] && b.line == []
                else b.lines == [] && b.line == Wholes(units[..n]))
  {
    if n > 0 {
      RunWithoutOverflow(units, n - 1, width, measure);
      LineBreaker.SpacedTextGrows(units, n, |units|, measure);
      FittingStep(Run(units, n - 1, width, measure), units, n - 1, width, measure);
    }
  }

  /** A unit that fits, after a run of units that all fit, joins the working line whole. */
  lemma FittingStep(b: State, units: seq<Text>, i: nat, width: real, measure: Text -> real)
    requires i < |units| && measure(Append(b, units, i).sb) <= width
    requires b.cutWord == [] && b.lines == [] && b.line == Wholes(units[..i])
    ensures var r := Step(b, units, i, width, measure);
            && r.cutWord == [] && r.sb == b.sb + LineBreaker.Spaced(units, i)
            && (if i + 1 == |units| then r.lines == [Wholes(units)] && r.line == []
                else r.lines == [] && r.line == Wholes(units[..i + 1]))
  {
    var b2 := b.(sb := b.sb + LineBreaker.Spaced(units, i), line := b.line + [Whole(units[i])]);
    assert Append(b, units, i) == b2;
    TakeSnoc(units, i);
    WholesSnoc(units[..i], units[i]);
    if i + 1 == |units| {
      assert units[..i + 1] == units;
      assert Step(b, units, i, width, measure) == Commit(b2);
    } else {
      assert Step(b, units, i, width, measure) == b2;
    }
  }

  /** Every unit as a whole piece. */
  function Wholes(units: seq<Text>): (ps: seq<Piece>)
    ensures |ps| == |units|
  {
    if units == [] then [] else Wholes(units[..|units| - 1]) + [Whole(units[|units| - 1])]
  }

  lemma WholesSnoc(units: seq<Text>, u: Text)
    ensures Wholes(units + [u]) == Wholes(units) + [Whole(u)]
  {
    assert (units + [u])[..|units|] == units;
  }

  /** The corrected breaker agrees: a paragraph whose spaced text fits is one line of whole units. */
  lemma NoOverflowSingleLine(units: seq<Text>, width: real, measure: Text -> real)
    requires LineBreaker.Monotone(measure) && measure(LineBreaker.SpacedText(units, |units|)) <= width
    ensures Lines(units, width, measure) == (if units == [] then [] else [Wholes(units)])
  {
    RunWithoutOverflow(units, |units|, width, measure);
  }
}
