/**
 * getLineList of MixAlignTextView, as written: the state machine that packs
 * the units of one paragraph into lines measured against the view, carrying a
 * unit that does not fit to the next line and cutting long Latin words with
 * a hyphen. The widths come from the measurer `measure`, a parameter.
 */
module LineBreaker {
  import opened Wrappers
  import opened Platform
  import opened Extension

  /** STR_BLANK, the separator put after a Latin word. */
  const BLANK: CodeUnit := 0x20
  /** The marker appended to the first part of a cut word. */
  const HYPHEN: CodeUnit := 0x2D

  /** The exception `String.substring` throws for a negative end index. */
  datatype Failure = StringIndexOutOfBounds(end: int)

  /** mVowels: the letters A, E, I, O, U in either case. */
  predicate IsVowel(c: CodeUnit)
  {
    c == 0x41 || c == 0x45 || c == 0x49 || c == 0x4F || c == 0x55
    || c == 0x61 || c == 0x65 || c == 0x69 || c == 0x6F || c == 0x75
  }

  /**
   * The local state of getLineList: the finished `lines`, the working `line`,
   * the text `sb` being measured, and `cutWord`, the unit (or the rest of a
   * cut word) that opens the next line.
   */
  datatype Breaker = Breaker(lines: seq<seq<Text>>, line: seq<Text>, sb: Text, cutWord: Text)

  const Start := Breaker([], [], [], [])

  /** addLines: a copy of the working line is appended to `lines` and the line is cleared. */
  function Commit(b: Breaker): Breaker
  {
    b.(lines := b.lines + [b.line], line := [])
  }

  /** A pending `cutWord` opens the line, followed by a blank unless it is multi-byte. */
  function Resume(b: Breaker): Breaker
  {
    if b.cutWord != [] then
      Breaker(b.lines, b.line + [b.cutWord], b.sb + b.cutWord + (if IsCN(b.cutWord) then [] else [BLANK]), [])
    else b
  }

  /** What is appended to `sb` for unit `index`: a blank follows a Latin word followed by a Latin word. */
  function Spaced(units: seq<Text>, index: nat): Text
    requires index < |units|
  {
    var w := units[index];
    if IsCN(w) then w
    else if index + 1 < |units| then (if IsCN(units[index + 1]) then w else w + [BLANK])
    else w
  }

  /**
   * A cut decided at character `k` of `w`: when 2 < k <= |w| - 2 the line
   * gets `w[..prefixEnd]` and a hyphen and the rest from `k` on is carried;
   * otherwise the line is committed as it is and the whole word is carried.
   */
  function CutAt(b: Breaker, w: Text, k: nat, prefixEnd: nat): Breaker
    requires k < |w| && (prefixEnd == k || prefixEnd == k + 2)
  {
    if 2 < k <= |w| - 2 then Commit(b.(line := b.line + [w[..prefixEnd] + [HYPHEN]])).(cutWord := w[k..])
    else Commit(b).(cutWord := w)
  }

  /** The default rule: cut at `j` when `sb` is now too wide. */
  function DefaultRule(b: Breaker, w: Text, j: nat, width: real, measure: Text -> real): Breaker
    requires j < |w|
  {
    if measure(b.sb) > width then CutAt(b, w, j, j) else b
  }

  /**
   * One turn of `charLoop` for character `j`: the character joins `sb`; a
   * vowel with a successor also appends the successor and cuts after it when
   * that overflows; a vowel in last place commits the line and carries the
   * word; otherwise the default rule applies.
   */
  function ScanChar(b: Breaker, w: Text, j: nat, width: real, measure: Text -> real): Breaker
    requires j < |w|
  {
    var b1 := b.(sb := b.sb + [w[j]]);
    if IsVowel(w[j]) then
      if j + 1 < |w| then
        var b2 := b1.(sb := b1.sb + [w[j + 1]]);
        if measure(b2.sb) > width then CutAt(b2, w, j, j + 2) else DefaultRule(b2, w, j, width, measure)
      else Commit(b1).(cutWord := w)
    else DefaultRule(b1, w, j, width, measure)
  }

  /** A consonant that does not make `sb` too wide only joins `sb`. */
  lemma ScanCharQuiet(b: Breaker, w: Text, j: nat, width: real, measure: Text -> real)
    requires j < |w| && !IsVowel(w[j]) && measure(b.sb + [w[j]]) <= width
    ensures ScanChar(b, w, j, width, measure) == b.(sb := b.sb + [w[j]])
  {
  }

  /** `charLoop` from character `j` on; `return@charLoop` only ends the turn, so every character is visited. */
  function ScanFrom(b: Breaker, w: Text, j: nat, width: real, measure: Text -> real): Breaker
    decreases |w| - j
  {
    if j < |w| then ScanFrom(ScanChar(b, w, j, width, measure), w, j + 1, width, measure) else b
  }

  /**
   * The overflow branch for the word `w` just appended: it leaves the line;
   * a multi-byte or short word is carried whole; a longer word is scanned
   * character by character after `sb` is rebuilt without it.
   */
  function Overflow(b: Breaker, w: Text, width: real, measure: Text -> real): Result<Breaker, Failure>
    requires b.line != []
  {
    var b1 := b.(line := b.line[..|b.line| - 1]);
    if IsCN(w) || |w| <= 3 then Ok(Commit(b1).(cutWord := w, sb := []))
    else
      var end := |b1.sb| - |w| - 1;
      if end < 0 then Err(StringIndexOutOfBounds(end))
      else Ok(ScanFrom(b1.(sb := b1.sb[..end] + [BLANK]), w, 0, width, measure).(sb := []))
  }

  /** Unit `i` joins the line and `sb`, after the pending `cutWord`. */
  function Append(b: Breaker, units: seq<Text>, i: nat): Breaker
    requires i < |units|
  {
    var b1 := Resume(b);
    b1.(sb := b1.sb + Spaced(units, i), line := b1.line + [units[i]])
  }

  /** After the last unit a non-empty working line is committed. */
  function Close(b: Breaker, last: bool): Breaker
  {
    if |b.line| > 0 && last then Commit(b) else b
  }

  /** One turn of `forEachIndexed` over the units, for unit `i`. */
  function WordStep(b: Breaker, units: seq<Text>, i: nat, width: real, measure: Text -> real): Result<Breaker, Failure>
    requires i < |units|
  {
    var b2 := Append(b, units, i);
    if measure(b2.sb) > width then
      match Overflow(b2, units[i], width, measure)
      case Err(e) => Err(e)
      case Ok(b3) => Ok(Close(b3, i == |units| - 1))
    else Ok(Close(b2, i == |units| - 1))
  }

  /** A unit that fits leaves the state it was appended to, closed after the last unit. */
  lemma WordStepFits(b: Breaker, units: seq<Text>, i: nat, width: real, measure: Text -> real)
    requires i < |units| && measure(Append(b, units, i).sb) <= width
    ensures WordStep(b, units, i, width, measure) == Ok(Close(Append(b, units, i), i == |units| - 1))
  {
  }

  /** The state after the first `n` units, or the exception that stopped the loop. */
  function Run(units: seq<Text>, n: nat, width: real, measure: Text -> real): Result<Breaker, Failure>
    requires n <= |units|
  {
    if n == 0 then Ok(Start)
    else
      match Run(units, n - 1, width, measure)
      case Err(e) => Err(e)
      case Ok(b) => WordStep(b, units, n - 1, width, measure)
  }

  /** After the loop a pending `cutWord` gets a line of its own. */
  function Finish(b: Breaker): seq<seq<Text>>
  {
    if b.cutWord != [] then b.lines + [b.line + [b.cutWord]] else b.lines
  }

  /** getLineList: the lines of a paragraph, or the exception it throws. */
  function Lines(units: seq<Text>, width: real, measure: Text -> real): Result<seq<seq<Text>>, Failure>
  {
    match Run(units, |units|, width, measure)
    case Err(e) => Err(e)
    case Ok(b) => Ok(Finish(b))
  }

  // ---------------------------------------------------------------------
  // getLineList as the source runs it

  /** addLines: `lines` gets a copy of `line`, and `line` is cleared. */
  method AddLines(lines: seq<seq<Text>>, line: seq<Text>) returns (lines': seq<seq<Text>>, line': seq<Text>)
    ensures lines' == lines + [line] && line' == []
  {
    lines' := lines + [line];
    line' := [];
  }

  /** Once the loop has thrown, it stays thrown. */
  lemma {:induction false} RunErrSticky(units: seq<Text>, m: nat, n: nat, width: real, measure: Text -> real)
    requires m <= n <= |units| && Run(units, m, width, measure).Err?
    ensures Run(units, n, width, measure) == Run(units, m, width, measure)
    decreases n - m
  {
    if m < n {
      RunErrSticky(units, m, n - 1, width, measure);
    }
  }

  /** getLineList: a loop over the units that grows `lines`, `line`, `sb` and `cutWord`. */
  method LineList(paragraphStr: seq<Text>, width: real, measure: Text -> real)
    returns (r: Result<seq<seq<Text>>, Failure>)
    ensures r == Lines(paragraphStr, width, measure)
  {
    var lines: seq<seq<Text>> := [];
    var line: seq<Text> := [];
    var sb: Text := [];
    var cutWord: Text := [];
    for index := 0 to |paragraphStr|
      invariant Run(paragraphStr, index, width, measure) == Ok(Breaker(lines, line, sb, cutWord))
    {
      var failure: Option<Failure>;
      lines, line, sb, cutWord, failure := WordTurn(paragraphStr, index, lines, line, sb, cutWord, width, measure);
      if failure.Some? {
        RunErrSticky(paragraphStr, index + 1, |paragraphStr|, width, measure);
        return Err(failure.value);
      }
    }
    if cutWord != [] {
      line := line + [cutWord];
      lines, line := AddLines(lines, line);
    }
    return Ok(lines);
  }

  /** The body of `forEachIndexed` for unit `index`. */
  method WordTurn(paragraphStr: seq<Text>, index: nat, lines: seq<seq<Text>>, line: seq<Text>, sb: Text, cutWord: Text,
                  width: real, measure: Text -> real)
    returns (lines': seq<seq<Text>>, line': seq<Text>, sb': Text, cutWord': Text, failure: Option<Failure>)
    requires index < |paragraphStr|
    ensures var r := WordStep(Breaker(lines, line, sb, cutWord), paragraphStr, index, width, measure);
            match failure
            case Some(e) => r == Err(e)
            case None => r == Ok(Breaker(lines', line', sb', cutWord'))
  {
    lines', line', sb', cutWord' := lines, line, sb, cutWord;
    failure := None;
    var word := paragraphStr[index];
    if cutWord' != [] {
      sb' := sb' + cutWord';
      line' := line' + [cutWord'];
      if !IsCN(cutWord') {
        sb' := sb' + [BLANK];
      }
      cutWord' := [];
    }
    ghost var b1 := Breaker(lines', line', sb', cutWord');
    assert b1 == Resume(Breaker(lines, line, sb, cutWord));
    if IsCN(word) {
      sb' := sb' + word;
    } else if index + 1 < |paragraphStr| {
      var nextWord := paragraphStr[index + 1];
      if IsCN(nextWord) {
        sb' := sb' + word;
      } else {
        sb' := sb' + word + [BLANK];
      }
    } else {
      sb' := sb' + word;
    }
    assert sb' == b1.sb + Spaced(paragraphStr, index);
    line' := line' + [word];
    var lineWidth := measure(sb');
    if lineWidth > width {
      lines', line', sb', cutWord', failure := OverflowTurn(lines', line', sb', cutWord', width, measure);
      if failure.Some? {
        return;
      }
    }
    if |line'| > 0 && index == |paragraphStr| - 1 {
      lines', line' := AddLines(lines', line');
    }
  }

  /** The overflow branch: the last unit of the line has made `sb` too wide. */
  method OverflowTurn(lines: seq<seq<Text>>, line: seq<Text>, sb: Text, cutWord: Text, width: real, measure: Text -> real)
    returns (lines': seq<seq<Text>>, line': seq<Text>, sb': Text, cutWord': Text, failure: Option<Failure>)
    requires line != []
    ensures var r := Overflow(Breaker(lines, line, sb, cutWord), line[|line| - 1], width, measure);
            match failure
            case Some(e) => r == Err(e)
            case None => r == Ok(Breaker(lines', line', sb', cutWord'))
  {
    lines', line', sb', cutWord' := lines, line, sb, cutWord;
    failure := None;
    var lineLastWord := line'[|line'| - 1];
    line' := line'[..|line'| - 1];
    if IsCN(lineLastWord) {
      lines', line' := AddLines(lines', line');
      cutWord' := lineLastWord;
    } else {
      var lastWordLength := |lineLastWord|;
      if lastWordLength <= 3 {
        lines', line' := AddLines(lines', line');
        cutWord' := lineLastWord;
      } else {
        var end := |sb'| - lastWordLength - 1;
        if end < 0 {
          return lines', line', sb', cutWord', Some(StringIndexOutOfBounds(end));
        }
        var cutForwardStr := sb'[..end];
        sb' := cutForwardStr + [BLANK];
        lines', line', sb', cutWord' := CharLoop(lineLastWord, lines', line', sb', cutWord', width, measure);
      }
    }
    sb' := [];
  }

  /** `charLoop` over the characters of the overflowing word. */
  method CharLoop(lineLastWord: Text, lines: seq<seq<Text>>, line: seq<Text>, sb: Text, cutWord: Text,
                  width: real, measure: Text -> real)
    returns (lines': seq<seq<Text>>, line': seq<Text>, sb': Text, cutWord': Text)
    ensures Breaker(lines', line', sb', cutWord') == ScanFrom(Breaker(lines, line, sb, cutWord), lineLastWord, 0, width, measure)
  {
    lines', line', sb', cutWord' := lines, line, sb, cutWord;
    for charIndex := 0 to |lineLastWord|
      invariant ScanFrom(Breaker(lines', line', sb', cutWord'), lineLastWord, charIndex, width, measure)
             == ScanFrom(Breaker(lines, line, sb, cutWord), lineLastWord, 0, width, measure)
    {
      lines', line', sb', cutWord' := CharTurn(lineLastWord, charIndex, lines', line', sb', cutWord', width, measure);
    }
  }

  /** One turn of `charLoop`; `return@charLoop` ends only this turn. */
  method CharTurn(lineLastWord: Text, charIndex: nat, lines: seq<seq<Text>>, line: seq<Text>, sb: Text, cutWord: Text,
                  width: real, measure: Text -> real)
    returns (lines': seq<seq<Text>>, line': seq<Text>, sb': Text, cutWord': Text)
    requires charIndex < |lineLastWord|
    ensures Breaker(lines', line', sb', cutWord') == ScanChar(Breaker(lines, line, sb, cutWord), lineLastWord, charIndex, width, measure)
  {
    lines', line', sb', cutWord' := lines, line, sb, cutWord;
    var lastWordLength := |lineLastWord|;
    var c := lineLastWord[charIndex];
    sb' := sb' + [c];
    if IsVowel(c) {
      if charIndex + 1 < lastWordLength {
        var lastNextChar := lineLastWord[charIndex + 1];
        sb' := sb' + [lastNextChar];
        var lineWidth := measure(sb');
        var cutIndex := charIndex;
        if lineWidth > width {
          if cutIndex > 2 && cutIndex <= lastWordLength - 2 {
            line' := line' + [lineLastWord[..cutIndex + 2] + [HYPHEN]];
            lines', line' := AddLines(lines', line');
            cutWord' := lineLastWord[cutIndex..];
          } else {
            lines', line' := AddLines(lines', line');
            cutWord' := lineLastWord;
          }
          return;
        }
      } else {
        lines', line' := AddLines(lines', line');
        cutWord' := lineLastWord;
        return;
      }
    }
    var lineWidth := measure(sb');
    if lineWidth > width {
      if charIndex > 2 && charIndex <= lastWordLength - 2 {
        line' := line' + [lineLastWord[..charIndex] + [HYPHEN]];
        lines', line' := AddLines(lines', line');
        cutWord' := lineLastWord[charIndex..];
      } else {
        lines', line' := AddLines(lines', line');
        cutWord' := lineLastWord;
      }
    }
  }

  // ---------------------------------------------------------------------
  // What the breaker guarantees

  /** The text `sb` gathers from the first `n` units when no unit is ever carried. */
  function SpacedText(units: seq<Text>, n: nat): Text
    requires n <= |units|
  {
    if n == 0 then [] else SpacedText(units, n - 1) + Spaced(units, n - 1)
  }

  /** Under a monotone measurer the spaced text of a prefix is no wider than that of a longer prefix. */
  lemma {:induction false} SpacedTextGrows(units: seq<Text>, m: nat, n: nat, measure: Text -> real)
    requires m <= n <= |units| && Monotone(measure)
    ensures measure(SpacedText(units, m)) <= measure(SpacedText(units, n))
    decreases n - m
  {
    if m < n {
      SpacedTextGrows(units, m, n - 1, measure);
      MeasureGrows(measure, SpacedText(units, n - 1), Spaced(units, n - 1));
    }
  }

  lemma MeasureGrows(measure: Text -> real, s: Text, t: Text)
    requires Monotone(measure)
    ensures measure(s) <= measure(s + t)
  {
  }

  /**
   * The state after `n` units when the whole paragraph, spaced as `sb`
   * spaces it, fits the width: nothing overflows, nothing is carried, and
   * `sb` holds the spaced text of the units so far.
   */
  lemma {:induction false} RunWithoutOverflow(units: seq<Text>, n: nat, width: real, measure: Text -> real)
    requires n <= |units| && Monotone(measure) && measure(SpacedText(units, |units|)) <= width
    ensures Run(units, n, width, measure).Ok?
    ensures var b := Run(units, n, width, measure).value;
            && b.cutWord == [] && b.sb == SpacedText(units, n)
            && (if 0 < n == |units| then b.lines == [units] && b.line == [] else b.lines == [] && b.line == units[..n])
  {
    if n > 0 {
      RunWithoutOverflow(units, n - 1, width, measure);
      var b := Run(units, n - 1, width, measure).value;
      SpacedTextGrows(units, n, |units|, measure);
      FittingTurn(b, units, n - 1, width, measure);
    }
  }

  /** A unit that fits, after a run of units that all fit, joins the working line. */
  lemma FittingTurn(b: Breaker, units: seq<Text>, i: nat, width: real, measure: Text -> real)
    requires i < |units| && b.cutWord == [] && b.lines == [] && b.line == units[..i]
    requires measure(b.sb + Spaced(units, i)) <= width
    ensures WordStep(b, units, i, width, measure)
         == Ok(if i + 1 == |units| then Breaker([units], [], b.sb + Spaced(units, i), [])
               else Breaker([], units[..i + 1], b.sb + Spaced(units, i), []))
  {
    var a := Append(b, units, i);
    assert units[..i] + [units[i]] == units[..i + 1];
    assert a == b.(sb := b.sb + Spaced(units, i), line := units[..i + 1]);
    WordStepFits(b, units, i, width, measure);
    if i + 1 == |units| {
      assert units[..i + 1] == units;
      assert Close(a, true) == Breaker([units], [], a.sb, []);
    }
  }

  /**
   * When the paragraph's spaced text fits the width and the measurer is
   * monotone, a non-empty paragraph is one line holding all its units, an
   * empty one no line.
   */
  lemma NoOverflowSingleLine(units: seq<Text>, width: real, measure: Text -> real)
    requires Monotone(measure) && measure(SpacedText(units, |units|)) <= width
    ensures Lines(units, width, measure) == Ok(if units == [] then [] else [units])
  {
    RunWithoutOverflow(units, |units|, width, measure);
  }

  /**
   * A multi-byte unit, or one of at most three characters, that makes the
   * line overflow is taken off the line, the line is committed, and the unit
   * alone opens the next line, or forms a final line of its own.
   */
  lemma UnsplittableUnitCarried(units: seq<Text>, i: nat, width: real, measure: Text -> real)
    requires i < |units| && Run(units, i, width, measure).Ok?
    requires units[i] != [] && (IsCN(units[i]) || |units[i]| <= 3)
    requires measure(Resume(Run(units, i, width, measure).value).sb + Spaced(units, i)) > width
    ensures var b1 := Resume(Run(units, i, width, measure).value);
            Run(units, i + 1, width, measure) == Ok(Breaker(b1.lines + [b1.line], [], [], units[i]))
    ensures Resume(Run(units, i + 1, width, measure).value).line == [units[i]]
    ensures i == |units| - 1 ==>
              var b1 := Resume(Run(units, i, width, measure).value);
              Lines(units, width, measure) == Ok(b1.lines + [b1.line] + [[units[i]]])
  {
    var b1 := Resume(Run(units, i, width, measure).value);
    assert (b1.line + [units[i]])[..|b1.line|] == b1.line;
  }

  /**
   * The exception: the loop throws exactly when a Latin word of more than
   * three characters overflows while `sb` holds nothing before it and no
   * blank after it, and then the end index is -1.
   */
  lemma CrashCondition(b: Breaker, units: seq<Text>, i: nat, width: real, measure: Text -> real)
    requires i < |units|
    ensures var w := units[i];
            var b1 := Resume(b);
            WordStep(b, units, i, width, measure).Err?
            <==> (&& measure(b1.sb + Spaced(units, i)) > width && !IsCN(w) && |w| > 3
                  && b1.sb == [] && Spaced(units, i) == w)
    ensures WordStep(b, units, i, width, measure).Err? ==>
              WordStep(b, units, i, width, measure) == Err(StringIndexOutOfBounds(-1))
  {
  }

  /** A paragraph that is one long Latin word wider than the view makes getLineList throw. */
  lemma LoneLongWordCrashes(w: Text, width: real, measure: Text -> real)
    requires !IsCN(w) && |w| > 3 && measure(w) > width
    ensures Lines([w], width, measure) == Err(StringIndexOutOfBounds(-1))
  {
    CrashCondition(Start, [w], 0, width, measure);
    assert Resume(Start).sb + Spaced([w], 0) == w;
    assert Run([w], 1, width, measure) == WordStep(Start, [w], 0, width, measure);
  }

  /** A width that never shrinks when text is appended. */
  ghost predicate Monotone(measure: Text -> real)
  {
    forall s, t :: measure(s) <= measure(s + t)
  }

  /** Once `sb` is too wide, every turn of the scan commits one line and `sb` stays too wide. */
  lemma ScanCharPastOverflow(b: Breaker, w: Text, j: nat, width: real, measure: Text -> real)
    requires Monotone(measure) && measure(b.sb) > width && j < |w|
    ensures var r := ScanChar(b, w, j, width, measure);
            && |r.lines| == |b.lines| + 1 && r.line == [] && measure(r.sb) > width
            && (j == |w| - 1 ==> r.cutWord == w)
  {
    assert measure(b.sb) <= measure(b.sb + [w[j]]);
    if IsVowel(w[j]) && j + 1 < |w| {
      assert measure(b.sb + [w[j]]) <= measure(b.sb + [w[j]] + [w[j + 1]]);
    }
  }

  /**
   * Because `return@charLoop` does not leave the loop, a scan that has
   * overflowed goes on committing one line per remaining character, and the
   * last character always sets `cutWord` back to the whole word.
   */
  lemma {:induction false} ScanPastOverflow(b: Breaker, w: Text, j: nat, width: real, measure: Text -> real)
    requires Monotone(measure) && measure(b.sb) > width && j < |w|
    ensures var r := ScanFrom(b, w, j, width, measure);
            r.cutWord == w && r.line == [] && |r.lines| == |b.lines| + |w| - j
    decreases |w| - j
  {
    var b' := ScanChar(b, w, j, width, measure);
    ScanCharPastOverflow(b, w, j, width, measure);
    if j + 1 < |w| {
      ScanPastOverflow(b', w, j + 1, width, measure);
    }
  }

  /**
   * What a turn past the overflow commits: at a legal index the working line
   * closed by the hyphenated prefix (two characters longer after a vowel),
   * which is then carried from that index; at any other index the working
   * line as it stands, with the whole word carried.
   */
  lemma ScanCharCommitsFragment(b: Breaker, w: Text, j: nat, width: real, measure: Text -> real)
    requires Monotone(measure) && measure(b.sb) > width && j < |w|
    ensures var r := ScanChar(b, w, j, width, measure);
            && (2 < j <= |w| - 2 && !IsVowel(w[j]) ==>
                  r.lines == b.lines + [b.line + [w[..j] + [HYPHEN]]] && r.cutWord == w[j..])
            && (2 < j <= |w| - 2 && IsVowel(w[j]) ==>
                  r.lines == b.lines + [b.line + [w[..j + 2] + [HYPHEN]]] && r.cutWord == w[j..])
            && (!(2 < j <= |w| - 2) ==> r.lines == b.lines + [b.line] && r.cutWord == w)
  {
    assert measure(b.sb) <= measure(b.sb + [w[j]]);
    if IsVowel(w[j]) && j + 1 < |w| {
      assert measure(b.sb + [w[j]]) <= measure(b.sb + [w[j]] + [w[j + 1]]);
    }
  }

  /**
   * The vowel rule's carry is overwritten: the turn at a vowel whose
   * look-ahead overflows carries `w[k..]`, but the scan goes on and ends
   * with the whole word in `cutWord`, so the rest overlapping the prefix by
   * two characters never reaches a line.
   */
  lemma VowelCarryOverwritten(b: Breaker, w: Text, k: nat, width: real, measure: Text -> real)
    requires Monotone(measure) && 2 < k <= |w| - 2 && IsVowel(w[k])
    requires measure(b.sb + [w[k]] + [w[k + 1]]) > width
    ensures ScanChar(b, w, k, width, measure).cutWord == w[k..]
    ensures ScanFrom(b, w, k, width, measure).cutWord == w
  {
    var r := ScanChar(b, w, k, width, measure);
    assert r.sb == b.sb + [w[k]] + [w[k + 1]];
    ScanPastOverflow(r, w, k + 1, width, measure);
  }

  /**
   * A unit a cut may add to a line, then a hyphen: the default rule's prefix
   * `w[..k]` or the vowel rule's `w[..k + 2]`, for a legal index 2 < k <= |w| - 2.
   */
  predicate IsFragment(f: Text, w: Text)
  {
    || (exists k :: 2 < k <= |w| - 2 && f == w[..k] + [HYPHEN])
    || (exists e :: 4 < e <= |w| && f == w[..e] + [HYPHEN])
  }

  /** What a cut may leave in `cutWord`: the whole word or its rest from a legal index `k`. */
  predicate IsCarry(c: Text, w: Text)
  {
    c == w || exists k :: 2 < k <= |w| - 2 && c == w[k..]
  }

  /** What one turn of the scan may do to the state: commit lines made of old units and fragments. */
  predicate ScanEffect(b: Breaker, r: Breaker, w: Text)
  {
    && |b.lines| <= |r.lines| && r.lines[..|b.lines|] == b.lines
    && (r.cutWord == b.cutWord || IsCarry(r.cutWord, w))
    && (forall u :: u in r.line ==> u in b.line)
    && (forall i, u :: |b.lines| <= i < |r.lines| && u in r.lines[i] ==> u in b.line || IsFragment(u, w))
  }

  lemma ScanCharCuts(b: Breaker, w: Text, j: nat, width: real, measure: Text -> real)
    requires j < |w|
    ensures ScanEffect(b, ScanChar(b, w, j, width, measure), w)
  {
    if 2 < j <= |w| - 2 {
      assert IsFragment(w[..j] + [HYPHEN], w);
      assert IsFragment(w[..j + 2] + [HYPHEN], w);
      assert IsCarry(w[j..], w);
    }
  }

  lemma ScanEffectTrans(a: Breaker, b: Breaker, c: Breaker, w: Text)
    requires ScanEffect(a, b, w) && ScanEffect(b, c, w)
    ensures ScanEffect(a, c, w)
  {
    assert c.lines[..|a.lines|] == c.lines[..|b.lines|][..|a.lines|];
    forall i, u | |a.lines| <= i < |c.lines| && u in c.lines[i]
      ensures u in a.line || IsFragment(u, w)
    {
      if i < |b.lines| {
        assert c.lines[i] == b.lines[i];
      }
    }
  }

  /**
   * The scan only appends lines, and every unit it adds to a line is a
   * hyphenated prefix cut at an index k with 2 < k <= |w| - 2; `cutWord`
   * ends as it was, the whole word, or the word's rest from such a k.
   */
  lemma {:induction false} ScanCutsAtLegalIndices(b: Breaker, w: Text, j: nat, width: real, measure: Text -> real)
    ensures ScanEffect(b, ScanFrom(b, w, j, width, measure), w)
    decreases |w| - j
  {
    if j < |w| {
      var b' := ScanChar(b, w, j, width, measure);
      ScanCharCuts(b, w, j, width, measure);
      ScanCutsAtLegalIndices(b', w, j + 1, width, measure);
      ScanEffectTrans(b, b', ScanFrom(b', w, j + 1, width, measure), w);
    }
  }

  /**
   * At a legal index the default rule's prefix and carried rest rebuild the
   * word, while the vowel rule's prefix ends two characters past the start
   * of the rest, so those two characters appear twice.
   */
  lemma CutPieces(b: Breaker, w: Text, k: nat, prefixEnd: nat)
    requires 2 < k <= |w| - 2 && (prefixEnd == k || prefixEnd == k + 2)
    ensures var r := CutAt(b, w, k, prefixEnd);
            var last := r.lines[|r.lines| - 1];
            && last == b.line + [w[..prefixEnd] + [HYPHEN]] && r.cutWord == w[k..]
            && (w[..prefixEnd] + r.cutWord == w <==> prefixEnd == k)
  {
    var r := CutAt(b, w, k, prefixEnd);
    if prefixEnd == k {
      assert w[..k] + w[k..] == w;
    } else {
      assert |w[..prefixEnd] + r.cutWord| == |w| + 2;
    }
  }

  /**
   * From character `j` on, the scan of `w` meets no vowel and `sb`, grown
   * one character at a time, never becomes too wide.
   */
  predicate Quiet(sb: Text, w: Text, j: nat, width: real, measure: Text -> real)
    decreases |w| - j
  {
    j >= |w|
    || (!IsVowel(w[j]) && measure(sb + [w[j]]) <= width && Quiet(sb + [w[j]], w, j + 1, width, measure))
  }

  /** A scan that meets no vowel and never overflows only grows `sb`. */
  lemma {:induction false} QuietScan(b: Breaker, w: Text, j: nat, width: real, measure: Text -> real)
    requires j <= |w| && Quiet(b.sb, w, j, width, measure)
    ensures ScanFrom(b, w, j, width, measure) == b.(sb := b.sb + w[j..])
    decreases |w| - j
  {
    if j < |w| {
      ScanCharQuiet(b, w, j, width, measure);
      var b' := b.(sb := b.sb + [w[j]]);
      QuietScan(b', w, j + 1, width, measure);
      AppendAssoc(b.sb, [w[j]], w[j + 1..]);
      assert [w[j]] + w[j + 1..] == w[j..];
    }
  }

  /**
   * A long Latin word that overflows as a whole but whose character scan
   * meets no vowel and never overflows is lost: it is in no line and not in
   * `cutWord`, and the words before it stay on the working line.
   */
  lemma WordLostWhenScanFits(b: Breaker, units: seq<Text>, i: nat, width: real, measure: Text -> real)
    requires i < |units|
    requires var b2 := Append(b, units, i); var w := units[i];
             && measure(b2.sb) > width && !IsCN(w) && |w| > 3 && |b2.sb| - |w| - 1 >= 0
             && Quiet(b2.sb[..|b2.sb| - |w| - 1] + [BLANK], w, 0, width, measure)
    ensures var b2 := Append(b, units, i);
            var kept := b2.(line := b2.line[..|b2.line| - 1], sb := []);
            WordStep(b, units, i, width, measure) == Ok(Close(kept, i == |units| - 1))
    ensures var b1 := Resume(b);
            WordStep(b, units, i, width, measure).value.cutWord == []
            && WordStep(b, units, i, width, measure).value.lines[..|b1.lines|] == b1.lines
  {
    var b2 := Append(b, units, i);
    var w := units[i];
    OverflowDropsWord(b2, w, width, measure);
  }

  /** The overflow branch for a word whose scan stays quiet ends with the word off the line and `sb` cleared. */
  lemma OverflowDropsWord(b2: Breaker, w: Text, width: real, measure: Text -> real)
    requires b2.line != [] && !IsCN(w) && |w| > 3 && |b2.sb| - |w| - 1 >= 0
    requires Quiet(b2.sb[..|b2.sb| - |w| - 1] + [BLANK], w, 0, width, measure)
    ensures Overflow(b2, w, width, measure) == Ok(b2.(line := b2.line[..|b2.line| - 1], sb := []))
  {
    var b1 := b2.(line := b2.line[..|b2.line| - 1]);
    var start := b1.(sb := b1.sb[..|b1.sb| - |w| - 1] + [BLANK]);
    QuietScan(start, w, 0, width, measure);
  }
}
