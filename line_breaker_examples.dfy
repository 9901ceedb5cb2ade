/**
 * A concrete run of the line breaker as written, on units the segmenter
 * produces, in which a word is lost.
 * Widths are counted in cells: one per ASCII character, two per wider
 * character, which is how a monospaced CJK font measures text.
 */
module LineBreakerExamples {
  import opened Wrappers
  import opened Platform
  import opened Extension
  import opened Paragraphs
  import opened ParagraphsExamples
  import opened LineBreaker

  /** Width of `s` in a monospaced font where non-ASCII characters take two cells. */
  function Cells(s: Text): (r: real)
    ensures r >= |s| as real
  {
    if s == [] then 0.0 else Cells(s[..|s| - 1]) + (if s[|s| - 1] >= 0x80 then 2.0 else 1.0)
  }

  const HAN: Text := [0x6C49]
  const ZI: Text := [0x5B57]
  const MYTH: Text := [0x6D, 0x79, 0x74, 0x68]
  /** The paragraph "汉 myth字". */
  const PARA: Text := [0x6C49, 0x20, 0x6D, 0x79, 0x74, 0x68, 0x5B57]
  /** Its units: an empty unit, "汉", "myth" and "字". */
  const UNITS: seq<Text> := [[], HAN, MYTH, ZI]

  /** getWorldsList cuts "汉 myth字" into "", "汉", "myth" and "字". */
  lemma ParagraphUnits()
    ensures Words(PARA, FullStop) == UNITS
  {
    IdeographIsWide(0x6C49);
    IdeographIsWide(0x5B57);
    AsciiWordIsPlain(MYTH);
    WideBlankWordWide(0x6C49, MYTH, 0x5B57, FullStop);
    assert [0x6C49, SPACE] + MYTH + [0x5B57] == PARA;
  }

  lemma {:induction false} CellsAscii(s: Text)
    requires forall i :: 0 <= i < |s| ==> s[i] < 0x80
    ensures Cells(s) == |s| as real
    decreases |s|
  {
    if s != [] {
      CellsAscii(s[..|s| - 1]);
    }
  }

  /** The cells of two texts side by side add up. */
  lemma {:induction false} CellsAppend(s: Text, t: Text)
    ensures Cells(s + t) == Cells(s) + Cells(t)
    decreases |t|
  {
    if t == [] {
      assert s + t == s;
    } else {
      var t' := t[..|t| - 1];
      CellsAppend(s, t');
      assert (s + t)[..|s + t| - 1] == s + t';
      assert (s + t)[|s + t| - 1] == t[|t| - 1];
    }
  }

  /** Appending text never makes it narrower, so the cell count is a monotone measurer. */
  lemma CellsMonotone()
    ensures Monotone(Cells)
  {
    forall s: Text, t: Text
      ensures Cells(s) <= Cells(s + t)
    {
      CellsAppend(s, t);
    }
  }

  /**
   * Rescanning an ASCII word without vowels from `sb` stays quiet while the
   * whole of it fits in five cells.
   */
  lemma {:induction false} QuietWhenShort(sb: Text, w: Text, j: nat)
    requires j <= |w| && |sb| + |w| - j <= 5
    requires forall k :: 0 <= k < |sb| ==> sb[k] < 0x80
    requires forall k :: j <= k < |w| ==> w[k] < 0x80 && !IsVowel(w[k])
    ensures Quiet(sb, w, j, 5.0, Cells)
    decreases |w| - j
  {
    if j < |w| {
      var sb' := sb + [w[j]];
      assert forall k :: 0 <= k < |sb'| ==> sb'[k] < 0x80 by {
        forall k | 0 <= k < |sb'| ensures sb'[k] < 0x80 {
          if k < |sb| { assert sb'[k] == sb[k]; }
        }
      }
      CellsAscii(sb');
      QuietWhenShort(sb', w, j + 1);
    }
  }

  /** The empty unit, followed by "汉", adds nothing to `sb`. */
  lemma EmptyUnit()
    ensures Run(UNITS, 1, 5.0, Cells) == Ok(Breaker([], [[]], [], []))
  {
    IsCNUnit(0x6C49);
    assert !IsCN([]);
    assert Spaced(UNITS, 0) == [];
    assert Resume(Start) == Start;
    assert Start.line + [UNITS[0]] == [[]];
    assert WordStep(Start, UNITS, 0, 5.0, Cells) == Ok(Breaker([], [[]], [], []));
    assert Run(UNITS, 1, 5.0, Cells) == WordStep(Start, UNITS, 0, 5.0, Cells);
  }

  /** After "汉" the line holds the empty unit and "汉", and `sb` is "汉". */
  lemma HanUnit()
    ensures Run(UNITS, 2, 5.0, Cells) == Ok(Breaker([], [[], HAN], HAN, []))
  {
    EmptyUnit();
    IsCNUnit(0x6C49);
    var b := Breaker([], [[]], [], []);
    assert Spaced(UNITS, 1) == HAN;
    assert Cells(HAN) == 2.0 by { assert HAN[..0] == []; }
    assert b.sb + HAN == HAN && b.line + [HAN] == [[], HAN];
    assert WordStep(b, UNITS, 1, 5.0, Cells) == Ok(Breaker([], [[], HAN], HAN, []));
    assert Run(UNITS, 2, 5.0, Cells) == WordStep(b, UNITS, 1, 5.0, Cells);
  }

  /** "汉myth" takes six cells. */
  lemma HanMythCells()
    ensures Cells(HAN + MYTH) == 6.0
  {
    var sb: Text := HAN + MYTH;
    assert sb[..4] == [0x6C49, 0x6D, 0x79, 0x74];
    assert sb[..4][..3] == [0x6C49, 0x6D, 0x79];
    assert sb[..4][..3][..2] == [0x6C49, 0x6D];
    assert sb[..4][..3][..2][..1] == HAN;
    assert HAN[..0] == [];
  }

  /** "myth", followed by "字", joins the line with no blank, and `sb` becomes "汉myth". */
  lemma MythAppended()
    ensures Append(Breaker([], [[], HAN], HAN, []), UNITS, 2) == Breaker([], [[], HAN, MYTH], HAN + MYTH, [])
  {
    IsCNUnit(0x5B57);
    AsciiIsNotCN(MYTH);
    assert Spaced(UNITS, 2) == MYTH;
  }

  /** "汉myth" overflows, "myth" is a long Latin word, and its rescan " myth" stays quiet. */
  lemma MythOverflowsQuietly()
    ensures Cells(HAN + MYTH) > 5.0 && !IsCN(MYTH) && |MYTH| > 3
    ensures Quiet((HAN + MYTH)[..0] + [BLANK], MYTH, 0, 5.0, Cells)
  {
    AsciiIsNotCN(MYTH);
    HanMythCells();
    QuietWhenShort([BLANK], MYTH, 0);
    assert (HAN + MYTH)[..0] + [BLANK] == [BLANK];
  }

  /** The step for "myth" takes it off the line and keeps it nowhere. */
  lemma MythLost()
    ensures WordStep(Breaker([], [[], HAN], HAN, []), UNITS, 2, 5.0, Cells) == Ok(Breaker([], [[], HAN], [], []))
  {
    var b := Breaker([], [[], HAN], HAN, []);
    var b2 := Breaker([], [[], HAN, MYTH], HAN + MYTH, []);
    MythAppended();
    MythOverflowsQuietly();
    assert UNITS[2] == MYTH && |b2.sb| - |MYTH| - 1 == 0;
    WordLostWhenScanFits(b, UNITS, 2, 5.0, Cells);
    var kept := b2.(line := b2.line[..2], sb := []);
    assert kept == Breaker([], [[], HAN], [], []);
    assert Close(kept, false) == kept;
  }

  /** "myth" overflows, is taken off the line, and is not kept anywhere. */
  lemma MythUnit()
    ensures Run(UNITS, 3, 5.0, Cells) == Ok(Breaker([], [[], HAN], [], []))
  {
    HanUnit();
    MythLost();
    assert Run(UNITS, 3, 5.0, Cells) == WordStep(Breaker([], [[], HAN], HAN, []), UNITS, 2, 5.0, Cells);
  }

  /** "字" joins the emptied line, which then holds "", "汉" and "字". */
  lemma ZiAppended()
    ensures Append(Breaker([], [[], HAN], [], []), UNITS, 3) == Breaker([], [[], HAN, ZI], ZI, [])
  {
    IsCNUnit(0x5B57);
    assert Spaced(UNITS, 3) == ZI;
  }

  /** "字" fits and closes the paragraph. */
  lemma ZiUnit()
    ensures Run(UNITS, 4, 5.0, Cells) == Ok(Breaker([[[], HAN, ZI]], [], ZI, []))
  {
    MythUnit();
    var b := Breaker([], [[], HAN], [], []);
    ZiAppended();
    assert Cells(ZI) == 2.0 by { assert ZI[..0] == []; }
    WordStepFits(b, UNITS, 3, 5.0, Cells);
    var a := Breaker([], [[], HAN, ZI], ZI, []);
    assert |UNITS| - 1 == 3;
    assert Close(a, true) == Breaker([[[], HAN, ZI]], [], ZI, []);
    assert WordStep(b, UNITS, 3, 5.0, Cells) == Ok(Close(a, true));
    assert Run(UNITS, 4, 5.0, Cells) == WordStep(b, UNITS, 3, 5.0, Cells);
  }

  /**
   * At a width of five cells the paragraph "汉 myth字" is segmented into
   * "", "汉", "myth" and "字" and laid out as the single line "汉字": the
   * word "myth" is dropped.
   */
  lemma MythIsDropped()
    ensures Words(PARA, FullStop) == UNITS
    ensures Lines(Words(PARA, FullStop), 5.0, Cells) == Ok([[[], HAN, ZI]])
    ensures MYTH in Words(PARA, FullStop)
    ensures forall line :: line in Lines(Words(PARA, FullStop), 5.0, Cells).value ==> MYTH !in line
  {
    ParagraphUnits();
    ZiUnit();
    assert UNITS[2] == MYTH;
  }

  /** At eight cells "汉 myth字" is spaced as "汉myth字", which fits. */
  lemma SpacedParagraphFits()
    ensures SpacedText(UNITS, 4) == HAN + MYTH + ZI
    ensures Cells(SpacedText(UNITS, 4)) == 8.0
  {
    IsCNUnit(0x6C49);
    IsCNUnit(0x5B57);
    AsciiIsNotCN(MYTH);
    assert !IsCN([]);
    assert Spaced(UNITS, 0) == [];
    assert Spaced(UNITS, 1) == HAN;
    assert Spaced(UNITS, 2) == MYTH;
    assert Spaced(UNITS, 3) == ZI;
    assert SpacedText(UNITS, 1) == [];
    assert SpacedText(UNITS, 2) == [] + HAN == HAN;
    assert SpacedText(UNITS, 3) == HAN + MYTH;
    HanMythCells();
    assert Cells(ZI) == 2.0 by { assert ZI[..0] == []; }
    CellsAppend(HAN + MYTH, ZI);
  }

  /** With room for the whole paragraph, no word is lost: "汉 myth字" is one line. */
  lemma RoomyLineKeepsMyth()
    ensures Lines(Words(PARA, FullStop), 8.0, Cells) == Ok([[[], HAN, MYTH, ZI]])
  {
    ParagraphUnits();
    CellsMonotone();
    SpacedParagraphFits();
    NoOverflowSingleLine(UNITS, 8.0, Cells);
  }
}
