/**
 * Worked segmentations of getWorldsList. Each is first proved for any
 * characters of the right kinds, then for a concrete paragraph, with the
 * full stop as the only punctuation.
 */
module ParagraphsExamples {
  import opened Platform
  import opened Extension
  import opened Paragraphs

  /** A punctuation class holding only the full stop. */
  predicate FullStop(c: CodeUnit)
  {
    c == 0x2E
  }

  predicate IsAsciiLetter(c: CodeUnit)
  {
    0x41 <= c <= 0x5A || 0x61 <= c <= 0x7A
  }

  /** An ASCII letter is plain: it is not whitespace, not punctuation and takes one byte. */
  lemma AsciiLetterIsPlain(c: CodeUnit)
    requires IsAsciiLetter(c)
    ensures IsPlain(c, FullStop)
  {
    assert !IsMultiByte(c);
  }

  lemma {:induction false} AsciiWordIsPlain(w: Text)
    requires forall i :: 0 <= i < |w| ==> IsAsciiLetter(w[i])
    ensures AllPlain(w, FullStop)
    decreases |w|
  {
    if w != [] {
      AsciiWordIsPlain(w[..|w| - 1]);
      AsciiLetterIsPlain(w[|w| - 1]);
    }
  }

  /** A CJK ideograph is wide: it takes three UTF-8 bytes and is no punctuation. */
  lemma IdeographIsWide(c: CodeUnit)
    requires 0x4E00 <= c <= 0x9FFF
    ensures IsWide(c, FullStop)
  {
    assert IsMultiByte(c);
  }

  // The lists of units the scans below build, regrouped once, away from
  // the scan facts, where the regrouping is cheap to check.

  lemma WordBlankUnits(none: seq<Text>, a: Text, h: CodeUnit)
    requires none == []
    ensures none + [a] + [[]] + [[h]] == [a, [], [h]]
  {
  }

  lemma WordBlankWideUnits(a: Text, h: CodeUnit, rest: Text)
    ensures [a, [], [h]] + [rest] == [a, [], [h], rest]
  {
  }

  lemma WideUnits(h: CodeUnit)
    ensures [[]] + [[h]] == [[], [h]]
  {
  }

  lemma WideBlankUnits(h: CodeUnit, w: Text, z: CodeUnit)
    ensures [[], [h]] + [w] + [[z]] == [[], [h], w, [z]]
  {
  }

  /** A Latin word: it fills the buffer. */
  lemma WordFirst(a: Text, punct: CodeUnit -> bool)
    requires AllPlain(a, punct)
    ensures ScanText(a, punct) == Scan([], a)
  {
    assert a[..0] == [] && a[0..] == a;
    PlainRunJoinsBuffer(a, 0, punct);
  }

  /** ... then a blank emits it, and two wide characters flush the empty buffer and the first of them. */
  lemma WordBlankWideWide(a: Text, h: CodeUnit, z: CodeUnit, punct: CodeUnit -> bool)
    requires a != [] && AllPlain(a, punct) && IsWide(h, punct) && IsWide(z, punct)
    ensures ScanText(a + [SPACE] + [h] + [z], punct) == Scan([a, [], [h]], [z])
  {
    WordFirst(a, punct);
    WhitespaceEndsUnit(a, SPACE, punct);
    WideCharFlushesBuffer(a + [SPACE], h, punct);
    WideCharFlushesBuffer(a + [SPACE] + [h], z, punct);
    WordBlankUnits([], a, h);
  }

  /** ... then a second Latin word joins the last wide character. */
  lemma WordBlankWideWideWord(a: Text, h: CodeUnit, z: CodeUnit, b: Text, punct: CodeUnit -> bool)
    requires a != [] && AllPlain(a, punct) && AllPlain(b, punct) && IsWide(h, punct) && IsWide(z, punct)
    ensures ScanText(a + [SPACE] + [h] + [z] + b, punct) == Scan([a, [], [h]], [z] + b)
  {
    var s4 := a + [SPACE] + [h] + [z];
    var s5 := s4 + b;
    assert s5[..|s4|] == s4 && s5[|s4|..] == b;
    WordBlankWideWide(a, h, z, punct);
    PlainRunJoinsBuffer(s5, |s4|, punct);
  }

  /**
   * A Latin word, a blank, two wide characters, a Latin word and a
   * punctuation mark: the first wide character flushes the buffer the blank
   * emptied, giving an empty unit; the second wide character opens the unit
   * the second word joins; the punctuation closes that unit.
   */
  lemma WordBlankWideWideWordPunct(a: Text, h: CodeUnit, z: CodeUnit, b: Text, d: CodeUnit, punct: CodeUnit -> bool)
    requires a != [] && AllPlain(a, punct) && AllPlain(b, punct)
    requires IsWide(h, punct) && IsWide(z, punct)
    requires !IsWhitespace(d) && punct(d)
    ensures Words(a + [SPACE, h, z] + b + [d], punct) == [a, [], [h], [z] + b + [d]]
  {
    var s5 := a + [SPACE] + [h] + [z] + b;
    var item := s5 + [d];
    assert item == a + [SPACE, h, z] + b + [d];
    WordBlankWideWideWord(a, h, z, b, punct);
    PunctuationEndsUnit(s5, d, punct);
    WordBlankWideUnits(a, h, [z] + b + [d]);
  }

  const HI: Text := [0x48, 0x69]
  const TEST: Text := [0x74, 0x65, 0x73, 0x74]

  /** "Hi 汉字test." */
  const HI_TEXT: Text := [0x48, 0x69, 0x20, 0x6C49, 0x5B57, 0x74, 0x65, 0x73, 0x74, 0x2E]

  /**
   * getWorldsList cuts "Hi 汉字test." into "Hi", "", "汉" and "字test.":
   * an empty unit before 汉, and the Latin word and the full stop joined to 字.
   */
  lemma HiExample()
    ensures Words(HI_TEXT, FullStop) == [HI, [], [0x6C49], [0x5B57] + TEST + [0x2E]]
  {
    AsciiWordIsPlain(HI);
    AsciiWordIsPlain(TEST);
    IdeographIsWide(0x6C49);
    IdeographIsWide(0x5B57);
    WordBlankWideWideWordPunct(HI, 0x6C49, 0x5B57, TEST, 0x2E, FullStop);
    assert HI + [SPACE, 0x6C49, 0x5B57] + TEST + [0x2E] == HI_TEXT;
  }

  /** A wide character alone: the empty buffer is flushed and the character opens the next. */
  lemma WideFirst(h: CodeUnit, punct: CodeUnit -> bool)
    requires IsWide(h, punct)
    ensures ScanText([h], punct) == Scan([[]], [h])
  {
    var e: Text := [];
    assert e + [h] == [h];
    WideCharFlushesBuffer(e, h, punct);
  }

  /** ... then a blank emits it. */
  lemma WideThenBlank(h: CodeUnit, punct: CodeUnit -> bool)
    requires IsWide(h, punct)
    ensures ScanText([h, SPACE], punct) == Scan([[], [h]], [])
  {
    var s1: Text := [h];
    var s2 := s1 + [SPACE];
    WideFirst(h, punct);
    WhitespaceEndsUnit(s1, SPACE, punct);
    assert ScanText(s2, punct) == Scan([[]] + [[h]], []);
    WideUnits(h);
    assert s2 == [h, SPACE];
  }

  /** ... then a Latin word fills the buffer. */
  lemma WideBlankThenWord(h: CodeUnit, w: Text, punct: CodeUnit -> bool)
    requires IsWide(h, punct) && AllPlain(w, punct)
    ensures ScanText([h, SPACE] + w, punct) == Scan([[], [h]], w)
  {
    var s2: Text := [h, SPACE];
    var s3 := s2 + w;
    assert s3[..|s2|] == s2 && s3[|s2|..] == w;
    WideThenBlank(h, punct);
    PlainRunJoinsBuffer(s3, |s2|, punct);
  }

  /**
   * A wide character, a blank, a Latin word and a wide character: the
   * first wide character flushes the empty buffer, the blank emits it, and
   * the last wide character emits the word.
   */
  lemma WideBlankWordWide(h: CodeUnit, w: Text, z: CodeUnit, punct: CodeUnit -> bool)
    requires IsWide(h, punct) && IsWide(z, punct) && w != [] && AllPlain(w, punct)
    ensures Words([h, SPACE] + w + [z], punct) == [[], [h], w, [z]]
  {
    var s3 := [h, SPACE] + w;
    WideBlankThenWord(h, w, punct);
    WideCharFlushesBuffer(s3, z, punct);
    WideBlankUnits(h, w, z);
  }
}
