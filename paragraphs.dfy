/**
 * MixAlignTextView's first two stages: the text is normalised and cut into
 * paragraphs (getParagraphWordsList), and each paragraph is cut into units,
 * one Latin word, punctuation run or multi-byte character at a time
 * (getWorldsList).
 */
module Paragraphs {
  import opened Platform
  import opened Extension

  // ---------------------------------------------------------------------
  // Normalising and splitting the text

  /**
   * The content getParagraphWordsList splits: pairs of spaces deleted, then
   * triples (never present any more), then carriage returns, then trimmed.
   */
  function Normalize(text: Text): (content: Text)
    ensures CR !in content
  {
    var noDoubles := DeleteAll(DeleteAll(text, [SPACE, SPACE]), [SPACE, SPACE, SPACE]);
    var noCR := DeleteAll(noDoubles, [CR]);
    DeleteUnitRemovesIt(noDoubles, CR);
    Trim(noCR)
  }

  /** The pieces that are not empty, in order (`if (item.isNotEmpty())`). */
  function KeepNonEmpty(parts: seq<Text>): (kept: seq<Text>)
    ensures |kept| <= |parts|
  {
    if parts == [] then []
    else
      var last := parts[|parts| - 1];
      KeepNonEmpty(parts[..|parts| - 1]) + (if last != [] then [last] else [])
  }

  /**
   * The kept pieces are exactly the non-empty pieces, and joined they give
   * what all the pieces give joined: only empty pieces are dropped.
   */
  lemma {:induction false} KeptAreNonEmptyParts(parts: seq<Text>)
    ensures forall p :: p in KeepNonEmpty(parts) <==> p != [] && p in parts
    ensures Flatten(KeepNonEmpty(parts)) == Flatten(parts)
  {
    if parts != [] {
      var init := parts[..|parts| - 1];
      var last := parts[|parts| - 1];
      var kept := KeepNonEmpty(init);
      KeptAreNonEmptyParts(init);
      assert parts == init + [last];
      if last != [] {
        assert KeepNonEmpty(parts) == kept + [last];
        FlattenSnoc(kept, last);
      } else {
        assert KeepNonEmpty(parts) == kept;
        assert Flatten(parts) == Flatten(init) + last;
      }
      forall p | p in KeepNonEmpty(parts)
        ensures p != [] && p in parts
      {
        if p in kept {
          var k :| 0 <= k < |init| && init[k] == p;
          assert parts[k] == p;
        }
      }
      forall p | p != [] && p in parts
        ensures p in KeepNonEmpty(parts)
      {
        var k :| 0 <= k < |parts| && parts[k] == p;
        if k < |init| {
          assert init[k] == p;
        }
      }
    }
  }

  /** Normalising deletes only whitespace: pairs of spaces, carriage returns, the trimmed ends. */
  lemma NormalizeKeepsText(text: Text)
    ensures RemoveWhitespace(Normalize(text)) == RemoveWhitespace(text)
  {
    var noPairs := DeleteAll(text, [SPACE, SPACE]);
    var noDoubles := DeleteAll(noPairs, [SPACE, SPACE, SPACE]);
    var noCR := DeleteAll(noDoubles, [CR]);
    DeleteAllKeepsText(text, [SPACE, SPACE]);
    DeleteAllKeepsText(noPairs, [SPACE, SPACE, SPACE]);
    DeleteAllKeepsText(noDoubles, [CR]);
    TrimKeepsText(noCR);
  }

  /** The paragraphs getParagraphWordsList segments. */
  function SplitParagraphs(text: Text): seq<Text>
  {
    KeepNonEmpty(Split(Normalize(text), LF))
  }

  /** Every kept paragraph is non-empty and holds neither a line feed nor a carriage return. */
  lemma ParagraphsAreClean(text: Text)
    ensures forall p :: p in SplitParagraphs(text) ==> p != [] && LF !in p && CR !in p
  {
    var content := Normalize(text);
    var parts := Split(content, LF);
    SplitFacts(content, LF);
    KeptAreNonEmptyParts(parts);
    forall p | p in SplitParagraphs(text) ensures p != [] && LF !in p && CR !in p {
      assert p in parts;
    }
  }

  /**
   * The paragraphs hold every character of the text that is not
   * whitespace, in order: splitting drops only the line feeds, and the
   * filter only empty pieces.
   */
  lemma ParagraphsKeepText(text: Text)
    ensures RemoveWhitespace(Flatten(SplitParagraphs(text))) == RemoveWhitespace(text)
  {
    var content := Normalize(text);
    var parts := Split(content, LF);
    SplitFacts(content, LF);
    JoinWithKeepsText(parts, LF);
    KeptAreNonEmptyParts(parts);
    NormalizeKeepsText(text);
  }

  // ---------------------------------------------------------------------
  // Cutting a paragraph into units

  /** The scan state of getWorldsList: the units emitted and the buffer `sb`. */
  datatype Scan = Scan(units: seq<Text>, buf: Text)

  /** A unit that is neither whitespace nor punctuation and takes several UTF-8 bytes. */
  predicate IsWide(c: CodeUnit, punct: CodeUnit -> bool)
  {
    !IsWhitespace(c) && !punct(c) && IsMultiByte(c)
  }

  /**
   * One turn of the loop of getWorldsList. Whitespace flushes a non-empty
   * buffer. Punctuation joins the buffer and, if the buffer was not empty,
   * closes it. A multi-byte unit flushes the buffer even when it is empty
   * and then opens a new one. Anything else joins the buffer. The tests
   * `str.isSymbol` and `str.isCN` on the one-unit string `str` are written
   * as `punct(c)` and `IsMultiByte(c)`, which Extension.IsSymbolUnit and
   * Extension.IsCNUnit prove equal to them.
   */
  function Step(st: Scan, c: CodeUnit, punct: CodeUnit -> bool): Scan
  {
    if IsWhitespace(c) then
      if st.buf != [] then Scan(st.units + [Trim(st.buf)], []) else st
    else if punct(c) then
      if st.buf != [] then Scan(st.units + [Trim(st.buf + [c])], []) else Scan(st.units, [c])
    else if IsMultiByte(c) then
      Scan(st.units + [Trim(st.buf)], [c])
    else
      Scan(st.units, st.buf + [c])
  }

  /** The scan state after the whole of `s`. */
  function ScanText(s: Text, punct: CodeUnit -> bool): Scan
  {
    if s == [] then Scan([], []) else Step(ScanText(s[..|s| - 1], punct), s[|s| - 1], punct)
  }

  /** getWorldsList: the units of a paragraph, the last buffer flushed untrimmed. */
  function Words(item: Text, punct: CodeUnit -> bool): seq<Text>
  {
    var st := ScanText(item, punct);
    if st.buf != [] then st.units + [st.buf] else st.units
  }

  /** getWorldsList as the source runs it: a loop over the units of `item` that grows `sb`. */
  method WordsList(item: Text, punct: CodeUnit -> bool) returns (worldsList: seq<Text>)
    ensures worldsList == Words(item, punct)
  {
    worldsList := [];
    var sb: Text := [];
    for i := 0 to |item|
      invariant ScanText(item[..i], punct) == Scan(worldsList, sb)
    {
      assert item[..i + 1][..i] == item[..i];
      worldsList, sb := ScanUnit(worldsList, sb, item[i], punct);
    }
    assert item[..|item|] == item;
    if sb != [] {
      worldsList := worldsList + [sb];
    }
  }

  /** The body of the loop of getWorldsList for the character `c`. */
  method ScanUnit(worldsList: seq<Text>, sb: Text, c: CodeUnit, punct: CodeUnit -> bool)
    returns (worldsList': seq<Text>, sb': Text)
    ensures Scan(worldsList', sb') == Step(Scan(worldsList, sb), c, punct)
  {
    worldsList', sb' := worldsList, sb;
    var str := [c];
    IsSymbolUnit(c, punct);
    IsCNUnit(c);
    if !IsWhitespace(c) {
      if IsSymbol(str, punct) {
        var notEmpty := sb' != [];
        sb' := sb' + str;
        if notEmpty {
          worldsList' := worldsList' + [Trim(sb')];
          sb' := [];
        }
      } else {
        if IsCN(str) {
          worldsList' := worldsList' + [Trim(sb')];
          sb' := [];
        }
        sb' := sb' + str;
      }
    } else if sb' != [] {
      worldsList' := worldsList' + [Trim(sb')];
      sb' := [];
    }
  }

  // ---------------------------------------------------------------------
  // What the segmentation guarantees

  /** No unit is opened by anything but its first character when that character is wide. */
  predicate WideOnlyFirst(u: Text, punct: CodeUnit -> bool)
  {
    forall j :: 0 < j < |u| ==> !IsWide(u[j], punct)
  }

  /** Punctuation stands only first or last in a unit. */
  predicate PunctOnlyAtEnds(u: Text, punct: CodeUnit -> bool)
  {
    forall j :: 0 < j < |u| - 1 ==> !punct(u[j])
  }

  /** An empty unit is always followed by a unit opened by a wide character. */
  predicate EmptyBeforeWide(units: seq<Text>, punct: CodeUnit -> bool)
  {
    forall k :: 0 <= k < |units| - 1 && units[k] == [] ==>
      units[k + 1] != [] && IsWide(units[k + 1][0], punct)
  }

  /** The scan state keeps every non-whitespace character of the prefix `s`, in order. */
  predicate KeepsText(st: Scan, s: Text)
  {
    && Flatten(st.units) + st.buf == RemoveWhitespace(s)
    && |st.units| <= |s|
    && (forall u :: u in st.units ==> NoWhitespace(u))
    && NoWhitespace(st.buf)
  }

  /** Where wide characters, punctuation and empty units may stand in the scan state. */
  predicate WellShaped(st: Scan, punct: CodeUnit -> bool)
  {
    && (forall u :: u in st.units ==> WideOnlyFirst(u, punct) && PunctOnlyAtEnds(u, punct))
    && WideOnlyFirst(st.buf, punct)
    && (forall j :: 0 < j < |st.buf| ==> !punct(st.buf[j]))
    && EmptyBeforeWide(st.units, punct)
    && (st.units != [] && st.units[|st.units| - 1] == [] ==> st.buf != [] && IsWide(st.buf[0], punct))
  }

  lemma FlattenSnoc(units: seq<Text>, u: Text)
    ensures Flatten(units + [u]) == Flatten(units) + u
  {
    assert (units + [u])[..|units|] == units;
  }

  /** A step that emits the unit `u` and leaves `buf'`, where `u + buf'` is the old buffer plus `added`. */
  lemma EmitKeepsText(st: Scan, p: Text, c: CodeUnit, u: Text, buf': Text)
    requires KeepsText(st, p)
    requires u + buf' == st.buf + (if IsWhitespace(c) then [] else [c])
    requires NoWhitespace(u) && NoWhitespace(buf')
    ensures KeepsText(Scan(st.units + [u], buf'), p + [c])
  {
    assert (p + [c])[..|p|] == p;
    var added := if IsWhitespace(c) then [] else [c];
    assert RemoveWhitespace(p + [c]) == RemoveWhitespace(p) + added;
    FlattenSnoc(st.units, u);
    calc {
      Flatten(st.units + [u]) + buf';
      Flatten(st.units) + (u + buf');
      (Flatten(st.units) + st.buf) + added;
    }
  }

  /** A step that emits nothing and leaves `buf'`, the old buffer plus `added`. */
  lemma HoldKeepsText(st: Scan, p: Text, c: CodeUnit, buf': Text)
    requires KeepsText(st, p)
    requires buf' == st.buf + (if IsWhitespace(c) then [] else [c])
    requires NoWhitespace(buf')
    ensures KeepsText(Scan(st.units, buf'), p + [c])
  {
    assert (p + [c])[..|p|] == p;
  }

  lemma StepKeepsText(st: Scan, p: Text, c: CodeUnit, punct: CodeUnit -> bool)
    requires KeepsText(st, p)
    ensures KeepsText(Step(st, c, punct), p + [c])
  {
    if IsWhitespace(c) {
      if st.buf != [] {
        TrimIdle(st.buf);
        EmitKeepsText(st, p, c, st.buf, []);
      } else {
        HoldKeepsText(st, p, c, st.buf);
      }
    } else if punct(c) {
      if st.buf != [] {
        SymbolKeepsText(st, p, c);
      } else {
        HoldKeepsText(st, p, c, [c]);
      }
    } else if IsMultiByte(c) {
      TrimIdle(st.buf);
      EmitKeepsText(st, p, c, st.buf, [c]);
    } else {
      AppendKeepsText(st, p, c);
    }
  }

  lemma TrimIdle(s: Text)
    requires NoWhitespace(s)
    ensures Trim(s) == s
  {
  }

  lemma NoWhitespaceSnoc(s: Text, c: CodeUnit)
    requires NoWhitespace(s) && !IsWhitespace(c)
    ensures NoWhitespace(s + [c])
  {
    assert forall i :: 0 <= i < |s| ==> (s + [c])[i] == s[i];
  }

  lemma SymbolKeepsText(st: Scan, p: Text, c: CodeUnit)
    requires KeepsText(st, p) && !IsWhitespace(c)
    ensures KeepsText(Scan(st.units + [Trim(st.buf + [c])], []), p + [c])
  {
    NoWhitespaceSnoc(st.buf, c);
    TrimIdle(st.buf + [c]);
    CloseKeepsText(st, p, c);
  }

  /** Closing the buffer with a non-whitespace character keeps the text. */
  lemma CloseKeepsText(st: Scan, p: Text, c: CodeUnit)
    requires KeepsText(st, p) && !IsWhitespace(c)
    ensures KeepsText(Scan(st.units + [st.buf + [c]], []), p + [c])
  {
    var u := st.buf + [c];
    var rest: Text := [];
    assert u + rest == u;
    NoWhitespaceSnoc(st.buf, c);
    EmitKeepsText(st, p, c, u, rest);
  }

  lemma AppendKeepsText(st: Scan, p: Text, c: CodeUnit)
    requires KeepsText(st, p) && !IsWhitespace(c)
    ensures KeepsText(Scan(st.units, st.buf + [c]), p + [c])
  {
    assert NoWhitespace(st.buf + [c]);
    HoldKeepsText(st, p, c, st.buf + [c]);
  }

  /** The buffer may hold a wide character or punctuation only in its first place. */
  predicate BufShaped(buf: Text, punct: CodeUnit -> bool)
  {
    WideOnlyFirst(buf, punct) && (forall j :: 0 < j < |buf| ==> !punct(buf[j]))
  }

  lemma EmitWellShaped(st: Scan, u: Text, buf': Text, punct: CodeUnit -> bool)
    requires WellShaped(st, punct)
    requires WideOnlyFirst(u, punct) && PunctOnlyAtEnds(u, punct) && BufShaped(buf', punct)
    requires u == [] ==> buf' != [] && IsWide(buf'[0], punct)
    requires st.units != [] && st.units[|st.units| - 1] == [] ==> u != [] && IsWide(u[0], punct)
    ensures WellShaped(Scan(st.units + [u], buf'), punct)
  {
  }

  lemma HoldWellShaped(st: Scan, buf': Text, punct: CodeUnit -> bool)
    requires WellShaped(st, punct)
    requires BufShaped(buf', punct)
    requires st.buf != [] && IsWide(st.buf[0], punct) ==> buf' != [] && IsWide(buf'[0], punct)
    ensures WellShaped(Scan(st.units, buf'), punct)
  {
  }

  lemma StepWellShaped(st: Scan, c: CodeUnit, punct: CodeUnit -> bool)
    requires WellShaped(st, punct) && NoWhitespace(st.buf)
    ensures WellShaped(Step(st, c, punct), punct)
  {
    TrimIdle(st.buf);
    if IsWhitespace(c) {
      if st.buf != [] {
        FlushWellShaped(st, punct);
      }
    } else if punct(c) {
      if st.buf != [] {
        SymbolWellShaped(st, c, punct);
      } else {
        HoldWellShaped(st, [c], punct);
      }
    } else if IsMultiByte(c) {
      WideWellShaped(st, c, punct);
    } else {
      JoinWellShaped(st, c, punct);
    }
  }

  /** Whitespace emits the buffer as it stands. */
  lemma FlushWellShaped(st: Scan, punct: CodeUnit -> bool)
    requires WellShaped(st, punct) && st.buf != []
    ensures WellShaped(Scan(st.units + [st.buf], []), punct)
  {
    EmitWellShaped(st, st.buf, [], punct);
  }

  /** Punctuation after a non-empty buffer closes it, standing last in the unit. */
  lemma SymbolWellShaped(st: Scan, c: CodeUnit, punct: CodeUnit -> bool)
    requires WellShaped(st, punct) && st.buf != [] && punct(c)
    ensures WellShaped(Scan(st.units + [st.buf + [c]], []), punct)
  {
    var u := st.buf + [c];
    assert !IsWide(c, punct);
    forall j | 0 < j < |u|
      ensures !IsWide(u[j], punct)
    {
      if j < |st.buf| {
        assert u[j] == st.buf[j];
      }
    }
    forall j | 0 < j < |u| - 1
      ensures !punct(u[j])
    {
      assert u[j] == st.buf[j];
    }
    EmitWellShaped(st, u, [], punct);
  }

  /** A wide character emits the buffer, even an empty one, and opens a new one. */
  lemma WideWellShaped(st: Scan, c: CodeUnit, punct: CodeUnit -> bool)
    requires WellShaped(st, punct) && !IsWhitespace(c) && !punct(c) && IsMultiByte(c)
    ensures WellShaped(Scan(st.units + [st.buf], [c]), punct)
  {
    assert IsWide(c, punct);
    EmitWellShaped(st, st.buf, [c], punct);
  }

  /** Any other character joins the buffer. */
  lemma JoinWellShaped(st: Scan, c: CodeUnit, punct: CodeUnit -> bool)
    requires WellShaped(st, punct) && !punct(c) && !IsMultiByte(c)
    ensures WellShaped(Scan(st.units, st.buf + [c]), punct)
  {
    var b := st.buf + [c];
    assert !IsWide(c, punct);
    forall j | 0 < j < |b|
      ensures !IsWide(b[j], punct) && !punct(b[j])
    {
      if j < |st.buf| {
        assert b[j] == st.buf[j];
      }
    }
    HoldWellShaped(st, b, punct);
  }

  lemma {:induction false} ScanTextInvariant(s: Text, punct: CodeUnit -> bool)
    ensures KeepsText(ScanText(s, punct), s)
    ensures WellShaped(ScanText(s, punct), punct)
    decreases |s|
  {
    if s != [] {
      var p := s[..|s| - 1];
      ScanTextInvariant(p, punct);
      assert p + [s[|s| - 1]] == s;
      StepKeepsText(ScanText(p, punct), p, s[|s| - 1], punct);
      StepWellShaped(ScanText(p, punct), s[|s| - 1], punct);
    }
  }

  /**
   * Joining the units gives back the paragraph without its whitespace, and no
   * unit holds whitespace.
   */
  lemma WordsRebuildParagraph(item: Text, punct: CodeUnit -> bool)
    ensures Flatten(Words(item, punct)) == RemoveWhitespace(item)
    ensures forall u :: u in Words(item, punct) ==> NoWhitespace(u)
  {
    var st := ScanText(item, punct);
    ScanTextInvariant(item, punct);
    if st.buf != [] {
      FlattenSnoc(st.units, st.buf);
    }
  }

  /**
   * A wide character (multi-byte, not punctuation) always opens a fresh unit,
   * and an empty unit is emitted only as the flush just before such a unit.
   */
  lemma WideCharOpensUnit(item: Text, punct: CodeUnit -> bool)
    ensures forall u :: u in Words(item, punct) ==> WideOnlyFirst(u, punct)
    ensures EmptyBeforeWide(Words(item, punct), punct)
    ensures var units := Words(item, punct); units != [] ==> units[|units| - 1] != []
  {
    var st := ScanText(item, punct);
    ScanTextInvariant(item, punct);
    if st.buf != [] {
      var ws := st.units + [st.buf];
      assert Words(item, punct) == ws;
      forall u | u in ws
        ensures WideOnlyFirst(u, punct)
      {
        if u != st.buf {
          assert u in st.units;
        }
      }
      forall k | 0 <= k < |ws| - 1 && ws[k] == []
        ensures ws[k + 1] != [] && IsWide(ws[k + 1][0], punct)
      {
        assert ws[k] == st.units[k];
      }
    }
  }

  /** Punctuation that meets a non-empty buffer closes it: it is the last unit character. */
  lemma PunctuationClosesUnit(item: Text, punct: CodeUnit -> bool)
    ensures forall u :: u in Words(item, punct) ==> PunctOnlyAtEnds(u, punct)
  {
    ScanTextInvariant(item, punct);
  }

  // The four rules below fix the segmentation completely: each says what
  // the character after the prefix `p` does to the scan state of `p`, and
  // UnitsAreFinal says that an emitted unit is never changed afterwards.

  /** The scan of `p` followed by `c` is one loop turn after the scan of `p`. */
  lemma ScanSnoc(p: Text, c: CodeUnit, punct: CodeUnit -> bool)
    ensures ScanText(p + [c], punct) == Step(ScanText(p, punct), c, punct)
  {
    assert (p + [c])[..|p|] == p;
  }

  /** The buffer of a scan never holds whitespace. */
  lemma ScanBufClean(p: Text, punct: CodeUnit -> bool)
    ensures NoWhitespace(ScanText(p, punct).buf)
  {
    ScanTextInvariant(p, punct);
  }

  lemma StepUnitsGrow(st: Scan, c: CodeUnit, punct: CodeUnit -> bool)
    ensures st.units <= Step(st, c, punct).units
  {
  }

  lemma StepPlain(st: Scan, c: CodeUnit, punct: CodeUnit -> bool)
    requires IsPlain(c, punct)
    ensures Step(st, c, punct) == Scan(st.units, st.buf + [c])
  {
  }

  lemma StepPunct(st: Scan, c: CodeUnit, punct: CodeUnit -> bool)
    requires !IsWhitespace(c) && punct(c)
    ensures Step(st, c, punct)
            == if st.buf != [] then Scan(st.units + [Trim(st.buf + [c])], []) else Scan(st.units, [c])
  {
  }

  /**
   * A wide character emits the buffer as it stands, the empty buffer as an
   * empty unit, and opens a new buffer holding only itself.
   */
  lemma WideCharFlushesBuffer(p: Text, c: CodeUnit, punct: CodeUnit -> bool)
    requires IsWide(c, punct)
    ensures var st := ScanText(p, punct);
            ScanText(p + [c], punct) == Scan(st.units + [st.buf], [c])
  {
    ScanSnoc(p, c, punct);
    ScanBufClean(p, punct);
    TrimIdle(ScanText(p, punct).buf);
  }

  /**
   * Punctuation after a non-empty buffer is the last character of the unit
   * that buffer becomes; after an empty buffer it opens the buffer.
   */
  lemma PunctuationEndsUnit(p: Text, c: CodeUnit, punct: CodeUnit -> bool)
    requires !IsWhitespace(c) && punct(c)
    ensures var st := ScanText(p, punct);
            ScanText(p + [c], punct)
            == if st.buf != [] then Scan(st.units + [st.buf + [c]], []) else Scan(st.units, [c])
  {
    ScanSnoc(p, c, punct);
    BufferClosesUntrimmed(p, c, punct);
    StepPunct(ScanText(p, punct), c, punct);
  }

  /** The scan buffer holds no whitespace, so closing it with a non-whitespace character leaves nothing to trim. */
  lemma BufferClosesUntrimmed(p: Text, c: CodeUnit, punct: CodeUnit -> bool)
    requires !IsWhitespace(c)
    ensures var buf := ScanText(p, punct).buf; Trim(buf + [c]) == buf + [c]
  {
    ScanBufClean(p, punct);
    NoWhitespaceSnoc(ScanText(p, punct).buf, c);
    TrimIdle(ScanText(p, punct).buf + [c]);
  }

  /** Whitespace emits a non-empty buffer and is itself dropped. */
  lemma WhitespaceEndsUnit(p: Text, c: CodeUnit, punct: CodeUnit -> bool)
    requires IsWhitespace(c)
    ensures var st := ScanText(p, punct);
            ScanText(p + [c], punct) == if st.buf != [] then Scan(st.units + [st.buf], []) else st
  {
    ScanSnoc(p, c, punct);
    ScanBufClean(p, punct);
    TrimIdle(ScanText(p, punct).buf);
  }

  /** A character that is neither whitespace, punctuation nor multi-byte joins the buffer. */
  predicate IsPlain(c: CodeUnit, punct: CodeUnit -> bool)
  {
    !IsWhitespace(c) && !punct(c) && !IsMultiByte(c)
  }

  /** Every character of `w` is plain. */
  predicate AllPlain(w: Text, punct: CodeUnit -> bool)
  {
    w == [] || (AllPlain(w[..|w| - 1], punct) && IsPlain(w[|w| - 1], punct))
  }

  /** A run of plain characters after the first `n` joins the buffer and emits nothing. */
  lemma {:induction false} PlainRunJoinsBuffer(s: Text, n: nat, punct: CodeUnit -> bool)
    requires n <= |s| && AllPlain(s[n..], punct)
    ensures var st := ScanText(s[..n], punct);
            ScanText(s, punct) == Scan(st.units, st.buf + s[n..])
    decreases |s|
  {
    if n == |s| {
      assert s[..n] == s && s[n..] == [];
    } else {
      var s' := s[..|s| - 1];
      var c := s[|s| - 1];
      assert s'[n..] == s[n..][..|s[n..]| - 1];
      assert s'[..n] == s[..n];
      PlainRunJoinsBuffer(s', n, punct);
      StepPlain(ScanText(s', punct), c, punct);
      AppendAssoc(ScanText(s[..n], punct).buf, s'[n..], [c]);
      assert s'[n..] + [c] == s[n..];
    }
  }

  /** Units are final once emitted: the scan of a longer text only adds units after them. */
  lemma {:induction false} UnitsAreFinal(s: Text, n: nat, punct: CodeUnit -> bool)
    requires n <= |s|
    ensures ScanText(s[..n], punct).units <= ScanText(s, punct).units
    decreases |s|
  {
    if n == |s| {
      assert s[..n] == s;
    } else {
      var s' := s[..|s| - 1];
      assert s'[..n] == s[..n];
      UnitsAreFinal(s', n, punct);
      StepUnitsGrow(ScanText(s', punct), s[|s| - 1], punct);
    }
  }

  /** The units of a prefix are the first units of the whole paragraph. */
  lemma UnitsStartWords(item: Text, n: nat, punct: CodeUnit -> bool)
    requires n <= |item|
    ensures ScanText(item[..n], punct).units <= Words(item, punct)
  {
    UnitsAreFinal(item, n, punct);
  }

  /** Each character emits at most one unit, and the final flush one more. */
  lemma WordsCountBound(item: Text, punct: CodeUnit -> bool)
    ensures |Words(item, punct)| <= |item| + 1
  {
    ScanTextInvariant(item, punct);
  }

  // ---------------------------------------------------------------------
  // All paragraphs

  /** The unit lists of the paragraphs, in order. */
  function WordsOfEach(paragraphs: seq<Text>, punct: CodeUnit -> bool): (lists: seq<seq<Text>>)
    ensures |lists| == |paragraphs|
  {
    if paragraphs == [] then []
    else
      WordsOfEach(paragraphs[..|paragraphs| - 1], punct) + [Words(paragraphs[|paragraphs| - 1], punct)]
  }

  /** Entry `i` is the unit list of paragraph `i`. */
  lemma {:induction false} WordsOfEachAt(paragraphs: seq<Text>, i: nat, punct: CodeUnit -> bool)
    requires i < |paragraphs|
    ensures WordsOfEach(paragraphs, punct)[i] == Words(paragraphs[i], punct)
  {
    if i < |paragraphs| - 1 {
      var init := paragraphs[..|paragraphs| - 1];
      WordsOfEachAt(init, i, punct);
      WordsOfEachKeepsEarlier(paragraphs, i, punct);
    }
  }

  /** A paragraph added at the end leaves the unit lists of the earlier ones as they were. */
  lemma WordsOfEachKeepsEarlier(paragraphs: seq<Text>, i: nat, punct: CodeUnit -> bool)
    requires i < |paragraphs| - 1
    ensures WordsOfEach(paragraphs, punct)[i] == WordsOfEach(paragraphs[..|paragraphs| - 1], punct)[i]
    ensures paragraphs[..|paragraphs| - 1][i] == paragraphs[i]
  {
  }

  /** What getParagraphWordsList appends to mParagraphWordsList. */
  function ParagraphWords(text: Text, punct: CodeUnit -> bool): seq<seq<Text>>
  {
    WordsOfEach(SplitParagraphs(text), punct)
  }
}
