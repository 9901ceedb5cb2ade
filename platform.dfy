/**
 * The parts of the Kotlin/JVM platform that the views rely on: strings as
 * UTF-16 code units, Char.isWhitespace, String.trim, literal replace-all
 * and split, and the one drawing call (Canvas.drawText) as a value.
 */
module Platform {

  /** A UTF-16 code unit, the element a Kotlin `String` iterates over. */
  type CodeUnit = x: int | 0 <= x < 0x1_0000

  /** A Kotlin `String`. */
  type Text = seq<CodeUnit>

  const LF: CodeUnit := 0x0A
  const CR: CodeUnit := 0x0D
  const SPACE: CodeUnit := 0x20

  /** One `Canvas.drawText(text, x, y, paint)` call. */
  datatype DrawOp = DrawText(text: Text, x: real, y: real)

  /**
   * Kotlin's `Char.isWhitespace` on the JVM: `Character.isWhitespace` (the
   * controls 0x09-0x0D and 0x1C-0x1F, and the space separators other than
   * the no-break ones) or `Character.isSpaceChar` (every Zs, Zl, Zp unit).
   */
  predicate IsWhitespace(c: CodeUnit)
  {
    (0x09 <= c <= 0x0D) || (0x1C <= c <= 0x20) || c == 0xA0 || c == 0x1680
    || (0x2000 <= c <= 0x200A) || c == 0x2028 || c == 0x2029 || c == 0x202F
    || c == 0x205F || c == 0x3000
  }

  predicate NoWhitespace(s: Text)
  {
    forall i :: 0 <= i < |s| ==> !IsWhitespace(s[i])
  }

  /** `s` with every whitespace unit dropped. */
  function RemoveWhitespace(s: Text): (r: Text)
    ensures NoWhitespace(r)
    ensures |r| <= |s|
  {
    if s == [] then []
    else
      var c := s[|s| - 1];
      RemoveWhitespace(s[..|s| - 1]) + (if IsWhitespace(c) then [] else [c])
  }

  /** Dropping whitespace distributes over concatenation. */
  lemma {:induction false} RemoveWhitespaceAppend(a: Text, b: Text)
    ensures RemoveWhitespace(a + b) == RemoveWhitespace(a) + RemoveWhitespace(b)
    decreases |b|
  {
    if b == [] {
      assert a + b == a;
    } else {
      var b' := b[..|b| - 1];
      assert (a + b)[..|a + b| - 1] == a + b';
      RemoveWhitespaceAppend(a, b');
    }
  }

  /** Text made only of whitespace leaves nothing. */
  lemma {:induction false} RemoveWhitespaceOfBlank(s: Text)
    requires forall i :: 0 <= i < |s| ==> IsWhitespace(s[i])
    ensures RemoveWhitespace(s) == []
    decreases |s|
  {
    if s != [] {
      RemoveWhitespaceOfBlank(s[..|s| - 1]);
    }
  }

  /** Concatenation of a list of strings. */
  function Flatten(ss: seq<Text>): Text
  {
    if ss == [] then [] else Flatten(ss[..|ss| - 1]) + ss[|ss| - 1]
  }

  lemma {:induction false} FlattenAppend(a: seq<Text>, b: seq<Text>)
    ensures Flatten(a + b) == Flatten(a) + Flatten(b)
    decreases |b|
  {
    if b == [] {
      assert a + b == a;
    } else {
      var b' := b[..|b| - 1];
      assert (a + b)[..|a + b| - 1] == a + b';
      FlattenAppend(a, b');
    }
  }

  // ---------------------------------------------------------------------
  // String.trim()

  function TrimStart(s: Text): (r: Text)
    ensures |r| <= |s| && r == s[|s| - |r|..]
    ensures r == [] || !IsWhitespace(r[0])
    ensures forall i :: 0 <= i < |s| - |r| ==> IsWhitespace(s[i])
  {
    if s != [] && IsWhitespace(s[0]) then TrimStart(s[1..]) else s
  }

  function TrimEnd(s: Text): (r: Text)
    ensures |r| <= |s| && r == s[..|r|]
    ensures r == [] || !IsWhitespace(r[|r| - 1])
    ensures forall i :: |r| <= i < |s| ==> IsWhitespace(s[i])
  {
    if s != [] && IsWhitespace(s[|s| - 1]) then TrimEnd(s[..|s| - 1]) else s
  }

  /** `r` is `s[a..b]`, and everything of `s` before `a` and from `b` on is whitespace. */
  predicate IsTrimmedInfix(r: Text, s: Text, a: int, b: int)
  {
    && 0 <= a <= b <= |s| && r == s[a..b]
    && (forall i :: 0 <= i < a ==> IsWhitespace(s[i]))
    && (forall i :: b <= i < |s| ==> IsWhitespace(s[i]))
  }

  /** A prefix `r` of a suffix `t` of `s`, cut off by whitespace on both sides, is such an infix. */
  lemma SuffixPrefixInfix(s: Text, t: Text, r: Text)
    requires |t| <= |s| && t == s[|s| - |t|..]
    requires |r| <= |t| && r == t[..|r|]
    requires forall i :: 0 <= i < |s| - |t| ==> IsWhitespace(s[i])
    requires forall i :: |r| <= i < |t| ==> IsWhitespace(t[i])
    ensures IsTrimmedInfix(r, s, |s| - |t|, |s| - |t| + |r|)
  {
    var a := |s| - |t|;
    assert r == s[a..a + |r|];
    forall i | a + |r| <= i < |s| ensures IsWhitespace(s[i]) {
      assert s[i] == t[i - a];
    }
  }

  /**
   * Kotlin's `String.trim()`: the infix of `s` left when the leading and
   * the trailing whitespace are removed, and nothing more.
   */
  function Trim(s: Text): (r: Text)
    ensures exists a, b :: IsTrimmedInfix(r, s, a, b)
    ensures r == [] || (!IsWhitespace(r[0]) && !IsWhitespace(r[|r| - 1]))
    ensures NoWhitespace(s) ==> r == s
  {
    var t := TrimStart(s);
    var r := TrimEnd(t);
    SuffixPrefixInfix(s, t, r);
    r
  }

  /** Leading whitespace leaves no trace once whitespace is removed. */
  lemma DropBlankPrefix(s: Text, a: int)
    requires 0 <= a <= |s| && forall i :: 0 <= i < a ==> IsWhitespace(s[i])
    ensures RemoveWhitespace(s) == RemoveWhitespace(s[a..])
  {
    assert s[..a] + s[a..] == s;
    RemoveWhitespaceAppend(s[..a], s[a..]);
    RemoveWhitespaceOfBlank(s[..a]);
  }

  /** Trailing whitespace leaves no trace once whitespace is removed. */
  lemma {:induction false} DropBlankSuffix(s: Text, b: int)
    requires 0 <= b <= |s| && forall i :: b <= i < |s| ==> IsWhitespace(s[i])
    ensures RemoveWhitespace(s) == RemoveWhitespace(s[..b])
    decreases |s|
  {
    if b < |s| {
      var s' := s[..|s| - 1];
      DropBlankSuffix(s', b);
      assert s'[..b] == s[..b];
    } else {
      assert s[..b] == s;
    }
  }

  /** Trimming removes only whitespace: the other characters stay, in order. */
  lemma TrimKeepsText(s: Text)
    ensures RemoveWhitespace(Trim(s)) == RemoveWhitespace(s)
  {
    var a, b :| IsTrimmedInfix(Trim(s), s, a, b);
    DropBlankSuffix(s, b);
    DropBlankPrefix(s[..b], a);
    assert s[..b][a..] == s[a..b];
  }

  /** A prefix one longer is the prefix and the next element. */
  lemma TakeSnoc<T>(s: seq<T>, i: nat)
    requires i < |s|
    ensures s[..i + 1] == s[..i] + [s[i]]
  {
  }

  /** Sharing `x` into `y` parts and adding the parts back up gives `x`. */
  lemma ShareOut(x: real, y: real)
    requires y != 0.0
    ensures y * (x / y) == x
  {
  }

  /** Concatenation regroups freely; stated once so that proofs need not rediscover it. */
  lemma AppendAssoc<T>(a: seq<T>, b: seq<T>, c: seq<T>)
    ensures (a + b) + c == a + (b + c)
  {
  }

  // ---------------------------------------------------------------------
  // replace(Regex(literal), "") and split(Regex(literal))

  /** `pat` occurs somewhere in `s`. */
  predicate Occurs(pat: Text, s: Text)
  {
    exists i :: 0 <= i <= |s| && pat <= s[i..]
  }

  /**
   * `s.replace(pat.regex, "")` for a pattern without regex metacharacters:
   * matches are found left to right, never overlapping, and deleted.
   */
  function DeleteAll(s: Text, pat: Text): (r: Text)
    requires |pat| > 0
    ensures |r| <= |s|
    decreases |s|
  {
    if s == [] then []
    else if pat <= s then DeleteAll(s[|pat|..], pat)
    else [s[0]] + DeleteAll(s[1..], pat)
  }

  /** Deleting a pattern that does not occur changes nothing. */
  lemma {:induction false} DeleteAllAbsent(s: Text, pat: Text)
    requires |pat| > 0 && !Occurs(pat, s)
    ensures DeleteAll(s, pat) == s
    decreases |s|
  {
    if s != [] {
      assert !(pat <= s) by { assert s[0..] == s; }
      assert !Occurs(pat, s[1..]) by {
        forall i | 0 <= i <= |s[1..]| ensures !(pat <= s[1..][i..]) {
          assert s[1..][i..] == s[i + 1..];
        }
      }
      DeleteAllAbsent(s[1..], pat);
    }
  }

  /** Deleting a pattern made of whitespace keeps every other character, in order. */
  lemma {:induction false} DeleteAllKeepsText(s: Text, pat: Text)
    requires |pat| > 0 && forall i :: 0 <= i < |pat| ==> IsWhitespace(pat[i])
    ensures RemoveWhitespace(DeleteAll(s, pat)) == RemoveWhitespace(s)
    decreases |s|
  {
    if s != [] {
      if pat <= s {
        DeleteAllKeepsText(s[|pat|..], pat);
        assert s == pat + s[|pat|..];
        RemoveWhitespaceAppend(pat, s[|pat|..]);
        RemoveWhitespaceOfBlank(pat);
      } else {
        DeleteAllKeepsText(s[1..], pat);
        assert s == [s[0]] + s[1..];
        RemoveWhitespaceAppend([s[0]], s[1..]);
        RemoveWhitespaceAppend([s[0]], DeleteAll(s[1..], pat));
      }
    }
  }

  /** A single deleted unit no longer occurs in the result. */
  lemma {:induction false} DeleteUnitRemovesIt(s: Text, c: CodeUnit)
    ensures c !in DeleteAll(s, [c])
    decreases |s|
  {
    if s != [] {
      if [c] <= s {
        DeleteUnitRemovesIt(s[1..], c);
      } else {
        assert s[0] != c;
        DeleteUnitRemovesIt(s[1..], c);
      }
    }
  }

  lemma {:induction false} DeleteAllKeepsHead(s: Text, pat: Text)
    requires |pat| > 0 && s != [] && s[0] != pat[0]
    ensures DeleteAll(s, pat) != [] && DeleteAll(s, pat)[0] == s[0]
  {
  }

  /**
   * After deleting every pair of spaces, no two spaces are adjacent: a run of
   * n spaces leaves n mod 2 of them.
   */
  lemma {:induction false} NoDoubleSpaceLeft(s: Text)
    ensures !Occurs([SPACE, SPACE], DeleteAll(s, [SPACE, SPACE]))
    decreases |s|
  {
    if s == [] {
    } else if [SPACE, SPACE] <= s {
      NoDoubleSpaceLeft(s[2..]);
    } else {
      NoDoubleSpaceLeft(s[1..]);
      KeptHeadMakesNoDoubleSpace(s);
    }
  }

  /** A first unit that does not open a pair of spaces is kept and opens no pair in the result. */
  lemma KeptHeadMakesNoDoubleSpace(s: Text)
    requires s != [] && !([SPACE, SPACE] <= s)
    requires !Occurs([SPACE, SPACE], DeleteAll(s[1..], [SPACE, SPACE]))
    ensures !Occurs([SPACE, SPACE], DeleteAll(s, [SPACE, SPACE]))
  {
    var pair := [SPACE, SPACE];
    var rest := DeleteAll(s[1..], pair);
    var r := DeleteAll(s, pair);
    assert r == [s[0]] + rest;
    KeptHeadOpensNoPair(s);
    assert r[0..] == r;
    forall i | 1 <= i <= |r| ensures !(pair <= r[i..]) {
      assert r[i..] == rest[i - 1..];
    }
  }

  /** The result starts with the kept first unit, and, when that is a space, with no second one. */
  lemma KeptHeadOpensNoPair(s: Text)
    requires s != [] && !([SPACE, SPACE] <= s)
    ensures !([SPACE, SPACE] <= DeleteAll(s, [SPACE, SPACE]))
  {
    if s[0] == SPACE && |s| >= 2 {
      DeleteAllKeepsHead(s[1..], [SPACE, SPACE]);
    }
  }

  /** So the second `replace` (three spaces) of the normaliser never matches. */
  lemma TripleSpaceDeletionIsIdle(s: Text)
    ensures DeleteAll(DeleteAll(s, [SPACE, SPACE]), [SPACE, SPACE, SPACE]) == DeleteAll(s, [SPACE, SPACE])
  {
    var t := DeleteAll(s, [SPACE, SPACE]);
    NoDoubleSpaceLeft(s);
    forall i | 0 <= i <= |t| ensures !([SPACE, SPACE, SPACE] <= t[i..]) {
      assert !([SPACE, SPACE] <= t[i..]);
    }
    DeleteAllAbsent(t, [SPACE, SPACE, SPACE]);
  }

  /** `parts` joined with `sep` between neighbours. */
  function JoinWith(parts: seq<Text>, sep: CodeUnit): Text
    requires |parts| >= 1
  {
    if |parts| == 1 then parts[0] else parts[0] + [sep] + JoinWith(parts[1..], sep)
  }

  /** Joining with a whitespace separator adds nothing but whitespace. */
  lemma {:induction false} JoinWithKeepsText(parts: seq<Text>, sep: CodeUnit)
    requires |parts| >= 1 && IsWhitespace(sep)
    ensures RemoveWhitespace(JoinWith(parts, sep)) == RemoveWhitespace(Flatten(parts))
    decreases |parts|
  {
    var head := parts[0];
    var single: seq<Text> := [head];
    assert Flatten(single) == head by { assert single[..0] == []; }
    if |parts| == 1 {
      assert parts == single;
    } else {
      var rest := parts[1..];
      var joined := JoinWith(rest, sep);
      var blank: Text := [sep];
      JoinWithKeepsText(rest, sep);
      assert JoinWith(parts, sep) == (head + blank) + joined;
      assert RemoveWhitespace(blank) == [] by { assert blank[..0] == []; }
      RemoveWhitespaceAppend(head + blank, joined);
      RemoveWhitespaceAppend(head, blank);
      assert parts == single + rest;
      FlattenAppend(single, rest);
      RemoveWhitespaceAppend(head, Flatten(rest));
    }
  }

  /**
   * `s.split(sep.regex)` with Kotlin's `Regex.split`: every piece is kept,
   * including empty ones, so there is one more piece than separators.
   */
  function Split(s: Text, sep: CodeUnit): (parts: seq<Text>)
    ensures |parts| >= 1
    decreases |s|
  {
    if s == [] then [[]]
    else
      var rest := Split(s[1..], sep);
      if s[0] == sep then [[]] + rest
      else [[s[0]] + rest[0]] + rest[1..]
  }

  /**
   * No piece holds the separator, every character of a piece comes from
   * `s`, and joining the pieces with the separator gives `s` back.
   */
  lemma {:induction false} SplitFacts(s: Text, sep: CodeUnit)
    ensures var parts := Split(s, sep);
            && (forall p :: p in parts ==> sep !in p)
            && (forall p, c :: p in parts && c in p ==> c in s)
            && JoinWith(parts, sep) == s
    decreases |s|
  {
    if s != [] {
      SplitFacts(s[1..], sep);
      var rest := Split(s[1..], sep);
      var parts := Split(s, sep);
      if s[0] == sep {
        assert parts[1..] == rest;
      } else {
        assert parts[1..] == rest[1..];
        if |rest| > 1 {
          assert rest == [rest[0]] + rest[1..];
        }
      }
      forall p, c | p in parts && c in p
        ensures c in s
      {
        if p != parts[0] {
          assert p in rest;
        } else if s[0] != sep && c != s[0] {
          assert c in rest[0];
        }
      }
    }
  }
}
