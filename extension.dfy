/**
 * The helpers of Extension.kt: the `yes`/`no` combinators on a nullable
 * Boolean, the punctuation test `isSymbol` and the multi-byte test `isCN`.
 */
module Extension {
  import opened Wrappers
  import opened Platform

  // ---------------------------------------------------------------------
  // yes / no

  /**
   * `receiver.yes(block)`: the block, seen as a change of the state `s`, is
   * run when the receiver is `true`; the receiver is returned unchanged.
   */
  function Yes<S>(receiver: Option<bool>, block: S -> S, s: S): (Option<bool>, S)
  {
    if receiver == Some(true) then (receiver, block(s)) else (receiver, s)
  }

  /** `receiver.no(block)`: runs the block when the receiver is not `true` (false or null). */
  function No<S>(receiver: Option<bool>, block: S -> S, s: S): (Option<bool>, S)
  {
    if receiver != Some(true) then (receiver, block(s)) else (receiver, s)
  }

  /** Both combinators hand their receiver on, so they can be chained. */
  lemma YesNoReturnReceiver<S>(receiver: Option<bool>, block: S -> S, s: S)
    ensures Yes(receiver, block, s).0 == receiver && No(receiver, block, s).0 == receiver
    ensures Yes(receiver, block, s).1 == s || receiver == Some(true)
    ensures No(receiver, block, s).1 == s || receiver != Some(true)
  {
  }

  /** `c.yes { a }.no { b }` is `if c then a else b`: exactly one block runs. */
  lemma YesThenNoIsIfElse<S>(c: bool, a: S -> S, b: S -> S, s: S)
    ensures var (r1, s1) := Yes(Some(c), a, s);
            No(r1, b, s1) == (Some(c), if c then a(s) else b(s))
  {
  }

  /** On a null receiver the chain runs only the `no` block. */
  lemma YesThenNoOnNull<S>(a: S -> S, b: S -> S, s: S)
    ensures var (r1, s1) := Yes(None, a, s);
            No(r1, b, s1) == (None, b(s))
  {
  }

  // ---------------------------------------------------------------------
  // isSymbol

  /** `s.replace("\\p{P}".regex, "")`, with `punct` standing for the class \p{P}. */
  function RemovePunct(s: Text, punct: CodeUnit -> bool): (r: Text)
    ensures |r| <= |s|
  {
    if s == [] then []
    else (if punct(s[0]) then [] else [s[0]]) + RemovePunct(s[1..], punct)
  }

  /** `isSymbol`: removing the punctuation changes the length. */
  predicate IsSymbol(s: Text, punct: CodeUnit -> bool)
  {
    |s| != |RemovePunct(s, punct)|
  }

  /** `isSymbol` holds exactly when some unit of the string is punctuation. */
  lemma {:induction false} IsSymbolIffHasPunct(s: Text, punct: CodeUnit -> bool)
    ensures IsSymbol(s, punct) <==> exists i :: 0 <= i < |s| && punct(s[i])
  {
    if s != [] {
      IsSymbolIffHasPunct(s[1..], punct);
      if exists i :: 0 <= i < |s[1..]| && punct(s[1..][i]) {
        var i :| 0 <= i < |s[1..]| && punct(s[1..][i]);
        assert punct(s[i + 1]);
      }
      if exists i :: 0 <= i < |s| && punct(s[i]) {
        var i :| 0 <= i < |s| && punct(s[i]);
        assert i == 0 || punct(s[1..][i - 1]);
      }
    }
  }

  /** A one-unit string is `isSymbol` exactly when its unit is punctuation. */
  lemma IsSymbolUnit(c: CodeUnit, punct: CodeUnit -> bool)
    ensures IsSymbol([c], punct) <==> punct(c)
  {
    IsSymbolIffHasPunct([c], punct);
  }

  // ---------------------------------------------------------------------
  // isCN

  predicate IsHighSurrogate(c: CodeUnit) { 0xD800 <= c <= 0xDBFF }

  predicate IsLowSurrogate(c: CodeUnit) { 0xDC00 <= c <= 0xDFFF }

  predicate IsSurrogate(c: CodeUnit) { 0xD800 <= c <= 0xDFFF }

  /**
   * Bytes that `String.toByteArray(UTF_8)` writes for a code unit that is
   * not half of a surrogate pair; a lone surrogate becomes the one byte '?'.
   */
  function LoneUnitBytes(c: CodeUnit): nat
  {
    if c < 0x80 then 1 else if c < 0x800 then 2 else if IsSurrogate(c) then 1 else 3
  }

  /** `s.toByteArray(Charsets.UTF_8).size`: a surrogate pair takes four bytes. */
  function Utf8Length(s: Text): nat
    decreases |s|
  {
    if s == [] then 0
    else if |s| >= 2 && IsHighSurrogate(s[0]) && IsLowSurrogate(s[1]) then 4 + Utf8Length(s[2..])
    else LoneUnitBytes(s[0]) + Utf8Length(s[1..])
  }

  /** `isCN`: the UTF-8 byte count differs from the number of code units. */
  predicate IsCN(s: Text)
  {
    Utf8Length(s) != |s|
  }

  /** Every code unit takes at least one byte, so `isCN` means "more bytes than units". */
  lemma {:induction false} Utf8LengthAtLeastLength(s: Text)
    ensures Utf8Length(s) >= |s|
    ensures IsCN(s) <==> Utf8Length(s) > |s|
    decreases |s|
  {
    if s != [] {
      if |s| >= 2 && IsHighSurrogate(s[0]) && IsLowSurrogate(s[1]) {
        Utf8LengthAtLeastLength(s[2..]);
      } else {
        Utf8LengthAtLeastLength(s[1..]);
      }
    }
  }

  /** Plain ASCII is never `isCN`. */
  lemma {:induction false} AsciiIsNotCN(s: Text)
    requires forall i :: 0 <= i < |s| ==> s[i] < 0x80
    ensures Utf8Length(s) == |s| && !IsCN(s)
    decreases |s|
  {
    if s != [] {
      AsciiIsNotCN(s[1..]);
    }
  }

  /** A unit that UTF-8 writes with more than one byte. */
  predicate IsMultiByte(c: CodeUnit)
  {
    c >= 0x80 && !IsSurrogate(c)
  }

  /** A one-unit string is `isCN` exactly when the unit is non-ASCII and not a surrogate. */
  lemma IsCNUnit(c: CodeUnit)
    ensures IsCN([c]) <==> IsMultiByte(c)
  {
    assert [c][1..] == [];
    assert Utf8Length([c]) == LoneUnitBytes(c) + Utf8Length([]);
  }

  /** Every surrogate in `s` is half of a high-low pair: text that encodes without '?'. */
  predicate WellFormed(s: Text)
    decreases |s|
  {
    s == []
    || (|s| >= 2 && IsHighSurrogate(s[0]) && IsLowSurrogate(s[1]) && WellFormed(s[2..]))
    || (!IsSurrogate(s[0]) && WellFormed(s[1..]))
  }

  /** The UTF-8 size of one code unit of well-formed text: each half of a pair counts two. */
  function UnitBytes(c: CodeUnit): nat
  {
    if c < 0x80 then 1 else if c < 0x800 then 2 else if IsSurrogate(c) then 2 else 3
  }

  function UnitsBytes(s: Text): nat
  {
    if s == [] then 0 else UnitBytes(s[0]) + UnitsBytes(s[1..])
  }

  lemma {:induction false} UnitsBytesAppend(a: Text, b: Text)
    ensures UnitsBytes(a + b) == UnitsBytes(a) + UnitsBytes(b)
    decreases |a|
  {
    if a == [] {
      assert a + b == b;
    } else {
      assert (a + b)[1..] == a[1..] + b;
      UnitsBytesAppend(a[1..], b);
    }
  }

  /** For well-formed text the byte count is the sum of per-unit sizes. */
  lemma {:induction false} Utf8LengthOfWellFormed(s: Text)
    requires WellFormed(s)
    ensures Utf8Length(s) == UnitsBytes(s)
    decreases |s|
  {
    if s != [] {
      if |s| >= 2 && IsHighSurrogate(s[0]) && IsLowSurrogate(s[1]) && WellFormed(s[2..]) {
        assert s[1..][1..] == s[2..];
        Utf8LengthOfWellFormed(s[2..]);
      } else {
        Utf8LengthOfWellFormed(s[1..]);
      }
    }
  }

  lemma {:induction false} WellFormedAppend(a: Text, b: Text)
    requires WellFormed(a) && WellFormed(b)
    ensures WellFormed(a + b)
    decreases |a|
  {
    if a == [] {
      assert a + b == b;
    } else if |a| >= 2 && IsHighSurrogate(a[0]) && IsLowSurrogate(a[1]) && WellFormed(a[2..]) {
      assert (a + b)[2..] == a[2..] + b;
      WellFormedAppend(a[2..], b);
    } else {
      assert (a + b)[1..] == a[1..] + b;
      WellFormedAppend(a[1..], b);
    }
  }

  /** Well-formed text is `isCN` exactly when it has a non-ASCII code unit. */
  lemma {:induction false} WellFormedIsCNIffNonAscii(s: Text)
    requires WellFormed(s)
    ensures IsCN(s) <==> exists i :: 0 <= i < |s| && s[i] >= 0x80
    decreases |s|
  {
    Utf8LengthOfWellFormed(s);
    UnitsBytesAtLeast(s);
  }

  lemma {:induction false} UnitsBytesAtLeast(s: Text)
    ensures UnitsBytes(s) >= |s|
    ensures UnitsBytes(s) == |s| <==> forall i :: 0 <= i < |s| ==> s[i] < 0x80
    decreases |s|
  {
    if s != [] {
      UnitsBytesAtLeast(s[1..]);
      assert forall i :: 1 <= i < |s| ==> s[i] == s[1..][i - 1];
    }
  }

  /**
   * Joining two well-formed strings: the result is `isCN` exactly when one of
   * the parts is, since byte counts add and neither part has fewer bytes than units.
   */
  lemma IsCNOfConcat(a: Text, b: Text)
    requires WellFormed(a) && WellFormed(b)
    ensures IsCN(a + b) <==> IsCN(a) || IsCN(b)
  {
    WellFormedAppend(a, b);
    Utf8LengthOfWellFormed(a);
    Utf8LengthOfWellFormed(b);
    Utf8LengthOfWellFormed(a + b);
    UnitsBytesAppend(a, b);
    UnitsBytesAtLeast(a);
    UnitsBytesAtLeast(b);
  }

  /**
   * Without well-formedness the law fails: the two halves of a surrogate pair
   * are each a lone '?' byte, while together they take four bytes.
   */
  lemma IsCNOfSplitPair()
    ensures !IsCN([0xD83D]) && !IsCN([0xDE00]) && IsCN([0xD83D, 0xDE00])
  {
    assert [0xD83D][1..] == [];
    assert [0xDE00][1..] == [];
    assert [0xD83D, 0xDE00][2..] == [];
  }
}
