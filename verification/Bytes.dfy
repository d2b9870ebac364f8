/**
 Byte strings as the audit tape stores them, and the white-space trimming that
 Go's `bytes` and `strings` packages apply to a line.

 White space is `unicode.IsSpace` over UTF-8: besides the six ASCII bytes it
 covers the two- and three-byte encodings of U+0085, U+00A0, U+1680,
 U+2000..U+200A, U+2028, U+2029, U+202F, U+205F and U+3000.
 */
module Bytes {

  newtype byte = x: int | 0 <= x < 256

  type Bytes = seq<byte>

  const NL: byte := 10

  /** The bytes of an ASCII literal. */
  function Ascii(s: string): (b: Bytes)
    ensures |b| == |s| && forall i | 0 <= i < |s| && s[i] < 128 as char :: b[i] as int == s[i] as int
  {
    seq(|s|, i requires 0 <= i < |s| => if s[i] < 128 as char then s[i] as byte else 63)
  }

  /** s lies within one line. */
  predicate NoNewline(s: Bytes) {
    forall i | 0 <= i < |s| :: s[i] != NL
  }

  /** Index of the last newline, -1 when there is none. */
  function LastNewline(s: Bytes): (i: int)
    ensures -1 <= i < |s|
    ensures i >= 0 ==> s[i] == NL
    ensures forall j | i < j < |s| :: s[j] != NL
  {
    if s == [] then -1
    else if s[|s| - 1] == NL then |s| - 1
    else LastNewline(s[..|s| - 1])
  }

  lemma LastNewlineIs(s: Bytes, i: int)
    requires -1 <= i < |s| && (i >= 0 ==> s[i] == NL)
    requires forall j | i < j < |s| :: s[j] != NL
    ensures LastNewline(s) == i
  {
  }

  // ------------------------------------------------------------------ white space

  // The encodings by length. Each has a lead byte that no continuation byte equals.
  predicate Space1(a: byte) {
    9 <= a <= 13 || a == 32
  }

  predicate Space2(a: byte, b: byte) {
    a == 0xC2 && (b == 0x85 || b == 0xA0)
  }

  predicate Space3(a: byte, b: byte, c: byte) {
    || (a == 0xE1 && b == 0x9A && c == 0x80)
    || (a == 0xE2 && b == 0x80 && (0x80 <= c <= 0x8A || c == 0xA8 || c == 0xA9 || c == 0xAF))
    || (a == 0xE2 && b == 0x81 && c == 0x9F)
    || (a == 0xE3 && b == 0x80 && c == 0x80)
  }

  /** Bytes taken by the white-space rune that ends s, 0 when s does not end in one. */
  function SpaceSuffix(s: Bytes): (k: nat)
    ensures k <= |s|
  {
    var n := |s|;
    if n >= 1 && Space1(s[n - 1]) then 1
    else if n >= 2 && Space2(s[n - 2], s[n - 1]) then 2
    else if n >= 3 && Space3(s[n - 3], s[n - 2], s[n - 1]) then 3
    else 0
  }

  /** Bytes taken by the white-space rune that starts s, 0 when s does not start with one. */
  function SpacePrefix(s: Bytes): (k: nat)
    ensures k <= |s|
  {
    var n := |s|;
    if n >= 1 && Space1(s[0]) then 1
    else if n >= 2 && Space2(s[0], s[1]) then 2
    else if n >= 3 && Space3(s[0], s[1], s[2]) then 3
    else 0
  }

  function TrimRight(s: Bytes): (t: Bytes)
    ensures t <= s
    ensures SpaceSuffix(t) == 0
  {
    var k := SpaceSuffix(s);
    if k == 0 then s else TrimRight(s[..|s| - k])
  }

  function TrimLeft(s: Bytes): (t: Bytes)
    ensures |t| <= |s| && t == s[|s| - |t|..]
    ensures SpacePrefix(t) == 0
  {
    var k := SpacePrefix(s);
    if k == 0 then s else TrimLeft(s[k..])
  }

  /** bytes.TrimSpace: the left side first, then the right. */
  function TrimSpace(s: Bytes): (t: Bytes) {
    TrimRight(TrimLeft(s))
  }

  /** UTF-8 is self-synchronizing: the rune that ends s is not moved by what precedes s. */
  lemma SpaceSuffixAfterRune(s: Bytes)
    requires SpacePrefix(s) > 0
    ensures var k := SpacePrefix(s); SpaceSuffix(s) == if k == |s| then k else SpaceSuffix(s[k..])
  {
  }

  lemma {:induction false} TrimRightAfterRune(s: Bytes)
    requires SpacePrefix(s) > 0
    ensures var k := SpacePrefix(s);
            TrimRight(s) == if TrimRight(s[k..]) == [] then [] else s[..k] + TrimRight(s[k..])
    decreases |s|
  {
    SpaceSuffixAfterRune(s);
    var k, j := SpacePrefix(s), SpaceSuffix(s);
    if k == |s| {
      assert s[..|s| - j] == [] && s[k..] == [];
    } else if j > 0 {
      var t := s[..|s| - j];
      assert t[k..] == s[k..][..|s| - k - j] && t[..k] == s[..k];
      TrimRightAfterRune(t);
    } else {
      assert s == s[..k] + s[k..];
    }
  }

  lemma SpacePrefixOfPrefix(s: Bytes, t: Bytes)
    requires t <= s && SpacePrefix(s) <= |t|
    ensures SpacePrefix(t) == SpacePrefix(s)
  {
  }

  /** Trimming one side first or the other gives the same bytes. */
  lemma {:induction false} TrimSidesCommute(s: Bytes)
    ensures TrimRight(TrimLeft(s)) == TrimLeft(TrimRight(s))
    decreases |s|
  {
    var k, t := SpacePrefix(s), TrimRight(s);
    if k == 0 {
      SpacePrefixOfPrefix(s, t);
    } else {
      TrimSidesCommute(s[k..]);
      TrimRightAfterRune(s);
      var v := TrimRight(s[k..]);
      if v != [] {
        assert t[k..] == v;
        SpacePrefixOfPrefix(s, t);
      }
    }
  }

  /** Right-trimming first changes nothing a full trim sees. */
  lemma TrimSpaceOfTrimRight(s: Bytes)
    ensures TrimSpace(TrimRight(s)) == TrimSpace(s)
  {
    TrimSidesCommute(s);
    TrimSidesCommute(TrimRight(s));
  }

  lemma {:induction false} TrimLeftEmpty(s: Bytes)
    requires TrimLeft(s) == [] && s != []
    ensures SpaceSuffix(s) > 0
    decreases |s|
  {
    var k := SpacePrefix(s);
    SpaceSuffixAfterRune(s);
    if k < |s| { TrimLeftEmpty(s[k..]); }
  }

  lemma BlankIsTrimRightEmpty(s: Bytes)
    ensures TrimSpace(s) == [] <==> TrimRight(s) == []
  {
    TrimSidesCommute(s);
    if TrimSpace(s) == [] && TrimRight(s) != [] { TrimLeftEmpty(TrimRight(s)); }
  }

  lemma SpaceSuffixAcrossNewline(a: Bytes, b: Bytes)
    ensures SpaceSuffix(a + [NL] + b) == if b == [] then 1 else SpaceSuffix(b)
  {
  }

  /** A newline is its own rune, so right-trimming never looks across one half-way. */
  lemma {:induction false} TrimRightAcrossNewline(a: Bytes, b: Bytes)
    ensures TrimRight(a + [NL] + b) == if TrimRight(b) == [] then TrimRight(a) else a + [NL] + TrimRight(b)
    decreases |b|
  {
    hide SpaceSuffix;
    var s, k := a + [NL] + b, SpaceSuffix(b);
    SpaceSuffixAcrossNewline(a, b);
    if b == [] {
      assert s[..|s| - 1] == a;
      assert TrimRight(b) == [];
    } else if k > 0 {
      assert s[..|s| - k] == a + [NL] + b[..|b| - k];
      TrimRightAcrossNewline(a, b[..|b| - k]);
    }
  }

  lemma TrimRightShape(s: Bytes)
    ensures TrimRight(s) <= s && (TrimRight(s) == [] || TrimRight(s)[|TrimRight(s)| - 1] != NL)
  {
  }

  lemma TrimBraces(s: Bytes)
    requires s != [] && s[|s| - 1] == 125
    ensures TrimRight(s) == s
    ensures s[0] == 123 ==> TrimSpace(s) == s
  {
    assert SpaceSuffix(s) == 0;
    assert s[0] == 123 ==> SpacePrefix(s) == 0;
    hide SpaceSuffix, SpacePrefix;
  }

  lemma TrimSpaceShorter(s: Bytes)
    ensures |TrimSpace(s)| <= |s|
  {
  }

  lemma TrimOpenBrace(s: Bytes)
    requires s != [] && s[0] == 123
    ensures TrimSpace(s) == TrimRight(s) && TrimRight(s) != []
  {
    assert SpacePrefix(s) == 0;
    OpenBraceKept(s);
    hide SpaceSuffix, SpacePrefix;
  }

  lemma {:induction false} OpenBraceKept(s: Bytes)
    requires s != [] && s[0] == 123
    ensures TrimRight(s) != []
    decreases |s|
  {
    var k := SpaceSuffix(s);
    if k > 0 { OpenBraceKept(s[..|s| - k]); }
  }

  // ------------------------------------------------------------------ what the readers rely on

  /**
   A pair of trimming functions, and the laws the tail readers use. They are stated for
   any such pair, so that nothing in the readers depends on which code points count as
   white space; `GoTrimmer` is the pair the program has.
   */
  datatype Trimmer = Trimmer(right: Bytes -> Bytes, both: Bytes -> Bytes) {
    /** s loses only white space, and a line's own newline is white space. */
    ghost predicate Trims(s: Bytes) {
      && right(s) <= s
      && (right(s) == [] || right(s)[|right(s)| - 1] != NL)
      && both(right(s)) == both(s)
      && |both(s)| <= |s|
      && (both(s) == [] <==> right(s) == [])
      && (s != [] && s[0] == 123 ==> both(s) == right(s) && right(s) != [])
      && (s != [] && s[|s| - 1] == 125 ==> right(s) == s)
      && (s != [] && s[0] == 123 && s[|s| - 1] == 125 ==> both(s) == s)
    }

    /** A newline is never part of a longer white-space sequence. */
    ghost predicate Splits(a: Bytes, b: Bytes) {
      right(a + [NL] + b) == if right(b) == [] then right(a) else a + [NL] + right(b)
    }

    ghost predicate Lawful() {
      && (forall s :: Trims(s))
      && (forall a, b :: Splits(a, b))
    }

    predicate Blank(s: Bytes) {
      both(s) == []
    }
  }

  const GoTrimmer: Trimmer := Trimmer(TrimRight, TrimSpace)

  lemma GoTrimmerLawful()
    ensures GoTrimmer.Lawful()
  {
    hide TrimRight, TrimSpace, SpaceSuffix;
    forall s ensures GoTrimmer.Trims(s) {
      TrimRightShape(s);
      TrimSpaceOfTrimRight(s);
      BlankIsTrimRightEmpty(s);
      TrimSpaceShorter(s);
      if s != [] && s[|s| - 1] == 125 { TrimBraces(s); }
      if s != [] && s[0] == 123 { TrimOpenBrace(s); }
    }
    forall a, b ensures GoTrimmer.Splits(a, b) {
      TrimRightAcrossNewline(a, b);
    }
  }
}
