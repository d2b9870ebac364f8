/**
 The HMAC key file: one hex key per line, active key first (internal/audit/keys.go).
 */
module Keys {

  import opened Wrappers
  import opened Bytes

  const KEY_BYTES: nat := 32

  // ------------------------------------------------------------------ hexadecimal

  function HexDigit(v: byte): (c: byte)
    requires v < 16
    ensures HexValue(c) == Some(v) && 48 <= c <= 102
  {
    if v < 10 then 48 + v else 87 + v
  }

  function HexValue(c: byte): (v: Option<byte>)
    ensures v.Some? ==> v.value < 16
  {
    if 48 <= c <= 57 then Some(c - 48)
    else if 97 <= c <= 102 then Some(c - 87)
    else if 65 <= c <= 70 then Some(c - 55)
    else None
  }

  function Lower(c: byte): byte { if 65 <= c <= 70 then c + 32 else c }

  function EncodeHex(k: Bytes): (l: Bytes)
    ensures |l| == 2 * |k| && forall i | 0 <= i < |l| :: 48 <= l[i] <= 102
  {
    if k == [] then []
    else
      var n := |k| - 1;
      EncodeHex(k[..n]) + [HexDigit(k[n] / 16), HexDigit(k[n] % 16)]
  }

  /** hex.Decode: None for an odd length or a byte that is no hex digit. */
  function DecodeHex(l: Bytes): Option<Bytes> {
    if l == [] then Some([])
    else if |l| == 1 then None
    else
      var n := |l| - 2;
      var k, hi, lo := DecodeHex(l[..n]), HexValue(l[n]), HexValue(l[n + 1]);
      if k.None? || hi.None? || lo.None? then None else Some(k.value + [hi.value * 16 + lo.value])
  }

  lemma HexDigitLower(c: byte, v: byte)
    requires v < 16
    ensures HexValue(c) == Some(v) <==> Lower(c) == HexDigit(v)
  {
  }

  function LowerHex(l: Bytes): (m: Bytes)
    ensures |m| == |l|
  {
    if |l| < 2 then l
    else LowerHex(l[..|l| - 2]) + [Lower(l[|l| - 2]), Lower(l[|l| - 1])]
  }

  lemma SamePairs(a: Bytes, b: Bytes, x: byte, y: byte, z: byte, w: byte)
    ensures a + [x, y] == b + [z, w] <==> a == b && x == z && y == w
  {
    var s, t := a + [x, y], b + [z, w];
    assert a == s[..|a|] && b == t[..|b|];
    assert s[|a|] == x && s[|a| + 1] == y && t[|b|] == z && t[|b| + 1] == w;
  }

  lemma ByteParts(b: byte, hi: byte, lo: byte)
    requires hi < 16 && lo < 16
    ensures b == hi * 16 + lo <==> hi == b / 16 && lo == b % 16
  {
  }

  lemma SameLast(a: Bytes, b: Bytes, x: byte)
    requires b != []
    ensures a + [x] == b <==> a == b[..|b| - 1] && x == b[|b| - 1]
  {
    assert b == b[..|b| - 1] + [b[|b| - 1]];
    assert (a + [x])[..|a|] == a;
  }

  /** Decoding reads exactly the encodings, in either letter case. */
  lemma {:induction false} DecodeMeans(l: Bytes, k: Bytes)
    ensures DecodeHex(l) == Some(k) <==> LowerHex(l) == EncodeHex(k)
    decreases |l|
  {
    if |l| >= 2 && k != [] {
      var n, m := |l| - 2, |k| - 1;
      DecodeMeans(l[..n], k[..m]);
      hide HexDigit, HexValue, Lower;
      HexDigitLower(l[n], k[m] / 16);
      HexDigitLower(l[n + 1], k[m] % 16);
      SamePairs(LowerHex(l[..n]), EncodeHex(k[..m]),
                Lower(l[n]), Lower(l[n + 1]), HexDigit(k[m] / 16), HexDigit(k[m] % 16));
      var d, hi, lo := DecodeHex(l[..n]), HexValue(l[n]), HexValue(l[n + 1]);
      if d.Some? && hi.Some? && lo.Some? {
        ByteParts(k[m], hi.value, lo.value);
        SameLast(d.value, k, hi.value * 16 + lo.value);
      }
    }
  }

  lemma HexRoundTrip(k: Bytes)
    ensures DecodeHex(EncodeHex(k)) == Some(k)
  {
    DecodeMeans(EncodeHex(k), k);
    EncodedIsLower(k);
  }

  lemma {:induction false} EncodedIsLower(k: Bytes)
    ensures LowerHex(EncodeHex(k)) == EncodeHex(k)
  {
    if k != [] {
      var n := |k| - 1;
      EncodedIsLower(k[..n]);
      var l := EncodeHex(k);
      assert l[..|l| - 2] == EncodeHex(k[..n]);
      HexDigitLower(HexDigit(k[n] / 16), k[n] / 16);
      HexDigitLower(HexDigit(k[n] % 16), k[n] % 16);
    }
  }

  // ------------------------------------------------------------------ the file

  datatype Error = InvalidHex | WrongLength | AllZero | NoKeyLines

  datatype Result = Ok(keys: seq<Bytes>) | Err(error: Error)

  datatype Line = Skip | Key(key: Bytes) | Bad(error: Error)

  predicate IsAllZero(k: Bytes) { forall i | 0 <= i < |k| :: k[i] == 0 }

  function ReadLine(raw: Bytes): Line {
    var line := TrimSpace(raw);
    if line == [] || line[0] == 35 then Skip
    else
      var k := DecodeHex(line);
      if k.None? then Bad(InvalidHex)
      else if |k.value| != KEY_BYTES then Bad(WrongLength)
      else if IsAllZero(k.value) then Bad(AllZero)
      else Key(k.value)
  }

  function Extend(ls: seq<Bytes>, c: byte): seq<Bytes>
    requires ls != []
  {
    if c == NL then ls + [[]] else ls[..|ls| - 1] + [ls[|ls| - 1] + [c]]
  }

  /** strings.Split on the newline: one more line than there are newlines. */
  function Split(data: Bytes): (ls: seq<Bytes>)
    ensures |ls| > 0
  {
    if data == [] then [[]] else Extend(Split(data[..|data| - 1]), data[|data| - 1])
  }

  /** The keys of the lines up to the first bad one. */
  function Collect(ls: seq<Bytes>): Result {
    if ls == [] then Ok([])
    else
      var before := Collect(ls[..|ls| - 1]);
      if before.Err? then before
      else
        match ReadLine(ls[|ls| - 1])
        case Skip => before
        case Key(k) => Ok(before.keys + [k])
        case Bad(e) => Err(e)
  }

  function KeysIn(data: Bytes): Result { Collect(Split(data)) }

  function Parse(data: Bytes): Result {
    var c := KeysIn(data);
    if c == Ok([]) then Err(NoKeyLines) else c
  }

  method ParseAuditKeys(data: Bytes) returns (r: Result)
    ensures r == Parse(data)
  {
    hide ReadLine;
    var lines := Split(data);
    var keys: seq<Bytes> := [];
    for i := 0 to |lines|
      invariant Collect(lines[..i]) == Ok(keys)
    {
      assert lines[..i + 1][..i] == lines[..i];
      match ReadLine(lines[i])
      case Skip =>
      case Key(k) => keys := keys + [k];
      case Bad(e) =>
        BadLine(lines, i);
        return Err(e);
    }
    assert lines[..|lines|] == lines;
    if keys == [] { return Err(NoKeyLines); }
    return Ok(keys);
  }

  lemma {:induction false} BadLine(lines: seq<Bytes>, i: nat)
    requires i < |lines| && Collect(lines[..i]).Ok? && ReadLine(lines[i]).Bad?
    ensures Collect(lines) == Err(ReadLine(lines[i]).error)
    decreases |lines|
  {
    hide ReadLine;
    var n := |lines| - 1;
    if i < n {
      assert lines[..n][..i] == lines[..i];
      BadLine(lines[..n], i);
    }
  }

  // ------------------------------------------------------------------ what a file must be

  /** The lines that are neither blank nor comments, trimmed. */
  function Content(ls: seq<Bytes>): (cs: seq<Bytes>) {
    if ls == [] then []
    else
      var cs, line := Content(ls[..|ls| - 1]), TrimSpace(ls[|ls| - 1]);
      if line == [] || line[0] == 35 then cs else cs + [line]
  }

  /** The line spells the key in hexadecimal, in either letter case, and the key may be used. */
  predicate Spells(line: Bytes, k: Bytes) {
    |k| == 32 && (exists i | 0 <= i < |k| :: k[i] != 0) && LowerHex(line) == EncodeHex(k)
  }

  /** What becomes of a line: which are skipped, which are keys, and why the others are refused. */
  lemma ReadLineExact(raw: Bytes)
    ensures var line, skip := TrimSpace(raw), TrimSpace(raw) == [] || TrimSpace(raw)[0] == 35;
            && (ReadLine(raw) == Skip <==> skip)
            && (forall k :: ReadLine(raw) == Key(k) <==> !skip && Spells(line, k))
            && (ReadLine(raw) == Bad(InvalidHex) <==> !skip && forall k :: LowerHex(line) != EncodeHex(k))
            && (ReadLine(raw) == Bad(WrongLength) ==> exists k :: LowerHex(line) == EncodeHex(k) && |k| != 32)
            && (ReadLine(raw) == Bad(AllZero) ==>
                  exists k :: LowerHex(line) == EncodeHex(k) && |k| == 32 && forall i | 0 <= i < |k| :: k[i] == 0)
            && ReadLine(raw) != Bad(NoKeyLines)
  {
    hide TrimSpace, DecodeHex, EncodeHex, LowerHex;
    var line := TrimSpace(raw);
    forall k ensures DecodeHex(line) == Some(k) <==> LowerHex(line) == EncodeHex(k) { DecodeMeans(line, k); }
    var d := DecodeHex(line);
    if d.Some? { assert LowerHex(line) == EncodeHex(d.value); }
  }

  ghost predicate Spelled(cs: seq<Bytes>, ks: seq<Bytes>) {
    |ks| == |cs| && forall i | 0 <= i < |ks| :: Spells(cs[i], ks[i])
  }

  lemma SpelledAppend(cs: seq<Bytes>, line: Bytes, ks: seq<Bytes>)
    ensures Spelled(cs + [line], ks) <==>
            ks != [] && Spelled(cs, ks[..|ks| - 1]) && Spells(line, ks[|ks| - 1])
  {
    hide Spells;
    var all := cs + [line];
    assert all[|cs|] == line && forall i | 0 <= i < |cs| :: all[i] == cs[i];
  }

  lemma AppendTells(a: seq<Bytes>, ks: seq<Bytes>, k: Bytes)
    ensures a + [k] == ks <==> ks != [] && a == ks[..|ks| - 1] && k == ks[|ks| - 1]
  {
    assert ks != [] ==> ks == ks[..|ks| - 1] + [ks[|ks| - 1]];
    assert (a + [k])[..|a|] == a;
  }

  lemma {:induction false} CollectExact(ls: seq<Bytes>, ks: seq<Bytes>)
    ensures Collect(ls) == Ok(ks) <==> Spelled(Content(ls), ks)
    decreases |ls|
  {
    if ls != [] {
      hide ReadLine, Spells, TrimSpace, Spelled;
      var n := |ls| - 1;
      var before, line := Collect(ls[..n]), TrimSpace(ls[n]);
      ReadLineExact(ls[n]);
      match ReadLine(ls[n])
      case Skip => CollectExact(ls[..n], ks);
      case Key(k) =>
        SpelledAppend(Content(ls[..n]), line, ks);
        if before.Ok? { AppendTells(before.keys, ks, k); }
        if ks != [] {
          CollectExact(ls[..n], ks[..|ks| - 1]);
          assert Spells(line, ks[|ks| - 1]) <==> k == ks[|ks| - 1];
        }
      case Bad(_) =>
        SpelledAppend(Content(ls[..n]), line, ks);
        assert ks != [] ==> !Spells(line, ks[|ks| - 1]);
    }
  }

  /**
   A key file parses to a list of keys exactly when it has some lines that are neither blank nor
   comments and they spell those keys, one each and in order: 32 bytes, not all zero.
   */
  lemma ParseExact(data: Bytes, ks: seq<Bytes>)
    ensures Parse(data) == Ok(ks) <==>
            var cs := Content(Split(data));
            ks != [] && |ks| == |cs| && forall i | 0 <= i < |ks| :: Spells(cs[i], ks[i])
  {
    hide Content, Collect, Split, Spells;
    CollectExact(Split(data), ks);
  }

  function Then(a: Result, b: Result): Result {
    if a.Err? then a else if b.Err? then b else Ok(a.keys + b.keys)
  }

  lemma {:induction false} CollectConcat(xs: seq<Bytes>, ys: seq<Bytes>)
    ensures Collect(xs + ys) == Then(Collect(xs), Collect(ys))
  {
    hide ReadLine;
    if ys == [] {
      assert xs + ys == xs;
    } else {
      var m := |ys| - 1;
      CollectConcat(xs, ys[..m]);
      assert (xs + ys)[..|xs| + m] == xs + ys[..m];
    }
  }

  lemma SplitAppend(a: Bytes, c: byte)
    ensures Split(a + [c]) == Extend(Split(a), c)
  {
    assert (a + [c])[..|a|] == a;
  }

  lemma ExtendConcat(x: seq<Bytes>, y: seq<Bytes>, c: byte)
    requires y != []
    ensures Extend(x + y, c) == x + Extend(y, c)
  {
    assert (x + y)[..|x + y| - 1] == x + y[..|y| - 1];
  }

  lemma {:induction false} SplitConcat(a: Bytes, b: Bytes)
    ensures Split(a + [NL] + b) == Split(a) + Split(b)
  {
    if b == [] {
      assert a + [NL] + b == a + [NL];
      SplitAppend(a, NL);
    } else {
      var m := |b| - 1;
      SplitConcat(a, b[..m]);
      hide Split, Extend;
      assert a + [NL] + b == (a + [NL] + b[..m]) + [b[m]] && b == b[..m] + [b[m]];
      SplitAppend(a + [NL] + b[..m], b[m]);
      SplitAppend(b[..m], b[m]);
      ExtendConcat(Split(a), Split(b[..m]), b[m]);
    }
  }

  /** Parsing distributes over concatenation after a newline-terminated file: a rotation adds a line. */
  lemma ParseDistributes(a: Bytes, b: Bytes)
    requires a != [] && a[|a| - 1] == NL
    ensures KeysIn(a + b) == Then(KeysIn(a), KeysIn(b))
  {
    hide Split, Collect;
    var body := a[..|a| - 1];
    assert a == body + [NL] + [];
    assert a + b == body + [NL] + b;
    SplitConcat(body, []);
    SplitConcat(body, b);
    CollectConcat(Split(body), Split([]));
    CollectConcat(Split(body), Split(b));
    BlankSkipped();
    ThenNone(Collect(Split(body)));
  }

  lemma ThenNone(r: Result)
    ensures Then(r, Ok([])) == r
  {
  }

  lemma BlankSkipped()
    ensures Split([]) == [[]] && Collect([[]]) == Ok([])
  {
    assert TrimSpace([]) == [];
    hide DecodeHex, TrimSpace;
    var ls: seq<Bytes> := [[]];
    assert ls[..0] == [];
  }

  // ------------------------------------------------------------------ printing

  function KeyLine(k: Bytes): Bytes { EncodeHex(k) + [NL] }

  function Print(ks: seq<Bytes>): Bytes {
    if ks == [] then [] else Print(ks[..|ks| - 1]) + KeyLine(ks[|ks| - 1])
  }

  predicate Usable(k: Bytes) { |k| == KEY_BYTES && !IsAllZero(k) }

  lemma HexUntrimmed(l: Bytes)
    requires l != [] && forall i | 0 <= i < |l| :: 48 <= l[i] <= 102
    ensures TrimSpace(l) == l
  {
    assert SpacePrefix(l) == 0 && SpaceSuffix(l) == 0;
  }

  lemma ReadKeyLine(k: Bytes)
    requires Usable(k)
    ensures ReadLine(EncodeHex(k)) == Key(k)
  {
    hide EncodeHex, DecodeHex, TrimSpace;
    HexUntrimmed(EncodeHex(k));
    HexRoundTrip(k);
    assert EncodeHex(k)[0] >= 48;
  }

  lemma {:induction false} SplitOneLine(l: Bytes)
    requires NoNewline(l)
    ensures Split(l) == [l]
  {
    if l != [] {
      SplitOneLine(l[..|l| - 1]);
      assert l == l[..|l| - 1] + [l[|l| - 1]];
    }
  }

  lemma OneKeyLine(l: Bytes)
    requires ReadLine(l).Key?
    ensures Collect([l]) == Ok([ReadLine(l).key])
  {
    hide ReadLine;
    assert [l][..0] == [];
  }

  lemma KeyLineParses(k: Bytes)
    requires Usable(k)
    ensures KeysIn(KeyLine(k)) == Ok([k])
  {
    hide ReadLine, EncodeHex, Split;
    var l := EncodeHex(k);
    SplitOneLine(l);
    SplitConcat(l, []);
    assert KeyLine(k) == l + [NL] + [];
    ReadKeyLine(k);
    BlankSkipped();
    CollectConcat([l], [[]]);
    OneKeyLine(l);
  }

  /** Printing a key list and reading it back gives the list, active key first. */
  lemma {:induction false} PrintParse(ks: seq<Bytes>)
    requires forall k | k in ks :: Usable(k)
    ensures KeysIn(Print(ks)) == Ok(ks)
    ensures Parse(Print(ks)) == if ks == [] then Err(NoKeyLines) else Ok(ks)
  {
    if ks == [] {
      BlankSkipped();
    } else {
      var n := |ks| - 1;
      PrintParse(ks[..n]);
      KeyLineParses(ks[n]);
      hide KeysIn, KeyLine;
      assert ks == ks[..n] + [ks[n]];
      if n == 0 {
        assert Print(ks) == KeyLine(ks[0]);
      } else {
        PrintEnds(ks[..n]);
        ParseDistributes(Print(ks[..n]), KeyLine(ks[n]));
      }
    }
  }

  lemma PrintEnds(ks: seq<Bytes>)
    requires ks != []
    ensures Print(ks) != [] && Print(ks)[|Print(ks)| - 1] == NL
  {
  }
}
