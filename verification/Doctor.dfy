/**
 The support bundle's two stream readers: the ring buffer that keeps a log's last lines, and the
 writer that indents whatever is printed through it (cmd/eunox/doctor.go).
 */
module Doctor {

  import opened Wrappers
  import opened Bytes

  // ------------------------------------------------------------------ the last lines

  /** The non-blank lines, trimmed, in order. */
  function NonBlank(lines: seq<Bytes>): seq<Bytes> {
    if lines == [] then []
    else
      var before, line := NonBlank(lines[..|lines| - 1]), TrimSpace(lines[|lines| - 1]);
      if line == [] then before else before + [line]
  }

  function Last<T>(xs: seq<T>, n: int): seq<T> {
    if n <= 0 then [] else if |xs| <= n then xs else xs[|xs| - n..]
  }

  /** Overwriting the oldest slot and stepping past it drops the oldest and appends the newest. */
  lemma RingStep<T>(ring: seq<T>, next: nat, x: T)
    requires next < |ring|
    ensures var ring', next' := ring[next := x], (next + 1) % |ring|;
            ring'[next'..] + ring'[..next'] == (ring[next..] + ring[..next])[1..] + [x]
  {
    var ring', next' := ring[next := x], (next + 1) % |ring|;
    var a, b := ring'[next'..] + ring'[..next'], (ring[next..] + ring[..next])[1..] + [x];
    assert next' == if next + 1 < |ring| then next + 1 else 0;
    assert |a| == |b| == |ring|;
    assert forall i | 0 <= i < |ring| :: a[i] == b[i];
  }

  /** `failed` is the scanner's error after the lines it could read. */
  method TailAuditLines(lines: seq<Bytes>, failed: bool, n: int) returns (out: Option<seq<Bytes>>)
    ensures out == if n > 0 && failed then None else Some(Last(NonBlank(lines), n))
  {
    hide TrimSpace;
    if n <= 0 { return Some([]); }
    var ring: seq<Bytes> := [];
    var next := 0;
    var wrapped := false;
    for i := 0 to |lines|
      invariant |ring| <= n && 0 <= next < n && (!wrapped ==> next == 0)
      invariant |ring| < n ==> !wrapped && ring == NonBlank(lines[..i])
      invariant |ring| == n ==> next < |ring| && ring[next..] + ring[..next] == Last(NonBlank(lines[..i]), n)
    {
      assert lines[..i + 1][..i] == lines[..i];
      var line := TrimSpace(lines[i]);
      ghost var before := NonBlank(lines[..i]);
      if line != [] {
        if |ring| < n {
          ring := ring + [line];
          assert |ring| == n ==> ring[0..] + ring[..0] == ring;
        } else {
          RingStep(ring, next, line);
          assert Last(before, n)[1..] + [line] == Last(before + [line], n);
          ring := ring[next := line];
          next := (next + 1) % n;
          wrapped := true;
        }
      }
    }
    assert lines[..|lines|] == lines;
    if failed { return None; }
    if !wrapped {
      assert |ring| == n ==> ring[0..] + ring[..0] == ring;
      return Some(ring);
    }
    return Some(ring[next..] + ring[..next]);
  }

  // ------------------------------------------------------------------ indenting

  /** Every line gets the prefix just before its first byte; `start` says whether a line starts here. */
  function Indent(prefix: Bytes, start: bool, p: Bytes): Bytes
    decreases |p|
  {
    if p == [] then []
    else (if start then prefix else []) + [p[0]] + Indent(prefix, p[0] == NL, p[1..])
  }

  function AtStart(start: bool, p: Bytes): bool {
    if p == [] then start else p[|p| - 1] == NL
  }

  lemma AtStartConcat(start: bool, a: Bytes, b: Bytes)
    ensures AtStart(start, a + b) == AtStart(AtStart(start, a), b)
    ensures a != [] ==> AtStart(a[0] == NL, a[1..]) == AtStart(start, a)
  {
  }

  lemma {:induction false} IndentConcat(prefix: Bytes, start: bool, a: Bytes, b: Bytes)
    ensures Indent(prefix, start, a + b) == Indent(prefix, start, a) + Indent(prefix, AtStart(start, a), b)
    ensures AtStart(start, a + b) == AtStart(AtStart(start, a), b)
    decreases |a|
  {
    AtStartConcat(start, a, b);
    if a == [] {
      assert a + b == b && Indent(prefix, start, a) == [];
      assert [] + Indent(prefix, start, b) == Indent(prefix, start, b);
    } else {
      hide Indent, AtStart, Owed;
      IndentConcat(prefix, a[0] == NL, a[1..], b);
      IndentHead(prefix, start, a);
      IndentHead(prefix, start, a + b);
      assert (a + b)[1..] == a[1..] + b && (a + b)[0] == a[0];
      var next := a[0] == NL;
      Associates(Owed(prefix, start) + [a[0]], Indent(prefix, next, a[1..]), Indent(prefix, AtStart(start, a), b));
    }
  }

  lemma Associates(x: Bytes, y: Bytes, z: Bytes)
    ensures (x + y) + z == x + (y + z)
  {
  }

  lemma IndentHead(prefix: Bytes, start: bool, p: Bytes)
    requires p != []
    ensures Indent(prefix, start, p) == Owed(prefix, start) + [p[0]] + Indent(prefix, p[0] == NL, p[1..])
  {
  }

  lemma {:induction false} IndentLine(prefix: Bytes, start: bool, l: Bytes)
    requires l != [] && NoNewline(l[..|l| - 1])
    ensures Indent(prefix, start, l) == (if start then prefix else []) + l
    decreases |l|
  {
    if |l| > 1 {
      assert l[..|l| - 1][0] == l[0];
      assert l[1..][..|l| - 2] == l[..|l| - 1][1..];
      IndentLine(prefix, false, l[1..]);
      assert l == [l[0]] + l[1..];
    }
  }

  /** `out` extends `o` by some part of `whole`, from its beginning. */
  predicate Partly(o: Bytes, out: Bytes, whole: Bytes) { o <= out <= o + whole }

  function Owed(prefix: Bytes, start: bool): Bytes { if start then prefix else [] }

  /** Up to and including one more line, or the rest of one. */
  lemma Segment(prefix: Bytes, start: bool, p: Bytes, w: nat, line: Bytes)
    requires line != [] && w + |line| <= |p| && line == p[w..w + |line|] && NoNewline(line[..|line| - 1])
    ensures Indent(prefix, start, p[..w + |line|]) ==
            Indent(prefix, start, p[..w]) + (Owed(prefix, AtStart(start, p[..w])) + line)
    ensures Indent(prefix, start, p[..w + |line|]) <= Indent(prefix, start, p)
    ensures AtStart(start, p[..w + |line|]) == (line[|line| - 1] == NL)
  {
    var v := w + |line|;
    assert p[..v] == p[..w] + line;
    assert p == p[..v] + p[v..];
    IndentConcat(prefix, start, p[..w], line);
    IndentConcat(prefix, start, p[..v], p[v..]);
    IndentLine(prefix, AtStart(start, p[..w]), line);
  }

  /** Where the line that reaches the end of q begins. */
  function LineBegin(q: Bytes): (w: nat)
    ensures w <= |q|
  {
    LastNewline(q) + 1
  }

  lemma BeginsAt(p: Bytes, w: nat, line: Bytes, n: nat, ended: bool)
    requires w + |line| <= |p| && line == p[w..w + |line|] && LineBegin(p[..w]) == w && n <= |line| && line != []
    requires NoNewline(line[..|line| - 1]) && (ended <==> line[|line| - 1] == NL) && (!ended ==> w + |line| == |p|)
    ensures n < |line| || !ended ==> LineBegin(p[..w + n]) == w
    ensures n == |line| && ended ==> LineBegin(p[..w + n]) == w + n
    ensures ended ==> !NoNewline(p[w..])
  {
    var q := p[..w + n];
    assert forall i | w <= i < w + |line| :: p[i] == line[i - w];
    assert forall i | 0 <= i < |line| - 1 :: line[..|line| - 1][i] == line[i];
    if n == |line| && ended {
      LastNewlineIs(q, w + n - 1);
    } else {
      assert w > 0 ==> p[..w][w - 1] == NL;
      LastNewlineIs(q, w - 1);
    }
    if ended { assert p[w..][|line| - 1] == NL; }
  }

  /** bytes.IndexByte for the newline, None when there is none. */
  method IndexNewline(p: Bytes) returns (nl: Option<nat>)
    ensures nl.None? ==> NoNewline(p)
    ensures nl.Some? ==> nl.value < |p| && p[nl.value] == NL && NoNewline(p[..nl.value])
  {
    for i := 0 to |p|
      invariant NoNewline(p[..i])
    {
      if p[i] == NL { return Some(i); }
      assert p[..i + 1] == p[..i] + [p[i]];
    }
    assert p[..|p|] == p;
    return None;
  }

  /** With that room the prefix of the line after p does not get out whole. */
  predicate Unbegun(prefix: Bytes, start: bool, p: Bytes, room: Option<nat>) {
    room.Some? && |Indent(prefix, start, p)| + |prefix| > room.value
  }

  class IndentWriter {
    var out: Bytes
    var room: Option<nat>      // what the underlying writer still accepts; None: everything
    var atLineStart: bool
    const prefix: Bytes

    constructor (prefix: Bytes, room: Option<nat>)
      ensures out == [] && atLineStart && this.prefix == prefix && this.room == room
    {
      out, atLineStart, this.room, this.prefix := [], true, room, prefix;
    }

    /** The underlying writer: all of `b`, or what fits and an error. */
    method Emit(b: Bytes) returns (n: nat, ok: bool)
      modifies this`out, this`room
      ensures n <= |b| && out == old(out) + b[..n]
      ensures ok <==> old(room).None? || old(room).value >= |b|
      ensures if ok then n == |b| else n < |b| && room == Some(0)
      ensures room == if old(room).None? then None else Some(old(room).value - n)
    {
      if room.None? || room.value >= |b| {
        n, ok := |b|, true;
      } else {
        n, ok := room.value, false;
      }
      assert b[..|b|] == b;
      out := out + b[..n];
      if room.Some? { room := Some(room.value - n); }
    }

    /** One line, or the rest of one, after the prefix it is owed; `begun` says the prefix got out. */
    method EmitLine(line: Bytes) returns (begun: bool, n: nat, ok: bool, ghost cut: nat)
      modifies this`out, this`room
      ensures n <= |line| && (ok ==> begun && n == |line|) && (!begun ==> n == 0 && !ok)
      ensures begun && !ok ==> n < |line|
      ensures begun <==> !atLineStart || old(room).None? || old(room).value >= |prefix|
      ensures var owed := Owed(prefix, atLineStart) + line;
              cut <= |owed| && out == old(out) + owed[..cut] && (ok <==> cut == |owed|)
      ensures old(room).None? ==> ok && room.None?
      ensures old(room).Some? ==> room.Some? && room.value + cut == old(room).value && (!ok ==> room.value == 0)
    {
      begun := true;
      if atLineStart {
        var k, sent := Emit(prefix);
        if !sent {
          assert (prefix + line)[..k] == prefix[..k];
          return false, 0, false, k;
        }
        assert prefix[..|prefix|] == prefix;
      }
      n, ok := Emit(line);
      ghost var owed := Owed(prefix, atLineStart);
      cut := |owed| + n;
      assert (owed + line)[..cut] == owed + line[..n];
    }

    /** What is written depends only on the bytes; on an error it is a prefix of that. */
    method Write(p: Bytes) returns (written: nat, ok: bool)
      modifies this`out, this`room, this`atLineStart
      ensures written <= |p| && Partly(old(out), out, Indent(prefix, old(atLineStart), p))
      ensures ok ==> written == |p| && out == old(out) + Indent(prefix, old(atLineStart), p)
      ensures ok ==> atLineStart == AtStart(old(atLineStart), p)
      // After an error the flag is what it was where the cut line began, unless that line has no end
      // and was begun, its prefix having fitted.
      ensures !ok ==> written < |p|
      ensures !ok ==> var w := LineBegin(p[..written]);
                atLineStart == (&& AtStart(old(atLineStart), p[..w])
                                && (NoNewline(p[w..]) ==> Unbegun(prefix, old(atLineStart), p[..w], old(room))))
      ensures old(room).None? ==> ok && room.None?
      // It errs exactly when the output does not fit, with all that does fit written.
      ensures old(room).Some? ==> room.Some? && room.value + |out| == old(room).value + |old(out)|
      ensures !ok ==> room == Some(0) && |out| < |old(out)| + |Indent(prefix, old(atLineStart), p)|
    {
      hide Indent, Owed, NoNewline, AtStart, Partly, LineBegin, LastNewline;
      written := 0;
      Nothing(prefix, atLineStart, p, out);
      while written < |p|
        invariant written <= |p| && LineBegin(p[..written]) == written
        invariant out == old(out) + Indent(prefix, old(atLineStart), p[..written])
        invariant atLineStart == AtStart(old(atLineStart), p[..written])
        invariant old(room).None? ==> room.None?
        invariant old(room).Some? ==> room.Some? && room.value + |out| == old(room).value + |old(out)|
      {
        var rest := p[written..];
        var nl := IndexNewline(rest);
        var line := if nl.None? then rest else rest[..nl.value + 1];
        FirstLine(rest, nl, line);
        Segment(prefix, old(atLineStart), p, written, line);
        ghost var before, owed := Indent(prefix, old(atLineStart), p[..written]), Owed(prefix, atLineStart) + line;
        var begun, n, sent, cut := EmitLine(line);
        Within(old(out), before, owed, cut, Indent(prefix, old(atLineStart), p));
        BeginsAt(p, written, line, n, nl.Some?);
        if !begun { return written, false; }
        if nl.None? {
          assert p[..|p|] == p;
          atLineStart := false;
          return written + n, sent;
        }
        if n == |line| { atLineStart := true; }
        written := written + n;
        if !sent { return written, false; }
      }
      assert p[..|p|] == p;
      return written, true;
    }
  }

  lemma Nothing(prefix: Bytes, start: bool, p: Bytes, out: Bytes)
    ensures out + Indent(prefix, start, p[..0]) == out && AtStart(start, p[..0]) == start && LineBegin(p[..0]) == 0
    ensures Partly(out, out + Indent(prefix, start, p), Indent(prefix, start, p))
  {
  }

  lemma FirstLine(rest: Bytes, nl: Option<nat>, line: Bytes)
    requires rest != [] && (nl.None? ==> NoNewline(rest) && line == rest)
    requires nl.Some? ==> nl.value < |rest| && NoNewline(rest[..nl.value]) && line == rest[..nl.value + 1]
    ensures line != [] && NoNewline(line[..|line| - 1])
  {
    if nl.Some? { assert line[..|line| - 1] == rest[..nl.value]; }
  }

  lemma Within(old_: Bytes, before: Bytes, owed: Bytes, cut: nat, whole: Bytes)
    requires cut <= |owed| && before + owed <= whole
    ensures Partly(old_, old_ + before + owed[..cut], whole)
    ensures cut == |owed| ==> old_ + before + owed[..cut] == old_ + (before + owed)
  {
  }

  function Flatten(chunks: seq<Bytes>): Bytes {
    if chunks == [] then [] else Flatten(chunks[..|chunks| - 1]) + chunks[|chunks| - 1]
  }

  /** A stream written in pieces: the pieces do not show. */
  method WriteChunks(prefix: Bytes, chunks: seq<Bytes>) returns (out: Bytes, atLineStart: bool)
    ensures out == Indent(prefix, true, Flatten(chunks)) && atLineStart == AtStart(true, Flatten(chunks))
  {
    var iw := new IndentWriter(prefix, None);
    for i := 0 to |chunks|
      invariant fresh(iw) && iw.room.None? && iw.prefix == prefix
      invariant iw.out == Indent(prefix, true, Flatten(chunks[..i]))
      invariant iw.atLineStart == AtStart(true, Flatten(chunks[..i]))
    {
      assert chunks[..i + 1][..i] == chunks[..i];
      IndentConcat(prefix, true, Flatten(chunks[..i]), chunks[i]);
      var _, _ := iw.Write(chunks[i]);
    }
    assert chunks[..|chunks|] == chunks;
    return iw.out, iw.atLineStart;
  }

  /**
   A line cut one byte in leaves the flag set although the stream stands inside that line, so the
   next write would indent in the middle of it.
   */
  method CutLineKeepsFlag() returns (out: Bytes, atLineStart: bool)
    ensures out == [32, 32, 97] && atLineStart
  {
    var iw := new IndentWriter([32, 32], Some(3));
    var p: Bytes := [97, 98, NL];
    var written, ok := iw.Write(p);
    assert [97, 98, NL][..2] == [97, 98] && p[..written] <= p;
    IndentLine([32, 32], true, p);
    assert Indent([32, 32], true, p) == [32, 32, 97, 98, NL];
    CutAt(p, written);
    return iw.out, iw.atLineStart;
  }

  lemma CutAt(p: Bytes, written: nat)
    requires p == [97, 98, NL] && written < 3
    ensures LineBegin(p[..written]) == 0 && !NoNewline(p[0..]) && AtStart(true, p[..0])
  {
    LastNewlineIs(p[..written], -1);
    assert p[0..][2] == NL;
  }
}
