/**
 The tamper-evident chain: what a signed record line is, when records form one chain, and
 the bytes a run of them leaves in a file (internal/audit/audit.go, internal/audit/verify.go).
 */
module Chain {
  import opened Wrappers
  import opened Bytes
  import opened Json
  import opened Records
  import opened Tail

  /** auditGenesisPrev: "sha256:genesis". */
  const GENESIS: Bytes := [115, 104, 97, 50, 53, 54, 58, 103, 101, 110, 101, 115, 105, 115]

  /**
   The pieces whose internals the chain does not depend on: the JSON string encoder, the MAC
   a key computes over a body, the lenient and the strict decoder, and the trimming of a line.
   `hmac` and `line` name what those make of a record: the MAC under the key it names, and
   the line writeRecord emits for it, without its newline.
   */
  datatype Codec = Codec(enc: Bytes -> Bytes,
                         mac: (Bytes, Bytes) -> Bytes,
                         lenient: Bytes -> Option<(Record, Bytes)>,
                         strict: Bytes -> Option<(Record, Bytes)>,
                         trim: Trimmer,
                         hmac: Record -> Bytes,
                         line: Record -> Bytes)
  {
    ghost predicate Signs(r: Record) {
      && hmac(r) == mac(r.keyId, Body(enc, r))
      && SignedRecordLine(enc, Body(enc, r), hmac(r)) == Json.Result<Bytes>.Ok(line(r))
    }

    /** Neither decoder finds an object in x. */
    predicate Undecodable(x: Bytes) {
      lenient(x).None? && strict(x).None?
    }

    /** Both decoders read back what the writer wrote, and nothing from a line cut short. */
    ghost predicate Decodes(r: Record) {
      && lenient(line(r)) == Some((r, hmac(r))) && strict(line(r)) == Some((r, hmac(r)))
      && forall x | x < line(r) :: Undecodable(x)
    }

    ghost predicate MacShape(key: Bytes, body: Bytes) {
      0 < |mac(key, body)| <= 71
    }

    ghost predicate Valid() {
      && IsEncoder(enc)
      && trim.Lawful()
      && (forall key, body :: MacShape(key, body))
      && (forall r :: Signs(r))
    }

    /** A record as the sink hands it to the writer: within its caps, and surviving a decode. */
    ghost predicate Sound(r: Record) {
      Bounded(enc, r) && Decodes(r)
    }
  }

  // ------------------------------------------------------------------ record lines

  lemma LineShape(c: Codec, r: Record)
    requires c.Valid() && c.Sound(r)
    ensures RecordLine(c.line(r)) && |c.line(r)| <= MAX_LINE && 2 * |c.line(r)| + 2 <= SCAN_WINDOW
    ensures 0 < |c.hmac(r)| <= 71
  {
    hide Body, Bounded, SignedRecordLine;
    assert c.Signs(r) && c.MacShape(r.keyId, Body(c.enc, r));
    RecordFitsWindow(c.enc, r, c.hmac(r));
  }

  /** Part of a record's line is the whole line, or decodes to nothing however it is trimmed. */
  lemma CutLine(c: Codec, r: Record, x: Bytes)
    requires c.Valid() && c.Sound(r) && x <= c.line(r) && x != []
    ensures x[0] == 123 && NoNewline(x) && |x| <= MAX_LINE && c.trim.both(x) != []
    ensures x != c.line(r) ==> c.Undecodable(x) && c.Undecodable(c.trim.both(x))
    ensures x == c.line(r) ==> c.trim.both(x) == x
  {
    LineShape(c, r);
    assert c.trim.Trims(x);
    hide Bounded, Codec.Valid;
    assert forall i | 0 <= i < |x| :: x[i] == c.line(r)[i];
    assert c.trim.both(x) <= x;
    if x != c.line(r) {
      assert x < c.line(r);
      assert c.trim.both(x) < c.line(r);
    }
  }

  // ------------------------------------------------------------------ chains

  /** The prev_hmac the record after rs carries. */
  function PrevOf(c: Codec, rs: seq<Record>): (h: Bytes) {
    if rs == [] then GENESIS else c.hmac(rs[|rs| - 1])
  }

  /** One unbroken chain: seqs 1..n, every prev_hmac the predecessor's _hmac, genesis first. */
  ghost predicate Chained(c: Codec, rs: seq<Record>) {
    forall i | 0 <= i < |rs| ::
      rs[i].seq_ == i + 1 && rs[i].prev == PrevOf(c, rs[..i]) && c.Sound(rs[i])
  }

  lemma ChainedPrefix(c: Codec, rs: seq<Record>, n: nat)
    requires Chained(c, rs) && n <= |rs|
    ensures Chained(c, rs[..n])
  {
    hide Bounded;
    assert forall i | 0 <= i < n :: rs[..n][..i] == rs[..i];
  }

  /** A chain is extended by the next seq and the last MAC, and by nothing else. */
  lemma ChainedAppend(c: Codec, rs: seq<Record>, r: Record)
    ensures Chained(c, rs + [r]) <==>
              Chained(c, rs) && r.seq_ == |rs| + 1 && r.prev == PrevOf(c, rs) && c.Sound(r)
  {
    hide Codec.Sound;
    var all := rs + [r];
    assert all[..|rs|] == rs;
    assert forall i | 0 <= i < |rs| :: all[..i] == rs[..i];
    assert all[|rs|] == r;
    if Chained(c, all) { ChainedPrefix(c, all, |rs|); }
  }

  // ------------------------------------------------------------------ the bytes of a chain

  /** The file that holds exactly the records rs. */
  function Render(c: Codec, rs: seq<Record>): (b: Bytes) {
    if rs == [] then [] else Render(c, rs[..|rs| - 1]) + c.line(rs[|rs| - 1]) + [NL]
  }

  lemma RenderAppend(c: Codec, rs: seq<Record>, r: Record)
    ensures Render(c, rs + [r]) == Render(c, rs) + c.line(r) + [NL]
  {
    assert (rs + [r])[..|rs|] == rs;
  }

  lemma RenderWhole(c: Codec, rs: seq<Record>)
    ensures WholeLines(Render(c, rs)) && (Render(c, rs) == [] <==> rs == [])
  {
  }

  /** Where a prefix of a file was cut: whole records, then part of the next one. */
  lemma {:induction false} PrefixOfRender(c: Codec, rs: seq<Record>, x: Bytes) returns (m: nat, tail: Bytes)
    requires forall i | 0 <= i < |rs| :: NoNewline(c.line(rs[i]))
    requires x <= Render(c, rs)
    ensures m <= |rs| && x == Render(c, rs[..m]) + tail && NoNewline(tail)
    ensures tail != [] ==> m < |rs| && tail <= c.line(rs[m])
    decreases |rs|
  {
    if rs == [] {
      m, tail := 0, [];
    } else {
      var n := |rs| - 1;
      var a, line := Render(c, rs[..n]), c.line(rs[n]);
      assert Render(c, rs) == a + line + [NL];
      if |x| <= |a| {
        assert x <= a;
        m, tail := PrefixOfRender(c, rs[..n], x);
        assert rs[..n][..m] == rs[..m];
      } else if |x| == |a| + |line| + 1 {
        m, tail := |rs|, [];
        assert rs[..m] == rs;
      } else {
        m, tail := n, x[|a|..];
        assert tail <= line by { assert forall i | 0 <= i < |tail| :: tail[i] == x[|a| + i] == line[i]; }
      }
    }
  }

  // ------------------------------------------------------------------ splitting a file back into lines

  /** The newline-terminated lines of a file; what follows the last newline is not one. */
  function CompleteLines(f: Bytes): (ls: seq<Bytes>)
    decreases |f|
  {
    var i := LastNewline(f);
    if i < 0 then []
    else
      var d := f[..i];
      var j := LastNewline(d);
      CompleteLines(d[..j + 1]) + [d[j + 1..]]
  }

  function Lines(c: Codec, rs: seq<Record>): (ls: seq<Bytes>) {
    seq(|rs|, i requires 0 <= i < |rs| => c.line(rs[i]))
  }

  lemma CompleteLinesSnoc(a: Bytes, l: Bytes, g: Bytes)
    requires WholeLines(a) && NoNewline(l) && NoNewline(g)
    ensures CompleteLines(a + l + [NL] + g) == CompleteLines(a) + [l]
  {
    var c := a + l + [NL];
    var f := c + g;
    LastNewlineOfConcat(c, g);
    var d := f[..|c| - 1];
    assert d == a + l;
    LastNewlineOfConcat(a, l);
    assert d[..|a|] == a && d[|a|..] == l;
  }

  lemma NoLines(g: Bytes)
    requires NoNewline(g)
    ensures CompleteLines(g) == []
  {
    LastNewlineIs(g, -1);
  }

  /** The complete lines of records followed by a torn fragment are the records' lines. */
  lemma {:induction false} CompleteLinesOfRender(c: Codec, rs: seq<Record>, tail: Bytes)
    requires forall i | 0 <= i < |rs| :: NoNewline(c.line(rs[i]))
    requires NoNewline(tail)
    ensures CompleteLines(Render(c, rs) + tail) == Lines(c, rs)
    decreases |rs|
  {
    hide CompleteLines;
    if rs == [] {
      assert Render(c, rs) + tail == tail;
      NoLines(tail);
    } else {
      var n := |rs| - 1;
      var a, line := Render(c, rs[..n]), c.line(rs[n]);
      RenderWhole(c, rs[..n]);
      CompleteLinesSnoc(a, line, tail);
      CompleteLinesOfRender(c, rs[..n], []);
      assert a == a + [];
      assert Lines(c, rs) == Lines(c, rs[..n]) + [line];
    }
  }
}
