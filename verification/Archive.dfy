/**
 Verifying a whole archive after any number of sessions: VerifyLogFiles joins the rotated
 siblings and the base with newlines and runs one pass over them (internal/audit/verify.go).
 */
module Archive {
  import opened Bytes
  import opened Records
  import opened Tail
  import opened Chain
  import opened Verify
  import opened Startup
  import opened Sessions

  // ------------------------------------------------------------------ lines of concatenated bytes

  lemma CompleteLinesNone(a: Bytes, g: Bytes)
    requires WholeLines(a) && NoNewline(g)
    ensures CompleteLines(a + g) == CompleteLines(a)
  {
    var f := a + g;
    LastNewlineOfConcat(a, g);
    LastNewlineOfConcat(a, []);
    assert a + [] == a;
    hide NoNewline, WholeLines, LastNewline;
    if a != [] { assert f[..|a| - 1] == a[..|a| - 1]; }
  }

  /** Bytes that hold a newline, taken apart at their last line. */
  lemma LastLineOf(b: Bytes) returns (b0: Bytes, l: Bytes, g: Bytes)
    requires !NoNewline(b)
    ensures b == b0 + l + [NL] + g && WholeLines(b0) && NoNewline(l) && NoNewline(g)
  {
    hide CompletePart;
    var c := CompletePart(b);
    assert b[0..] == b;
    var d := c[..|c| - 1];
    b0 := CompletePart(d);
    l, g := d[|b0|..], b[|c|..];
    hide NoNewline, WholeLines;
    assert d == b0 + l && c == d + [NL] && b == c + g;
  }

  /** Whole lines never run into what follows them. */
  lemma {:induction false} CompleteLinesConcat(a: Bytes, b: Bytes)
    requires WholeLines(a)
    ensures CompleteLines(a + b) == CompleteLines(a) + CompleteLines(b)
    decreases |b|
  {
    hide CompleteLines;
    if NoNewline(b) {
      CompleteLinesNone(a, b);
      CompleteLinesNone([], b);
      assert [] + b == b;
      NoLines([]);
    } else {
      var b0, l, g := LastLineOf(b);
      hide NoNewline;
      assert a + b == (a + b0) + l + [NL] + g;
      CompleteLinesSnoc(a + b0, l, g);
      CompleteLinesSnoc(b0, l, g);
      CompleteLinesConcat(a, b0);
    }
  }

  lemma {:induction false} TokensConcat(t: Trimmer, a: seq<Bytes>, b: seq<Bytes>)
    ensures Tokens(t, a + b) == Tokens(t, a) + Tokens(t, b)
    decreases |b|
  {
    if b == [] {
      assert a + b == a;
    } else {
      assert (a + b)[..|a + b| - 1] == a + b[..|b| - 1];
      TokensConcat(t, a, b[..|b| - 1]);
    }
  }

  // ------------------------------------------------------------------ the joined stream

  /** buildLazyChain: the files with a newline between each two. */
  function Joined(files: seq<Bytes>): (b: Bytes) {
    if files == [] then []
    else if |files| == 1 then files[0]
    else Joined(files[..|files| - 1]) + [NL] + files[|files| - 1]
  }

  /** The line a torn fragment becomes once the joiner has put a newline after it. */
  function TornToken(v: Verifier, tail: Bytes): (ls: seq<Bytes>) {
    if v.c.trim.Blank(DropCR(tail)) then [] else [DropCR(tail)]
  }

  /** What the pass reads of files that others follow: their records, and each fragment as a line. */
  function Interior(v: Verifier, fs: seq<FileView>): (ls: seq<Bytes>) {
    if fs == [] then []
    else
      var f := fs[|fs| - 1];
      Interior(v, fs[..|fs| - 1]) + Lines(v.c, f.recs) + TornToken(v, f.tail)
  }

  /** Records anywhere in an honest chain are processed line by line. */
  lemma PartTokens(v: Verifier, before: seq<Record>, recs: seq<Record>)
    requires Honest(v, before + recs)
    ensures Tokens(v.c.trim, Lines(v.c, recs)) == Lines(v.c, recs)
    ensures forall i | 0 <= i < |recs| :: NoNewline(v.c.line(recs[i]))
  {
    assert v.c.trim.Lawful();
    hide Honest, Tokens;
    var ls, all := Lines(v.c, recs), before + recs;
    forall i | 0 <= i < |recs| ensures RecordLine(ls[i]) && ls[i] == v.c.line(recs[i]) {
      assert all[|before| + i] == recs[i];
      HonestLines(v, all, |before| + i);
    }
    TokensOfLines(v.c.trim, ls);
  }

  lemma TerminatedFile(v: Verifier, file: Bytes, f: FileView, before: seq<Record>)
    requires Shows(v.c, file, f) && Honest(v, before + f.recs)
    ensures Tokens(v.c.trim, CompleteLines(file)) == Lines(v.c, f.recs)
    ensures Tokens(v.c.trim, CompleteLines(file + [NL])) == Lines(v.c, f.recs) + TornToken(v, f.tail)
  {
    hide Honest, CompleteLines, DropCR;
    PartTokens(v, before, f.recs);
    var r, ls := Render(v.c, f.recs), Lines(v.c, f.recs);
    RenderWhole(v.c, f.recs);
    CompleteLinesOfRender(v.c, f.recs, f.tail);
    CompleteLinesOfRender(v.c, f.recs, []);
    assert r + [] == r;
    CompleteLinesSnoc(r, f.tail, []);
    assert file + [NL] == r + f.tail + [NL] + [];
    TokensConcat(v.c.trim, ls, [f.tail]);
    TokensStep(v.c.trim, [f.tail], 0);
    TokensNone(v.c.trim, [f.tail]);
    assert [f.tail][..1] == [f.tail];
  }

  lemma NoToken(v: Verifier)
    requires v.c.trim.Lawful()
    ensures TornToken(v, []) == []
  {
    assert v.c.trim.Trims([]);
  }

  /** The joiner's newline completes a record that lacked only that. */
  lemma BareCompleted(c: Codec, file: Bytes, f: FileView)
    requires Bare(c, file, f)
    ensures Shows(c, file + [NL], f)
  {
    RenderNone(c);
    RenderAppend(c, [], f.recs[0]);
    assert [] + [f.recs[0]] == f.recs;
    assert [] + file + [NL] == file + [NL] && file + [NL] + [] == file + [NL];
    hide Render;
  }

  lemma RotatedFile(v: Verifier, file: Bytes, f: FileView, before: seq<Record>)
    requires (Shows(v.c, file, f) || Bare(v.c, file, f)) && Honest(v, before + f.recs)
    ensures Tokens(v.c.trim, CompleteLines(file + [NL])) == Lines(v.c, f.recs) + TornToken(v, f.tail)
  {
    hide Honest, CompleteLines, Tokens, TornToken, Shows;
    if Bare(v.c, file, f) {
      HonestLawful(v, before + f.recs);
      NoToken(v);
      BareCompleted(v.c, file, f);
      TerminatedFile(v, file + [NL], f, before);
    } else {
      TerminatedFile(v, file, f, before);
    }
  }

  lemma {:induction false} JoinedInterior(v: Verifier, files: seq<Bytes>, fs: seq<FileView>)
    requires files != [] && ShowsAll(v.c, files, fs) && Honest(v, Flat(fs))
    ensures Tokens(v.c.trim, CompleteLines(Joined(files) + [NL])) == Interior(v, fs)
    decreases |files|
  {
    hide Honest, CompleteLines, Tokens, TornToken, Shows, Bare;
    var n := |files| - 1;
    var file, f, before := files[n], fs[n], Flat(fs[..n]);
    RotatedFile(v, file, f, before);
    var own := Lines(v.c, f.recs) + TornToken(v, f.tail);
    assert Interior(v, fs) == Interior(v, fs[..n]) + own;
    if n > 0 {
      HonestParts(v, before, f.recs);
      JoinedInterior(v, files[..n], fs[..n]);
      var a := Joined(files[..n]) + [NL];
      CompleteLinesConcat(a, file + [NL]);
      TokensConcat(v.c.trim, CompleteLines(a), CompleteLines(file + [NL]));
      assert Joined(files) + [NL] == a + (file + [NL]);
    } else {
      assert Interior(v, fs[..0]) == [];
    }
  }

  /** LogChainFiles: the siblings, and the base when it exists. */
  function ChainFiles(d: Disk, present: bool): seq<Bytes> {
    if present then d.siblings + [d.base] else d.siblings
  }

  /** What the pass reads of the last file, which nothing completes: its terminated records. */
  function OpenRecs(file: Bytes, f: FileView): seq<Record> {
    if NoNewline(file) then [] else f.recs
  }

  lemma LastFile(v: Verifier, file: Bytes, f: FileView, before: seq<Record>)
    requires (Shows(v.c, file, f) || Bare(v.c, file, f)) && Honest(v, before + f.recs)
    ensures Tokens(v.c.trim, CompleteLines(file)) == Lines(v.c, OpenRecs(file, f))
  {
    hide Honest, CompleteLines, Tokens;
    if Bare(v.c, file, f) {
      assert (before + f.recs)[|before|] == f.recs[0];
      HonestLines(v, before + f.recs, |before|);
      NoLines(file);
      TokensNone(v.c.trim, []);
      var none: seq<Bytes> := [];
      assert none[..0] == [] && Lines(v.c, []) == [];
    } else {
      TerminatedFile(v, file, f, before);
      RenderWhole(v.c, f.recs);
      if f.recs != [] { assert file[|Render(v.c, f.recs)| - 1] == NL; }
    }
  }

  /** The lines one pass over a chain of files processes: the last file is not completed. */
  lemma ChainTokens(v: Verifier, files: seq<Bytes>, fs: seq<FileView>)
    requires files != [] && ShowsAll(v.c, files, fs) && Honest(v, Flat(fs))
    ensures var n := |files| - 1;
            Tokens(v.c.trim, CompleteLines(Joined(files))) ==
            Interior(v, fs[..n]) + Lines(v.c, OpenRecs(files[n], fs[n]))
  {
    hide Honest, CompleteLines, Tokens, TornToken, Shows, Bare, OpenRecs;
    var n := |files| - 1;
    var before, file, f := Flat(fs[..n]), files[n], fs[n];
    LastFile(v, file, f, before);
    if n > 0 {
      HonestParts(v, before, f.recs);
      JoinedInterior(v, files[..n], fs[..n]);
      var a := Joined(files[..n]) + [NL];
      CompleteLinesConcat(a, file);
      TokensConcat(v.c.trim, CompleteLines(a), CompleteLines(file));
    } else {
      assert fs[..0] == [] && Interior(v, []) == [];
    }
  }

  // ------------------------------------------------------------------ the verdict

  /** No rotated file ends in a fragment. */
  predicate Untorn(fs: seq<FileView>) {
    forall i | 0 <= i < |fs| :: fs[i].tail == []
  }

  /**
   Every fragment that ends a rotated file is a whole record short of its newline, and no record
   or fragment follows it, in a later file or in `more`.
   */
  predicate Settled(c: Codec, fs: seq<FileView>, more: seq<Record>) {
    forall i | 0 <= i < |fs| && fs[i].tail != [] ::
      c.lenient(fs[i].tail).Some? && more == [] && forall j | i < j < |fs| :: fs[j] == FileView([], [])
  }

  /** The line a fragment becomes: the next record's own line, or one no pass accepts. */
  lemma TornTokenIs(v: Verifier, tape: seq<Record>, tail: Bytes) returns (r: Record)
    requires Fragment(v, tape, tail) && tail != []
    ensures Honest(v, tape + [r]) && |TornToken(v, tail)| == 1
    ensures v.c.lenient(tail).Some? ==> TornToken(v, tail) == [v.c.line(r)]
    ensures v.c.lenient(tail).None? ==> !v.Accepts(TornToken(v, tail)[0])
  {
    hide Honest;
    r :| Honest(v, tape + [r]) && tail <= v.c.line(r);
    NextIsSound(v, tape, r);
    LineShape(v.c, r);
    CutLine(v.c, r, tail);
    CutLine(v.c, r, DropCR(tail));
    hide Codec.Sound, Codec.Valid;
  }

  lemma CertifiedPrefix(v: Verifier, a: seq<Bytes>, b: seq<Bytes>)
    requires v.Certified(a + b)
    ensures v.Certified(a)
  {
    hide Verifier.Accepts, Verifier.Opens, Verifier.Follows;
    var all := a + b;
    assert forall i | 0 <= i < |a| :: all[i] == a[i];
    assert forall i | 0 < i < |a| :: v.Linked(all, i) == v.Linked(a, i);
  }

  lemma CertifiedStep(v: Verifier, a: seq<Bytes>, x: Bytes, y: Bytes, b: seq<Bytes>)
    ensures v.Certified(a + [x] + [y] + b) ==> v.Accepts(y) && v.Follows(x, y)
  {
    hide Verifier.Accepts, Verifier.Opens, Verifier.Follows;
    var all, k := a + [x] + [y] + b, |a|;
    assert all[k] == x && all[k + 1] == y;
    assert v.Linked(all, k + 1) == v.Follows(all[k], all[k + 1]);
  }

  /** A line that is not accepted, or has the seq of the line before it, ends the certified part. */
  lemma NotNext(v: Verifier, tape: seq<Record>, r: Record, before: seq<Bytes>, y: Bytes, after: seq<Bytes>)
    requires Honest(v, tape + [r])
    requires v.Accepts(y) ==> v.c.strict(y).value.0.seq_ == |tape| + 1
    ensures !v.Certified(before + [v.c.line(r)] + [y] + after)
  {
    hide Honest, Codec.Sound, Codec.Valid, Verifier.Opens, Verifier.Accepts, Verifier.Certified;
    HonestAccepted(v, tape + [r], |tape|);
    NextIsSound(v, tape, r);
    HonestCount(v, tape + [r]);
    assert (tape + [r])[|tape|] == r;
    CertifiedStep(v, before, v.c.line(r), y, after);
  }

  lemma HonestCount(v: Verifier, tape: seq<Record>)
    requires Honest(v, tape)
    ensures |tape| <= UINT64_MAX
  {
  }

  /**
   The rotated files alone: certified exactly when settled, and then they read as the chain they
   hold, with at most the one record whose newline the joiner supplies.
   */
  lemma {:induction false} InteriorExact(v: Verifier, fs: seq<FileView>) returns (extra: seq<Record>)
    requires Fragments(v, fs) && Honest(v, Flat(fs))
    ensures v.Certified(Interior(v, fs)) <==> Settled(v.c, fs, [])
    ensures Settled(v.c, fs, []) ==>
              Honest(v, Flat(fs) + extra) && Interior(v, fs) == Lines(v.c, Flat(fs) + extra) && |extra| <= 1
    ensures Settled(v.c, fs, []) ==> (extra == [] <==> Untorn(fs))
    decreases |fs|
  {
    hide Honest, Fragment, Settled, TornToken, Verifier.Certified, Untorn;
    extra := [];
    if fs == [] {
      NothingTorn(v);
      assert Flat(fs) + extra == Flat(fs);
    } else {
      var n := |fs| - 1;
      var f, before := fs[n], Flat(fs[..n]);
      HonestParts(v, before, f.recs);
      extra := InteriorExact(v, fs[..n]);
      SettledAppend(v.c, fs);
      if !Settled(v.c, fs[..n], []) {
        NeverAgain(v, fs);
      } else if extra == [] {
        assert before + extra == before;
        extra := OneMoreFile(v, fs);
      } else {
        assert extra == [extra[0]];
        NothingMayFollow(v, fs, extra[0]);
        assert f == FileView([], []) ==> before + f.recs == before;
      }
    }
  }

  lemma NothingTorn(v: Verifier)
    ensures Settled(v.c, [], []) && Untorn([]) && v.Certified([]) && Lines(v.c, []) == []
  {
  }

  lemma SettledAppend(c: Codec, fs: seq<FileView>)
    requires fs != []
    ensures var n := |fs| - 1;
            && (Untorn(fs) <==> Untorn(fs[..n]) && fs[n].tail == [])
            && (Settled(c, fs, []) <==>
                  && Settled(c, fs[..n], []) && (Untorn(fs[..n]) || fs[n] == FileView([], []))
                  && (fs[n].tail != [] ==> c.lenient(fs[n].tail).Some?))
  {
    var n := |fs| - 1;
    assert forall i | 0 <= i < n :: fs[..n][i] == fs[i];
    if Settled(c, fs, []) && !Untorn(fs[..n]) {
      var i :| 0 <= i < n && fs[i].tail != [];
      assert fs[n] == FileView([], []);
    }
    if Settled(c, fs[..n], []) && Untorn(fs[..n]) {
      assert forall i | 0 <= i < n :: fs[i].tail == [];
    }
  }

  lemma NeverAgain(v: Verifier, fs: seq<FileView>)
    requires fs != [] && !v.Certified(Interior(v, fs[..|fs| - 1]))
    ensures !v.Certified(Interior(v, fs))
  {
    hide Verifier.Certified, TornToken;
    var n := |fs| - 1;
    var a, b := Interior(v, fs[..n]), Lines(v.c, fs[n].recs) + TornToken(v, fs[n].tail);
    assert Interior(v, fs) == a + b;
    if v.Certified(a + b) { CertifiedPrefix(v, a, b); }
  }

  /** Files whole so far, and one more: its fragment is a whole record, or makes the pass fail. */
  lemma OneMoreFile(v: Verifier, fs: seq<FileView>) returns (extra: seq<Record>)
    requires fs != [] && Fragment(v, Flat(fs), fs[|fs| - 1].tail) && Honest(v, Flat(fs))
    requires Interior(v, fs[..|fs| - 1]) == Lines(v.c, Flat(fs[..|fs| - 1]))
    ensures var tail := fs[|fs| - 1].tail;
            && (v.Certified(Interior(v, fs)) <==> tail == [] || v.c.lenient(tail).Some?)
            && (tail == [] || v.c.lenient(tail).Some? ==>
                  Honest(v, Flat(fs) + extra) && Interior(v, fs) == Lines(v.c, Flat(fs) + extra) && |extra| <= 1)
            && (extra == [] <==> tail == [])
  {
    hide Honest, Fragment, TornToken, Verifier.Certified;
    var n := |fs| - 1;
    var tape, f := Flat(fs), fs[n];
    LinesConcat(v.c, Flat(fs[..n]), f.recs);
    assert Interior(v, fs) == Lines(v.c, tape) + TornToken(v, f.tail);
    if f.tail == [] {
      extra := [];
      HonestLawful(v, tape);
      NoToken(v);
      assert tape + [] == tape && Lines(v.c, tape) + [] == Lines(v.c, tape);
      SegmentCertified(v, tape, 0, |tape|);
      assert tape[0..|tape|] == tape;
    } else {
      var r := TornTokenIs(v, tape, f.tail);
      extra := [r];
      if v.c.lenient(f.tail).Some? {
        LinesConcat(v.c, tape, [r]);
        assert Lines(v.c, [r]) == [v.c.line(r)];
        var all := tape + [r];
        SegmentCertified(v, all, 0, |all|);
        assert all[0..|all|] == all;
      } else {
        LastNotAccepted(v, Lines(v.c, tape), TornToken(v, f.tail));
      }
    }
  }

  lemma LastNotAccepted(v: Verifier, a: seq<Bytes>, b: seq<Bytes>)
    requires |b| == 1 && !v.Accepts(b[0])
    ensures !v.Certified(a + b)
  {
    hide Verifier.Accepts;
    assert (a + b)[|a|] == b[0];
  }

  /** After a record that was never resumed from, any record or fragment repeats its seq. */
  lemma NothingMayFollow(v: Verifier, fs: seq<FileView>, r: Record)
    requires fs != [] && Fragment(v, Flat(fs), fs[|fs| - 1].tail) && Honest(v, Flat(fs))
    requires var tape := Flat(fs[..|fs| - 1]);
             Honest(v, tape + [r]) && Interior(v, fs[..|fs| - 1]) == Lines(v.c, tape + [r])
    ensures v.Certified(Interior(v, fs)) <==> fs[|fs| - 1] == FileView([], [])
    ensures fs[|fs| - 1] == FileView([], []) ==> Interior(v, fs) == Interior(v, fs[..|fs| - 1])
  {
    hide Honest, Fragment, TornToken, Verifier.Certified, Verifier.Accepts;
    var n := |fs| - 1;
    var tape, f, inner := Flat(fs[..n]), fs[n], Interior(v, fs[..n]);
    var more := Lines(v.c, f.recs) + TornToken(v, f.tail);
    assert Interior(v, fs) == inner + more;
    LinesConcat(v.c, tape, [r]);
    assert Lines(v.c, [r]) == [v.c.line(r)];
    if f == FileView([], []) {
      HonestLawful(v, tape + [r]);
      NoToken(v);
      assert Lines(v.c, f.recs) == [] && more == [] && inner + more == inner;
      var all := tape + [r];
      SegmentCertified(v, all, 0, |all|);
      assert all[0..|all|] == all;
    } else {
      FirstOfMore(v, tape, f);
      NotNext(v, tape, r, Lines(v.c, tape), more[0], more[1..]);
      assert inner + more == Lines(v.c, tape) + [v.c.line(r)] + [more[0]] + more[1..];
    }
  }

  lemma FirstOfMore(v: Verifier, tape: seq<Record>, f: FileView)
    requires Honest(v, tape + f.recs) && Fragment(v, tape + f.recs, f.tail) && f != FileView([], [])
    ensures var more := Lines(v.c, f.recs) + TornToken(v, f.tail);
            more != [] && (v.Accepts(more[0]) ==> v.c.strict(more[0]).value.0.seq_ == |tape| + 1)
  {
    hide Honest, Fragment, TornToken;
    if f.recs != [] {
      var all := tape + f.recs;
      assert all[|tape|] == f.recs[0];
      HonestAccepted(v, all, |tape|);
      LenientHead(v, all, |tape|);
    } else {
      assert tape + f.recs == tape && Lines(v.c, f.recs) == [];
      var r := TornTokenIs(v, tape, f.tail);
      assert (tape + [r])[|tape|] == r;
      HonestAccepted(v, tape + [r], |tape|);
      LenientHead(v, tape + [r], |tape|);
    }
  }

  lemma SettledExact(v: Verifier, fs: seq<FileView>, more: seq<Record>)
    requires Fragments(v, fs) && Honest(v, Flat(fs) + more)
    ensures v.Certified(Interior(v, fs) + Lines(v.c, more)) <==> Settled(v.c, fs, more)
  {
    hide Honest, Fragments, Fragment, TornToken, Verifier.Certified;
    HonestLawful(v, Flat(fs) + more);
    var last := FileView(more, []);
    var all := fs + [last];
    FlatAppend(fs, last);
    NoFragment(v, Flat(fs) + more);
    FragmentsAppend(v, fs, last);
    var _ := InteriorExact(v, all);
    NoToken(v);
    assert all[..|fs|] == fs;
    assert Interior(v, all) == Interior(v, fs) + Lines(v.c, more);
    SettledWith(v.c, fs, more);
  }

  /** What the chain of files d holds is certified by: nothing is torn that something follows. */
  predicate SettledDisk(c: Codec, d: Disk, present: bool, fs: seq<FileView>, b: FileView)
    requires |fs| == |d.siblings|
  {
    if present || fs == [] then Settled(c, fs, b.recs)
    else
      var n := |fs| - 1;
      Settled(c, fs[..n], OpenRecs(d.siblings[n], fs[n]))
  }

  /**
   After any number of sessions the lines of the archive are certified exactly when every rotated
   file that another file follows ends whole, or in a record short of its newline that nothing
   follows. A record so torn that was resumed from is one of the chain's. The base is followed by
   nothing, and where it does not exist neither is the newest rotated file.
   */
  lemma ArchiveVerifies(v: Verifier, d: Disk, present: bool, fs: seq<FileView>, b: FileView)
    requires OnDisk(v, d, fs, b) && (!present ==> d.base == [])
    ensures v.Certified(Tokens(v.c.trim, CompleteLines(Joined(ChainFiles(d, present))))) <==>
              SettledDisk(v.c, d, present, fs, b)
  {
    hide Honest, Shows, Bare, Fragment, CompleteLines, Tokens, TornToken, Verifier.Certified, Joined, Settled;
    if present {
      FlatAppend(fs, b);
      ChainTokens(v, d.siblings + [d.base], fs + [b]);
      assert (fs + [b])[..|fs|] == fs;
      LastOpen(v, d.base, b);
      SettledExact(v, fs, b.recs);
    } else if fs == [] {
      NothingJoined(v);
      NothingTorn(v);
      NoneSettled(v.c, b.recs);
    } else {
      var n := |fs| - 1;
      HonestParts(v, Flat(fs), b.recs);
      ChainTokens(v, d.siblings, fs);
      HonestParts(v, Flat(fs[..n]), fs[n].recs);
      assert Flat(fs[..n]) + [] == Flat(fs[..n]);
      SettledExact(v, fs[..n], OpenRecs(d.siblings[n], fs[n]));
    }
  }

  lemma NoneSettled(c: Codec, more: seq<Record>)
    ensures Settled(c, [], more)
  {
  }

  lemma NothingJoined(v: Verifier)
    ensures Tokens(v.c.trim, CompleteLines(Joined([]))) == []
    ensures Interior(v, []) + Lines(v.c, []) == []
  {
    NoLines([]);
  }

  lemma LastOpen(v: Verifier, file: Bytes, f: FileView)
    requires Shows(v.c, file, f)
    ensures OpenRecs(file, f) == f.recs
  {
    RenderWhole(v.c, f.recs);
    if f.recs != [] { assert file[|Render(v.c, f.recs)| - 1] == NL; }
  }

  lemma SettledWith(c: Codec, fs: seq<FileView>, recs: seq<Record>)
    ensures Settled(c, fs + [FileView(recs, [])], []) <==> Settled(c, fs, recs)
  {
    var all := fs + [FileView(recs, [])];
    assert forall i | 0 <= i < |fs| :: all[i] == fs[i];
    assert all[|fs|] == FileView(recs, []);
  }

  // ------------------------------------------------------------------ the pass over it

  /** The file ends in the middle of a line. */
  predicate Unterminated(file: Bytes) {
    file != [] && file[|file| - 1] != NL
  }

  /** What follows the last newline. */
  function Loose(file: Bytes): Bytes {
    file[LastNewline(file) + 1..]
  }

  lemma LooseConcat(a: Bytes, b: Bytes)
    requires WholeLines(a)
    ensures Loose(a + b) == Loose(b)
  {
    var i := LastNewline(b);
    LastNewlineIs(a + b, if i >= 0 then |a| + i else |a| - 1);
    assert (a + b)[|a| + i + 1..] == b[i + 1..];
  }

  lemma ScannableConcat(a: seq<Bytes>, b: seq<Bytes>)
    requires Scannable(a) && Scannable(b)
    ensures Scannable(a + b)
  {
  }

  lemma LinesScannable(v: Verifier, before: seq<Record>, recs: seq<Record>)
    requires Honest(v, before + recs)
    ensures Scannable(Lines(v.c, recs))
  {
    hide Honest;
    var all := before + recs;
    forall i | 0 <= i < |recs|
      ensures |v.c.line(recs[i])| < SCAN_WINDOW
    {
      assert all[|before| + i] == recs[i];
      HonestLines(v, all, |before| + i);
    }
  }

  /** No line of a file is too long for the scanner, completed or not, and neither is what is left of it. */
  lemma FileScannable(v: Verifier, file: Bytes, f: FileView, before: seq<Record>)
    requires (Shows(v.c, file, f) || Bare(v.c, file, f)) && Honest(v, before + f.recs)
    requires Fragment(v, before + f.recs, f.tail)
    ensures Scannable(CompleteLines(file)) && Scannable(CompleteLines(file + [NL]))
    ensures |Loose(file)| < SCAN_WINDOW && (v.c.trim.Blank(Loose(file)) <==> !Unterminated(file))
  {
    hide Honest, CompleteLines, Fragment;
    LinesScannable(v, before, f.recs);
    HonestLawful(v, before + f.recs);
    if Bare(v.c, file, f) {
      assert (before + f.recs)[|before|] == f.recs[0];
      HonestLines(v, before + f.recs, |before|);
      BareLoose(v, file, f);
    } else {
      ShownLoose(v, file, f, before);
    }
  }

  lemma OneLine(l: Bytes)
    requires NoNewline(l)
    ensures CompleteLines(l) == [] && CompleteLines(l + [NL]) == [l]
  {
    hide CompleteLines;
    NoLines(l);
    NoLines([]);
    CompleteLinesSnoc([], l, []);
    hide NoNewline;
    assert [] + l == l && l + [NL] + [] == l + [NL] && [] + [l] == [l];
  }

  lemma NeverBlank(t: Trimmer, file: Bytes)
    requires t.Lawful() && RecordLine(file)
    ensures !t.Blank(file) && Unterminated(file)
  {
    assert t.Trims(file);
  }

  lemma BareLoose(v: Verifier, file: Bytes, f: FileView)
    requires Bare(v.c, file, f) && v.c.trim.Lawful() && RecordLine(file) && |file| <= MAX_LINE
    ensures Scannable(CompleteLines(file)) && Scannable(CompleteLines(file + [NL]))
    ensures Loose(file) == file && !v.c.trim.Blank(file) && Unterminated(file)
  {
    hide CompleteLines, Loose, Trimmer.Blank, Unterminated, Trimmer.Lawful;
    TailLoose(file);
    OneLine(file);
    NeverBlank(v.c.trim, file);
  }

  lemma ShownLoose(v: Verifier, file: Bytes, f: FileView, before: seq<Record>)
    requires Shows(v.c, file, f) && Honest(v, before + f.recs) && Fragment(v, before + f.recs, f.tail)
    requires Scannable(Lines(v.c, f.recs))
    ensures Scannable(CompleteLines(file)) && Scannable(CompleteLines(file + [NL]))
    ensures |Loose(file)| < SCAN_WINDOW && (v.c.trim.Blank(Loose(file)) <==> !Unterminated(file))
  {
    hide Honest, CompleteLines, Loose;
    var r := Render(v.c, f.recs);
    PartTokens(v, before, f.recs);
    RenderWhole(v.c, f.recs);
    CompleteLinesOfRender(v.c, f.recs, f.tail);
    CompleteLinesOfRender(v.c, f.recs, []);
    assert r + [] == r;
    CompleteLinesSnoc(r, f.tail, []);
    assert file + [NL] == r + f.tail + [NL] + [];
    ScannableConcat(Lines(v.c, f.recs), [f.tail]);
    LooseConcat(r, f.tail);
    TailLoose(f.tail);
    HonestLawful(v, before + f.recs);
    FragmentBlank(v, before + f.recs, f.tail);
  }

  lemma TailLoose(tail: Bytes)
    requires NoNewline(tail)
    ensures Loose(tail) == tail
  {
    LastNewlineIs(tail, -1);
    assert tail[0..] == tail;
  }

  lemma FragmentBlank(v: Verifier, tape: seq<Record>, tail: Bytes)
    requires Fragment(v, tape, tail) && v.c.trim.Lawful()
    ensures v.c.trim.Blank(tail) <==> tail == []
  {
    hide Honest;
    if tail != [] {
      var r :| Honest(v, tape + [r]) && tail <= v.c.line(r);
      NextIsSound(v, tape, r);
      CutLine(v.c, r, tail);
    } else {
      assert v.c.trim.Trims([]);
    }
  }

  /** Files that others follow, joined: every line fits the scanner. */
  lemma {:induction false} JoinedScannable(v: Verifier, files: seq<Bytes>, fs: seq<FileView>)
    requires files != [] && ShowsAll(v.c, files, fs) && Fragments(v, fs) && Honest(v, Flat(fs))
    ensures Scannable(CompleteLines(Joined(files) + [NL]))
    decreases |files|
  {
    hide Honest, CompleteLines, Shows, Bare, Fragment, Scannable;
    var n := |files| - 1;
    var before := Flat(fs[..n]);
    FileScannable(v, files[n], fs[n], before);
    if n > 0 {
      HonestParts(v, before, fs[n].recs);
      JoinedScannable(v, files[..n], fs[..n]);
      var a := Joined(files[..n]) + [NL];
      CompleteLinesConcat(a, files[n] + [NL]);
      ScannableConcat(CompleteLines(a), CompleteLines(files[n] + [NL]));
      assert Joined(files) + [NL] == a + (files[n] + [NL]);
    }
  }

  /** The stream of a chain of files: scannable, and torn exactly when its last file is unterminated. */
  lemma ChainStream(v: Verifier, files: seq<Bytes>, fs: seq<FileView>)
    requires files != [] && ShowsAll(v.c, files, fs) && Honest(v, Flat(fs))
    requires var n := |fs| - 1; Fragments(v, fs[..n]) && Fragment(v, Flat(fs), fs[n].tail)
    ensures Scannable(CompleteLines(Joined(files))) && |Loose(Joined(files))| < SCAN_WINDOW
    ensures v.c.trim.Blank(Loose(Joined(files))) <==> !Unterminated(files[|files| - 1])
  {
    hide Honest, CompleteLines, Shows, Bare, Fragment, Scannable, Loose, Unterminated;
    var n := |files| - 1;
    var before := Flat(fs[..n]);
    FileScannable(v, files[n], fs[n], before);
    if n > 0 {
      HonestParts(v, before, fs[n].recs);
      JoinedScannable(v, files[..n], fs[..n]);
      var a := Joined(files[..n]) + [NL];
      CompleteLinesConcat(a, files[n]);
      ScannableConcat(CompleteLines(a), CompleteLines(files[n]));
      LooseConcat(a, files[n]);
    }
  }

  /** The last file the pass reads. */
  function LastOf(files: seq<Bytes>): Bytes {
    if files == [] then [] else files[|files| - 1]
  }

  lemma DiskStream(v: Verifier, d: Disk, present: bool, fs: seq<FileView>, b: FileView)
    requires OnDisk(v, d, fs, b) && (!present ==> d.base == [])
    ensures var files := ChainFiles(d, present);
            && Scannable(CompleteLines(Joined(files))) && |Loose(Joined(files))| < SCAN_WINDOW
            && (v.c.trim.Blank(Loose(Joined(files))) <==> !Unterminated(LastOf(files)))
  {
    hide Honest, CompleteLines, Shows, Bare, Fragment, Scannable, Loose, Unterminated, Joined;
    HonestLawful(v, Flat(fs) + b.recs);
    if present {
      FlatAppend(fs, b);
      assert (fs + [b])[..|fs|] == fs;
      ChainStream(v, d.siblings + [d.base], fs + [b]);
    } else if fs == [] {
      NothingStreams(v);
    } else {
      HonestParts(v, Flat(fs), b.recs);
      ChainStream(v, d.siblings, fs);
    }
  }

  lemma NothingStreams(v: Verifier)
    requires v.c.trim.Lawful()
    ensures Scannable(CompleteLines(Joined([]))) && Loose(Joined([])) == []
    ensures v.c.trim.Blank([]) && !Unterminated([])
  {
    NoLines([]);
    assert v.c.trim.Trims([]);
  }

  lemma SameCount(v: Verifier, d: Disk, fs: seq<FileView>, b: FileView)
    requires OnDisk(v, d, fs, b)
    ensures |fs| == |d.siblings|
  {
  }

  /**
   VerifyLogFiles over the archive of any disk a crash can leave. It is never aborted; its counts
   are OK exactly when the disk is settled; and it withholds the verdict exactly when the last file
   it reads, the newest rotated one where the base does not exist, is unterminated.
   */
  method VerifyArchive(v: Verifier, d: Disk, present: bool, ghost fs: seq<FileView>, ghost b: FileView)
    returns (ok: bool, aborted: bool, torn: bool)
    requires OnDisk(v, d, fs, b) && (!present ==> d.base == [])
    ensures !aborted
    ensures ok <==> SettledDisk(v.c, d, present, fs, b)
    ensures torn <==> Unterminated(LastOf(ChainFiles(d, present)))
  {
    hide Honest, OnDisk, CompleteLines, Tokens, Joined, Scannable, Unterminated, SettledDisk, Verifier.Certified,
         LastOf, ChainFiles, LastNewline, Trimmer.Blank;
    assert |fs| == |d.siblings| by { SameCount(v, d, fs, b); }
    ArchiveVerifies(v, d, present, fs, b);
    DiskStream(v, d, present, fs, b);
    ok, aborted, torn := VerifyLog(v, Joined(ChainFiles(d, present)));
  }

  // ------------------------------------------------------------------ torn archives

  lemma OneFileOnDisk(v: Verifier, a: Record, r: Record, tail: Bytes, base: seq<Record>)
    requires Honest(v, [a, r]) && tail != [] && tail <= v.c.line(r) && Honest(v, [a] + base)
    ensures OnDisk(v, Disk([Render(v.c, [a]) + tail], Render(v.c, base)), [FileView([a], tail)], FileView(base, []))
  {
    hide Honest, Render;
    var f := FileView([a], tail);
    FlatAppend([], f);
    assert [] + [f] == [f] && [] + [a] == [a] && [a] + [r] == [a, r];
    NextIsSound(v, [a], r);
    CutLine(v.c, r, tail);
    FragmentsAppend(v, [], f);
    WholeFileShows(v.c, base);
  }

  /**
   A rotated file that ends one byte into a record fails; ending one newline short of it passes,
   until the chain goes on without that record.
   */
  lemma TornArchives(v: Verifier, a: Record, r: Record, next: Record)
    requires Honest(v, [a, r]) && Honest(v, [a, next])
    ensures v.c.line(r) != []
    ensures var torn, whole := Render(v.c, [a]) + v.c.line(r)[..1], Render(v.c, [a]) + v.c.line(r);
            && !v.Certified(Tokens(v.c.trim, CompleteLines(Joined([torn, []]))))
            && v.Certified(Tokens(v.c.trim, CompleteLines(Joined([whole, []]))))
            && !v.Certified(Tokens(v.c.trim, CompleteLines(Joined([whole, Render(v.c, [next])]))))
  {
    hide Honest, Render, Tokens, CompleteLines, Joined, Verifier.Certified, OnDisk;
    var line := v.c.line(r);
    assert [a] + [r] == [a, r] && [a] + [next] == [a, next] && [a] + [] == [a];
    HonestParts(v, [a], [r]);
    NextIsSound(v, [a], r);
    LineShape(v.c, r);
    RenderNone(v.c);
    var torn, whole := Render(v.c, [a]) + line[..1], Render(v.c, [a]) + line;
    CutLine(v.c, r, line[..1]);
    OneFileOnDisk(v, a, r, line[..1], []);
    OneFileOnDisk(v, a, r, line, []);
    OneFileOnDisk(v, a, r, line, [next]);
    assert [torn] + [[]] == [torn, []] && [whole] + [[]] == [whole, []];
    assert [whole] + [Render(v.c, [next])] == [whole, Render(v.c, [next])];
    ArchiveVerifies(v, Disk([torn], []), true, [FileView([a], line[..1])], FileView([], []));
    ArchiveVerifies(v, Disk([whole], []), true, [FileView([a], line)], FileView([], []));
    ArchiveVerifies(v, Disk([whole], Render(v.c, [next])), true, [FileView([a], line)], FileView([next], []));
    assert [FileView([a], line[..1])][0].tail != [] && [FileView([a], line)][0].tail != [];
  }

  /** Resumed from, the record short of its newline is a link of the chain, and the archive passes. */
  lemma AdoptedArchive(v: Verifier, a: Record, r: Record, next: Record)
    requires Honest(v, [a, r, next])
    ensures v.Certified(Tokens(v.c.trim, CompleteLines(Joined([Render(v.c, [a]), v.c.line(r), Render(v.c, [next])]))))
  {
    hide Honest, Render, Tokens, CompleteLines, Joined, Verifier.Certified;
    var d := Disk([Render(v.c, [a]), v.c.line(r)], Render(v.c, [next]));
    var f, g, b := FileView([a], []), FileView([r], []), FileView([next], []);
    FlatAppend([], f);
    FlatAppend([f], g);
    assert [] + [f] == [f] && [f] + [g] == [f, g] && [] + [a] == [a];
    assert Flat([f, g]) + b.recs == [a, r, next];
    WholeFileShows(v.c, [a]);
    WholeFileShows(v.c, [next]);
    FragmentsAppend(v, [], f);
    FragmentsAppend(v, [f], g);
    assert OnDisk(v, d, [f, g], b);
    hide OnDisk;
    ArchiveVerifies(v, d, true, [f, g], b);
    assert d.siblings + [d.base] == [Render(v.c, [a]), v.c.line(r), Render(v.c, [next])];
  }

  lemma CutOnDisk(v: Verifier, a: Record, b: Record, x: Bytes)
    requires Honest(v, [a, b]) && x < v.c.line(b) && x != []
    ensures OnDisk(v, Disk([Render(v.c, [a]), x], []), [FileView([a], []), FileView([], x)], FileView([], []))
  {
    hide Honest, Render;
    var f, g := FileView([a], []), FileView([], x);
    FlatTwo(f, g);
    FlatAppend([], f);
    assert [] + [f] == [f] && [f] + [g] == [f, g] && [a] + [b] == [a, b] && [] + [a] == [a] && [a] + [] == [a];
    HonestParts(v, [a], [b]);
    NextIsSound(v, [a], b);
    CutLine(v.c, b, x);
    RenderNone(v.c);
    WholeFileShows(v.c, [a]);
    WholeFileShows(v.c, []);
    FragmentsAppend(v, [], f);
    FragmentsAppend(v, [f], g);
    assert [] + x == x;
  }

  /**
   The disk the crash of CutRun leaves, one byte into b. While the base does not exist the pass
   finds nothing wrong and withholds its verdict; once an empty base exists the same bytes fail.
   */
  lemma AbsentBase(v: Verifier, a: Record, b: Record)
    requires Honest(v, [a, b])
    ensures v.c.line(b) != []
    ensures var d := Disk([Render(v.c, [a]), v.c.line(b)[..1]], []);
            && CutRun(v.c, a, b, v.c.line(b)[..1])[4] == Down(d)
            && v.Certified(Tokens(v.c.trim, CompleteLines(Joined(ChainFiles(d, false)))))
            && Unterminated(LastOf(ChainFiles(d, false)))
            && !v.Certified(Tokens(v.c.trim, CompleteLines(Joined(ChainFiles(d, true)))))
  {
    hide Honest, Render, Tokens, CompleteLines, Joined, Verifier.Certified;
    assert [a] + [b] == [a, b];
    NextIsSound(v, [a], b);
    LineShape(v.c, b);
    var x := v.c.line(b)[..1];
    CutLine(v.c, b, x);
    CutOnDisk(v, a, b, x);
    hide OnDisk, Codec.Valid, Codec.Sound;
    var d, fs, none := Disk([Render(v.c, [a]), x], []), [FileView([a], []), FileView([], x)], FileView([], []);
    ArchiveVerifies(v, d, false, fs, none);
    ArchiveVerifies(v, d, true, fs, none);
    assert fs[..1] == [FileView([a], [])] && fs[1].tail != [];
  }
}
