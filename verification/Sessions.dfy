/**
 Any number of sessions over one log: writes with every fault outcome, crashes that keep any
 prefix of the file being written, reopens that recover the tail and resume the chain. The
 complete lines on disk form one chain throughout.
 */
module Sessions {
  import opened Wrappers
  import opened Bytes
  import opened Records
  import opened Tail
  import opened Chain
  import opened Verify
  import opened Sink
  import opened Startup

  // ------------------------------------------------------------------ what the bytes hold

  /** A file seen as whole records and then an unterminated fragment. */
  datatype FileView = FileView(recs: seq<Record>, tail: Bytes)

  function Flat(fs: seq<FileView>): (rs: seq<Record>) {
    if fs == [] then [] else Flat(fs[..|fs| - 1]) + fs[|fs| - 1].recs
  }

  /** Records, each with its newline, and then the fragment. */
  ghost predicate Shows(c: Codec, file: Bytes, f: FileView) {
    file == Render(c, f.recs) + f.tail && NoNewline(f.tail) && |f.tail| <= MAX_LINE
  }

  /** One whole record that lacks only its newline. As a rotated file it is read as that record. */
  ghost predicate Bare(c: Codec, file: Bytes, f: FileView) {
    |f.recs| == 1 && f.tail == [] && file == c.line(f.recs[0])
  }

  /** The rotated files. */
  ghost predicate ShowsAll(c: Codec, files: seq<Bytes>, fs: seq<FileView>) {
    |files| == |fs| && forall i | 0 <= i < |fs| :: Shows(c, files[i], fs[i]) || Bare(c, files[i], fs[i])
  }

  /** A fragment is the beginning, possibly the whole, of a record that would come next. */
  ghost predicate Fragment(v: Verifier, tape: seq<Record>, tail: Bytes) {
    tail == [] || exists r :: Honest(v, tape + [r]) && tail <= v.c.line(r)
  }

  /** The fragments of rotated files; one that is all its file holds is not a whole record. */
  ghost predicate Fragments(v: Verifier, fs: seq<FileView>) {
    fs == [] ||
    var n := |fs| - 1;
    && Fragments(v, fs[..n]) && Fragment(v, Flat(fs), fs[n].tail)
    && (fs[n].recs == [] && fs[n].tail != [] ==> v.c.Undecodable(fs[n].tail))
  }

  /** The _hmac a sink holds after the records rs. */
  function HeadMac(c: Codec, rs: seq<Record>): Bytes {
    if rs == [] then [] else c.hmac(rs[|rs| - 1])
  }

  /**
   A running sink: its rotated files and its own hold one honest chain, a pending orphan is the
   beginning of the next record of that chain, and the head is the last record written.
   */
  ghost predicate Running(v: Verifier, s: State, fs: seq<FileView>, live: seq<Record>, pending: seq<Record>) {
    var tape := Flat(fs) + live;
    && ShowsAll(v.c, s.older, fs) && Fragments(v, fs)
    && s.orphan <= |s.active| && Clean(s) == Render(v.c, live)
    && s.active <= Render(v.c, live + pending)
    && |pending| <= 1 && (s.orphan == 0 <==> pending == [])
    && Honest(v, tape + pending)
    && s.head == |tape| && s.prev == HeadMac(v.c, tape)
  }

  ghost predicate OnDisk(v: Verifier, d: Disk, fs: seq<FileView>, b: FileView) {
    && ShowsAll(v.c, d.siblings, fs) && Fragments(v, fs)
    && Shows(v.c, d.base, b) && Fragment(v, Flat(fs) + b.recs, b.tail)
    && Honest(v, Flat(fs) + b.recs)
  }

  /** p is a record the sink may be handed: stamped next, it is sound and signed by a held key. */
  ghost predicate Writable(v: Verifier, s: State, p: Record) {
    var r := Stamp(s, p);
    v.c.Sound(r) && r.keyId != [] && v.HoldsKey(r.keyId) && v.timeOk(r.time)
  }

  lemma HonestPrefix(v: Verifier, rs: seq<Record>, n: nat)
    requires Honest(v, rs) && n <= |rs|
    ensures Honest(v, rs[..n])
  {
    hide Codec.Valid, Codec.Sound;
    ChainedPrefix(v.c, rs, n);
  }

  lemma HonestLines(v: Verifier, rs: seq<Record>, i: nat)
    requires Honest(v, rs) && i < |rs|
    ensures RecordLine(v.c.line(rs[i])) && |v.c.line(rs[i])| <= MAX_LINE && |v.c.hmac(rs[i])| > 0
  {
    hide Bounded;
    LineShape(v.c, rs[i]);
  }

  lemma AllOneLine(v: Verifier, rs: seq<Record>)
    requires Honest(v, rs)
    ensures forall i | 0 <= i < |rs| :: NoNewline(v.c.line(rs[i]))
  {
    hide Honest;
    forall i | 0 <= i < |rs| ensures NoNewline(v.c.line(rs[i])) { HonestLines(v, rs, i); }
  }

  // ------------------------------------------------------------------ writing

  /** The next record continues the chain whatever the tape holds. */
  lemma StampContinues(v: Verifier, s: State, p: Record, tape: seq<Record>)
    requires Honest(v, tape) && s.head == |tape| && s.prev == HeadMac(v.c, tape) && Writable(v, s, p)
    ensures Honest(v, tape + [Stamp(s, p)])
  {
    var r := Stamp(s, p);
    assert r.seq_ <= UINT64_MAX;
    hide Bounded;
    if tape != [] { HonestLines(v, tape, |tape| - 1); }
    ChainedAppend(v.c, tape, r);
  }

  lemma FlatAppend(fs: seq<FileView>, f: FileView)
    ensures Flat(fs + [f]) == Flat(fs) + f.recs
  {
    assert (fs + [f])[..|fs|] == fs;
  }

  lemma FragmentsAppend(v: Verifier, fs: seq<FileView>, f: FileView)
    requires Fragments(v, fs) && Fragment(v, Flat(fs) + f.recs, f.tail)
    requires f.recs == [] && f.tail != [] ==> v.c.Undecodable(f.tail)
    ensures Fragments(v, fs + [f])
  {
    hide Fragment;
    FlatAppend(fs, f);
    assert (fs + [f])[..|fs|] == fs;
  }

  lemma WholeFileShows(c: Codec, recs: seq<Record>)
    ensures Shows(c, Render(c, recs), FileView(recs, []))
  {
    assert Render(c, recs) + [] == Render(c, recs);
  }

  /** Rotation moves the clean file as it is: the chain now spans one file more. */
  lemma RotateKeeps(v: Verifier, s: State, mid: State, fs: seq<FileView>, live: seq<Record>)
    requires Running(v, s, fs, live, []) && mid.head == s.head && mid.prev == s.prev && mid.orphan == 0
    requires mid.older == s.older + [s.active] && mid.active == []
    ensures Running(v, mid, fs + [FileView(live, [])], [], [])
  {
    hide Honest, Shows, Fragments;
    assert Clean(s) == s.active;
    WholeFileShows(v.c, live);
    FlatAppend(fs, FileView(live, []));
    FragmentsAppend(v, fs, FileView(live, []));
    assert Flat(fs) + live + [] == Flat(fs) + live;
    var none: seq<Record> := [];
    assert Clean(mid) == [] && none + none == none && Flat(fs) + live + none == Flat(fs) + live;
  }

  lemma WroteKeeps(v: Verifier, s: State, r: Record, s': State, fs: seq<FileView>, live: seq<Record>)
    requires Running(v, s, fs, live, []) && Honest(v, Flat(fs) + live + [r])
    requires s' == s.(active := s.active + (v.c.line(r) + [NL]), head := s.head + 1, prev := v.c.hmac(r),
                      fallback := s'.fallback)
    ensures Running(v, s', fs, live + [r], [])
  {
    hide Honest, Shows;
    var tape := Flat(fs) + live;
    assert Clean(s) == s.active && Clean(s') == s'.active;
    RenderAppend(v.c, live, r);
    assert Flat(fs) + (live + [r]) == tape + [r] && tape + [r] + [] == tape + [r];
    assert live + [r] + [] == live + [r];
    assert s.active + (v.c.line(r) + [NL]) == s.active + v.c.line(r) + [NL];
  }

  lemma LostKeeps(v: Verifier, s: State, r: Record, n: nat, s': State, fs: seq<FileView>, live: seq<Record>)
    requires Running(v, s, fs, live, []) && Honest(v, Flat(fs) + live + [r]) && n <= |v.c.line(r)| + 1
    requires s' == s.(active := s.active + (v.c.line(r) + [NL])[..n], orphan := n, fallback := s'.fallback)
    ensures Running(v, s', fs, live, if n == 0 then [] else [r])
  {
    hide Honest, Shows;
    assert Clean(s) == s.active && Clean(s') == s.active;
    RenderAppend(v.c, live, r);
    assert live + [] == live;
    assert Render(v.c, live + [r]) == s.active + (v.c.line(r) + [NL]);
  }

  /** Appending to a clean file: the line, or the part of it that landed, starts the next record. */
  lemma AppendKeeps(v: Verifier, s: State, r: Record, s': State, fs: seq<FileView>, live: seq<Record>)
    returns (fs': seq<FileView>, live': seq<Record>, pending': seq<Record>)
    requires Running(v, s, fs, live, []) && Honest(v, Flat(fs) + live + [r])
    requires AppendStep(s, v.c.line(r) + [NL], v.c.hmac(r), s')
    ensures Running(v, s', fs', live', pending')
  {
    hide Honest, Running;
    fs', live', pending' := fs, live, [];
    var mid := s.(fallback := s'.fallback);
    if |s'.older| > |s.older| {
      mid := State(s'.older, [], 0, s'.fallback, s.head, s.prev);
      RunningClean(v, s, fs, live);
      RotateKeeps(v, s, mid, fs, live);
      FlatAppend(fs, FileView(live, []));
      assert Flat(fs) + live + [] == Flat(fs) + live;
      fs', live' := fs + [FileView(live, [])], [];
    } else {
      RunningFallback(v, s, mid, fs, live);
    }
    RunningClean(v, mid, fs', live');
    if s'.head == s.head + 1 {
      WroteKeeps(v, mid, r, s', fs', live');
      live' := live' + [r];
    } else {
      LostKeeps(v, mid, r, s'.orphan, s', fs', live');
      pending' := if s'.orphan == 0 then [] else [r];
    }
  }

  lemma RunningClean(v: Verifier, s: State, fs: seq<FileView>, live: seq<Record>)
    requires Running(v, s, fs, live, [])
    ensures s.orphan == 0
  {
  }

  /** Which file of the two the writer considers its base is not part of the chain. */
  lemma RunningFallback(v: Verifier, s: State, s': State, fs: seq<FileView>, live: seq<Record>)
    requires Running(v, s, fs, live, []) && s' == s.(fallback := s'.fallback)
    ensures Running(v, s', fs, live, [])
  {
    hide Honest, ShowsAll;
    assert Clean(s') == Clean(s);
  }

  /** Cutting a pending orphan leaves the same chain and the same head. */
  lemma RepairKeeps(v: Verifier, s: State, fs: seq<FileView>, live: seq<Record>, pending: seq<Record>)
    requires Running(v, s, fs, live, pending)
    ensures Running(v, s.(active := Clean(s), orphan := 0), fs, live, [])
  {
    hide Honest, Shows;
    var tape := Flat(fs) + live;
    assert live + [] == live && tape + [] == tape;
    HonestPrefix(v, tape + pending, |tape|);
    assert (tape + pending)[..|tape|] == tape;
  }

  /** Every call of writeRecord, with every fault outcome, keeps the invariant. */
  lemma WriteKeeps(v: Verifier, s: State, p: Record, s': State,
                   fs: seq<FileView>, live: seq<Record>, pending: seq<Record>)
    returns (fs': seq<FileView>, live': seq<Record>, pending': seq<Record>)
    requires Running(v, s, fs, live, pending) && Writable(v, s, p) && WriteStep(v.c, s, p, s')
    ensures Running(v, s', fs', live', pending')
  {
    if s' == s {
      fs', live', pending' := fs, live, pending;
    } else {
      hide Honest, Shows, Writable, AppendStep;
      RepairKeeps(v, s, fs, live, pending);
      var s1 := s.(active := Clean(s), orphan := 0);
      var tape, r := Flat(fs) + live, Stamp(s, p);
      assert tape + [] == tape;
      StampContinues(v, s, p, tape);
      fs', live', pending' := AppendKeeps(v, s1, r, s', fs, live);
    }
  }

  // ------------------------------------------------------------------ crashing

  /**
   What a crash, or a clean exit, may leave. The file being written keeps any prefix. It is the
   base log, or the newest sibling when it carries a rotated name already: in the fallback
   state, or because the crash fell between a rotation's rename and its reopen.
   */
  ghost predicate Crashed(s: State, d: Disk) {
    || (!s.fallback && d.siblings == s.older && d.base <= s.active)
    || ((s.fallback || s.orphan == 0) && |d.siblings| == |s.older| + 1 && d.siblings[..|s.older|] == s.older
        && d.siblings[|s.older|] <= s.active && d.base == [])
  }

  /** A prefix of the file being written holds a prefix of the chain, and part of one record more. */
  lemma PrefixShows(v: Verifier, s: State, x: Bytes, fs: seq<FileView>, live: seq<Record>, pending: seq<Record>)
    returns (f: FileView)
    requires Running(v, s, fs, live, pending) && x <= s.active
    ensures Shows(v.c, x, f) && Honest(v, Flat(fs) + f.recs) && Fragment(v, Flat(fs) + f.recs, f.tail)
  {
    hide Honest, ShowsAll, Fragments, Fragment, Clean, HeadMac, Render, Flat;
    var rs, before := live + pending, Flat(fs);
    assert before + live + pending == before + rs;
    var all := before + rs;
    AllOneLine(v, all);
    assert forall i | 0 <= i < |rs| :: rs[i] == all[|before| + i];
    var m, tail := PrefixOfRender(v.c, rs, x);
    f := FileView(rs[..m], tail);
    if tail != [] { HonestLines(v, all, |before| + m); }
    HonestPrefix(v, all, |before| + m);
    assert all[..|before| + m] == before + rs[..m];
    PartOfNext(v, before, rs, m, tail);
  }

  lemma PartOfNext(v: Verifier, before: seq<Record>, rs: seq<Record>, m: nat, tail: Bytes)
    requires Honest(v, before + rs) && m <= |rs| && (tail != [] ==> m < |rs| && tail <= v.c.line(rs[m]))
    ensures Fragment(v, before + rs[..m], tail)
  {
    hide Honest;
    if tail != [] {
      var all := before + rs;
      HonestPrefix(v, all, |before| + m + 1);
      assert all[..|before| + m + 1] == before + rs[..m] + [rs[m]];
    }
  }

  lemma NextIsSound(v: Verifier, tape: seq<Record>, r: Record)
    requires Honest(v, tape + [r])
    ensures v.c.Valid() && v.c.Sound(r) && r.seq_ == |tape| + 1
  {
    hide Codec.Valid, Codec.Sound;
    assert (tape + [r])[|tape|] == r;
  }

  /** The same prefix under a rotated name: a lone whole record without its newline is that record. */
  lemma SiblingShows(v: Verifier, x: Bytes, before: seq<Record>, f: FileView) returns (g: FileView)
    requires Shows(v.c, x, f) && Honest(v, before + f.recs) && Fragment(v, before + f.recs, f.tail)
    ensures Shows(v.c, x, g) || Bare(v.c, x, g)
    ensures Honest(v, before + g.recs) && Fragment(v, before + g.recs, g.tail)
    ensures g.recs == [] && g.tail != [] ==> v.c.Undecodable(g.tail)
  {
    hide Honest, Render;
    g := f;
    if f.recs == [] && f.tail != [] {
      assert before + f.recs == before;
      var r :| Honest(v, before + [r]) && f.tail <= v.c.line(r);
      NextIsSound(v, before, r);
      CutLine(v.c, r, f.tail);
      if f.tail == v.c.line(r) {
        g := FileView([r], []);
        RenderNone(v.c);
        assert x == f.tail;
      }
    }
  }

  lemma RenderNone(c: Codec)
    ensures Render(c, []) == []
  {
  }

  lemma CrashKeeps(v: Verifier, s: State, d: Disk, fs: seq<FileView>, live: seq<Record>, pending: seq<Record>)
    returns (fs': seq<FileView>, b: FileView)
    requires Running(v, s, fs, live, pending) && Crashed(s, d)
    ensures OnDisk(v, d, fs', b)
  {
    hide Honest, Shows, Bare, Fragments, Fragment;
    if !s.fallback && d.siblings == s.older && d.base <= s.active {
      b := PrefixShows(v, s, d.base, fs, live, pending);
      fs' := fs;
    } else {
      var x := d.siblings[|s.older|];
      var f := PrefixShows(v, s, x, fs, live, pending);
      f := SiblingShows(v, x, Flat(fs), f);
      fs', b := fs + [f], FileView([], []);
      FlatAppend(fs, f);
      FragmentsAppend(v, fs, f);
      NoFragment(v, Flat(fs'));
      assert Flat(fs') + [] == Flat(fs');
      assert Flat(fs') + b.recs == Flat(fs) + f.recs;
      WholeFileShows(v.c, []);
      assert forall i | 0 <= i < |s.older| :: d.siblings[i] == d.siblings[..|s.older|][i];
    }
  }

  lemma NoFragment(v: Verifier, tape: seq<Record>)
    ensures Fragment(v, tape, [])
  {
  }

  // ------------------------------------------------------------------ reopening

  /** The newest file that is not empty. */
  function NewestNonEmpty(files: seq<Bytes>): Bytes {
    if files == [] then []
    else if files[|files| - 1] != [] then files[|files| - 1]
    else NewestNonEmpty(files[..|files| - 1])
  }

  /** The records a rotated file is read as holding: its lines, or the one whole record it is. */
  function Held(c: Codec, file: Bytes): seq<Bytes> {
    if !NoNewline(file) then CompleteLines(file) else if file != [] && c.lenient(file).Some? then [file] else []
  }

  function HeldAll(c: Codec, files: seq<Bytes>): (ls: seq<Bytes>) {
    if files == [] then [] else HeldAll(c, files[..|files| - 1]) + Held(c, files[|files| - 1])
  }

  /** No record in the base, and the newest sibling that holds anything is one unterminated line. */
  predicate Headless(d: Disk) {
    var f := NewestNonEmpty(d.siblings);
    CompletePart(d.base) == [] && f != [] && NoNewline(f)
  }

  /** That line is no record, though older siblings hold some: where the chain is not resumed. */
  predicate Stranded(c: Codec, d: Disk) {
    Headless(d) && c.lenient(NewestNonEmpty(d.siblings)).None? && HeldAll(c, d.siblings) != []
  }

  /** The line that names the head of the chain rs. */
  function HeadLine(c: Codec, rs: seq<Record>): Bytes {
    if rs == [] then [] else c.line(rs[|rs| - 1])
  }

  lemma HonestParts(v: Verifier, a: seq<Record>, b: seq<Record>)
    requires Honest(v, a + b)
    ensures Honest(v, a)
  {
    hide Honest;
    HonestPrefix(v, a + b, |a|);
    assert (a + b)[..|a|] == a;
  }

  /** A sibling that holds records answers its last one, torn fragment or not. */
  lemma SiblingAnswers(v: Verifier, file: Bytes, f: FileView)
    requires v.c.trim.Lawful() && Shows(v.c, file, f) && f.recs != []
    requires RecordLine(v.c.line(f.recs[|f.recs| - 1])) && |v.c.line(f.recs[|f.recs| - 1])| <= MAX_LINE
    ensures ReadLastAuditLine(v.c.trim, file, file, SCAN_WINDOW) == Tail.Result.Ok(v.c.line(f.recs[|f.recs| - 1]))
  {
    hide ReadLastAuditLine;
    var n := |f.recs| - 1;
    var a, line := Render(v.c, f.recs[..n]), v.c.line(f.recs[n]);
    RenderWhole(v.c, f.recs[..n]);
    FittingSiblingAnswers(v.c.trim, a, line, f.tail, SCAN_WINDOW);
    assert file == a + line + [NL] + f.tail;
  }

  /** A rotated file that is one whole record answers that record, newline or not. */
  lemma BareAnswers(v: Verifier, line: Bytes)
    requires v.c.trim.Lawful() && RecordLine(line) && |line| <= MAX_LINE
    ensures ReadLastAuditLine(v.c.trim, line, line, SCAN_WINDOW) == Tail.Result.Ok(line)
  {
    hide ReadLastAuditLine;
    assert v.c.trim.Trims(line);
    ReadOnlyTailWithoutNewline(v.c.trim, line, SCAN_WINDOW);
  }

  /** A rotated file answers its last record; one that holds none is its fragment. */
  lemma RotatedAnswers(v: Verifier, file: Bytes, f: FileView, before: seq<Record>)
    requires (Shows(v.c, file, f) || Bare(v.c, file, f)) && Honest(v, before + f.recs)
    ensures f.recs != [] ==> var line := v.c.line(f.recs[|f.recs| - 1]);
              line != [] && ReadLastAuditLine(v.c.trim, file, file, SCAN_WINDOW) == Tail.Result.Ok(line)
    ensures f.recs == [] ==> file == f.tail && NoNewline(file)
  {
    hide Honest, ReadLastAuditLine;
    var tape := before + f.recs;
    HonestLawful(v, tape);
    if f.recs != [] {
      assert tape[|tape| - 1] == f.recs[|f.recs| - 1];
      HonestLines(v, tape, |tape| - 1);
      if Bare(v.c, file, f) {
        BareAnswers(v, file);
      } else {
        SiblingAnswers(v, file, f);
      }
    }
  }

  /** Walking the siblings finds the head of what they hold. */
  lemma {:induction false} NewestLineFinds(v: Verifier, files: seq<Bytes>, fs: seq<FileView>)
    requires ShowsAll(v.c, files, fs) && Fragments(v, fs) && Honest(v, Flat(fs))
    requires var f := NewestNonEmpty(files); f != [] && NoNewline(f) ==> v.c.lenient(f).Some?
    ensures NewestLine(v.c.trim, SCAN_WINDOW, files) == Tail.Result.Ok(HeadLine(v.c, Flat(fs)))
    decreases |fs|
  {
    hide Honest, ReadLastAuditLine, Fragment, Shows, Bare, NoNewline;
    if fs != [] {
      var n := |fs| - 1;
      RotatedAnswers(v, files[n], fs[n], Flat(fs[..n]));
      EmptyAnswers(v.c.trim);
      if fs[n].recs == [] && files[n] == [] {
        assert Flat(fs) == Flat(fs[..n]);
        NewestLineFinds(v, files[..n], fs[..n]);
      }
    }
  }

  lemma EmptyAnswers(t: Trimmer)
    ensures ReadLastAuditLine(t, [], [], SCAN_WINDOW) == Tail.Result.Ok([])
  {
  }

  /** A genuine last line resumes the chain at itself. */
  lemma ResumeAtHead(v: Verifier, tape: seq<Record>, seed: nat)
    requires Honest(v, tape)
    ensures StartHead(v, Tail.Result.Ok(HeadLine(v.c, tape)), seed) == (|tape|, HeadMac(v.c, tape))
  {
    if tape != [] {
      var i := |tape| - 1;
      HonestLines(v, tape, i);
      HonestAccepted(v, tape, i);
      LenientHead(v, tape, i);
      hide Honest, Verifier.VerifyDecoded, Verifier.Authentic;
      VerifiedExact(v, v.c.line(tape[i]), tape[i], v.c.hmac(tape[i]));
    }
  }

  lemma LenientHead(v: Verifier, rs: seq<Record>, i: nat)
    requires Honest(v, rs) && i < |rs|
    ensures v.c.lenient(v.c.line(rs[i])) == Some((rs[i], v.c.hmac(rs[i]))) && rs[i].seq_ == i + 1
  {
    hide Bounded;
    assert v.c.Sound(rs[i]);
  }

  lemma CompletePartShown(c: Codec, file: Bytes, f: FileView)
    requires Shows(c, file, f)
    ensures CompletePart(file) == Render(c, f.recs)
  {
    hide CompletePart;
    RenderWhole(c, f.recs);
    CompletePartOfConcat(Render(c, f.recs), f.tail);
  }

  lemma LastRecordRendered(c: Codec, recs: seq<Record>)
    requires c.trim.Lawful() && recs != [] && RecordLine(c.line(recs[|recs| - 1]))
    ensures LastRecord(c.trim, Render(c, recs)) == c.line(recs[|recs| - 1])
  {
    hide LastRecord;
    var n := |recs| - 1;
    RenderWhole(c, recs[..n]);
    LastRecordOfLines(c.trim, Render(c, recs[..n]), c.line(recs[n]));
  }

  /** The files name the head of the chain they hold, unless only a line cut short is in view. */
  lemma ResumeLineFinds(v: Verifier, d: Disk, fs: seq<FileView>, b: FileView)
    requires OnDisk(v, d, fs, b) && v.c.trim.Lawful()
    requires Headless(d) ==> v.c.lenient(NewestNonEmpty(d.siblings)).Some?
    ensures CompletePart(d.base) == Render(v.c, b.recs)
    ensures ResumeLine(v, SCAN_WINDOW, d) == Tail.Result.Ok(HeadLine(v.c, Flat(fs) + b.recs))
  {
    hide Honest, Shows, ShowsAll, Fragments, Fragment, LastRecord, NewestLine, CompletePart, Render;
    var tape := Flat(fs) + b.recs;
    CompletePartShown(v.c, d.base, b);
    if b.recs != [] {
      assert tape[|tape| - 1] == b.recs[|b.recs| - 1];
      HonestLines(v, tape, |tape| - 1);
      LastRecordRendered(v.c, b.recs);
    } else {
      RenderWhole(v.c, []);
      LastRecordOfNothing(v.c.trim);
      assert tape == Flat(fs);
      NewestLineFinds(v, d.siblings, fs);
    }
  }

  lemma HonestLawful(v: Verifier, tape: seq<Record>)
    requires Honest(v, tape)
    ensures v.c.trim.Lawful()
  {
  }

  /** A rotated file is read as exactly the records of its view. */
  lemma HeldShown(v: Verifier, file: Bytes, f: FileView, before: seq<Record>)
    requires (Shows(v.c, file, f) || Bare(v.c, file, f)) && Honest(v, before + f.recs)
    requires f.recs == [] && f.tail != [] ==> v.c.Undecodable(f.tail)
    ensures Held(v.c, file) == Lines(v.c, f.recs)
  {
    hide Honest, CompleteLines;
    var all := before + f.recs;
    AllOneLine(v, all);
    assert forall i | 0 <= i < |f.recs| :: f.recs[i] == all[|before| + i];
    if Bare(v.c, file, f) {
      HonestLines(v, all, |before|);
      LenientHead(v, all, |before|);
    } else {
      RenderWhole(v.c, f.recs);
      CompleteLinesOfRender(v.c, f.recs, f.tail);
      if f.recs != [] {
        assert file[|Render(v.c, f.recs)| - 1] == NL;
      } else {
        assert file == f.tail && Lines(v.c, f.recs) == [];
      }
    }
  }

  lemma {:induction false} HeldAllShown(v: Verifier, files: seq<Bytes>, fs: seq<FileView>)
    requires ShowsAll(v.c, files, fs) && Fragments(v, fs) && Honest(v, Flat(fs))
    ensures HeldAll(v.c, files) == Lines(v.c, Flat(fs))
    decreases |fs|
  {
    hide Honest, Held, Shows, Bare, Fragment;
    if fs != [] {
      var n := |fs| - 1;
      var before, f := Flat(fs[..n]), fs[n];
      HonestParts(v, before, f.recs);
      HeldAllShown(v, files[..n], fs[..n]);
      HeldShown(v, files[n], f, before);
      LinesConcat(v.c, before, f.recs);
    }
  }

  lemma LinesConcat(c: Codec, a: seq<Record>, b: seq<Record>)
    ensures Lines(c, a + b) == Lines(c, a) + Lines(c, b)
  {
  }

  /** A line cut short names no head: the chain restarts from genesis. */
  lemma HeadlessRestarts(v: Verifier, d: Disk, seed: nat, s: State, fs: seq<FileView>, b: FileView)
    requires OnDisk(v, d, fs, b) && Reopened(v, SCAN_WINDOW, seed, d, s)
    requires Headless(d) && v.c.lenient(NewestNonEmpty(d.siblings)).None?
    ensures s.head == 0 && s.prev == [] && b.recs == []
  {
    hide Honest, Shows, ShowsAll, Fragments, Fragment, LastRecord, NewestLine, CompletePart, NewestNonEmpty, Render;
    HonestLawful(v, Flat(fs) + b.recs);
    HonestParts(v, Flat(fs), b.recs);
    LastRecordOfNothing(v.c.trim);
    CompletePartShown(v.c, d.base, b);
    RenderWhole(v.c, b.recs);
    HeadlessLine(v, d.siblings, fs);
  }

  lemma {:induction false} HeadlessLine(v: Verifier, files: seq<Bytes>, fs: seq<FileView>)
    requires ShowsAll(v.c, files, fs) && Fragments(v, fs) && Honest(v, Flat(fs))
    requires var f := NewestNonEmpty(files); f != [] && NoNewline(f) && v.c.lenient(f).None?
    ensures var g := v.c.trim.both(NewestNonEmpty(files));
            && g != [] && v.c.lenient(g).None?
            && NewestLine(v.c.trim, SCAN_WINDOW, files) == Tail.Result.Ok(g)
    decreases |files|
  {
    hide ReadLastAuditLine, Honest, Shows, Bare, Fragment;
    var n := |files| - 1;
    var file, f, before := files[n], fs[n], Flat(fs[..n]);
    HonestParts(v, before, f.recs);
    HonestLawful(v, Flat(fs));
    if file == [] {
      EmptyAnswers(v.c.trim);
      HeadlessLine(v, files[..n], fs[..n]);
    } else {
      HeldShown(v, file, f, before);
      LoneFragment(v, file, f);
      assert Flat(fs) == before + f.recs;
      CutShort(v, Flat(fs), file);
      ReadOnlyTailWithoutNewline(v.c.trim, file, SCAN_WINDOW);
    }
  }

  lemma LoneFragment(v: Verifier, file: Bytes, f: FileView)
    requires Shows(v.c, file, f) || Bare(v.c, file, f)
    requires NoNewline(file) && Held(v.c, file) == Lines(v.c, f.recs) && v.c.lenient(file).None?
    ensures f.tail == file
  {
    assert Lines(v.c, f.recs) == [];
    assert |f.recs| == |Lines(v.c, f.recs)|;
    RenderNone(v.c);
  }

  /** What a fragment that does not decode is: part of a line, undecodable however trimmed. */
  lemma CutShort(v: Verifier, tape: seq<Record>, tail: Bytes)
    requires Fragment(v, tape, tail) && tail != [] && v.c.lenient(tail).None?
    ensures |tail| <= MAX_LINE && v.c.trim.both(tail) != [] && v.c.lenient(v.c.trim.both(tail)).None?
  {
    hide Honest;
    var r :| Honest(v, tape + [r]) && tail <= v.c.line(r);
    NextIsSound(v, tape, r);
    CutLine(v.c, r, tail);
  }

  /** Reopening resumes the chain at the last record on disk. */
  lemma ReopenKeeps(v: Verifier, d: Disk, seed: nat, s: State, fs: seq<FileView>, b: FileView)
    requires OnDisk(v, d, fs, b) && !Stranded(v.c, d) && Reopened(v, SCAN_WINDOW, seed, d, s)
    ensures Running(v, s, fs, b.recs, [])
  {
    hide Honest, Shows, ShowsAll, Fragments, Fragment, StartHead, ResumeLine, Render, CompletePart, HeadMac, HeadLine,
         Flat, Headless;
    var tape := Flat(fs) + b.recs;
    HonestLawful(v, tape);
    CompletePartShown(v.c, d.base, b);
    ReopenHead(v, d, seed, s, fs, b);
    assert Clean(s) == s.active && tape + [] == tape && b.recs + [] == b.recs;
  }

  lemma ReopenHead(v: Verifier, d: Disk, seed: nat, s: State, fs: seq<FileView>, b: FileView)
    requires OnDisk(v, d, fs, b) && !Stranded(v.c, d) && Reopened(v, SCAN_WINDOW, seed, d, s)
    ensures s.head == |Flat(fs) + b.recs| && s.prev == HeadMac(v.c, Flat(fs) + b.recs)
  {
    hide Honest, Shows, ShowsAll, Fragments, Fragment, StartHead, ResumeLine, Render, CompletePart, HeadLine, Flat,
         Headless;
    var tape := Flat(fs) + b.recs;
    HonestLawful(v, tape);
    if Headless(d) && v.c.lenient(NewestNonEmpty(d.siblings)).None? {
      HeadlessRestarts(v, d, seed, s, fs, b);
      HonestParts(v, Flat(fs), b.recs);
      HeldAllShown(v, d.siblings, fs);
      assert |Lines(v.c, Flat(fs))| == |Flat(fs)|;
    } else {
      ResumeLineFinds(v, d, fs, b);
      ResumeAtHead(v, tape, seed);
    }
  }

  /**
   What reopening does, for every disk a crash can leave. It finds the head exactly when the disk
   is not stranded. A rotated file that is one whole record short of its newline is adopted: the
   head is that record, one past every terminated line. A stranded disk starts over from genesis,
   and the seqs the older siblings hold are issued again.
   */
  lemma ReopenExact(v: Verifier, d: Disk, seed: nat, s: State, fs: seq<FileView>, b: FileView)
    requires OnDisk(v, d, fs, b) && Reopened(v, SCAN_WINDOW, seed, d, s)
    ensures (s.head, s.prev) == (|Flat(fs) + b.recs|, HeadMac(v.c, Flat(fs) + b.recs)) <==> !Stranded(v.c, d)
    ensures Stranded(v.c, d) ==> s.head == 0 && s.prev == []
    ensures Headless(d) && v.c.lenient(NewestNonEmpty(d.siblings)).Some? ==>
              && s.head == |HeldAll(v.c, d.siblings)| > 0
              && HeldAll(v.c, d.siblings)[s.head - 1] == NewestNonEmpty(d.siblings)
  {
    hide Honest, Shows, ShowsAll, Fragments, Fragment, Reopened, Headless, HeadMac, Render, CompletePart, HeldAll,
         NewestNonEmpty, Flat;
    var tape := Flat(fs) + b.recs;
    HonestParts(v, Flat(fs), b.recs);
    HeldAllShown(v, d.siblings, fs);
    assert |Lines(v.c, Flat(fs))| == |Flat(fs)|;
    if Stranded(v.c, d) {
      HeadlessRestarts(v, d, seed, s, fs, b);
    } else {
      ReopenHead(v, d, seed, s, fs, b);
      if Headless(d) && v.c.lenient(NewestNonEmpty(d.siblings)).Some? { HeadlessAdopts(v, d, b); }
    }
  }

  lemma HeadlessAdopts(v: Verifier, d: Disk, b: FileView)
    requires Headless(d) && v.c.lenient(NewestNonEmpty(d.siblings)).Some? && Shows(v.c, d.base, b)
    ensures b.recs == []
    ensures var ls := HeldAll(v.c, d.siblings); ls != [] && ls[|ls| - 1] == NewestNonEmpty(d.siblings)
  {
    hide NewestNonEmpty, HeldAll;
    CompletePartShown(v.c, d.base, b);
    RenderWhole(v.c, b.recs);
    HeldEnds(v.c, d.siblings);
  }

  lemma {:induction false} HeldEnds(c: Codec, files: seq<Bytes>)
    requires var f := NewestNonEmpty(files); f != [] && NoNewline(f) && c.lenient(f).Some?
    ensures var ls := HeldAll(c, files); ls != [] && ls[|ls| - 1] == NewestNonEmpty(files)
    decreases |files|
  {
    if files[|files| - 1] == [] { HeldEnds(c, files[..|files| - 1]); }
  }

  // ------------------------------------------------------------------ every run

  datatype World = Up(s: State) | Down(d: Disk)

  ghost predicate Next(v: Verifier, w: World, w': World) {
    match (w, w')
    case (Up(s), Up(s')) => s.orphan <= |s.active| && exists p :: Writable(v, s, p) && WriteStep(v.c, s, p, s')
    case (Up(s), Down(d)) => Crashed(s, d)
    case (Down(d), Up(s)) => !Stranded(v.c, d) && exists seed :: Reopened(v, SCAN_WINDOW, seed, d, s)
    case _ => false
  }

  /** The records of a world in chain order: those of the rotated files, then the log's own lines. */
  function AllLines(c: Codec, w: World): (ls: seq<Bytes>) {
    match w
    case Up(s) => HeldAll(c, s.older) + CompleteLines(s.active)
    case Down(d) => HeldAll(c, d.siblings) + CompleteLines(d.base)
  }

  /** They are the lines of one unbroken chain. */
  ghost predicate OneChain(v: Verifier, w: World) {
    exists rs :: Honest(v, rs) && AllLines(v.c, w) == Lines(v.c, rs)
  }

  ghost predicate Sane(v: Verifier, w: World) {
    match w
    case Up(s) => exists fs, live, pending :: Running(v, s, fs, live, pending)
    case Down(d) => exists fs, b :: OnDisk(v, d, fs, b)
  }

  lemma LinesShown(v: Verifier, files: seq<Bytes>, file: Bytes, fs: seq<FileView>, f: FileView)
    requires ShowsAll(v.c, files, fs) && Fragments(v, fs) && Shows(v.c, file, f) && Honest(v, Flat(fs) + f.recs)
    ensures HeldAll(v.c, files) + CompleteLines(file) == Lines(v.c, Flat(fs) + f.recs)
  {
    hide Honest, ShowsAll, Fragments, Fragment, CompleteLines, Flat;
    var before, all := Flat(fs), Flat(fs) + f.recs;
    HonestParts(v, before, f.recs);
    HeldAllShown(v, files, fs);
    AllOneLine(v, all);
    assert forall i | 0 <= i < |f.recs| :: f.recs[i] == all[|before| + i];
    CompleteLinesOfRender(v.c, f.recs, f.tail);
    LinesConcat(v.c, before, f.recs);
  }

  lemma SaneIsOneChain(v: Verifier, w: World)
    requires Sane(v, w)
    ensures OneChain(v, w)
  {
    hide Honest, Shows, HeldAll, ShowsAll, Fragments, Fragment, CompleteLines;
    match w
    case Down(d) =>
      var fs, b :| OnDisk(v, d, fs, b);
      LinesShown(v, d.siblings, d.base, fs, b);
    case Up(s) =>
      var fs, live, pending :| Running(v, s, fs, live, pending);
      var f := PrefixShows(v, s, s.active, fs, live, pending);
      LinesShown(v, s.older, s.active, fs, f);
  }

  lemma StepKeeps(v: Verifier, w: World, w': World)
    requires Sane(v, w) && Next(v, w, w')
    ensures Sane(v, w')
  {
    hide Running, OnDisk, Writable, WriteStep, Crashed, Reopened, Stranded;
    match (w, w')
    case (Up(s), Up(s')) =>
      var fs, live, pending :| Running(v, s, fs, live, pending);
      var p :| Writable(v, s, p) && WriteStep(v.c, s, p, s');
      var fs', live', pending' := WriteKeeps(v, s, p, s', fs, live, pending);
    case (Up(s), Down(d)) =>
      var fs, live, pending :| Running(v, s, fs, live, pending);
      var fs', b := CrashKeeps(v, s, d, fs, live, pending);
    case (Down(d), Up(s)) =>
      var fs, b :| OnDisk(v, d, fs, b);
      var seed :| Reopened(v, SCAN_WINDOW, seed, d, s);
      ReopenKeeps(v, d, seed, s, fs, b);
  }

  lemma StartIsSane(v: Verifier)
    requires v.c.Valid()
    ensures OnDisk(v, Disk([], []), [], FileView([], []))
  {
    WholeFileShows(v.c, []);
  }

  /** One run: from an empty disk, each world the next of the one before. */
  ghost predicate Run(v: Verifier, ws: seq<World>) {
    && |ws| > 0 && ws[0] == Down(Disk([], []))
    && forall i | 0 < i < |ws| :: Next(v, ws[i - 1], ws[i])
  }

  /**
   From an empty disk, after any number of writes, faults, crashes and reopens, the records on
   disk are one chain: seqs 1..n, every prev_hmac the previous _hmac, genesis first.
   */
  lemma {:induction false} EverySession(v: Verifier, ws: seq<World>)
    requires v.c.Valid() && Run(v, ws)
    ensures forall i | 0 <= i < |ws| :: Sane(v, ws[i]) && OneChain(v, ws[i])
  {
    hide Next, OneChain;
    StartIsSane(v);
    hide Sane;
    assert Sane(v, ws[0]) by { SaneDown(v, Disk([], []), [], FileView([], [])); }
    SaneIsOneChain(v, ws[0]);
    var n := 1;
    while n < |ws|
      invariant 1 <= n <= |ws|
      invariant forall i | 0 <= i < n :: Sane(v, ws[i]) && OneChain(v, ws[i])
    {
      StepKeeps(v, ws[n - 1], ws[n]);
      SaneIsOneChain(v, ws[n]);
      n := n + 1;
    }
  }

  lemma SaneDown(v: Verifier, d: Disk, fs: seq<FileView>, b: FileView)
    requires OnDisk(v, d, fs, b)
    ensures Sane(v, Down(d))
  {
  }

  /**
   And the excluded step is the one that breaks it: on a stranded disk the first record written
   after reopening is no part of any chain with the records already there.
   */
  lemma StrandedBreaks(v: Verifier, d: Disk, seed: nat, s: State, p: Record, s': State, fs: seq<FileView>, b: FileView)
    requires OnDisk(v, d, fs, b) && Stranded(v.c, d) && Reopened(v, SCAN_WINDOW, seed, d, s)
    requires Writable(v, s, p) && s.orphan <= |s.active| && WriteStep(v.c, s, p, s') && s'.head == s.head + 1
    ensures !OneChain(v, Up(s'))
  {
    hide OnDisk, Stranded, Reopened, Writable, WriteStep, AllLines, Honest;
    StrandedLines(v, d, seed, s, p, s', fs, b);
    var ls, r := Lines(v.c, Flat(fs)), Stamp(s, p);
    forall rs | Honest(v, rs)
      ensures ls + [v.c.line(r)] != Lines(v.c, rs)
    {
      SecondGenesis(v, rs, ls, r);
    }
  }

  lemma StrandedLines(v: Verifier, d: Disk, seed: nat, s: State, p: Record, s': State, fs: seq<FileView>, b: FileView)
    requires OnDisk(v, d, fs, b) && Stranded(v.c, d) && Reopened(v, SCAN_WINDOW, seed, d, s)
    requires Writable(v, s, p) && s.orphan <= |s.active| && WriteStep(v.c, s, p, s') && s'.head == s.head + 1
    ensures var r := Stamp(s, p);
            && r.seq_ == 1 && v.c.lenient(v.c.line(r)) == Some((r, v.c.hmac(r)))
            && Lines(v.c, Flat(fs)) != [] && AllLines(v.c, Up(s')) == Lines(v.c, Flat(fs)) + [v.c.line(r)]
  {
    hide Honest, Shows, ShowsAll, Fragments, Fragment, HeldAll, CompleteLines, Headless, AllLines, Flat, AppendStep,
         Bounded, StartHead, CompletePart, Codec.Valid, NewestNonEmpty;
    HeadlessRestarts(v, d, seed, s, fs, b);
    HonestParts(v, Flat(fs), b.recs);
    HeldAllShown(v, d.siblings, fs);
    HonestValid(v, Flat(fs));
    assert Clean(s) == s.active && s.(active := Clean(s), orphan := 0) == s;
    HeadlessActive(v, d, s, Stamp(s, p), s');
  }

  lemma SecondGenesis(v: Verifier, rs: seq<Record>, ls: seq<Bytes>, r: Record)
    requires Honest(v, rs) && ls != [] && r.seq_ == 1 && v.c.lenient(v.c.line(r)) == Some((r, v.c.hmac(r)))
    ensures ls + [v.c.line(r)] != Lines(v.c, rs)
  {
    hide Honest;
    if |rs| == |ls| + 1 {
      LenientHead(v, rs, |ls|);
      assert Lines(v.c, rs)[|ls|] == v.c.line(rs[|ls|]) && (ls + [v.c.line(r)])[|ls|] == v.c.line(r);
    }
  }

  /** The write lands alone: the base was empty, and rotating an empty file adds nothing. */
  lemma HeadlessActive(v: Verifier, d: Disk, s: State, r: Record, s': State)
    requires v.c.Valid() && v.c.Sound(r) && Headless(d) && s.older == d.siblings && s.active == CompletePart(d.base)
    requires s.orphan == 0 && s'.head == s.head + 1 && AppendStep(s, v.c.line(r) + [NL], v.c.hmac(r), s')
    ensures AllLines(v.c, Up(s')) == HeldAll(v.c, d.siblings) + [v.c.line(r)]
  {
    LineShape(v.c, r);
    hide Codec.Valid, Codec.Sound, CompletePart;
    var line := v.c.line(r);
    assert [] + (line + [NL]) == [] + line + [NL] + [];
    CompleteLinesSnoc([], line, []);
    NoLines([]);
    assert [] + [line] == [line];
    if s'.older != s.older { assert s'.older[..|s'.older| - 1] == s.older && Held(v.c, []) == []; }
  }

  lemma HonestValid(v: Verifier, tape: seq<Record>)
    requires Honest(v, tape)
    ensures v.c.Valid()
  {
  }

  // ------------------------------------------------------------------ every reachable disk opens

  /** The caps on records discharge what the tail probe needs of the base log. */
  lemma BaseAnswers(v: Verifier, d: Disk, fs: seq<FileView>, b: FileView)
    requires OnDisk(v, d, fs, b)
    ensures Answers(v.c.trim, d.base, SCAN_WINDOW)
    ensures TailAnswer(v.c.trim, CompletePart(d.base), SCAN_WINDOW) == LastRecord(v.c.trim, CompletePart(d.base))
  {
    hide Honest, ShowsAll, Fragments, Fragment, Answers, TailAnswer, LastRecord, CompletePart;
    var t, tape := v.c.trim, Flat(fs) + b.recs;
    HonestLawful(v, tape);
    CompletePartShown(v.c, d.base, b);
    if b.recs == [] {
      RenderNone(v.c);
      AnswersIs(t, d.base, SCAN_WINDOW);
      LocatedAnswer(t, [], SCAN_WINDOW);
    } else {
      var n := |b.recs| - 1;
      assert tape[|tape| - 1] == b.recs[n];
      HonestLines(v, tape, |tape| - 1);
      RenderWhole(v.c, b.recs[..n]);
      FittingTailAnswers(t, Render(v.c, b.recs[..n]), v.c.line(b.recs[n]), b.tail, SCAN_WINDOW);
      LocatedAnswer(t, Render(v.c, b.recs), SCAN_WINDOW);
    }
  }

  lemma BaseNamesHead(v: Verifier, d: Disk, fs: seq<FileView>, b: FileView)
    requires OnDisk(v, d, fs, b) && b.recs != []
    ensures LastRecord(v.c.trim, CompletePart(d.base)) != [] && !Stranded(v.c, d)
  {
    hide Honest, Shows, ShowsAll, Fragments, Fragment, LastRecord, CompletePart, Render, HeldAll, NewestNonEmpty;
    var tape := Flat(fs) + b.recs;
    HonestLawful(v, tape);
    CompletePartShown(v.c, d.base, b);
    assert tape[|tape| - 1] == b.recs[|b.recs| - 1];
    HonestLines(v, tape, |tape| - 1);
    LastRecordRendered(v.c, b.recs);
    RenderWhole(v.c, b.recs);
  }

  /** Where the base holds a record the head is the chain's last, whatever became of the siblings. */
  lemma HeadInBase(v: Verifier, d: Disk, seed: nat, s: State, fs: seq<FileView>, b: FileView)
    requires OnDisk(v, d, fs, b) && b.recs != [] && Reopened(v, SCAN_WINDOW, seed, d, s)
    ensures s.head == |Flat(fs) + b.recs| && s.prev == v.c.hmac(b.recs[|b.recs| - 1])
  {
    hide OnDisk, Reopened, Stranded, LastRecord, CompletePart;
    BaseNamesHead(v, d, fs, b);
    ReopenHead(v, d, seed, s, fs, b);
    assert (Flat(fs) + b.recs)[|Flat(fs) + b.recs| - 1] == b.recs[|b.recs| - 1];
  }

  /**
   Undisturbed, Open starts on every disk of every run, a base that cannot be read included as long as
   it is empty. Where the disk names the head it is the next
   world of that run; and a record in the base names it, whichever siblings cannot be listed or read.
   */
  method Reopen(v: Verifier, seed: nat, d: Disk, readable: bool, bad: set<nat>, listing: Listing, maxBytes: int,
                env: Env, retry: Env, ghost ws: seq<World>)
    returns (r: Option<Sink>)
    requires v.c.Valid() && Run(v, ws) && ws[|ws| - 1] == Down(d)
    requires env.Quiet() && retry.NoCuts() && (readable || d.base == [])
    ensures r.Some? && fresh(r.value)
    ensures Named(v, SCAN_WINDOW, d, bad, listing) ==> Reopened(v, SCAN_WINDOW, seed, d, r.value.Snap())
    ensures Named(v, SCAN_WINDOW, d, bad, listing) && !Stranded(v.c, d) ==> Run(v, ws + [Up(r.value.Snap())])
    ensures forall fs, b | OnDisk(v, d, fs, b) && b.recs != [] ::
              && r.value.Snap().head == |Flat(fs) + b.recs|
              && r.value.Snap().prev == v.c.hmac(b.recs[|b.recs| - 1])
  {
    hide Answers, TailAnswer, LastRecord, CompletePart, Stranded, SiblingLine;
    EverySession(v, ws);
    ghost var fs, b :| OnDisk(v, d, fs, b);
    BaseAnswers(v, d, fs, b);
    hide OnDisk, Reopened, StartHead, OpenLine, Run;
    r := Open(v, SCAN_WINDOW, seed, d, readable, bad, listing, maxBytes, env, retry);
    forall fs, b | OnDisk(v, d, fs, b) && b.recs != []
      ensures r.value.Snap().head == |Flat(fs) + b.recs| && r.value.Snap().prev == v.c.hmac(b.recs[|b.recs| - 1])
    {
      BaseNamesHead(v, d, fs, b);
      HeadInBase(v, d, seed, r.value.Snap(), fs, b);
    }
    if Named(v, SCAN_WINDOW, d, bad, listing) && !Stranded(v.c, d) { RunAppend(v, ws, Up(r.value.Snap())); }
  }

  lemma RunAppend(v: Verifier, ws: seq<World>, w: World)
    requires Run(v, ws) && Next(v, ws[|ws| - 1], w)
    ensures Run(v, ws + [w])
  {
    hide Next;
    var all := ws + [w];
    forall i | 0 < i < |all|
      ensures Next(v, all[i - 1], all[i])
    {
      assert i < |ws| ==> Next(v, ws[i - 1], ws[i]);
    }
  }

  /** A record inside its caps stays inside them when it is stamped at the head. */
  lemma StampBounded(enc: Bytes -> Bytes, s: State, r: Record)
    requires Bounded(enc, r) && s.head < UINT64_MAX && |s.prev| <= 71
    ensures Bounded(enc, Stamp(s, r))
  {
  }

  /** So what Record builds may be written: all that is left is that it survives a decode under a held key. */
  lemma BuiltIsWritable(v: Verifier, s: State, r: Record, fs: seq<FileView>, live: seq<Record>, pending: seq<Record>)
    requires Running(v, s, fs, live, pending) && Bounded(v.c.enc, r) && s.head < UINT64_MAX
    requires r.keyId != [] && v.HoldsKey(r.keyId) && v.timeOk(r.time) && v.c.Decodes(Stamp(s, r))
    ensures Writable(v, s, r)
  {
    hide Bounded, ShowsAll, Fragments, Honest, Codec.Decodes, Render, Clean;
    var tape := Flat(fs) + live;
    HonestParts(v, tape, pending);
    if tape != [] {
      LastSound(v, tape);
      LineShape(v.c, tape[|tape| - 1]);
    }
    StampBounded(v.c.enc, s, r);
  }

  lemma LastSound(v: Verifier, tape: seq<Record>)
    requires Honest(v, tape) && tape != []
    ensures v.c.Valid() && v.c.Sound(tape[|tape| - 1])
  {
    hide Codec.Valid, Codec.Sound;
  }

  // ------------------------------------------------------------------ a run to a headless disk

  /** Write a, rotate, write b, and crash between the next rotation's rename and its reopen. */
  function CutRun(c: Codec, a: Record, b: Record, x: Bytes): seq<World> {
    [ Down(Disk([], [])),
      Up(State([], [], 0, false, 0, [])),
      Up(State([], Render(c, [a]), 0, false, 1, c.hmac(a))),
      Up(State([Render(c, [a])], Render(c, [b]), 0, false, 2, c.hmac(b))),
      Down(Disk([Render(c, [a]), x], [])) ]
  }

  lemma RenderOne(c: Codec, r: Record)
    ensures Render(c, [r]) == c.line(r) + [NL]
  {
    RenderAppend(c, [], r);
    assert [] + [r] == [r] && [] + c.line(r) + [NL] == c.line(r) + [NL];
  }

  lemma FirstOpen(v: Verifier)
    requires v.c.Valid()
    ensures Next(v, Down(Disk([], [])), Up(State([], [], 0, false, 0, [])))
  {
    hide LastRecord, CompletePart, ReadLastAuditLine;
    LastRecordOfNothing(v.c.trim);
    hide Codec.Valid;
    assert CompletePart([]) == [] by { CompletePartOfConcat([], []); }
    assert Reopened(v, SCAN_WINDOW, 0, Disk([], []), State([], [], 0, false, 0, []));
  }

  lemma WritableNext(v: Verifier, s: State, tape: seq<Record>, r: Record)
    requires Honest(v, tape + [r]) && s.head == |tape| && s.prev == HeadMac(v.c, tape)
    ensures Writable(v, s, r) && Stamp(s, r) == r && s.head < UINT64_MAX
  {
    NextIsSound(v, tape, r);
    var all, n := tape + [r], |tape|;
    assert all[n] == r && all[..n] == tape;
    if tape != [] {
      HonestPrefix(v, all, n);
      HonestLines(v, tape, n - 1);
    }
    hide Codec.Sound, Codec.Valid;
    assert r.prev == PrevOf(v.c, all[..n]);
  }

  lemma CutRunIsRun(v: Verifier, a: Record, b: Record, x: Bytes)
    requires Honest(v, [a, b]) && x <= Render(v.c, [b])
    ensures Run(v, CutRun(v.c, a, b, x))
  {
    hide Honest, Render, Writable, Reopened;
    HonestValid(v, [a, b]);
    FirstOpen(v);
    assert [] + [a] == [a] && [a] + [b] == [a, b];
    HonestParts(v, [a], [b]);
    RenderOne(v.c, a);
    RenderOne(v.c, b);
    var ws := CutRun(v.c, a, b, x);
    var s1, s2, s3 := ws[1].s, ws[2].s, ws[3].s;
    WritableNext(v, s1, [], a);
    WritableNext(v, s2, [a], b);
    assert Clean(s1) == [] && Clean(s2) == s2.active;
    assert WriteStep(v.c, s1, a, s2) by { assert [] + (v.c.line(a) + [NL]) == s2.active; }
    assert WriteStep(v.c, s2, b, s3) by {
      assert [] + (v.c.line(b) + [NL]) == s3.active && s3.older == s2.older + [s2.active];
    }
    assert Crashed(s3, ws[4].d) by { assert ws[4].d.siblings[..1] == s3.older; }
    assert Next(v, ws[1], ws[2]) && Next(v, ws[2], ws[3]) && Next(v, ws[3], ws[4]);
    hide Next;
    forall i | 0 < i < |ws|
      ensures Next(v, ws[i - 1], ws[i])
    {
      assert i == 1 || i == 2 || i == 3 || i == 4;
    }
  }

  /**
   The crash that keeps one byte of b strands the disk. The one that loses only b's newline does
   not: there reopening takes b for the head although no terminated line holds it.
   */
  lemma HeadlessDisks(v: Verifier, a: Record, b: Record)
    requires Honest(v, [a, b])
    ensures v.c.line(b) != []
    ensures var cut := Disk([Render(v.c, [a]), v.c.line(b)[..1]], []);
            Run(v, CutRun(v.c, a, b, v.c.line(b)[..1])) && Stranded(v.c, cut)
    ensures var whole := Disk([Render(v.c, [a]), v.c.line(b)], []);
            && Run(v, CutRun(v.c, a, b, v.c.line(b))) && Headless(whole) && !Stranded(v.c, whole)
            && forall s, seed | Reopened(v, SCAN_WINDOW, seed, whole, s) :: s.head == 2 && s.prev == v.c.hmac(b)
  {
    hide Honest, Render, Run, Reopened;
    assert [a] + [b] == [a, b];
    NextIsSound(v, [a], b);
    LineShape(v.c, b);
    RenderOne(v.c, b);
    var line := v.c.line(b);
    CutRunIsRun(v, a, b, line[..1]);
    CutRunIsRun(v, a, b, line);
    CutLine(v.c, b, line[..1]);
    LenientHead(v, [a, b], 1);
    hide Codec.Valid, Codec.Sound;
    StrandedAt(v, a, b, line[..1]);
    StrandedAt(v, a, b, line);
    var whole := Disk([Render(v.c, [a]), line], []);
    forall s, seed | Reopened(v, SCAN_WINDOW, seed, whole, s)
      ensures s.head == 2 && s.prev == v.c.hmac(b)
    {
      var f, g := FileView([a], []), FileView([b], []);
      AdoptedOnDisk(v, a, b);
      ReopenHead(v, whole, seed, s, [f, g], FileView([], []));
      FlatTwo(f, g);
      assert Flat([f, g]) + [] == [a, b];
    }
  }

  lemma FlatTwo(f: FileView, g: FileView)
    ensures Flat([f, g]) == f.recs + g.recs
  {
    FlatAppend([], f);
    FlatAppend([f], g);
    assert [] + [f] == [f] && [f] + [g] == [f, g] && [] + f.recs == f.recs;
  }

  lemma HeldTwo(c: Codec, file: Bytes, x: Bytes)
    requires x != []
    ensures HeldAll(c, [file, x]) == Held(c, file) + Held(c, x) && NewestNonEmpty([file, x]) == x
  {
    hide Held;
    assert [file, x][..1] == [file] && [file][..0] == [];
    assert HeldAll(c, [file]) == [] + Held(c, file);
  }

  lemma StrandedAt(v: Verifier, a: Record, b: Record, x: Bytes)
    requires Honest(v, [a, b]) && x != [] && x <= v.c.line(b)
    ensures var d := Disk([Render(v.c, [a]), x], []);
            Headless(d) && NewestNonEmpty(d.siblings) == x && (Stranded(v.c, d) <==> v.c.lenient(x).None?)
  {
    hide Honest, Render, Held, HeldAll, NewestNonEmpty;
    assert [a] + [b] == [a, b] && [] + [a] == [a];
    NextIsSound(v, [a], b);
    CutLine(v.c, b, x);
    HonestParts(v, [a], [b]);
    WholeFileShows(v.c, [a]);
    HeldShown(v, Render(v.c, [a]), FileView([a], []), []);
    HeldTwo(v.c, Render(v.c, [a]), x);
    assert |Lines(v.c, [a])| == 1;
    hide Codec.Sound, Codec.Valid, CompletePart;
    assert CompletePart([]) == [] by { CompletePartOfConcat([], []); }
  }

  lemma AdoptedOnDisk(v: Verifier, a: Record, b: Record)
    requires Honest(v, [a, b])
    ensures var fs := [FileView([a], []), FileView([b], [])];
            OnDisk(v, Disk([Render(v.c, [a]), v.c.line(b)], []), fs, FileView([], []))
  {
    hide Honest, Render;
    var f, g := FileView([a], []), FileView([b], []);
    FlatTwo(f, g);
    assert [] + [f] == [f] && [f] + [g] == [f, g] && [a] + [b] == [a, b] && [a, b] + [] == [a, b];
    RenderNone(v.c);
    WholeFileShows(v.c, [a]);
    WholeFileShows(v.c, []);
    FragmentsAppend(v, [], f);
    FragmentsAppend(v, [f], g);
  }
}
