/**
 Starting without a tail to resume from: the seq counter is seeded past everything on disk, so
 whatever a crash left, no seq is issued twice (internal/audit/resume.go, internal/audit/audit.go).
 */
module Reseed {
  import opened Wrappers
  import opened Bytes
  import opened Records
  import opened Tail
  import opened Chain
  import opened Verify
  import opened Sink
  import opened Startup
  import opened Sessions
  import opened Archive
  import opened Seed

  /** The seq a scan takes from a line: trimmed, then decoded leniently. */
  function SeqOf(c: Codec): Bytes -> Option<nat> {
    (l: Bytes) => match c.lenient(c.trim.both(l)) case None => None case Some((r, _)) => Some(r.seq_)
  }

  /** bufio.ScanLines: the complete lines, and what follows them. */
  function ScanLines(file: Bytes): seq<Bytes> {
    CompleteLines(file) + if Loose(file) == [] then [] else [Loose(file)]
  }

  /** s is a scan of the file, whatever became of it. */
  predicate Scans(file: Bytes, s: Scan) {
    s.lines == ScanLines(file) && s.size == |file| && (s.io.Whole? || s.io.statOk)
  }

  predicate ScansAll(files: seq<Bytes>, ss: seq<Scan>) {
    |files| == |ss| && forall i | 0 <= i < |files| :: Scans(files[i], ss[i])
  }

  // ------------------------------------------------------------------ what a scan reads

  lemma {:induction false} LineCount(f: Bytes)
    ensures |CompleteLines(f)| <= LastNewline(f) + 1
    decreases |f|
  {
    var i := LastNewline(f);
    if i >= 0 {
      var d := f[..i];
      LineCount(d[..LastNewline(d) + 1]);
    }
  }

  lemma ScanAccounted(file: Bytes, s: Scan)
    requires Scans(file, s)
    ensures s.Accounted()
  {
    LineCount(file);
  }

  /** The lines of a file: its records, and its fragment if it has one. */
  lemma ScanShows(v: Verifier, file: Bytes, f: FileView, before: seq<Record>)
    requires (Shows(v.c, file, f) || Bare(v.c, file, f)) && Honest(v, before + f.recs)
    ensures ScanLines(file) == Lines(v.c, f.recs) + if f.tail == [] then [] else [f.tail]
  {
    hide Honest, CompleteLines, Loose;
    if Bare(v.c, file, f) {
      assert (before + f.recs)[|before|] == f.recs[0];
      HonestLines(v, before + f.recs, |before|);
      NoLines(file);
      TailLoose(file);
      assert Lines(v.c, f.recs) == [file];
    } else {
      PartTokens(v, before, f.recs);
      RenderWhole(v.c, f.recs);
      CompleteLinesOfRender(v.c, f.recs, f.tail);
      LooseConcat(Render(v.c, f.recs), f.tail);
      TailLoose(f.tail);
    }
  }

  lemma RecordSeq(v: Verifier, rs: seq<Record>, i: nat)
    requires Honest(v, rs) && i < |rs|
    ensures SeqOf(v.c)(v.c.line(rs[i])) == Some(i + 1)
  {
    HonestLines(v, rs, i);
    LenientHead(v, rs, i);
    HonestLawful(v, rs);
    hide Honest;
    assert v.c.trim.Trims(v.c.line(rs[i]));
  }

  lemma FragmentSeq(v: Verifier, tape: seq<Record>, tail: Bytes)
    requires Fragment(v, tape, tail) && tail != []
    ensures SeqOf(v.c)(tail).None? || SeqOf(v.c)(tail) == Some(|tape| + 1)
  {
    hide Honest;
    var r :| Honest(v, tape + [r]) && tail <= v.c.line(r);
    NextIsSound(v, tape, r);
    CutLine(v.c, r, tail);
    if tail == v.c.line(r) {
      assert (tape + [r])[|tape|] == r;
      RecordSeq(v, tape + [r], |tape|);
    }
  }

  // ------------------------------------------------------------------ every disk climbs

  lemma TopOfLine(seqOf: Bytes -> Option<nat>, ls: seq<Bytes>, i: nat, floor: nat)
    requires i < |ls| && seqOf(ls[i]).Some?
    ensures seqOf(ls[i]).value <= Top(seqOf, ls, floor)
  {
    MaxSeqIs(seqOf, ls);
  }

  /** A file whose records follow `before` climbs from any floor at least that high. */
  lemma FileClimbs(v: Verifier, ls: seq<Bytes>, f: FileView, before: seq<Record>, floor: nat)
    requires Honest(v, before + f.recs) && Fragment(v, before + f.recs, f.tail) && |before| <= floor
    requires ls == Lines(v.c, f.recs) + if f.tail == [] then [] else [f.tail]
    ensures Climbs(SeqOf(v.c), ls, floor) && |before| + |f.recs| <= Top(SeqOf(v.c), ls, floor)
  {
    hide Honest, Fragment, Top, SeqOf;
    var seqOf, all, n := SeqOf(v.c), before + f.recs, |f.recs|;
    forall i | 0 <= i < n
      ensures seqOf(ls[i]) == Some(|before| + i + 1)
    {
      assert all[|before| + i] == f.recs[i];
      RecordSeq(v, all, |before| + i);
    }
    forall i | 0 <= i <= |ls|
      ensures |before| + (if i < n then i else n) <= Top(seqOf, ls[..i], floor)
    {
      FloorAtMost(seqOf, ls[..i], floor);
      var k := if i < n then i else n;
      if k > 0 { TopOfLine(seqOf, ls[..i], k - 1, floor); }
    }
    if f.tail != [] { FragmentSeq(v, all, f.tail); }
    assert ls[..|ls|] == ls;
  }

  lemma FloorAtMost(seqOf: Bytes -> Option<nat>, ls: seq<Bytes>, floor: nat)
    ensures floor <= Top(seqOf, ls, floor)
  {
  }

  lemma {:induction false} SiblingsClimb(v: Verifier, files: seq<Bytes>, ss: seq<Scan>, fs: seq<FileView>)
    requires ShowsAll(v.c, files, fs) && Fragments(v, fs) && Honest(v, Flat(fs)) && ScansAll(files, ss)
    ensures Climbing(SeqOf(v.c), ss, 0) && |Flat(fs)| <= TopOf(SeqOf(v.c), ss, 0)
    decreases |fs|
  {
    hide Honest, Shows, Bare, Fragment, Climbs, Top, SeqOf, ScanLines;
    if fs != [] {
      var n := |fs| - 1;
      var before, f := Flat(fs[..n]), fs[n];
      HonestParts(v, before, f.recs);
      SiblingsClimb(v, files[..n], ss[..n], fs[..n]);
      assert Scans(files[n], ss[n]);
      ScanAccounted(files[n], ss[n]);
      ScanShows(v, files[n], f, before);
      FileClimbs(v, ss[n].lines, f, before, TopOf(SeqOf(v.c), ss[..n], 0));
    }
  }

  /** Whatever disk a crash can leave, torn files included. */
  lemma DiskClimbs(v: Verifier, d: Disk, base: Scan, sibs: seq<Scan>, fs: seq<FileView>, b: FileView)
    requires OnDisk(v, d, fs, b) && ScansAll(d.siblings, sibs) && Scans(d.base, base)
    ensures Climbing(SeqOf(v.c), sibs + [base], 0)
  {
    hide Honest, Shows, Bare, Fragment, Fragments, Climbs, Top, SeqOf, ScanLines, TopOf;
    var all := sibs + [base];
    assert all[..|sibs|] == sibs && all[|sibs|] == base;
    HonestParts(v, Flat(fs), b.recs);
    SiblingsClimb(v, d.siblings, sibs, fs);
    ScanAccounted(d.base, base);
    ScanShows(v, d.base, b, Flat(fs));
    FileClimbs(v, base.lines, b, Flat(fs), TopOf(SeqOf(v.c), sibs, 0));
  }

  // ------------------------------------------------------------------ opening

  /** Open could not establish what the chain ends with. */
  predicate Unresumed(v: Verifier, win: nat, d: Disk, readable: bool, bad: set<nat>, listing: Listing, env: Env,
                      active: Bytes)
  {
    if readable then TailAnswer(v.c.trim, active, win) == [] && Unknown(v, win, d, bad, listing)
    else d.base != [] || env.statFails
  }

  /** Some line on disk carries the seq m. */
  ghost predicate OnTape(c: Codec, d: Disk, m: nat) {
    exists file, l :: file in d.siblings + [d.base] && l in ScanLines(file) && SeqOf(c)(l) == Some(m)
  }

  /** No seq on disk is above n. */
  ghost predicate PastDisk(c: Codec, d: Disk, n: nat) {
    forall m: nat | OnTape(c, d, m) :: m <= n
  }

  lemma OnTapeBelow(c: Codec, d: Disk, base: Scan, sibs: seq<Scan>, m: nat)
    requires ScansAll(d.siblings, sibs) && Scans(d.base, base) && OnTape(c, d, m)
    ensures m <= TopOf(SeqOf(c), sibs + [base], 0)
  {
    hide TopOf, SeqOf, ScanLines;
    var files, ss := d.siblings + [d.base], sibs + [base];
    var file, l :| file in files && l in ScanLines(file) && SeqOf(c)(l) == Some(m);
    var k :| 0 <= k < |files| && files[k] == file;
    assert Scans(files[k], ss[k]);
    var i :| 0 <= i < |ss[k].lines| && ss[k].lines[i] == l;
    TopCovers(SeqOf(c), ss, 0, k, i);
  }

  lemma SeedPastDisk(v: Verifier, d: Disk, base: Scan, sibs: seq<Scan>, seed: nat, fs: seq<FileView>, b: FileView)
    requires OnDisk(v, d, fs, b) && ScansAll(d.siblings, sibs) && Scans(d.base, base)
    requires TopOf(SeqOf(v.c), sibs + [base], 0) <= MAX_SEEDABLE && seed == SeedOf(SeqOf(v.c), base, sibs, 0)
    ensures PastDisk(v.c, d, seed)
  {
    hide OnDisk, ScansAll, Scans, OnTape, TopOf, Climbing, SeedOf, SeqOf;
    DiskClimbs(v, d, base, sibs, fs, b);
    SeedPastMax(SeqOf(v.c), base, sibs, 0, 0);
    forall m: nat | OnTape(v.c, d, m) ensures m <= seed { OnTapeBelow(v.c, d, base, sibs, m); }
  }

  lemma UnresumedMeans(v: Verifier, win: nat, d: Disk, seed: nat, readable: bool, bad: set<nat>, listing: Listing,
                       env: Env, active: Bytes)
    requires Unresumed(v, win, d, readable, bad, listing, env, active)
    ensures StartHead(v, OpenLine(v, win, d, readable, bad, listing, env, active), seed) == (seed, [])
  {
  }

  /** What the scan finds: the files with the base's partial tail gone, if it could be removed. */
  function Kept(d: Disk, readable: bool): Disk {
    Disk(d.siblings, if readable then CompletePart(d.base) else d.base)
  }

  lemma KeptOnDisk(v: Verifier, d: Disk, readable: bool, fs: seq<FileView>, b: FileView)
    requires OnDisk(v, d, fs, b)
    ensures OnDisk(v, Kept(d, readable), fs, if readable then FileView(b.recs, []) else b)
  {
    hide Honest, ShowsAll, Fragments, CompletePart, Render;
    CompletePartShown(v.c, d.base, b);
    assert Render(v.c, b.recs) + [] == Render(v.c, b.recs);
  }

  lemma KeptIs(d: Disk, readable: bool)
    ensures Kept(d, readable).siblings == d.siblings
    ensures Kept(d, readable).base == if readable then CompletePart(d.base) else d.base
  {
  }

  /** Open, told where to start when it cannot find out: it starts there. */
  method OpenAt(v: Verifier, win: nat, d: Disk, seed: nat, readable: bool, bad: set<nat>, listing: Listing,
                maxBytes: int, env: Env, retry: Env)
    returns (r: Option<Sink>)
    requires v.c.Valid() && win > 0 && env.NoCuts() && retry.NoCuts()
    ensures readable && env.Quiet() ==> (r.Some? <==> Answers(v.c.trim, d.base, win))
    ensures r.Some? ==> r.value.active == Kept(d, readable).base
    ensures r.Some? && Unresumed(v, win, d, readable, bad, listing, env, r.value.active) ==>
              r.value.Snap() == State(d.siblings, r.value.active, 0, false, seed, [])
  {
    hide *;
    r := Open(v, win, seed, d, readable, bad, listing, maxBytes, env, retry);
    if r.Some? && Unresumed(v, win, d, readable, bad, listing, env, r.value.active) {
      UnresumedMeans(v, win, d, seed, readable, bad, listing, env, r.value.active);
    }
    KeptIs(d, readable);
  }

  /** seedSeqPastOnDiskMax, from a counter still at zero. */
  method SeedSeqPastOnDiskMax(seqOf: Bytes -> Option<nat>, base: Scan, sibs: seq<Scan>, listing: Listing)
    returns (seed: nat)
    ensures seed == SeedOf(seqOf, base, if listing.Listed? then sibs else [], 0)
  {
    hide Parsed, ParsedOf, UnreadOf, Scan.Unread, SatAdd, Seeded;
    var highest, ok, _ := HighestSeqAcrossChain(seqOf, base, sibs, listing);
    return Seeded(0, highest, ok);
  }

  /**
   Open with the seed its own scan computes. Where the directory lists, a sink that could not
   establish the tail starts at or past every seq on disk, whatever the scans could read.
   */
  method OpenSeeded(v: Verifier, win: nat, d: Disk, base: Scan, sibs: seq<Scan>, readable: bool, bad: set<nat>,
                    listing: Listing, maxBytes: int, env: Env, retry: Env, ghost fs: seq<FileView>, ghost b: FileView)
    returns (r: Option<Sink>)
    requires OnDisk(v, d, fs, b) && v.c.Valid() && win > 0 && env.NoCuts() && retry.NoCuts()
    requires ScansAll(d.siblings, sibs) && Scans(Kept(d, readable).base, base)
    ensures && r.Some? && Unresumed(v, win, d, readable, bad, listing, env, r.value.active)
            && listing.Listed? && TopOf(SeqOf(v.c), sibs + [base], 0) <= MAX_SEEDABLE ==>
              && r.value.active == Kept(d, readable).base && r.value.Snap().prev == []
              && PastDisk(v.c, Kept(d, readable), r.value.Snap().head)
  {
    hide *;
    var seed := SeedSeqPastOnDiskMax(SeqOf(v.c), base, sibs, listing);
    if listing.Listed? && TopOf(SeqOf(v.c), sibs + [base], 0) <= MAX_SEEDABLE {
      KeptOnDisk(v, d, readable, fs, b);
      KeptIs(d, readable);
      SeedPastDisk(v, Kept(d, readable), base, sibs, seed, fs, if readable then FileView(b.recs, []) else b);
    }
    r := OpenAt(v, win, d, seed, readable, bad, listing, maxBytes, env, retry);
  }

  /** And so every record written from there on has a seq above every seq on disk. */
  lemma FreshAfterOpen(c: Codec, d: Disk, ss: seq<State>, ps: seq<Record>, i: nat, m: nat)
    requires WriteRun(c, ss, ps) && i < |ps| && ss[0].head <= UINT64_MAX
    requires PastDisk(c, d, ss[0].head) && OnTape(c, d, m)
    ensures ss[i + 1].head > ss[i].head ==> Stamp(ss[i], ps[i]).seq_ > m
  {
    hide OnTape;
    FreshAfterSeed(c, ss, ps, m, i);
  }

  /** Where the directory does not list, the siblings' seqs are issued again: a record at seq 1, and the head at 0. */
  method UnlistedReissues(v: Verifier, a: Record) returns (head: nat)
    requires Honest(v, [a])
    ensures head == 0 && OnTape(v.c, Disk([Render(v.c, [a])], []), 1)
  {
    hide *;
    var d := Disk([Render(v.c, [a])], []);
    OneOnTape(v, a);
    HonestValid(v, [a]);
    var empty, quiet := Scan([], 0, Whole), Env(false, 0, false, false, 0, false, 0, false);
    var sib := Scan(ScanLines(d.siblings[0]), |d.siblings[0]|, Whole);
    var seed := SeedSeqPastOnDiskMax(SeqOf(v.c), empty, [sib], ListingFailed);
    NothingSeeds(SeqOf(v.c));
    EmptyBase(v, d, quiet);
    var r := OpenAt(v, SCAN_WINDOW, d, seed, true, {}, ListingFailed, 0, quiet, quiet);
    HeadOf(r.value);
    head := r.value.seq_;
  }

  lemma HeadOf(s: Sink)
    ensures s.Snap().head == s.seq_
  {
  }

  lemma NothingSeeds(seqOf: Bytes -> Option<nat>)
    ensures SeedOf(seqOf, Scan([], 0, Whole), [], 0) == 0
  {
    assert Parsed(seqOf, Scan([], 0, Whole)) == None;
  }

  lemma EmptyBase(v: Verifier, d: Disk, quiet: Env)
    requires v.c.Valid() && d.base == [] && quiet == Env(false, 0, false, false, 0, false, 0, false)
    ensures SCAN_WINDOW > 0 && quiet.NoCuts() && quiet.Quiet() && Answers(v.c.trim, d.base, SCAN_WINDOW)
    ensures Unresumed(v, SCAN_WINDOW, d, true, {}, ListingFailed, quiet, Kept(d, true).base)
  {
    AnswersIs(v.c.trim, [], SCAN_WINDOW);
    CompletePartOfConcat([], []);
    assert [] + [] == CompletePart([]) == [];
  }

  lemma OneOnTape(v: Verifier, a: Record)
    requires Honest(v, [a])
    ensures OnTape(v.c, Disk([Render(v.c, [a])], []), 1)
  {
    hide Honest, Render, ScanLines;
    var file := Render(v.c, [a]);
    WholeFileShows(v.c, [a]);
    assert [] + [a] == [a];
    ScanShows(v, file, FileView([a], []), []);
    RecordSeq(v, [a], 0);
    assert ScanLines(file)[0] == v.c.line(a);
    assert file in [file] + [[]] && v.c.line(a) in ScanLines(file);
  }
}
