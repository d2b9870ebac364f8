/**
 Seeding the sequence counter when the tail cannot be read: the highest seq that could be
 parsed, plus one for every byte that could not (internal/audit/resume.go).
 */
module Seed {
  import opened Wrappers
  import opened Bytes
  import opened Records
  import opened Chain
  import opened Sink
  import opened Startup

  const MAX_SEEDABLE: nat := 0x4000_0000_0000_0000    // maxSeedableSeq, 2^62

  /** How a scan ends: opening refused, a clean pass, or a pass that aborts after `read` lines. */
  datatype ScanIo = Refused(statOk: bool) | Whole | Aborts(read: nat, statOk: bool)

  /** A log file and the fate of its scan: its lines, its size, and what the system calls did. */
  datatype Scan = Scan(lines: seq<Bytes>, size: nat, io: ScanIo) {
    /** Lines the scan gets to decode. */
    function Read(): (n: nat)
      ensures n <= |lines|
    {
      match io
      case Refused(_) => 0
      case Whole => |lines|
      case Aborts(read, _) => if read < |lines| then read else |lines|
    }

    /** Bytes it reports as unread: the whole file's, when it did not get through. */
    function Unread(): (n: nat) {
      if io.Whole? || !io.statOk then 0 else size
    }

    /** Every line took at least a byte, and a file not read to its end reports its size. */
    predicate Accounted() {
      |lines| <= size && (io.Whole? || io.statOk)
    }
  }

  function Larger(a: Option<nat>, b: Option<nat>): (m: Option<nat>) {
    if a.None? || (b.Some? && a.value < b.value) then b else a
  }

  function OrZero(m: Option<nat>): nat {
    if m.Some? then m.value else 0
  }

  /** Largest seq among the lines that decode to one. */
  function MaxSeq(seqOf: Bytes -> Option<nat>, ls: seq<Bytes>): (m: Option<nat>) {
    if ls == [] then None else Larger(MaxSeq(seqOf, ls[..|ls| - 1]), seqOf(ls[|ls| - 1]))
  }

  function Parsed(seqOf: Bytes -> Option<nat>, s: Scan): (m: Option<nat>) {
    MaxSeq(seqOf, s.lines[..s.Read()])
  }

  /** satAddU64. */
  function SatAdd(a: nat, b: nat): (s: nat) {
    if b > UINT64_MAX || a > UINT64_MAX - b then UINT64_MAX else a + b
  }

  /** scanSeqContribution; blank lines are among those that decode to nothing. */
  method ScanSeqContribution(seqOf: Bytes -> Option<nat>, s: Scan) returns (parsedMax: nat, parsed: bool, unread: nat)
    ensures (parsed <==> Parsed(seqOf, s).Some?) && parsedMax == OrZero(Parsed(seqOf, s))
    ensures unread == s.Unread()
  {
    parsedMax, parsed := 0, false;
    assert s.lines[..0] == [];
    if s.io.Refused? { return 0, false, if s.io.statOk then s.size else 0; }
    var i := 0;
    while i < s.Read()
      invariant 0 <= i <= s.Read()
      invariant parsed <==> MaxSeq(seqOf, s.lines[..i]).Some?
      invariant parsedMax == OrZero(MaxSeq(seqOf, s.lines[..i]))
    {
      var n := seqOf(s.lines[i]);
      assert s.lines[..i + 1][..i] == s.lines[..i];
      if n.Some? {
        parsed := true;
        if n.value > parsedMax { parsedMax := n.value; }
      }
      i := i + 1;
    }
    unread := if s.io.Whole? || !s.io.statOk then 0 else s.size;
  }

  // ------------------------------------------------------------------ the fold over a chain

  /** Highest seq parsed anywhere in the files. */
  function ParsedOf(seqOf: Bytes -> Option<nat>, ss: seq<Scan>): (m: Option<nat>) {
    if ss == [] then None else Larger(ParsedOf(seqOf, ss[..|ss| - 1]), Parsed(seqOf, ss[|ss| - 1]))
  }

  function UnreadOf(ss: seq<Scan>): (u: nat) {
    if ss == [] then 0 else UnreadOf(ss[..|ss| - 1]) + ss[|ss| - 1].Unread()
  }

  lemma FoldStep(seqOf: Bytes -> Option<nat>, ss: seq<Scan>, i: nat)
    requires i < |ss|
    ensures UnreadOf(ss[..i + 1]) == UnreadOf(ss[..i]) + ss[i].Unread()
    ensures ParsedOf(seqOf, ss[..i + 1]) == Larger(ParsedOf(seqOf, ss[..i]), Parsed(seqOf, ss[i]))
  {
    assert ss[..i + 1][..i] == ss[..i];
  }

  lemma FoldNothing(seqOf: Bytes -> Option<nat>, ss: seq<Scan>)
    ensures UnreadOf(ss[..0]) == 0 && ParsedOf(seqOf, ss[..0]) == None
  {
  }

  /**
   highestSeqAcrossChainCapped: the base first, then the siblings when the directory lists. What
   the siblings add when it does not list is unknown, and `complete` says so.
   */
  method HighestSeqAcrossChain(seqOf: Bytes -> Option<nat>, base: Scan, sibs: seq<Scan>, listing: Listing)
    returns (highest: nat, ok: bool, complete: bool)
    ensures complete <==> listing != ListingFailed
    ensures var seen := if listing.Listed? then sibs else [];
            var m, u := Larger(Parsed(seqOf, base), ParsedOf(seqOf, seen)), base.Unread() + UnreadOf(seen);
            highest == SatAdd(OrZero(m), SatAdd(0, u)) && (ok <==> m.Some? || u > 0)
  {
    hide Parsed, ParsedOf, UnreadOf;
    var maxParsed, parsedAny, ub := ScanSeqContribution(seqOf, base);
    var unread, sawUnread := SatAdd(0, ub), ub > 0;
    complete := listing != ListingFailed;
    var seen := if listing.Listed? then sibs else [];
    var i := 0;
    FoldNothing(seqOf, seen);
    while i < |seen|
      invariant 0 <= i <= |seen|
      invariant (parsedAny <==> Larger(Parsed(seqOf, base), ParsedOf(seqOf, seen[..i])).Some?)
      invariant maxParsed == OrZero(Larger(Parsed(seqOf, base), ParsedOf(seqOf, seen[..i])))
      invariant unread == SatAdd(0, base.Unread() + UnreadOf(seen[..i]))
      invariant sawUnread <==> base.Unread() + UnreadOf(seen[..i]) > 0
    {
      var p, parsed, u := ScanSeqContribution(seqOf, seen[i]);
      FoldStep(seqOf, seen, i);
      if parsed {
        parsedAny := true;
        if p > maxParsed { maxParsed := p; }
      }
      if u > 0 {
        sawUnread := true;
        unread := SatAdd(unread, u);
      }
      i := i + 1;
    }
    assert seen[..i] == seen;
    highest, ok := SatAdd(maxParsed, unread), parsedAny || sawUnread;
  }

  // ------------------------------------------------------------------ the bound

  function Max(a: nat, b: nat): nat { if a < b then b else a }

  /** The highest seq among the lines, counting from `floor`. */
  function Top(seqOf: Bytes -> Option<nat>, ls: seq<Bytes>, floor: nat): nat {
    Max(floor, OrZero(MaxSeq(seqOf, ls)))
  }

  /** No line that decodes is more than one above everything before it; blank, torn and foreign ones do not count. */
  ghost predicate Climbs(seqOf: Bytes -> Option<nat>, ls: seq<Bytes>, floor: nat) {
    forall i | 0 <= i < |ls| && seqOf(ls[i]).Some? :: seqOf(ls[i]).value <= Top(seqOf, ls[..i], floor) + 1
  }

  function TopOf(seqOf: Bytes -> Option<nat>, ss: seq<Scan>, floor: nat): nat {
    if ss == [] then floor else Top(seqOf, ss[|ss| - 1].lines, TopOf(seqOf, ss[..|ss| - 1], floor))
  }

  /** The files of a log in chain order, the first record on disk being floor + 1. */
  ghost predicate Climbing(seqOf: Bytes -> Option<nat>, ss: seq<Scan>, floor: nat) {
    ss == [] ||
    var n := |ss| - 1;
    && Climbing(seqOf, ss[..n], floor) && ss[n].Accounted()
    && Climbs(seqOf, ss[n].lines, TopOf(seqOf, ss[..n], floor))
  }

  /** Every seq in the lines is at most the maximum, and the maximum is one of them. */
  lemma {:induction false} MaxSeqIs(seqOf: Bytes -> Option<nat>, ls: seq<Bytes>)
    ensures forall i | 0 <= i < |ls| && seqOf(ls[i]).Some? :: seqOf(ls[i]).value <= OrZero(MaxSeq(seqOf, ls))
    ensures MaxSeq(seqOf, ls).Some? ==> exists i | 0 <= i < |ls| :: seqOf(ls[i]) == MaxSeq(seqOf, ls)
    ensures MaxSeq(seqOf, ls).None? ==> forall i | 0 <= i < |ls| :: seqOf(ls[i]).None?
  {
    if ls != [] {
      var n := |ls| - 1;
      MaxSeqIs(seqOf, ls[..n]);
      assert forall i | 0 <= i < n :: ls[..n][i] == ls[i];
      assert MaxSeq(seqOf, ls) == MaxSeq(seqOf, ls[..n]) || MaxSeq(seqOf, ls) == seqOf(ls[n]);
    }
  }

  /** Lines a scan did not get to raise the highest seq by one each at most. */
  lemma {:induction false} TopGrows(seqOf: Bytes -> Option<nat>, ls: seq<Bytes>, floor: nat, k: nat, n: nat)
    requires Climbs(seqOf, ls, floor) && k <= n <= |ls|
    ensures Top(seqOf, ls[..n], floor) <= Top(seqOf, ls[..k], floor) + (n - k)
    decreases n
  {
    if k < n {
      TopGrows(seqOf, ls, floor, k, n - 1);
      assert ls[..n][..n - 1] == ls[..n - 1];
    }
  }

  lemma FileBound(seqOf: Bytes -> Option<nat>, s: Scan, floor: nat)
    requires Climbs(seqOf, s.lines, floor) && s.Accounted()
    ensures Top(seqOf, s.lines, floor) <= Max(floor, OrZero(Parsed(seqOf, s))) + s.Unread()
  {
    var n := |s.lines|;
    TopGrows(seqOf, s.lines, floor, s.Read(), n);
    assert s.lines[..n] == s.lines;
  }

  /**
   However the files were refused or aborted, every seq above the highest parsed one belongs
   to an unread line, and every unread line is at least one unread byte.
   */
  lemma {:induction false} UnreadBytesBoundSeqs(seqOf: Bytes -> Option<nat>, ss: seq<Scan>, floor: nat)
    requires Climbing(seqOf, ss, floor)
    ensures TopOf(seqOf, ss, floor) <= Max(floor, OrZero(ParsedOf(seqOf, ss))) + UnreadOf(ss)
    decreases |ss|
  {
    hide Parsed, Climbs, Top, Scan.Unread;
    if ss != [] {
      var n := |ss| - 1;
      UnreadBytesBoundSeqs(seqOf, ss[..n], floor);
      FileBound(seqOf, ss[n], TopOf(seqOf, ss[..n], floor));
    }
  }

  /** The highest seq covers every line of every file. */
  lemma {:induction false} TopCovers(seqOf: Bytes -> Option<nat>, ss: seq<Scan>, floor: nat, k: nat, i: nat)
    requires k < |ss| && i < |ss[k].lines| && seqOf(ss[k].lines[i]).Some?
    ensures floor <= TopOf(seqOf, ss, floor) && seqOf(ss[k].lines[i]).value <= TopOf(seqOf, ss, floor)
    decreases |ss|
  {
    var n := |ss| - 1;
    TopAtLeast(seqOf, ss, floor);
    if k < n {
      TopCovers(seqOf, ss[..n], floor, k, i);
    } else {
      MaxSeqIs(seqOf, ss[n].lines);
    }
  }

  lemma {:induction false} TopAtLeast(seqOf: Bytes -> Option<nat>, ss: seq<Scan>, floor: nat)
    ensures floor <= TopOf(seqOf, ss, floor)
  {
    if ss != [] { TopAtLeast(seqOf, ss[..|ss| - 1], floor); }
  }

  // ------------------------------------------------------------------ contiguous chains

  /** How many of the lines decode to a record. */
  function Decodable(seqOf: Bytes -> Option<nat>, ls: seq<Bytes>): (n: nat)
    ensures n <= |ls|
  {
    if ls == [] then 0 else Decodable(seqOf, ls[..|ls| - 1]) + if seqOf(ls[|ls| - 1]).Some? then 1 else 0
  }

  function Total(seqOf: Bytes -> Option<nat>, ss: seq<Scan>): (n: nat) {
    if ss == [] then 0 else Total(seqOf, ss[..|ss| - 1]) + Decodable(seqOf, ss[|ss| - 1].lines)
  }

  /** The lines of a file that decode are the records first, first + 1, ... of a chain. */
  ghost predicate Holds(seqOf: Bytes -> Option<nat>, s: Scan, first: nat) {
    forall i | 0 <= i < |s.lines| && seqOf(s.lines[i]).Some? ::
      seqOf(s.lines[i]) == Some(first + Decodable(seqOf, s.lines[..i]))
  }

  /** One contiguous chain starting at seq `first`, split over the files in order. */
  ghost predicate Contiguous(seqOf: Bytes -> Option<nat>, ss: seq<Scan>, first: nat) {
    ss == [] ||
    var n := |ss| - 1;
    && Contiguous(seqOf, ss[..n], first) && Holds(seqOf, ss[n], first + Total(seqOf, ss[..n]))
    && ss[n].Accounted()
  }

  lemma {:induction false} MaxSeqHeld(seqOf: Bytes -> Option<nat>, s: Scan, first: nat, n: nat)
    requires Holds(seqOf, s, first) && n <= |s.lines|
    ensures var k := Decodable(seqOf, s.lines[..n]);
            MaxSeq(seqOf, s.lines[..n]) == if k == 0 then None else Some(first + k - 1)
    decreases n
  {
    if n > 0 {
      assert s.lines[..n][..n - 1] == s.lines[..n - 1];
      MaxSeqHeld(seqOf, s, first, n - 1);
    }
  }

  /** Such a chain climbs, and its highest seq is its last. */
  lemma {:induction false} ContiguousClimbs(seqOf: Bytes -> Option<nat>, ss: seq<Scan>, first: nat)
    requires Contiguous(seqOf, ss, first) && first > 0
    ensures Climbing(seqOf, ss, first - 1) && TopOf(seqOf, ss, first - 1) == first - 1 + Total(seqOf, ss)
    ensures ParsedOf(seqOf, ss).Some? ==> ParsedOf(seqOf, ss).value >= first
    decreases |ss|
  {
    if ss != [] {
      var n := |ss| - 1;
      ContiguousClimbs(seqOf, ss[..n], first);
      hide Contiguous;
      var s, f := ss[n], first + Total(seqOf, ss[..n]);
      forall i | 0 <= i <= |s.lines|
        ensures Top(seqOf, s.lines[..i], f - 1) == f - 1 + Decodable(seqOf, s.lines[..i])
      {
        MaxSeqHeld(seqOf, s, f, i);
      }
      assert s.lines[..|s.lines|] == s.lines;
      MaxSeqHeld(seqOf, s, f, s.Read());
    }
  }

  /** seedSeqPastOnDiskMax: the counter after seeding. */
  function Seeded(seqNo: nat, highest: nat, ok: bool): (s: nat)
    ensures s >= seqNo
  {
    var h := if highest > MAX_SEEDABLE then MAX_SEEDABLE else highest;
    if ok && h > seqNo then h else seqNo
  }

  /** What a fold that saw the whole chain seeds the counter with. */
  function SeedOf(seqOf: Bytes -> Option<nat>, base: Scan, sibs: seq<Scan>, seqNo: nat): nat {
    var m, u := Larger(Parsed(seqOf, base), ParsedOf(seqOf, sibs)), base.Unread() + UnreadOf(sibs);
    Seeded(seqNo, SatAdd(OrZero(m), SatAdd(0, u)), m.Some? || u > 0)
  }

  /**
   With anything parsed at or above the floor, or a log that starts at seq 1, the seed is at least
   the highest seq on disk, as long as that is plausible; and it is never so large that the counter
   could wrap.
   */
  lemma SeedPastMax(seqOf: Bytes -> Option<nat>, base: Scan, sibs: seq<Scan>, floor: nat, seqNo: nat)
    requires Climbing(seqOf, sibs + [base], floor)
    requires var m := ParsedOf(seqOf, sibs + [base]); floor == 0 || (m.Some? && floor <= m.value)
    requires TopOf(seqOf, sibs + [base], floor) <= MAX_SEEDABLE && seqNo <= MAX_SEEDABLE
    ensures TopOf(seqOf, sibs + [base], floor) <= SeedOf(seqOf, base, sibs, seqNo) <= MAX_SEEDABLE < UINT64_MAX
  {
    hide Parsed, Climbing, TopOf, Scan.Unread;
    var all := sibs + [base];
    assert all[..|sibs|] == sibs;
    UnreadBytesBoundSeqs(seqOf, all, floor);
  }

  lemma {:induction false} ReadAtMostAll(seqOf: Bytes -> Option<nat>, ls: seq<Bytes>, n: nat)
    requires n <= |ls|
    ensures OrZero(MaxSeq(seqOf, ls[..n])) <= OrZero(MaxSeq(seqOf, ls))
    decreases |ls|
  {
    if n < |ls| {
      ReadAtMostAll(seqOf, ls[..|ls| - 1], n);
      assert ls[..|ls| - 1][..n] == ls[..n];
    } else {
      assert ls[..n] == ls;
    }
  }

  lemma {:induction false} ParsedAtMostTop(seqOf: Bytes -> Option<nat>, ss: seq<Scan>, floor: nat)
    ensures OrZero(ParsedOf(seqOf, ss)) <= TopOf(seqOf, ss, floor)
  {
    hide Scan.Read;
    if ss != [] {
      var n := |ss| - 1;
      ParsedAtMostTop(seqOf, ss[..n], floor);
      ReadAtMostAll(seqOf, ss[n].lines, ss[n].Read());
    }
  }

  /**
   Nor is it further past than what was not read: the seed is at most the highest seq on disk and one
   for every unread byte, and where everything was read it is that seq.
   */
  lemma SeedTight(seqOf: Bytes -> Option<nat>, base: Scan, sibs: seq<Scan>, seqNo: nat)
    ensures SeedOf(seqOf, base, sibs, seqNo) <=
            Max(seqNo, TopOf(seqOf, sibs + [base], 0) + base.Unread() + UnreadOf(sibs))
  {
    hide Parsed, TopOf, Scan.Unread;
    var all := sibs + [base];
    assert all[..|sibs|] == sibs;
    ParsedAtMostTop(seqOf, all, 0);
  }

  lemma SeedExact(seqOf: Bytes -> Option<nat>, base: Scan, sibs: seq<Scan>)
    requires Climbing(seqOf, sibs + [base], 0) && TopOf(seqOf, sibs + [base], 0) <= MAX_SEEDABLE
    requires base.io.Whole? && forall i | 0 <= i < |sibs| :: sibs[i].io.Whole?
    ensures SeedOf(seqOf, base, sibs, 0) == TopOf(seqOf, sibs + [base], 0)
  {
    hide Climbing, TopOf, SeedOf;
    SeedPastMax(seqOf, base, sibs, 0, 0);
    SeedTight(seqOf, base, sibs, 0);
    NothingUnread(sibs);
  }

  lemma {:induction false} NothingUnread(ss: seq<Scan>)
    requires forall i | 0 <= i < |ss| :: ss[i].io.Whole?
    ensures UnreadOf(ss) == 0
  {
    if ss != [] { NothingUnread(ss[..|ss| - 1]); }
  }

  /** So for any contiguous chain, if a record is parsed or the chain starts at seq 1. */
  lemma SeedPastChain(seqOf: Bytes -> Option<nat>, base: Scan, sibs: seq<Scan>, first: nat, seqNo: nat)
    requires Contiguous(seqOf, sibs + [base], first) && first > 0
    requires ParsedOf(seqOf, sibs + [base]).Some? || first == 1
    requires first - 1 + Total(seqOf, sibs + [base]) <= MAX_SEEDABLE && seqNo <= MAX_SEEDABLE
    ensures first - 1 + Total(seqOf, sibs + [base]) <= SeedOf(seqOf, base, sibs, seqNo) <= MAX_SEEDABLE
  {
    ContiguousClimbs(seqOf, sibs + [base], first);
    hide Contiguous, Total, SeedOf;
    SeedPastMax(seqOf, base, sibs, first - 1, seqNo);
  }

  /** The residual the design accepts: nothing parsed, and the head of the chain pruned away. */
  lemma PrunedAndUnreadable(seqOf: Bytes -> Option<nat>)
    requires seqOf([123]) == Some(1000)
    ensures var f := Scan([[123]], 2, Refused(true));
            && Contiguous(seqOf, [f], 1000) && ParsedOf(seqOf, [f]).None?
            && SeedOf(seqOf, f, [], 0) < 999 + Total(seqOf, [f])
  {
    var f := Scan([[123]], 2, Refused(true));
    assert f.lines[..0] == [] && [f][..0] == [];
    assert Total(seqOf, [f][..0]) == 0 && Contiguous(seqOf, [f][..0], 1000) && Holds(seqOf, f, 1000);
  }

  /** So is the other hypothesis: a file that can be neither opened nor sized adds nothing to the seed. */
  lemma UnsizedAndUnreadable(seqOf: Bytes -> Option<nat>)
    requires seqOf([123]) == Some(1)
    ensures var f := Scan([[123]], 2, Refused(false));
            && Holds(seqOf, f, 1) && !f.Accounted()
            && SeedOf(seqOf, f, [], 0) < Total(seqOf, [f])
  {
    var f := Scan([[123]], 2, Refused(false));
    assert f.lines[..0] == [] && [f][..0] == [];
  }

  // ------------------------------------------------------------------ after seeding

  /** A run of writeRecord calls. */
  ghost predicate WriteRun(c: Codec, ss: seq<State>, ps: seq<Record>) {
    && |ss| == |ps| + 1
    && (forall i | 0 <= i < |ss| :: ss[i].orphan <= |ss[i].active|)
    && (forall i | 0 <= i < |ps| :: WriteStep(c, ss[i], ps[i], ss[i + 1]))
  }

  /** Every record written after seeding carries a fresh, strictly larger seq, and none past the 64-bit ceiling. */
  lemma {:induction false} FreshAfterSeed(c: Codec, ss: seq<State>, ps: seq<Record>, top: nat, i: nat)
    requires WriteRun(c, ss, ps) && top <= ss[0].head <= UINT64_MAX && i < |ps|
    ensures top <= ss[i].head <= ss[i + 1].head <= ss[i].head + 1 && ss[i + 1].head <= UINT64_MAX
    ensures ss[i + 1].head > ss[i].head ==> Stamp(ss[i], ps[i]).seq_ == ss[i + 1].head > top
    decreases i
  {
    if i > 0 { FreshAfterSeed(c, ss, ps, top, i - 1); }
    assert WriteStep(c, ss[i], ps[i], ss[i + 1]);
  }
}
