/**
 Opening an existing log: recover the tail, decide which line the chain resumes from, verify
 it, and seed the head (internal/audit/resume.go, and Open in internal/audit/audit.go).
 */
module Startup {
  import opened Wrappers
  import opened Bytes
  import opened Records
  import opened Tail
  import opened Verify
  import opened Sink

  /** What a crash leaves: the rotated siblings oldest first, and the base log (empty when absent). */
  datatype Disk = Disk(siblings: seq<Bytes>, base: Bytes)

  /** Walking the siblings newest to oldest: the first non-empty tail, or the first refusal. */
  function NewestLine(t: Trimmer, win: nat, files: seq<Bytes>): (r: Tail.Result<Bytes>) {
    if files == [] then Tail.Result.Ok([])
    else
      var f := files[|files| - 1];
      var l := ReadLastAuditLine(t, f, f, win);
      if l.Err? || l.value != [] then l else NewestLine(t, win, files[..|files| - 1])
  }

  /** The same walk when the siblings in `bad` cannot be opened or read: the first of those refuses too. */
  function NewestTail(t: Trimmer, win: nat, files: seq<Bytes>, bad: set<nat>): (r: Tail.Result<Bytes>) {
    if files == [] then Tail.Result.Ok([])
    else if |files| - 1 in bad then Tail.Result.Err(Probe)
    else
      var f := files[|files| - 1];
      var l := ReadLastAuditLine(t, f, f, win);
      if l.Err? || l.value != [] then l else NewestTail(t, win, files[..|files| - 1], bad)
  }

  /** Where the walk with unreadable siblings answers, they did not matter. */
  lemma {:induction false} NewestTailSame(t: Trimmer, win: nat, files: seq<Bytes>, bad: set<nat>)
    requires NewestTail(t, win, files, bad).Ok?
    ensures NewestTail(t, win, files, bad) == NewestLine(t, win, files)
  {
    hide ReadLastAuditLine;
    if files != [] {
      var f := files[|files| - 1];
      var l := ReadLastAuditLine(t, f, f, win);
      if l.Ok? && l.value == [] { NewestTailSame(t, win, files[..|files| - 1], bad); }
    }
  }

  /** How listing the log directory ends; a directory not created yet holds no siblings. */
  datatype Listing = Listed | NotExist | ListingFailed

  /** newestRotatedSiblingWithTail: a directory that cannot be listed is refused like an unreadable file. */
  method NewestRotatedSiblingWithTail(t: Trimmer, win: nat, files: seq<Bytes>, bad: set<nat>, listing: Listing)
    returns (r: Tail.Result<Bytes>)
    ensures listing.Listed? ==> r == NewestTail(t, win, files, bad)
    ensures listing.NotExist? ==> r == Tail.Result.Ok([])
    ensures listing.ListingFailed? ==> r == Tail.Result.Err(Probe)
  {
    hide ReadLastAuditLine;
    if listing.NotExist? { return Tail.Result.Ok([]); }
    if listing.ListingFailed? { return Tail.Result.Err(Probe); }
    var i := |files|;
    assert files[..i] == files;
    while i > 0
      invariant 0 <= i <= |files|
      invariant NewestTail(t, win, files, bad) == NewestTail(t, win, files[..i], bad)
    {
      i := i - 1;
      assert files[..i + 1][..i] == files[..i];
      if i in bad { return Tail.Result.Err(Probe); }
      var l := ReadLastAuditLine(t, files[i], files[i], win);
      if l.Err? || l.value != [] { return l; }
    }
    return Tail.Result.Ok([]);
  }

  /** tailFailure, and the parse failure reported beside it. */
  datatype TailFailure = ParseFailure | UnsignedTail | Undecodable | RewrittenTail | KeyUnknown | HmacMismatch

  datatype Resume = NewChain | Resumed(seq_: nat, hmac: Bytes) | Restarted(why: TailFailure)

  /** resumeChainFromTail: only a tail that verifies under a held key is chained onto. */
  function ResumeChainFromTail(v: Verifier, last: Bytes): (r: Resume) {
    if last == [] then NewChain
    else
      match v.c.lenient(last)
      case None => Restarted(ParseFailure)
      case Some((_, h)) =>
        if h == [] then Restarted(UnsignedTail)
        else
          match v.c.strict(last)
          case None => Restarted(Undecodable)
          case Some((r, hmac)) =>
            match v.VerifyDecoded(last, r, hmac)
            case Verified => Resumed(r.seq_, hmac)
            case UnknownKey => Restarted(KeyUnknown)
            case NonCanonical => Restarted(RewrittenTail)
            case _ => Restarted(HmacMismatch)
  }

  /** Nothing on disk seeds the head unless it verifies: a forged tail restarts the chain. */
  lemma ResumeOnlyVerified(v: Verifier, last: Bytes)
    ensures ResumeChainFromTail(v, last).Resumed? <==>
            && last != [] && v.c.lenient(last).Some? && v.c.lenient(last).value.1 != []
            && v.c.strict(last).Some?
            && v.Authentic(last, v.c.strict(last).value.0, v.c.strict(last).value.1)
  {
    hide Verifier.VerifyDecoded, Verifier.Authentic;
    if v.c.strict(last).Some? { VerifiedExact(v, last, v.c.strict(last).value.0, v.c.strict(last).value.1); }
  }

  /** And where it restarts the reason is the first check that fails. */
  lemma RestartReasons(v: Verifier, last: Bytes)
    ensures ResumeChainFromTail(v, last) == NewChain <==> last == []
    ensures ResumeChainFromTail(v, last) == Restarted(ParseFailure) <==> last != [] && v.c.lenient(last).None?
    ensures ResumeChainFromTail(v, last) == Restarted(UnsignedTail) <==>
              last != [] && v.c.lenient(last).Some? && v.c.lenient(last).value.1 == []
    ensures ResumeChainFromTail(v, last).Restarted? && v.c.lenient(last).Some? && v.c.lenient(last).value.1 != [] ==>
              if v.c.strict(last).None? then ResumeChainFromTail(v, last).why == Undecodable
              else
                var (r, h) := v.c.strict(last).value;
                && (ResumeChainFromTail(v, last).why == KeyUnknown <==> v.VerifyDecoded(last, r, h) == UnknownKey)
                && (ResumeChainFromTail(v, last).why == RewrittenTail <==> v.VerifyDecoded(last, r, h) == NonCanonical)
  {
    hide Verifier.VerifyDecoded;
  }

  /**
   What it seeds the head from is genuine: whatever line is found on disk, the seq and MAC taken
   over are those of a record this writer signed, and of that very record.
   */
  lemma ResumedIsGenuine(v: Verifier, rs: seq<Record>, last: Bytes)
    requires Honest(v, rs) && WhitespaceNeutral(v.c, last) && Unforged(v, rs, last)
    requires ResumeChainFromTail(v, last).Resumed?
    ensures var s := ResumeChainFromTail(v, last); 1 <= s.seq_ <= |rs| && s.hmac == v.c.hmac(rs[s.seq_ - 1])
    ensures v.c.trim.both(last) == v.c.line(rs[ResumeChainFromTail(v, last).seq_ - 1])
  {
    ResumeOnlyVerified(v, last);
    hide Honest, Unforged, WhitespaceNeutral, Verifier.VerifyDecoded, Verifier.Authentic;
    AuthenticIsGenuine(v, rs, last);
  }

  /** The line the chain resumes from, once the base's partial tail is gone. */
  function ResumeLine(v: Verifier, win: nat, d: Disk): (r: Tail.Result<Bytes>) {
    var last := LastRecord(v.c.trim, CompletePart(d.base));
    if last != [] then Tail.Result.Ok(last) else NewestLine(v.c.trim, win, d.siblings)
  }

  /** Seq and prev_hmac of the head the sink starts with; `seed` is the seq past the on-disk maximum. */
  function StartHead(v: Verifier, line: Tail.Result<Bytes>, seed: nat): (h: (nat, Bytes)) {
    match line
    case Err(_) => (seed, [])
    case Ok(last) =>
      match ResumeChainFromTail(v, last)
      case Resumed(n, hmac) => (n, hmac)
      case _ => (0, [])
  }

  ghost predicate Reopened(v: Verifier, win: nat, seed: nat, d: Disk, s: State) {
    && s.older == d.siblings && s.active == CompletePart(d.base) && s.orphan == 0 && !s.fallback
    && (s.head, s.prev) == StartHead(v, ResumeLine(v, win, d), seed)
  }

  /** What the siblings answer: a refusal where they cannot be listed, or the newest that matters not read. */
  function SiblingLine(v: Verifier, win: nat, d: Disk, bad: set<nat>, listing: Listing): Tail.Result<Bytes> {
    match listing
    case Listed => NewestTail(v.c.trim, win, d.siblings, bad)
    case NotExist => Tail.Result.Ok([])
    case ListingFailed => Tail.Result.Err(Probe)
  }

  predicate Unknown(v: Verifier, win: nat, d: Disk, bad: set<nat>, listing: Listing) {
    SiblingLine(v, win, d, bad, listing).Err?
  }

  /** The disk names the head: by the base's last record, or by siblings that could be read so far as it matters. */
  predicate Named(v: Verifier, win: nat, d: Disk, bad: set<nat>, listing: Listing) {
    || LastRecord(v.c.trim, CompletePart(d.base)) != []
    || (!Unknown(v, win, d, bad, listing) && (listing.NotExist? ==> d.siblings == []))
  }

  /** The line the chain is resumed from, given the base as recovery left it; the siblings' if that has none. */
  function OpenLine(v: Verifier, win: nat, d: Disk, readable: bool, bad: set<nat>, listing: Listing, env: Env,
                    active: Bytes): Tail.Result<Bytes>
  {
    var last := if readable then TailAnswer(v.c.trim, active, win) else [];
    if last != [] then Tail.Result.Ok(last)
    else if !readable && (d.base != [] || env.statFails) then Tail.Result.Err(Probe)
    else SiblingLine(v, win, d, bad, listing)
  }

  lemma NamedStart(v: Verifier, win: nat, seed: nat, d: Disk, readable: bool, bad: set<nat>, listing: Listing, env: Env,
                   s: State)
    requires v.c.trim.Lawful()
    requires var h := StartHead(v, OpenLine(v, win, d, readable, bad, listing, env, s.active), seed);
             s == State(d.siblings, s.active, 0, false, h.0, h.1)
    ensures var c := CompletePart(d.base);
            (readable || (d.base == [] && !env.statFails)) && (s.active == if readable then c else d.base)
              && Named(v, win, d, bad, listing) && TailAnswer(v.c.trim, c, win) == LastRecord(v.c.trim, c) ==>
              Reopened(v, win, seed, d, s)
  {
    hide LastRecord, TailAnswer, CompletePart, Named, StartHead, OpenLine, ResumeLine;
    assert CompletePart([]) == [] by { CompletePartOfConcat([], []); }
    if Named(v, win, d, bad, listing) && (readable || (d.base == [] && !env.statFails))
       && TailAnswer(v.c.trim, CompletePart(d.base), win) == LastRecord(v.c.trim, CompletePart(d.base)) {
      NamedLine(v, win, d, readable, bad, listing, env);
    }
  }

  /** recoverPartialTail: the base as it leaves it, its last line, and whether that could be read; None refuses. */
  method RecoverPartialTail(t: Trimmer, win: nat, base: Bytes, readable: bool, env: Env, retry: Env)
    returns (r: Option<(Bytes, Bytes, bool)>)
    requires t.Lawful() && win > 0
    ensures !readable ==> r == Some((base, [], base == [] && !env.statFails))
    ensures readable && r.Some? ==> WholeLines(r.value.0) && r.value.1 == TailAnswer(t, r.value.0, win) && r.value.2
    ensures readable && r.Some? && env.NoCuts() && retry.NoCuts() ==> r.value.0 == CompletePart(base)
    ensures readable && env.Quiet() ==> (r.Some? <==> Answers(t, base, win))
  {
    hide TailAnswer, Answers, CompletePart, Trimmer.Lawful;
    if !readable { return Some((base, [], base == [] && !env.statFails)); }
    var h := new LogHandle(base);
    var tail := h.TruncatePartialTail(t, win, env, retry, 0);
    if tail.Err? { return None; }
    return Some((h.data, tail.value.1, true));
  }

  /** resolveStartupResume: the base's own line; the siblings' where it has none; none where the tail is not known. */
  method ResolveStartupResume(v: Verifier, win: nat, d: Disk, known: bool, last: Bytes, bad: set<nat>, listing: Listing)
    returns (line: Tail.Result<Bytes>)
    ensures line == if !known then Tail.Result.Err(Probe)
                    else if last != [] then Tail.Result.Ok(last)
                    else SiblingLine(v, win, d, bad, listing)
  {
    hide NewestTail;
    if !known { return Tail.Result.Err(Probe); }
    if last != [] { return Tail.Result.Ok(last); }
    line := NewestRotatedSiblingWithTail(v.c.trim, win, d.siblings, bad, listing);
  }

  lemma NamedLine(v: Verifier, win: nat, d: Disk, readable: bool, bad: set<nat>, listing: Listing, env: Env)
    requires Named(v, win, d, bad, listing) && v.c.trim.Lawful() && (readable || (d.base == [] && !env.statFails))
    requires TailAnswer(v.c.trim, CompletePart(d.base), win) == LastRecord(v.c.trim, CompletePart(d.base))
    ensures OpenLine(v, win, d, readable, bad, listing, env, CompletePart(d.base)) == ResumeLine(v, win, d)
  {
    hide TailAnswer, LastRecord, CompletePart;
    CompletePartOfConcat([], []);
    assert [] + [] == CompletePart([]);
    LastRecordOfNothing(v.c.trim);
    if listing.Listed? && !Unknown(v, win, d, bad, listing) { NewestTailSame(v.c.trim, win, d.siblings, bad); }
  }

  lemma LastRecordOfNothing(t: Trimmer)
    requires t.Lawful()
    ensures LastRecord(t, []) == []
  {
    assert t.Trims([]);
    RecordStartBlank(t, []);
  }

  /**
   Open, as far as the chain is concerned: a sink, or a refusal to start. `readable` is false for a
   log that could only be opened for appending.
   */
  method Open(v: Verifier, win: nat, seed: nat, d: Disk, readable: bool, bad: set<nat>, listing: Listing,
              maxBytes: int, env: Env, retry: Env)
    returns (r: Option<Sink>)
    requires v.c.Valid() && win > 0
    ensures r.Some? ==> fresh(r.value)
    // A probe that cannot establish the tail never starts a sink on it.
    ensures r.Some? && readable ==> WholeLines(r.value.active)
    ensures r.Some? && readable && env.NoCuts() && retry.NoCuts() ==> r.value.active == CompletePart(d.base)
    ensures !readable ==> r.Some? && r.value.active == d.base
    // Whatever disturbed it, the head is the one that line names, or the seed.
    ensures r.Some? ==>
              var h := StartHead(v, OpenLine(v, win, d, readable, bad, listing, env, r.value.active), seed);
              r.value.Snap() == State(d.siblings, r.value.active, 0, false, h.0, h.1)
    // Undisturbed, it starts exactly when the probe answers, and then resumes from the line the whole
    // files name, if they can be read so far as they matter.
    ensures readable && env.Quiet() && retry.NoCuts() ==> (r.Some? <==> Answers(v.c.trim, d.base, win))
    ensures var c := CompletePart(d.base);
            (readable || d.base == []) && env.Quiet() && retry.NoCuts() && r.Some? && Named(v, win, d, bad, listing)
              && TailAnswer(v.c.trim, c, win) == LastRecord(v.c.trim, c) ==>
              Reopened(v, win, seed, d, r.value.Snap())
  {
    hide LastRecord, ReadLastAuditLine, ResumeChainFromTail, TailAnswer, Answers, CompletePart, Named, NewestTail,
         StartHead, ResumeLine;
    var tail := RecoverPartialTail(v.c.trim, win, d.base, readable, env, retry);
    if tail.None? { return None; }
    var (active, last, known) := tail.value;
    var line := ResolveStartupResume(v, win, d, known, last, bad, listing);
    assert line == OpenLine(v, win, d, readable, bad, listing, env, active);
    hide OpenLine, SiblingLine;
    var (n, hmac) := StartHead(v, line, seed);
    var s := new Sink(State(d.siblings, active, 0, false, n, hmac), maxBytes);
    NamedStart(v, win, seed, d, readable, bad, listing, env, s.Snap());
    return Some(s);
  }
}
