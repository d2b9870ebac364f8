/**
 Verifying a tape: per-record signatures and the chain across records
 (internal/audit/verify.go). What the pass accepts is stated on the lines themselves, by
 `Certified`, and against an honest chain, by `TamperEvident`.
 */
module Verify {
  import opened Wrappers
  import opened Bytes
  import opened Json
  import opened Records
  import opened Tail
  import opened Chain
  import Bodies

  datatype Verdict = Verified | Mismatch | UnknownKey | NoKeyTried | NonCanonical | Unsigned

  /**
   A verify-only sink: its decoders, its ring of key ids, whether it is the structure-only mode that
   holds no key at all, and the RFC 3339 time parser.
   */
  datatype Verifier = Verifier(c: Codec, ring: set<Bytes>, keyless: bool, timeOk: Bytes -> bool) {

    predicate HoldsKey(id: Bytes) { !keyless && id in ring }

    /** keysToTry: None for an id the ring does not hold. */
    function KeysToTry(id: Bytes): (keys: Option<set<Bytes>>) {
      if keyless then Some({})
      else if id == [] then Some(ring)
      else if id in ring then Some({id})
      else None
    }

    /** verifyDecodedRecord: canonical form first, then the keys the record may be checked against. */
    function VerifyDecoded(line: Bytes, r: Record, h: Bytes): (v: Verdict) {
      var body := Body(c.enc, r);
      if h == [] then Unsigned
      else if IsCanonicalSignedLine(c.enc, c.trim.both(line), body, h) != Json.Result<bool>.Ok(true) then NonCanonical
      else
        match KeysToTry(r.keyId)
        case None => UnknownKey
        case Some(keys) =>
          if exists k | k in keys :: c.mac(k, body) == h then Verified
          else if keys == {} then NoKeyTried
          else Mismatch
    }

    /**
     What a record must be to verify: on its line, in the bytes the writer emits for it, under a MAC
     that a held key computes over its body, the key it names if it names one.
     */
    predicate Authentic(line: Bytes, r: Record, h: Bytes) {
      && h != [] && !keyless
      && SignedRecordLine(c.enc, Body(c.enc, r), h) == Json.Result<Bytes>.Ok(c.trim.both(line))
      && exists k | k in ring :: (r.keyId == [] || r.keyId == k) && c.mac(k, Body(c.enc, r)) == h
    }

    /** A line nothing is wrong with, taken by itself. */
    predicate Accepts(line: Bytes) {
      var d := c.strict(line);
      && d.Some?
      && d.value.0.seq_ != 0
      && Authentic(line, d.value.0, d.value.1)
      && timeOk(d.value.0.time)
    }

    /** A line the chain may start with. */
    predicate Opens(line: Bytes) {
      var d := c.strict(line);
      d.Some? && (d.value.0.seq_ == 1 ==> d.value.0.prev == GENESIS)
    }

    /** b links onto a, and its seq is the next one (64-bit). */
    predicate Follows(a: Bytes, b: Bytes) {
      var d, e := c.strict(a), c.strict(b);
      && d.Some? && e.Some?
      && e.value.0.prev == d.value.1
      && e.value.0.seq_ == (d.value.0.seq_ + 1) % (UINT64_MAX + 1)
    }

    ghost predicate Certified(ls: seq<Bytes>) {
      && (forall i | 0 <= i < |ls| :: Accepts(ls[i]))
      && (ls != [] ==> Opens(ls[0]))
      && (forall i | 0 < i < |ls| :: Linked(ls, i))
    }

    predicate Linked(ls: seq<Bytes>, i: nat)
      requires 0 < i < |ls|
    {
      Follows(ls[i - 1], ls[i])
    }
  }

  /** A record verifies exactly when it is authentic; what else is found says which part fails. */
  lemma VerdictExact(v: Verifier, line: Bytes, r: Record, h: Bytes)
    ensures v.VerifyDecoded(line, r, h) == Verified <==> v.Authentic(line, r, h)
    ensures v.VerifyDecoded(line, r, h) == Unsigned <==> h == []
    ensures v.VerifyDecoded(line, r, h) == NonCanonical <==>
              h != [] && SignedRecordLine(v.c.enc, Body(v.c.enc, r), h) != Json.Result<Bytes>.Ok(v.c.trim.both(line))
    ensures var canonical := h != [] && SignedRecordLine(v.c.enc, Body(v.c.enc, r), h) ==
                                          Json.Result<Bytes>.Ok(v.c.trim.both(line));
            && (v.VerifyDecoded(line, r, h) == UnknownKey <==>
                  canonical && !v.keyless && r.keyId != [] && r.keyId !in v.ring)
            && (v.VerifyDecoded(line, r, h) == NoKeyTried <==>
                  canonical && (v.keyless || (r.keyId == [] && v.ring == {})))
    ensures v.VerifyDecoded(line, r, h) == Mismatch ==>
              forall k | k in v.ring && (r.keyId == [] || r.keyId == k) :: v.c.mac(k, Body(v.c.enc, r)) != h
  {
    hide Body, IsCanonicalSignedLine, SignedRecordLine;
    var body := Body(v.c.enc, r);
    CanonicalExact(v.c.enc, v.c.trim.both(line), body, h);
    assert r.keyId in v.ring && v.c.mac(r.keyId, body) == h ==> exists k | k in {r.keyId} :: v.c.mac(k, body) == h;
  }

  lemma VerifiedExact(v: Verifier, line: Bytes, r: Record, h: Bytes)
    ensures v.VerifyDecoded(line, r, h) == Verified <==> v.Authentic(line, r, h)
  {
    VerdictExact(v, line, r, h);
  }

  lemma CertifiedAppend(v: Verifier, ls: seq<Bytes>, l: Bytes)
    ensures v.Certified(ls + [l]) <==>
            && v.Certified(ls) && v.Accepts(l)
            && if ls == [] then v.Opens(l) else v.Follows(ls[|ls| - 1], l)
  {
    hide Verifier.Accepts, Verifier.Opens, Verifier.Follows;
    var all := ls + [l];
    assert forall i | 0 <= i < |ls| :: all[i] == ls[i];
    assert all[|ls|] == l;
    assert forall i | 0 < i < |ls| :: v.Linked(all, i) == v.Linked(ls, i);
    assert ls != [] ==> v.Linked(all, |ls|) == v.Follows(ls[|ls| - 1], l);
    assert v.Certified(all) ==> forall i | 0 <= i < |ls| :: v.Accepts(all[i]) == v.Accepts(ls[i]);
  }

  // ------------------------------------------------------------------ the pass

  class ChainVerifier {
    const v: Verifier
    // VerifyResult
    var total: nat
    var valid: nat
    var invalid: nat
    var unknownKey: nat
    var unverifiable: nat
    var chainBreaks: nat
    var firstSeq: nat
    var firstVerifiedSeq: nat
    // the chain anchor
    var havePrev: bool
    var prevHmac: Bytes
    var prevSeq: nat
    var prevRecordInvalid: bool

    constructor (v: Verifier)
      ensures this.v == v && Ok() && Anchored([])
    {
      this.v := v;
      total, valid, invalid, unknownKey, unverifiable, chainBreaks := 0, 0, 0, 0, 0, 0;
      firstSeq, firstVerifiedSeq, havePrev, prevHmac, prevSeq, prevRecordInvalid := 0, 0, false, [], 0, false;
    }

    /** VerifyResult.OK. */
    predicate Ok()
      reads this
    {
      invalid == 0 && chainBreaks == 0 && unknownKey == 0 && unverifiable == 0
    }

    /** The anchor is the last of the lines read so far. */
    ghost predicate Anchored(ls: seq<Bytes>)
      reads this
    {
      && !prevRecordInvalid
      && (havePrev <==> ls != [])
      && (ls != [] ==>
            var d := v.c.strict(ls[|ls| - 1]);
            d.Some? && prevHmac == d.value.1 && prevSeq == d.value.0.seq_)
    }

    /** updateChain. */
    method UpdateChain(r: Record, h: Bytes)
      modifies this
      ensures chainBreaks >= old(chainBreaks)
      ensures !old(prevRecordInvalid) ==>
                (chainBreaks == old(chainBreaks) <==>
                 if old(havePrev) then r.prev == old(prevHmac) && r.seq_ == (old(prevSeq) + 1) % (UINT64_MAX + 1)
                 else r.seq_ == 1 ==> r.prev == GENESIS)
      ensures havePrev && prevHmac == h && prevSeq == r.seq_
      ensures !old(prevRecordInvalid) ==> !prevRecordInvalid
      ensures unchanged(`total, `valid, `invalid, `unknownKey, `unverifiable, `firstVerifiedSeq)
      ensures firstSeq == if old(havePrev) then old(firstSeq) else r.seq_
    {
      if !havePrev {
        firstSeq := r.seq_;
        if r.seq_ == 1 && r.prev != GENESIS { chainBreaks := chainBreaks + 1; }
      } else {
        if prevRecordInvalid {
          chainBreaks := chainBreaks + 1;
          prevRecordInvalid := false;
        }
        if r.prev != prevHmac { chainBreaks := chainBreaks + 1; }
        if r.seq_ != (prevSeq + 1) % (UINT64_MAX + 1) { chainBreaks := chainBreaks + 1; }
      }
      havePrev, prevHmac, prevSeq := true, h, r.seq_;
    }

    /** classify, for a signed, decodable record. */
    method Classify(line: Bytes, r: Record, h: Bytes, strictOk: bool)
      modifies this
      ensures invalid >= old(invalid) && unknownKey >= old(unknownKey) && unverifiable >= old(unverifiable)
      ensures unchanged(`total, `chainBreaks, `havePrev, `prevHmac, `prevSeq, `firstSeq)
      ensures var fine := strictOk && v.Authentic(line, r, h) && v.timeOk(r.time);
              && (fine <==> invalid + unknownKey + unverifiable == old(invalid + unknownKey + unverifiable))
              && (fine ==> prevRecordInvalid == old(prevRecordInvalid) && valid == old(valid) + 1)
      ensures unknownKey == old(unknownKey) + if strictOk && v.VerifyDecoded(line, r, h) == UnknownKey then 1 else 0
      ensures unverifiable == old(unverifiable) + if strictOk && v.VerifyDecoded(line, r, h) == NoKeyTried then 1 else 0
      ensures var first := old(firstVerifiedSeq);
              firstVerifiedSeq ==
                if strictOk && v.Authentic(line, r, h) && (first == 0 || r.seq_ < first)
                then r.seq_ else first
    {
      hide Verifier.VerifyDecoded, Verifier.Authentic;
      VerifiedExact(v, line, r, h);
      if !strictOk {
        invalid := invalid + 1;
        prevRecordInvalid := true;
        return;
      }
      var verdict := v.VerifyDecoded(line, r, h);
      if verdict == Verified && (firstVerifiedSeq == 0 || r.seq_ < firstVerifiedSeq) { firstVerifiedSeq := r.seq_; }
      match verdict {
        case UnknownKey => unknownKey := unknownKey + 1;
        case NoKeyTried => unverifiable := unverifiable + 1;
        case Verified =>
          if v.timeOk(r.time) { valid := valid + 1; } else { invalid := invalid + 1; }
        case _ =>
          invalid := invalid + 1;
          prevRecordInvalid := true;
      }
    }

    /** processLine. */
    method ProcessLine(line: Bytes, ghost seen: seq<Bytes>)
      requires Ok() ==> Anchored(seen)
      modifies this
      ensures Ok() <==>
                && old(Ok()) && v.Accepts(line)
                && if seen == [] then v.Opens(line) else v.Follows(seen[|seen| - 1], line)
      ensures Ok() ==> Anchored(seen + [line])
      ensures total == old(total) + 1
    {
      hide Verifier.Authentic, Verifier.VerifyDecoded;
      total := total + 1;
      var strict := v.c.strict(line);
      var d := if strict.Some? then strict else v.c.lenient(line);
      if d.None? {
        invalid := invalid + 1;
        return;
      }
      var (r, h) := d.value;
      var unsigned := h == [];
      var forgedSeq0 := r.seq_ == 0 && !unsigned;
      if forgedSeq0 || unsigned {
        assert !v.Authentic(line, r, []) by { UnsignedNeverVerifies(v, line, r); }
        invalid := invalid + 1;
        return;
      }
      UpdateChain(r, h);
      Classify(line, r, h, strict.Some?);
    }
  }

  lemma UnsignedNeverVerifies(v: Verifier, line: Bytes, r: Record)
    ensures !v.Authentic(line, r, [])
  {
  }

  // ------------------------------------------------------------------ from bytes to lines

  function DropCR(l: Bytes): Bytes {
    if l != [] && l[|l| - 1] == 13 then l[..|l| - 1] else l
  }

  /** The lines a pass processes: complete, without their carriage return, blank ones skipped. */
  function Tokens(t: Trimmer, ls: seq<Bytes>): (ts: seq<Bytes>) {
    if ls == [] then []
    else
      var init, l := Tokens(t, ls[..|ls| - 1]), DropCR(ls[|ls| - 1]);
      if t.Blank(l) then init else init + [l]
  }

  lemma TokensStep(t: Trimmer, ls: seq<Bytes>, i: nat)
    requires i < |ls|
    ensures var l := DropCR(ls[i]);
            Tokens(t, ls[..i + 1]) == Tokens(t, ls[..i]) + if t.Blank(l) then [] else [l]
  {
    assert ls[..i + 1][..i] == ls[..i];
  }

  /** A carriage return before the newline is no part of a line: saved either way a tape is read the same. */
  lemma {:induction false} CarriageReturnsDropped(t: Trimmer, ls: seq<Bytes>, crs: seq<Bytes>)
    requires |ls| == |crs| && forall i | 0 <= i < |ls| :: crs[i] == ls[i] + [13]
    requires forall i | 0 <= i < |ls| :: ls[i] == [] || ls[i][|ls[i]| - 1] != 13
    ensures Tokens(t, crs) == Tokens(t, ls)
    decreases |ls|
  {
    if ls != [] {
      var n := |ls| - 1;
      CarriageReturnsDropped(t, ls[..n], crs[..n]);
      assert crs[n][..|crs[n]| - 1] == ls[n];
    }
  }

  lemma TokensNone(t: Trimmer, ls: seq<Bytes>)
    ensures Tokens(t, ls[..0]) == []
  {
  }

  /** The scanner's buffer holds every line and its newline. */
  predicate Scannable(ls: seq<Bytes>) {
    forall i | 0 <= i < |ls| :: |ls[i]| < SCAN_WINDOW
  }

  /**
   VerifyLog over one stream: the verdict on the lines it got to, whether an over-long line stopped
   it, and whether a torn last line withheld the verdict.
   */
  method VerifyLog(v: Verifier, stream: Bytes) returns (ok: bool, aborted: bool, torn: bool)
    ensures var ls, tail := CompleteLines(stream), stream[LastNewline(stream) + 1..];
            && (aborted <==> !Scannable(ls) || |tail| >= SCAN_WINDOW)
            && (Scannable(ls) ==> (ok <==> v.Certified(Tokens(v.c.trim, ls))))
            && (torn <==> !aborted && !v.c.trim.Blank(tail))
    // Before an over-long line everything is judged as usual.
    ensures var ls := CompleteLines(stream);
            !Scannable(ls) ==> exists n | 0 <= n < |ls| ::
              Scannable(ls[..n]) && |ls[n]| >= SCAN_WINDOW && (ok <==> v.Certified(Tokens(v.c.trim, ls[..n])))
  {
    hide Verifier.Accepts, Verifier.Opens, Verifier.Follows, Verifier.Authentic, CompleteLines, Tokens, DropCR,
         Verifier.Certified;
    TokensNone(v.c.trim, CompleteLines(stream));
    NothingCertified(v);
    var pass := new ChainVerifier(v);
    var ls, i := CompleteLines(stream), 0;
    ghost var seen: seq<Bytes> := [];
    while i < |ls|
      invariant 0 <= i <= |ls| && Scannable(ls[..i])
      invariant fresh(pass) && pass.v == v
      invariant seen == Tokens(v.c.trim, ls[..i])
      invariant pass.Ok() <==> v.Certified(seen)
      invariant pass.Ok() ==> pass.Anchored(seen)
    {
      if |ls[i]| >= SCAN_WINDOW { return pass.Ok(), true, false; }
      var l := DropCR(ls[i]);
      TokensStep(v.c.trim, ls, i);
      if !v.c.trim.Blank(l) {
        CertifiedAppend(v, seen, l);
        pass.ProcessLine(l, seen);
        seen := seen + [l];
      }
      assert ls[..i + 1] == ls[..i] + [ls[i]];
      i := i + 1;
    }
    assert ls[..i] == ls;
    var tail := stream[LastNewline(stream) + 1..];
    aborted := |tail| >= SCAN_WINDOW;
    return pass.Ok(), aborted, !aborted && !v.c.trim.Blank(tail);
  }

  lemma NothingCertified(v: Verifier)
    ensures v.Certified([])
  {
  }

  // ------------------------------------------------------------------ against an honest chain

  /** The chain a writer signed: every key is in the ring and every time parses. */
  ghost predicate Honest(v: Verifier, rs: seq<Record>) {
    && v.c.Valid() && Chained(v.c, rs) && |rs| <= UINT64_MAX
    && (forall i | 0 <= i < |rs| :: rs[i].keyId != [] && v.HoldsKey(rs[i].keyId) && v.timeOk(rs[i].time))
  }

  /** A genuine line decodes to its record and is accepted. */
  lemma HonestAccepted(v: Verifier, rs: seq<Record>, i: nat)
    requires Honest(v, rs) && i < |rs|
    ensures v.c.strict(v.c.line(rs[i])) == Some((rs[i], v.c.hmac(rs[i])))
    ensures v.Accepts(v.c.line(rs[i]))
  {
    hide Bounded, Body, SignedRecordLine, IsCanonicalSignedLine;
    var r := rs[i];
    var line := v.c.line(r);
    assert v.c.Sound(r) && v.c.Signs(r);
    LineShape(v.c, r);
    assert v.c.trim.Trims(line);
  }

  lemma HonestFollows(v: Verifier, rs: seq<Record>, i: nat)
    requires Honest(v, rs) && 0 < i < |rs|
    ensures v.Follows(v.c.line(rs[i - 1]), v.c.line(rs[i]))
  {
    hide Bounded, Verifier.Accepts;
    HonestAccepted(v, rs, i - 1);
    HonestAccepted(v, rs, i);
    assert rs[..i][i - 1] == rs[i - 1];
  }

  lemma HonestOpens(v: Verifier, rs: seq<Record>, i: nat)
    requires Honest(v, rs) && i < |rs|
    ensures v.Opens(v.c.line(rs[i]))
  {
    hide Bounded, Verifier.Accepts;
    HonestAccepted(v, rs, i);
    assert rs[..0] == [];
  }

  /** Completeness: any contiguous part of an honest chain is certified. */
  lemma SegmentCertified(v: Verifier, rs: seq<Record>, a: nat, b: nat)
    requires Honest(v, rs) && a <= b <= |rs|
    ensures v.Certified(Lines(v.c, rs[a..b]))
  {
    hide Honest, Verifier.Accepts, Verifier.Follows, Verifier.Opens;
    var ls := Lines(v.c, rs[a..b]);
    forall i | 0 <= i < |ls| ensures v.Accepts(ls[i]) {
      HonestAccepted(v, rs, a + i);
    }
    forall i | 0 < i < |ls| ensures v.Linked(ls, i) {
      HonestFollows(v, rs, a + i);
    }
    if ls != [] { HonestOpens(v, rs, a); }
  }

  /** The writer signed that body, with that MAC. */
  ghost predicate Signed(v: Verifier, rs: seq<Record>, r: Record, h: Bytes) {
    exists j | 0 <= j < |rs| :: Body(v.c.enc, rs[j]) == Body(v.c.enc, r) && v.c.hmac(rs[j]) == h
  }

  /** And so, the bytes telling the record, the record itself. */
  lemma SignedIsRecord(v: Verifier, rs: seq<Record>, r: Record, h: Bytes)
    requires Signed(v, rs, r, h) && Bodies.PrefixFree(v.c.enc)
    requires forall j | 0 <= j < |rs| :: Bodies.Apart(rs[j].details, r.details)
    ensures exists j | 0 <= j < |rs| :: rs[j] == r && v.c.hmac(rs[j]) == h
  {
    hide Body, Bodies.PrefixFree, Bodies.Apart;
    var j :| 0 <= j < |rs| && Body(v.c.enc, rs[j]) == Body(v.c.enc, r) && v.c.hmac(rs[j]) == h;
    Bodies.BodyInjective(v.c.enc, rs[j], r);
  }

  /**
   Without the keys the MAC a held key computes over a body is known only where the writer signed
   that body. It speaks of the MAC a line carries, whatever a verifier makes of the line.
   */
  ghost predicate Unforged(v: Verifier, rs: seq<Record>, line: Bytes) {
    v.c.strict(line).Some? ==>
      var (r, h) := v.c.strict(line).value;
      forall k | k in v.ring && h == v.c.mac(k, Body(v.c.enc, r)) :: Signed(v, rs, r, h)
  }

  lemma AuthenticIsSigned(v: Verifier, rs: seq<Record>, line: Bytes)
    requires v.c.strict(line).Some? && Unforged(v, rs, line)
    requires v.Authentic(line, v.c.strict(line).value.0, v.c.strict(line).value.1)
    ensures Signed(v, rs, v.c.strict(line).value.0, v.c.strict(line).value.1)
  {
    hide Body, SignedRecordLine, Signed;
  }

  /** White space around an object does not change what it decodes to. */
  ghost predicate WhitespaceNeutral(c: Codec, line: Bytes) {
    c.strict(line).Some? ==> c.strict(c.trim.both(line)) == c.strict(line)
  }

  /** An authentic line is, up to surrounding white space, one the writer wrote. */
  lemma AuthenticIsGenuine(v: Verifier, rs: seq<Record>, line: Bytes)
    requires Honest(v, rs) && v.c.strict(line).Some? && WhitespaceNeutral(v.c, line) && Unforged(v, rs, line)
    requires v.Authentic(line, v.c.strict(line).value.0, v.c.strict(line).value.1)
    ensures var r := v.c.strict(line).value.0;
            1 <= r.seq_ <= |rs| && r == rs[r.seq_ - 1] && v.c.trim.both(line) == v.c.line(r)
    ensures v.c.strict(line).value.1 == v.c.hmac(v.c.strict(line).value.0)
  {
    hide Bounded, Body, SignedRecordLine, Unforged;
    var (r, h) := v.c.strict(line).value;
    AuthenticIsSigned(v, rs, line);
    var j :| 0 <= j < |rs| && Body(v.c.enc, rs[j]) == Body(v.c.enc, r) && v.c.hmac(rs[j]) == h;
    assert v.c.Signs(rs[j]);
    assert v.c.trim.both(line) == v.c.line(rs[j]);
    HonestAccepted(v, rs, j);
  }

  /** An accepted line is, up to surrounding white space, a line the writer wrote, at its own seq. */
  lemma AcceptedIsGenuine(v: Verifier, rs: seq<Record>, line: Bytes)
    requires Honest(v, rs) && v.Accepts(line) && Unforged(v, rs, line) && WhitespaceNeutral(v.c, line)
    ensures var r := v.c.strict(line).value.0;
            1 <= r.seq_ <= |rs| && r == rs[r.seq_ - 1] && v.c.trim.both(line) == v.c.line(r)
  {
    hide Honest, Unforged, Verifier.Authentic;
    AuthenticIsGenuine(v, rs, line);
  }

  lemma GenuineNext(v: Verifier, rs: seq<Record>, x: Bytes, y: Bytes)
    requires Honest(v, rs) && v.Follows(x, y) && v.c.strict(x).value.0.seq_ <= |rs|
    requires v.Accepts(y) && Unforged(v, rs, y) && WhitespaceNeutral(v.c, y)
    ensures v.c.strict(y).Some?
    ensures var r := v.c.strict(y).value.0;
            && r.seq_ == v.c.strict(x).value.0.seq_ + 1 <= |rs|
            && v.c.trim.both(y) == v.c.line(rs[r.seq_ - 1])
  {
    hide Bounded, Verifier.Accepts, Unforged, WhitespaceNeutral, Chained;
    AcceptedIsGenuine(v, rs, y);
  }

  /**
   Tamper evidence: a tape the pass certifies is a contiguous part of the chain the writer
   signed. Any deletion inside it, insertion, reordering, duplication or edit is rejected; what
   it starts at is the seq its first record proves.
   */
  lemma TamperEvident(v: Verifier, rs: seq<Record>, ls: seq<Bytes>) returns (a: nat)
    requires Honest(v, rs) && v.Certified(ls)
    requires forall i | 0 <= i < |ls| :: Unforged(v, rs, ls[i]) && WhitespaceNeutral(v.c, ls[i])
    ensures a + |ls| <= |rs|
    ensures forall i | 0 <= i < |ls| :: v.c.trim.both(ls[i]) == v.c.line(rs[a + i])
    ensures ls != [] ==> v.c.strict(ls[0]).Some? && v.c.strict(ls[0]).value.0.seq_ == a + 1
  {
    hide Honest, Verifier.Accepts, Unforged, WhitespaceNeutral, Verifier.Follows;
    if ls == [] { return 0; }
    AcceptedIsGenuine(v, rs, ls[0]);
    a := v.c.strict(ls[0]).value.0.seq_ - 1;
    var n := 1;
    while n < |ls|
      invariant 1 <= n <= |ls| && a + n <= |rs|
      invariant forall i | 0 <= i < n :: v.c.trim.both(ls[i]) == v.c.line(rs[a + i])
      invariant v.c.strict(ls[n - 1]).Some? && v.c.strict(ls[n - 1]).value.0.seq_ == a + n
    {
      assert v.Linked(ls, n);
      GenuineNext(v, rs, ls[n - 1], ls[n]);
      n := n + 1;
    }
  }

  /** The stream of a chain's own lines, end to end. */
  lemma HonestStream(v: Verifier, rs: seq<Record>, a: nat, b: nat)
    requires Honest(v, rs) && a <= b <= |rs|
    ensures v.Certified(Tokens(v.c.trim, CompleteLines(Render(v.c, rs[a..b]))))
    ensures Scannable(CompleteLines(Render(v.c, rs[a..b])))
  {
    hide Bounded, Verifier.Certified;
    var part := rs[a..b];
    forall i | 0 <= i < |part| ensures RecordLine(v.c.line(part[i])) && |v.c.line(part[i])| < SCAN_WINDOW {
      LineShape(v.c, part[i]);
    }
    assert Render(v.c, part) + [] == Render(v.c, part);
    CompleteLinesOfRender(v.c, part, []);
    TokensOfLines(v.c.trim, Lines(v.c, part));
    SegmentCertified(v, rs, a, b);
  }

  lemma {:induction false} TokensOfLines(t: Trimmer, ls: seq<Bytes>)
    requires t.Lawful() && forall i | 0 <= i < |ls| :: RecordLine(ls[i])
    ensures Tokens(t, ls) == ls
    decreases |ls|
  {
    if ls != [] {
      TokensOfLines(t, ls[..|ls| - 1]);
      assert t.Trims(ls[|ls| - 1]);
    }
  }
}
