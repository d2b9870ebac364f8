/**
 The chain writer under I/O faults: writeRecord, repairTailOrphan, rotate and Open
 (internal/audit/audit.go, internal/audit/rotate.go, internal/audit/resume.go).

 Every outcome of a system call is a parameter, so each method is stated for all of them.
 */
module Sink {
  import opened Bytes
  import opened Json
  import opened Records
  import opened Chain

  /** What the writer holds: rotated files oldest first, the file it appends to, and the chain head. */
  datatype State = State(older: seq<Bytes>, active: Bytes, orphan: nat, fallback: bool, head: nat, prev: Bytes)

  /** The active file without the unterminated bytes a failed write left at its end. */
  function Clean(s: State): Bytes
    requires s.orphan <= |s.active|
  {
    s.active[..|s.active| - s.orphan]
  }

  /** The record p becomes when it is written next. */
  function Stamp(s: State, p: Record): Record {
    p.(seq_ := s.head + 1, prev := if s.prev != [] then s.prev else GENESIS)
  }

  /**
   All that one writeRecord call may do. It refuses and changes nothing, as it always does at the
   64-bit ceiling; or it starts from the clean end of the file, possibly after moving that whole
   file to the rotated ones, and either appends one line and advances the head, or leaves `orphan`
   bytes of that line and the old head.
   */
  ghost predicate WriteStep(c: Codec, s: State, p: Record, s': State)
    requires s.orphan <= |s.active|
  {
    || s' == s
    || (&& s.head < UINT64_MAX
        && AppendStep(s.(active := Clean(s), orphan := 0), c.line(Stamp(s, p)) + [NL], c.hmac(Stamp(s, p)), s'))
  }

  /** The second half of that: `out` is appended to a clean file. */
  ghost predicate AppendStep(s: State, out: Bytes, hmac: Bytes, s': State) {
    var base := if |s'.older| > |s.older| then [] else s.active;
    && (|| (s'.older == s.older && (s.fallback ==> s'.fallback))
        || (s'.older == s.older + [s.active] && !s'.fallback))
    && s'.orphan <= |out|
    && (|| (s'.orphan == 0 && s'.active == base + out && s'.head == s.head + 1 && s'.prev == hmac)
        || (s'.active == base + out[..s'.orphan] && s'.head == s.head && s'.prev == s.prev))
  }

  lemma RefusalIsStep(c: Codec, s: State, p: Record)
    requires s.orphan <= |s.active|
    ensures WriteStep(c, s, p, s) && (s.orphan == 0 ==> Clean(s) == s.active)
  {
  }

  lemma AppendIsStep(c: Codec, s: State, p: Record, s': State)
    requires s.orphan <= |s.active| && s.head < UINT64_MAX
    requires AppendStep(s.(active := Clean(s), orphan := 0), c.line(Stamp(s, p)) + [NL], c.hmac(Stamp(s, p)), s')
    ensures WriteStep(c, s, p, s')
  {
  }

  // ------------------------------------------------------------------ fault outcomes

  datatype RepairIo = RepairIo(statFails: bool, truncateFails: bool) {
    predicate Ok() { !statFails && !truncateFails }
  }

  datatype RotateIo = RotateIo(pathFails: bool, renameFails: bool, syncFails: bool, reopenFails: bool,
                               closeFails: bool)
  {
    predicate Faulty() { pathFails || renameFails || syncFails || reopenFails }
  }

  /** n bytes of the line land; a write that reports no error lands all of it. */
  datatype WriteIo = WriteIo(marshalFails: bool, before: RepairIo, rotate: RotateIo,
                             writeFails: bool, landed: nat, after: RepairIo)

  /** rotateBackoffWritten. */
  function Backoff(maxBytes: int): int {
    if maxBytes <= 0 then 0
    else
      var headroom := maxBytes / 10;
      maxBytes - if headroom < 1 then 1 else headroom
  }

  /**
   Whether rotating counts a write failure of its own: its fsync failed, or closing the old
   file did after the swap.
   */
  predicate RotationCounts(fallback: bool, written: int, e: RotateIo) {
    && (fallback || (written != 0 && !e.pathFails && !e.renameFails))
    && (e.syncFails || (!e.reopenFails && e.closeFails))
  }

  /** Whether rotating ends with a fresh base. */
  predicate Rotates(fallback: bool, written: int, e: RotateIo) {
    (fallback || (written != 0 && !e.pathFails && !e.renameFails)) && !e.syncFails && !e.reopenFails
  }

  // ------------------------------------------------------------------ the sink

  class Sink {
    var seq_: nat
    var prevHmac: Bytes
    var written: int
    const maxBytes: int
    var tailOrphanBytes: nat
    var writeFailures: nat
    var inFallback: bool
    var older: seq<Bytes>
    var active: Bytes

    constructor (s: State, maxBytes: int)
      ensures Snap() == s && this.maxBytes == maxBytes && writeFailures == 0 && written == |s.active|
    {
      older, active, tailOrphanBytes, inFallback := s.older, s.active, s.orphan, s.fallback;
      seq_, prevHmac := s.head, s.prev;
      this.maxBytes := maxBytes;
      written, writeFailures := |s.active|, 0;
    }

    ghost function Snap(): State
      reads this
    {
      State(older, active, tailOrphanBytes, inFallback, seq_, prevHmac)
    }

    predicate InRange()
      reads this
    {
      tailOrphanBytes <= |active| && seq_ <= UINT64_MAX
    }

    /** repairTailOrphan: cuts exactly the pending orphan, or changes nothing. */
    method RepairTailOrphan(e: RepairIo) returns (ok: bool)
      requires InRange()
      modifies this
      ensures ok <==> e.Ok()
      ensures ok ==> Snap() == old(Snap().(active := Clean(Snap()), orphan := 0))
      ensures ok ==> written == old(written - tailOrphanBytes)
      ensures !ok ==> Snap() == old(Snap()) && written == old(written)
      ensures writeFailures == old(writeFailures)
    {
      if e.statFails || |active| < tailOrphanBytes { return false; }
      if e.truncateFails { return false; }
      active := active[..|active| - tailOrphanBytes];
      written := written - tailOrphanBytes;
      tailOrphanBytes := 0;
      return true;
    }

    /** swapToFreshBase: the active file joins the rotated ones and an empty one takes its place. */
    method SwapToFreshBase(closeFails: bool)
      modifies this
      ensures Snap() == old(Snap().(older := older + [active], active := []))
      ensures written == 0 && writeFailures == old(writeFailures) + if closeFails then 1 else 0
    {
      if closeFails { writeFailures := writeFailures + 1; }
      older, active, written := older + [active], [], 0;
    }

    /** rotateAttempt and retryRotateReopen: the head is never touched, and no byte is lost. */
    method Rotate(e: RotateIo)
      requires tailOrphanBytes == 0
      modifies this
      ensures Snap() == old(Snap()).(older := older, active := active, fallback := inFallback)
      ensures if Rotates(old(inFallback), old(written), e)
              then older == old(older) + [old(active)] && active == [] && !inFallback && written == 0
              else older == old(older) && active == old(active)
      // Once renamed the file stays in use, and only reopening is tried again.
      ensures !Rotates(old(inFallback), old(written), e) ==>
                inFallback == (old(inFallback) || (old(written) != 0 && !e.pathFails && !e.renameFails))
      ensures !Rotates(old(inFallback), old(written), e) ==>
                written == if !old(inFallback) && old(written) == 0 then 0 else Backoff(maxBytes)
      ensures writeFailures == old(writeFailures) + if RotationCounts(old(inFallback), old(written), e) then 1 else 0
    {
      if inFallback {
        if e.syncFails {
          writeFailures := writeFailures + 1;
          written := Backoff(maxBytes);
          return;
        }
        if e.reopenFails {
          written := Backoff(maxBytes);
          return;
        }
        inFallback := false;
        SwapToFreshBase(e.closeFails);
        return;
      }
      if written == 0 { return; }
      if e.pathFails || e.renameFails {
        written := Backoff(maxBytes);
        return;
      }
      if e.syncFails {
        writeFailures := writeFailures + 1;
        inFallback := true;
        written := Backoff(maxBytes);
        return;
      }
      if e.reopenFails {
        inFallback := true;
        written := Backoff(maxBytes);
        return;
      }
      SwapToFreshBase(e.closeFails);
    }

    /** Serialize without the MAC, sign, splice the MAC in, terminate the line. */
    static method Sign(c: Codec, r: Record) returns (line: Bytes, hmac: Bytes)
      requires c.Valid()
      ensures line == c.line(r) + [NL] && hmac == c.hmac(r)
    {
      hide Body, SignedRecordLine;
      var body := Body(c.enc, r);
      hmac := c.mac(r.keyId, body);
      assert c.Signs(r);
      var signed := SignedRecordLine(c.enc, body, hmac);
      line := signed.value + [NL];
    }

    /** The call gets as far as the write itself. */
    predicate ReachesWrite(io: WriteIo)
      reads this
    {
      seq_ != UINT64_MAX && !io.marshalFails && (tailOrphanBytes == 0 || io.before.Ok())
    }

    /** The call reaches a rotation that counts a failure of its own. */
    ghost predicate CountsRotation(c: Codec, p: Record, io: WriteIo)
      reads this
      requires InRange()
    {
      var clean := written - tailOrphanBytes;
      && ReachesWrite(io)
      && clean + |c.line(Stamp(Snap(), p))| + 1 > maxBytes
      && RotationCounts(inFallback, clean, io.rotate)
    }

    /** The call reaches the size cap, and a rotation that succeeds. */
    ghost predicate Rotating(c: Codec, p: Record, io: WriteIo)
      reads this
      requires InRange()
    {
      var clean := written - tailOrphanBytes;
      && ReachesWrite(io)
      && clean + |c.line(Stamp(Snap(), p))| + 1 > maxBytes
      && Rotates(inFallback, clean, io.rotate)
    }

    /** writeRecord. */
    method WriteRecord(c: Codec, p: Record, io: WriteIo)
      requires c.Valid() && InRange()
      modifies this
      ensures InRange()
      ensures WriteStep(c, old(Snap()), p, Snap())
      // The head advances exactly when nothing that can fail did.
      ensures seq_ == old(seq_) + 1 <==> old(ReachesWrite(io)) && !io.writeFails
      ensures seq_ == old(seq_) || seq_ == old(seq_) + 1
      // One advance or one failure a call, and one failure more exactly for a failed rotation.
      ensures (seq_ - old(seq_)) + (writeFailures - old(writeFailures)) ==
              1 + if old(CountsRotation(c, p, io)) then 1 else 0
      // The file is rotated exactly when the line would not fit and nothing stands in the way.
      ensures |older| > old(|older|) <==> old(Rotating(c, p, io))
      // So where rotation works a file passes the cap only as a single line.
      ensures && old(written == |active| && tailOrphanBytes == 0 && !inFallback) && seq_ > old(seq_)
              && !io.rotate.Faulty() ==>
                written == |active| && (|active| <= maxBytes || active == c.line(Stamp(old(Snap()), p)) + [NL])
      // Nothing is appended or rotated while an orphan is pending.
      ensures old(tailOrphanBytes) > 0 && !io.before.Ok() ==> Snap() == old(Snap())
    {
      hide AppendStep, RotationCounts, Rotates, RotateIo.Faulty, Codec.Valid, WriteStep, Clean;
      ghost var s0 := Snap();
      RefusalIsStep(c, s0, p);
      if seq_ == UINT64_MAX {
        writeFailures := writeFailures + 1;
        return;
      }
      var r := p.(seq_ := seq_ + 1, prev := if prevHmac != [] then prevHmac else GENESIS);
      assert r == Stamp(s0, p);
      hide Stamp;
      if io.marshalFails {
        writeFailures := writeFailures + 1;
        return;
      }
      var line, hmac := Sign(c, r);
      if tailOrphanBytes > 0 {
        var repaired := RepairTailOrphan(io.before);
        if !repaired {
          writeFailures := writeFailures + 1;
          return;
        }
      }
      AppendLine(line, r.seq_, hmac, io);
      AppendIsStep(c, s0, p, Snap());
    }

    /** writeRecord from the size check on, with nothing pending at the end of the file. */
    method AppendLine(line: Bytes, seqNo: nat, hmac: Bytes, io: WriteIo)
      requires tailOrphanBytes == 0 && seqNo == seq_ + 1 <= UINT64_MAX
      modifies this
      ensures InRange()
      ensures AppendStep(old(Snap()), line, hmac, Snap())
      ensures seq_ == if io.writeFails then old(seq_) else seqNo
      ensures var full := old(written) + |line| > maxBytes;
              |older| > |old(older)| <==> full && Rotates(old(inFallback), old(written), io.rotate)
      ensures && old(written == |active| && !inFallback) && !io.writeFails && !io.rotate.Faulty() ==>
                written == |active| && (|active| <= maxBytes || active == line)
      ensures var full := old(written) + |line| > maxBytes;
              writeFailures == old(writeFailures) + (if io.writeFails then 1 else 0)
                + if full && RotationCounts(old(inFallback), old(written), io.rotate) then 1 else 0
    {
      if written + |line| > maxBytes {
        Rotate(io.rotate);
      }
      var n := if io.writeFails && io.landed < |line| then io.landed else |line|;
      ghost var base := active;
      active := active + line[..n];
      written := written + n;
      if io.writeFails {
        if n > 0 {
          tailOrphanBytes := n;
          var _ := RepairTailOrphan(io.after);
        }
        assert active == base + line[..tailOrphanBytes];
        writeFailures := writeFailures + 1;
        return;
      }
      assert line[..n] == line;
      seq_, prevHmac := seqNo, hmac;
    }
  }

  /** One byte in the log, a cap of one, and a rotation whose fsync fails: seq advances and a failure is counted. */
  method AdvancesAndFails(c: Codec, p: Record) returns (advanced: nat, failures: nat)
    requires c.Valid()
    ensures advanced == 1 && failures == 1
  {
    hide Codec.Valid, WriteStep;
    var fine, rotate := RepairIo(false, false), RotateIo(false, false, true, false, false);
    var s := new Sink(State([], [NL], 0, false, 0, []), 1);
    s.WriteRecord(c, p, WriteIo(false, fine, rotate, false, 0, fine));
    advanced, failures := s.seq_, s.writeFailures;
  }
}
