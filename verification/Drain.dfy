/**
 The drainer's loop: how much of the log may be written and not yet pushed to disk
 (internal/audit/audit.go, drain).
 */
module Drain {

  const SYNC_EVERY: nat := 64    // syncEveryN

  /**
   How one writeRecord call ends, when one is due: whether seq advanced, and whether a rotation
   inside the call failed by itself.
   */
  datatype Write = NotDue | Due(advanced: bool, rotationFailed: bool) {
    function Advances(): nat { if this.Due? && advanced then 1 else 0 }

    /** What the call adds to writeFailures. */
    function Failures(): nat {
      if NotDue? then 0 else (if advanced then 0 else 1) + if rotationFailed then 1 else 0
    }
  }

  const WRITTEN: Write := Due(true, false)

  /** What the select receives: a record, before which a drop marker may be due, or the timer, or the end. */
  datatype Event =
    | Received(marker: Write, record: Write)
    | TimerFired
    | ChannelClosed(marker: Write)
  {
    function Written(): nat {
      match this
      case Received(m, r) => m.Advances() + r.Advances()
      case TimerFired => 0
      case ChannelClosed(m) => m.Advances()
    }

    function LostWrites(): nat {
      match this
      case Received(m, r) => m.Failures() + r.Failures()
      case TimerFired => 0
      case ChannelClosed(m) => m.Failures()
    }

    /** Whether the pass ends in an fsync attempt, with `waiting` records unsynced before it. */
    predicate Syncs(waiting: nat) {
      if this.Received? then waiting + Written() >= SYNC_EVERY else waiting > 0
    }

    /** The records still waiting after it. */
    function Left(waiting: nat): nat {
      if this.Received? && !Syncs(waiting) then waiting + Written() else 0
    }

    function Failures(waiting: nat, fsyncOk: bool): nat {
      LostWrites() + if Syncs(waiting) && !fsyncOk then 1 else 0
    }
  }

  function WrittenBy(es: seq<Event>): nat {
    if es == [] then 0 else WrittenBy(es[..|es| - 1]) + es[|es| - 1].Written()
  }

  /** The records waiting after the events, with `from` before them. */
  function WaitingAfter(from: nat, es: seq<Event>): nat {
    if es == [] then from else es[|es| - 1].Left(WaitingAfter(from, es[..|es| - 1]))
  }

  /** The write and fsync failures of a whole session; fsync i is the one event i may attempt. */
  function FailuresOf(from: nat, es: seq<Event>, fsyncOk: nat -> bool): nat {
    if es == [] then 0
    else
      var n := |es| - 1;
      FailuresOf(from, es[..n], fsyncOk) + es[n].Failures(WaitingAfter(from, es[..n]), fsyncOk(n))
  }

  /** Nothing in event i fails: no write that is due, no rotation, and no fsync it attempts. */
  predicate Succeeds(from: nat, es: seq<Event>, fsyncOk: nat -> bool, i: nat)
    requires i < |es|
  {
    es[i].LostWrites() == 0 && (es[i].Syncs(WaitingAfter(from, es[..i])) ==> fsyncOk(i))
  }

  lemma {:induction false} NoFailures(from: nat, es: seq<Event>, fsyncOk: nat -> bool)
    ensures FailuresOf(from, es, fsyncOk) == 0 <==> forall i | 0 <= i < |es| :: Succeeds(from, es, fsyncOk, i)
  {
    if es != [] {
      var n := |es| - 1;
      NoFailures(from, es[..n], fsyncOk);
      assert forall i | 0 <= i < n :: es[..n][..i] == es[..i];
      assert forall i | 0 <= i < n :: Succeeds(from, es[..n], fsyncOk, i) == Succeeds(from, es, fsyncOk, i);
      assert Succeeds(from, es, fsyncOk, n) <==> es[n].Failures(WaitingAfter(from, es[..n]), fsyncOk(n)) == 0;
    }
  }

  class Drainer {
    var seq_: nat              // records written
    var synced: nat            // seq at the last fsync attempt
    var sinceSync: nat
    var timerArmed: bool
    var writeFailures: nat
    ghost var crest: nat       // the longest unsynced tail so far

    /** What holds whenever the drainer waits in its select. */
    ghost predicate Waiting()
      reads this
    {
      && synced + sinceSync == seq_
      && sinceSync < SYNC_EVERY
      && (timerArmed <==> sinceSync > 0)
    }

    constructor (seeded: nat)
      ensures Waiting() && seq_ == synced == seeded && sinceSync == 0 && writeFailures == 0 && crest == 0
    {
      seq_, synced, sinceSync, timerArmed, writeFailures, crest := seeded, seeded, 0, false, 0, 0;
    }

    method SyncNow(fsyncOk: bool)
      modifies this
      ensures sinceSync == 0 && seq_ == old(seq_) && timerArmed == old(timerArmed) && crest == old(crest)
      ensures synced == if old(sinceSync) == 0 then old(synced) else seq_
      ensures writeFailures == old(writeFailures) + if old(sinceSync) > 0 && !fsyncOk then 1 else 0
    {
      if sinceSync == 0 { return; }
      if !fsyncOk { writeFailures := writeFailures + 1; }
      sinceSync, synced := 0, seq_;
    }

    /** One writeRecord call, as far as the drainer sees it. */
    method WriteOne(w: Write)
      modifies this
      ensures seq_ == old(seq_) + w.Advances()
      ensures crest == if seq_ > old(crest) + synced then seq_ - synced else old(crest)
      ensures sinceSync == old(sinceSync) && synced == old(synced) && timerArmed == old(timerArmed)
      ensures writeFailures == old(writeFailures) + w.Failures()
    {
      if w.Due? {
        if w.advanced { seq_ := seq_ + 1; } else { writeFailures := writeFailures + 1; }
        if w.rotationFailed { writeFailures := writeFailures + 1; }
      }
      if seq_ > crest + synced { crest := seq_ - synced; }
    }

    /**
     One pass of the loop, up to the next wait or the exit. The unsynced tail passes the documented
     64 in exactly one way, and the final fsync misses a closing marker in exactly one way.
     */
    method Iterate(e: Event, fsyncOk: bool)
      requires Waiting() && crest <= SYNC_EVERY + 1
      modifies this
      ensures seq_ == old(seq_) + e.Written() && sinceSync == e.Left(old(sinceSync))
      ensures writeFailures == old(writeFailures) + e.Failures(old(sinceSync), fsyncOk)
      ensures !e.ChannelClosed? ==> Waiting()
      ensures e.TimerFired? ==> synced == seq_
      ensures e.ChannelClosed? ==> seq_ - synced == if old(sinceSync) == 0 then e.Written() else 0
      ensures old(crest) <= crest <= SYNC_EVERY + 1
      ensures old(crest) <= SYNC_EVERY ==>
                (crest > SYNC_EVERY <==> old(sinceSync) == SYNC_EVERY - 1 && e.Written() == 2)
    {
      match e
      case Received(m, w) =>
        var seqBefore := seq_;
        WriteOne(m);
        WriteOne(w);
        sinceSync := sinceSync + (seq_ - seqBefore);
        if sinceSync >= SYNC_EVERY {
          SyncNow(fsyncOk);
          timerArmed := false;
        } else if sinceSync > 0 && !timerArmed {
          timerArmed := true;
        }
      case TimerFired =>
        timerArmed := false;
        SyncNow(fsyncOk);
      case ChannelClosed(m) =>
        WriteOne(m);
        SyncNow(fsyncOk);
    }

    /** The whole loop: every event in turn, until the channel is seen closed. */
    method Drain(events: seq<Event>, fsyncOk: nat -> bool) returns (taken: nat)
      requires Waiting() && crest <= SYNC_EVERY + 1
      modifies this
      ensures taken <= |events| && seq_ == old(seq_) + WrittenBy(events[..taken])
      ensures writeFailures == old(writeFailures) + FailuresOf(old(sinceSync), events[..taken], fsyncOk)
      ensures forall i | 0 <= i < taken - 1 :: !events[i].ChannelClosed?
      ensures crest <= SYNC_EVERY + 1
      ensures taken == 0 || !events[taken - 1].ChannelClosed? ==> taken == |events| && Waiting()
      ensures 0 < taken && events[taken - 1].ChannelClosed? ==> synced <= seq_ <= synced + 1
    {
      hide Event.Failures, Event.Left;
      taken := 0;
      var open := true;
      while open && taken < |events|
        invariant taken <= |events| && seq_ == old(seq_) + WrittenBy(events[..taken])
        invariant sinceSync == WaitingAfter(old(sinceSync), events[..taken])
        invariant writeFailures == old(writeFailures) + FailuresOf(old(sinceSync), events[..taken], fsyncOk)
        invariant forall i | 0 <= i < taken - 1 :: !events[i].ChannelClosed?
        invariant open ==> Waiting() && (0 < taken ==> !events[taken - 1].ChannelClosed?)
        invariant !open ==> 0 < taken && events[taken - 1].ChannelClosed? && synced <= seq_ <= synced + 1
        invariant crest <= SYNC_EVERY + 1
        decreases |events| - taken
      {
        var e := events[taken];
        Iterate(e, fsyncOk(taken));
        open := !e.ChannelClosed?;
        taken := taken + 1;
        assert events[..taken][..taken - 1] == events[..taken - 1];
      }
    }

    /**
     A session from start to Close: the drainer runs to the end of a closed channel, and Close's own
     fsync follows. Every record of the session is then behind an fsync attempt, the closing marker
     included, and the error is nil exactly when nothing had failed before, and every write that was
     due, every rotation, every fsync attempted and each of Close's own calls succeeded.
     */
    method Close(events: seq<Event>, fsyncOk: nat -> bool, io: CloseIo) returns (clean: bool)
      requires Waiting() && crest <= SYNC_EVERY + 1
      requires |events| > 0 && events[|events| - 1].ChannelClosed?
      requires forall i | 0 <= i < |events| - 1 :: !events[i].ChannelClosed?
      modifies this
      ensures synced == seq_ == old(seq_) + WrittenBy(events) && crest <= SYNC_EVERY + 1
      ensures clean <==>
                && old(writeFailures) == 0 && io.Ok()
                && forall i | 0 <= i < |events| :: Succeeds(old(sinceSync), events, fsyncOk, i)
    {
      var taken := Drain(events, fsyncOk);
      assert events[..taken] == events;
      NoFailures(old(sinceSync), events, fsyncOk);
      synced := seq_;
      clean := writeFailures == 0 && !io.syncFails && !io.closeFails && !io.releaseFails;
    }
  }

  /** What Close's own system calls do. */
  datatype CloseIo = CloseIo(syncFails: bool, closeFails: bool, releaseFails: bool) {
    predicate Ok() { !syncFails && !closeFails && !releaseFails }
  }

  /** Sixty-three records, and then a marker and a record in one pass: 65 are unsynced before the fsync. */
  method SixtyFive() returns (waiting: nat, ghost longest: nat)
    ensures waiting == SYNC_EVERY - 1 && longest == SYNC_EVERY + 1
  {
    var d := new Drainer(0);
    for i := 0 to 63
      invariant fresh(d) && d.Waiting() && d.sinceSync == i && d.crest <= SYNC_EVERY
    {
      d.Iterate(Received(NotDue, WRITTEN), true);
    }
    waiting := d.sinceSync;
    d.Iterate(Received(WRITTEN, WRITTEN), true);
    longest := d.crest;
  }

  /** The drainer's fsync leaves a closing marker behind when nothing else was waiting. */
  method ClosingMarkerUnsynced() returns (behind: int)
    ensures behind == 1
  {
    var d := new Drainer(0);
    d.Iterate(ChannelClosed(WRITTEN), true);
    behind := d.seq_ - d.synced;
  }
}
