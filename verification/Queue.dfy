/**
 The record queue between producers and the drainer, as the atomic steps its goroutines take:
 enqueue, the drainer's receive and credit, and Close (internal/audit/audit.go).
 */
module Queue {

  const BUDGET: nat := 256 * 1024 * 1024    // auditQueueByteBudget
  const SLOTS: nat := 4096                  // auditChannelSize

  /**
   Where one Record call is. `Locked` to `Counting` and the two `...Held` phases hold the read
   lock; `Reserved`, `Over` and `Full` have their size charged to queuedBytes.
   */
  datatype Phase =
    | Waiting(size: nat)
    | Shut(size: nat)
    | Locked(size: nat)
    | Reserved(size: nat)
    | Over(size: nat)
    | Full(size: nat)
    | Counting(size: nat)
    | SentHeld
    | DroppedHeld
    | Done(queued: bool)

  datatype State = State(calls: seq<Phase>, queuedBytes: int, dropped: nat, credited: nat,
                         chan: seq<nat>, inHand: seq<nat>, drained: bool,
                         writeLocked: bool, closed: bool)

  const INIT: State := State([], 0, 0, 0, [], [], false, false, false)

  datatype Step =
    | Arrive(size: nat)
    | ReadLock(i: nat)
    | CountShut(i: nat)
    | Reserve(i: nat)
    | Refund(i: nat)
    | Send(i: nat)
    | CountDrop(i: nat)
    | Unlock(i: nat)
    | CloseLock
    | CloseChannel
    | CloseUnlock
    | Receive
    | Credit
    | Drained

  predicate HoldsReadLock(p: Phase) {
    !p.Waiting? && !p.Done?
  }

  /** The call a step moves, and the phase it moves from. */
  predicate At(s: State, i: nat, ok: Phase -> bool) {
    i < |s.calls| && ok(s.calls[i])
  }

  predicate Enabled(s: State, e: Step) {
    match e
    case Arrive(_) => true
    case ReadLock(i) => At(s, i, (p: Phase) => p.Waiting?) && !s.writeLocked
    case CountShut(i) => At(s, i, (p: Phase) => p.Shut?)
    case Reserve(i) => At(s, i, (p: Phase) => p.Locked?)
    case Refund(i) => At(s, i, (p: Phase) => p.Over? || p.Full?)
    case Send(i) => At(s, i, (p: Phase) => p.Reserved?)
    case CountDrop(i) => At(s, i, (p: Phase) => p.Counting?)
    case Unlock(i) => At(s, i, (p: Phase) => p.SentHeld? || p.DroppedHeld?)
    case CloseLock => !s.writeLocked && !s.closed && forall i | 0 <= i < |s.calls| :: !HoldsReadLock(s.calls[i])
    case CloseChannel => s.writeLocked && !s.closed
    case CloseUnlock => s.writeLocked && s.closed
    case Receive => s.chan != [] && s.inHand == []
    case Credit => s.inHand != []
    case Drained => s.closed && s.chan == [] && s.inHand == []
  }

  function Move(s: State, i: nat, p: Phase): State
    requires i < |s.calls|
  {
    s.(calls := s.calls[i := p])
  }

  function Do(s: State, e: Step): (s': State)
    requires Enabled(s, e)
  {
    match e
    case Arrive(size) => s.(calls := s.calls + [Waiting(size)])
    case ReadLock(i) => Move(s, i, if s.closed then Shut(s.calls[i].size) else Locked(s.calls[i].size))
    case CountShut(i) => Move(s, i, DroppedHeld).(dropped := s.dropped + 1)
    case Reserve(i) =>
      var n := s.calls[i].size;
      var sum := s.queuedBytes + n;
      Move(s, i, if sum > BUDGET then Over(n) else Reserved(n)).(queuedBytes := sum)
    case Refund(i) => Move(s, i, Counting(s.calls[i].size)).(queuedBytes := s.queuedBytes - s.calls[i].size)
    case Send(i) =>
      var n := s.calls[i].size;
      if |s.chan| < SLOTS then Move(s, i, SentHeld).(chan := s.chan + [n]) else Move(s, i, Full(n))
    case CountDrop(i) => Move(s, i, DroppedHeld).(dropped := s.dropped + 1)
    case Unlock(i) => Move(s, i, Done(s.calls[i].SentHeld?))
    case CloseLock => s.(writeLocked := true)
    case CloseChannel => s.(closed := true)
    case CloseUnlock => s.(writeLocked := false)
    case Receive => s.(chan := s.chan[1..], inHand := [s.chan[0]])
    case Credit => s.(inHand := [], queuedBytes := s.queuedBytes - s.inHand[0], credited := s.credited + 1)
    case Drained => s.(drained := true)
  }

  // ------------------------------------------------------------------ sums over the calls

  function Sum(f: Phase -> nat, calls: seq<Phase>): (n: nat) {
    if calls == [] then 0 else Sum(f, calls[..|calls| - 1]) + f(calls[|calls| - 1])
  }

  lemma {:induction false} SumUpdate(f: Phase -> nat, calls: seq<Phase>, i: nat, p: Phase)
    requires i < |calls|
    ensures Sum(f, calls[i := p]) == Sum(f, calls) - f(calls[i]) + f(p)
    decreases |calls|
  {
    var n := |calls| - 1;
    var updated := calls[i := p];
    if i == n {
      assert updated[..n] == calls[..n];
    } else {
      assert updated[..n] == calls[..n][i := p];
      SumUpdate(f, calls[..n], i, p);
    }
  }

  lemma SumAppend(f: Phase -> nat, calls: seq<Phase>, p: Phase)
    ensures Sum(f, calls + [p]) == Sum(f, calls) + f(p)
  {
    assert (calls + [p])[..|calls|] == calls;
  }

  function Total(ns: seq<nat>): (n: nat) {
    if ns == [] then 0 else ns[0] + Total(ns[1..])
  }

  lemma {:induction false} TotalAppend(ns: seq<nat>, n: nat)
    ensures Total(ns + [n]) == Total(ns) + n
  {
    if ns != [] {
      TotalAppend(ns[1..], n);
      assert (ns + [n])[1..] == ns[1..] + [n];
    }
  }

  lemma TotalNone()
    ensures Total([]) == 0
  {
  }

  lemma TotalOne(ns: seq<nat>)
    requires |ns| == 1
    ensures Total(ns) == ns[0]
  {
    assert ns[1..] == [];
  }

  /** Charged and not yet refunded. */
  function Charged(p: Phase): nat { if p.Reserved? || p.Over? || p.Full? then p.size else 0 }

  /** Charged under the budget: heap the queue has let in. */
  function Admitted(p: Phase): nat { if p.Reserved? || p.Full? then p.size else 0 }

  function Queued(p: Phase): nat { if p.SentHeld? || p == Done(true) then 1 else 0 }

  function Dropped(p: Phase): nat { if p.DroppedHeld? || p == Done(false) then 1 else 0 }

  // ------------------------------------------------------------------ the invariant

  /** Bytes of records let in and not yet written: in producers' hands, queued, or with the drainer. */
  function AdmittedBytes(s: State): nat {
    Sum(Admitted, s.calls) + Total(s.chan) + Total(s.inHand)
  }

  ghost predicate Inv(s: State) {
    // queuedBytes is exactly the outstanding reservations.
    && s.queuedBytes == Sum(Charged, s.calls) + Total(s.chan) + Total(s.inHand)
    && AdmittedBytes(s) <= BUDGET
    // Every call counted dropped is one drop, every call sent is one record.
    && s.dropped == Sum(Dropped, s.calls)
    && Sum(Queued, s.calls) == |s.chan| + |s.inHand| + s.credited
    && |s.chan| <= SLOTS && |s.inHand| <= 1
    // The write lock excludes every reader, and a closed queue admits no sender.
    && (s.writeLocked ==> forall i | 0 <= i < |s.calls| :: !HoldsReadLock(s.calls[i]))
    && (s.closed ==> forall i | 0 <= i < |s.calls| ::
          s.calls[i].Waiting? || s.calls[i].Shut? || s.calls[i].DroppedHeld? || s.calls[i].Done?)
    && (s.drained ==> s.closed && s.chan == [] && s.inHand == [])
  }

  lemma MoveSums(s: State, i: nat, p: Phase)
    requires i < |s.calls|
    ensures Sum(Charged, s.calls[i := p]) == Sum(Charged, s.calls) - Charged(s.calls[i]) + Charged(p)
    ensures Sum(Admitted, s.calls[i := p]) == Sum(Admitted, s.calls) - Admitted(s.calls[i]) + Admitted(p)
    ensures Sum(Queued, s.calls[i := p]) == Sum(Queued, s.calls) - Queued(s.calls[i]) + Queued(p)
    ensures Sum(Dropped, s.calls[i := p]) == Sum(Dropped, s.calls) - Dropped(s.calls[i]) + Dropped(p)
  {
    hide Sum;
    SumUpdate(Charged, s.calls, i, p);
    SumUpdate(Admitted, s.calls, i, p);
    SumUpdate(Queued, s.calls, i, p);
    SumUpdate(Dropped, s.calls, i, p);
  }

  lemma {:induction false} AdmittedWithinCharged(calls: seq<Phase>)
    ensures Sum(Admitted, calls) <= Sum(Charged, calls)
  {
    if calls != [] { AdmittedWithinCharged(calls[..|calls| - 1]); }
  }

  /** A producer's step. */
  lemma CallStepKeeps(s: State, e: Step)
    requires Inv(s) && Enabled(s, e)
    requires e.ReadLock? || e.CountShut? || e.Reserve? || e.Refund? || e.Send? || e.CountDrop? || e.Unlock?
    ensures Inv(Do(s, e))
  {
    hide Sum, Total;
    var i, s' := e.i, Do(s, e);
    MoveSums(s, i, s'.calls[i]);
    assert s'.calls == s.calls[i := s'.calls[i]];
    if e.Send? { TotalAppend(s.chan, s.calls[i].size); }
    if e.Reserve? { AdmittedWithinCharged(s'.calls); }
  }

  /** Arrivals, the drainer's steps and Close's. */
  lemma OtherStepKeeps(s: State, e: Step)
    requires Inv(s) && Enabled(s, e)
    requires !(e.ReadLock? || e.CountShut? || e.Reserve? || e.Refund? || e.Send? || e.CountDrop? || e.Unlock?)
    ensures Inv(Do(s, e))
  {
    if e.Arrive? {
      SumAppend(Charged, s.calls, Waiting(e.size));
      SumAppend(Admitted, s.calls, Waiting(e.size));
      SumAppend(Queued, s.calls, Waiting(e.size));
      SumAppend(Dropped, s.calls, Waiting(e.size));
    } else {
      hide Sum;
      TotalNone();
      if s.inHand != [] { TotalOne(s.inHand); }
      if e.Receive? { TotalOne([s.chan[0]]); }
    }
  }

  // ------------------------------------------------------------------ every interleaving

  ghost predicate Run(ss: seq<State>, es: seq<Step>) {
    && |ss| == |es| + 1 && ss[0] == INIT
    && forall k | 0 <= k < |es| :: Enabled(ss[k], es[k]) && ss[k + 1] == Do(ss[k], es[k])
  }

  lemma {:induction false} RunKeeps(ss: seq<State>, es: seq<Step>, k: nat)
    requires Run(ss, es) && k < |ss|
    ensures Inv(ss[k])
    decreases k
  {
    if k > 0 {
      hide Inv;
      RunKeeps(ss, es, k - 1);
      var s, e := ss[k - 1], es[k - 1];
      if e.ReadLock? || e.CountShut? || e.Reserve? || e.Refund? || e.Send? || e.CountDrop? || e.Unlock? {
        CallStepKeeps(s, e);
      } else {
        OtherStepKeeps(s, e);
      }
    }
  }

  lemma {:induction false} DoneCounted(calls: seq<Phase>)
    requires forall i | 0 <= i < |calls| :: calls[i].Done?
    ensures Sum(Queued, calls) + Sum(Dropped, calls) == |calls| && Sum(Charged, calls) == 0
  {
    if calls != [] { DoneCounted(calls[..|calls| - 1]); }
  }

  /**
   In every interleaving of producers, drainer and Close: the counter is exactly what is charged
   to calls in progress, queued or in the drainer's hands, and so never negative; what was let in
   stays inside the budget; no send ever meets a closed channel; at every moment the calls counted
   dropped are the drops and the calls sent are the records queued, in hand or written; and once
   everything has drained out the counter is back at zero, each call written or dropped once.
   */
  lemma QueueSafe(ss: seq<State>, es: seq<Step>, k: nat)
    requires Run(ss, es) && k < |ss|
    ensures ss[k].queuedBytes == Sum(Charged, ss[k].calls) + Total(ss[k].chan) + Total(ss[k].inHand)
    ensures 0 <= AdmittedBytes(ss[k]) <= ss[k].queuedBytes && AdmittedBytes(ss[k]) <= BUDGET
    ensures ss[k].dropped == Sum(Dropped, ss[k].calls)
    ensures Sum(Queued, ss[k].calls) == |ss[k].chan| + |ss[k].inHand| + ss[k].credited && |ss[k].chan| <= SLOTS
    ensures forall i | Enabled(ss[k], Send(i)) :: !ss[k].closed
    ensures ss[k].drained && (forall i | 0 <= i < |ss[k].calls| :: ss[k].calls[i].Done?) ==>
              ss[k].queuedBytes == 0 && ss[k].credited + ss[k].dropped == |ss[k].calls|
  {
    hide Sum, Total;
    var s := ss[k];
    RunKeeps(ss, es, k);
    AdmittedWithinCharged(s.calls);
    if s.drained && forall i | 0 <= i < |s.calls| :: s.calls[i].Done? {
      DoneCounted(s.calls);
      TotalNone();
    }
  }

  // ------------------------------------------------------------------ which calls are dropped

  /** The sizes the calls arrived with, in order. */
  function Sizes(es: seq<Step>): (ns: seq<nat>) {
    if es == [] then []
    else
      var ns := Sizes(es[..|es| - 1]);
      if es[|es| - 1].Arrive? then ns + [es[|es| - 1].size] else ns
  }

  /** The step e of call i, which has size n, meets a closed queue, the budget, or a full channel. */
  predicate Refused(s: State, e: Step, i: nat, n: nat) {
    || (e == ReadLock(i) && s.closed)
    || (e == Reserve(i) && s.queuedBytes + n > BUDGET)
    || (e == Send(i) && |s.chan| >= SLOTS)
  }

  ghost predicate RefusedBy(ss: seq<State>, es: seq<Step>, k: nat, i: nat, n: nat)
    requires |ss| == |es| + 1 && k <= |es|
  {
    exists l | 0 <= l < k :: Refused(ss[l], es[l], i, n)
  }

  /** A call on its way to being dropped. */
  predicate Failing(p: Phase) {
    p.Shut? || p.Over? || p.Full? || p.Counting? || p.DroppedHeld? || p == Done(false)
  }

  predicate Sized(p: Phase, n: nat) {
    p.SentHeld? || p.DroppedHeld? || p.Done? || p.size == n
  }

  /** No step of a call has been refused before it arrived. */
  ghost predicate Unheard(es: seq<Step>, k: nat, i: nat)
    requires k <= |es|
  {
    forall l | 0 <= l < k :: es[l] != ReadLock(i) && es[l] != Reserve(i) && es[l] != Send(i)
  }

  lemma CallsStay(s: State, e: Step)
    requires Enabled(s, e)
    ensures |s.calls| <= |Do(s, e).calls| && (e.ReadLock? || e.Reserve? || e.Send? ==> e.i < |s.calls|)
    ensures |Do(s, e).calls| == |s.calls| + if e.Arrive? then 1 else 0
  {
  }

  lemma {:induction false} UnheardBefore(ss: seq<State>, es: seq<Step>, k: nat, i: nat)
    requires Run(ss, es) && k < |ss| && i >= |ss[k].calls|
    ensures Unheard(es, k, i)
    decreases k
  {
    if k > 0 {
      assert Enabled(ss[k - 1], es[k - 1]) && ss[k] == Do(ss[k - 1], es[k - 1]);
      hide Do, Enabled;
      CallsStay(ss[k - 1], es[k - 1]);
      UnheardBefore(ss, es, k - 1, i);
    }
  }

  lemma {:induction false} SizesCount(ss: seq<State>, es: seq<Step>, k: nat)
    requires Run(ss, es) && k < |ss|
    ensures |Sizes(es[..k])| == |ss[k].calls|
    decreases k
  {
    if k > 0 {
      assert Enabled(ss[k - 1], es[k - 1]) && ss[k] == Do(ss[k - 1], es[k - 1]);
      hide Do, Enabled;
      CallsStay(ss[k - 1], es[k - 1]);
      SizesCount(ss, es, k - 1);
      assert es[..k][..k - 1] == es[..k - 1];
    }
  }

  /** A step of call i. */
  predicate StepOf(e: Step, i: nat) {
    || e == ReadLock(i) || e == CountShut(i) || e == Reserve(i) || e == Refund(i) || e == Send(i)
    || e == CountDrop(i) || e == Unlock(i)
  }

  lemma OthersStep(s: State, e: Step, i: nat)
    requires Enabled(s, e) && i < |s.calls| && !StepOf(e, i)
    ensures i < |Do(s, e).calls| && Do(s, e).calls[i] == s.calls[i]
  {
  }

  lemma OwnStep(s: State, e: Step, i: nat, n: nat)
    requires Enabled(s, e) && i < |s.calls| && Sized(s.calls[i], n) && StepOf(e, i)
    ensures i < |Do(s, e).calls| && Sized(Do(s, e).calls[i], n)
    ensures Failing(Do(s, e).calls[i]) <==> Failing(s.calls[i]) || Refused(s, e, i, n)
  {
  }

  lemma StepFate(s: State, e: Step, i: nat, n: nat)
    requires Enabled(s, e) && i < |s.calls| && Sized(s.calls[i], n)
    ensures i < |Do(s, e).calls| && Sized(Do(s, e).calls[i], n)
    ensures Failing(Do(s, e).calls[i]) <==> Failing(s.calls[i]) || Refused(s, e, i, n)
  {
    hide Do, Enabled;
    if StepOf(e, i) { OwnStep(s, e, i, n); } else { OthersStep(s, e, i); }
  }

  lemma {:induction false} Fate(ss: seq<State>, es: seq<Step>, k: nat, i: nat)
    requires Run(ss, es) && k < |ss| && i < |ss[k].calls|
    ensures |Sizes(es[..k])| == |ss[k].calls| && Sized(ss[k].calls[i], Sizes(es[..k])[i])
    ensures Failing(ss[k].calls[i]) <==> RefusedBy(ss, es, k, i, Sizes(es[..k])[i])
    decreases k
  {
    SizesCount(ss, es, k);
    if k > 0 {
      var s, e := ss[k - 1], es[k - 1];
      assert Enabled(s, e) && ss[k] == Do(s, e);
      assert es[..k][..k - 1] == es[..k - 1];
      SizesCount(ss, es, k - 1);
      var n := Sizes(es[..k])[i];
      if i < |s.calls| {
        assert n == Sizes(es[..k - 1])[i];
        Fate(ss, es, k - 1, i);
        hide Run;
        StepFate(s, e, i, n);
        assert RefusedBy(ss, es, k, i, n) <==> RefusedBy(ss, es, k - 1, i, n) || Refused(s, e, i, n);
      } else {
        UnheardBefore(ss, es, k - 1, i);
      }
    }
  }

  /**
   In every interleaving: a call ends dropped exactly when it took the lock of a closed queue, or
   its size and the reservations outstanding passed the budget when it reserved, or the channel held
   all the records it can when it sent. Otherwise it ends sent.
   */
  lemma DroppedExactly(ss: seq<State>, es: seq<Step>, k: nat, i: nat)
    requires Run(ss, es) && k < |ss| && i < |ss[k].calls| && ss[k].calls[i].Done?
    ensures |Sizes(es[..k])| == |ss[k].calls|
    ensures ss[k].calls[i] == Done(false) <==>
              exists l | 0 <= l < k ::
                || (es[l] == ReadLock(i) && ss[l].closed)
                || (es[l] == Reserve(i) && ss[l].queuedBytes + Sizes(es[..k])[i] > 256 * 1024 * 1024)
                || (es[l] == Send(i) && |ss[l].chan| >= 4096)
  {
    Fate(ss, es, k, i);
    hide Run, Sizes;
    var n := Sizes(es[..k])[i];
    assert forall l | 0 <= l < k :: Refused(ss[l], es[l], i, n) <==>
        || (es[l] == ReadLock(i) && ss[l].closed)
        || (es[l] == Reserve(i) && ss[l].queuedBytes + n > 256 * 1024 * 1024)
        || (es[l] == Send(i) && |ss[l].chan| >= 4096);
  }

  // ------------------------------------------------------------------ the order of the records

  /** The sizes of the records sent so far, in the order of the sends. */
  function Sent(ss: seq<State>, es: seq<Step>): (ns: seq<nat>)
    requires |ss| > |es|
  {
    if es == [] then []
    else
      var k := |es| - 1;
      var ns := Sent(ss, es[..k]);
      if es[k].Send? && |ss[k].chan| < SLOTS && es[k].i < |Sizes(es[..k])| then ns + [Sizes(es[..k])[es[k].i]] else ns
  }

  /** The sizes of the records the drainer has taken, in its order. */
  function Taken(ss: seq<State>, es: seq<Step>): (ns: seq<nat>)
    requires |ss| > |es|
  {
    if es == [] then []
    else
      var k := |es| - 1;
      if es[k].Receive? then Taken(ss, es[..k]) + ss[k + 1].inHand else Taken(ss, es[..k])
  }

  lemma ChannelStep(s: State, e: Step)
    requires Enabled(s, e)
    ensures e.Send? ==> e.i < |s.calls| && s.calls[e.i].Reserved?
    ensures if e.Send? && |s.chan| < SLOTS then Do(s, e).chan == s.chan + [s.calls[e.i].size]
            else if e.Receive? then s.chan == Do(s, e).inHand + Do(s, e).chan
            else Do(s, e).chan == s.chan
  {
  }

  /** The drainer takes the records sent, all of them and in the order they were sent. */
  lemma {:induction false} FirstInFirstOut(ss: seq<State>, es: seq<Step>, k: nat)
    requires Run(ss, es) && k < |ss|
    ensures Sent(ss, es[..k]) == Taken(ss, es[..k]) + ss[k].chan
    decreases k
  {
    hide Do, Enabled, Sizes;
    if k > 0 {
      var s, e, past := ss[k - 1], es[k - 1], es[..k - 1];
      assert Enabled(s, e) && ss[k] == Do(s, e);
      assert es[..k][..k - 1] == past;
      FirstInFirstOut(ss, es, k - 1);
      ChannelStep(s, e);
      if e.Send? { Fate(ss, es, k - 1, e.i); }
      hide Run;
      var t := Taken(ss, past);
      if e.Send? && |s.chan| < SLOTS {
        assert t + (s.chan + [s.calls[e.i].size]) == (t + s.chan) + [s.calls[e.i].size];
      } else if e.Receive? {
        assert t + (ss[k].inHand + ss[k].chan) == (t + ss[k].inHand) + ss[k].chan;
      }
    }
  }
}
