/**
 Evidence of dropped records: the method/target buckets producers fill, and the signed marker the
 drainer writes from them, under every interleaving (internal/audit/audit.go).
 */
module Drops {

  const BUCKET_CAP: nat := 32          // auditDropBucketCap

  /** A bucket's name: method and target joined, or the overflow name. */
  datatype Key = Key(text: string)

  function Other(): Key { Key("(other)") }    // dropBucketOverflowKey

  type Buckets = map<Key, nat>

  function Count(b: Buckets, k: Key): nat { if k in b then b[k] else 0 }

  function DropKey(verb: string, target: string): Key {
    Key(if target != "" then verb + " " + target else verb)
  }

  /** The bucket a drop falls in: its own, or the overflow one once the cap is reached. */
  function Slot(b: Buckets, k: Key): Key {
    if k !in b && |b| >= BUCKET_CAP then Other() else k
  }

  function Bump(b: Buckets, k: Key): Buckets {
    b[Slot(b, k) := Count(b, Slot(b, k)) + 1]
  }

  /** `b` with the counts of `snap` taken out. */
  function Less(b: Buckets, snap: Buckets): Buckets {
    map k | k in b && Count(snap, k) < b[k] :: b[k] - Count(snap, k)
  }

  /** One key of the reset. */
  function Take(b: Buckets, k: Key, n: nat): Buckets {
    if k !in b then b else if b[k] <= n then b - {k} else b[k := b[k] - n]
  }

  lemma TakeIsLess(b: Buckets, done: Buckets, k: Key, n: nat)
    requires k !in done && forall j | j in b :: b[j] > 0
    ensures Take(Less(b, done), k, n) == Less(b, done[k := n])
  {
    var x, y := Take(Less(b, done), k, n), Less(b, done[k := n]);
    forall j
      ensures j in x <==> j in y
      ensures j in x && j in y ==> x[j] == y[j]
    {
      assert j != k ==> Count(done[k := n], j) == Count(done, j);
    }
  }

  lemma LessNone(b: Buckets)
    requires forall k | k in b :: b[k] > 0
    ensures Less(b, map[]) == b
  {
  }

  lemma Covered(done: Buckets, snap: Buckets)
    requires forall k | k in done :: k in snap && done[k] == snap[k]
    requires forall k | k in snap :: k in done
    ensures done == snap
  {
  }

  lemma CountBump(b: Buckets, k: Key, j: Key)
    ensures Count(Bump(b, k), j) == Count(b, j) + if j == Slot(b, k) then 1 else 0
  {
  }

  lemma CountLess(b: Buckets, snap: Buckets, j: Key)
    requires Count(snap, j) <= Count(b, j)
    ensures Count(Less(b, snap), j) == Count(b, j) - Count(snap, j)
  {
  }

  class Accumulator {
    var live: Buckets

    constructor ()
      ensures live == map[]
    {
      live := map[];
    }

    method Record(verb: string, target: string)
      modifies this
      ensures live == Bump(old(live), DropKey(verb, target))
      // The pair's own bucket as long as it has one or there is room for one.
      ensures var k, own := Key(if target == "" then verb else verb + " " + target), old(live);
              if k in own || |own| < 32 then live == own[k := Count(own, k) + 1]
              else live == own[Key("(other)") := Count(own, Key("(other)")) + 1]
    {
      var key := Key(verb);
      if target != "" { key := Key(verb + " " + target); }
      if key !in live && |live| >= BUCKET_CAP { key := Other(); }
      live := live[key := Count(live, key) + 1];
    }

    method Snapshot() returns (copy: Buckets)
      ensures copy == live
    {
      copy := map[];
      var rest := live.Keys;
      while rest != {}
        invariant rest <= live.Keys
        invariant copy == map k | k in live.Keys - rest :: live[k]
        decreases |rest|
      {
        var k :| k in rest;
        copy := copy[k := live[k]];
        rest := rest - {k};
      }
    }

    method Reset(snap: Buckets)
      requires forall k | k in live :: live[k] > 0
      modifies this
      ensures live == Less(old(live), snap)
    {
      hide Less, Take;
      var rest := snap.Keys;
      ghost var done: Buckets := map[];
      LessNone(live);
      while rest != {}
        invariant rest <= snap.Keys
        invariant forall k | k in done :: k in snap && k !in rest && done[k] == snap[k]
        invariant forall k | k in snap :: k in rest || k in done
        invariant live == Less(old(live), done)
        decreases |rest|
      {
        var k :| k in rest;
        TakeIsLess(old(live), done, k, snap[k]);
        live := Take(live, k, snap[k]);
        done := done[k := snap[k]];
        rest := rest - {k};
      }
      Covered(done, snap);
    }
  }

  // ------------------------------------------------------------------ producers and the drainer

  datatype Marker = Marker(dropped: int, total: nat, buckets: Buckets)

  /** Where flushDropMarker is. */
  datatype Flush =
    | Idle
    | Loaded(cur: nat)
    | Snapped(cur: nat, snap: Buckets)
    | Wrote(cur: nat, snap: Buckets)
    | Advanced(snap: Buckets)

  /**
   `pending` are drops counted by a producer that has not reached its bucket yet; `named` are the
   pairs bucketed so far, `slots` the buckets they fell in; `closing` drops are counted only.
   */
  datatype State = State(dropped: nat, pending: multiset<Key>, closing: nat, named: multiset<Key>,
                         slots: multiset<Key>, live: Buckets, lastMarked: nat, markers: seq<Marker>, flush: Flush)

  const INIT: State := State(0, multiset{}, 0, multiset{}, multiset{}, map[], 0, [], Idle)

  datatype Step =
    | CountDrop(key: Key)
    | CountClosing
    | Bucket(key: Key)
    | Load
    | Snapshot
    | WriteMarker(ok: bool)
    | Advance
    | Reset

  predicate Enabled(s: State, e: Step) {
    match e
    case CountDrop(_) => true
    case CountClosing => true
    case Bucket(k) => k in s.pending
    case Load => s.flush.Idle? && s.dropped > s.lastMarked
    case Snapshot => s.flush.Loaded?
    case WriteMarker(_) => s.flush.Snapped?
    case Advance => s.flush.Wrote?
    case Reset => s.flush.Advanced?
  }

  function Do(s: State, e: Step): State
    requires Enabled(s, e)
  {
    match e
    case CountDrop(k) => s.(dropped := s.dropped + 1, pending := s.pending + multiset{k})
    case CountClosing => s.(dropped := s.dropped + 1, closing := s.closing + 1)
    case Bucket(k) => s.(pending := s.pending - multiset{k}, named := s.named + multiset{k},
                         slots := s.slots + multiset{Slot(s.live, k)}, live := Bump(s.live, k))
    case Load => s.(flush := Loaded(s.dropped))
    case Snapshot => s.(flush := Snapped(s.flush.cur, s.live))
    case WriteMarker(ok) =>
      var f := s.flush;
      if !ok then s.(flush := Idle)
      else s.(flush := Wrote(f.cur, f.snap), markers := s.markers + [Marker(f.cur - s.lastMarked, f.cur, f.snap)])
    case Advance => s.(flush := Advanced(s.flush.snap), lastMarked := s.flush.cur)
    case Reset => s.(flush := Idle, live := Less(s.live, s.flush.snap))
  }

  function Marked(ms: seq<Marker>): int {
    if ms == [] then 0 else Marked(ms[..|ms| - 1]) + ms[|ms| - 1].dropped
  }

  function Written(ms: seq<Marker>, k: Key): nat {
    if ms == [] then 0 else Written(ms[..|ms| - 1], k) + Count(ms[|ms| - 1].buckets, k)
  }

  // ------------------------------------------------------------------ the invariant

  /** Counts already in a marker on disk and still in the live buckets, waiting for the reset. */
  function Overlap(f: Flush, k: Key): nat {
    if f.Wrote? || f.Advanced? then Count(f.snap, k) else 0
  }

  ghost predicate Tallied(dropped: nat, pending: multiset<Key>, closing: nat,
                          named: multiset<Key>, slots: multiset<Key>)
  {
    && dropped == |named| + |pending| + closing
    && |slots| == |named|
    && forall k | k != Other() :: slots[k] <= named[k]
  }

  ghost predicate Counts(s: State) {
    Tallied(s.dropped, s.pending, s.closing, s.named, s.slots)
  }

  ghost predicate Totals(s: State) {
    && s.lastMarked <= s.dropped
    && ((s.flush.Loaded? || s.flush.Snapped? || s.flush.Wrote?) ==> s.lastMarked < s.flush.cur <= s.dropped)
    && Marked(s.markers) == (if s.flush.Wrote? then s.flush.cur else s.lastMarked)
    && Running(s.markers)
  }

  /** Each marker reports at least one drop, and its total is the drops reported up to it. */
  ghost predicate Running(ms: seq<Marker>) {
    forall i | 0 <= i < |ms| :: ms[i].dropped > 0 && ms[i].total == Marked(ms[..i + 1])
  }

  ghost predicate PerBucket(s: State) {
    && (forall k | k in s.live :: s.live[k] > 0)
    && ((s.flush.Snapped? || s.flush.Wrote? || s.flush.Advanced?) ==>
          forall k :: Count(s.flush.snap, k) <= Count(s.live, k))
    && (forall k :: Written(s.markers, k) + Count(s.live, k) == s.slots[k] + Overlap(s.flush, k))
    && Small(s.live)
  }

  /** At most the cap of named buckets, and the overflow one. */
  predicate Small(b: Buckets) { |b| <= BUCKET_CAP + if Other() in b then 1 else 0 }

  lemma BucketTallied(dropped: nat, pending: multiset<Key>, closing: nat, named: multiset<Key>, slots: multiset<Key>,
                      k: Key, slot: Key)
    requires Tallied(dropped, pending, closing, named, slots)
    requires k in pending && (slot == k || slot == Other())
    ensures Tallied(dropped, pending - multiset{k}, closing, named + multiset{k}, slots + multiset{slot})
  {
    hide Other;
    assert pending == (pending - multiset{k}) + multiset{k};
  }

  lemma CountsKept(s: State, e: Step)
    requires Enabled(s, e) && Counts(s)
    ensures Counts(Do(s, e))
  {
    hide Bump, Less, Count, Other;
    if e.Bucket? {
      BucketTallied(s.dropped, s.pending, s.closing, s.named, s.slots, e.key, Slot(s.live, e.key));
    } else if !e.CountDrop? && !e.CountClosing? {
      hide Tallied;
    }
  }

  lemma AppendMarker(ms: seq<Marker>, m: Marker)
    ensures Marked(ms + [m]) == Marked(ms) + m.dropped
    ensures forall k :: Written(ms + [m], k) == Written(ms, k) + Count(m.buckets, k)
  {
    assert (ms + [m])[..|ms|] == ms;
  }

  lemma RunningAppend(ms: seq<Marker>, m: Marker)
    requires Running(ms) && m.dropped > 0 && m.total == Marked(ms) + m.dropped
    ensures Running(ms + [m])
  {
    AppendMarker(ms, m);
    hide Marked;
    forall i | 0 <= i < |ms + [m]|
      ensures (ms + [m])[i].dropped > 0 && (ms + [m])[i].total == Marked((ms + [m])[..i + 1])
    {
      assert (ms + [m])[..i + 1] == if i < |ms| then ms[..i + 1] else ms + [m];
    }
  }

  lemma TotalsKept(s: State, e: Step)
    requires Enabled(s, e) && Totals(s)
    ensures Totals(Do(s, e))
  {
    hide Bump, Less, Count, Slot, Running, Marked;
    if e.WriteMarker? && e.ok {
      var m := Do(s, e).markers[|s.markers|];
      AppendMarker(s.markers, m);
      RunningAppend(s.markers, m);
    }
  }

  lemma BumpSmall(b: Buckets, k: Key)
    requires Small(b) && forall j | j in b :: b[j] > 0
    ensures Small(Bump(b, k)) && forall j | j in Bump(b, k) :: Bump(b, k)[j] > 0
  {
    hide Other;
  }

  lemma BumpKept(s: State, k: Key)
    requires k in s.pending && PerBucket(s)
    ensures PerBucket(Do(s, Bucket(k)))
  {
    BumpSmall(s.live, k);
    hide Written, Count, Bump, Slot, Small;
    var s' := Do(s, Bucket(k));
    forall j
      ensures Count(s'.live, j) == Count(s.live, j) + if j == Slot(s.live, k) then 1 else 0
    {
      CountBump(s.live, k, j);
    }
  }

  lemma {:induction false} FewerKeys(a: set<Key>, b: set<Key>)
    requires a <= b
    ensures |a| <= |b|
  {
    if a != {} {
      var x :| x in a;
      FewerKeys(a - {x}, b - {x});
    }
  }

  lemma LessSmall(b: Buckets, snap: Buckets)
    requires Small(b)
    ensures Small(Less(b, snap)) && forall j | j in Less(b, snap) :: Less(b, snap)[j] > 0
  {
    hide Other;
    var c := Less(b, snap);
    FewerKeys(c.Keys, if Other() in b && Other() !in c then b.Keys - {Other()} else b.Keys);
  }

  lemma ResetKept(s: State)
    requires s.flush.Advanced? && PerBucket(s)
    ensures PerBucket(Do(s, Reset))
  {
    LessSmall(s.live, s.flush.snap);
    hide Written, Count, Less, Small;
    var s' := Do(s, Reset);
    forall j
      ensures Count(s'.live, j) == Count(s.live, j) - Count(s.flush.snap, j)
    {
      CountLess(s.live, s.flush.snap, j);
    }
  }

  lemma PerBucketKept(s: State, e: Step)
    requires Enabled(s, e) && PerBucket(s) && Totals(s)
    ensures PerBucket(Do(s, e))
  {
    hide Written, Marked, Count, Bump, Less, Slot, Small;
    if e.Bucket? {
      BumpKept(s, e.key);
    } else if e.Reset? {
      ResetKept(s);
    } else if e.WriteMarker? && e.ok {
      AppendMarker(s.markers, Do(s, e).markers[|s.markers|]);
    }
  }

  // ------------------------------------------------------------------ every interleaving

  ghost predicate Run(ss: seq<State>, es: seq<Step>) {
    && |ss| == |es| + 1 && ss[0] == INIT
    && forall k | 0 <= k < |es| :: Enabled(ss[k], es[k]) && ss[k + 1] == Do(ss[k], es[k])
  }

  lemma {:induction false} RunKeeps(ss: seq<State>, es: seq<Step>, k: nat)
    requires Run(ss, es) && k < |ss|
    ensures Counts(ss[k]) && Totals(ss[k]) && PerBucket(ss[k])
    decreases k
  {
    if k > 0 {
      hide Counts, Totals, PerBucket;
      RunKeeps(ss, es, k - 1);
      CountsKept(ss[k - 1], es[k - 1]);
      TotalsKept(ss[k - 1], es[k - 1]);
      PerBucketKept(ss[k - 1], es[k - 1]);
    }
  }

  /**
   In every interleaving, whatever marker writes fail: the markers on disk add up to exactly the
   drops marked so far and never over-report; between flushes every bucketed drop is either in
   exactly one marker or still live; a bucket never claims more drops than its pair had, and the
   overflow bucket holds the rest; and the live map never exceeds the cap and the overflow key.
   */
  lemma DropsAccounted(ss: seq<State>, es: seq<Step>, i: nat)
    requires Run(ss, es) && i < |ss|
    ensures Marked(ss[i].markers) <= ss[i].dropped
    ensures ss[i].flush.Idle? ==> Marked(ss[i].markers) == ss[i].lastMarked
    ensures Running(ss[i].markers)
    ensures ss[i].flush.Idle? ==> forall k :: Written(ss[i].markers, k) + Count(ss[i].live, k) == ss[i].slots[k]
    ensures forall k | k != Other() :: Written(ss[i].markers, k) <= ss[i].named[k]
    ensures ss[i].dropped == |ss[i].slots| + |ss[i].pending| + ss[i].closing
    ensures |ss[i].live| <= BUCKET_CAP + 1
  {
    hide Written, Marked;
    var s := ss[i];
    RunKeeps(ss, es, i);
    forall k | k != Other()
      ensures Written(s.markers, k) <= s.named[k]
    {
      assert s.slots[k] <= s.named[k];
      assert Written(s.markers, k) + Count(s.live, k) == s.slots[k] + Overlap(s.flush, k);
    }
  }

  lemma RoomForOne(live: Buckets, pairs: set<Key>, k: Key)
    requires live.Keys <= pairs && k in pairs && |pairs| <= BUCKET_CAP
    ensures Slot(live, k) == k
  {
    hide Other;
    if k !in live {
      FewerKeys(live.Keys, pairs - {k});
      assert |live.Keys| == |live|;
    }
  }

  lemma OwnStep(s: State, e: Step, pairs: set<Key>)
    requires Enabled(s, e) && |pairs| <= BUCKET_CAP && (e.Bucket? ==> e.key in pairs)
    requires s.slots == s.named && s.live.Keys <= pairs
    ensures Do(s, e).slots == Do(s, e).named && Do(s, e).live.Keys <= pairs
  {
    hide Slot, Count;
    if e.Bucket? { RoomForOne(s.live, pairs, e.key); }
  }

  /**
   As long as drops fall on no more pairs than the cap, every drop is counted under its own pair:
   between flushes the markers and the live buckets together name each pair exactly as often as it
   was dropped.
   */
  lemma {:induction false} OwnBuckets(ss: seq<State>, es: seq<Step>, i: nat, pairs: set<Key>)
    requires Run(ss, es) && i < |ss| && |pairs| <= 32
    requires forall l | 0 <= l < i && es[l].Bucket? :: es[l].key in pairs
    ensures ss[i].slots == ss[i].named && ss[i].live.Keys <= pairs
    ensures ss[i].flush.Idle? ==> forall k :: Written(ss[i].markers, k) + Count(ss[i].live, k) == ss[i].named[k]
    decreases i
  {
    hide Written, Count;
    if i > 0 {
      OwnBuckets(ss, es, i - 1, pairs);
      hide Do, Enabled;
      OwnStep(ss[i - 1], es[i - 1], pairs);
    }
    RunKeeps(ss, es, i);
  }

  /** A flush that finds the disk working leaves nothing unmarked, however many flushes failed before it. */
  lemma FlushCatchesUp(s: State)
    requires s.flush.Idle? && s.dropped > s.lastMarked && Totals(s)
    ensures Enabled(s, Load)
    ensures var s1 := Do(s, Load);
            var s2 := Do(s1, Snapshot);
            var s3 := Do(s2, WriteMarker(true));
            && Enabled(s3, Advance)
            && var s4 := Do(s3, Advance);
            && Marked(s4.markers) == s.dropped == s4.lastMarked
            && Do(s4, Reset).live == map[]
  {
    var s2 := Do(Do(s, Load), Snapshot);
    TotalsKept(s, Load);
    TotalsKept(Do(s, Load), Snapshot);
    TotalsKept(s2, WriteMarker(true));
    TotalsKept(Do(s2, WriteMarker(true)), Advance);
  }
}
