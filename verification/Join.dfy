/**
 Reading several tapes together: placing each record at an instant its own tape allows, and
 interleaving the tapes by those instants (internal/audit/join.go).
 */
module Join {

  import opened Wrappers

  /** `body` stands for the fields the join carries and does not read. */
  datatype Rec = Rec(tape: int, pep: string, number: nat, timeOk: bool, at: int, body: string)

  datatype Placement = Placement(rec: Rec, at: int)

  datatype Mark = Mark(at: int, number: nat)

  datatype Ordering = Ordering(ordered: seq<Rec>, unordered: seq<Rec>,
                               nonMonotonic: seq<int>, unattributed: seq<int>)

  // ------------------------------------------------------------------ filtering

  function Keep<T>(xs: seq<T>, p: T -> bool): (r: seq<T>)
    ensures forall y | y in r :: y in xs && p(y)
    ensures forall x | x in xs && p(x) :: x in r
  {
    if xs == [] then []
    else
      var rest := Keep(xs[..|xs| - 1], p);
      assert xs == xs[..|xs| - 1] + [xs[|xs| - 1]];
      if p(xs[|xs| - 1]) then rest + [xs[|xs| - 1]] else rest
  }

  lemma KeepAppend<T>(xs: seq<T>, x: T, p: T -> bool)
    ensures Keep(xs + [x], p) == if p(x) then Keep(xs, p) + [x] else Keep(xs, p)
  {
    assert (xs + [x])[..|xs|] == xs;
  }

  lemma {:induction false} KeepConcat<T>(xs: seq<T>, ys: seq<T>, p: T -> bool)
    ensures Keep(xs + ys, p) == Keep(xs, p) + Keep(ys, p)
  {
    if ys == [] {
      assert xs + ys == xs;
    } else {
      var init, y := ys[..|ys| - 1], ys[|ys| - 1];
      KeepConcat(xs, init, p);
      KeepAppend(xs + init, y, p);
      assert xs + ys == (xs + init) + [y];
    }
  }

  lemma {:induction false} KeepNone<T>(xs: seq<T>, p: T -> bool)
    requires forall x | x in xs :: !p(x)
    ensures Keep(xs, p) == []
  {
    if xs != [] { KeepNone(xs[..|xs| - 1], p); }
  }

  predicate TimeOk(r: Rec) { r.timeOk }

  predicate NoTime(r: Rec) { !r.timeOk }

  /** A record of tape `t` with a position in the sequence. */
  predicate Placeable(t: int, r: Rec) { r.tape == t && r.timeOk }

  // ------------------------------------------------------------------ placement

  /** Tape `t`'s high-water mark after `recs`. */
  function High(recs: seq<Rec>, t: int): Option<Mark> {
    if recs == [] then None
    else
      var m, r := High(recs[..|recs| - 1], t), recs[|recs| - 1];
      if !Placeable(t, r) then m else Raise(m, r)
  }

  function Raise(m: Option<Mark>, r: Rec): Option<Mark> {
    if m.None? || r.number > m.value.number then Some(Mark(Instant(m, r), r.number)) else m
  }

  function Instant(m: Option<Mark>, r: Rec): int {
    if m.Some? && r.number > m.value.number && r.at < m.value.at then m.value.at else r.at
  }

  /** Where record `k` is placed. */
  function At(recs: seq<Rec>, k: nat): int
    requires k < |recs|
  {
    Instant(High(recs[..k], recs[k].tape), recs[k])
  }

  function Placed(recs: seq<Rec>): seq<Placement> {
    if recs == [] then []
    else
      var n := |recs| - 1;
      if recs[n].timeOk then Placed(recs[..n]) + [Placement(recs[n], At(recs, n))] else Placed(recs[..n])
  }

  ghost predicate Raised(recs: seq<Rec>, t: int) {
    exists k | 0 <= k < |recs| :: Placeable(t, recs[k]) && recs[k].at < At(recs, k)
  }

  lemma AtPrefix(recs: seq<Rec>, n: nat, k: nat)
    requires k < n <= |recs|
    ensures recs[..n][k] == recs[k] && At(recs[..n], k) == At(recs, k)
  {
    assert recs[..n][..k] == recs[..k];
  }

  lemma RaisedAppend(recs: seq<Rec>, n: nat, t: int)
    requires n < |recs|
    ensures Raised(recs[..n + 1], t) <==>
              Raised(recs[..n], t) || (Placeable(t, recs[n]) && recs[n].at < At(recs, n))
  {
    hide At;
    var a, b := recs[..n], recs[..n + 1];
    AtPrefix(recs, n + 1, n);
    forall k | 0 <= k < n
      ensures a[k] == b[k] && At(a, k) == At(b, k)
    {
      AtPrefix(recs, n, k);
      AtPrefix(recs, n + 1, k);
    }
    if Raised(a, t) {
      var k :| 0 <= k < |a| && Placeable(t, a[k]) && a[k].at < At(a, k);
      assert Placeable(t, b[k]) && b[k].at < At(b, k);
    }
  }

  method ClampedPlacement(recs: seq<Rec>) returns (placed: seq<Placement>, nonMonotonic: seq<int>)
    ensures placed == Placed(recs)
    ensures Ascending(nonMonotonic) && forall t :: t in nonMonotonic <==> Raised(recs, t)
  {
    var high: map<int, Mark> := map[];
    var raised: set<int> := {};
    var found: seq<int> := [];
    placed := [];
    for i := 0 to |recs|
      invariant placed == Placed(recs[..i])
      invariant forall t :: (if t in high then Some(high[t]) else None) == High(recs[..i], t)
      invariant forall t :: t in raised <==> Raised(recs[..i], t)
      invariant Distinct(found) && forall t :: t in found <==> t in raised
    {
      var r := recs[i];
      assert recs[..i + 1][..i] == recs[..i];
      assert recs[..i + 1][i] == r;
      forall t
        ensures Raised(recs[..i + 1], t) <==> Raised(recs[..i], t) || (Placeable(t, r) && r.at < At(recs, i))
      {
        RaisedAppend(recs, i, t);
      }
      if r.timeOk {
        var at := r.at;
        if r.tape in high && r.number > high[r.tape].number && at < high[r.tape].at {
          at := high[r.tape].at;
          if r.tape !in raised {
            raised := raised + {r.tape};
            found := found + [r.tape];
          }
        }
        if r.tape !in high || r.number > high[r.tape].number {
          high := high[r.tape := Mark(at, r.number)];
        }
        placed := placed + [Placement(r, at)];
      }
    }
    assert recs[..|recs|] == recs;
    nonMonotonic := SortInts(found);
  }

  method UnattributedTapes(recs: seq<Rec>) returns (tapes: seq<int>)
    ensures Ascending(tapes)
    ensures forall t :: t in tapes <==> exists r | r in recs :: r.tape == t && r.pep == ""
  {
    var seen: set<int> := {};
    var found: seq<int> := [];
    for i := 0 to |recs|
      invariant Distinct(found) && forall t :: t in found <==> t in seen
      invariant forall t :: t in seen <==> exists r | r in recs[..i] :: r.tape == t && r.pep == ""
    {
      assert recs[..i + 1] == recs[..i] + [recs[i]];
      if recs[i].pep == "" && recs[i].tape !in seen {
        seen := seen + {recs[i].tape};
        found := found + [recs[i].tape];
      }
    }
    assert recs[..|recs|] == recs;
    tapes := SortInts(found);
  }

  // ------------------------------------------------------------------ sorting

  predicate Distinct(xs: seq<int>) { forall i, j | 0 <= i < j < |xs| :: xs[i] != xs[j] }

  predicate Ascending(xs: seq<int>) { forall i, j | 0 <= i < j < |xs| :: xs[i] < xs[j] }

  lemma AscendingInsert(s: seq<int>, x: int, j: nat)
    requires j <= |s| && Ascending(s) && (j > 0 ==> s[j - 1] < x) && (forall k | j <= k < |s| :: x < s[k])
    ensures Ascending(s[..j] + [x] + s[j..])
  {
    var t := s[..j] + [x] + s[j..];
    assert forall k | 0 <= k < j :: s[k] <= s[j - 1] < x;
    assert forall k | 0 <= k < |t| :: t[k] == if k < j then s[k] else if k == j then x else s[k - 1];
  }

  lemma InsertMembers(s: seq<int>, x: int, j: nat, y: int)
    requires j <= |s|
    ensures y in s[..j] + [x] + s[j..] <==> y == x || y in s
  {
    assert s == s[..j] + s[j..];
    var a, b := s[..j], s[j..];
    assert y in a + b <==> y in a || y in b;
  }

  method SortInts(xs: seq<int>) returns (out: seq<int>)
    requires Distinct(xs)
    ensures Ascending(out) && forall x :: x in out <==> x in xs
  {
    out := [];
    for i := 0 to |xs|
      invariant Ascending(out) && forall x :: x in out <==> x in xs[..i]
    {
      var j := Position(out, xs, i);
      AscendingInsert(out, xs[i], j);
      forall y
        ensures y in out[..j] + [xs[i]] + out[j..] <==> y == xs[i] || y in out
      {
        InsertMembers(out, xs[i], j, y);
      }
      assert xs[..i + 1] == xs[..i] + [xs[i]];
      out := out[..j] + [xs[i]] + out[j..];
    }
    assert xs[..|xs|] == xs;
  }

  method Position(out: seq<int>, xs: seq<int>, i: nat) returns (j: nat)
    requires i < |xs| && Distinct(xs) && forall x | x in out :: x in xs[..i]
    ensures j <= |out| && (j > 0 ==> out[j - 1] < xs[i]) && (forall k | j <= k < |out| :: xs[i] < out[k])
  {
    j := |out|;
    while j > 0 && out[j - 1] > xs[i]
      invariant j <= |out| && forall k | j <= k < |out| :: out[k] > xs[i]
    {
      j := j - 1;
    }
    assert xs[i] !in xs[..i];
    assert j > 0 ==> out[j - 1] in out;
  }

  predicate Le(a: Placement, b: Placement) {
    || a.at < b.at
    || (a.at == b.at && (a.rec.tape < b.rec.tape || (a.rec.tape == b.rec.tape && a.rec.number <= b.rec.number)))
  }

  predicate Ordered(ps: seq<Placement>) { forall i, j | 0 <= i < j < |ps| :: Le(ps[i], ps[j]) }

  /** Earlier instants first; at one instant the lower tape; on one tape the lower seq. */
  ghost predicate ByInstant(ps: seq<Placement>) {
    forall i, j | 0 <= i < j < |ps| ::
      && ps[i].at <= ps[j].at
      && (ps[i].at == ps[j].at ==> ps[i].rec.tape <= ps[j].rec.tape)
      && (ps[i].at == ps[j].at && ps[i].rec.tape == ps[j].rec.tape ==> ps[i].rec.number <= ps[j].rec.number)
  }

  lemma OrderedByInstant(ps: seq<Placement>)
    ensures Ordered(ps) <==> ByInstant(ps)
  {
    assert forall i, j | 0 <= i < j < |ps| :: Le(ps[i], ps[j]) <==>
        && ps[i].at <= ps[j].at
        && (ps[i].at == ps[j].at ==> ps[i].rec.tape <= ps[j].rec.tape)
        && (ps[i].at == ps[j].at && ps[i].rec.tape == ps[j].rec.tape ==> ps[i].rec.number <= ps[j].rec.number);
  }

  /** Whatever part of the input is in order already comes out in the same order. */
  ghost predicate Stable(ps: seq<Placement>, out: seq<Placement>) {
    forall p: Placement -> bool :: Ordered(Keep(ps, p)) ==> Keep(out, p) == Keep(ps, p)
  }

  lemma OrderedInsert(a: seq<Placement>, x: Placement, b: seq<Placement>)
    requires Ordered(a + b) && (forall y | y in a :: Le(y, x)) && (forall y | y in b :: !Le(y, x))
    ensures Ordered(a + [x] + b)
  {
    var s, t := a + b, a + [x] + b;
    forall i, j | 0 <= i < j < |t|
      ensures Le(t[i], t[j])
    {
      if i == |a| {
        assert t[j] in b;
      } else if j == |a| {
        assert t[i] in a;
      } else {
        var i', j' := if i < |a| then i else i - 1, if j < |a| then j else j - 1;
        assert t[i] == s[i'] && t[j] == s[j'];
      }
    }
  }

  lemma LastIsGreatest(ks: seq<Placement>, x: Placement)
    requires Ordered(ks + [x])
    ensures Ordered(ks) && forall y | y in ks :: Le(y, x)
  {
    var all := ks + [x];
    assert forall i | 0 <= i < |ks| :: ks[i] == all[i];
    assert forall i | 0 <= i < |ks| :: Le(all[i], all[|ks|]);
  }

  lemma InsertKeep(xs: seq<Placement>, a: seq<Placement>, x: Placement, b: seq<Placement>, p: Placement -> bool)
    requires Keep(a + b, p) == Keep(xs, p) && Ordered(Keep(xs + [x], p))
    requires forall y | y in b :: !Le(y, x)
    ensures Keep(a + [x] + b, p) == Keep(xs + [x], p)
  {
    hide Keep, Le, Ordered;
    KeepAppend(xs, x, p);
    KeepConcat(a, b, p);
    KeepAppend(a, x, p);
    KeepConcat(a + [x], b, p);
    if p(x) {
      LastIsGreatest(Keep(xs, p), x);
      forall y | y in b
        ensures !p(y)
      {
        assert y in a + b;
        assert p(y) ==> y in Keep(a + b, p);
      }
      KeepNone(b, p);
    }
  }

  lemma StableInsert(xs: seq<Placement>, a: seq<Placement>, x: Placement, b: seq<Placement>)
    requires Stable(xs, a + b)
    requires forall y | y in b :: !Le(y, x)
    ensures Stable(xs + [x], a + [x] + b)
  {
    hide Keep, Le, Ordered;
    forall p: Placement -> bool | Ordered(Keep(xs + [x], p))
      ensures Keep(a + [x] + b, p) == Keep(xs + [x], p)
    {
      KeepAppend(xs, x, p);
      if p(x) {
        LastIsGreatest(Keep(xs, p), x);
      }
      InsertKeep(xs, a, x, b, p);
    }
  }

  lemma SpliceSides(s: seq<Placement>, x: Placement, j: nat)
    requires j <= |s| && Ordered(s) && (j > 0 ==> Le(s[j - 1], x))
    requires forall k | j <= k < |s| :: !Le(s[k], x)
    ensures (forall y | y in s[..j] :: Le(y, x)) && (forall y | y in s[j..] :: !Le(y, x))
  {
    forall k | 0 <= k < j
      ensures Le(s[k], x)
    {
      assert k < j - 1 ==> Le(s[k], s[j - 1]);
    }
  }

  lemma SpliceMultiset(xs: seq<Placement>, s: seq<Placement>, x: Placement, j: nat)
    requires j <= |s| && multiset(s) == multiset(xs)
    ensures s == s[..j] + s[j..] && multiset(s[..j] + [x] + s[j..]) == multiset(xs + [x])
  {
    assert s == s[..j] + s[j..];
  }

  /** One step of the sort, at the position the scan found. */
  method Spliced(ghost xs: seq<Placement>, s: seq<Placement>, x: Placement, j: nat) returns (out: seq<Placement>)
    requires j <= |s| && Ordered(s) && multiset(s) == multiset(xs) && Stable(xs, s)
    requires j > 0 ==> Le(s[j - 1], x)
    requires forall k | j <= k < |s| :: !Le(s[k], x)
    ensures Ordered(out) && multiset(out) == multiset(xs + [x]) && Stable(xs + [x], out)
  {
    hide Stable;
    var a, b := s[..j], s[j..];
    SpliceSides(s, x, j);
    SpliceMultiset(xs, s, x, j);
    hide Ordered, Le;
    OrderedInsert(a, x, b);
    StableInsert(xs, a, x, b);
    out := a + [x] + b;
  }

  method StableSort(ps: seq<Placement>) returns (out: seq<Placement>)
    ensures Ordered(out) && ByInstant(out) && multiset(out) == multiset(ps) && Stable(ps, out)
  {
    out := [];
    assert ps[..0] == [];
    assert Stable([], []);
    hide Keep, Stable, Ordered, Le;
    for i := 0 to |ps|
      invariant Ordered(out) && multiset(out) == multiset(ps[..i]) && Stable(ps[..i], out)
    {
      assert ps[..i + 1] == ps[..i] + [ps[i]];
      var j := |out|;
      while j > 0 && !Le(out[j - 1], ps[i])
        invariant 0 <= j <= |out| && forall k | j <= k < |out| :: !Le(out[k], ps[i])
      {
        j := j - 1;
      }
      out := Spliced(ps[..i], out, ps[i], j);
    }
    assert ps[..|ps|] == ps;
    OrderedByInstant(out);
  }

  /** Equal keys. */
  function Tied(x: Placement): Placement -> bool {
    (y: Placement) => Le(x, y) && Le(y, x)
  }

  lemma SameLast(a: seq<Placement>, x: Placement, b: seq<Placement>, y: Placement)
    requires Ordered(a + [x]) && Ordered(b + [y])
    requires forall z :: Keep(a + [x], Tied(z)) == Keep(b + [y], Tied(z))
    ensures x == y
  {
    assert x in Keep(a + [x], Tied(x)) && x in Keep(b + [y], Tied(x));
    assert y in Keep(b + [y], Tied(y)) && y in Keep(a + [x], Tied(y));
    hide Keep;
    assert x in b + [y] && y in a + [x];
    LastIsGreatest(a, x);
    LastIsGreatest(b, y);
    KeepAppend(a, x, Tied(x));
    KeepAppend(b, y, Tied(x));
    var g := Keep(a + [x], Tied(x));
    assert g[|g| - 1] == x;
  }

  lemma DropLast<T>(a: seq<T>, b: seq<T>, x: T)
    requires a + [x] == b + [x]
    ensures a == b
  {
    assert a == (a + [x])[..|a|] && b == (b + [x])[..|b|] && |a + [x]| == |b + [x]|;
  }

  lemma SameInit<T>(a: seq<T>, b: seq<T>, x: T, p: T -> bool)
    requires Keep(a + [x], p) == Keep(b + [x], p)
    ensures Keep(a, p) == Keep(b, p)
  {
    hide Keep;
    KeepAppend(a, x, p);
    KeepAppend(b, x, p);
    if p(x) { DropLast(Keep(a, p), Keep(b, p), x); }
  }

  lemma NonemptyGroup(a: seq<Placement>)
    ensures a != [] ==> Keep(a, Tied(a[0])) != []
  {
    if a != [] { assert Tied(a[0])(a[0]) && a[0] in Keep(a, Tied(a[0])); }
  }

  lemma {:induction false} SameGroupsSameOrder(a: seq<Placement>, b: seq<Placement>)
    requires Ordered(a) && Ordered(b)
    requires forall x :: Keep(a, Tied(x)) == Keep(b, Tied(x))
    ensures a == b
    decreases |a|
  {
    if a == [] {
      NonemptyGroup(b);
    } else {
      NonemptyGroup(a);
      assert b != [];
      hide Keep, Tied, Le;
      var n, m := |a| - 1, |b| - 1;
      var x, y := a[n], b[m];
      assert a == a[..n] + [x] && b == b[..m] + [y];
      SameLast(a[..n], x, b[..m], y);
      forall z
        ensures Keep(a[..n], Tied(z)) == Keep(b[..m], Tied(z))
      {
        SameInit(a[..n], b[..m], x, Tied(z));
      }
      SameGroupsSameOrder(a[..n], b[..m]);
    }
  }

  /** So the result does not depend on which stable sort is used. */
  lemma StableSortUnique(ps: seq<Placement>, a: seq<Placement>, b: seq<Placement>)
    requires Ordered(a) && Stable(ps, a) && Ordered(b) && Stable(ps, b)
    ensures a == b
  {
    forall x
      ensures Keep(a, Tied(x)) == Keep(b, Tied(x))
    {
      var ks := Keep(ps, Tied(x));
      assert forall i | 0 <= i < |ks| :: ks[i] in ks && Tied(x)(ks[i]);
      assert Ordered(ks);
    }
    SameGroupsSameOrder(a, b);
  }

  // ------------------------------------------------------------------ a tape in its proven order

  ghost predicate Increasing(recs: seq<Rec>, t: int) {
    forall i, j | 0 <= i < j < |recs| && Placeable(t, recs[i]) && Placeable(t, recs[j]) ::
      recs[i].number < recs[j].number
  }

  /** On a tape whose seqs increase, the mark is the latest time and the last seq so far. */
  lemma {:induction false} HighIsMax(recs: seq<Rec>, t: int)
    requires Increasing(recs, t)
    ensures High(recs, t).None? ==> forall i | 0 <= i < |recs| :: !Placeable(t, recs[i])
    ensures High(recs, t).Some? ==>
              && (forall i | 0 <= i < |recs| && Placeable(t, recs[i]) ::
                    recs[i].at <= High(recs, t).value.at && recs[i].number <= High(recs, t).value.number)
              && (exists i | 0 <= i < |recs| :: Placeable(t, recs[i]) && recs[i].at == High(recs, t).value.at)
              && (exists i | 0 <= i < |recs| :: Placeable(t, recs[i]) && recs[i].number == High(recs, t).value.number)
  {
    if recs != [] {
      var n := |recs| - 1;
      assert forall i | 0 <= i < n :: recs[..n][i] == recs[i];
      HighIsMax(recs[..n], t);
    }
  }

  lemma NextNumber(recs: seq<Rec>, n: nat)
    requires n < |recs| && recs[n].timeOk && Increasing(recs, recs[n].tape)
    ensures var h := High(recs[..n], recs[n].tape); h.Some? ==> h.value.number < recs[n].number
  {
    var t := recs[n].tape;
    assert forall i | 0 <= i < n :: recs[..n][i] == recs[i];
    HighIsMax(recs[..n], t);
    hide High;
    var h := High(recs[..n], t);
    if h.Some? {
      var j :| 0 <= j < n && Placeable(t, recs[..n][j]) && recs[..n][j].number == h.value.number;
      assert recs[j].number < recs[n].number;
    }
  }

  /** A record is placed at the latest time its tape has recorded up to it. */
  lemma RunningMax(recs: seq<Rec>, k: nat)
    requires k < |recs| && recs[k].timeOk && Increasing(recs, recs[k].tape)
    ensures forall i | 0 <= i <= k && Placeable(recs[k].tape, recs[i]) :: recs[i].at <= At(recs, k)
    ensures exists i | 0 <= i <= k :: Placeable(recs[k].tape, recs[i]) && recs[i].at == At(recs, k)
  {
    var t := recs[k].tape;
    assert forall i | 0 <= i < k :: recs[..k][i] == recs[i];
    HighIsMax(recs[..k], t);
    NextNumber(recs, k);
    hide High;
    var h := High(recs[..k], t);
    if h.Some? {
      var i :| 0 <= i < k && Placeable(t, recs[..k][i]) && recs[..k][i].at == h.value.at;
      assert At(recs, k) == if recs[k].at < recs[i].at then recs[i].at else recs[k].at;
    }
    assert Placeable(t, recs[k]);
  }

  /** No assignment of instants that respects the tape's times and its order places a record earlier. */
  lemma LeastRaise(recs: seq<Rec>, k: nat, f: nat -> int)
    requires k < |recs| && recs[k].timeOk && Increasing(recs, recs[k].tape)
    requires forall i: nat | i <= k && Placeable(recs[k].tape, recs[i]) :: recs[i].at <= f(i) <= f(k)
    ensures At(recs, k) <= f(k)
  {
    RunningMax(recs, k);
  }

  /** A tape is reported exactly when its recorded time goes backwards somewhere. */
  lemma RaisedIffBackwards(recs: seq<Rec>, t: int)
    requires Increasing(recs, t)
    ensures Raised(recs, t) <==>
              exists i, k | 0 <= i < k < |recs| ::
                Placeable(t, recs[i]) && Placeable(t, recs[k]) && recs[k].at < recs[i].at
  {
    hide At, High;
    forall k | 0 <= k < |recs| && Placeable(t, recs[k])
      ensures recs[k].at < At(recs, k) <==> exists i | 0 <= i < k :: Placeable(t, recs[i]) && recs[k].at < recs[i].at
    {
      RunningMax(recs, k);
    }
  }

  lemma OrderedAppend(ps: seq<Placement>, x: Placement)
    requires Ordered(ps) && (ps != [] ==> Le(ps[|ps| - 1], x))
    ensures Ordered(ps + [x])
  {
    assert forall i | 0 <= i < |ps| - 1 :: Le(ps[i], ps[|ps| - 1]);
  }

  function PlacedOn(t: int): Placement -> bool {
    (p: Placement) => p.rec.tape == t
  }

  /** In order, and ending at the mark. */
  ghost predicate UpTo(ks: seq<Placement>, h: Option<Mark>, t: int) {
    && Ordered(ks)
    && (forall k | k in ks :: k.rec.tape == t)
    && (ks == [] <==> h.None?)
    && (ks != [] ==> ks[|ks| - 1].at == h.value.at && ks[|ks| - 1].rec.number == h.value.number)
  }

  lemma UpToNext(ks: seq<Placement>, h: Option<Mark>, r: Rec)
    requires UpTo(ks, h, r.tape) && (h.Some? ==> h.value.number < r.number)
    ensures UpTo(ks + [Placement(r, Instant(h, r))], Raise(h, r), r.tape)
  {
    assert ks != [] ==> ks[|ks| - 1] in ks;
    OrderedAppend(ks, Placement(r, Instant(h, r)));
  }

  /** A tape's placements are already in order when they reach the sort. */
  lemma {:induction false} TapeInOrder(recs: seq<Rec>, t: int)
    requires Increasing(recs, t)
    ensures UpTo(Keep(Placed(recs), PlacedOn(t)), High(recs, t), t)
  {
    if recs != [] {
      var n := |recs| - 1;
      var r := recs[n];
      TapeInOrder(recs[..n], t);
      hide UpTo, Increasing, Keep, Instant, Raise;
      if r.timeOk {
        KeepAppend(Placed(recs[..n]), Placement(r, At(recs, n)), PlacedOn(t));
        if r.tape == t {
          NextNumber(recs, n);
          UpToNext(Keep(Placed(recs[..n]), PlacedOn(t)), High(recs[..n], t), r);
        }
      }
    }
  }

  function Recs(ps: seq<Placement>): (rs: seq<Rec>)
    ensures |rs| == |ps|
  {
    if ps == [] then [] else Recs(ps[..|ps| - 1]) + [ps[|ps| - 1].rec]
  }

  function Of(t: int): Rec -> bool {
    (r: Rec) => r.tape == t
  }

  lemma {:induction false} KeepRecs(ps: seq<Placement>, t: int)
    ensures Keep(Recs(ps), Of(t)) == Recs(Keep(ps, PlacedOn(t)))
  {
    if ps != [] {
      var n := |ps| - 1;
      KeepRecs(ps[..n], t);
      KeepAppend(Recs(ps[..n]), ps[n].rec, Of(t));
      RecsAppend(Keep(ps[..n], PlacedOn(t)), ps[n]);
    }
  }

  lemma RecsAppend(ps: seq<Placement>, p: Placement)
    ensures Recs(ps + [p]) == Recs(ps) + [p.rec]
  {
    assert (ps + [p])[..|ps|] == ps;
  }

  lemma {:induction false} RecsConcat(ps: seq<Placement>, qs: seq<Placement>)
    ensures Recs(ps + qs) == Recs(ps) + Recs(qs)
  {
    if qs == [] {
      assert ps + qs == ps;
    } else {
      var m := |qs| - 1;
      RecsConcat(ps, qs[..m]);
      assert ps + qs == (ps + qs[..m]) + [qs[m]];
      RecsAppend(ps + qs[..m], qs[m]);
    }
  }

  lemma WithoutOne(init: seq<Placement>, x: Placement, a: seq<Placement>, b: seq<Placement>,
                   ps: seq<Placement>, qs: seq<Placement>)
    requires ps == init + [x] && qs == a + [x] + b && multiset(ps) == multiset(qs)
    ensures multiset(init) == multiset(a + b)
  {
    assert multiset(ps) == multiset(init) + multiset{x};
    assert multiset(qs) == multiset(a) + multiset{x} + multiset(b);
    assert multiset(init) == multiset(ps) - multiset{x};
    assert multiset(a + b) == multiset(qs) - multiset{x};
  }

  lemma {:induction false} RecsPermuted(ps: seq<Placement>, qs: seq<Placement>)
    requires multiset(ps) == multiset(qs)
    ensures multiset(Recs(ps)) == multiset(Recs(qs))
    decreases |ps|
  {
    if ps == [] {
      assert |multiset(qs)| == |qs|;
    } else {
      var n := |ps| - 1;
      var x := ps[n];
      assert x in multiset(ps);
      var j :| 0 <= j < |qs| && qs[j] == x;
      var a, b := qs[..j], qs[j + 1..];
      WithoutOne(ps[..n], x, a, b, ps, qs);
      RecsPermuted(ps[..n], a + b);
      RecsConcat(a, b);
      RecsConcat(a + [x], b);
      RecsAppend(a, x);
    }
  }

  lemma {:induction false} RecsOfPlaced(recs: seq<Rec>)
    ensures Recs(Placed(recs)) == Keep(recs, TimeOk)
  {
    if recs != [] {
      var n := |recs| - 1;
      RecsOfPlaced(recs[..n]);
      if recs[n].timeOk { RecsAppend(Placed(recs[..n]), Placement(recs[n], At(recs, n))); }
    }
  }

  ghost predicate ByTime(rs: seq<Rec>) {
    forall i, j | 0 <= i < j < |rs| :: rs[i].at <= rs[j].at
  }

  lemma {:induction false} RecsAt(ps: seq<Placement>, i: nat)
    requires i < |ps|
    ensures Recs(ps)[i] == ps[i].rec
  {
    if i < |ps| - 1 { RecsAt(ps[..|ps| - 1], i); }
  }

  /** Where no tape is raised every record is placed at its own time. */
  lemma {:induction false} PlacedAtOwnTime(recs: seq<Rec>)
    requires forall t :: !Raised(recs, t)
    ensures forall p | p in Placed(recs) :: p.at == p.rec.at
    decreases |recs|
  {
    if recs != [] {
      var n := |recs| - 1;
      assert recs[..n + 1] == recs;
      hide Raised, At;
      forall t
        ensures !Raised(recs[..n], t) && !(Placeable(t, recs[n]) && recs[n].at < At(recs, n))
      {
        RaisedAppend(recs, n, t);
      }
      PlacedAtOwnTime(recs[..n]);
      assert Placeable(recs[n].tape, recs[n]) ==> recs[n].at == At(recs, n) by { NeverEarlier(recs, n); }
    }
  }

  lemma NeverEarlier(recs: seq<Rec>, k: nat)
    requires k < |recs|
    ensures recs[k].at <= At(recs, k)
  {
  }

  lemma {:induction false} KeepByTime(rs: seq<Rec>, p: Rec -> bool)
    requires ByTime(rs)
    ensures ByTime(Keep(rs, p))
  {
    if rs != [] {
      var n := |rs| - 1;
      KeepByTime(rs[..n], p);
      assert forall r | r in rs[..n] :: r.at <= rs[n].at;
      var ks := Keep(rs[..n], p);
      assert forall i | 0 <= i < |ks| :: ks[i] in ks;
    }
  }

  /** What is kept in order was in order. */
  lemma {:induction false} KeptByTime(rs: seq<Rec>, p: Rec -> bool, i: nat, k: nat)
    requires ByTime(Keep(rs, p)) && i < k < |rs| && p(rs[i]) && p(rs[k])
    ensures rs[i].at <= rs[k].at
    decreases |rs|
  {
    var n := |rs| - 1;
    var ks := Keep(rs[..n], p);
    assert p(rs[n]) ==> Keep(rs, p) == ks + [rs[n]];
    assert forall j | 0 <= j < |ks| :: ks[j] == Keep(rs, p)[j];
    if k < n {
      KeptByTime(rs[..n], p, i, k);
    } else {
      assert rs[..n][i] == rs[i] && rs[i] in ks;
      var j :| 0 <= j < |ks| && ks[j] == rs[i];
      assert Keep(rs, p)[j].at <= Keep(rs, p)[|ks|].at;
    }
  }

  lemma {:induction false} KeepTwice(rs: seq<Rec>, t: int)
    ensures Keep(Keep(rs, TimeOk), Of(t)) == Keep(rs, (r: Rec) => Placeable(t, r))
  {
    if rs != [] {
      var n := |rs| - 1;
      KeepTwice(rs[..n], t);
      KeepAppend(Keep(rs[..n], TimeOk), rs[n], Of(t));
    }
  }

  /** A tape whose order was kept in a sequence sorted by recorded time did not go backwards. */
  lemma SortedNotRaised(recs: seq<Rec>, ordered: seq<Rec>, t: int)
    requires Increasing(recs, t) && ByTime(ordered) && Keep(ordered, Of(t)) == Keep(Keep(recs, TimeOk), Of(t))
    ensures !Raised(recs, t)
  {
    hide Keep, ByTime, Raised;
    KeepByTime(ordered, Of(t));
    KeepTwice(recs, t);
    var on := (r: Rec) => Placeable(t, r);
    forall i, k | 0 <= i < k < |recs| && Placeable(t, recs[i]) && Placeable(t, recs[k])
      ensures recs[i].at <= recs[k].at
    {
      KeptByTime(recs, on, i, k);
    }
    RaisedIffBackwards(recs, t);
  }

  lemma OwnTimeSorted(recs: seq<Rec>, ps: seq<Placement>)
    requires ByInstant(ps) && multiset(ps) == multiset(Placed(recs)) && forall t :: !Raised(recs, t)
    ensures ByTime(Recs(ps))
  {
    hide Placed, Raised;
    PlacedAtOwnTime(recs);
    forall i | 0 <= i < |ps|
      ensures ps[i].at == ps[i].rec.at && Recs(ps)[i] == ps[i].rec
    {
      assert ps[i] in multiset(ps);
      RecsAt(ps, i);
    }
  }

  lemma TapeOrderKept(recs: seq<Rec>, ps: seq<Placement>, t: int)
    requires Increasing(recs, t) && Stable(Placed(recs), ps)
    ensures Keep(Recs(ps), Of(t)) == Keep(Keep(recs, TimeOk), Of(t))
  {
    TapeInOrder(recs, t);
    KeepRecs(ps, t);
    KeepRecs(Placed(recs), t);
    RecsOfPlaced(recs);
  }

  method OrderJoinedRecords(recs: seq<Rec>) returns (out: Ordering, ghost ps: seq<Placement>)
    ensures out.unordered == Keep(recs, NoTime)
    ensures multiset(out.ordered) == multiset(Keep(recs, TimeOk))
    // The tapes are interleaved by the instants their records are placed at.
    ensures |ps| == |out.ordered| && multiset(ps) == multiset(Placed(recs)) && Stable(Placed(recs), ps)
    ensures forall i | 0 <= i < |ps| :: ps[i].rec == out.ordered[i]
    ensures forall i, j | 0 <= i < j < |ps| ::
              && ps[i].at <= ps[j].at
              && (ps[i].at == ps[j].at ==> ps[i].rec.tape <= ps[j].rec.tape)
              && (ps[i].at == ps[j].at && ps[i].rec.tape == ps[j].rec.tape ==> ps[i].rec.number <= ps[j].rec.number)
    // With no tape reported that is by recorded time, and on tapes with increasing seqs only then.
    ensures out.nonMonotonic == [] ==>
              forall i, j | 0 <= i < j < |out.ordered| :: out.ordered[i].at <= out.ordered[j].at
    ensures (forall t :: Increasing(recs, t))
              && (forall i, j | 0 <= i < j < |out.ordered| :: out.ordered[i].at <= out.ordered[j].at) ==>
              out.nonMonotonic == []
    ensures forall t | Increasing(recs, t) :: Keep(out.ordered, Of(t)) == Keep(Keep(recs, TimeOk), Of(t))
    ensures Ascending(out.nonMonotonic) && forall t :: t in out.nonMonotonic <==> Raised(recs, t)
    ensures Ascending(out.unattributed)
    ensures forall t :: t in out.unattributed <==> exists r | r in recs :: r.tape == t && r.pep == ""
  {
    hide Raised, Stable, Ordered, Ascending, Increasing, Placed, Keep, Le;
    var unattributed := UnattributedTapes(recs);
    var placed, nonMonotonic := ClampedPlacement(recs);
    var unordered: seq<Rec> := [];
    KeepNone(recs[..0], NoTime);
    for i := 0 to |recs|
      invariant unordered == Keep(recs[..i], NoTime)
    {
      assert recs[..i + 1] == recs[..i] + [recs[i]];
      KeepAppend(recs[..i], recs[i], NoTime);
      if !recs[i].timeOk { unordered := unordered + [recs[i]]; }
    }
    assert recs[..|recs|] == recs;
    var sorted := StableSort(placed);
    var ordered: seq<Rec> := [];
    for i := 0 to |sorted|
      invariant ordered == Recs(sorted[..i])
    {
      assert sorted[..i + 1] == sorted[..i] + [sorted[i]];
      RecsAppend(sorted[..i], sorted[i]);
      ordered := ordered + [sorted[i].rec];
    }
    assert sorted[..|sorted|] == sorted;
    RecsPermuted(sorted, placed);
    RecsOfPlaced(recs);
    forall t | Increasing(recs, t)
      ensures Keep(ordered, Of(t)) == Keep(Keep(recs, TimeOk), Of(t))
    {
      TapeOrderKept(recs, sorted, t);
    }
    ps, out := sorted, Ordering(ordered, unordered, nonMonotonic, unattributed);
    forall i | 0 <= i < |ps| ensures ps[i].rec == ordered[i] { RecsAt(ps, i); }
    if nonMonotonic == [] {
      OwnTimeSorted(recs, ps);
    } else if (forall t :: Increasing(recs, t)) && ByTime(ordered) {
      assert nonMonotonic[0] in nonMonotonic;
      SortedNotRaised(recs, ordered, nonMonotonic[0]);
      assert false;
    }
  }
}
