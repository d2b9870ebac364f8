/**
 The size caps that keep a record's string lists inside their budget
 (boundedList.bound and truncate in internal/audit/audit.go).
 */
module Bounds {
  import opened Bytes
  import opened Json

  // ------------------------------------------------------------------ a marshaled list

  function Elements(enc: Bytes -> Bytes, items: seq<Bytes>): (b: Bytes) {
    if items == [] then []
    else
      var n := |items| - 1;
      Elements(enc, items[..n]) + (if n > 0 then [44] else []) + enc(items[n])
  }

  /** json.Marshal of a []string. */
  function MarshalList(enc: Bytes -> Bytes, items: seq<Bytes>): (b: Bytes) {
    [91] + Elements(enc, items) + [93]
  }

  /** What the accounting charges: each entry's spelling and one comma. */
  function Charge(enc: Bytes -> Bytes, items: seq<Bytes>): (n: nat) {
    if items == [] then 0 else Charge(enc, items[..|items| - 1]) + |enc(items[|items| - 1])| + 1
  }

  /** The accounting's running total, seeded at 1, is the marshaled size of a non-empty list. */
  lemma {:induction false} MarshalListLength(enc: Bytes -> Bytes, items: seq<Bytes>)
    ensures |MarshalList(enc, items)| == if items == [] then 2 else 1 + Charge(enc, items)
  {
    if items != [] { MarshalListLength(enc, items[..|items| - 1]); }
  }

  lemma {:induction false} MarshalListOneLine(enc: Bytes -> Bytes, items: seq<Bytes>)
    requires IsEncoder(enc)
    ensures NoNewline(Elements(enc, items)) && NoNewline(MarshalList(enc, items))
    decreases |items|
  {
    if items != [] {
      var n := |items| - 1;
      MarshalListOneLine(enc, items[..n]);
      assert Spells(enc, items[n]);
    }
  }

  lemma ChargeEmpty(enc: Bytes -> Bytes, items: seq<Bytes>)
    ensures Charge(enc, items[..0]) == 0
  {
  }

  lemma ChargeAppend(enc: Bytes -> Bytes, items: seq<Bytes>, x: Bytes)
    ensures Charge(enc, items + [x]) == Charge(enc, items) + |enc(x)| + 1
  {
    assert (items + [x])[..|items|] == items;
  }

  lemma {:induction false} ChargePrefix(enc: Bytes -> Bytes, items: seq<Bytes>, i: nat)
    requires i <= |items|
    ensures Charge(enc, items[..i]) <= Charge(enc, items)
    decreases |items|
  {
    if i < |items| {
      var init := items[..|items| - 1];
      ChargePrefix(enc, init, i);
      assert init[..i] == items[..i];
    } else {
      assert items[..i] == items;
    }
  }

  lemma ChargeStep(enc: Bytes -> Bytes, items: seq<Bytes>, i: nat)
    requires i < |items|
    ensures Charge(enc, items[..i + 1]) == Charge(enc, items[..i]) + |enc(items[i])| + 1
  {
    assert items[..i + 1][..i] == items[..i];
  }

  // ------------------------------------------------------------------ the cap

  /** The bytes of `_truncated:`. */
  const TRUNCATED: Bytes := [95, 116, 114, 117, 110, 99, 97, 116, 101, 100, 58]

  datatype BoundedList = BoundedList(cap: nat, kind: Bytes) {

    /** sentinel: the entry that stands for `omitted` dropped ones. */
    function Sentinel(omitted: nat): (s: Bytes) {
      kind + TRUNCATED + Decimal(omitted)
    }

    /** The count can be read off it. */
    lemma SentinelTells(omitted: nat)
      ensures var s, n := Sentinel(omitted), |kind| + |TRUNCATED|;
              && n < |s| && (forall i | n <= i < |s| :: 48 <= s[i] <= 57) && ReadDecimal(s[n..]) == omitted
    {
      var n := |kind| + |TRUNCATED|;
      assert Sentinel(omitted)[n..] == Decimal(omitted);
      DecimalReads(omitted);
    }

    predicate Fits(enc: Bytes -> Bytes, items: seq<Bytes>) {
      |MarshalList(enc, items)| <= cap
    }

    /** Fewer omitted entries never need a longer sentinel. */
    lemma SentinelMonotone(enc: Bytes -> Bytes, m: nat, n: nat)
      requires IsEncoder(enc) && Plain(kind) && m <= n
      ensures |enc(Sentinel(m))| <= |enc(Sentinel(n))|
    {
      DecimalMonotone(m, n);
      SentinelPlain(m);
      SentinelPlain(n);
      assert Spells(enc, Sentinel(m)) && Spells(enc, Sentinel(n));
    }

    lemma SentinelPlain(m: nat)
      requires Plain(kind)
      ensures Plain(Sentinel(m))
    {
      assert Plain(TRUNCATED) && Plain(Decimal(m));
    }

    lemma FitsAppend(enc: Bytes -> Bytes, kept: seq<Bytes>, s: Bytes)
      ensures Fits(enc, kept + [s]) <==> Charge(enc, kept) + |enc(s)| + 2 <= cap
    {
      ChargeAppend(enc, kept, s);
      MarshalListLength(enc, kept + [s]);
    }

    lemma FitsCharge(enc: Bytes -> Bytes, items: seq<Bytes>)
      requires items != []
      ensures Fits(enc, items) <==> 1 + Charge(enc, items) <= cap
    {
      MarshalListLength(enc, items);
    }

    /** The reserve made for entry i - 1 is enough for the sentinel a cut before entry i writes. */
    lemma ReserveSuffices(enc: Bytes -> Bytes, items: seq<Bytes>, i: nat)
      requires IsEncoder(enc) && Plain(kind) && 0 < i < |items|
      requires Charge(enc, items[..i]) + |enc(Sentinel(|items| - i + 1))| + 2 <= cap
      ensures Fits(enc, items[..i] + [Sentinel(|items| - i)])
    {
      SentinelMonotone(enc, |items| - i, |items| - i + 1);
      FitsAppend(enc, items[..i], Sentinel(|items| - i));
    }

    lemma LoneSentinel(enc: Bytes -> Bytes, s: Bytes)
      ensures Fits(enc, [s]) <==> |enc(s)| + 2 <= cap
    {
      assert [] + [s] == [s];
      FitsAppend(enc, [], s);
    }

    /** truncate: shrinks the kept prefix until it and the sentinel fit. */
    method Truncate(enc: Bytes -> Bytes, items: seq<Bytes>, keep: nat) returns (r: seq<Bytes>)
      requires keep <= |items|
      ensures 0 < |r| <= keep + 1
      ensures r == items[..|r| - 1] + [Sentinel(|items| - (|r| - 1))]
      ensures Fits(enc, r) || |r| == 1
      // It keeps the longest prefix that fits.
      ensures forall j | |r| <= j <= keep :: !Fits(enc, items[..j] + [Sentinel(|items| - j)])
    {
      var k := keep;
      while true
        invariant 0 <= k <= keep
        invariant forall j | k < j <= keep :: !Fits(enc, items[..j] + [Sentinel(|items| - j)])
        decreases k
      {
        r := items[..k] + [Sentinel(|items| - k)];
        if Fits(enc, r) { return; }
        if k == 0 { return; }
        k := k - 1;
      }
    }

    /** The cheap test: six bytes for every byte, two quotes and a comma an entry. */
    method CheapBound(enc: Bytes -> Bytes, items: seq<Bytes>) returns (fits: bool)
      requires IsEncoder(enc)
      ensures fits ==> 1 + Charge(enc, items) <= cap
    {
      var upper, i := 1, 0;
      while i < |items|
        invariant 0 <= i <= |items|
        invariant 1 + Charge(enc, items[..i]) <= upper
      {
        EncodedLenExact(enc, items[i]);
        ChargeStep(enc, items, i);
        upper := upper + |items[i]| * 6 + 3;
        if upper > cap { return false; }
        i := i + 1;
      }
      assert items[..i] == items;
      return upper <= cap;
    }

    /** The exact test: every entry charged at its marshaled length. */
    method ExactBound(enc: Bytes -> Bytes, items: seq<Bytes>) returns (fits: bool)
      requires IsEncoder(enc) && items != []
      ensures fits <==> 1 + Charge(enc, items) <= cap
    {
      var total, i := 1, 0;
      while i < |items|
        invariant 0 <= i <= |items|
        invariant total == 1 + Charge(enc, items[..i])
        invariant i > 0 ==> total <= cap
      {
        EncodedLenExact(enc, items[i]);
        ChargeStep(enc, items, i);
        total := total + EncodedLen(enc, items[i]) + 1;
        if total > cap {
          ChargePrefix(enc, items, i + 1);
          return false;
        }
        i := i + 1;
      }
      assert items[..i] == items;
      return true;
    }

    /** Entry i fits together with the sentinel for itself and all that follow it. */
    predicate Reserves(enc: Bytes -> Bytes, items: seq<Bytes>, i: nat)
      requires i < |items|
    {
      Fits(enc, items[..i + 1] + [Sentinel(|items| - i)])
    }

    lemma ReservesIs(enc: Bytes -> Bytes, items: seq<Bytes>, i: nat)
      requires i < |items|
      ensures Reserves(enc, items, i) <==>
                Charge(enc, items[..i]) + |enc(items[i])| + 1 + |enc(Sentinel(|items| - i))| + 2 <= cap
    {
      FitsAppend(enc, items[..i + 1], Sentinel(|items| - i));
      ChargeStep(enc, items, i);
    }

    /** bound: the list unchanged when it fits, else a prefix and one sentinel with the exact count. */
    method Bound(enc: Bytes -> Bytes, items: seq<Bytes>) returns (r: seq<Bytes>)
      requires IsEncoder(enc) && Plain(kind)
      // Unchanged exactly when it fits (an empty list is never touched).
      ensures items == [] || Fits(enc, items) ==> r == items
      ensures items != [] && !Fits(enc, items) ==>
                && 0 < |r| <= |items|
                && r == items[..|r| - 1] + [Sentinel(|items| - (|r| - 1))]
      // The result is inside the cap, unless the cap cannot hold even the lone sentinel.
      ensures items != [] ==> (Fits(enc, r) <==> Fits(enc, items) || Fits(enc, [Sentinel(|items|)]))
      ensures items != [] && Fits(enc, [Sentinel(|items|)]) ==> (r == items <==> Fits(enc, items))
      // It cuts at the first entry that would not leave room for the sentinel reserved before it.
      ensures items != [] && !Fits(enc, items) ==>
                !Reserves(enc, items, |r| - 1) && forall j | 0 <= j < |r| - 1 :: Reserves(enc, items, j)
    {
      hide Charge, MarshalList, Elements, Decimal, Fits, Sentinel, Reserves;
      if items == [] { return items; }
      FitsCharge(enc, items);
      LoneSentinel(enc, Sentinel(|items|));
      var cheap := CheapBound(enc, items);
      if cheap { return items; }
      var exact := ExactBound(enc, items);
      if exact { return items; }
      var n := |items|;
      var used, i := 1, 0;
      ChargeEmpty(enc, items);
      assert items[..n] == items;
      while i < n
        invariant 0 <= i <= n
        invariant used == 1 + Charge(enc, items[..i])
        invariant i > 0 ==> used + |enc(Sentinel(n - i + 1))| + 1 <= cap
        invariant i > 0 ==> |enc(Sentinel(n))| + 2 <= cap
        invariant forall j | 0 <= j < i :: Reserves(enc, items, j)
      {
        ReservesIs(enc, items, i);
        EncodedLenExact(enc, items[i]);
        EncodedLenExact(enc, Sentinel(n - i));
        ChargeStep(enc, items, i);
        var charge := EncodedLen(enc, items[i]) + 1;
        var reserve := EncodedLen(enc, Sentinel(n - i)) + 1;
        if used + charge + reserve > cap {
          if i > 0 { ReserveSuffices(enc, items, i); } else { assert items[..0] + [Sentinel(n)] == [Sentinel(n)]; }
          r := Truncate(enc, items, i);
          return;
        }
        used := used + charge;
        i := i + 1;
      }
      // Every entry fitted with a sentinel to spare, although the list did not fit.
      assert false;
    }

    // ---------------------------------------------------------------- the longest prefix

    /** The marshaled size of the first k entries and the sentinel for the rest. */
    function CutSize(enc: Bytes -> Bytes, items: seq<Bytes>, k: nat): (n: nat)
      requires k <= |items|
    {
      Charge(enc, items[..k]) + |enc(Sentinel(|items| - k))| + 2
    }

    lemma SentinelLength(enc: Bytes -> Bytes, m: nat)
      requires IsEncoder(enc) && Plain(kind)
      ensures |enc(Sentinel(m))| == |kind| + |TRUNCATED| + |Decimal(m)| + 2
    {
      SentinelPlain(m);
      assert Spells(enc, Sentinel(m));
    }

    lemma CutGrows(enc: Bytes -> Bytes, items: seq<Bytes>, k: nat)
      requires IsEncoder(enc) && Plain(kind) && k < |items|
      ensures CutSize(enc, items, k) < CutSize(enc, items, k + 1)
    {
      hide Charge, Decimal, Sentinel;
      ChargeStep(enc, items, k);
      EncodedLenExact(enc, items[k]);
      SentinelLength(enc, |items| - k);
      SentinelLength(enc, |items| - k - 1);
      DecimalStep(|items| - k);
    }

    lemma {:induction false} CutGrowsTo(enc: Bytes -> Bytes, items: seq<Bytes>, i: nat, j: nat)
      requires IsEncoder(enc) && Plain(kind) && i <= j <= |items|
      ensures CutSize(enc, items, i) <= CutSize(enc, items, j)
      decreases j
    {
      hide CutSize;
      if i < j {
        CutGrowsTo(enc, items, i, j - 1);
        CutGrows(enc, items, j - 1);
      }
    }

    /** Of the cuts that keep more than k entries and omit at least one, none fits. */
    predicate Longest(enc: Bytes -> Bytes, items: seq<Bytes>, k: nat)
      requires k <= |items|
    {
      forall j | k < j < |items| :: !Fits(enc, items[..j] + [Sentinel(|items| - j)])
    }

    /**
     Where bound cuts, the prefix kept is the longest that fits, except in one case: the entry
     overshot by exactly one byte, and omitting one entry fewer would have saved a digit.
     */
    lemma LongestExact(enc: Bytes -> Bytes, items: seq<Bytes>, k: nat)
      requires IsEncoder(enc) && Plain(kind) && k < |items| && !Reserves(enc, items, k)
      ensures Longest(enc, items, k) <==>
                || k + 1 == |items|
                || |Decimal(|items| - k - 1)| == |Decimal(|items| - k)|
                || |MarshalList(enc, items[..k + 1] + [Sentinel(|items| - k)])| != cap + 1
    {
      hide Charge, MarshalList, Elements, Decimal, Fits, Sentinel, Reserves;
      var n := |items|;
      ReservesIs(enc, items, k);
      MarshalListLength(enc, items[..k + 1] + [Sentinel(n - k)]);
      ChargeAppend(enc, items[..k + 1], Sentinel(n - k));
      ChargeStep(enc, items, k);
      SentinelLength(enc, n - k);
      SentinelLength(enc, n - k - 1);
      DecimalStep(n - k);
      var next := CutSize(enc, items, k + 1);
      forall j | k < j < n
        ensures next <= CutSize(enc, items, j)
        ensures Fits(enc, items[..j] + [Sentinel(n - j)]) <==> CutSize(enc, items, j) <= cap
      {
        CutGrowsTo(enc, items, k + 1, j);
        FitsAppend(enc, items[..j], Sentinel(n - j));
      }
      hide CutSize;
      if k + 1 < n { assert CutSize(enc, items, k + 1) == next; }
    }
  }

  /** Ten empty strings under a cap of 19 bytes: one entry would have fitted, and none is kept. */
  method DigitLost(enc: Bytes -> Bytes) returns (r: seq<Bytes>)
    requires IsEncoder(enc)
    ensures var b, items := BoundedList(19, []), seq(10, _ => []);
            && !b.Fits(enc, items) && b.Fits(enc, items[..1] + [b.Sentinel(9)])
            && r == [b.Sentinel(10)]
  {
    var b, items := BoundedList(19, []), seq(10, _ => []);
    assert Spells(enc, []) && |enc([])| == 2;
    b.SentinelLength(enc, 9);
    b.SentinelLength(enc, 10);
    assert |Decimal(9)| == 1 && |Decimal(10)| == 2 by { assert Decimal(10) == Decimal(1) + [48]; }
    b.FitsAppend(enc, items[..1], b.Sentinel(9));
    ChargeEmpty(enc, items);
    ChargeStep(enc, items, 0);
    b.ReservesIs(enc, items, 0);
    b.FitsCharge(enc, items);
    MinCharge(enc, items);
    hide Charge, MarshalList, Elements, Decimal;
    r := b.Bound(enc, items);
    assert items[..0] + [b.Sentinel(10)] == [b.Sentinel(10)];
  }

  lemma {:induction false} MinCharge(enc: Bytes -> Bytes, items: seq<Bytes>)
    requires IsEncoder(enc)
    ensures Charge(enc, items) >= 3 * |items|
  {
    if items != [] {
      MinCharge(enc, items[..|items| - 1]);
      assert Spells(enc, items[|items| - 1]);
    }
  }
}
