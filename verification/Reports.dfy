/**
 What the report commands print from a pass over the log: the verifier's withheld findings
 (cmd/eunox/audit_verify.go) and the statistics tally (cmd/eunox/stats.go).
 */
module Reports {

  import opened Wrappers
  import opened Bytes

  // ------------------------------------------------------------------ withheld findings

  const HELD_CAP: nat := 64 * 1024    // heldFindingsCap

  class HeldFindings {
    var out: Bytes
    var buf: Bytes
    var streaming: bool

    /** Everything written so far, shown or held. */
    function All(): Bytes
      reads this
    {
      out + buf
    }

    /** Held only below the cap and only before streaming starts; nothing is shown earlier. */
    ghost predicate Valid()
      reads this
    {
      && |buf| < HELD_CAP
      && (streaming ==> buf == [] && |out| >= HELD_CAP)
    }

    constructor ()
      ensures Valid() && All() == [] && !streaming
    {
      out, buf, streaming := [], [], false;
    }

    method Write(p: Bytes)
      requires Valid()
      modifies this
      ensures Valid() && All() == old(All()) + p
      ensures old(streaming) || |old(buf)| + |p| >= HELD_CAP ==> streaming && out == old(All()) + p
      ensures !old(streaming) && |old(buf)| + |p| < HELD_CAP ==> !streaming && out == old(out)
    {
      if streaming {
        out := out + p;
        return;
      }
      buf := buf + p;
      if |buf| >= HELD_CAP {
        streaming := true;
        Release();
      }
    }

    /** Shows what is held; a second release shows nothing. */
    method Release()
      modifies this`out, this`buf
      ensures buf == [] && out == old(All())
    {
      if buf == [] { return; }
      out := out + buf;
      buf := [];
    }
  }

  function Flatten(ps: seq<Bytes>): Bytes {
    if ps == [] then [] else Flatten(ps[..|ps| - 1]) + ps[|ps| - 1]
  }

  /** A whole pass: every finding appears once, in order, unless the pass is dropped below the cap. */
  method Pass(ps: seq<Bytes>, release: bool) returns (shown: Bytes)
    ensures shown == if release || |Flatten(ps)| >= HELD_CAP then Flatten(ps) else []
  {
    var h := new HeldFindings();
    for i := 0 to |ps|
      invariant fresh(h) && h.Valid() && h.All() == Flatten(ps[..i])
      invariant h.streaming <==> |Flatten(ps[..i])| >= HELD_CAP
      invariant !h.streaming ==> h.out == []
    {
      assert ps[..i + 1][..i] == ps[..i];
      h.Write(ps[i]);
    }
    assert ps[..|ps|] == ps;
    if release { h.Release(); }
    return h.out;
  }

  // ------------------------------------------------------------------ the statistics tally

  datatype Decision = Allow | Deny | Escalate | Unknown

  /** The fields the tally reads; `target` is the rendered histogram label. */
  datatype Rec = Rec(decision: Decision, target: string, code: string, auditOnly: bool)

  datatype DenialKey = DenialKey(tool: string, code: string)

  /** A count map is a multiset of its keys. */
  datatype Summary = Summary(total: nat, allowed: nat, blocked: nat, observed: nat, escalated: nat, other: nat,
                             blockedDenials: multiset<DenialKey>, observedDenials: multiset<DenialKey>)

  predicate IsBlocked(r: Rec) { r.decision == Escalate || (r.decision == Deny && !r.auditOnly) }

  predicate IsObserved(r: Rec) { r.decision == Deny && r.auditOnly }

  /** The denial keys of the decodable lines whose record passes `p`. */
  function Denials(decode: Bytes -> Option<Rec>, p: Rec -> bool, lines: seq<Bytes>): multiset<DenialKey> {
    if lines == [] then multiset{}
    else
      var before, r := Denials(decode, p, lines[..|lines| - 1]), Read(decode, lines[|lines| - 1]);
      Added(before, r, p)
  }

  /** How many non-blank lines read as `p` says; None is a line that does not decode. */
  function Tally(decode: Bytes -> Option<Rec>, p: Option<Rec> -> bool, lines: seq<Bytes>): nat {
    if lines == [] then 0
    else
      var line := lines[|lines| - 1];
      Tally(decode, p, lines[..|lines| - 1]) + if TrimSpace(line) != [] && p(decode(line)) then 1 else 0
  }

  predicate Allowed(r: Option<Rec>) { r.Some? && r.value.decision == Allow }

  predicate Escalated(r: Option<Rec>) { r.Some? && r.value.decision == Escalate }

  predicate Foreign(r: Option<Rec>) { r.None? || r.value.decision == Unknown }

  /** A blank line is skipped before decoding. */
  function Read(decode: Bytes -> Option<Rec>, line: Bytes): Option<Rec> {
    if TrimSpace(line) == [] then None else decode(line)
  }

  function NonBlankCount(lines: seq<Bytes>): nat {
    if lines == [] then 0
    else NonBlankCount(lines[..|lines| - 1]) + if TrimSpace(lines[|lines| - 1]) == [] then 0 else 1
  }

  /** The buckets add up, and each histogram adds up to its bucket. */
  predicate Reconciled(s: Summary) {
    && s.total == s.allowed + s.blocked + s.observed + s.other && s.escalated <= s.blocked
    && |s.blockedDenials| == s.blocked && |s.observedDenials| == s.observed
  }

  function Added(m: multiset<DenialKey>, r: Option<Rec>, p: Rec -> bool): multiset<DenialKey> {
    if r.Some? && p(r.value) then m + multiset{DenialKey(r.value.target, r.value.code)} else m
  }

  /** One non-blank line; None is a line that does not decode. */
  method Count(s: Summary, r: Option<Rec>) returns (t: Summary)
    requires Reconciled(s)
    ensures Reconciled(t) && t.total == s.total + 1
    ensures t.blockedDenials == Added(s.blockedDenials, r, IsBlocked)
    ensures t.observedDenials == Added(s.observedDenials, r, IsObserved)
    ensures t.escalated == s.escalated + if Escalated(r) then 1 else 0
    ensures t.allowed == s.allowed + if Allowed(r) then 1 else 0
    ensures t.other == s.other + if Foreign(r) then 1 else 0
  {
    t := s.(total := s.total + 1);
    if r.None? { return t.(other := t.other + 1); }
    var k := DenialKey(r.value.target, r.value.code);
    match r.value.decision
    case Allow => t := t.(allowed := t.allowed + 1);
    case Deny =>
      if r.value.auditOnly {
        t := t.(observed := t.observed + 1, observedDenials := t.observedDenials + multiset{k});
      } else {
        t := t.(blocked := t.blocked + 1, blockedDenials := t.blockedDenials + multiset{k});
      }
    case Escalate =>
      t := t.(escalated := t.escalated + 1, blocked := t.blocked + 1, blockedDenials := t.blockedDenials + multiset{k});
    case Unknown => t := t.(other := t.other + 1);
  }

  lemma OneMore(decode: Bytes -> Option<Rec>, p: Rec -> bool, lines: seq<Bytes>, i: nat)
    requires i < |lines|
    ensures TrimSpace(lines[i]) == [] ==>
              && NonBlankCount(lines[..i + 1]) == NonBlankCount(lines[..i])
              && Denials(decode, p, lines[..i + 1]) == Denials(decode, p, lines[..i])
    ensures TrimSpace(lines[i]) != [] ==>
              && NonBlankCount(lines[..i + 1]) == NonBlankCount(lines[..i]) + 1
              && Denials(decode, p, lines[..i + 1]) == Added(Denials(decode, p, lines[..i]), decode(lines[i]), p)
  {
    hide TrimSpace;
    assert lines[..i + 1][..i] == lines[..i];
  }

  lemma NoLines(decode: Bytes -> Option<Rec>, p: Rec -> bool)
    ensures NonBlankCount([]) == 0 && Denials(decode, p, []) == multiset{}
  {
  }

  lemma TallyStep(decode: Bytes -> Option<Rec>, p: Option<Rec> -> bool, lines: seq<Bytes>, i: nat)
    requires i < |lines|
    ensures Tally(decode, p, lines[..i + 1]) ==
            Tally(decode, p, lines[..i]) + if TrimSpace(lines[i]) != [] && p(decode(lines[i])) then 1 else 0
  {
    hide TrimSpace;
    assert lines[..i + 1][..i] == lines[..i];
  }

  method ComputeAuditStats(decode: Bytes -> Option<Rec>, lines: seq<Bytes>) returns (s: Summary)
    ensures Reconciled(s) && s.total == NonBlankCount(lines)
    ensures s.allowed == Tally(decode, Allowed, lines) && s.escalated == Tally(decode, Escalated, lines)
    ensures s.other == Tally(decode, Foreign, lines)
    ensures s.blockedDenials == Denials(decode, IsBlocked, lines)
    ensures s.observedDenials == Denials(decode, IsObserved, lines)
  {
    NoLines(decode, IsBlocked);
    NoLines(decode, IsObserved);
    s := Summary(0, 0, 0, 0, 0, 0, multiset{}, multiset{});
    assert Reconciled(s) && lines[..0] == [];
    hide TrimSpace, Reconciled, Added, Denials, NonBlankCount, Allowed, Escalated, Foreign;
    assert Tally(decode, Allowed, []) == Tally(decode, Escalated, []) == Tally(decode, Foreign, []) == 0;
    hide Tally;
    for i := 0 to |lines|
      invariant Reconciled(s) && s.total == NonBlankCount(lines[..i])
      invariant s.allowed == Tally(decode, Allowed, lines[..i])
      invariant s.escalated == Tally(decode, Escalated, lines[..i])
      invariant s.other == Tally(decode, Foreign, lines[..i])
      invariant s.blockedDenials == Denials(decode, IsBlocked, lines[..i])
      invariant s.observedDenials == Denials(decode, IsObserved, lines[..i])
    {
      OneMore(decode, IsBlocked, lines, i);
      OneMore(decode, IsObserved, lines, i);
      TallyStep(decode, Allowed, lines, i);
      TallyStep(decode, Escalated, lines, i);
      TallyStep(decode, Foreign, lines, i);
      if TrimSpace(lines[i]) != [] { s := Count(s, decode(lines[i])); }
    }
    assert lines[..|lines|] == lines;
  }
}
