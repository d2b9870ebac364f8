/**
 What the signed bytes of a record say: every member of the struct with its value, in order, and
 nothing that two different records could share (auditRecord in internal/audit/audit.go).
 */
module Bodies {
  import opened Wrappers
  import opened Bytes
  import opened Json
  import opened Bounds
  import opened Records

  // ------------------------------------------------------------------ the struct's tags

  function NonEmpty(enc: Bytes -> Bytes, s: Bytes): Option<Bytes> {
    if s == [] then None else Some(enc(s))
  }

  /** The value a member is marshaled with, None where omitempty leaves it out. */
  function Tagged(enc: Bytes -> Bytes, r: Record, t: Tag): Option<Bytes> {
    match t
    case ClassUid => Some(Decimal(6003))
    case CategoryUid => Some(Decimal(6))
    case ActivityId => Some(Decimal(r.activity))
    case Time => Some(enc(r.time))
    case Seq => Some(Decimal(r.seq_))
    case RequestId => Some(enc(r.requestId))
    case SessionId => NonEmpty(enc, r.session)
    case AgentId => NonEmpty(enc, r.agent)
    case TaskId => NonEmpty(enc, r.task)
    case UserId => NonEmpty(enc, r.user)
    case TokenId => NonEmpty(enc, r.token)
    case Pep => NonEmpty(enc, r.pep)
    case Upstream => NonEmpty(enc, r.upstream)
    case PolicyVersion => NonEmpty(enc, r.policyVersion)
    case PolicySha256 => NonEmpty(enc, r.policySha)
    case TargetType => NonEmpty(enc, r.targetType)
    case Target => NonEmpty(enc, r.target)
    case Method => NonEmpty(enc, r.method_)
    case Decision => Some(enc(r.decision))
    case AuditOnly => if r.auditOnly then Some(Ascii("true")) else None
    case DenialCode => NonEmpty(enc, r.denialCode)
    case ConditionType => NonEmpty(enc, r.conditionType)
    case Details => if r.details == [] then None else Some(r.details)
    case Obligations => if r.obligations == [] then None else Some(MarshalList(enc, r.obligations))
    case LabelsOut => if r.labelsOut == [] then None else Some(MarshalList(enc, r.labelsOut))
    case CarriedLabels => if r.carriedLabels == [] then None else Some(MarshalList(enc, r.carriedLabels))
    case ProtocolRevision => NonEmpty(enc, r.revision)
    case KeyId => NonEmpty(enc, r.keyId)
    case PrevHmac => Some(enc(r.prev))
  }

  /** Position in the struct. */
  function Rank(t: Tag): nat {
    match t
    case ClassUid => 0
    case CategoryUid => 1
    case ActivityId => 2
    case Time => 3
    case Seq => 4
    case RequestId => 5
    case SessionId => 6
    case AgentId => 7
    case TaskId => 8
    case UserId => 9
    case TokenId => 10
    case Pep => 11
    case Upstream => 12
    case PolicyVersion => 13
    case PolicySha256 => 14
    case TargetType => 15
    case Target => 16
    case Method => 17
    case Decision => 18
    case AuditOnly => 19
    case DenialCode => 20
    case ConditionType => 21
    case Details => 22
    case Obligations => 23
    case LabelsOut => 24
    case CarriedLabels => 25
    case ProtocolRevision => 26
    case KeyId => 27
    case PrevHmac => 28
  }

  /** The value fields give a member. */
  function Value(fs: seq<Field>, t: Tag): Option<Bytes> {
    if fs == [] then None
    else if fs[|fs| - 1].tag == t then Some(fs[|fs| - 1].value)
    else Value(fs[..|fs| - 1], t)
  }

  /** In struct order, no member twice, all between two positions. */
  ghost predicate Between(fs: seq<Field>, lo: nat, hi: nat) {
    && (forall i | 0 <= i < |fs| :: lo <= Rank(fs[i].tag) < hi)
    && (forall i, j | 0 <= i < j < |fs| :: Rank(fs[i].tag) < Rank(fs[j].tag))
  }

  /** The fields give a member from lo up to hi its tagged value, in order, and no other member any. */
  ghost predicate Gives(enc: Bytes -> Bytes, r: Record, fs: seq<Field>, lo: nat, hi: nat) {
    && Between(fs, lo, hi)
    && forall t :: Value(fs, t) == if lo <= Rank(t) < hi then Tagged(enc, r, t) else None
  }

  lemma {:induction false} ValueConcat(a: seq<Field>, b: seq<Field>, t: Tag)
    ensures Value(a + b, t) == if Value(b, t).Some? then Value(b, t) else Value(a, t)
    decreases |b|
  {
    if b == [] {
      assert a + b == a;
    } else {
      assert (a + b)[..|a + b| - 1] == a + b[..|b| - 1];
      ValueConcat(a, b[..|b| - 1], t);
    }
  }

  lemma GivesConcat(enc: Bytes -> Bytes, r: Record, a: seq<Field>, b: seq<Field>, lo: nat, mid: nat, hi: nat)
    requires lo <= mid <= hi && Gives(enc, r, a, lo, mid) && Gives(enc, r, b, mid, hi)
    ensures Gives(enc, r, a + b, lo, hi)
  {
    hide Tagged, Rank, Value;
    forall t ensures Value(a + b, t) == if lo <= Rank(t) < hi then Tagged(enc, r, t) else None {
      ValueConcat(a, b, t);
    }
  }

  lemma RankInjective(t: Tag, u: Tag)
    requires Rank(t) == Rank(u)
    ensures t == u
  {
  }

  /** One member. */
  lemma GivesOne(enc: Bytes -> Bytes, r: Record, fs: seq<Field>, t: Tag)
    requires fs == if Tagged(enc, r, t).None? then [] else [Field(t, Tagged(enc, r, t).value)]
    ensures Gives(enc, r, fs, Rank(t), Rank(t) + 1)
  {
    hide Tagged, Rank;
    forall u ensures Value(fs, u) == if Rank(t) <= Rank(u) < Rank(t) + 1 then Tagged(enc, r, u) else None {
      if Rank(u) == Rank(t) { RankInjective(u, t); }
    }
  }

  lemma HeadGives(enc: Bytes -> Bytes, r: Record)
    ensures Gives(enc, r, HeadFields(enc, r), 0, 6)
  {
    hide Gives, Value, Ascii, Decimal, MarshalList;
    var a := [Field(ClassUid, Decimal(6003))];
    var b := [Field(CategoryUid, Decimal(6))];
    var c := [Field(ActivityId, Decimal(r.activity))];
    var d := Str(enc, Time, r.time);
    var e := [Field(Seq, Decimal(r.seq_))];
    var f := Str(enc, RequestId, r.requestId);
    GivesOne(enc, r, a, ClassUid);
    GivesOne(enc, r, b, CategoryUid);
    GivesOne(enc, r, c, ActivityId);
    GivesOne(enc, r, d, Time);
    GivesOne(enc, r, e, Seq);
    GivesOne(enc, r, f, RequestId);
    assert [a[0], b[0], c[0]] == a + b + c;
    GivesConcat(enc, r, a, b, 0, 1, 2);
    GivesConcat(enc, r, a + b, c, 0, 2, 3);
    GivesConcat(enc, r, a + b + c, d, 0, 3, 4);
    GivesConcat(enc, r, a + b + c + d, e, 0, 4, 5);
    GivesConcat(enc, r, a + b + c + d + e, f, 0, 5, 6);
  }

  lemma IdentityGives(enc: Bytes -> Bytes, r: Record)
    ensures Gives(enc, r, IdentityFields(enc, r), 6, 11)
  {
    hide Gives, Value, Ascii, Decimal, MarshalList;
    var a := OptStr(enc, SessionId, r.session);
    var b := OptStr(enc, AgentId, r.agent);
    var c := OptStr(enc, TaskId, r.task);
    var d := OptStr(enc, UserId, r.user);
    var e := OptStr(enc, TokenId, r.token);
    GivesOne(enc, r, a, SessionId);
    GivesOne(enc, r, b, AgentId);
    GivesOne(enc, r, c, TaskId);
    GivesOne(enc, r, d, UserId);
    GivesOne(enc, r, e, TokenId);
    GivesConcat(enc, r, a, b, 6, 7, 8);
    GivesConcat(enc, r, a + b, c, 6, 8, 9);
    GivesConcat(enc, r, a + b + c, d, 6, 9, 10);
    GivesConcat(enc, r, a + b + c + d, e, 6, 10, 11);
  }

  lemma RouteGives(enc: Bytes -> Bytes, r: Record)
    ensures Gives(enc, r, RouteFields(enc, r), 11, 15)
  {
    hide Gives, Value, Ascii, Decimal, MarshalList;
    var a := OptStr(enc, Pep, r.pep);
    var b := OptStr(enc, Upstream, r.upstream);
    var c := OptStr(enc, PolicyVersion, r.policyVersion);
    var d := OptStr(enc, PolicySha256, r.policySha);
    GivesOne(enc, r, a, Pep);
    GivesOne(enc, r, b, Upstream);
    GivesOne(enc, r, c, PolicyVersion);
    GivesOne(enc, r, d, PolicySha256);
    GivesConcat(enc, r, a, b, 11, 12, 13);
    GivesConcat(enc, r, a + b, c, 11, 13, 14);
    GivesConcat(enc, r, a + b + c, d, 11, 14, 15);
  }

  lemma TargetGives(enc: Bytes -> Bytes, r: Record)
    ensures Gives(enc, r, OptStr(enc, TargetType, r.targetType), 15, 16)
    ensures Gives(enc, r, OptStr(enc, Target, r.target), 16, 17)
    ensures Gives(enc, r, OptStr(enc, Method, r.method_), 17, 18)
    ensures Gives(enc, r, Str(enc, Decision, r.decision), 18, 19)
  {
    hide Gives, Value, Ascii, Decimal, MarshalList;
    GivesOne(enc, r, OptStr(enc, TargetType, r.targetType), TargetType);
    GivesOne(enc, r, OptStr(enc, Target, r.target), Target);
    GivesOne(enc, r, OptStr(enc, Method, r.method_), Method);
    GivesOne(enc, r, Str(enc, Decision, r.decision), Decision);
  }

  lemma DenialGives(enc: Bytes -> Bytes, r: Record)
    ensures Gives(enc, r, if r.auditOnly then [Field(AuditOnly, Ascii("true"))] else [], 19, 20)
    ensures Gives(enc, r, OptStr(enc, DenialCode, r.denialCode), 20, 21)
    ensures Gives(enc, r, OptStr(enc, ConditionType, r.conditionType), 21, 22)
  {
    hide Gives, Value, Ascii, Decimal, MarshalList;
    GivesOne(enc, r, if r.auditOnly then [Field(AuditOnly, Ascii("true"))] else [], AuditOnly);
    GivesOne(enc, r, OptStr(enc, DenialCode, r.denialCode), DenialCode);
    GivesOne(enc, r, OptStr(enc, ConditionType, r.conditionType), ConditionType);
  }

  lemma DecisionGives(enc: Bytes -> Bytes, r: Record)
    ensures Gives(enc, r, DecisionFields(enc, r), 15, 22)
  {
    hide Gives, Value, Ascii, Tagged, Str, OptStr;
    TargetGives(enc, r);
    DenialGives(enc, r);
    var a, b := OptStr(enc, TargetType, r.targetType), OptStr(enc, Target, r.target);
    var c, d := OptStr(enc, Method, r.method_), Str(enc, Decision, r.decision);
    var e := if r.auditOnly then [Field(AuditOnly, Ascii("true"))] else [];
    var f, g := OptStr(enc, DenialCode, r.denialCode), OptStr(enc, ConditionType, r.conditionType);
    GivesConcat(enc, r, a, b, 15, 16, 17);
    GivesConcat(enc, r, a + b, c, 15, 17, 18);
    GivesConcat(enc, r, a + b + c, d, 15, 18, 19);
    GivesConcat(enc, r, a + b + c + d, e, 15, 19, 20);
    GivesConcat(enc, r, a + b + c + d + e, f, 15, 20, 21);
    GivesConcat(enc, r, a + b + c + d + e + f, g, 15, 21, 22);
  }

  lemma ListGives(enc: Bytes -> Bytes, r: Record)
    ensures Gives(enc, r, ListFields(enc, r), 22, 26)
  {
    hide Gives, Value, Ascii, Decimal, MarshalList;
    var a := if r.details == [] then [] else [Field(Details, r.details)];
    var b := OptList(enc, Obligations, r.obligations);
    var c := OptList(enc, LabelsOut, r.labelsOut);
    var d := OptList(enc, CarriedLabels, r.carriedLabels);
    GivesOne(enc, r, a, Details);
    GivesOne(enc, r, b, Obligations);
    GivesOne(enc, r, c, LabelsOut);
    GivesOne(enc, r, d, CarriedLabels);
    GivesConcat(enc, r, a, b, 22, 23, 24);
    GivesConcat(enc, r, a + b, c, 22, 24, 25);
    GivesConcat(enc, r, a + b + c, d, 22, 25, 26);
  }

  lemma ChainGives(enc: Bytes -> Bytes, r: Record)
    ensures Gives(enc, r, ChainFields(enc, r), 26, 29)
  {
    hide Gives, Value, Ascii, Decimal, MarshalList;
    var a := OptStr(enc, ProtocolRevision, r.revision);
    var b := OptStr(enc, KeyId, r.keyId);
    var c := Str(enc, PrevHmac, r.prev);
    GivesOne(enc, r, a, ProtocolRevision);
    GivesOne(enc, r, b, KeyId);
    GivesOne(enc, r, c, PrevHmac);
    GivesConcat(enc, r, a, b, 26, 27, 28);
    GivesConcat(enc, r, a + b, c, 26, 28, 29);
  }

  /**
   The fields marshaled are exactly the struct's: each member present if and only if its tag says so,
   with its own value, once, and in struct order.
   */
  lemma FieldsExact(enc: Bytes -> Bytes, r: Record)
    ensures forall t :: Value(Fields(enc, r), t) == Tagged(enc, r, t)
    ensures forall i, j | 0 <= i < j < |Fields(enc, r)| :: Rank(Fields(enc, r)[i].tag) < Rank(Fields(enc, r)[j].tag)
  {
    hide Gives, HeadFields, IdentityFields, RouteFields, DecisionFields, ListFields, ChainFields;
    var a, b, c := HeadFields(enc, r), IdentityFields(enc, r), RouteFields(enc, r);
    var d, e, f := DecisionFields(enc, r), ListFields(enc, r), ChainFields(enc, r);
    HeadGives(enc, r);
    IdentityGives(enc, r);
    RouteGives(enc, r);
    DecisionGives(enc, r);
    ListGives(enc, r);
    ChainGives(enc, r);
    GivesConcat(enc, r, a, b, 0, 6, 11);
    GivesConcat(enc, r, a + b, c, 0, 11, 15);
    GivesConcat(enc, r, a + b + c, d, 0, 15, 22);
    GivesConcat(enc, r, a + b + c + d, e, 0, 22, 26);
    GivesConcat(enc, r, a + b + c + d + e, f, 0, 26, 29);
    GivesAll(enc, r, Fields(enc, r));
  }

  lemma GivesAll(enc: Bytes -> Bytes, r: Record, fs: seq<Field>)
    requires Gives(enc, r, fs, 0, 29)
    ensures forall t :: Value(fs, t) == Tagged(enc, r, t)
    ensures forall i, j | 0 <= i < j < |fs| :: Rank(fs[i].tag) < Rank(fs[j].tag)
  {
    hide Tagged, Value;
    assert forall t :: Rank(t) < 29;
  }

  // ------------------------------------------------------------------ the bytes

  /** `"name":value`. */
  function Pair(f: Field): Bytes {
    [34] + Name(f.tag) + [34, 58] + f.value
  }

  /** The fields from the left, a comma before each. */
  function Listed(fs: seq<Field>): Bytes {
    if fs == [] then [] else [44] + Pair(fs[0]) + Listed(fs[1..])
  }

  lemma Associates(x: Bytes, y: Bytes, z: Bytes)
    ensures (x + y) + z == x + (y + z)
  {
  }

  lemma ListedHead(fs: seq<Field>)
    requires fs != []
    ensures Listed(fs) == [44] + Pair(fs[0]) + Listed(fs[1..])
  {
  }

  lemma {:induction false} ListedConcat(a: seq<Field>, b: seq<Field>)
    ensures Listed(a + b) == Listed(a) + Listed(b)
    decreases |a|
  {
    hide Pair;
    if a == [] {
      assert a + b == b && [] + Listed(b) == Listed(b);
    } else {
      ListedConcat(a[1..], b);
      ListedHead(a);
      ListedHead(a + b);
      hide Listed;
      assert (a + b)[1..] == a[1..] + b && (a + b)[0] == a[0];
      Associates([44] + Pair(a[0]), Listed(a[1..]), Listed(b));
    }
  }

  lemma ListedOne(f: Field)
    ensures Listed([f]) == [44] + Pair(f)
  {
    hide Pair;
    assert [f][1..] == [] && [44] + Pair(f) + [] == [44] + Pair(f);
  }

  lemma {:induction false} JoinListed(fs: seq<Field>)
    requires fs != []
    ensures [44] + Join(fs) == Listed(fs)
    decreases |fs|
  {
    hide Name, Listed;
    var n := |fs| - 1;
    var f := fs[n];
    assert fs == fs[..n] + [f];
    ListedConcat(fs[..n], [f]);
    ListedOne(f);
    assert Join(fs) == Join(fs[..n]) + (if n > 0 then [44] else []) + Pair(f);
    if n > 0 {
      JoinListed(fs[..n]);
    } else {
      assert fs == [f] && Join(fs[..n]) == [];
    }
  }

  lemma {:induction false} ValueAt(fs: seq<Field>, t: Tag) returns (i: nat)
    requires Value(fs, t).Some?
    ensures i < |fs| && fs[i] == Field(t, Value(fs, t).value)
  {
    var n := |fs| - 1;
    if fs[n].tag == t { return n; }
    i := ValueAt(fs[..n], t);
  }

  /** Where the i-th field stands in the object. */
  lemma PairAt(fs: seq<Field>, i: nat) returns (before: Bytes, after: Bytes)
    requires i < |fs|
    ensures [123] + Join(fs) + [125] == before + Pair(fs[i]) + after
    ensures before != [] && (before[|before| - 1] == 123 || before[|before| - 1] == 44)
    ensures after != [] && (after[0] == 44 || after[0] == 125) && (i == |fs| - 1 ==> after == [125])
  {
    hide Pair, Join;
    var a, f, b := fs[..i], fs[i], fs[i + 1..];
    assert fs == a + ([f] + b);
    JoinListed(fs);
    ListedConcat(a, [f] + b);
    ListedConcat([f], b);
    ListedOne(f);
    var x, y := Listed(a), Listed(b);
    assert (x != [] ==> x[0] == 44) && (y != [] ==> y[0] == 44) && (i == |fs| - 1 ==> y == []);
    hide Listed;
    before, after := Cut(Join(fs), x, Pair(f), y);
  }

  /**
   The bytes show every member that is present: its name and value, after the opening brace or a
   comma, and before a comma or the closing brace. The link is the last member.
   */
  lemma BodyShows(enc: Bytes -> Bytes, r: Record, t: Tag) returns (before: Bytes, after: Bytes)
    requires Tagged(enc, r, t).Some?
    ensures Body(enc, r) == before + ([34] + Name(t) + [34, 58] + Tagged(enc, r, t).value) + after
    ensures before != [] && (before[|before| - 1] == 123 || before[|before| - 1] == 44)
    ensures after != [] && (after[0] == 44 || after[0] == 125)
    ensures t.PrevHmac? ==> after == [125]
  {
    hide Tagged, Fields, Rank, Join, Name, Value;
    FieldsExact(enc, r);
    var fs := Fields(enc, r);
    var i := ValueAt(fs, t);
    if t.PrevHmac? { LastMember(fs, i); }
    before, after := PairAt(fs, i);
  }

  lemma LastMember(fs: seq<Field>, i: nat)
    requires i < |fs| && fs[i].tag.PrevHmac? && forall i, j | 0 <= i < j < |fs| :: Rank(fs[i].tag) < Rank(fs[j].tag)
    ensures i == |fs| - 1
  {
    assert i + 1 < |fs| ==> Rank(fs[i].tag) < Rank(fs[i + 1].tag);
  }

  /** From the comma-led listing to the object. */
  lemma Cut(joined: Bytes, x: Bytes, pair: Bytes, y: Bytes) returns (before: Bytes, after: Bytes)
    requires [44] + joined == x + ([44] + pair + y) && (x != [] ==> x[0] == 44) && (y != [] ==> y[0] == 44)
    ensures [123] + joined + [125] == before + pair + after
    ensures before != [] && (before[|before| - 1] == 123 || before[|before| - 1] == 44)
    ensures after != [] && (after[0] == 44 || after[0] == 125) && (y == [] ==> after == [125])
  {
    before := [123] + if x == [] then [] else x[1..] + [44];
    after := y + [125];
    var all := [44] + joined;
    assert joined == all[1..];
    if x == [] {
      assert all == [44] + (pair + y);
      assert joined == pair + y;
    } else {
      assert x == [44] + x[1..];
      assert all == [44] + (x[1..] + [44] + pair + y);
      assert joined == x[1..] + [44] + pair + y;
    }
  }

  // ------------------------------------------------------------------ reading it back

  /** No spelling of a string begins another's: JSON strings end at their closing quote. */
  ghost predicate PrefixFree(enc: Bytes -> Bytes) {
    forall s, t :: enc(s) <= enc(t) ==> s == t
  }

  /** Neither is the other up to a comma, so that what follows tells them apart. */
  predicate Apart(v: Bytes, w: Bytes) {
    !(v < w && w[|v|] == 44) && !(w < v && v[|w|] == 44)
  }

  lemma ShorterBegins(v: Bytes, w: Bytes, x: Bytes, y: Bytes)
    requires v + x == w + y && |v| <= |w|
    ensures v <= w && x == w[|v|..] + y && (|v| == |w| ==> v == w && x == y)
  {
    var all := v + x;
    assert v == all[..|v|] && w == all[..|w|] && x == all[|v|..] && y == all[|w|..];
    assert w[..|v|] == v;
  }

  lemma ApartEnds(v: Bytes, w: Bytes, x: Bytes, y: Bytes)
    requires v + x == w + y && Apart(v, w) && (x != [] ==> x[0] == 44) && (y != [] ==> y[0] == 44)
    ensures v == w && x == y
  {
    if |v| <= |w| { ShorterBegins(v, w, x, y); } else { ShorterBegins(w, v, y, x); }
  }

  lemma QuoteEnds(a: Bytes, b: Bytes, x: Bytes, y: Bytes)
    requires a + [34] + x == b + [34] + y
    requires (forall i | 0 <= i < |a| :: a[i] != 34) && (forall i | 0 <= i < |b| :: b[i] != 34)
    ensures a == b && x == y
  {
    var all := a + [34] + x;
    assert all[|a|] == 34 && all[|b|] == 34;
    assert (forall i | 0 <= i < |a| :: all[i] == a[i]) && (forall i | 0 <= i < |b| :: all[i] == b[i]);
    assert |a| == |b|;
    assert a == all[..|a|] && b == all[..|b|] && x == all[|a| + 1..] && y == all[|b| + 1..];
  }

  /** Length and first letters of a name. */
  function Mark(t: Tag): (nat, char, char) {
    match t
    case ClassUid => (9, 'c', 'l')
    case CategoryUid => (12, 'c', 'a')
    case ActivityId => (11, 'a', 'c')
    case Time => (4, 't', 'i')
    case Seq => (3, 's', 'e')
    case RequestId => (10, 'r', 'e')
    case SessionId => (10, 's', 'e')
    case AgentId => (8, 'a', 'g')
    case TaskId => (7, 't', 'a')
    case UserId => (7, 'u', 's')
    case TokenId => (8, 't', 'o')
    case Pep => (3, 'p', 'e')
    case Upstream => (8, 'u', 'p')
    case PolicyVersion => (14, 'p', 'o')
    case PolicySha256 => (13, 'p', 'o')
    case TargetType => (11, 't', 'a')
    case Target => (6, 't', 'a')
    case Method => (6, 'm', 'e')
    case Decision => (8, 'd', 'e')
    case AuditOnly => (10, 'a', 'u')
    case DenialCode => (11, 'd', 'e')
    case ConditionType => (14, 'c', 'o')
    case Details => (7, 'd', 'e')
    case Obligations => (11, 'o', 'b')
    case LabelsOut => (10, 'l', 'a')
    case CarriedLabels => (14, 'c', 'a')
    case ProtocolRevision => (17, 'p', 'r')
    case KeyId => (6, 'k', 'e')
    case PrevHmac => (9, 'p', 'r')
  }

  lemma MarkIs(t: Tag)
    ensures |Spelling(t)| >= 2 && (|Spelling(t)|, Spelling(t)[0], Spelling(t)[1]) == Mark(t)
    ensures Mark(t).1 < 128 as char && Mark(t).2 < 128 as char
  {
  }

  lemma LeadingMarks(t: Tag, u: Tag)
    requires Mark(t) == Mark(u) && Leading(t)
    ensures t == u
  {
  }

  lemma MiddleMarks(t: Tag, u: Tag)
    requires Mark(t) == Mark(u) && !Leading(t) && !Trailing(t)
    ensures t == u
  {
  }

  lemma TrailingMarks(t: Tag, u: Tag)
    requires Mark(t) == Mark(u) && Trailing(t)
    ensures t == u
  {
  }

  lemma MarkInjective(t: Tag, u: Tag)
    requires Mark(t) == Mark(u)
    ensures t == u
  {
    hide Mark;
    if Leading(t) {
      LeadingMarks(t, u);
    } else if Trailing(t) {
      TrailingMarks(t, u);
    } else {
      MiddleMarks(t, u);
    }
  }

  lemma NameInjective(t: Tag, u: Tag)
    requires Name(t) == Name(u)
    ensures t == u
  {
    hide Spelling, Mark;
    MarkIs(t);
    MarkIs(u);
    assert Name(t)[0] == Name(u)[0] && Name(t)[1] == Name(u)[1];
    MarkInjective(t, u);
  }

  ghost predicate Aligned(fs: seq<Field>, gs: seq<Field>) {
    forall f, g | f in fs && g in gs && f.tag == g.tag :: Apart(f.value, g.value)
  }

  lemma PairEnds(f: Field, g: Field, x: Bytes, y: Bytes)
    requires Pair(f) + x == Pair(g) + y && (f.tag == g.tag ==> Apart(f.value, g.value))
    requires (x != [] ==> x[0] == 44) && (y != [] ==> y[0] == 44)
    ensures f == g && x == y
  {
    NameOneLine(f.tag);
    NameOneLine(g.tag);
    hide Name, Apart;
    var a, b := Pair(f) + x, Pair(g) + y;
    var c, d := [58] + f.value + x, [58] + g.value + y;
    assert a[1..] == Name(f.tag) + [34] + c && b[1..] == Name(g.tag) + [34] + d;
    QuoteEnds(Name(f.tag), Name(g.tag), c, d);
    NameInjective(f.tag, g.tag);
    assert c[1..] == f.value + x && d[1..] == g.value + y;
    ApartEnds(f.value, g.value, x, y);
  }

  lemma AlignedRest(fs: seq<Field>, gs: seq<Field>)
    requires Aligned(fs, gs) && fs != [] && gs != []
    ensures fs[0].tag == gs[0].tag ==> Apart(fs[0].value, gs[0].value)
    ensures Aligned(fs[1..], gs[1..])
  {
  }

  lemma {:induction false} ListedInjective(fs: seq<Field>, gs: seq<Field>)
    requires Listed(fs) == Listed(gs) && Aligned(fs, gs)
    ensures fs == gs
    decreases |fs|
  {
    hide Pair, Apart, Aligned;
    if fs != [] && gs != [] {
      var x, y := Listed(fs[1..]), Listed(gs[1..]);
      assert Listed(fs)[1..] == Pair(fs[0]) + x && Listed(gs)[1..] == Pair(gs[0]) + y;
      AlignedRest(fs, gs);
      PairEnds(fs[0], gs[0], x, y);
      hide Listed;
      ListedInjective(fs[1..], gs[1..]);
      assert fs == [fs[0]] + fs[1..] && gs == [gs[0]] + gs[1..];
    }
  }

  // ------------------------------------------------------------------ values that tell their ends

  lemma DecimalApart(m: nat, n: nat)
    ensures Apart(Decimal(m), Decimal(n)) && (Decimal(m) == Decimal(n) ==> m == n)
  {
    DecimalReads(m);
    DecimalReads(n);
  }

  lemma EncApart(enc: Bytes -> Bytes, s: Bytes, t: Bytes)
    requires PrefixFree(enc)
    ensures Apart(enc(s), enc(t)) && (enc(s) == enc(t) ==> s == t)
  {
  }

  lemma EncEnds(enc: Bytes -> Bytes, s: Bytes, t: Bytes, x: Bytes, y: Bytes)
    requires PrefixFree(enc) && enc(s) + x == enc(t) + y
    ensures s == t && x == y
  {
    if |enc(s)| <= |enc(t)| { ShorterBegins(enc(s), enc(t), x, y); } else { ShorterBegins(enc(t), enc(s), y, x); }
  }

  /** A list from the left: a comma before each element, the bracket last. */
  function Closing(enc: Bytes -> Bytes, items: seq<Bytes>): Bytes {
    if items == [] then [93] else [44] + enc(items[0]) + Closing(enc, items[1..])
  }

  lemma ClosingHead(enc: Bytes -> Bytes, items: seq<Bytes>, m: nat)
    requires m < |items|
    ensures Closing(enc, items[m..]) == [44] + enc(items[m]) + Closing(enc, items[m + 1..])
  {
    assert items[m..][1..] == items[m + 1..];
  }

  lemma {:induction false} ClosingSnoc(enc: Bytes -> Bytes, items: seq<Bytes>, n: nat)
    requires n < |items|
    ensures Closing(enc, items) ==
            (if n == 0 then [] else [44]) + Elements(enc, items[..n]) + Closing(enc, items[n..])
    decreases n
  {
    hide Closing;
    if n == 0 {
      assert items[..0] == [] && items[0..] == items;
      assert [] + [] + Closing(enc, items) == Closing(enc, items);
    } else {
      var m := n - 1;
      ClosingSnoc(enc, items, m);
      ClosingHead(enc, items, m);
      assert items[..n][..m] == items[..m];
      var e, v, c := Elements(enc, items[..m]), enc(items[m]), Closing(enc, items[n..]);
      assert Elements(enc, items[..n]) == e + (if m > 0 then [44] else []) + v;
      hide Elements;
      Shifted(e, v, c, m > 0);
    }
  }

  lemma Shifted(e: Bytes, v: Bytes, c: Bytes, many: bool)
    requires many || e == []
    ensures var comma: Bytes := if many then [44] else [];
            comma + e + ([44] + v + c) == [44] + (e + comma + v) + c
  {
  }

  lemma Bracketed(e: Bytes, v: Bytes, many: bool)
    requires many || e == []
    ensures var c: Bytes := if many then [44] else [];
            [44] + ([91] + (e + c + v) + [93])[1..] == c + e + ([44] + v + [93])
  {
  }

  lemma MarshalListFromLeft(enc: Bytes -> Bytes, items: seq<Bytes>)
    requires items != []
    ensures [44] + MarshalList(enc, items)[1..] == Closing(enc, items)
  {
    var n := |items| - 1;
    ClosingSnoc(enc, items, n);
    assert items[n..] == [items[n]] && [items[n]][1..] == [];
    var e, v := Elements(enc, items[..n]), enc(items[n]);
    assert Closing(enc, items[n..]) == [44] + v + [93];
    hide Closing;
    Bracketed(e, v, n > 0);
  }

  lemma {:induction false} ClosingEnds(enc: Bytes -> Bytes, a: seq<Bytes>, b: seq<Bytes>, x: Bytes, y: Bytes)
    requires PrefixFree(enc) && Closing(enc, a) + x == Closing(enc, b) + y
    ensures a == b && x == y
    decreases |a|
  {
    var all := Closing(enc, a) + x;
    if a == [] || b == [] {
      assert all[0] == 93;
      assert a == [] && b == [];
      assert x == all[1..] && y == all[1..];
    } else {
      var c, d := Closing(enc, a[1..]) + x, Closing(enc, b[1..]) + y;
      assert all[1..] == enc(a[0]) + c && all[1..] == enc(b[0]) + d;
      EncEnds(enc, a[0], b[0], c, d);
      ClosingEnds(enc, a[1..], b[1..], x, y);
      assert a == [a[0]] + a[1..] && b == [b[0]] + b[1..];
    }
  }

  lemma RestOf(v: Bytes, w: Bytes)
    requires v <= w && v != []
    ensures [44] + w[1..] == ([44] + v[1..]) + w[|v|..]
  {
    assert w == v + w[|v|..];
  }

  lemma ListBegins(enc: Bytes -> Bytes, a: seq<Bytes>, b: seq<Bytes>)
    requires PrefixFree(enc) && a != [] && b != [] && MarshalList(enc, a) <= MarshalList(enc, b)
    ensures a == b
  {
    MarshalListFromLeft(enc, a);
    MarshalListFromLeft(enc, b);
    var v, w := MarshalList(enc, a), MarshalList(enc, b);
    assert v != [];
    hide MarshalList, Closing, PrefixFree;
    RestOf(v, w);
    assert Closing(enc, b) + [] == Closing(enc, b);
    ClosingEnds(enc, a, b, w[|v|..], []);
  }

  lemma ListApart(enc: Bytes -> Bytes, a: seq<Bytes>, b: seq<Bytes>)
    requires PrefixFree(enc) && a != [] && b != []
    ensures Apart(MarshalList(enc, a), MarshalList(enc, b))
    ensures MarshalList(enc, a) == MarshalList(enc, b) ==> a == b
  {
    hide MarshalList, PrefixFree;
    if MarshalList(enc, a) <= MarshalList(enc, b) {
      ListBegins(enc, a, b);
    } else if MarshalList(enc, b) <= MarshalList(enc, a) {
      ListBegins(enc, b, a);
    }
  }

  // ------------------------------------------------------------------ the record behind a body

  lemma {:induction false} ValueOf(fs: seq<Field>, i: nat)
    requires i < |fs| && forall i, j | 0 <= i < j < |fs| :: Rank(fs[i].tag) < Rank(fs[j].tag)
    ensures Value(fs, fs[i].tag) == Some(fs[i].value)
    decreases |fs|
  {
    hide Rank;
    if i < |fs| - 1 {
      assert Rank(fs[i].tag) < Rank(fs[|fs| - 1].tag);
      ValueOf(fs[..|fs| - 1], i);
    }
  }

  lemma TaggedApart(enc: Bytes -> Bytes, r: Record, q: Record, t: Tag)
    requires PrefixFree(enc) && Apart(r.details, q.details)
    requires Tagged(enc, r, t).Some? && Tagged(enc, q, t).Some?
    ensures Apart(Tagged(enc, r, t).value, Tagged(enc, q, t).value)
  {
    hide Apart, PrefixFree, Decimal, MarshalList, Ascii;
    match t
    case ActivityId => DecimalApart(r.activity, q.activity);
    case Seq => DecimalApart(r.seq_, q.seq_);
    case Obligations => ListApart(enc, r.obligations, q.obligations);
    case LabelsOut => ListApart(enc, r.labelsOut, q.labelsOut);
    case CarriedLabels => ListApart(enc, r.carriedLabels, q.carriedLabels);
    case Details =>
    case ClassUid => SelfApart(Decimal(6003));
    case CategoryUid => SelfApart(Decimal(6));
    case AuditOnly => SelfApart(Ascii("true"));
    case _ => EncApart(enc, Text(r, t), Text(q, t));
  }

  lemma SelfApart(v: Bytes)
    ensures Apart(v, v)
  {
  }

  /** The string a member of string type holds. */
  function Text(r: Record, t: Tag): Bytes {
    match t
    case Time => r.time
    case RequestId => r.requestId
    case SessionId => r.session
    case AgentId => r.agent
    case TaskId => r.task
    case UserId => r.user
    case TokenId => r.token
    case Pep => r.pep
    case Upstream => r.upstream
    case PolicyVersion => r.policyVersion
    case PolicySha256 => r.policySha
    case TargetType => r.targetType
    case Target => r.target
    case Method => r.method_
    case Decision => r.decision
    case DenialCode => r.denialCode
    case ConditionType => r.conditionType
    case ProtocolRevision => r.revision
    case KeyId => r.keyId
    case PrevHmac => r.prev
    case _ => []
  }

  lemma FieldsAligned(enc: Bytes -> Bytes, r: Record, q: Record)
    requires PrefixFree(enc) && Apart(r.details, q.details)
    ensures Aligned(Fields(enc, r), Fields(enc, q))
  {
    hide Fields, Tagged, Rank, Value, Apart, PrefixFree;
    FieldsExact(enc, r);
    FieldsExact(enc, q);
    var fs, gs := Fields(enc, r), Fields(enc, q);
    forall f, g | f in fs && g in gs && f.tag == g.tag
      ensures Apart(f.value, g.value)
    {
      var i :| 0 <= i < |fs| && fs[i] == f;
      var j :| 0 <= j < |gs| && gs[j] == g;
      ValueOf(fs, i);
      ValueOf(gs, j);
      TaggedApart(enc, r, q, f.tag);
    }
  }

  lemma StringsTold(enc: Bytes -> Bytes, r: Record, q: Record, t: Tag)
    requires PrefixFree(enc) && Tagged(enc, r, t) == Tagged(enc, q, t)
    ensures Text(r, t) == Text(q, t)
  {
    EncApart(enc, Text(r, t), Text(q, t));
  }

  /** Members marshaled alike are alike. */
  lemma TaggedInjective(enc: Bytes -> Bytes, r: Record, q: Record)
    requires PrefixFree(enc) && forall t :: Tagged(enc, r, t) == Tagged(enc, q, t)
    ensures r == q
  {
    forall t ensures Text(r, t) == Text(q, t) { StringsTold(enc, r, q, t); }
    NumbersTold(enc, r, q);
    ListsTold(enc, r, q);
    hide Tagged, PrefixFree;
    TextsTell(r, q);
  }

  lemma NumbersTold(enc: Bytes -> Bytes, r: Record, q: Record)
    requires forall t :: Tagged(enc, r, t) == Tagged(enc, q, t)
    ensures r.activity == q.activity && r.seq_ == q.seq_ && r.auditOnly == q.auditOnly && r.details == q.details
  {
    hide Decimal;
    assert Tagged(enc, r, ActivityId) == Tagged(enc, q, ActivityId) && Tagged(enc, r, Seq) == Tagged(enc, q, Seq);
    assert Tagged(enc, r, AuditOnly) == Tagged(enc, q, AuditOnly);
    assert Tagged(enc, r, Details) == Tagged(enc, q, Details);
    DecimalApart(r.activity, q.activity);
    DecimalApart(r.seq_, q.seq_);
  }

  lemma ListTold(enc: Bytes -> Bytes, a: seq<Bytes>, b: seq<Bytes>)
    requires PrefixFree(enc) && (a == [] <==> b == []) && (a != [] ==> MarshalList(enc, a) == MarshalList(enc, b))
    ensures a == b
  {
    if a != [] { ListApart(enc, a, b); }
  }

  lemma ListsTold(enc: Bytes -> Bytes, r: Record, q: Record)
    requires PrefixFree(enc) && forall t :: Tagged(enc, r, t) == Tagged(enc, q, t)
    ensures r.obligations == q.obligations && r.labelsOut == q.labelsOut && r.carriedLabels == q.carriedLabels
  {
    hide MarshalList, PrefixFree;
    assert Tagged(enc, r, Obligations) == Tagged(enc, q, Obligations);
    assert Tagged(enc, r, LabelsOut) == Tagged(enc, q, LabelsOut);
    assert Tagged(enc, r, CarriedLabels) == Tagged(enc, q, CarriedLabels);
    ListTold(enc, r.obligations, q.obligations);
    ListTold(enc, r.labelsOut, q.labelsOut);
    ListTold(enc, r.carriedLabels, q.carriedLabels);
  }

  predicate SameHead(r: Record, q: Record) {
    && r.time == q.time && r.requestId == q.requestId && r.session == q.session && r.agent == q.agent
    && r.task == q.task && r.user == q.user && r.token == q.token && r.pep == q.pep && r.upstream == q.upstream
  }

  predicate SameMiddle(r: Record, q: Record) {
    && r.policyVersion == q.policyVersion && r.policySha == q.policySha && r.targetType == q.targetType
    && r.target == q.target && r.method_ == q.method_ && r.decision == q.decision
  }

  predicate SameTail(r: Record, q: Record) {
    && r.denialCode == q.denialCode && r.conditionType == q.conditionType && r.revision == q.revision
    && r.keyId == q.keyId && r.prev == q.prev
  }

  lemma HeadTexts(r: Record, q: Record)
    requires forall t :: Text(r, t) == Text(q, t)
    ensures SameHead(r, q)
  {
    assert Text(r, Time) == Text(q, Time) && Text(r, RequestId) == Text(q, RequestId);
    assert Text(r, SessionId) == Text(q, SessionId) && Text(r, AgentId) == Text(q, AgentId);
    assert Text(r, TaskId) == Text(q, TaskId) && Text(r, UserId) == Text(q, UserId);
    assert Text(r, TokenId) == Text(q, TokenId) && Text(r, Pep) == Text(q, Pep);
    assert Text(r, Upstream) == Text(q, Upstream);
  }

  lemma MiddleTexts(r: Record, q: Record)
    requires forall t :: Text(r, t) == Text(q, t)
    ensures SameMiddle(r, q)
  {
    assert Text(r, PolicyVersion) == Text(q, PolicyVersion) && Text(r, PolicySha256) == Text(q, PolicySha256);
    assert Text(r, TargetType) == Text(q, TargetType) && Text(r, Target) == Text(q, Target);
    assert Text(r, Method) == Text(q, Method) && Text(r, Decision) == Text(q, Decision);
  }

  lemma TailTexts(r: Record, q: Record)
    requires forall t :: Text(r, t) == Text(q, t)
    ensures SameTail(r, q)
  {
    assert Text(r, DenialCode) == Text(q, DenialCode) && Text(r, ConditionType) == Text(q, ConditionType);
    assert Text(r, ProtocolRevision) == Text(q, ProtocolRevision) && Text(r, KeyId) == Text(q, KeyId);
    assert Text(r, PrevHmac) == Text(q, PrevHmac);
  }

  lemma TextsTell(r: Record, q: Record)
    requires forall t :: Text(r, t) == Text(q, t)
    requires r.activity == q.activity && r.seq_ == q.seq_ && r.auditOnly == q.auditOnly && r.details == q.details
    requires r.obligations == q.obligations && r.labelsOut == q.labelsOut && r.carriedLabels == q.carriedLabels
    ensures r == q
  {
    hide Text;
    HeadTexts(r, q);
    MiddleTexts(r, q);
    TailTexts(r, q);
  }

  lemma HeadFirst(enc: Bytes -> Bytes, r: Record)
    ensures Fields(enc, r) != []
  {
    hide Decimal, Str, IdentityFields, RouteFields, DecisionFields, ListFields, ChainFields;
  }

  /**
   Two records with the same signed bytes are the same record: no member can be changed, added or
   left out under one MAC. Details are embedded as raw JSON, and neither object begins the other.
   */
  lemma BodyInjective(enc: Bytes -> Bytes, r: Record, q: Record)
    requires PrefixFree(enc) && Apart(r.details, q.details) && Body(enc, r) == Body(enc, q)
    ensures r == q
  {
    hide Fields, Tagged, Apart, PrefixFree, Join, Listed, Value, Rank, Aligned;
    var fs, gs := Fields(enc, r), Fields(enc, q);
    var a, b := Join(fs), Join(gs);
    assert a == Body(enc, r)[1..|a| + 1] && b == Body(enc, q)[1..|b| + 1] && |Body(enc, r)| == |a| + 2;
    HeadFirst(enc, r);
    HeadFirst(enc, q);
    JoinListed(fs);
    JoinListed(gs);
    FieldsAligned(enc, r, q);
    ListedInjective(fs, gs);
    FieldsExact(enc, r);
    FieldsExact(enc, q);
    TaggedInjective(enc, r, q);
  }
}
