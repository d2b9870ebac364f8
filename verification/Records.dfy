/**
 An audit record, the bytes it is marshaled to, and the caps that keep every record line
 inside the scan window (internal/audit/audit.go). Crash recovery depends on that bound.
 */
module Records {
  import opened Bytes
  import opened Json
  import opened Bounds

  const SCAN_WINDOW: nat := 4 * 1024 * 1024    // auditScanBufferBytes
  const DETAILS_CAP: nat := 1024 * 1024        // auditDetailsTotalCap
  const LIST_CAP: nat := 64 * 1024             // auditObligationsTotalCap, auditLabelsTotalCap
  const FIELD_CAP: nat := 8 * 1024             // auditEnvelopeFieldCap
  const SESSION_CAP: nat := 256                // auditSessionIDCap
  const UINT64_MAX: nat := 0xFFFF_FFFF_FFFF_FFFF

  /** No record line is longer than this; two of them still fit one scan window. */
  const MAX_LINE: nat := 1_900_000

  /** auditRecord without its _hmac: the fields the signature covers, in struct order. */
  datatype Record = Record(
    activity: nat, time: Bytes, seq_: nat, requestId: Bytes,
    session: Bytes, agent: Bytes, task: Bytes, user: Bytes, token: Bytes,
    pep: Bytes, upstream: Bytes, policyVersion: Bytes, policySha: Bytes,
    targetType: Bytes, target: Bytes, method_: Bytes, decision: Bytes, auditOnly: bool,
    denialCode: Bytes, conditionType: Bytes,
    details: Bytes, obligations: seq<Bytes>, labelsOut: seq<Bytes>, carriedLabels: seq<Bytes>,
    revision: Bytes, keyId: Bytes, prev: Bytes)

  // ------------------------------------------------------------------ marshaling

  /** The members of the object, in struct order. */
  datatype Tag =
    | ClassUid | CategoryUid | ActivityId | Time | Seq | RequestId
    | SessionId | AgentId | TaskId | UserId | TokenId
    | Pep | Upstream | PolicyVersion | PolicySha256
    | TargetType | Target | Method | Decision | AuditOnly | DenialCode | ConditionType
    | Details | Obligations | LabelsOut | CarriedLabels
    | ProtocolRevision | KeyId | PrevHmac

  function Spelling(t: Tag): string {
    match t
    case ClassUid => "class_uid"
    case CategoryUid => "category_uid"
    case ActivityId => "activity_id"
    case Time => "time"
    case Seq => "seq"
    case RequestId => "request_id"
    case SessionId => "session_id"
    case AgentId => "agent_id"
    case TaskId => "task_id"
    case UserId => "user_id"
    case TokenId => "token_id"
    case Pep => "pep"
    case Upstream => "upstream"
    case PolicyVersion => "policy_version"
    case PolicySha256 => "policy_sha256"
    case TargetType => "target_type"
    case Target => "target"
    case Method => "method"
    case Decision => "decision"
    case AuditOnly => "audit_only"
    case DenialCode => "denial_code"
    case ConditionType => "condition_type"
    case Details => "details"
    case Obligations => "obligations"
    case LabelsOut => "labels_out"
    case CarriedLabels => "carried_labels"
    case ProtocolRevision => "protocol_revision"
    case KeyId => "key_id"
    case PrevHmac => "prev_hmac"
  }

  /** The name of a member, without its quotes. */
  function Name(t: Tag): Bytes { Ascii(Spelling(t)) }

  datatype Field = Field(tag: Tag, value: Bytes)

  function Str(enc: Bytes -> Bytes, t: Tag, s: Bytes): (f: seq<Field>) {
    [Field(t, enc(s))]
  }

  /** A field tagged omitempty. */
  function OptStr(enc: Bytes -> Bytes, t: Tag, s: Bytes): (f: seq<Field>) {
    if s == [] then [] else Str(enc, t, s)
  }

  function OptList(enc: Bytes -> Bytes, t: Tag, items: seq<Bytes>): (f: seq<Field>) {
    if items == [] then [] else [Field(t, MarshalList(enc, items))]
  }

  function HeadFields(enc: Bytes -> Bytes, r: Record): seq<Field> {
    [Field(ClassUid, Decimal(6003)), Field(CategoryUid, Decimal(6)),
     Field(ActivityId, Decimal(r.activity))]
    + Str(enc, Time, r.time) + [Field(Seq, Decimal(r.seq_))] + Str(enc, RequestId, r.requestId)
  }

  function IdentityFields(enc: Bytes -> Bytes, r: Record): seq<Field> {
    OptStr(enc, SessionId, r.session) + OptStr(enc, AgentId, r.agent) + OptStr(enc, TaskId, r.task)
    + OptStr(enc, UserId, r.user) + OptStr(enc, TokenId, r.token)
  }

  function RouteFields(enc: Bytes -> Bytes, r: Record): seq<Field> {
    OptStr(enc, Pep, r.pep) + OptStr(enc, Upstream, r.upstream)
    + OptStr(enc, PolicyVersion, r.policyVersion) + OptStr(enc, PolicySha256, r.policySha)
  }

  function DecisionFields(enc: Bytes -> Bytes, r: Record): seq<Field> {
    OptStr(enc, TargetType, r.targetType) + OptStr(enc, Target, r.target) + OptStr(enc, Method, r.method_)
    + Str(enc, Decision, r.decision)
    + (if r.auditOnly then [Field(AuditOnly, Ascii("true"))] else [])
    + OptStr(enc, DenialCode, r.denialCode) + OptStr(enc, ConditionType, r.conditionType)
  }

  function ListFields(enc: Bytes -> Bytes, r: Record): seq<Field> {
    (if r.details == [] then [] else [Field(Details, r.details)])
    + OptList(enc, Obligations, r.obligations) + OptList(enc, LabelsOut, r.labelsOut)
    + OptList(enc, CarriedLabels, r.carriedLabels)
  }

  function ChainFields(enc: Bytes -> Bytes, r: Record): seq<Field> {
    OptStr(enc, ProtocolRevision, r.revision) + OptStr(enc, KeyId, r.keyId) + Str(enc, PrevHmac, r.prev)
  }

  function Fields(enc: Bytes -> Bytes, r: Record): seq<Field> {
    HeadFields(enc, r) + IdentityFields(enc, r) + RouteFields(enc, r) + DecisionFields(enc, r)
    + ListFields(enc, r) + ChainFields(enc, r)
  }

  /** `"name":value` pairs, comma-separated. */
  function Join(fs: seq<Field>): (b: Bytes) {
    if fs == [] then []
    else
      var n := |fs| - 1;
      Join(fs[..n]) + (if n > 0 then [44] else []) + [34] + Name(fs[n].tag) + [34, 58] + fs[n].value
  }

  /** json.Marshal of the record with its _hmac empty: the bytes that are signed. */
  function Body(enc: Bytes -> Bytes, r: Record): (b: Bytes) {
    [123] + Join(Fields(enc, r)) + [125]
  }

  // ------------------------------------------------------------------ the size of a line

  /** An upper bound on what a list of fields adds to a body. */
  function Cost(fs: seq<Field>): (n: nat) {
    if fs == [] then 0
    else Cost(fs[..|fs| - 1]) + |Name(fs[|fs| - 1].tag)| + |fs[|fs| - 1].value| + 4
  }

  predicate OneLine(fs: seq<Field>) {
    forall i | 0 <= i < |fs| :: NoNewline(Name(fs[i].tag)) && NoNewline(fs[i].value)
  }

  lemma {:induction false} JoinCost(fs: seq<Field>)
    ensures |Join(fs)| <= Cost(fs)
    ensures OneLine(fs) ==> NoNewline(Join(fs))
    decreases |fs|
  {
    if fs != [] {
      JoinCost(fs[..|fs| - 1]);
      var f := fs[|fs| - 1];
      assert OneLine(fs) ==> OneLine(fs[..|fs| - 1]) && NoNewline(Name(f.tag)) && NoNewline(f.value);
    }
  }

  lemma {:induction false} CostConcat(a: seq<Field>, b: seq<Field>)
    ensures Cost(a + b) == Cost(a) + Cost(b)
    decreases |b|
  {
    if b == [] {
      assert a + b == a;
    } else {
      assert (a + b)[..|a + b| - 1] == a + b[..|b| - 1];
      CostConcat(a, b[..|b| - 1]);
    }
  }

  /** One more group of fields: its cost adds up and it stays on the line. */
  lemma Group(a: seq<Field>, b: seq<Field>, n: nat, k: nat)
    requires Cost(a) <= n && OneLine(a) && Cost(b) <= k && OneLine(b)
    ensures Cost(a + b) <= n + k && OneLine(a + b)
  {
    CostConcat(a, b);
  }

  lemma FieldCost(f: Field)
    requires NoNewline(Name(f.tag)) && NoNewline(f.value)
    ensures Cost([f]) == |Name(f.tag)| + |f.value| + 4 && OneLine([f])
  {
  }

  lemma AsciiOneLine(s: string)
    requires forall i | 0 <= i < |s| :: 32 as char <= s[i] < 128 as char
    ensures NoNewline(Ascii(s))
  {
  }

  /** A short name on one line, without a quote in it. */
  predicate ShortName(s: string) {
    2 <= |s| <= 20 && forall i | 0 <= i < |s| :: 32 as char <= s[i] < 128 as char && s[i] != '"'
  }

  predicate Leading(t: Tag) {
    || t.ClassUid? || t.CategoryUid? || t.ActivityId? || t.Time? || t.Seq? || t.RequestId?
    || t.SessionId? || t.AgentId? || t.TaskId? || t.UserId?
  }

  predicate Trailing(t: Tag) {
    || t.DenialCode? || t.ConditionType? || t.Details? || t.Obligations? || t.LabelsOut? || t.CarriedLabels?
    || t.ProtocolRevision? || t.KeyId? || t.PrevHmac?
  }

  lemma LeadingClean(t: Tag)
    requires Leading(t)
    ensures ShortName(Spelling(t))
  {
  }

  predicate Last(t: Tag) { t.CarriedLabels? || t.ProtocolRevision? || t.KeyId? || t.PrevHmac? }

  lemma LastClean(t: Tag)
    requires Last(t)
    ensures ShortName(Spelling(t))
  {
  }

  lemma TrailingClean(t: Tag)
    requires Trailing(t) && !Last(t)
    ensures ShortName(Spelling(t))
  {
  }

  lemma MiddleClean(t: Tag)
    requires !Leading(t) && !Trailing(t)
    ensures ShortName(Spelling(t))
  {
  }

  lemma NameOneLine(t: Tag)
    ensures 2 <= |Name(t)| <= 20 && NoNewline(Name(t)) && forall i | 0 <= i < |Name(t)| :: Name(t)[i] != 34
  {
    hide Spelling;
    if Leading(t) {
      LeadingClean(t);
    } else if Last(t) {
      LastClean(t);
    } else if Trailing(t) {
      TrailingClean(t);
    } else {
      MiddleClean(t);
    }
  }

  lemma StrCost(enc: Bytes -> Bytes, t: Tag, s: Bytes, n: nat)
    requires IsEncoder(enc) && |s| <= n
    ensures Cost(Str(enc, t, s)) <= 6 * n + 26 && OneLine(Str(enc, t, s))
    ensures Cost(OptStr(enc, t, s)) <= 6 * n + 26 && OneLine(OptStr(enc, t, s))
  {
    assert Spells(enc, s);
    NameOneLine(t);
    FieldCost(Field(t, enc(s)));
  }

  lemma ListCost(enc: Bytes -> Bytes, t: Tag, items: seq<Bytes>)
    requires IsEncoder(enc)
    requires items == [] || |MarshalList(enc, items)| <= LIST_CAP
    ensures Cost(OptList(enc, t, items)) <= LIST_CAP + 24 && OneLine(OptList(enc, t, items))
  {
    NameOneLine(t);
    MarshalListOneLine(enc, items);
    FieldCost(Field(t, MarshalList(enc, items)));
  }

  lemma NumberCost(t: Tag, n: nat)
    requires n <= UINT64_MAX
    ensures Cost([Field(t, Decimal(n))]) <= 44 && OneLine([Field(t, Decimal(n))])
  {
    NameOneLine(t);
    DecimalUint64(n);
    FieldCost(Field(t, Decimal(n)));
  }

  /** Every field is inside its own cap: what Record and syntheticDenyMarker establish. */
  ghost predicate Bounded(enc: Bytes -> Bytes, r: Record) {
    && r.activity <= 2 && r.seq_ <= UINT64_MAX
    && |r.time| <= 64 && |r.requestId| <= 64 && |r.session| <= SESSION_CAP
    && |r.agent| <= FIELD_CAP && |r.task| <= FIELD_CAP && |r.user| <= FIELD_CAP && |r.token| <= FIELD_CAP
    && |r.pep| <= FIELD_CAP && |r.upstream| <= FIELD_CAP
    && |r.policyVersion| <= FIELD_CAP && |r.policySha| <= FIELD_CAP
    && |r.targetType| <= 32 && |r.target| <= FIELD_CAP && |r.method_| <= FIELD_CAP && |r.decision| <= 32
    && |r.denialCode| <= FIELD_CAP && |r.conditionType| <= FIELD_CAP
    && |r.details| <= DETAILS_CAP && NoNewline(r.details)
    && (r.obligations == [] || |MarshalList(enc, r.obligations)| <= LIST_CAP)
    && (r.labelsOut == [] || |MarshalList(enc, r.labelsOut)| <= LIST_CAP)
    && (r.carriedLabels == [] || |MarshalList(enc, r.carriedLabels)| <= LIST_CAP)
    && |r.revision| <= 32 && |r.keyId| <= 32 && |r.prev| <= 71
  }

  lemma HeadCost(enc: Bytes -> Bytes, r: Record)
    requires IsEncoder(enc) && Bounded(enc, r)
    ensures Cost(HeadFields(enc, r)) <= 1_100 && OneLine(HeadFields(enc, r))
  {
    hide Cost, OneLine, Str, Decimal, Ascii;
    var a, b := [Field(ClassUid, Decimal(6003))], [Field(CategoryUid, Decimal(6))];
    var c := [Field(ActivityId, Decimal(r.activity))];
    NumberCost(ClassUid, 6003);
    NumberCost(CategoryUid, 6);
    NumberCost(ActivityId, r.activity);
    NumberCost(Seq, r.seq_);
    StrCost(enc, Time, r.time, 64);
    StrCost(enc, RequestId, r.requestId, 64);
    Group(a, b, 44, 44);
    Group(a + b, c, 88, 44);
    assert [a[0], b[0], c[0]] == a + b + c;
    Group(a + b + c, Str(enc, Time, r.time), 132, 410);
    var d := a + b + c + Str(enc, Time, r.time);
    Group(d, [Field(Seq, Decimal(r.seq_))], 542, 44);
    Group(d + [Field(Seq, Decimal(r.seq_))], Str(enc, RequestId, r.requestId), 586, 410);
  }

  lemma IdentityCost(enc: Bytes -> Bytes, r: Record)
    requires IsEncoder(enc) && Bounded(enc, r)
    ensures Cost(IdentityFields(enc, r)) <= 198_300 && OneLine(IdentityFields(enc, r))
  {
    hide Cost, OneLine, OptStr;
    var a, b := OptStr(enc, SessionId, r.session), OptStr(enc, AgentId, r.agent);
    var c, d, e := OptStr(enc, TaskId, r.task), OptStr(enc, UserId, r.user), OptStr(enc, TokenId, r.token);
    StrCost(enc, SessionId, r.session, SESSION_CAP);
    StrCost(enc, AgentId, r.agent, FIELD_CAP);
    StrCost(enc, TaskId, r.task, FIELD_CAP);
    StrCost(enc, UserId, r.user, FIELD_CAP);
    StrCost(enc, TokenId, r.token, FIELD_CAP);
    Group(a, b, 1_562, 49_178);
    Group(a + b, c, 50_740, 49_178);
    Group(a + b + c, d, 99_918, 49_178);
    Group(a + b + c + d, e, 149_096, 49_178);
  }

  lemma RouteCost(enc: Bytes -> Bytes, r: Record)
    requires IsEncoder(enc) && Bounded(enc, r)
    ensures Cost(RouteFields(enc, r)) <= 196_712 && OneLine(RouteFields(enc, r))
  {
    hide Cost, OneLine, OptStr;
    var a, b := OptStr(enc, Pep, r.pep), OptStr(enc, Upstream, r.upstream);
    var c, d := OptStr(enc, PolicyVersion, r.policyVersion), OptStr(enc, PolicySha256, r.policySha);
    StrCost(enc, Pep, r.pep, FIELD_CAP);
    StrCost(enc, Upstream, r.upstream, FIELD_CAP);
    StrCost(enc, PolicyVersion, r.policyVersion, FIELD_CAP);
    StrCost(enc, PolicySha256, r.policySha, FIELD_CAP);
    Group(a, b, 49_178, 49_178);
    Group(a + b, c, 98_356, 49_178);
    Group(a + b + c, d, 147_534, 49_178);
  }

  lemma DecisionCost(enc: Bytes -> Bytes, r: Record)
    requires IsEncoder(enc) && Bounded(enc, r)
    ensures Cost(DecisionFields(enc, r)) <= 197_200 && OneLine(DecisionFields(enc, r))
  {
    hide Cost, OneLine, OptStr, Str, Ascii;
    var a, b := OptStr(enc, TargetType, r.targetType), OptStr(enc, Target, r.target);
    var c, d := OptStr(enc, Method, r.method_), Str(enc, Decision, r.decision);
    var e := if r.auditOnly then [Field(AuditOnly, Ascii("true"))] else [];
    var f, g := OptStr(enc, DenialCode, r.denialCode), OptStr(enc, ConditionType, r.conditionType);
    StrCost(enc, TargetType, r.targetType, 32);
    StrCost(enc, Target, r.target, FIELD_CAP);
    StrCost(enc, Method, r.method_, FIELD_CAP);
    StrCost(enc, Decision, r.decision, 32);
    StrCost(enc, DenialCode, r.denialCode, FIELD_CAP);
    StrCost(enc, ConditionType, r.conditionType, FIELD_CAP);
    AuditOnlyCost(r.auditOnly);
    Group(a, b, 218, 49_178);
    Group(a + b, c, 49_396, 49_178);
    Group(a + b + c, d, 98_574, 218);
    Group(a + b + c + d, e, 98_792, 20);
    Group(a + b + c + d + e, f, 98_812, 49_178);
    Group(a + b + c + d + e + f, g, 147_990, 49_178);
  }

  lemma AuditOnlyCost(set_: bool)
    ensures var e := if set_ then [Field(AuditOnly, Ascii("true"))] else [];
            Cost(e) <= 20 && OneLine(e)
  {
    NameOneLine(AuditOnly);
    AsciiOneLine("true");
    FieldCost(Field(AuditOnly, Ascii("true")));
  }

  lemma ListsCost(enc: Bytes -> Bytes, r: Record)
    requires IsEncoder(enc) && Bounded(enc, r)
    ensures Cost(ListFields(enc, r)) <= 1_245_400 && OneLine(ListFields(enc, r))
  {
    hide Cost, OneLine, OptList, Ascii, MarshalList;
    var a := if r.details == [] then [] else [Field(Details, r.details)];
    var b, c := OptList(enc, Obligations, r.obligations), OptList(enc, LabelsOut, r.labelsOut);
    var d := OptList(enc, CarriedLabels, r.carriedLabels);
    DetailsCost(r.details);
    ListCost(enc, Obligations, r.obligations);
    ListCost(enc, LabelsOut, r.labelsOut);
    ListCost(enc, CarriedLabels, r.carriedLabels);
    Group(a, b, DETAILS_CAP + 11, LIST_CAP + 24);
    Group(a + b, c, DETAILS_CAP + LIST_CAP + 35, LIST_CAP + 24);
    Group(a + b + c, d, DETAILS_CAP + 2 * LIST_CAP + 59, LIST_CAP + 24);
  }

  lemma DetailsCost(details: Bytes)
    requires |details| <= DETAILS_CAP && NoNewline(details)
    ensures var a := if details == [] then [] else [Field(Details, details)];
            Cost(a) <= DETAILS_CAP + 11 && OneLine(a)
  {
    NameOneLine(Details);
    FieldCost(Field(Details, details));
  }

  lemma ChainCost(enc: Bytes -> Bytes, r: Record)
    requires IsEncoder(enc) && Bounded(enc, r)
    ensures Cost(ChainFields(enc, r)) <= 900 && OneLine(ChainFields(enc, r))
  {
    hide Cost, OneLine, OptStr, Str;
    var a, b := OptStr(enc, ProtocolRevision, r.revision), OptStr(enc, KeyId, r.keyId);
    var c := Str(enc, PrevHmac, r.prev);
    StrCost(enc, ProtocolRevision, r.revision, 32);
    StrCost(enc, KeyId, r.keyId, 32);
    StrCost(enc, PrevHmac, r.prev, 71);
    Group(a, b, 218, 218);
    Group(a + b, c, 436, 452);
  }

  /** The caps add up: a body is an object on one line, and its size is bounded. */
  lemma BodyBounded(enc: Bytes -> Bytes, r: Record)
    requires IsEncoder(enc) && Bounded(enc, r)
    ensures var b := Body(enc, r);
            && 2 <= |b| <= 1_840_000 && b[0] == 123 && b[|b| - 1] == 125 && NoNewline(b)
  {
    hide Cost, OneLine, HeadFields, IdentityFields, RouteFields, DecisionFields, ListFields, ChainFields, Bounded;
    var a, b, c := HeadFields(enc, r), IdentityFields(enc, r), RouteFields(enc, r);
    var d, e, f := DecisionFields(enc, r), ListFields(enc, r), ChainFields(enc, r);
    HeadCost(enc, r);
    IdentityCost(enc, r);
    RouteCost(enc, r);
    DecisionCost(enc, r);
    ListsCost(enc, r);
    ChainCost(enc, r);
    Group(a, b, 1_100, 198_300);
    Group(a + b, c, 199_400, 196_712);
    Group(a + b + c, d, 396_112, 197_200);
    Group(a + b + c + d, e, 593_312, 1_245_400);
    Group(a + b + c + d + e, f, 1_838_712, 900);
    JoinCost(Fields(enc, r));
  }

  /** Every record line has the writer's shape and, with its newlines, fits half a scan window. */
  lemma RecordFitsWindow(enc: Bytes -> Bytes, r: Record, mac: Bytes)
    requires IsEncoder(enc) && Bounded(enc, r) && |mac| <= 71
    ensures var line := SignedRecordLine(enc, Body(enc, r), mac);
            && line.Ok? && 2 <= |line.value| <= MAX_LINE && 2 * |line.value| + 2 <= SCAN_WINDOW
            && line.value[0] == 123 && line.value[|line.value| - 1] == 125 && NoNewline(line.value)
  {
    hide Body, Bounded;
    BodyBounded(enc, r);
    assert Spells(enc, mac);
    SignedRecordLineShape(enc, Body(enc, r), mac);
  }
}
