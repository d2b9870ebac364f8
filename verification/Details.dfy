/**
 How a record is built from a request: details are bounded value by value and then as a
 whole, envelope strings and string lists each by their own cap (internal/audit/audit.go).
 */
module Details {
  import opened Wrappers
  import opened Bytes
  import opened Json
  import opened Bounds
  import opened Records

  const VALUE_CAP: nat := 512 * 1024    // auditDetailValueCap

  /** A decoded JSON argument value, in the shapes cloneAndBound distinguishes. */
  datatype Value =
    | Scalar(text: Bytes)
    | Str(s: Bytes)
    | Num(literal: Bytes)
    | Obj(fields: seq<(Bytes, Value)>)
    | Arr(items: seq<Value>)
    | Strs(strings: seq<Bytes>)
    | Blob(bytes: Bytes)

  /** base64.StdEncoding.EncodedLen. */
  function Base64Len(n: nat): (m: nat) {
    (n + 2) / 3 * 4
  }

  /** The bytes of overCapPlaceholder. */
  function OverCapPlaceholder(n: nat): (s: Bytes) {
    Ascii("[eunox: omitted ") + Decimal(n) + Ascii("-byte value exceeding the ") + Decimal(VALUE_CAP)
    + Ascii("-byte audit detail cap]")
  }

  function BoundStr(s: Bytes): (r: Bytes) {
    if |s| > VALUE_CAP then OverCapPlaceholder(|s|) else s
  }

  function CloneAndBound(v: Value): (r: Value) {
    match v
    case Scalar(_) => v
    case Str(s) => Str(BoundStr(s))
    case Num(lit) => if |lit| > VALUE_CAP then Str(OverCapPlaceholder(|lit|)) else v
    case Obj(fs) => Obj(seq(|fs|, i requires 0 <= i < |fs| => (fs[i].0, CloneAndBound(fs[i].1))))
    case Arr(vs) => Arr(seq(|vs|, i requires 0 <= i < |vs| => CloneAndBound(vs[i])))
    case Strs(ss) => Strs(seq(|ss|, i requires 0 <= i < |ss| => BoundStr(ss[i])))
    case Blob(b) => if Base64Len(|b|) > VALUE_CAP then Str(OverCapPlaceholder(Base64Len(|b|))) else v
  }

  /** No value anywhere in the tree is over the cap. */
  predicate WithinCap(v: Value) {
    match v
    case Scalar(_) => true
    case Str(s) => |s| <= VALUE_CAP
    case Num(lit) => |lit| <= VALUE_CAP
    case Obj(fs) => forall i | 0 <= i < |fs| :: WithinCap(fs[i].1)
    case Arr(vs) => forall i | 0 <= i < |vs| :: WithinCap(vs[i])
    case Strs(ss) => forall i | 0 <= i < |ss| :: |ss[i]| <= VALUE_CAP
    case Blob(b) => Base64Len(|b|) <= VALUE_CAP
  }

  /** Lengths are machine integers, so a count takes at most twenty digits. */
  predicate Sized(v: Value) {
    match v
    case Scalar(_) => true
    case Str(s) => |s| < TEN20
    case Num(lit) => |lit| < TEN20
    case Obj(fs) => forall i | 0 <= i < |fs| :: Sized(fs[i].1)
    case Arr(vs) => forall i | 0 <= i < |vs| :: Sized(vs[i])
    case Strs(ss) => forall i | 0 <= i < |ss| :: |ss[i]| < TEN20
    case Blob(b) => Base64Len(|b|) < TEN20
  }

  lemma PlaceholderWithinCap(n: nat)
    requires n < TEN20
    ensures |OverCapPlaceholder(n)| <= 120
  {
    DecimalUint64(n);
    DecimalUint64(VALUE_CAP);
  }

  lemma BoundStrExact(s: Bytes)
    requires |s| < TEN20
    ensures |BoundStr(s)| <= VALUE_CAP && (BoundStr(s) == s <==> |s| <= VALUE_CAP)
  {
    if |s| > VALUE_CAP { PlaceholderWithinCap(|s|); }
  }

  lemma StringsExact(v: Value)
    requires v.Strs? && Sized(v)
    ensures WithinCap(CloneAndBound(v)) && (CloneAndBound(v) == v <==> WithinCap(v))
  {
    hide BoundStr;
    var ss, out := v.strings, CloneAndBound(v).strings;
    forall i | 0 <= i < |ss| ensures |out[i]| <= VALUE_CAP && (out[i] == ss[i] <==> |ss[i]| <= VALUE_CAP) {
      BoundStrExact(ss[i]);
    }
    assert WithinCap(v) ==> out == ss;
  }

  /** Bounding caps every value of every tree, and touches exactly the trees that need it. */
  lemma {:induction false} CloneAndBoundExact(v: Value)
    requires Sized(v)
    ensures WithinCap(CloneAndBound(v))
    ensures CloneAndBound(v) == v <==> WithinCap(v)
  {
    match v
    case Scalar(_) =>
    case Str(s) => if |s| > VALUE_CAP { PlaceholderWithinCap(|s|); }
    case Num(lit) => if |lit| > VALUE_CAP { PlaceholderWithinCap(|lit|); }
    case Blob(b) => if Base64Len(|b|) > VALUE_CAP { PlaceholderWithinCap(Base64Len(|b|)); }
    case Strs(ss) => StringsExact(v);
    case Arr(vs) =>
      forall i | 0 <= i < |vs|
        ensures WithinCap(CloneAndBound(vs[i])) && (CloneAndBound(vs[i]) == vs[i] <==> WithinCap(vs[i]))
      {
        CloneAndBoundExact(vs[i]);
      }
      var out := CloneAndBound(v).items;
      assert forall i | 0 <= i < |vs| :: out[i] == CloneAndBound(vs[i]);
      assert WithinCap(v) ==> out == vs;
    case Obj(fs) =>
      forall i | 0 <= i < |fs|
        ensures WithinCap(CloneAndBound(fs[i].1)) && (CloneAndBound(fs[i].1) == fs[i].1 <==> WithinCap(fs[i].1))
      {
        CloneAndBoundExact(fs[i].1);
      }
      var out := CloneAndBound(v).fields;
      assert forall i | 0 <= i < |fs| :: out[i] == (fs[i].0, CloneAndBound(fs[i].1));
      assert WithinCap(v) ==> out == fs;
  }

  // ------------------------------------------------------------------ the whole map

  datatype Marshaled = Encoded(bytes: Bytes) | NotSerializable

  /** marshalTruncationMarker for an over-cap map of n bytes. */
  function OverCapMarker(n: nat): (b: Bytes) {
    Ascii("{\"_eunox_truncated\":{\"bytes\":") + Decimal(n) + Ascii(",\"cap\":") + Decimal(DETAILS_CAP)
    + Ascii(",\"reason\":\"over_total_cap\"}}")
  }

  function NotSerializableMarker(): (b: Bytes) {
    Ascii("{\"_eunox_truncated\":") + Ascii("{\"reason\":\"not_serializable\"}}")
  }

  /** marshalAndBoundDetails, over whatever json.Marshal does with the bounded copy. */
  function MarshalAndBoundDetails(marshal: Value -> Marshaled, m: seq<(Bytes, Value)>): (b: Bytes) {
    if m == [] then []
    else
      match marshal(CloneAndBound(Obj(m)))
      case NotSerializable => NotSerializableMarker()
      case Encoded(bytes) => if |bytes| > DETAILS_CAP then OverCapMarker(|bytes|) else bytes
  }

  lemma MarkersFit(n: nat)
    requires n < TEN20
    ensures |OverCapMarker(n)| <= 120 && NoNewline(OverCapMarker(n))
    ensures |NotSerializableMarker()| <= 120 && NoNewline(NotSerializableMarker())
  {
    hide Ascii, Decimal;
    DecimalUint64(n);
    DecimalUint64(DETAILS_CAP);
    AsciiOneLine("{\"_eunox_truncated\":{\"bytes\":");
    AsciiOneLine(",\"cap\":");
    AsciiOneLine(",\"reason\":\"over_total_cap\"}}");
    AsciiOneLine("{\"_eunox_truncated\":");
    AsciiOneLine("{\"reason\":\"not_serializable\"}}");
  }

  /** What json.Marshal promises: one line, of a machine-sized length. */
  ghost predicate IsMarshaler(marshal: Value -> Marshaled) {
    forall v {:trigger marshal(v)} :: marshal(v).Encoded? ==> |marshal(v).bytes| < TEN20 && NoNewline(marshal(v).bytes)
  }

  lemma DetailsBounded(marshal: Value -> Marshaled, m: seq<(Bytes, Value)>)
    requires IsMarshaler(marshal)
    ensures |MarshalAndBoundDetails(marshal, m)| <= DETAILS_CAP && NoNewline(MarshalAndBoundDetails(marshal, m))
  {
    hide CloneAndBound, OverCapMarker, NotSerializableMarker;
    MarkersFit(0);
    if m != [] {
      var e := marshal(CloneAndBound(Obj(m)));
      if e.Encoded? { MarkersFit(|e.bytes|); }
    }
  }

  /**
   What the details bytes say: the marshaled map with every value over the per-value cap replaced
   and the others as they were, under the same keys; or, where that does not marshal or passes the
   total cap, the marker that says so.
   */
  lemma DetailsSay(marshal: Value -> Marshaled, m: seq<(Bytes, Value)>) returns (w: Value)
    requires m != [] && Sized(Obj(m))
    ensures w.Obj? && |w.fields| == |m| && WithinCap(w)
    ensures forall i | 0 <= i < |m| ::
              w.fields[i].0 == m[i].0 && (w.fields[i].1 == m[i].1 <==> WithinCap(m[i].1))
    ensures forall i | 0 <= i < |m| && m[i].1.Str? && |m[i].1.s| > 512 * 1024 ::
              w.fields[i].1 == Str(OverCapPlaceholder(|m[i].1.s|))
    ensures MarshalAndBoundDetails(marshal, m) ==
            if marshal(w).NotSerializable? then NotSerializableMarker()
            else if |marshal(w).bytes| > 1024 * 1024 then OverCapMarker(|marshal(w).bytes|)
            else marshal(w).bytes
  {
    w := CloneAndBound(Obj(m));
    CloneAndBoundExact(Obj(m));
    forall i | 0 <= i < |m| ensures w.fields[i].1 == m[i].1 <==> WithinCap(m[i].1) { CloneAndBoundExact(m[i].1); }
  }

  // ------------------------------------------------------------------ envelope strings

  /** strings.ToValidUTF8, and the cut at a rune boundary, which never passes the limit. */
  datatype Utf8 = Utf8(valid: Bytes -> Bytes, cut: (Bytes, nat) -> nat) {
    ghost predicate Cuts() {
      forall s: Bytes, k: nat {:trigger cut(s, k)} :: cut(s, k) <= k
    }
  }

  /** capability.BoundString. */
  function BoundString(u: Utf8, raw: Bytes, limit: nat): (r: Bytes)
    requires u.Cuts()
  {
    var s := u.valid(raw);
    if |s| <= limit then s
    else
      var marker := Ascii("...[eunox: truncated, ") + Decimal(|s|) + Ascii(" bytes]");
      if limit < |marker| then (if limit < 3 then Ascii("...")[..limit] else Ascii("..."))
      else s[..u.cut(s, limit - |marker|)] + marker
  }

  /** The marker is kept within the limit, whatever the limit; a string that fits is kept whole, once valid. */
  lemma BoundStringFits(u: Utf8, raw: Bytes, limit: nat)
    requires u.Cuts()
    ensures |BoundString(u, raw, limit)| <= limit
    ensures |u.valid(raw)| <= limit <==> BoundString(u, raw, limit) == u.valid(raw)
    ensures limit > 0 && u.valid(raw) != [] ==> BoundString(u, raw, limit) != []
  {
  }

  /** A string over the limit keeps a prefix of itself and says how long it was, wherever that fits. */
  lemma BoundStringMarks(u: Utf8, raw: Bytes, limit: nat) returns (k: nat)
    requires u.Cuts() && |u.valid(raw)| > limit >= 60 && |u.valid(raw)| < TEN20
    ensures k <= |u.valid(raw)|
    ensures BoundString(u, raw, limit) ==
            u.valid(raw)[..k] + Ascii("...[eunox: truncated, ") + Decimal(|u.valid(raw)|) + Ascii(" bytes]")
  {
    hide Ascii, Decimal;
    var s := u.valid(raw);
    DecimalUint64(|s|);
    var a, b, c := Ascii("...[eunox: truncated, "), Decimal(|s|), Ascii(" bytes]");
    k := u.cut(s, limit - |a + b + c|);
    assert s[..k] + (a + b + c) == s[..k] + a + b + c;
  }

  // ------------------------------------------------------------------ what a call was aimed at

  const TOOL: Bytes := Ascii("tool")
  const RESOURCE: Bytes := Ascii("resource")
  const PROMPT: Bytes := Ascii("prompt")
  const SYSTEM: Bytes := Ascii("system")

  const TOOL_METHODS: seq<Bytes> := [Ascii("tools/call"), Ascii("tools/list")]
  const RESOURCE_METHODS: seq<Bytes> := [Ascii("resources/read"), Ascii("resources/subscribe"),
                                         Ascii("resources/unsubscribe"), Ascii("resources/list")]
  const PROMPT_METHODS: seq<Bytes> := [Ascii("prompts/get"), Ascii("prompts/list")]
  const SYSTEM_METHODS: seq<Bytes> := [Ascii("sampling/createMessage")]

  /** MethodTargetType: the methods that name a target, and its namespace. */
  function MethodTargetType(method_: Bytes): Option<Bytes> {
    if method_ in TOOL_METHODS then Some(TOOL)
    else if method_ in RESOURCE_METHODS then Some(RESOURCE)
    else if method_ in PROMPT_METHODS then Some(PROMPT)
    else if method_ in SYSTEM_METHODS then Some(SYSTEM)
    else None
  }

  /** bareTargetName: a prompt's display prefix is not part of its name. */
  function BareTargetName(targetType: Bytes, identifier: Bytes): Bytes {
    var prefix := Ascii("prompts/");
    if targetType == PROMPT && prefix <= identifier then identifier[|prefix|..] else identifier
  }

  datatype Aim = Aim(method_: Bytes, targetType: Bytes, target: Bytes)

  /** deriveTargetFields. */
  function DeriveTargetFields(u: Utf8, method_: Bytes, identifier: Bytes): (a: Aim)
    requires u.Cuts()
  {
    if method_ == [] then Aim([], [], [])
    else
      match MethodTargetType(method_)
      case None => Aim(BoundString(u, method_, FIELD_CAP), [], [])
      case Some(tt) =>
        var target := BoundString(u, BareTargetName(tt, identifier), FIELD_CAP);
        if target == [] then Aim(method_, [], []) else Aim(method_, tt, target)
  }

  lemma NamedMethods(method_: Bytes)
    requires MethodTargetType(method_).Some?
    ensures 0 < |method_| <= 32 && 0 < |MethodTargetType(method_).value| <= 8
  {
  }

  /**
   The three fields are within their caps for every call. A target is named if and only if the method
   takes one and the call gave one, and always together with its namespace.
   */
  lemma TargetFields(u: Utf8, method_: Bytes, identifier: Bytes)
    requires u.Cuts()
    ensures var a, tt := DeriveTargetFields(u, method_, identifier), MethodTargetType(method_);
            && |a.method_| <= FIELD_CAP && |a.targetType| <= 32 && |a.target| <= FIELD_CAP
            && (a.target != [] <==> tt.Some? && u.valid(BareTargetName(tt.value, identifier)) != [])
            && a.targetType == (if a.target != [] then tt.value else [])
            && (tt.Some? ==> a.method_ == method_)
            && (tt.None? && method_ != [] ==> a.method_ == BoundString(u, method_, FIELD_CAP))
  {
    var tt := MethodTargetType(method_);
    BoundStringFits(u, method_, FIELD_CAP);
    if tt.Some? {
      NamedMethods(method_);
      BoundStringFits(u, BareTargetName(tt.value, identifier), FIELD_CAP);
    }
    hide BoundString, MethodTargetType, BareTargetName, Ascii;
  }

  // ------------------------------------------------------------------ building the record

  datatype Params = Params(upstream: Bytes, policyVersion: Bytes, policySha: Bytes, session: Bytes,
                           method_: Bytes, identifier: Bytes, decision: Bytes,
                           denialCode: Bytes, conditionType: Bytes, details: seq<(Bytes, Value)>,
                           obligations: seq<Bytes>, auditOnly: bool,
                           labelsOut: seq<Bytes>, carriedLabels: seq<Bytes>)

  /** What the sink and the request context contribute: identity claims and fixed-width stamps. */
  datatype Stamps = Stamps(time: Bytes, requestId: Bytes, agent: Bytes, task: Bytes, user: Bytes, token: Bytes,
                           pep: Bytes, revision: Bytes, keyId: Bytes)

  const DENY: Bytes := Ascii("deny")
  const ESCALATE: Bytes := Ascii("escalate")
  const ESCALATION_REQUIRED: Bytes := Ascii("ESCALATION_REQUIRED")

  /** Record's widening of the decision: derived from the denial code, never passed. */
  function Decision(p: Params): Bytes {
    if p.denialCode == ESCALATION_REQUIRED && p.decision == DENY then ESCALATE else p.decision
  }

  /** What Record's caller and the sink have already bounded, or draw from a closed set. */
  predicate CallerBounds(p: Params, s: Stamps) {
    && |p.upstream| <= FIELD_CAP && |p.policyVersion| <= FIELD_CAP && |p.policySha| <= FIELD_CAP
    && |p.decision| <= 32
    && |s.time| <= 64 && |s.requestId| <= 64 && |s.pep| <= FIELD_CAP && |s.revision| <= 32 && |s.keyId| <= 32
  }

  const OBLIGATIONS: BoundedList := BoundedList(LIST_CAP, Ascii("obligations"))
  const LABELS: BoundedList := BoundedList(LIST_CAP, Ascii("labels"))

  lemma KindsPlain()
    ensures Plain(OBLIGATIONS.kind) && |OBLIGATIONS.kind| <= 20 && Plain(LABELS.kind) && |LABELS.kind| <= 20
  {
  }

  /** One bounded slice field of a record: Bound, for a cap that certainly holds the sentinel. */
  method BoundField(b: BoundedList, enc: Bytes -> Bytes, items: seq<Bytes>) returns (r: seq<Bytes>)
    requires IsEncoder(enc) && Plain(b.kind) && |b.kind| <= 20 && b.cap == LIST_CAP && |items| < TEN20
    ensures r == [] || |MarshalList(enc, r)| <= LIST_CAP
    ensures items == [] || |MarshalList(enc, items)| <= LIST_CAP <==> r == items
  {
    r := b.Bound(enc, items);
    if items != [] {
      DecimalUint64(|items|);
      b.SentinelPlain(|items|);
      assert Spells(enc, b.Sentinel(|items|));
      b.LoneSentinel(enc, b.Sentinel(|items|));
    }
  }

  /**
   Record: every input becomes a record, and one inside its caps exactly when the fields bounded once
   by their owners are. Its line then fits the window.
   */
  method BuildRecord(enc: Bytes -> Bytes, marshal: Value -> Marshaled, u: Utf8, p: Params, s: Stamps)
    returns (r: Record)
    requires IsEncoder(enc) && IsMarshaler(marshal) && u.Cuts()
    requires |p.obligations| < TEN20 && |p.labelsOut| < TEN20 && |p.carriedLabels| < TEN20
    ensures Bounded(enc, r) <==> CallerBounds(p, s)
    ensures r.activity == (if Decision(p) == DENY || Decision(p) == ESCALATE then 2 else 1) && r.decision == Decision(p)
    ensures r.session == BoundString(u, p.session, SESSION_CAP)
    ensures r.agent == BoundString(u, s.agent, FIELD_CAP) && r.task == BoundString(u, s.task, FIELD_CAP)
    ensures r.user == BoundString(u, s.user, FIELD_CAP) && r.token == BoundString(u, s.token, FIELD_CAP)
    ensures r.denialCode == BoundString(u, p.denialCode, FIELD_CAP)
    ensures r.conditionType == BoundString(u, p.conditionType, FIELD_CAP) && r.auditOnly == p.auditOnly
    ensures r.upstream == p.upstream && r.policyVersion == p.policyVersion && r.policySha == p.policySha
    ensures r.time == s.time && r.requestId == s.requestId && r.pep == s.pep
    ensures r.revision == s.revision && r.keyId == s.keyId
    ensures Aim(r.method_, r.targetType, r.target) == DeriveTargetFields(u, p.method_, p.identifier)
    ensures r.details == MarshalAndBoundDetails(marshal, p.details)
    ensures p.obligations == [] || |MarshalList(enc, p.obligations)| <= LIST_CAP <==> r.obligations == p.obligations
    ensures p.labelsOut == [] || |MarshalList(enc, p.labelsOut)| <= LIST_CAP <==> r.labelsOut == p.labelsOut
    ensures p.carriedLabels == [] || |MarshalList(enc, p.carriedLabels)| <= LIST_CAP <==>
              r.carriedLabels == p.carriedLabels
  {
    KindsPlain();
    hide BoundString, MarshalAndBoundDetails, MarshalList, Ascii, Plain, DeriveTargetFields, MethodTargetType;
    var decision := Decision(p);
    DetailsBounded(marshal, p.details);
    BoundStringFits(u, p.session, SESSION_CAP);
    BoundStringFits(u, s.agent, FIELD_CAP);
    BoundStringFits(u, s.task, FIELD_CAP);
    BoundStringFits(u, s.user, FIELD_CAP);
    BoundStringFits(u, s.token, FIELD_CAP);
    TargetFields(u, p.method_, p.identifier);
    var aim := DeriveTargetFields(u, p.method_, p.identifier);
    BoundStringFits(u, p.denialCode, FIELD_CAP);
    BoundStringFits(u, p.conditionType, FIELD_CAP);
    var obligations := BoundField(OBLIGATIONS, enc, p.obligations);
    var labelsOut := BoundField(LABELS, enc, p.labelsOut);
    var carried := BoundField(LABELS, enc, p.carriedLabels);
    r := Record(
      if decision == DENY || decision == ESCALATE then 2 else 1, s.time, 0, s.requestId,
      BoundString(u, p.session, SESSION_CAP), BoundString(u, s.agent, FIELD_CAP),
      BoundString(u, s.task, FIELD_CAP), BoundString(u, s.user, FIELD_CAP), BoundString(u, s.token, FIELD_CAP),
      s.pep, p.upstream, p.policyVersion, p.policySha,
      aim.targetType, aim.target, aim.method_,
      decision, p.auditOnly,
      BoundString(u, p.denialCode, FIELD_CAP), BoundString(u, p.conditionType, FIELD_CAP),
      MarshalAndBoundDetails(marshal, p.details), obligations, labelsOut, carried,
      s.revision, s.keyId, []);
  }
}
