/**
 Mining a draft manifest from a tape: what the accumulators hold after any sequence of allowed
 calls to one tool, and when an allowedValues condition is emitted (cmd/eunox/suggest.go).
 */
module Suggest {

  import opened Wrappers

  /** A decoded argument value: text, or anything else JSON has. */
  datatype Raw = Text(text: string) | NonText

  /** One allowed call: its details as recorded, and whether it was recorded in audit mode. */
  datatype Call = Call(details: Option<map<string, Raw>>, auditOnly: bool)

  /**
   Code outside this model: the reserved detail keys, the placeholder detectors, the glob matcher,
   and its guards for a folded path and for a single segment.
   */
  datatype Rules = Rules(reserved: string -> bool, elided: string -> bool, matches: (string, string) -> bool,
                         confined: string -> bool, single: string -> bool)

  const TRUNCATED_KEY: string := "_eunox_truncated"
  const MAX_VALUES_DEFAULT: int := 20

  function ResolveMaxValues(maxValues: int): (n: nat)
    ensures n > 0
  {
    if maxValues <= 0 then MAX_VALUES_DEFAULT else maxValues
  }

  // ------------------------------------------------------------------ what a call shows

  predicate WholeTruncated(c: Call) { c.details.Some? && TRUNCATED_KEY in c.details.value }

  /** The call's arguments are on the tape and `name` is one of them. */
  predicate Shows(rules: Rules, c: Call, name: string) {
    c.details.Some? && !WholeTruncated(c) && name in c.details.value && !rules.reserved(name)
  }

  /** The call says which arguments it carried: it shows one, or is an audit-mode call with none. */
  ghost predicate Counted(rules: Rules, c: Call) {
    !WholeTruncated(c) && (c.auditOnly || exists name :: Shows(rules, c, name))
  }

  /** The call carried `name` as text that was recorded in full. */
  predicate Plain(rules: Rules, c: Call, name: string) {
    Shows(rules, c, name) && c.details.value[name].Text? && !rules.elided(c.details.value[name].text)
  }

  ghost function CountedCalls(rules: Rules, calls: seq<Call>): nat {
    if calls == [] then 0
    else CountedCalls(rules, calls[..|calls| - 1]) + if Counted(rules, calls[|calls| - 1]) then 1 else 0
  }

  function ShowingCalls(rules: Rules, calls: seq<Call>, name: string): nat {
    if calls == [] then 0
    else ShowingCalls(rules, calls[..|calls| - 1], name) + if Shows(rules, calls[|calls| - 1], name) then 1 else 0
  }

  /** The distinct values recorded in full for an argument. */
  function Observed(rules: Rules, calls: seq<Call>, name: string): (vs: set<string>)
    ensures forall v :: v in vs <==> exists c | c in calls :: Plain(rules, c, name) && c.details.value[name].text == v
  {
    if calls == [] then {}
    else
      var init, c := calls[..|calls| - 1], calls[|calls| - 1];
      assert calls == init + [c];
      if Plain(rules, c, name) then Observed(rules, init, name) + {c.details.value[name].text}
      else Observed(rules, init, name)
  }

  // ------------------------------------------------------------------ the accumulators

  datatype Arg = Arg(values: set<string>, nonString: bool, calls: nat, truncated: bool, overflowed: bool)

  const FRESH: Arg := Arg({}, false, 0, false, false)

  function ArgAt(args: map<string, Arg>, name: string): Arg {
    if name in args then args[name] else FRESH
  }

  /** One argument of one call, folded in. */
  function Note(rules: Rules, a: Arg, raw: Raw, maxValues: nat): Arg {
    var a := a.(calls := a.calls + 1);
    if raw.Text? && rules.elided(raw.text) then a.(truncated := true)
    else if raw.NonText? then a.(nonString := true)
    else if a.overflowed then a
    else if raw.text !in a.values && |a.values| > maxValues then a.(overflowed := true, values := {})
    else a.(values := a.values + {raw.text})
  }

  function NoteCall(rules: Rules, a: Arg, c: Call, name: string, maxValues: nat): Arg {
    if Shows(rules, c, name) then Note(rules, a, c.details.value[name], maxValues) else a
  }

  /** What an accumulator says about the calls it has seen. */
  ghost predicate Tracks(rules: Rules, a: Arg, calls: seq<Call>, name: string, maxValues: nat) {
    && a.calls == ShowingCalls(rules, calls, name)
    && (a.nonString <==> AnyNonText(rules, calls, name))
    && (a.truncated <==> AnyElided(rules, calls, name))
    && Capped(a, Observed(rules, calls, name), maxValues)
  }

  predicate IsNonText(rules: Rules, c: Call, name: string) { Shows(rules, c, name) && c.details.value[name].NonText? }

  predicate Elided(rules: Rules, c: Call, name: string) {
    Shows(rules, c, name) && c.details.value[name].Text? && rules.elided(c.details.value[name].text)
  }

  predicate AnyNonText(rules: Rules, calls: seq<Call>, name: string) {
    exists c | c in calls :: IsNonText(rules, c, name)
  }

  predicate AnyElided(rules: Rules, calls: seq<Call>, name: string) {
    exists c | c in calls :: Elided(rules, c, name)
  }

  lemma AnyAppend(rules: Rules, calls: seq<Call>, c: Call, name: string)
    ensures AnyNonText(rules, calls + [c], name) <==> AnyNonText(rules, calls, name) || IsNonText(rules, c, name)
    ensures AnyElided(rules, calls + [c], name) <==> AnyElided(rules, calls, name) || Elided(rules, c, name)
    ensures ShowingCalls(rules, calls + [c], name) ==
            ShowingCalls(rules, calls, name) + if Shows(rules, c, name) then 1 else 0
  {
    hide IsNonText, Elided;
    assert (calls + [c])[..|calls|] == calls;
    assert forall d :: d in calls + [c] <==> d in calls || d == c;
  }

  lemma ObservedAppend(rules: Rules, calls: seq<Call>, c: Call, name: string)
    ensures Observed(rules, calls + [c], name) ==
            Observed(rules, calls, name) + if Plain(rules, c, name) then {c.details.value[name].text} else {}
  {
    assert (calls + [c])[..|calls|] == calls;
  }

  ghost predicate Capped(a: Arg, vs: set<string>, maxValues: nat) {
    && (a.overflowed <==> |vs| > maxValues + 1)
    && (!a.overflowed ==> a.values == vs)
  }

  lemma CappedNext(rules: Rules, a: Arg, vs: set<string>, raw: Raw, maxValues: nat)
    requires Capped(a, vs, maxValues)
    ensures Capped(Note(rules, a, raw, maxValues),
                   vs + if raw.Text? && !rules.elided(raw.text) then {raw.text} else {}, maxValues)
  {
    if raw.Text? && !rules.elided(raw.text) {
      OneMoreValue(vs, raw.text);
    } else {
      assert vs + {} == vs;
    }
  }

  lemma OneMoreValue(vs: set<string>, v: string)
    ensures v in vs ==> vs + {v} == vs
    ensures v !in vs ==> |vs + {v}| == |vs| + 1
  {
  }

  lemma NoteFlags(rules: Rules, a: Arg, raw: Raw, maxValues: nat)
    ensures var a' := Note(rules, a, raw, maxValues);
            && a'.calls == a.calls + 1
            && (a'.nonString <==> a.nonString || raw.NonText?)
            && (a'.truncated <==> a.truncated || (raw.Text? && rules.elided(raw.text)))
  {
  }

  lemma TracksNext(rules: Rules, a: Arg, calls: seq<Call>, c: Call, name: string, maxValues: nat)
    requires Tracks(rules, a, calls, name, maxValues)
    ensures Tracks(rules, NoteCall(rules, a, c, name, maxValues), calls + [c], name, maxValues)
  {
    ObservedAppend(rules, calls, c, name);
    AnyAppend(rules, calls, c, name);
    hide Observed, AnyNonText, AnyElided, ShowingCalls, Capped, Note;
    var vs := Observed(rules, calls, name);
    if Shows(rules, c, name) {
      NoteFlags(rules, a, c.details.value[name], maxValues);
      CappedNext(rules, a, vs, c.details.value[name], maxValues);
    } else {
      assert vs + {} == vs;
    }
  }

  class Target {
    var nonTruncatedAllow: nat
    var wholeTruncated: bool
    var args: map<string, Arg>

    ghost predicate Summarises(rules: Rules, calls: seq<Call>, maxValues: nat)
      reads this
    {
      && nonTruncatedAllow == CountedCalls(rules, calls)
      && (wholeTruncated <==> exists c | c in calls :: WholeTruncated(c))
      && (forall name :: Tracks(rules, ArgAt(args, name), calls, name, maxValues))
      && (forall name :: name in args <==> ShowingCalls(rules, calls, name) > 0)
    }

    constructor ()
      ensures nonTruncatedAllow == 0 && !wholeTruncated && args == map[]
    {
      nonTruncatedAllow, wholeTruncated, args := 0, false, map[];
    }

    /** mineArgs: one allowed call. */
    method Mine(rules: Rules, c: Call, maxValues: nat)
      modifies this
      ensures wholeTruncated == (old(wholeTruncated) || WholeTruncated(c))
      ensures nonTruncatedAllow == old(nonTruncatedAllow) + if Counted(rules, c) then 1 else 0
      ensures forall name :: name in args <==> name in old(args) || Shows(rules, c, name)
      ensures forall name :: ArgAt(args, name) == NoteCall(rules, ArgAt(old(args), name), c, name, maxValues)
    {
      if c.details.None? {
        if c.auditOnly { nonTruncatedAllow := nonTruncatedAllow + 1; }
        return;
      }
      var details := c.details.value;
      if TRUNCATED_KEY in details {
        wholeTruncated := true;
        return;
      }
      var names := set name | name in details && !rules.reserved(name);
      assert forall name :: name in names <==> Shows(rules, c, name);
      if names == {} {
        if c.auditOnly { nonTruncatedAllow := nonTruncatedAllow + 1; }
        return;
      }
      nonTruncatedAllow := nonTruncatedAllow + 1;
      hide Note;
      while names != {}
        invariant nonTruncatedAllow == old(nonTruncatedAllow) + 1 && wholeTruncated == old(wholeTruncated)
        invariant forall name | name in names :: Shows(rules, c, name)
        invariant forall name :: name in args <==> name in old(args) || (Shows(rules, c, name) && name !in names)
        invariant forall name :: ArgAt(args, name) ==
                    var a := ArgAt(old(args), name);
                    if name in names then a else NoteCall(rules, a, c, name, maxValues)
        decreases |names|
      {
        var name :| name in names;
        args := args[name := Note(rules, ArgAt(args, name), details[name], maxValues)];
        names := names - {name};
      }
    }

    /** writeTargetEntry's switch: a condition on the values seen, or the reason there is none. */
    function Verdict(rules: Rules, name: string, maxValues: nat): Verdict
      requires name in args
      reads this
    {
      var a := args[name];
      if name == "" then NoName
      else if a.truncated then ValueTruncated
      else if wholeTruncated then MapTruncated
      else if IsArgumentPath(name) then PathName
      else if IsEscapedLiteral(name) then EscapedName
      else if a.calls < nonTruncatedAllow then Optional
      else if a.overflowed then TooMany
      else if a.nonString && a.values == {} then NoStrings
      else if a.nonString then MixedTypes
      else if |a.values| > maxValues then TooMany
      else if !ValuesSelfMatch(rules, a.values) then NotSelfMatching
      else if !ValuesGlobInert(a.values) then Widening
      else Condition(a.values)
    }
  }

  // ------------------------------------------------------------------ the draft

  datatype Verdict =
    | Condition(values: set<string>)
    | NoName | ValueTruncated | MapTruncated | PathName | EscapedName | Optional
    | TooMany | NoStrings | MixedTypes | NotSelfMatching | Widening

  predicate IsArgumentPath(name: string) { "$." <= name }

  function Dollars(name: string): (n: nat)
    ensures n <= |name|
  {
    if name != "" && name[0] == '$' then 1 + Dollars(name[1..]) else 0
  }

  predicate IsEscapedLiteral(name: string) {
    2 <= Dollars(name) < |name| && name[Dollars(name)] == '.'
  }

  predicate ValuesSelfMatch(rules: Rules, vs: set<string>) { forall v | v in vs :: rules.matches(v, v) }

  predicate GlobInert(v: string) { forall ch | ch in v :: ch !in "*?[\\" }

  predicate ValuesGlobInert(vs: set<string>) { forall v | v in vs :: GlobInert(v) }

  /** Mining one tool's allowed calls, in tape order. */
  method MineAll(rules: Rules, calls: seq<Call>, maxValues: int) returns (t: Target)
    ensures fresh(t) && t.Summarises(rules, calls, ResolveMaxValues(maxValues))
  {
    var limit := ResolveMaxValues(maxValues);
    t := new Target();
    for i := 0 to |calls|
      invariant fresh(t) && t.Summarises(rules, calls[..i], limit)
    {
      label before:
      t.Mine(rules, calls[i], limit);
      assert calls[..i + 1] == calls[..i] + [calls[i]];
      forall name
        ensures Tracks(rules, ArgAt(t.args, name), calls[..i + 1], name, limit)
      {
        TracksNext(rules, old@before(ArgAt(t.args, name)), calls[..i], calls[i], name, limit);
      }
      assert calls[..i + 1][..i] == calls[..i];
    }
    assert calls[..|calls|] == calls;
  }

  lemma {:induction false} ShowingAtMostCounted(rules: Rules, calls: seq<Call>, name: string)
    ensures ShowingCalls(rules, calls, name) <= CountedCalls(rules, calls)
    ensures ShowingCalls(rules, calls, name) == CountedCalls(rules, calls) <==>
              forall c | c in calls && Counted(rules, c) :: Shows(rules, c, name)
    ensures ShowingCalls(rules, calls, name) > 0 <==> exists c | c in calls :: Shows(rules, c, name)
  {
    if calls != [] {
      var init, c := calls[..|calls| - 1], calls[|calls| - 1];
      ShowingAtMostCounted(rules, init, name);
      assert calls == init + [c];
      assert Shows(rules, c, name) ==> Counted(rules, c);
    }
  }

  /** A name the engine reads as itself: no dollar signs and a dot in front, be they two or more. */
  ghost predicate Literal(name: string) {
    name != "" && !exists n | 1 <= n < |name| :: name[n] == '.' && forall i | 0 <= i < n :: name[i] == '$'
  }

  lemma {:induction false} DollarsAre(name: string)
    ensures forall i | 0 <= i < Dollars(name) :: name[i] == '$'
    ensures Dollars(name) < |name| ==> name[Dollars(name)] != '$'
  {
    if name != "" && name[0] == '$' { DollarsAre(name[1..]); }
  }

  lemma LiteralExact(name: string)
    ensures Literal(name) <==> name != "" && !IsArgumentPath(name) && !IsEscapedLiteral(name)
  {
    DollarsAre(name);
    hide Dollars;
    var d := Dollars(name);
    if IsArgumentPath(name) { assert name[1] == '.' && name[0] == '$'; }
    forall n | 1 <= n < |name| && name[n] == '.' && (forall i | 0 <= i < n :: name[i] == '$')
      ensures IsArgumentPath(name) || IsEscapedLiteral(name)
    {
      assert d == n;
      assert n == 1 ==> name[..2] == "$.";
    }
  }

  /** None of the characters a glob gives a meaning to. */
  ghost predicate NoMeta(v: string) {
    '*' !in v && '?' !in v && '[' !in v && '\\' !in v
  }

  lemma InertExact(v: string)
    ensures GlobInert(v) <==> NoMeta(v)
  {
    var meta := "*?[\\";
    assert forall ch :: ch in meta <==> ch == meta[0] || ch == meta[1] || ch == meta[2] || ch == meta[3];
  }

  /**
   What the draft constrains, said of the tape alone: an argument every call that tells carried as
   text in full, no call's map having been lost, with few enough values, each matching only itself.
   */
  ghost predicate Constrainable(rules: Rules, calls: seq<Call>, name: string, maxValues: nat) {
    && Literal(name)
    && (exists c | c in calls :: Shows(rules, c, name))
    && (forall c | c in calls :: !WholeTruncated(c))
    && (forall c | c in calls && Counted(rules, c) :: Plain(rules, c, name))
    && |Observed(rules, calls, name)| <= maxValues
    && (forall v | v in Observed(rules, calls, name) :: rules.matches(v, v) && NoMeta(v))
  }

  ghost predicate Emits(t: Target, rules: Rules, name: string, maxValues: nat, vs: set<string>)
    reads t
  {
    name in t.args && t.Verdict(rules, name, maxValues) == Condition(vs)
  }

  lemma NoLostValues(rules: Rules, calls: seq<Call>, name: string)
    ensures (forall c | c in calls && Counted(rules, c) :: Plain(rules, c, name)) <==>
              && (forall c | c in calls && Counted(rules, c) :: Shows(rules, c, name))
              && !AnyNonText(rules, calls, name) && !AnyElided(rules, calls, name)
  {
    assert forall c | Shows(rules, c, name) :: Counted(rules, c);
    assert forall c | Shows(rules, c, name) ::
        Plain(rules, c, name) <==> !IsNonText(rules, c, name) && !Elided(rules, c, name);
  }

  lemma InertValues(rules: Rules, vs: set<string>)
    ensures ValuesSelfMatch(rules, vs) && ValuesGlobInert(vs) <==>
            forall v | v in vs :: rules.matches(v, v) && NoMeta(v)
  {
    hide GlobInert, NoMeta;
    forall v ensures GlobInert(v) <==> NoMeta(v) { InertExact(v); }
  }

  /** A condition is emitted exactly for the constrainable arguments, and lists exactly the observed values. */
  lemma EmitsExact(t: Target, rules: Rules, calls: seq<Call>, name: string, maxValues: nat, vs: set<string>)
    requires t.Summarises(rules, calls, maxValues)
    ensures Emits(t, rules, name, maxValues, vs) <==>
              Constrainable(rules, calls, name, maxValues) && vs == Observed(rules, calls, name)
  {
    InertValues(rules, Observed(rules, calls, name));
    LiteralExact(name);
    hide Observed, ShowingCalls, CountedCalls, Counted, IsArgumentPath, IsEscapedLiteral, ValuesSelfMatch,
         ValuesGlobInert, AnyNonText, AnyElided, Literal, NoMeta;
    ShowingAtMostCounted(rules, calls, name);
    NoLostValues(rules, calls, name);
    assert Tracks(rules, ArgAt(t.args, name), calls, name, maxValues);
  }

  /** What each refusal to constrain says about the tape. */
  ghost predicate Reason(v: Verdict, rules: Rules, calls: seq<Call>, name: string, maxValues: nat) {
    var vs := Observed(rules, calls, name);
    match v
    case Condition(values) => values == vs && values != {}
    case NoName => name == ""
    case ValueTruncated => AnyElided(rules, calls, name)
    case MapTruncated => exists c | c in calls :: WholeTruncated(c)
    case PathName => IsArgumentPath(name)
    case EscapedName => IsEscapedLiteral(name)
    case Optional => exists c | c in calls :: Counted(rules, c) && !Shows(rules, c, name)
    case TooMany => |vs| > maxValues
    case NoStrings => AnyNonText(rules, calls, name) && vs == {}
    case MixedTypes => AnyNonText(rules, calls, name) && vs != {}
    case NotSelfMatching => exists p | p in vs :: !rules.matches(p, p)
    case Widening => exists p | p in vs :: !GlobInert(p)
  }

  /** Every review note in the draft is true of the tape it was mined from. */
  lemma NotesTrue(t: Target, rules: Rules, calls: seq<Call>, name: string, maxValues: nat)
    requires t.Summarises(rules, calls, maxValues) && name in t.args
    ensures Reason(t.Verdict(rules, name, maxValues), rules, calls, name, maxValues)
  {
    ShowingAtMostCounted(rules, calls, name);
    NoLostValues(rules, calls, name);
    assert Tracks(rules, ArgAt(t.args, name), calls, name, maxValues);
    if t.Verdict(rules, name, maxValues).Condition? {
      var c :| c in calls && Shows(rules, c, name);
      assert Plain(rules, c, name);
      assert c.details.value[name].text in Observed(rules, calls, name);
    }
  }

  predicate Admits(rules: Rules, vs: set<string>, v: string) { exists p | p in vs :: rules.matches(p, v) }

  /** Every backslash read as a slash. */
  function Fold(v: string): (w: string)
    ensures |w| == |v| && forall i | 0 <= i < |v| :: w[i] == if v[i] == '\\' then '/' else v[i]
  {
    seq(|v|, i requires 0 <= i < |v| => if v[i] == '\\' then '/' else v[i])
  }

  /** The values a pattern without metacharacters stands for: itself, or any spelling of its path. */
  predicate Denotes(p: string, v: string) {
    if '/' in p then Fold(v) == p else v == p
  }

  /** MatchValueGlob on such patterns: path.Match is equality there, behind a guard on the value. */
  ghost predicate MatchesInert(rules: Rules) {
    forall p, v | NoMeta(p) ::
      rules.matches(p, v) <==> Denotes(p, v) && if '/' in p then rules.confined(Fold(v)) else rules.single(v)
  }

  lemma InertFolds(p: string)
    requires NoMeta(p)
    ensures Fold(p) == p
  {
    assert forall i | 0 <= i < |p| :: p[i] in p;
  }

  /** A value that matches itself admits exactly what it denotes. */
  lemma AdmitsDenoted(rules: Rules, p: string, v: string)
    requires MatchesInert(rules) && NoMeta(p) && rules.matches(p, p)
    ensures rules.matches(p, v) <==> Denotes(p, v)
  {
    InertFolds(p);
  }

  /**
   Mining is sound: under an emitted condition every call the tape tells about is still admitted,
   and the values admitted are exactly those the observed ones denote.
   */
  lemma MiningSound(t: Target, rules: Rules, calls: seq<Call>, name: string, maxValues: nat, vs: set<string>)
    requires t.Summarises(rules, calls, maxValues) && Emits(t, rules, name, maxValues, vs)
    ensures forall c | c in calls && Counted(rules, c) ::
              Plain(rules, c, name) && Admits(rules, vs, c.details.value[name].text)
    ensures MatchesInert(rules) ==>
              forall v :: Admits(rules, vs, v) <==>
                exists c | c in calls :: Plain(rules, c, name) && Denotes(c.details.value[name].text, v)
  {
    EmitsExact(t, rules, calls, name, maxValues, vs);
    assert forall v | v in vs :: rules.matches(v, v) && NoMeta(v);
    forall c | c in calls && Counted(rules, c)
      ensures Plain(rules, c, name) && Admits(rules, vs, c.details.value[name].text)
    {
      assert c.details.value[name].text in vs;
    }
    if MatchesInert(rules) {
      hide Denotes, MatchesInert;
      forall v
        ensures Admits(rules, vs, v) <==>
                  exists c | c in calls :: Plain(rules, c, name) && Denotes(c.details.value[name].text, v)
      {
        forall p | p in vs ensures rules.matches(p, v) <==> Denotes(p, v) { AdmitsDenoted(rules, p, v); }
        DenotedByCall(rules, calls, name, v);
      }
    }
  }

  lemma DenotedByCall(rules: Rules, calls: seq<Call>, name: string, v: string)
    ensures (exists p | p in Observed(rules, calls, name) :: Denotes(p, v)) <==>
            exists c | c in calls :: Plain(rules, c, name) && Denotes(c.details.value[name].text, v)
  {
    hide Denotes;
    forall c | c in calls && Plain(rules, c, name)
      ensures c.details.value[name].text in Observed(rules, calls, name)
    {
    }
  }

  /**
   So an emitted condition widens the observed set exactly when some observed value is a path:
   the value with a slash turned into a backslash is admitted too, and was never observed.
   */
  lemma WidensExact(rules: Rules, vs: set<string>)
    requires MatchesInert(rules) && ValuesSelfMatch(rules, vs) && ValuesGlobInert(vs)
    ensures (forall v :: Admits(rules, vs, v) ==> v in vs) <==> forall p | p in vs :: '/' !in p
  {
    if forall p | p in vs :: '/' !in p {
      forall v | Admits(rules, vs, v)
        ensures v in vs
      {
        var p :| p in vs && rules.matches(p, v);
        AdmitsDenoted(rules, p, v);
      }
    } else {
      var p :| p in vs && '/' in p;
      var i :| 0 <= i < |p| && p[i] == '/';
      var w := p[i := '\\'];
      InertFolds(p);
      assert Fold(w) == p;
      AdmitsDenoted(rules, p, w);
      assert w[i] in w && w[i] in "*?[\\";
      assert Admits(rules, vs, w) && w !in vs;
    }
  }

  /** The pattern /data/x, which holds no metacharacter, also admits the value with its last slash reversed. */
  lemma BackslashAdmitted(rules: Rules)
    requires MatchesInert(rules) && rules.matches("/data/x", "/data/x")
    ensures GlobInert("/data/x") && rules.matches("/data/x", "/data\\x")
  {
    assert forall ch | ch in "/data/x" :: ch in {'/', 'd', 'a', 't', 'x'};
    assert Fold("/data\\x") == "/data/x" && "/data/x"[0] == '/';
    AdmitsDenoted(rules, "/data/x", "/data\\x");
  }

  /**
   The exception is a call recorded in enforce mode with no details: the tape does not say it had
   none, so it does not count, and a condition may be emitted that it would not meet.
   */
  lemma UnseenCallNotCounted(rules: Rules)
    requires !rules.reserved("path") && !rules.elided("a") && rules.matches("a", "a")
    ensures var calls := [Call(Some(map["path" := Text("a")]), false), Call(None, false)];
            && Constrainable(rules, calls, "path", 20)
            && calls[1] in calls && !Shows(rules, calls[1], "path")
  {
    var c, d := Call(Some(map["path" := Text("a")]), false), Call(None, false);
    var calls := [c, d];
    assert c.details.value["path"] == Text("a");
    assert "path"[0] != TRUNCATED_KEY[0];
    assert Plain(rules, c, "path") && !Plain(rules, d, "path");
    assert !Counted(rules, d);
    assert calls[..1] == [c] && calls[..1][..0] == [];
    assert Observed(rules, calls, "path") == {"a"};
    assert "path"[0] != '$';
    assert forall ch | ch in "a" :: ch == 'a';
    assert forall ch | ch in "*?[\\" :: ch != 'a';
  }
}
