/**
 Publishing a fresh key: any number of processes starting at once on one key path, on a
 filesystem with hard links (internal/audit/keys.go).
 */
module Publish {

  import opened Wrappers
  import opened Bytes
  import Keys

  /** Where one starter is. `inode` is its temp file. */
  datatype Phase =
    | Starting
    | SawNoFile
    | Writing(inode: nat)
    | Closed(inode: nat)
    | LostRace
    | Returned(keys: seq<Bytes>)
    | Failed

  /** The directory entry at the key path, the files' contents, and the starters. */
  datatype State = State(keyPath: Option<nat>, files: map<nat, Bytes>, starters: seq<Phase>)

  datatype Step =
    | Read(i: nat)
    | CreateTemp(i: nat, inode: nat)
    | Write(i: nat, upTo: nat)
    | Close(i: nat)
    | Link(i: nat)
    | Reread(i: nat)
    | Fail(i: nat)

  predicate Whole(s: State) { s.keyPath.Some? ==> s.keyPath.value in s.files }

  /** `drawn[i]` is the key starter `i` draws; writes go out in order, possibly in pieces. */
  predicate Enabled(drawn: seq<Bytes>, s: State, e: Step) {
    && Whole(s) && |drawn| == |s.starters|
    && e.i < |s.starters|
    && var p := s.starters[e.i];
       match e
       case Read(_) => p.Starting?
       case CreateTemp(_, inode) => p.SawNoFile? && inode !in s.files
       case Write(i, n) => p.Writing? && p.inode in s.files && |s.files[p.inode]| <= n <= |Keys.KeyLine(drawn[i])|
       case Close(i) => p.Writing? && p.inode in s.files && |s.files[p.inode]| == |Keys.KeyLine(drawn[i])|
       case Link(_) => p.Closed?
       case Reread(_) => p.LostRace?
       case Fail(_) => !p.Returned?
  }

  /** What reading the key path gives a starter. */
  function Loaded(s: State): Phase
    requires Whole(s) && s.keyPath.Some?
  {
    match Keys.Parse(s.files[s.keyPath.value])
    case Ok(ks) => Returned(ks)
    case Err(_) => Failed
  }

  function Move(s: State, i: nat, p: Phase): State
    requires i < |s.starters|
  {
    s.(starters := s.starters[i := p])
  }

  function Do(drawn: seq<Bytes>, s: State, e: Step): State
    requires Enabled(drawn, s, e)
  {
    var p := s.starters[e.i];
    match e
    case Read(i) => Move(s, i, if s.keyPath.None? then SawNoFile else Loaded(s))
    case CreateTemp(i, inode) => Move(s, i, Writing(inode)).(files := s.files[inode := []])
    case Write(i, n) => s.(files := s.files[p.inode := Keys.KeyLine(drawn[i])[..n]])
    case Close(i) => Move(s, i, Closed(p.inode))
    case Link(i) =>
      if s.keyPath.None? then Move(s, i, Returned([drawn[i]])).(keyPath := Some(p.inode))
      else Move(s, i, LostRace)
    case Reread(i) => Move(s, i, if s.keyPath.None? then Failed else Loaded(s))
    case Fail(i) => Move(s, i, Failed)
  }

  // ------------------------------------------------------------------ the invariant

  predicate OwnsTemp(p: Phase) { p.Writing? || p.Closed? }

  /** A temp file belongs to one starter, is not the published one, and holds a prefix of its key line. */
  ghost predicate TempsPrivate(drawn: seq<Bytes>, s: State) {
    && |drawn| == |s.starters|
    && (forall i | 0 <= i < |s.starters| && OwnsTemp(s.starters[i]) ::
          && s.starters[i].inode in s.files
          && s.keyPath != Some(s.starters[i].inode)
          && s.files[s.starters[i].inode] <= Keys.KeyLine(drawn[i])
          && (s.starters[i].Closed? ==> s.files[s.starters[i].inode] == Keys.KeyLine(drawn[i])))
    && (forall i, j | 0 <= i < j < |s.starters| && OwnsTemp(s.starters[i]) && OwnsTemp(s.starters[j]) ::
          s.starters[i].inode != s.starters[j].inode)
  }

  /** Everyone who has returned holds what the published file says. */
  ghost predicate Agreed(s: State) {
    && Whole(s)
    && (forall i | 0 <= i < |s.starters| && s.starters[i].Returned? ::
          s.keyPath.Some? && Keys.Parse(s.files[s.keyPath.value]) == Keys.Ok(s.starters[i].keys))
    && (forall i | 0 <= i < |s.starters| && s.starters[i].LostRace? :: s.keyPath.Some?)
  }

  /** What the key path shows: nothing yet, what was there at the start, or one starter's whole key line. */
  ghost predicate Published(drawn: seq<Bytes>, was: Option<Bytes>, s: State) {
    && Whole(s)
    && match was
       case Some(content) => s.keyPath.Some? && s.files[s.keyPath.value] == content
       case None =>
         s.keyPath.Some? ==> exists i | 0 <= i < |drawn| :: s.files[s.keyPath.value] == Keys.KeyLine(drawn[i])
  }

  predicate Usable(drawn: seq<Bytes>) { forall k | k in drawn :: Keys.Usable(k) }

  lemma TempsKept(drawn: seq<Bytes>, s: State, e: Step)
    requires Enabled(drawn, s, e) && TempsPrivate(drawn, s)
    ensures TempsPrivate(drawn, Do(drawn, s, e))
  {
    hide Keys.Parse, Keys.KeyLine;
  }

  lemma AgreedKept(drawn: seq<Bytes>, s: State, e: Step)
    requires Enabled(drawn, s, e) && TempsPrivate(drawn, s) && Agreed(s) && Usable(drawn)
    ensures Agreed(Do(drawn, s, e))
  {
    if e.Link? && s.keyPath.None? {
      Keys.KeyLineParses(drawn[e.i]);
    }
    hide Keys.KeyLine;
  }

  lemma PublishedKept(drawn: seq<Bytes>, was: Option<Bytes>, s: State, e: Step)
    requires Enabled(drawn, s, e) && TempsPrivate(drawn, s) && Published(drawn, was, s)
    ensures Published(drawn, was, Do(drawn, s, e))
    ensures s.keyPath.Some? ==> Do(drawn, s, e).keyPath == s.keyPath
  {
    hide Keys.Parse, Keys.KeyLine;
  }

  // ------------------------------------------------------------------ every interleaving

  ghost predicate Run(drawn: seq<Bytes>, ss: seq<State>, es: seq<Step>) {
    && |ss| == |es| + 1
    && Whole(ss[0]) && |ss[0].starters| == |drawn| && (forall i | 0 <= i < |drawn| :: ss[0].starters[i].Starting?)
    && forall k | 0 <= k < |es| :: Enabled(drawn, ss[k], es[k]) && ss[k + 1] == Do(drawn, ss[k], es[k])
  }

  function InitialKeyFile(s: State): Option<Bytes>
    requires Whole(s)
  {
    if s.keyPath.None? then None else Some(s.files[s.keyPath.value])
  }

  lemma {:induction false} RunKeeps(drawn: seq<Bytes>, ss: seq<State>, es: seq<Step>, k: nat)
    requires Run(drawn, ss, es) && k < |ss| && Usable(drawn)
    ensures TempsPrivate(drawn, ss[k]) && Agreed(ss[k]) && Published(drawn, InitialKeyFile(ss[0]), ss[k])
    decreases k
  {
    if k > 0 {
      RunKeeps(drawn, ss, es, k - 1);
      hide TempsPrivate, Agreed, Published;
      TempsKept(drawn, ss[k - 1], es[k - 1]);
      AgreedKept(drawn, ss[k - 1], es[k - 1]);
      PublishedKept(drawn, InitialKeyFile(ss[0]), ss[k - 1], es[k - 1]);
    }
  }

  /**
   In every interleaving: all starters that return hold the same keys, and at no moment does the
   key path show anything but nothing, the file that was there, or one complete key line.
   */
  lemma StartersAgree(drawn: seq<Bytes>, ss: seq<State>, es: seq<Step>, k: nat, i: nat, j: nat)
    requires Run(drawn, ss, es) && k < |ss| && Usable(drawn)
    requires i < |ss[k].starters| && j < |ss[k].starters|
    ensures ss[k].starters[i].Returned? && ss[k].starters[j].Returned? ==> ss[k].starters[i] == ss[k].starters[j]
    ensures Published(drawn, InitialKeyFile(ss[0]), ss[k])
  {
    RunKeeps(drawn, ss, es, k);
  }

  /**
   What a starter's read of the key path gives it. A file that was there decides: its keys, or a
   failure. Without one the first read finds nothing until someone has published, and from then on
   every read returns the winner's key and never fails.
   */
  lemma ReadLoads(drawn: seq<Bytes>, ss: seq<State>, es: seq<Step>, k: nat)
    requires Run(drawn, ss, es) && k < |es| && Usable(drawn) && (es[k].Read? || es[k].Reread?)
    ensures es[k].i < |ss[k + 1].starters|
    ensures var p := ss[k + 1].starters[es[k].i];
            match InitialKeyFile(ss[0])
            case Some(content) =>
              (forall ks :: p == Returned(ks) <==> Keys.Parse(content) == Keys.Ok(ks)) && (p.Returned? || p == Failed)
            case None =>
              if ss[k].keyPath.None? then es[k].Read? && p == SawNoFile
              else exists j | 0 <= j < |drawn| ::
                && p == Returned([drawn[j]]) && ss[k].keyPath.value in ss[k].files
                && ss[k].files[ss[k].keyPath.value] == Keys.KeyLine(drawn[j])
  {
    hide Keys.KeyLine, Keys.Parse;
    RunKeeps(drawn, ss, es, k);
    var s, e := ss[k], es[k];
    assert Enabled(drawn, s, e) && ss[k + 1] == Do(drawn, s, e);
    if InitialKeyFile(ss[0]).None? && s.keyPath.Some? {
      var j :| 0 <= j < |drawn| && s.files[s.keyPath.value] == Keys.KeyLine(drawn[j]);
      WinnerParses(drawn, j);
      assert ss[k + 1].starters[e.i] == Returned([drawn[j]]);
    }
  }

  lemma WinnerParses(drawn: seq<Bytes>, j: nat)
    requires Usable(drawn) && j < |drawn|
    ensures Keys.Parse(Keys.KeyLine(drawn[j])) == Keys.Ok([drawn[j]])
  {
    Keys.KeyLineParses(drawn[j]);
  }

  /** Without a file at the start, whoever reads the key path gets the winner's key and never an error. */
  lemma LoserLoads(drawn: seq<Bytes>, ss: seq<State>, es: seq<Step>, k: nat)
    requires Run(drawn, ss, es) && k < |ss| && Usable(drawn)
    requires ss[0].keyPath.None? && ss[k].keyPath.Some? && Whole(ss[k])
    ensures exists i | 0 <= i < |drawn| :: Loaded(ss[k]) == Returned([drawn[i]])
  {
    RunKeeps(drawn, ss, es, k);
    var i :| 0 <= i < |drawn| && ss[k].files[ss[k].keyPath.value] == Keys.KeyLine(drawn[i]);
    Keys.KeyLineParses(drawn[i]);
    assert Loaded(ss[k]) == Returned([drawn[i]]);
  }
}
