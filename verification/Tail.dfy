/**
 Reading the last complete record back from the tail of a log, and truncating the
 partial write a crash left there (internal/audit/resume.go).

 Both readers see only a trailing window of the file. What they must answer is defined
 on the whole file, by `CompletePart` and `IsRecord`.
 */
module Tail {
  import opened Bytes

  datatype TailError = Probe | Shrunk | Unbounded | TruncateFailed

  datatype Result<+T> = Ok(value: T) | Err(error: TailError)

  // ------------------------------------------------------------------ whole-file reference

  /** c holds only newline-terminated lines. */
  predicate WholeLines(c: Bytes) {
    c == [] || c[|c| - 1] == NL
  }

  /** The file without the unterminated bytes after its last newline. */
  function CompletePart(f: Bytes): (c: Bytes)
    ensures WholeLines(c) && c <= f && NoNewline(f[|c|..])
  {
    f[..LastNewline(f) + 1]
  }

  lemma LastNewlineOfConcat(c: Bytes, g: Bytes)
    requires WholeLines(c) && NoNewline(g)
    ensures LastNewline(c + g) == |c| - 1
  {
    var f := c + g;
    assert forall i | |c| <= i < |f| :: f[i] == g[i - |c|];
    LastNewlineIs(f, |c| - 1);
  }

  lemma CompletePartOfConcat(c: Bytes, g: Bytes)
    requires WholeLines(c) && NoNewline(g)
    ensures CompletePart(c + g) == c
  {
    LastNewlineOfConcat(c, g);
    assert (c + g)[..|c|] == c;
  }

  lemma CompletePartBefore(f: Bytes, start: nat)
    requires start <= |f| && NoNewline(f[start..])
    ensures |CompletePart(f)| <= start
  {
    assert forall j | start <= j < |f| :: f[j] == f[start..][j - start];
  }

  /** The line at [p, e) is terminated, is not blank, and only blank lines follow it. */
  predicate IsRecord(t: Trimmer, c: Bytes, p: nat, e: nat) {
    && p <= e < |c| && c[e] == NL && (p == 0 || c[p - 1] == NL)
    && NoNewline(c[p..e]) && !t.Blank(c[p..e]) && t.Blank(c[e..])
  }

  /** Where the last non-blank line of whole lines starts, -1 when all are blank. */
  function RecordStart(t: Trimmer, c: Bytes): (p: int)
    ensures -1 <= p
  {
    var kept := t.right(c);
    if kept == [] then -1 else LastNewline(kept) + 1
  }

  /** That line, trimmed. */
  function LastRecord(t: Trimmer, c: Bytes): Bytes {
    var kept := t.right(c);
    t.both(kept[LastNewline(kept) + 1..])
  }

  /** A non-empty right trim of a line that follows a newline stands at that line. */
  lemma RightAtLine(t: Trimmer, a: Bytes, y: Bytes)
    requires t.Lawful() && t.right(y) != [] && NoNewline(t.right(y))
    ensures RecordStart(t, a + [NL] + y) == |a| + 1
    ensures LastRecord(t, a + [NL] + y) == t.both(t.right(y))
  {
    var kept := a + [NL] + t.right(y);
    assert t.Splits(a, y);
    assert forall i | |a| < i < |kept| :: kept[i] == t.right(y)[i - |a| - 1];
    LastNewlineIs(kept, |a|);
    assert kept[|a| + 1..] == t.right(y);
  }

  /** The reverse: what the last line of a right trim says about the bytes from there on. */
  lemma LineAtRecordStart(t: Trimmer, c: Bytes)
    requires t.Lawful() && RecordStart(t, c) >= 0
    ensures var p := RecordStart(t, c);
            && p < |c| && (p == 0 || c[p - 1] == NL)
            && t.right(c[p..]) != [] && NoNewline(t.right(c[p..]))
            && LastRecord(t, c) == t.both(t.right(c[p..])) && LastRecord(t, c) != []
  {
    var p, kept := RecordStart(t, c), t.right(c);
    var y := c[p..];
    assert t.Trims(c) && t.Trims(y) && t.Trims(kept[p..]);
    if p == 0 {
      assert y == c && kept[0..] == kept;
    } else {
      assert t.Splits(c[..p - 1], y) && t.Trims(c[..p - 1]);
      hide Trimmer.Lawful, Trimmer.Trims;
      assert c == c[..p - 1] + [NL] + y;
      assert kept[p..] == t.right(y);
    }
  }

  lemma IsRecordAt(t: Trimmer, c: Bytes, p: nat, e: nat)
    requires t.Lawful() && IsRecord(t, c, p, e)
    ensures p == RecordStart(t, c) && LastRecord(t, c) == t.both(c[p..e])
  {
    var line, rest := c[p..e], c[e + 1..];
    assert t.Trims([]) && t.Trims(line) && t.Trims(c[e..]) && t.Splits([], rest) && t.Splits(line, rest);
    assert c[e..] == [] + [NL] + rest;
    assert t.right(rest) == [];
    assert c[p..] == line + [NL] + rest;
    assert t.right(c[p..]) == t.right(line);
    if p == 0 {
      assert c[0..] == c;
      LastNewlineIs(t.right(c), -1);
      assert t.right(c)[0..] == t.right(c);
    } else {
      assert c == c[..p - 1] + [NL] + c[p..];
      RightAtLine(t, c[..p - 1], c[p..]);
    }
  }

  lemma RecordStartBlank(t: Trimmer, c: Bytes)
    requires t.Lawful()
    ensures RecordStart(t, c) < 0 <==> t.Blank(c)
    ensures RecordStart(t, c) < 0 <==> LastRecord(t, c) == []
  {
    assert t.Trims(c) && t.Trims([]);
    if RecordStart(t, c) >= 0 { LineAtRecordStart(t, c); }
  }

  /** RecordStart finds the last record as IsRecord describes it, and finds none only in blank bytes. */
  lemma RecordStartExact(t: Trimmer, c: Bytes)
    requires t.Lawful() && WholeLines(c)
    ensures RecordStart(t, c) < 0 <==> t.Blank(c)
    ensures RecordStart(t, c) >= 0 ==> exists e: nat :: IsRecord(t, c, RecordStart(t, c), e)
    ensures forall p: nat, e: nat | IsRecord(t, c, p, e) ::
              p == RecordStart(t, c) && LastRecord(t, c) == t.both(c[p..e])
  {
    RecordStartBlank(t, c);
    if RecordStart(t, c) >= 0 { RecordExists(t, c); }
    forall p: nat, e: nat | IsRecord(t, c, p, e)
      ensures p == RecordStart(t, c) && LastRecord(t, c) == t.both(c[p..e])
    {
      IsRecordAt(t, c, p, e);
    }
  }

  /** Bytes whose right trim is one line: that line, its newline, and blank lines. */
  lemma FirstLineEnds(t: Trimmer, y: Bytes) returns (e: nat)
    requires t.Lawful() && y != [] && y[|y| - 1] == NL && t.right(y) != [] && NoNewline(t.right(y))
    ensures e < |y| && y[e] == NL && NoNewline(y[..e]) && !t.Blank(y[..e]) && t.Blank(y[e..])
  {
    assert t.Trims(y) && t.Trims([]);
    hide Trimmer.Lawful;
    e := FirstNewline(y, |t.right(y)|);
    var line, rest := y[..e], y[e + 1..];
    assert y == line + [NL] + rest && y[e..] == [] + [NL] + rest;
    LineThenBlank(t, y, line, rest);
    assert NoNewline(line) by {
      assert forall i | 0 <= i < |t.right(y)| :: line[i] == t.right(y)[i];
    }
  }

  lemma LineThenBlank(t: Trimmer, y: Bytes, line: Bytes, rest: Bytes)
    requires t.Lawful() && y == line + [NL] + rest && t.right(y) != [] && |t.right(y)| <= |line|
    ensures !t.Blank(line) && t.Blank([] + [NL] + rest)
  {
    assert t.Trims([]) && t.Trims(line) && t.Trims([] + [NL] + rest) && t.Splits([], rest) && t.Splits(line, rest);
  }

  lemma RecordExists(t: Trimmer, c: Bytes)
    requires t.Lawful() && WholeLines(c) && RecordStart(t, c) >= 0
    ensures exists e: nat :: IsRecord(t, c, RecordStart(t, c), e)
  {
    var p := RecordStart(t, c);
    LineAtRecordStart(t, c);
    hide Trimmer.Lawful, RecordStart, LastRecord;
    var e := FirstLineEnds(t, c[p..]);
    assert c[p..p + e] == c[p..][..e] && c[p + e..] == c[p..][e..];
    assert IsRecord(t, c, p, p + e);
  }

  /** Index of the first newline at or after `from`. */
  function FirstNewline(s: Bytes, from: nat): (e: nat)
    requires from < |s| && s[|s| - 1] == NL
    ensures from <= e < |s| && s[e] == NL
    ensures forall i | from <= i < e :: s[i] != NL
    decreases |s| - from
  {
    if s[from] == NL then from else FirstNewline(s, from + 1)
  }

  /** A window that holds a record's leading newline locates the same record as the whole file. */
  lemma WindowLocates(t: Trimmer, c: Bytes, s: nat)
    requires t.Lawful() && s < |c|
    ensures RecordStart(t, c[s..]) > 0 <==> RecordStart(t, c) > s
    ensures RecordStart(t, c) > s ==> LastRecord(t, c[s..]) == LastRecord(t, c)
  {
    if RecordStart(t, c) > s { WindowShowsRecord(t, c, s); }
    if RecordStart(t, c[s..]) > 0 { RecordShowsWindow(t, c, s); }
  }

  lemma WindowShowsRecord(t: Trimmer, c: Bytes, s: nat)
    requires t.Lawful() && s < |c| && RecordStart(t, c) > s
    ensures RecordStart(t, c[s..]) > 0 && LastRecord(t, c[s..]) == LastRecord(t, c)
  {
    var p := RecordStart(t, c);
    LineAtRecordStart(t, c);
    assert c[s..] == c[s..p - 1] + [NL] + c[p..];
    RightAtLine(t, c[s..p - 1], c[p..]);
  }

  lemma RecordShowsWindow(t: Trimmer, c: Bytes, s: nat)
    requires t.Lawful() && s < |c| && RecordStart(t, c[s..]) > 0
    ensures RecordStart(t, c) > s
  {
    var q := RecordStart(t, c[s..]);
    LineAtRecordStart(t, c[s..]);
    assert c[s..][q..] == c[s + q..];
    assert c == c[..s + q - 1] + [NL] + c[s + q..];
    RightAtLine(t, c[..s + q - 1], c[s + q..]);
  }

  // ------------------------------------------------------------------ the extraction rule

  /** The bytes without an unterminated fragment that is not blank, when any newline is in view. */
  function WithoutFragment(t: Trimmer, buf: Bytes): Bytes {
    var i := LastNewline(buf);
    if i >= 0 && !t.Blank(buf[i + 1..]) then buf[..i + 1] else buf
  }

  /** lastCompleteLineFromTail: the line, and whether its leading boundary was inside buf. */
  function LastCompleteLine(t: Trimmer, buf: Bytes): (r: (Bytes, bool)) {
    var trimmed := t.right(WithoutFragment(t, buf));
    var j := LastNewline(trimmed);
    (t.both(trimmed[j + 1..]), j >= 0)
  }

  /** On whole lines followed by an unterminated fragment the rule answers from the lines alone. */
  lemma LastCompleteLineExact(t: Trimmer, c: Bytes, g: Bytes)
    requires t.Lawful() && WholeLines(c) && NoNewline(g)
    ensures c != [] || g == [] ==> LastCompleteLine(t, c + g) == (LastRecord(t, c), RecordStart(t, c) > 0)
    ensures c == [] ==> LastCompleteLine(t, c + g) == (t.both(g), false)
  {
    hide WithoutFragment, Trimmer.Lawful;
    WithoutFragmentOfConcat(t, c, g);
    if c == [] { LineOfFragment(t, g); }
  }

  lemma WithoutFragmentOfConcat(t: Trimmer, c: Bytes, g: Bytes)
    requires t.Lawful() && WholeLines(c) && NoNewline(g)
    ensures t.right(WithoutFragment(t, c + g)) == t.right(if c == [] then g else c)
  {
    LastNewlineOfConcat(c, g);
    if c == [] {
      assert c + g == g;
    } else {
      KeptPart(t, c, g);
      assert (c + g)[..|c|] == c && (c + g)[|c|..] == g;
    }
  }

  lemma LineOfFragment(t: Trimmer, g: Bytes)
    requires t.Lawful() && NoNewline(g)
    ensures var k := t.right(g); LastNewline(k) == -1 && t.both(k[LastNewline(k) + 1..]) == t.both(g)
  {
    assert t.Trims(g);
    LastNewlineIs(t.right(g), -1);
    assert t.right(g)[0..] == t.right(g);
  }

  /** A blank fragment does not change the right trim, and a newline at the end is trimmed away. */
  lemma KeptPart(t: Trimmer, c: Bytes, g: Bytes)
    requires t.Lawful() && c != [] && WholeLines(c)
    ensures t.Blank(g) ==> t.right(c + g) == t.right(c)
  {
    var d := c[..|c| - 1];
    assert c == d + [NL] + [] && c + g == d + [NL] + g;
    assert t.Splits(d, g) && t.Splits(d, []) && t.Trims(g) && t.Trims([]);
  }

  // ------------------------------------------------------------------ read-only reader

  function TailWindowStart(size: nat, win: nat): (start: nat)
    ensures start <= size
  {
    if size < win then 0 else size - win
  }

  predicate TailReadShrank(n: nat, want: nat, eof: bool) {
    n < want && eof
  }

  /** refuseWhitespaceOnlyWindow: an empty answer is final only from offset 0. */
  predicate RefuseWhitespaceOnlyWindow(line: Bytes, start: nat) {
    line == [] && start != 0
  }

  /** interpretAuditTail over the bytes read, out of `want` asked for. */
  function InterpretAuditTail(t: Trimmer, read: Bytes, want: nat, eof: bool, start: nat): (r: Result<Bytes>) {
    if TailReadShrank(|read|, want, eof) then Err(Shrunk)
    else
      var (line, bounded) := LastCompleteLine(t, read);
      if !bounded && line != [] && start != 0 then Err(Unbounded)
      else if RefuseWhitespaceOnlyWindow(line, start) then Err(Unbounded)
      else Ok(line)
  }

  /** readLastAuditLine: the file as Stat saw it, and as ReadAt found it. */
  function ReadLastAuditLine(t: Trimmer, atStat: Bytes, atRead: Bytes, win: nat): (r: Result<Bytes>) {
    if atStat == [] then Ok([])
    else
      var size := |atStat|;
      var start := TailWindowStart(size, win);
      var hi := if |atRead| < size then |atRead| else size;
      var read := if start <= hi then atRead[start..hi] else [];
      InterpretAuditTail(t, read, size - start, |atRead| < size, start)
  }

  /**
   For a file holding a newline the reader errs exactly when the last record's leading
   boundary is outside its window, and otherwise answers what the whole file answers.
   */
  lemma ReadOnlyTailExact(t: Trimmer, f: Bytes, win: nat)
    requires t.Lawful() && !NoNewline(f)
    ensures var r := ReadLastAuditLine(t, f, f, win);
            var c, start := CompletePart(f), TailWindowStart(|f|, win);
            && (r.Ok? <==> start == 0 || RecordStart(t, c) > start)
            && (r.Ok? ==> r.value == LastRecord(t, c))
            && (r.Err? ==> r.error == Unbounded)
  {
    hide LastCompleteLine, RecordStart, LastRecord;
    var c := CompletePart(f);
    var g := f[|c|..];
    var start := TailWindowStart(|f|, win);
    assert f == c + g && f[start..|f|] == f[start..];
    if RecordStart(t, c) >= 0 { LineAtRecordStart(t, c); }
    if start < |c| {
      var w := c[start..];
      WindowLocates(t, c, start);
      assert f[start..] == w + g;
      LastCompleteLineExact(t, w, g);
      RecordStartBlank(t, w);
      assert start == 0 ==> w == c;
    } else {
      var w := f[start..];
      assert w == g[start - |c|..] && w == [] + w;
      LastCompleteLineExact(t, [], w);
    }
  }

  /**
   A file without any newline holds no complete record. The reader nevertheless answers
   the fragment itself whenever the file fits the window, so it agrees with the whole
   file exactly when that fragment is blank.
   */
  lemma ReadOnlyTailWithoutNewline(t: Trimmer, f: Bytes, win: nat)
    requires t.Lawful() && NoNewline(f)
    ensures var r := ReadLastAuditLine(t, f, f, win);
            && (r.Ok? <==> f == [] || |f| <= win)
            && (r.Ok? ==> r.value == t.both(f))
            && (r.Ok? ==> (r.value == LastRecord(t, CompletePart(f)) <==> t.Blank(f)))
  {
    hide LastCompleteLine, RecordStart, LastRecord;
    var start := TailWindowStart(|f|, win);
    var w := f[start..];
    assert w == [] + w && f[start..|f|] == w;
    LastCompleteLineExact(t, [], w);
    assert start == 0 ==> w == f;
    assert CompletePart(f) == [] by { CompletePartOfConcat([], f); assert [] + f == f; }
    assert t.Trims([]);
    RecordStartBlank(t, []);
  }

  /** The shortest fragment that is taken for a record. */
  lemma FragmentReadAsRecord(t: Trimmer)
    requires t.Lawful() && t.both([123]) == [123]
    ensures ReadLastAuditLine(t, [123], [123], 4) == Ok([123])
    ensures LastRecord(t, CompletePart([123])) == []
  {
    ReadOnlyTailWithoutNewline(t, [123], 4);
    assert CompletePart([123]) == [] by { CompletePartOfConcat([], [123]); assert [] + [123] == [123 as byte]; }
    assert t.Trims([]);
    RecordStartBlank(t, []);
  }

  /** A file that shrank between Stat and ReadAt is refused; one that grew is read as it was. */
  lemma ReadOnlyTailRace(t: Trimmer, atStat: Bytes, atRead: Bytes, win: nat)
    requires atStat != []
    ensures |atRead| < |atStat| && win > 0 ==> ReadLastAuditLine(t, atStat, atRead, win) == Err(Shrunk)
    ensures atStat <= atRead ==> ReadLastAuditLine(t, atStat, atRead, win) == ReadLastAuditLine(t, atStat, atStat, win)
  {
    var start := TailWindowStart(|atStat|, win);
    if atStat <= atRead { assert atRead[start..|atStat|] == atStat[start..|atStat|]; }
  }

  // ------------------------------------------------------------------ the active log

  /**
   What the file system and other processes do around one probe: the calls that fail, and
   the bytes something else truncates away before the window read, before the truncation's
   own Stat, and before the re-read.
   */
  datatype Env = Env(statFails: bool, cutBeforeRead: nat, readFails: bool,
                     statAgainFails: bool, cutBeforeTruncate: nat, truncateFails: bool,
                     cutBeforeReread: nat, rereadFails: bool)
  {
    predicate NoCuts() {
      cutBeforeRead == 0 && cutBeforeTruncate == 0 && cutBeforeReread == 0
    }

    predicate Quiet() {
      NoCuts() && !statFails && !readFails && !statAgainFails && !truncateFails && !rereadFails
    }
  }

  /** The record that ends c starts, with its leading newline, inside the last win bytes. */
  predicate Located(t: Trimmer, c: Bytes, win: nat) {
    RecordStart(t, c) >= 0 && |c| - RecordStart(t, c) + 1 <= win
  }

  /** The last win bytes of c. */
  function Window(c: Bytes, win: nat): Bytes {
    c[TailWindowStart(|c|, win)..]
  }

  /** What the probe answers for whole lines c: the last record of its window, clipped or not. */
  function TailAnswer(t: Trimmer, c: Bytes, win: nat): Bytes {
    LastRecord(t, Window(c, win))
  }

  /**
   The condition under which the probe answers, decided by the bytes before the call: what it
   sees of the complete lines is not blank, at first and once the fragment is gone.
   */
  predicate Answers(t: Trimmer, f: Bytes, win: nat) {
    var c, start := CompletePart(f), TailWindowStart(|f|, win);
    start == 0 || (start < |c| && !t.Blank(f[start..|c|]) && (|c| <= win || !t.Blank(Window(c, win))))
  }

  lemma AnswersIs(t: Trimmer, f: Bytes, win: nat)
    requires t.Lawful()
    ensures var c, start := CompletePart(f), TailWindowStart(|f|, win);
            Answers(t, f, win) <==>
              start == 0 || (start < |c| && !t.Blank(c[start..]) && (|c| <= win || !t.Blank(Window(c, win))))
    ensures TailAnswer(t, [], win) == []
  {
    var c, start := CompletePart(f), TailWindowStart(|f|, win);
    if start < |c| { assert f[start..|c|] == c[start..]; }
    AnswerIsShort(t, []);
    assert Window([], win) == [];
  }

  /** A record whose leading newline is in view is the whole file's last, and so is one read from offset 0. */
  lemma LocatedAnswer(t: Trimmer, c: Bytes, win: nat)
    requires t.Lawful() && WholeLines(c) && (Located(t, c, win) || |c| <= win)
    ensures TailAnswer(t, c, win) == LastRecord(t, c)
    ensures Located(t, c, win) ==> !t.Blank(Window(c, win))
  {
    hide RecordStart, LastRecord;
    var q := TailWindowStart(|c|, win);
    RecordStartBlank(t, c);
    RecordStartBlank(t, c[q..]);
    if RecordStart(t, c) >= 0 { LineAtRecordStart(t, c); }
    if q < |c| { WindowLocates(t, c, q); }
    assert q == 0 ==> c[q..] == c;
  }

  /** A window inside another shows the same record when it shows the newline before it. */
  lemma LargerWindow(t: Trimmer, c: Bytes, q: nat, start: nat)
    requires t.Lawful() && q <= start < |c| && RecordStart(t, c[start..]) > 0
    ensures LastRecord(t, c[q..]) == LastRecord(t, c[start..]) && !t.Blank(c[q..])
  {
    hide RecordStart, LastRecord;
    WindowLocates(t, c, start);
    WindowLocates(t, c, q);
    RecordStartBlank(t, c[q..]);
  }

  lemma AnswerIsShort(t: Trimmer, w: Bytes)
    requires t.Lawful() && WholeLines(w)
    ensures |LastRecord(t, w)| < |w| || w == []
    ensures w == [] ==> LastRecord(t, w) == []
  {
    assert t.Trims(w);
    var kept := t.right(w);
    assert t.Trims(kept[LastNewline(kept) + 1..]);
    hide Trimmer.Lawful;
    if w != [] { assert kept != w; }
  }

  /** The answer is the file's last record exactly when that line and its newline fit the window. */
  lemma TightAnswerExact(t: Trimmer, a: Bytes, line: Bytes, win: nat)
    requires t.Lawful() && WholeLines(a) && Tight(t, line)
    ensures var c := a + line + [NL];
            LastRecord(t, c) == line && (TailAnswer(t, c, win) == line <==> |line| + 1 <= win)
  {
    hide RecordStart, LastRecord;
    var c := a + line + [NL];
    LastTightLine(t, a, line);
    var q := TailWindowStart(|c|, win);
    if |line| + 1 <= win {
      var b := c[q..|a|];
      assert c[q..] == b + line + [NL];
      LastTightLine(t, b, line);
    } else {
      AnswerIsShort(t, c[q..]);
    }
  }

  /** A longer last line is answered by its end, although that is no record of the file. */
  lemma ClippedLine()
    ensures var f: Bytes := [97, 97, 97, 97, 97, 97, 98, 98, 98, 10];
            && Answers(GoTrimmer, f, 4) && TailAnswer(GoTrimmer, f, 4) == [98, 98, 98]
            && LastRecord(GoTrimmer, CompletePart(f)) == f[..9]
  {
    GoTrimmerLawful();
    NoSpacesKept([97, 97, 97, 97, 97, 97, 98, 98, 98]);
    NoSpacesKept([98, 98, 98]);
    hide TrimRight, TrimSpace, Answers, TailAnswer, LastRecord;
    var f: Bytes := [97, 97, 97, 97, 97, 97, 98, 98, 98, 10];
    assert f[..9] == [97, 97, 97, 97, 97, 97, 98, 98, 98];
    ClippedBy(GoTrimmer, f, [98, 98, 98], 4);
  }

  lemma ClippedBy(t: Trimmer, f: Bytes, end: Bytes, win: nat)
    requires t.Lawful() && |f| > win == |end| + 1 && f[|f| - win..] == end + [NL]
    requires NoSpaces(f[..|f| - 1]) && t.right(f[..|f| - 1]) == f[..|f| - 1] && t.both(f[..|f| - 1]) == f[..|f| - 1]
    requires NoSpaces(end) && t.right(end) == end && t.both(end) == end
    ensures Answers(t, f, win) && TailAnswer(t, f, win) == end && LastRecord(t, CompletePart(f)) == f[..|f| - 1]
  {
    hide Trimmer.Lawful, LastRecord, Answers, CompletePart, NoSpaces;
    assert f[|f| - 1] == (end + [NL])[|end|] == NL;
    assert f + [] == f;
    CompletePartOfConcat(f, []);
    OnlyLine(t, f[..|f| - 1]);
    OnlyLine(t, end);
    assert f == f[..|f| - 1] + [NL];
    AnswersIs(t, f, win);
  }

  predicate NoSpaces(s: Bytes) {
    s != [] && forall i | 0 <= i < |s| :: 33 <= s[i] <= 126
  }

  lemma NoSpacesKept(s: Bytes)
    requires NoSpaces(s)
    ensures GoTrimmer.right(s) == s && GoTrimmer.both(s) == s
  {
    assert SpaceSuffix(s) == 0 && SpacePrefix(s) == 0;
  }

  lemma OnlyLine(t: Trimmer, s: Bytes)
    requires t.Lawful() && NoSpaces(s) && t.right(s) == s && t.both(s) == s
    ensures LastRecord(t, s + [NL]) == s && !t.Blank(s + [NL])
  {
    assert t.Splits(s, []) && t.Trims([]) && t.Trims(s + [NL]);
    assert s + [NL] == s + [NL] + [];
    LastNewlineIs(s, -1);
    assert s[0..] == s;
  }

  /** Bytes of the shape the writer emits for one record. */
  predicate RecordLine(line: Bytes) {
    |line| >= 2 && line[0] == 123 && line[|line| - 1] == 125 && NoNewline(line)
  }

  /** A line without white space around it, as every line the writer emits is. */
  predicate Tight(t: Trimmer, line: Bytes) {
    line != [] && NoNewline(line) && t.right(line) == line && t.both(line) == line
  }

  lemma RecordIsTight(t: Trimmer, line: Bytes)
    requires t.Lawful() && RecordLine(line)
    ensures Tight(t, line)
  {
    assert t.Trims(line);
  }

  /** Such a line is what the whole file resumes from when it is the last complete one. */
  lemma LastTightLine(t: Trimmer, a: Bytes, line: Bytes)
    requires t.Lawful() && WholeLines(a) && Tight(t, line)
    ensures var c := a + line + [NL]; WholeLines(c) && RecordStart(t, c) == |a| && LastRecord(t, c) == line
  {
    var c := a + line + [NL];
    assert t.Trims(line) && t.Trims([]) && t.Splits([], []);
    assert c[|a|..|a| + |line|] == line && c[|a| + |line|..] == [NL] && [NL] == [] + [NL] + [];
    assert t.Trims([NL]);
    IsRecordAt(t, c, |a|, |a| + |line|);
  }

  lemma LastRecordOfLines(t: Trimmer, a: Bytes, line: Bytes)
    requires t.Lawful() && WholeLines(a) && RecordLine(line)
    ensures var c := a + line + [NL]; WholeLines(c) && RecordStart(t, c) == |a| && LastRecord(t, c) == line
  {
    RecordIsTight(t, line);
    LastTightLine(t, a, line);
  }

  /**
   The sizes under which recovery always answers: the last record fits the window with both
   of its newlines, and so does the fragment with the newline before it and one byte more.
   */
  lemma FittingTailAnswers(t: Trimmer, a: Bytes, line: Bytes, g: Bytes, win: nat)
    requires t.Lawful() && WholeLines(a) && RecordLine(line) && NoNewline(g)
    requires |line| + 2 <= win && |g| + 2 <= win
    ensures var c := a + line + [NL];
            && CompletePart(c + g) == c && Located(t, c, win) && Answers(t, c + g, win)
            && LastRecord(t, c) == line
  {
    hide RecordStart, LastRecord;
    var c := a + line + [NL];
    var f := c + g;
    CompletePartOfConcat(c, g);
    LastRecordOfLines(t, a, line);
    LocatedAnswer(t, c, win);
    var start := TailWindowStart(|f|, win);
    if start > 0 {
      var x := f[start..|c| - 1];
      assert f[|c| - 1] == c[|c| - 1] == NL && f[|c| - 2] == c[|c| - 2] == line[|line| - 1];
      assert f[start..|c|] == x + [NL];
      RecordEndShows(t, x);
    }
  }

  lemma RecordEndShows(t: Trimmer, x: Bytes)
    requires t.Lawful() && x != [] && x[|x| - 1] == 125
    ensures !t.Blank(x + [NL])
  {
    assert x + [NL] == x + [NL] + [];
    assert t.Trims(x) && t.Trims(x + [NL]) && t.Trims([]) && t.Splits(x, []);
  }

  /** The read-only reader has no second read, so line and fragment must fit together. */
  lemma FittingSiblingAnswers(t: Trimmer, a: Bytes, line: Bytes, g: Bytes, win: nat)
    requires t.Lawful() && WholeLines(a) && RecordLine(line) && NoNewline(g)
    requires |line| + |g| + 2 <= win
    ensures var f := a + line + [NL] + g; ReadLastAuditLine(t, f, f, win) == Ok(line)
  {
    hide RecordStart, LastRecord, ReadLastAuditLine;
    var c := a + line + [NL];
    var f := c + g;
    CompletePartOfConcat(c, g);
    LastRecordOfLines(t, a, line);
    assert f[|a| + |line|] == NL;
    ReadOnlyTailExact(t, f, win);
  }

  /**
   Fitting sizes alone are not enough: trailing blanks on the last line can fill what the
   window still shows of it after the fragment is dropped, and the probe then refuses a
   log whose last record it has room for. `Answers` is exactly what excludes this.
   */
  lemma FitsButRefused(t: Trimmer)
    requires t.Lawful() && t.Blank([32, 32]) && !t.Blank([97, 98, 32, 32])
    ensures var f: Bytes := [120, 10, 97, 98, 32, 32, 10, 103, 103, 103];
            Located(t, CompletePart(f), 6) && !Answers(t, f, 6)
  {
    hide RecordStart, LastRecord;
    var f: Bytes := [120, 10, 97, 98, 32, 32, 10, 103, 103, 103];
    var c, g := f[..7], f[7..];
    assert f == c + g;
    CompletePartOfConcat(c, g);
    assert c[2..6] == [97, 98, 32, 32] && c[6..] == [NL] && [NL] == [] + [NL] + [];
    assert t.Trims([]) && t.Splits([], []) && t.Trims([NL]);
    IsRecordAt(t, c, 2, 6);
    assert f[4..7] == [32, 32] + [NL] + [];
    assert t.Splits([32, 32], []) && t.Trims([32, 32]) && t.Trims(f[4..7]);
  }

  class LogHandle {
    var data: Bytes

    constructor (data: Bytes)
      ensures this.data == data
    {
      this.data := data;
    }

    /** Another process shortens the file. */
    method Shrink(k: nat)
      modifies this
      ensures data <= old(data)
      ensures |data| == if k <= |old(data)| then |old(data)| - k else 0
    {
      data := if k <= |data| then data[..|data| - k] else [];
    }

    /** readTailWindow: a whole read of [start, size) or an error. */
    method ReadTailWindow(start: nat, size: nat, cut: nat, fails: bool) returns (r: Result<Bytes>)
      requires start < size <= |data|
      modifies this
      ensures data <= old(data) && (cut == 0 ==> data == old(data))
      ensures r.Ok? ==> size <= |data| && r.value == data[start..size]
      ensures r.Err? ==> fails || |data| < size
      ensures r.Err? && r.error == Shrunk ==> cut > 0
    {
      Shrink(cut);
      if fails { return Err(Probe); }
      var hi := if |data| < size then |data| else size;
      var got := if start <= hi then data[start..hi] else [];
      if TailReadShrank(|got|, size - start, |data| < size) { return Err(Shrunk); }
      return Ok(got);
    }

    /** tailLineFromWindow: re-reads once, anchored at the new end, when the window is clipped. */
    method TailLineFromWindow(t: Trimmer, window: Bytes, start: nat, win: nat, cut: nat, fails: bool)
      returns (r: Result<Bytes>)
      requires t.Lawful()
      requires TailWindowStart(|data|, win) <= start < |data| && window == data[start..] && WholeLines(data)
      modifies this
      ensures data <= old(data) && (cut == 0 || r.Ok? ==> data == old(data))
      ensures r.Ok? ==> r.value == TailAnswer(t, data, win)
      ensures cut == 0 && !fails ==>
                (r.Ok? <==>
                   start == 0 || (!t.Blank(window) && (|old(data)| <= win || !t.Blank(Window(old(data), win)))))
    {
      hide LastCompleteLine, RecordStart, LastRecord;
      ghost var c := data;
      assert window == window + [];
      LastCompleteLineExact(t, window, []);
      RecordStartBlank(t, window);
      ghost var q := TailWindowStart(|c|, win);
      if RecordStart(t, window) > 0 { LargerWindow(t, c, q, start); }
      var (line, bounded) := LastCompleteLine(t, window);
      if RefuseWhitespaceOnlyWindow(line, start) { return Err(Unbounded); }
      if bounded || start == 0 { return Ok(line); }
      var size := |data|;
      var reStart := TailWindowStart(size, win);
      if reStart >= start { return Ok(line); }
      var again := ReadTailWindow(reStart, size, cut, fails);
      if again.Err? { return again; }
      ghost var w := c[reStart..];
      assert data == c && c[reStart..size] == w;
      assert w == w + [];
      LastCompleteLineExact(t, w, []);
      RecordStartBlank(t, w);
      var (line2, _) := LastCompleteLine(t, again.value);
      if RefuseWhitespaceOnlyWindow(line2, reStart) { return Err(Unbounded); }
      return Ok(line2);
    }

    /** The rest of truncatePartialTailAttempt, for a window that ends in an unterminated fragment. */
    method TruncateFragment(t: Trimmer, buf: Bytes, start: nat, win: nat, env: Env) returns (r: Result<(nat, Bytes)>)
      requires t.Lawful() && data != [] && data[|data| - 1] != NL
      requires start == TailWindowStart(|data|, win) < |data| && buf == data[start..]
      modifies this
      ensures data <= old(data)
      ensures r.Ok? ==> WholeLines(data) && r.value.1 == TailAnswer(t, data, win)
      ensures env.NoCuts() ==>
                && (data == old(data) || data == CompletePart(old(data)))
                && (r.Ok? ==> data == CompletePart(old(data)) && r.value.0 == |old(data)| - |data|)
      ensures env.Quiet() ==> (r.Ok? <==> Answers(t, old(data), win))
    {
      hide LastNewline, CompletePart, TailAnswer, Window, Answers, Trimmer.Lawful, Trimmer.Blank;
      ghost var f := data;
      AnswersIs(t, f, win);
      var size := |data|;
      var i := LastNewline(buf);
      if i < 0 {
        CompletePartBefore(f, start);
        if start > 0 { return Err(Unbounded); }
        assert buf == f;
        if env.truncateFails { return Err(TruncateFailed); }
        data := [];
        return Ok((size, []));
      }
      var newSize := start + i + 1;
      ghost var c := f[..newSize];
      assert c == CompletePart(f) by { assert f == c + f[newSize..]; CompletePartOfConcat(c, f[newSize..]); }
      Shrink(env.cutBeforeTruncate);
      if env.statAgainFails { return Err(Probe); }
      if |data| < newSize { return Err(Shrunk); }
      if env.truncateFails { return Err(TruncateFailed); }
      data := data[..newSize];
      assert data == c && buf[..i + 1] == c[start..] && f[start..|c|] == c[start..];
      var line := TailLineFromWindow(t, buf[..i + 1], start, win, env.cutBeforeReread, env.rereadFails);
      return if line.Err? then Err(line.error) else Ok((size - newSize, line.value));
    }

    /**
     truncatePartialTailAttempt: bytes removed and the line to resume from. `retry` is what
     happens around the one re-probe a shrink triggers.
     */
    method TruncatePartialTail(t: Trimmer, win: nat, env: Env, retry: Env, attempt: nat)
      returns (r: Result<(nat, Bytes)>)
      requires t.Lawful() && win > 0 && attempt <= 1
      modifies this
      // Nothing is ever rewritten or extended, whatever else touches the file.
      ensures data <= old(data)
      // After success the next append starts at a record boundary, and the line is the window's last record.
      ensures r.Ok? ==> WholeLines(data) && r.value.1 == TailAnswer(t, data, win)
      // A truncation removes exactly what follows the last newline.
      ensures env.NoCuts() && retry.NoCuts() ==>
                && (data == old(data) || data == CompletePart(old(data)))
                && (r.Ok? ==> data == CompletePart(old(data)) && r.value.0 == |old(data)| - |data|)
      // Undisturbed, it answers exactly when the window shows something of the complete lines.
      ensures env.Quiet() ==> (r.Ok? <==> Answers(t, old(data), win))
      decreases 1 - attempt
    {
      hide CompletePart, TailAnswer, Window, Answers, Trimmer.Lawful, Trimmer.Blank;
      ghost var f := data;
      AnswersIs(t, f, win);
      if env.statFails { return Err(Probe); }
      var size := |data|;
      if size == 0 { return Ok((0, [])); }
      var start := TailWindowStart(size, win);
      var read := ReadTailWindow(start, size, env.cutBeforeRead, env.readFails);
      if read.Err? {
        if read.error != Shrunk || attempt > 0 { return Err(read.error); }
        r := TruncatePartialTail(t, win, retry, retry, attempt + 1);
        return;
      }
      var buf := read.value;
      assert data == f && buf == f[start..] && f == f + [];
      if buf[|buf| - 1] == NL {
        CompletePartOfConcat(f, []);
        assert f[start..|f|] == buf;
        var line := TailLineFromWindow(t, buf, start, win, env.cutBeforeReread, env.rereadFails);
        return if line.Err? then Err(line.error) else Ok((0, line.value));
      }
      r := TruncateFragment(t, buf, start, win, env);
    }
  }
}
