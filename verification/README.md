# The eunox audit log, modelled and proved

A Dafny model of the tamper-evident audit log of eunox: the writer and its queue, rotation,
crash recovery, the verifier, and the readers that join, mine and print the tape.
`dafny verify dfyconfig.toml` checks all of it.

| module | what it models |
|---|---|
| Wrappers | an optional value |
| Bytes, Json | bytes, Go's white-space trimming, decimal and JSON string lengths, the signed line |
| Bounds, Records, Details | list bounding, record marshalling and its size, building a record from any call |
| Bodies | what the signed bytes of a record say |
| Tail | the windowed scans that find a file's last complete record |
| Chain, Verify | chained records, their rendering to a file, the verifying pass |
| Sink, Startup, Sessions, Archive | writeRecord under I/O faults, Open, every run of writes, crashes and reopens, verifying the archive |
| Seed, Reseed | choosing a seq past everything on disk when the tail cannot be read, and Open started from it |
| Queue, Drops, Drain | producers, drainer and Close in every interleaving; drop markers; fsync debounce |
| Join, Suggest, Keys, Publish, Doctor, Reports | cross-tape ordering, manifest mining, key file and its publication, tail ring, indenting, findings and tallies |

## Main results

- `Sessions.EverySession`: from an empty disk, after any number of writes with any fault outcome,
  crashes keeping any prefix of the active file, and reopens, the records on disk are one chain:
  seqs 1..n, each `prev_hmac` the previous `_hmac`, genesis first. The records are the complete
  lines of all files, and a rotated file that is one whole record short of its newline, which the
  code resumes from. Reopening a stranded disk is the one step left out; `Sessions.ReopenExact`
  and `Sessions.StrandedBreaks` say exactly what it does.
- `Sessions.Reopen`: on every disk of every run an undisturbed Open starts, because the caps on
  records discharge what the tail probe needs.
- `Verify.TamperEvident` and `Verify.SegmentCertified`: a pass certifies a tape if it is a
  contiguous part of the signed chain and, without the keys, only then. What is supposed is that a
  held key's MAC of a body is known only where the writer signed that body (`Verify.Unforged`);
  that a record verifies only under such a MAC is proved (`Verify.VerdictExact`).
- `Bodies.FieldsExact`, `Bodies.BodyInjective`: the signed bytes hold every member of the record as
  its tag says, and no two records share them.
- `Tail.LogHandle.TruncatePartialTail`, `Tail.ReadOnlyTailExact`: what windowed recovery answers
  for every file, when it answers, and exactly when that is the whole file's last record.
- `Archive.VerifyArchive` with `Archive.ArchiveVerifies`: for every disk a run can leave, torn files
  and an absent base included, which verdict a pass over the whole archive reaches.
- `Records.RecordFitsWindow` with `Details.BuildRecord`: a built record is within its caps if and
  only if the fields bounded by their owners are, and every such record fits the window that
  recovery relies on.
- `Reseed.OpenSeeded` with `Reseed.FreshAfterOpen`: on every disk a run can leave, an Open that could
  not establish the tail, in a directory that lists, never issues a seq already on disk.
- `Startup.ResumedIsGenuine`: without the key, the seq and MAC taken over from disk are those of
  one record the writer signed.
- `Queue.QueueSafe`, `Queue.DroppedExactly`, `Queue.FirstInFirstOut`: in every interleaving, what is
  charged, which calls are dropped and why, and the order of the rest.
- `Seed.SeedPastMax`, `Drops.DropsAccounted`, `Join.OrderJoinedRecords`,
  `Suggest.EmitsExact`, `Publish.StartersAgree`.

## Where the code does less than its comments say

Each has a concrete input and the exact condition in the model.

- The read-only tail reader returns a newline-less fragment as a record
  (`ReadOnlyTailWithoutNewline`: it agrees with the whole file if and only if the fragment is blank).
- A log whose last record fits the window can still be refused, when trailing blanks fill what
  the window shows after the fragment is dropped (`FitsButRefused`; `Answers` is the condition).
- A last line longer than the window is answered by its own end, as if that were a record
  (`ClippedLine`; for a line without white space around it, as all the writer's are, the answer is
  that line if and only if it fits the window with its newline, `TightAnswerExact`).
- If the base holds no record and the newest rotated file that holds anything is a line cut short,
  reopening restarts the chain from genesis although older files hold records (`Stranded`,
  `ReopenExact`; `HeadlessDisks` is a run to such a disk). If that line lacks only its newline it
  is resumed from, one past every terminated line.
- writeRecord adds a write failure and still advances seq when the rotation inside the call fails
  to fsync or to close the old file (`CountsRotation`; `AdvancesAndFails` is an input).
- A rotated file that ends in a torn record, with another file after it, makes the archive fail
  verification although nothing was tampered with, unless the record lacks only its newline and
  nothing follows it or the chain was resumed from it (`ArchiveVerifies`, `TornArchives`,
  `AdoptedArchive`). The last file of the archive does not: a torn base, or a torn newest rotated
  file while the base does not exist, leaves the counts OK and the verdict withheld
  (`VerifyArchive`; `AbsentBase` shows one disk before and after its base reappears).
- bound does not always keep the longest prefix that fits: it keeps one entry less when the next
  one overshoots by one byte and omitting one entry fewer saves a digit (`LongestExact`, `DigitLost`).
- The unsynced tail reaches 65 records, not 64, when a marker and a record are both written after
  63 (`Drain.Drainer.Iterate`, `SixtyFive`); and the drainer's final fsync skips a closing marker
  written when nothing else is unsynced (`ClosingMarkerUnsynced`). Close's own fsync covers that
  marker (`Drain.Drainer.Close`).
- Mining does not count an enforce-mode call recorded without details, so an emitted condition may
  deny that call (`UnseenCallNotCounted`).
- A value without metacharacters does not match only its own text: a path also matches its
  spellings with backslashes. An emitted condition widens the observed set if and only if some
  observed value holds a slash (`WidensExact`, `BackslashAdmitted`).
- After a write error in the middle of a line the indenting writer may still consider itself at
  the start of one (`CutLineKeepsFlag`). After every error the flag is that of the cut line's
  beginning, except that a last line without a newline clears it once its prefix is out
  (`IndentWriter.Write`).

## Model

| member | source | states |
|---|---|---|
| Bytes.TrimSidesCommute | internal/audit/resume.go:97-127 | trimming the left side first or the right side first gives the same bytes, for every UTF-8 white-space sequence |
| Bytes.TrimRightAcrossNewline | internal/audit/resume.go:97-127 | a right trim never sees a rune across a newline, so it can be computed line by line |
| Bytes.GoTrimmerLawful | internal/audit/resume.go:97-127 | Go's TrimRight and TrimSpace satisfy every law the tail readers are proved from |
| Tail.RecordStartExact | internal/audit/resume.go:87-127 | the right-trim computation finds exactly the last non-blank terminated line described by IsRecord, and none only in blank bytes |
| Tail.WindowLocates | internal/audit/resume.go:493-544 | a window locates the same record as the whole file if and only if it holds that record's leading newline |
| Tail.LastCompleteLineExact | internal/audit/resume.go:97-127 | the extraction rule answers from the complete lines alone, whatever unterminated fragment follows |
| Tail.ReadOnlyTailExact | internal/audit/resume.go:49-145 | for a file with a newline the reader errs exactly when the last record's boundary is outside its window, else returns the whole file's last record |
| Tail.ReadOnlyTailWithoutNewline | internal/audit/resume.go:49-145 | for a file without a newline the fragment is returned, which agrees with the whole file if and only if it is blank |
| Tail.FragmentReadAsRecord | internal/audit/resume.go:922-969 | concrete fragment taken for a record |
| Tail.ReadOnlyTailRace | internal/audit/resume.go:922-969 | a file that shrank after Stat is refused; growth after Stat does not change the answer |
| Tail.LastRecordOfLines | internal/audit/resume.go:97-127 | the last line the writer emitted is what the whole file resumes from |
| Tail.FittingTailAnswers | internal/audit/resume.go:328-413 | line plus both newlines and fragment plus two inside the window imply recovery answers, with that line |
| Tail.FittingSiblingAnswers | internal/audit/resume.go:922-969 | the single-read reader answers when line and fragment fit together |
| Tail.FitsButRefused | internal/audit/resume.go:510-544 | concrete file whose last record fits and which is refused |
| Tail.LogHandle.Shrink | internal/audit/resume.go:476-491 | another process removes bytes from the end only |
| Tail.LogHandle.ReadTailWindow | internal/audit/resume.go:426-443 | a whole read of the range or an error, never a short read |
| Tail.LocatedAnswer | internal/audit/resume.go:493-544 | the window's last record is the whole file's when its leading newline is in view or the file fits |
| Tail.TightAnswerExact | internal/audit/resume.go:503-544 | for a last line without white space around it the answer is that line if and only if line and newline fit the window |
| Tail.ClippedLine | internal/audit/resume.go:510-544 | concrete file whose last line is answered by its end |
| Tail.LogHandle.TailLineFromWindow | internal/audit/resume.go:510-544 | for every file, the line returned, re-read or not, is the last record of the last window of the file; when it answers, exactly |
| Tail.LogHandle.TruncateFragment | internal/audit/resume.go:376-413 | the arm that cuts a fragment: exactly the bytes after the last newline go |
| Tail.LogHandle.TruncatePartialTail | internal/audit/resume.go:328-413 | only bytes after the last newline are ever removed; success leaves whole lines and answers TailAnswer of them, whatever disturbed it; undisturbed it answers exactly under Answers |
| Json.DecimalMonotone | internal/audit/audit.go:1843-1845 | a larger count never prints shorter |
| Json.DecimalUint64 | internal/audit/audit.go:1843-1845 | a 64-bit number prints in at most twenty digits |
| Json.DecimalReads | internal/audit/audit.go:1843-1845 | the digits printed read back as the number |
| Json.AppendJSONStringExact | internal/audit/audit.go:2495-2530 | the plain-string fast path appends the same bytes as the marshaler |
| Json.EncodedLenExact | internal/audit/audit.go:1859-1893 | the length computed without marshalling is the marshalled length, between n+2 and 6n+2 |
| Json.CanonicalExact | internal/audit/audit.go:2464-2571 | the in-place check accepts a line if and only if it equals the line signedRecordLine builds, and errs on the same bodies |
| Json.SignedRecordLineShape | internal/audit/audit.go:2464-2479 | the signed line is one line, an object, of exactly the summed length |
| Bounds.MarshalListLength | internal/audit/audit.go:1760-1838 | the running charge equals the length of the marshalled list |
| Bounds.BoundedList.SentinelMonotone | internal/audit/audit.go:1843-1857 | fewer omitted entries never need a longer sentinel |
| Bounds.BoundedList.SentinelTells | internal/audit/audit.go:1843-1857 | the omitted count can be read off the sentinel |
| Bounds.BoundedList.ReserveSuffices | internal/audit/audit.go:1800-1838 | the reserve made one entry earlier holds the sentinel of a cut here |
| Bounds.BoundedList.Truncate | internal/audit/audit.go:1895-1912 | keeps the longest prefix that fits with its sentinel, whose count is exact; over the cap only as the lone sentinel |
| Bounds.BoundedList.CheapBound | internal/audit/audit.go:1760-1785 | never accepts a list over the cap |
| Bounds.BoundedList.ExactBound | internal/audit/audit.go:1785-1800 | accepts if and only if the marshalled list is within the cap |
| Bounds.BoundedList.Bound | internal/audit/audit.go:1760-1838 | unchanged exactly when it fits, else a prefix cut at the first entry without room for the reserved sentinel, and one sentinel naming the exact omitted count; within the cap exactly when the lone sentinel is |
| Bounds.BoundedList.LongestExact | internal/audit/audit.go:1800-1838 | that prefix is the longest that fits unless a digit is lost at the cut and the overshoot is one byte |
| Bounds.DigitLost | internal/audit/audit.go:1800-1838 | concrete list where one more entry would have fitted |
| Records.BodyBounded | internal/audit/audit.go:40-149 | every bounded record marshals to an object on one line of at most 1,840,000 bytes |
| Records.RecordFitsWindow | internal/audit/audit.go:930-952 | the signed line of every bounded record, twice over and with its newlines, is inside the scan window |
| Bodies.FieldsExact | internal/audit/audit.go:42-129 | the members marshalled are exactly the struct's: each present if and only if its tag says so, with its own value, once, in struct order |
| Bodies.BodyShows | internal/audit/audit.go:42-129 | the bytes show every present member's name and value between delimiters; prev_hmac is the last |
| Bodies.BodyInjective | internal/audit/audit.go:2426-2479 | two records with the same signed bytes are the same record |
| Details.CloneAndBoundExact | internal/audit/audit.go:1299-1374 | after bounding every string in the tree is within the cap, and a tree already within it is unchanged |
| Details.DetailsBounded | internal/audit/audit.go:1669-1703 | the details bytes are within the total cap, on one line, for every input |
| Details.DetailsSay | internal/audit/audit.go:1669-1703 | the details are the marshalled map under its own keys with exactly the values over the per-value cap replaced, or the marker saying why not |
| Details.BoundStringFits | pkg/capability/truncate.go:53-74 | the result is within every limit, is the string made valid if and only if that fits, and non-empty stays non-empty |
| Details.BoundStringMarks | pkg/capability/truncate.go:53-74 | an over-long string keeps a prefix of itself and says its original length |
| Details.BoundField | internal/audit/audit.go:1705-1744 | a slice field is within its cap and unchanged if and only if it fitted |
| Details.TargetFields | internal/audit/audit.go:1914-1944 | method, target type and target are within their caps for every call; a target is named if and only if the method takes one and the call gave one, always with its namespace |
| Details.BuildRecord | internal/audit/audit.go:1096-1207 | any input becomes a record, bounded if and only if the fields bounded by their owners are; every field of it is what the call and the sink said, bounded where Record bounds it |
| Chain.LineShape | internal/audit/audit.go:2464-2479 | a sound record's line has the writer's shape and fits the window |
| Chain.CutLine | internal/audit/resume.go:740-767 | part of a record's line is the whole line, or decodes to nothing however it is trimmed |
| Chain.ChainedAppend | internal/audit/audit.go:2588-2611 | stamping the next seq and the last MAC extends a chain, and nothing else does |
| Chain.PrefixOfRender | internal/audit/resume.go:334-413 | every prefix of a log is some first records and a torn piece of the next |
| Chain.CompleteLinesOfRender | internal/audit/resume.go:334-413 | the complete lines of records followed by a torn fragment are exactly the records' lines |
| Verify.CertifiedAppend | internal/audit/verify.go:832-1020 | a tape is certified one line at a time: the line by itself, and its link to the line before |
| Verify.VerdictExact | internal/audit/verify.go:72-210 | a record verifies if and only if its line is the writer's bytes for it under a MAC that a held key computes over its body, the key it names if it names one; when it is unsigned, not canonical, of an unknown key, or untried |
| Verify.ChainVerifier.UpdateChain | internal/audit/verify.go:942-1025 | no break is counted if and only if the link and the next seq (64-bit) hold, or the first record is a sound start |
| Verify.ChainVerifier.Classify | internal/audit/verify.go:1118-1317 | no failure is counted if and only if the record decodes strictly, is authentic and has a valid time; unknown and untried keys are counted apart |
| Verify.ChainVerifier.ProcessLine | internal/audit/verify.go:832-872 | the pass stays OK if and only if the line is accepted and follows the previous one |
| Verify.VerifyLog | internal/audit/verify.go:330-412 | the verdict is OK if and only if the non-blank complete lines are certified, each authentic under a held key; an over-long line aborts the pass, exactly then, with what came before judged; a torn last line is reported, not judged |
| Verify.CarriageReturnsDropped | internal/audit/verify.go:381-412 | a tape saved with carriage returns is read as the same lines |
| Verify.HonestAccepted | internal/audit/verify.go:72-176 | every line the writer wrote under a held key is accepted |
| Verify.SegmentCertified | internal/audit/verify.go:330-391 | every contiguous part of an honest chain is certified |
| Verify.SignedIsRecord | internal/audit/audit.go:2426-2479 | a MAC the writer made for a body belongs to the one record with that body |
| Verify.AuthenticIsGenuine | internal/audit/verify.go:72-176 | without the keys an authentic line is, up to surrounding white space, one written line, with its own seq and MAC |
| Verify.AcceptedIsGenuine | internal/audit/verify.go:72-176 | so is an accepted line |
| Verify.TamperEvident | internal/audit/verify.go:832-1025 | a certified tape is a contiguous part of the written chain: no edit, insertion, inner deletion, reordering or duplicate |
| Verify.HonestStream | internal/audit/verify.go:330-412 | the bytes of any part of an honest chain are certified end to end and never abort the scan |
| Sink.Sink.RepairTailOrphan | internal/audit/audit.go:2400-2411 | removes exactly the pending orphan bytes, or changes nothing |
| Sink.Sink.SwapToFreshBase | internal/audit/rotate.go:323-350 | the active file joins the rotated ones whole and an empty one replaces it |
| Sink.Sink.Rotate | internal/audit/rotate.go:417-600 | the chain head is untouched, no byte is lost; a fresh base exactly under Rotates, the fallback state and the backed-off size otherwise, and a failure is counted exactly under RotationCounts |
| Sink.Sink.Sign | internal/audit/audit.go:2426-2479 | the bytes written are the canonical signed line and a newline |
| Sink.Sink.WriteRecord | internal/audit/audit.go:2588-2725 | one call refuses and changes nothing, or from the clean end appends one whole line and advances, exactly when nothing failed, or leaves known orphan bytes; one advance or one failure, one more exactly for a failed rotation; it rotates exactly when the line would pass the cap and rotation works, and then a file passes the cap only as a single line |
| Sink.Sink.AppendLine | internal/audit/audit.go:2640-2725 | the append half, with its exact failure count and rotation |
| Sink.AdvancesAndFails | internal/audit/rotate.go:417-600 | concrete call that advances seq and counts a failure |
| Startup.NewestRotatedSiblingWithTail | internal/audit/rotate.go:235-261 | the first non-empty tail, newest file first, or the first refusal, an unopenable or unreadable sibling included; a directory that cannot be listed is refused |
| Startup.ResumeOnlyVerified | internal/audit/resume.go:740-846 | the head is taken from disk if and only if the tail is signed, decodes strictly and is authentic under a held key |
| Startup.RestartReasons | internal/audit/resume.go:740-846 | otherwise the reason is the first check that fails |
| Startup.ResumedIsGenuine | internal/audit/resume.go:740-846 | whatever line is found, a resumed head is the seq, 1 to n, and the MAC of that very signed record |
| Startup.NewestTailSame | internal/audit/rotate.go:235-261 | where the walk answers, the siblings it could not read did not matter |
| Startup.RecoverPartialTail | internal/audit/resume.go:201-250 | the base as recovery leaves it and its last line; undisturbed it refuses exactly when recovery does not answer |
| Startup.ResolveStartupResume | internal/audit/resume.go:865-902 | the base's own line, the siblings' only where it has none, neither where the tail cannot be read |
| Startup.Open | internal/audit/audit.go:514-824 | a readable log starts a sink only on whole lines, undisturbed if and only if recovery answers; whatever disturbs it and whichever siblings are not listed or read, the head is the one that line names, or the seed; where the disk names the head it is that one |
| Sessions.WriteKeeps | internal/audit/audit.go:2588-2725 | every write step keeps files, orphan and head in agreement with one honest chain |
| Sessions.CrashKeeps | internal/audit/resume.go:334-413 | a crash that keeps any prefix of the active file leaves a prefix of the chain on disk |
| Sessions.HeldAllShown | internal/audit/rotate.go:235-261 | the rotated files are read as exactly the records of the chain they hold |
| Sessions.ReopenKeeps | internal/audit/resume.go:740-902 | reopening resumes at the last record on disk |
| Sessions.ReopenExact | internal/audit/resume.go:865-969 | for every disk a crash can leave: the head is found if and only if the disk is not stranded, a lone record short of its newline is the head, a stranded disk starts at zero |
| Sessions.HeadlessRestarts | internal/audit/resume.go:740-767 | a line cut short names no head, and the chain restarts from genesis |
| Sessions.StepKeeps | internal/audit/audit.go:2588-2725 | write, crash and reopen each keep the invariant |
| Sessions.EverySession | internal/audit/resume.go:740-846 | at every moment of every run the records of all files are one chain |
| Sessions.StrandedBreaks | internal/audit/resume.go:740-767 | the first record written after reopening a stranded disk is part of no chain with those there |
| Sessions.HeadlessDisks | internal/audit/rotate.go:417-540 | a run to a stranded disk, and one to a disk whose lone record is resumed from |
| Sessions.BaseAnswers | internal/audit/audit.go:930-952 | on every disk a crash can leave the tail probe answers, with the base's last record |
| Sessions.HeadInBase | internal/audit/resume.go:865-902 | a record in the base is the head, with its MAC, whatever became of the siblings |
| Sessions.Reopen | internal/audit/audit.go:602-824 | an undisturbed Open starts on every disk of every run, and continues the run wherever the disk names the head; a record in the base names it |
| Sessions.BuiltIsWritable | internal/audit/audit.go:1096-1207 | a record within its caps may be written next, if it survives a decode under a held key |
| Archive.CompleteLinesConcat | internal/audit/verify.go:381-445 | whole lines never run into what follows them |
| Archive.ChainTokens | internal/audit/verify.go:415-456 | joining the files with newlines yields exactly their lines, with the torn tails of all but the last file as lines of their own |
| Archive.InteriorExact | internal/audit/verify.go:381-445 | the rotated files alone are certified if and only if settled, and then read as the chain with at most one record completed by the joiner |
| Archive.ArchiveVerifies | internal/audit/rotate.go:268-293 | after any sessions, base present or absent, the archive's lines are certified if and only if every fragment ending a file that another file follows is a whole record short of its newline that nothing follows |
| Archive.DiskStream | internal/audit/verify.go:381-445 | the joined stream never holds a line too long for the scanner, and ends blank if and only if its last file is terminated |
| Archive.VerifyArchive | internal/audit/verify.go:415-456 | the pass over any such archive is never aborted, counts OK if and only if settled, and withholds the verdict if and only if the last file it reads is unterminated |
| Archive.TornArchives | internal/audit/verify.go:415-456 | three concrete archives: one byte into a record, one newline short, and the same with the chain gone on without it |
| Archive.AdoptedArchive | internal/audit/verify.go:415-456 | an archive whose torn record was resumed from is certified |
| Archive.AbsentBase | internal/audit/rotate.go:268-293 | one disk of a run: nothing wrong and no verdict while the base is absent, a failure once an empty base exists |
| Seed.ScanSeqContribution | internal/audit/resume.go:990-1036 | the largest seq among the lines read, and the file's size when it was not read to the end |
| Seed.HighestSeqAcrossChain | internal/audit/resume.go:622-673 | largest parsed seq plus all unread bytes, saturating, and when either is known |
| Seed.UnreadBytesBoundSeqs | internal/audit/resume.go:622-663 | whatever was refused or aborted, every seq above the largest parsed is paid for by an unread byte |
| Seed.TopCovers | internal/audit/resume.go:622-663 | the highest seq of a chain of files covers every line of every file |
| Seed.SeedPastMax | internal/audit/resume.go:675-721 | for files whose seqs never skip one ahead, the seed is at least the highest seq on disk and at most 2^62 |
| Seed.SeedTight | internal/audit/resume.go:675-721 | nor is the seed further past than one for every unread byte |
| Seed.SeedExact | internal/audit/resume.go:675-721 | where everything was read it is the highest seq on disk |
| Seed.ContiguousClimbs | internal/audit/resume.go:622-663 | a contiguous chain over files with blank, torn or foreign lines anywhere is such a case, and its highest seq is its last |
| Seed.SeedPastChain | internal/audit/resume.go:675-721 | so its seed is at least its last seq, if a record was parsed or the chain starts at seq 1 |
| Seed.PrunedAndUnreadable | internal/audit/resume.go:675-721 | nothing parsed and the head pruned: the seed can be too small |
| Seed.UnsizedAndUnreadable | internal/audit/resume.go:990-1036 | a file neither opened nor sized adds nothing, and the seed can be too small |
| Seed.FreshAfterSeed | internal/audit/audit.go:2598-2611 | every record written after seeding has a strictly larger, never repeated seq, and none passes the 64-bit ceiling |
| Reseed.DiskClimbs | internal/audit/resume.go:990-1036 | the scanned lines of every disk a crash can leave, torn files and records short of a newline included, never skip a seq |
| Reseed.OpenSeeded | internal/audit/resume.go:865-902 | where the directory lists, an Open that could not establish the tail starts at or past every seq on disk, without a link, whatever the scans could read |
| Reseed.FreshAfterOpen | internal/audit/audit.go:2598-2611 | every record written from there has a seq above every seq on disk |
| Reseed.UnlistedReissues | internal/audit/resume.go:640-663 | concrete disk that does not list: seq 1 is on disk and the head starts at 0 |
| Queue.CallStepKeeps | internal/audit/audit.go:1228-1280 | each atomic step of a producer keeps the accounting invariant |
| Queue.OtherStepKeeps | internal/audit/audit.go:2183-2221 | so do the drainer's steps and Close's |
| Queue.QueueSafe | internal/audit/audit.go:1228-1280 | in every interleaving: queuedBytes is exactly the outstanding reservations, admitted bytes stay within budget, no send meets a closed channel, drops and sent records are counted at every moment; after drain-out it is zero and every call is written or dropped exactly once |
| Queue.DroppedExactly | internal/audit/audit.go:1228-1280 | in every interleaving a call ends dropped if and only if it found the queue closed, its size and the outstanding reservations passed the budget, or the channel was full |
| Queue.FirstInFirstOut | internal/audit/audit.go:2183-2221 | in every interleaving the drainer takes all that was sent, in the order it was sent |
| Drops.Accumulator.Record | internal/audit/audit.go:2268-2282 | one more in the pair's own bucket, or in the overflow bucket if it has none and the cap is reached |
| Drops.Accumulator.Snapshot | internal/audit/audit.go:2289-2300 | a copy of the live buckets |
| Drops.Accumulator.Reset | internal/audit/audit.go:2308-2328 | takes out exactly the snapshot's counts, in any key order |
| Drops.TotalsKept | internal/audit/audit.go:2337-2370 | marker totals run up to the marked count, which never passes the drop count |
| Drops.PerBucketKept | internal/audit/audit.go:2268-2370 | per bucket, written plus live is all that fell in it, apart from a snapshot in flight |
| Drops.DropsAccounted | internal/audit/audit.go:2268-2370 | in every interleaving and with any failed marker writes: markers sum to the marked count, no bucket over-reports its pair, nothing is lost, at most cap plus one live buckets |
| Drops.OwnBuckets | internal/audit/audit.go:2268-2370 | in every interleaving, as long as no more pairs than the cap are dropped, markers and live buckets name each pair exactly as often as it was dropped |
| Drops.FlushCatchesUp | internal/audit/audit.go:2337-2370 | one successful undisturbed flush marks everything dropped so far and empties the buckets |
| Drain.Drainer.SyncNow | internal/audit/audit.go:2154-2167 | an fsync attempt resets the count, and a failed one is counted once |
| Drain.NoFailures | internal/audit/audit.go:2730-2790 | the failures counted over a session are none if and only if every write due, every rotation and every fsync attempted succeeded |
| Drain.Drainer.Iterate | internal/audit/audit.go:2186-2243 | fewer than 64 unsynced at every wait, the timer armed if and only if there are some; above 64 exactly when 63 waited and two records were written; what the final fsync misses; the failures counted, each by its cause |
| Drain.Drainer.Drain | internal/audit/audit.go:2186-2243 | over every event sequence at most 65 are unsynced at any moment, and the failures counted are the sum over the events |
| Drain.Drainer.Close | internal/audit/audit.go:2730-2790 | after any session every record written is behind an fsync attempt, the closing marker included; the error is nil if and only if nothing had failed before and every write due, rotation, fsync and call of Close itself succeeded |
| Drain.SixtyFive | internal/audit/audit.go:2186-2243 | concrete session in which 65 records are unsynced |
| Drain.ClosingMarkerUnsynced | internal/audit/audit.go:2186-2195 | concrete close whose marker the drainer leaves unsynced |
| Join.ClampedPlacement | internal/audit/join.go:199-228 | placements, and the ascending list of exactly the tapes with a raised record |
| Join.UnattributedTapes | internal/audit/join.go:231-243 | the ascending list of exactly the tapes with a record that has no pep |
| Join.StableSort | internal/audit/join.go:156-165 | sorted by instant, then tape, then seq; a permutation; anything already in order keeps its order |
| Join.StableSortUnique | internal/audit/join.go:156-165 | the result is the same for every stable sort |
| Join.RunningMax | internal/audit/join.go:199-228 | on a tape with increasing seqs a record is placed at the latest time recorded up to it |
| Join.LeastRaise | internal/audit/join.go:178-228 | no order-respecting assignment places a record earlier |
| Join.RaisedIffBackwards | internal/audit/join.go:199-228 | a tape with increasing seqs is reported if and only if its time goes backwards somewhere |
| Join.TapeInOrder | internal/audit/join.go:178-228 | a tape's placements reach the sort already in order |
| Join.OrderJoinedRecords | internal/audit/join.go:136-170 | Ordered is a permutation of the records with a time, by placement instant, then tape, then seq; by recorded time if and, on increasing seqs, only if no tape is reported; Unordered the rest in order; every tape with increasing seqs keeps its own order |
| Suggest.ResolveMaxValues | cmd/eunox/suggest.go:36-41 | the limit in force is positive |
| Suggest.LiteralExact | pkg/capability/argument_path.go:40-60 | the names left alone are exactly those without dollar signs and a dot in front |
| Suggest.InertExact | cmd/eunox/suggest.go:515-526 | an inert value is one without the four glob characters |
| Suggest.TracksNext | cmd/eunox/suggest.go:241-277 | folding a call in keeps the accumulator an exact summary: presence, types, truncation, overflow, values |
| Suggest.Target.Mine | cmd/eunox/suggest.go:200-279 | one call's effect on every argument, in any key order, and on the denominator |
| Suggest.MineAll | cmd/eunox/suggest.go:110-192 | after any sequence of calls the accumulators summarise exactly those calls |
| Suggest.EmitsExact | cmd/eunox/suggest.go:414-465 | a condition is emitted if and only if every call that tells carried the argument as text in full, no map was lost and the values are few, self-matching and inert; it lists exactly the observed values |
| Suggest.MiningSound | cmd/eunox/suggest.go:410-465 | an emitted condition re-admits every such call, and admits exactly what the observed values denote: themselves, or any backslash spelling of a path |
| Suggest.WidensExact | cmd/eunox/suggest.go:515-526 | it admits only observed values if and only if none of them holds a slash |
| Suggest.BackslashAdmitted | pkg/enforcement/glob.go:204-247 | concrete value admitted by a pattern it does not equal |
| Suggest.NotesTrue | cmd/eunox/suggest.go:420-464 | every review note is true of the tape |
| Suggest.UnseenCallNotCounted | cmd/eunox/suggest.go:201-211 | concrete enforce-mode call without details that an emitted condition does not cover |
| Keys.DecodeMeans | internal/audit/keys.go:382-405 | decoding succeeds with a key if and only if the line is its encoding, in either letter case |
| Keys.HexRoundTrip | internal/audit/keys.go:156-172 | decoding an encoded key gives the key |
| Keys.ParseAuditKeys | internal/audit/keys.go:382-412 | the keys of the key lines in file order, or the first bad line's error, or no key lines |
| Keys.ReadLineExact | internal/audit/keys.go:382-405 | which lines are skipped, which are keys, and why the others are refused |
| Keys.ParseExact | internal/audit/keys.go:382-412 | a file parses to a key list if and only if its lines that are neither blank nor comments spell those keys in order, 32 bytes each and not all zero |
| Keys.ParseDistributes | internal/audit/keys.go:382-412 | parsing distributes over concatenation after a newline-terminated file |
| Keys.KeyLineParses | internal/audit/keys.go:156-172 | the file a starter writes parses to its key |
| Keys.PrintParse | internal/audit/keys.go:382-412 | printing usable keys one per line and parsing gives them back, active key first |
| Publish.TempsKept | internal/audit/keys.go:174-205 | temp files stay private: one owner, never the published one, a prefix of that starter's line |
| Publish.StartersAgree | internal/audit/keys.go:156-235 | in every interleaving all starters that return hold the same keys, and the key path never shows a partial file |
| Publish.ReadLoads | internal/audit/keys.go:366-380 | what every read of the key path gives a starter: the keys or the failure of a file that was there, nothing before publication, the winner's key after it |
| Publish.LoserLoads | internal/audit/keys.go:366-380 | a starter that reads the published key gets the winner's key, never an error |
| Doctor.RingStep | cmd/eunox/doctor.go:696-705 | overwriting the oldest slot drops the oldest line and appends the newest |
| Doctor.TailAuditLines | cmd/eunox/doctor.go:680-717 | the last min(n, count) non-blank trimmed lines in order, through wrap and rotation |
| Doctor.IndentConcat | cmd/eunox/doctor.go:775-802 | indenting a concatenation is indenting the parts, with the state carried over |
| Doctor.IndentWriter.Write | cmd/eunox/doctor.go:775-802 | output and end state are those of the bytes; it errs exactly when the output does not fit, with all that fits written; the flag is then that of the cut line's beginning, unless that line has no newline and its prefix fitted |
| Doctor.CutLineKeepsFlag | cmd/eunox/doctor.go:775-802 | concrete write after which the flag is set in the middle of a line |
| Doctor.WriteChunks | cmd/eunox/doctor.go:775-802 | however a stream is split across writes, output and end state are the same |
| Reports.HeldFindings.Write | cmd/eunox/audit_verify.go:440-451 | shown plus held is everything written, in order; nothing is shown below the cap |
| Reports.HeldFindings.Release | cmd/eunox/audit_verify.go:455-461 | shows what is held, once |
| Reports.Pass | cmd/eunox/audit_verify.go:432-461 | a pass shows all findings if released or over the cap, else none |
| Reports.Count | cmd/eunox/stats.go:138-166 | one line keeps the buckets and histograms reconciled |
| Reports.ComputeAuditStats | cmd/eunox/stats.go:111-167 | total is the non-blank lines and the sum of the buckets; allowed, escalated and other count exactly their lines; each histogram exactly its records |

## Left out

- HMAC-SHA256, `encoding/json`, time parsing, UTF-8 validation and cutting, percent-decoding in the glob matcher, reserved keys and placeholder detectors are parameters with stated laws; their code is not modelled.
- `Unforged` in the tamper-evidence results stands for the unforgeability of HMAC: a hypothesis on the MACs the lines carry, not on any verdict.
- Bodies.BodyInjective: that no spelling of a string begins another's is a hypothesis on the encoder, true of JSON strings of valid UTF-8; of two details objects neither begins the other.
- Codec.Sound: that a record decodes back to itself, and a part of its line to nothing, is a hypothesis per record, since details are embedded as raw JSON.
- Details.BuildRecord: list lengths are machine-sized; the fields bounded by their owners are named in CallerBounds.
- Details.CloneAndBoundExact: models the decoded-JSON value kinds; `boundUnmodelledValue` and the sharing of storage with the caller are not modelled.
- Tail.LogHandle.TruncatePartialTail: requires a positive window, as the only callers pass; a file growing between the last stat and the truncation, and one shrinking after that stat, are not modelled.
- Startup.Open: the seed is a parameter, computed and bounded in Reseed.OpenSeeded; recovery markers are ordinary writes.
- Sessions.EverySession: reopening a stranded disk is not a step, because there the property fails (StrandedBreaks); retention pruning and fsync ordering between files are not steps.
- Verify.ChainVerifier.Classify: the report-window filter and its Skipped tally are not modelled.
- Verify.VerifyLog: filters, join collection, diagnostics and pre-signing history counts are not modelled.
- Seed.SeedPastMax: supposes seqs that never skip one ahead and unread files that report their size; the exceptions have concrete inputs.
- Reseed.OpenSeeded: supposes the files are not cut by another process between recovery and scan, and that every file can be sized.
- Queue.QueueSafe: queue sizes are given per record, and a record is known by its size; the warning text and memory model are left out, each step is atomic.
- Drain.Drainer.Iterate: the lost-file branch (no open file) is not modelled, and an fsync made by a rotation is not credited.
- Join.StableSort: the library's merge strategy is not modelled; StableSortUnique shows it does not matter.
- Suggest.Target.Mine: the reserved keys are filtered into a set first, where the source counts them and then skips them.
- Suggest.MiningSound: that the matcher compares a pattern without metacharacters for equality, behind a guard on the folded value, is a hypothesis; globbing itself is not modelled.
- Publish.StartersAgree: covers the hard-link path; the rename fallback does not arbitrate the race. An all-zero random key is excluded.
- Keys.ParseAuditKeys: the one-mebibyte read limit is not modelled.
- Reports.ComputeAuditStats: handler-fault and unroutable tallies, and scanner errors, are left out; a count map is a multiset.
- Rotated file naming and ordering, retention pruning, chain snapshots and advisory locks: not modelled, files are given in chain order.
- File modes, symlink and FIFO guards, directory fsync, stderr text, report formatting and redaction: not modelled.
- Health and degradation reports, YAML rendering of the draft manifest, and all other commands: not modelled.
