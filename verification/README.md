# OAK: the bookkeeping, verified

OAK watches coding agents at work. It derives transcripts from files that are still growing, captures the
edits tools make, raises a hand when an agent waits on its reader, repairs a trust table that other programs
edit too, and adds up what was used. Most of that code is file handling, but what it promises has to hold over
files of any length, runs of any shape, and crashes or other processes at any point. This project states those
promises about a model of the code and proves them with Dafny. `dafny verify dfyconfig.toml` checks all of it.

Files are byte sequences, maps and class fields; clocks, hashes and everything a line of JSON may say are
parameters. Where the code changes things step by step, so does the model: a class with the same fields, or a
loop with the same body, proved equal to a function; the promises are then lemmas about that function.

| file | what it models |
|---|---|
| `Lines.dfy` | newline-terminated lines of an append-only byte stream, and folds over them |
| `OrderedMap.dfy` | a map that iterates in insertion order |
| `CodexTranscript.dfy` | the rollout adapter: chunks, cursor, discard, preview, truncation, crashes |
| `CodexUsage.dfy` | bounded de-duplication and cumulative-counter differencing |
| `Attention.dfy` | the raised hand and the ledger of waits |
| `Staging.dfy` | the Pre/Post protocol that decides whether an edit is attributable |
| `TreeWalk.dfy` | the bounded walk, the snapshot before a command, the records after it |
| `HookTrust.dfy` | the trust repair, several processes in any interleaving |
| `CanonicalJson.dfy`, `HookFingerprint.dfy` | the canonical printer, an RFC 8259 parser, and what a fingerprint covers |
| `Asks.dfy` | the incremental ask scanner and the turn of a moment |
| `Attribution.dfy` | store records matched to authors, in place |
| `ActionFold.dfy` | the fold of calls and results into actions |
| `Breakdown.dfy`, `BillCycle.dfy` | usage totals and buckets; weeks and bill cycles |
| `RemoteCommand.dfy` | a verb on another machine: arguments, shell words, receipt |
| `QuotaExchange.dfy` | the rate-limit exchange with a Codex app-server |

Some promises turned out narrower than the comments beside the code; the code is kept, and the exact
condition is proved:

- A run that starts over truncates the transcript while the old cursor is still on disk. When it dies there, the
  next run that resumes is right exactly when the transcript still has the bytes the cursor counts
  (`ResumesCleanExactly`; `ResetCrashExample` is a run where it has not), and a call that finds nothing changed
  hands out what is there. Every other crash point is harmless: over any schedule of growth, touches, calls,
  crashes and removals, a finished call is right until one finds the transcript short (`DerivedTranscript.Run`).
- The re-check of the trust repair refuses every foreign write but one between that re-check and the rename. Such
  a write is overwritten whole, lock or no lock (`EditInTheWindowIsOverwritten`); without one a rename only appends
  (`RepairsOnlyAppend`), and which tables a rename drops is `PublishDropsExactly`. An entry that a repair published
  is lost only where someone else writes a configuration without it, whatever becomes of the others
  (`NothingPublishedIsLost`).
- Two waiters can find the same dead lock stale; the second then removes the first one's live lock
  (`TwoWaitersReclaimOneDeadLock`). Alone that loses nothing (`ReclaimAloneLosesNothing`); together with an edit
  of the hooks after the last re-check it loses an entry (`ReclaimAndEditLoseAnEntry`). It never defines a key twice.
- The input tokens of a usage row are clamped at zero, so rows conserve input exactly when cached input
  never exceeds input (`RowsConserveInputExactly`; `CachedOverInput` is a reading where it does).
- The main chain is said to get the records in no subagent's window. When a window has more records than its
  subagent has edits, the records left over stand in line with the others, and the main chain gets them as far as
  its own edits reach (`MainGetsTheRest`; `MainGetsALeftover` is a file where it gets one).
- A fork's copy is said never to move a message. One that is read after the line standing for the message does not;
  one as big that is read before it does, wherever the two stand (`CopyMovesExactly`; `EarlierCopyWins` is a pair of
  lines where it does). Tokens and messages stay, but cache reads and dollars may move: they are settled exactly when
  the biggest snapshots of each message agree on them (`CacheReadsSettledExactly`, `DollarsSettledExactly`).
- After a command no edit is to go by in silence. A file of the snapshot that is no regular file any more has its
  deletion (its count, when it was empty) exactly when nothing is left at its path and everything left on the way to
  it can be searched, or is a link through which there is nothing (`DiffCommand`, `KnownGone`). A file that became a
  directory, or whose directory gave way to a file, has neither record nor note (`ReplacedDirectory`).
- A fork's deltas are said to be its own. Unless its parent's counters are zero, they are exactly when its first
  reading, and every reading after a reset, has a breakdown (`ForkAddsNothing`).
- Up to the output limit the outcome of a quota exchange does not depend on how the output is chunked
  (`ChunksDoNotMatter`). Past it, it does exactly when the first bytes up to the limit hold an answer
  (`OneOutcomeExactly`; `ExampleDependsOnChunks` is such an output).

## Model

| member | source | states |
|---|---|---|
| Lines.FoldLinesIsFoldSegments | packages/core/src/codex-events.ts:213-223 | Consuming a growing stream byte by byte at its newlines is the fold over its complete lines from first to last, at their offsets |
| Lines.LinesAndTailAreTheText | packages/core/src/codex-events.ts:211-223 | The complete lines with their newlines and the unterminated tail are the text again |
| Lines.LinesHoldNoNewline | packages/core/src/codex-events.ts:214 | No complete line holds a newline, so the text has one reading as lines |
| CodexTranscript.CommittedIsOnePass | packages/core/src/codex-events.ts:209-229 | What is committed is one pass folding the normalizer over the complete lines: parser state, rows, and malformed count with an abandoned tail counted once |
| CodexTranscript.EveryLineInTurn | packages/core/src/codex-events.ts:209-243 | The parser state goes from each line that can be read to the next; the rows are those of the lines that did not throw, in order; the other lines, and a tail that is too long, are counted one by one; the preview is the tail normalized from the committed state and offset |
| CodexTranscript.OverlongCountedOnce | packages/core/src/codex-events.ts:217-227 | Every line longer than MAX_LINE, the unterminated one included, is counted malformed exactly once and has no other effect |
| CodexTranscript.RowsOnlyGrow | packages/core/src/codex-events.ts:228 | Reading further only adds rows to what is committed |
| CodexTranscript.JoinIsRender | packages/core/src/codex-events.ts:228 | Rows joined by newlines plus a final newline are the rows each followed by one |
| CodexTranscript.TakeLine | packages/core/src/codex-events.ts:215-221 | One complete line through every branch (discarding, overlong, not UTF-8, throwing, normal) leaves cursor and rows where the one-pass fold is after that line |
| CodexTranscript.TakeLines | packages/core/src/codex-events.ts:213-222 | The inner loop takes every complete line out of the buffer and leaves a rest without a newline |
| CodexTranscript.GiveUpOverlong | packages/core/src/codex-events.ts:223-227 | An overlong rest is dropped and counted the first time only; cursor and carry are then a clean pass's |
| CodexTranscript.ReadChunk | packages/core/src/codex-events.ts:210-227 | One read of any size leaves cursor, carry and rows as one pass over the bytes read so far does |
| CodexTranscript.DerivedTranscript.ReadAll | packages/core/src/codex-events.ts:209-229 | The chunk loop, in reads of any size, appends exactly what a clean pass renders after the cursor, and when it dies the transcript ends inside that |
| CodexTranscript.DerivedTranscript.ShowTail | packages/core/src/codex-events.ts:230-240 | A tail that is a whole record is shown after the committed rows and nothing of it is committed |
| CodexTranscript.DerivedTranscript.Rewind | packages/core/src/codex-events.ts:200-208 | The run starts from the cursor or afresh, with the transcript cut back to what that covers |
| CodexTranscript.DerivedTranscript.Refresh | packages/core/src/codex-events.ts:182-247 | A finished call leaves cursor, transcript and preview of one clean pass; one that dies leaves the cursor alone and the transcript torn after what it kept, so a resuming call's crash is recoverable |
| CodexTranscript.DerivedTranscript.Run | packages/core/src/codex-events.ts:182-247 | For any schedule of appends, touches, removals of the transcript, calls, read sizes and crashes, starting over or not, every finished call leaves the files of one clean pass until a call finds the transcript short; the call that does leaves another one; a rollout that only grows and keeps its transcript never meets such a call |
| CodexTranscript.DerivedTranscript.ResumesCleanExactly | packages/core/src/codex-events.ts:204-241 | A call that resumes on what a run that died left ends with the clean transcript exactly when that still has the bytes the cursor counts |
| CodexTranscript.DerivedTranscript.TornAgrees | packages/core/src/codex-events.ts:204-237 | A run that starts over and dies leaves no more than a beginning of the clean transcript, wherever it dies |
| CodexTranscript.DerivedTranscript.CallOnce | packages/core/src/codex-events.ts:182-247 | One call keeps the files in agreement and finishes clean unless it found the transcript short, and not clean when it did |
| CodexTranscript.ResetCrashExample | packages/core/src/codex-events.ts:204-208 | A rollout of one row parsed, then touched; a run that starts over and dies after its truncation; a second row; the resumed run's transcript has padding where the first row was |
| CodexTranscript.Truncate | packages/core/src/codex-events.ts:208 | Truncation cuts, or pads to the length asked for |
| CodexUsage.WindowSnoc | packages/core/src/codex-events.ts:55-56 | The bounded FIFO of accepted ids is the newest 20000, distinct, and one more id drops at most the oldest |
| CodexUsage.Seen.Remember | packages/core/src/codex-events.ts:51-58 | The mirrored Set answers as a linear search of the array, and the array becomes the window with the new id |
| CodexUsage.Seen.RememberAll | packages/core/src/codex-events.ts:51-58 | Every run of questions is answered as the linear search answers it |
| CodexUsage.Meter.TokenCount | packages/core/src/codex-events.ts:139-165 | One token_count record: a repeated usage id changes nothing, another sets the counters and emits the row of its delta |
| CodexUsage.CountAll | packages/core/src/codex-events.ts:139-165 | The rows of a whole rollout are those of the readings whose id the linear search did not find, and conserve the tokens of those |
| CodexUsage.Conservation | packages/core/src/codex-events.ts:145-159 | Deltas of accepted readings add up, per component, to the totals of the reset-free segments: last minus first, plus the first reading's own usage |
| CodexUsage.SegmentWithoutBreakdown | packages/core/src/codex-events.ts:155-158 | A segment whose first reading has no breakdown adds up to its last cumulative value |
| CodexUsage.SegmentWithBreakdown | packages/core/src/codex-events.ts:155-158 | A segment whose first reading has a breakdown adds up to that and what the counters grew by since |
| CodexUsage.DeltasNonnegative | packages/core/src/codex-events.ts:157-158 | No delta is negative in any component |
| CodexUsage.ForkAddsNothing | packages/core/src/codex-events.ts:147-158 | Unless its parent's counters are zero, a fork that starts from them has the deltas it would have from zero exactly when its first reading and those after resets have a breakdown |
| CodexUsage.RowsConserveInputExactly | packages/core/src/codex-events.ts:161-163 | Row input plus cache reads is never less than the deltas' input, and equal exactly when cached input never exceeds input |
| CodexUsage.RowsConserveTokens | packages/core/src/codex-events.ts:142-163 | The emitted rows add up to the segment totals in output, cache reads and cache writes, and in input under that same condition |
| CodexUsage.CachedOverInput | packages/core/src/codex-events.ts:161-163 | A reading with more cached input than input: its row carries the difference too much |
| Attention.LedgerRecordsTheHand | packages/core/src/capture.ts:971-1079 | Over every run the ledger alternates, each down carries kind and time of the up it closes, and an up is open exactly while that very hand stands |
| Attention.LowerLowers | packages/core/src/capture.ts:1072-1079 | After a prompt or a session end no hand is left, and the ledger has one matching down exactly if someone waited on one |
| Attention.StartLowers | packages/core/src/capture.ts:1007-1011 | A tool start lowers a hand not stamped after it, with its down, and changes nothing otherwise |
| Attention.IdleDoneWaitsOnNoOne | packages/core/src/capture.ts:1063-1065 | The end of a turn leaves its own hand, closes a wait if there was one, and opens none |
| Attention.RaiseRaises | packages/core/src/capture.ts:1046-1062 | A report of a wait leaves a hand of its kind; the same prompt again keeps stamp and the better message and writes nothing, another closes the wait before it and opens its own |
| Attention.RaiseKeepsCalls | packages/core/src/capture.ts:1050-1062 | A permission prompt keeps every call still standing, in order, and adds its own once; a question names none |
| Attention.ResultSettles | packages/core/src/capture.ts:1012-1023 | A result lowers an idle hand exactly when that is no newer, never a question, and a permission hand exactly with the last call it names |
| Attention.LoweredUntilRaised | packages/core/src/capture.ts:1007-1079 | From a prompt or session end on, whatever tools and turns report, no one waits and the ledger is untouched until a wait is reported |
| Attention.StandsUntilAnswered | packages/core/src/capture.ts:1007-1023 | A hand someone waits on stands as it is through any older starts and results of other calls |
| Attention.WaitedIsStandingTime | packages/core/src/capture.ts:1083-1102 | With a clock that never goes back, the time waited in a window is the measure of its time with a hand up |
| Attention.StandingTimeBounded | packages/core/src/capture.ts:1083-1102 | That measure is at most the window's length |
| Attention.OthersStayUp | packages/core/src/capture.ts:1007-1023 | A result changes nothing but a hand it answers, and a tool start lowers no hand stamped after it and every other one |
| Attention.FallsWithItsLastCall | packages/core/src/capture.ts:1016-1022 | A permission hand naming several calls stands, with its stamp and an untouched ledger, exactly while one of its calls is unanswered, whatever the order of the results |
| Attention.OnePromptOneHand | packages/core/src/capture.ts:1047-1062 | One prompt reported by PermissionRequest and Notification in either order: one ledger up, the first stamp, the tool name, the call |
| Attention.AttentionStore.WriteAttention | packages/core/src/capture.ts:1042-1068 | Raising or restating a hand changes file and ledger as the specification function says |
| Attention.AttentionStore.ClearAttention | packages/core/src/capture.ts:1072-1079 | A prompt or session end lowers any hand, a tool start one not stamped after it, and the ledger closes the wait |
| Attention.AttentionStore.NoteToolCall | packages/core/src/capture.ts:1007-1023 | A start or a result settles the hand it answers, and only takes one call off a prompt that has more |
| Attention.AttentionStore.WaitedMs | packages/core/src/capture.ts:1083-1102 | The loop over the ledger computes the closed waits clipped to the window and the one still open |
| Attention.AttentionStore.WaitedAfter | packages/core/src/capture.ts:1083-1102 | After any run of hooks the reported time is the measure of the standing time, at most now minus since |
| Staging.OverlapsAreMarked | packages/core/src/capture.ts:235-257 | Over every run, whenever two calls are staged on one file both are marked |
| Staging.MarkAndBaselineKept | packages/core/src/capture.ts:236-242 | While a call stays staged its mark is never dropped and its baseline never replaced |
| Staging.UnmarkedWasAlone | packages/core/src/capture.ts:243-257 | An unmarked call has been alone on its file at every moment since its own Pre, whose baseline it still has |
| Staging.CorrelatedWasAlone | packages/core/src/capture.ts:328-343 | A record logged correlated had no other staged call open on its file at any moment between its own Pre and Post |
| Staging.OverlapIsNeverCorrelated | packages/core/src/capture.ts:328-343 | A call that met another on its file is never logged correlated |
| Staging.CorrelatedRecordsWereAlone | packages/core/src/capture.ts:328-343 | Every record of the log, after any run, is another capture's or a Post's, and if correlated, of a call that had its file to itself from its Pre to that Post |
| Staging.CaptureStore.PreTool | packages/core/src/capture.ts:229-259 | Pre stages the call, keeps the baseline of a replayed one, and marks it and all others on its file |
| Staging.CaptureStore.PostTool | packages/core/src/capture.ts:261-350 | Post logs the change unless nothing, or only blank lines, or an already recorded end state remains, and unstages the call |
| Staging.CaptureStore.Run | packages/core/src/capture.ts:229-358 | Any run of hooks leaves the state of the specification, with overlaps marked |
| Staging.StagedExactly | packages/core/src/capture.ts:229-358 | Over every run a call is staged exactly from a Pre that found its file capturable until its Post, its failure or the end of the turn |
| Staging.StagedAsTaken | packages/core/src/capture.ts:256-258 | What stands staged has the tool, baseline and time of its own Pre |
| Staging.MarkedExactly | packages/core/src/capture.ts:235-257 | A call is marked exactly when another was staged on its file at some moment since its Pre, or a second one without an id began |
| Staging.PostLogsExactly | packages/core/src/capture.ts:261-343 | Over every run a Post adds one record, with its Pre's tool, baseline and time, exactly when the file was capturable, changed by more than blank lines, and no other capture has that end state as the newest since; it is correlated exactly when the call had its file to itself |
| Staging.OthersLogNothing | packages/core/src/capture.ts:229-358 | Only a Post of a staged call and another capture write to the log; a Post of no staged call leaves a note |
| TreeWalk.WalkCandidates | packages/core/src/capture.ts:362-399 | The stack loop ends on every finite tree. Meeting no cap, it lists exactly the regular files that it comes to through open directories and no rule ignores, and excludes exactly the named or unreadable directories, ignored files and other things it comes to; so every regular file is listed, or it or an ancestor is excluded. A tree no larger than the cap never meets it |
| TreeWalk.ReadEntries | packages/core/src/capture.ts:381-395 | One directory's entries, up to the cap: nothing is lost between listed, excluded and still to be read, and each is where the rules put it |
| TreeWalk.TakeSnapshot | packages/core/src/capture.ts:556-577 | The snapshot holds exactly the listed files that are no secret and can be recorded, with their content; what the walk left out and the other listed files are excluded |
| TreeWalk.AbsenceIsSound | packages/core/src/capture.ts:529-534 | What the snapshot proves absent was no regular file of the tree |
| TreeWalk.JudgeSeen | packages/core/src/capture.ts:638-652 | Of the files the second walk saw, exactly those changed, or provably created and not empty, earn one record; the rest are passed over with a note, counted, or unchanged |
| TreeWalk.JudgeGone | packages/core/src/capture.ts:673-705 | A deletion is recorded exactly for a nonempty snapshot file that was not seen and that `lstat` finds missing, and exactly the empty ones among those are counted |
| TreeWalk.DiffCommand | packages/core/src/capture.ts:588-705 | At most one record a file, each of them what happened. A complete second walk leaves exactly the records, notes and counts its files call for: every listed file is recorded, noted, counted or unchanged; a snapshot file that is no regular file any more has its deletion, or its count, exactly when nothing is left at its path and the way to it is open, and is passed over in silence otherwise |
| TreeWalk.WatchCommand | packages/core/src/capture.ts:536-705 | From Pre to Post, told by the two trees alone: within the cap the records are exactly the changed contents of files listed before and after, the nonempty files that appeared where the first walk had seen there was none, and the nonempty files known to be gone |
| TreeWalk.WalkedExactly | packages/core/src/capture.ts:377-395 | When nothing is pending, a path is listed exactly when a file stands there that no rule leaves out, and excluded exactly when the walk came to it and left it out |
| TreeWalk.MissingExactly | packages/core/src/capture.ts:176-183 | `lstat` finds a path missing exactly when nothing stands there and everything left on the way to it lets it be seen |
| TreeWalk.ReplacedDirectory | packages/core/src/capture.ts:673-686 | A command puts a file in the place of a directory: the file that was in it has no record, no note and no count |
| HookTrust.RepairAddsWhatIsMissing | packages/core/src/codex-hook-trust.ts:166-182 | A repair keeps every byte of the text, defines no key twice, and adds exactly the handlers of herdr's whose keys the text lacked |
| HookTrust.CandidatesExactly | packages/core/src/codex-hook-trust.ts:104-112 | Every handler that runs herdr's command, in whatever group and at whatever place, is a candidate with its own key and hash, and nothing else is |
| HookTrust.UndisturbedRepair | packages/core/src/codex-hook-trust.ts:152-201 | A repair that no one disturbs ends with its lock removed and, if the configuration parses, with every handler of herdr's trusted; it changes nothing when none was missing |
| HookTrust.CandidatesDistinctFrom | packages/core/src/codex-hook-trust.ts:104-112 | The candidates of one hooks file have distinct keys |
| HookTrust.EveryPublicationIsSound | packages/core/src/codex-hook-trust.ts:162-201 | In any interleaving, with crashes, edits and reclaimed locks, every published text is the text that process read plus tables whose keys it lacked |
| HookTrust.NeverDefinedTwice | packages/core/src/codex-hook-trust.ts:173-182 | If everyone else's writes parse, the configuration always does |
| HookTrust.MutualExclusion | packages/core/src/codex-hook-trust.ts:120-146 | With no live lock reclaimed there is at most one process inside, and it holds the lock |
| HookTrust.NothingPublishedIsLost | packages/core/src/codex-hook-trust.ts:162-201 | With no live lock reclaimed, an entry that a repair has published stays, unless someone else writes a configuration without it; what others do to other entries does not matter |
| HookTrust.PublicationsStay | packages/core/src/codex-hook-trust.ts:162-201 | With no live lock reclaimed, and everyone else keeping the published texts at the front, every published text stays there byte for byte |
| HookTrust.RepairsOnlyAppend | packages/core/src/codex-hook-trust.ts:187-197 | Without a foreign write between a process's re-check and its rename, and with no live lock reclaimed, a rename only appends to the configuration it replaces |
| HookTrust.ConfigOnlyGrows | packages/core/src/codex-hook-trust.ts:162-201 | Then, if foreign writes only append too, the configuration only grows at its end |
| HookTrust.PublishDropsExactly | packages/core/src/codex-hook-trust.ts:173-197 | A rename drops a table of the configuration it replaces exactly when the text read lacks it and the repair does not add it |
| HookTrust.EditInTheWindowIsOverwritten | packages/core/src/codex-hook-trust.ts:187-197 | Whatever someone else writes between the last re-check and the rename is overwritten whole, with no live lock reclaimed |
| HookTrust.ReclaimAloneLosesNothing | packages/core/src/codex-hook-trust.ts:131-134 | Reclaiming even live locks loses nothing while neither file is edited by anyone else: once anything is published, the configuration is that one repair and stays so |
| HookTrust.TwoWaitersReclaimOneDeadLock | packages/core/src/codex-hook-trust.ts:129-134 | Two waiters that find one dead lock stale can both get inside |
| HookTrust.ReclaimAndEditLoseAnEntry | packages/core/src/codex-hook-trust.ts:129-201 | A live lock reclaimed and the hooks edited after the re-check can lose a published entry |
| CanonicalJson.PrintParses | packages/core/src/codex-hook-trust.ts:37-44 | A parser for sections 2 to 7 of RFC 8259 reads a printed text as the value with its keys sorted |
| CanonicalJson.ParseRecovers | packages/core/src/codex-hook-trust.ts:37-44 | The same inside any larger text: the value is read and exactly what follows it is left |
| CanonicalJson.StringRoundTrip | packages/core/src/codex-hook-trust.ts:41 | Every string, lone surrogates and control characters included, is read back as written |
| CanonicalJson.SortAscends | packages/core/src/codex-hook-trust.ts:41 | Sorting distinct keys puts them in strict code unit order |
| CanonicalJson.EquivIsSameCanon | packages/core/src/codex-hook-trust.ts:37-44 | Two values have one canonical form exactly when they are equal up to the order of object keys |
| CanonicalJson.PrintIsCanonical | packages/core/src/codex-hook-trust.ts:35-44 | Two values print alike if and only if they are equal up to the order of object keys |
| CanonicalJson.PrintIsPaired | packages/core/src/codex-hook-trust.ts:37-44 | A printed text has no lone surrogate, so hashing it as UTF-8 loses nothing |
| HookFingerprint.Timeout | packages/core/src/codex-hook-trust.ts:75-76 | A normalized timeout is at least 1, and at most 3 for the two short events |
| HookFingerprint.NormalizedExactly | packages/core/src/codex-hook-trust.ts:64-84 | A hook is refused for the first check it fails; an accepted one is the command in force on the platform, its clamped timeout, its async flag and status message, and limit and matcher where the event has them |
| HookFingerprint.EitherSpelling | packages/core/src/codex-hook-trust.ts:64 | An event written in words with capitals comes to the same words with underscores |
| HookFingerprint.WithoutCapitals | packages/core/src/codex-hook-trust.ts:64 | A name without capitals stays as it is |
| HookFingerprint.HandlerFields | packages/core/src/codex-hook-trust.ts:77-82 | The handler in the text has every part under its key, absent parts left out, and nothing else |
| HookFingerprint.IdentityFields | packages/core/src/codex-hook-trust.ts:83-84 | The identity in the text has the event, the one handler and, where there is one, the matcher, and nothing else |
| HookFingerprint.TextIsIdentity | packages/core/src/codex-hook-trust.ts:77-85 | Two fingerprint texts are equal exactly when every part of the normalized identity is |
| HookFingerprint.FingerprintIsIdentity | packages/core/src/codex-hook-trust.ts:58-86 | Two accepted hooks of any files and platforms have one fingerprint text exactly when they normalize alike |
| HookFingerprint.DefaultsKeepTheFingerprint | packages/core/src/codex-hook-trust.ts:75-83 | Writing defaults out, dropping them, or changing sibling hooks keeps result and refusal alike |
| Asks.ScanChunk | packages/core/src/asks.ts:143-172 | The loop over a chunk's pieces computes the line-by-line scan, or throws where a line does |
| Asks.ScanFrom | packages/core/src/asks.ts:206-238 | From any line boundary the complete lines and then the tail give the state of a scan of the whole file; what is kept is that of the complete lines |
| Asks.ThrowsExactly | packages/core/src/asks.ts:143-172 | A scan throws exactly when reading some line does |
| Asks.ScanReportsExactly | packages/core/src/asks.ts:143-172 | The asks are the dated prompts, and the charges the first usage each message reports where that is dated and not nothing, both in transcript order |
| Asks.AskScanner.ScanTranscript | packages/core/src/asks.ts:174-246 | One scan answers as a scan of the whole transcript would, throwing included, and persists complete lines only; a replaced file whose first bytes differ is scanned right too |
| Asks.AskScanner.Run | packages/core/src/asks.ts:174-246 | For any schedule of appends and scans, with or without a place to keep the state, every answer is that of a full scan at its moment |
| Asks.SortByTimeIsStable | packages/core/src/asks.ts:237 | The answer's asks ascend in time, and the asks of one moment keep their order, none lost or made up |
| Asks.WindowOf | packages/core/src/asks.ts:306-318 | The binary search returns the greatest index at or before a nonzero time, and -1 exactly for no boundary, no time, or a time before all |
| Asks.TurnOf | packages/core/src/asks.ts:300-318 | The turn of a moment is one less than the number of dated asks at or before it, wherever the transcript has them |
| Attribution.EditWindow | packages/core/src/actions.ts:490-499 | The running bounds are the first and last moment, both attained |
| Attribution.WindowsOverlap | packages/core/src/actions.ts:501-510 | The sweep over the sorted windows finds an overlap exactly when two windows have a moment in common |
| Attribution.SortKeepsPairs | packages/core/src/actions.ts:503 | Sorting by start orders the windows, keeps them all, and changes nothing about which intersect |
| Attribution.GivenInOrder | packages/core/src/actions.ts:551-579 | An author's records keep the order of the store, and none comes twice |
| Attribution.GivenExactly | packages/core/src/actions.ts:551-579 | An author is given a record exactly when it stands in the author's line with fewer before it than the author has edits: for a single author all records, for a subagent those of its window, for the main chain those no subagent is given |
| Attribution.RecordsExactly | packages/core/src/actions.ts:524-530 | A file's records are all that an edit tool logged for it, in log order |
| Attribution.EditsExactly | packages/core/src/actions.ts:534-541 | An author's edits of a file are all its edit actions on it, in transcript order |
| Attribution.AuthorsExactly | packages/core/src/actions.ts:545-549 | A file's authors are all that have edits of it, in their order |
| Attribution.SubagentStaysInItsWindow | packages/core/src/actions.ts:566-574 | Among several authors a subagent gets only records inside its own window |
| Attribution.NoRecordTwice | packages/core/src/actions.ts:562-579 | No record is given to two authors |
| Attribution.SeveralAuthors | packages/core/src/actions.ts:562-579 | With several authors nothing is given exactly when two windows intersect or there is nothing to give |
| Attribution.MainGetsTheRest | packages/core/src/actions.ts:575-579 | When every subagent has an edit for every record of its window, the main chain is given none of them, and only then is none left over; it is given one exactly when its edits reach the first left over |
| Attribution.MainGetsALeftover | packages/core/src/actions.ts:565-579 | Three records in the window of a subagent with two edits: the main chain gets the third |
| Attribution.Link | packages/core/src/actions.ts:554 | Positional linking gives each action the record at its place and leaves the rest as they were |
| Attribution.AttributeFile | packages/core/src/actions.ts:545-580 | One file's edits take, in place, exactly what the plan gives their author |
| Attribution.AttributeEditIds | packages/core/src/actions.ts:523-581 | Every file's edits take what the plan gives them; no action that is not an edit is touched |
| Attribution.EveryIdOnce | packages/core/src/actions.ts:512-581 | Afterwards every id is that of a record an edit tool logged for the edit's own file, and no two edits share one |
| ActionFold.ActionFacts.AddCall | packages/core/src/actions.ts:412-434 | A call gets the outcome of a result already seen, and its place in the index when its id is not empty |
| ActionFold.ActionFacts.AddResult | packages/core/src/actions.ts:385-391 | A result is remembered and set on every action that already carries its id |
| ActionFold.ActionFacts.FoldAll | packages/core/src/actions.ts:349-435 | Folding records, from the start or from where an earlier fold stopped, gives the state of the two-pass definition |
| ActionFold.ActionFacts.Correlated | packages/core/src/actions.ts:349-435 | The index lists exactly the actions with each nonempty id, and an action has failed exactly when the last result for its id, before or after the call, is an error |
| ActionFold.EveryItemInOrder | packages/core/src/actions.ts:356-434 | What is folded is exactly what the records say one after the other, side chains only where they are asked for |
| ActionFold.ActionsInOrder | packages/core/src/actions.ts:349-434 | The actions are all the calls and compactions, in the order of what was folded |
| ActionFold.LastResultIsLast | packages/core/src/actions.ts:385-391 | The last result of an id is the one no other result of that id comes after |
| Breakdown.BestIsFirstMax | packages/core/src/breakdown.ts:178-183 | The line that stands for a message is the first of those that report the most |
| Breakdown.BestMapHolds | packages/core/src/breakdown.ts:126-185 | The map holds that line for every key, each key once |
| Breakdown.TotalsAreMaxima | packages/core/src/breakdown.ts:82-110 | Tokens, cache reads and dollars are sums over distinct keys of the first largest snapshot, the price is known when none of those is unpriced and approximate when one is estimated, and messages are the number of keys |
| Breakdown.TokensAreThreeParts | packages/core/src/breakdown.ts:83-92 | Tokens are input, output and cache writes of each message once; cache reads are none of them |
| Breakdown.SameMessageExactly | packages/core/src/breakdown.ts:176-177 | Two lines are of one message when they share a nonempty id, or have none and share file, time and tokens |
| Breakdown.TotalsIgnoreOrderAndCopies | packages/core/src/breakdown.ts:126-185 | Reordering lines or files, or copying lines into forks, changes neither tokens nor messages |
| Breakdown.LaterLinesMoveOnlyUp | packages/core/src/breakdown.ts:126-183 | Lines read later move a message exactly when one of them reports more of it |
| Breakdown.CopyMovesExactly | packages/core/src/breakdown.ts:126-183 | A copy read anywhere among any lines leaves the line that stands for its message exactly when it reports less, is that line itself, or reports as much and such a line was read before it |
| Breakdown.EarlierCopyWins | packages/core/src/breakdown.ts:126-183 | Such a copy: as big as the line that stands for the message, and read before it |
| Breakdown.CacheReadsSettledExactly | packages/core/src/breakdown.ts:178-183 | The total of cache reads is the same in every order and number of copies exactly when the largest snapshots of each message agree on them |
| Breakdown.SettledExactly | packages/core/src/breakdown.ts:178-183 | Any measure of a line has one total in every order and number of copies exactly when the largest snapshots of each message agree on it |
| Breakdown.DollarsSettledExactly | packages/core/src/breakdown.ts:82-110 | The dollars are the same in every order and number of copies exactly when the largest snapshots of each message have one price |
| Breakdown.PriceFlagsSettled | packages/core/src/breakdown.ts:82-110 | The flags for unpriced and estimated messages are the same when the largest snapshots of each message agree on them |
| Breakdown.Group | packages/core/src/breakdown.ts:186-198 | Every bucket is the sum of its own messages, and the buckets together are the sum of all |
| Breakdown.ClaudeBreakdown | packages/core/src/breakdown.ts:94-202 | The totals are those of the deduplicated messages under any grouping, equal the sum of the buckets, and the buckets descend by key |
| BillCycle.DayNumberOrders | packages/core/src/breakdown.ts:62-70 | Dates and their day numbers have the same order, and no two dates share a day |
| BillCycle.DayZeroOfNextMonth | packages/core/src/breakdown.ts:62 | Day zero of the next month is the last day of this one, across December too |
| BillCycle.MonthKeyOf | packages/core/src/breakdown.ts:58-71 | Without a bill day the key is the calendar month; with one it is the greatest clamped cycle start on or before the date, the start of the one cycle the date lies in |
| BillCycle.ExactlyOneCycle | packages/core/src/breakdown.ts:58-71 | Every date lies in exactly one cycle, across short months, leap years and the turn of the year |
| BillCycle.CycleLength | packages/core/src/breakdown.ts:58-71 | A cycle is 28 to 31 days long and the next one starts where it ends |
| BillCycle.ExactlyOneWeek | packages/core/src/breakdown.ts:45-56 | Every moment lies in exactly one week: whole weeks from the anchor with start < ts <= end, or from Monday with start <= ts < end |
| BillCycle.WeekKeysDiffer | packages/core/src/breakdown.ts:46-56 | The date printed as key tells weeks apart although it drops the time of day |
| RemoteCommand.QuoteIsOneString | packages/cli/src/index.ts:1019 | A quoted string, anywhere in a line and whatever it holds, adds exactly that string to the word |
| RemoteCommand.QuotedArgumentsSplit | packages/cli/src/index.ts:1039 | Splitting the joined quoted arguments gives back exactly that list, empty arguments included |
| RemoteCommand.RemoteLineSplits | packages/cli/src/index.ts:1039 | The other machine's shell gets exactly the settings, the expanded search path, the script in one piece and the arguments |
| RemoteCommand.RefusalSplits | packages/cli/src/index.ts:1026-1030 | The refusal nested in the script is one argument of its printf |
| RemoteCommand.ForwardTakesThePair | packages/cli/src/index.ts:999-1020 | A label after the flag or within it: exactly that is taken out of the arguments |
| RemoteCommand.ForwardHadThePair | packages/cli/src/index.ts:999-1020 | Nothing is forwarded unless the arguments had exactly one label in one of the two spellings |
| RemoteCommand.ReceiptRoundTrip | packages/cli/src/index.ts:1071-1075 | Stripping the receipt from any error output followed by it gives back exactly that output and status |
| RemoteCommand.StripLeavesTheRest | packages/cli/src/index.ts:1072-1075 | A text is left alone exactly when it ends neither with a receipt nor with the missing marker |
| RemoteCommand.EveryResultPasses | packages/cli/src/index.ts:1081-1086 | A program that ran to its end in time has output and status handed back, 127 and 255 included |
| RemoteCommand.RefusedExactly | packages/cli/src/index.ts:1068-1087 | The result is refused exactly when the timer fired, ssh reports 255 without a receipt, or a 127 means the program is missing; any other has its status and the error output before the markers handed back |
| RemoteCommand.Forwarding.Data | packages/cli/src/index.ts:1054-1055 | Error output is collected chunk by chunk, and only its concatenation matters |
| RemoteCommand.Forwarding.Close | packages/cli/src/index.ts:1068-1087 | The outcome is decided by timeout, exit code and stripped error output |
| QuotaExchange.ParseQuota | packages/core/src/codex-account.ts:65-86 | The loop over the windows publishes, for the right account and bucket, the last usable window of each kind, if the result is valid |
| QuotaExchange.PublishedIsSound | packages/core/src/codex-account.ts:40-86 | A published quota is the account's own, its figures are those of windows of the right length in the answer, and its resets are ahead and no further than their window allows |
| QuotaExchange.PublishedExactly | packages/core/src/codex-account.ts:40-86 | A quota is published exactly when the answer names the account, has Codex's bucket with a usable window, and the standing windows end in time; its figures are those of the later usable window of each length |
| QuotaExchange.OutcomeExactly | packages/core/src/codex-account.ts:126-140 | What complete lines come to is what the first reply to the handshake and the first reply to the question after it say |
| QuotaExchange.ExchangeExactly | packages/core/src/codex-account.ts:90-145 | Output within the limit in any chunks, then any end: a quota is the result exactly when those two replies were good |
| QuotaExchange.EverythingElseEnds | packages/core/src/codex-account.ts:105-119 | Timeout, error and close end the exchange at any moment; an answer given by then stands |
| QuotaExchange.Exchange.HandleLine | packages/core/src/codex-account.ts:126-140 | One message moves the exchange as the specification says |
| QuotaExchange.Exchange.OnData | packages/core/src/codex-account.ts:120-142 | A chunk is handled line by line up to the end of the exchange or of the limit |
| QuotaExchange.Exchange.Run | packages/core/src/codex-account.ts:90-145 | Any sequence of chunks, timeout, errors and close leaves the state of the specification |
| QuotaExchange.DrainIsLines | packages/core/src/codex-account.ts:124-141 | Draining the buffer handles its complete lines in order and keeps its tail |
| QuotaExchange.ChunksDoNotMatter | packages/core/src/codex-account.ts:120-142 | Output up to the limit has one outcome however it is cut: that of one pass over its lines |
| QuotaExchange.ChunksMatterPastTheLimit | packages/core/src/codex-account.ts:122 | A quota answered within the limit is the outcome when what exceeds the limit comes in another chunk, and there is none when it comes in the same |
| QuotaExchange.OneOutcomeExactly | packages/core/src/codex-account.ts:120-142 | Output beyond the limit has one outcome for every way of cutting it exactly when its first bytes up to the limit hold no answer |
| QuotaExchange.ExampleDependsOnChunks | packages/core/src/codex-account.ts:120-142 | A server and an output whose quota is published or not, depending on the chunks |
| QuotaExchange.EveryRunIsGrounded | packages/core/src/codex-account.ts:90-145 | In every run the later requests follow only a good first reply, and a quota comes only from a good second reply after one |
| QuotaExchange.SentInOrder | packages/core/src/codex-account.ts:131-143 | The requests sent are always a beginning of initialize, initialized, rateLimits/read |
| QuotaExchange.PublishedByARun | packages/core/src/codex-account.ts:136-139 | A run's quota is about the account asked for |
| QuotaExchange.FirstFinishDecides | packages/core/src/codex-account.ts:105-116 | Nothing after the first finish changes the outcome or sends another request |

## Left out

- Parsing JSON, checking UTF-8 and normalizing a record, beyond token counts: parameters of the adapter, the scanner and the exchange.
- The transcript's lock and its reclaim, and every other lock but the one of the trust repair: one owner at a time is assumed there, and hooks are taken one at a time.
- CodexTranscript.DerivedTranscript.ResumesCleanExactly: rendered rows are JSON text, so no engine is considered whose rows hold a zero byte.
- A read that returns nothing before the file's measured end: an append-only file does not do that. The two looks at its size and time count as one.
- Hashes are injective: the anchor is the bytes it is a hash of, the fingerprint the text, a content hash the content. The account digest, which is cut short, is a parameter.
- Post's second write of a staged call with its after-content, which only keeps that content from being collected, and the enrichment of a record another capture made.
- The key that names a tool call to its prompt, and the order of keys inside it.
- Which snapshot a Post claims and how pending snapshots are advanced past recorded changes: Post gets its own.
- TreeWalk.WalkCandidates: the tree stands still during one walk, and the stat cache, unwalkable roots and drive-letter case are not modelled.
- Resolving a path to a file: in the trees and in the attribution a path is already resolved.
- The spelling of trust tables in TOML, the backup copy and the file mode; a configuration is its tables and everything else.
- The lock's age and the waiting: finding a lock stale is a step that may happen to any lock.
- CanonicalJson.PrintIsCanonical: numbers are integers, the only ones a fingerprint has; fractions, exponents and negative zero are not modelled.
- The 64-byte head check tells no rewrite that keeps those bytes; only append-only transcripts and those whose first bytes change are promised a right answer.
- Times and tokens are integers where the code would carry any finite number, and costs are reals, so that the order of a sum does not matter.
- Which files a breakdown walks, its labels, and the breakdown of Codex sessions, which adds rows already deduplicated.
- BillCycle.MonthKeyOf: years 0 to 99, which the date constructor reads as 1900 to 1999, are not modelled.
- RemoteCommand.Words: here-documents, aliases, reserved words and pathname expansion; a line that asks for them is None.
- RemoteCommand.Forwarding.Close: error output that is not UTF-8 is replaced by the decoder before it is handed on; the texts here are decoded already. Starting ssh, the saved machines and the process's environment are not modelled.
- Stopping the app-server and its timers; a timeout is an event. Chunks are bytes, while the code counts the bytes of decoded text, which is the same for well-formed UTF-8.
- The undo engine, review grouping, pricing tables, secret-name patterns and the programs' user interface: they would add only easy members, or are not bookkeeping.
