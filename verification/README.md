# Litria core, verified

A Dafny 4.11 model of the parts of Litria that are hard to get right, with proofs of what they
promise. `dafny verify dfyconfig.toml` checks all of it.

| files | what they model |
|---|---|
| `HandshakeFilter`, `Utf8`, `Reader` (with `Streams`) | a terminal's output on its way to the window: the filter that answers and removes the console host's first cursor query, the UTF-8 decoder that carries partial characters across reads, and the reader thread that joins them |
| `Registry`, `RegistryRuns`, `RegistrySteps`, `RegistryLaws`, `RegistryLimits` | the terminal session registry: one class method per locked section, a transition system of those sections in any order with spawns and teardowns between them, what each step changes told by the entries, the theorems over all runs, and a run that shows a limit |
| `Ownership`, `OwnershipCode`, `OwnershipLaws`, `OwnershipComplete`, `OwnershipMeans` | who may delete what in a project folder being created: claim, write, verify and clean up over a file tree with a manifest, with any filesystem call failing; and what that comes to in paths, contents and digests |
| `Writes`, `Saves` | atomic write, create and conditional save, as calls on one directory with other processes acting between any two of them |
| `Jsonc`, `JsoncLaws`, `JsoncText` | the two passes that turn JSON with comments into JSON, against a lexer, and on texts as they are written |
| `SeedColumns`, `SeedLayout`, `SeedBoxes`, `SeedMeans` | where the seeds of newly found empty folders go, the boxes drawn for them and their subfolders, and both in plain numbers |
| `GroupSync`, `GroupSyncLaws`, `GroupSyncMeans` | the one-update sync of groups with the filesystem, and which entries of a plan count, in which order |
| `Addons` | the prerequisite closure and order of add-ons |
| `Wrappers` | `Option`, for all of them |

Code that works step by step is modelled by methods and classes with the source's own fields and
loops. Each such method either states what it achieves outright, or equates its result and new
state with a function of the old ones, whose properties are then proved as lemmas. Lemmas whose
names end in `Iff`, `Is`, `Are` or `After` say what those functions come to in plain values.

What a reader should know about the models:

- The three layers of a terminal's output keep ghost histories (every read, every byte forwarded,
  every character given out), and `Valid()` equates the real fields with a function of the whole
  history. That is why the results hold for every way of cutting a stream into reads.
- The registry's history (who asked for each token, which id was drawn for it, teardowns begun and
  finished) is ghost state of the transition system; the class has only the source's fields. A
  session id is new when it is drawn, since it has 128 random bits.
- In the ownership model each filesystem call is named, and an `Io` value says which calls fail,
  what a failed write leaves in the file and what a failed removal leaves of a tree. A link leads to
  a path of the tree or out of it, and `Resolve` follows links as the calls do. A method runs to its
  end before other processes act; between methods they may do anything.
- In `Writes` every call is a turn: the directory as the call found it and as it left it. Other
  processes may do anything between turns except to the operation's own temporary name, which
  carries the process id, the time and a counter and is taken to be new. A crash is the end of the
  turns at any point. An entry says whether its content was fsynced.
- Content hashes and disk revisions are taken to be injective, so they stand for the content.

Results that differ from what the code's documentation or a first reading suggests:

- A query that ends beyond the first 64 bytes is removed by some cuts of the stream and not by
  others. `HandshakeFilter.CutIndependentIff` says exactly for which streams the cuts do not
  matter. At the end of a stream shorter than the budget, the at most three bytes that the filter
  holds back are never forwarded (`HandshakeFilter.NoQuery`).
- `cleanup_after_abort` answers `Removed` ("nothing was created") also for a root that is there but
  cannot be inspected, and only then is anything left (`OwnershipLaws.RemovedButThereIff`).
- The marker's directory is checked for being a link, the marker's own path is not: if someone makes
  that path a link to a file of the folder, the next write or declaration overwrites that file with
  the manifest (`OwnershipComplete.ForeignCanBeLost`). `OwnershipLaws.PersistSparesIff` says exactly
  when a file survives; with that guard foreign content is never lost.
- A shell's exit report can be forgotten when `early_exits` is cleared at 64 entries
  (`RegistryLaws.ForgottenIff` says exactly which are). Only then can a session whose shell is gone
  stay live (`RegistryLaws.NoDeadSessionLive`), and `RegistryLimits.DeadSessionCanStayLive` is a run
  in which one does. `RegistryLaws.DeadStartBecomesLiveIff` says exactly when a start whose shell is
  gone becomes live.
- A create in place, the fallback where a commit is not supported, removes what has its name when a
  write fails. If another process has put its own file there meanwhile, that file goes
  (`Saves.WithdrawalCanTakeTheirs`; `Saves.WithdrawalTakesTheirsIff` for exactly when).
- Stripping a JSONC text twice is not always stripping it once: `JsoncLaws.StrippingAgainIff` says
  for every text when it is, and `JsoncLaws.StrippingAgainCanDiffer` gives a text for which it is not.
- A sync plan compares only lengths to see whether an addition changes a group, so a group that has
  a piece twice can swallow an addition, which may then arrive when the plan is replayed
  (`GroupSyncLaws.ReplayCanDiffer`). A group that the plan makes keeps a piece listed twice, and loses
  the repeat on replay (`GroupSyncLaws.CreatedCanDiffer`). `GroupSyncLaws.AdditionsArriveIff` says
  exactly when an addition arrives, and `GroupSyncLaws.ReplayIsSafeIff` for every plan exactly when
  replay gives the same groups, each with a permutation of its pieces.
- Columns of empty folders under two different boxes can collide
  (`SeedLayout.TwoBoxesCanCollide`, and `SeedLayout.AnchoredCollideIff` for exactly when); all others
  are kept apart, seed by seed.
- A parent's box does enclose its children's (`SeedBoxes.ParentEncloses`), but not every box is clear
  of the others: the space kept for a column covers the box of its head only up to one level of
  subfolders, or none if the head has a parent (`SeedBoxes.FootprintCoversIff`), and the boxes of two
  siblings meet where the first has subfolders deep enough (`SeedBoxes.SiblingsMeetIff`; on the
  default grid two levels do, `SeedBoxes.NextSiblingMeets`).

## Model

| member | source | states |
|---|---|---|
| `HandshakeFilter.Filter.Push` | src-tauri/src/terminal_pty.rs:80-122 | after every read, all that was forwarded is `Forwarded` of all the reads, all replies are `Replies` of them, and until the filter is done it holds back the longest proper query prefix that the whole stream ends in |
| `HandshakeFilter.QueryAtWindow` | src-tauri/src/terminal_pty.rs:86-101 | the held-back bytes and the new read are window enough: a query in the longer stream is exactly a query in the window |
| `HandshakeFilter.WindowFindsFirstQuery` | src-tauri/src/terminal_pty.rs:86-101 | the first query of the window is the first of the stream |
| `HandshakeFilter.WindowHoldsBackTheSame` | src-tauri/src/terminal_pty.rs:102-114 | the longest query prefix at the end of the window is the longest at the end of the whole stream |
| `HandshakeFilter.PassedThrough` | src-tauri/src/terminal_pty.rs:81-84 | once the query was found or the budget spent, every later byte is forwarded as it is, and no reply is made again |
| `HandshakeFilter.QueryWithinBudget` | src-tauri/src/terminal_pty.rs:44-46 | if the first query ends within 64 bytes, every cutting forwards the stream minus exactly that query and replies exactly once |
| `HandshakeFilter.CursorQueryIsAnswered` | src-tauri/src/terminal_pty.rs:44-46 | the query is ESC [ 6 n: a stream that has these four bytes first within its first 64 is forwarded without them and nothing else missing, and answered once |
| `HandshakeFilter.QueryRemovedIff` | src-tauri/src/terminal_pty.rs:80-122 | in general the query is answered, and it alone taken out, exactly if it ends within the reads that began within the budget; otherwise nothing is |
| `HandshakeFilter.SearchedIs` | src-tauri/src/terminal_pty.rs:80-122 | what is searched are the reads up to the one that brings the stream to 64 bytes, that one included |
| `HandshakeFilter.NoQuery` | src-tauri/src/terminal_pty.rs:80-122 | without a query nothing is lost but the at most three bytes held back at the end of a stream shorter than the budget |
| `HandshakeFilter.LateQueryDependsOnCuts` | src-tauri/src/terminal_pty.rs:80-122 | for every stream with a later first query: read at once it loses the query, cut at the budget it does not |
| `HandshakeFilter.CutIndependentIff` | src-tauri/src/terminal_pty.rs:80-122 | what is forwarded does not depend on the cuts, exactly for the streams whose first query, if any, ends within the budget |
| `Utf8.NextMeetsStandard` | src-tauri/src/terminal_pty.rs:125-171 | a character is read exactly where an encoding of RFC 3629 stands; an error covers the longest beginning of an encoding, or one byte (section 3.9 of the Unicode Standard); input is incomplete exactly if it is the beginning of an encoding |
| `Utf8.SettleConcat` | src-tauri/src/terminal_pty.rs:125-178 | decoding is independent of the cuts: text settled by earlier bytes never changes, and the rest follows from the carry alone |
| `Utf8.LossyOfSettled` | src-tauri/src/terminal_pty.rs:172-178 | the whole-stream decoding is the settled text and one U+FFFD if anything is carried |
| `Utf8.EncodedSettles` | src-tauri/src/terminal_pty.rs:125-178 | the encoding of any text decodes to that text, with an empty carry |
| `Utf8.DecodingGoesOn` | src-tauri/src/terminal_pty.rs:125-178 | decoding goes character by character: an encoding gives its character, an error one U+FFFD, a cut-off end one U+FFFD at the end of the stream and a carry before it |
| `Utf8.StandardExamples` | src-tauri/src/terminal_pty.rs:125-178 | the encodings that section 7 of RFC 3629 gives as examples |
| `Utf8.FromUtf8AcceptsIff` | src-tauri/src/terminal_pty.rs:146-150 | the strict decoder accepts exactly the encodings of texts |
| `Utf8.LoopTurn` | src-tauri/src/terminal_pty.rs:146-170 | one turn of the decoding loop, by what it appends and what it leaves, keeps the meaning of the rest; the valid part before an error always decodes by itself |
| `Utf8.Utf8Stream.Decode` | src-tauri/src/terminal_pty.rs:140-171 | after any reads, the text given out and the carry are what the whole stream settles; the carry is at most three bytes |
| `Utf8.Utf8Stream.Finish` | src-tauri/src/terminal_pty.rs:174-178 | with the tail, all the text given out is the whole-stream decoding |
| `Reader.PassOn` | src-tauri/src/terminal_pty.rs:549-570 | one read goes through filter and decoder: at most one reply, at most one event, never an empty one |
| `Reader.Run` | src-tauri/src/terminal_pty.rs:507-588 | for every list of reads and every moment at which the session is ended: exactly which text the events show, that `Exited` comes last and only if nobody ended the session, and how often the query is answered |
| `Reader.ReadsThatCount` | src-tauri/src/terminal_pty.rs:534-553 | the reads that are shown and answered are exactly those after which the flag still read false |
| `Reader.LateReadsLeaveNoTrace` | src-tauri/src/terminal_pty.rs:549-553 | a read that comes in as the session is ended, or later, changes neither text nor replies, whatever it holds |
| `Reader.WholeStreamShown` | src-tauri/src/terminal_pty.rs:507-588 | a session nobody ends shows the lossy decoding of the stream without its query; a query that ends beyond the first 64 bytes is taken out exactly if the reads that were searched hold it |
| `Reader.EndedShowsPrefix` | src-tauri/src/terminal_pty.rs:534-553 | ending the session earlier only ever shows a prefix |
| `Registry.SessionRegistry.ReserveSlot` | src-tauri/src/terminal_session_manager.rs:199-271 | refuses while quitting, for an old page, for a second folder of the project and at both limits, in this order; comparing with one entry decides for all of them because all share one root |
| `RegistrySteps.AnswerIff` | src-tauri/src/terminal_session_manager.rs:199-271 | for which registry each answer is given: a start is let in exactly if not quitting, on the current page, with every live session and wanted start of the project in the same folder, fewer than 8 of the project and fewer than 24 in all; each refusal exactly if its check is the first to fail |
| `RegistrySteps.StartIsLetInIff` | src-tauri/src/terminal_session_manager.rs:199-271 | in every run such a start gets the next token and its reservation, and any other changes nothing |
| `RegistrySteps.OutcomeIff` | src-tauri/src/terminal_session_manager.rs:166-196 | for which registry a returning start gets each outcome |
| `RegistrySteps.LiveAfter` | src-tauri/src/terminal_session_manager.rs:166-414 | after each step exactly those sessions are live that came through with it, as their start asked, and those that were and did not go by their own end, their own project's close, a sweep or their exit |
| `RegistrySteps.PendingAfter` | src-tauri/src/terminal_session_manager.rs:166-358 | after each step exactly those starts are in flight that were and did not return, and an admitted one; a sweep and the project's close cancel, nothing else |
| `RegistrySteps.EndingAfter` | src-tauri/src/terminal_session_manager.rs:166-504 | each step adds to `ending` the sessions that go and a spawned start that does not come through, and subtracts the teardown that returns |
| `RegistrySteps.HeldAfter` | src-tauri/src/terminal_session_manager.rs:171-414 | how each step changes the held exits, which are cleared at 64 |
| `RegistrySteps.RestAfter` | src-tauri/src/terminal_session_manager.rs:199-390 | only a page load moves the page, only quit sets the flag, only an admitted start takes a token |
| `Registry.SessionRegistry.ResolveStart` | src-tauri/src/terminal_session_manager.rs:166-196 | the second section of a start: registers the session, or begins its teardown if the start was overtaken or the shell already exited |
| `Registry.SessionRegistry.End` | src-tauri/src/terminal_session_manager.rs:288-304 | takes the session out of live only for its own project, and counts one teardown |
| `Registry.SessionRegistry.EndProjectSection` | src-tauri/src/terminal_session_manager.rs:306-328 | cancels exactly the project's starts in flight and takes exactly its live sessions |
| `Registry.SessionRegistry.TakeAllSection` | src-tauri/src/terminal_session_manager.rs:346-358 | cancels every start in flight, takes every live session, and counts as many teardowns |
| `Registry.SessionRegistry.OnSelfExit` | src-tauri/src/terminal_session_manager.rs:393-414 | takes a live session, or remembers the exit, clearing the memory at its limit |
| `RegistryRuns.StepKeeps` | src-tauri/src/terminal_session_manager.rs:150-504 | every enabled step keeps the whole invariant: tokens, one fate each, counted teardowns, limits, one root, remembered exits |
| `RegistryLaws.Reachable` | src-tauri/src/terminal_session_manager.rs:150-504 | the invariant holds in every state of every run |
| `RegistryLaws.Conservation` | src-tauri/src/terminal_session_manager.rs:166-504 | in every state of every run each session is in exactly one of in flight, live, ending, ended or never started; its teardown was begun at most once; `ending` is the number begun and not finished |
| `RegistryLaws.NeverClips` | src-tauri/src/terminal_session_manager.rs:500-504 | the saturating subtraction always subtracts one |
| `RegistryLaws.ReportGoesIff` | src-tauri/src/terminal_session_manager.rs:171-182 | a held exit report goes exactly as its start returns with a session, or as a report for a session that is not live comes while 64 are held |
| `RegistryLaws.ForgottenIff` | src-tauri/src/terminal_session_manager.rs:393-414 | in every run exactly the reports that were held at such a clearing are forgotten |
| `RegistryLaws.NoDeadSessionLive` | src-tauri/src/terminal_session_manager.rs:393-414 | in every run a session whose exit was reported is not live, unless its report was held at a clearing |
| `RegistryLaws.HeldIff` | src-tauri/src/terminal_session_manager.rs:393-414 | in every run exactly those exits are remembered that were reported while the session was not live, and were not cleared or taken by their own start since |
| `RegistryLaws.DeadStartBecomesLiveIff` | src-tauri/src/terminal_session_manager.rs:166-196 | in every run a start becomes live exactly if nothing overtook it and each report of its exit, if there was one, was cleared by another session's report before the start returned |
| `RegistryLimits.DeadSessionCanStayLive` | src-tauri/src/terminal_session_manager.rs:393-414 | a run of 65 sessions that ends with a reported session live |
| `RegistryLaws.Limits` | src-tauri/src/terminal_session_manager.rs:199-271 | in every state of every run: at most 24 sessions in all, at most 8 of a project, and one root for all of a project's live sessions and uncancelled starts |
| `RegistryLaws.QuitDrains` | src-tauri/src/terminal_session_manager.rs:362-390 | from the sweep after the quit flag on, nothing is live, every start is refused, and each change of the counts that quit waits for lowers 2·pending + ending |
| `RegistryLaws.QuitWaitEnds` | src-tauri/src/terminal_session_manager.rs:372-390 | those counts are zero exactly when every start and every teardown has returned |
| `RegistryLaws.PageReloadSweeps` | src-tauri/src/terminal_session_manager.rs:338-358 | from the sweep after a page bump on, every live session was asked for by the new page or a later one, whatever happened between the two sections |
| `RegistryLaws.ProjectCloseHolds` | src-tauri/src/terminal_session_manager.rs:306-328 | after a project's close no start reserved before it is ever live or wanted again, whenever its spawn returns |
| `RegistryLaws.BecomesLiveIff` | src-tauri/src/terminal_session_manager.rs:166-196 | an admitted start becomes live exactly if no quit, page load, sweep or close of its own project came between and no exit report of it is held |
| `OwnershipCode.VerifyTree` | src-tauri/src/creation_ownership.rs:402-455 | the recursive walk with its early exits succeeds exactly if every entry of the tree passes |
| `OwnershipCode.VerifyDir` | src-tauri/src/creation_ownership.rs:408-455 | the same for one directory and all below it |
| `OwnershipCode.ClaimRoot` | src-tauri/src/creation_ownership.rs:164-224 | the disk, the attempt or the error after a claim are those of `Claim`, whichever calls fail |
| `OwnershipCode.Run.PersistMarker` | src-tauri/src/creation_ownership.rs:249-273 | the tree after writing the marker, including what a failed write leaves and what a link at the marker's path leads to |
| `OwnershipCode.Run.NoteUnrecorded` | src-tauri/src/creation_ownership.rs:276-283 | declares a path once |
| `OwnershipCode.Run.WriteProjectFile` | src-tauri/src/creation_ownership.rs:288-339 | the tree, the manifest and the answer after a write are those of `WriteFile`, whichever calls fail |
| `OwnershipCode.Run.CleanupAfterAbort` | src-tauri/src/creation_ownership.rs:344-382 | the root, what is aside and the answer after a cleanup are those of `Cleanup`, whichever calls fail |
| `OwnershipLaws.PersistSparesIff` | src-tauri/src/creation_ownership.rs:249-273 | a file outside the marker's path survives a persist exactly unless the marker is kept on disk, its path is a link that leads to the file, and opening it succeeds; then it holds the manifest or what the failed write left |
| `OwnershipLaws.WriteSparesIff` | src-tauri/src/creation_ownership.rs:288-339 | a write changes no file but the marker, a target that the manifest proves, and a file that a link at the marker's path leads to: exactly when the first two parts of the write succeed and the marker is opened |
| `OwnershipLaws.ClaimSpares` | src-tauri/src/creation_ownership.rs:164-224 | a claim changes no file but the marker; with a link at the marker's path it never gets to write |
| `OwnershipLaws.VerifiedMeans` | src-tauri/src/creation_ownership.rs:402-455 | everything in a verified tree outside the marker's path is proven: no link, nothing declared, every file equal to its record |
| `OwnershipLaws.CleanupSpares` | src-tauri/src/creation_ownership.rs:344-382 | cleanup keeps every unproven file, at the root or aside |
| `OwnershipLaws.RemovedMeans` | src-tauri/src/creation_ownership.rs:344-382 | `Removed` for a root that can be inspected: the run created it, every entry in it was proven, and exactly it is gone |
| `OwnershipLaws.RemovedButThereIff` | src-tauri/src/creation_ownership.rs:346-353 | after `Removed` a root is still there exactly if it could not be inspected |
| `OwnershipLaws.UninspectedIsRemoved` | src-tauri/src/creation_ownership.rs:346-347 | a root that is there and cannot be inspected is answered `Removed`, and nothing is done |
| `OwnershipLaws.ForeignIsKept` | src-tauri/src/creation_ownership.rs:164-382 | in every run of claims, writes, declarations, cleanups and outside changes, with any calls failing: a file that stays unproven, that others leave alone, and that no step reaches through a link at the marker's path, is still there with its content |
| `OwnershipMeans.RecordedIff` | src-tauri/src/creation_ownership.rs:445-450 | a file is proven exactly if the first record of its path has the digest of its content |
| `OwnershipMeans.VerifiedIff` | src-tauri/src/creation_ownership.rs:402-455 | which folders verify when nothing fails, by their entries: files by digest, directories by the records below them, no link, nothing declared, and in the marker's directory only its name |
| `OwnershipMeans.VerifiedDespiteFaultsIff` | src-tauri/src/creation_ownership.rs:402-455 | with calls failing: of those, exactly the ones whose entries outside the marker's directory can all be looked at |
| `OwnershipMeans.RemovedHeldOnlyOurs` | src-tauri/src/creation_ownership.rs:344-382 | whatever fails: every file of a removed folder, outside the marker's path, has a record of its path with the digest of its content |
| `OwnershipMeans.EditedFileKeepsTheFolder` | src-tauri/src/creation_ownership.rs:449-451 | whatever fails: a file without such a record is retained, with its folder |
| `OwnershipMeans.EditedFileIsKept` | src-tauri/src/creation_ownership.rs:288-382 | in every run such a file is kept, under the guards of `ForeignIsKept` |
| `OwnershipMeans.EditedFileRefusesTheWrite` | src-tauri/src/creation_ownership.rs:317-323 | whatever fails: a write onto such a file is refused, and leaves it |
| `OwnershipMeans.ExternalOutputStays` | src-tauri/src/creation_ownership.rs:226-246 | a folder that a create CLI wrote into is never removed |
| `OwnershipMeans.CleanupIff` | src-tauri/src/creation_ownership.rs:344-382 | with nothing failing, a folder is removed exactly if the run made it and it verifies; a missing one counts as removed; nothing else changes |
| `OwnershipComplete.ForeignCanBeLost` | src-tauri/src/creation_ownership.rs:261-272 | a run that meets all those conditions but the last, and loses the file |
| `OwnershipComplete.AncestorsExactly` | src-tauri/src/creation_ownership.rs:290-310 | with no fault the directories above a path are made exactly if nothing else is in their place; otherwise nothing is changed |
| `OwnershipComplete.WriteExactly` | src-tauri/src/creation_ownership.rs:288-339 | with no fault a write succeeds exactly if the way is clear and the target is absent or proven; then it has exactly its effect, and otherwise none |
| `OwnershipMeans.WriteSucceedsIff` | src-tauri/src/creation_ownership.rs:288-339 | the same by paths and digests: only directories above the target, and at it nothing or a file with its content on record |
| `OwnershipMeans.WriteIsRecorded` | src-tauri/src/creation_ownership.rs:333-337 | a write puts the digest of its content on record, and leaves the records of other paths |
| `OwnershipMeans.WritablePathIff` | src-tauri/src/creation_ownership.rs:133-150 | which paths can be written |
| `OwnershipMeans.ClaimIff` | src-tauri/src/creation_ownership.rs:164-224 | with nothing failing: which folders can be claimed, with which manifest, and for what reason each other one cannot |
| `OwnershipMeans.ResolvedIsReal` | src-tauri/src/creation_ownership.rs:249-273 | a call that follows links ends up at a path without links |
| `OwnershipMeans.LinkLeadsOn` | src-tauri/src/creation_ownership.rs:249-273 | at the first link on its way it goes on with where that leads |
| `OwnershipComplete.CleanIsVerified` | src-tauri/src/creation_ownership.rs:402-455 | a tree that holds the marker, the recorded files and the directories above them verifies |
| `OwnershipComplete.OwnershipIsComplete` | src-tauri/src/creation_ownership.rs:164-382 | claim a missing or empty folder, then write and declare in any order: the folder verifies, can be claimed again with the same manifest, and cleanup removes it exactly if the run created it |
| `Writes.Operation.Prepare` | src-tauri/src/write_ops.rs:215-238 | the content is written and fsynced under the temporary name, in any number of parts, and nothing else is touched |
| `Writes.Operation.Replace` | src-tauri/src/write_ops.rs:61-80 | a rename puts the whole durable content in place, or leaves target and temporary file as they are |
| `Writes.Operation.AtomicWrite` | src-tauri/src/write_ops.rs:170-263 | without a backup path, as every caller but a test: success and a failed directory fsync alone mean the target was replaced, by one call, with the whole durable content; every other answer means no call touched it; a failed rename keeps the content; any other failure discards it; a failure has a failed call or a named obstacle as its cause |
| `Writes.Operation.CreateNew` | src-tauri/src/write_ops.rs:316-458 | a create answers `Fresh` only if one call gave the whole content a name nothing had, or if a commit failed and the file was made in place; any other answer means that no call touched the name, or that a write in place failed and the name was removed again; `Exists` means something had it |
| `Writes.Operation.CreateInPlace` | src-tauri/src/write_ops.rs:445-458 | the fallback claims a name that nothing had, writes only through its own file, whatever others do with the name, and leaves it whole if they left it alone; when a write fails it removes the name |
| `Writes.Operation.Commit` | src-tauri/src/write_ops.rs:390-440 | the commit by hard link or by move never replaces an entry |
| `Saves.SaveProjectFile` | src-tauri/src/project_ops.rs:133-169 | `Saved` means the target held the base at the first call and at the last check, and one rename replaced it, and its stamp is given only if a later call still saw the saved content; `Changed` reports what some call saw, which is not the text of the base, or not nothing, and means no call touched the target |
| `Saves.HoldsIff` | src-tauri/src/project_ops.rs:96-111 | the base is there exactly if the name stands for a file with this very text, or leads to one, or for an absent base stands for nothing |
| `Saves.SeenIff` | src-tauri/src/project_ops.rs:96-103 | what a read gives, by what the name stands for |
| `Saves.CrashLeavesOldOrNew` | src-tauri/src/write_ops.rs:198-263 | cut off at any call, a write leaves the target the whole old entry or the whole new content |
| `Saves.EveryTurnLeavesItWhole` | src-tauri/src/write_ops.rs:198-263 | with others at work too: a call that changes the target puts the whole content there, and no call changes any other name |
| `Saves.SaveReplacesItsBase` | src-tauri/src/project_ops.rs:148-154 | what a save replaced held exactly the text of its base at the first call, at the last check and just before the rename, unless another process changed the target between the last two |
| `Saves.NewerIsNeverOverwritten` | src-tauri/src/project_ops.rs:133-169 | whatever stood at the target at or before the last check, and was left alone since, is replaced only if it was the very text of the base |
| `Saves.CreateNeverReplaces` | src-tauri/src/write_ops.rs:316-381 | no call of a create alters an entry that has the name, whoever put it there and whenever |
| `Saves.EntryStays` | src-tauri/src/write_ops.rs:316-381 | so an entry that has the name stays as long as the others let it |
| `Saves.CreateIsWholeOrNothing` | src-tauri/src/write_ops.rs:316-381 | cut off at any call, a create leaves no file of its own or the whole one |
| `Saves.InPlaceNeverReplaces` | src-tauri/src/write_ops.rs:440-458 | up to the end of its writing, a create in place alters nothing that was there first or that others put there since |
| `Saves.InPlaceIsWholeAfterwards` | src-tauri/src/write_ops.rs:440-458 | left alone, the name shows nothing before the claim, some file while it is written, and the whole content from then on |
| `Saves.WithdrawalTakesTheirsIff` | src-tauri/src/write_ops.rs:451-456 | an entry that others put at the name is altered exactly by the removal after a failed write, if that succeeds |
| `Saves.WithdrawalCanTakeTheirs` | src-tauri/src/write_ops.rs:451-456 | three calls after which a file of another process is gone |
| `Jsonc.StripComments` | src-tauri/src/scaffold_runner.rs:1322-1364 | the index loop with its string flag computes `Uncommented`, for every text, unterminated strings and comments included |
| `Jsonc.CleanCommas` | src-tauri/src/scaffold_runner.rs:1365-1401 | the second loop computes `Uncommaed` |
| `Jsonc.StripJsonc` | src-tauri/src/scaffold_runner.rs:1322-1401 | both passes, one after the other |
| `JsoncText.BlockCommentGoes` | src-tauri/src/scaffold_runner.rs:1354-1361 | a block comment goes up to the first star and slash after its start, and nothing else |
| `JsoncText.OpenBlockTakesAll` | src-tauri/src/scaffold_runner.rs:1354-1361 | one that is never closed takes the rest of the text |
| `JsoncText.LineCommentGoes` | src-tauri/src/scaffold_runner.rs:1348-1353 | a line comment goes, its newline stays |
| `JsoncText.StringStays` | src-tauri/src/scaffold_runner.rs:1329-1347 | a string stays in both passes, with its escapes and whatever it holds |
| `JsoncText.OpenStringStays` | src-tauri/src/scaffold_runner.rs:1329-1347 | so does one that is never closed |
| `JsoncText.OrdinaryStays` | src-tauri/src/scaffold_runner.rs:1362-1363 | any other character stays in the first pass |
| `JsoncText.TrailingCommaGoes` | src-tauri/src/scaffold_runner.rs:1387-1396 | a comma goes if only whitespace is between it and a closing bracket or brace |
| `JsoncText.OtherCommaStays` | src-tauri/src/scaffold_runner.rs:1387-1398 | any other comma stays |
| `JsoncText.NoCommaStays` | src-tauri/src/scaffold_runner.rs:1397-1398 | and everything else |
| `JsoncText.EveryTextHasForm` | src-tauri/src/scaffold_runner.rs:1322-1364 | every text starts with one of the forms that these laws are about, so they fix the first pass |
| `JsoncText.LexerSkipsComments` | src-tauri/src/scaffold_runner.rs:1320-1321 | the lexer reads comments as they are written too: it is no comment reader of the pass |
| `JsoncText.LexerReadsStrings` | src-tauri/src/scaffold_runner.rs:1320-1321 | and strings |
| `JsoncLaws.CommentsGo` | src-tauri/src/scaffold_runner.rs:1322-1364 | the first pass keeps every token of the text |
| `JsoncLaws.CommasGo` | src-tauri/src/scaffold_runner.rs:1365-1401 | the second pass drops exactly the commas that a closer follows |
| `JsoncLaws.StrippingKeepsTokens` | src-tauri/src/scaffold_runner.rs:1320-1401 | for every text with tokens, comments allowed and no two atoms side by side, the result is plain JSON text with the same tokens, strings character for character, without trailing commas |
| `JsoncLaws.TrailingCommasGo` | src-tauri/src/scaffold_runner.rs:1320-1321 | trailing commas written before any closers of a comma-clean token list are exactly what goes |
| `JsoncLaws.StrippedIsCommentless` | src-tauri/src/scaffold_runner.rs:1322-1401 | for every text the result has no comment opener outside a string |
| `JsoncLaws.UnchangedIff` | src-tauri/src/scaffold_runner.rs:1322-1401 | a text comes back unchanged exactly if it has neither comments nor trailing commas |
| `JsoncLaws.StrippingAgainIff` | src-tauri/src/scaffold_runner.rs:1322-1401 | for every text: stripping twice is stripping once exactly if, outside strings and comments, no comma that stays has only whitespace before a comma that goes |
| `JsoncLaws.StrippingTokensAgainIff` | src-tauri/src/scaffold_runner.rs:1322-1401 | for a text with tokens and no two atoms side by side: exactly if no closer has two commas before it |
| `JsoncLaws.StrippingAgainCanDiffer` | src-tauri/src/scaffold_runner.rs:1376-1398 | a text for which it is not |
| `SeedColumns.CeilTo` | src/app/emptyGroupSeeds.js:37-37 | the result is a multiple of the step, at or after the value and less than a step after it |
| `SeedColumns.CeilToIsLeast` | src/app/emptyGroupSeeds.js:37-37 | no multiple of the step at or after the value is nearer |
| `SeedColumns.Nest` | src/app/emptyGroupSeeds.js:97-109 | each empty folder heads a column or is listed once, under the empty folder it nests in, and all lists are in folder order |
| `SeedColumns.Walk` | src/app/emptyGroupSeeds.js:115-118 | a walk lists exactly the subtree of a folder, each of it once, one row a pitch, each row hanging one indent right of its parent's; every subtree is one piece, and siblings come in folder order |
| `SeedLayout.ColumnOf` | src/app/emptyGroupSeeds.js:113-123 | a column holds its head's subtree, covers its rows, and is no larger than that |
| `SeedLayout.FindSpot` | src/app/emptyGroupSeeds.js:166-172 | the first candidate at which the column is clear of obstacles and columns, and none exactly if there is none |
| `SeedLayout.SitedIsClear` | src/app/emptyGroupSeeds.js:157-182 | a column under no box is clear of the obstacles, unless no candidate was free when it was placed |
| `SeedLayout.RowsApart` | src/app/emptyGroupSeeds.js:39-50 | seeds of one column are at least both paddings, a tab and the clearance apart |
| `SeedLayout.AnyTwoApart` | src/app/emptyGroupSeeds.js:97-183 | any two seeds, with padding and tab, are apart, unless their columns stand under two different boxes |
| `SeedLayout.TwoBoxesCollideIff` | src/app/emptyGroupSeeds.js:146-155 | the first columns under two boxes collide exactly if their corners are nearer, in both directions, than the column sizes, the padding and the tab allow |
| `SeedLayout.TwoBoxesCanCollide` | src/app/emptyGroupSeeds.js:146-155 | columns under two boxes with the same left and lower edge always collide |
| `SeedLayout.AnchoredCollideIff` | src/app/emptyGroupSeeds.js:146-155 | the same for any two columns under two boxes, each at the height that its box and the columns stacked above it give |
| `SeedLayout.LayoutEmptyGroupSeeds` | src/app/emptyGroupSeeds.js:84-183 | every empty folder gets exactly one seed of the seed size; any two padded and tabbed seeds are apart but for the exception; a subfolder hangs one indent right of its parent and at least a pitch below; columns are placed in folder order, those under a box exactly stacked below it, any other exactly at the first free candidate, or if there is none at the lattice point below all columns before it |
| `SeedMeans.SeedIsAt` | src/app/emptyGroupSeeds.js:113-128 | every seed in numbers: its column's corner, an indent a level right and a pitch a row down |
| `SeedMeans.SiteIs` | src/app/emptyGroupSeeds.js:157-182 | a column under no box stands at the first free candidate, or if none is free at the lattice point below all columns before it |
| `SeedMeans.BelowBoxIs` | src/app/emptyGroupSeeds.js:146-155 | a column under a box stands at the step right of the box's edge by an indent, and below the box by a row's gap |
| `SeedMeans.ColumnOrderIs` | src/app/emptyGroupSeeds.js:132-158 | columns under boxes come first, and under one box or none they follow the list of folders |
| `SeedMeans.SpacingIs` | src/app/emptyGroupSeeds.js:40-50 | the pitch is the least multiple of the step that leaves 68 between two seeds, the indent the least from 40 on |
| `SeedMeans.FreeIff` | src/app/emptyGroupSeeds.js:161-172 | a candidate is free exactly if the column there, with 28 around it and 20 more above, stays out of every obstacle and everything placed |
| `SeedMeans.PlacedIs` | src/app/emptyGroupSeeds.js:152-152 | what each placed column counts as |
| `SeedMeans.OverIff` | src/app/emptyGroupSeeds.js:102-103 | a folder nests under the memberless one of the pass that its parent path names |
| `SeedMeans.AnchorIff` | src/app/emptyGroupSeeds.js:137-145 | a column stands under its head's parent folder, if that has a box |
| `SeedMeans.ApartIff` | src/app/emptyGroupSeeds.js:39-50 | apart means that no point is inside both |
| `SeedLayout.LayoutOfFamily` | src/app/emptyGroupSeeds.js:84-183 | a pass with a parent, its child and a folder beside them is laid out: three seeds, the child right of its parent and below it, all padded and tabbed seeds apart |
| `SeedBoxes.BoundsWithDescendants` | src/app/selectors/workspaceSelectors.js:356-385 | the recursion with its shared cycle guard gives the least bounds that hold every seed of the folder's tree, grown by the clearances of each level between; the guard cuts nothing short in a forest |
| `SeedMeans.GrownIs` | src/app/selectors/workspaceSelectors.js:282-291 | a seed grows by 14 a level, by 34 above |
| `SeedMeans.DrawnBoxIs` | src/app/useGroupFolderReconciliation.js:170-176 | a box is drawn with 20 around it if its folder has a parent, with 12 if not, and a tab of 20 above |
| `SeedBoxes.ParentEncloses` | src/app/selectors/workspaceSelectors.js:276-291 | at every depth, a child's drawn box and tab lie in its parent's outline, with 6 left on every side |
| `SeedBoxes.FootprintCoversIff` | src/app/emptyGroupSeeds.js:52-66 | the footprint kept clear for a column covers the drawn box of its head, subfolders included, exactly if they nest at most one level deep, or not at all if the head has a parent |
| `SeedBoxes.ColumnBoxesApart` | src/app/emptyGroupSeeds.js:146-182 | such boxes of two columns are apart, unless the columns stand under two different boxes |
| `SeedBoxes.BoxesBelowMeetIff` | src/app/selectors/workspaceSelectors.js:359-385 | two boxes with the same left edge, as those of siblings and of stacked columns, meet exactly if some folder in the upper one, grown for each level, comes nearer to the lower one than padding and tab |
| `SeedBoxes.TreeIsBetween` | src/app/emptyGroupSeeds.js:112-123 | the rows from a folder to its next sibling are exactly its tree |
| `SeedBoxes.SiblingsMeetIff` | src/app/emptyGroupSeeds.js:12-14 | the boxes of two successive siblings meet exactly if a row of the first one's tree is fewer pitches away than its depth, the padding and the tab need |
| `SeedBoxes.NextSiblingMeets` | src/app/emptyGroupSeeds.js:12-14 | so a sibling without subfolders never meets the next, and one whose last row is `levels` deep does if the row lattice is at most 14 `levels` − 8 |
| `GroupSync.ApplyFsSyncPlan` | src/app/groupDomain.js:236-328 | the staged update over maps and loops computes `Synced` |
| `GroupSyncLaws.AdditionsArriveIff` | src/app/groupDomain.js:274-286 | an addition is there afterwards exactly if the length comparison does not take it for one the group has |
| `GroupSyncLaws.EachGroup` | src/app/groupDomain.js:246-325 | for every plan, each group afterwards is one of those before with exactly the path, parent and pieces that the plan gives it, an addition counting if it arrives, or one the plan made, with the name, path, look and parent of its first upsert, a deleted parent cleared, and exactly the pieces its upserts list |
| `GroupSyncMeans.PathIs` | src/app/groupDomain.js:246-252 | the last path update of a group counts, an empty one for nothing |
| `GroupSyncMeans.ParentIs` | src/app/groupDomain.js:253-260 | the last parent update of a group counts, a deleted parent is cleared |
| `GroupSyncMeans.PiecesAre` | src/app/groupDomain.js:261-286 | the pieces of a group that no upsert names, in order |
| `GroupSyncMeans.RemovalKeepsOrder` | src/app/groupDomain.js:261-273 | a removal takes out every copy, and leaves the other pieces in order |
| `GroupSyncMeans.UnionKeepsOrder` | src/app/groupDomain.js:274-286 | a union has its pieces in the order in which they first come |
| `GroupSyncMeans.NamedInOrder` | src/app/groupDomain.js:262-279 | removals and additions name pieces in their order |
| `GroupSyncMeans.UpsertedPiecesAre` | src/app/groupDomain.js:287-299 | the pieces of a group that upserts name: its own and then what they list, each once, in order |
| `GroupSyncMeans.OrderAfter` | src/app/groupDomain.js:284-325 | the groups stay in their order, new ones after them |
| `GroupSyncMeans.NewInOrder` | src/app/groupDomain.js:284-312 | new groups come in the order of their first upserts |
| `GroupSyncMeans.CreatedIs` | src/app/groupDomain.js:287-324 | a group the plan made, field by field: the first upsert's name, folder, parent and bounds, expanded, without a theme, on tier 0, with what all its upserts list |
| `GroupSyncLaws.GroupStays` | src/app/groupDomain.js:246-325 | every group that is not deleted is there afterwards, with these |
| `GroupSyncLaws.IdsAfter` | src/app/groupDomain.js:284-328 | exactly which ids there are afterwards |
| `GroupSyncMeans.IdsAre` | src/app/groupDomain.js:284-328 | the same by the upserts that count: those with an id, a folder and a list of pieces |
| `GroupSyncLaws.IdsStayDistinct` | src/app/groupDomain.js:284-313 | group ids stay distinct |
| `GroupSyncLaws.NoDeletedParent` | src/app/groupDomain.js:313-324 | no group keeps a parent that the plan deleted |
| `GroupSyncLaws.ReplayIsSafeIff` | src/app/groupDomain.js:215-235 | for every plan: applying it twice gives the same groups in the same order as once, each with a permutation of its pieces, exactly if for every group that is not deleted its additions arrive, or no upsert names it, or all of its additions are there or upserted anyway, and for every group that the plan creates a sole upsert lists no piece twice, the path and parent updates give what its first upsert gave, and its additions are upserted anyway |
| `GroupSyncLaws.ReplayIsSafe` | src/app/groupDomain.js:215-235 | so where no update or addition names a group that the plan creates, the condition on these is that a sole upsert lists no piece twice |
| `GroupSyncLaws.ReplayCanDiffer` | src/app/groupDomain.js:274-286 | a plan and a group with a repeated piece for which replay differs |
| `GroupSyncLaws.CreatedCanDiffer` | src/app/groupDomain.js:284-312 | a plan that makes one group, with a piece listed twice, for which replay differs |
| `Addons.Visit` | src-tauri/src/scaffold_recipes.rs:463-472 | the recursive visit ends, keeps what is wanted closed under prerequisites, and adds only what every closed set with this add-on has |
| `Addons.OrderAddons` | src-tauri/src/scaffold_recipes.rs:460-481 | the result is the registry's order, restricted to the least set that has the known selection and is closed under known prerequisites |
| `Addons.LeastIsNeeded` | src-tauri/src/scaffold_recipes.rs:460-475 | the least closed set is exactly what chains of requirements reach from the selection |
| `Addons.PickedInOrder` | src-tauri/src/scaffold_recipes.rs:476-481 | the result has the registry's order, and each add-on as often as that has it |
| `Addons.OnlyTheSetCounts` | src-tauri/src/scaffold_recipes.rs:460-481 | the result depends only on which add-ons are selected |
| `Addons.OrderingAgain` | src-tauri/src/scaffold_recipes.rs:460-481 | ordering the result again gives the result |
| `Addons.PickedKeepsOrder` | src-tauri/src/scaffold_recipes.rs:456-459 | prerequisites come first whenever the registry's order has them first |
| `Addons.PrerequisitesArePulledIn` | src-tauri/src/scaffold_recipes.rs:456-459 | every known prerequisite of a result is in the result, if the registry's order has it |

## Left out

- Operating system effects: process spawning, job objects, signals, ConPTY, `/proc`. Spawns, teardowns and exit reports are steps that may come at any time.
- Times: wall-clock budgets, condition variable timeouts and polling intervals. Only the order of steps is kept, so `quit` and the teardown waits are modelled by what they wait for.
- The writer thread, flow control and the exit code's polling; the reader's exit code is a parameter, and its duplicate handles are not modelled.
- Reader.Run: a write of the handshake reply that the full queue drops counts as a reply.
- Utf8.FromUtf8: models the documented behaviour of Rust's `str::from_utf8`; its source is not part of this model.
- Tauri commands, channels and payloads, `App.jsx`, hooks and contexts: plumbing and user interface.
- npm, uv and registry subprocesses, plan and coverage validation, the Python probe's text parsers: driven by data that is not here.
- `path_guard.rs`: single-branch checks over an operating system call; targets arrive resolved.
- `copy_then_delete_with`: needs a source removal that fails without effect, which recursive removal does not give.
- Backup copies in `atomic_write_string_with_backup`, and the simulated interruption, which only tests use.
- OwnershipCode.Run.PersistMarker: what a link leads to outside the tree has no modelled content; the marker's kind and start time, which nothing reads, are not in the marker.
- OwnershipLaws.PersistSparesIff: a second name of the marker's own file (a hard link) is not modelled, so overwriting it through the marker is not either; nor is a root that someone replaced by a link, through which later calls would reach a folder elsewhere.
- OwnershipLaws.ForeignIsKept: other processes act between methods, not between the filesystem calls of one; names are exact, so a filesystem that ignores case is not covered, and recorded paths are canonical.
- OwnershipCode.Run.WriteProjectFile: the calls of one method fail alike by call and path; two calls of one kind on the same path in the same phase do not fail differently.
- Writes.Operation.CreateInPlace: what others write into the half-written file at the same time may leave anything in it.
- Writes.Operation.AtomicWrite: one read of a file is one step, so a reader that meets another program's write half done is not modelled.
- Saves.SaveProjectFile: modification times are not modelled, so of the stamp only whether it is given is.
- SeedLayout.LayoutEmptyGroupSeeds: coordinates are reals, so floating-point rounding is not modelled; the candidates of the lattice search and the comparison of folder paths are parameters; folder parents must be acyclic and ids and paths distinct.
- JsoncLaws.StrippingKeepsTokens: a text in which two atoms stand side by side, which no JSON text has, is not covered, because a comment between two atoms is all that parts them.
- SeedBoxes.BoundsWithDescendants: folders with members below an empty folder, collapsed groups and the exclusions of a drag are not modelled; the groups are the empty folders of one pass. A tab is drawn a pixel lower than the 20 it is measured as, and as wide as its name.
- GroupSync.ApplyFsSyncPlan: the undo history around the update is not modelled; seed bounds arrive as finite numbers or none.
- Addons.OrderAddons: `requires` must be acyclic, as the recursion needs.
- `exportBlockManager.js` and `discoveryEngine.js`, which read and rewrite source files by regular expressions and parsers.
- `gridDomain.js` (the applied grid), `buildLogDomain.js` and `build_log.rs` (the log of a build run), `connectionAnchoring.js` (which edges a connection leaves from), `editorDropGeometry.js` (which pane a node is dropped on), `quote_pool.rs` (a quote for a new README) and `errors.rs` (error categories).
