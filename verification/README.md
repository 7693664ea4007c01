# Agent Action Visualizer: the deterministic event core, verified

A Dafny model of the parts of the repository that decide what a user is told: how line changes are counted
and published, how hooks are installed and taken out again, how events pass the ingress, become focus and
access intervals and are replayed, and how the graph, its directory totals and its access points are built.
One module stands for one component. Where the source changes things step by step the model does too: classes
with fields for its objects, arrays and loops for its in-place algorithms. Each such method is proved equal to a
function of its inputs or its old state, and the theorems are about those functions, for all inputs and all runs.

| area | modules |
|---|---|
| Work deltas (`internal/diff`) | `LineDiff` the table and its optimality, `PatchCount` unified patches, `WorkResults` one batch, `WorkPipeline` offers, worker, reader and cancellation as a step system |
| Codex hook installer (`internal/adapters/codex/install`) | `HookConfig` merge and removal on JSON trees, `HookCommand` what the merged hooks run, `SwapFiles` the swap-file protocol with a fault at any file operation, `Installer` the two commands as functions, `InstallerManager` the same step by step, `InstallerSafety` every run of crashing attempts, `InstallerRestore` single runs, edits and status |
| Sessions (`internal/session`, `internal/store`, `internal/replay`) | `SessionEngine`, `SessionFocus`, `SessionGeometry` with crash recovery, `Replay` |
| Ingress (`internal/ingest`, `adapter/go/wrapper`) | `IngestQueue`, `IngestCollector`, `IngestDedupe`, `EvidenceGate` with `EvidenceSafety`, `EvidenceWorker` and `EvidenceFront`, `StreamTap` |
| Graph (`internal/graph`, `internal/activity`, desktop app) | `Identity`, `GraphPatch`, `GraphClient`, `ActivityTree` |
| Rendering (`apps/desktop/frontend`) | `AccessPoints`, `LodChoice`, `RenderLod` |
| File system adapter (`internal/adapters/filesystem`) | `GitStatus`, `GitNumstat`, `RenameMatch`, `FileObserver`, `FileObserverRun` |
| Shared | `Common`, `Pieces`, `Protocol` |

How the outside world enters the model:

- Times are integers on one clock per run; where a theorem needs a clock that never runs back it says so.
- Goroutines are steps of a transition system, in any order the locks and channels allow. Maps are walked in an
  arbitrary order; every result is proved for all of them.
- A file operation takes its fate from an oracle: it works, or fails without effect. A crash is an attempt all of
  whose later operations fail. Digests are the contents themselves, so equal digests mean equal contents.
- Hashes, path cleaning, UTF-8 checking, the browser's collation, node positions and Git's answers are parameters.

## Where the code does not keep a law

Each of these is a property one would expect; the member named shows an input or a reachable state that breaks it
and, where one exists, the exact condition under which it holds.

- A crash between removing the backup and removing the state file leaves a state no rerun repairs:
  `InstallerSafety.StuckIsReachable`, `InstallerSafety.RerunCompletesIff`.
- Uninstalling restores a file byte for byte only if its document has a hooks object without empty event lists:
  `InstallerRestore.RoundTripIff`, `HookConfig.MergeRemoveRestoresIff`. The byte copy in the backup is used only when
  what is left equals the original as a document.
- A first install over a file that already holds a managed handler fails, and so does everything after it:
  `InstallerRestore.FirstInstallIff`, `InstallerRestore.ManagedOriginalNeverInstalls`.
- `onlyEmptyHooks` accepts any document with a single key that is not `hooks`: `HookConfig.OnlyEmptyHooksIff`.
- Intervals overlap when a pause or a tick runs ahead of a later event: `SessionGeometry.OverlapsHappen`,
  `SessionGeometry.RunOverlapsIff`.
- A second stop can move the recorded stop back: `SessionGeometry.StopMovesBack`, `SessionGeometry.StopsAdvanceIff`.
- A rename that loses the focus still carries it along, so the order of delivery shows:
  `SessionFocus.RenamesShowDeliveryOrder`, `SessionFocus.OrderHiddenIff`.
- A snapshot of events none of which is later than the zero time may show an open interval:
  `Replay.EarlyEventsStayOpen`, `Replay.SnapshotIsClosedIff`.
- `Stop` does not drain what came in after a cancelled context had ended the worker: `IngestCollector.LateEventIsStranded`,
  `IngestCollector.StopDrainsIff`.
- The completed count may run ahead of the accepted one: `WorkPipeline.CompletedMayLead`,
  `WorkPipeline.CompletedWithinAcceptedIff`.
- A change can be told of twice when the evidence gate's queue is full: `EvidenceFront.OverflowTellsTwice`,
  `EvidenceFront.ToldTwiceIff`.
- A text of one empty line is read as no line: `LineDiff.SplitLinesOfRender`.
- Line counts read off a patch miss inserted lines starting with `++` and deleted lines starting with `--`, also
  inside a hunk: `PatchCount.PatchCountsScript`.
- A path renamed away and created again shares its ID with the renamed node: `Identity.ReusedPathClashes`,
  `Identity.DistinctThroughoutIff`.
- A patch that never arrives is not always made good by the next: `GraphClient.PatchLandsIff`,
  `GraphClient.SkippedPatchMayLinger`.
- Which pair two of Git's renames with a path in common yield depends on the order a map is walked in:
  `RenameMatch.ChainsDependOnOrder`, `RenameMatch.SharedTargetsDependOnOrder`, `RenameMatch.OrderDoesNotShowIff`.
- A full batch can tear a rename apart: `FileObserver.FullBatchTears`, `FileObserver.TornIff`.
- The final flush leaves changes behind when more are pending than one batch holds: `FileObserver.FinalFlushEmptiesIff`.
- The section "Porcelain Format Version 1" of the git-status manual gives copied entries an origin too; the reader
  takes none off them and may read it as an entry of its own: `GitStatus.RoundTripIff`.

## Model

| member | source | states |
|---|---|---|
| LineDiff.CommonLines | internal/diff/pipeline.go:366-381 | the rolling two-row table returns the recurrence Lcs of the two line lists, whose meaning the next two rows give |
| LineDiff.LcsIsUpperBound | internal/diff/pipeline.go:366-381 | no sequence of lines common to both sides, in order, is longer than the value the table computes |
| LineDiff.LcsIsAttained | internal/diff/pipeline.go:366-381 | some common subsequence is exactly that long |
| LineDiff.CountsAreMinimal | internal/diff/pipeline.go:382-386 | over every script of kept, deleted and inserted lines turning before into after, added is at most its insertions and deleted at most its deletions |
| LineDiff.CountsAreAttained | internal/diff/pipeline.go:382-386 | one script attains both counts at once, so added + deleted is the least possible |
| LineDiff.CountsLaws | internal/diff/pipeline.go:382-386 | added - deleted is the difference in line counts, both are non-negative, they vanish together exactly on equal line lists, and swapping the sides swaps them |
| LineDiff.CountSnapshots | internal/diff/pipeline.go:357-387 | the whole function: NUL makes binary, bad UTF-8 unsupported, more than a million cells unknown, else the two counts, empty exactly on equal lines; the counts are non-negative and differ by the difference in line numbers |
| LineDiff.SnapshotCountsAreLeast | internal/diff/pipeline.go:357-387 | wherever the function gives counts, some script between the two texts attains both and no other does with less of either |
| LineDiff.SnapshotsSwap | internal/diff/pipeline.go:357-387 | comparing after with before gives the counts swapped and the same status, in every branch |
| LineDiff.SameLinesIff | internal/diff/pipeline.go:389-396 | two texts split into the same lines exactly when they are equal after CR LF becomes LF and one final newline goes |
| LineDiff.SplitLinesOfRender | internal/diff/pipeline.go:389-396 | writing plain lines with any mix of LF and CR LF endings and splitting them again gives the lines back exactly when they are not one single empty line, which is read back as no line |
| PatchCount.CountPatch | internal/diff/pipeline.go:325-353 | the scan of a unified patch, with its binary and hunk tests, returns the counts of the lines that start with plus or minus and are no file header |
| PatchCount.CountedSigns | internal/diff/pipeline.go:335-350 | by bytes: a line counts as added when it begins with 43 but not with three of them, and as deleted when so with 45 |
| PatchCount.PatchCountsScript | internal/diff/pipeline.go:325-353 | read off a printed patch of any hunks, files and header lines, the counts are the insertions and deletions of its edits less the hidden lines, and are right exactly when no inserted or deleted line looks like a file header |
| PatchCount.HiddenIff | internal/diff/pipeline.go:335-350 | no line is hidden exactly when no inserted line starts with two plus signs and no deleted line with two minus signs |
| WorkResults.Process | internal/diff/pipeline.go:214-271 | for any batch and any order in which the groups by root come up, a result is tried for each of the batch's requests once, as the answer for that request in that batch; published are those tries that go through, all of them without a cancellation, and never more |
| WorkResults.PublishImmediate | internal/diff/pipeline.go:216-226 | the first loop tries to publish, in batch order, exactly the requests that need no Git, and files every other one in the group of its root |
| WorkResults.ProcessGroup | internal/diff/pipeline.go:227-258 | one group asks Git once for its distinct paths and tries an answer to every request of the group from that one reply; what each answer is the two rows below say |
| WorkResults.EvidenceIsPublished | internal/diff/pipeline.go:287-323 | a request with evidence of its own gets, in this precedence, the binary mark, its own numbers cut at zero, the counts of its patch, or those of its snapshots, before against after; each count in the field of its name, with its origin, and no counts with any other status |
| WorkResults.GitIsPublished | internal/diff/pipeline.go:216-258 | a request without gets what Git says of its path when asked once for the different paths of its root: Git's added as added and deleted as deleted, the binary mark, or unknown for an error, a missing path, no root or no runner |
| WorkResults.GroupsCover | internal/diff/pipeline.go:214-259 | the immediate requests and the groups together are the batch, each request with its multiplicity |
| WorkResults.ResultsAreHonest | internal/diff/pipeline.go:287-323 | every result bears its request's key; both counts come with the statuses known and empty and neither with any other, and empty means exactly that both are zero |
| WorkPipeline.InvStep | internal/diff/pipeline.go:130-285 | each step of an offer, the worker, the reader or a cancellation keeps the whole invariant |
| WorkPipeline.EveryInterleaving | internal/diff/pipeline.go:130-285 | at every point of every interleaving each pending key has exactly one request in flight holding it, recent is exactly the duplicate-free order, at most maxRecent long and disjoint from pending, and results with one key are more than maxRecent apart |
| WorkPipeline.ResultsAreSpaced | internal/diff/pipeline.go:261-285 | two results with one key have at least maxRecent others between them |
| WorkPipeline.BatchPublishesOnce | internal/diff/pipeline.go:214-271 | a finished batch sent each request at most once, and exactly once if nothing was cancelled |
| WorkPipeline.AcceptedIsAccountedFor | internal/diff/pipeline.go:154-271 | the requests counted as accepted and those sent but not yet counted are those queued, with the worker, completed or given up to a cancellation; with an idle worker, an empty queue and no cancellation all were sent |
| WorkPipeline.EveryOfferIsCounted | internal/diff/pipeline.go:130-164 | at every point of a run the offers with a key begun so far are the duplicates, the dropped, the accepted, and those still on their way to one of these |
| WorkPipeline.GivesUpOnlyWhen | internal/diff/pipeline.go:147-171 | an offer is given up only while the queue is full or the pipeline cancelled, and a result only after a cancellation |
| WorkPipeline.CompletedWithinAcceptedIff | internal/diff/pipeline.go:160-271 | in a run the completed count never exceeds the accepted one exactly when every completion is recorded while fewer are completed than accepted |
| WorkPipeline.CompletedMayLead | internal/diff/pipeline.go:160-163 | a request can be completed before the offer that sent it counts it as accepted |
| WorkPipeline.Pipeline.OfferReserve | internal/diff/pipeline.go:136-145 | the first locked section: a key pending or recent counts as a duplicate, any other becomes pending |
| WorkPipeline.Pipeline.RememberLocked | internal/diff/pipeline.go:273-285 | the object's fields change as Remember says: a new key is appended, and the oldest leaves when the order exceeds maxRecent |
| WorkPipeline.Pipeline.Published | internal/diff/pipeline.go:264-268 | the locked section after a send releases the key, remembers it and counts it |
| SwapFiles.AtomicWriteLaw | internal/adapters/codex/install/files.go:33-78 | whichever of its file operations fails or is the last before a crash, what is seen at the path afterwards is the old content or the new one, nothing changes at other paths, and success means the new content; where no operation fails it succeeds and leaves no swap file |
| SwapFiles.RecoverSwapLaw | internal/adapters/codex/install/files.go:80-97 | recovery never changes what is seen at a path; when it succeeds no swap file is left, and without one it does nothing |
| SwapFiles.RemoveLaw | internal/adapters/codex/install/files.go:99-105 | removal takes the file away or fails without effect, and touches nothing else |
| InstallerManager.Manager.WriteAtomically | internal/adapters/codex/install/files.go:33-78 | the step-by-step write on the manager's disk is the function AtomicWrite that the law above is about |
| InstallerManager.Manager.Recover | internal/adapters/codex/install/files.go:80-97 | the step-by-step recovery is the function RecoverSwap |
| InstallerManager.Manager.EnsureBackupOf | internal/adapters/codex/install/installer.go:478-503 | the method is the function EnsureBackup: it accepts a matching backup and rewrites a missing one only while installing over the unchanged, unmanaged original |
| InstallerManager.Manager.RunInstall | internal/adapters/codex/install/installer.go:78-187 | the imperative installation, operation by operation, is the function Install the safety theorems are about |
| InstallerManager.Manager.RunUninstall | internal/adapters/codex/install/installer.go:189-285 | the imperative removal, operation by operation, is the function Uninstall |
| InstallerManager.Manager.ReportStatus | internal/adapters/codex/install/installer.go:287-347 | the status report is the function StatusOf |
| InstallerSafety.EnsureBackupSafe | internal/adapters/codex/install/installer.go:478-503 | keeps the invariant, writes nothing but the original into the backup, and without faults fails exactly in a stuck state |
| InstallerSafety.CommitSafe | internal/adapters/codex/install/installer.go:173-183 | binary, configuration and state written in this order keep the invariant at every crash point |
| InstallerSafety.TakeDownSafe | internal/adapters/codex/install/installer.go:259-280 | configuration, binary, backup and state taken down in this order keep the invariant at every crash point, and completing leaves just the configuration decided on |
| InstallerSafety.InstallSafe | internal/adapters/codex/install/installer.go:78-187 | an install crashing anywhere keeps the invariant; success means merged configuration, backup, binary and state all in place; a dry run changes nothing |
| InstallerSafety.UninstallSafe | internal/adapters/codex/install/installer.go:189-285 | an uninstall crashing anywhere keeps the invariant; success leaves nothing but the original or, where that cannot be given back exactly, the original with its hooks cleaned |
| InstallerSafety.EveryRunIsSafe | internal/adapters/codex/install/installer.go:78-285 | over any original without managed handlers and after any sequence of attempts, each crashing anywhere, hooks.json is seen as the original, its merge or its cleaned form, one other than the original has a state file, a merged one a backup equal to the original, and a binary or backup implies a state file; a cleaned form left by a finished uninstall is the original from then on |
| InstallerSafety.RerunCompletesIff | internal/adapters/codex/install/installer.go:78-285 | from every reachable state a rerun without faults reaches installed, or just the original or its cleaned form, if and only if the state is not a stuck one; in a stuck one it changes nothing that is seen |
| InstallerSafety.StuckIsReachable | internal/adapters/codex/install/installer.go:273-280 | from every finished installation over an existing file one crash between removing the backup and removing the state leads to the stuck state |
| InstallerSafety.FinalConfigLaw | internal/adapters/codex/install/installer.go:505-523 | with a record and its backup, what is left in hooks.json is the original if it can be given back exactly, or if it is still there and has no hooks key, and else the original with its hooks cleaned |
| InstallerSafety.NextSetupFacts | internal/adapters/codex/install/installer.go:189-285 | what an uninstall leaves can be given back exactly from then on and has the same merge, and it is the original exactly when that could be given back |
| InstallerSafety.DesiredIsMerged | internal/adapters/codex/install/installer.go:102-112 | whatever safe state is found, the document to be written is the merge of the original |
| InstallerRestore.FirstInstallIff | internal/adapters/codex/install/installer.go:78-187 | a first install over an existing, mergeable file succeeds exactly when the file holds no managed handler; otherwise it fails and leaves a state file behind |
| InstallerRestore.ManagedOriginalNeverInstalls | internal/adapters/codex/install/installer.go:478-503 | the state file so left makes every later install and uninstall fail without effect |
| InstallerRestore.UninstallFinishes | internal/adapters/codex/install/installer.go:189-285 | a recorded installation with a good backup comes off whatever decodable document hooks.json has become |
| InstallerRestore.EditsSurviveUninstall | internal/adapters/codex/install/installer.go:247-269 | edits made after installing survive: hooks.json becomes just what is left without managed handlers, unless that is the original document again, empty, or, where there was no file, a document `onlyEmptyHooks` accepts: one key, which if it is the hooks key holds nothing |
| InstallerRestore.RoundTripIff | internal/adapters/codex/install/installer.go:78-285 | install then uninstall over an existing unmanaged file gives the same bytes back exactly when its document has a hooks object without empty event lists |
| InstallerRestore.StatusIsExact | internal/adapters/codex/install/installer.go:287-347 | in a safe state without interrupted writes the status is installed exactly when all four files are in place, not-installed exactly when only the original is there, and invalid exactly when a needed backup is missing |
| InstallerRestore.StatusReads | internal/adapters/codex/install/installer.go:287-347 | over any files, an interrupted write makes the status partial, and otherwise an unreadable configuration or state makes it fail |
| InstallerRestore.InstallAgainChangesNothing | internal/adapters/codex/install/installer.go:78-187 | installing the same binary over a finished installation touches no file |
| InstallerRestore.DryInstallForetells | internal/adapters/codex/install/installer.go:78-150 | in a safe state without interrupted writes a dry install fails exactly when a needed backup is missing, reports installed exactly when all is in place, and else planned |
| InstallerRestore.DryUninstallForetells | internal/adapters/codex/install/installer.go:189-258 | a dry uninstall reports not-installed exactly without a record, fails exactly when a needed backup is missing, and else reports planned |
| InstallerRestore.DryRunNeedsQuiet | internal/adapters/codex/install/installer.go:84-200 | a dry run of either fails while a swap file is left |
| HookConfig.FilterHandlers | internal/adapters/codex/install/config.go:218-232 | filtering into the front of the same array keeps exactly the unmanaged handlers in order, although kept entries overwrite read ones |
| HookConfig.FilterGroups | internal/adapters/codex/install/config.go:189-207 | the in-place filter over groups drops exactly those emptied by it and counts the managed handlers |
| HookConfig.StripManagedHooks | internal/adapters/codex/install/config.go:209-249 | a group loses its managed handlers, is dropped when none is left, and is returned untouched when it had none |
| HookConfig.RemoveManagedHooks | internal/adapters/codex/install/config.go:189-207 | for any order in which the map yields its events the result holds each event's kept groups, without events left empty, and the count is the total of managed handlers |
| HookConfig.ManagedHookLayout | internal/adapters/codex/install/config.go:129-152 | the count is the number of managed handlers in the table, zero exactly when nothing is managed, and the layout is complete exactly when each of the listed events has one managed handler and nothing else has any |
| HookConfig.MergeHooks | internal/adapters/codex/install/config.go:42-79 | the merge procedure is the function Merge, with the same errors, and reports how many managed handlers it replaced; what the merged document makes the hooks run is in the rows of `HookCommand` |
| HookConfig.RemoveHooks | internal/adapters/codex/install/config.go:81-113 | the removal procedure is the function Remove, and reports how many managed handlers it took out, zero exactly when nothing was managed |
| HookConfig.MergeIdempotent | internal/adapters/codex/install/config.go:42-79 | merging into a merged document is merging into the original, even when the first merge named another binary |
| HookConfig.MergeIsComplete | internal/adapters/codex/install/config.go:42-79 | after a merge each of the six events has exactly one managed handler and no other event has one |
| HookConfig.RemoveIsClean | internal/adapters/codex/install/config.go:81-113 | after a removal no managed handler is left |
| HookConfig.RemoveAfterMerge | internal/adapters/codex/install/config.go:42-113 | removing after a merge equals removing from the original, with an empty hooks object where there was no hooks key |
| HookConfig.UnmanagedSurviveMerge | internal/adapters/codex/install/config.go:42-79 | for every event the unmanaged handlers keep content and order, and every other root key its value |
| HookConfig.UnmanagedSurviveRemove | internal/adapters/codex/install/config.go:81-113 | removal leaves for every event exactly its unmanaged handlers, in order, and every other root key |
| HookConfig.MergeRemoveRestoresIff | internal/adapters/codex/install/config.go:42-113 | merge then remove restores the document exactly when it has a hooks object whose event lists are all non-empty and hold nothing managed |
| HookConfig.OnlyEmptyHooksIff | internal/adapters/codex/install/config.go:115-122 | the test holds for one-key documents whose hooks are empty, and, beyond its name, for any one-key document without a hooks key |
| HookConfig.CompleteLayoutByCount | internal/adapters/codex/install/config.go:129-152 | counting per event and in total decides completeness as well as looking at every handler |
| HookCommand.CommandRunsBinary | internal/adapters/codex/install/config.go:264-273 | a reader of POSIX words, quoted or plain, takes the command apart into just three: the binary's path, whatever quotes it holds, the option and the install ID |
| HookCommand.MergedHandlersRunBinary | internal/adapters/codex/install/config.go:42-79 | in a merged document every managed handler is of type command, runs the binary named with the option and the install ID, has the Windows command with the quoted path, the timeout 1 and the label; each of the six events, by name, has just one such handler, alone in the last group |
| HookCommand.ManagedIff | internal/adapters/codex/install/config.go:218-232 | a handler is the installer's exactly when its status message is the label and the install ID stands somewhere in its command |
| HookCommand.MergeErrsIff | internal/adapters/codex/install/config.go:42-79 | a merge of a decoded document fails exactly when its hooks are no object of lists, or the path holds NUL, a line break or a double quote |
| SessionEngine.Engine.Apply | internal/session/engine.go:65-138 | the method changes the session map as EngineApply says and returns that state or error; the run theorems below are about that function |
| SessionEngine.SecondaryPathsLaw | internal/session/engine.go:277-310 | the secondary paths shown are the listed strings that are not empty, each once, sorted, whatever kind of list the metadata holds |
| SessionEngine.Engine.Close | internal/session/engine.go:206-220 | closing ends the open last interval at the given time clamped between its start and the idle limit |
| SessionEngine.Engine.Pause | internal/session/engine.go:140-150 | closes and pauses exactly the named session, or errs and changes nothing |
| SessionEngine.Engine.Advance | internal/session/engine.go:162-172 | closes the open interval at start plus idle timeout once that long has passed |
| SessionEngine.Engine.SetWorkResult | internal/session/engine.go:174-194 | writes the result onto the first interval with the sequence, or errs and changes nothing |
| SessionEngine.EveryRunIsWellFormed | internal/session/engine.go:65-194 | after any sequence of calls with any clocks: sequences are 1 to n, only the last interval may be open, closed ones last end minus start between zero and the idle timeout, starts never decrease, and the active path is the last interval's, empty exactly without intervals |
| SessionFocus.FocusIsWithTheStrongest | internal/session/engine.go:65-136 | after any calls, the session's time and priority are those of the latest claim it heard while neither paused nor stopped, and among those of one moment of the strongest, however they were delivered; the focus is on that claim's path unless a rename or move was heard |
| SessionFocus.FocusIsUnbeaten | internal/session/engine.go:222-248 | told by types and confidences, without the code's numbers: exact beats correlated beats observed beats inferred; at one confidence created beats patched and modified, then renamed and moved, deleted, focused, read; the session is at the moment of a claim that no claim heard beats and, without moves, its focus is on that claim's path |
| SessionFocus.TwoClaims | internal/session/engine.go:82-136 | of two claims of one moment, neither a move, the focus is on the path of the one that outranks the other in both orders of delivery, and else on that of the later delivered |
| SessionFocus.OthersLeaveTheFocus | internal/session/engine.go:105-108 | events of any other type, or without a path, leave the focus where it is |
| SessionFocus.FocusIgnoresDeliveryOrder | internal/session/engine.go:65-136 | two runs that hear the same claims end with the same time and priority, and without renames and moves in the same focus unless two equally late and strong claims name different paths |
| SessionFocus.RenamesShowDeliveryOrder | internal/session/engine.go:93-108 | a weaker rename of the same moment takes the focus along when it comes after the claim whose path it renames, and loses to that claim when it comes first |
| SessionFocus.OrderHiddenIff | internal/session/engine.go:82-136 | all orders of delivering some claims, each once, end with one active path exactly when the claims none beats name one path and no rename or move of their moment leads away from it |
| SessionFocus.AcceptedIsShown | internal/session/engine.go:112-136 | the session shows path, operation, source, confidence, time and secondary paths of the claim it accepts |
| SessionFocus.AcceptedOpens | internal/session/engine.go:112-136 | a claim of another path, or of the active one without an open interval, appends an interval with the claim's data, and a former path is the previous one |
| SessionFocus.AcceptedContinues | internal/session/engine.go:112-122 | a claim of the active path goes into its open interval and leaves all others alone: its operation once, and each count it has |
| SessionFocus.ClosesAt | internal/session/engine.go:206-220 | closing ends the open interval at the time given, but not before its start nor more than the idle timeout after it, and changes nothing else |
| SessionFocus.WorkIsRecorded | internal/session/engine.go:174-194 | a work result goes onto the first interval with its number, added as added and deleted as deleted, and leaves all else alone |
| SessionFocus.ApplyConcernsOne | internal/session/engine.go:65-81 | an event changes at most the session it names; it errs exactly without a session ID or for an unknown session it does not start |
| SessionGeometry.LiveRunsNeverOverlap | internal/session/engine.go:65-138 | in runs of events and work results in any delivery order intervals never overlap, so their total time is at most the last end minus the session's start |
| SessionGeometry.OverlapIff | internal/session/engine.go:112-136 | one event leaves the intervals disjoint exactly when they were and it opens none before the recorded end of the last |
| SessionGeometry.RunOverlapsIff | internal/session/engine.go:65-204 | after any sequence of calls the intervals overlap exactly when some event applied on the way opened one before the recorded end of the last |
| SessionGeometry.PauseAheadOverlaps | internal/session/engine.go:140-150 | pausing ahead of a later event of another path makes two intervals overlap |
| SessionGeometry.AdvanceAheadOverlaps | internal/session/engine.go:164-177 | a tick that closed the open interval an idle timeout after its start, followed by an event of another path dated before that end, makes two intervals overlap |
| SessionGeometry.OverlapsHappen | internal/session/engine.go:112-177 | two runs from a session's start, one with a pause and one with a tick ahead of the second read, that end in overlapping intervals |
| SessionGeometry.StopsAdvanceIff | internal/session/engine.go:84-92 | along a run the recorded stop never goes back exactly when no accepted stop carries an earlier time than one accepted before it |
| SessionGeometry.StopMovesBack | internal/session/engine.go:84-92 | a session started at 1 and stopped at 10 and then at 5 records the stop 10 and then 5 |
| SessionGeometry.DurationsFit | internal/session/engine.go:206-220 | disjoint closed intervals add up to no more than the time from the session's start to the last end |
| SessionGeometry.StoredSession.CloseStaleInterval | internal/store/store.go:329-348 | the method on the stored state is the function CloseStale, and returns the end it settled on |
| SessionGeometry.StoredSession.RecoverActive | internal/store/store.go:304-306 | one recovery: close, stop at the returned time, and clear the pause |
| SessionGeometry.RecoveryIsAStop | internal/store/store.go:304-348 | recovering at t leaves the intervals a stop applied at t would have left; only the recorded stop differs, being the last interval's end |
| SessionGeometry.RecoveryKeeps | internal/store/store.go:304-348 | recovery keeps every interval well formed, closes the open one and adds at most one idle timeout |
| Replay.ReplayLessOrders | internal/replay/replay.go:77-96 | the comparator is a strict total order on events with distinct IDs, monotonic zero last |
| Replay.StoreOrderIsReplayOrder | internal/store/store.go:350-379 | the store's comparator and the replay's agree on every pair |
| Replay.StoreOrderIsCanonical | apps/desktop/app.go:558-572 | rows in store order with distinct IDs are already canonical, so timeline index and replay cursor name the same event |
| Replay.CanonicalEvents | internal/replay/replay.go:66-98 | for any order in which the map yields its events the result is the canonical form |
| Replay.CanonicalIsTheSortedForm | internal/replay/replay.go:66-98 | the canonical form holds the first event of each ID once, strictly sorted, and is the only such sequence |
| Replay.CanonicalIgnoresOrder | internal/replay/replay.go:66-98 | permuting or repeating the input changes nothing when equal IDs mean equal events |
| Replay.ReconstructEvents | internal/replay/replay.go:26-64 | the procedure over a fresh engine is the function Reconstruct, errors included |
| Replay.ReplayThrough | internal/replay/replay.go:39-56 | the loop stops at the first error, keeps the latest timestamp, and the returned state is the engine's |
| Replay.DiffIsRecorded | internal/replay/replay.go:111-125 | a diff event's counts go onto the first interval with its number, added as added and deleted as deleted, with unknown for an empty status or origin |
| Replay.ReconstructIgnoresOrder | internal/replay/replay.go:26-64 | the snapshot at every cursor depends on the set of events alone |
| Replay.SnapshotIsClosed | internal/replay/replay.go:57-63 | with events of any number of sessions, all later than the zero time, every interval of the session a successful snapshot shows is closed, numbered, within the idle timeout, and disjoint from the others |
| Replay.SnapshotIsClosedIff | internal/replay/replay.go:41-63 | whatever the timestamps, the intervals shown are all closed exactly when some applied event is later than the zero time or none was open; they are sound and disjoint in any case |
| Replay.EarlyEventsStayOpen | internal/replay/replay.go:41-63 | a session started and a file read before the zero time: the snapshot at the read shows its interval open |
| Replay.CursorsExtend | internal/replay/replay.go:33-63 | where a later cursor has a snapshot so has an earlier one; if the events at the two cursors are of one session, whatever sessions the others are of, the later snapshot's intervals extend the earlier one's, all but the last of which are unchanged |
| Replay.ShowsEventsSession | internal/replay/replay.go:43-63 | a successful snapshot shows the session of the event at the cursor |
| Replay.SnapshotTellsItsPlace | internal/replay/replay.go:33-63 | a snapshot tells the number of events, the cursor cut to them and the latest time applied; a session not stopped is paused in it |
| Replay.ReplayIsTheRun | internal/replay/replay.go:41-56 | replaying events of one session gives the state the engine reaches when it hears them one after the other, so the laws about runs hold of snapshots |
| Replay.OpOfMeans | internal/replay/replay.go:47-51 | which call an event is to the engine: a diff event with a number is a work result with its counts, each in its place, and any other event is applied |
| Replay.BadEventsAreRefused | internal/replay/replay.go:26-56 | events of which one is not valid, or that do not begin with a session's start, give an error |
| EvidenceGate.SameKeyIff | adapter/go/wrapper/evidence.go:181-227 | with NUL-free fields two events share a key exactly when session, event family and both canonical paths agree |
| EvidenceGate.FamilyIff | adapter/go/wrapper/evidence.go:194-216 | two types share a family exactly when they are one of the nine of files and directories named, or modified and patched, or renamed and moved |
| EvidenceGate.WhatWaits | adapter/go/wrapper/evidence.go:181-231 | an event has a key exactly when its type is in a family and it has a path; only those of the file system and Git are fallbacks |
| EvidenceSafety.PruningIsInvisible | adapter/go/wrapper/evidence.go:95-122 | deciding on the table pruned at twice the window is deciding on the full history of strong events |
| EvidenceSafety.FallbackGivesWay | adapter/go/wrapper/evidence.go:88-138 | an emitted fallback has had no strong event with its key from a window before its arrival until its emission, and is emitted by the final drain or by a tick after its window is over |
| EvidenceSafety.StrongPassInOrder | adapter/go/wrapper/evidence.go:88-110 | every processed strong event is emitted once, in order of arrival, and so is every event without a key |
| EvidenceSafety.NeverOverCapacity | adapter/go/wrapper/evidence.go:99-105 | the pending table never exceeds its capacity |
| EvidenceSafety.OneFateEach | adapter/go/wrapper/evidence.go:88-157 | every keyed fallback has exactly one fate, waiting exactly when an entry holds it and emitted exactly when one record names it; no event is emitted twice |
| EvidenceSafety.FatesMean | adapter/go/wrapper/evidence.go:88-157 | told from the inputs: a fallback is suppressed exactly when the full history suppresses it on arrival, refused for lack of room exactly when it is not suppressed and meets a full table without its key, superseded or emitted exactly when it was accepted and the first later input to concern it is a strong event or accepted fallback with its key, or a drain or late enough tick, and waits exactly when there was none |
| EvidenceSafety.EmittedAtFirstRelease | adapter/go/wrapper/evidence.go:124-157 | an emitted fallback was accepted, and the input that emitted it is the first that could, with nothing before it that replaces it |
| EvidenceFront.StrongIsNeverLost | adapter/go/wrapper/evidence.go:56-81 | in every run of offers, the worker, its timer and the drain, each strong event offered is queued, has arrived at the gate, or was handed on beside it, each time once |
| EvidenceFront.ToldTwiceIff | adapter/go/wrapper/evidence.go:56-138 | a fallback is handed on although a strong event with its key was, through the gate or beside it, from a window before its arrival on, exactly when it was accepted, the first later input to concern it let it go, and a strong event with its key had gone beside the gate by then |
| EvidenceFront.ToldOnce | adapter/go/wrapper/evidence.go:56-138 | as long as no offer has met a full queue, no change is told of twice |
| EvidenceFront.OverflowTellsTwice | adapter/go/wrapper/evidence.go:56-138 | a run in which this happens: the strong event meets a full queue while the fallback waits |
| EvidenceWorker.SortStrings | adapter/go/wrapper/evidence.go:233-241 | insertion by adjacent swaps sorts the array and keeps its elements |
| EvidenceWorker.Worker.Process | adapter/go/wrapper/evidence.go:88-111 | the goroutine's handling of one event on its maps is the gate's step for an arrival |
| EvidenceWorker.Worker.FlushEvidence | adapter/go/wrapper/evidence.go:140-157 | flushing collects the due keys in sorted order, emits them and clears their entries, as the gate's step says |
| EvidenceWorker.Worker.TickAt | adapter/go/wrapper/evidence.go:116-122 | a tick flushes what is due and then prunes, for any order of the map |
| IngestQueue.QueueObject.OfferEvent | internal/ingest/queue.go:25-61 | the object's offer is the function Offer, and it returns false exactly for a refusal |
| IngestQueue.OfferLaw | internal/ingest/queue.go:25-89 | told by types and places: a read or focus takes the place of the last queued one of its type, session and path; else an event is appended where there is room; else one of the eleven types kept makes the first event of no such type give way; else it is dropped; with the counters each time |
| IngestQueue.QueueObject.PopEvent | internal/ingest/queue.go:63-74 | a pop takes the oldest entry, or none |
| IngestQueue.EveryRun | internal/ingest/queue.go:25-74 | in every run the popped and the queued high-value events are the accepted ones in order, accepted = popped + queued + displaced, dropped = refused + displaced, the length never exceeds capacity, and no two queued reads share type, path and session |
| IngestQueue.HighRefusedIff | internal/ingest/queue.go:40-61 | a high-value offer is refused exactly when the queue is full of high-value events |
| IngestCollector.InvStep | internal/ingest/collector.go:27-67 | each step of submitters, the worker, its context and the stop keeps the bookkeeping invariant |
| IngestCollector.StopDrains | internal/ingest/collector.go:37-67 | when Stop has returned, everything accepted before it was handled once, coalesced away or displaced, unless the worker had left on a cancelled context and the event came after its last drain; such an event is never handled |
| IngestCollector.StopDrainsIff | internal/ingest/collector.go:37-67 | at the step with which Stop returns, everything accepted before it has left the queue exactly when the worker did not leave on a cancelled context with events accepted after its last drain |
| IngestCollector.LateEventIsStranded | internal/ingest/collector.go:27-49 | cancel, last drain, submit, stop: the event is accepted, Stop returns at once, and however the run goes on the event is never handled |
| IngestDedupe.SameKeyIff | internal/ingest/dedupe.go:23-26 | two events share a key exactly when they share an ID, or have none and agree in type, session, path and correlation |
| IngestDedupe.Deduper.Duplicate | internal/ingest/dedupe.go:20-37 | the method changes the table as Check says, pruning included, and gives its answer |
| IngestDedupe.DuplicateIffInHistory | internal/ingest/dedupe.go:25-37 | with a clock that never runs back the answer is duplicate exactly when an earlier accepted event with the key lies within the window |
| IngestDedupe.AcceptedAreApart | internal/ingest/dedupe.go:25-37 | accepted events with one key are more than a window apart in every run |
| StreamTap.Tap.Offer | adapter/go/wrapper/stream.go:54-72 | what was written is cut into chunks of at most 32 KiB of the given stream, numbered on from the last, whose bytes are the written ones |
| StreamTap.Run | adapter/go/wrapper/stream.go:74-94 | the parser gets the delivered chunks with their gap flags and then the two end markers |
| StreamTap.UnflaggedIffComplete | adapter/go/wrapper/stream.go:81-93 | for any chunking, drops and interleaving of writers nothing is flagged exactly when the parser got chunks 1 to N in order |
| StreamTap.FlagIffDropped | adapter/go/wrapper/stream.go:81-89 | with one writer a chunk is flagged exactly when some chunk since the one delivered before it was dropped |
| StreamTap.EndFlagIffDropped | adapter/go/wrapper/stream.go:90-93 | the end marker is flagged exactly when some chunk after the last delivered one was dropped |
| StreamTap.UnflaggedMeansEveryByte | adapter/go/wrapper/stream.go:54-94 | when nothing is flagged the delivered data are the written bytes |
| ActivityTree.AggregateDirectories | internal/activity/history.go:144-176 | sorts by depth and hands each committed node's activity to its parent; on a tree whose directories start empty every node ends with its totals, which the next row spells out |
| ActivityTree.DirectoriesAreTotalled | internal/activity/history.go:144-176 | on a tree with all parents, positive commit times and empty directories, in whatever order nodes of one depth are passed, the accesses, the time, the added and the deleted lines of every node end as its own plus the integer sums of each over all committed files below it; its commit is that of one with the latest time, and of the tools and sessions it has all, or six; every file keeps what it had |
| ActivityTree.MergeToolsLaw | internal/activity/history.go:189-205 | merging two lists, even capped ones, gives different trimmed names out of all those the lists stand for: all of them, or six |
| ActivityTree.MergeToolsOrder | internal/activity/history.go:189-205 | the names of the first list come first, each where it is first given, and the first six stay |
| ActivityTree.MergeCarries | internal/activity/history.go:165-174 | handing a node's activity to its parent adds exactly what has reached the node to what has reached the parent |
| ActivityTree.NextInOrder | internal/activity/history.go:149-152 | in depth order no node is passed after its parent, except where the parent is the root |
| Identity.IdentityRegistry.Assign | internal/graph/identity.go:26-41 | a scan is the run of its single assignments; each node comes back as scanned but for the ID the registry now holds under its key |
| Identity.IdentityRegistry.Rename | internal/graph/identity.go:42-57 | the node moves with its ID to the new key, overwriting what was there, and its former path becomes an alias; an unknown path changes nothing |
| Identity.IdentityRegistry.Delete | internal/graph/identity.go:58-69 | the node stays as a tombstone |
| Identity.IdentityRegistry.Tombstones | internal/graph/identity.go:82-93 | all tombstones and nothing else, each once under distinct IDs, sorted by path |
| Identity.DistinctThroughoutIff | internal/graph/identity.go:26-57 | under an injective hash the IDs stay distinct at every point of a run exactly when no free key is assigned while the node born there lives on under another key |
| Identity.NoReuseKeepsDistinct | internal/graph/identity.go:26-57 | so they stay distinct in every run in which no key once renamed away is assigned again |
| Identity.ReusedPathClashes | internal/graph/identity.go:32-55 | renaming a path away and creating it anew gives two nodes one ID, whatever the hash |
| Identity.ScanLaw | internal/graph/identity.go:26-41 | a scan keeps every known ID and every node it does not list |
| Identity.ScanKeepsDistinctIff | internal/graph/identity.go:26-41 | under an injective hash a scan leaves distinct IDs distinct exactly when it lists no free key whose ID a known node holds |
| Identity.WithTombstones | apps/desktop/app.go:648-662 | the scanned nodes followed by the tombstones at paths not scanned, in the order given; unique IDs stay unique |
| Identity.RefreshNodes | apps/desktop/app.go:717 | the scanned nodes under their registered IDs, then the tombstones at other paths; all IDs are unique if they are distinct in the registry after the scan, keys are listed once and no tombstone is scanned, and from distinct IDs before the scan the registry's are distinct after it exactly when no ID is taken anew |
| GraphPatch.Layout | internal/graph/layout.go:27-51 | the loops give the nodes in path order and one edge for each non-root node whose parent path is known, in that order |
| GraphPatch.LayoutPlaces | internal/graph/layout.go:27-40 | the nodes stand in path order, the root at the origin and any other where the placing puts it among the sorted nodes |
| GraphPatch.LayoutEdgesAreInside | internal/graph/layout.go:41-50 | every edge joins two nodes of the snapshot |
| GraphPatch.EdgesAreParenthood | internal/graph/layout.go:41-50 | under unique paths and IDs there is an edge from a to b exactly when b is no root and a's path is b's parent path |
| GraphPatch.LayoutIgnoresOrder | internal/graph/layout.go:27-51 | the order of the scanned nodes does not show in the snapshot |
| GraphPatch.Diff | internal/graph/layout.go:142-169 | for any order in which the maps are walked the patch holds, sorted by ID, exactly the new nodes, the nodes changed in path, kind, position or activity, and the IDs gone |
| GraphPatch.DiffIsUnique | internal/graph/layout.go:152-168 | two patches between the same snapshots are equal |
| GraphClient.ApplyGraphPatch | apps/desktop/frontend/src/graph/patch.ts:3-20 | a patch no newer than the snapshot changes nothing; any other removes, adds and replaces by ID, takes over the revision, lists each node once, sorted where the collation orders them, and keeps the edges between present nodes |
| GraphClient.PatchLandsIff | internal/graph/layout.go:142-169 | on any client a patch yields the backend's nodes exactly when the client already agreed with them on every ID the patch leaves alone |
| GraphClient.ClientStaysInStep | apps/desktop/frontend/src/graph/patch.ts:3-20 | a client that starts from the first snapshot and gets the patches in order, with earlier ones interleaved again anywhere, always holds nodes by ID, edges and revision of the newest snapshot heard of |
| GraphClient.SkippedPatchMayLinger | apps/desktop/frontend/src/graph/patch.ts:7-12 | after a skipped patch the next one may leave a node the backend has dropped |
| GraphClient.Backend.RefreshProject | apps/desktop/app.go:703-725 | each refresh lays out the scanned nodes under their IDs and the unlisted tombstones, raises the revision by one, keeps edges inside, and returns the patch between the two snapshots |
| LodChoice.SpaceEvenly | apps/desktop/frontend/src/rendering/lod.ts:137-145 | the index formula picks the items EvenlySpaced names, always in range |
| LodChoice.SpacedIncreases | apps/desktop/frontend/src/rendering/lod.ts:141-144 | floor(i * (n - 1) / (c - 1)) is strictly increasing for 2 <= c <= n |
| LodChoice.SpacedEnds | apps/desktop/frontend/src/rendering/lod.ts:141-144 | the first and the last item are picked |
| LodChoice.GapsAreEven | apps/desktop/frontend/src/rendering/lod.ts:141-144 | neighbouring picks lie floor((n - 1) / (c - 1)) apart or one more |
| LodChoice.EvenlySpacedLaw | apps/desktop/frontend/src/rendering/lod.ts:137-145 | exactly min(count, n) different items of the list are picked |
| LodChoice.FilledLaw | apps/desktop/frontend/src/rendering/lod.ts:69-76 | filling the free slots from the rest leaves exactly limit items and drops none chosen before |
| LodChoice.AddAllLaw | apps/desktop/frontend/src/rendering/lod.ts:47-59 | items are taken from the front of the line as long as there is room, and never more than the limit |
| LodChoice.AddNewestLaw | apps/desktop/frontend/src/rendering/lod.ts:61-67 | the newest items are taken until the target is reached |
| RenderLod.ActivityLaw | apps/desktop/frontend/src/rendering/lod.ts:35-77 | for distinct sequences the selection has exactly min(n, limit) accesses of the trail in order, holds the selected one, the newest ones, and, when active accesses + 4 fit, every active one and a longest, a most-added and a most-deleted one |
| RenderLod.ActivityInPlainTerms | apps/desktop/frontend/src/rendering/lod.ts:35-77 | in terms of the accesses' own fields: the selected one is shown, and where there is room all that have not ended, one that lasted longest, one that added and one that deleted most lines |
| RenderLod.SelectActivityAccesses | apps/desktop/frontend/src/rendering/lod.ts:35-77 | the procedure, with its map and closures, shows the whole trail sorted, or what was chosen, each sequence once and sorted, never over the limit, and counts what it left out; for different sequences that is the selection of the law above |
| RenderLod.ActivityIgnoresOrder | apps/desktop/frontend/src/rendering/lod.ts:40-42 | the order of the trail does not show |
| RenderLod.PointsLaw | apps/desktop/frontend/src/rendering/lod.ts:79-123 | for distinct points exactly min(n, limit) in order, one covering the selected sequence if any does, every active one when they fit, and the newest ones |
| RenderLod.PointsInPlainTerms | apps/desktop/frontend/src/rendering/lod.ts:79-123 | one point that holds the selected sequence is shown if any does, and all active ones where there is room |
| RenderLod.SelectAccessPointsForRender | apps/desktop/frontend/src/rendering/lod.ts:79-123 | the procedure shows all points, or what was chosen, each key once, by latest access and never over the limit; for distinct points that is the selection of the law above |
| RenderLod.BuiltPointsAreDistinct | apps/desktop/frontend/src/activity/accessPoints.ts:115-171 | the points built from a trail have distinct keys and distinct latest accesses, which the selection relies on |
| RenderLod.FindMaximum | apps/desktop/frontend/src/rendering/lod.ts:125-135 | the reduce returns none for no accesses and else the first of those with the greatest value |
| RenderLod.NormalizeLimit | apps/desktop/frontend/src/rendering/lod.ts:147-149 | the limit is the whole part of a finite number at least one, and one otherwise |
| AccessPoints.AccessAnchorOrdinals | apps/desktop/frontend/src/activity/accessPoints.ts:26-38 | the counter loop gives each access its number among those of its node |
| AccessPoints.OrdinalIsRank | apps/desktop/frontend/src/activity/accessPoints.ts:26-38 | an access's ordinal is the number of earlier accesses of its node |
| AccessPoints.AppendingKeepsOrdinals | apps/desktop/frontend/src/activity/accessPoints.ts:26-38 | appending later accesses never changes an ordinal |
| AccessPoints.OrdinalsDiffer | apps/desktop/frontend/src/activity/accessPoints.ts:26-38 | the ordinals of a node's accesses increase with their sequences |
| AccessPoints.PointsOfNode | apps/desktop/frontend/src/activity/accessPoints.ts:130-169 | one node's loops produce its individual points, or buckets and then sixteen individual ones |
| AccessPoints.NodePointsLaw | apps/desktop/frontend/src/activity/accessPoints.ts:132-168 | a node's points split its accesses in order into at most twenty-four points; over twenty-four accesses the last sixteen are single and the rest at most eight buckets numbered from zero, all but the last of exactly ceil(older / 8) accesses and the last of at most that many |
| AccessPoints.BuildAccessPoints | apps/desktop/frontend/src/activity/accessPoints.ts:115-171 | the procedure gives the points of the known nodes in order of their first access |
| AccessPoints.EveryAccessIsCovered | apps/desktop/frontend/src/activity/accessPoints.ts:115-171 | the points of each known node cover its accesses once each and in order; no other node has points |
| RenameMatch.CorrelateRenames | internal/adapters/filesystem/observer.go:378-424 | for any order in which Git's renames are walked, pairs and used-up paths are those of the function Correlated, sorted by old path |
| RenameMatch.CorrelatedIsMatching | internal/adapters/filesystem/observer.go:378-424 | for distinct paths no path is in two pairs, what is consumed is exactly their paths, and each pair is one of Git's or joins a vanished non-directory to a create with its fingerprint |
| RenameMatch.FingerprintStepIff | internal/adapters/filesystem/observer.go:402-421 | at its turn a vanished path is paired with a create exactly when it is free, no directory, and that is the only unconsumed create with its fingerprint |
| RenameMatch.OrderDoesNotShowIff | internal/adapters/filesystem/observer.go:394-401 | all orders of walking Git's renames give the same sorted pairs and used-up paths exactly when no two different renames with both ends in the batch share a path |
| RenameMatch.ChainsDependOnOrder | internal/adapters/filesystem/observer.go:394-401 | with renames a to b and b to c the pair found depends on which is walked first |
| RenameMatch.SharedTargetsDependOnOrder | internal/adapters/filesystem/observer.go:394-401 | so it does with renames a to c and b to c |
| RenameMatch.PairsHaveTwoEnds | internal/adapters/filesystem/observer.go:394-421 | unless Git names a path its own origin the ends of a pair differ |
| FileObserver.ReleasedIff | internal/adapters/filesystem/observer.go:305-334 | a path leaves the pending table exactly when it is due, or all are asked for, and fewer than limit such paths sort before it |
| Common.StringLessIff | internal/adapters/filesystem/observer.go:322-326 | the order of strings the sorts rely on: the first difference decides, and a proper prefix comes first |
| FileObserver.TornIff | internal/adapters/filesystem/observer.go:305-338 | a batch releases some of the changes that may be parts of a rename and keeps others exactly when they are due and the cut at the limit falls between two of them |
| FileObserver.FullBatchTears | internal/adapters/filesystem/observer.go:305-334 | a full batch can release one end of a rename and leave the other |
| FileObserver.FinalFlushEmptiesIff | internal/adapters/filesystem/observer.go:305-334 | the final flush leaves nothing pending exactly when all of it fits into one batch |
| FileObserver.SplitConserves | internal/adapters/filesystem/observer.go:305-334 | releasing a batch loses no counted notification and releases each path once |
| FileObserver.BatchSpeaks | internal/adapters/filesystem/observer.go:352-370 | each change of a batch is spoken for by at most one event, by one exactly when it was paired or amounts to something, and the events are numbered on without gaps |
| FileObserver.BatchTells | internal/adapters/filesystem/observer.go:352-371 | first one event for each pair, in order, with the new path, the old as previous path, and directory-renamed, moved or renamed by the vanished one's flag and the enclosing directories; then, in the order of the batch and without previous path, one for each other change there is news of, its kind told from presence before and after, the directory flag and the operations |
| FileObserverRun.Observer.AcceptChange | internal/adapters/filesystem/observer.go:236-282 | a notification joins its path's pending change, starts one, or counts as dropped when the table is full; the known state follows the file either way; noted = pending + dropped + told stays true |
| FileObserverRun.JoinedMeans | internal/adapters/filesystem/observer.go:269-282 | a pending change keeps its first state and time and takes over the last; a new one begins with the state that was known |
| FileObserverRun.StatesMean | internal/adapters/filesystem/observer.go:252-267 | for every path: one that is there is known as seen, one gone is forgotten, with all below it if it was a directory, a new directory brings its tree, and all others stay |
| FileObserverRun.Observer.ReadyChanges | internal/adapters/filesystem/observer.go:305-334 | splits pending into the first limit of the due changes in path order and all others |
| FileObserverRun.DueMeans | internal/adapters/filesystem/observer.go:305-338 | a possible part of a rename is due when both times have gone by since the last such change, any other once its path has been quiet |
| FileObserverRun.Observer.EventsForBatch | internal/adapters/filesystem/observer.go:340-371 | renames first, then the other changes, numbered on from the counter; each event tells of its pair or change what the row above says; pairs and used-up paths form a matching on the batch |
| FileObserverRun.Observer.Flush | internal/adapters/filesystem/observer.go:132-143 | one flush: the split, the events of the batch, telling of it what is said above, and one event for what was dropped, numbered on without gaps across flushes |
| GitStatus.ParseStatus | internal/adapters/filesystem/git.go:88-106 | the indexed walk fills the maps with the entries Recognised names |
| GitStatus.RoundTripIff | internal/adapters/filesystem/git.go:88-106 | reading back printed entries gives exactly those entries if and only if no copied entry's origin passes for an entry |
| GitStatus.EntryBytes | internal/adapters/filesystem/git.go:88-106 | the entries printed, byte by byte: two letters, a space, the path and NUL, and for R or C on either side the origin and NUL |
| GitStatus.StatusRoundTrip | internal/adapters/filesystem/git.go:88-106 | then the status map holds exactly the printed paths and states, and the rename map exactly the printed renames |
| GitStatus.ExtraRecordsShow | internal/adapters/filesystem/git.go:92-104 | a record mistaken for an entry is never made good by whatever entries follow |
| GitNumstat.ParseNumstat | internal/adapters/filesystem/git.go:108-128 | the loop fills the map with what DeltaIn reads off each record |
| GitNumstat.NumstatRoundTrip | internal/adapters/filesystem/git.go:108-128 | reading back printed counts gives each path its counts or the binary mark, tabs in the path or not |
| GitNumstat.ParseIntOfFormat | internal/adapters/filesystem/git.go:122-123 | a printed count below 2^63 is read back as itself and holds neither tab nor NUL |

## Left out

- HookCommand.CommandRunsBinary: the reader refuses characters outside quotes that mean more than themselves to a shell; expansion is not modelled. Paths are absolute already.
- JSON text: numbers, escapes, duplicate and case-insensitive keys, indentation and the 4 MB limit are not modelled; documents are trees, and printing then parsing gives the tree back.
- Installer files: read and stat errors, permissions, size limits, the digest's length check, symbolic links and the removal of emptied directories are not modelled, nor are temporary files a crash leaves behind looked at again.
- Installer paths: both scopes resolve to one target given from outside; `Test` and its synthetic events are not modelled.
- Recovery of sessions: the SQL around it, and the loss of unexported engine fields when a state is stored as JSON, are not modelled.
- SessionEngine.Engine.Apply: times and durations are unbounded integers.
- WorkPipeline.InvStep: `Close` is the cancellation step.
- WorkResults.Process: which tries a cancellation gives up is a parameter; its place among the other steps is in the step system.
- EvidenceSafety.FallbackGivesWay: is about events that went through the gate's queue; those handed on beside it are the subject of `EvidenceFront.ToldTwiceIff`.
- EvidenceFront.StrongIsNeverLost: offers under a cancelled context or after the stop are no steps, and the timeouts of the stop are not modelled.
- EvidenceGate.SameKeyIff: path cleaning is a parameter.
- IngestCollector.StopDrains: the timed wake-up is a step that may happen at any time; a handler that panics, and what a handler does with a cancelled context, are not modelled.
- StreamTap.Tap.Offer: sends after the queue is closed, the start gate and the deadline of `finish` are not modelled; several writers are covered by `StreamTap.UnflaggedIffComplete` only.
- Replay.ReconstructEvents: event validation is a parameter, and monotonic timestamps are unbounded.
- ActivityTree.AggregateDirectories: the sort keeps nodes of one depth in their order; any other outcome is covered by `ActivityTree.DirectoriesAreTotalled`.
- Identity.IdentityRegistry.Rename: `filepath.Clean`, `Base` and `Dir`, case folding and the hash are parameters.
- GraphPatch.Layout: positions and the centres of groups are an opaque function of the sorted nodes; positions that are not numbers are not modelled.
- GraphClient.ApplyGraphPatch: the order of nodes that collate equally is not modelled.
- RenderLod.SelectActivityAccesses: durations that are not finite are not modelled.
- RenderLod.SelectAccessPointsForRender: the order of points with one latest access is not modelled.
- AccessPoints.BuildAccessPoints: positions are their ordinals.
- FileObserverRun.Observer.EventsForBatch: an event's time, sizes, line counts, Git status and notification count are not modelled.
- FileObserverRun.Observer.AcceptChange: watching, ignore rules and looking at files are the inputs of the call.
- RenameMatch.CorrelateRenames: Windows path separators are not modelled.
- GitStatus.ParseStatus: Windows path separators are not modelled.
- SQL, migrations and quarantine, sockets and named pipes, child processes, the desktop shell and its views: plumbing that rests on other systems.
- Validation, descriptors, filters, analytics and formatters: their rules are one test each.
