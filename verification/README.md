# raj: a model of the editor's protocols

raj is a terminal editor whose buffers are append-only stores, one per author, with a
journal of ops over them. This project models the protocols around that structure and
proves what they keep.

- **PieceTable, OpLog, OpLogRuns, OpLogWorld**: the piece table, the op log written beside
  it, and runs of edits, capture passes, crashes and restarts. The main theorem is
  `OpLogWorld.SurvivingPrefixRefinesLive`.
- **SavedBaseline, LogAuthors**: the saved baseline replayed from a prefix, and the authors
  and tasks a log names.
- **LspSync**: the journal as language-server edits, and the mirror they keep
  (`textDocument/didChange`, LSP 3.17).
- **ClientForward, ClientTabs**: an attached client: forwarding local text, and closed tabs
  that stay closed.
- **TextEdits, OffsetMaps, CaretMaps**: a batch of server edits as one simultaneous
  replacement ("TextEdit[]", LSP 3.17), and the three caret maps through it.
- **Seams, SeamRuns**: grouping change sets into seams.
- **Diagnostics**: freshness of diagnostics, and waiting for the next publish.
- **ShellWords, MailQueue**: the mail plugin's tokeniser, key ownership and queues.
- **Intervals, Headless, Lenses, LensRuns**: interval splitting, the registry of buffers
  without a tab, and code lenses.

Objects the source updates in place are classes whose methods are proved against functions
on values; theorems over runs are about those functions. The handlers of `ClientTabs.Client`,
`LensRuns.App` and `MailQueue.Plugin` are each proved equal to the step a run takes for them;
the table lists the run theorems and not the handlers. `dafny verify dfyconfig.toml` checks
everything.

## Where the code and its documentation part

Each has a theorem that says exactly when the code meets its word and, named after it, a
concrete input or run for which it does not.

- The comment in `savedContent` promises the exact bytes of an earlier version. A log that
  appends under author 0 loses them: `SavedBaseline.SavedContentOfLog`, `OriginalInsertIsLost`.
- The comment on restored tasks says the first op of a group decides; a later member names the
  task when the first has none: `LogAuthors.FirstOpDecides`, `LaterMemberNamesTask`.
- The forward loop's comment says an edit made during an apply is forwarded by its next turn.
  A scan skips a running path, so it waits for the scan after the loop ends:
  `ClientForward.StoppedLoopDelivered` over runs, `NextTurnDelivers` for the turn itself,
  `TypedDuringApplyWaits`.
- The mail plugin says a key only mentioned cannot bind. A quoted argument that reads as an
  assignment can: `ShellWords.MentionBindsExactly`, `MentionedAssignmentBinds`. So can one that
  is wholly an as-flag: `MentionedFlagBindsExactly`, `MentionedFlagBinds`.
- It also promises one listener per key; returning to an earlier key starts a second:
  `MailQueue.SecondListener`, `ReturningDoublesListener`.
- `applyServerEdits` reverses insertions that share a position, which LSP 3.17 keeps in listed
  order: `TextEdits.AppliedInListedOrder`, `TwoInsertsSwap`.
- `shiftThroughEdits` stops short of a replacement's end when an insertion at its start is
  listed after it: `OffsetMaps.ShiftTouched`, `InsertListedLater`. The accept caret counts an
  additional edit that begins at the chosen insertion: `CaretMaps.AcceptCaretExact`,
  `AcceptClampFires`.
- A closed tab comes back when a snapshot queued before the close disagrees with its mark:
  `ClientTabs.DrainAfterClose`, `StaleSnapshotReopens`. And one comes back from a listing that
  has not moved at all, when it shows a superseded set, which the mark of a client's file never
  records: `HoldsUnlessSuperseded`, `SupersededReopens`.
- `closeDoc` relies on a generation bump to drop lens answers in flight; a request forgotten by
  a change of mode escapes it: `LensRuns.ClosedAnswerInstalls` and `CloseDropsForGood`,
  `LateAnswerAfterReopen`.
- `clipStates` gives a read an empty run exactly when the read is empty and inside a run:
  `Intervals.ClippedNonEmpty`, `EmptyReadEmptyRun`.

## Assumptions

- A log is a sequence of whole records, digests are equal only for equal bytes, and an
  append that fails writes nothing. `int` is 64 bits and stores are within it.
- Live runs never append to the Original store, which the source declares read-only; ops
  are numbered by index and their pieces are non-empty and inside their stores.
- A method is one critical section, or one stretch between awaits; runs interleave them
  freely. Files, sockets, clocks, git and servers appear only as parameters.

## Model

| member | source | states |
|---|---|---|
| `PieceTable.ApplyRenders` | internal/piecetable/oplog.go:95-100 | applying an op to the document's pieces replaces `DelLen` bytes at `Pos` by the bytes its inserted pieces hold, for every document, position and op, out-of-range ones clamped |
| `PieceTable.PieceRangeRenders` | internal/piecetable/doc.go:174-181 | the pieces recorded as deleted render to exactly the bytes that are removed |
| `PieceTable.InverseRestores` | internal/piecetable/oplog.go:66-73 | swapping an op's two piece lists gives back the text it changed, when its deleted pieces name the bytes that were there |
| `PieceTable.InverseMeans` | internal/piecetable/oplog.go:64-73 | an edit or a redo is undone and an undo redone, by an op of the same author, place and set that names what it reverses |
| `OpLog.InverseListsNothing` | internal/piecetable/groups.go:146-157 | undoing or redoing brings no change set into the list of decisions |
| `PieceTable.RenderStable` | internal/piecetable/store.go:37-58 | a document over stores that have since grown renders as it did |
| `OpLog.JournalOpRoundTrip` | internal/app/journal.go:1114-1161 | an op written to the log and read back is the same op, and a record whose spans fit survives the other direction |
| `OpLog.BuildSession` | internal/app/journal.go:915-967 | the record loop computes the session the log stands for, or refuses; a record that does not line up, an op whose pieces do not fit, or a log without a base is refused |
| `OpLog.FindBase` | internal/app/journal.go:1024-1031 | the first base record, if there is one |
| `OpLog.TapFromLog` | internal/app/journal.go:994-1020 | the record loop over a log leaves a tap whose frontier is the fold of its records |
| `OpLog.LogTap.RecordAuthor` | internal/app/journal.go:352-371 | writes an author row only when the registry has one that differs from the row last written, and notes it only when the append succeeded |
| `OpLog.LogTap.RecordOpAuthors` | internal/app/journal.go:330-345 | writes rows for the op's writer and for the owner of every store its pieces address, in order, stopping at the first failure |
| `OpLog.LogTap.AppendTap` | internal/app/journal.go:282-325 | a pass writes its plan (store growth, then ops, then decisions) record by record and stops at the first append that fails; log and frontier are then advanced by exactly the records that were written |
| `OpLog.GroupIdsMean` | internal/piecetable/groups.go:151-163 | the list a pass takes decisions from holds exactly the change sets some edit of the journal belongs to, each once, in the order of their first edits |
| `OpLog.StartTap` | internal/app/journal.go:167-269 | the log found is reused exactly when its base and frontier are the session's, and otherwise a fresh base is laid; the tap holds the frontier of the log it was given |
| `OpLog.TapMatches` | internal/app/journal.go:406-416 | compares version and the length of every store, in both directions |
| `OpLog.SavedContent` | internal/app/journal.go:974-988 | copies the base and every other author's store and replays the op prefix over them |
| `OpLogRuns.CheckMeansInStore` | internal/app/journal.go:1166-1189 | the addition-free 64-bit bound holds exactly when every piece lies inside its author's store |
| `OpLogRuns.AcceptedOpsInStore` | internal/app/journal.go:915-958 | in any record sequence that replays, honest or not, every op addresses only bytes its stores held when it was read, and still does after every later append |
| `OpLogRuns.FrontierCounts` | internal/app/journal.go:994-1020 | the frontier read from any replayable log counts each store's bytes and the ops exactly |
| `OpLogRuns.AcceptedLogIsReused` | internal/app/journal.go:655-667 | for every log with one leading base that replays, honest or crafted, the frontier read from it matches the session rebuilt from it, pieces stay inside stores and inside `int`; so the log just restored is the one capture goes on appending to exactly when its base is named by the origin's digest |
| `OpLogRuns.SecondBaseIsNotReused` | internal/app/journal.go:406-416 | one leading base is needed: a witness log with a second base replays but its frontier does not match |
| `OpLogRuns.FollowedLogRebuilds` | internal/app/journal.go:915-967 | a log that follows a live session rebuilds it at the version its op records reach, with the live text of that version |
| `OpLogRuns.TracksOneMore` | internal/app/journal.go:282-371 | one more record of a pass keeps the log following the session, and what the tap notes is what reading the log would give |
| `OpLogRuns.PassFollows` | internal/app/journal.go:282-325 | everything a pass plans may follow the log, and a complete pass ends with every store, op and the decision on the set of every edit told |
| `OpLogWorld.SurvivingPrefixRefinesLive` | internal/app/journal.go:548-678 | at every moment of every run of growth, ops, decisions, passes that may fail at any append, saves, crashes and restarts, every whole-record prefix of the log that keeps the base rebuilds a session whose text, and whose text at every earlier version, is the live one at the number of op records kept |
| `OpLogWorld.TapIsFrontier` | internal/app/journal.go:994-1020 | at every moment of every run, after passes that succeed or fail anywhere, the tap equals the frontier read from the log |
| `OpLogWorld.AnyPassTracks` | internal/app/journal.go:282-325 | however far a pass gets before an append fails, log and tap still agree with the session |
| `OpLogWorld.RestartKeepsLog` | internal/app/journal.go:167-269 | a restart from any surviving prefix succeeds; it goes on appending to the log it replayed if the base is named by the origin's digest, and otherwise lays a fresh log, exactly |
| `OpLogWorld.FullPassIsComplete` | internal/app/journal.go:282-325 | after a pass that wrote everything the log rebuilds the live session whole: text, journal, and the decision on the set of every edit, an unrecorded one being Accepted |
| `OpLogWorld.DecisionReachesLog` | internal/app/journal.go:311-324 | in every run a decision recorded on a set that has an edit is what the log rebuilds after the next complete pass, back to Accepted included |
| `OpLogWorld.MarkedMeans` | internal/piecetable/groups.go:91-104 | recording a decision changes that set's state and no other's, and keeps no entry for the default |
| `OpLogWorld.SecondPassIsEmpty` | internal/app/journal.go:282-325 | a pass after a complete one writes nothing |
| `OpLogWorld.NamesComeLater` | internal/app/journal.go:330-371 | whatever a pass writes, the newest author row before a record that names an author is the registry's |
| `SavedBaseline.SavedContentExact` | internal/app/journal.go:974-988 | for every rebuilt session the baseline equals the text at version `at` if and only if `at` is the present or no piece visible there shows a byte of the Original store past the base |
| `SavedBaseline.SavedContentOfLog` | internal/app/journal.go:915-988 | the same for the session and base of every log that replays, honest or crafted |
| `SavedBaseline.SavedContentIsTextAt` | internal/app/journal.go:974-988 | while the Original store is exactly the base, the baseline equals the text at every version, although later bytes are in the stores |
| `SavedBaseline.OriginalInsertIsLost` | internal/app/journal.go:915-988 | a witness log with an append under author 0: it replays, and its earlier baseline misses the byte |
| `LogAuthors.RestoredTasks` | internal/app/journal.go:948-958 | a restored change set carries the task of its first member whose writer's newest earlier author row names one, and no other set carries a task |
| `LogAuthors.FirstOpDecides` | internal/app/journal.go:926-949 | for every log that replays, a set's task is that of the op that opened it if and only if that op's writer had a task then or no later member's writer had one at its own record |
| `LogAuthors.LaterMemberNamesTask` | internal/app/journal.go:926-949 | a witness log of two ops whose set is restored with the task of the second |
| `LogAuthors.SeedParticipants` | internal/app/journal.go:774-798 | each id is seeded once, with its newest row and the newest task any of its rows named |
| `LspSync.RecsText` | internal/app/lsp.go:1064-1070 | the text of a piece list, read piece by piece from the stores |
| `LspSync.EditsSince` | internal/app/lsp.go:1045-1060 | one edit per op of the window, oldest first, none when there is no history to send |
| `LspSync.WindowReachesPresent` | internal/app/lsp.go:1045-1070 | applying a window's edits in order to the text at `since` gives the text now, undo and redo ops included |
| `LspSync.WindowsCompose` | internal/app/lsp.go:1045-1060 | two windows read back to back are the window that spans them, as edits and as their effect |
| `LspSync.IncrementalChanges` | internal/lsp/sync.go:172-199 | ranges are produced only when replaying them on the previous text gives the new one |
| `LspSync.MisfitRefused` | internal/lsp/sync.go:172-199 | an edit that ends before it starts or past the text left by the others refuses the whole list, and one that changes nothing is skipped |
| `LspSync.Sync.Open` | internal/lsp/sync.go:82-104 | a first open sends the text and records it; a second sends and records nothing |
| `LspSync.Sync.Change` | internal/lsp/sync.go:121-152 | whatever edits it is given, right or wrong, the server's copy ends as the buffer's text |
| `LspSync.Sync.SyncDoc` | internal/app/lsp.go:873-912 | after a sync, at any moment and from any earlier sync of the session, the server's copy is the buffer's text and is recorded with its version |
| `LspSync.Sync.SyncDirtyPane` | internal/app/lsp.go:965-988 | the idle tick opens an unknown dirty pane, pushes a known one whose version moved and touches nothing else; so a dirty pane, and one known from an earlier moment of the session, is current at the server afterwards |
| `LspSync.DatedStays` | internal/app/lsp.go:965-988 | a recorded copy that is the session's text at its recorded version stays so while the buffer is edited |
| `LspSync.MirrorHoldsLastSent` | internal/app/lsp.go:873-912 | over every run, a copy opened once and fed nothing but windows, read at whatever moments, is the text of the last moment one was sent, which is still the session's text at that version |
| `LspSync.UnmovedIsCurrent` | internal/app/lsp.go:986-988 | an open document the tick leaves alone already has the buffer's text |
| `LspSync.WindowSendsRanges` | internal/lsp/sync.go:172-199 | the window read from the journal always passes the tracker's replay check when it is short enough and cuts no rune |
| `ClientForward.EditMiddle` | internal/app/client.go:1292-1306 | the longest common prefix, then the longest common suffix that does not reach back into it, and replacing the middle turns the old text into the new |
| `ClientForward.MiddleHunk` | internal/app/client.go:1236-1238 | the one hunk sent turns the synced text into the local one, no hunk that does so replaces or inserts less, and equal texts give an empty hunk |
| `ClientForward.Client.ScanClientEdits` | internal/app/client.go:1144-1173 | every tracked pane whose text differs or is dirty, and whose loop is not running, is marked and started once; every other entry is untouched |
| `ClientForward.Client.LoopTurn` | internal/app/client.go:1183-1196 | an untracked path ends the loop, a clean one stops it, a dirty one gives what to send |
| `ClientForward.Client.LoopRecord` | internal/app/client.go:1200-1213 | what a reply or a refusal leaves in the entry |
| `ClientForward.RefusedIsNotRetried` | internal/app/client.go:1200-1213 | after a refusal the next turn ends the loop, and a scan takes the path up again if and only if the pane then shows another text than the one refused |
| `ClientForward.Converges` | internal/app/client.go:1140-1246 | with one writer, in every interleaving of typing, scans and loop steps there is at most one loop per path, `synced` is the daemon's text at `version` whenever no answer is waiting to be recorded, and a quiet path has pane, synced and daemon text equal |
| `ClientForward.RequestsFit` | internal/app/client.go:1221-1246 | every request of such a run is based on the daemon's own version and its hunk fits, so the daemon rebases nothing |
| `ClientForward.TypingIsDelivered` | internal/app/client.go:1140-1214 | once typing stops, one scan and one round of the loop leave the daemon with the pane's text and nothing to scan |
| `ClientForward.RoundIsSteps` | internal/app/client.go:1180-1214 | that round is a sequence of the loop's own steps |
| `ClientForward.StoppedLoopDelivered` | internal/app/client.go:1154-1214 | in every run, when a loop that was sending has stopped, the daemon has the pane's text if and only if the pane shows what was pending when it sent |
| `ClientForward.NextTurnDelivers` | internal/app/client.go:1175-1214 | from every reachable state with an apply in flight, the reply, its record and the next turn stop the loop, and the daemon has the pane's text if and only if the pane equals the entry's `pending` |
| `ClientForward.TypedDuringApplyWaits` | internal/app/client.go:1175-1179 | a witness run: text typed while an apply is in flight is not with the daemon when the loop has stopped |
| `ClientTabs.OwnedFetchesExactly` | internal/app/client.go:111-116 | an owned path is fetched again if and only if its listing differs from what was last fetched in version, pending, moved or superseded count, dirty or deleted |
| `ClientTabs.MirrorsExactly` | internal/app/client.go:561-583 | when the mirror loop queues and owns a buffer, and when it spends a close mark |
| `ClientTabs.AdoptsExactly` | internal/app/client.go:1583-1626 | when a proposal is adopted, for a path the daemon lists or not |
| `ClientTabs.InstallsExactly` | internal/app/client.go:957-1003 | when a queued snapshot opens or refreshes its tab |
| `ClientTabs.ClosesExactly` | internal/app/client.go:1739-1751 | what a close takes away and what it leaves |
| `ClientTabs.MarkMeans` | internal/app/client.go:126-157 | the mark of a closed file agrees with exactly the listings that show its version, its pending and moved counts and no superseded set, and with exactly the snapshots that show the same |
| `ClientTabs.ClosedStaysClosed` | internal/app/client.go:126-158 | in every run, after the user closes a tab: while the daemon goes on listing the version and review counts the tab was fetched with, dirty aside, and no older snapshot of other ones is queued, no interleaving of watch cycles, adoptions and late installs brings the tab back or spends its mark |
| `ClientTabs.DrainStaysClosedExactly` | internal/app/client.go:1795-1807 | for any mark, draining the queue leaves the tab closed if and only if every queued snapshot of it agrees with the mark |
| `ClientTabs.DrainAfterClose` | internal/app/client.go:1795-1807 | after a close, draining leaves the tab closed if and only if every queued snapshot of it has the version and review counts of the tab closed |
| `ClientTabs.StaleSnapshotReopens` | internal/app/client.go:957-1003 | a witness run: a snapshot queued before the close disagrees with the mark, which the daemon's listing meets, and reopens the tab |
| `ClientTabs.HoldsUnlessSuperseded` | internal/app/client.go:144-157 | against a listing that describes the file closed, the close holds if and only if no superseded set is listed |
| `ClientTabs.SupersededReopens` | internal/app/client.go:561-583 | a witness run: the daemon lists the same buffer throughout, with a superseded set, and the next cycle reopens the tab |
| `ClientTabs.MovedComesBack` | internal/app/client.go:1777-1789 | the first cycle whose listing moved past the file closed re-adds the tab and spends the mark |
| `TextEdits.ApplyServerEdits` | internal/app/server_edits.go:29-51 | replacing highest offset first, in original coordinates, gives the one simultaneous replacement, for every non-overlapping batch in any listing; insertions that share a position come out in reverse |
| `TextEdits.ApplyLowest` | internal/editor/pane.go:520-538 | one clamped replace below everything applied so far keeps the result simultaneous |
| `TextEdits.AppliedInListedOrder` | internal/app/server_edits.go:36-48 | the batch meets the protocol's listed order of insertions if and only if at every offset the inserted texts read the same forwards and backwards in the list |
| `TextEdits.TwoInsertsSwap` | internal/app/server_edits.go:37-42 | a witness: two insertions at one offset come out swapped |
| `OffsetMaps.ShiftThroughEdits` | internal/app/format.go:198-212 | the sort and the loop with its running shift compute `Shift` |
| `OffsetMaps.ShiftOutside` | internal/app/format.go:193-212 | an offset strictly outside every closed span maps to the place in the new text where the same suffix begins, in any listing of the batch |
| `OffsetMaps.ShiftTouched` | internal/app/format.go:205-207 | an offset inside or on a span maps to the end of the first touched edit's text if and only if the insertions at its start that are listed after it are empty |
| `OffsetMaps.InsertListedLater` | internal/app/format.go:200 | a witness: a replacement listed before an insertion at its start leaves the caret inside the replacement |
| `OffsetMaps.ShiftMonotoneInBounds` | internal/app/codeaction.go:327-336 | for every batch the map keeps order and stays inside the new text, so neither clamp at its callers fires |
| `OffsetMaps.SuffixBegins` | internal/app/format.go:193-197 | an offset no replaced span contains falls, in the new text, where its own edited suffix begins |
| `CaretMaps.RenameShiftOffset` | internal/app/rename.go:323-345 | the sort and the loop with its running delta compute `Rename` |
| `CaretMaps.RenameExact` | internal/app/rename.go:294-345 | for every batch and offset the caret lands at the end of the covering replacement, or behind the insertions at the offset where the same suffix begins; it is inside the new text, so the clamps do not fire |
| `CaretMaps.RenameAnyOrder` | internal/app/rename.go:329-334 | the caret does not depend on the listing |
| `CaretMaps.RenameAgrees` | internal/app/rename.go:323-345 | on edits no two of which touch, `renameShiftOffset` equals `shiftThroughEdits` at every offset |
| `CaretMaps.TouchingDisagrees` | internal/app/format.go:205-207 | separation is needed: a witness where two touching replacements make the maps differ |
| `CaretMaps.AcceptCompletion` | internal/app/app.go:1689-1703 | the caret of a plain accept, exactly, clamped at both ends |
| `CaretMaps.AcceptSnippet` | internal/app/app.go:1619-1628 | the bounds of the snippet session |
| `CaretMaps.AcceptCaretExact` | internal/app/app.go:1689-1695 | the caret is behind the chosen text if and only if the chosen edit replaces something, or no additional edit starting at its offset changes the length of what it replaces |
| `CaretMaps.AcceptClampFires` | internal/app/app.go:1696-1701 | a witness batch for which the lower clamp fires |
| `CaretMaps.AcceptAgrees` | internal/app/app.go:1689-1695 | on separated edits the accept caret is `shiftThroughEdits` at the chosen edit's start |
| `CaretMaps.AcceptAnyOrder` | internal/app/app.go:1690-1694 | the caret does not depend on the order of the additional edits |
| `Seams.SeamHolders` | internal/app/intent.go:711-731 | the maps name, for exactly the sets other seams hold, the least seam that holds each, by full member or by bare id |
| `Seams.HoldersUnique` | internal/app/intent.go:711-731 | that determines both maps, so the holder a skip names does not depend on the order the seams are visited in |
| `Seams.MemberCounts` | internal/app/intent.go:736-744 | how many listed sets qualify to each member |
| `Seams.GroupAdded` | internal/app/intent.go:750-778 | added and skipped are the verdicts of the fixed precedence, in listing order |
| `Seams.EveryRefOnce` | internal/app/intent.go:750-778 | every set of the listing is classified once: a member already, or at exactly one place of its own, in listing order, in added or in skipped, which hold nothing else |
| `Seams.SeamOverlaps` | internal/app/intent.go:860-890 | exactly the files this seam and another both touch, each once, in order |
| `Seams.AddMembers` | internal/intent/intent.go:81-91 | appends the members that are not members yet |
| `Seams.TaskRefsMean` | internal/app/intent.go:698-706 | the task's sets, all of them, each as often as it is listed and in listing order |
| `Seams.VerdictMeans` | internal/app/intent.go:746-778 | which reason a skip reports, with which member, seam and state, and when; the seam is the least holder by path, and only without one the least by bare id |
| `Seams.RefusalMeans` | internal/app/intent.go:676-697 | when a call is refused and why, the base last: a new seam stands on the ref given or detected, which must be no seam and must resolve |
| `SeamRuns.Store.IntentGroup` | internal/app/intent.go:650-675 | the call's refusals, what it adds and what it skips, by the verdicts on its listing under the holders of the stored seams, its overlaps and base, and everything it stores |
| `SeamRuns.CallStores` | internal/app/intent.go:784-835 | what a call stores: a new seam on its ref's commit, a known one with base and commit kept, no other seam touched |
| `SeamRuns.StoredMembers` | internal/app/intent.go:815-835 | the stored seam is its old members in place followed by the distinct new ones the call reports |
| `SeamRuns.SeamsStayDisjoint` | internal/app/intent.go:711-778 | over any run of calls from disjoint seams, bare members among them or not, no set is in two seams |
| `SeamRuns.SeamsOnlyGrow` | internal/app/intent.go:784-835 | over any run a seam's members only grow at the end, its base and commit never move, and its task is kept once set |
| `SeamRuns.SetsNeverMove` | internal/app/intent.go:750-778 | a set some seam names is never in another seam later |
| `SeamRuns.RepeatAddsNothing` | internal/app/intent.go:650-675 | repeating a stored call is not refused, adds nothing and changes nothing |
| `SeamRuns.NamedTwiceExactly` | internal/app/intent.go:758-760 | a stored call makes its seam name a set twice if and only if the seam holds the set's bare id and the call takes the set |
| `SeamRuns.SetsNamedOnce` | internal/app/intent.go:758-760 | over any run from path-qualified seams no seam names a set both by bare id and by path |
| `SeamRuns.OwnBareMemberIsAddedAgain` | internal/app/intent.go:758-760 | a witness against that without qualification: a call that adds a bare member's set again under its path |
| `SeamRuns.QualifyGroups` | internal/app/intent.go:496-522 | bare ids become members exactly when each is numbered by one live buffer only |
| `SeamRuns.FindMember` | internal/app/intent.go:449-478 | a qualified member is found if it is live, a bare one only if exactly one live buffer numbers it |
| `Diagnostics.Diagnoses.SetVersion` | internal/app/diagnostics.go:116-158 | a publish numbers and dates itself, replaces the list in position order or clears it, and closes every waiter of its path |
| `Diagnostics.Diagnoses.WakeWaiters` | internal/app/diagnostics.go:304-309 | closes each registered channel once and forgets them |
| `Diagnostics.Diagnoses.DropWaiter` | internal/app/diagnostics.go:313-324 | forgets one registration |
| `Diagnostics.NoPackageKept` | internal/app/diagnostics.go:92-99 | the stored order keeps the no-package notice |
| `Diagnostics.ByPositionMeans` | internal/app/diagnostics.go:116-158 | the stored list ascends by line and character, and the entries at any one position are the server's in the server's order |
| `Diagnostics.FreshnessIsExact` | internal/app/diagnostics.go:241-263 | after any history of publishes, syncs and clears over all paths sharing one counter, the status is the one defined over the history |
| `Diagnostics.OkMeans` | internal/app/control.go:2908-2927 | ok exactly when the server has the buffer's version and the last publish since the clear is dated with it, or undated, for version 0 and not before the last sync, and carries no no-package notice |
| `Diagnostics.ClosedOnce` | internal/app/diagnostics.go:304-309 | no waiter channel is closed twice in any interleaving |
| `Diagnostics.NoLostWakeup` | internal/app/diagnostics.go:270-309 | the first publish for a path after a registration that was not withdrawn releases that waiter, for good |
| `Diagnostics.FalseOnlyIfQuiet` | internal/app/diagnostics.go:280-297 | after the waiter withdrew, its channel is closed if and only if a publish for the path came between registration and withdrawal |
| `ShellWords.Tokenise` | plugins/raj-mail.ts:59-110 | the nested index loops compute the words and the key assignments of a command line, each step moving forward |
| `ShellWords.TokeniseQuoted` | plugins/raj-mail.ts:59-110 | quoting every word, joining with spaces and tokenising gives back the non-empty words, in order and byte for byte |
| `ShellWords.TokeniseSpelled` | plugins/raj-mail.ts:59-110 | however each word is written, bare, in either quotes, behind backslashes or in a mix, and whatever breaks stand between, tokenising gives the words' texts back, the empty ones dropped |
| `ShellWords.QuotingRoundTrips` | plugins/raj-mail.ts:101 | the round trip is exact if and only if no word is empty |
| `ShellWords.UsedKey` | plugins/raj-mail.ts:112-133 | the last as-flag whose value resolves wins |
| `ShellWords.LastFlagDecides` | plugins/raj-mail.ts:112-133 | the last flag decides in each of its four spellings, its value a key or a variable the command assigns |
| `ShellWords.VariableSpellings` | plugins/raj-mail.ts:125-130 | a dollar sign and a name, braced or not, is that variable |
| `ShellWords.NameMeans` | plugins/raj-mail.ts:106 | a name is a letter or underscore, then letters, digits and underscores |
| `ShellWords.KeyMeans` | plugins/raj-mail.ts:106 | a key is the prefix and at least six lower-case hexadecimal digits |
| `ShellWords.QuotedVariableResolves` | plugins/raj-mail.ts:45-49 | a witness command line: a flag that reads a key from a variable in double quotes |
| `ShellWords.MentionedKeysDoNotBind` | plugins/raj-mail.ts:45-58 | an argument that is not an as-flag, not the value of one and not a key assignment never changes the key, whatever it mentions |
| `ShellWords.MentionBindsExactly` | plugins/raj-mail.ts:45-133 | for every command line of quoted words and every argument in it that is neither an as-flag nor the value of one, the key changes with the argument if and only if it assigns the variable the deciding flag names, no later word assigns it, and the key without it is another |
| `ShellWords.UnresolvedNeedNotChange` | plugins/raj-mail.ts:112-133 | a witness: a flag that resolves only with the argument need not change the key, since an earlier flag may have named the same |
| `ShellWords.MentionedAssignmentBinds` | plugins/raj-mail.ts:102-133 | a witness command line whose message argument reads as an assignment and rebinds the variable a flag names |
| `ShellWords.MentionedFlagBindsExactly` | plugins/raj-mail.ts:45-133 | for every command line of quoted words and every message in it that is wholly an as-flag and not the value of one, the key changes with the message if and only if it is then the flag that decides and its key is not what the flags before it give |
| `ShellWords.MentionedFlagBinds` | plugins/raj-mail.ts:112-133 | a witness command line whose quoted message is an as-flag and moves it to the key in the message |
| `MailQueue.OnePlace` | plugins/raj-mail.ts:319-379 | over all runs no message is dropped, and each is at each moment in its session's queue, prompts in flight and output, taken together, exactly as often as it was sent |
| `MailQueue.MailInOrder` | plugins/raj-mail.ts:334-418 | until one of its prompts is refused a session is given its mail in the order it came |
| `MailQueue.PromptsExactly` | plugins/raj-mail.ts:364-379 | when a prompt is sent and with what batch |
| `MailQueue.BusyExactly` | plugins/raj-mail.ts:364-379 | when a session counts as busy |
| `MailQueue.LearnAttaches` | plugins/raj-mail.ts:227-247 | a key is attached if and only if nobody else owns it and the session has none, has it already, or has just registered it; it then has an owner, is active and has a listener |
| `MailQueue.ActiveKeysAreCurrent` | plugins/raj-mail.ts:227-247 | over all runs a session's key is owned by it, and the active keys are exactly the sessions' current keys, each with a listener |
| `MailQueue.OwnerIsForever` | plugins/raj-mail.ts:187-190 | a key's owner never changes once set |
| `MailQueue.KeyMovesByRegister` | plugins/raj-mail.ts:220-240 | over any stretch of a run in which a session registers nothing it keeps the key it has, whatever keys its commands and mail mention |
| `MailQueue.StrandedOnlyByRefusal` | plugins/raj-mail.ts:364-379 | mail that waits at an idle session is there because one of its prompts was refused and none has been sent since |
| `MailQueue.RefusalStrands` | plugins/raj-mail.ts:374-378 | over all runs, after a refusal the queue is the refused batch and then what had queued, until new mail, the end of a turn, a textual tool result or another refusal of that session |
| `MailQueue.SecondListener` | plugins/raj-mail.ts:241-246 | a step gives a key a second listener if and only if a register returns a session to a key whose retired loop is still waiting |
| `MailQueue.ReturningDoublesListener` | plugins/raj-mail.ts:241-246 | registering one key, another, and the first again gives two listeners |
| `MailQueue.EscapeIsExact` | plugins/raj-mail.ts:162-168 | escaped text holds no markup character and decodes to exactly what was written, so the ampersand-first order loses nothing |
| `Intervals.ClipStates` | internal/app/control.go:1387-1405 | the loop computes the runs cut to the read |
| `Intervals.ClippedOwners` | internal/app/control.go:1383-1405 | for any runs, every byte of the read has exactly the owners it had, and no byte outside it has any |
| `Intervals.ClippedTiles` | internal/app/control.go:1321-1340 | runs that tile the document, cut to the span any accepted read resolves to, tile the read |
| `Intervals.ReadStatesExact` | internal/app/control.go:1321-1340 | every byte of every accepted read, negative bounds included, has exactly one owning state, the one it had |
| `Intervals.ClippedNonEmpty` | internal/app/control.go:1391-1399 | no resulting run is empty if and only if the read is not empty or stands inside no run |
| `Intervals.EmptyReadEmptyRun` | internal/app/control.go:1391-1399 | a witness: one run of two bytes, read at its middle, gives an empty run |
| `Intervals.NewDocument` | internal/lsp/position.go:111-119 | the start of every line and nothing else: offset zero and behind every newline, in order |
| `Intervals.LineOf` | internal/lsp/position.go:210-221 | the binary search finds the line that holds an offset |
| `Intervals.HighlightRuns` | internal/app/lsp.go:2189-2227 | every line gets, sorted, exactly the pieces of the ranges that reach it |
| `Intervals.HighlightsExact` | internal/app/lsp.go:2189-2227 | every byte of every range is emphasised on its own line exactly as often as it was asked for, nothing else is, and each line's runs are in start order |
| `Intervals.RunsInBounds` | internal/app/lsp.go:2206-2218 | no run is empty or reaches past its line, newline included |
| `Headless.Registry.LoadHeadless` | internal/app/headless.go:39-61 | a known file moves to the front; a readable new one is put there and the registry bounded; any other changes nothing |
| `Headless.Registry.FindHeadless` | internal/app/headless.go:66-79 | a file found moves to the front, in place of nothing else |
| `Headless.Registry.EvictHeadless` | internal/app/headless.go:233-253 | the loop keeps every busy buffer and the first eight clean ones |
| `Headless.RecencyOrder` | internal/app/headless.go:31-32 | over any run of loads, lookups and removals, whatever is busy when, the list is in recency order |
| `Headless.StepMembers` | internal/app/headless.go:39-96 | which files each load, lookup and removal leaves in the registry, over any run |
| `Headless.EvictionIsLru` | internal/app/headless.go:233-253 | a buffer survives an eviction if and only if it is busy or fewer than eight clean buffers were used more recently |
| `Headless.LoadIsLru` | internal/app/headless.go:56-59 | the same on a load, over any run, with the new file in front counted among the newer |
| `Headless.EvictedWithin` | internal/app/headless.go:233-253 | eviction keeps a subsequence of the registry |
| `Headless.LoadCaps` | internal/app/headless.go:56-58 | after a load of a new file at most eight buffers are clean and the file is at the front |
| `Lenses.LensLineHints` | internal/app/codelens.go:259-287 | one run per line in order of first appearance, holding the line's titles in server order |
| `Lenses.OneHintPerLine` | internal/app/codelens.go:259-287 | a line has one run, and has it exactly when a lens on it has a title |
| `Lenses.LensTextMeans` | internal/app/codelens.go:259-287 | what a lens shows: its title without surrounding white space, or a stand-in while unresolved |
| `Lenses.TitlesMean` | internal/app/codelens.go:259-287 | a line's titles are those of its lenses, all of them, in server order |
| `Lenses.JoinMeans` | internal/app/codelens.go:259-287 | a run is its titles, each at its offset with four spaces before the next, and nothing more |
| `Lenses.OrderByFirst` | internal/app/codelens.go:259-287 | runs are in the order in which their lines first show something |
| `Lenses.ReplacedIsFound` | internal/app/codelens.go:394-481 | the resolved lens is found on its line and every other line finds what it found |
| `LensRuns.LensStore.Set` | internal/app/codelens.go:58-72 | a new answer keeps the resolves spent only for the same version |
| `LensRuns.LensStore.ClaimResolve` | internal/app/codelens.go:97-110 | a claim succeeds exactly for the stored version below the bound |
| `LensRuns.DrawnLensesAreCurrent` | internal/app/codelens.go:312-328 | in every interleaving, lenses still installed after a draw's invalidation are the stored answer of that path for exactly the drawn version |
| `LensRuns.ResolvesAreBounded` | internal/app/codelens.go:97-110 | at most 32 resolves are claimed against one version of a path, however often its answer is replaced, until a clear |
| `LensRuns.BudgetIsExact` | internal/app/codelens.go:97-110 | a resolve is granted if and only if fewer than 32 were claimed |
| `LensRuns.SupersededNeverInstalls` | internal/app/lsp.go:1307-1316 | an answer asked before the generation moved is never installed |
| `LensRuns.SupersedesExactly` | internal/app/codelens.go:153-192 | which ticks, chords, draws and closes move the generation |
| `LensRuns.AsksExactly` | internal/app/codelens.go:153-192 | what is asked of the server, about what and under which generation |
| `LensRuns.LandedMeans` | internal/app/codelens.go:394-481 | a resolve that lands carries the resolved lens on its line and every other line as it was |
| `LensRuns.ClosedAnswerInstalls` | internal/app/lsp.go:1456-1463 | over every run, an answer asked before a close of its path is never installed after it when it is older than the close or the last request recorded was for that path; any other is installed exactly when the generation is still the one of the close and a document at its version is in front in edit mode |
| `LensRuns.CloseDropsForGood` | internal/app/lsp.go:1456-1463 | the close drops a waiting answer whatever follows if and only if it is older than the generation or the last request recorded was for that path: for any other there is a continuation that installs it |
| `LensRuns.LateAnswerAfterReopen` | internal/app/lsp.go:1460-1463 | a witness run: an answer about a closed document is installed on the one opened after it |

## Left out

- ClientForward.Converges: assumes one writer, no refusal, no snapshot install and no save flush; the recorded text is then the daemon's at the returned version, which a rebase by another writer would break.
- ClientForward.Client.ScanClientEdits: leaves out the agent-proposal note and assumes one pane per path.
- ClientTabs.ClosedStaysClosed: leaves out reveal and explicit open, and takes each map access as one step of a cycle.
- OpLog.StartTap: leaves out encoding records, the truncation of damaged logs and file errors.
- LspSync.IncrementalChanges: ranges are byte offsets, rounded by a parameter that is only known to be monotone and inside the text; UTF-16 columns are left out.
- LspSync.Sync.Change: the conversion between bytes and UTF-16 columns is a parameter that rounds offsets; notifications do not fail.
- LspSync.UnmovedIsCurrent: speaks of one session; a reload that starts a new one is not modelled.
- TextEdits.ApplyServerEdits: leaves out the lease check that refuses a batch, and offsets are not negative.
- CaretMaps.AcceptCompletion: starts after the chosen edit's end was extended to the cursor, and has no path for a candidate without a server edit.
- CaretMaps.AcceptSnippet: the body arrives expanded; the path for a candidate without a server edit is left out.
- Intervals.HighlightRuns: ranges come as ordered byte spans; their conversion from UTF-16 positions is left out.
- Headless.Registry.LoadHeadless: the re-read of files that moved on disk and the closing of what is dropped are left out.
- Headless.EvictionIsLru: paths that name one file are one file.
- LensRuns.App.RunCodeLens: sending a resolved command and the status text are left out.
- LensRuns.DrawnLensesAreCurrent: by version number, as the source compares; a path reopened or reloaded at the same number is the subject of `LensRuns.LateAnswerAfterReopen`. The filter by pane width is left out, and one buffer is open per path.
- Lenses.LensLineHints: titles are trimmed of ASCII white space only.
- MailQueue.OnePlace: in one process; what a restart loses, and messages a failed parse of a `recv` answer loses, are not modelled.
- SeamRuns.Store.IntentGroup: the workspace store does not fail to write, and the time of creation and the owner are left out.
- Diagnostics.FalseOnlyIfQuiet: contexts and timeouts appear only as the moment a waiter withdraws.
- Torn final records, log archiving, session and encoding records, and the authors' own log.
- The B-tree under the piece table, rebasing, projection by decision, and undo selection.
- Export, land and publish of seams; key recovery from a session's history, and the wording of rendered mail.
- Rendering, layout, menus, prompts, pointer and key handling, and command lines: single-branch facts.
