# Verified model of the collaborative buffer edit and save pipeline

A text file is edited in a browser, saved through a gateway, and written on a remote host, either over SSH or
through a Zed proxy. Three programs in two languages keep their own picture of the text and must agree exactly.
This project models them in Dafny and proves that they do; where they do not, it proves exactly when.

`dafny verify dfyconfig.toml` checks everything.

## What is modelled

A text is a sequence of Unicode scalars. Its UTF-16 width (section 2.1 of RFC 2781) and its UTF-8 encoding
(section 3 of RFC 3629) are defined once, in `Unicode`, and every coordinate is a prefix sum over scalars; loops
that the source runs over encoded bytes or code units are proved to refine that.

| module | models |
|---|---|
| `Unicode`, `Edits` | texts and their three coordinate systems; edits, batches, versions |
| `TextEdits` | the gateway's text applier: every change located twice, by offset and by position, and spliced in place |
| `MonacoOrder` | change lists in editor order; one splice after another against one simultaneous substitution |
| `BrowserText` | the browser's applier and its offset, position and tree-sitter arithmetic |
| `WorkingCopies`, `WorkingCopyServices` | the browser's working-copy state, as transitions and as a class whose methods make them |
| `PendingLog`, `LogLimits` | the invariant of the pending log over every run, and the exact limits of the operations that can break it |
| `StepEffects` | what each operation does to base, version, log, flags, backup and the text shown, what the dirty flag tells over every run, and the application's loads, reverts and whole-file exchanges |
| `SshSave` | the save over SSH; browser and remote files together, over every run |
| `ProxyOps`, `Replays` | compilation of batches into vector-clocked operations, replay of operations, and the two appliers compared |
| `ProxySessions`, `ProxyClients`, `ProxyGateway` | the opened-buffer cache against the reference peer, as transitions and as classes |
| `Collaboration` | any number of browsers saving through one session, over either route: no lost update |
| `Delivery` | identifiers, cumulative acknowledgements, the replay queue, and drops |
| `BufferStreams`, `ConnectionRuns`, `ProxyConnections` | the three reading loops, what a streamed buffer comes to, every state a connection reaches, and the connection object |
| `Chunking` | boundary-safe chunking and truncation, bounded streaming |
| `Commands` | response streams of concurrent commands and the browser's multiplexer; a buffer from the gateway's text through chunks and multiplexer to the browser's copy |
| `SemanticTokens` | delta coding of semantic tokens (the "Integer Encoding for Tokens" section of the LSP 3.17 specification) |
| `Keybindings` | the first-stroke index, resolution, and the pending-sequence machine |

## Hypotheses

The claims need these; they are stated as preconditions or as what a run allows.

- Changes of one reported batch are in editor order: described in the text before the batch, last range first,
  disjoint; the model's value afterwards is what they lead to (`PendingLog.Allowed`). Without the order a
  workspace edit can be refused (`LogLimits.AscendingEditsRefused`) and a replay can diverge
  (`Replays.AscendingRangesDiverge`).
- Copies are edited and saved only while they are neither loading nor read-only, and a save is answered before the
  next edit. Completion clears the whole log, so otherwise late edits drop out of it
  (`SshSave.LateCompletionExactly`, `SshSave.LateEditsNotSaved`).
- A backup is restored only where no editor is attached or the attached one shows the backed-up text. The
  application does not keep to this: a reconnect restores backups under open editors, and a backup is written only
  some time after an edit (`LogLimits.RestoreExactly`, `LogLimits.RestoreOverModelDiverges`,
  `LogLimits.RestoreOverModelReached`, `SshSave.RestoreOverModelWritesOther`).
- A whole text set without marking it clean is the text already there, and a discarded copy has no live model
  showing anything else (`LogLimits.SetContentExactly`, `LogLimits.DiscardExactly`, `LogLimits.CloseTabExactly`).
- In runs with files, a base and its version change only with their exchange, as the application has it: a load, a
  batch save, a revert, a whole-file open or save. `finishLoading`, `markSaved` and `revert` do not occur alone, and
  `setContent` with `markClean`, which the application never calls, does not occur.
- The digest of the SSH version does not collide on texts of one length. The SSH save that a theorem is about reads,
  compares and writes at one moment; runs may hold saves with another writer in between, and
  `SshSave.InterruptedSaveExactly` says what such a save overwrites. A proxy save is atomic because the session's
  client lock is held throughout.
- A peer is restarted, and a file of the session written past it, by the SSH fallbacks or anyone else, only under the
  exact conditions of `Collaboration.RestartExactly` and `Collaboration.WriteElsewhereExactly`.
  `Collaboration.SaveAfterRestart` says what a save finds otherwise.
- The chunks of an opened proxy buffer carry no operations (`BufferStreams.EqualVersionsTwoTexts`,
  `BufferStreams.StreamedDisagreesExactly` and `Collaboration.EqualVersionSave` say what operations do).
- The peer acknowledges only identifiers it was sent, and an identifier only once everything queued up to it has
  arrived (`Delivery.EarlyAckBreaksQueue` shows what happens otherwise).
- The server answers only commands it was sent.
- Counters do not reach their 32-bit limit; texts are shorter than the 64-bit index limit. The one checked 64-bit
  addition, offset plus length, is modelled with its overflow error.

## Findings about the code

- Restoring under an open editor can make the next save write a text that nobody saw, without a conflict
  (`SshSave.RestoreOverModelWritesOther`).
- A flush read while the client waits for a buffer's chunks is acknowledged through the queue and nothing is resent;
  read anywhere else it makes the client resend its queue (`BufferStreams.FlushResentExactly`,
  `BufferStreams.NothingResentWhileStreaming`).
- A batch that is not in editor order can be saved through the proxy without an error and leave the client's cache
  and the file with two texts under one version (`ProxySessions.AscendingSaveDisagrees`).
- After a restart of the reference peer a copy at the first version is taken for current whatever the file holds
  (`Collaboration.SaveAfterRestart`).
- Closing a dirty tab discards the copy and then keeps the editor's text in it (`LogLimits.CloseTabExactly`).
- `max_received` is the identifier of the last tracked envelope read, not the largest one
  (`Delivery.AcksWereRead`).
- Start-after-end in the gateway's applier and the negative-delta skip in the token encoder are never reached
  (`TextEdits.ChangeAccepted`, `SemanticTokens.EncodeSorted`).

## Model

| member | source | states |
|---|---|---|
| `Unicode.CoordinatesAgree` | zed-web-gateway/crates/gateway-web/src/text_edits.rs:62-160 | UTF-16 offset, byte offset and (line, character) pair are each strictly monotone and injective on the places of any text, so the three are in order-preserving bijection |
| `Unicode.BoundaryIsPlace` | zed-web-gateway/crates/gateway-web/src/registry/handle.rs:847-858 | the byte-level boundary test accepts exactly the byte offsets at which a scalar starts or the text ends |
| `Unicode.SpliceBytes` | zed-web-gateway/crates/gateway-web/src/text_edits.rs:28-60 | replacing a byte range between two boundaries is exactly splicing scalars; the result is again the encoding of a text |
| `Unicode.SpliceLengths` | zed-web-gateway/crates/gateway-web/src/text_edits.rs:28-60 | a splice changes the UTF-16 and the UTF-8 length by inserted minus removed width |
| `Unicode.Utf8Injective` | zed-web-gateway/crates/gateway-web/src/commands.rs:314-355 | no two texts have one encoding: bytes that arrive determine the text |
| `TextEdits.Utf16OffsetToByteIndex` | zed-web-gateway/crates/gateway-web/src/text_edits.rs:62-84 | the loop answers with the byte index of the one place at that UTF-16 offset; otherwise it says exactly whether the offset splits a surrogate pair or lies outside the text |
| `TextEdits.OffsetPlaceInside` | zed-web-gateway/crates/gateway-web/src/text_edits.rs:73-80 | an offset strictly inside a scalar is refused on every text |
| `TextEdits.LineCharacterToByteIndex` | zed-web-gateway/crates/gateway-web/src/text_edits.rs:132-160 | inside one line, the loop over bytes answers as an offset lookup in that line, with the two character errors kept apart |
| `TextEdits.PositionPlaceOnLine` | zed-web-gateway/crates/gateway-web/src/text_edits.rs:86-160 | a (line, character) lookup is the UTF-16 lookup within that line alone, whatever surrounds the line |
| `TextEdits.PositionToByteIndex` | zed-web-gateway/crates/gateway-web/src/text_edits.rs:86-123 | finds the byte index of the one place whose (line, character) pair is given, and says exactly which of the three ways it does not exist |
| `TextEdits.ChangeAccepted` | zed-web-gateway/crates/gateway-web/src/text_edits.rs:28-60 | a change is accepted if and only if its two positions and its two offsets name the same pair of places and offset plus length fits 64 bits; the start-after-end refusal is never reached |
| `TextEdits.FirstFailure` | zed-web-gateway/crates/gateway-web/src/text_edits.rs:28-60 | a refused change is refused for its first failing check: start offset, overflow, end offset, then the positions, then the mismatch |
| `TextEdits.LineOutsideExactly` | zed-web-gateway/crates/gateway-web/src/text_edits.rs:86-123 | the line is reported missing if and only if the text has fewer lines |
| `TextEdits.StringBuffer.ReplaceRange` | zed-web-gateway/crates/gateway-web/src/text_edits.rs:57-59 | replacing the bytes between two boundaries in place leaves the spliced text |
| `TextEdits.ApplyTextChange` | zed-web-gateway/crates/gateway-web/src/text_edits.rs:28-60 | splices an accepted change into the text in place; a refused one reports the first failing check and leaves the text alone |
| `TextEdits.ApplyTextChangeBatches` | zed-web-gateway/crates/gateway-web/src/text_edits.rs:4-26 | the in-place fold over rising batch numbers gives the specified text or the first error, batch numbers included |
| `TextEdits.NumberRefused` | zed-web-gateway/crates/gateway-web/src/text_edits.rs:11-18 | a batch is refused for its number if and only if the ones before it apply and it does not rise above the last |
| `TextEdits.ApplyChangesConcat` | zed-web-gateway/crates/gateway-web/src/text_edits.rs:20-24 | applying two lists one after the other is applying their concatenation |
| `MonacoOrder.SequentialIsSimultaneous` | zed-web-gateway/crates/gateway-web/src/text_edits.rs:20-60 | for any descending disjoint change list, one splice after another is accepted throughout and equals a single simultaneous substitution whose ranges are all read in the text before the list |
| `MonacoOrder.RunningText` | zed-web-gateway/crates/gateway-web/src/text_edits.rs:28-60 | the next change of such a list is located at the same places in the running text as in the original text |
| `MonacoOrder.BatchLengths` | zed-web-frontend/src/store/bufferRuntime.js:768-776 | UTF-16 and byte lengths change by exactly the inserted minus the removed widths of the list |
| `BrowserText.Utf16OffsetToStringIndex` | zed-web-frontend/src/store/bufferRuntime.js:818-831 | the loop stops at the first scalar boundary at or after the offset |
| `BrowserText.ApplyChangesInBrowser` | zed-web-frontend/src/store/bufferRuntime.js:768-776 | the loop computes the fold of browser splices, each clamped to a boundary |
| `BrowserText.BrowserMatchesGateway` | zed-web-frontend/src/store/bufferRuntime.js:768-776 | wherever the gateway accepts a change list, the browser computes the same text |
| `BrowserText.OffsetToLspPosition` | zed-web-frontend/src/store/bufferRuntime.js:785-802 | the loop counts line and UTF-16 column from the last line break before the target |
| `BrowserText.OffsetAndPositionAgree` | zed-web-frontend/src/store/bufferRuntime.js:785-802 | looking up the position the browser sends for an offset answers at the gateway exactly as looking up the offset itself, error kind included |
| `BrowserText.TreeSitterPointAt` | zed-web-frontend/src/store/bufferRuntime.js:804-812 | the row and byte column cut out of the split lines are those of the place |
| `BrowserText.TreeSitterEditCorrect` | zed-web-frontend/src/store/bufferRuntime.js:724-744 | new end index and point equal those recomputed from scratch in the spliced text, for any inserted text with any number of line breaks |
| `BrowserText.BatchTreeSitterEdits` | zed-web-frontend/src/store/bufferRuntime.js:299-301 | in a descending list, computing each edit against the text before the list equals computing it against the running text |
| `PendingLog.PushBatch` | zed-web-frontend/src/store/bufferRuntime.js:278-316 | a log replayed by the gateway gives the current text; one more batch with the next number, accepted on the current text, keeps it so |
| `PendingLog.SnapshotReplays` | zed-web-frontend/src/store/bufferRuntime.js:746-766 | the batch that replaces the whole base is accepted by the gateway and yields the current text |
| `PendingLog.OrderedEditsAreBatch` | zed-web-frontend/src/store/bufferRuntime.js:401-436 | workspace edits given last-first and disjoint, each between places of the text, become a change list in editor order |
| `PendingLog.BatchEditsRight` | zed-web-frontend/src/store/bufferRuntime.js:299-301 | the syntax-tree edits a batch carries are, for each change, those read off from scratch in the text that the earlier changes of the batch leave |
| `PendingLog.SnapshotEditsRight` | zed-web-frontend/src/store/bufferRuntime.js:746-766 | so is the one edit of the batch that replaces a whole base |
| `PendingLog.ChangesSayEdits` | zed-web-frontend/src/store/bufferRuntime.js:401-436 | each change of an ordered workspace edit replaces exactly the scalars its edit names, by its text or nothing; an edit without an offset inserts at the end |
| `PendingLog.StepIsLocal` | zed-web-frontend/src/store/bufferRuntime.js:87-447 | an operation on one path changes nothing that the service knows about another |
| `PendingLog.StepKeepsInvariant` | zed-web-frontend/src/store/bufferRuntime.js:38-447 | load, edit, offline edit, save, conflict, discard, revert, backup and restore, an attached editor or not, each keep: the log of every copy that can be edited is numbered from 1, descends, and replays its base to its current text; the live model shows that text |
| `PendingLog.RunKeepsInvariant` | zed-web-frontend/src/store/bufferRuntime.js:38-447 | the same over every run of operations on any paths |
| `StepEffects.BaseAfter` | zed-web-frontend/src/store/bufferRuntime.js:38-447 | after each operation, in any state, the base is the content loaded or saved, the text reverted to or set clean, the base of a restored backup, and otherwise what it was |
| `StepEffects.VersionAfter` | zed-web-frontend/src/store/bufferRuntime.js:38-447 | the version changes only with a finished load or a save that brings one, and comes back with a restored backup |
| `StepEffects.LogAfter` | zed-web-frontend/src/store/bufferRuntime.js:38-447 | an edit makes the log one batch longer, keeping the rest; a load, save, discard, revert or clean text empties it; a restore brings back the backup's, or the one batch that stands for it |
| `StepEffects.DirtyAfter` | zed-web-frontend/src/store/bufferRuntime.js:38-447 | the dirty flag is set by edits, marks and restores, cleared by loads, saves, discards, reverts and clean texts, and else stays |
| `StepEffects.ConflictAfter` | zed-web-frontend/src/store/bufferRuntime.js:38-447 | the conflict flag is set by a save that meets one or a restore, cleared by a load, save, discard or revert, and else stays |
| `StepEffects.LockAfter` | zed-web-frontend/src/store/bufferRuntime.js:137-209 | a copy cannot be edited while it loads or after a load that failed, and can again after a whole load or a restore |
| `StepEffects.BackupAfter` | zed-web-frontend/src/store/bufferRuntime.js:593-621 | a backup holds base, version, shown text, log and conflict of a copy that has anything to restore, and is gone once the text is clean |
| `StepEffects.ShownAfter` | zed-web-frontend/src/store/bufferRuntime.js:38-447 | what the user sees after each operation: only edits, loads, texts put in, discards, reverts and restores change it |
| `StepEffects.KeptAfter` | zed-web-frontend/src/store/bufferRuntime.js:87-447 | an editor that closes leaves its text in the service's contents; every other operation that puts in a text puts it there too |
| `StepEffects.StepKeepsClean` | zed-web-frontend/src/store/bufferRuntime.js:38-447 | a copy that is not dirty has an empty log and, unless it is loading or locked, holds its base; every operation keeps that |
| `StepEffects.CleanShowsBase` | zed-web-frontend/src/store/bufferRuntime.js:38-447 | so over every run a buffer that is not dirty and can be edited shows exactly its base: closing it loses nothing |
| `StepEffects.FreshIsClean` | zed-web-frontend/src/store/bufferRuntime.js:447-467 | a copy made on first use is clean, editable, under no version and without a log |
| `StepEffects.AnswerExactly` | zed-web-frontend/src/store/bufferRuntime.js:343-362 | a conflict answer marks the copy and leaves all else, the log included; an answer that is neither changes nothing |
| `LogLimits.SetContentExactly` | zed-web-frontend/src/store/bufferRuntime.js:118-135 | setting a whole text without marking it clean keeps the log right if and only if the text did not change |
| `LogLimits.DiscardExactly` | zed-web-frontend/src/store/bufferRuntime.js:364-377 | discarding keeps the service consistent if and only if no live model is attached or it already shows the base |
| `LogLimits.CloseTabExactly` | zed-web-frontend/src/hooks/useRemoteWorkspace.js:48-61 | closing a dirty tab with its editor mounted leaves the copy describing what it holds if and only if the editor showed the base text |
| `LogLimits.AnsweredPathExactly` | zed-web-frontend/src/store/bufferRuntime.js:343-362 | an answer naming another path leaves the saved copy as it was and calls its text saved under that path, consistently if and only if no editor shows another text there |
| `LogLimits.RestoreExactly` | zed-web-frontend/src/store/bufferRuntime.js:38-85 | restoring keeps the service consistent if and only if no live model is attached or it already shows the backed-up text |
| `LogLimits.RestoreOverModelDiverges` | zed-web-frontend/src/hooks/useRemoteWorkspace.js:92-130 | fails otherwise: restored under an editor whose text ends at the same place, an ordinary append leaves a log that the gateway replays to another text of the expected length |
| `LogLimits.RestoreOverModelReached` | zed-web-frontend/src/hooks/useRemoteWorkspace.js:397-416 | a run of ordinary steps that leads to such a state: load, replace, backup, undo |
| `LogLimits.SingleEditExactly` | zed-web-frontend/src/store/bufferRuntime.js:401-436 | one edit on a closed buffer keeps the log right if and only if the browser's own conversion leaves both its ends where they are |
| `LogLimits.OfflineEditExactly` | zed-web-frontend/src/store/bufferRuntime.js:401-436 | any edit list on a closed buffer keeps the log right if and only if each change, met in turn in the browser's running text, still names places there and the positions it was given in the first text |
| `LogLimits.AcceptedInPlace` | zed-web-gateway/crates/gateway-web/src/text_edits.rs:20-60 | the gateway accepts a change list if and only if, by browser arithmetic alone, every change is in place in the text the browser has when it comes to it; then both arrive at one text |
| `LogLimits.AscendingEditsRefused` | zed-web-frontend/src/store/bufferRuntime.js:401-436 | a concrete ascending edit list that the browser logs and the gateway refuses, on every non-empty one-line text |
| `LogLimits.RestoreRoundTrip` | zed-web-frontend/src/store/bufferRuntime.js:593-612 | backup followed by a restore in a new session brings back text, base, version and batches |
| `LogLimits.RestoreWithoutBatches` | zed-web-frontend/src/store/bufferRuntime.js:48-52 | a dirty record without batches is restored with a log that replays its base to its text |
| `WorkingCopyServices.WorkingCopyService.OnModelContentChanged` | zed-web-frontend/src/store/bufferRuntime.js:278-316 | logs the reported changes as the next batch, under the queued source; its syntax-tree edits are, one for each change, those read off the text the earlier changes of the batch leave; during a remote change it logs nothing |
| `WorkingCopyServices.WorkingCopyService.SetContent` | zed-web-frontend/src/store/bufferRuntime.js:118-135 | makes exactly the specified transition of the service state |
| `WorkingCopyServices.WorkingCopyService.StartLoading` | zed-web-frontend/src/store/bufferRuntime.js:137-155 | makes exactly the specified transition of the service state |
| `WorkingCopyServices.WorkingCopyService.AppendChunk` | zed-web-frontend/src/store/bufferRuntime.js:157-164 | makes exactly the specified transition of the service state, the live model included |
| `WorkingCopyServices.WorkingCopyService.FinishLoading` | zed-web-frontend/src/store/bufferRuntime.js:166-200 | makes what has been loaded the base, with an empty log and no backup |
| `WorkingCopyServices.WorkingCopyService.FailLoading` | zed-web-frontend/src/store/bufferRuntime.js:202-209 | marks the copy failed and read-only and touches nothing else |
| `WorkingCopyServices.WorkingCopyService.AttachEditor` | zed-web-frontend/src/components/editor/EditorPane.jsx:69-73 | attaching a model and then putting the kept text into it leaves the kept text, and logs nothing |
| `WorkingCopyServices.WorkingCopyService.DetachModel` | zed-web-frontend/src/store/bufferRuntime.js:95-107 | keeps the model's last text as the copy's content |
| `WorkingCopyServices.WorkingCopyService.MarkSaved` | zed-web-frontend/src/store/bufferRuntime.js:237-256 | the saved text becomes the base and the log and the backup are gone |
| `WorkingCopyServices.WorkingCopyService.EditClosed` | zed-web-frontend/src/store/bufferRuntime.js:403-435 | on a closed buffer the located edits are logged as a batch of their own, which says exactly the edits asked for and carries the right syntax-tree edits, and applied |
| `WorkingCopyServices.WorkingCopyService.ApplyWorkspaceEdit` | zed-web-frontend/src/store/bufferRuntime.js:401-445 | on an open buffer the editor's report, if one comes, is logged under the edit's source; if none comes nothing changes and the source waits for the next report |
| `WorkingCopyServices.WorkingCopyService.GetSavePayload` | zed-web-frontend/src/store/bufferRuntime.js:333-341 | sends the base version, every batch of the log with its own number, source and changes, and the byte length of what is shown |
| `WorkingCopyServices.WorkingCopyService.HandleSaveComplete` | zed-web-frontend/src/store/bufferRuntime.js:343-362 | a conflict only marks the copy; a saved answer clears the log, for the path and version it names; any other answer changes nothing |
| `WorkingCopyServices.WorkingCopyService.Discard` | zed-web-frontend/src/store/bufferRuntime.js:364-377 | back to the base, with no log and no backup |
| `WorkingCopyServices.WorkingCopyService.Revert` | zed-web-frontend/src/store/bufferRuntime.js:379-399 | the given remote text becomes base, content and model, with an empty log |
| `WorkingCopyServices.WorkingCopyService.WriteBackup` | zed-web-frontend/src/store/bufferRuntime.js:593-621 | stores the record of a dirty or conflicting copy, and leaves any other alone |
| `WorkingCopyServices.WorkingCopyService.RestoreWorkspace` | zed-web-frontend/src/store/bufferRuntime.js:38-85 | after the loop every dirty record is restored with its own remote status and every other path is as it was |
| `StepEffects.LoadedOk` | zed-web-frontend/src/store/bufferRuntime.js:137-200 | a streamed load keeps the invariant of every path and leaves base and content equal to the chunks joined |
| `StepEffects.ReloadedOk` | zed-web-frontend/src/hooks/useRemoteWorkspace.js:363-395 | the application's revert, a finished load with the new version and then the text that was read, leaves base, content and version in agreement and every other path alone |
| `StepEffects.OpenedWholeOk` | zed-web-frontend/src/hooks/useRemoteWorkspace.js:271-294 | the fallback open leaves the whole text as base and content under a marker that equals no version |
| `StepEffects.SavedWholeOk` | zed-web-frontend/src/hooks/useRemoteWorkspace.js:328-339 | the fallback save leaves what is shown as base, with no log and no backup |
| `StepEffects.BasesKept` | zed-web-frontend/src/store/bufferRuntime.js:38-447 | only a finished load, a save, a revert and a clean whole-text set change a copy's base or version, or a backup's |
| `SshSave.RemoteFiles.SaveBufferViaTransport` | zed-web-gateway/crates/gateway-web/src/registry/handle.rs:768-803 | for any payload: accepted if and only if the version is that of the file, the batches apply and the length fits; then the file is left at the batches applied to its text, and the highest batch number is reported; in every other case, refusals included, no file changes |
| `SshSave.HighestNumber` | zed-web-gateway/crates/gateway-web/src/registry/handle.rs:790-796 | the reported applied number is the maximum over the batches |
| `SshSave.SaveOverExactly` | zed-web-gateway/crates/gateway-web/src/registry/handle.rs:768-803 | for any text, version, batches and length: exactly when a save is accepted, a conflict or refused, with which reply, and that only an accepted one changes the text |
| `SshSave.RefusedChangesNothing` | zed-web-gateway/crates/gateway-web/src/registry/handle.rs:768-803 | a refused save leaves the browser's state and every file as they were |
| `SshSave.SyncExactly` | zed-web-gateway/crates/gateway-web/src/registry/handle.rs:326-377 | a file is missing, unchanged or changed exactly as its text and the version asked about say, and the answer brings the version it has |
| `SshSave.FetchedExactly` | zed-web-gateway/crates/gateway-web/src/registry/handle.rs:657-684 | a file that comes over SSH becomes base and content with nothing logged, under its digest, or under no version if it came whole |
| `SshSave.SavedWholeExactly` | zed-web-frontend/src/hooks/useRemoteWorkspace.js:328-339 | a whole-file save writes what the user sees, whatever the file held, and that is the new base |
| `SshSave.SaveWritesWhatIsShown` | zed-web-gateway/crates/gateway-web/src/registry/handle.rs:768-803 | if the remote text is the copy's base, the gateway accepts the payload and writes exactly what the editor shows |
| `SshSave.SaveIsSafe` | zed-web-gateway/crates/gateway-web/src/registry/handle.rs:768-803 | in every consistent world a save either writes what is shown over exactly the base the user started from, or changes nothing and reports a conflict; it is never refused; after a save the copy carries the version of what the file then holds |
| `SshSave.WorldRunOk` | zed-web-gateway/crates/gateway-web/src/registry/handle.rs:768-803 | consistency of browser, versions and remote files over every run of local work, loads, saves, reverts, whole-file opens and saves, restores, and writes by others |
| `SshSave.EndToEndSave` | zed-web-frontend/src/store/bufferRuntime.js:278-341 | from an empty browser, through any such run, the file after a save holds what is shown if it held the base, and is untouched otherwise |
| `SshSave.InterruptedSaveExactly` | zed-web-gateway/crates/gateway-web/src/registry/handle.rs:768-803 | what another writer puts in the file between the read and the write of a save is overwritten if and only if the file held the copy's base at the read and the two texts differ |
| `SshSave.RestoreAfterSync` | zed-web-gateway/crates/gateway-web/src/registry/handle.rs:326-377 | after asking for the remote status, a restored copy is in conflict exactly when the backup was or the remote text moved; its next save writes the backed-up text over its base or nothing |
| `SshSave.RestoreOverModelWritesOther` | zed-web-frontend/src/hooks/useRemoteWorkspace.js:92-130 | what the gateway does with such a log: it accepts the save and writes a text that differs from the one shown |
| `SshSave.LateCompletionExactly` | zed-web-frontend/src/store/bufferRuntime.js:343-362 | a save answered after further edits leaves base, version and written text in agreement if and only if those edits changed nothing |
| `SshSave.LateEditsNotSaved` | zed-web-frontend/src/store/bufferRuntime.js:343-362 | what the next save of such a copy does: refused over its length, or accepted without the late edits when the lengths happen to agree |
| `ProxyOps.IncrementVersion` | zed-web-gateway/crates/gateway-zed-proxy/src/client.rs:700-717 | raises one replica's entry, or appends it |
| `ProxyOps.IncrementedTimestamp` | zed-web-gateway/crates/gateway-zed-proxy/src/client.rs:700-717 | incrementing raises one replica's timestamp by one and no other |
| `ProxyOps.OperationsFromBatches` | zed-web-gateway/crates/gateway-zed-proxy/src/client.rs:433-502 | the loop over batches with its in-place text gives the specified operations, text and version, or the first error |
| `ProxyOps.OperationClocks` | zed-web-gateway/crates/gateway-zed-proxy/src/client.rs:433-502 | over any batches the operations' Lamport timestamps are consecutive, and the version of each is the whole clock that the base clock and the operations before it lead to |
| `ProxyOps.CompiledNumbersRise` | zed-web-gateway/crates/gateway-zed-proxy/src/client.rs:450-457 | batches that compile have strictly rising numbers from 1, so the last one, which the reply reports, is the highest |
| `Replays.SortedIsStable` | zed-web-gateway/crates/gateway-zed-proxy/src/client.rs:678-684 | the sort is descending, a permutation, and keeps ranges of equal start in their order |
| `Replays.ReplaceInPlace` | zed-web-gateway/crates/gateway-zed-proxy/src/client.rs:686-691 | an invalid range is refused and a range that cuts a character stops; any other is spliced in place |
| `Replays.ReplaceExactly` | zed-web-gateway/crates/gateway-zed-proxy/src/client.rs:686-691 | in bytes: a reversed range or one past the end is invalid, one off the boundaries cuts a character, and any other replaces exactly its bytes |
| `Replays.ApplyOperations` | zed-web-gateway/crates/gateway-zed-proxy/src/client.rs:666-698 | the in-place replay computes the specified text or the first error |
| `Replays.ReplayInOrder` | zed-web-gateway/crates/gateway-zed-proxy/src/client.rs:433-526 | every compiled range lies on boundaries of the text it meets, and replaying them unsorted gives the compiled text |
| `Replays.RangesDescend` | zed-web-gateway/crates/gateway-zed-proxy/src/client.rs:433-502 | descending offsets compile to descending byte ranges, though each is read in another text |
| `Replays.CompileThenReplay` | zed-web-gateway/crates/gateway-zed-proxy/src/client.rs:433-502 | for every base, version and descending batches, replaying the operations gives exactly the text they were compiled with |
| `Replays.AscendingRangesDiverge` | zed-web-gateway/crates/gateway-zed-proxy/src/client.rs:666-698 | a concrete ascending batch that compiles and whose replay, after the sort, gives another text |
| `Replays.ChangesAgree` | zed-web-gateway/crates/gateway-zed-proxy/src/client.rs:433-502 | for one change list, the cross-checking applier succeeds if and only if the compiler does with every range matching its offsets |
| `Replays.AppliersAgree` | zed-web-gateway/crates/gateway-web/src/text_edits.rs:4-60 | the same for whole saves, on all inputs; where both succeed they give one text |
| `Replays.AppliersFailAlike` | zed-web-gateway/crates/gateway-zed-proxy/src/client.rs:183-227 | and they fail alike: what does not compile is refused by the cross-checking applier for the same reason |
| `ProxySessions.OpenAgrees` | zed-web-gateway/crates/gateway-zed-proxy/src/client.rs:101-181 | opening a buffer, cached or streamed, returns the peer's text and version and keeps cache agreement for every path |
| `ProxySessions.WriteAgrees` | zed-web-gateway/crates/gateway-zed-proxy/src/client.rs:244-270 | sending operations that replay to the cached text moves both sides to the same new text and version |
| `ProxySessions.BatchSaveAgrees` | zed-web-gateway/crates/gateway-zed-proxy/src/client.rs:229-270 | a batch save succeeds exactly when the batches compile to the expected length; then cache and peer agree on the compiled text and clock, and otherwise the request is refused |
| `ProxySessions.RefusedFor` | zed-web-gateway/crates/gateway-zed-proxy/src/client.rs:229-270 | a batch save is refused for the first batch error, or for its length with both lengths named, or because the peer fails |
| `ProxySessions.AscendingSaveDisagrees` | zed-web-gateway/crates/gateway-zed-proxy/src/client.rs:229-270 | a concrete ascending batch that is saved and accepted, after which the client's cache and the file hold two texts under one version |
| `ProxySessions.OverwriteAgrees` | zed-web-gateway/crates/gateway-zed-proxy/src/client.rs:183-227 | an overwrite leaves both sides at the new text under a version raised by one |
| `ProxySessions.OverwriteClocks` | zed-web-gateway/crates/gateway-zed-proxy/src/client.rs:183-227 | the whole-file operation is made at the buffer's whole clock and carries the next Lamport timestamp after it |
| `ProxyClients.FakeProxy.OpenBufferByPath` | zed-web-gateway/crates/gateway-web/src/fake_remote_proxy.rs:52-127 | the reference peer's answer and new state are the specified ones; a file that cannot be read ends the peer |
| `ProxyClients.FakeProxy.UpdateBuffer` | zed-web-gateway/crates/gateway-web/src/fake_remote_proxy.rs:128-149 | applies every edit to the file and counts one tick each; a bad edit stops it before anything is written |
| `ProxyClients.FakeProxy.SaveBuffer` | zed-web-gateway/crates/gateway-web/src/fake_remote_proxy.rs:150-166 | answers with the version of the opened buffer |
| `ProxyClients.ProxyClient.OpenBufferByPath` | zed-web-gateway/crates/gateway-zed-proxy/src/client.rs:101-181 | a cached buffer is returned as it is; any other is cached as the peer streams it; a file that cannot be read is an error and changes nothing |
| `ProxyClients.ProxyClient.ApplyBatchesAndSave` | zed-web-gateway/crates/gateway-zed-proxy/src/client.rs:229-270 | compile, check the length, update, save, cache, in the source's order; one operation is sent for each batch that changes anything, each made at the whole clock the ones before it lead to; what is refused for its batches or its length reaches neither the peer nor the cache |
| `ProxyClients.ProxyClient.OverwriteAndSave` | zed-web-gateway/crates/gateway-zed-proxy/src/client.rs:183-227 | sends one operation that replaces the whole text, made at the buffer's whole clock and numbered next after it, and asks to save at the clock that follows; then caches what was written |
| `ProxyClients.ProxyClient.UpdateAndSave` | zed-web-gateway/crates/gateway-zed-proxy/src/client.rs:244-270 | sends operations only if there are any, saves, and caches the compiled text under the answered version |
| `ProxyGateway.SaveBufferViaProxy` | zed-web-gateway/crates/gateway-web/src/registry/handle.rs:712-758 | open, compare versions, apply and save under the session's lock, exactly as specified; the peer does not fail on batches in order over a file that exists; a save that is not accepted leaves every file alone |
| `Collaboration.SaveViaProxyFacts` | zed-web-gateway/crates/gateway-web/src/registry/handle.rs:712-758 | a save is answered with a conflict exactly when the peer's clock differs; else it writes the compiled text if the length fits, and in every other case file and clock are untouched |
| `Collaboration.SaveIsSafe` | zed-web-gateway/crates/gateway-web/src/registry/handle.rs:712-758 | no lost update: a save is accepted exactly when the copy's version is still the file's, and then the file held the very base the user started from and now holds what the user sees; a conflict changes nothing; after a save the copy carries the file's new version |
| `Collaboration.SaveOverSshIsSafe` | zed-web-gateway/crates/gateway-web/src/registry/handle.rs:768-803 | in the same worlds, a save of a copy that came over SSH writes what the user sees over the very base the user started from, or changes nothing and reports a conflict |
| `Collaboration.LedgerAfterWrite` | zed-web-gateway/crates/gateway-zed-proxy/src/client.rs:700-717 | equal versions of a path mean equal text: a write with a strictly later timestamp outdates every version handed out before |
| `Collaboration.OverwriteFacts` | zed-web-gateway/crates/gateway-web/src/registry/handle.rs:686-710 | a whole-file save writes its content under a later clock and leaves every other file alone |
| `Collaboration.SaveOk` | zed-web-gateway/crates/gateway-web/src/registry/handle.rs:712-758 | a batch save of any browser keeps the world of browsers, cache, peer and handed-out versions consistent |
| `Collaboration.RunIsSafe` | zed-web-gateway/crates/gateway-web/src/registry/handle.rs:168-758 | the same over every interleaving of local work, opens, reverts, status requests with restores, batch saves, whole-file opens and saves of any number of browsers, through the proxy or over SSH, restarts of the peer and writes past the session under their exact conditions |
| `Collaboration.RefusedChangesNothing` | zed-web-gateway/crates/gateway-web/src/registry/handle.rs:712-758 | a save through the proxy that is refused changes no browser, no file and no clock |
| `Collaboration.SyncedExactly` | zed-web-gateway/crates/gateway-web/src/registry/handle.rs:326-377 | a status request answers missing exactly for a file that is gone and unchanged exactly for the version the session would hand out, clock or digest; it moves no text and no clock |
| `Collaboration.UnknownVersionSave` | zed-web-gateway/crates/gateway-web/src/registry/handle.rs:304-324 | a save of a copy without a version is always a conflict, whatever its log; it opens no buffer and reaches no file |
| `Collaboration.FetchedExactly` | zed-web-gateway/crates/gateway-web/src/registry/handle.rs:204-264 | the same for any browser on the session, under the session's clock or the digest as the route says; no file, no clock and no other browser moves |
| `Collaboration.SavedWholeExactly` | zed-web-frontend/src/hooks/useRemoteWorkspace.js:328-339 | a whole-file save by any browser, over either route, writes what its user sees, which is its new base; no other file and no other browser is touched |
| `Collaboration.EndToEndSave` | zed-web-gateway/crates/gateway-web/src/registry/handle.rs:304-324 | from fresh browsers on a fresh session, after any such run, whatever copy is saved next, through the proxy or over SSH as its version says, no update is lost |
| `Collaboration.WriteElsewhereExactly` | zed-web-gateway/crates/gateway-web/src/registry/handle.rs:266-324 | a write past the session, the SSH fallbacks included, keeps cache, peer and handed-out versions consistent if and only if it changes nothing or the file is unopened in the session |
| `Collaboration.RestartExactly` | zed-web-gateway/crates/gateway-web/src/registry/handle.rs:168-185 | after a reconnect to a restarted peer, equal versions go on meaning equal texts if and only if only first versions were handed out and what was handed out is still there |
| `Collaboration.RestoreAfterSync` | zed-web-gateway/crates/gateway-web/src/registry/handle.rs:326-377 | after its version was asked for through the proxy, a restored copy is in conflict exactly when its backup was or that version is no longer the file's; the next save writes the backed-up text over its base or nothing |
| `Collaboration.EqualVersionSave` | zed-web-gateway/crates/gateway-web/src/registry/handle.rs:712-758 | a copy that carries the file's version is never answered with a conflict, whatever its base: its batches are compiled over the file's text and written exactly when the length is the expected one |
| `Collaboration.SaveAfterRestart` | zed-web-gateway/crates/gateway-web/src/registry/handle.rs:168-185 | a save after a restart is a conflict if and only if its version is not the first; at the first version the reply and the text written are those of its batches compiled over whatever the file holds by then, and a copy without edits is told it was saved exactly when the lengths agree |
| `Delivery.IdsRise` | zed-web-gateway/crates/gateway-zed-proxy/src/client.rs:644-648 | identifiers of buffered sends strictly rise and stay below the next one, though unbuffered sends consume some |
| `Delivery.PoppedIsUnacked` | zed-web-gateway/crates/gateway-zed-proxy/src/client.rs:393-401 | popping the front while it is acknowledged is filtering the whole queue |
| `Delivery.QueueIsUnacked` | zed-web-gateway/crates/gateway-zed-proxy/src/client.rs:347-401 | in every reachable state the queue is exactly the buffered sends above the largest acknowledgement ever read, whatever order they came in |
| `Delivery.EarlyAckBreaksQueue` | zed-web-gateway/crates/gateway-zed-proxy/src/client.rs:393-401 | without the hypothesis that acknowledgements name assigned identifiers, that is false: a concrete run |
| `Delivery.AcksWereRead` | zed-web-gateway/crates/gateway-zed-proxy/src/client.rs:644-648 | every stamped acknowledgement is 0 or an identifier actually read; the newest stamp is the last tracked read |
| `Delivery.RunOk` | zed-web-gateway/crates/gateway-zed-proxy/src/client.rs:347-408 | over any drops and repeats, acknowledgements cover only what was received and the queue is bounded by assigned identifiers |
| `Delivery.NothingIsLost` | zed-web-gateway/crates/gateway-zed-proxy/src/client.rs:347-408 | each envelope ever sent through the queue is received or still queued |
| `Delivery.ReplayRecovers` | zed-web-gateway/crates/gateway-zed-proxy/src/client.rs:366-381 | a replay resends the unacknowledged sends, in order and with unchanged identifiers, and all that the peer still misses is among them |
| `ProxyConnections.ProxyConnection.WriteBufferedEnvelope` | zed-web-gateway/crates/gateway-zed-proxy/src/client.rs:347-355 | stamps, queues and writes one envelope |
| `ProxyConnections.ProxyConnection.WriteUnbufferedEnvelope` | zed-web-gateway/crates/gateway-zed-proxy/src/client.rs:357-364 | stamps and writes one envelope without queueing it |
| `ProxyConnections.ProxyConnection.ReplayBufferedMessages` | zed-web-gateway/crates/gateway-zed-proxy/src/client.rs:366-381 | the loop writes the whole queue again, unchanged |
| `ProxyConnections.ProxyConnection.ReadEnvelope` | zed-web-gateway/crates/gateway-zed-proxy/src/client.rs:383-408 | retires exactly the front of the queue that is acknowledged, and remembers the identifier of a tracked envelope |
| `ProxyConnections.ProxyConnection.HandleUnsolicited` | zed-web-gateway/crates/gateway-zed-proxy/src/client.rs:300-319 | a ping adds one acknowledgement to queue and wire whatever it responds to, a request for a worktree id the next id, a flush the whole queue to the wire and an acknowledgement past the queue; anything else is acknowledged once if it responds to nothing, and not at all otherwise |
| `ProxyConnections.ProxyConnection.AckIfNeeded` | zed-web-gateway/crates/gateway-zed-proxy/src/client.rs:321-326 | acknowledges through the queue exactly what is not itself a response |
| `ProxyConnections.ProxyConnection.Request` | zed-web-gateway/crates/gateway-zed-proxy/src/client.rs:282-298 | returns the first envelope that answers the request, having answered every envelope before it in order; the connection stays the state its recorded exchanges lead to |
| `ProxyConnections.ProxyConnection.Initialize` | zed-web-gateway/crates/gateway-zed-proxy/src/client.rs:59-76 | answers everything up to the peer's own announcement, which is acknowledged outside the queue |
| `ProxyConnections.ProxyConnection.TakeStreamed` | zed-web-gateway/crates/gateway-zed-proxy/src/client.rs:122-181 | one envelope of the chunk-waiting loop: taken in if it is a piece of the buffer, answered by exactly its run of sends, not answered if it ends the wait with an error |
| `ProxyConnections.ProxyConnection.ReceiveBuffer` | zed-web-gateway/crates/gateway-zed-proxy/src/client.rs:119-181 | the chunk-waiting loop ends with the first error or last chunk and returns what the pieces come to, having answered everything before it in order |
| `ProxyConnections.ProxyConnection.BufferFor` | zed-web-gateway/crates/gateway-zed-proxy/src/client.rs:114-181 | a cached buffer is returned without reading anything; any other is streamed and cached, unless the wait ends with an error |
| `ProxyConnections.ProxyConnection.OpenBufferByPath` | zed-web-gateway/crates/gateway-zed-proxy/src/client.rs:101-181 | request, answer, and then the cached or the streamed buffer, with all that is read and sent on the way |
| `BufferStreams.TakePiece` | zed-web-gateway/crates/gateway-zed-proxy/src/client.rs:136-167 | state and operations gathered are those of the pieces so far; the last chunk assembles them |
| `BufferStreams.FlushResentExactly` | zed-web-gateway/crates/gateway-zed-proxy/src/client.rs:59-181 | a flush makes the client resend its queue if and only if it is read outside the chunk-waiting loop; there it is acknowledged through the queue |
| `BufferStreams.NothingResentWhileStreaming` | zed-web-gateway/crates/gateway-zed-proxy/src/client.rs:122-181 | whatever is read while a buffer streams, everything that goes on the wire is a new acknowledgement |
| `BufferStreams.AnsweredExactly` | zed-web-gateway/crates/gateway-zed-proxy/src/client.rs:300-326 | in every state, with any envelope read that nobody waits for: exactly which envelopes are added to wire and queue, what they respond to and what they carry |
| `BufferStreams.AnsweredWhileGreeting` | zed-web-gateway/crates/gateway-zed-proxy/src/client.rs:59-76 | the same while the connection is set up, where acknowledgements are not answered and the peer's announcement is acknowledged past the queue |
| `BufferStreams.AnsweredWhileStreaming` | zed-web-gateway/crates/gateway-zed-proxy/src/client.rs:122-181 | the same while a buffer streams: the remote server's pieces are acknowledged, anyone else's and errors are not, the rest if it responds to nothing |
| `BufferStreams.PiecesExactly` | zed-web-gateway/crates/gateway-zed-proxy/src/client.rs:122-167 | a piece of a buffer is exactly a state or chunk of that buffer sent by the remote server |
| `BufferStreams.WaitExactly` | zed-web-gateway/crates/gateway-zed-proxy/src/client.rs:122-181 | a wait is ended by an error or by the buffer's last chunk, and by nothing else, with what its pieces come to |
| `BufferStreams.StreamMatchesOpening` | zed-web-gateway/crates/gateway-zed-proxy/src/client.rs:101-181 | whatever arrives in between, the reference peer's stream comes to exactly the text and version of the session model |
| `BufferStreams.EqualVersionsTwoTexts` | zed-web-gateway/crates/gateway-zed-proxy/src/client.rs:145-165 | two waits from one state, with and without operations among the chunks, end with one version, and over two texts if and only if the operations change the text |
| `BufferStreams.StreamedDisagreesExactly` | zed-web-gateway/crates/gateway-zed-proxy/src/client.rs:145-165 | what the client caches from a stream with operations agrees with the peer if and only if they leave the text as it is |
| `ConnectionRuns.HeardIsRun` | zed-web-gateway/crates/gateway-zed-proxy/src/client.rs:282-326 | reading and answering any envelopes, in any of the three loops, is a run of the client's four actions |
| `ConnectionRuns.ReachedIsRun` | zed-web-gateway/crates/gateway-zed-proxy/src/client.rs:42-408 | every state a connection reaches through setup, requests and opens is that of the run of its history |
| `ConnectionRuns.ConnectionQueue` | zed-web-gateway/crates/gateway-zed-proxy/src/client.rs:347-408 | so in each of them the queue is exactly the buffered sends above the largest acknowledgement read, identifiers rise, and every stamped acknowledgement is 0 or was read |
| `ConnectionRuns.ConnectionFlush` | zed-web-gateway/crates/gateway-zed-proxy/src/client.rs:300-381 | a flush read in any of them outside the chunk-waiting loop puts exactly the unacknowledged sends on the wire, in order and unchanged, and then its own acknowledgement |
| `ConnectionRuns.WorktreeIdsCount` | zed-web-gateway/crates/gateway-zed-proxy/src/client.rs:300-311 | over every run the worktree ids given out are 1, 2, 3 and so on, none twice and none left out |
| `ConnectionRuns.SentIsOnWire` | zed-web-gateway/crates/gateway-zed-proxy/src/client.rs:347-364 | everything sent through the queue has been on the wire |
| `ConnectionRuns.StartSent` | zed-web-gateway/crates/gateway-zed-proxy/src/client.rs:272-298 | the request, or the announcement, is the first thing a conversation puts on the wire |
| `ConnectionRuns.EndAnswered` | zed-web-gateway/crates/gateway-zed-proxy/src/client.rs:122-181 | the last chunk of a buffer is acknowledged before the wait ends; an envelope that ends it with an error is not answered |
| `ConnectionRuns.ConnectionLosesNothing` | zed-web-gateway/crates/gateway-zed-proxy/src/client.rs:347-408 | over any drops, what a connection sent through its queue has been received or is still held |
| `Chunking.TruncateUtf8` | zed-web-gateway/crates/gateway-web/src/registry/handle.rs:847-858 | the longest prefix of whole scalars within the limit, at most three bytes short of it; the flag is exactly "too long" |
| `Chunking.ChunkEnd` | zed-web-gateway/crates/gateway-web/src/commands.rs:322-340 | the next cut is the last boundary within the limit, or the end of one scalar when none fits |
| `Chunking.StreamBufferContent` | zed-web-gateway/crates/gateway-web/src/commands.rs:314-355 | the nested loops terminate; the chunks are contiguous, non-empty, join to the encoded content and are cut at scalar boundaries, each within the limit or exactly one scalar, and no non-final chunk more than three bytes short of a limit of at least four |
| `Chunking.ChunksJoin` | zed-web-gateway/crates/gateway-web/src/commands.rs:314-355 | such chunks are non-empty, contiguous, and joined give the encoding of the text |
| `Chunking.TextsJoin` | zed-web-gateway/crates/gateway-web/src/commands.rs:314-355 | each chunk decodes on its own and the decoded texts joined give the text |
| `Chunking.StreamedLoad` | zed-web-gateway/crates/gateway-web/src/commands.rs:118-161 | a text streamed in chunks and loaded by the browser becomes exactly its base and its content |
| `Commands.OpenedBufferArrives` | zed-web-gateway/crates/gateway-web/src/commands.rs:118-161 | for every interleaving with other commands, once the gateway's answer to an undisturbed open is in, the command is completed with its payload, and loading what the delivered bytes decode to leaves exactly the gateway's text as base and content |
| `Chunking.StreamFile` | zed-web-gateway/crates/gateway-ssh/src/transport.rs:176-244 | for every sequence of read sizes, failing reads, refused chunks and exit statuses, the emitted chunks are contiguous and form a first part of the file; a summary names the first min(length, max) bytes and says truncated exactly when length reaches max; a summary of an uncut file needs a last read and a remote command that end well, and there is none only if the next read fails, the receiver refuses the next chunk or the command ends badly |
| `Commands.HandleCommand` | zed-web-gateway/crates/gateway-web/src/commands.rs:90-161 | every handler emits a whole stream: at most one start, then chunks, then exactly one ending; an opened buffer's chunks join to its text |
| `Commands.HandleFileOpen` | zed-web-gateway/crates/gateway-web/src/commands.rs:163-228 | a streamed file's chunks form its first part, and a completion says how much; over a reliable transport there is a completion |
| `Commands.CutStreamRejected` | zed-web-frontend/src/lib/sessionCommandClient.js:59-100 | a socket that closes in the middle of a handler's stream: the command is rejected, having been given the first of that stream's chunks |
| `Commands.RunOk` | zed-web-frontend/src/lib/sessionCommandClient.js:22-131 | over every run, identifiers in use lie below the next one, and each is either waiting or settled, never both |
| `Commands.SettlesOnce` | zed-web-frontend/src/lib/sessionCommandClient.js:70-92 | a settled command stays settled the same way and is told nothing more, whatever happens next |
| `Commands.NothingPendingAfterClose` | zed-web-frontend/src/lib/sessionCommandClient.js:94-100 | a close leaves nothing pending, rejects exactly what was, and changes no earlier outcome |
| `Commands.TimeOutRejects` | zed-web-frontend/src/lib/sessionCommandClient.js:102-131 | a timeout rejects the command it is for, if that still waits, and touches no other |
| `Commands.GarbageRejects` | zed-web-frontend/src/lib/sessionCommandClient.js:70-100 | a message that cannot be read rejects everything that waits and changes no earlier outcome |
| `Commands.StreamDelivered` | zed-web-frontend/src/lib/sessionCommandClient.js:70-92 | for every interleaving, a streaming command has been given exactly the chunks addressed to it, in order, and is settled exactly when its own stream has ended, by that ending |
| `Commands.CommandSettled` | zed-web-frontend/src/lib/sessionCommandClient.js:70-131 | for every interleaving and every identifier sent, streaming or not: the command is settled exactly when its own stream has ended, and by that ending; a streaming one has been given its chunks in order, any other none |
| `Commands.DeliveredIsPrefix` | zed-web-frontend/src/lib/sessionCommandClient.js:22-131 | over every run, timeouts, garbage and closes included, a command has been given a prefix of the chunks addressed to it, and all of them while it waits |
| `Commands.SessionCommandClient.Send` | zed-web-frontend/src/lib/sessionCommandClient.js:102-131 | takes the next identifier and waits under it |
| `Commands.SessionCommandClient.HandleMessage` | zed-web-frontend/src/lib/sessionCommandClient.js:70-92 | routes a response to its own command, ignores unknown identifiers, and rejects everything on garbage; what that settles is Commands.CommandSettled |
| `Commands.SessionCommandClient.RejectPending` | zed-web-frontend/src/lib/sessionCommandClient.js:94-100 | the loop rejects every waiting command and clears the map |
| `SemanticTokens.EncodeSemanticTokens` | zed-web-frontend/src/lib/languages/semanticTokens.js:117-147 | every number fits 32 bits, and a receiver decodes exactly the normalised tokens in stable sorted order, none skipped |
| `SemanticTokens.EncodeSorted` | zed-web-frontend/src/lib/languages/semanticTokens.js:124-145 | on ordered tokens the negative-delta guard never fires and decoding gives the tokens back |
| `SemanticTokens.SortedIsStable` | zed-web-frontend/src/lib/languages/semanticTokens.js:117-123 | sorted by line then start, a permutation, and tokens at one place keep their order |
| `SemanticTokens.NormalizedInRange` | zed-web-frontend/src/lib/languages/semanticTokens.js:224-258 | every normalised token has a positive length, a known type and 32-bit fields |
| `SemanticTokens.NormalizedExactly` | zed-web-frontend/src/lib/languages/semanticTokens.js:224-258 | a token's length is the one given, or else end minus start on one line; it is kept exactly if that is positive, with the place, type and modifiers it came with |
| `SemanticTokens.UnreadableDropped` | zed-web-frontend/src/lib/languages/semanticTokens.js:224-258 | a token whose line, start or type cannot be read is dropped |
| `SemanticTokens.NormalizedConcat` | zed-web-frontend/src/lib/languages/semanticTokens.js:110-116 | normalising a list in two parts gives the tokens of the one and then of the other |
| `SemanticTokens.NormalizedOne` | zed-web-frontend/src/lib/languages/semanticTokens.js:224-258 | a token that can be read is kept as it reads, and any other leaves nothing |
| `SemanticTokens.LongestEntryExactly` | zed-web-frontend/src/lib/languages/semanticTokens.js:149-170 | the entry found is that of the longest dotted prefix that has one, and none is found only if no prefix has one |
| `SemanticTokens.TypeIndexExactly` | zed-web-frontend/src/lib/languages/semanticTokens.js:172-179 | a name of the legend is its own type, any other goes by its capture, and a number counts only if the legend has it |
| `SemanticTokens.SemanticTokenTypeForCapture` | zed-web-frontend/src/lib/languages/semanticTokens.js:149-170 | the loop finds the entry of the longest dotted prefix, else the type of the capture's own name |
| `SemanticTokens.TypeIndexKnown` | zed-web-frontend/src/lib/languages/semanticTokens.js:172-179 | whatever the spelling, an index that is found is one of the legend |
| `SemanticTokens.SemanticTokenModifierBitset` | zed-web-frontend/src/lib/languages/semanticTokens.js:181-201 | the loop over names sets exactly the specified bits; a number is passed on if it fits 32 bits |
| `SemanticTokens.BitsetExactly` | zed-web-frontend/src/lib/languages/semanticTokens.js:192-200 | a bit is set if and only if the legend's modifier at its place is named, and the number is below 1024 |
| `SemanticTokens.NormalizeEncodedData` | zed-web-frontend/src/lib/languages/semanticTokens.js:203-222 | encoded numbers are accepted unchanged if they come in fives and each fits 32 bits, and refused otherwise |
| `Keybindings.CreateKeybindingIndex` | zed-web-frontend/src/lib/keybindings.js:15-38 | each first stroke leads to exactly the bindings that start with it, in order |
| `Keybindings.PartsExactly` | zed-web-frontend/src/lib/keybindings.js:114-120 | blank strokes are dropped from a sequence and nothing else is |
| `Keybindings.Candidates` | zed-web-frontend/src/lib/keybindings.js:15-38 | a binding is a candidate for a stroke if and only if it starts with it |
| `Keybindings.ScanResolves` | zed-web-frontend/src/lib/keybindings.js:40-63 | a brute-force scan finds the latest active exact match, and whether any active binding strictly extends the input |
| `Keybindings.ActiveExactly` | zed-web-frontend/src/lib/keybindings.js:144-154 | a suppressed context leaves only global bindings; otherwise a binding is active if it has no condition or its condition holds |
| `Keybindings.ResolveKeybinding` | zed-web-frontend/src/lib/keybindings.js:40-63 | the indexed lookup answers as that scan, on every input and context |
| `Keybindings.HeadIsLatest` | zed-web-frontend/src/lib/keybindings.js:53-60 | the head of the list sorted by descending index is an element with the largest index |
| `Keybindings.WorkbenchKeys.HandleKeyDown` | zed-web-frontend/src/hooks/useWorkbenchKeybindings.js:42-106 | one key event makes the specified move and runs the specified command |
| `Keybindings.WorkbenchKeys.OnTimeout` | zed-web-frontend/src/hooks/useWorkbenchKeybindings.js:28-40 | an expired wait is cleared and runs its deferred command |
| `Keybindings.PressExactly` | zed-web-frontend/src/hooks/useWorkbenchKeybindings.js:62-106 | an unambiguous match runs its latest binding at once; strokes that lead further wait, with the latest match deferred; strokes that lead nowhere are dropped but for the last |
| `Keybindings.PressWithoutMatch` | zed-web-frontend/src/hooks/useWorkbenchKeybindings.js:42-61 | ignored events and unreadable keys change nothing; typed text and a suppressed context end the wait; none of them runs a command |
| `Keybindings.ExpiryRuns` | zed-web-frontend/src/hooks/useWorkbenchKeybindings.js:28-40 | when the time is up the deferred command runs and nothing waits |
| `Keybindings.PendingIsPrefix` | zed-web-frontend/src/hooks/useWorkbenchKeybindings.js:21-106 | in every run over changing contexts and timeouts the stored sequence is empty or a strict prefix of some binding, and its deferred command is bound to exactly that sequence |
| `Keybindings.CommandsWereTyped` | zed-web-frontend/src/hooks/useWorkbenchKeybindings.js:21-106 | a command that runs is bound to a sequence that was just typed |

## Left out

- Replays.CompileThenReplay: the descending order is sufficient, not necessary; which ascending lists happen to replay to the same text depends on the characters of the text, so no condition on the list alone is exact.
- SemanticTokens.SemanticTokenTypeForCapture: trimming, lower-casing and splitting of a capture's name, and the splitting of a string of modifiers, are done beforehand; the alternative spellings of a token's fields are resolved beforehand.
- Commands.HandleCommand: the payloads of saves, syncs, tree listings and reconnects are opaque.
- ProxyClients.ProxyClient.OpenBufferByPath: the envelopes that carry the buffer are in the connection object; here the buffer arrives as the session model has it, and the two are connected by BufferStreams.StreamMatchesOpening.
- Commands.SessionCommandClient.Send: the socket is taken as open; connecting it, and the length of the timeouts, are not modelled, and a timeout is an event that may happen at any time.
- Keybindings.CreateKeybindingIndex: bindings and events come with their keystrokes normalised; lower-casing and the replacement of plus signs are not modelled.
- Strings are sequences of scalars: no lone surrogates and no leading byte order mark. A `&mut String` is an object with one text field.
- Working copies, backups and opened buffers are values in map fields, so aliasing between a copy and the array of its batches is not captured.
- Line-ending kind, editor version ids, language data, byte counts of a running load, listeners and notifications.
- Backup timers and IndexedDB failures: writing a backup is a step that may happen at any time, and always succeeds.
- Chunks appended to a copy that is not being loaded: such text would be in no batch.
- Files cut by the size limit: loads, reverts and whole-file opens bring the whole text.
- The real proxy's merging of concurrent edits.
- JSON, base64, protobuf and SHA-256: messages are datatypes and the digest is a function parameter.
- SSH processes, HTTP routes, terminals, release download, authentication and path confinement: plumbing with no state to prove anything about.
- Themes, icons, language tables, menus, panels and components: only easy members.
