# Verified model of Marks

Marks is a collaborative Markdown editor.  A page edits an in-memory replica, keeps a
retry journal in the browser, and sends mutations to a room server that commits each id
once.  This project models the parts of the client where a mistake loses or repeats a
user's work, and proves what they promise.  `dafny verify dfyconfig.toml` checks it.

The main results:

* **The durable mutation pipeline** (`Journal`, `EngineSession`, `Pipeline`,
  `Durability`, `Guarantees`, `Outgoing`, `Waiters`, `Departures`, `PersistLock`).
  `EngineSession` gives every
  handler of an open page twice: as a method of a class with the page's own fields, and
  as the function that method is proved to compute.  `Pipeline` puts the page together
  with the journal lane, the stored record, the network and the server as one state
  machine.  An inductive invariant (`Durability`) holds in every reachable state, and
  `Guarantees` draws the promises from it: a durable page is committed, nothing written
  is lost, nothing journaled is forgotten before it is committed, ids are never rebound,
  and a crash at any moment is recovered from.  `Outgoing` follows each append to say
  exactly when what is sent is already in the journal, and `Waiters` exactly when a caller
  that waits for durability is told.  `PersistLock` proves the lock of the journal lane on
  its own, over every interleaving with timeouts; `Pipeline` has a coarser lane, in which
  a timeout and the poisoning that follows are one step, and the two are not linked.
* **Line diff and section moves** (`LineDiff`, `Sections`).
* **Asset URL rewriting** (`AssetRewrite`): a mutable trie against naive replacement.
* **The resumable event stream** (`EventFrames`, `HostedRun`), after section 9.2.6 of the
  WHATWG HTML Standard.
* **Presence** (`PresenceCodec`, `PresenceBuffers`, `PresenceStore`).
* **The command runtime** (`CommandRuntime`).
* **Canonical encodings** (`CanonicalJson`, `SigningBytes`, `Base64Url`, `RoomFrames`).
* **Catalog validation** (`FeatureGraph`) and **editor text exchange** (`TextEdits`).

`Wrappers` holds the option and result types, `Sequences` bytes and two facts about
concatenation.

## How the pipeline is modelled

A replica is a set of operation ids and importing is union; a version is such a set.  A
mutation's payload is the set of operations it carries, empty when the bytes are.  A
journal job exports its snapshot when it starts, writes later in one atomic step, and
reports later still; it can fail, time out while detached, or be cut off by a crash.
The assumptions on the surroundings are `Pipeline.Honest` and `Pipeline.OpenSucceeds`:
random ids are new, server frames carry only committed operations and ids, the server's
version comes before the synchronized frame, an export returns what the other side lacks
and nothing it does not have, and the stored snapshot can be applied.  One page at a time
uses a journal.

## Where the code departs from its own comments

* `esbt-engine.ts:1495-1497` says the network never sees an edit that is not yet
  restart-complete.  `sendPendingMutations` sends pending mutations whose append is still
  in flight (`Departures.SentBeforeJournaled`, `Departures.TabSnapshotSendsBeforeJournaled`);
  `Outgoing.HandedDurablyIff` says when it does not, and
  `Departures.FailedAppendIsUndecidable` and `Departures.QueuedAppendIsUndecidable`
  why no guard of the page says more.
* `whenDurable` can go on waiting on a page that has become durable
  (`Waiters.StaysSettledIff`, `Waiters.WaiterIsNotTold`).
* A snapshot that cannot be applied leads to a checkpoint of an empty replica
  (`Departures.FailedOpenKeepsIff`).
* `synchronizeWithServer` reports connected unchecked when no server version is known, and
  a failed export leaves a page connected (`Departures.SyncedIsHonestIff`,
  `Departures.UncheckedSyncIsDishonest`, `Departures.FailedExportIsHonestIff`,
  `Departures.FailedExportIsDishonest`).
* An unterminated last event frame is parsed, unlike section 9.2.6 of the WHATWG HTML
  Standard (`HostedRun.LastFrameCountsIff`, `HostedRun.CutFieldEndsSession`).
* Moving a section down drops the text between it and the chosen neighbour
  (`Sections.MoveDownLosesTheGap`).
* Frames near the size limit depend on how the bytes arrive
  (`EventFrames.ChunkingIsIrrelevantIffFits`).
* Deleting received presence keys passes the 256-key limit, and the publication is then
  refused by every receiver (`PresenceStore.UndecodablePublicationIsReachable`).
* A listener that cancels a run while being told that it runs does not stop the executor
  call (`CommandRuntime.CalledAfterCancelIff`, `CommandRuntime.SettledCallIsReachable`).
* The editor's fallback for large updates passes offsets that earlier changes have moved
  (`TextEdits.FallbackIsRightIff`).

## Model

| member | source | states |
|---|---|---|
| `Journal.AppendKeeps` | client/src/collab/journal.ts:203-219 | An append loses nothing recoverable and its own operations are recoverable from then on; it throws only when another pending mutation has the same id. |
| `Journal.SnapshotKeeps` | client/src/collab/journal.ts:139-191 | A checkpoint or acknowledgement whose snapshot covers what was recoverable leaves exactly that snapshot recoverable, so a retry payload is dropped only in a write that contains it. |
| `Journal.Store.AppendPending` | client/src/collab/journal.ts:126-132 | In place: the stored record becomes the appended one, or stays when the id is rebound; nothing recoverable is lost. |
| `Journal.Store.Checkpoint` | client/src/collab/journal.ts:139-154 | In place: only the snapshot changes, and a covering snapshot loses nothing. |
| `Journal.Store.Acknowledge` | client/src/collab/journal.ts:160-191 | In place: snapshot, retry list, acknowledged version and revision change in one write, and a covering snapshot loses nothing. |
| `EngineSession.EsbtEngine.Restore` | client/src/collab/esbt-engine.ts:839-861 | A page restored from a record holds the snapshot and every pending mutation. |
| `EngineSession.EsbtEngine.PersistAndSendMutation` | client/src/collab/esbt-engine.ts:1474-1487 | Every field, journal request and frame after the synchronous part of persisting, tied to the handler the run theorems are about. |
| `EngineSession.EsbtEngine.SendPendingMutations` | client/src/collab/esbt-engine.ts:1373-1384 | The loop sends exactly the pending mutations, in order, and only over an open synchronized socket. |
| `EngineSession.EsbtEngine.SendMissing` | client/src/collab/esbt-engine.ts:1337-1360 | Resends the pending list, or reports connected when nothing is missing, or persists what the peer lacks. |
| `EngineSession.EsbtEngine.SynchronizeWithServer` | client/src/collab/esbt-engine.ts:1362-1371 | Saving while anything is pending; otherwise asks what the last server version lacks; connected unchecked when no version is known. |
| `EngineSession.EsbtEngine.Edit` | client/src/collab/esbt-engine.ts:293-297 | A local edit grows the replica, marks it unsaved and persists its operations. |
| `EngineSession.EsbtEngine.ImportTab` | client/src/collab/esbt-engine.ts:1258-1268 | An update from another tab is persisted again here; a snapshot only asks what the server lacks; a rejected one changes nothing. |
| `EngineSession.EsbtEngine.ReceiveServerVersion` | client/src/collab/esbt-engine.ts:1320-1323 | Records the server version. |
| `EngineSession.EsbtEngine.ReceiveSynced` | client/src/collab/esbt-engine.ts:1324-1328 | Marks the socket synchronized and synchronizes. |
| `EngineSession.EsbtEngine.HandleCommitted` | client/src/collab/esbt-engine.ts:1386-1408 | Notes version and highest revision, and requests retirement of the id with the record captured now; an undecodable receipt changes nothing. |
| `EngineSession.EsbtEngine.Disconnected` | client/src/collab/esbt-engine.ts:1021-1063 | Drops the socket and the synchronized flag; then terminal recovery, or offline, or offline with the role revoked and connecting again, as the close code says. |
| `EngineSession.EsbtEngine.HandlePageHide` | client/src/collab/esbt-engine.ts:1231-1239 | Requests a checkpoint and drops the socket without clearing the synchronized flag. |
| `EngineSession.EsbtEngine.EnterTerminalRecovery` | client/src/collab/esbt-engine.ts:1658-1702 | Stops the page, revokes its role and requests a last checkpoint. |
| `EngineSession.EsbtEngine.RecordStorageError` | client/src/collab/esbt-engine.ts:1705-1744 | A fatal storage failure is final: unsaved, unsynchronized, offline; any other leaves the page as it is. |
| `EngineSession.EsbtEngine.Close` | client/src/collab/esbt-engine.ts:1831-1858 | Requests a last checkpoint and stops the page. |
| `EngineSession.EsbtEngine.JobSettled` | client/src/collab/esbt-engine.ts:1396-1428 | What each finished or failed journal job does to the page: send, retire, ask for what is missing, or stop for good. |
| `Durability.SendMissingSound` | client/src/collab/esbt-engine.ts:1337-1360 | Asking what a committed version lacks never makes a synchronized page claim connected while it holds more than the server. |
| `Durability.AppendNeverRefused` | client/src/collab/journal.ts:203-219 | In every reachable state a queued append finds no other mutation under its id, so the reuse error never fires. |
| `Durability.WriteKeeps` | client/src/collab/journal.ts:126-191 | Any journal write keeps what was recoverable, stays within the live replica, and drops a pending mutation only to retire that id. |
| `Durability.StepKeepsInv` | client/src/collab/esbt-engine.ts:1337-1536 | Every step of page, journal lane, network and server, a crash included, keeps the pipeline invariant. |
| `Guarantees.DurableIsCommitted` | client/src/collab/esbt-engine.ts:1759-1770 | In every reachable state where isDurable() holds: nothing pending, in a service session the whole replica committed, and every edit made on the page recoverable from the journal. |
| `Guarantees.NothingStoredIsLost` | client/src/collab/journal.ts:126-191 | Over every legal continuation of every reachable state the recoverable operations never shrink, and they include every mutation whose append was written. |
| `Guarantees.JournaledUntilCommitted` | client/src/collab/journal.ts:156-191 | In a service session a journaled mutation stays in the stored retry list until the server has committed it. |
| `Guarantees.RetryDroppedOnlyWhenCovered` | client/src/collab/journal.ts:156-191 | A retry payload leaves the stored record only in a write whose snapshot contains it, and with a service only once committed. |
| `Guarantees.PageForgetsOnlyCommitted` | client/src/collab/esbt-engine.ts:1396-1418 | With a service, a mutation leaves the page's own retry list only once the server has committed it. |
| `Guarantees.IdsAreStable` | client/src/collab/esbt-engine.ts:1480-1486 | An id names one mutation for ever, on the page, in the journal, on the wire and at the server. |
| `Guarantees.RestartRecovers` | client/src/collab/esbt-engine.ts:806-861 | After a crash at any moment the next page opens with every journaled mutation, and with the uncommitted ones pending. |
| `Guarantees.RunGrows` | client/src/collab/esbt-engine.ts:1337-1536 | Along every legal run nothing recoverable, journaled, named or committed is taken back. |
| `Departures.DurableIsReachable` | client/src/collab/esbt-engine.ts:1759-1770 | A legal run in which an edit is drawn offline, journaled, sent, committed and retired ends durable: the assumptions can be met. |
| `Departures.SentBeforeJournaled` | client/src/collab/esbt-engine.ts:1373-1384 | A reachable state in which the server has committed a mutation that no restart could rebuild. |
| `Departures.TabSnapshotSendsBeforeJournaled` | client/src/collab/esbt-engine.ts:1258-1268 | The second path does so too: a reachable state in which a tab snapshot hands an unjournaled mutation to the socket. |
| `Departures.FailedAppendIsUndecidable` | client/src/collab/esbt-engine.ts:1489-1499 | Once an append has failed unheard, two reachable states agree on page and lane, send the same mutation on the same event, and only in one could a restart rebuild it: no guard of the page decides this case. |
| `Departures.QueuedAppendIsUndecidable` | client/src/collab/esbt-engine.ts:1489-1499 | The same while an append is queued, by a checkpoint written meanwhile: what a guard of page and lane can decide is being in the durable retry list, which HandedDurablyIff decides. |
| `Departures.AppendSendsJournaled` | client/src/collab/esbt-engine.ts:1489-1515 | What is sent when an append returns was written first, in every reachable state. |
| `Departures.FailedOpenKeepsIff` | client/src/collab/esbt-engine.ts:1831-1836 | When the stored snapshot cannot be applied, the checkpoint that follows keeps what was recoverable exactly when the retry list held the whole snapshot. |
| `Departures.SyncedIsHonestIff` | client/src/collab/esbt-engine.ts:1362-1371 | A saved idle page told that it is synchronized reports durable only what is committed, whatever the server has, exactly when the server version is known or the replica is empty. |
| `Departures.UncheckedSyncIsDishonest` | client/src/collab/esbt-engine.ts:1362-1371 | A legal run and one frame out of order, and the page is durable over operations no server has. |
| `Departures.FailedExportIsHonestIff` | client/src/collab/esbt-engine.ts:1258-1268 | A durable page that takes in a tab snapshot reports durable only what is committed, whatever more the server has, exactly when the export succeeds or the snapshot brings nothing beyond what the page knows. |
| `Departures.FailedExportIsDishonest` | client/src/collab/esbt-engine.ts:1337-1360 | A legal run that ends durable, and one failed export leaves the page durable over operations no server has. |
| `Outgoing.HandedDurablyIff` | client/src/collab/esbt-engine.ts:1258-1268 | In every reachable state, on every event: while no append of a pending mutation has failed unheard, all that is handed to the socket is in the durable retry list exactly when the event does not send the page's list, or no append of a mutation in it is queued. |
| `Outgoing.HandedIsRecoverable` | client/src/collab/esbt-engine.ts:1373-1384 | Under that guard whatever is handed to the socket could be rebuilt by a restart. |
| `Outgoing.HandedIs` | client/src/collab/esbt-engine.ts:1362-1384 | Which steps send: the two that send the list, and an append reported written, which sends its own mutation. |
| `Outgoing.StepTracked` | client/src/collab/esbt-engine.ts:1474-1499 | Every step keeps each pending mutation accounted for: stored, in the lane, or failed without the page having heard; and nothing ahead of a queued append can store it. |
| `Waiters.StaysSettledIff` | client/src/collab/esbt-engine.ts:1746-1770 | A step that makes the page durable leaves a waiter unresolved exactly when it is the synchronized frame on a page that already reads connected, or the report of an append whose mutation the page has let go of. |
| `Waiters.DurableTellsAll` | client/src/collab/esbt-engine.ts:668-695 | In every run without such a step, nobody waits on a durable or a stopped page. |
| `Waiters.WaiterIsNotTold` | client/src/collab/esbt-engine.ts:668-695 | A legal run, with the page hidden and reopened while a receipt is retired, after which the page is durable and a caller still waits. |
| `PersistLock.OneBodyAtATime` | client/src/browser/persist-lock.ts:54-72 | At most one body under a name is executing, in every interleaving with timeouts and detached work. |
| `PersistLock.OnlyTheHeadRuns` | client/src/browser/persist-lock.ts:54-72 | A body executes only when every earlier request under its name is over. |
| `PersistLock.BodiesStartInRequestOrder` | client/src/browser/persist-lock.ts:54-72 | Bodies under a name start in request order, each at most once. |
| `PersistLock.NoneStartsAfterPoison` | client/src/browser/persist-lock.ts:50-105 | Once a name is poisoned no further body under it ever starts. |
| `PersistLock.EarliestCanMove` | client/src/browser/persist-lock.ts:54-105 | No request is stranded: the earliest unsettled one under a name can always take its next step. |
| `PersistLock.StepKeepsInv` | client/src/browser/persist-lock.ts:47-105 | Every step keeps the queue chain, the tails map and the start log right. |
| `PersistLock.LockTable.WithPersistLock` | client/src/browser/persist-lock.ts:74-82 | Refuses a poisoned name, poisons it at once when there is no budget, and otherwise makes a request. |
| `PersistLock.LockTable.WithProcessLock` | client/src/browser/persist-lock.ts:54-67 | Chains the request behind the current tail and becomes the tail. |
| `PersistLock.LockTable.RunOrSettle` | client/src/browser/persist-lock.ts:84-94 | The body starts unless the name is poisoned or the request expired. |
| `PersistLock.LockTable.CaughtTimeout` | client/src/browser/persist-lock.ts:101-102 | A timeout poisons the name. |
| `PersistLock.LockTable.TailSettled` | client/src/browser/persist-lock.ts:68-70 | A tail is forgotten only by the request that is the tail. |
| `LineDiff.LineDiff` | client/src/intelligence/operations.ts:156-198 | The chunks replay both texts and adjacent chunks differ in kind, on both branches; below the limit the kept lines number the longest common subsequence. |
| `LineDiff.TableDiff` | client/src/intelligence/operations.ts:175-197 | The greedy walk over the table is a script of both texts that keeps the longest common subsequence. |
| `LineDiff.PrefixSuffixDiff` | client/src/intelligence/operations.ts:160-173 | The prefix and suffix fallback is a script of both texts. |
| `LineDiff.FillTable` | client/src/intelligence/operations.ts:175-180 | Every cell of the table holds the longest common subsequence of the two remainders. |
| `LineDiff.PushChunk` | client/src/intelligence/operations.ts:149-153 | Pushing a line extends the script by that line and keeps adjacent chunks different in kind. |
| `LineDiff.LcsBoundsEveryScript` | client/src/intelligence/operations.ts:156-198 | No script of two texts keeps more lines than their longest common subsequence. |
| `LineDiff.KeepingLcsIsMinimal` | client/src/intelligence/operations.ts:156-198 | A script that keeps that many lines adds and removes the fewest. |
| `Sections.ComputeSections` | client/src/intelligence/analyze.ts:401-406 | The in-place loop ends every section at the next heading no deeper, or at the end of the text. |
| `Sections.SectionsNest` | client/src/intelligence/analyze.ts:406 | Any two sections are disjoint or one contains the other. |
| `Sections.PreviousSiblingIsAdjacent` | client/src/intelligence/operations.ts:60-73 | The previous sibling that moving up chooses ends exactly where the selected section starts. |
| `Sections.NeighborIsNearestPeer` | client/src/intelligence/operations.ts:60-73 | The chosen neighbour is the nearest heading of the same level in the same parent. |
| `Sections.MoveUpSwapsNeighbours` | client/src/intelligence/operations.ts:74-78 | Moving up exchanges two adjacent blocks and keeps every character, or refuses. |
| `Sections.MoveDownLosesTheGap` | client/src/intelligence/operations.ts:79-81 | Moving down keeps every character exactly when a peer heading follows directly; otherwise exactly the text between is lost. |
| `Sections.DownIsPeerUp` | client/src/intelligence/operations.ts:74-81 | When a peer follows, moving a section down and moving that peer up are one edit. |
| `Sections.MoveDownCanDropAHeading` | client/src/intelligence/operations.ts:79-81 | A document in which moving a section down drops a heading. |
| `AssetRewrite.RewriteKnownAssetUrls` | client/src/lib/portable-bundle.ts:27-75 | The trie pass returns the rendering of a leftmost-longest division of the source and marks exactly the assets it refers to. |
| `AssetRewrite.DivisionIsUnique` | client/src/lib/portable-bundle.ts:49-74 | There is only one leftmost-longest division of a source. |
| `AssetRewrite.DivisionIsLeftmostLongest` | client/src/lib/portable-bundle.ts:49-74 | Trying every asset at every position gives that division: longest URL first, last asset on ties, plain text only where none stands. |
| `AssetRewrite.DivisionCoversSource` | client/src/lib/portable-bundle.ts:69-74 | The pieces of the division put together are the source. |
| `AssetRewrite.InsertUrl` | client/src/lib/portable-bundle.ts:32-44 | Inserting a URL adds its prefixes and keeps every other node. |
| `AssetRewrite.MatchAt` | client/src/lib/portable-bundle.ts:50-63 | Walking the trie from a position finds the longest known URL there, or that there is none. |
| `AssetRewrite.Scan` | client/src/lib/portable-bundle.ts:46-74 | The cursor loop writes the rendering of the whole division. |
| `EventFrames.BoundaryIsFirst` | client/src/agent/gateway.ts:565-571 | The boundary found is the earliest blank line of either kind. |
| `EventFrames.BoundaryIsStable` | client/src/agent/gateway.ts:565-571 | A boundary found in a prefix is the boundary of the whole. |
| `EventFrames.FramesResume` | client/src/agent/gateway.ts:260-267 | Splitting may stop anywhere and resume from the remainder. |
| `EventFrames.ParseEventStream` | client/src/agent/gateway.ts:231-273 | The reading loop over chunks produces what Feed says. |
| `EventFrames.Drain` | client/src/agent/gateway.ts:260-267 | The inner loop takes every whole frame out of the buffer. |
| `EventFrames.ChunkingIsIrrelevantIffFits` | client/src/agent/gateway.ts:241-273 | The frames are those of the whole stream for every division into chunks exactly when every frame, its boundary and the rest stay within the limit. |
| `HostedRun.ParseFrame` | client/src/agent/gateway.ts:374-402 | The field loop reads what the specification of a frame says. |
| `HostedRun.ServerFrameReadsBack` | client/src/agent/gateway.ts:374-402 | A frame written with an id, an event name and data lines is read back as exactly those. |
| `HostedRun.ReceivedIgnoresChunking` | client/src/agent/gateway.ts:201-217 | What a response yields does not depend on how its bytes arrive, for streams that fit. |
| `HostedRun.LastFrameCountsIff` | client/src/agent/gateway.ts:241-273 | A body that is done and one cut off at the same place give the same events and both let the loop go on, exactly when the unterminated rest holds no data or something before it was refused; each half has its own condition. |
| `HostedRun.CutFieldEndsSession` | client/src/agent/gateway.ts:268-272 | A rest cut inside its data ends the session as malformed when the body is done, and is resumed when the connection is lost. |
| `HostedRun.BlankIsNothing` | client/src/agent/gateway.ts:269-272 | Skipping a blank rest is only a shortcut: it would parse to nothing. |
| `HostedRun.ResumesAfterHandled` | client/src/agent/gateway.ts:206-224 | Wherever the loop may reconnect, it resumes after an event that was handled, or where it began. |
| `HostedRun.ConsumeEvents` | client/src/agent/gateway.ts:201-217 | The consuming loop delivers what the specification says. |
| `HostedRun.StreamHostedAgentRun` | client/src/agent/gateway.ts:149-229 | The reconnect loop delivers what the specification of a session says. |
| `HostedRun.SessionAscends` | client/src/agent/gateway.ts:206-209 | Across any number of reconnects and failures the delivered ids strictly increase, and resume after the last accepted one. |
| `HostedRun.SessionFollowsLog` | client/src/agent/gateway.ts:149-229 | When each response is a stretch of the log that starts no later than the next event, the delivered events are a contiguous stretch of it. |
| `HostedRun.FreshSessionDeliversPrefix` | client/src/agent/gateway.ts:149-229 | A session from the start delivers a prefix of the log and nothing after its first terminal event. |
| `PresenceCodec.UintRoundTrip` | client/src/collab/presence-store.ts:84-92 | Every safe integer reads back from what the writer emits. |
| `PresenceCodec.UintAcceptedIsWritten` | client/src/collab/presence-store.ts:125-144 | Every byte string the reader accepts is what the writer emits for its value. |
| `PresenceCodec.EightBytesSuffice` | client/src/collab/presence-store.ts:84-92 | Every safe integer takes at most eight bytes. |
| `PresenceCodec.DecodeInvertsIffFewEntries` | client/src/collab/presence-store.ts:176-208 | Decoding inverts publication exactly when the frame has at most 256 entries; a larger one is refused. |
| `PresenceCodec.AcceptedFrameIsEncoding` | client/src/collab/presence-store.ts:176-208 | Every accepted frame is the one encoding of what it decodes to. |
| `PresenceBuffers.Writer.Grow` | client/src/collab/presence-store.ts:69-79 | Growing keeps the contents and fails exactly beyond 64 KiB. |
| `PresenceBuffers.Writer.PutUint` | client/src/collab/presence-store.ts:84-92 | Appends the shortest form whatever the buffer history; fails for unsafe numbers or when it does not fit. |
| `PresenceBuffers.Writer.Bytes` | client/src/collab/presence-store.ts:98-103 | Appends a length-prefixed field within its limit. |
| `PresenceBuffers.Encode` | client/src/collab/presence-store.ts:264-289 | Writes a whole frame, or throws exactly when a field or the frame is over a limit. |
| `PresenceBuffers.Reader.GetUint` | client/src/collab/presence-store.ts:125-144 | The reading loop returns what the parser says and stops where it stops. |
| `PresenceBuffers.Decode` | client/src/collab/presence-store.ts:176-208 | Reads a whole frame as the parser says; what it accepts is the encoding of its result. |
| `PresenceStore.ReplayIsNoOp` | client/src/collab/presence-store.ts:352-356 | Once a frame is delivered, it and every older frame of its instance change nothing, ever after. |
| `PresenceStore.ReceiversConverge` | client/src/collab/presence-store.ts:352-392 | Two stores fed duplicated, lost or reordered frames that both include an instance's highest frame agree on every key in it that is not yet swept. |
| `PresenceStore.PublishedIsValid` | client/src/collab/presence-store.ts:258-289 | A publication is a valid frame with distinct keys and bounded ages. |
| `PresenceStore.PublicationDecodesIff` | client/src/collab/presence-store.ts:258-289 | In every run a publication decodes back exactly while at most 256 keys are local. |
| `PresenceStore.UndecodablePublicationIsReachable` | client/src/collab/presence-store.ts:317-330 | A run of decodable frames and local deletes that publishes a frame every receiver refuses. |
| `PresenceStore.PresenceChannel.Receive` | client/src/collab/presence-store.ts:352-392 | The entry loop applies a frame as specified. |
| `PresenceStore.PresenceChannel.SetValue` | client/src/collab/presence-store.ts:295-312 | A local write, or the refusals the source throws. |
| `PresenceStore.PresenceChannel.SweepStale` | client/src/collab/presence-store.ts:245-254 | The sweep drops exactly the stale entries and keeps the order. |
| `PresenceStore.PresenceChannel.EncodeAll` | client/src/collab/presence-store.ts:258-289 | Takes the next sequence number and writes every local key; throws when the sequence is used up or a limit is passed. |
| `CommandRuntime.EachRunSettlesOnce` | client/src/commands/runtime.ts:111-198 | Each run started is pending, or has exactly one receipt and one resolved promise. |
| `CommandRuntime.ExecutorCallsAreLicensed` | client/src/commands/runtime.ts:93-169 | The executor is called at most once per run, only when available, and for a guarded run only after approval. |
| `CommandRuntime.CalledAfterCancelIff` | client/src/commands/runtime.ts:93-158 | Which steps call the executor and for which run; the run is already over exactly when a listener told that it runs cancels it or destroys the runtime. |
| `CommandRuntime.SettledCallIsReachable` | client/src/commands/runtime.ts:145-158 | Such a call is made, for either thing a listener may do. |
| `CommandRuntime.DestroySettlesAll` | client/src/commands/runtime.ts:107-111 | After destroy nothing is pending and every run has been resolved. |
| `CommandRuntime.PanelIsCurrent` | client/src/commands/runtime.ts:171-203 | The panel shows the latest receipts and each listed run as it stands or ended. |
| `CommandRuntime.StepKeepsInv` | client/src/commands/runtime.ts:83-198 | Every operation keeps the ledger of runs, the executor calls, the approvals and the shown lists right. |
| `CommandRuntime.Runtime.StartRun` | client/src/commands/runtime.ts:83-87 | Creates a run, finishes a rejected one at once and defers a proposed one. |
| `CommandRuntime.Runtime.ExecuteRun` | client/src/commands/runtime.ts:145-157 | Re-checks availability, reports the run as running to its listeners and calls the executor. |
| `CommandRuntime.Runtime.ApproveRun` | client/src/commands/runtime.ts:93-98 | Only a waiting run is approved, and then executed. |
| `CommandRuntime.Runtime.FinishRun` | client/src/commands/runtime.ts:179-198 | A pending run leaves with its receipt; any other call changes nothing. |
| `CommandRuntime.Runtime.Destroy` | client/src/commands/runtime.ts:107-111 | Finishes every pending run as cancelled, in order. |
| `CanonicalJson.CanonicalIffSame` | config/product-variants.ts:509-521 | Two integer-valued JSON values have the same canonical text exactly when they are the same up to key order. |
| `CanonicalJson.ReadsBack` | config/product-variants.ts:509-521 | A canonical text followed by anything that does not begin with a digit determines value and rest. |
| `CanonicalJson.KeyOrderIsIrrelevant` | config/product-variants.ts:518-520 | The order in which an object lists its keys does not matter. |
| `CanonicalJson.AscendingKeysAgree` | config/product-variants.ts:519 | Sorting by UTF-16 code units lists the same keys one way only. |
| `SigningBytes.EncodingIsInjective` | client/src/auth/protocol.ts:135-221 | No two messages, of one kind or of two, have the same signing bytes. |
| `SigningBytes.DomainsArePrefixFree` | client/src/auth/protocol.ts:4-7 | No domain text is a prefix of another. |
| `SigningBytes.ItemsReadBack` | client/src/auth/protocol.ts:66-117 | A list of fields of known kinds is determined by its bytes. |
| `SigningBytes.Utf8IsInjective` | client/src/auth/protocol.ts:103-105 | Distinct texts have distinct encodings. |
| `SigningBytes.CanonicalWriter.Put` | client/src/auth/protocol.ts:73-101 | Appends one field, or throws exactly when it is out of range. |
| `SigningBytes.CanonicalWriter.Finish` | client/src/auth/protocol.ts:107-116 | Copies the parts in order into one array. |
| `SigningBytes.EncodeMessage` | client/src/auth/protocol.ts:135-221 | The encoders return the signing bytes exactly for messages within their assertions and ranges. |
| `Base64Url.DecodeInvertsEncode` | client/src/collab/protocol.ts:74-89 | Decoding accepts exactly the encodings of 1 to 4096 bytes and inverts encoding on them. |
| `Base64Url.AcceptsExactlyCanonical` | client/src/collab/protocol.ts:74-89 | In terms of the text: exactly the nonempty canonical unpadded texts of at most 5462 letters. |
| `Base64Url.EncodeLength` | client/src/collab/protocol.ts:77-78 | An encoding has four letters for three bytes, rounded up, so the cutoff turns no valid text away. |
| `RoomFrames.MutationIsInjective` | client/src/collab/protocol.ts:135-152 | A mutation frame names one id, kind and payload. |
| `RoomFrames.EncodeMutation` | client/src/collab/protocol.ts:135-152 | Writes the frame into one array, or throws for a bad id or length. |
| `RoomFrames.DecodeInvertsReceipt` | client/src/collab/protocol.ts:154-172 | Decoding a receipt accepts exactly its layout and inverts it. |
| `FeatureGraph.HasCycle` | config/product-variants.ts:355-365 | The depth-first search ends for every finite catalog and throws exactly when the requirements have a cycle. |
| `FeatureGraph.DependencyVisitor.Visit` | config/product-variants.ts:357-364 | A visit throws only on a cycle; otherwise it adds the key after all it requires and leaves the path as it was. |
| `FeatureGraph.DependencyClosure` | config/product-variants.ts:401-406 | The closure is the least set with the key in it that is closed under requirements. |
| `FeatureGraph.EnabledHoldsClosures` | config/product-variants.ts:367-396 | A complete assignment is accepted exactly when each enabled feature brings its whole dependency closure. |
| `FeatureGraph.CheckVariant` | config/product-variants.ts:367-396 | A variant passes exactly when it assigns every feature and enables what its features require. |
| `FeatureGraph.Validate` | config/product-variants.ts:245-428 | The dependency checks accept exactly the configurations that are acyclic, complete and covered. |
| `TextEdits.Reconcile` | client/src/collab/esbt-engine.ts:334-357 | One change that turns the current text into the target, and none keeps more of it; no change when they agree. |
| `TextEdits.Replay` | client/src/collab/esbt-engine.ts:438-450 | Applying ordered changes one by one with the running offset is substituting them all at once. |
| `TextEdits.ReplaceRangeChunked` | client/src/collab/esbt-engine.ts:508-533 | The transactions are bounded and together make one substitution. |
| `TextEdits.FallbackIsRight` | client/src/collab/esbt-engine.ts:494-498 | The fallback with unmoved offsets is right when every change but the last keeps its length. |
| `TextEdits.FallbackIsRightIff` | client/src/collab/esbt-engine.ts:494-498 | For any list of separate changes it is right on every text they fit exactly when every change but the last keeps its length. |

## Left out

- The replicated document type itself, its history pruning, anchors and snapshots: replicas are sets of operations, and `compactDurableLocalHistory` and `maybePrune` appear only as checkpoints.
- Two tabs with one journal: a checkpoint exports one replica, so what is proved about the journal holds for one page at a time.
- IndexedDB, Web Locks, WebSocket, BroadcastChannel, fetch and timers: only their order is modelled, as events that may come at any time.
- The server's own code; it is an environment that commits each id once and only grows.
- Normalizing older stored records, copying byte arrays, deadlines, reconnect delays and admission tickets.
- Section moves take the headings as given: the regular expressions that find them, the 2,000-heading cap, slugs and findings, and `scanLines`, are not modelled.
- Text in `LineDiff`, `Sections`, `AssetRewrite`, `EventFrames` and `HostedRun` is a sequence of characters in place of UTF-16 units; decoding bytes to text is taken not to depend on chunks.
- JSON payloads of agent events and presence values: whether a text parses is a parameter.
- A byte order mark that `TextDecoder` drops at the head of a presence key.
- Presence listeners.
- Number formats other than integers in canonical JSON.
- The pairing fragment and the lenient base64url decoder of `auth/protocol.ts`.
- EngineSession.EsbtEngine.Restore: every pending mutation is taken to import; one that throws ends in a storage error in the source.
- EngineSession.EsbtEngine.SendPendingMutations: a `socket.send` that throws, and detaches the socket in the middle of the loop, is not modelled.
- EngineSession.EsbtEngine.ReceiveServerVersion: the history pruning that follows, and the acknowledged version and prune time it may set, are not modelled.
- EngineSession.EsbtEngine.HandleCommitted: closing the socket over an undecodable receipt is the later close event, not part of this step.
- EngineSession.EsbtEngine.Disconnected: the grace period after a change of authority and the reconnect timer are not modelled.
- EventFrames.ParseEventStream: the inactivity timeout and the unterminated rest are not in it; `HostedRun.Received` has the rest and every way a body closes.
- HostedRun.ParseFrame: whether the data is JSON of a known event is a parameter, applied by `HostedRun.Events`.
- HostedRun.StreamHostedAgentRun: reconnect delays, and an abort while a request is being made, are not modelled.
- PresenceStore.PresenceChannel.SetValue: the publication that follows the write is `EncodeAll`, and listeners are not modelled.
- CommandRuntime.ExecutorCallsAreLicensed: whether a command is available is a parameter of the step; who needs approval is computed.
- CommandRuntime.Runtime.StartRun: availability and input validation are one accepted flag, and messages and timestamps are not modelled.
- CommandRuntime.Runtime.FinishRun: a listener acts when it hears that a run is approved or running; what one does when it hears of a new or a finished run is not modelled.
- FeatureGraph.Validate: default variant, deployability suffix, empty catalogs, names, labels, client boundaries and symmetry of interactions are not modelled.
- SigningBytes.EncodeMessage: the four encoders are one method over their field lists.
- Splitting a surrogate pair between two inserted chunks.
