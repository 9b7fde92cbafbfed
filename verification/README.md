# Verified model of the AMCP core

This project models the parts of AMCP whose correctness depends on state kept over time, and proves what they keep. `dafny verify dfyconfig.toml` checks all of it.

**Event delivery** (`RuntimeOutbox`, `EventStream`, `AgentClient`, `AgentSession`, `Delivery*`). An Agent keeps a bounded outbox of runtime events without repeated ids. A stream server pushes pages from it under a window of unacknowledged ids; the Controller takes answers and pages off one connection, stores events in its catalog and only then acknowledges them. `Delivery` puts outbox, catalog and any number of connections into one step system with appends, evictions, disconnects and restarts; `DeliverySafety` and `DeliveryTheorems` prove its invariants over every run, `DeliveryCursor` when a stream's cursor may be used, `DeliveryOrder` the order of streams, `DeliveryAnswers` what each answer is, `DeliveryProgress` and `DeliveryOnce` that rounds deliver all there is to deliver, and `DeliveryReader` that the frame-by-frame reading of the step system adds up to the client's loop. The classes `RuntimeOutbox.Outbox`, `EventStream.Server` and `AgentClient.Client` carry the code's loops and are proved against the functions the step system uses.

**Bounded stores** (`Approvals`, `CollectionOutbox`). The one-time approval list of 4096 keys with an in-memory set in front of it, over runs with restarts; the outbox of the last 8 collection batches, related to the same list kept without a bound.

**Safe changes** (`SafeChange`, `SafeChangeEffects`, `SafeChangeProofs`, `SafeChangeGate`, `SafeChangeStack`, `Redaction*`). Change sets are proposed, applied with backups, and rolled back, each operation's check and write being one step; several of them, applied one after another, are undone in reverse order. The content hash is an arbitrary function: no result assumes that it is injective. The redactor that guards proposals is a scanner proved to find exactly what its patterns match and to keep everything else, and then a fixpoint guard.

**Retrieval** (`Rag`, `RagProjection`, `RagRetrieval`, `RagOrder`, `RagPipeline`). The chunk list and its table are proved to be, in every run, the image of a map from record to the document last indexed; retrieval is a true top-k; persisting and loading leaves it unchanged exactly when ties are in record order; and everything the retrieval tool cites or leaves behind is allowed and within retention, and current unless a hit itself was stale.

**Codex discovery** (`Guidance`, `GuidanceProofs`, `ProjectRoots`). Guidance edges form an acyclic order and a single chain in every scope. A path's project is its deepest root, and the write gate asks for the trust of that same root.

**App-server client** (`AppServer`, `TurnCancellation`). Replies and notifications share one line stream; a turn can be interrupted at any point, at most once, and its answer depends on where only if the reply itself carries text or completes the turn.

`Sequences`, `Text`, `Ordering` and `Domain` hold what these share: filters, bounded lists, decimal numbers, stable sorting and deduplication with the facts that a strict key leaves sorting no choice and that ties keep their order.

Where the code does less than one might expect, the model follows the code: an id that comes back to the outbox behind unsent events hides them from a stream whose cursor it is (`RuntimeOutbox.ReappendedCursorSkips`, and `DeliveryReappend` for a run that gets there); a frame answered out of the middle of the set-aside frames moves the earlier ones behind the later (`AgentClient.AnswerKeepsOrder` gives the exact condition); backup names of two change sets can meet when their ids differ in length, and the earlier set then takes the later one's backup (`SafeChangeStack.MeetingNames`); several edits of one file in one change set are undone in forward order, which goes through only when they turn each other back and then leaves the file as it was before the last of them (`SafeChangeProofs.RollbackOfApplied`); a document that indexing refuses leaves the earlier chunks of its record in place; and a root that no longer exists still decides for the write gate although it is no longer a path's project (`ProjectRoots.GateAsksForTheProject`).

## Model

| member | source | states |
|---|---|---|
| RuntimeOutbox.Outbox.Append | crates/amcp-agent/src/main.rs:3572-3598 | appending adds each event whose id is not queued, once, and keeps the newest 256; appending nothing changes nothing |
| RuntimeOutbox.Outbox.Acknowledge | crates/amcp-agent/src/main.rs:3608-3629 | removes exactly the queued events with the given ids and returns how many |
| RuntimeOutbox.AppendKeepsQueue | crates/amcp-agent/src/main.rs:3580-3592 | after an append ids are still distinct and within capacity, every id queued before or offered is kept or evicted, none comes from elsewhere, and eviction leaves a full outbox |
| RuntimeOutbox.AcknowledgeKeepsQueue | crates/amcp-agent/src/main.rs:3616-3629 | after an acknowledgement ids are still distinct and exactly the ids not named are left |
| RuntimeOutbox.StreamPageMembers | crates/amcp-agent/src/main.rs:1070-1075 | a page holds only queued, unsent events in scope |
| RuntimeOutbox.StreamPageDistinct | crates/amcp-agent/src/main.rs:1070-1075 | no id occurs twice in a page, and it is no longer than the limit clamped to 1..64 |
| RuntimeOutbox.CursorIsSpeedUp | crates/amcp-agent/src/main.rs:1054-1076 | searching from the cursor gives the page of a search of the whole outbox, for every limit, if and only if no unsent event in scope lies before the cursor |
| RuntimeOutbox.ReappendedCursorSkips | crates/amcp-agent/src/main.rs:1062-1069 | a concrete outbox where the cursor's id has come back at the tail and an unsent event is skipped |
| EventStream.Negotiated | crates/amcp-agent/src/main.rs:881 | the granted window is in 1..64 and is the requested one when that is |
| EventStream.Server.constructor | crates/amcp-agent/src/main.rs:880-889 | a stream starts with the given cursor, nothing in flight and nothing sent, and clamped window and heartbeat |
| EventStream.Server.Tick | crates/amcp-agent/src/main.rs:1004-1048 | a tick emits a page that fits the free window and records it, else a due heartbeat, else nothing |
| EventStream.Server.Emit | crates/amcp-agent/src/main.rs:1015-1020 | an emitted page's ids are in flight and sent, and its last id is the cursor |
| EventStream.Server.Acknowledge | crates/amcp-agent/src/main.rs:958-974 | only ids in flight are removed from outbox and window |
| AgentClient.Client.NextResponse | crates/amcp-controller/src/main.rs:3179-3191 | the oldest set-aside frame comes first, then the wire; a closed connection or an unacceptable line fails |
| AgentClient.Client.AwaitAnswer | crates/amcp-controller/src/main.rs:3141-3166 | returns the first frame with the id and leaves the frames passed over, in order, behind what was still pending; fails at the first unacceptable line or at the end |
| AgentClient.AnswerKeepsOrder | crates/amcp-controller/src/main.rs:3153-3165 | no frame is lost or duplicated, and the order of the others is kept if and only if the answer did not sit between set-aside frames |
| AgentSession.SessionKeepsOrder | crates/amcp-controller/src/main.rs:3141-3191 | over any sequence of requests with new ids and reads, what was taken up, what is set aside and what is on the wire are all frames but the answers, in their first order |
| DeliveryReader.ReadsAreAwaitAnswer | crates/amcp-controller/src/main.rs:3141-3191 | reading steps up to the answer leave pending frames and wire exactly as the client's loop does |
| DeliveryTheorems.StepKeepsInv | crates/amcp-agent/src/main.rs:904-1050 | every enabled step of outbox, streams, Controller and environment keeps the joint invariant |
| DeliveryTheorems.RunKeepsInv | crates/amcp-agent/src/main.rs:904-1050 | so does every run |
| DeliveryTheorems.NoSlotLeaks | crates/amcp-agent/src/main.rs:957-1034 | in every reachable state a stream's in-flight set is, each id once, the ids in pages the Controller has not finished and in acknowledgements the Agent has not handled, within the negotiated window |
| DeliveryTheorems.IdleStreamHasFreeWindow | crates/amcp-controller/src/main.rs:1580-1617 | a stream with nothing under way has its whole window free |
| DeliveryTheorems.PagesArriveInOrder | crates/amcp-controller/src/main.rs:1580-1617 | what the Agent has sent on a stream is what the Controller has taken up followed by what it has not read, in order and without repetition |
| DeliveryTheorems.NeverStuck | crates/amcp-controller/src/main.rs:3154-3165 | a Controller that waits has its one request with the Agent, or the answer to it, of the kind it expects, on the wire and a frame to read |
| DeliveryTheorems.NeverGivesUp | crates/amcp-controller/src/main.rs:1585-1617 | no frame that can arrive is one the Controller rejects |
| DeliveryTheorems.OnlyPersistedLeave | crates/amcp-controller/src/main.rs:1593-1613 | in every reachable state, an event leaves the outbox only when the catalog already has it, or by an append that pushes that very event out |
| DeliverySafety.ListenReads | crates/amcp-controller/src/main.rs:1589-1604 | on a stream opened for the Controller's host every frame read is a page, and filtering it by host drops nothing |
| DeliverySafety.SlotsKeptExactly | crates/amcp-controller/src/main.rs:1544-1604 | taking up a page keeps window and outstanding ids in step if and only if all its events are of the Controller's host, which is why the stream must be opened for that host |
| DeliveryTheorems.NoEventLost | crates/amcp-controller/src/main.rs:1102-1137 | over every run, each event ever appended is queued, in the catalog, or was evicted since it was last added; no event counts as evicted that is queued |
| DeliveryTheorems.EvictionIsOldestFirst | crates/amcp-agent/src/main.rs:3589-3592 | only an append evicts, only from an outbox it leaves full, and only events older than all it keeps; an id counts as evicted until it is added again |
| DeliveryAnswers.AcknowledgementExactly | crates/amcp-agent/src/main.rs:957-974 | an acknowledgement takes out of the outbox exactly the events it names and, on a stream, that are in flight there; the others stay in order, the answer is how many went, and the stream gets their slots back |
| DeliveryAnswers.SubscriptionExactly | crates/amcp-agent/src/main.rs:2266-2287 | a subscription outside a stream is answered with the events right behind the first event of the cursor's id, or from the start when there is none, at most the limit kept within 1 and 256; a stream refuses it |
| DeliveryAnswers.OpeningExactly | crates/amcp-agent/src/main.rs:863-898 | a stream for another host, or on a connection that has one, is refused; else it starts at the given cursor with nothing sent and the window kept within 1 and 64 |
| DeliveryAnswers.TickExactly | crates/amcp-agent/src/main.rs:1004-1048 | in every reachable state a tick sends the first unsent events behind the cursor whose host, provider and project the scope names, as many as the window has room for, else a due heartbeat, else nothing, and changes nothing but its connection |
| DeliveryProgress.StreamDrains | crates/amcp-controller/src/main.rs:1580-1617 | from every reachable state in which a stream is idle and its cursor skips nothing, rounds of tick, reading, storing and acknowledging lead to a state in which exactly the events it wanted are in the catalog and out of the outbox, and the stream is idle again |
| DeliveryOnce.OneSubscriptionDelivers | crates/amcp-controller/src/main.rs:1091-1137 | from every reachable state in which a plain connection is free, one subscription with its acknowledgement delivers exactly those events of the page that are of the Controller's host and leaves the connection free |
| DeliveryOnce.OnceDeliversAll | crates/amcp-controller/src/main.rs:1091-1137 | with the largest limit and no cursor it delivers every event of the host in the outbox |
| DeliveryOnce.StreamOpens | crates/amcp-controller/src/main.rs:1544-1570 | from such a state opening a stream leads to an idle stream for the host and the provider asked for, with the window asked for, nothing sent and nothing skipped |
| DeliveryOrder.QueueInAppendOrder | crates/amcp-agent/src/main.rs:3580-3592 | in every run the outbox is in the order of the latest appends |
| DeliveryCursor.AppendEndsCoverageExactly | crates/amcp-agent/src/main.rs:1054-1076 | while a stream's cursor has no unsent event in scope before it, an append changes that if and only if it adds the cursor's own id anew and leaves it behind such an event |
| DeliveryCursor.CoveredExactly | crates/amcp-agent/src/main.rs:1054-1076 | from any reachable state in which a stream has sent nothing, in every run, the cursor never has an unsent event in scope before it if and only if no append of the run does that, whatever else is appended again, acknowledged or evicted |
| DeliveryCursor.CursorChangesNothing | crates/amcp-agent/src/main.rs:1004-1034 | after every such run the stream's next page is the front of all its unsent events in scope, taken from the whole outbox, whatever became of the cursor's event |
| DeliveryOrder.EmittedInAppendOrder | crates/amcp-agent/src/main.rs:1004-1034 | from such a state, in every run that appends nothing anew that the stream has sent, it sends ids in the order of their latest appends and none twice |
| DeliveryReappend.ReappendedEventIsSkipped | crates/amcp-agent/src/main.rs:1054-1076 | a run of the whole system reaches a state in which a stream with a free window passes an unsent event over, because the id its cursor names was appended again behind that event |
| Approvals.Store.Consume | crates/amcp-agent/src/main.rs:3348-3385 | accepts exactly a bound approval whose key is not on the durable list, and updates list and memory as one event of a run does |
| Approvals.Store.Restart | crates/amcp-agent/src/main.rs:3365-3368 | a restart empties the memory and keeps the list |
| Approvals.MemoryDecidesNothing | crates/amcp-agent/src/main.rs:3365-3372 | asking the in-memory set first never changes a decision |
| Approvals.OneTimeUse | crates/amcp-agent/src/main.rs:3364-3384 | over every run with restarts the durable list is the newest 4096 accepted keys, the in-memory set is part of it, and a key is accepted again only more than 4096 acceptances later |
| Approvals.RefusedExactlyWhileRemembered | crates/amcp-agent/src/main.rs:3365-3377 | a bound approval is refused exactly while its key is among the newest 4096 accepted |
| Approvals.AcceptedExactly | crates/amcp-agent/src/main.rs:3348-3385 | after any run an approval is accepted if and only if it is genuine, for this change set and these operations, and its id and nonce are not those of one of the last 4096 accepted; only then it is remembered |
| Approvals.KeysTell | crates/amcp-agent/src/main.rs:3364-3372 | approvals whose ids hold no colon have one key only if they have one id and one nonce |
| Approvals.KeysCanMeet | crates/amcp-agent/src/main.rs:3364-3372 | with a colon in an id they can have one key although both differ |
| CollectionOutbox.Outbox.Append | crates/amcp-agent/src/main.rs:3541-3559 | a batch replaces an earlier one of its run, goes to the back, and the newest 8 are kept |
| CollectionOutbox.Outbox.Replay | crates/amcp-agent/src/main.rs:1295-1303 | replay is the newest-first prefix of the list, at most the limit clamped to 1..32 |
| CollectionOutbox.BoundedIsNewestOfUnbounded | crates/amcp-agent/src/main.rs:3549-3554 | for every sequence of appends the bounded list is the newest 8 entries of the same list kept without a bound |
| CollectionOutbox.ReplayIsNewestFirst | crates/amcp-agent/src/main.rs:1295-1303 | replay after any appends is a prefix of the reversed unbounded list, and how long a one |
| RedactionPattern.PairIsPattern | crates/amcp-codex/src/lib.rs:1745-1747 | the scanner finds a key and value exactly where a key, spaces, a separator, spaces and text stand |
| RedactionPattern.ScannedHasShape | crates/amcp-codex/src/lib.rs:1745-1747 | what the scanner removes as a value has the pattern's shape |
| RedactionPattern.ShapeIsScanned | crates/amcp-codex/src/lib.rs:1745-1747 | the scanner reads at least as far as any match of the pattern |
| RedactionPattern.BearerIsPattern | crates/amcp-codex/src/lib.rs:1748 | the scanner finds a bearer token exactly where the word, spaces and token characters stand |
| RedactionPattern.ScannedTokenHasShape | crates/amcp-codex/src/lib.rs:1748 | what the scanner removes as a token has the pattern's shape |
| RedactionPattern.TokenShapeIsScanned | crates/amcp-codex/src/lib.rs:1748 | the scanner reads at least as far as any match of the pattern |
| RedactionProofs.RedactedShowsNoSecret | crates/amcp-codex/src/lib.rs:1744-1751 | in redacted text every secret-like key has only the mark as its value and there is no bearer token |
| RedactionProofs.UnchangedExactlyWhenClean | crates/amcp-codex/src/lib.rs:289-291 | redaction leaves a text alone if and only if it shows no such value and no token, which is what the guards of propose and apply test |
| RedactionProofs.RedactionIsIdempotent | crates/amcp-codex/src/lib.rs:1744-1751 | redacting twice is redacting once |
| RedactionMeaning.RedactionKeeps | crates/amcp-codex/src/lib.rs:1744-1751 | the text splits into kept characters and keys with values, the kept characters and the keys with `=[REDACTED]` make a second text, which splits into kept characters and bearer tokens; with `Bearer [REDACTED]` for each token that is the redacted text; a character is kept only where no match starts, and a match goes on as long as it can |
| RedactionMeaning.RedactionExactly | crates/amcp-codex/src/lib.rs:1744-1751 | any such splits show the redacted text, since there is only one way to split |
| SafeChange.Store.ApplyOperation | crates/amcp-codex/src/lib.rs:297-352 | one operation checks the expected hash, backs the old content up, replaces it and verifies the new hash, or stops the change |
| SafeChange.Store.Validate | crates/amcp-codex/src/lib.rs:282-293 | the validation pass succeeds if and only if every operation is valid, and touches nothing |
| SafeChange.Store.ApplyChange | crates/amcp-codex/src/lib.rs:278-362 | a validation pass over all operations, then the operations in order; the disk and receipt are those of the specified application |
| SafeChange.Store.RollbackOperation | crates/amcp-codex/src/lib.rs:374-419 | one operation checks the after hash and the backup, restores or removes the file and verifies the old hash, or stops |
| SafeChange.Store.RollbackChange | crates/amcp-codex/src/lib.rs:364-442 | the operations are undone in forward order; the disk and receipt are those of the specified rollback |
| SafeChangeEffects.BackupNamesDistinct | crates/amcp-codex/src/lib.rs:1687-1696 | no two operations of one change set share a backup name, whatever their files are called |
| SafeChangeEffects.AppliedExactlyWhenReady | crates/amcp-codex/src/lib.rs:278-362 | a change set is applied if and only if every operation is valid and expects what the operation before it on the same file records, or else the content there; then every file holds its last replacement, every replaced content has a true backup, and nothing else changed; files may be named any number of times |
| SafeChangeEffects.RolledBackExactlyWhenRestorable | crates/amcp-codex/src/lib.rs:364-442 | on any disk a rollback goes through if and only if every operation meets the hash it left, as the operation before it on the same file is undone to, and every needed backup is true; then every file holds what its last backup saved |
| SafeChangeGate.AppliedExactlyWhenAllowed | crates/amcp-codex/src/lib.rs:278-362 | a change set is applied if and only if it is not empty and every operation names a file that may be written, replaces it with text that shows no secret and is well formed, deletes nothing, finds the hash it expects and records the hash it writes |
| SafeChangeGate.OnlyWritableChange | crates/amcp-codex/src/lib.rs:282-293 | whatever its outcome, apply changes only files that the set names and that may be written; one file that may not be written fails the set without touching any |
| SafeChangeGate.RollbackChangesOnlyNamed | crates/amcp-codex/src/lib.rs:364-442 | whatever its outcome, a rollback changes only files that the set names, and no backup |
| SafeChangeGate.ConflictReceipt | crates/amcp-codex/src/lib.rs:304-317 | the receipt of a conflict tells the hash found, and no backup and no new hash |
| SafeChangeGate.RollbackReceiptNames | crates/amcp-codex/src/lib.rs:420-441 | the receipt of a rollback names exactly the backups of the set's operations that are there |
| SafeChangeProofs.RollbackOfApplied | crates/amcp-codex/src/lib.rs:278-442 | rolling back an applied change set of any length goes through if and only if every new hash is the recorded old hash of the operation before on the same file or, for the first on a file, the recorded new hash of the last; then every file holds what it held before the last operation on it |
| SafeChangeProofs.RollbackRestoresExactly | crates/amcp-codex/src/lib.rs:278-442 | it restores every file if and only if it goes through and every file named again held its original content before the last operation on it |
| SafeChangeProofs.RollbackRestoresAll | crates/amcp-codex/src/lib.rs:278-442 | an applied change set on distinct files rolls back to the original file store, including the removal of created files |
| SafeChangeStack.StackRestoresExactly | crates/amcp-codex/src/lib.rs:278-442 | any number of change sets whose backup names do not meet, applied one after another and rolled back in reverse: each restores the files it was applied to if and only if each, rolled back at once, would have; they may change the same files |
| SafeChangeStack.StackRestoresAll | crates/amcp-codex/src/lib.rs:278-442 | proposed change sets on distinct files each, with different ids of one length, are undone to the original file store |
| SafeChangeStack.FreshIdsApart | crates/amcp-codex/src/lib.rs:1687-1696 | different ids of one length, as proposals get them, keep the backups of any two change sets apart, whatever their files are called |
| SafeChangeStack.NamesCanMeet | crates/amcp-codex/src/lib.rs:1687-1696 | ids of different lengths do not: two ids and two file names with one backup name |
| SafeChangeStack.MeetingNames | crates/amcp-codex/src/lib.rs:278-442 | when the backups of two sets that replace different files have one name, the later set is still undone, and the earlier one goes through if and only if both old contents have one hash; its file then holds the other's old content |
| SafeChangeProofs.ProposedExactlyWhen | crates/amcp-codex/src/lib.rs:182-215 | a change is proposed if and only if the target may be written, nothing is deleted, the expected hash, if any, is the current one, and the replacement is small, shows no secret and is well formed |
| SafeChangeProofs.ProposalSays | crates/amcp-codex/src/lib.rs:216-246 | a proposal is one operation that creates a missing file or replaces a present one, from the hash seen to the hash of a replacement that shows no secret |
| SafeChangeProofs.AppliedReceipt | crates/amcp-codex/src/lib.rs:350-361 | the receipt of an applied change lists in order the backups of the replaced files, the hashes found and the hashes written |
| SafeChangeProofs.ReceiptsMirror | crates/amcp-codex/src/lib.rs:353-441 | what a rollback's receipt lists as before and after is what the change's receipt listed as after and before |
| SafeChangeProofs.ProposalRoundTrip | crates/amcp-codex/src/lib.rs:182-247 | a proposal applies if and only if the file's hash is still the one seen, and then rolls back completely |
| SafeChangeProofs.ConflictLeavesPrefix | crates/amcp-codex/src/lib.rs:297-317 | a conflict at operation k leaves exactly the result of applying operations 0..k-1 |
| SafeChangeProofs.InvalidTouchesNothing | crates/amcp-codex/src/lib.rs:282-293 | one invalid operation anywhere fails the change without touching a file |
| SafeChangeProofs.ChangesAreGuarded | crates/amcp-codex/src/lib.rs:297-419 | in every run interleaved with other writers, apply and rollback change a file only when its hash is the recorded expected or after hash at that moment |
| SafeChangeProofs.EditsOfOneFile | crates/amcp-codex/src/lib.rs:374-419 | any number of edits of one file roll back if and only if each turns back what the one before it made and the last leaves what the first did; the replacement before the last then remains |
| SafeChangeProofs.TwoEditsOfOneFile | crates/amcp-codex/src/lib.rs:374-419 | the case of two edits: they roll back if and only if neither changed the hash, and then the first replacement remains |
| SafeChangeProofs.BackAndForthIsUndone | crates/amcp-codex/src/lib.rs:374-419 | three edits of one file that go there, back and there again are undone completely |
| Rag.LexicalRagManager.constructor | crates/amcp-rag/src/lib.rs:825-832 | a new manager has no chunks |
| Rag.LexicalRagManager.LoadFromIndex | crates/amcp-rag/src/lib.rs:848-874 | the chunks are the stored rows of allowed scopes, in the table's order |
| Rag.LexicalRagManager.Index | crates/amcp-rag/src/lib.rs:968-1018 | each accepted document replaces its record's chunks by its numbered pieces at the end of the list; nothing happens when disabled; the count is that of the pieces |
| Rag.LexicalRagManager.PurgeExpired | crates/amcp-rag/src/lib.rs:1101-1109 | keeps exactly the chunks within retention and counts the others |
| Rag.LexicalRagManager.InvalidateSource | crates/amcp-rag/src/lib.rs:1095-1099 | keeps exactly the chunks of other source hashes and counts the others |
| Rag.LexicalRagManager.Evaluate | crates/amcp-rag/src/lib.rs:907-951 | returns the report that tallies every case's own retrieval |
| Rag.PersistentRagIndex.ReplaceChunks | crates/amcp-rag/src/lib.rs:702-738 | replaces the table if the keys are distinct and otherwise leaves it as it was |
| Rag.PersistentRagIndex.InvalidateStaleSources | crates/amcp-rag/src/lib.rs:743-771 | deletes every record that has a chunk whose hash is not the catalog's, and no other |
| RagProjection.WholeRecord | crates/amcp-rag/src/lib.rs:984-1014 | a record's chunks are numbered 0..n-1, share hash, scope, reference and index time, are cut at the chunk size and join back to the content |
| RagProjection.IndexKeepsWhole | crates/amcp-rag/src/lib.rs:968-1018 | indexing acts on the record map as putting each accepted document, or removing its record when it is empty |
| RagProjection.PurgeKeepsWhole | crates/amcp-rag/src/lib.rs:1101-1109 | purging removes whole records, those indexed before the cutoff |
| RagProjection.InvalidateKeepsWhole | crates/amcp-rag/src/lib.rs:1095-1099 | invalidating removes whole records, those of the hash |
| RagProjection.RefreshKeepsWhole | crates/amcp-rag/src/lib.rs:743-771 | refreshing the table removes whole records, those whose hash is not current |
| RagProjection.LoadKeepsWhole | crates/amcp-rag/src/lib.rs:848-874 | loading yields whole records, those of allowed scopes, although row order differs from list order |
| RagProjection.KeysDistinct | crates/amcp-rag/src/lib.rs:706 | the keys made of record and chunk number never collide, even when record ids contain the separator |
| RagProjection.RunProjects | crates/amcp-rag/src/lib.rs:635-1109 | after every sequence of start, load, index, purge, invalidate, persist and refresh steps, list and table are the images of two maps that make the same steps |
| RagProjection.PersistNeverCollides | crates/amcp-rag/src/lib.rs:702-738 | in no run does persisting fail on a repeated key |
| RagRetrieval.TermsAreWords | crates/amcp-rag/src/lib.rs:1036-1037 | a query's terms are not empty, hold no white space, and together are all of the query that is no white space |
| RagRetrieval.ScoreMeaning | crates/amcp-rag/src/lib.rs:1035-1049 | a score does not depend on the case of query or text, is positive if and only if some term occurs, and is the number of terms if and only if all do |
| RagOrder.TermsExactly | crates/amcp-rag/src/lib.rs:1036-1037 | the terms of a query are all its words in order: stretches without white space between white space or the ends |
| RagOrder.ScoreCounts | crates/amcp-rag/src/lib.rs:1035-1039 | a score is the number of words of the query, repetitions included, that stand somewhere in the text apart from case |
| RagOrder.TopK | crates/amcp-rag/src/lib.rs:1026-1081 | what is returned are items and citations of active chunks that are not like a secret, are inside the requested scope field by field and hold a word of the query; a better score comes first, then the smaller reference, then the smaller index; one is left out only at the limit, and none left out comes before one returned |
| RagOrder.StoredInOrder | crates/amcp-rag/src/lib.rs:635-641 | the table is read back by record, and by index within a record |
| RagOrder.CaseExactly | crates/amcp-rag/src/lib.rs:920-935 | a case of the report counts the items, the citations, and the expected and forbidden records that a citation names |
| RagRetrieval.SmallerLimitIsPrefix | crates/amcp-rag/src/lib.rs:1061-1081 | a smaller limit gives a prefix of the context and citations of a larger one |
| RagRetrieval.CitationNamesItem | crates/amcp-rag/src/lib.rs:1066-1081 | item and citation at each place come from one eligible chunk, and there are as many of either |
| RagRetrieval.EvaluationCounts | crates/amcp-rag/src/lib.rs:920-949 | the report counts as many citations as items; its hits are complete if and only if every expected record is cited in its own case, and its forbidden hits are none if and only if no forbidden one is |
| RagRetrieval.EvaluationTotals | crates/amcp-rag/src/lib.rs:936-949 | the report lists every case's outcome in order and its figures are the sums over the cases |
| RagRetrieval.PersistedAlikeExactly | crates/amcp-rag/src/lib.rs:1050-1061 | persisting and loading leaves retrieval at every limit unchanged if and only if chunks tied in the ranking are already in the order of their records |
| RagRetrieval.PersistLoadUnchanged | crates/amcp-rag/src/lib.rs:848-878 | after every run, records with distinct source references are retrieved the same after persisting and loading, for every query, scope and limit |
| RagPipeline.Collect | crates/amcp-mcp/src/main.rs:748-773 | refresh, load, index and purge in this order |
| RagPipeline.RetrieveContext | crates/amcp-mcp/src/main.rs:687-799 | collect, persist and retrieve, with the purge warning; disabled, it touches nothing and returns an empty context |
| RagPipeline.PipelinePersists | crates/amcp-mcp/src/main.rs:774 | on a table that represents its records the tool never fails to persist |
| RagPipeline.IndexedRecord | crates/amcp-rag/src/lib.rs:968-1018 | indexing leaves each record with the last document accepted for it, without an entry when that is empty, and as it was when none is accepted |
| RagPipeline.TableIsAdmissible | crates/amcp-mcp/src/main.rs:748-774 | everything left in the table has an allowed scope and an index time within retention; it has the catalog's current hash if and only if its record was not last indexed from a hit that is itself stale |
| RagPipeline.CurrentHitsStayCurrent | crates/amcp-mcp/src/main.rs:748-774 | when all hits carry the catalog's hashes, no record was |
| RagPipeline.CitationsAreAdmissible | crates/amcp-mcp/src/main.rs:748-776 | the same holds for every citation's chunk, whose scope is inside the requested one |
| RagPipeline.HitIsStored | crates/amcp-mcp/src/main.rs:755-773 | every record is there as the complete pieces of the last hit accepted for it, or else as it was before if that was current and allowed, unless retention has run out |
| RagPipeline.HitIsCut | crates/amcp-rag/src/lib.rs:968-1018 | the record of a hit that is of an allowed scope and not like a secret, and is followed by no other such hit of the record, consists after the tool of the preview cut into numbered pieces of the configured size with the hit's fields, unless its retention has run out |
| RagPipeline.FoundExactly | crates/amcp-mcp/src/main.rs:687-776 | the tool returns the best chunks, at most the number asked for or configured kept within 1 and 20 |
| Guidance.GuidanceEdges | crates/amcp-codex/src/lib.rs:1309-1356 | the edges are the links of neighbours in every scope's sorted records, sorted and with repeated pairs of ids dropped |
| Guidance.AddLinks | crates/amcp-codex/src/lib.rs:1330-1343 | the links between consecutive records are added in order |
| GuidanceProofs.OneRecordASource | crates/amcp-codex/src/lib.rs:141-146 | deduplication keeps exactly one record of every source found, one of its lowest rank |
| GuidanceProofs.NoEdgeDropped | crates/amcp-codex/src/lib.rs:1345-1354 | the final sort and deduplication keep every distinct link with its relation, and each pair of ids once |
| GuidanceProofs.EdgeMeaning | crates/amcp-codex/src/lib.rs:1330-1343 | every edge strictly raises rank or, at equal rank, source, and overrides exactly when the higher record is an override |
| GuidanceProofs.Acyclic | crates/amcp-codex/src/lib.rs:1309-1356 | no path of edges over all scopes leads from an id back to itself |
| GuidanceProofs.OrderIsReachability | crates/amcp-codex/src/lib.rs:1309-1343 | among the records of one scope, one reaches another if and only if the other has strictly more precedence, and any two are connected |
| GuidanceProofs.EdgesExactly | crates/amcp-codex/src/lib.rs:1309-1356 | there is an edge for every two records that apply in some scope, the whole host or a project, with none between them in precedence, and no other; it carries their ids, the first record's host and provider, and the relation of the higher kind |
| GuidanceProofs.EdgesInOrder | crates/amcp-codex/src/lib.rs:1345-1350 | the edges are in the order of their lower and then their higher ids |
| ProjectRoots.CollectRoots | crates/amcp-codex/src/lib.rs:1132-1156 | the roots are the distinct canonical forms of the configured ones, deepest first |
| ProjectRoots.RootsExactly | crates/amcp-codex/src/lib.rs:1132-1156 | the list is sorted by depth and holds exactly the canonical configured roots |
| ProjectRoots.ProjectIsOwner | crates/amcp-codex/src/lib.rs:1083-1092 | a path's project is the unique deepest existing root, other than the home directory, that contains it; there is none if and only if no such root does |
| ProjectRoots.OneOwner | crates/amcp-codex/src/lib.rs:1086-1091 | at most one root of a kind is the deepest that contains a path |
| ProjectRoots.GateRootIsOwner | crates/amcp-codex/src/lib.rs:1100-1105 | the gate's root is the unique deepest root, other than the home directory, that contains the path |
| ProjectRoots.GateAsksForTheProject | crates/amcp-codex/src/lib.rs:1083-1105 | gate and project agree if and only if the gate's root still exists or there is none |
| ProjectRoots.WritableExactly | crates/amcp-codex/src/lib.rs:1094-1130 | outside the home directory, with existing roots, a path may be changed if and only if its own project is trusted, whatever the projects around it are |
| ProjectRoots.WritableMeans | crates/amcp-codex/src/lib.rs:1094-1130 | on any setup a path may be written if and only if it is in the home directory or the deepest project root that contains it is one for which the first registry entry with a trust level says trusted, in any case |
| AppServer.Client.constructor | crates/amcp-app-server/src/lib.rs:89-96 | a client starts with request id 1 and nothing queued |
| AppServer.Client.Request | crates/amcp-app-server/src/lib.rs:122-140 | sends one request with a new id, returns the first message with that id unless it is an error, and queues everything before it in order |
| AppServer.Client.NextMessageOrCancellation | crates/amcp-app-server/src/lib.rs:319-344 | takes the oldest queued message or else the next line, reports a cancellation only when nothing is queued, and consumes a line it cannot read |
| AppServer.Client.Interrupt | crates/amcp-app-server/src/lib.rs:292-299 | the stream after an interruption is the stream before it without its reply |
| AppServer.Client.RunTurn | crates/amcp-app-server/src/lib.rs:225-290 | however the cancellation channel behaves, the interruption is sent at most once; the turn completes with the first delivered message that says so of this turn or of none, the text is what the agent's messages before it add or else its own, and everything after it is still to come; it fails without such a message |
| AppServer.Client.FollowTurn | crates/amcp-app-server/src/lib.rs:242-289 | the same for the loop of a started turn |
| AppServer.ExpectedTells | crates/amcp-app-server/src/lib.rs:257-289 | what any delivered lines make of a turn: where it completes, its text, its first 512 messages, and when it fails |
| TurnCancellation.AnsweredExactly | crates/amcp-app-server/src/lib.rs:127-137 | a request is granted if and only if a first message with its id comes that is no error, before any line that cannot be read, and that is the one it gets |
| TurnCancellation.ReplyTakenOut | crates/amcp-app-server/src/lib.rs:127-137 | waiting for a reply takes the first message with the id out of the stream and loses, adds and reorders nothing else |
| TurnCancellation.InterruptionRemovesItsReply | crates/amcp-app-server/src/lib.rs:243-256 | a granted interruption removes exactly its reply from what the turn is delivered |
| TurnCancellation.InterruptionKeepsAnswer | crates/amcp-app-server/src/lib.rs:225-290 | interrupted at any point and granted, a turn completes with the same text and completion as uninterrupted if and only if the one reply it consumes can be missed: the turn is over before it, or it adds no text that counts, or the completion it is comes again |
| TurnCancellation.PlainReplyIsHarmless | crates/amcp-app-server/src/lib.rs:127-137 | a reply that is neither agent text nor the turn's completion can always be missed, whatever other messages carry its id |
| TurnCancellation.AnswerIsAllText | crates/amcp-app-server/src/lib.rs:269-283 | when any agent text arrives, and a reply that an interruption consumes can be missed, the answer is all of it, in order of arrival, up to the turn's completion |

## Left out

- Sockets, TLS, named pipes, process spawning, JSON encoding, file watching and command lines: plumbing; a connection is two queues of whole frames that can be cut at any step.
- Failures to read or write stored files, and crashes inside one write: every step of a store happens completely or not at all.
- The catalog's storage crate is not part of this model: the catalog is a set of event ids, and a map of source hashes for retrieval.
- Closing a stream, shutdown, pairing, host registration and provider refresh on the delivery connection: little state; a close is covered by the disconnect step.
- Stream ids: the model has one stream on a connection, so the Controller's test of a page's stream id always succeeds.
- Protocol versions and authentication in the step system: `AgentClient` models a frame of an unacceptable version, the step system sends none.
- Timing of ticks, heartbeats and long polls: a tick may happen at any time and a heartbeat may be due or not.
- Other clients of the same Agent: every connection of the step system belongs to the one Controller whose catalog is meant.
- DeliveryCursor.CursorChangesNothing: assumes that no append leaves the cursor's own id behind an unsent event, because `DeliveryReappend.ReappendedEventIsSkipped` is a run in which one does and an event is passed over.
- DeliveryOrder.EmittedInAppendOrder: assumes that nothing the stream has sent is appended anew while it is open, since the latest append of such an id no longer is the one it was sent for.
- Signatures, expiry and one-time-use flags of approval envelopes: one boolean of the envelope.
- Secure hashing: an arbitrary function from content to hash; the guidance results take distinct ids as a hypothesis.
- Text outside ASCII: character classes, case and chunk boundaries are those of ASCII text.
- Resolution of an authorized target, trust and TOML syntax in `SafeChange`: parameters of the adapter; the trust gate itself is in `ProjectRoots`.
- SafeChangeProofs.RollbackRestoresAll: speaks of files and their contents, not of directories, file modes or leftover temporary files.
- Diffs, receipts' messages and timestamps, evidence and actors of change sets: carried along without being read.
- Embedding providers, remote or local, and semantic scores: retrieval is the lexical path; a configured but unavailable provider only changes the warning.
- Retrieval statistics, their history table and audit entries: counters that nothing reads back.
- The catalog search that produces the hits: the hits are a parameter.
- Discovery of sessions, memories and configuration layers, and the desktop application: lists without invariants over time.
- TurnCancellation.InterruptionKeepsAnswer: compares text and completion; the list of event summaries, which lacks the reply, is not compared.
- Summaries of a turn's events: the messages themselves are listed, at most 512.
- Agent text inside a completion: one string of the message, whatever part of it the text is taken from.
