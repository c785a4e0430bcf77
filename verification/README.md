# Verified models of the omo webchat backend

The project models the parts of the Go backend whose correctness does not show in any single
function, and proves what they promise for every input, run and interleaving.

| component | modules | main results |
|---|---|---|
| Oversized JSON records (RPC) | `JsonGrammar`, `JsonScan`, `OversizedJson`, `HistoryEnvelope` | the streaming scanner accepts exactly the grammar of sections 2 to 7 of RFC 8259 (raw line feeds excluded, nesting bounded) and stops exactly behind the record |
| RPC client epochs | `RpcEpochs` | requests settle once and only by their own epoch and command; superseded flights publish nothing |
| Subscriber broadcaster | `Broadcast`, `OverflowHandover`, `SubscriberQueues` | no frame is lost, repeated or reordered across an overflow and a reattachment |
| Replay gate | `ReplayGate`, `ReplayActions`, `ReplayPages` | retained frames drain in order and suppression is injective; exactly when an earlier replay's terminal or pages can interfere |
| Count authority | `Sums`, `DagCounts`, `DagHistory`, `CountCaches`, `ExactCounts`, `TaskHistory` | published counts are exact, or withheld exactly when an ambiguity makes them unknowable |
| Cold history | `Sequences`, `ColdLines`, `ColdBranch`, `ColdIndex`, `IndexErrors`, `IndexCache`, `ColdPaging`, `FileOrder`, `FileOrderExact` | the index is the parent chain of the last entry, the cache is invisible, and every way of paging rebuilds the branch |
| DAG layout | `DagWaves`, `Strings` | a node's wave is its longest dependency path; the fallback wave is exactly the nodes that reach a cycle or a missing dependency |
| Send queue | `SendQueue` | nothing is lost or duplicated, and memory and disk differ by at most one named operation |
| Adoption copy | `AdoptCopy`, `LockTable` | all-or-nothing publication with a failure possible at every step |
| DAG catalog | `Catalog`, `Strings` | keyset pages over a changing catalog return every stable run once and repeat none |

Objects that the source updates in place are classes or loops here. Each is proved against a
specification function or predicate on values, and the long-run theorems are about that
specification. Concurrent code is a state machine whose actions are the source's critical
sections: `Next`, `Step` or `NextTable` is one action, `Run` a whole history of them.

What the model takes as a parameter: JSON decoding of one line and whitespace trimming
(`ColdIndex.Codec`), decoding of oversized records (a classifier of member names and a decoder of
the kept members), timestamp parsing (`Catalog.Clock`), fresh identifiers and clocks (arguments of
operations), file contents behind an identity (`IndexCache.World`), which file-system step fails
(`SendQueue.Stage`, `AdoptCopy.Directory.fails`), and what a source file contains at each read
(`AdoptCopy.Source.contentAt`). SHA-256 keys are represented by what they hash.

Where code and comments differ, the model follows the code:

- `internal/sendqueue/store.go:322-324` says that memory keeps matching disk. After a failure behind
  the rename it does not (`SendQueue.MemoryCanTrailDisk`); `SendQueue.AgreeExactly` and
  `SendQueue.DiskIsMemoryOrLost` say exactly when and how it differs. A rollback also stores an
  empty queue for a chat that had none, so agreement is stated for lookups.
- `internal/session/broadcast.go:211-334` keeps no record of which replay a queued item belongs to. A
  replay that begins while an older terminal item is queued, being delivered or being drained can
  have its frames settled, and its gate reopened, before its own terminal
  (`ReplayGate.QueuedTerminalDrainsEarly`, `ReplayGate.RacingBeginDrainsEarly`), and one that begins
  while an older page can still be delivered before any terminal can drop a message because of that
  page (`ReplayPages.LatePageSuppresses`). `ReplayGate.EarlyExactly` and `ReplayPages.OwnPagesExactly`
  say that these are the only ways. They are about the subscription's own interface: its two callers
  (`internal/session/session.go:1702`, `internal/session/manager.go:910`) open one replay on each fresh
  subscription, and a second `beginReplay` on an open gate changes nothing and begins no replay.
- `internal/session/dag_complete_store.go:238-245` says that a missing or unparseable clock ranks oldest and
  sorts last. It ranks as the zero instant, and RFC 3339 has clocks before that
  (`Catalog.UnparsedBeforeYearZero`); `Catalog.UnparsedLastExactly` says when the order is as documented.
- `internal/api/chat_dag_runs.go:166-171` says that every emitted cursor validates on resume. It does if and
  only if the run id at the page boundary is valid (`Catalog.CursorIsValid`), and stored run ids need not
  be (`Catalog.SlashCursorRefused`).

## Model

| member | source | states |
|---|---|---|
| JsonScan.ScanValueExact | internal/omorpc/oversized_json.go:69-121 | A value is accepted at a depth, leaving some rest, if and only if the input is a phrase of the RFC 8259 grammar followed by that rest and its nesting is within the bound |
| JsonScan.ScanValueSound | internal/omorpc/oversized_json.go:69-121 | What is consumed by an accepted value is the text of a grammar tree |
| JsonScan.ScanValueComplete | internal/omorpc/oversized_json.go:69-121 | Every grammar tree within the nesting bound is accepted in any context that cannot extend it |
| JsonScan.ScanStringSound | internal/omorpc/oversized_json.go:123-156 | An accepted string is a quotation of characters and escapes of the grammar |
| JsonScan.ScanStringComplete | internal/omorpc/oversized_json.go:123-156 | Every string of the grammar is accepted and consumed exactly |
| JsonScan.ScanNumberSound | internal/omorpc/oversized_json.go:168-188 | An accepted number has the sign, whole part, fraction and exponent of the grammar |
| JsonScan.ScanNumberComplete | internal/omorpc/oversized_json.go:168-188 | Every number of the grammar is accepted when no byte follows that would extend it |
| JsonScan.DigitsSound | internal/omorpc/oversized_json.go:158-166 | An accepted digit run is non-empty and all digits |
| JsonGrammar.Spelling | internal/omorpc/oversized_json.go:63-188 | The character classes, punctuation and literals of the grammar are the characters they stand for |
| OversizedJson.Cursor.Advance | internal/omorpc/oversized_json.go:22-28 | The lookahead byte becomes the next byte of buffered prefix and stream |
| OversizedJson.Cursor.TakeByte | internal/omorpc/oversized_json.go:36-53 | Consumes one byte, captures it while capturing, and fails when the capture budget is spent |
| OversizedJson.Cursor.WantByte | internal/omorpc/oversized_json.go:55-61 | Consumes exactly the expected byte or fails |
| OversizedJson.Cursor.SkipSpace | internal/omorpc/oversized_json.go:63-67 | The view moves past white space exactly as the pure scanner does |
| OversizedJson.Cursor.ReadValue | internal/omorpc/oversized_json.go:69-121 | The mutable cursor reads a value exactly as the pure scanner, fails in the same cases, and captures exactly the consumed bytes |
| OversizedJson.Cursor.ReadString | internal/omorpc/oversized_json.go:123-156 | The cursor reads a string exactly as the pure scanner |
| OversizedJson.Cursor.ReadDigits | internal/omorpc/oversized_json.go:158-166 | The cursor reads a digit run exactly as the pure scanner |
| OversizedJson.Cursor.ReadNumber | internal/omorpc/oversized_json.go:168-188 | The cursor reads a number exactly as the pure scanner |
| HistoryEnvelope.ScanRecordExact | internal/omorpc/oversized.go:22-105 | A record is accepted if and only if it is one acceptable object with white space around it and a line feed, and the rest is untouched |
| HistoryEnvelope.AdmitAllExact | internal/omorpc/oversized.go:28-76 | Members are admitted if and only if no known member repeats and names plus kept values fit the 64 KiB budget |
| HistoryEnvelope.AdmitAllFields | internal/omorpc/oversized.go:28-76 | The kept members are exactly the known ones, with their source text |
| HistoryEnvelope.KeptsExact | internal/omorpc/oversized.go:28-76 | In an unambiguous object a field is kept with a value if and only if it is not data and some member is named it and has that text |
| HistoryEnvelope.RecordFields | internal/omorpc/oversized.go:22-105 | What is kept of an accepted record is, for each known member other than data, exactly the text of its value |
| HistoryEnvelope.EndsAtFirstLf | internal/omorpc/oversized.go:77-85 | Acceptance consumes through the first line feed of the input and no further |
| HistoryEnvelope.ValueHasNoLf | internal/omorpc/oversized_json.go:63-121 | No value of the grammar, in any layout the scanner accepts, contains a raw line feed |
| HistoryEnvelope.DiscardHistory | internal/omorpc/oversized.go:22-105 | The discard refuses exactly invalid records, undecodable envelopes, and what is not a get_entries response with an id and a success mark; otherwise it names the request and command, and consumes the stream through the record |
| HistoryEnvelope.ScanEnvelope | internal/omorpc/oversized.go:22-85 | The imperative scan over prefix and stream returns what the pure record scan keeps and how much of the stream it took |
| RpcEpochs.RequestsSettleOnce | internal/omorpc/client.go:397-439 | In every run a registered request is in exactly one of pending, claimed, sent and withdrawn; pending only while its epoch is current; answered only by its own epoch and command |
| RpcEpochs.SettledStaysSettled | internal/omorpc/client.go:704-855 | Along any run a request that left the pending map never returns to it, and a sent result never changes |
| RpcEpochs.EpochsIncrease | internal/omorpc/client.go:283-308 | Epoch numbers are published strictly increasing |
| RpcEpochs.FencedFlightNeverPublishes | internal/omorpc/client.go:482-513 | A flight that a fence superseded publishes no epoch in any continuation |
| RpcEpochs.ClosedPublishesNothing | internal/omorpc/client.go:1001-1019 | After Close no epoch is ever published |
| RpcEpochs.ConnectionIsNegotiated | internal/omorpc/client.go:546-644 | Callers are only given epochs whose handshake completed |
| RpcEpochs.RegistrationPends | internal/omorpc/client.go:805-845 | In every run a registration by the current epoch makes an issued request pending with its command, and any other registration changes nothing |
| RpcEpochs.ResponseSettles | internal/omorpc/client.go:397-417 | A response of the current epoch with the right command takes its request out of the pending map and claims it with that response; any other response changes nothing |
| RpcEpochs.OversizedSettles | internal/omorpc/oversized.go:107-130 | A history response that was too large does the same for a pending history request, and otherwise ends the epoch |
| RpcEpochs.WithdrawalSettles | internal/omorpc/client.go:847-860 | A caller that gives up takes its pending request out, and nothing is owed for it |
| RpcEpochs.SendUsesClaim | internal/omorpc/client.go:397-417 | A send uses a claim up and delivers exactly what was claimed, so a request is sent to once |
| RpcEpochs.DeathSettles | internal/omorpc/client.go:419-439 | Whatever ends the current epoch leaves nothing pending and owes each request that was pending one disconnection |
| RpcEpochs.DeathsAndFences | internal/omorpc/client.go:419-513 | Only the named current epoch dies; a fence ends whatever epoch is current and supersedes the flight |
| RpcEpochs.DialActs | internal/omorpc/client.go:211-236 | The first dial publishes a fresh epoch and opens the client after its handshake; a failure closes it and leaves no epoch of the dial current |
| RpcEpochs.FlightActs | internal/omorpc/client.go:546-644 | When nothing is current and no flight is under way one starts, dialing, and while it is the current one its transport is published as a fresh epoch |
| RpcEpochs.HandshakeSucceeds | internal/omorpc/client.go:603-644 | A handshake that succeeds while its epoch is current returns that epoch to the callers of the flight |
| RpcEpochs.HandshakeFails | internal/omorpc/client.go:603-644 | One that fails retires its epoch and the flight dials again |
| RpcEpochs.FlightFinishes | internal/omorpc/client.go:592-601 | A finished flight is no longer the current one and without an epoch has failed; a newer one is left alone |
| RpcEpochs.CloseActs | internal/omorpc/client.go:1001-1019 | Close marks the client closed and settles nothing by itself; the epoch it found current is invalidated in the section that follows |
| RpcEpochs.RunKeeps | internal/omorpc/client.go:283-343 | Every interleaving of calls, responses, disconnections, fences, flights and Close keeps the invariant of calls and connection |
| RpcEpochs.Client.IssueRequestId | internal/omorpc/client.go:805-806 | Request ids are fresh and increasing |
| RpcEpochs.Client.RegisterCall | internal/omorpc/client.go:805-845 | A correlation is registered only while the expected epoch is current |
| RpcEpochs.Client.SettleResponse | internal/omorpc/client.go:397-417 | A response owns its request if and only if its epoch is current and the command matches; then the request leaves the pending map and is claimed with that response, and otherwise nothing changes |
| RpcEpochs.Client.SettleOversizedHistory | internal/omorpc/oversized.go:107-130 | An oversized record settles only its own pending history request, and otherwise ends the epoch |
| RpcEpochs.Client.InvalidateEpoch | internal/omorpc/client.go:419-439 | Ending the current epoch owes every pending request one disconnection; another epoch is left alone |
| RpcEpochs.Client.FenceConnectionGeneration | internal/omorpc/client.go:482-513 | A fence retires the current epoch and supersedes the flight |
| RpcEpochs.Client.RemovePending | internal/omorpc/client.go:847-860 | Only the side that removes a correlation completes it |
| RpcEpochs.Client.EstablishFor | internal/omorpc/client.go:283-308 | A dialed transport becomes an epoch only if its flight is still the current one |
| RpcEpochs.Client.StartReconnect | internal/omorpc/client.go:546-590 | One flight at a time, only when nothing is current, and none when the client is configured not to reconnect |
| RpcEpochs.Client.PublishNegotiated | internal/omorpc/client.go:603-644 | An epoch that died during its handshake is not given to callers |
| RpcEpochs.Client.FinishReconnect | internal/omorpc/client.go:592-601 | A finished flight is cleared unless a newer one replaced it |
| RpcEpochs.Client.CloseClient | internal/omorpc/client.go:1001-1019 | Close ends epoch and flight and is final |
| Broadcast.SubscriberSeesEveryFrame | internal/session/broadcast.go:551-664 | In every run, what a client received over its subscription and those it took over, followed by what is on its way, is every due non-preview frame since it attached, once and in order |
| Broadcast.ReattachContinuesOrIsRefused | internal/session/broadcast.go:551-634 | A reattachment is refused if and only if the owned transfer was lost or the registered one is not final or has overflowed, and otherwise continues the transferred history exactly; a transfer never holds more than 256 frames |
| OverflowHandover.OverflowIsHandedOver | internal/session/broadcast.go:551-789 | From a full queue to the next subscriber: after a keyed subscription has overflowed, in every continuation without a release, retirement, attach or further overflow for its key, an attach with the same capability is refused exactly while the transfer is not final or has overflowed (or the owned one was lost), and otherwise what the old client received followed by the new queue is every due frame since the old one started |
| OverflowHandover.OverflowRegisters | internal/session/broadcast.go:762-780 | A subscription whose queue is full when a frame it must get is published is no subscription any more, leaves with all it held, and has a transfer registered for its key that starts with the frame |
| OverflowHandover.OverflowCompletes | internal/session/broadcast.go:697-729 | The shortest way: once the pump has exited and the transfer is completed, an attach is accepted and its queue is the snapshot, then all that was not delivered, then the frame that did not fit |
| OverflowHandover.PublishActs | internal/session/broadcast.go:741-789 | A publication is queued for every subscription that wants it and has room, a full queue sheds a preview, and any other frame ends the subscription |
| OverflowHandover.PublishFeedsTransfers | internal/session/broadcast.go:752-757 | It is appended to every registered transfer, previews aside, until 256 places are used or reserved |
| OverflowHandover.TakeActs | internal/session/broadcast.go:136-192 | The pump takes the oldest queued frame while it holds none and has not failed, and touches nothing else |
| OverflowHandover.DeliverActs | internal/session/broadcast.go:194-209 | A delivered frame is logged, a failed one is kept and ends the pump |
| OverflowHandover.StopActs | internal/session/broadcast.go:391-409 | A leaving pump that holds no frame exits |
| OverflowHandover.FinalizeActs | internal/session/broadcast.go:697-722 | Once its pump has exited a registered transfer becomes final, with what failed and what was queued in front of what was published since |
| OverflowHandover.RemovalsAct | internal/session/broadcast.go:675-814 | Retiring, releasing and retiring all take away what they name and nothing else |
| OverflowHandover.FreshAttachActs | internal/session/broadcast.go:551-634 | Without a registered transfer an attach queues its snapshot, previews cut at the capacity, and fails exactly when another frame does not fit |
| OverflowHandover.TakeoverActs | internal/session/broadcast.go:580-634 | With one, it is refused exactly while the transfer is not final or has overflowed or the owned one was lost; otherwise the new queue is the snapshot without repeated notices, then the transfer |
| OverflowHandover.EnqueueAllExact | internal/session/broadcast.go:597-612 | Initial frames fit if and only if each that is wanted and no preview has room behind all wanted ones before it, and the queue is then the wanted ones, cut at the capacity |
| OverflowHandover.FilterPicks | internal/session/broadcast.go:636-647 | The filter keeps exactly the frames that are not entry_appended, in order |
| OverflowHandover.NoticePicks | internal/session/broadcast.go:649-664 | The snapshot keeps exactly the frames whose notice the transfer does not repeat, in order |
| OverflowHandover.DuePicks | internal/session/broadcast.go:411-469 | The due frames are, in order, exactly those that are no preview and that the capability admits |
| OverflowHandover.CommittedPicks | internal/session/broadcast.go:411-469 | The committed frames of a queue are, in order, exactly the published ones that are no preview |
| Broadcast.FinalizeNeverOverflows | internal/session/broadcast.go:117-132 | Finalizing a transfer never newly overflows it |
| Broadcast.EnqueueKeeps | internal/session/broadcast.go:411-449 | Queueing a frame, or shedding a preview, keeps the stream gap free |
| Broadcast.OverflowKeeps | internal/session/broadcast.go:359-372 | A full queue turns the subscription into a transfer that begins with the frame that did not fit |
| Broadcast.FinalizeKeeps | internal/session/broadcast.go:117-132 | Undelivered frames before the suffix fit the reservation and keep the stream gap free |
| Broadcast.AttachTransfer | internal/session/broadcast.go:551-634 | Taking over a final transfer never overflows the new queue and continues its history |
| Broadcast.RunKeeps | internal/session/broadcast.go:697-789 | Publish, pump, stop, finalize and attach in any order keep every subscription and transfer gap free |
| SubscriberQueues.OverflowTransfer.AppendFrame | internal/session/broadcast.go:98-115 | A wanted frame goes behind the final frames or the suffix while fewer than 256 places are used or reserved, and otherwise marks the transfer overflowed |
| SubscriberQueues.OverflowTransfer.FinalizeWith | internal/session/broadcast.go:117-132 | The undelivered prefix is put before the suffix once, or the transfer overflows when both are more than 256 |
| SubscriberQueues.Subscription.EnqueueFrame | internal/session/broadcast.go:411-466 | Never blocks: refuses when stopped, filters, retains behind the replay gate (a message with its sequence, any other frame with zero) or queues, sheds a preview at capacity and otherwise reports the overflow |
| SubscriberQueues.Subscription.EnqueueInitial | internal/session/broadcast.go:597-612 | The initial frames are queued in order or the attach fails |
| SubscriberQueues.Subscription.DrainOverflowQueue | internal/session/broadcast.go:374-389 | The frame in flight and the queue, in order, and an empty queue afterwards |
| SubscriberQueues.FilterEntryAppended | internal/session/broadcast.go:636-647 | Keeps exactly the frames a client without the capability should see |
| SubscriberQueues.MergeOverflowTransfer | internal/session/broadcast.go:649-664 | The snapshot without notices that the transfer repeats, then the transfer |
| ReplayGate.DrainsInOrder | internal/session/broadcast.go:225-274 | Retained live frames are settled in publication order, and all of them by the end of the replay |
| ReplayGate.NothingBeforeTerminal | internal/session/broadcast.go:211-274 | A replay that begins with no older terminal item queued, being delivered or being drained settles no retained frame and keeps its gate shut, unless the subscription stops, until a terminal item admitted in it is delivered |
| ReplayGate.RacingBeginDrainsEarly | internal/session/broadcast.go:211-274 | A concrete run: an earlier replay queued a second terminal after its deadline, and a replay that begins while that terminal is being drained has its frame settled too early |
| ReplayGate.EarlyExactly | internal/session/broadcast.go:211-274 | A replay that begins can have a frame settled, or its gate reopened, before its own terminal item if and only if an older terminal item is queued, being delivered or being drained at that moment |
| ReplayGate.QueuedTerminalDrainsEarly | internal/session/broadcast.go:471-536 | A concrete run: the same while that second terminal is still queued |
| ReplayGate.SuppressionIsInjective | internal/session/broadcast.go:276-297 | Suppressed messages map injectively to entries on pages delivered while the replay is open, also those an earlier replay queued, with the same payload and a watermark not earlier than the frame |
| ReplayActions.DeliveryNotes | internal/session/broadcast.go:319-334 | A delivered page behind the shut gate notes every non-empty id it carries and no other, as its own replay's if it was admitted in it; a terminal or a barrier starts the drain |
| ReplayActions.VerdictExactly | internal/session/broadcast.go:225-297 | In every run the drain takes the oldest retained frame, and delivers it if and only if no recorded append of its payload with a watermark at or after it names an id on a delivered page of this replay that no earlier verdict used; otherwise the first such append is named |
| ReplayActions.SettleActs | internal/session/broadcast.go:225-274 | A dropped message and a delivered frame leave the retained ones and are settled with that outcome; a failed delivery ends the subscription |
| ReplayActions.BeginActs | internal/session/broadcast.go:211-223 | A replay opens only on a gate that is not shut, with nothing noted, used or settled |
| ReplayActions.RetainActs | internal/session/broadcast.go:411-466 | A published frame is retained behind a shut gate and queued behind an open one, up to the capacity; a preview is shed, and any other frame that does not fit ends the subscription |
| ReplayActions.AdmitActs | internal/session/broadcast.go:471-524 | A page or barrier is queued behind what is there, if there is room |
| ReplayActions.TakeActs | internal/session/broadcast.go:136-192 | An idle pump takes the head of the queue |
| ReplayActions.DeliveryFails | internal/session/broadcast.go:194-209 | A delivery that fails ends pump and subscription; a barrier delivers nothing and cannot fail |
| ReplayActions.DrainEnds | internal/session/broadcast.go:225-274 | The gate opens exactly when the drain finds nothing retained |
| ReplayActions.StopActs | internal/session/broadcast.go:391-409 | Stopping opens the gate and forgets what it retained |
| ReplayPages.OwnPagesExactly | internal/session/broadcast.go:276-334 | A replay that begins can drop a message because of an entry that none of its own pages carried if and only if, at that moment, the pump will deliver a page with entry ids before any item that ends a replay |
| ReplayPages.SuppressedByOwn | internal/session/broadcast.go:276-334 | With no such page coming, every suppressing entry is on a page that was admitted in the replay, in every continuation |
| ReplayPages.LatePageSuppresses | internal/session/broadcast.go:276-334 | A concrete run: no terminal is outstanding when the next replay begins, and its message is dropped because of a page that only the earlier replay queued |
| ReplayPages.RunMine | internal/session/broadcast.go:156-169 | Over every run, a replay that began with no page coming counts its own pages only |
| ReplayGate.VerdictJustified | internal/session/broadcast.go:276-297 | A suppression names a recorded append of the same payload that is not older than the frame |
| ReplayGate.OwnersExact | internal/session/dispatch.go:736-754 | The owners of an occurrence are exactly the recorded appends with a watermark at or after it |
| ReplayGate.RememberKeeps | internal/session/dispatch.go:685-734 | The ledger keeps at most 64 payloads in first-seen order and at most 8 distinct appends for each |
| ReplayGate.RememberExact | internal/session/dispatch.go:685-734 | An append is recorded once, behind the earlier ones of its payload; the oldest append goes beyond 8, and the oldest payload beyond 64 |
| ReplayGate.SessionLedger.RememberRecentMessageEntry | internal/session/dispatch.go:685-734 | Updates map and FIFO as the specification does |
| ReplayGate.SessionLedger.RecentMessageEntryIds | internal/session/dispatch.go:736-754 | Returns exactly the owners, in append order |
| DagCounts.CountsAreExact | internal/session/dag_count_authority.go:90-183 | For complete inventories with known ordered clocks, delivered in any order and any number of times, the published counts are those of the newest inventory and all runs, or are withheld in exactly the stated cases |
| DagCounts.StaleExactly | internal/session/dag_count_authority.go:90-183 | A delivery is recognised as stale if and only if some delivered run is newer than its row |
| DagCounts.CompareDelivery | internal/session/dag_count_authority.go:90-183 | The newest clock of a delivery orders it against everything delivered before |
| DagCounts.InvAlways | internal/session/dag_count_authority.go:90-183 | After any deliveries the recorded runs are the delivered ones, each with its latest row |
| DagHistory.MixedExact | internal/session/dag_count_authority.go:90-183 | Over every history of complete and partial deliveries, with and without clocks, the recorded runs are those delivered with their latest rows, the observable ones and the doubt about membership are what the deliveries say, and the published counts are the nonterminal observable runs and all runs |
| DagHistory.PartialObserves | internal/session/dag_count_authority.go:117-146 | A partial delivery makes a run observable if and only if some row of it is of a run never recorded or newer than every clock before, and no row beside it leaves doubt; it takes no run away |
| DagHistory.CountsSinceAccepted | internal/session/dag_count_authority.go:117-183 | After the last accepted inventory a run is observable if and only if the inventory lists it or a partial delivery observed it since; the running count is that of the nonterminal ones, withheld exactly when a delivery since left doubt |
| DagHistory.NoCountsBeforeAcceptance | internal/session/dag_count_authority.go:147-183 | Before an inventory is accepted no counts are published |
| DagHistory.PartialsExact | internal/session/dag_count_authority.go:68-183 | For partial deliveries alone that do not repeat an undecided run, finishing counts exactly the nonterminal runs delivered and all runs delivered |
| DagHistory.RepeatWithholds | internal/session/dag_count_authority.go:117-146 | The first delivery that does repeat one withholds the counts, unless a row of it is stale |
| DagHistory.Acceptance | internal/session/dag_count_authority.go:147-165 | The membership test accepts exactly an inventory without stale or undecided rows that is the newest, or repeats the accepted members at the newest clock, or completes all recorded runs first |
| DagHistory.PresentExact | internal/session/dag_count_authority.go:100-174 | A run is present from its latest row until a complete inventory omits it |
| DagHistory.WorkCountExact | internal/session/dag_count_authority.go:68-88 | The work count is the number of units of running work in the latest rows of the present runs |
| CountCaches.DagSnapshotCache.MergeCountAuthority | internal/session/dag_count_authority.go:90-183 | The in-place merge, complete or partial, computes exactly the merge that DagHistory.MixedExact is about |
| CountCaches.DagSnapshotCache.FinishCountAuthority | internal/session/dag_count_authority.go:68-88 | The derived counters are the cardinalities of the recorded sets |
| CountCaches.DagSnapshotCache.PublishRunCounts | internal/session/exact_counts.go:154-164 | Run counts are published exactly while authority and membership are known |
| CountCaches.Tally | internal/session/dag_count_authority.go:68-88 | Counts over the runs do not depend on the order of visiting them |
| ExactCounts.NewestRows | internal/session/exact_counts.go:41-73 | From any table, rows with known distinct clocks leave for each id its newest row, or the entry it had if no row is newer |
| ExactCounts.ReportsCommute | internal/session/exact_counts.go:41-73 | From any table, partial reports of the same rows give the same table, however the rows are ordered, repeated and divided into reports |
| TaskHistory.TasksExact | internal/session/exact_counts.go:41-73 | Over every history of task reports, complete or not, with and without clocks and with undecodable rows, the table holds the tasks reported with their latest rows, present exactly until a whole report omits them unfinished, and the totals count them |
| TaskHistory.PresenceExact | internal/session/exact_counts.go:41-73 | A task is present from its latest row until a complete, fully decodable report omits it in a status that is not final |
| TaskHistory.LatestClock | internal/session/exact_counts.go:41-60 | The recorded row of a task has the latest clock reported for it, if any report of it had one |
| ExactCounts.TaskSnapshotCache.MergeCountAuthority | internal/session/exact_counts.go:41-73 | The in-place merge computes the specified table; the counters are the present tasks and the running ones among them, and after a whole report every unlisted present task is in one of the eight final statuses |
| ExactCounts.ExactAgentCounts | internal/session/exact_counts.go:75-111 | Totals are the cardinality of the union of present tasks and DAG work, running at most total, for every iteration order |
| ExactCounts.PublishLiveCounts | internal/session/live_summary.go:83-93 | Live DAG totals are the true sums over present and terminal runs cut at 9007199254740991, done never exceeds total, and the incomplete flag is raised in exactly the stated cases |
| ExactCounts.PublishTaskDone | internal/session/live_summary.go:70-79 | The finished total counts the present tasks in a terminal status other than the alias, in any order |
| ExactCounts.PublishLiveRunning | internal/session/live_summary.go:94-122 | When both rosters are complete, running DAG work that is also a present task is subtracted once each, never below zero |
| ColdLines.BufferedReader.ReadSlice | internal/coldhistory/coldhistory.go:547-547 | The buffered read stops at a line feed, a full buffer, or the end |
| ColdLines.BufferedReader.ReadLine | internal/coldhistory/coldhistory.go:543-563 | The line, its terminator, its length and the length error depend on the data and the limit, not on the buffer size |
| ColdBranch.CycleExactly | internal/coldhistory/coldhistory.go:475-492 | The length test reports a cycle if and only if the unbounded parent chain repeats an entry |
| ColdBranch.BrokenExactly | internal/coldhistory/coldhistory.go:475-492 | A missing parent is reported if and only if the unbounded chain reaches one |
| ColdBranch.BranchIsChain | internal/coldhistory/coldhistory.go:475-498 | The walk returns a branch if and only if it is the root-to-leaf parent chain of the last entry, of which there is at most one |
| ColdBranch.ChainDistinct | internal/coldhistory/coldhistory.go:475-498 | No entry is on the branch twice |
| ColdIndex.IndexExact | internal/coldhistory/coldhistory.go:412-498 | An index exists if and only if lines fit, the first record is a header, the others are distinct entries within the memory budget (a torn last one aside), and the last entry has a chain, which is then the branch |
| ColdIndex.FailureExact | internal/coldhistory/coldhistory.go:475-492 | On a file that parses, the cycle and broken-branch errors occur exactly when the chain repeats or reaches a missing parent |
| IndexErrors.FirstFault | internal/coldhistory/coldhistory.go:397-470 | Behind a clean beginning of the file the first faulty line decides the error, with its own line number and offset: too long, no header, no entry, a taken id, or a cost of 240 bytes and both ids over what is left of the budget |
| IndexErrors.EmptyExact | internal/coldhistory/coldhistory.go:397-470 | A file is reported empty if and only if its lines fit and none is a record |
| ColdIndex.BuildIndex | internal/coldhistory/coldhistory.go:412-498 | The index pass over a reader of any buffer size returns the chunk-free index or error |
| ColdIndex.WalkBranch | internal/coldhistory/coldhistory.go:475-498 | The parent walk by map lookups and the reversal return the specified branch or error |
| ColdIndex.ReverseBranch | internal/coldhistory/coldhistory.go:493-495 | The in-place swap reverses the branch |
| ColdIndex.ReadRecord | internal/coldhistory/coldhistory.go:711-732 | The chunked second read returns the trimmed record, or an error when the file is too short or no longer JSON |
| ColdIndex.BranchReadsBack | internal/coldhistory/coldhistory.go:711-732 | Every branch entry of an unchanged file reads back as the entry that was indexed and fits a line |
| ColdIndex.BranchDistinct | internal/coldhistory/coldhistory.go:450-452 | The ids of an indexed branch are distinct |
| IndexCache.CacheIsTransparent | internal/coldhistory/coldhistory.go:163-214 | After any history of uninterrupted opens with any options, a read through the cache equals an uncached read |
| IndexCache.OverlappingOpens | internal/coldhistory/coldhistory.go:190-208 | With lookups and stores of overlapping opens interleaved in any way, every open is given what an uncached read gives; paths stay distinct, entries true, and the capacity holds |
| IndexCache.UninterruptedOpen | internal/coldhistory/coldhistory.go:190-208 | A lookup directly followed by its store is the single step that the recency results are about |
| IndexCache.FoundExact | internal/coldhistory/indexcache.go:71-86 | A lookup finds exactly the entry of the path with the same identity and limits and brings it to the front; otherwise no entry of the path stays |
| IndexCache.ReopenedIsFound | internal/coldhistory/indexcache.go:71-102 | A file that was indexed is served from the cache when it is opened again unchanged |
| IndexCache.CacheIsPrefix | internal/coldhistory/indexcache.go:71-107 | At every moment the cache is an initial part of the most-recent-first list of opened files |
| IndexCache.CacheIsFull | internal/coldhistory/indexcache.go:88-102 | As long as no open fails it is exactly that list cut to the capacity |
| IndexCache.EvictsLeastRecent | internal/coldhistory/indexcache.go:88-102 | What was evicted was opened before everything that is still cached |
| IndexCache.RunGood | internal/coldhistory/indexcache.go:71-107 | Paths stay distinct, entries stay what a fresh pass produces, and the capacity holds |
| IndexCache.Cache.Get | internal/coldhistory/indexcache.go:71-86 | Hits exactly on an entry of the path with the same identity and limits, which moves to the front and is counted; drops a misfit |
| IndexCache.Cache.Put | internal/coldhistory/indexcache.go:88-102 | Replaces in place or evicts from the back; list and map stay in bijection within the capacity |
| IndexCache.Cache.Evict | internal/coldhistory/indexcache.go:104-107 | Removes one element from list and map |
| IndexCache.Cache.ReadThrough | internal/coldhistory/coldhistory.go:163-214 | The shared open path serves what an uncached pass would, and leaves the cache in the specified state |
| ColdPaging.Normalize | internal/coldhistory/coldhistory.go:322-360 | Options are refused exactly when one is negative or a line may exceed a page; zero selects the stated default and anything else is kept |
| ColdPaging.EmitForward | internal/coldhistory/coldhistory.go:613-658 | Forward pages continue each other over the range, hold the right entries, are within bounds, full except the last, and only the last may be final; it fails exactly when a record cannot be read |
| ColdPaging.EmitHeadRange | internal/coldhistory/coldhistory.go:667-709 | The same backwards: pages arrive newest first, each in branch order |
| ColdPaging.EmitRange | internal/coldhistory/coldhistory.go:613-658 | Also for the empty range, which gives an empty final page or nothing |
| ColdPaging.EmitWarmRanges | internal/coldhistory/coldhistory.go:602-611 | Everything before a position arrives in Head pages newest first, in ranges of exactly the warm chunk each paged by itself, and exactly the last page is final |
| ColdPaging.TailStart | internal/coldhistory/coldhistory.go:569-589 | The tail is the longest suffix within its count and byte bounds, never less than the newest entry; it fails only at an unreadable record within those bounds |
| ColdPaging.EmitTailFirst | internal/coldhistory/coldhistory.go:569-597 | First the tail forward, then the warm ranges: a consumer without entries ends with the whole branch, or with the exact tail when warming is skipped; exactly the last page is final, and nothing unreadable is passed over |
| ColdPaging.TailFirst | internal/coldhistory/coldhistory.go:262-307 | A consumer that holds an accepted cursor's range, or nothing, ends with the whole branch, or with its exact suffix when warming is skipped, paged as specified; a resumed read succeeds exactly when what it needs is readable |
| ColdPaging.FindRange | internal/coldhistory/coldhistory.go:273-281 | Finds both ends of a cursor's range in one pass |
| ColdPaging.RangeIsNamed | internal/coldhistory/coldhistory.go:272-283 | A cursor is accepted if and only if it names a range of this session's branch, from the root if it claims completeness |
| ColdPaging.EmitBranch | internal/coldhistory/coldhistory.go:565-567 | A forward stream rebuilds the whole branch and has no Head page |
| ColdPaging.IndexedPages | internal/coldhistory/coldhistory.go:73-77 | For an indexed file under normalized options nothing is unreadable and every page respects both the entry and the byte bound |
| ColdPaging.StreamBefore | internal/coldhistory/before.go:34-98 | Returns the newest readable entries before the cursor that fit the bounds, at least one if any, or exactly the stated errors, an unreadable record only within those bounds; complete if and only if it starts at the root |
| ColdPaging.BackwardRebuilds | internal/coldhistory/before.go:66-98 | Repeated requests before the oldest held entry go strictly back and rebuild the branch without gap or overlap |
| ColdPaging.TailAndBackwards | internal/coldhistory/before.go:66-98 | A tail without warming followed by such requests until one is complete gives the whole branch |
| FileOrder.AddExact | internal/coldhistory/file_order.go:75-93 | An entry can be added if and only if the longer order still has distinct ids, earlier parents, and fits the budget |
| FileOrder.Inspection.Add | internal/coldhistory/file_order.go:75-93 | Adds the entry or reports the specified error and changes nothing |
| FileOrder.Inspection.AddTail | internal/coldhistory/file_order.go:97-117 | Adds a file-order suffix and checks the leaf |
| FileOrder.TailExtends | internal/coldhistory/file_order.go:97-117 | The order with a tail keeps what was there and has the tail's entries and flags behind it |
| FileOrder.Inspection.Checkpoint | internal/coldhistory/file_order.go:121-126 | Only the file-order end is a boundary |
| FileOrder.Inspection.MatchAfter | internal/coldhistory/file_order.go:132-163 | True if and only if a retained entry behind the cursor's entry matches; not retained if and only if no entry has the cursor's id; false without error if and only if nothing matches, the leaf is the end, and the cursor is the start or on the active branch |
| FileOrder.Inspection.Climbs | internal/coldhistory/file_order.go:152-161 | The ancestry walk ends, and finds the cursor exactly when it is on the active branch |
| FileOrder.MatchStays | internal/coldhistory/file_order.go:132-163 | A match after the cursor stays one whatever is appended |
| FileOrder.LaterMatchFound | internal/coldhistory/file_order.go:132-163 | A match appended after a retained cursor is found, whatever the leaf |
| FileOrder.ClimbIsAncestry | internal/coldhistory/file_order.go:79-83 | In file order the bounded walk never meets its bound and returns the ancestry |
| FileOrder.InspectFileOrder | internal/coldhistory/file_order.go:28-73 | The strict pass over a reader of any buffer size returns the specified order or error |
| FileOrder.StrictIsIndex | internal/coldhistory/file_order.go:28-93 | Where the strict pass succeeds the index pass finds the same entries |
| FileOrderExact.InspectExact | internal/coldhistory/file_order.go:28-93 | The strict pass succeeds if and only if the file consists of whole lines, is indexable, and every entry has its parent earlier; its entries are the file's and its flags are what the matcher says of each |
| FileOrderExact.StrictFault | internal/coldhistory/file_order.go:28-93 | Behind a beginning that passes, the first faulty line decides the error: too long, torn, no header, no entry, a taken id, a missing parent, over the budget |
| FileOrderExact.TailFault | internal/coldhistory/file_order.go:97-117 | The first entry of a suffix that cannot be added decides the error |
| FileOrderExact.AddErrorExact | internal/coldhistory/file_order.go:75-93 | The reasons to refuse an entry, in their order, in terms of the ids and the budget |
| FileOrderExact.ResolveExact | internal/coldhistory/selected_branch.go:39-75 | The checks of a selection in their order: session, required entry, resolution, size of the suffix, its entries, the selected leaf |
| FileOrderExact.EntryReadsBack | internal/coldhistory/selected_branch.go:84-106 | Every entry of a file, on any branch, reads back as itself |
| FileOrderExact.SelectedRecords | internal/coldhistory/selected_branch.go:39-111 | Every record that a selection can emit is the entry it stands for, on disk or in the suffix |
| FileOrderExact.SelectionReadable | internal/coldhistory/selected_branch.go:84-106 | On an unchanged file no record of a resolved selection is unreadable |
| FileOrder.SelectedIsActive | internal/coldhistory/selected_branch.go:39-111 | The index of an inspected file is the ancestry of its last entry |
| FileOrder.ReadSelected | internal/coldhistory/selected_branch.go:39-111 | The result is the first refusing check of the specified sequence, or the pages of the records along the lineage of the selected leaf, or the error of a record there that cannot be read |
| FileOrder.SelectionIsBranch | internal/coldhistory/selected_branch.go:39-111 | Without a tail the emitted pages rebuild exactly the active branch of the index |
| FileOrder.SelectLine | internal/coldhistory/selected_branch.go:75-83 | The walk by map lookups returns the lineage of the leaf |
| FileOrder.EmitLineage | internal/coldhistory/selected_branch.go:84-106 | One page for each record root first, read from the file or taken from the suffix, the last one final, or an empty final page |
| FileOrder.TailFits | internal/coldhistory/selected_branch.go:63-69 | The resident tail is within the line bound for each entry and the page bound together |
| DagWaves.CleanExact | internal/session/activity_history.go:310-344 | When the fallback does not fire, no node reaches a cycle or a missing dependency, and a node is in a wave if and only if its longest dependency path has that length |
| DagWaves.FallbackExact | internal/session/activity_history.go:331-335 | When it fires, the last wave is exactly the nodes that reach a cycle or a missing dependency, and any other node is in an earlier wave if and only if its longest path has that length |
| DagWaves.LongestUnique | internal/session/activity_history.go:310-344 | The longest dependency path of a node has one length |
| DagWaves.LayoutExact | internal/session/activity_history.go:310-344 | The fallback fires if and only if some node reaches a cycle or a missing dependency |
| DagWaves.LayoutPartitions | internal/session/activity_history.go:310-344 | Every node is in exactly one wave, once |
| DagWaves.ComputeWaves | internal/session/activity_history.go:310-344 | The peeling loop terminates with such a layout for every list of nodes, in non-empty waves numbered from 0 whose ids ascend |
| DagWaves.CollectReady | internal/session/activity_history.go:318-330 | The ready nodes are those whose dependencies are all seen, whatever the map order |
| DagWaves.GraphExact | internal/session/activity_history.go:310-317 | The graph has exactly the ids of the nodes, and of nodes with one id the dependencies of the last |
| Strings.BeforeExact | internal/session/activity_history.go:326-336 | The order of ids is lexicographic: the smaller character at the first difference, or the end, comes first |
| DagWaves.StoredWaves | internal/session/dag_complete.go:116-149 | A partition for every hint: the stored waves in index order if the hint is usable, otherwise the computed layout |
| DagWaves.AcceptHint | internal/session/dag_complete.go:117-146 | A hint is accepted if and only if its waves are non-empty with distinct safe indices and cover every node exactly once, and is then taken as it is |
| SendQueue.NothingLostOrDuplicated | internal/sendqueue/store.go:88-250 | After any run with faults and restarts, completed then dispatching then queued items are the items the callers appended, in order, field by field: text, request id and images as given, id and time filled in if missing, the image flag recomputed |
| SendQueue.IdentityIsStable | internal/sendqueue/store.go:165-250 | Along any run every item keeps its place and body, and its delivery id once it has one |
| SendQueue.RevisionCounts | internal/sendqueue/store.go:325-336 | The revision is the number of changes that took effect, and no failure raises it |
| SendQueue.DiskIsMemoryOrLost | internal/sendqueue/store.go:325-402 | Disk is what memory would be had the outstanding operation not been rolled back, or memory when none is outstanding; outstanding is the last operation that changed the file, if it failed behind its rename and no restart followed |
| SendQueue.AgreeExactly | internal/sendqueue/store.go:325-402 | Memory and disk agree if and only if the history has no outstanding operation |
| SendQueue.LostExactly | internal/sendqueue/store.go:325-402 | The operation by which disk is ahead is exactly the outstanding one of the history |
| SendQueue.MemoryCanTrailDisk | internal/sendqueue/store.go:382-400 | A concrete append whose directory sync fails is on disk and not in memory |
| SendQueue.StepKeeps | internal/sendqueue/store.go:325-402 | Every operation, fault and restart keeps conservation and the disk relation |
| SendQueue.Store.Persist | internal/sendqueue/store.go:338-402 | A fault up to the rename leaves the file as it was, a fault behind it leaves the new state; no temporary file stays |
| SendQueue.Store.CommitLocked | internal/sendqueue/store.go:325-336 | Installs and persists, or puts the prior queue back |
| SendQueue.Store.AppendItem | internal/sendqueue/store.go:88-107 | On success the chat has one item more, last, with the caller's text, request id, images, delivery, state and cursor, the id and time filled in if missing, and the revision one higher; on failure nothing changes |
| SendQueue.Store.BeginDispatch | internal/sendqueue/store.go:168-192 | Reserves the head with its or the fresh delivery id, or returns the dispatch left behind unchanged |
| SendQueue.Store.MarkDispatchAttempted | internal/sendqueue/store.go:196-213 | Records the history boundary of the named dispatch only |
| SendQueue.Store.CompleteDispatch | internal/sendqueue/store.go:216-230 | Removes the named dispatch only |
| SendQueue.Store.RestoreDispatch | internal/sendqueue/store.go:234-250 | Puts the named dispatch back before every queued item |
| AdoptCopy.Adopt | internal/adoptcopy/adoptcopy.go:130-284 | On success the destination holds bytes the source had when hashed and again at the end, both validations saw the expected session, and nothing else changed; on an error with a clean cleanup nothing changed; on any error only the adoption's own names differ and prior content is not lost; a late write survives exactly when the rename failed; and where nothing fails and nobody interferes a valid source is adopted, or refused as a collision exactly when the copy there differs |
| AdoptCopy.Prepare | internal/adoptcopy/adoptcopy.go:130-180 | Two validations against limit and expected session, the hashed content, and whether the destination is there |
| AdoptCopy.PublishCopy | internal/adoptcopy/adoptcopy.go:201-283 | Between staging and cleanup the directory always differs from its base only by what cleanup can undo |
| AdoptCopy.Cleanup | internal/adoptcopy/adoptcopy.go:470-494 | A clean cleanup restores every name; any cleanup touches only the adoption's own names and keeps prior content |
| AdoptCopy.VerifyExisting | internal/adoptcopy/adoptcopy.go:442-453 | An existing copy is accepted only with the source's content, and nothing is written |
| AdoptCopy.Replace | internal/adoptcopy/adoptcopy.go:223-236 | Publication over an existing copy keeps it under a rollback name; a write directly before the rename is overwritten exactly when the rename succeeds |
| AdoptCopy.LinkOut | internal/adoptcopy/adoptcopy.go:241-251 | Publication by link never replaces a name |
| AdoptCopy.VerifyPublished | internal/adoptcopy/adoptcopy.go:253-280 | A copy counts as published only after it reads back as the source still is |
| AdoptCopy.Directory.CreateUnique | internal/adoptcopy/adoptcopy.go:546-560 | The staging name was free, or nothing was created |
| AdoptCopy.Directory.LinkUnique | internal/adoptcopy/adoptcopy.go:562-566 | The rollback name was free and holds the prior content, or nothing was created |
| LockTable.OneHolder | internal/adoptcopy/adoptcopy.go:613-635 | In every interleaving at most one caller holds a path |
| LockTable.EntryWhileReferred | internal/adoptcopy/adoptcopy.go:613-635 | A path has an entry exactly while a caller refers to it, with the number of such callers as its count |
| LockTable.EnterActs | internal/adoptcopy/adoptcopy.go:613-635 | Entering makes a caller wait at the entry of its path: the shared one with one caller more, or a new one that no other path has |
| LockTable.AcquireActs | internal/adoptcopy/adoptcopy.go:613-635 | A waiting caller acquires its path if and only if no caller holds it |
| LockTable.UnlockActs | internal/adoptcopy/adoptcopy.go:613-635 | A holder that unlocks leaves its path held by nobody |
| LockTable.LeaveActs | internal/adoptcopy/adoptcopy.go:613-635 | A caller that leaves is gone, and the entry goes exactly with the last caller of the path |
| LockTable.TableRunKeeps | internal/adoptcopy/adoptcopy.go:613-635 | Every interleaving of enter, acquire, unlock and leave keeps table and callers consistent |
| Catalog.LessTransitive | internal/session/dag_complete_store.go:246-252 | The comparator is transitive |
| Catalog.LessTotal | internal/session/dag_complete_store.go:246-252 | Two entries compare unless instant and run id are equal |
| Catalog.LessIrreflexive | internal/session/dag_complete_store.go:246-252 | No entry sorts before itself |
| Catalog.UnparsedLastExactly | internal/session/dag_complete_store.go:238-259 | An entry whose clock does not parse sorts after every catalog entry with a clock that parses, up to the run-id tie at the zero instant, if and only if no clock of the catalog is before the zero instant |
| Catalog.UnparsedBeforeYearZero | internal/session/dag_complete_store.go:254-259 | A concrete clock of year 0 that sorts after an entry without a clock |
| Catalog.CursorStandsForEntry | internal/session/dag_complete_store.go:270-275 | The normalized cursor compares like its entry in both directions, and is accepted on resume if and only if the run id is valid |
| Catalog.CursorIsValid | internal/api/chat_dag_runs.go:80-90 | A cursor is accepted on resume if and only if the run id of its entry is valid |
| Catalog.RunIdCharacters | internal/api/chat_dag_runs.go:80-90 | A run id is valid if and only if it is not empty, no dot name, and without slash, backslash and zero character |
| Catalog.SlashCursorRefused | internal/api/chat_dag_runs.go:166-173 | A concrete page whose cursor the endpoint refuses |
| Catalog.SortIsStrict | internal/session/dag_complete_store.go:293-296 | A catalog sorted by the comparator with distinct run ids is strictly sorted |
| Catalog.Search | internal/api/chat_dag_runs.go:158-162 | The binary search finds the first entry after the key |
| Catalog.ListRuns | internal/api/chat_dag_runs.go:121-180 | A request is served if and only if the limit is 1 to 100 and the cursor's run id is no path and its clock parses or is empty; the page has only entries after the cursor, all that are left on the last page and otherwise as many as asked for, and the next cursor is that of its last entry |
| Catalog.WalkReturns | internal/api/chat_dag_runs.go:147-180 | Over catalogs that change between requests, a run that every request finds under one key is returned before the walk ends |
| Catalog.WalkNeverRefused | internal/api/chat_dag_runs.go:135-146 | A walk over valid run ids is never refused |
| Catalog.WalkNeverRepeats | internal/api/chat_dag_runs.go:147-180 | Every later page is strictly older, so no key is returned by two pages |
| Catalog.WalkNewestFirst | internal/api/chat_dag_runs.go:147-180 | Over a whole walk clocks never increase, and runs of one instant come by their ids downwards |
| Catalog.PageNeverRepeats | internal/api/chat_dag_runs.go:163-164 | Within a page entries strictly descend: by clock, and for one instant by run id |

## Left out

- The browser frontend, HTTP handlers other than the catalog slice, configuration, process and platform code, and the showreel: interface and plumbing.
- JSON decoding to values (including that of DAG and task rows to clocks and counts), SHA-256, base64, regular expressions, time parsing and Unicode white space: parameters with only the stated assumptions.
- Cancellation of contexts and errors returned by page callbacks: either ends the call at that point.
- Broadcast.SubscriberSeesEveryFrame: for a subscriber that is not replaying; frames queued behind a replay are not transferred on overflow, and `publishExcept` with an excluded subscription is not modelled.
- DagCounts.CountsAreExact: for nonempty complete inventories whose clocks are all known and ordered; every other history of deliveries is in DagHistory.MixedExact and DagHistory.CountsSinceAccepted.
- IndexCache.CacheIsPrefix: recency and eviction order are stated for uninterrupted opens; for overlapping ones only what is served and that the cache stays sound.
- ReplayGate.EarlyExactly: for a replay that begins, so not for a `beginReplay` on an open gate, and for a subscription that is not stopped then; a stopped one retains no further frame. The same holds for ReplayPages.OwnPagesExactly.
- RpcEpochs.Client: the event stream, epoch-change observers and the transport's writes are not modelled.
- SendQueue: Remove, Move, Clear, Delete, ClaimHead, RestoreHead and Bump would only add easy transitions.
- AdoptCopy: hard links are copies of content, which is the same here because published bytes are never rewritten; other processes write only to the destination name, before the inspection that precedes publication and directly before the rename.
- LockTable: a state machine over the critical sections instead of a class, since its callers interleave.
- `dagSnapshotCache.merge`, snapshot packing, hydration, the session manager and `wsbridge`: bounded presentation state around the modelled core.
- Catalog.RunIdCharacters: a run id is a sequence of characters, so that its bytes are valid UTF-8 is not modelled.
- Time bounds, fairness and liveness of goroutines.
