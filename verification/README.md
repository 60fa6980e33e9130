# A verified model of QuickDrop and its neighbours

This project models the parts of tantu whose correctness spans several functions, and proves what they
promise. `dafny verify dfyconfig.toml` checks everything.

## What is modelled

**The QuickDrop transfer protocol** (`internal/drop`). A sender and a receiver exchange messages over a FIFO
channel that may die at any message (`Channel`). A destination is a file with content and a position, a plain
writer, or the discard sink, and a device may run full in the middle of a write (`Files`). `Sender` is
`SendDrop`: its loop with one chunk of read-ahead, proved against a function that says what is sent and what
progress is reported. `Receiver` holds one iteration of the receive loop as a function and proves when a stream
of messages is accepted; `Reception` says what one whole attempt answers, writes, reserves, publishes and
records; `ReceiveDrops` is the receiver as it runs, over mutable channel, destination, lease, quota and ledger
objects, proved to do exactly that. SHA-256 is a function parameter `h`: nothing is assumed about it, and a
theorem that needs collision freedom says "equal, or here is a collision".

On top of these come the theorems that span both sides: end-to-end safety, rejection of every damaged stream and
completeness from the configuration (`Transfers`), what a success reported to the sender is worth (`Receipts`), the
receive attempt with the Hub's publication hook (`Delivery`), crash and resume with the process dying at any step
(`Resume`), at-most-once publication under any interleaving (`AtMostOnce`), quota conservation (`Quotas`), the
system-wide byte bound (`ByteBound`) and ledger pruning (`Ledger`).

**The event log** (`EventLog`, `EventReplay`): a ring buffer, a logger that assigns ids and broadcasts, and one
subscriber's subscribe, snapshot, replay and drain under every interleaving with concurrent logging, following
the `Last-Event-ID` mechanism in section 9.2 of the HTML Living Standard.

**OAuth coordination** (`OAuthSessions`, `SessionRegistries`): one owner per request key with a replay window,
and cancellation scoped to a peer.

**Staging and publication** (`StagingBudget`, `Publication`): greedy reclamation of retained partials, and
publication that is safe in every state the directory passes through, with any file-system call failing.

**The discovery table** (`Discovery`) and **the argument normaliser** (`Args`).

## How it is built

Objects whose methods update fields are classes; each method is proved against a function or relation on the old
and new state. Where such a function is not explained by a theorem anyway, a lemma says what it means without
naming it, with the program's limits as numbers. Protocols are functions over values, and their invariants are
proved over all runs. Digests appear decoded: an optional byte string stands for a hexadecimal field, `None` when it
is empty or not a digest, so comparing digests without regard to case is equality. Clocks, random bytes,
file-system failures and, outside `Delivery`, what the publication hook does are inputs.

## Where the code differs from its documentation, or a looser statement is false

The model follows the code.

- `internal/drop/resume.go:46-47` says the reader's position is restored. It is not when the head is compared;
  `Resume.PositionRestoredIff` gives the exact condition and a case. Both callers seek afterwards.
- `internal/drop/tombstone.go:63-74` calls any metadata difference a mismatch; the relative path is not compared.
  `AtMostOnce.AnyDifferenceFailsIff` says for which transfers the claim holds, and
  `AtMostOnce.OtherPathIsTakenForDuplicate` shows one for which it does not.
- The receiver alone guarantees the whole file only for a declared size. Without one, a longer old file keeps its
  tail: `Transfers.UndeclaredSizeSafeIff` says exactly when, `Transfers.StaleTailSurvives` shows it. The Hub's hook
  closes the gap: `Delivery.DeliveredFileIsPayload`.
- At-most-once needs attempts under one key not to overlap. `AtMostOnce.PublishesIffUnrecorded` gives the exact
  condition for every interleaving, `AtMostOnce.SerialKeyDeliversOnce` what follows when they do not overlap, and
  `AtMostOnce.OverlappingAttemptsPublishTwice` shows a pair that does.
- A hook that delivers the file and then fails to close it reports a failure and leaves no record, so a retry
  delivers again: `AtMostOnce.FailedHookDeliversTwice`, and `AtMostOnce.DeliversAtMostOnce` has this as its one other
  exception.
- The function that `Register` returns removes whatever is filed under the request id. It can take a newer session:
  `SessionRegistries.UnregisterTakesOwnIff` says exactly when, `SessionRegistries.LateUnregisterTakesNewer` shows it.
- Growing a lease after its release leaks reserved bytes: `Quotas.GrowConservesIff`, `Quotas.GrowAfterReleaseLeaks`.
- Splitting a normalised argument list does not always recover the flags as they were read:
  `Args.SplitRecoversPartitionIff`, `Args.HoistingCanCaptureAPositional`.

## Model

| member | source | states |
|---|---|---|
| Channel.Conn.Receive | internal/drop/receiver.go:252-268 | The next message other than a heartbeat, in order, or nothing once the channel is dead; every heartbeat before it is answered once |
| Channel.NextSkipsHeartbeats | internal/drop/receiver.go:504-523 | Taking a message passes over exactly the heartbeats before it |
| Protocol.MetadataIsValidIff | internal/drop/receiver.go:125-223 | Metadata are admitted exactly if they are of a text or a file, the size is not negative, chunks are at most 2 MiB, the head digest has 32 bytes or is absent, and the key has at most 128 letters, digits, dashes, underscores and dots or is absent |
| Common.TrimSpaceIsTheCore | internal/bridge/session_registry.go:380-381 | Trimming keeps exactly the text from the first to the last character that is not a blank or one of the characters from tab to carriage return |
| Common.FoldIsEqualUpToCase | internal/bridge/session_registry.go:389 | Folded texts are equal exactly if they agree character by character up to the case of ASCII letters |
| Files.Destination.Write | internal/drop/receiver.go:626-629 | Bytes land at the position, a gap reads as zeros, bytes outside the range stay; the count is short exactly when the device is full |
| Files.WriteEffect | internal/drop/receiver.go:626-639 | What one write does to every kind of destination, byte by byte: as much as fits is appended by a plain writer and placed from its position on by a file, zeros fill a gap, all other bytes stay |
| Files.OverlayKeepsOutside | internal/drop/receiver.go:396-399 | A write leaves every byte outside its range alone, which is why a stale tail survives |
| Sender.SendDrop | internal/drop/sender.go:69-358 | For every reader, resume offset, reply and number of sends that succeed: the exact messages sent, progress reported and result |
| Sender.ReceiveAck | internal/drop/sender.go:96-139 | Goes on if and only if the next message is an acknowledgement with this id, accepted, with an offset that is not negative nor beyond a declared size |
| Sender.SeekPayload | internal/drop/sender.go:157-178 | A resume needs an aligned offset, a seekable payload and enough bytes; then the prefix is hashed and the reader stands at the offset |
| Sender.SendChunks | internal/drop/sender.go:180-306 | Read-ahead sends full chunks, then one final chunk with the digest of the whole payload; if the channel dies, exactly a prefix went out and only that was reported |
| Sender.CheckReceipt | internal/drop/sender.go:308-355 | Succeeds if and only if the next message is a receipt with this id, success, a count that fits a declared size, and the digest that was sent |
| Sender.EmitExtends | internal/drop/sender.go:232-306 | What has been sent is never revised: chunks and reports so far stay a prefix of the whole |
| Transfers.SendsItsMetadataFirst | internal/drop/sender.go:76-91 | The first message carries the given metadata with a fresh drop id if there was none and 1 MiB chunks if no size was given; it is sent exactly if they are admitted; after it come only chunks of that transfer |
| Transfers.SendSucceedsIff | internal/drop/sender.go:69-358 | For every reader, reply and channel: success exactly if the metadata are admitted, the acknowledgement accepts them at an offset the payload can serve, every chunk goes out and the receipt has the digest of the payload |
| Transfers.EmitShape | internal/drop/sender.go:180-306 | The stream is full chunks at consecutive indices and one final chunk with the payload digest, and concatenates to the payload |
| Transfers.EmitClimbs | internal/drop/sender.go:43-46 | Progress climbs strictly from the resume offset and ends at the payload length; without bytes nothing is reported |
| Receiver.StartSatisfiesInv | internal/drop/receiver.go:465-502 | Negotiation and the resume checks put the loop at an aligned offset whose prefix is exactly what was hashed |
| Receiver.AbsorbKeepsInv | internal/drop/receiver.go:547-660 | At every loop head, total bytes are index times chunk size, the digest covers exactly them, and a seekable destination starts with them |
| Receiver.ChunkReasons | internal/drop/receiver.go:547-604 | A chunk is refused exactly if its id, index, length, or the total so far does not fit the transfer, and the reason given is one that applies |
| Receiver.FinalReasons | internal/drop/receiver.go:660-700 | The same for the final chunk: size, presence and value of the digest, and the recorded digest |
| Receiver.MetadataReasons | internal/drop/receiver.go:269-334 | The same for metadata: their form, the two limits, the offset and the record under the key |
| Receiver.StartReasons | internal/drop/receiver.go:387-502 | The same for the destination and the offset |
| Receiver.AcceptsIff | internal/drop/receiver.go:504-701 | For everything a channel can deliver: accepted if and only if some prefix is full chunks at consecutive indices and one final chunk whose total, limits, capacity and digest fit |
| Receiver.AcceptablePrefixIsAccepted | internal/drop/receiver.go:504-701 | A stream that meets the documented conditions is accepted, whatever follows it |
| Receiver.AcceptedHasAcceptablePrefix | internal/drop/receiver.go:504-701 | Whatever the loop accepts met the documented conditions |
| Receiver.HeartbeatsDoNotMatter | internal/drop/receiver.go:518-523 | Heartbeats between chunks change neither the verdict nor what is written |
| Receiver.CreditIsAdditive | internal/drop/quota.go:145-170 | Growing a reservation in two steps is refused exactly when growing it by the sum is |
| ReceiveDrops.ReceiveDrop | internal/drop/receiver.go:228-757 | A whole attempt on mutable objects: result, replies, destination, quota and ledger are those of the attempt function in every failure too; `Transfers.Completeness`, `Transfers.AcceptedIsAllowed`, `Receipts.ReceiverAnswers` and the safety theorems say what that function promises |
| ReceiveDrops.AdmitTransfer | internal/drop/receiver.go:289-357 | Metadata, key reuse and quota are checked in order before anything is reserved or written; a refusal changes nothing |
| ReceiveDrops.UseLease | internal/drop/receiver.go:356-385 | A duplicate streams into the discard sink and leaves the caller's destination alone; the lease is released on every path |
| ReceiveDrops.TransferInto | internal/drop/receiver.go:387-453 | Offset, stale tail and size checks come before the acknowledgement, and a duplicate is acknowledged at zero |
| ReceiveDrops.PrepareResume | internal/drop/receiver.go:465-502 | A resume hashes exactly the advertised prefix and leaves the position behind it, or reports why it cannot |
| ReceiveDrops.ReceiveChunks | internal/drop/receiver.go:504-701 | The loop on mutable objects ends with exactly the verdict, totals, file and lease of the step-by-step semantics |
| ReceiveDrops.FinishTransfer | internal/drop/receiver.go:703-756 | A duplicate is neither published nor recorded, a refused publication is not recorded and reported as a failure, and a record stays even if the acknowledgement cannot be sent |
| Transfers.AcceptedLoop | internal/drop/receiver.go:660-700 | An accepted stream ended on a final chunk whose digest is that of the bytes the destination now starts with |
| Transfers.PublishedPrefix | internal/drop/receiver.go:387-728 | A published destination starts with bytes that hash like the payload and is no longer than these and what it held before |
| Transfers.EndToEndSafety | internal/drop/receiver.go:387-728 | With a declared size, whatever the channel did, whatever was resumed, a published destination is the payload in full, or a digest collision is shown |
| Transfers.UndeclaredSizeSafeIff | internal/drop/receiver.go:409-434 | Without a declared size, the whole destination is the payload if and only if it was not longer before, or a digest collision is shown |
| Transfers.StaleTailSurvives | internal/drop/receiver.go:409-434 | A concrete transfer of unknown size that publishes a file with a stale tail |
| Transfers.OnlyTheWholeStream | internal/drop/receiver.go:563-582 | Out of one sender's chunks, only the complete stream in order is acceptable |
| Transfers.DamagedStreamsFail | internal/drop/receiver.go:504-701 | If only this sender's chunks arrive, any loss, repetition or reordering before the end is never accepted |
| Transfers.ReceiverCompletes | internal/drop/receiver.go:447-756 | No receiver check rejects the sender's stream of a compatible transfer; it publishes unless it is a duplicate |
| Transfers.SenderCompletes | internal/drop/sender.go:91-357 | Given the acknowledgement and the receipt, the sender sends everything and succeeds |
| Transfers.Completeness | internal/drop/receiver.go:228-757 | With limits, offset, record, quota, room and hook as configured: no check rejects a transfer of an allowed size, both sides end in success on each other's messages, and progress climbs from the offset to the length |
| Transfers.CompatibleIff | internal/drop/receiver.go:237-453 | What a transfer needs, from the configuration: 0 selects 5 GiB for every payload and 10 MiB for texts only, negative is no limit; the offset is 0 for a duplicate, else the explicit one, else the position of a seekable destination |
| Transfers.AcceptedIsAllowed | internal/drop/receiver.go:237-318 | The converse for every channel: an accepted attempt had admitted metadata, exactly the declared size, and a total within the configured limits |
| Transfers.StreamSafety | internal/drop/receiver.go:504-728 | A publication through a plain writer, of a declared or unknown size, has appended exactly the payload, or a digest collision is shown |
| Receipts.SuccessReplyIsBacked | internal/drop/receiver.go:703-756 | A success reply is sent only after publication, by a destination that holds the counted bytes with the stated digest, or for a duplicate with the recorded digest |
| Receipts.ReceiverAnswers | internal/drop/receiver.go:269-756 | Every attempt answers metadata with one refusal at offset 0 and an untouched destination, or with an acceptance and, unless the channel died, one completion that states the result, count and digest as they are |
| Receipts.SenderSuccessIsTrue | internal/drop/sender.go:308-357 | If the sender reports success, whatever happened to the chunks, the receiver published bytes with the payload's digest (the whole file for a declared size) or had recorded it |
| Delivery.FinalizePartFile | internal/hub/hub.go:3034-3085 | Whatever is delivered has the given digest and declared size under a new name; a close that fails is reported although the file is there, a partial that stays is not |
| Delivery.FinishTransferAtHub | internal/hub/hub.go:1826-1865 | With the real hook, a published transfer leaves a new name whose bytes have the digest the receiver computed, for declared and unknown sizes alike, and the ledger and reply follow from what the hook reported |
| Delivery.VerifiedIsAuthentic | internal/drop/receiver.go:662-700 | An accepted stream was verified against the digest on the final chunk that arrived |
| Delivery.DeliveredFileIsPayload | internal/hub/hub.go:3093-3106 | With the real hook the delivered file is the payload, or a digest collision is shown, also for an unknown size and a longer old file |
| Delivery.StaleTailIsRefused | internal/drop/receiver.go:107-113 | A stale tail that the bare receiver does not notice is not delivered, unless it collides |
| Resume.DecideResume | internal/drop/resume.go:50-78 | An open partial is resumed exactly if there is a head digest, its whole chunks are some but not all of the declared size, and they are below 64 KiB or the first 64 KiB of the partial have that digest; then at the end of its whole chunks; and exactly where its position is left |
| Resume.ResumesIff | internal/drop/resume.go:27-44 | The same for the rule as a function of the partial's content and size |
| Resume.SidecarRecognisedIff | internal/drop/manifest.go:54-89 | A sidecar written for one attempt is recognised by another exactly if drop id, kind, name, size, type, head digest and the chunk size in effect agree |
| Resume.ReopenedIff | internal/hub/hub.go:1965-2045 | A slot is refused exactly if its sidecar is that of another transfer, and otherwise opens with the whole chunks that the resume rule lets it keep, or empty |
| Resume.AsksIff | internal/drop/receiver.go:356-385 | A destination is asked for exactly if the attempt would fail for want of one; otherwise the destination is untouched and nothing is published |
| Resume.PositionRestoredIff | internal/drop/resume.go:46-77 | The position is restored if and only if the head is not compared or the reader was already behind it, with a valid transfer where it is not |
| Resume.ResumePrefixIsAligned | internal/drop/resume.go:33-34 | The offset is a multiple of the chunk size, within the partial and within the declared size |
| Resume.ResumeKeepsWholeChunks | internal/drop/resume.go:36-44 | An honest partial loses less than one chunk, unless its whole chunks already reach the declared size |
| Resume.InterruptedAttemptIsResumed | internal/hub/hub.go:2205-2225 | An attempt that ends without publishing leaves what it wrote, and the next one resumes all its whole chunks; a publication empties the slot |
| Resume.StagingSlot.Open | internal/hub/hub.go:1965-2045 | A partial is reused only under a matching sidecar, truncated to the resumable prefix with the position at its end; a foreign or unreadable sidecar is refused untouched; what any failing file operation leaves behind |
| Resume.SenderIsGenuine | internal/drop/sender.go:157-306 | From an aligned offset, every chunk carries the payload's bytes at the place its index names |
| Resume.WriteKeepsPrefix | internal/drop/receiver.go:626-639 | Writing the next bytes of the payload behind a prefix of it, in whole or torn, gives a prefix |
| Resume.AbsorbKeepsPrefix | internal/drop/receiver.go:605-657 | One chunk, written whole or torn at any byte, leaves the file a prefix of the payload |
| Resume.LoopKeepsPrefix | internal/drop/receiver.go:504-701 | So does a whole attempt, wherever it is cut off |
| Resume.OrderlyEndIsPossible | internal/hub/hub.go:2205-2225 | The slot after an attempt that ran to its end is one of those the crash analysis allows |
| Resume.AttemptKeepsPrefix | internal/hub/hub.go:1965-2056 | One attempt, with the process dying or a file operation failing at any step, keeps the slot a prefix, and what it publishes is the payload |
| Resume.CrashAndResume | internal/drop/resume.go:50-78 | Over any sequence of attempts, each cut off at any byte or step: the slot holds a prefix, the next retry is not refused and resumes a chunk-aligned prefix, every publication is the payload |
| Quotas.TransferQuota.Acquire | internal/drop/quota.go:87-141 | Either an error, in the program's order of checks, and nothing changes, or the reservation is charged to both counters and a fresh lease holds it |
| Quotas.AdmittedIff | internal/drop/quota.go:87-141 | Admitted exactly if the size is not negative and one more transfer with its first reservation (the size, or 1 MiB, or a smaller budget) stays within the four limits and 64 bits, counted by the first 256 characters of the peer |
| Quotas.RefusalNamesTheLimit | internal/drop/quota.go:87-141 | A refusal names the first limit, in the program's order, that the transfer exceeds |
| Quotas.TransferLease.AddBytes | internal/drop/quota.go:145-170 | Only an unknown-size lease grows; a refusal changes nothing |
| Quotas.GrowsIff | internal/drop/quota.go:145-170 | A growth is refused exactly if the size is unknown and the bytes do not fit the two byte budgets and 64 bits |
| Quotas.TransferLease.Release | internal/drop/quota.go:173-204 | Returns the reservation once; a second call does nothing |
| Quotas.AcquireKeepsSound | internal/drop/quota.go:118-140 | Admission keeps the counters equal to the sums over live leases and within every limit |
| Quotas.GrowKeepsSound | internal/drop/quota.go:155-169 | So does growing a lease that is still held |
| Quotas.ReleaseKeepsSound | internal/drop/quota.go:177-203 | So does releasing, and a peer without live leases leaves the map |
| Quotas.ReleaseNeverSaturates | internal/drop/quota.go:181-197 | The saturating branches of Release are never taken on sound books |
| Quotas.ConservationOverRuns | internal/drop/quota.go:87-204 | Over every run, global and per-peer counters are the sums over live leases and no limit or 64-bit bound is exceeded |
| Quotas.AllReleasedRestoresEmpty | internal/drop/quota.go:172-204 | Once every lease is released the quota is as created |
| Quotas.GrowConservesIff | internal/drop/quota.go:143-170 | AddBytes conserves if and only if the lease is held or the call has no effect |
| Quotas.GrowAfterReleaseLeaks | internal/drop/quota.go:143-170 | Acquire, release, grow: nothing is live, five bytes stay reserved |
| ByteBound.AbsorbStaysCovered | internal/drop/receiver.go:605-657 | The lease grows before the write and by no less, so writes never exceed it, even when a write is torn |
| ByteBound.StepKeepsInv | internal/drop/receiver.go:341-357 | Every step of every concurrent attempt keeps all attempts covered and the books sound |
| ByteBound.DeliveriesAreTheLoop | internal/drop/receiver.go:504-701 | The steps of one attempt of the concurrent system are the receive loop: undisturbed, they write and reserve exactly what it does |
| ByteBound.BeginOpens | internal/drop/receiver.go:341-357 | Admission opens an account of its own for the attempt, as in a single attempt |
| ByteBound.BudgetsBoundAllWrites | internal/drop/receiver.go:336-357 | In every reachable state the live attempts' writes are within the total and per-peer byte budgets |
| ByteBound.AttemptRestoresQuota | internal/drop/receiver.go:336-357 | Every attempt, refused, failed, cut off or successful, leaves the shared quota exactly as it found it |
| ByteBound.AttemptRestoresQuotaAfterRun | internal/drop/quota.go:87-204 | The same on the quota that any legal run of acquisitions, growths and releases has left |
| Ledger.Tombstones.Lookup | internal/drop/tombstone.go:108-116 | The record under the key; a blank key has none |
| Ledger.Tombstones.Record | internal/drop/tombstone.go:124-150 | Afterwards no expired entry remains, at most the maximum is held, and whatever was dropped for capacity is no newer than anything kept |
| Ledger.Tombstones.Prune | internal/drop/tombstone.go:174-195 | Keeps every unexpired entry while they fit, and otherwise exactly the maximum, newest first |
| Ledger.PruningDropsIff | internal/drop/tombstone.go:174-195 | With the program's limits, an entry older than 24 hours goes, and any other only if 1024 that are no older are kept; an entry without a time never expires |
| Ledger.RecordHoldsTransfer | internal/drop/receiver.go:730-741 | A record holds the metadata with the chunk size in effect, the verified digest, the byte count and the time |
| Ledger.Tombstones.DropOldest | internal/drop/tombstone.go:183-194 | Deletes exactly the surplus, and nothing deleted is newer than anything kept |
| AtMostOnce.AttemptFacts | internal/drop/receiver.go:319-334 | An accepted attempt publishes if and only if its key was absent when it looked and the hook delivers; a duplicate succeeds only on the recorded digest and matching metadata |
| AtMostOnce.PublishesIffUnrecorded | internal/drop/receiver.go:324-334 | In every interleaving, an accepted attempt delivers if and only if its key was absent from the ledger it looked up and the hook does not refuse, and leaves a record if and only if the hook also reports success |
| AtMostOnce.AcceptedMatchesRecord | internal/drop/receiver.go:685-698 | A duplicate stream is accepted only with the recorded digest |
| AtMostOnce.RecordsAreSourced | internal/drop/receiver.go:730-741 | In every interleaving, every retained record is that of a publication that finished before |
| AtMostOnce.RetainedKeyDoesNotPublish | internal/drop/receiver.go:324-334 | An attempt that finds a record under its key delivers nothing, whatever its hook would do |
| AtMostOnce.SuccessIsForPublishedContent | internal/drop/receiver.go:717-753 | In every interleaving, a success that did not publish is for content that an attempt finished before the lookup published under the same key, metadata and digest |
| AtMostOnce.VanishingRecord | internal/drop/tombstone.go:174-195 | A record vanishes only by age or because enough other keys are at least as recent |
| AtMostOnce.RecordStays | internal/drop/tombstone.go:124-195 | After a publication the record is held until it expires or is crowded out |
| AtMostOnce.RecordIsGone | internal/drop/tombstone.go:124-195 | After a publication its key is missing from the ledger only once the retention time has passed or as many other keys have published since as the ledger holds |
| AtMostOnce.PublishesAtMostOnce | internal/drop/receiver.go:319-756 | In every interleaving, with the channel dying anywhere: if a key published and is delivered again, the second attempt looked before the first had finished, or the record had expired or was crowded out |
| AtMostOnce.DeliversAtMostOnce | internal/hub/hub.go:3062-3069 | The same for delivered files, where the one other excuse is a hook that failed after it had delivered |
| AtMostOnce.FailedHookDeliversTwice | internal/hub/hub.go:3062-3069 | A concrete transfer whose hook fails after delivery: nothing is recorded and the retry delivers again |
| AtMostOnce.SerialKeyDeliversOnce | internal/drop/receiver.go:319-756 | If attempts under one key do not overlap, that key is delivered once while its record is retained, however attempts under other keys interleave |
| AtMostOnce.OverlappingAttemptsPublishTwice | internal/drop/receiver.go:325-735 | Two attempts that looked up the key before either recorded it both publish; one after the other the second does not |
| AtMostOnce.RecordMatchesIff | internal/drop/tombstone.go:66-74 | A record matches metadata if and only if kind, name, size, type, chunk size and head hash agree, whatever the relative paths |
| AtMostOnce.AnyDifferenceFailsIff | internal/drop/tombstone.go:63-74 | "Any difference fails closed" holds of a pair exactly when the relative paths agree or a compared field differs |
| AtMostOnce.OtherPathIsTakenForDuplicate | internal/drop/receiver.go:324-334 | A concrete retry under the same key with another relative path and the same bytes succeeds as a duplicate and delivers nothing |
| EventLog.RingBuffer.Append | internal/hub/logger.go:72-83 | One more event in the history; the slots stay the last events of it, across every wrap-around |
| EventLog.RingBuffer.GetRecent | internal/hub/logger.go:86-99 | The last min(n, capacity) of the n events appended since the last Clear, in order |
| EventLog.RingBuffer.Clear | internal/hub/logger.go:109-114 | The history starts again |
| EventLog.EventLogger.TrySubscribe | internal/hub/logger.go:132-141 | At most 32 clients; a new one starts with an empty channel |
| EventLog.EventLogger.Broadcast | internal/hub/logger.go:164-174 | Every client's channel gets the event unless it is full, and no client blocks another |
| EventLog.EventLogger.Log | internal/hub/logger.go:228-257 | Ids are consecutive, and the ring and every channel see the events in id order |
| EventReplay.LogInSteps | internal/hub/logger.go:237-249 | A call of Log is the machine's append followed by its broadcast, on the ring and on any one client's channel |
| EventReplay.LogAloneInSteps | internal/hub/logger.go:237-249 | The same while nobody has subscribed |
| EventReplay.SubscribeInStep | internal/hub/logger.go:312-326 | An admitted subscription is the machine's subscribe step, with an empty channel |
| EventReplay.SnapshotInStep | internal/hub/logger.go:344-345 | For a presented id the handler reads the ring, and that is the machine's snapshot step; without one it goes on to its channel |
| EventReplay.ReplayInStep | internal/hub/logger.go:345-353 | Writing one replayed event, unless it is at or below the last one sent, is the machine's replay step |
| EventReplay.DrainInStep | internal/hub/logger.go:359-373 | Writing one event from the channel is the machine's drain step |
| EventReplay.EventStream.Write | internal/hub/logger.go:346-373 | An event at or below the last id sent is skipped, any other is written and becomes the last |
| EventReplay.DroppedIff | internal/hub/logger.go:164-174 | Over every run, a channel has lost exactly the ids broadcast while 64 events waited in it |
| EventReplay.SnapshotReachesBack | internal/hub/logger.go:344-345 | In every reachable state the snapshot for a presented id starts right above its top minus the capacity |
| EventReplay.RunKeepsInv | internal/hub/logger.go:301-379 | Under every interleaving of logging with subscribe, snapshot, replay and drain, the delivered ids are exactly the due ones so far |
| EventReplay.NeverRepeats | internal/hub/logger.go:344-373 | In every reachable state the delivered ids climb strictly above the presented one |
| EventReplay.DeliveryIsExact | internal/hub/logger.go:312-373 | Once drained: delivered are exactly the snapshot's ids and the later ones no full channel dropped |
| EventReplay.ReplayIsCompleteIff | internal/hub/logger.go:296-373 | For an id this logger issued, exactly the consecutive successors are delivered if and only if the log had gone on by no more than the capacity at the snapshot and no later id was broadcast to a full channel |
| EventReplay.LiveOnlyIsCompleteIff | internal/hub/logger.go:312-373 | Without a presented id, exactly the events broadcast after the subscription are delivered, consecutively, if and only if the channel was never full at a broadcast |
| EventReplay.ForeignIdSuppresses | internal/hub/logger.go:367-369 | An id at or beyond everything issued suppresses all delivery until the log passes it |
| OAuthSessions.OAuthSessionManager.Acquire | internal/bridge/session.go:137-162 | After pruning: replay if there is a record, else join the session of this very key, else refuse at 128, else own a new session created for the key; nothing else changes |
| OAuthSessions.OAuthSessionManager.Wait | internal/bridge/session.go:164-183 | Success for a replay and for a session that succeeded, otherwise the error the owner reported |
| OAuthSessions.OAuthSessionManager.Finish | internal/bridge/session.go:185-210 | Takes effect only for the owner of the key's current open session; success leaves a replay record |
| OAuthSessions.OAuthSessionManager.Prune | internal/bridge/session.go:115-135 | Expired records go; above 256 exactly the earliest expiring ones go |
| OAuthSessions.RunsKeepInv | internal/bridge/session.go:115-210 | Over every run: active and replayable keys are disjoint, within 128 and 256, and an unclosed session is the one of an active key |
| OAuthSessions.JoinsIff | internal/bridge/session.go:151-153 | Over every run: a caller joins a session if and only if an earlier caller was made its owner for the same key and has not reported since |
| OAuthSessions.RefusedIff | internal/bridge/session.go:154-157 | A caller is refused if and only if 128 sign-ins are open and its own key is neither open nor replayable |
| OAuthSessions.FirstReportCloses | internal/bridge/session.go:185-210 | The owner's first report closes its session with exactly that outcome, whatever happened since |
| OAuthSessions.OnlyFirstReportsCount | internal/bridge/session.go:190-197 | A finish changes anything only if it is the first report of a sign-in opened for its key |
| OAuthSessions.JoinerGetsOwnersOutcome | internal/bridge/session.go:137-210 | Who joins waits for the one who was made owner for the same key before, and gets what that owner reported first, after the joiner had joined |
| OAuthSessions.ReplayIsOfSuccess | internal/bridge/session.go:143-150 | A caller is told of an earlier success only if its key had one, no longer ago than the window |
| OAuthSessions.SuccessIsReplayed | internal/bridge/session.go:143-210 | After a success every caller with that key is told so until the record expires or 256 records that expire no earlier are kept instead |
| OAuthSessions.WaitersGetOwnersResult | internal/bridge/session.go:164-210 | A closed session was closed exactly once, by its owner, and every joiner reads the owner's outcome |
| OAuthSessions.ClaimedStaysClaimed | internal/bridge/session.go:137-210 | A key that is owned or replayable stays so until a finish that takes effect fails, or its record is dropped for age or capacity |
| OAuthSessions.SecondOwnerOnlyAfterRelease | internal/bridge/session.go:137-210 | A second owner of a key appears only after a failure, or expiry or eviction of its replay record |
| SessionRegistries.SessionRegistry.Register | internal/bridge/session_registry.go:143-166 | Needs an id and a free place, unless the id is already filed; the session keeps its data, starts now and waits for the browser unless told otherwise; without a place nothing changes |
| SessionRegistries.SessionRegistry.Unregister | internal/bridge/session_registry.go:167-174 | Removes whatever is filed under the id and signals nobody |
| SessionRegistries.SessionRegistry.Cancel | internal/bridge/session_registry.go:197-238 | Takes the session filed under the trimmed id, removes and signals it, if and only if the trimmed fingerprints agree up to ASCII case; otherwise nothing changes |
| SessionRegistries.BelongsToIff | internal/bridge/session_registry.go:377-390 | A session belongs to a requester exactly if the trimmed fingerprints agree character by character up to ASCII case; a blank one only matches a blank one |
| SessionRegistries.CancelTakesExactlyItsOwn | internal/bridge/session_registry.go:197-238 | Any session is gone and signalled once more if and only if it was filed under the named id and is of the requester's fingerprint |
| SessionRegistries.SessionRegistry.CancelByFlow | internal/bridge/session_registry.go:242-266 | Exactly the requester's sessions of the flow are removed and signalled once, and counted |
| SessionRegistries.SessionRegistry.CancelOnPort | internal/bridge/session_registry.go:281-302 | Exactly the requester's sessions on the port, except the excluded one, are removed, signalled once and listed |
| SessionRegistries.SessionRegistry.CancelAll | internal/bridge/session_registry.go:305-323 | Exactly the requester's sessions are removed, signalled once and listed |
| SessionRegistries.BulkTakesExactlyItsOwn | internal/bridge/session_registry.go:240-323 | Any session is gone and signalled once more if and only if it was filed, is of the flow, on the port and not the excluded one, or any at all, and is of the requester's fingerprint; every other stays and is not signalled |
| SessionRegistries.PortIsFreed | internal/bridge/session_registry.go:268-302 | Afterwards the excluded session is as it was and no other session of that peer holds the port |
| SessionRegistries.OthersCannotCancel | internal/bridge/session_registry.go:377-390 | No sequence of operations by requesters of another fingerprint, or for other ids, removes or signals a session |
| SessionRegistries.ReleasedIffOwnerAsked | internal/bridge/session_registry.go:186-323 | Over every run that does not register or end its id again: a session is gone, and was signalled exactly once, if and only if a requester of its own fingerprint asked for it by id, flow, port or altogether |
| SessionRegistries.RunsStayBounded | internal/bridge/session_registry.go:143-166 | In every reachable state at most 128 sessions are open, each under its own trimmed id |
| SessionRegistries.OpenSessionsWereRegistered | internal/bridge/session_registry.go:143-166 | Whatever is open was admitted by an earlier registration, with that one's data, and not taken away since |
| SessionRegistries.UnregisterTakesOwnIff | internal/bridge/session_registry.go:167-174 | Over any run after a registration, its unregister function removes its own session or nothing if and only if no later session under that id is live, that is registered and not taken away since |
| SessionRegistries.UnregisterIsSafeWithoutReuse | internal/bridge/session_registry.go:129-131 | As long as nobody registers the id again, unregister removes its own session or nothing |
| SessionRegistries.LateUnregisterTakesNewer | internal/bridge/session_registry.go:165-174 | Two registrations of one id: the unregister function of the first removes the second session |
| SessionRegistries.CancelledReuseIsHarmless | internal/bridge/session_registry.go:165-174 | A second registration that was cancelled again leaves nothing for the first one's unregister to remove |
| StagingBudget.StagingArea.EnforcePartialBudget | internal/drop/staging.go:891-973 | Nothing blocked goes, whatever goes is older than everything eligible that stays (or of the same time and first by path), the rest keeps to the budget, 8 GiB by default, and to 1024 files, or is all blocked, and the last removal was needed for that; sidecars of partials go with them, and count and bytes are reported |
| StagingBudget.ReclaimTakesOldest | internal/drop/staging.go:921-927 | The walk over the sorted candidates removes the oldest first, in time and then by path |
| StagingBudget.ReclaimKeepsBudget | internal/drop/staging.go:917-931 | However the rest is listed, its total is within the budget and its number at most 1024, or all of it is blocked |
| StagingBudget.LastRemovalWasNeeded | internal/drop/staging.go:928-931 | With the last removed file back, the rest would be above the budget or above 1024 files |
| StagingBudget.LexLeIff | internal/drop/staging.go:923 | Paths are compared byte by byte: one comes first if it is a beginning of the other or smaller where they first differ |
| StagingBudget.StagingArea.Walk | internal/drop/staging.go:928-972 | Skips protected, active and unremovable paths and stops as soon as both limits hold |
| StagingBudget.RemovesOldestEligible | internal/drop/staging.go:885-890 | Nothing protected, active or unremovable is removed, and no eligible candidate older than a removed one stays |
| StagingBudget.StopsExactly | internal/drop/staging.go:928-931 | The last removal was needed, and at the end both limits hold or every survivor is blocked |
| StagingBudget.ReclaimIsIdempotent | internal/drop/staging.go:889-890 | A second walk over the survivors, in any order and with the totals computed from them, removes nothing |
| StagingBudget.EnforcingAgainRemovesNothing | internal/drop/staging.go:885-973 | The same for the directory: any listing of what is left gives an empty second run |
| Publication.VerifyStagedDigest | internal/drop/digest.go:31-53 | Succeeds exactly when the staged bytes have the digest, or none is expected, and rewinds |
| Publication.TempNamesAreGenerated | internal/drop/staging.go:275-310 | The recognised temporary names are exactly those the generator can produce |
| Publication.TempNameShape | internal/drop/staging.go:269-290 | A recognised name has 43 characters: ".tantu-publish-", 24 lower-case hexadecimal digits, ".tmp" |
| Publication.NewPublicationTempName | internal/drop/staging.go:295-310 | A generated name that is not taken; without faults it fails only if a draw fails or 64 draws are all taken |
| Publication.PublishStagedFile | internal/drop/staging.go:316-321 | Only a generated temporary is renamed |
| Publication.PublishFromStaging | internal/drop/staging.go:334-357 | Either the partial is renamed to a name that was free, or nothing is delivered and the partial is still there |
| Publication.CopyInto | internal/hub/hub.go:3332-3346 | Every state of the copy changes only the hidden temporary; success means it holds and hashed the whole content |
| Publication.PublishViaTemp | internal/hub/hub.go:3322-3363 | The delivered name appears in one step with verified size and digest; every error leaves no new delivered name |
| Publication.CandidateIsOrdinary | internal/hub/hub.go:3169-3176 | No candidate for an ordinary leaf name can be mistaken for a temporary or the partial |
| Publication.CandidateIsNumbered | internal/hub/hub.go:3169-3176 | The first candidate is the plain name, the i-th later one has i in decimal digits and parentheses before the extension |
| Publication.CandidatesDiffer | internal/hub/hub.go:3171-3176 | All candidates are different names |
| Publication.PublishFlat | internal/hub/hub.go:3162-3209 | In every intermediate state, existing names keep their bytes and a new name is a temporary or the whole content; without faults the first free of 10000 candidates is used, unless none is free or a copy finds no temporary name |
| Publication.SmallDirectoryPublishes | internal/hub/hub.go:3171-3209 | Without faults, a directory with fewer than 10000 files takes every partial of its own file system |
| Publication.PublishPartFile | internal/hub/hub.go:3124-3142 | The same for any file, size and digest: mismatches are reported before anything changes, success means verified content under a new name |
| Discovery.Engine.RecordNode | internal/discovery/discovery.go:539-574 | Refreshes a known node, refuses a host at its cap before any eviction, evicts one oldest entry from a full table |
| Discovery.BeaconEffect | internal/discovery/discovery.go:539-574 | What one beacon does to any entry: its own is filed unless it is new and its host has 8; another is as it was unless it is the one displaced from a table of 256, no newer than any other |
| Discovery.Engine.SourceHostCount | internal/discovery/discovery.go:521-537 | Counts exactly the entries of that host, without regard to case |
| Discovery.Engine.AllowBeaconSource | internal/discovery/discovery.go:480-517 | Allowed unless the source was seen within 50 ms; only above 512 sources the old and then the oldest go |
| Discovery.LimiterForgets | internal/discovery/discovery.go:490-517 | A source is forgotten only above 512, and then if it is 10 seconds old or no newer than the 512 kept |
| Discovery.Engine.PruneStaleNodes | internal/discovery/discovery.go:734-744 | Keeps exactly the nodes within the time to live, unchanged |
| Discovery.PruningLeavesFresh | internal/discovery/discovery.go:734-744 | In every run a pruning leaves exactly the nodes seen within the time to live |
| Discovery.TableStaysBounded | internal/discovery/discovery.go:539-574 | Over every run at most 256 nodes and at most 8 of a host |
| Discovery.OneHostDisplacesAtMostItsSlots | internal/discovery/discovery.go:544-566 | Any number of beacons from one host between prunings displaces at most as many foreign entries as the host had free slots, at most 8, and alters none |
| Args.NormalizeArgs | cmd/tantu/args.go:118-159 | The result is the words that are flags or the value of the flag before, then the other words, then everything from the first double dash, each in order |
| Args.SplitLeadingFlags | cmd/tantu/args.go:83-98 | The two parts concatenate to the arguments, and the first is the longest run of words that are flags or values of the flag before |
| Args.NormalizedByWord | cmd/tantu/args.go:128-149 | Which word is hoisted depends on it and the one before alone: it starts with a dash, or it does not and follows a flag that takes a value |
| Args.HandOutPartitions | cmd/tantu/args.go:128-149 | Handing arguments out one by one is the stable partition of the list as it is read |
| Args.NormalizedIsPermutation | cmd/tantu/args.go:116-159 | Normalising only moves arguments, and the tail from the first double dash stays the tail |
| Args.FlagsReadBack | cmd/tantu/args.go:139-145 | A hoisted flag block is read as the same flags and values, if what follows cannot be the last flag's value |
| Args.ReadAgain | cmd/tantu/args.go:128-149 | The normalised list is read as the same flags and positionals, except that a value flag left without a value takes the first positional |
| Args.NormalizeIsIdempotent | cmd/tantu/args.go:118-159 | Normalising twice is normalising once |
| Args.SplitRecoversPartitionIff | cmd/tantu/args.go:72-98 | Splitting the normalised list gives back exactly the flags if and only if the last flag is not a value flag without a value before a positional |
| Args.HoistingCanCaptureAPositional | cmd/tantu/args.go:139-148 | A concrete list where a positional becomes a flag's value |

## Left out

- Sockets, TLS, SSH, HTTP handlers, browser launch, mDNS and UDP sending, JSON, base64 and envelope framing: an abstract FIFO channel stands in; a message that does not decode is `Garbled`.
- Answers to heartbeats are counted apart from the other messages: their place among these is not recorded, and the number of sends that succeed is that of the other messages.
- Timeouts and cancelled contexts: the attempt ends as if the channel had died at that point; a cancelled receiver's last completion message is not modelled.
- `TouchActivity` and `Sync` failures in the chunk loop, and read errors of the sender's payload: each ends the attempt like a failed write or read, and nothing new follows.
- A destination that reports its own received-byte count (`internal/drop/receiver.go:388-389`): no destination in the product does.
- Character-level rules on drop ids, names, types and relative paths (`internal/drop/receiver.go:125-223`): one flag, `wellFormedText`, stands for all of them. A relative path is carried for the ledger's comparison only.
- Integer widths other than the 64-bit byte bound of the quota; ids in the event log do not wrap.
- ByteBound.BudgetsBoundAllWrites: counts bytes written by the attempt itself; a prefix resumed from an earlier attempt is covered by the lease only when the size is declared.
- Resume.CrashAndResume: is about one transfer with a declared size whose chunks come from an honest sender; what a different transfer under the same drop id does is the refusal stated by `Resume.StagingSlot.Open`.
- AtMostOnce.PublishesAtMostOnce: the ledger starts empty and lives in memory; saving and reloading its file is not part of this model.
- Resume.StagingSlot.Open: symlink, hardlink and identity checks count as a partial that cannot be used; the refusal of a second attempt on the same drop id while one is running is not part of this model, so attempts on one slot follow each other.
- The standalone receiver's own staging (`cmd/tantu`), and publication into nested directories: path handling they rest on is not part of this model.
- EventReplay.ReplayIsCompleteIff: one subscriber; others do not influence it, since every client has its own channel. Failed writes to the client end its stream.
- Log text cleaning and redaction, the event callback, and the JSON endpoints.
- SessionRegistries.BelongsToIff: fingerprints are trimmed and compared as ASCII text.
- OAuthSessions.WaitersGetOwnersResult: a waiter that gives up on its own context is not modelled.
- An empty key is used as "none yet" by the eviction scans (`internal/bridge/session.go:122-132`, `internal/discovery/discovery.go:503-512`, `internal/discovery/discovery.go:555-564`); keys are taken to be non-empty.
- SessionRegistries.SessionRegistry.Cancel: does not model the bounded wait for the listener to close, or a registration between collecting and cancelling; `SetState`, `Get`, `List` and `Count` would add only easy members.
- StagingBudget.StagingArea.EnforcePartialBudget: candidates are given; finding them on disk, the cross-process lock and pid probes, and failing removals of sidecars are left out.
- Publication.PublishFlat: one writer in the output directory, since no-overwrite is a check followed by a rename; symlink, hardlink and file-identity checks are operating-system facts. A leaf name shaped like a publication temporary is excluded: `SanitizeDropFilename` (`internal/hub/hub.go:391-433`) trims leading dots, so the Hub never asks for one.
- Publication.PublishPartFile: destinations directly in the output directory; those in a reconstructed tree go to `publishNested`, which is not part of this model.
- Delivery.FinishTransferAtHub: file transfers; a text transfer has no file to publish.
- Discovery.Engine.RecordNode: addresses are already split into host and port, and case folding is ASCII; callbacks and the remaining node fields are left out.
- `internal/drop/manifest.go`: the sidecar is a value with the same fields and comparison; writing and reading its file is left out.
- Sorting is the insertion sort of `Sorting`; the order among equal completion times in the ledger is left open, as the program's sort leaves it.
- The cockpit, HTML pages, doctor, status, pairing store, peer resolution, error classification and the URL rules of `internal/bridge/aside.go` and `bside.go`.
