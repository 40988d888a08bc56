# Kiko: protocol and state-machine proofs

This project models the stateful cores of Kiko, a peer-to-peer file transfer and notepad tool, and
proves properties of them in Dafny 4.11. `dafny verify dfyconfig.toml` checks everything.

Sockets are FIFO queues of frames or bytes that may pause, break or close at any moment. Threads are
atomic steps in any interleaving, cut where the source takes or releases a lock. Files are byte
sequences. Clocks, randomness and what the filesystem answers are parameters. Hashes and zstd are
uninterpreted functions; a theorem that needs them collision-free or lossless says so.

## What is modelled

- **Parallel transfer with resume** (`WrittenRanges`, `ByteOrder`, `MuxReceive`, `MuxScheduler`,
  `MuxResume`, `MuxRun`, `MuxRefinement`, `MuxJoin`). `WrittenRanges` says plainly what "the contiguous prefix" of a set of
  written byte ranges is. `MuxReceive` holds the receive session with its interval map, proved
  against that meaning for any order, overlap and repetition. `MuxScheduler` holds the bounded sender
  queues. `MuxResume` covers the resume handshake and whole sequences of failed attempts. `MuxRun` puts
  producer, workers, channels and readers together and proves safety, absence of deadlock, and that
  every run is bounded and ends with the source delivered. `MuxRefinement` shows that the methods of the
  scheduler object are steps of that run. `MuxJoin` lets the channels and the disk fail under the readers
  and says what the join then finds.
- **Two-replica notepad** (`NoteProtocol`, `NoteWorkspace`, `NoteOutbox`, `NoteSync`, `NoteSynced`,
  `NoteAcks`). Edits are
  totally ordered and applying one takes a maximum. `NoteSync` joins two workspaces by coalescing
  outboxes and FIFO channels, and proves convergence and the meaning of the synced indicator although
  coalescing drops frames. `NoteAcks` proves the converse, that acknowledgements arrive.
- **Route commit and rooms** (`RelayRouteState`, `RouteCommit`, `RouteSettles`, `RelayRooms`, `RelayRoomRuns`). The
  relay's choice merge and decision table; a three-party system of relay and two peers with its four
  queues, what its commit rests on and leads to; the rendezvous table and its runs.
- **Receiving a manifest** (`TargetKeys`, `TextOrder`, `ReceivePlan`, `FileSession`, `ReceiveStream`,
  `StreamRoundTrip`). The preflight of planned targets and of free space, the per-file handshake,
  the single-stream receive loop against arbitrary frames, and the round trip with an honest sender.
- **Ignore rules** (`WildMatch`, `WildTokens`, `GitIgnore`). The memoised matcher, the plain recursion
  it shortens, and a token semantics; the rule fold.
- **Framing and codecs** (`Framing`, `Decimal`, `Csv`, `RelayCodec`), **staged uploads** (`WebUpload`)
  and **key derivation** (`Hkdf`).

## Where the code does not keep a promise

Each of these is stated with the condition under which the promise holds.

- A primary peer can wait for a room that is already taken: `relay_room_base` cuts at the first `#`, so
  the rooms `a` and `a#b` share a claim. `RelayRoomRuns.ActiveRoomsAreClear` proves that it never
  happens exactly when the room names have different bases (or fewer than two peers may wait at all);
  `RelayRoomRuns.SharedBaseBlocks` is the run that shows it.
- A registration survives its encoding exactly when its local candidates are non-empty and free of
  commas (`RelayCodec.HelloRoundTrip`).
- The synced indicator compares revisions of a 64-bit counter that wraps. A fresh edit reads as
  acknowledged exactly when its pad was acknowledged before and its counter was exhausted
  (`NoteSynced.FreshEditReadsAcked`). In every run whose edits had a revision left the indicator means
  what it says (`NoteSynced.SyncedBelowLastRevision`); `NoteSynced.SyncedPastLastRevision` is a run that
  goes one edit further and ends with the indicator on and an edit missing at the peer.
- A staged upload is exactly its accepted chunks, and the reservation holds, as long as failed appends
  are undone. When an undo fails too, the bytes left behind are paid from the slack of the reservation:
  it survives exactly when the slack is enough (`WebUploads.LeftBehindNeedsSlack`), and
  `WebUploads.LeftBehindBreaks` is one byte on a full reservation.
- Ignore rules follow the code where it differs from git. The slash after a globstar may vanish at any
  split, so `**/x` matches `abx`; `WildTokens.LeadingGlobstar` states exactly what a leading globstar
  matches. A path below an ignored directory is ignored unless a later negated rule has the last word on
  it (`GitIgnores.BelowIgnoredDirectory`, both directions).
- The peak-space computation needs no exception for its saturating sum: `ReceivePlans.AddGrowthFits`
  proves the totals exact, since a saturated sum only ever meets a total it already covers.

## Model

| member | source | states |
|---|---|---|
| ByteOrder.RoundTrip | src/transfer/mux_transfer.cpp:20-26 | a number that fits the width reads back from its big-endian bytes |
| ByteOrder.RoundTripBytes | src/transfer/mux_receive_session.cpp:12-22 | every byte string is the encoding of the number it reads as, so reading loses nothing |
| ByteOrder.PutBigEndian | src/transfer/mux_transfer.cpp:20-26 | the shift loop appends exactly the big-endian bytes |
| ByteOrder.ReadBigEndian | src/transfer/mux_receive_session.cpp:12-22 | the accumulate loop computes the number the bytes denote |
| WrittenRanges.LeastOpenOrderIndependent | src/transfer/mux_receive_session.cpp:116-136 | the least uncovered offset depends only on which ranges were recorded, not on order or repetition |
| WrittenRanges.LeastOpenPermutation | src/transfer/mux_receive_session.cpp:116-136 | two arrival orders of the same frames end with the same contiguous prefix |
| MuxReceive.AcceptRoundTrip | src/transfer/mux_receive_session.cpp:66-86 | the payload built for a chunk inside the declared range passes every check of the reader and decodes to that chunk |
| MuxReceive.AcceptedAsSent | src/transfer/mux_receive_session.cpp:66-86 | conversely an accepted payload names the chunk it yields: the header encodes its offset and length, the body unpacks to its bytes |
| MuxReceive.FailsExactly | src/transfer/mux_receive_session.cpp:59-114 | the failed flag goes up exactly on a frame that throws: a channel that closes early, a foreign tag, a chunk refused or a short write; a reader stops exactly there or on ChunkEnd |
| MuxReceive.BackedStep | src/transfer/mux_receive_session.cpp:59-114 | for any frame and any disk outcome, recorded ranges lie at or above the resume offset and inside the file, and `written` is the resume offset plus their total size |
| MuxReceive.PrefixIsBacked | src/transfer/mux_receive_session.cpp:147-160 | trimming to the contiguous prefix cuts the part file, it never extends it |
| MuxReceive.MuxReceiveSession.constructor | src/transfer/mux_receive_session.cpp:26-42 | a new session has an empty log and both counters at the resume offset |
| MuxReceive.MuxReceiveSession.PrefixIsLeastOpen | src/transfer/mux_receive_session.cpp:116-136 | the prefix field is the least offset at or above the resume offset that no recorded range covers, and every pending range starts beyond it |
| MuxReceive.MuxReceiveSession.RecordWrittenRange | src/transfer/mux_receive_session.cpp:116-136 | recording any range adds exactly that range to the log, leaves the map drained and in agreement with the log, and returns how far the prefix moved |
| MuxReceive.MuxReceiveSession.DrainPending | src/transfer/mux_receive_session.cpp:129-134 | absorbing pending ranges keeps the map in agreement with the log and ends with none touching the prefix |
| MuxReceive.MuxReceiveSession.WriteChunk | src/transfer/mux_receive_session.cpp:90-99 | the locked write puts the bytes in place, logs the range and counts it; the reported deltas still sum to prefix minus resume |
| MuxReceive.MuxReceiveSession.ReadFrame | src/transfer/mux_receive_session.cpp:59-114 | one reader iteration for any frame, closed channel or failing disk has the effect of the value model; the reader stops exactly on ChunkEnd or an error, and fails exactly on an error |
| MuxReceive.MuxReceiveSession.Join | src/transfer/mux_receive_session.cpp:44-57 | the join reports an error exactly when some reader failed, and then cuts the part to the prefix; otherwise it returns the bytes written |
| MuxReceive.MuxReceiveSession.TruncatePartial | src/transfer/mux_receive_session.cpp:147-160 | after a failure the part file is exactly its first prefix-many bytes, or untouched when the resize itself fails |
| MuxResume.NegotiateExactly | src/transfer/transfer_file_session.cpp:104-117 | a part file is resumed if and only if it is readable, not longer than the source and has the digest of the source prefix of its length; the receiver accepts the honest answer |
| MuxResume.AcceptedMeansPrefix | src/transfer/transfer_file_session.cpp:248-271 | for arbitrary part contents and a collision-free digest, a nonzero accepted offset means the part file is that prefix of the source |
| MuxResume.HashPrefix | src/transfer/transfer_resume.cpp:14-32 | the buffered loop absorbs exactly the first min(length, size) bytes |
| MuxResume.ChunkBounds | src/transfer/transfer_file_session.cpp:127-142 | chunk i exists exactly when it starts inside the source |
| MuxResume.CutChunks | src/transfer/mux_transfer.cpp:52-66 | the read loop cuts the source from the resume offset into back-to-back chunks up to the end |
| MuxResume.ChunkOwner | src/transfer/mux_transfer.cpp:52-66 | every offset from the resume point on lies in some chunk |
| MuxResume.ChunkAccepted | src/transfer/mux_receive_session.cpp:66-86 | each chunk the sender cuts is accepted unchanged and is the source's bytes in their place |
| MuxResume.FaithfulStep | src/transfer/mux_receive_session.cpp:59-114 | a frame of source bytes, whole or cut short by the disk, keeps every covered byte equal to the source and never moves the prefix back |
| MuxResume.TrimmedIsSourcePrefix | src/transfer/mux_receive_session.cpp:147-160 | what a failed attempt leaves after trimming is a prefix of the source that reaches at least the resume offset |
| MuxResume.FullyCoveredIsSource | src/transfer/mux_receive_session.cpp:44-57 | once the whole tail is covered the part file is the source and the prefix its size |
| MuxResume.AttemptLeavesPrefix | src/transfer/mux_receive_session.cpp:138-160 | one failed attempt, with chunks in any order, short writes and broken channels, leaves a source prefix that reaches its own accepted offset |
| MuxResume.FailedExactly | src/transfer/mux_receive_session.cpp:59-114 | over any sequence of events, a session has failed if and only if it had before or some event breaks a channel, fails a write or names no chunk of the source |
| MuxResume.PrefixPartResumes | src/transfer/transfer_file_session.cpp:248-271 | a readable part file that is a source prefix is resumed at its whole length |
| MuxResume.AttemptsNeverGoBack | src/transfer/transfer_file_session.cpp:104-117 | over any sequence of failed attempts the part file is always a source prefix and, while readable, resume offsets never decrease |
| MuxJoin.RunKeepsInv | src/transfer/mux_receive_session.cpp:44-114 | over any interleaving of readers with faults the file stays the source wherever the log covers it, and until one fails the log has every chunk the readers took, each a front of its channel |
| MuxJoin.JoinFindsAllOrPrefix | src/transfer/mux_receive_session.cpp:44-57 | once every reader has stopped, a session without failure holds exactly the source, and a failed one is trimmed to a source prefix that reaches the resume offset |
| MuxJoin.SessionFailsExactly | src/transfer/mux_receive_session.cpp:44-57 | the join of a whole session throws if and only if some turn of some reader met a fault |
| MuxScheduler.BlockedMeansPending | src/transfer/mux_send_scheduler.cpp:82-104 | a payload no channel may take means some channel still has pending bytes, so waiting cannot be for ever |
| MuxScheduler.RoomExactly | src/transfer/mux_send_scheduler.cpp:82-104 | a channel takes a payload exactly when it is then at most 1 MiB and all together 1 MiB per channel, or nothing is pending there |
| MuxScheduler.BestIsUnbeaten | src/transfer/mux_send_scheduler.cpp:78-104 | the pick is never beaten by a channel with room that is as little loaded and as fast and better in one; a millisecond of average latency weighs as much as 16 KiB pending |
| MuxScheduler.LatencyStaysBetween | src/transfer/mux_send_scheduler.cpp:106-114 | the average of any number of sends stays between the fastest and the slowest of them |
| MuxScheduler.LatencyApproaches | src/transfer/mux_send_scheduler.cpp:106-114 | on a steady channel n sends leave 0.8 to the n of the distance between average and true latency |
| MuxScheduler.PickChannel | src/transfer/mux_send_scheduler.cpp:82-104 | the pick is a channel within both limits, of least cost, first in the turn order among equals; none is found exactly when none is within the limits |
| MuxScheduler.LaneAdvance | src/transfer/mux_send_scheduler.cpp:165-190 | taking, sending and accounting keep a channel FIFO and its pending bytes equal to queued plus in-flight bytes, so the guarded subtraction never saturates |
| MuxScheduler.LaneThrows | src/transfer/mux_send_scheduler.cpp:169-182 | a worker that fails keeps its lane in order and its bytes pending, whether or not its frame reached the wire before the exception |
| MuxScheduler.LaneEnd | src/transfer/mux_send_scheduler.cpp:193-199 | ChunkEnd goes out once, behind everything the channel was given |
| MuxScheduler.PendingMeansWork | src/transfer/mux_send_scheduler.cpp:34-41 | a blocked producer without an error implies that some worker still has an item queued or in hand |
| MuxScheduler.MuxSendScheduler.constructor | src/transfer/mux_send_scheduler.cpp:8-19 | a new scheduler is valid, without error, with empty queues and wires, nothing pending and a largest payload of 0 |
| MuxScheduler.MuxSendScheduler.TryEnqueue | src/transfer/mux_send_scheduler.cpp:30-48 | an item goes to the end of one channel with room, or the caller must wait with every channel over a limit and some worker busy, or the error is rethrown; pending bytes stay within the limits for the largest payload ever placed |
| MuxScheduler.MuxSendScheduler.BeginFinish | src/transfer/mux_send_scheduler.cpp:50-61 | announcing the end keeps the invariant |
| MuxScheduler.MuxSendScheduler.WorkerWake | src/transfer/mux_send_scheduler.cpp:155-167 | a woken worker stops on error, starts closing when finishing with an empty queue, or takes the front of its own queue |
| MuxScheduler.MuxSendScheduler.WorkerSend | src/transfer/mux_send_scheduler.cpp:169-182 | a delivered item is the next on its wire; a failing send sets the error, with the frame lost or already on the wire; other channels are untouched |
| MuxScheduler.MuxSendScheduler.WorkerAccount | src/transfer/mux_send_scheduler.cpp:184-190 | exactly the sent payload is subtracted, and only on this channel, whose average takes in the elapsed time |
| MuxScheduler.MuxSendScheduler.WorkerEnd | src/transfer/mux_send_scheduler.cpp:193-199 | ChunkEnd closes the wire, or its failure sets the error |
| MuxScheduler.MuxSendScheduler.AllSent | src/transfer/mux_send_scheduler.cpp:50-61 | when every worker has ended, each wire carries all items of its channel in order and then ChunkEnd |
| MuxRun.StepKeepsInv | src/transfer/mux_transfer.cpp:51-67 | every atomic step of producer, workers and readers keeps lane order, hand-over order, the log and the receiver in agreement |
| MuxRun.Delivered | src/transfer/mux_transfer.cpp:144-158 | in every interleaving, once FileEnd is read each chunk was delivered exactly once, the part file is the source, and `written` and the prefix are the declared size |
| MuxRun.NeverFails | src/transfer/mux_receive_session.cpp:44-57 | no reader fails, FileEnd is sent only after every ChunkEnd and read only after every reader joined, and a joined reader took exactly its channel's chunks |
| MuxRun.SomeoneMoves | src/transfer/mux_send_scheduler.cpp:30-48 | no deadlock: until FileEnd is read some thread can move, byte limits included |
| MuxRun.RunsAreBounded | src/transfer/mux_send_scheduler.cpp:154-200 | every run has an explicit bound on its number of steps |
| MuxRun.MaximalRunsDeliver | src/transfer/mux_transfer.cpp:144-158 | a run that cannot be extended has delivered the file |
| MuxRefinement.SamePending | src/transfer/mux_send_scheduler.cpp:72-76 | the scheduler's byte counters are the pending bytes of the run it is in |
| MuxRefinement.Begin | src/transfer/mux_send_scheduler.cpp:8-19 | a new scheduler is in the initial state of a run |
| MuxRefinement.Enqueue | src/transfer/mux_send_scheduler.cpp:30-48 | enqueue is the run's step on the channel it picks, and when it must wait no such step is enabled |
| MuxRefinement.Finish | src/transfer/mux_send_scheduler.cpp:50-61 | announcing the end is the run's step |
| MuxRefinement.Wake | src/transfer/mux_send_scheduler.cpp:155-167 | a woken worker with a non-empty queue makes the run's Take, otherwise it starts to close |
| MuxRefinement.SendOn | src/transfer/mux_send_scheduler.cpp:169-182 | a successful send is the run's Send |
| MuxRefinement.AccountOn | src/transfer/mux_send_scheduler.cpp:184-190 | the accounting section is the run's Account |
| MuxRefinement.CloseOn | src/transfer/mux_send_scheduler.cpp:193-199 | sending ChunkEnd is the run's Close |
| MuxRefinement.OtherStepsKeepLanes | src/transfer/mux_receive_session.cpp:59-114 | what the readers and the file end do leaves the scheduler in agreement with the run |
| Decimal.DecimalRoundTrip | src/core/common.cpp:235-245 | decimal text denotes the number it was printed from |
| Decimal.ParseU64Strict | src/core/common.cpp:235-245 | accepts exactly the non-empty digit strings with value at most 2^64-1 and returns that value; the overflow test never wraps |
| Csv.SplitCsv | src/core/common.cpp:247-258 | the loop collects the non-empty stretches between commas |
| Csv.JoinCsv | src/core/common.cpp:260-267 | the loop puts one comma between neighbours |
| Csv.RoundTripExactly | src/core/common.cpp:247-267 | splitting undoes joining if and only if every value is non-empty and free of commas |
| RelayCodec.HelloRoundTrip | src/relay/relay_protocol.cpp:42-93 | an encodable registration decodes to its normal form if and only if its candidates are non-empty and comma-free |
| RelayCodec.DecodedSurvives | src/relay/relay_protocol.cpp:69-93 | whatever the decoder accepts is kept exactly by encoding and decoding it again |
| RelayCodec.DecodeAcceptsExactly | src/relay/relay_protocol.cpp:69-93 | a message is a registration if and only if it has a room, one of the two roles, numeric fields that fit, ports up to 65535 and 1 to 32 connections |
| RelayCodec.DecodedAuxiliary | src/relay/relay_protocol.cpp:69-93 | every accepted registration names a room, and is auxiliary exactly when it says so or is for an extra channel |
| NoteProtocol.StampTransitive | src/note/note_protocol.cpp:122-138 | the comparison of revision, writer, timestamp and text is transitive |
| NoteProtocol.StampAntisymmetric | src/note/note_protocol.cpp:122-138 | two versions below each other are the same version |
| NoteProtocol.StampTotal | src/note/note_protocol.cpp:122-138 | any two versions are comparable |
| NoteProtocol.ApplyTakesMaximum | src/note/note_protocol.cpp:122-138 | applying an edit leaves the greater of edit and document, and reports a change exactly when the edit is strictly greater; an applied clear empties the text, a rejected edit changes nothing |
| NoteProtocol.ApplyOrderIrrelevant | src/note/note_protocol.cpp:122-138 | two edits applied in either order end with the same version |
| NoteWorkspaces.FindFreeNumber | src/note/note_workspace.cpp:46-53 | finds the first pad number from the counter on whose name is free |
| NoteWorkspaces.NoteWorkspace.Update | src/note/note_workspace.cpp:32-37 | succeeds exactly for texts within the limit; then the pad's version is the maximum of the edit at its next revision and what it was, no other version changes, and only that pad's local revision moves |
| NoteWorkspaces.NoteWorkspace.ClearPad | src/note/note_workspace.cpp:39-44 | a local edit of the active pad with empty text: next revision, maximum taken on that pad, nothing else touched |
| NoteWorkspaces.NoteWorkspace.Create | src/note/note_workspace.cpp:46-60 | adds one empty document at its first revision under the first free number, makes it active and announces it; the other documents stay as they are |
| NoteWorkspaces.NoteWorkspace.Remote | src/note/note_workspace.cpp:70-75 | every pad's version becomes the maximum of itself and the edit, only on the edit's pad, and a change is reported exactly when the edit is strictly above it |
| NoteWorkspaces.NoteWorkspace.AcknowledgeRevision | src/note/note_workspace.cpp:77-83 | acknowledged revisions never go down, the frame's pad reaches at least the frame's revision, and every value is an old one or the frame's |
| NoteWorkspaces.NoteWorkspace.IsSynced | src/note/note_workspace.cpp:135-141 | the scan answers whether every locally edited pad is acknowledged up to its local revision |
| NoteWorkspaces.UpdateIsLocalEdit | src/note/note_workspace.cpp:117-121 | a local update is an edit at the next revision that takes the maximum on its pad and becomes its local revision |
| NoteWorkspaces.RemoteTakesMaximum | src/note/note_workspace.cpp:70-75 | a remote edit takes the maximum on its pad, creating it if needed, and is nobody's local edit |
| NoteWorkspaces.TitlesFollowArrival | src/note/note_workspace.cpp:70-75 | titles are not part of the edit order: two edits of a pad taken in either order leave the same title if and only if they do not name two different ones |
| NoteOutboxes.QueueKeepsBounds | src/note/note_session.cpp:128-171 | queueing keeps the byte counter exact, the limits, and at most one edit and one acknowledgement per pad |
| NoteOutboxes.TakeKeepsBounds | src/note/note_session.cpp:210-223 | taking a frame subtracts exactly its size and keeps the bounds |
| NoteOutboxes.AcceptsExactly | src/note/note_session.cpp:128-171 | a frame is accepted if and only if a newer one of its kind and pad is already waiting or the outbox with it in place is within both limits; a refusal stops the session and drops nothing |
| NoteOutboxes.NoteOutbox.Queue | src/note/note_session.cpp:128-171 | the outbox afterwards is that of the queueing rule and keeps its bounds: counter exact, limits kept, at most one edit and one acknowledgement per pad |
| NoteOutboxes.NoteOutbox.Take | src/note/note_session.cpp:210-223 | hands out the oldest frame and leaves the rest in order |
| NoteSync.CarrierSurvives | src/note/note_session.cpp:134-145 | coalescing never loses the frame that carries a pad's current version |
| NoteAcks.Survivor | src/note/note_session.cpp:134-145 | coalescing drops a frame, edit or acknowledgement, only for one of the same kind and pad that is not older |
| NoteSync.StepKeepsInv | src/note/note_session.cpp:90-117 | every edit, queue, send, receive and stop, by either side, keeps the two-sided invariant |
| NoteSync.Convergence | src/note/note_protocol.cpp:122-138 | in every run, once nothing is in transit both sides hold the same version of every pad, it is at or above every edit made, and it is one of them |
| NoteSynced.FreshEditReadsAcked | src/note/note_workspace.cpp:117-121 | in every reachable state a local edit just made reads as acknowledged if and only if its pad was acknowledged before and its revision counter was exhausted |
| NoteSynced.ReadsAckedMeans | src/note/note_workspace.cpp:135-141 | in every reachable state a pad that reads as acknowledged has all its local edits at the peer while its local revision is not 0, and at 0 it reads so exactly when anything was ever acknowledged |
| NoteSynced.SyncedBelowLastRevision | src/note/note_workspace.cpp:135-141 | in every run whose edits had a revision left, `synced` means that every local edit ever made is at or below the peer's version, with any frames and acknowledgements under way |
| NoteSynced.SyncedPastLastRevision | src/note/note_workspace.cpp:32-37 | a run of ordinary edits past the last revision that ends with the indicator on while the peer lacks a local edit |
| NoteAcks.StepKeepsAccounted | src/note/note_session.cpp:90-117 | in every step of either side each local revision stays acknowledged, or its edit is under way, or an acknowledgement that covers it is under way back |
| NoteAcks.QuietMeansSynced | src/note/note_workspace.cpp:135-141 | the converse of the indicator's promise: in every run, whatever was coalesced in either direction, once nothing is in transit both sides read as synced |
| RelayRouteState.MergedChoice | src/relay/relay_route_state.cpp:21-26 | the merged choice is the first decisive event, else Standby, else Waiting |
| RelayRouteState.ChoiceAfterMerges | src/relay/relay_server.cpp:55-75 | the running choices of the polling loop are the merge of everything read so far |
| RelayRouteState.WaitRouteDecision | src/relay/relay_server.cpp:50-76 | the loop decides once: cancelled, or settled by its last round and by none before, or by the deadline rule |
| RelayRouteState.DecisionTable | src/relay/relay_route_state.cpp:28-51 | exactly when each decision is taken, and that the two peers play the same part |
| RouteCommit.StepKeepsInv | src/connect/route_session.cpp:186-308 | every step of either peer or the relay keeps the invariant of the three-party system |
| RouteCommit.SelectionsAgree | src/connect/route_session.cpp:186-308 | a peer that selected a route selected the one the relay committed to; two selections are the same path |
| RouteCommit.DirectNeedsBoth | src/relay/relay_server.cpp:357-362 | direct is committed, hence selected, only after both peers sent direct_ok and the relay read both |
| RouteCommit.DirectNeedsConnection | src/connect/route_session.cpp:186-241 | over every run a peer sends direct_ok, waits for the direct verdict or selects the direct path only if its own probe ended with a direct connection |
| RouteCommit.RelayReadyNeedsFailure | src/connect/route_session.cpp:186-241 | over every run a peer sends relay_ready only if it skipped the probe or its probe failed |
| RouteCommit.DirectNeedsBothConnections | src/connect/route_session.cpp:186-241 | over every run, a peer selects the direct path only if the probes of both peers ended with a direct connection |
| RouteCommit.NoDirectStartToAProber | src/relay/relay_server.cpp:357-362 | direct_start is never sent to a peer that is probing, awaits the relay or sent relay_ready |
| RouteCommit.ChoiceIsFirstDecisive | src/relay/relay_server.cpp:55-75 | in every reachable state a recorded choice is the first decisive event among the frames that peer sent and the relay read |
| RouteCommit.UnreadAtRelayCommit | src/relay/relay_server.cpp:364-370 | when the relay commits to relaying at most one control frame per peer is unread, and only from a peer recorded as Standby |
| RouteCommit.CommitIsObeyed | src/connect/route_session.cpp:253-307 | a peer that reads the relay's verdict before giving up selects exactly the committed path, or fails when there is none |
| RouteSettles.DecidesExactly | src/relay/relay_server.cpp:50-76 | exactly when the relay commits to direct, to relaying, rejects or reads on, between polls and at the deadline, in terms of what it has read |
| RouteSettles.CancelIsFinal | src/relay/relay_server.cpp:50-76 | after a cancellation no peer ever selects a path, in any continuation |
| RouteSettles.WaitingPeersSettle | src/relay/relay_server.cpp:355-370 | no deadlock: from every reachable state between two polling rounds with both peers waiting on sound connections a run leads both to a selection, direct if and only if both reported a connection and otherwise the relay, which bridges them |
| RouteSettles.BridgeConserves | src/relay/relay_server.cpp:364-370 | forwarding a frame loses, repeats and reorders nothing |
| RelayRooms.BaseOfKey | src/relay/relay_room_state.cpp:32-36 | the claim a registration competes for depends only on its room name up to the first '#' |
| RelayRooms.MatchKeyInjective | src/relay/relay_server.cpp:323-324 | equal match keys mean the same room and the same channel, whatever characters the room name has |
| RelayRooms.RelayRoomState.Pair | src/relay/relay_room_state.cpp:40-80 | exactly when a registration is matched, waits, meets a full table or a full room, from the old table alone, auxiliary channels being exempt from the active-room test; a match joins opposite roles and claims the room only for a primary channel; no other key is touched |
| RelayRooms.RelayRoomState.ReleaseActiveRoom | src/relay/relay_room_state.cpp:82-85 | removes exactly that claim |
| RelayRooms.RelayRoomState.CloseWaiting | src/relay/relay_room_state.cpp:87-97 | empties the table and returns everyone who waited |
| RelayRooms.RelayRoomState.PurgeStaleWaiting | src/relay/relay_room_state.cpp:99-123 | keeps exactly the entries within the time limit whose connection has neither hung up nor gone, and closes exactly the others that are still open |
| RelayRoomRuns.PairingOverEveryRun | src/relay/relay_room_state.cpp:40-122 | waiting never exceeds the limit, matches join opposite roles on one channel of one room, every registered peer is in exactly one place, and a room has at most one primary claim |
| RelayRoomRuns.MovedSits | src/relay/relay_room_state.cpp:70-122 | each step moves every peer to one definite place, and leaves the others where they are |
| RelayRoomRuns.AuxiliaryChannelsJoin | src/relay/relay_room_state.cpp:40-80 | whatever rooms are active, the two ends of any number of auxiliary channels, registered one after the other with free keys and room in the table, are joined without claiming a room |
| RelayRoomRuns.TransferConnects | src/connect/peer_route_session.cpp:81-105 | a parallel transfer gets all its channels: its primary ends meet and claim the room, then every auxiliary channel of that now active room connects, and nobody is refused |
| RelayRoomRuns.ActiveRoomsAreClear | src/relay/relay_server.cpp:323-353 | no primary peer ever waits for an active room if and only if the room names have different bases or fewer than two may wait |
| RelayRoomRuns.SharedBaseBlocks | src/relay/relay_room_state.cpp:32-80 | for any two room names with one base, a run that leaves a primary peer waiting in an active room |
| RelayRoomRuns.PlainNamesDiffer | src/relay/relay_room_state.cpp:32-36 | room names without '#' always have different bases |
| TextOrder.PrefixInterval | src/transfer/receive_plan.cpp:48-53 | in string order the texts with a prefix are an interval that starts at the prefix |
| TargetKeys.ParentKeys | src/transfer/receive_plan.cpp:29-31 | the key test decides exactly the proper-ancestor relation on paths |
| TargetKeys.KeyInjective | src/transfer/receive_plan.cpp:18-27 | equal keys are equal paths |
| TargetKeys.TargetKeyIsKey | src/transfer/receive_plan.cpp:18-27 | folding a key is the key of the path with folded components |
| TargetKeys.LowerExactly | src/transfer/receive_plan.cpp:18-27 | folding identifies exactly the texts that differ in the case of ASCII letters only |
| TargetKeys.LowerBoundSuffices | src/transfer/receive_plan.cpp:48-53 | looking only at the first key not below `key + "/"` finds a descendant if and only if there is one |
| TargetKeys.LowerBound | src/transfer/receive_plan.cpp:49 | returns the least key not below the bound, or none if all are below |
| ReceivePlans.PlanCollisionError | src/transfer/receive_plan.cpp:33-55 | no error exactly when the target is new, has no planned file above it and, if a file, no planned target below it |
| ReceivePlans.FreeMeansClear | src/transfer/receive_plan.cpp:33-55 | looking keys up in the two reserved sets is as good as comparing the path with every reserved target |
| ReceivePlans.FoldedIsStricter | src/transfer/receive_plan.cpp:217-241 | targets that are apart when case is ignored are apart anyway |
| ReceivePlans.ReserveTarget | src/transfer/receive_plan.cpp:217-241 | asking the filesystem about case only on a folded collision accepts exactly what knowing it beforehand would |
| ReceivePlans.AddGrowthFits | src/transfer/receive_plan.cpp:243-253 | one round keeps the running peak the least bound of the extra bytes at every moment, saturation included |
| ReceivePlans.PeakUnique | src/transfer/receive_plan.cpp:243-253 | there is only one such peak |
| ReceivePlans.PeakOnDisk | src/transfer/receive_plan.cpp:243-253 | the peak is exactly the most the transfer ever takes on disk: parts grow from where they resume, a finished part replaces an overwritten target, a renamed file is added to what is there |
| ReceivePlans.PlannedApart | src/transfer/receive_plan.cpp:217-241 | the collision test of the plan is the pairwise comparison of the targets of all entries that are not skipped, at the name the policy gives them |
| ReceivePlans.NothingOverwritten | src/transfer/receive_plan.cpp:175-204 | unless the policy is to overwrite, no received file or link has a target that exists; what does not exist yet is received at its own target under any policy |
| ReceivePlans.PreflightTransferManifest | src/transfer/receive_plan.cpp:141-264 | accepts exactly the manifests with well-formed distinct entries, the declared total, targets that can coexist and a disk peak that fits; in the plan exactly the existing non-directories are skipped under Skip and renamed under Rename, and everything else is written at its own target |
| FileSessions.HandshakeInLockstep | src/transfer/transfer_file_session.cpp:72-125 | for an honest pair and anything on the receiver's disk the handshake completes with matching actions and equal offsets, and with a collision-free digest the resumed part is the source prefix |
| FileSessions.RefusedExactly | src/transfer/receive_plan.cpp:158-174 | preflight refuses an entry nothing on disk blocks if and only if no sender lists such an entry |
| FileSessions.SkippedOnlyIfUnchanged | src/transfer/transfer_file_session.cpp:20-29 | a file the receiver asks to skip is skipped if and only if the source still has the announced size and hash, otherwise the sender gives up; no other file is skipped |
| FileSessions.AnswerIsSafe | src/transfer/transfer_file_session.cpp:85-119 | whatever is requested, the payload starts inside the source, at the requested offset or at 0, and not behind a prefix whose digest differs; exactly when the sender gives up |
| FileSessions.OpeningIsSafe | src/transfer/transfer_file_session.cpp:206-266 | whatever is acknowledged, the receiver skips only what it asked to skip and was granted, never turns a conflict skip into a transfer, and resumes a prefix of its own part no longer than declared |
| ReceiveStream.ReceiveFiles | src/transfer/transfer_stream.cpp:137-260 | the loop has the effect of its frames in order and reads nothing after it stopped |
| ReceiveStream.FrameStep | src/transfer/transfer_stream.cpp:167-260 | any frame keeps the recorded headers, the file in progress and the finished files in agreement |
| ReceiveStream.NeverBeyondDeclared | src/transfer/transfer_stream.cpp:204-227 | whatever data arrives, a part file never holds more than its header declared, not even when the transfer fails |
| ReceiveStream.FramesInOrder | src/transfer/transfer_stream.cpp:167-260 | every frame of a transfer that has not failed came where the grammar allows it: a manifest before any header, per file a header, its data and its end, then the end mark |
| ReceiveStream.AckMeansComplete | src/transfer/receive_plan.cpp:272-290 | for all frame sequences, an acknowledgement after a manifest means every entry had exactly one header of its kind, size and link target and was completed, and each payload file has its declared size and the digest its own FileEnd announced |
| StreamRoundTrip.PiecesAppend | src/transfer/transfer_stream.cpp:204-227 | data frames append their bytes whatever the cut, while within the declared size |
| StreamRoundTrip.PlanExpectsManifest | src/transfer/receive_plan.cpp:141-264 | the plan of an accepting preflight expects exactly the headers an honest sender sends |
| StreamRoundTrip.StreamDeliversEverything | src/transfer/transfer_stream.cpp:79-97 | with a collision-free digest an honest transfer ends acknowledged if and only if the receiver's preflight accepts; then every file arrived once and in order, every payload file equals its source, and a file skipped without a conflict policy is there already with the source's hash |
| WildMatch.CharacterClassMatches | src/transfer/gitignore.cpp:13-34 | the index loop decides membership in the listed characters and ranges, negation included, for signed and for unsigned plain char |
| WildMatch.Matcher.constructor | src/transfer/gitignore.cpp:36-38 | the flat table starts with every cell unknown |
| WildMatch.Matcher.Store | src/transfer/gitignore.cpp:77-78 | filling a cell keeps every filled cell equal to the plain recursion: distinct positions use distinct cells |
| WildMatch.Matcher.Match | src/transfer/gitignore.cpp:39-79 | the recursion with the table terminates and answers what the plain recursion answers |
| WildMatch.WildMatches | src/transfer/gitignore.cpp:36-82 | the matcher decides the plain recursion from the start of pattern and text |
| WildTokens.PatternMeans | src/transfer/gitignore.cpp:36-82 | a text matches if and only if it can be cut into stretches covered by the pattern's tokens in order |
| WildTokens.PlainPatternKeepsDepth | src/transfer/gitignore.cpp:56-68 | without a globstar a match has exactly as many slashes as the pattern: stars, '?' and classes never cross one |
| WildTokens.LeadingGlobstar | src/transfer/gitignore.cpp:45-55 | a globstar and slash before a pattern match exactly the texts some suffix of which the pattern matches |
| GitIgnores.MatchRule | src/transfer/gitignore.cpp:135-154 | a rule matches when it fits the path or a directory above it |
| GitIgnores.PathRuleDepth | src/transfer/gitignore.cpp:135-154 | a rule with a slash in front or inside and no globstar fits at exactly one depth, that of its own slashes |
| GitIgnores.NameRuleFloats | src/transfer/gitignore.cpp:135-154 | a rule without any slash matches a directory if and only if one component fits it, however deep |
| GitIgnores.DirectoryRule | src/transfer/gitignore.cpp:135-154 | a rule for directories matches a path that is not one if and only if it matches the directory holding it; for other rules that makes no difference |
| GitIgnores.IsIgnored | src/transfer/gitignore.cpp:188-194 | a path is ignored if and only if the last rule that applies is not negated |
| GitIgnores.BelowIgnoredDirectory | src/transfer/gitignore.cpp:188-194 | a path below an ignored directory is ignored if and only if no negated rule has the last word on it, and such a rule can only come after the one that ignored the directory |
| GitIgnores.IgnoredDirectoryCoversBelow | src/transfer/gitignore.cpp:188-194 | when no rule after one that ignores a directory is negated, everything below is ignored, whatever came before |
| GitIgnores.NegationReachesBelow | src/transfer/gitignore.cpp:188-194 | two rules for which a negated one does have the last word below an ignored directory |
| Framing.FirstFrameUnique | src/core/protocol.cpp:64-70 | a stream starts with at most one frame, so framing cannot be read in two ways |
| Framing.HeaderParses | src/core/protocol.cpp:21-34 | the header of a sent frame reads back as its magic, length and payload |
| Framing.HeaderMeansFrame | src/core/protocol.cpp:21-34 | conversely a good header followed by enough bytes is a sent frame |
| Framing.TcpSocket.RecvSomeTimeout | src/core/socket.cpp:269-314 | returns a non-empty front of the stream or takes nothing |
| Framing.TcpSocket.RecvExactTimeout | src/core/socket.cpp:316-331 | collects exactly the bytes asked for over any splitting, or fails |
| Framing.TcpSocket.RecvRemaining | src/core/protocol.cpp:83-94 | a partial read closes the socket |
| Framing.TcpSocket.RecvFrameTimeout | src/core/protocol.cpp:77-107 | a normal return is a whole frame, a closed socket, or an untouched stream: never an open socket in mid-frame; a frame that is there and uninterrupted is returned |
| Framing.ReceiveFrames | src/core/protocol.cpp:77-107 | repeated reads of a stream of sent frames, in any pieces with any pauses, yield the first frames sent, in order, and stand at the next one |
| WebUploads.ReservedFrom | src/web/web_upload.cpp:67-76 | the sum of remaining bytes does not depend on the order of the uploads |
| WebUploads.StagingOverEveryRun | src/web/web_upload.cpp:101-215 | over every run staged files begin with their accepted chunks within the declared size and finished ones are exactly them; while failed appends are undone every staged file is exactly its accepted chunks, of size `received`, and reservations fit the usable space |
| WebUploads.StartsExactly | src/web/web_upload.cpp:92-144 | an upload is admitted if and only if there is a place among the uploads not idle too long and the disk has room for it, for what they still expect and for the reserve |
| WebUploads.UploadDelivers | src/web/web_upload.cpp:92-215 | an admitted upload sent in order, however the file is cut, is complete and holds exactly the file |
| WebUploads.ActiveUploadStays | src/web/web_upload.cpp:56-66 | whatever else happens within its idle time, an upload nobody gives up stays, with all its accepted chunks |
| WebUploads.TouchedExactly | src/web/web_upload.cpp:217-229 | looking up a finished upload renews it and drops exactly the idle ones |
| WebUploads.LeftBehindIsInexact | src/web/web_upload.cpp:181-193 | an attempted append leaves its file exact if and only if no bytes are left behind |
| WebUploads.LeftBehindNeedsSlack | src/web/web_upload.cpp:181-193 | bytes left behind keep the reservation if and only if they fit its slack |
| WebUploads.LeftBehindBreaks | src/web/web_upload.cpp:181-193 | one byte left behind on a full reservation breaks it |
| WebUploads.StartKeepsReservation | src/web/web_upload.cpp:101-122 | a new upload is only admitted with its whole size still reservable |
| WebUploads.AppendKeepsReservation | src/web/web_upload.cpp:146-197 | an accepted chunk uses up as much reservation as space |
| WebUploads.WebUploadStore.ReservedRemainingBytes | src/web/web_upload.cpp:67-76 | computes the sum of remaining bytes, saturating at 2^64-1 |
| WebUploads.WebUploadStore.Start | src/web/web_upload.cpp:92-144 | purges, then admits an upload exactly when the limit and the space test allow |
| WebUploads.WebUploadStore.Append | src/web/web_upload.cpp:146-197 | exactly when a chunk is accepted: at most 768 KiB, at the confirmed offset of an unfinished upload, within its declared size, and written; it then extends this upload by exactly itself, and a refused or undone one changes nothing |
| WebUploads.WebUploadStore.Finish | src/web/web_upload.cpp:199-214 | hands out exactly the accepted chunks, of exactly the declared size |
| Hkdf.FillKeyBlock | src/core/crypto.cpp:69-78 | the key block is the key, or its hash when longer, filled up with zeros |
| Hkdf.HmacSha256 | src/core/crypto.cpp:66-102 | the in-place pads compute the HMAC of section 2 of RFC 2104 |
| Hkdf.HkdfSha256 | src/core/crypto.cpp:104-136 | the loop produces the output of section 2.3 of RFC 5869 up to 255 blocks, and the wrapping 8-bit counter takes the values 1, 2, ... without repetition |
| Hkdf.ShorterIsPrefix | src/core/crypto.cpp:119-132 | a shorter output is a prefix of a longer one |

## Left out

- Sockets, polling, clocks, TLS, proxies, STUN, hole punching, LAN discovery, command line and user interfaces: they are input and output around the modelled cores.
- SHA-256, imohash, zstd, XChaCha20 and the pairing protocol are uninterpreted. In the single-stream model data frames carry bytes after decompression; in the parallel one a codec is assumed to undo itself per chunk.
- JSON text: a control message is a type and a map of fields. In `RelayCodec` reserved field names are a datatype, other names are text.
- `wait_for_peer_candidates` in `src/relay/relay_race.cpp`: mostly polling.
- `decode_relay_peer_info` and its encoder: the same pattern as the hello codec with fewer cases.
- Exact time: the deadline of `wait_route_decision`, the confirmation timeout of a peer and read timeouts may strike at any step; agreement on `allow_lan_upgrade` and freedom of the relayed stream from stale control frames are not claimed, since a Standby peer may have a decisive frame in flight when the relay commits.
- Concurrent objects are modelled one critical section per method; the thread that runs them is a choice of step, not a loop. A reader's `written` update is joined to its locked section, since nothing reads it in between.
- The scheduler's latency average and channel cost are over real numbers, not floating point.
- `SendFileSession` and `ReceiveFileSession` constructors are functions of the messages exchanged, not classes: each only runs once and its fields do not change afterwards except by the chunk loop, which `MuxResume.CutChunks` models.
- `race_transfer_route` is a state machine over its blocking points rather than a method.
- Paths are taken after lexical normalisation, as component lists; `safe_join`, symlink checks and directory creation appear only as a refusal bit of an entry.
- `add_line` and `load_gitignore_stack`: parsing of rule lines and collection of rule files.
- Note titles: a title is overwritten even when the edit is rejected, so convergence is about revision, writer, timestamp and text only; `NoteWorkspaces.TitlesFollowArrival` says exactly when titles agree.
- A queued note frame's size is some fixed function of the frame, not string capacity.
- The exception `recv_frame_timeout` throws for bad magic, an oversized length or a receive error leaves the socket open in mid-frame; the claim is about normal returns.
- NoteSynced.SyncedBelowLastRevision: says nothing about runs that edit a pad whose revision counter is exhausted; what the indicator then means is ReadsAckedMeans.
- WebUploads.StagingOverEveryRun: the reservation part assumes that other programs do not use up the disk.
- RouteCommit.CommitIsObeyed: a peer may still give up before it reads the verdict, so not every run ends with both peers selecting; RouteSettles.WaitingPeersSettle says that one always can.
- Buffered output: a write that returned is taken to be in the part file. In the source the end of the last chunks may sit in the stream buffer; the flush before trimming is not checked, and if it fails `resize_file` extends the file with zeros. With a collision-free digest the next attempt resumes such a part only if it still is a prefix of the source (`MuxResume.AcceptedMeansPrefix`), and otherwise starts over.
- MuxRun.Delivered: one file without transport faults; faults are the subject of `MuxResume`.
