# Verified models of Gazette

Gazette is a distributed journal, with a framework of stateful stream consumers on top of it. This project models
the parts of it whose correctness depends on several functions, or on whole runs, and proves what they promise.

- **Recovery log** (`Segments`, `Fsm`, `Hints`, `History`, `Playback`, `RoundTrip`, `GapExample`, `Player`,
  `Annotations`, `Recorder`, `Recovery`, `RecorderExamples`, `RecorderWorld`, `Handoffs`, `EndToEnd`, `Fencing`,
  `Pruning`, `LaterHints`, `PruneExample`). A Recorder turns file operations into sequenced ops, chained by checksum. An
  FSM accepts just ops which extend its chain. Hints compress an FSM into its live Fnodes and the log Segments which
  touched them. A Player with hints skips what is dead in the log, and must rebuild the same files; then it may take
  over as a Recorder. The main results: hints of any history of one author play back to the state of that history
  (`RoundTrip.SingleAuthorRoundTrip`); hints built at any point of a run, in which Recorders recover and take over from
  one another, recover exactly the observed file system at its end, if a player can tell branches apart by them and
  their gaps are harmless (`EndToEnd.HintsRecoverFileSystem`); all readers of a log accept one chain, and an accepted
  hand-off fences other writers (`Fencing.HandoffFencesWriters`); a log recovers the same if it's pruned
  (`Pruning.PrunedLogRecovers`), and under later hints, too, just if these need nothing that was lost
  (`LaterHints.LaterHintsRecoverIff`, `LaterHints.HandoffRecoversIff`).
- **Allocator** (`ZoneScaling`, `FlowNetwork`, `Network`, `SinkCapacity`, `Flow`, `FlowChoices`, `LeftJoin`,
  `AllocatorKeys`, `ItemPlan`, `ItemOps`, `ItemState`, `DeadAssignments`, `Converge`, `Goal`, `BatchedTxn`, `Allocate`). Items are
  assigned to Members by a flow network, and current Assignments are converged to the desired ones by checkpointed
  transactions. The main results: any feasible flow over the network extracts to sound and ordered Assignments
  (`Flow.ExtractAll` and the lemmas beside it), and the Assignments which some feasible flow extracts to are exactly
  those within slots and limits which are spread over zones (`FlowChoices.AllocationIff`); the Assignments are safe
  after every prefix of a round's checkpoints (`Converge.Converge`), and so is what Etcd holds, whichever transaction
  fails, with every operation guarded by comparisons of its own transaction (`Allocate.AllocateRound`); and repeated
  rounds reach the goal (`Goal.ReachGoal`).
- **Two-phase commit of the journal broker** (`Replication`, `Broker`). A broker replicates appends to all replicas
  of a journal, with failures and lost replies at any point. The main result: replicas never commit different bytes at
  one offset, and each append which is reported as a success is committed by every replica, at its own offset below
  the write head which was returned; and a refusal by replicas which are ahead is repaired, so that the next append which
  meets no failure is a success (`Broker.JournalBroker.Serve`).
- **Pipelined replication** (`Pipeline`, `PipelineWork`). The send and receive sides of a replication stream are
  handed from one append to the next. The main results: every task gathers the responses to its own request
  (`Pipeline.ResponsesMatchRequests`), there is no deadlock (`Pipeline.PipelineMakesProgress`), and every task finishes
  within a number of steps which is bounded by what callers ask for (`PipelineWork.RunIsBounded`,
  `PipelineWork.AllFinish`).
- **Fixed framing** (`Framing`). The main result: frames are recovered exactly, past garbage, however the reader's
  buffer is filled (`Framing.FramesAreRecovered`).

Code of the original which updates state step by step is modelled by classes and methods, each proved against a
specification. Where the specification is a function (`Fsm.Apply`, `Recorder.RenameFile`, `ItemPlan.Outcome`), lemmas
about all runs are proved of that function. Concurrent protocols are state machines over the steps of their tasks.

Conventions: a checksum is the chain of frames it was updated with, which is collision-free by construction. Names
which the original compares as strings (authors, Members, zones, suffixes) are numbers which stand for their rank in
order, but for `AllocatorKeys`, where the order of encoded keys is what's proved. Failures of disks, networks and
peers, the timing and size of reads, and orderings by load ratio are parameters, over all values of which the
theorems hold.

Eight promises of the code do not hold as stated. Each has a lemma which gives an input, and one with the exact
condition:

- Hints of a history with several authors may play back to a different state. `GapExample.GapHidesUnlink` is a
  history of two authors where an unlink falls in a gap between hinted Segments, past the last hinted create. Its file
  is then recovered although it was deleted. Skipping an op goes unnoticed if and only if the op doesn't link or unlink
  a Fnode which isn't hinted but was created by a hinted op (`Playback.SkipKeepsMirrorIff`). `RoundTrip.HintRoundTrip`
  holds where no gap has such an op, as is the case for all histories of one author.
- A log which was pruned under older hints may not recover under later ones. In `PruneExample.PruneBreaksLaterHints`
  the author of the hints goes on to write a hinted file, which stretches its Segment over pruned ops. In
  `PruneExample.PruneBreaksAfterHandoff` a new author took over when the older hints were written, as it does after
  recovery, and deletes the last hinted file: the later hints then end before ops which were pruned. Later hints recover
  if and only if all lost ops are dead to them (`LaterHints.LaterHintsRecoverIff`); and where a new author took over, if
  and only if they reach past every lost op (`LaterHints.HandoffRecoversIff`).
- The Recorder disagrees with POSIX when a path is renamed to another link of the same inode
  (`RecorderExamples.RenameDisagrees`), and just then (`Recovery.RenameAgrees`).
- The Recorder refuses, by a panic, to rename a file to its own path, unless the file has another link. It accepts all
  other renames of a tracked file, but for those to a property of other content (`Recorder.RenameFileIff`, if and only
  if, and `RecorderExamples.RenameToItself`).
- The Recorder disagrees with POSIX when a file is appended to through another link of a property
  (`RecorderExamples.AppendDisagrees`), and just then (`Recovery.AppendAgrees`).
- A SegmentSet doesn't refuse every Segment with offsets which conflict with an entry (`Segments.ConflictIsMissed`). It
  refuses those which contradict an entry in author or checksum; and of offsets out of order, those which merging
  wouldn't drop (`Segments.AddFailsIff`, if and only if).
- A Spool which is asked to commit more bytes than were written refuses, but keeps those bytes pending
  (`Replication.CommitKeepsReplicaIff`, if and only if). The next transaction then commits them in front of its own
  (`Replication.StaleBytesAreCommitted`, and `Replication.StaleByteExample`). The Broker never asks for that.
- Unmarshal of a frame faults if the frame is a proper prefix of the magic word, and Unpack may return such a frame
  (`Framing.FaultsJustIf`, if and only if, and `Framing.StrayByteFaults`).

## Model

| member | source | states |
|---|---|---|
| Segments.SegmentSet.Add | pkg/recoverylog/segment.go:37-79 | Fails and changes nothing, or leaves the set which the specification splices: overlapping neighbours of the same author reduced into one. It fails if and only if the Segment is invalid or an entry refuses it; always if an entry contradicts its authors or checksum, and never without a conflicting entry |
| Segments.SegmentSet.AbsorbFollowing | pkg/recoverylog/segment.go:58-69 | The loop reduces the added Segment with following ones until one is not reducible, or is inconsistent |
| Segments.SegmentSet.Intersect | pkg/recoverylog/segment.go:83-102 | Returns exactly the Segments which overlap an offset range, in order |
| Segments.ReduceMeaning | pkg/recoverylog/segment.go:107-175 | Segments reduce just if they overlap or adjoin and are of one author, to exactly their joint SeqNos, with the tightest offsets of the two and the checksum of the first; and if they do not, the first precedes the other in SeqNos and offsets |
| Segments.AddPreservesInvariants | pkg/recoverylog/segment.go:25-79 | A successful Add covers exactly the union of SeqNos, keeps each SeqNo's author, and keeps SeqNos apart, FirstOffsets monotone, and LastOffsets monotone with zeros only as a suffix |
| Segments.InconsistentIff | pkg/recoverylog/segment.go:130-158 | Reduction of two Segments is an error if and only if they conflict: in author, in checksum, or in the order of offsets |
| Segments.AddFailsIff | pkg/recoverylog/segment.go:37-79 | Add fails if and only if the Segment is invalid; or if the entry before conflicts with it; or if one behind contradicts it, or has offsets out of order which merging the Segment doesn't drop |
| Segments.AddRefusesConflicts | pkg/recoverylog/segment.go:37-79 | Add succeeds only if no entry contradicts the Segment, and fails only if one conflicts with it |
| Segments.ConflictIsMissed | pkg/recoverylog/segment.go:37-79 | A Segment which is added although it ends below the end of an earlier entry |
| Segments.AddAllMeaning | pkg/recoverylog/segment.go:37-79 | The same of any sequence of Adds |
| Segments.CoverageDeterminesKeys | pkg/recoverylog/segment.go:37-79 | Sets which cover the same SeqNos by the same authors have the same (author, first, last) entries: they are the maximal runs |
| Segments.AddOrderIrrelevant | pkg/recoverylog/segment.go:37-79 | Any two orders of adding the same Segments which both succeed end in the same entries |
| Segments.OverlappingIsSlice | pkg/recoverylog/segment.go:83-102 | Segments which overlap a range are contiguous, so the two bounds of Intersect's scan select all of them |
| Fsm.FSM.ApplyOp | pkg/recoverylog/fsm.go:140-189 | The FSM's fields after Apply are those of the specification, also on an error |
| Fsm.FSM.Step | pkg/recoverylog/fsm.go:175-187 | Steps SeqNo and checksum, and skips to the next hinted Segment |
| Fsm.FSM.DoCreate | pkg/recoverylog/fsm.go:191-215 | Creates track a new Fnode unless hints exclude it |
| Fsm.FSM.DoLink | pkg/recoverylog/fsm.go:217-233 | Links are added to a tracked Fnode |
| Fsm.FSM.DoUnlink | pkg/recoverylog/fsm.go:235-253 | The last unlink drops the Fnode |
| Fsm.FSM.DoWrite | pkg/recoverylog/fsm.go:255-263 | Writes extend the Fnode's Segments |
| Fsm.FSM.DoProperty | pkg/recoverylog/fsm.go:265-276 | Properties exclude links of the same path, and other contents |
| Fsm.ApplyKeepsInvariant | pkg/recoverylog/fsm.go:140-276 | Over all op sequences: Links and the link sets of Fnodes are mutual inverses, each live Fnode has a link, Links and Properties are disjoint, live Fnodes are below NextSeqNo, NextSeqNo increases on each transition even across hint skips, and rejected ops change nothing |
| Fsm.ApplyBodyKeepsInvariant | pkg/recoverylog/fsm.go:191-276 | The same of each handler |
| Fsm.ApplyWithoutHints | pkg/recoverylog/fsm.go:140-189 | Without hints, an op which transitions has the next SeqNo and checksum, and extends the chain by its frame |
| Hints.LiveLogSegments | pkg/recoverylog/fsm.go:78-97 | Flattens hints to ordered Fnodes and the set of all their Segments, or fails on invalid ones |
| Hints.NewFSM | pkg/recoverylog/fsm.go:100-130 | An FSM at the first hinted Segment, or a failure |
| Hints.InitialStateIsValid | pkg/recoverylog/fsm.go:100-130 | That FSM satisfies the FSM's invariant |
| Hints.BuildHints | pkg/recoverylog/fsm.go:279-298 | Hints hold each live Fnode with its Segments, in order, and each property |
| History.LiveNodeIsTracked | pkg/recoverylog/fsm.go:304-318 | In every history, the Segments of a live Fnode cover each op which touched it, and nothing which is not of the history |
| History.FaithfulAddAll | pkg/recoverylog/segment.go:37-79 | Sets of Segments taken from a history always reduce, to Segments of that history |
| RoundTrip.HintsAreAccepted | pkg/recoverylog/fsm.go:78-130 | Hints of any history of a run of authors are accepted by NewFSM |
| RoundTrip.HintsHoldCourse | pkg/recoverylog/fsm.go:78-97 | Their Segments hold the create of each hinted Fnode and every op which touches it |
| RoundTrip.HintRoundTrip | pkg/recoverylog/fsm.go:78-189 | Playback of hints over a log which carries the history, with foreign ops among it and dead ops missing, ends without hints in the state of the history: the same live Fnodes, Links, Properties, NextSeqNo and NextChecksum; for several authors, where no gap of the hinted Segments, after the last hinted create, links or unlinks a Fnode which a hinted op has created |
| Playback.SkipKeepsMirrorIff | pkg/recoverylog/fsm.go:140-189 | Skipping an op which hints leave out keeps the player in line with the history if and only if it does not link or unlink a tracked Fnode which is not hinted |
| RoundTrip.SingleAuthorLeavesNoGap | pkg/recoverylog/fsm.go:200-206 | Hints of a single author never leave such a gap |
| RoundTrip.SingleAuthorRoundTrip | pkg/recoverylog/fsm.go:78-298 | The hint round trip for every history of a single author, whenever the hints were built |
| GapExample.GapHidesUnlink | pkg/recoverylog/fsm.go:200-206 | Two authors, hints and a log for which playback ends with a path that was deleted |
| Player.LogPlayer.PlayOperation | pkg/recoverylog/playback.go:478-504 | Applies the next op to the FSM, and re-enacts it on files, or skips its payload |
| Player.LogPlayer.MakeLive | pkg/recoverylog/playback.go:580-632 | Links every live file to all its paths, and writes properties, without a panic |
| Player.StepKeepsFiles | pkg/recoverylog/playback.go:443-546 | After each op of any log, files are exactly the FSM's live Fnodes, and no create, unlink or write on a file fails |
| Player.PlayLogKeepsFiles | pkg/recoverylog/playback.go:443-546 | The same of any log |
| Player.FilesRoundTrip | pkg/recoverylog/playback.go:443-632 | Files after hinted playback hold the content that the history wrote, so the directory is that of the history |
| Annotations.SameHistory | pkg/recoverylog/fsm.go:140-276 | Histories of the same ops, whatever is known of their offsets, end in the same state but for offsets, and in the same directory |
| Annotations.AgreesIsExact | pkg/recoverylog/fsm.go:304-318 | A player which tracks offsets as they are in the log has exactly the state of the history, its Segments included |
| Recorder.LogRecorder.ProcessOp | pkg/recoverylog/recorder.go:208-224 | Sequences an op, applies it, and appends its frame to the log |
| Recorder.LogRecorder.NewFile | pkg/recoverylog/recorder.go:78-103 | Replaces a previous link of the path by a created Fnode. It is accepted for every path but that of a property |
| Recorder.LogRecorder.Delete | pkg/recoverylog/recorder.go:106-122 | Unlinks a path, and is accepted just for tracked ones |
| Recorder.LogRecorder.LinkTo | pkg/recoverylog/recorder.go:128-145 | Links a further path, and is accepted just for a tracked source and a target which is neither tracked nor a property |
| Recorder.LogRecorder.Rename | pkg/recoverylog/recorder.go:148-184 | Unlinks the target, links it, and unlinks the source; or records a property. It is accepted for just those renames of a tracked file which `Recorder.RenameFileIff` names |
| Recorder.FileRecorder.Append | pkg/recoverylog/recorder.go:244-256 | Records a write at the file's offset, and advances it; it is accepted just for as long as the file is linked |
| Recorder.LogRecorder.UpdateWriteHead | pkg/recoverylog/recorder.go:297-315 | The write head is that of a completed append; it moves only forward, never past the end of the log, and the next pending append is tracked just if the last one completed |
| Recorder.ProcessRecords | pkg/recoverylog/recorder.go:208-224 | What a Recorder writes is a history of its own author: each op extends the chain of those before it |
| Recorder.ProcessIff | pkg/recoverylog/recorder.go:208-224 | The FSM accepts an op of the Recorder just if its path is free, its Fnode is live or its link exists, and a property doesn't change |
| Recorder.RecordingIsApart | pkg/recoverylog/recorder.go:20-25 | Tracked links and properties never share a path |
| Recorder.NewWritableFileIff | pkg/recoverylog/recorder.go:78-103 | A file can be created at every path but that of a property, whether or not it exists |
| Recorder.DeleteFileIff | pkg/recoverylog/recorder.go:106-122 | Just tracked files can be deleted |
| Recorder.LinkFileIff | pkg/recoverylog/recorder.go:128-145 | Just tracked files can be linked, to just those paths which aren't taken and aren't properties |
| Recorder.RenameFileIff | pkg/recoverylog/recorder.go:148-184 | A tracked file can be renamed, unless to a property of other content, or to its own path if that's its only link |
| Recorder.AppendFileIff | pkg/recoverylog/recorder.go:244-256 | A file can be appended to just for as long as some path links it |
| Recovery.SyncRename | pkg/recoverylog/recorder.go:148-184 | A rename keeps the recorded state in sync with an independent model of the file system, with other paths, links and contents unchanged |
| Recovery.RenameAgrees | pkg/recoverylog/recorder.go:148-184 | It does if and only if the paths are not links of one inode |
| Recovery.AppendAgrees | pkg/recoverylog/recorder.go:244-256 | An append keeps the recorded state in sync if and only if it is empty, or no path of the inode is a property |
| RecorderWorld.PerformIff | pkg/recoverylog/recorder.go:78-256 | Of the uses in which it agrees with the file system, the Recorder accepts exactly those of files which are there, or which can be created or linked; a panic is met only by others |
| RecorderExamples.RenameDisagrees | pkg/recoverylog/recorder.go:148-184 | New file, link, and rename onto the link: the Recorder accepts, and drops the path which POSIX keeps |
| RecorderExamples.RenameToItself | pkg/recoverylog/recorder.go:148-184 | New file, and rename to its own path: the Recorder refuses |
| RecorderExamples.AppendDisagrees | pkg/recoverylog/recorder.go:171-180 | New file, link, rename to a property path, and an append through the link: the property keeps the old content |
| Recovery.SyncedDirectory | pkg/recoverylog/recorder.go:78-256 | In sync, the recorded directory is the observed one: paths and contents |
| EndToEnd.RunKeeps | pkg/recoverylog/recorder.go:51-315 | Every run of create, append, link, rename and delete, of hints stored and of Recorders which recover with them and take over, among foreign ops which may extend the same chain, stays in sync; but for the two disagreements with POSIX |
| EndToEnd.HintsRecoverFileSystem | pkg/recoverylog/playback.go:443-632 | Hints built at any point of such a run, by any of its Recorders, played over its whole log, recover exactly the path-to-content map of the file system at the end, with hints used up and no file operation failing; foreign ops may branch the chain where hints still tell them apart; and for several authors, gaps of the hints must be harmless |
| EndToEnd.NoHandoffIsSingle | pkg/recoverylog/recorder.go:51-66 | Without a hand-off there is a single author, so that gaps are no concern |
| EndToEnd.HandoffSucceeds | pkg/recoverylog/playback.go:337-395 | A new author can take over with any stored hints which a player can follow |
| EndToEnd.HandoffKeepsDirectory | pkg/recoverylog/playback.go:563-632 | A Recorder which takes over begins with the paths, contents, links and properties of the one before it |
| Handoffs.StoredIsHintable | pkg/recoverylog/fsm.go:279-298 | Hints of an earlier Recorder, which knew less of offsets, are hints of the whole history |
| Handoffs.StoredRecovers | pkg/recoverylog/playback.go:443-632 | They recover the directory, and the FSM but for offsets |
| Handoffs.ReplayIsExact | pkg/recoverylog/playback.go:443-504 | The player then has exactly the FSM of the history with the offsets at which it was read |
| Handoffs.HandoffKeeps | pkg/recoverylog/playback.go:337-395 | With the no-op of the new author, what it recovered is a recording, in sync with the recovered files |
| Fencing.AcceptedIsChain | pkg/recoverylog/fsm.go:140-189 | A hint-free reader of any interleaving of ops accepts one chain |
| Fencing.AcceptedGrows | pkg/recoverylog/fsm.go:140-189 | Reading on only extends that chain |
| Fencing.AcceptedIffIssuedOnSame | pkg/recoverylog/recorder.go:208-224 | An op is accepted if and only if its writer had applied exactly what the reader has accepted |
| Fencing.AcceptedOpsAreApplied | pkg/recoverylog/fsm.go:150-155 | Whoever issued an op which is accepted had applied all accepted ops before it |
| Fencing.HandoffFencesWriters | pkg/recoverylog/playback.go:337-395 | Once a hand-off no-op is accepted, no op which a writer issues without having applied it is ever accepted, in any run |
| Pruning.Prune | cmd/gazctl/cmd/shard_prune_log.go:40-98 | Selects exactly the fragments which meet no hinted Segment, the last one taken to be without an end |
| Pruning.PrunedMeetsNoSegment | cmd/gazctl/cmd/shard_prune_log.go:47-80 | A pruned fragment holds no byte within a hinted Segment, or after the FirstOffset of the last |
| Pruning.PrunedIff | cmd/gazctl/cmd/shard_prune_log.go:47-80 | A fragment is pruned if and only if it lies before the last hinted Segment, and before or behind every other |
| Pruning.NeededIsKept | cmd/gazctl/cmd/shard_prune_log.go:76-95 | No pruned fragment holds a byte of an op which playback applies |
| Pruning.LostIsDead | cmd/gazctl/cmd/shard_prune_log.go:76-95 | Ops which are lost to pruning are dead |
| Pruning.PrunedLogRecovers | cmd/gazctl/cmd/shard_prune_log.go:40-98 | Playback of the pruned log recovers the state and the directory of the history |
| LaterHints.DeadLossRecovers | cmd/gazctl/cmd/shard_prune_log.go:22-24 | If all ops which are lost are dead to the hints, these recover the pruned log, also among foreign ops |
| LaterHints.LaterHintsRecoverIff | cmd/gazctl/cmd/shard_prune_log.go:22-24 | A log which carries a history, no op of it repeated, among foreign ops, and is pruned under any Segments, is recovered, by hints of any time whose gaps are harmless, if and only if every op which is lost is dead to these hints |
| LaterHints.HandoffRecoversIff | cmd/gazctl/cmd/shard_prune_log.go:26-27 | A log pruned under hints after which a new author took over is recovered by hints of any later time if and only if their last SeqNo is past every op which is lost |
| LaterHints.RecoversAfterHandoff | cmd/gazctl/cmd/shard_prune_log.go:26-27 | It is if the later hints reach up to the last Segment of the former, also where ops are repeated |
| LaterHints.SegmentsAreOldOrLate | pkg/recoverylog/fsm.go:304-318 | A new author never extends a Segment of an earlier one: Segments of a Fnode at a later time are unchanged, or begin later |
| PruneExample.PruneBreaksLaterHints | cmd/gazctl/cmd/shard_prune_log.go:22-24 | A history of one author, hints at two times, and a fragment which the former prune, for which the latter do not recover |
| PruneExample.PruneBreaksAfterHandoff | cmd/gazctl/cmd/shard_prune_log.go:26-27 | Two authors, hints written as the second takes over, and a fragment which they prune, for which hints after a further delete do not recover |
| Replication.Spool.Write | pkg/journal/spool.go:52-61 | Written bytes are pending, and committed ones are unchanged |
| Replication.Spool.Commit | pkg/journal/spool.go:63-89 | Commits the leading `delta` pending bytes or none, and drops the others |
| Replication.Head.Replicate | pkg/journal/head.go:78-113 | Begins a transaction at the write head, rolls to a greater one, and refuses a lesser one |
| Replication.Head.Write | pkg/journal/head.go:118-120 | Writes to the transaction's Spool |
| Replication.Head.Commit | pkg/journal/head.go:122-128 | Commits, and moves the write head to the end of the Spool |
| Replication.SpoolCommitMeaning | pkg/journal/spool.go:63-89 | A commit adds exactly those bytes to the committed ones, on any disk failure, or none of them |
| Replication.OnWriteMeaning | pkg/journal/head.go:78-113 | Opening a transaction never changes what's committed; it is refused if and only if the replica is ahead; and it rolls the spool just if asked to, or if the last one can't be continued |
| Replication.TxCommitMeaning | pkg/journal/head.go:122-128 | A replica's committed bytes grow by all or none of the transaction's, at its write head |
| Replication.CommitKeepsReplicaIff | pkg/journal/spool.go:63-89 | A replica is fit for another transaction if and only if it wasn't asked to commit more than was written |
| Replication.StaleBytesAreCommitted | pkg/journal/spool.go:63-89 | If it was, the next transaction at that write head commits the refused bytes in front of its own |
| Replication.StaleByteExample | pkg/journal/spool.go:63-89 | One byte is written and two are to be committed; the next transaction writes another byte, and commits the former |
| Broker.JournalBroker.OnConfigUpdate | pkg/journal/broker.go:128-141 | The write head only moves forward |
| Broker.JournalBroker.PhaseOne | pkg/journal/broker.go:144-200 | Opens a transaction with all replicas at one write head, or aborts it with those that accepted. The write head is then the greatest of its own and of those of replicas which were heard to be ahead; if all are reached, none is ahead afterwards. Spools are rolled just when they should be |
| Broker.JournalBroker.StreamToWriters | pkg/journal/broker.go:296-319 | All replicas are written what was read, up to a read error, unless a write fails |
| Broker.JournalBroker.CommitAll | pkg/journal/broker.go:321-331 | Each replica commits the same bytes or none; success is that of a replica, and without an error all committed; one delivery to sound replicas is a success |
| Broker.JournalBroker.PhaseTwo | pkg/journal/broker.go:202-294 | Each append which is a success lies below the new write head, contiguous with the others, and is committed by every replica; otherwise each which was read is answered by a failure. An append is left out only if it can't be read, or past the commit threshold. The write head moves just if a replica committed, and it suffices that one reports so |
| Broker.JournalBroker.Transact | pkg/journal/broker.go:86-126 | Both phases, with any failure; with none, appends are reported as successes; and after a refusal with all replicas reached, none is ahead |
| Broker.JournalBroker.Serve | pkg/journal/broker.go:86-331 | Over any run of config updates and transactions: committed bytes agree at every offset and stay committed; each append which is reported as a success is committed by all replicas to the end, at its own offset, right below the write head it was returned with; one which meets no failure is reported so; and so is the next one after replicas which were ahead refused an append |
| Broker.AgreementIsKept | pkg/journal/broker.go:202-331 | If replicas agree where they overlap, they do after any subset of them commits the same bytes |
| ZoneScaling.ZoneScalingFactors | v2/pkg/allocator/flow_network.go:230-249 | Numerators and denominators are those of the formula |
| ZoneScaling.RatioBounds | v2/pkg/allocator/flow_network.go:192-249 | A ratio is at most one, and at least that of the fixed slots |
| ZoneScaling.DenominatorIsUsable | v2/pkg/allocator/flow_network.go:163-173 | No zero denominator is ever used |
| ZoneScaling.MemberCapacityBound | v2/pkg/allocator/flow_network.go:163-173 | A rounded-up capacity is at most the Member's limit |
| ZoneScaling.ZoneKeepsFixed | v2/pkg/allocator/flow_network.go:198-205 | Each zone's capacities sum to at least the lesser of Items and zone slots |
| ZoneScaling.TotalKeepsSlots | v2/pkg/allocator/flow_network.go:192-249 | All capacities sum to at least the lesser of Item slots and Member slots |
| ZoneScaling.ScaledIsLeast | v2/pkg/allocator/flow_network.go:163-173 | A scaled capacity is the least which is at least the Member's share |
| ZoneScaling.ZoneShareIsTight | v2/pkg/allocator/flow_network.go:163-249 | The capacity of a zone is above its share by less than one per Member |
| ZoneScaling.TotalIsTight | v2/pkg/allocator/flow_network.go:192-249 | All capacities sum to no more than the Item slots, or than what's never scaled away, and one per Member |
| FlowNetwork.ZoneRange | v2/pkg/allocator/flow_network.go:273-277 | Members of a zone are contiguous, so each zone's walk begins where the last left off |
| FlowNetwork.BuildZoneArcs | v2/pkg/allocator/flow_network.go:288-315 | Joins a Zone-Item with exactly the Members of its zone, though Members beyond it aren't ordered on suffix; an Arc is preferred just if its Member holds the Item |
| FlowNetwork.BuildItemArcs | v2/pkg/allocator/flow_network.go:251-317 | Arcs from Source to the Item, to each zone with the zone's share, and to each Member, prioritized by what's held |
| Network.GroupZones | v2/pkg/allocator/alloc_state.go:73-92 | Zones are ordered and exactly those of Members, with the sum of limits of each |
| Network.SlotsAreBounded | v2/pkg/allocator/flow_network.go:132-146 | No more slots are asked of the network than Members have, or than are desired; and each Item gets all slots it desires, or all that remain |
| Network.ItemArcsReach | v2/pkg/allocator/flow_network.go:279-316 | No zone, and no Member of a zone, lacks its Arc |
| Network.BuildMemberArcs | v2/pkg/allocator/flow_network.go:148-181 | Each Member has an Arc to Sink of the least capacity which is at least its limit's share, and one to Overflow of what remains of its limit, with priorities from its count of Assignments |
| Network.Init | v2/pkg/allocator/flow_network.go:61-190 | Arcs join each Item, zone and Member as they should, and none is missing or repeated; Arcs from a Member have a total capacity of exactly its limit, and that to Sink is of its least share |
| SinkCapacity.ZonePlacesItems | v2/pkg/allocator/flow_network.go:198-205 | Arcs to Sink from the Members of a zone have capacity for every Item once, or for all the zone's slots |
| SinkCapacity.MembersPlaceSlots | v2/pkg/allocator/flow_network.go:212-229 | Arcs to Sink have capacity for every Item slot, or for all Member slots |
| SinkCapacity.ZoneIsTight | v2/pkg/allocator/flow_network.go:148-249 | Arcs to Sink from the Members of a zone have a capacity above the zone's share by less than one per Member |
| SinkCapacity.MembersAreTight | v2/pkg/allocator/flow_network.go:148-249 | Arcs to Sink have a capacity of no more than the Item slots, or than each Item once in each zone, and one per Member |
| Flow.ItemIsWithinSlots | v2/pkg/allocator/flow_network.go:332-358 | Any feasible flow assigns an Item to no more Members than its slots |
| Flow.MemberIsWithinLimit | v2/pkg/allocator/flow_network.go:148-181 | Any feasible flow assigns a Member no more Items than its limit |
| Flow.SaturatedItemSpansZones | v2/pkg/allocator/flow_network.go:251-259 | A saturated Item of more than one slot has Members of different zones, if there's more than one effective zone |
| Flow.ExtractItemFlow | v2/pkg/allocator/flow_network.go:332-358 | Extracts exactly the Members which the flow reaches, ordered and without duplicates |
| Flow.ExtractAll | v2/pkg/allocator/allocator.go:83-87 | Desired Assignments of all Items are in the order which converge relies upon |
| FlowChoices.ChoiceIsFlow | v2/pkg/allocator/flow_network.go:61-181 | Every choice of Members within the slots of Items, their share of each zone, and the limits of Members, is that of a feasible flow |
| FlowChoices.FlowIsChoice | v2/pkg/allocator/flow_network.go:332-358 | Every feasible flow takes such a choice of Members |
| FlowChoices.AllocationIff | v2/pkg/allocator/flow_network.go:61-181 | Allocations which some feasible flow extracts to are exactly those where each Item has no more Members than slots, not all of them in one zone if it has several slots and there are several effective zones, and no Member exceeds its limit |
| LeftJoin.Join.Next | v2/pkg/allocator/allocator_key_space.go:217-265 | Each left index is returned once, in order, with exactly its equal range, and the panic is never reached |
| LeftJoin.Partition | v2/pkg/allocator/allocator.go:149-182 | Each Item has its range; and a right index is in a gap between ranges if and only if it is of no Item |
| AllocatorKeys.KeyOrder | v2/pkg/allocator/allocator_key_space.go:163-215 | Encoded keys are in order if and only if their Assignments are, on (ItemID, zone, suffix) and then on the encoded slot |
| AllocatorKeys.KeyRoundTrip | v2/pkg/allocator/allocator_key_space.go:96-168 | An encoded key decodes to its Assignment |
| AllocatorKeys.JoinIsOrdered | v2/pkg/allocator/allocator.go:149-157 | The key space's order is the one which the join of Items and Assignments requires |
| ItemState.ItemState.Init | v2/pkg/allocator/item_state.go:25-73 | Removals are exactly undesired current Assignments, kept ones the desired, and additions the missing, in slots above all in use |
| ItemState.ItemState.ConstrainRemovals | v2/pkg/allocator/item_state.go:77-110 | Keeps `r` consistent Assignments if there are so many, and removes none otherwise; removes all that's wanted unless just `r` remain and the next to remove, by load, is consistent; and removes those of greatest load |
| ItemState.InconsistentAreRemoved | v2/pkg/allocator/item_state.go:77-110 | If just inconsistent Assignments are to be removed, and enough others are consistent, all of them are |
| ItemState.ItemState.ConstrainReorders | v2/pkg/allocator/item_state.go:114-153 | Orders on slot, with the best Assignment first if there's no primary: consistent, and then of least load |
| ItemState.ItemState.ConstrainAdds | v2/pkg/allocator/item_state.go:156-173 | Keeps exactly the additions for which the Member has capacity |
| ItemState.ItemState.BuildAddOps | v2/pkg/allocator/item_state.go:223-243 | Puts of all additions, guarded by their Members, and their counts |
| ItemState.ItemState.BuildRemoveOps | v2/pkg/allocator/item_state.go:176-199 | Deletes of all removals, guarded by Item and Assignment, and the counts of known Members |
| ItemState.ItemState.BuildPromoteOps | v2/pkg/allocator/item_state.go:203-220 | Moves the first kept Assignment to slot zero if it isn't there |
| ItemState.ItemState.BuildPackOps | v2/pkg/allocator/item_state.go:247-257 | Moves the first Assignment which isn't at its index |
| ItemState.ItemState.ConstrainAndBuildOps | v2/pkg/allocator/item_state.go:271-284 | The checkpoint is safe, and counts change exactly as the Assignments which it leaves do |
| ItemState.PickPrimary | v2/pkg/allocator/item_state.go:131-148 | The pick is preferred over every other Assignment |
| ItemState.PlanIsSafe | v2/pkg/allocator/item_state.go:77-284 | Slots and Members stay distinct; an Item with `r` consistent Assignments still has `r`, and one with fewer loses none; there's a primary if a current Assignment is kept; only Members with capacity are added |
| ItemState.PlanIsGuarded | v2/pkg/allocator/item_state.go:176-267 | A deleted Assignment is compared for a change, as is the Member of an added one, and the Item of a removed one; and nothing is compared which wasn't observed |
| ItemOps.PlanApplies | v2/pkg/allocator/item_state.go:271-284 | The operations, applied in turn, leave exactly the planned Assignments |
| ItemOps.PlanKeysAreDistinct | v2/pkg/allocator/item_state.go:259-284 | No key is written twice by a checkpoint |
| ItemPlan.OutcomeIsWellPlaced | v2/pkg/allocator/item_state.go:203-257 | After promotion and packing, slots are still distinct, with exactly one primary if an Assignment is kept |
| ItemPlan.SortBy | v2/pkg/allocator/item_state.go:80-84 | A permutation, ordered on the key |
| Converge.Observe | v2/pkg/allocator/alloc_state.go:101-138 | Counts of total and primary Assignments are a recount over known Items |
| Converge.ConvergeItem | v2/pkg/allocator/allocator.go:171-175 | One Item's checkpoint is safe, writes no key twice, removes nothing that's desired nor adds anything else, and each of its operations is guarded by its comparisons |
| Converge.DesiredSlice | v2/pkg/allocator/allocator.go:166-176 | The leading desired Assignments of an Item are all of it |
| Converge.Converge | v2/pkg/allocator/allocator.go:145-207 | After every prefix of checkpoints: Items are safe, no Member exceeds the greater of its starting count and limit, and counts are a recount. Operations of each checkpoint are guarded by its comparisons. Loads may order Assignments differently for each Item. Dead Assignments, and just those, are removed in between |
| DeadAssignments.RemoveDead | v2/pkg/allocator/allocator.go:188-207 | A checkpoint for each Item of a range of dead Assignments, as specified |
| DeadAssignments.RemovalsDeleteAll | v2/pkg/allocator/allocator.go:188-207 | Each Assignment of the range is deleted once, in order |
| DeadAssignments.RemovalsAreGuarded | v2/pkg/allocator/allocator.go:186-207 | Deletes of a checkpoint are of one Item, compared for not existing, and of Assignments compared for a change; the next checkpoint is of another Item |
| Goal.RoundIsCloser | v2/pkg/allocator/item_state.go:25-284 | A round decreases (missing, surplus, sum of slots), or is at the goal and has no operations |
| Goal.GoalIsStable | v2/pkg/allocator/item_state.go:203-284 | A round at the goal has no operations |
| Goal.Round | v2/pkg/allocator/item_state.go:271-284 | One round is idle just at the goal, and otherwise closer to it, if desired Members which lack the Item have capacity |
| Goal.ReachGoal | v2/pkg/allocator/allocator.go:59-138 | Repeated rounds end, with exactly the desired Members in slots 0 to k-1, whatever the order by load in each round, and if in each round other Items leave room for this one |
| BatchedTxn.Batcher.Checkpoint | v2/pkg/allocator/allocator.go:281-299 | Queues a checkpoint, and flushes the queue first if it would overflow |
| BatchedTxn.Batcher.Commit | v2/pkg/allocator/allocator.go:301-317 | Issues the queue as one transaction, with all fixed comparisons |
| BatchedTxn.BatchKeepsChecks | v2/pkg/allocator/allocator.go:281-299 | No checkpoint is lost, split or reordered |
| BatchedTxn.BatchIsWithin | v2/pkg/allocator/allocator.go:281-299 | Every transaction is within the limit, if each checkpoint fits beside the fixed comparisons |
| BatchedTxn.BatchIsGreedy | v2/pkg/allocator/allocator.go:281-299 | Each flush was forced by the next checkpoint |
| BatchedTxn.OpsAreInOrder | v2/pkg/allocator/allocator.go:301-317 | Operations of all transactions are those of the checkpoints, in order |
| BatchedTxn.IssuedWithCmps | v2/pkg/allocator/allocator.go:281-317 | An operation is issued in one transaction with all comparisons of its checkpoint |
| BatchedTxn.Issue | v2/pkg/allocator/allocator.go:281-317 | A run of the builder, up to the first transaction which fails, commits leading checkpoints, each whole, in order and beside the fixed comparisons, within the limit if each checkpoint fits |
| Allocate.AllocateRound | v2/pkg/allocator/allocator.go:59-125 | Observe, converge and commit: whichever transaction fails, what Etcd holds are the Assignments after some number of whole checkpoints, which are safe, less the dead ones which these deleted; and if none fails, those after all checkpoints, without any dead ones. Each operation is in one transaction with the comparisons which guard it, of its Item or of its dead group |
| Pipeline.RunKeeps | v2/pkg/broker/pipeline.go:106-177 | The invariant of every run: who owns either side, and what each stream has carried |
| Pipeline.ReceivesOwnResponse | v2/pkg/broker/pipeline.go:171-177 | What a task receives next from a peer is the response to its own request |
| Pipeline.SidesAreOwnedOnce | v2/pkg/broker/pipeline.go:155-168 | At most one task owns the send side, and at most one the receive side |
| Pipeline.ResponsesMatchRequests | v2/pkg/broker/replica.go:141-180 | The k-th releaser gathers each peer's response to the k-th acknowledged request, which is its own |
| Pipeline.ShutdownIsClean | v2/pkg/broker/pipeline.go:238-277 | A shutdown reads no response which a peer sent to somebody else |
| Pipeline.PipelineMakesProgress | v2/pkg/broker/replica.go:141-180 | No deadlock: in every reachable state where a task sends, waits, gathers or shuts down, some task or peer can step without further input |
| Pipeline.IdleTaskCanAcquire | v2/pkg/broker/replica.go:81-133 | A pipeline which isn't shut down can be acquired, or is held by a task which sends |
| PipelineWork.StepIsWork | v2/pkg/broker/pipeline.go:106-177 | Each step lowers the work which is left, but for what callers add: to acquire the pipeline, or send a request which is not acknowledged |
| PipelineWork.RunIsBounded | v2/pkg/broker/pipeline.go:106-277 | The steps of every run, and the work which is left, are no more than what callers have added |
| PipelineWork.AllFinish | v2/pkg/broker/replica.go:141-180 | If nobody asks for more, every run ends within the work that was left, and it does not end while a task is busy |
| PipelineWork.CanFinish | v2/pkg/broker/replica.go:141-180 | From every reachable state such a run leads to one where no task is busy |
| Pipeline.ServeKeeps | v2/pkg/broker/replicate_api.go:62-89 | A peer responds in order, once to each acknowledged request |
| Framing.Encode | pkg/topic/proto_framing.go:23-49 | Appends the frame, and leaves what the buffer held; or fails |
| Framing.Unpack | pkg/topic/proto_framing.go:57-105 | Returns the next frame, the same by the fast and slow path; desynchronized content up to the next magic word; or the error which the stream's end calls for |
| Framing.UnpackAll | pkg/topic/proto_framing.go:57-105 | For every stream and way to fill the buffer, frames before the first error concatenate to a prefix, and no frame is left |
| Framing.FramesArePrefix | pkg/topic/proto_framing.go:51-57 | Frames concatenate to a prefix of the stream |
| Framing.FrameIsUnpacked | pkg/topic/proto_framing.go:41-49 | A frame is unpacked whole if and only if its payload's length fits 32 bits |
| Framing.EncodedFramesUnpack | pkg/topic/proto_framing.go:23-105 | Encoded frames unpack back one by one, and nothing else does |
| Framing.GarbageEndsAtFrame | pkg/topic/proto_framing.go:125-134 | The magic word doesn't overlap itself, so none begins in garbage before a frame |
| Framing.FramesAreRecovered | pkg/topic/proto_framing.go:74-105 | Past any garbage which is free of the magic word, every frame is recovered exactly and in order |
| Framing.FaultsJustIf | pkg/topic/proto_framing.go:112-127 | Unmarshal of an unpacked frame faults if and only if the frame is a proper prefix of the magic word |
| Framing.StrayByteFaults | pkg/topic/proto_framing.go:74-88 | Unpack returns such a frame for a stray first byte of the magic word |

## Left out

- RoundTrip.HintRoundTrip: for several authors the condition is exact of each skipped op, but not of a whole playback:
  what is skipped in one gap may be undone by what's skipped in another.
- EndToEnd.HintsRecoverFileSystem: a foreign op which extends the chain, and is read before the Recorder's own op of
  that SeqNo, is allowed only below the last hinted op. Past it playback has no author to tell them apart by, and
  follows the first.
- LaterHints.LaterHintsRecoverIff: no op of the history is repeated in the log. Where one is, it's proved that the
  condition is sufficient (`LaterHints.DeadLossRecovers`); a copy of a lost op may do in its place.
- Handoffs.HandoffKeeps: a no-op which is read back directly behind what the player has read. One which is not is
  refused or accepted as `Fencing` has it.
- Pipeline.ResponsesMatchRequests: streams do not fail. Send and receive errors, after which a pipeline is torn down,
  are not modelled; nor is the negotiation of proposals by synchronize, which is taken to have completed.
- Broker.JournalBroker.Serve: Heads are values which the broker updates, one call at a time. Aliasing and the order
  among concurrent replicas, and asynchronous aborts, are not captured.
- Allocate.AllocateRound: safety is relative to the observed snapshot. That comparisons of a transaction fail if the
  snapshot has changed is left to Etcd.
- Goal.ReachGoal: other Items always leave room for this one with its desired Members, and all Assignments are
  consistent in each round.
- ItemState.ItemState.ConstrainReorders: load ratios are given by a function to the reals. Rounding of 32-bit floats,
  and ratios of a zero limit, are not modelled.
- Flow.ExtractAll: any feasible flow is allowed for. The push/relabel solver, and thus that a flow is maximal or
  follows priorities, is left out.
- Framing.Unpack: reads from beneath the buffer return at least a byte, or the final error.
- Recorder.LogRecorder.UpdateWriteHead: that appends of one Recorder complete in order is taken from the journal client.
- Reading of the log by playLog beneath decoded ops: tailing, retries, and garbage between frames.
- Etcd, gRPC, HTTP, cloud stores, RocksDB and files of the operating system are maps, logs, or replies which may be
  anything.
- Integers are unbounded, but for the 32-bit length of a frame.
- The key space, v2 Spool, Fragment index and persister, resolver and append API of v2.
- FragmentSet of the v1 journal, its consensus allocator, and the consumer framework.
- Commands other than the decision of which fragments to prune, metrics, logging and configuration.
