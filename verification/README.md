# AetherNet: a verified model

AetherNet is a control plane for a cluster of game servers. Daemons replicate a state machine
through Raft; the leader's scheduler places, evacuates and scales servers by committing commands
to it; proxies follow it by an event stream; and plugins in the game servers hand a player's
state from one server to the next through Redis. This project models that logic in Dafny and
proves what it is relied on for. `dafny verify dfyconfig.toml` checks everything.

## What is modelled

**The replicated state machine** (`FsmModel`, `LogTheorems`, `EventBus`, `Tables`, `RaftFsm`,
`Replication`). `FsmModel.Apply` says on values what a log entry does: fifteen kinds of command,
payloads that do not decode, unknown kinds, idempotency keys. `RaftFsm.Fsm` is the machine as it
runs, with server records in the heap that `set_state` and `set_host` overwrite in place,
snapshots by deep copy, and bounded subscriber channels; its methods are proved against the
values. On top are theorems about whole logs: duplicates, snapshot and replay, mirroring by
events over copies that were taken late, and what a lossy channel still guarantees.

**The proxy stream** (`ProxyStream`): subscribe first, list afterwards, then forward. Why that is
right, and exactly which commands it misses.

**The scheduler and the other writers** (`Placement`, `Sorting`, `ClusterApply`, `Scheduling`,
`Tasks`, `TaskRaces`, `RestHandlers`, `SpecRaces`, `NodeRaces`). `Placement` has the
specifications and theorems on values; `Scheduling.Scheduler` has the loops, which commit to the
state they are reading, with commits that may fail one by one. `Tasks` runs the group service and
the scheduler together, one operation at a time; `TaskRaces`, `SpecRaces` and `NodeRaces` let the
checks, reads and commits of all writers interleave freely.

**Player handover** (`Handover`, `BridgeHandlers`, `WaitLoops`). `Handover` is the protocol: a
store with expiring keys, a clock, and any number of servers taking steps in any order, with both
sets of constants. Which bytes are the newest is decided by the order in which the sections
acquired the lock, not by what the data key holds. `BridgeHandlers` has the event handlers, whose
commands may each throw and between whose commands others run; they are proved to take the
protocol's steps, and the handover theorem is then about their histories. `WaitLoops` is the same
two polling loops against an exact clock, for what they promise about time.

**Codecs** (`ByteStreams`, `ProfileCodec`, `ProfileIO`, `Rcon`, `NullMask`) and **quorums**
(`Quorum`): the binary player profile, RCON framing, the NULL bitmask of the SQL workbench and
the arithmetic of majorities.

Throughout, a commit is one atomic step that may fail; the clock, random identifiers, the order
of map iteration and the outcome of each I/O operation are chosen freely.

## Where the code says something else than its comments

- The cloud quit handler's comments say the lock is released only after both writes
  (PlayerQuitHandler.kt:18, 84-85). It is released in `finally`:
  `BridgeHandlers.ReleasedAfterBothWrites` has the exact condition, and
  `BridgeHandlers.ThrowingDatabaseReleases` the case the comment rules out.
- Its header promises a reader the post-quit snapshot even after the lock has expired
  (PlayerQuitHandler.kt:25-28). That needs sections shorter than the TTL
  (`Handover.HandoverDelivers`); otherwise it is false (`Handover.SlowSectionHandsOverStale`,
  `Handover.SlowSectionOverwritesNewer`; `Handover.FinalExactly` and `Handover.LateStoreExactly`
  have the exact conditions), and the pre-login handler proceeds after a timeout anyway.
- A lock is deleted without a look at its owner: `Handover.ReleaseTakesAnothersExactly` says exactly
  when that is another section's, and `Handover.LockSafety` when two sections can be open at all.
- `pendingProfiles` keeps a profile that was fetched for a login that never joined:
  `BridgeHandlers.JoinInjectsLastFetch` has the exact condition.
- A node is declared down after the heartbeat deadline and the grace period together, not after
  the deadline alone as the option's comment says (scheduler.go:31, 79-86). Servers on a node that
  was already down are never looked at again, which `Placement.LivenessTheorem` states.
- "Live count" in the group service's comment (groups.go:5-7) is every server that names the
  group, stopped and orphaned ones included; and a group whose identifier is empty, whose servers
  are never counted, grows by its minimum at every tick (`Placement.CountAfterTick`).
- The proxy stream forwards upserts only; see `ProxyStream.LeftBehindExactly` and
  `ProxyStream.MisledExactly`.
- `Restore` publishes no event; `LogTheorems.RestoreMirrorExactly` says which followers are still
  right after one.
- `quorum_test.go` expects a size of 0 for an empty cluster; the code and its comment say 1.
- A removal may be undone by a commit that was prepared before it
  (`SpecRaces.RemovalUndoneExactly`), and creating a group while its template is deleted leaves
  it without one (`TaskRaces.OverlapExactly`, `TaskRaces.IntegrityExactly`).
- The login of an RCON connection and its first command have the same identifier, so a second
  answer to the login passes for the answer to the command (`Rcon.AnswerExactly`,
  `Rcon.LoginAnsweredTwice`).
- An error that ends the iteration over SQL rows looks like the end of the rows: `scanResult`
  does not ask for it (workbench.go:207-223; `NullMask.WholeExactly` has the condition and
  `NullMask.BrokenLooksEmpty` a case).
- A node that beats while the scheduler is about to mark it loses that heartbeat
  (`NodeRaces.OverwritesExactly`), and a group's template can go between listing the group and
  spawning from it (`TaskRaces.SpawnMissesExactly`).

## Model

| member | source | states |
|---|---|---|
| `FsmModel.PlacementCommandsExactly` | daemon/internal/raftfsm/fsm.go:105-161 | what each node and server command does, key by key and field by field, with the event it publishes; a state or host written for a server that is not there does nothing |
| `FsmModel.OtherCommandsExactly` | daemon/internal/raftfsm/fsm.go:162-219 | the same for groups, templates, databases and tokens, of which tokens publish nothing, and for what does not decode |
| `FsmModel.OutcomeExactly` | daemon/internal/raftfsm/fsm.go:89-103 | the outcome of every entry: which error exactly when, a duplicate as done; what fails leaves nothing but its key |
| `FsmModel.ExecuteKeepsKeysMatch` | daemon/internal/raftfsm/fsm.go:105-218 | no command can file a record under an identifier other than its own |
| `FsmModel.ApplyKeepsKeysMatch` | daemon/internal/raftfsm/fsm.go:89-220 | the same for a whole log entry, with its idempotency key |
| `FsmModel.ApplyAllKeepsKeysMatch` | daemon/internal/raftfsm/fsm.go:89-220 | so it holds after every log |
| `FsmModel.ExecuteKeepsIdem` | daemon/internal/raftfsm/fsm.go:105-218 | no command touches the recorded keys |
| `FsmModel.ApplyAllConcat` | daemon/internal/raftfsm/fsm.go:89-220 | applying a log in two pieces gives the state and the events of applying it whole |
| `RaftFsm.Fsm.Apply` | daemon/internal/raftfsm/fsm.go:89-220 | on maps and heap records, with set_state and set_host written in place: the new state, the outcome and the events are those of the value-level Apply, and every subscriber is offered the event or, if full, loses it |
| `RaftFsm.Fsm.RunServer` | daemon/internal/raftfsm/fsm.go:120-161 | upsert and remove replace the pointer, set_state and set_host assign through it; the one record named changes, whatever else points where |
| `RaftFsm.Fsm.TakeSnapshot` | daemon/internal/raftfsm/fsm.go:222-237 | a snapshot equals the state of the moment and shares no record with it |
| `RaftFsm.Snapshot.Persist` | daemon/internal/raftfsm/fsm.go:403-409 | what is written out is what the snapshot holds, or nothing if the sink does not take it |
| `RaftFsm.Fsm.Restore` | daemon/internal/raftfsm/fsm.go:239-255 | a decoded document replaces the whole state, one that does not decode changes nothing; subscribers stay and hear nothing of it |
| `RaftFsm.Fsm.Subscribe` | daemon/internal/raftfsm/fsm.go:66-72 | a new channel that is empty and joins at this point of the published history |
| `RaftFsm.Fsm.Servers` | daemon/internal/raftfsm/fsm.go:289-297 | every record once, by value, in any order |
| `RaftFsm.Fsm.ServersOnNode` | daemon/internal/raftfsm/fsm.go:299-309 | exactly the records of that node, each once, in any order |
| `Tables.Table.Copy` | daemon/internal/raftfsm/fsm.go:413-420 | copyMap: equal contents, and not one record in common |
| `LogTheorems.ApplyRecordsKey` | daemon/internal/raftfsm/fsm.go:97-103 | a key is recorded at its first use and never again; an entry with a recorded key changes nothing and publishes nothing |
| `LogTheorems.DedupSameRun` | daemon/internal/raftfsm/fsm.go:97-103 | for every log, dropping each entry whose key was seen before leaves the final state and the published events unchanged |
| `LogTheorems.DedupHasNoRepeats` | daemon/internal/raftfsm/fsm.go:97-103 | what is left really uses no key twice |
| `LogTheorems.DedupExactly` | daemon/internal/raftfsm/fsm.go:97-103 | exactly the entries with a key seen before are dropped, and the others stay in their order |
| `LogTheorems.RecordedIndexIsFirst` | daemon/internal/raftfsm/fsm.go:97-103 | the index kept for a key is that of its first entry, even if its payload did not decode; a key that never occurred is not recorded |
| `LogTheorems.RestoreThenReplay` | daemon/internal/raftfsm/fsm.go:222-255 | for every log and every cut: the state at the cut, fed the rest of the log, ends in the state of the whole log |
| `Replication.SnapshotOutlives` | daemon/internal/raftfsm/fsm.go:222-237 | a snapshot written out after any number of later in-place writes still holds the state at which it was taken |
| `Replication.SnapshotRestoreCatchUp` | daemon/internal/raftfsm/fsm.go:89-255 | on the heap: a node that restores the snapshot and applies the rest ends equal to the node that applied everything |
| `LogTheorems.OneCommandFollows` | daemon/internal/raftfsm/fsm.go:105-218 | one event says everything its command did to the five published maps |
| `LogTheorems.RunFollows` | daemon/internal/raftfsm/fsm.go:74-220 | replaying the events of any run over the state it began in gives the state it ended in |
| `LogTheorems.LastWriteForgets` | daemon/internal/raftfsm/fsm.go:74-86 | where a key ends up either ignores where it began or is where it began |
| `LogTheorems.LateCopyCatchesUp` | daemon/internal/raftfsm/fsm.go:74-86 | writes that a copy already contains may be repeated over it together with the later ones |
| `LogTheorems.EventMirror` | daemon/internal/raftfsm/fsm.go:66-86 | each of the five maps copied at its own later moment, with all events since subscription replayed over it, comes out exactly current |
| `LogTheorems.MirrorFrom` | daemon/internal/raftfsm/fsm.go:66-86 | the same for one moment |
| `LogTheorems.DroppedEventBreaksMirror` | daemon/internal/raftfsm/fsm.go:79-85 | a single lost event can leave a follower wrong |
| `LogTheorems.SameEndExactly` | daemon/internal/raftfsm/fsm.go:74-86 | the same writes end in the same map if and only if the maps they begin with agree but for the keys written |
| `LogTheorems.MirrorExactly` | daemon/internal/raftfsm/fsm.go:66-86 | a follower that holds other maps than the state has gets right by the later events if and only if they agree but for what those events write |
| `LogTheorems.DroppedEventExactly` | daemon/internal/raftfsm/fsm.go:79-85 | a dropped event leaves a follower wrong in the end exactly unless its entry changed nothing or all of it is written again |
| `LogTheorems.RestoreMirrorExactly` | daemon/internal/raftfsm/fsm.go:239-255 | a follower survives a restore, of which it hears nothing, if and only if the document agreed with the replaced state but for what is written later |
| `Replication.FollowFrom` | daemon/internal/raftfsm/fsm.go:66-86 | on the heap: subscribe, copy late, then receive while entries go on being applied, in any alternation and for any length; the follower has replayed exactly what came through a queue of that capacity, and holds the current maps if the queue was never full at a publication |
| `Replication.ApplyLog` | daemon/internal/raftfsm/fsm.go:74-220 | a log applied to the machine: its state, and for every subscriber the queue after those publications |
| `Replication.SentTheRun` | daemon/internal/raftfsm/fsm.go:74-86 | what is published to a follower is the events of the whole run |
| `Replication.SeesAll` | daemon/internal/raftfsm/fsm.go:79-85 | a queue that is never full at a publication delivers all of it |
| `Replication.LateCopyFollows` | daemon/internal/raftfsm/fsm.go:66-86 | the value-level statement behind it |
| `EventBus.Channel.Offer` | daemon/internal/raftfsm/fsm.go:79-85 | a send that never blocks: queued if there is room, dropped otherwise |
| `EventBus.Bus.Publish` | daemon/internal/raftfsm/fsm.go:74-86 | every subscriber is offered the event, each according to its own buffer alone, and has been sent exactly what was published since it joined |
| `EventBus.SubsequenceEmbeds` | daemon/internal/raftfsm/fsm.go:74-86 | the subsequence relation is the one meant: strictly increasing positions |
| `EventBus.SubscribersAreIndependent` | daemon/internal/raftfsm/fsm.go:74-86 | in every run a subscriber ends as if the others never received anything |
| `EventBus.OneRunIsSound` | daemon/internal/raftfsm/fsm.go:74-86 | consumed plus buffered is an in-order subsequence of what was sent, with every loss counted, and the buffer stays within its capacity |
| `EventBus.RoomMeansNoLoss` | daemon/internal/raftfsm/fsm.go:79-85 | a buffer that could hold everything loses nothing |
| `EventBus.LossExactly` | daemon/internal/raftfsm/fsm.go:79-85 | a subscriber loses something if and only if its own buffer is full at some publication |
| `EventBus.EveryRunIsSound` | daemon/internal/raftfsm/fsm.go:66-86 | all of that for each of any number of subscribers, in every run |
| `ProxyStream.MessageExactly` | daemon/internal/api/grpc.go:169-197 | an upsert is forwarded as one message of the kind its state says, each field from the field of the server, an orphaned one as none, and nothing else at all |
| `ProxyStream.InitialExactly` | daemon/internal/api/grpc.go:144-162 | the start-up list tells of exactly the ready servers, field by field and in the order they were listed |
| `ProxyStream.LastMessageIsCurrent` | daemon/internal/api/grpc.go:164-203 | if the writes leave a server ready, the last message about it says so with its current fields, or nothing touched it |
| `ProxyStream.InitialHasEveryReady` | daemon/internal/api/grpc.go:144-162 | the start-up list announces every ready server |
| `ProxyStream.ProxyConverges` | daemon/internal/api/grpc.go:135-204 | subscribe, list later, drain: the last message for each ready server that was only upserted or removed meanwhile is READY with its current node and port |
| `ProxyStream.LeftBehindExactly` | daemon/internal/api/grpc.go:169-186 | a proxy that is up to date is left behind by a command if and only if that is a set_host which changes the node or port of a ready server, or a set_state which makes a server ready that the proxy was last told something else about |
| `ProxyStream.MisledExactly` | daemon/internal/api/grpc.go:169-186 | what the proxy believes to be ready is ready, until a command that removes or orphans such a server or sets it to another state; by exactly those it is made untrue |
| `ProxyStream.SilentChanges` | daemon/internal/api/grpc.go:169-186 | removals, set_state, set_host and orphanings send nothing |
| `ProxyStream.SendReady` | daemon/internal/api/grpc.go:144-162 | the loop sends exactly the start-up list |
| `ProxyStream.Forward` | daemon/internal/api/grpc.go:164-203 | what is left in the queue is sent in translation, in order |
| `ProxyStream.Subscribe` | daemon/internal/api/grpc.go:135-204 | the handler over the state machine and its channel, receiving while entries go on being applied, for any length of run: it sends the start-up list and then exactly what comes through a queue of 100, and has converged if that was never full at a publication |
| `Sorting.SortBy` | daemon/internal/scheduler/scheduler.go:199-201 | sort.Slice: ordered, and a rearrangement; equal keys in any order |
| `Placement.RoomExactly` | pkg/types/types.go:42-47 | room in numbers: what is used and what is asked for fit into the total, or nothing is asked for |
| `Scheduling.Scheduler.PickHost` | daemon/internal/scheduler/scheduler.go:184-203 | an Up node other than the excluded one with enough free memory that no such node beats, or ErrNoHost exactly when there is none |
| `Scheduling.Scheduler.MarkNodeDown` | daemon/internal/scheduler/scheduler.go:128-135 | only the state of that node, or nothing if it is gone or the commit fails |
| `Scheduling.Scheduler.Evacuate` | daemon/internal/scheduler/scheduler.go:145-176 | each server of the node is orphaned, moved to a best host, or left because there is none; all others stay; failed commits leave a server alone |
| `Placement.SurveyQuietNode` | daemon/internal/scheduler/scheduler.go:82-97 | the pass invariant over a node that is not declared dead: hosts only become fewer |
| `Placement.SurveyDeadNode` | daemon/internal/scheduler/scheduler.go:86-92 | the pass invariant over a node that is declared dead, including servers that are moved a second time |
| `Placement.FateStep` | daemon/internal/scheduler/scheduler.go:145-176 | however often it was moved, a server has only changed node, state, container and port |
| `Placement.SettledStep` | daemon/internal/scheduler/scheduler.go:145-176 | a server left on a dead node stays without a possible host |
| `Scheduling.Scheduler.LivenessPass` | daemon/internal/scheduler/scheduler.go:81-97 | the loop establishes the pass invariant for all nodes, in any order, with commits that may fail |
| `Placement.LivenessTheorem` | daemon/internal/scheduler/scheduler.go:82-97 | with all commits succeeding: exactly the overdue nodes are declared dead and exactly the silent ones suspect, nothing else of them changing; an HA server left on a dead node has no Up node with room in the final state; any other server there is orphaned; a re-scheduled server starts anew on another node, without container and port; identifiers, specifications and all other fields are unchanged; nothing else is touched |
| `Placement.NotBackStep` | daemon/internal/scheduler/scheduler.go:86-92 | a re-scheduled server never ends where it was |
| `Scheduling.Scheduler.SpawnGroupInstance` | daemon/internal/scheduler/scheduler.go:205-232 | one new record as specified on a best host; ErrTemplateMissing and no host exactly in those cases, and then nothing changes; each missing template is counted |
| `Scheduling.Scheduler.ScaleUp` | daemon/internal/scheduler/scheduler.go:110-114 | that many attempts, of which all or none miss the template |
| `Scheduling.Scheduler.StopServer` | daemon/internal/scheduler/scheduler.go:234-242 | only the state of that server, or ErrServerMissing exactly if it is gone |
| `Scheduling.LeastLoadedFirst` | daemon/internal/scheduler/scheduler.go:116-123 | the first of the sorted instances are that many servers, none with more players than one left out |
| `Scheduling.FilterRoster` | daemon/internal/scheduler/scheduler.go:100-107 | grouping the listed servers gives each group its members, each once |
| `Scheduling.Scheduler.ScaleDown` | daemon/internal/scheduler/scheduler.go:115-124 | exactly the least loaded servers are told to stop |
| `Scheduling.Scheduler.ScaleGroup` | daemon/internal/scheduler/scheduler.go:108-125 | one group grows, shrinks or stays as its bounds say; no other group is touched |
| `Scheduling.Scheduler.AutoscalePass` | daemon/internal/scheduler/scheduler.go:99-125 | the loop, which reads lists made before its own commits, scales every group as if it were alone |
| `Placement.CountAfterTick` | daemon/internal/scheduler/scheduler.go:99-125 | the new number of instances: the larger of the old one and the minimum if the template is there and a host has room, otherwise unchanged; and what happens to a group without an identifier |
| `Placement.ShedAfterTick` | daemon/internal/scheduler/scheduler.go:115-124 | a group over its maximum has exactly the difference told to stop, none with more players than a member not chosen |
| `Scheduling.Scheduler.Tick` | daemon/internal/scheduler/scheduler.go:74-126 | a tick is a liveness pass and then an autoscaling pass from where it ended; no spawn misses its template if every group names one that is there |
| `Placement.TickTheorem` | daemon/internal/scheduler/scheduler.go:74-126 | the autoscaling results against the state before the whole tick, the liveness pass included |
| `Placement.SameMembers` | daemon/internal/scheduler/scheduler.go:82-97 | the liveness pass changes no group membership and no player count |
| `Scheduling.Scheduler.constructor` | daemon/internal/scheduler/scheduler.go:43-54 | zero options stand for one second and two seconds |
| `ClusterApply.Cluster.Apply` | daemon/internal/cluster/cluster.go:133-147 | a commit happens as a whole or not at all |
| `Tasks.Service.CreateGroup` | daemon/internal/tasks/groups.go:26-44 | each error exactly in its case; otherwise one group is written, under its own identifier or one made of its name; integrity is kept |
| `Tasks.Service.DeleteGroup` | daemon/internal/tasks/groups.go:46-57 | members are told to stop and the group goes; no other server and no other group changes; integrity is kept |
| `Tasks.Service.CreateTemplate` | daemon/internal/tasks/groups.go:59-71 | refused exactly for an unknown mode; otherwise written under its own identifier or one made of its name; integrity is kept |
| `Tasks.Service.DeleteTemplate` | daemon/internal/tasks/groups.go:73-82 | refused exactly while a group uses the template; integrity is kept |
| `Tasks.Run` | daemon/internal/tasks/groups.go:26-82 | in every run of the four operations and ticks, one at a time, with commits that may fail: every group names an existing template and has valid bounds, and the count of spawns that missed their template stays what it was |
| `Tasks.TickKeepsIntegrity` | daemon/internal/scheduler/scheduler.go:205-209 | a tick from such a state adds no miss to the count |
| `TaskRaces.CommitExactly` | daemon/internal/tasks/groups.go:26-82 | a commit breaks the integrity if and only if the check made before it no longer holds |
| `TaskRaces.PairExactly` | daemon/internal/tasks/groups.go:26-82 | any two of the operations and spawns that made their checks in the same state: integrity survives both commits, in this order, if and only if they are not a CreateGroup and a DeleteTemplate of the same template |
| `TaskRaces.OverlapExactly` | daemon/internal/tasks/groups.go:36-43 | CreateGroup and DeleteTemplate in either order of their commits: intact if and only if the templates differ |
| `TaskRaces.IntegrityExactly` | daemon/internal/tasks/groups.go:26-82 | over every interleaving of checks and commits: intact throughout if and only if no commit goes through whose check no longer holds |
| `TaskRaces.SpawnSurvivesOne` | daemon/internal/scheduler/scheduler.go:205-209 | no one overlapping operation takes the template of a spawn away |
| `TaskRaces.TemplateMissingExactly` | daemon/internal/tasks/groups.go:59-82 | over every interleaving: a template is missing at the end if and only if it was dropped and not put again, or was missing and never put |
| `TaskRaces.SpawnMissesExactly` | daemon/internal/scheduler/scheduler.go:205-209 | a spawn from a listed group misses its template, after any interleaving of the others, if and only if that was dropped meanwhile and not put again; without stale commits no stored group names it then |
| `TaskRaces.SpawnCanMiss` | daemon/internal/scheduler/scheduler.go:205-209 | an instance, with every check and the integrity in order |
| `RestHandlers.Handlers.HandleStartServer` | daemon/internal/api/rest.go:119-168 | each status exactly in its case; a created server is as asked for, with the defaults, under a new identifier on a best host |
| `RestHandlers.Handlers.HandleStopServer` | daemon/internal/api/rest.go:191-204 | 404 exactly if it is not there; otherwise only its state changes, to stopping |
| `RestHandlers.Handlers.HandleRestartServer` | daemon/internal/api/rest.go:206-219 | the same, to starting |
| `RestHandlers.Handlers.HandleOneServer` | daemon/internal/api/rest.go:170-189 | read, removal and 405, with what each leaves |
| `NodeRaces.FresherExactly` | daemon/internal/scheduler/scheduler.go:93-95 | over every interleaving of samples, reads and commits: a record with a later heartbeat than a given one is stored at the end if and only if it was the last of the node's to be written, or was there and stayed |
| `NodeRaces.OverwritesExactly` | daemon/internal/scheduler/scheduler.go:128-142 | the commit of a record the scheduler has read puts a later heartbeat back if and only if a record with one was committed since the read, and was the last of the node's to be written |
| `NodeRaces.LosesOnlyLaterSamples` | daemon/internal/heartbeat/heartbeat.go:55-75 | and that can only be a heartbeat sampled since the read |
| `NodeRaces.BeatThenDown` | daemon/internal/heartbeat/heartbeat.go:55-75 | the smallest case: a node that is alive is left Down, until its next heartbeat |
| `SpecRaces.PrepareExactly` | daemon/internal/scheduler/scheduler.go:145-242 | what each writer changes of the copy it has read, field by field |
| `SpecRaces.StepKeepsSpecs` | daemon/internal/api/rest.go:144-219 | each read, commit, removal or in-place write keeps every stored and every held specification what was first registered |
| `SpecRaces.SpecsNeverChange` | daemon/internal/scheduler/scheduler.go:145-242 | over every interleaving of the reads and commits of start, stop, restart, group deletion, evacuation and autoscaling |
| `SpecRaces.LateCommitResurrects` | daemon/internal/api/rest.go:191-203 | what it brings back is the record as it was read, changed as the writer meant to |
| `SpecRaces.PresenceExactly` | daemon/internal/api/rest.go:170-219 | over every interleaving: a record is there at the end if and only if it was there and was not removed, or a held copy was committed after its last removal |
| `SpecRaces.RemovalUndoneExactly` | daemon/internal/api/rest.go:179-185 | so a removal is undone if and only if a commit of a held copy follows the last one |
| `Handover.AcquireStep` | bridge/common/src/main/kotlin/net/aethernet/bridge/common/RedisStateStore.kt:38-43 | SET NX: a player's exclusion breaks exactly when it meets a section of that player that has outlived its lock |
| `Handover.ExclusionStep` | bridge/common/src/main/kotlin/net/aethernet/bridge/common/RedisStateStore.kt:38-49 | the same for every step of the protocol |
| `Handover.LockSafety` | bridge/paper/src/main/kotlin/net/aethernet/bridge/paper/AetherPaperPlugin.kt:51-65 | in every run of any number of servers and players: at most one is in its section for a player throughout, if and only if nobody ever tries to acquire while a section of that player has outlived its lock |
| `Handover.TimelyNeverOverdue` | bridge/paper/src/main/kotlin/net/aethernet/bridge/paper/AetherPaperPlugin.kt:51-65 | sections of the player that end within the TTL meet that condition |
| `Handover.ReleaseIsOwn` | bridge/common/src/main/kotlin/net/aethernet/bridge/common/RedisStateStore.kt:45-49 | a release then deletes its own lock and leaves every other |
| `Handover.SlowSectionLosesAnothersLock` | bridge/common/src/main/kotlin/net/aethernet/bridge/common/RedisStateStore.kt:45-49 | without the condition it deletes the next server's, for the owner is not checked |
| `Handover.LastAlwaysHoldsLock` | bridge/common/src/main/kotlin/net/aethernet/bridge/common/RedisStateStore.kt:38-49 | in every run a lock that is there is that of the last section to acquire |
| `Handover.ReleaseTakesAnothersExactly` | bridge/common/src/main/kotlin/net/aethernet/bridge/common/RedisStateStore.kt:45-49 | in every reachable state a release deletes the lock of another section if and only if the player has a lock and a section that acquired later |
| `Handover.LateStoreExactly` | bridge/common/src/main/kotlin/net/aethernet/bridge/common/RedisStateStore.kt:57-63 | a store leaves the bytes of the newest section, by the order of the acquires, under the data key if and only if no later section has already stored other bytes |
| `Handover.StoreKeepsHolds` | bridge/common/src/main/kotlin/net/aethernet/bridge/common/RedisStateStore.kt:57-63 | a store of the last section keeps the data key at the newest bytes |
| `Handover.DataStaysNewest` | bridge/paper/src/main/kotlin/net/aethernet/bridge/paper/AetherPaperPlugin.kt:50-65 | in every run without acquires over overdue sections the data key holds what the last section to acquire, of those that stored, has stored, with a TTL counted from no earlier than that store or none |
| `Handover.FinalExactly` | bridge/paper/src/main/kotlin/net/aethernet/bridge/paper/AetherPaperPlugin.kt:50-80 | what there is to read will not change without a new section, if and only if no open section has yet to store |
| `Handover.FreeLockNoSection` | bridge/common/src/main/kotlin/net/aethernet/bridge/common/RedisStateStore.kt:51-55 | a free lock means an empty section, if sections end within the TTL |
| `Handover.NothingStored` | bridge/paper/src/main/kotlin/net/aethernet/bridge/paper/AetherPaperPlugin.kt:50-65 | without an open section and without a new one nothing is stored |
| `Handover.ReadableExactly` | bridge/common/src/main/kotlin/net/aethernet/bridge/common/RedisStateStore.kt:57-69 | in every run after a TTL has been set, with no other store or TTL command of the player: a read finds the bytes if and only if the TTL has not passed |
| `Handover.ReadableForEver` | bridge/common/src/main/kotlin/net/aethernet/bridge/common/RedisStateStore.kt:57-63 | bytes whose TTL command never arrives stay |
| `Handover.Limits` | bridge/common/src/main/kotlin/net/aethernet/bridge/common/RedisStateStore.kt:38-63 | the limits of both instances, to the millisecond |
| `Handover.HandoverDelivers` | bridge/paper/src/main/kotlin/net/aethernet/bridge/paper/AetherPaperPlugin.kt:50-91 | under quick sections of the player up to the check and no new one until the join: no section is open at the check or the join, what the check would read is final, and the join reads exactly the bytes of the last section to acquire, of those that stored, until the data TTL since it was set has passed, and nothing from then on |
| `Handover.HandoverFromStart` | bridge/paper/src/main/kotlin/net/aethernet/bridge/paper/AetherPaperPlugin.kt:50-91 | the same for both instances from the empty store on |
| `Handover.SlowSectionHandsOverStale` | bridge/paper/src/main/kotlin/net/aethernet/bridge/paper/AetherPaperPlugin.kt:50-80 | without quick sections the check can pass over a section that is still to store: what the reader gets is not final |
| `Handover.SlowSectionOverwritesNewer` | bridge/paper/src/main/kotlin/net/aethernet/bridge/paper/AetherPaperPlugin.kt:50-80 | and the reader can get the bytes of an older section in place of those of a newer one |
| `BridgeHandlers.MineConcat` | bridge/paper/src/main/kotlin/net/aethernet/bridge/paper/AetherPaperPlugin.kt:50-65 | the steps of one section in a run made of two |
| `BridgeHandlers.OthersLeaveMine` | bridge/common/src/main/kotlin/net/aethernet/bridge/common/RedisStateStore.kt:38-63 | no step of another section touches one that is open |
| `BridgeHandlers.Net.Take` | bridge/common/src/main/kotlin/net/aethernet/bridge/common/RedisStateStore.kt:38-63 | one store command, with any steps of others before it |
| `BridgeHandlers.OnQuit` | bridge/paper/src/main/kotlin/net/aethernet/bridge/paper/AetherPaperPlugin.kt:50-65 | for every choice of what throws, and whatever others do between its commands, exactly which protocol steps the handler takes: acquire, store, set the TTL, release, each left out where and only where it must be |
| `BridgeHandlers.TryAcquire` | bridge/paper/src/main/kotlin/net/aethernet/bridge/paper/AetherPaperPlugin.kt:53-56 | a refused, a lost and an unanswered SET NX; the last leaves a lock that only expires |
| `BridgeHandlers.OnPlayerQuit` | bridge/paper/src/main/kotlin/net/aethernet/cloud/PlayerQuitHandler.kt:38-90 | the same for the second instance, with the write to MariaDB: a profile that does not serialize takes no lock, and whatever throws in between the lock is released |
| `BridgeHandlers.ReleasedExactly` | bridge/paper/src/main/kotlin/net/aethernet/bridge/paper/AetherPaperPlugin.kt:50-65 | for both instances and every choice of what goes wrong: the lock is released if and only if it was won with an answer and the release goes out; and when the Paper section stores and sets the TTL |
| `BridgeHandlers.ReleasedAfterBothWrites` | bridge/paper/src/main/kotlin/net/aethernet/cloud/PlayerQuitHandler.kt:67-88 | for every choice of what goes wrong: the lock is released if and only if it was won with an answer and the release goes out; and then both writes have been made if and only if the first was answered, there is a connection pool and the second went out |
| `BridgeHandlers.ThrowingDatabaseReleases` | bridge/paper/src/main/kotlin/net/aethernet/cloud/PlayerQuitHandler.kt:78-88 | the case the comment rules out: the database throws and the lock is released |
| `BridgeHandlers.RunSplit` | bridge/paper/src/main/kotlin/net/aethernet/bridge/paper/AetherPaperPlugin.kt:67-91 | a run can be cut anywhere |
| `BridgeHandlers.OnPreLogin` | bridge/paper/src/main/kotlin/net/aethernet/bridge/paper/AetherPaperPlugin.kt:67-80 | admitted exactly if the last look found no lock; refused only after the timeout, or if the lock was free at an earlier look and taken again at the last |
| `BridgeHandlers.LoginAndJoin` | bridge/paper/src/main/kotlin/net/aethernet/bridge/paper/AetherPaperPlugin.kt:67-91 | the two handlers with others running before, between and after their commands: the handover theorem for what the join applies, empty bytes counting as none, with nobody in a section at the check or the join; refused only over a lock |
| `BridgeHandlers.Delivered` | bridge/paper/src/main/kotlin/net/aethernet/bridge/paper/AetherPaperPlugin.kt:82-91 | the handover theorem for the history of a run |
| `BridgeHandlers.WaitForKeyDeletion` | bridge/paper/src/main/kotlin/net/aethernet/cloud/RedisClient.kt:64-71 | true only if the key was seen absent at the end, false only once the timeout has passed |
| `BridgeHandlers.PreLoginHandler.OnAsyncPreLogin` | bridge/paper/src/main/kotlin/net/aethernet/cloud/PlayerPreLoginHandler.kt:35-62 | what is fetched is kept for the join, after a timeout too, which takes its full time; without one the handover theorem holds of it, with nobody in a section at the check or the fetch |
| `BridgeHandlers.PreLoginHandler.OnPlayerJoin` | bridge/paper/src/main/kotlin/net/aethernet/cloud/PlayerPreLoginHandler.kt:64-67 | the kept profile is taken out once |
| `BridgeHandlers.JoinInjectsLastFetch` | bridge/paper/src/main/kotlin/net/aethernet/cloud/PlayerPreLoginHandler.kt:54-67 | the join injects what the last pre-login fetched if and only if that found something or no earlier, never joined one had |
| `BridgeHandlers.SectionLeaves` | bridge/paper/src/main/kotlin/net/aethernet/bridge/paper/AetherPaperPlugin.kt:50-65 | for both instances, in every state in which a section wins the lock and for every choice of what goes wrong: the lock is left if and only if it is not released, a reader finds the bytes if and only if the store arrived, with a TTL if and only if that was set, and otherwise what was there before; the database has them if and only if both writes were made |
| `WaitLoops.WaitForKeyDeletion` | bridge/paper/src/main/kotlin/net/aethernet/cloud/RedisClient.kt:64-71 | with sleeps and looks of exact length: at most the quotient rounded up many checks; true if and only if one of those looks finds the key absent; true for sure if it is absent from one round before the deadline on |
| `WaitLoops.OnPreLogin` | bridge/paper/src/main/kotlin/net/aethernet/bridge/paper/AetherPaperPlugin.kt:67-80 | every look before the last found the lock; refused only at the deadline, and never if the lock is gone for good by then |
| `ByteStreams.BigEndianRoundTrip` | bridge/paper/src/main/kotlin/net/aethernet/cloud/NbtSerializer.kt:35 | fixed-width integers of any width come back |
| `ByteStreams.BigEndianByte` | bridge/paper/src/main/kotlin/net/aethernet/cloud/NbtSerializer.kt:35 | which byte of a number stands where |
| `ByteStreams.IntRoundTrip` | bridge/paper/src/main/kotlin/net/aethernet/cloud/NbtSerializer.kt:71 | signed 32-bit integers come back, whatever follows |
| `ByteStreams.CharRoundTrip` | bridge/paper/src/main/kotlin/net/aethernet/cloud/NbtSerializer.kt:67 | one UTF-16 unit in modified UTF-8 |
| `ByteStreams.CharLayout` | bridge/paper/src/main/kotlin/net/aethernet/cloud/NbtSerializer.kt:67 | how many bytes a unit takes and what each of them is |
| `ByteStreams.UTFRoundTrip` | bridge/paper/src/main/kotlin/net/aethernet/cloud/NbtSerializer.kt:67 | every string that writeUTF accepts |
| `ProfileCodec.SlotsRoundTrip` | bridge/paper/src/main/kotlin/net/aethernet/cloud/NbtSerializer.kt:158-185 | item slots, empty ones included |
| `ProfileCodec.ItemsRoundTrip` | bridge/paper/src/main/kotlin/net/aethernet/cloud/NbtSerializer.kt:158-185 | item arrays of any length |
| `ProfileCodec.VitalsRoundTrip` | bridge/paper/src/main/kotlin/net/aethernet/cloud/NbtSerializer.kt:53-64 | nine numbers in their order and widths |
| `ProfileCodec.EffectsRoundTrip` | bridge/paper/src/main/kotlin/net/aethernet/cloud/NbtSerializer.kt:69-79 | any number of potion effects |
| `ProfileCodec.ProfileRoundTrip` | bridge/paper/src/main/kotlin/net/aethernet/cloud/NbtSerializer.kt:29-156 | every field of every encodable profile comes back and exactly its bytes are consumed, whatever follows |
| `ProfileCodec.ProfileLayout` | bridge/paper/src/main/kotlin/net/aethernet/cloud/NbtSerializer.kt:34-79 | the version and all parts of a profile, in their order |
| `ProfileCodec.SlotLayout` | bridge/paper/src/main/kotlin/net/aethernet/cloud/NbtSerializer.kt:160-170 | an item slot, byte by byte |
| `ProfileCodec.VitalsLayout` | bridge/paper/src/main/kotlin/net/aethernet/cloud/NbtSerializer.kt:53-64 | the nine numbers by their offsets |
| `ProfileCodec.EffectLayout` | bridge/paper/src/main/kotlin/net/aethernet/cloud/NbtSerializer.kt:72-79 | a potion effect by its offsets |
| `ProfileCodec.DecodeExtends` | bridge/paper/src/main/kotlin/net/aethernet/cloud/NbtSerializer.kt:88-156 | on a longer input the reader finds the same |
| `ProfileCodec.TruncatedFails` | bridge/paper/src/main/kotlin/net/aethernet/cloud/NbtSerializer.kt:88-156 | a profile that has lost any bytes at its end is never read as one |
| `ProfileCodec.VersionExactly` | bridge/paper/src/main/kotlin/net/aethernet/cloud/NbtSerializer.kt:93-98 | another version is told apart whatever follows |
| `ProfileIO.SerializeItemArray` | bridge/paper/src/main/kotlin/net/aethernet/cloud/NbtSerializer.kt:158-171 | the loop writes exactly the encoded array |
| `ProfileIO.Serialize` | bridge/paper/src/main/kotlin/net/aethernet/cloud/NbtSerializer.kt:29-82 | the writer produces the encoded profile, or throws exactly if a name is too long |
| `ProfileIO.DeserializeItemArray` | bridge/paper/src/main/kotlin/net/aethernet/cloud/NbtSerializer.kt:173-185 | the loop reads exactly what parsing says, or throws where it fails |
| `ProfileIO.ReadEffects` | bridge/paper/src/main/kotlin/net/aethernet/cloud/NbtSerializer.kt:142-154 | an effect with an unknown name is left out and the reader stays aligned |
| `ProfileIO.KnownOnlyExactly` | bridge/paper/src/main/kotlin/net/aethernet/cloud/NbtSerializer.kt:145-154 | exactly the effects with an unknown name are left out, and the others stay in their order |
| `ProfileIO.Player.Deserialize` | bridge/paper/src/main/kotlin/net/aethernet/cloud/NbtSerializer.kt:88-156 | which fields of the player become what; a wrong version changes nothing |
| `ProfileIO.Player.SetEnderChest` | bridge/paper/src/main/kotlin/net/aethernet/cloud/NbtSerializer.kt:115-120 | the chest keeps its size and the slots beyond those sent |
| `ProfileIO.Transfer` | bridge/paper/src/main/kotlin/net/aethernet/cloud/NbtSerializer.kt:29-156 | writer and reader together, slot by slot: what of a profile arrives on another server, and what does not; of an offhand sent empty it says nothing |
| `Rcon.LittleEndianRoundTrip` | daemon/internal/rcon/client.go:95-97 | 32-bit integers come back |
| `Rcon.PacketRoundTrip` | daemon/internal/rcon/client.go:90-125 | a packet with a body of up to 4086 bytes is read back, a longer one refused by its size, whatever follows |
| `Rcon.LayoutExactly` | daemon/internal/rcon/client.go:90-99 | which byte of a packet stands where |
| `Rcon.NoPacket` | daemon/internal/rcon/client.go:105-117 | a bad size and a stream that is too short |
| `Rcon.StreamRoundTrip` | daemon/internal/rcon/client.go:90-125 | any sequence of packets is read back as that sequence |
| `Rcon.GatherUpToAnswer` | daemon/internal/rcon/client.go:55-68 | the bodies up to and including the first packet with the identifier, and the stream behind it |
| `Rcon.GatherWithoutAnswer` | daemon/internal/rcon/client.go:55-63 | without one: all the bodies, and the error |
| `Rcon.AnswerExactly` | daemon/internal/rcon/client.go:55-68 | a command gets the packet that answers it, and leaves nothing to the next one, if and only if nothing that was left on the stream has its identifier |
| `Rcon.LoginAnsweredTwice` | daemon/internal/rcon/client.go:48-88 | a login answered by two packets: the first command returns the second of them |
| `Rcon.Client.Auth` | daemon/internal/rcon/client.go:75-88 | one packet sent and one read, of which only the type is looked at |
| `Rcon.Frame` | daemon/internal/rcon/client.go:90-99 | the buffer filled in place is the encoded packet |
| `Rcon.Client.WritePacket` | daemon/internal/rcon/client.go:90-103 | the whole packet goes out, or as much of it as the connection takes before it fails |
| `Rcon.Client.ReadPacket` | daemon/internal/rcon/client.go:105-125 | one packet, a bad size or the end, with what is left of the stream |
| `Rcon.Client.Command` | daemon/internal/rcon/client.go:47-69 | the counter wraps around, the command is sent with it, the loop ends on every stream and returns what gathering says; nothing is read if the write fails |
| `NullMask.HighBit` | daemon/internal/database/workbench.go:215 | setting the highest bit leaves all others |
| `NullMask.ScanRow` | daemon/internal/database/workbench.go:211-219 | the row has the strings, and the mask bit of a column below 64 is set exactly if the cell is NULL |
| `NullMask.RowIsDetermined` | daemon/internal/database/workbench.go:211-219 | with up to 64 columns strings and mask determine the cells |
| `NullMask.MaskUnique` | daemon/internal/database/workbench.go:211-219 | a row has one mask only |
| `NullMask.OneNull` | daemon/internal/database/workbench.go:212-216 | which number it is |
| `NullMask.WideRowsAreNot` | daemon/internal/database/workbench.go:215 | from column 64 on NULL and the empty string are told apart no more |
| `NullMask.ScanResult` | daemon/internal/database/workbench.go:207-223 | rows and masks of equal length, the in-order prefix, up to the limit, of what the iteration delivers before it ends or breaks off; an error exactly if one of those rows fails to scan |
| `NullMask.WholeExactly` | daemon/internal/database/workbench.go:207-223 | a result that is no error is what the limit asks of the whole table if and only if the iteration does not break off before that |
| `NullMask.BrokenLooksEmpty` | daemon/internal/database/workbench.go:207-223 | a table broken off before its first row passes for an empty one |
| `Quorum.QuorumsIntersect` | pkg/quorum/quorum.go:8-19 | two quorums of a cluster share a voter |
| `Quorum.QuorumsIntersectAcrossChange` | pkg/quorum/quorum.go:8-19 | also when one voter has been added or removed between them |
| `Quorum.SizeIsLeast` | pkg/quorum/quorum.go:8-13 | and the size is the least that does it: one voter fewer, and every cluster has two disjoint sets of that many |
| `Quorum.SurvivesExactly` | pkg/quorum/quorum.go:15-19 | a cluster that loses voters still has a quorum if and only if it keeps more than it loses; one without voters has none |
| `Quorum.TwoAtOnceIsTooMuch` | pkg/quorum/quorum.go:8-19 | two voters changed at once are too many |

## Left out

- ClusterApply.Cluster.Apply: a commit that times out counts as not having happened; one that is reported as failed and takes effect later, which Raft allows, is not covered, nor are elections, log stores and transports.
- Scheduling.Scheduler.Tick: no other writer commits in the middle of a tick; such interleavings are covered for specifications, node records and templates, in `SpecRaces`, `NodeRaces` and `TaskRaces`.
- ProxyStream.Subscribe: the endless loop is modelled up to a point where the queue has been emptied, and `stream.Send` never fails; the timestamp of a message is left out.
- ProfileIO.Player.Deserialize: after a stream that ends too early only the outcome is stated, not which fields had been assigned by then. Values that the server itself rejects, such as a food level out of range, are not modelled, and adding the same effect twice is not merged.
- WaitLoops.WaitForKeyDeletion: negative poll intervals, at which the sleep throws, and a poll interval of zero with looks that take no time, at which the loop would not end.
- BridgeHandlers.WaitForKeyDeletion: poll intervals that are not positive; its caller uses 100 ms.
- BridgeHandlers.OnQuit: the route and online keys, which no reader of this model looks at, are only two more places where the handler may throw.
- BridgeHandlers.OnPlayerQuit: nothing is said of how durable the MariaDB write is.
- Rcon.Client.WritePacket: bodies whose packet length does not fit 32 bits are excluded.
- Rcon.Client.Command: read and write deadlines, and reconnection.
- ProfileIO.Transfer: nothing is said of the receiver's offhand when an empty one was sent; it depends on whether the offhand is also a slot of the contents array, which the plugin's code does not show.
- NullMask.ScanResult: column names and types, and how a value prints.
- JSON, GZIP and item stack bytes are taken as lossless, random identifiers as never repeating, floating-point numbers as their bits; capping health is a parameter.
- Records of nodes, groups, templates and databases are values: the code never writes through those pointers. Only servers live in the heap.
- A channel with no buffer, which hands over directly to a waiting receiver; no caller makes one.
- Locks and goroutines inside the daemon: each call of the state machine is one step, as its mutex makes it. `Subscribe` takes another mutex and can fall between the write of an entry and its publication; it reads none of the maps, and whoever reads them waits for the entry to end, so that this is the same as subscribing just before the entry.
- `bridge/paper/NbtSerializer.kt`: Bukkit's object serialization; its output is an opaque string of bytes here.
- The relation between armour slots and the rest of a Bukkit inventory: the four arrays are independent here.
- HTTP routing, authentication and scopes, the panel, the installer, Docker, iptables, HAProxy and keepalived, the Velocity plugin, update, backup and metrics code.
- SFTP path resolution, rate limiting and name sanitizing: single functions without state that others rely on; the first does what the path library does.
