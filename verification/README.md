# faabric: a Dafny model of its schedulers, MPI layer, RPC migration, snapshots and messaging

faabric runs distributed serverless applications. This project models the parts of it where a wrong
branch would lose a message, overfill a host or corrupt memory, and proves what those parts promise,
for every input and every run.

- **Scheduling and planner accounting.** `Placement`, `Decisions`, `HostOrder`, `Migrations`,
  `BinPackScheduler`, `PolicySchedulers`: greedy packing is globally optimal, a migration is accepted
  exactly when something better exists, and as few messages as possible move. `PlannerLedger`,
  `PlannerSteps`, `PlannerRuns`, `Planner`: the slot and MPI-port books kept by `callBatch` and
  `setMessageResult`, call by call and over every run of calls.
- **MPI.** `MessageNetwork`, `MpiCollectives`, `MpiPrograms`, `MpiResults`, `MpiCalls`: the two-level
  collectives, for every rank-to-host layout, never deadlock, never mix the messages of different calls,
  types or counts, and in every run of every program of calls deliver what MPI promises of each call
  (MPI 3.1, sections 5.3 to 5.9); no rank passes a barrier before all have entered it. `MpiReceives`: non-overtaking receives (MPI 3.1, sections 3.5 and
  3.7.4).
- **RPC migration.** `ServiceMigration` (invocation queues), `ContextRegistry` (responses and FETCHes),
  `RpcContexts` (the caller's channels and operations), `DependencyGraph` (where to move a service).
- **Memory.** `ByteRuns`, `SnapshotRegions`, `SnapshotMerge`, `Snapshot`: diffing and merging snapshots.
  `DeltaBytes`, `Delta`, `DeltaCodec`: the binary delta.
- **Point-to-point messages.** `PointToPoint`: ordered delivery over a reordering transport.

Code that changes state is modelled by classes and methods with loops, proved against specification
functions; the laws are lemmas about those functions. The network is a queue or a multiset, the clock
and the success of a send are parameters, and an exception is an `Option`, a `false` or a named outcome.

## Assumptions and findings

- Paged deltas compare each shared page with the *first* old page (src/util/delta.cpp:120-122), so the
  round trip fails on some inputs. `DeltaCodec.DeltaRoundTrip` gives the exact condition and
  `DeltaCodec.PageCanBeOverlooked` an input.
- A known-size app that ends before its scale change, or whose scale change does not ask for all its
  reserved rows, leaks slots (src/planner/Planner.cpp:511-528, 957-966).
  `PlannerSteps.FinishLedger` and `PlannerSteps.ConsumeLedger` state exactly when,
  `PlannerRuns.RunsKeepAccounts` does so for whole runs, and `Planner.EndBeforeScaling` makes the calls
  that show it. The comment at
  src/planner/Planner.cpp:628-630 speaks of consuming a preloaded decision in two steps, but the scale
  change erases it; the model follows the code.
- Registering a service over an undrained backlog drops it (src/rpc/RpcServer.cpp:426-429).
  `ServiceMigration.ConservedExactly` states that this is the only way conservation breaks.
- An INVOKE_FETCH that reaches its origin only after the instance has been there again and left again can
  make forwarding cycle. `ServiceMigration.ForwardingNeverCycles` is the law when every fetch is handled
  before the instance next leaves its origin, `ServiceMigration.RunsCycle` says for every run, late fetches
  or not, exactly which fetch closes a cycle, and `ServiceMigration.LateFetchMakesCycle` gives runs with one.
- `checkSendRecvMatch` throws on types that differ while counts agree, and lets counts differ
  (src/mpi/MpiWorld.cpp:856-869). `MpiCalls.GatherCountsMatch` says that the counts of a gather agree
  at both ends iff the caller's two counts do, which is what the model asks of a call.
- Awaiting a receive request that is not pending takes the next message off the pair's queue
  (src/mpi/MpiWorld.cpp:2019-2029); `MpiReceives.ReceiverPair.AwaitAsyncRequest` says so.
- A ready RPC operation with status -1 loses its readiness on migration, and the error message of a
  response does not migrate (src/rpc/RpcContext.cpp:195-198, 260-265); `RpcContexts.MigrationKeepsOp`
  says exactly when readiness and the response survive.
- Request ids start over when a caller migrates, because the restored context counts from the owner's seed
  (src/executor/Executor.cpp:391-392, src/rpc/RpcContext.cpp:77-81). A request whose id is pending is not
  recorded, and if it cannot be sent the operation that has the id fails in its place.
  `RpcContexts.RpcContext.StartUnary` states this, `RpcContexts.RestartAfterMove` makes the calls, and
  `RpcContexts.RestartedIds` says exactly which requests after a migration are recorded.
- Out-of-order buffers survive a change of point-to-point group
  (src/transport/PointToPointBroker.cpp:559-573); `PointToPoint.PointToPointBroker.InitSequenceCounters`
  states when a channel of the new group starts clean, and `PointToPoint.LeftoverIsReturned` what happens
  when it does not: receives are in order up to the lowest leftover number, which the leftover answers.
- The forced-migration policy says "force on every check" next to a period of ten
  (src/batch-scheduler/ForcedMigrationScheduler.cpp:24); the model uses ten.
- Sizes stay below 2^32 where the source stores them in 32 bits, host names are not empty, and request
  handling on one RPC server is serial.

## Model

| member | source | states |
|---|---|---|
| `Placement.FillIsBest` | src/batch-scheduler/BinPackScheduler.cpp:317-347 | among all histograms that respect the capacities, filling them largest first touches the fewest hosts and, among those, has the largest sum of squares |
| `Placement.CrossPairsAndSquares` | src/batch-scheduler/BinPackScheduler.cpp:97-148 | the number of unordered message pairs on different hosts, counted as a set, is what the sum of squares of the histogram says |
| `Placement.LargestFirstIsOptimal` | src/batch-scheduler/BinPackScheduler.cpp:317-347 | no capacity-respecting placement of as many messages has fewer hosts, or as many hosts and fewer cross-host pairs |
| `Decisions.SchedulingDecision.AddMessage` | src/batch-scheduler/SchedulingDecision.cpp:27-39 | the five parallel vectors stay aligned and gain one row |
| `Decisions.SchedulingDecision.AddMessageInPosition` | src/batch-scheduler/SchedulingDecision.cpp:41-66 | all five vectors grow together and only the given row changes |
| `Decisions.GetHostFreqCount` | src/batch-scheduler/BinPackScheduler.cpp:8-17 | the loop computes the multiset of hosts, with no empty entries |
| `Decisions.NextHostWithSlots` | src/batch-scheduler/BinPackScheduler.cpp:37-46 | finds the alphabetically first host with messages left |
| `Decisions.LessMeans` | src/batch-scheduler/BinPackScheduler.cpp:183-185 | names compare by the first character in which they differ, a proper prefix coming first |
| `HostOrder.NotAfterTransitive` | src/batch-scheduler/BinPackScheduler.cpp:168-228 | every comparator is a strict weak order, as a sort requires |
| `HostOrder.SortHosts` | src/batch-scheduler/BinPackScheduler.cpp:230-292 | the result holds the same hosts in the comparator's order |
| `Migrations.KeptBound` | src/batch-scheduler/BinPackScheduler.cpp:19-25 | no placement with a given histogram keeps more messages in place than the histograms have in common |
| `Migrations.MinimiseNumOfMigrations` | src/batch-scheduler/BinPackScheduler.cpp:26-92 | terminates without throwing, keeps positions and identities, has exactly the new histogram, moves only what it must and keeps exactly as many messages as the bound allows |
| `BinPackScheduler.GetLocalityScore` | src/batch-scheduler/BinPackScheduler.cpp:97-131 | the halved score is exactly the number of unordered pairs of messages on different hosts |
| `BinPackScheduler.IsFirstDecisionBetter` | src/batch-scheduler/BinPackScheduler.cpp:97-148 | decides the lexicographic order on host count and cross-host pairs |
| `BinPackScheduler.FreeOwnSlots` | src/batch-scheduler/BinPackScheduler.cpp:270-284 | gives back exactly the app's own slots, in the listing and in the shared host map alike |
| `BinPackScheduler.Pack` | src/batch-scheduler/BinPackScheduler.cpp:317-342 | the packing loop places messages in order and produces the greedy placement |
| `BinPackScheduler.PackedIsFeasible` | src/batch-scheduler/BinPackScheduler.cpp:317-347 | packing overfills no host and stops short only if no placement of that many messages fits |
| `BinPackScheduler.PackedIsOptimal` | src/batch-scheduler/BinPackScheduler.cpp:317-347 | packing in descending capacity is optimal, and beats whatever any other placement beats |
| `BinPackScheduler.OldPlacementFits` | src/batch-scheduler/BinPackScheduler.cpp:270-284 | if used slots cover the app and stay within slots, the app fits where it is once freed |
| `BinPackScheduler.ScheduleMigration` | src/batch-scheduler/BinPackScheduler.cpp:299-363 | refuses for slots iff nothing fits, or under the single-host hint iff no one host has room; declines iff nothing that fits is better; else returns an optimal, strictly better placement that moves as few messages as possible and uses a host only once those with more slots free, or as many and more of the app's own messages, are full |
| `BinPackScheduler.ScheduleMessages` | src/batch-scheduler/BinPackScheduler.cpp:299-363 | refuses iff nothing fits, or under the single-host hint iff the preferred host lacks room; else places every message in order within capacity: a new app optimally, using a host only once all roomier ones are full; a growing app using one only once all with more of its own messages, and among equals all roomier ones, are full |
| `BinPackScheduler.PackedFillsInOrder` | src/batch-scheduler/BinPackScheduler.cpp:239-254 | packing uses a host only once every host the order prefers is full |
| `BinPackScheduler.FreqMeans` | src/batch-scheduler/BinPackScheduler.cpp:187-211 | filling in the order of a scale change means: a host gets messages only once every host with more of the app's own, and among equals every roomier one, is full |
| `BinPackScheduler.OwnFitsMeans` | src/batch-scheduler/BinPackScheduler.cpp:310-315 | the host kept under the single-host hint is the one with most of the app's own messages, the roomiest among equals |
| `BinPackScheduler.SingleHostFacts` | src/batch-scheduler/BinPackScheduler.cpp:310-315 | keeping only the first host works iff that host has room for all, and is then what packing all hosts gives |
| `BinPackScheduler.BetterDescends` | src/batch-scheduler/BinPackScheduler.cpp:133-148 | "better" strictly decreases a natural number |
| `BinPackScheduler.MigrationsTerminate` | src/batch-scheduler/BinPackScheduler.cpp:349-360 | every run of accepted migrations of a fixed app has bounded length |
| `PlannerLedger.SlotAccounting` | src/planner/Planner.cpp:81-91 | on every host, in-flight messages plus reserved slots are at most the used slots, which are at most the slots; equal to the used slots iff every marked port has a holder |
| `PlannerLedger.ExactMeansEqual` | src/planner/Planner.cpp:81-123 | no port is marked without an owner iff on every host messages and reservations are as many as the used slots |
| `PlannerLedger.PortsAreDistinct` | src/planner/Planner.cpp:93-123 | two messages or reservations on one host never share a port |
| `PlannerLedger.PortAvailable` | src/planner/Planner.cpp:93-107 | a claimed slot always finds a free port |
| `PlannerLedger.ReplaceKeepsInv` | src/planner/Planner.cpp:1104-1276 | a step that changes one app's holdings, taking only its own or free ports, keeps the books right |
| `PlannerLedger.ExactUnlessLeaked` | src/planner/Planner.cpp:1104-1276 | such a step keeps exact books exact iff it leaves no port of the app marked but unowned |
| `PlannerSteps.KeepFirst` | src/planner/Planner.cpp:1138-1142 | removing the other messages one by one by id leaves exactly the first row |
| `PlannerSteps.NewIsSound` | src/planner/Planner.cpp:1105-1151 | a new app, known-size or not, holds one fresh port per row and nothing else changes |
| `PlannerSteps.GrowIsSound` | src/planner/Planner.cpp:1152-1194 | growing adds fresh ports only |
| `PlannerSteps.ConsumeLedger` | src/planner/Planner.cpp:615-655 | consuming a reservation keeps the books right, and exact iff every reserved row is asked for |
| `PlannerSteps.FinishLedger` | src/planner/Planner.cpp:465-531 | a result gives back one slot and port; books stay exact iff the app did not end with slots still reserved |
| `PlannerRuns.MigrateHappens` | src/planner/Planner.cpp:1195-1269 | releasing every moved row before claiming again changes exactly the moved rows' ports and slots |
| `PlannerRuns.MoveIsSound` | src/planner/Planner.cpp:1195-1269 | so a migration keeps the books right and exact |
| `PlannerRuns.EventKeepsBooks` | src/planner/Planner.cpp:302-1300 | a registration, start, growth, scale change, migration or result keeps the books right, and exact iff it is not a scale change that leaves reserved rows nor the end of an app that has some |
| `PlannerRuns.RunsKeepAccounts` | src/planner/Planner.cpp:302-1300 | in every state of every run of such calls: messages plus reservations are at most the used slots of their host, those at most its slots, no two share a port, and they make up the used slots of every host iff no call of the run leaked |
| `Planner.Planner.RegisterHost` | src/planner/Planner.cpp:302-371 | a new host joins with all slots and ports free; a known one or a negative size changes nothing |
| `Planner.Planner.ClaimHostMpiPort` | src/planner/Planner.cpp:93-107 | marks the lowest free port, or fails iff all are used |
| `Planner.Planner.ReleaseHostMpiPort` | src/planner/Planner.cpp:109-123 | frees exactly that port, or fails iff the host has no such port |
| `Planner.Planner.ClaimBoth` | src/planner/Planner.cpp:1108-1118 | with a slot to spare, claiming slot and port never fails |
| `Planner.Planner.ScheduleNew` | src/planner/Planner.cpp:1105-1151 | every row gets a port of its own; a known-size app keeps one row in flight and all rows in reserve |
| `Planner.Planner.ScheduleMore` | src/planner/Planner.cpp:1152-1194 | slots first, then ports: the rows are appended with ports nobody else holds |
| `Planner.Planner.GetPreloadedSchedulingDecision` | src/planner/Planner.cpp:615-655 | finds for every message the reserved row of its group index, under the message's id |
| `Planner.Planner.ConsumePreloaded` | src/planner/Planner.cpp:957-966 | reserved rows move into flight under the messages' ids and indexes; exactness kept iff all of them do |
| `Planner.Planner.ScheduleMove` | src/planner/Planner.cpp:1195-1269 | moved rows get new ports, the others keep theirs, and books stay right and exact |
| `Planner.Planner.Freeze` | src/planner/Planner.cpp:1009-1021 | freezing an app only notes it as evicted: its messages stay on the books until they report |
| `Planner.Planner.SetMessageResult` | src/planner/Planner.cpp:401-531 | ends exactly the reporting message: its row, slot and port go, and its result is noted unless it was frozen; repeated and migrated reports change nothing |
| `Planner.UsedCoversRunning` | src/planner/Planner.cpp:81-91 | used slots cover every app's own messages, as the schedulers assume |
| `Planner.MigrationFits` | src/batch-scheduler/BinPackScheduler.cpp:270-284 | on the planner's own books a migration check never runs out of slots |
| `Planner.Planner.CallNew` | src/planner/Planner.cpp:967-989 | refused iff the whole app does not fit, else every message, or as many as the known size, is placed optimally and roomiest first, gets a port of its own, and runs or is held in reserve |
| `Planner.Planner.CallScale` | src/planner/Planner.cpp:957-989 | with a reserve, the messages take the reserved rows of their group indexes; without, refused iff they do not fit, else appended on the app's own hosts first |
| `Planner.Planner.CallMigrate` | src/planner/Planner.cpp:903-911 | accepted iff some fitting placement is better; then the rows move to an optimal, better one that keeps as many messages in place as any of its histogram, and only moved rows change ports |
| `Planner.Planner.CallBatch` | src/planner/Planner.cpp:814-1300 | with the BinPack policy every call is exactly the start, growth, scale change or migration it should be, with the rows, books and refusals stated for each; keeps the books right, and exact iff no reserved row is left over; refusals change nothing |
| `Planner.EndBeforeScaling` | src/planner/Planner.cpp:511-528 | a two-rank app that ends before its scale change leaves a slot used that nobody holds |
| `PolicySchedulers.FilterEvicted` | src/batch-scheduler/SpotScheduler.cpp:102-117 | removes exactly the hosts marked for eviction |
| `PolicySchedulers.SpotMessages` | src/batch-scheduler/SpotScheduler.cpp:258-304 | refuses iff the remaining hosts lack room; else places roomiest first, or on the app's own hosts first when it grows, and never on a host about to be evicted |
| `PolicySchedulers.SpotMigration` | src/batch-scheduler/SpotScheduler.cpp:258-329 | freezes iff the app does not fit elsewhere, migrates iff it also has a message on an evicted host, own hosts first, and never back onto one |
| `PolicySchedulers.OnlyEvictedFreeze` | src/batch-scheduler/SpotScheduler.cpp:306-313 | on consistent accounting only an app with a message on an evicted host is frozen |
| `PolicySchedulers.NextHostAfter` | src/batch-scheduler/ForcedMigrationScheduler.cpp:99-121 | finds the cyclically next host with room; the current one only if no other has any |
| `PolicySchedulers.RotatePlacement` | src/batch-scheduler/ForcedMigrationScheduler.cpp:85-137 | never throws, overfills no host, keeps identities, sends each message to the next host round whose slots the earlier messages have not filled, and leaves one only if every other host ends up full |
| `PolicySchedulers.ForcedMigrationScheduler.ForcedMigration` | src/batch-scheduler/ForcedMigrationScheduler.cpp:153-180 | only every tenth check migrates, to a feasible different placement in which each message has gone round, roomiest host first, past full hosts only; it declines then only if that is where all messages are |
| `PolicySchedulers.CompactIsFirstBetter` | src/batch-scheduler/CompactScheduler.cpp:113-172 | compares the numbers of empty hosts with either placement added |
| `PolicySchedulers.FilterOtherUsers` | src/batch-scheduler/CompactScheduler.cpp:174-195 | removes exactly the hosts that run another user's app |
| `PolicySchedulers.CompactMigration` | src/batch-scheduler/CompactScheduler.cpp:339-400 | refuses iff nothing fits, declines iff packing the fullest hosts first empties no more hosts; an accepted migration has that packing's histogram, uses a host only once all with more used slots are full, and avoids other users' hosts |
| `PolicySchedulers.CompactEmptiesHosts` | src/batch-scheduler/CompactScheduler.cpp:386-397 | if used slots cover the app, and one more on hosts it shares with other users, the whole host map gains an empty host |
| `MessageNetwork.StepInv` | src/mpi/MpiWorld.cpp:590-705 | every send and receive over the per-pair queues keeps queue contents and histories in step with the programs |
| `MessageNetwork.Progress` | src/mpi/MpiWorld.cpp:590-705 | while any rank is unfinished, some rank can take a step |
| `MessageNetwork.RunsComplete` | src/mpi/MpiWorld.cpp:590-705 | matched programs never get stuck short of completion, runs are bounded and all queues end empty |
| `MpiCollectives.LeaderIsLowest` | src/mpi/MpiWorld.cpp:318-367 | a host's leader is its lowest rank |
| `MpiCollectives.FanMembers` | src/mpi/MpiWorld.cpp:786-854 | a root talks exactly to its own host's ranks and the other hosts' leaders |
| `MpiCollectives.StageMatches` | src/mpi/MpiWorld.cpp:786-1111 | within each broadcast, scatter, gather, reduce, all-to-all or barrier stage, what s sends to r is what r expects from s, in order |
| `MpiCollectives.ProgramsMatch` | src/mpi/MpiWorld.cpp:1127-1264 | programs made of any sequence of stages match, and later stages wait for earlier ones |
| `MpiCalls.GatherCountsMatch` | src/mpi/MpiWorld.cpp:917-1080 | what the root posts, one chunk per local rank and one per rank of a leader's host, is what it is sent iff both ends give the same count |
| `MpiCalls.CallOfMessage` | src/mpi/MpiWorld.cpp:786-1775 | what a rank is meant to receive during its i-th call belongs to that call |
| `MpiCalls.CollectivesComplete` | src/mpi/MpiWorld.cpp:786-1775 | for every layout, every list of collectives and every schedule: no deadlock, whatever a rank takes during its i-th call was sent for the i-th call, type and count agree, queues end empty, and every call a rank has received all of gave it what MPI promises |
| `MpiCalls.CallKeepsPromise` | src/mpi/MpiWorld.cpp:786-1484 | what a call sends a rank amounts to: the root's value, its r-th part for rank r, all chunks in rank order, the greatest, least or sum of each element, or rank s's chunk for r at position s |
| `MpiCalls.BarrierHolds` | src/mpi/MpiWorld.cpp:1753-1775 | in every state of every run, if some rank is past a barrier then every other rank has entered it |
| `MpiCalls.BroadcastSource` | src/mpi/MpiWorld.cpp:786-854 | a rank other than the root hears once, from the root if it is on its host or is its own host's leader, else from its leader |
| `MpiPrograms.ThenConsistent` | src/mpi/MpiWorld.cpp:786-1775 | ranks that compute what one part of a program asks and then what the next asks compute what the whole asks |
| `MpiPrograms.MiddleReceived` | src/mpi/MpiWorld.cpp:786-1775 | what a rank receives during one call of a program does not depend on what is called before or after |
| `MpiResults.OpReduce` | src/mpi/MpiWorld.cpp:1266-1388 | each element becomes the greater, the lesser or the sum of the two, in place |
| `MpiResults.LeaderReduces` | src/mpi/MpiWorld.cpp:1127-1249 | a leader's partial result covers exactly its host's ranks, each once |
| `MpiResults.RootReduces` | src/mpi/MpiWorld.cpp:1127-1249 | the root's fold of local buffers and leaders' partials equals the flat fold over all ranks |
| `MpiResults.FlatReduceMeans` | src/mpi/MpiWorld.cpp:1266-1388 | the flat fold is, element by element, the greatest, the least or the sum over all ranks |
| `MpiResults.ReduceInto` | src/mpi/MpiWorld.cpp:1127-1186 | folding received buffers into the output in place gives their combination |
| `MpiResults.ReduceResult` | src/mpi/MpiWorld.cpp:1127-1264 | wherever in a program reduce or allReduce is called, in every complete run the root, or every rank, gets the flat result from it, which is the maximum, minimum or sum over all ranks |
| `MpiResults.GatherAtRoot` | src/mpi/MpiWorld.cpp:917-1080 | the root's buffer ends with rank r's data at position r, in place or not |
| `MpiResults.GatherPlacesAll` | src/mpi/MpiWorld.cpp:917-1080 | unpacking the leaders' bundles files every rank's data where it belongs |
| `MpiResults.GatherResult` | src/mpi/MpiWorld.cpp:917-1111 | wherever in a program gather or allGather is called, in every complete run the root, or every rank, gets all data in rank order from it |
| `MpiReceives.RequestIdRoundTrip` | src/mpi/MpiWorld.cpp:497-538 | the packed request id gives back ranks and direction |
| `MpiReceives.RequestIdZero` | src/mpi/MpiWorld.cpp:497-526 | the id a blocking receive passes is a request's only for rank 0 receiving from itself with unique byte 0 |
| `MpiReceives.ReceiverPair.IRecv` | src/mpi/MpiWorld.cpp:560-588 | a posted receive, under an id packed from its ranks, queues behind the earlier ones |
| `MpiReceives.ReceiverPair.RecvBatchReturnLast` | src/mpi/MpiWorld.cpp:1963-2030 | a pending request is served and taken off, the others stay; otherwise the next message is taken |
| `MpiReceives.ReceiverPair.AwaitAsyncRequest` | src/mpi/MpiWorld.cpp:1113-1125 | whatever was awaited before, the k-th posted receive gets the k-th message and the other requests stay pending; a send has nothing to await |
| `MpiReceives.ReceiverPair.Recv` | src/mpi/MpiWorld.cpp:680-705 | a blocking receive posted k-th gets the k-th message |
| `MpiReceives.ReceiverPair.ServePending` | src/mpi/MpiWorld.cpp:1963-2030 | serving up to a request acknowledges a prefix of the pending list |
| `ServiceMigration.ConservedExactly` | src/rpc/RpcServer.cpp:414-430 | an event keeps every accepted invocation in order iff it does not register over an undrained backlog |
| `ServiceMigration.RunsConserve` | src/rpc/RpcServer.cpp:470-562 | over any such run, what was accepted is exactly what left followed by what waits |
| `ServiceMigration.ExpiryKeepsBacklog` | src/rpc/RpcServer.cpp:495-520 | an expired entry with a backlog is refreshed, never dropped |
| `ServiceMigration.RpcServer.EnqueueInvocation` | src/rpc/RpcServer.cpp:470-538 | rejected iff shut down, unknown, or forwarding has expired with nothing parked; else queued where a queue is open, parked while no destination is known, forwarded to the destination once one is; one instance only |
| `ServiceMigration.RpcServer.TryDequeueInvocation` | src/rpc/RpcServer.cpp:540-562 | hands out the oldest queued invocation |
| `ServiceMigration.RpcServer.BeginServiceQueueMigration` | src/rpc/RpcServer.cpp:609-653 | the whole queue becomes backlog, in order, and the queue is gone |
| `ServiceMigration.RpcServer.RecvInvocationFetch` | src/rpc/RpcServer.cpp:245-308 | iff the instance has left, hands out the whole backlog in order and remembers the asking host as destination |
| `ServiceMigration.RpcServer.RegisterServiceInstance` | src/rpc/RpcServer.cpp:414-435 | opens the queue and forgets the migration entry; zero ids are refused |
| `ServiceMigration.ForwardsToLastFetch` | src/rpc/RpcServer.cpp:245-308 | in every run, the destination of an instance that has left is the host of the last fetch since |
| `ServiceMigration.MoveKeepsInv` | src/rpc/RpcServer.cpp:277-293 | across hosts, destinations always point to where the instance went later, if no host is left with a fetch outstanding |
| `ServiceMigration.PathsAreSimple` | src/rpc/RpcServer.cpp:495-538 | then no path along destinations visits a host twice |
| `ServiceMigration.Resolve` | src/rpc/RpcServer.cpp:495-538 | following destinations from any host reaches one that does not forward |
| `ServiceMigration.ForwardingNeverCycles` | src/executor/Executor.cpp:449-462 | both in every state reachable by such a run |
| `ServiceMigration.MoveMakesCycle` | src/rpc/RpcServer.cpp:245-308 | in any state without a cycle a move makes one iff it is a fetch handled by a host that has an entry and that forwarding from the fetch's sender leads to |
| `ServiceMigration.RunsCycle` | src/rpc/RpcServer.cpp:245-308 | so every run, timely or not, is free of cycles throughout iff it has no such move |
| `ServiceMigration.LateFetchCycles` | src/rpc/RpcServer.cpp:277-293 | leaving a host before it has handled a fetch makes a cycle, if it handles it next, iff forwarding from the fetch's sender leads to that host |
| `ServiceMigration.LateFetchMakesCycle` | src/rpc/RpcServer.cpp:277-293 | between any two hosts there is such a run |
| `ContextRegistry.ResponseAndFetchMeet` | src/rpc/RpcServer.cpp:144-239 | one response and any FETCHes in any order: cached until sent, sent at most once, and from the moment both are there every event attempts to send it to the last FETCH's host until that works |
| `ContextRegistry.RpcContextRegistry.ExpireRequestIfNeeded` | src/rpc/RpcContextRegistry.cpp:32-47 | forgets a request with its cached response and FETCH iff the clock has reached its recorded deadline |
| `ContextRegistry.RpcContextRegistry.RouteResponse` | src/rpc/RpcContextRegistry.cpp:318-352 | dropped iff the request is unknown or its deadline has come; local iff its owner is here; else forwarded iff a FETCH waits and cached iff none does; never both cached and awaited |
| `ContextRegistry.RpcContextRegistry.RegisterRestoredContext` | src/rpc/RpcContextRegistry.cpp:101-156 | the restored requests are live and owned, their FETCHes gone, and exactly their cached responses are delivered |
| `ContextRegistry.DeliverResponse` | src/rpc/RpcServer.cpp:205-239 | drops a response iff its request is unknown or its deadline has come; follows the rendezvous otherwise, re-caching a response that could not be sent |
| `ContextRegistry.RecvFetch` | src/rpc/RpcServer.cpp:144-185 | follows the rendezvous for a request before its deadline, ignores a FETCH for any other |
| `RpcContexts.MigrationKeepsOp` | src/rpc/RpcContext.cpp:176-213 | what of an operation survives a migration, and exactly when readiness does; of a ready response status and payload, and the whole of it iff it has no error message and its own request id |
| `RpcContexts.FreshIdsAreRecorded` | src/rpc/RpcContext.cpp:69-82 | counting from a seed, all of up to 2^32 requests are recorded if none comes to an id left over from before a migration, whatever completes meanwhile |
| `RpcContexts.RestartedIds` | src/rpc/RpcContext.cpp:316-332 | requests started one after the other after a migration are all recorded iff none of their ids was pending when the caller moved |
| `RpcContexts.RetriedAtMostOnce` | src/rpc/RpcContext.cpp:501-536 | over any run, migrations included, at most one retry |
| `RpcContexts.ReadinessIsKept` | src/rpc/RpcContext.cpp:439-491 | a ready operation stays ready until consumed |
| `RpcContexts.MigrationRoundTrip` | src/rpc/RpcContext.cpp:161-275 | serialise then restore keeps channels, targets, requests and operations, with fresh channel ids above all |
| `RpcContexts.RpcContext.SerializeMigrationState` | src/rpc/RpcContext.cpp:161-214 | lists every channel and every pending request |
| `RpcContexts.RpcContext.DeserializeMigrationState` | src/rpc/RpcContext.cpp:216-275 | succeeds iff targets resolve and channels are listed, and restores what was listed |
| `RpcContexts.MoveContext` | src/rpc/RpcContext.cpp:161-275 | moving succeeds iff every target resolves and every pending request's channel is open |
| `RpcContexts.RpcContext.CreateChannel` | src/rpc/RpcContext.cpp:112-125 | opens iff the uri is more than the faabric scheme and resolves, under an id no open channel has, remembering uri and target; else changes nothing |
| `RpcContexts.RpcContext.StartUnary` | src/rpc/RpcContext.cpp:281-407 | takes the next id; the operation is recorded iff that id is not pending, with its deadline iff the timeout is not negative; if neither the cached nor a freshly resolved target could be reached, the operation under the id, new or old, is ready with status UNAVAILABLE |
| `RpcContexts.RestartAfterMove` | src/executor/Executor.cpp:391-392 | a caller's first request after a migration has the id of its first before; it is not recorded, and the pending one fails if it cannot be sent |
| `RpcContexts.RpcContext.OnResponseReceived` | src/rpc/RpcContext.cpp:501-536 | asks for a retry iff the reply is UNAVAILABLE with the stale-target message and the operation, which has a method, was not retried; any other reply is recorded as it is |
| `RpcContexts.ReplyIsReturned` | src/rpc/RpcContext.cpp:465-536 | after a reply that is not retried, the caller gets exactly that reply and the operation is gone |
| `RpcContexts.RpcContext.RetryUnaryAfterUnavailable` | src/rpc/RpcContext.cpp:540-655 | ends in a resend, an operation ready with status UNAVAILABLE, or a consumed one |
| `RpcContexts.RpcContext.GetResponse` | src/rpc/RpcContext.cpp:465-491 | answers iff the operation is ready or its deadline has passed, with its response or with status DEADLINE_EXCEEDED, and forgets it; else changes nothing |
| `DependencyGraph.MoveChangesCostByBenefit` | src/rpc/RpcDependencyGraph.cpp:140-186 | a move changes the whole graph's cross-host cost by exactly the node's own change |
| `DependencyGraph.CostMeans` | src/rpc/RpcDependencyGraph.cpp:140-186 | the cost of a placement is the sum of the observations of the accepted edges whose ends are on different hosts, a node's own cost of those at the node |
| `DependencyGraph.OtherHostsAreWorst` | src/rpc/RpcDependencyGraph.cpp:112-137 | a host without neighbours costs at least as much as any other |
| `DependencyGraph.CandidatesSuffice` | src/rpc/RpcDependencyGraph.cpp:239-266 | the best neighbour host is the best of all hosts with capacity |
| `DependencyGraph.RpcDependencyGraph.PruneStaleEdges` | src/rpc/RpcDependencyGraph.cpp:99-110 | keeps exactly the edges seen within the time to live |
| `DependencyGraph.RpcDependencyGraph.CandidateHostsFor` | src/rpc/RpcDependencyGraph.cpp:112-137 | returns exactly the hosts of neighbours over accepted edges |
| `DependencyGraph.RpcDependencyGraph.IncidentEdgeCostIf` | src/rpc/RpcDependencyGraph.cpp:140-186 | the loop computes the sum over all edges of the node |
| `DependencyGraph.RpcDependencyGraph.RecommendHost` | src/rpc/RpcDependencyGraph.cpp:214-287 | a recommendation is a least-cost host with a free slot and strictly better, given no sooner than the cool-down after the last; no recommendation means none is better, unless cooling down or unplaced |
| `DependencyGraph.MovesTerminate` | src/rpc/RpcDependencyGraph.cpp:214-287 | under fixed telemetry at most as many moves follow as the graph costs |
| `ByteRuns.RunsUnique` | src/util/snapshot.cpp:30-97 | the maximal differing runs of two arrays are unique |
| `ByteRuns.DiffArrayRegions` | src/util/snapshot.cpp:30-97 | the chunked scan emits exactly the maximal differing runs of a plain byte scan |
| `SnapshotRegions.FillGaps` | src/util/snapshot.cpp:259-324 | after filling, every byte of the snapshot lies in exactly one region |
| `SnapshotMerge.ApplyByte` | src/util/snapshot.cpp:177-204 | the effect of one diff on every byte, growth included |
| `SnapshotMerge.AppliedByte` | src/util/snapshot.cpp:382-422 | a byte touched effectively by at most one diff ends as that diff says, in any position |
| `SnapshotMerge.FaithfulRoundTrip` | src/util/snapshot.cpp:363-368 | faithful diffs applied in any order give the updated memory |
| `SnapshotMerge.MergeIsOrderIndependent` | src/util/snapshot.cpp:370-400 | diffs of several hosts in any interleaving give each byte its changing host's value and leave the rest |
| `SnapshotMerge.MergedIsTheChange` | src/util/snapshot.cpp:370-400 | the merged value of a byte is that of the host that changed it |
| `Snapshot.DiffStretch` | src/util/snapshot.cpp:721-753 | one page's part of a region: exactly its changed bytes become diffs, XOR leaving the difference in memory |
| `Snapshot.AddDiffs` | src/util/snapshot.cpp:652-757 | a region deals with exactly its own bytes, clipped to the snapshot, skipping clean pages |
| `Snapshot.MergeManyDirtyPages` | src/util/memory.cpp:15-39 | a page is flagged iff some thread flagged it |
| `Snapshot.SnapshotData.FillGapsWithBytewiseRegions` | src/util/snapshot.cpp:259-324 | the merge regions then tile the snapshot |
| `Snapshot.SnapshotData.DiffWithDirtyRegions` | src/util/snapshot.cpp:524-578 | the spans, read at the end, are faithful diffs from the snapshot to the memory as it was, with the snapshot's own bytes in Ignore regions |
| `Snapshot.SnapshotData.WriteQueuedDiffs` | src/util/snapshot.cpp:382-400 | applies the queue in order and clears it, or fails iff a diff does not fit |
| `Snapshot.MergeBack` | src/executor/Executor.cpp:840-850 | fill, diff and write back: the snapshot becomes exactly the updated memory, except that it keeps its bytes in Ignore regions |
| `Snapshot.MergeHosts` | src/executor/Executor.cpp:840-850 | several hosts' memories diffed against one snapshot and written in any order: every byte a host changed outside Ignore regions gets its value, the others keep theirs |
| `DeltaBytes.U32RoundTrip` | include/faabric/util/bytes.h:64-84 | little-endian numbers are read back |
| `Delta.Decode` | src/util/delta.cpp:188-270 | the decoding loop executes the commands, with every error case |
| `Delta.ExecCommands` | src/util/delta.cpp:188-270 | encoded commands decode to their effects |
| `DeltaCodec.SerializeDelta` | src/util/delta.cpp:60-186 | the encoding loops write exactly the page or whole-memory commands, compressed or not |
| `DeltaCodec.WholeRestores` | src/util/delta.cpp:140-148 | without pages the commands restore the new memory, XOR or not, growing or shrinking |
| `DeltaCodec.PagesWrite` | src/util/delta.cpp:113-139 | what the page commands leave behind, page by page |
| `DeltaCodec.DeltaRoundTrip` | src/util/delta.cpp:60-270 | the new memory comes back always without pages, and with pages iff no shared page equals the first old page while differing from its own |
| `DeltaCodec.PageCanBeOverlooked` | src/util/delta.cpp:118-125 | a memory of two different pages whose second page becomes a copy of the first is never restored |
| `PointToPoint.StepKeepsOrder` | src/transport/PointToPointBroker.cpp:780-861 | every send, delivery and buffered take keeps order and loses nothing |
| `PointToPoint.DeliveryIsInOrder` | src/transport/PointToPointBroker.cpp:780-861 | however the transport reorders, what was received is a prefix of what was sent, and every message is returned, buffered once or in transit |
| `PointToPoint.LeftoverIsReturned` | src/transport/PointToPointBroker.cpp:559-573 | if a new group's channel starts with leftovers, k being their lowest number, then in every run the first k receives are in order and the next returns that leftover |
| `PointToPoint.PointToPointBroker.InitSequenceCounters` | src/transport/PointToPointBroker.cpp:559-573 | counters restart; a channel starts clean iff its buffer was empty |
| `PointToPoint.PointToPointBroker.SendMessage` | src/transport/PointToPointBroker.cpp:575-584 | messages to a receiver are numbered consecutively |
| `PointToPoint.PointToPointBroker.RecvMessage` | src/transport/PointToPointBroker.cpp:780-861 | returns a leftover with the expected number if there is one, else the next message of the sender iff it was sent, buffering what comes early |

## Left out

- Transport, sockets, HTTP, Redis, serialisation libraries, mmap, dirty tracking by signals, zstd itself, logging and configuration: foreign code or no hard property; sends are parameters, flags are assumed sound and compression is an abstract inverse pair.
- `MpiWorld::scan`: it always sends as `MPI_INT`, so the promise holds only for 4-byte types.
- Cartesian topologies, probes, one-sided windows, MPI migration and floating-point or bitwise reductions of the MPI layer.
- Typed arithmetic snapshot merges (Sum, Product, Subtract, Max, Min) and the list of tracked changes.
- The point-to-point group lock and its barrier, unordered point-to-point messages and mapping distribution.
- Planner host expiry, removal and overwriting, flush and reset, externally preloaded decisions, elastic OpenMP scale-up, extra slots counted for other OpenMP apps, contents of frozen requests and service discovery.
- The decision cache, execution graphs, executor pools, state key-value chunks and parsing of delta settings: easy members.
- Telemetry merging in the dependency graph; observation counts are unbounded.
- Planner.Planner.CallBatch: the scheduler is fixed to BinPack without the single-host hint, and a known-size app starts with one message with a non-zero id and group index 0, because the source asserts that the dispatched request matches the remaining decision.
- Planner.Planner.SetMessageResult: assumes each result is reported once and from the decision's host; the requests' message lists are kept together with the decision's rows, and decisions are values, so aliasing with the caller's copy is not captured.
- Planner.Planner.ConsumePreloaded: assumes the scale change asks for distinct reserved group indexes.
- BinPackScheduler.ScheduleMigration: an empty host map under the single-host hint is refused, where the source erases past the end of an empty list.
- MpiResults.ReduceResult: integers are unbounded, so wrap-around of sums is not captured.
- MpiResults.GatherAtRoot: a rank's data is one chunk; byte offsets within chunks are not captured.
- MpiReceives.ReceiverPair.IRecv: one rank pair with distinct outstanding request ids, which the source leaves to a random byte.
- MpiReceives.ReceiverPair.Recv: checks of type and size against the posted buffer are not modelled.
- Delta.Decode: compressed blocks nest at most `depth` deep, and a write outside the target is an error where the source has undefined behaviour.
- Snapshot.MergeBack: the updated memory is at least as long as the snapshot and fits its maximum.
- SnapshotRegions.FillGaps: overlapping regions and regions of length zero are excluded, because the source then computes a fill-in length that wraps around, or takes a region that reaches to the end for an empty one.
- Planner.Planner.RegisterHost: an empty host name is excluded, because the decision vectors use it as a filler.
- MpiCalls.CollectivesComplete: element types and scatter and all-to-all calls with different counts at both ends are not modelled.
- ContextRegistry.RecvFetch: the check and the registration of a FETCH happen without a response in between, though the source uses separate critical sections.
- Snapshot.MergeHosts: the hosts' memories keep the snapshot's size.
- ServiceMigration.RunsConserve: unregistering an instance is not modelled.
- PointToPoint.DeliveryIsInOrder: one group per run.
