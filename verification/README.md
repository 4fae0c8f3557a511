# Linx model verification

A Dafny model of the Linx cycle model and its instruction tools, with proofs. Five parts:

- **Queues and modules** (`SimQueue.dfy`, `QueueTheorems.dfy`, `QueueLimits.dfy`, `Scheduler.dfy`,
  `SchedulerTheorems.dfy`, `SchedulerWake.dfy`, `SchedulerRuns.dfy`, `SchedulerCycles.dfy`,
  `SchedulerCalls.dfy`, `QueueCycles.dfy`, `SystemStep.dfy`, `WiringExactly.dfy`). The latency queue is a class
  whose methods push, pop and erase in place, each proved equal to one step on a queue value. The module tree is
  a class whose `Work`, `Xfer`, `AdvanceQueuesOnly` and `Reset` loop over children and queues; a `World` is the
  state of a whole tree as a value, and each method is proved to do to the objects what a function does to the
  world. `WorkSelf` and `XferSelf` are arbitrary functions from the module's own state and the state of its
  bound queues to a new own state, a list of queue operations (never `Work`) and a possible `RequestActivation`.
  What every call is handed, where its operations go and what becomes of the own state is said without these
  functions in module `SelfCalls`. The operations a pass, a cycle and a run make on one queue are collected in
  order (`PassOps`, `CycleOps`, `RunOps`), which carries the queue theorems over to whole runs of a system of
  any number of registered roots. Wiring is described by what each subtree owns and what it has in sight: its
  watched ports (inputs and inners) or all bound ports. A tree is *in order* (`Ordered`) when no subtree has in
  sight a queue that an earlier sibling's subtree owns; hierarchical wiring is one way to be in order
  (`Wiring.WiredIsOrdered`).
- **Codec and generator** (`Words.dfy`, `CodecTables.dfy`, `Codec.dfy`, `CodecTheorems.dfy`, `CodecMeaning.dfy`,
  `Generator.dfy`, `GeneratorTheorems.dfy`, `GeneratorMeaning.dfy`). A word is 64 booleans, least significant
  first, so shifts and masks are index arithmetic; lemmas tie them to numbers. The form table is a parameter of
  everything.
- **Executor** (`ByteMemory.dfy`, `MemoryNumbers.dfy`, `Machine.dfy`, `Executor.dfy`, `ExecutorTheorems.dfy`,
  `ExecutorMeaning.dfy`, `InstructionEffects.dfy`, `ControlEffects.dfy`, `RunEffects.dfy`). The context, the
  registers and the T/U queues change in place; a `Machine` value says what one step and one run do, and the
  effects say it again for each mnemonic in numbers.
- **Shared tile bank** (`SharedTile.dfy`, `SharedTileMeaning.dfy`).
- **Text and byte walks** (`AsmText.dfy`, `Disasm.dfy`).

Automatic induction is switched off on every lemma; proofs that need induction call themselves. Many longer
lemmas start with `hide` and are assembled from small facts, which keeps them quick.

What the proofs found in the code, where it differs from its documentation or from what one would expect:

- `sim_queue.hpp:47` says latency N means exactly N `Work` calls. It is max(1, N) unstalled calls, and only
  when no earlier entry is due later: an entry also waits for every entry in front of it
  (`QueueTiming.OwnLatencyExactly`, with an input in `QueueTiming.LaterEntryWaitsInput`).
- `RequestActivation` inside `WorkSelf` is lost (`SchedulerWake.TurnCaptures`); inside `XferSelf` it makes the
  module run in the next cycle (`WakeUps.XferRequestRuns`).
- Skipping idle subtrees is sound for every wiring, and `XferSelf` runs only where `WorkSelf` ran for every wiring.
- The other direction, that `Xfer` reaches every module whose `WorkSelf` ran, holds from every state of all modules and
  queues if and only if every child of every root is in order in its watched ports; among the children of a root, and among the roots,
  anything goes (`WiringExactly.PairsExactly`, with an input in `UnwiredTree.XferMissesReader`).
- The cycle boundary holds from every such state if and only if every root is in order in all its ports and no root has a
  queue bound that an earlier root owns, so it depends on the order of registration (`WiringExactly.BoundaryExactly`,
  with an input in `LateRoot.SecondSeesEarly`).
- A generated form means what its parts say exactly when the declared length cuts off no fixed bit
  (`GeneratorTheorems.MaskMatchPartwiseExactly`, with an input in `GeneratorTheorems.DroppedBitInput`).
- A decoded word re-encodes exactly when no 64-bit unsigned field value has its top bit set
  (`CodecTheorems.DecodeThenEncode`, with an input in `CodecTheorems.NegativeValueInput`).
- `LoadProgram` starts a context exactly when it had not terminated (`ExecutorTheorems.LoadAloneDoesNotRestart`),
  and its records number from 0 exactly when the kept cycle count is 0 (`ExecutorTheorems.LoadNumbersFromZero`).
- A committed record carries the block kind its instruction leaves behind except for a `C.BSTART.STD` after a
  block that is not scalar, as `Execute` takes the kind before the branch sets "scalar"
  (`ExecutorTheorems.RecordKindExactly`, with an input in `ExecutorTheorems.StaleKindInput`).
- Token replacement respects tokens for every text and replacement exactly when the needle is made of token
  characters (`AsmText.TokenwiseExactly`, with an input in `AsmText.OtherNeedlesCrossTokens`).
- Listing and executor read the same instruction at a line if and only if no length but the one its first byte
  announces decodes better there (`DisasmTheorems.ListingAgreesExactly`, with an input in `DisasmTheorems.RivalInput`).
- The first write to a shared register does not compare dtypes (`SharedTileTheorems.DtypeUniformExactly`, with an
  input in `SharedTileTheorems.MixedDtypesAccepted`), and a lane that then differs can never be written again
  before a reset (`SharedTileTheorems.MixedLaneIsStuck`).

## Model

| member | source | states |
|---|---|---|
| `SimQueues.SimQueue.Work` | include/linx/model/sim_queue.hpp:74-101 | counting down and promoting in place is the step `WorkOf` on the queue value |
| `SimQueues.SimQueue.CountDownDelays` | include/linx/model/sim_queue.hpp:80-84 | the loop takes one off every positive delay and leaves the others at 0 |
| `SimQueues.SimQueue.PromoteDue` | include/linx/model/sim_queue.hpp:86-96 | exactly the due entries at the front move, in order, with their delays |
| `SimQueues.SimQueue.FlushIf` | include/linx/model/sim_queue.hpp:238-267 | the erasing scans are one filter step, and the count returned is the number of entries gone |
| `SimQueues.SimQueue.FlushWaiting` | include/linx/model/sim_queue.hpp:242-250 | erasing by index from two lists at once is a filter on (entry, delay) pairs, so survivors keep their own delay |
| `SimQueues.SimQueue.FlushVisible` | include/linx/model/sim_queue.hpp:252-260 | the erasing iterator loop is a filter |
| `SimQueues.SimQueue.Write` | include/linx/model/sim_queue.hpp:131-137 | refused exactly when full; else the entry is queued with the latency of that moment |
| `SimQueues.SimQueue.Read` | include/linx/model/sim_queue.hpp:151-157 | the oldest readable entry, or a refusal that changes nothing |
| `SimQueues.SimQueue.Pop` | include/linx/model/sim_queue.hpp:169-173 | as `Read`, without the value |
| `SimQueues.SimQueue.InitMaxSize` | include/linx/model/sim_queue.hpp:210-214 | refused exactly when zero or below the occupancy |
| `SimQueues.SimQueue.constructor` | include/linx/model/sim_queue.hpp:63-68 | an empty queue at epoch 0 with that capacity and latency |
| `SimQueues.SimQueue.Reset` | include/linx/model/sim_queue.hpp:103-109 | empty, not stalled, epoch 0; capacity and latency kept |
| `SimQueues.SimQueue.SetLatency` | include/linx/model/sim_queue.hpp:111-113 | only later writes are affected: waiting delays stay |
| `SimQueues.SimQueue.SetStall` | include/linx/model/sim_queue.hpp:121-129 | only the stall flag changes |
| `QueueSpec.Apply` | include/linx/model/sim_queue.hpp:74-173 | every operation keeps delays matched to waiting entries and the occupancy within the maximum |
| `QueueTiming.VisibleExactly` | include/linx/model/sim_queue.hpp:74-101 | in any run that drops nothing, write k is readable exactly from unstalled `Work` number max over j <= k of (c_j + max(1, L_j)) on |
| `QueueTiming.OwnLatencyExactly` | include/linx/model/sim_queue.hpp:45-49 | that is the entry's own latency if and only if no earlier entry is due later |
| `QueueTiming.LaterEntryWaitsInput` | include/linx/model/sim_queue.hpp:45-49 | an input: two writes under latency 3 and then 1; after one `Work` the second is due by its own latency and nothing is readable |
| `QueueTiming.ConstantLatencyExactly` | include/linx/model/sim_queue.hpp:45-49 | with an unchanging latency N: readable exactly max(1, N) unstalled `Work` calls after the write |
| `QueueHistory.Conserved` | include/linx/model/sim_queue.hpp:131-173 | at all times taken, then readable, then waiting entries are the writes in order, each once, less exactly those flushed or reset away |
| `QueueHistory.BalancedStep` | include/linx/model/sim_queue.hpp:238-267 | one operation keeps that ledger balanced |
| `QueueHistory.BumpsExactlyOnChange` | include/linx/model/sim_queue.hpp:98-100 | any operation but `Reset` bumps the epoch if and only if it changes the readable side |
| `QueueHistory.EpochCountsChanges` | include/linx/model/sim_queue.hpp:151-173 | over a run without reset the epoch moves by the number of visible changes, modulo 2^64 |
| `QueueHistory.EpochIsVersion` | include/linx/model/sim_queue.hpp:234-236 | below 2^64 changes equal epochs mean no change in between, so equal contents; until it wraps the epoch never decreases |
| `QueueLimits.WriteExactly` | include/linx/model/sim_queue.hpp:131-137 | a write is taken exactly while readable and waiting entries together are fewer than the capacity; it waits the current latency |
| `QueueLimits.TakesItsCapacity` | include/linx/model/sim_queue.hpp:131-137 | a new queue of capacity n takes exactly the first n of any writes in a row |
| `QueueLimits.CapacityExactly` | include/linx/model/sim_queue.hpp:210-214 | a new capacity is taken exactly when it is positive and holds the entries there are |
| `QueueLimits.LatencyHoldsLater` | include/linx/model/sim_queue.hpp:111-113 | a write after a latency change waits the new latency, and the delays already counting do not change |
| `QueueLimits.StallFreezes` | include/linx/model/sim_queue.hpp:74-78 | through a stall any number of turns changes nothing, and its end goes on with the same entries, delays and epoch |
| `QueueLimits.TurnMoves` | include/linx/model/sim_queue.hpp:74-101 | a turn moves exactly the front entries with delay 0 or 1 and takes one from every other positive delay |
| `QueueLimits.FlushExactly` | include/linx/model/sim_queue.hpp:238-267 | how often each entry, and each waiting entry with its delay, is left: as often as before, or not at all when it is doomed |
| `QueueLimits.ResetExactly` | include/linx/model/sim_queue.hpp:103-109 | column by column what a reset leaves |
| `Scheduler.Module.Work` | include/linx/model/module.hpp:70-92 | one in-place pass is `WorkPass` on the world, and logs the same `WorkSelf` calls and queue advances |
| `Scheduler.Module.AdvanceQueuesOnly` | include/linx/model/module.hpp:364-380 | the skipping pass is `IdlePass` on the world |
| `Scheduler.Module.HasPendingWorkRecursive` | include/linx/model/module.hpp:382-393 | the early-out recursion decides `Pending` |
| `Scheduler.Module.QueuesChanged` | include/linx/model/module.hpp:424-436 | true exactly when the current epochs differ from the observed ones, as lists |
| `Scheduler.Module.HasInputEvent` | include/linx/model/module.hpp:395-398 | forced, or either list of observed epochs is out of date |
| `Scheduler.Module.CaptureObservedInputEpochs` | include/linx/model/module.hpp:400-403 | both observed lists become the current epochs; nothing else changes |
| `Scheduler.Module.CaptureQueueEpochs` | include/linx/model/module.hpp:416-422 | the epochs of the bound queues, 0 for an unbound port |
| `Scheduler.Module.TakeTurn` | include/linx/model/module.hpp:73-77 | `WorkSelf`, then the request is cleared, then the epochs are captured |
| `Scheduler.Module.BeginWork` | include/linx/model/module.hpp:71-77 | `WorkSelf` runs exactly when there is an input event, and the flag says whether it did |
| `Scheduler.Module.VisitChildren` | include/linx/model/module.hpp:79-87 | children in order, each pending one put on the active list and worked, each other one only advanced |
| `Scheduler.Module.AdvanceOwnedQueues` | include/linx/model/module.hpp:88-91 | the owned queues are advanced in order, and nothing else changes |
| `Scheduler.Module.PerformOps` | include/linx/model/module.hpp:73-75 | the queue operations of a `WorkSelf` or `XferSelf`, in order, on its own ports only |
| `Scheduler.Module.XferOwn` | include/linx/model/module.hpp:94-97 | `XferSelf` runs exactly when `WorkSelf` ran, sees and uses the bound queues, and may ask for activation |
| `Scheduler.Module.SettleXfer` | include/linx/model/module.hpp:346-348 | a request of an `XferSelf` is added, and none is withdrawn |
| `Scheduler.Module.Xfer` | include/linx/model/module.hpp:94-106 | the walk over the active lists is `XferPass`, and makes its `XferSelf` calls in its order |
| `Scheduler.Module.Reset` | include/linx/model/module.hpp:49-60 | the recursive reset is `ResetPass` on the world |
| `Scheduler.Module.ResetEventState` | include/linx/model/module.hpp:405-414 | the recursive clearing is `ResetEvents` on the world |
| `SchedulerTheorems.WorkIsPlain` | include/linx/model/module.hpp:70-92 | skipping is sound: for any tree, wiring and `WorkSelf`, a pass makes the same `WorkSelf` calls in the same order on the same queue states, and leaves the same modules and queues, as one that visits every module |
| `SchedulerTheorems.IdleIsPlain` | include/linx/model/module.hpp:364-380 | the queue-only pass over a module without an event does what the plain pass does |
| `SchedulerTheorems.EachQueueAdvancesOnce` | include/linx/model/module.hpp:88-91 | one pass advances each queue owned in the tree exactly once, children first, active or not, and no other queue |
| `SelfCalls.WorkCallsProper` | include/linx/model/module.hpp:70-92 | for any roots and wiring: view k of each `WorkSelf` call is the queue bound to port k as the call finds it, and nothing exactly for an unbound port; its operations take each bound queue through exactly those that name a port of it; the own state is threaded from call to call and is afterwards what the last call answered |
| `SelfCalls.XferCallsProper` | include/linx/model/module.hpp:94-106 | the same of every `XferSelf` call of the cycle |
| `SelfCalls.HandedCall` | include/linx/model/module.hpp:73-77 | the views of one call, port by port: inputs, then outputs, then inners |
| `SelfCalls.OneOpReaches` | include/linx/model/module.hpp:73-77 | an operation reaches exactly the queue bound to its port, and is never a `Work` |
| `SelfCalls.ConsumerTurn` | include/linx/model/module.hpp:73-77 | the turn of a module that reads port 0 when it is handed an entry there takes exactly the oldest entry |
| `SelfCalls.ConsumerTakes` | include/linx/model/module.hpp:70-92 | so after one `Work` of such a module the one readable entry is gone |
| `SelfCalls.ResetPassLocals` | include/linx/model/module.hpp:49-60 | a reset replaces the own state of every module of the tree by what its `ResetSelf` makes of it, and no other |
| `CycleBoundary.Boundary` | include/linx/model/module.hpp:364-380 | in any subtree in order every `WorkSelf` of a pass sees on its ports only entries readable there when the pass began; outside the queues the subtree owns nothing new becomes readable |
| `WiringExactly.NothingSeenEarly` | docs/architecture.md:10-17 | for any number of roots in order, every `WorkSelf` of a cycle is handed on its ports only entries readable there when the cycle began, for every tree shape and latency, 0 included |
| `WiringExactly.BoundaryExactly` | docs/architecture.md:10-17 | that holds from every state of all modules and queues if and only if the roots are in order: no subtree has a queue bound that an earlier sibling's subtree owns, no root one that an earlier root's tree owns |
| `WiringExactly.SeenEarly` | include/linx/model/module.hpp:79-91 | otherwise, from any state as after a reset, one entry on its way and one request make a state in which some `WorkSelf` sees an entry in the cycle in which it becomes readable |
| `WiringExactly.StepIsComplete` | include/linx/model/sim_system.hpp:62-74 | the states meant are exactly those a step of the objects accepts: every bound and every owned queue is there |
| `LateRoot.SecondSeesEarly` | include/linx/model/sim_system.hpp:62-74 | an input: of two roots the second reads a queue the first owns, and some state of them breaks the boundary; registered the other way round they keep it |
| `LateRoot.BuildTwoRoots` | include/linx/model/sim_system.hpp:62-74 | such roots can be built |
| `Wiring.WiredIsOrdered` | docs/architecture.md:5-8 | a tree whose ports are bound to queues of the module itself or of its ancestors is in order |
| `WiringExactly.WiredRoots` | docs/architecture.md:5-8 | so hierarchically wired roots keep the boundary and pair |
| `WorkXferPairing.XferRunsWhereWorkRan` | include/linx/model/module.hpp:70-106 | for a hierarchically wired root `Xfer` after `Work` calls `XferSelf` on exactly the modules whose `WorkSelf` ran, in the same order, whatever active lists earlier cycles left |
| `WorkXferPairing.Paired` | include/linx/model/module.hpp:70-106 | so it is whenever every child of the root is in order in its watched ports |
| `WiringExactly.PairsExactly` | include/linx/model/sim_system.hpp:62-74 | for any number of roots, `XferSelf` is called on exactly the modules whose `WorkSelf` ran, in the same order, from every state of all modules and queues, if and only if every child of every root is in order in its watched ports |
| `WiringExactly.Unpaired` | include/linx/model/module.hpp:79-106 | otherwise, from any state as after a reset, one entry on its way makes a state in which some `WorkSelf` runs without its `XferSelf` |
| `WiringExactly.OrderedPairs` | docs/architecture.md:10-25 | roots that keep the cycle boundary also pair |
| `WorkXferPairing.Quiet` | include/linx/model/module.hpp:364-393 | skipping a subtree in order with nothing pending runs no `WorkSelf` anywhere in it |
| `WorkXferPairing.XferDepends` | include/linx/model/module.hpp:94-106 | the calls of an `Xfer` over a subtree depend only on who ran there and on its active lists |
| `SystemCycles.EveryCycle` | include/linx/model/sim_system.hpp:62-74 | in every cycle of every run, over any number of roots, `Work` is the plain pass, and `Xfer` pairs with it when every child of every root is in order |
| `SystemCycles.CyclesRegistered` | include/linx/model/sim_system.hpp:62-74 | every run leaves active lists that name only children, whatever the wiring, so the next cycle may rely on it |
| `SystemStep.SimSystem.Step` | include/linx/model/sim_system.hpp:62-74 | any number of roots: every `Work` in order, then every `Xfer` in order, on the world, then one more cycle |
| `SystemCycles.SystemPairs` | include/linx/model/sim_system.hpp:62-74 | the `XferSelf` calls of a step are its `WorkSelf` calls in the same order, although the `Work` of all roots comes before any `Xfer` |
| `SystemCycles.WorkAllIsPlain` | include/linx/model/sim_system.hpp:62-74 | over any number of roots and for every wiring, skipping changes nothing of the calls, modules and queues |
| `PassHistory.PassWent` | include/linx/model/module.hpp:70-92 | a pass takes every queue through exactly the operations collected for it: those of the `WorkSelf` calls in order, and one `Work` per owner |
| `PassHistory.TurnInPass` | include/linx/model/module.hpp:70-92 | each module of the tree gets one turn in a pass: it is unchanged until then, runs exactly when it has an event there, and is left as that turn leaves it |
| `SystemCycles.TurnInAll` | include/linx/model/sim_system.hpp:62-74 | so has each module of a system of several roots, once in each cycle |
| `SystemCycles.XferEffect` | include/linx/model/module.hpp:94-106 | `Xfer` takes every queue through exactly the operations of its `XferSelf` calls, keeps every capture and request, and leaves a request for every module that asked |
| `SystemCycles.RunWent` | include/linx/model/sim_system.hpp:62-74 | a run of any number of cycles takes every queue through exactly the operations of its `Work` and `Xfer` walks |
| `QueueCycles.PassEndsInWork` | include/linx/model/module.hpp:88-91 | in a tree in order a pass ends, for each queue owned in it, in that queue's one `Work`, after every operation of a `WorkSelf` |
| `QueueCycles.AllEndInWork` | include/linx/model/sim_system.hpp:62-74 | so does the `Work` of several roots in order |
| `QueueCycles.CycleClock` | docs/architecture.md:10-15 | so the clock of an owned queue is the cycle count: a write in a `WorkSelf` of cycle c is stamped c, one in an `XferSelf` c + 1 |
| `QueueCycles.ReadableFromCycle` | docs/architecture.md:28-37 | with constant latency N and no stall, flush or reset, an entry written by a `WorkSelf` in cycle c is on the read side at the start of cycle n exactly when n >= c + max(1, N), one by an `XferSelf` one cycle later |
| `WakeUps.RanFlagExactly` | include/linx/model/module.hpp:71-77 | for every wiring the ran flag after a pass says whether `WorkSelf` was called in it |
| `WakeUps.XferOnlyWhereWorkRan` | docs/architecture.md:24-25 | for every wiring `XferSelf` is called only on modules whose `WorkSelf` ran in the same cycle |
| `UnwiredTree.XferMissesReader` | docs/architecture.md:24-25 | an input: a tree of four modules where a `WorkSelf` runs and its `XferSelf` is not called, as its subtree was skipped; the same tree without its root is not hierarchically wired and pairs in every state |
| `UnwiredTree.BuildUnwired` | include/linx/model/module.hpp:70-106 | such a tree can be built |
| `WakeUps.RequestRuns` | include/linx/model/module.hpp:346-398 | a module with a request, at any depth and for every wiring, runs in the next `Work` |
| `WakeUps.XferRequestRuns` | include/linx/model/module.hpp:94-97 | a module whose `XferSelf` asks for activation in one cycle runs in the `Work` of the next |
| `WakeUps.VisibleChangeRuns` | include/linx/model/module.hpp:395-403 | over any run: if a module last ran in cycle c and the visible contents of a queue it watches differ in a later cycle from what its turn left, it has an event there and its `WorkSelf` is called |
| `WakeUps.VisibleChangeRunsFromRest` | include/linx/model/module.hpp:405-414 | the same counted from a reset or any other state of rest |
| `SchedulerWake.ChangesWake` | include/linx/model/module.hpp:395-436 | any change of a watched queue since a capture, below 2^64 of them and without reset, is an event |
| `SchedulerWake.PendingExactly` | include/linx/model/module.hpp:382-398 | a subtree is pending if and only if some module in it, at any depth, has an event |
| `SchedulerWake.TurnCaptures` | include/linx/model/module.hpp:73-77 | a turn ends with no event and no request, even if `WorkSelf` made one |
| `SchedulerWake.ResetQuiets` | include/linx/model/module.hpp:49-60 | after a reset exactly the owned queues are emptied, every module is at rest, nothing is pending |
| `Codec.ScanForms` | src/isa/codec.cpp:110-157 | the one pass finds whether any mask matches, and one entry exactly when a strict winner exists |
| `Codec.DecodePackedWord` | src/isa/codec.cpp:101-193 | decoding leaves the declaratively chosen form, its fields in table order and the operand views, whatever the packet held before |
| `Codec.ExtractField` | src/isa/codec.cpp:62-74 | the piece loop gathers the raw bits and extends or casts them |
| `Codec.CheckConstraints` | src/isa/codec.cpp:121-136 | true exactly when every constraint names a field of the form and holds of its value |
| `Codec.EncodeMinst` | src/isa/codec.cpp:259-304 | the encoding loops and their first error are `Encoded` |
| `Codec.EncodeField` | src/isa/codec.cpp:267-283 | one field: missing, out of range, or its pieces written |
| `Codec.Minst.SetDecodedField` | src/isa/minst.cpp:500-516 | the first field of that name is overwritten in place, else one is appended |
| `Codec.Minst.ClearDecodedState` | src/isa/minst.cpp:446-468 | form, fields, operands and statuses cleared; pc, uid and raw bits kept |
| `Codec.Minst.SetForm` | src/isa/minst.cpp:470-492 | form and length from the descriptor, or the form alone cleared |
| `Codec.Minst.SetRawEncoding` | src/isa/minst.cpp:494-498 | raw bits and both lengths |
| `CodecTables.FindNamed` | src/isa/minst.cpp:518-522 | the first item of that name, or none exactly when no item has it; also the descriptor lookup of `codec.cpp:124-126` |
| `Codec.PutField` | src/isa/codec.cpp:278-283 | the piece loop is the list of that field's writes |
| `Codec.ConstraintsStatus` | src/isa/codec.cpp:286-296 | Ok exactly when every constraint finds its field and holds |
| `Codec.EncodeConstraints` | src/isa/codec.cpp:286-296 | the loop returns the status of the first constraint not met |
| `Codec.Minst.RebuildTypedViews` | src/isa/minst.cpp:586-626 | sources and destinations in field order; a source name is never a destination |
| `Codec.Minst.CreateFetch` | src/isa/minst.cpp:429-444 | next pc is pc plus size modulo 2^64, and the length in bits is cut to 8 bits |
| `CodecTables.RawBit` | src/isa/codec.cpp:62-69 | bit b of a gathered value is set exactly when some piece holds it and its word bit is set |
| `CodecTheorems.ChoiceMeaning` | src/isa/codec.cpp:101-172 | chosen: the unique passing entry with most fixed bits; ambiguous: some pass, none wins; violation: only masks match; else no match |
| `CodecTheorems.ChoiceIgnoresTableOrder` | src/isa/codec.cpp:110-172 | permuting the form table changes neither the form chosen nor the status |
| `CodecTheorems.DecodeIgnoresTableOrder` | src/isa/codec.cpp:110-172 | permuting the form table changes nothing of the decoded packet, fields and operand views included |
| `CodecTheorems.EncodeThenDecode` | src/isa/codec.cpp:101-304 | on a well-formed table an encoded word passes its form, every field reads back, and decoding returns form and fields if and only if no other passing entry has as many fixed bits |
| `CodecTheorems.EncodedPasses` | src/isa/codec.cpp:259-304 | the encoded word passes the form's mask, match and constraints |
| `CodecTheorems.DecodeThenEncode` | src/isa/codec.cpp:62-99 | a decoded word re-encodes if and only if no unsigned value turned negative, giving back its own bits exactly where the form fixes one or a field holds one |
| `CodecTheorems.NegativeValueInput` | src/isa/codec.cpp:62-99 | a table and a word that decodes and does not encode: one 64-bit unsigned field with its top bit set |
| `CodecTheorems.SplitWordDecodes` | src/isa/codec.cpp:245-252 | decoding two 32-bit halves is decoding the word |
| `CodecMeaning.ConstraintMeaning` | src/isa/codec.cpp:43-60 | a constraint holds of a word exactly when the form has a field of its name and the first one's extracted value is on the operator's side of the constant |
| `CodecMeaning.DecodeObeysConstraints` | src/isa/codec.cpp:110-157 | with one form, a word that matches its fixed bits decodes exactly when all constraints are obeyed, and else is a constraint violation |
| `CodecMeaning.OneConstraintDecodes` | src/isa/codec.cpp:43-60 | with one constraint: decodes exactly when the extracted value is equal, unequal, below, at most, above, at least the constant, a clause for each operator |
| `CodecMeaning.OneConstraintEncodes` | src/isa/codec.cpp:286-296 | the same of encoding, on the packet's own field value |
| `CodecMeaning.OperatorInputs` | src/isa/codec.cpp:43-60 | inputs: for each operator which of the words 1, 2 and 3 decode under "RRA_Type op 2" |
| `CodecMeaning.FirstConstraintDecides` | src/isa/codec.cpp:286-296 | the first constraint not obeyed gives the status: its field is missing, or the comparison fails |
| `CodecMeaning.LengthsExactly` | src/isa/codec.cpp:101-108 | 16, 32, 48 and 64 are the lengths that can be decoded |
| `CodecMeaning.MostFixedBitsWins` | src/isa/codec.cpp:143-172 | of the passing entries one with most fixed bits is chosen, and two with most are ambiguous |
| `CodecMeaning.RejectedPacket` | src/isa/codec.cpp:101-172 | the packet after a decode: bits and lengths always, nothing else when no form is chosen |
| `CodecMeaning.DecodedPacket` | src/isa/codec.cpp:174-193 | one decoded field for each field of the form, in order, with its name, signedness, width and extracted value |
| `CodecMeaning.ExtractedMeaning` | src/isa/codec.cpp:62-74 | an extracted value is in the range of its sign hint and equals the gathered bits modulo two to its width |
| `CodecMeaning.FitsMeaning` | src/isa/codec.cpp:76-91 | the range of values a field can be encoded with, in powers of two |
| `CodecMeaning.FieldsEncodeExactly` | src/isa/codec.cpp:267-283 | the fields encode exactly when none of them is missing from the packet or out of range |
| `CodecMeaning.FirstUnencodableDecides` | src/isa/codec.cpp:267-283 | the first field that is decides which of the two statuses |
| `CodecMeaning.EncodeStatusExactly` | src/isa/codec.cpp:259-304 | no form, then the fields, then the constraints |
| `CodecMeaning.EncodedShape` | src/isa/codec.cpp:259-304 | bits and a length exactly with status Ok |
| `CodecMeaning.UnsignedIsModulo` | src/isa/minst.cpp:368-376 | the unsigned reading of a field is its value modulo two to its width |
| `CodecMeaning.OneOperand` | src/isa/minst.cpp:85-92 | by its name a field gives one source, one destination or no operand, with its unsigned value, width and name |
| `CodecMeaning.OperandsSplit` | src/isa/minst.cpp:613-620 | the operands of a list of fields are those of its parts, in order |
| `CodecMeaning.OperandInput` | src/isa/minst.cpp:613-620 | an input: RegDst, SrcL, an immediate and SrcR give sources 7 and 9 and destination 3 |
| `Words.SignExtendOfTruncated` | src/isa/codec.cpp:29-41 | sign extension undoes truncation of a value that fits |
| `Words.TruncatedSignExtend` | src/isa/codec.cpp:76-99 | the sign-extended value of a clean raw word fits and truncates back to it |
| `Generator.PatternToMaskMatch` | tools/isa/gen_minst_codec.py:90-101 | for a pattern of any length, mask and match bit for bit: fixed where the character is not a dot, one where it is 1 |
| `Generator.MergeInstruction` | tools/isa/gen_minst_codec.py:137-195 | the loop with running offset and dictionary is the merge of the parts at their offsets |
| `Generator.MergePart` | tools/isa/gen_minst_codec.py:159-180 | the dictionary loop over one part's fields is the merge at that offset, first names first |
| `Generator.AppendFields` | tools/isa/gen_minst_codec.py:197-220 | the new entries describe the merged fields in order; earlier entries stay where they are |
| `Generator.AddForm` | tools/isa/gen_minst_codec.py:222-240 | the new entry describes its instruction; earlier entries stay where they are |
| `Generator.DescribesGrows` | tools/isa/gen_minst_codec.py:222-240 | a form's ranges mean the same after the shared lists have grown |
| `Generator.BuildForms` | tools/isa/gen_minst_codec.py:120-242 | the flat start/count ranges of every form give back its own fields, pieces and constraints |
| `GeneratorTheorems.MaskMatchPartwiseExactly` | tools/isa/gen_minst_codec.py:137-150 | for every word mask/match agree with the part patterns, if and only if the declared length cuts off no fixed bit |
| `GeneratorTheorems.DroppedBitInput` | tools/isa/gen_minst_codec.py:137-150 | an input: a two-bit part that fixes its high bit, declared one bit long |
| `GeneratorTheorems.DroppedBitAcceptsMore` | tools/isa/gen_minst_codec.py:147-149 | otherwise some word passes although a part rejects its slice |
| `GeneratorTheorems.MergedFieldReadsParts` | tools/isa/gen_minst_codec.py:157-180 | offset and sorted pieces read, bit for bit, what the part-level pieces read from their slices |
| `GeneratorTheorems.SortSorts` | tools/isa/gen_minst_codec.py:197-220 | the pieces of a merged field are put in order of value position, then instruction position, none lost or added |
| `GeneratorTheorems.MergedHint` | tools/isa/gen_minst_codec.py:168-171 | signed if any part says so, unsigned if none does and one says unsigned, else open; in any order of parts |
| `GeneratorTheorems.GeneratedFormWellFormed` | tools/isa/gen_minst_codec.py:197-240 | a well-formed instruction description gives a form with everything the codec relies on |
| `GeneratorTheorems.GeneratedRoundTrip` | tools/isa/gen_minst_codec.py:120-242 | packets on generated tables encode to words that satisfy every part pattern and read back |
| `GeneratorMeaning.FixedBitsCount` | tools/isa/gen_minst_codec.py:232 | the fixed-bit count of a described form is the cardinality of the set of positions whose pattern character is not a dot |
| `GeneratorMeaning.MoreFixedBits` | tools/isa/gen_minst_codec.py:232 | a form that fixes a strict superset of positions has strictly more fixed bits |
| `GeneratorMeaning.LooserFormLoses` | src/isa/codec.cpp:143-172 | of two generated forms that both pass a word decoding never returns the one whose fixed positions are a strict subset |
| `GeneratorMeaning.PatternInput` | tools/isa/gen_minst_codec.py:91-102 | an input: "10.." has mask 12, match 8 and fixed positions 2 and 3 |
| `GeneratorMeaning.StripMeaning` | tools/isa/gen_minst_codec.py:144-146 | spaces are dropped and nothing else |
| `GeneratorMeaning.UndeclaredLength` | tools/isa/gen_minst_codec.py:144-149 | without a declared length the form is as long as its parts together, and its pattern is theirs |
| `GeneratorMeaning.DeclaredLength` | tools/isa/gen_minst_codec.py:147-149 | a declared length is the form's and its pattern's, except that 0 leaves the pattern alone |
| `GeneratorMeaning.ConstraintsInOrder` | tools/isa/gen_minst_codec.py:182-195 | the constraints of the parts one part after the other, none lost and none added |
| `GeneratorMeaning.NamesOfParts` | tools/isa/gen_minst_codec.py:157-166 | a form's fields are the names of its parts, each once |
| `GeneratorMeaning.NamesInFirstOrder` | tools/isa/gen_minst_codec.py:157-166 | they stand in order of first appearance: the names met so far never move when more parts follow |
| `GeneratorMeaning.NamesInFirstOrderWithin` | tools/isa/gen_minst_codec.py:157-166 | the same within one part |
| `GeneratorMeaning.WidthReached` | tools/isa/gen_minst_codec.py:200-202 | the width of a field is reached by one of its pieces and exceeded by none |
| `GeneratorMeaning.SortAscends` | tools/isa/gen_minst_codec.py:199 | sorted pieces ascend by value position, then by instruction position |
| `GeneratorMeaning.OneFieldMerged` | tools/isa/gen_minst_codec.py:171-180 | an input: a piece of a second part is moved up by the width of the first |
| `ByteMemory.OrByteGrows` | src/emulator/reference_executor.cpp:124-131 | the shift-and-or loop packs the word whose bit 8k+j is bit j of byte k |
| `ByteMemory.PackedBytesOf` | src/emulator/execution_context.cpp:128-184 | taking a word apart into n bytes and packing them keeps its low 8n bits |
| `ByteMemory.StoredByte` | src/emulator/execution_context.cpp:169-184 | a store puts each byte at its own wrapped address and touches no other |
| `ByteMemory.ReadStored` | src/emulator/execution_context.cpp:128-184 | reading back a store gives its bytes, across the wrap |
| `ByteMemory.CopyClosedForm` | src/emulator/reference_executor.cpp:332-339 | MCOPY: byte dst+i is the old byte (0 if unmapped) at src + (i mod d), d = (dst-src) mod 2^64, or src+i when d = 0; nothing else changes; all overlaps and wraps |
| `MemoryNumbers.PackedNumber` | src/emulator/execution_context.cpp:127-146 | a word read byte by byte is the little-endian number of its bytes |
| `MemoryNumbers.ByteOfNumber` | src/emulator/execution_context.cpp:173-184 | byte k of a stored number is the number divided by 256^k, modulo 256 |
| `MemoryNumbers.SignedWord` | src/emulator/reference_executor.cpp:289-291 | a 32-bit number read as signed: itself below 2^31, else plus 2^64 less 2^32 |
| `ReferenceExecutors.PushQueue` | src/emulator/reference_executor.cpp:44-49 | the in-place shift puts the value in front and drops the oldest |
| `ReferenceExecutors.LinxState.WriteScalarDestination` | src/emulator/reference_executor.cpp:51-59 | 31 pushes T, 30 pushes U, 1 to 23 set a register, everything else is ignored |
| `ReferenceExecutors.LinxState.Gpr` | src/emulator/reference_executor.cpp:31-42 | 24-27 read T, 28-31 read U, 0 and anything above read 0 |
| `ReferenceExecutors.LinxState.ExecuteBlock` | src/emulator/reference_executor.cpp:195-237 | the header and C.BSTOP branches, on all registers |
| `ReferenceExecutors.LinxState.ExecuteControl` | src/emulator/reference_executor.cpp:314-331 | the SETC, SSRSET and tile header branches, on all registers |
| `ReferenceExecutors.LinxState.Begin` | src/emulator/reference_executor.cpp:184-193 | next pc, instruction count modulo 2^64, block kind and lane |
| `ReferenceExecutors.LinxState.Reset` | include/linx/model/emulator/state.hpp:224-229 | the initial registers |
| `ReferenceExecutors.ExecutionContext.constructor` | include/linx/model/emulator/execution_context.hpp:83-94 | an empty context without program |
| `ReferenceExecutors.ExecutionContext.Read8` | src/emulator/execution_context.cpp:111-117 | the byte, or nothing where unmapped |
| `ReferenceExecutors.ExecutionContext.Read16` | src/emulator/execution_context.cpp:119-126 | both bytes or nothing |
| `ReferenceExecutors.ExecutionContext.Read32` | src/emulator/execution_context.cpp:128-138 | four little-endian bytes, wrapping, or nothing |
| `ReferenceExecutors.ExecutionContext.Read64` | src/emulator/execution_context.cpp:140-150 | eight little-endian bytes, wrapping, or nothing |
| `ReferenceExecutors.ExecutionContext.ReadMemoryRange` | src/emulator/execution_context.cpp:152-167 | the bytes of a range that does not wrap and is all mapped, else nothing |
| `ReferenceExecutors.ExecutionContext.Write32` | src/emulator/execution_context.cpp:173-178 | four bytes stored, then the finisher's answer |
| `ReferenceExecutors.ExecutionContext.Write8` | src/emulator/execution_context.cpp:169-171 | one byte, and no finisher |
| `ReferenceExecutors.ExecutionContext.Write64` | src/emulator/execution_context.cpp:180-184 | eight bytes stored, and no finisher |
| `ReferenceExecutors.ExecutionContext.HandleTestFinisherWrite` | src/emulator/execution_context.cpp:19-39 | pass, fail and reset statuses at the finisher's address only |
| `ReferenceExecutors.ExecutionContext.RequestTerminate` | src/emulator/execution_context.cpp:105-109 | flag, code and reason, nothing else |
| `ReferenceExecutors.ExecutionContext.AppendRecord` | src/emulator/execution_context.cpp:90-92 | one more record, which is also the last |
| `ReferenceExecutors.ExecutionContext.LoadProgram` | src/emulator/execution_context.cpp:57-70 | new registers, memory and records; cycle count and termination flag kept |
| `ReferenceExecutors.ExecutionContext.Reset` | src/emulator/execution_context.cpp:43-55 | everything cleared, then the kept program loaded |
| `ReferenceExecutors.ExecutionContext.CopyLoop` | src/emulator/reference_executor.cpp:336-338 | the byte loop is `CopyUpTo` |
| `ReferenceExecutors.ExecutionContext.SetLoop` | src/emulator/reference_executor.cpp:345-347 | the byte loop stores that many copies |
| `ReferenceExecutors.ReferenceExecutor.FetchDecode` | src/emulator/reference_executor.cpp:114-140 | length by low nibble, all bytes mapped, decoded Ok, or nothing |
| `ReferenceExecutors.ReferenceExecutor.ExecuteScalar` | src/emulator/reference_executor.cpp:238-300 | the eight value branches: the value, its destination, and the load's record |
| `ReferenceExecutors.ReferenceExecutor.ExecuteStore` | src/emulator/reference_executor.cpp:301-313 | the SWI branch on the whole context, with its record |
| `ReferenceExecutors.ReferenceExecutor.ExecuteBytes` | src/emulator/reference_executor.cpp:332-348 | the MCOPY and MSET branches on the whole context |
| `Machines.FetchLength` | src/emulator/reference_executor.cpp:122-123 | 2 bytes for an even nibble but 14, which is 6; 8 for 15; 4 for the other odd ones |
| `ReferenceExecutors.ReferenceExecutor.Execute` | src/emulator/reference_executor.cpp:176-365 | every branch: an implemented instruction does all of `ExecuteOf`, any other only asks to terminate |
| `ReferenceExecutors.ReferenceExecutor.Step` | src/emulator/reference_executor.cpp:142-160 | one step on the whole context, and true exactly when the run goes on |
| `ReferenceExecutors.ReferenceExecutor.Run` | src/emulator/reference_executor.cpp:162-174 | the bounded loop terminates and is `RunOf` |
| `ExecutorTheorems.RunBookkeeping` | src/emulator/reference_executor.cpp:142-190 | over any steps the records are exactly the committed instructions, with consecutive cycles and chained registers; the instruction count is their number |
| `ExecutorTheorems.CommittingStep` | src/emulator/reference_executor.cpp:152-160 | a committing step: registers, memory, one record, one cycle |
| `ExecutorMeaning.ImplementedExactly` | src/emulator/reference_executor.cpp:101-110 | the implemented mnemonics, as one list |
| `ExecutorMeaning.TileOpcodes` | src/emulator/reference_executor.cpp:61-99 | the tile headers and the block kind of each |
| `ExecutorMeaning.ImmediateMeaning` | src/emulator/reference_executor.cpp:10-29 | an immediate is the value of the first field of the first name the packet has, 0 without one; unsigned it is modulo two to the field's width |
| `ExecutorMeaning.ReadsMeaning` | src/emulator/reference_executor.cpp:31-42 | where an operand is read from: registers 1 to 23, the T queue at 24 to 27, the U queue at 28 to 31, newest first, and 0 otherwise |
| `InstructionEffects.ValueStep` | src/emulator/reference_executor.cpp:238-300 | an instruction with a scalar result puts it into its destination and its record, goes on, and changes nothing else |
| `InstructionEffects.AddiEffect` | src/emulator/reference_executor.cpp:276-283 | ADDI: source plus immediate, modulo 2^64 |
| `InstructionEffects.AddThenSubtract` | src/emulator/reference_executor.cpp:276-283 | over two steps adding v and then -v to one register restores all registers, and leaves memory alone |
| `InstructionEffects.LuiEffect` | src/emulator/reference_executor.cpp:248-254 | LUI: 4096 times the immediate, modulo 2^64 |
| `InstructionEffects.HlLuiEffect` | src/emulator/reference_executor.cpp:255-261 | HL.LUI: the low 32 bits of the immediate in the high half, zeros in the low half |
| `InstructionEffects.HlLiuEffect` | src/emulator/reference_executor.cpp:262-268 | HL.LIU: the low 32 bits of the immediate |
| `InstructionEffects.HlLisEffect` | src/emulator/reference_executor.cpp:269-275 | HL.LIS: the signed immediate |
| `InstructionEffects.MoviEffect` | src/emulator/reference_executor.cpp:238-242 | C.MOVI: the signed immediate |
| `InstructionEffects.MovrEffect` | src/emulator/reference_executor.cpp:243-247 | C.MOVR: the source |
| `InstructionEffects.LwiEffect` | src/emulator/reference_executor.cpp:284-300 | LWI: the four bytes at source plus four times the immediate as a signed number, 0 when one is not mapped, and the load in the record |
| `InstructionEffects.SwiEffect` | src/emulator/reference_executor.cpp:301-313 | SWI: the four low bytes of the first operand at the second plus four times the immediate, every other byte as before, and the store in the record |
| `InstructionEffects.McopyEffect` | src/emulator/reference_executor.cpp:332-339 | MCOPY: to the first operand from the second, as many bytes as the third says, and no register changes |
| `InstructionEffects.McopyByte` | src/emulator/reference_executor.cpp:332-339 | MCOPY byte by byte for every overlap and wrap-around, an unmapped byte counting as 0 |
| `InstructionEffects.MsetEffect` | src/emulator/reference_executor.cpp:340-348 | MSET: the low byte of the second operand at as many addresses from the first on as the third says |
| `ControlEffects.SetcEffect` | src/emulator/reference_executor.cpp:314-323 | SETC.NE and SETC.LTU: the condition is 1 exactly when the operands differ, or the first is smaller |
| `ControlEffects.SsrsetEffect` | src/emulator/reference_executor.cpp:324-331 | SSRSET: one system register of the current ring, none for a number from 4096 on |
| `ControlEffects.StdEffect` | src/emulator/reference_executor.cpp:195-201 | C.BSTART.STD on every block register |
| `ControlEffects.VectorBlockEffect` | src/emulator/reference_executor.cpp:202-217 | C.BSTART.VPAR and C.BSTART.VSEQ |
| `ControlEffects.BstartEffect` | src/emulator/reference_executor.cpp:218-227 | C.BSTART: the target is pc plus twice the offset; direct exactly when DIRECT occurs in the template |
| `ControlEffects.BstopEffect` | src/emulator/reference_executor.cpp:228-237 | C.BSTOP: to the target from a direct block or a conditional one with its condition set |
| `ControlEffects.TileEffect` | src/emulator/reference_executor.cpp:349-357 | the tile headers and B.TEXT |
| `ControlEffects.KindEffect` | src/emulator/reference_executor.cpp:61-94 | block kind and lane after every implemented mnemonic |
| `ControlEffects.RecordEffect` | src/emulator/minst_record.cpp:192-217 | every column of a committed record but its destination value and memory access |
| `ControlEffects.RecordForm` | src/emulator/minst_record.cpp:206 | the form identifier, cut to 31 characters |
| `RunEffects.UnsupportedEffect` | src/emulator/reference_executor.cpp:176-183 | any other mnemonic ends the run with code 1 and changes nothing else |
| `RunEffects.StepEnds` | src/emulator/reference_executor.cpp:142-156 | a step at the stop pc keeps the exit code, one that cannot fetch ends with code 1, neither changes anything else |
| `RunEffects.RunEnds` | src/emulator/reference_executor.cpp:162-168 | the cycle bound ends a run and keeps the exit code |
| `RunEffects.FinisherEffect` | src/emulator/execution_context.cpp:19-39 | what each status stored by an SWI does, from the operands: exit code 0, or the high half and at least 1 |
| `RunEffects.FetchMeaning` | src/emulator/reference_executor.cpp:114-140 | a fetched packet: the length the first byte says, every byte mapped, and the decoding of their little-endian number |
| `RunEffects.FetchFails` | src/emulator/reference_executor.cpp:114-140 | a fetch fails exactly when a byte is not mapped or the word does not decode |
| `RunEffects.LoadEffect` | src/emulator/execution_context.cpp:57-70 | every register after a load; cycle, exit code, reason and flag kept |
| `RunEffects.ResetEffect` | src/emulator/execution_context.cpp:43-55 | everything after a reset, with and without a program |
| `ExecutorTheorems.ControlEffect` | src/emulator/reference_executor.cpp:184-357 | what any instruction does to pc, block registers and count |
| `ExecutorTheorems.RecordKindExactly` | src/emulator/reference_executor.cpp:184-205 | a committed record carries the block kind and lane its instruction leaves, except exactly for a C.BSTART.STD after a block that was not scalar (lane: after a vector block) |
| `ExecutorTheorems.StaleKindInput` | src/emulator/reference_executor.cpp:184-205 | an input: C.BSTART.STD after a vector block leaves a scalar context and a vpar record |
| `ExecutorTheorems.FreshRunCounts` | src/emulator/reference_executor.cpp:176-190 | from a reset context there are as many records as committed instructions, and the instruction count is that number, also when it is 0 |
| `ExecutorTheorems.FreshRunBookkeeping` | src/emulator/reference_executor.cpp:176-190 | from a reset context record i has cycle i and the pc step i-1 left |
| `ExecutorTheorems.RejectedStepChangesNothing` | src/emulator/reference_executor.cpp:152-183 | a rejected or undecodable step leaves registers, memory and records untouched; the cycle advances only past a decoded instruction |
| `ExecutorTheorems.OnlyTheFinisherStops` | src/emulator/execution_context.cpp:19-39 | a committed instruction ends the run exactly when it is an SWI to the finisher with a known status, with the exit code of that status |
| `ExecutorTheorems.LoadAloneDoesNotRestart` | src/emulator/execution_context.cpp:43-70 | a step after `LoadProgram` does something if and only if the context had not terminated; a terminated one stays as loaded however many steps follow; `Reset` clears flag and cycle |
| `ExecutorTheorems.LoadNumbersFromZero` | src/emulator/execution_context.cpp:57-70 | the records committed after a load number from 0 if and only if the kept cycle count is 0 |
| `ExecutorTheorems.RunIsSteps` | src/emulator/reference_executor.cpp:162-174 | a bounded run is so many steps, ended by a step or the bound |
| `ExecutorTheorems.RunBounded` | src/emulator/reference_executor.cpp:162-174 | it ends terminated, commits at most the cycles left, keeps earlier records, never commits the stop pc |
| `ExecutorTheorems.BlockControlFlow` | src/emulator/reference_executor.cpp:195-237 | over every run from a loaded program a C.BSTOP goes to the latest open C.BSTART plus twice its offset, exactly when there is one and it is DIRECT or the latest SETC since the previous C.BSTOP held; every other instruction continues at its next pc |
| `ExecutorTheorems.OpenHeader` | src/emulator/reference_executor.cpp:195-237 | the latest C.BSTART with no C.BSTOP or C.BSTART.STD after it, or none |
| `ExecutorTheorems.LatestSetc` | src/emulator/reference_executor.cpp:314-323 | the latest SETC with no C.BSTOP after it, or none |
| `ExecutorTheorems.RegistersRecallWrites` | src/emulator/reference_executor.cpp:31-59 | over every run register k holds the newest value written to it, T and U the four newest values written to 31 and 30, newest first |
| `ExecutorTheorems.MemoryRecallsWrites` | src/emulator/reference_executor.cpp:301-348 | over every run each byte is what its latest writer (SWI, MCOPY, MSET) put there, or what was loaded |
| `ExecutorTheorems.LoadedByte` | src/emulator/execution_context.cpp:65-69 | an image maps exactly what its sections cover, a later section on top |
| `ExecutorTheorems.BodyTouches` | src/emulator/reference_executor.cpp:301-348 | an instruction changes exactly the bytes it targets, and how |
| `ExecutorTheorems.StoredWordLoads` | src/emulator/reference_executor.cpp:284-313 | what SWI stores LWI loads, sign-extended, at every address |
| `SharedTiles.SharedTileBank.Write` | src/emulator/shared_tile.cpp:43-108 | status by the checks in order; the loops then fill exactly the selected lanes of one register |
| `SharedTiles.SharedTileBank.WriteUniform` | src/emulator/shared_tile.cpp:34-41 | the overload with one descriptor is the other with four copies |
| `SharedTiles.SharedTileBank.constructor` | include/linx/model/emulator/state.hpp:80 | the empty bank |
| `SharedTiles.CapacityBytes` | src/emulator/shared_tile.cpp:27-32 | exactly the codes 1 to 12 have a capacity, between 128 bytes and 256 KiB |
| `SharedTiles.CapacityDoubles` | src/emulator/shared_tile.cpp:27-32 | each size code doubles the capacity of the one before it, from 128 on |
| `SharedTiles.Preflight` | src/emulator/shared_tile.cpp:66-84 | applied exactly when every selected lane passes all its checks |
| `SharedTiles.SharedTileBank.CheckLanes` | src/emulator/shared_tile.cpp:66-84 | the preflight loop returns `Preflight` |
| `SharedTiles.SharedTileBank.FillLanes` | src/emulator/shared_tile.cpp:98-106 | the lane loop fills the lanes of the mask and no other register |
| `SharedTiles.SharedTileBank.Read` | src/emulator/shared_tile.cpp:110-120 | an initialised lane, or nothing |
| `SharedTiles.SharedTileBank.Reset` | src/emulator/shared_tile.cpp:127-129 | the empty bank |
| `SharedTileTheorems.WriteIsAllOrNothing` | src/emulator/shared_tile.cpp:43-107 | not applied: nothing changes; applied exactly when register, mask, size and every selected lane pass |
| `SharedTileTheorems.LowestLaneDecides` | src/emulator/shared_tile.cpp:66-84 | a preflight refusal is that of the lowest selected lane that fails |
| `SharedTileTheorems.ReachableSound` | src/emulator/shared_tile.cpp:86-107 | in every reachable bank initialised = allocated, bytes = capacity times lanes, lanes full-sized and valid |
| `SharedTileTheorems.ReadsLatestStore` | src/emulator/shared_tile.cpp:98-120 | a read returns what the latest applied write selecting that PE since the last reset stored |
| `SharedTileTheorems.LatestStoreMeaning` | src/emulator/shared_tile.cpp:98-129 | no store and no reset after that write; where there is none every store was reset away |
| `SharedTileTheorems.ShapeIsFrozen` | src/emulator/shared_tile.cpp:62-96 | until a reset nothing but payload bytes of an allocated register changes |
| `SharedTileTheorems.DtypeUniformExactly` | src/emulator/shared_tile.cpp:77-95 | every lane has the register's dtype if and only if the allocating write's selected descriptors agree |
| `SharedTileTheorems.MixedDtypesAccepted` | src/emulator/shared_tile.cpp:77-95 | a first write with two dtypes that is applied |
| `SharedTileTheorems.MixedLaneIsStuck` | src/emulator/shared_tile.cpp:77-83 | a lane with another dtype is refused by every later write until a reset |
| `SharedTileTheorems.UniformWrite` | src/emulator/shared_tile.cpp:34-41 | the one-descriptor overload always gives a uniform register |
| `SharedTileMeaning.SelectedBit` | src/emulator/shared_tile.cpp:12-14 | lane pe is selected exactly when the mask divided by 2^(3 - pe) is odd |
| `SharedTileMeaning.PopCountIsCardinality` | src/emulator/shared_tile.cpp:89 | the popcount of a mask is the number of PEs it selects |
| `SharedTileMeaning.EarlyStatusExactly` | src/emulator/shared_tile.cpp:47-64 | the five statuses before the lane checks, each with its exact condition in numbers |
| `SharedTileMeaning.LaneStatusDecides` | src/emulator/shared_tile.cpp:66-84 | after them the first selected lane that is not accepted decides, and its status says which check failed |
| `SharedTileMeaning.AppliedExactly` | src/emulator/shared_tile.cpp:47-107 | a write is applied exactly when it passes them and every selected lane is accepted |
| `SharedTileMeaning.DescriptorMeaning` | src/emulator/shared_tile.cpp:16-23 | a descriptor is valid exactly when its shape is not empty, covers its valid part, and fits the capacity at two elements to a byte |
| `SharedTileMeaning.DescriptorInputs` | src/emulator/shared_tile.cpp:16-23 | inputs: 16 by 16 fits 128 bytes and 17 by 16 does not; empty shapes and valid parts outside are refused |
| `SharedTileMeaning.AllocationMeaning` | src/emulator/shared_tile.cpp:86-96 | the first applied write fixes mask, capacity, bytes for each selected PE, and the dtype of the first PE it selects |
| `SharedTileMeaning.ReadAfterWrite` | src/emulator/shared_tile.cpp:98-120 | one read after one write of any bank |
| `SharedTileMeaning.ReadsLastHit` | src/emulator/shared_tile.cpp:98-120 | a read returns what the last applied write whose mask divided by 2^(3 - pe) is odd has stored, if no reset came after it |
| `SharedTileMeaning.ReadsNothingExactly` | src/emulator/shared_tile.cpp:110-129 | a read returns nothing exactly when a reset came after every such write |
| `SharedTileMeaning.ReadOutside` | src/emulator/shared_tile.cpp:112-114 | nothing from register 64 or PE 4 on |
| `SharedTileMeaning.MaskEightInput` | src/emulator/shared_tile.cpp:12-14 | an input: the write with mask 8 to register 63 of an empty bank is applied and only PE 0 reads it |
| `AsmText.Template.ReplaceAsmToken` | src/isa/minst.cpp:45-61 | the in-place loop terminates and is the scan `Scan`; an empty needle changes nothing |
| `AsmText.Find` | src/isa/minst.cpp:50 | the first occurrence from a position on, or none |
| `AsmText.TokenCharsExactly` | src/isa/minst.cpp:40-43 | the token characters are the letters, the digits, the underscore and the hash sign |
| `AsmText.Template.ReplaceFound` | src/isa/minst.cpp:51-59 | one turn: replaced in place when it stands alone, else stepped over |
| `AsmText.ReplacementIsTokenwise` | src/isa/minst.cpp:40-61 | for a needle of token characters exactly the maximal token runs equal to it are replaced, whatever the replacement contains |
| `AsmText.TokensAreMaximal` | src/isa/minst.cpp:40-43 | the pieces put together are the text, and no two token runs touch |
| `AsmText.TokenwiseExactly` | src/isa/minst.cpp:40-61 | replacement is tokenwise for every text and replacement if and only if the needle consists of token characters |
| `AsmText.NotTokenwise` | src/isa/minst.cpp:45-61 | for every other needle a text and a replacement that tell |
| `AsmText.OtherNeedlesCrossTokens` | src/isa/minst.cpp:45-61 | an input: the needle "a.b" is replaced across two tokens |
| `Disasm.PackLittleEndian` | src/isa/disasm.cpp:21-28 | the packing loop gives the little-endian word |
| `Disasm.DecodeBest` | src/isa/disasm.cpp:48-75 | the length that decodes with most fixed bits, the shorter on a tie, or none when no length decodes |
| `Disasm.BestIsUnique` | src/isa/disasm.cpp:48-75 | at most one length is best |
| `DisasmTheorems.CandidateExactly` | src/isa/disasm.cpp:48-66 | two, four, six and eight bytes are tried, where they are there |
| `DisasmTheorems.BestHasMostFixedBits` | src/isa/disasm.cpp:66-72 | the form at the best length has more fixed bits than that at any other that decodes, or as many and fewer bytes |
| `DisasmTheorems.OneFormLine` | src/isa/disasm.cpp:48-75 | an input for each of the four lengths: a form that fixes nothing gives lines of its length |
| `DisasmTheorems.UndecodedLine` | src/isa/disasm.cpp:87-127 | where nothing decodes the line is the first byte, marked as matching nothing |
| `Disasm.LineSize` | src/isa/disasm.cpp:87-127 | a line is 1, 2, 4, 6 or 8 bytes, holds those bytes, and only a one-byte line is undecoded |
| `Disasm.DecodeDisassemblyLine` | src/isa/disasm.cpp:87-127 | a line for the best decoding, one plain byte otherwise, none exactly for no bytes |
| `Disasm.DisassembleSection` | src/isa/disasm.cpp:129-148 | the walk terminates and its lines follow one another over the whole section; nothing for a section that is not executable |
| `DisasmTheorems.ListingTiles` | src/isa/disasm.cpp:129-148 | the words' little-endian bytes put together are the section, and each line starts where the one before ends |
| `DisasmTheorems.ListingAgreesWithFetch` | src/isa/disasm.cpp:129-148 | so on a table whose first bytes announce lengths a line is decoded exactly when the executor fetches an instruction there inside the section, with the same form and length, at every line |
| `DisasmTheorems.LineAgreesWithFetch` | src/emulator/reference_executor.cpp:114-140 | the same for one line at any address of any memory |
| `DisasmTheorems.LineAgreesExactly` | src/emulator/reference_executor.cpp:114-140 | listing and fetch agree on a line if and only if every other length that decodes there loses to the announced one |
| `DisasmTheorems.ListingAgreesExactly` | src/isa/disasm.cpp:129-148 | the same at each line of a whole listing |
| `DisasmTheorems.RivalInput` | src/isa/disasm.cpp:48-75 | an input: a two-byte form that matches bytes announcing four; the listing has a decoded line there that the fetch does not agree with |

## Left out

- File, stream, trace and log output, argument parsing, ELF headers, the compare harness and validation reports.
- The concrete generated form tables: the table is a parameter, and what a proof needs of it is a stated predicate.
- A table range that leaves its array is undefined in C++; here it is empty. Shifts of 64 or more are undefined
  there and give zero bits here. A signed overflow in a branch target is undefined there and wraps here.
- `Scheduler.Module.PerformOps`: in the source an operation its queue refuses throws and ends the pass; here it changes
  nothing and the turn goes on.
- `SystemStep.SimSystem.Step`: every registered object is a module tree, all of one payload type; the source also takes
  any other object with a `Work` and an `Xfer`.
- `ReferenceExecutors.ReferenceExecutor.Run`: without a cycle bound the loop may not end; `RunBookkeeping` and the theorems
  about steps cover any number of its steps.
- Registers and block state no instruction here changes (vector queues, template and tile state, traps, other SSR banks).
- `ReferenceExecutors.ReferenceExecutor.Execute`: record columns for opcode class, lifecycle, trap and operand readiness.
- `Codec.DecodePackedWord`: packet stage and lifecycle, immediates, memory info, and class and branch flags.
- `Codec.Minst.ClearDecodedState`: the same members, and annotations.
- `Codec.Minst.RebuildTypedViews`: sources and destinations only; immediates, shift amount, memory info and flags are as
  direct a reading of the fields.
- `Codec.Minst.CreateFetch`: stage and lifecycle.
- `Machines.RecordOf`: the memory column a packet of another load, store or atomic class would start with, because those
  classes come from the generated tables; LWI and SWI fill theirs as the code does.
- `Generator.BuildForms`: a form pattern beyond 64 bits keeps its low 64 bits here; the constants the Python writes
  for one would not fit their C++ columns. The kind and group columns are dropped.
- Constraint values and register aliases arrive resolved in the generator; unused form texts are dropped.
- The order `std::sort` gives replacements of equal length, and how field values are printed: one replacement pass is modelled.
- The text and hexadecimal columns of a listing line; its bytes stand for them.
- Smart-pointer payloads of queues: one abstract payload type.
- `BindingAllows`, `ValidateSharedOperation` and status texts: settled by reading one branch.
