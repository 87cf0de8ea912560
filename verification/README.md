# Verified models of vLLM core logic

A Dafny 4.11 project that models the self-contained algorithms and state machines of vLLM 0.20.2 and proves
what they are for. `dafny verify dfyconfig.toml` checks everything.

| files | what they model |
|---|---|
| `GraphPartition`, `GraphExecution`, `GraphMemory`, `Liveness` | the graph partition pass of `env_override.py`, a semantics for graphs and partition calls, the proof that partitioning preserves meaning, which buffers a run drops, and what the unmet names are |
| `MemoryPlanning`, `MemoryPass` | the patched memory planning pass with its stack of states |
| `ChunkPlan`, `CumemDriver`, `CumemProofs`, `CumemFailures`, `CumemAllocator` | the ROCm branch of `cumem_allocator.cpp`: chunk planning, `create_and_map` with rollback, `unmap_and_release`, `my_malloc`, `my_free`, over a driver whose every call may fail |
| `CumemMemory`, `CumemLifecycle`, `CumemPool` | `sleep` and `wake_up` of `cumem.py` on top of that driver: bytes behind addresses, runs in which allocations come, sleep, wake and go, and the pool object |
| `NinjaSweep`, `NinjaParallel`, `NinjaLog` | the weighted build time sweep, the sum of durations it is compared with, and the log reader |
| `IndexRanges`, `ModuleSignature`, `ModuleTree`, `TreeText`, `TreeShape` | range printing, signatures, the module tree printer, a parser for what it prints, and what the printed text tells about the tree |
| `BadWords` | the bad words logits processor and generation runs |
| `Logprobs`, `LogprobsSlices`, `FlatContainer` | the flat container of log probabilities |
| `XpuQuant`, `XpuGroupQuant`, `XpuFloat8`, `XpuLookup`, `XpuTopK` | the reference quantizers, the 8-bit float format, the sequence lookup and decode top-k |
| `Wrappers`, `Arithmetic` | results and integer facts |

Methods with loops, fields and arrays follow the code step by step and are proved equal to specification
functions; the lemmas say what those functions mean.

## How the outside world is modelled

- The GPU driver is a value: live pages with their bytes, mappings, reservations and a handle counter. An
  `Oracle` decides for every numbered driver call whether it fails, what fresh pages hold and which address a
  new reservation gets, so a statement for all oracles is one for all failure patterns.
- Graph kernels are an arbitrary function of the node, the storage written and the storages read.
- `torch.topk` may return any list of positions that satisfies its contract; ties are open.
- Floating point is modelled over the reals; logits also have infinities and NaN where they matter.
- Python exceptions are `Failure` results.

## Where the code does less than one would expect

Each of these has a lemma with a concrete input and, next to it, the exact condition.

- A partition that frees a NoneLayout buffer of another partition declares an input that nobody returns
  (`FreedNoneLayoutBufferIsMissing`, `PartitioningPreservesMeaning`).
- A renamed graph output stays unmet before the partition that defines it, and a graph output without storage can
  be taken off the unmet names too early (`RenamedOutputStaysUnmet`, `EmptyStorageIsReturnedEarly`,
  `OrdinaryLivenessIff`).
- The rounding additions of `my_malloc` can wrap. A wrapped chunk size is zero and is divided by; the other two leave
  no chunks (`HugeChunkDividesByZero`, `HugeChunkPlansNothing`, `HugeRequestIsRoundedToZero`, `PlanChunks`). A size
  near 2^64 can only come from a negative signed one.
- `create_and_map` leaks a page when the error code was not cleared, and keeps everything mapped when only
  setting access fails (`StaleErrorLeaksFirstPage`, `AccessFailureStaysMapped`, `CreateAndMapAllOrNothing`).
- `my_free` uses the caller's size, so it needs the aligned one (`RequestedSizeIsNotFreed`, `MyFree`).
- A module name that is another one followed by a colon makes signatures ambiguous, and the tree printer then collapses
  children that differ (`ColonInNameCollides`, `SignaturesDecideIff`, `CollapsesOnlyEqualIff`).
- A module name that holds the label mark, two names for one number, and blanks at the front of an info make the printed tree
  ambiguous (`MarkInNameCollides`, `NumberedTextCollides`, `LinesDecide`).
- A plus-infinite or NaN logit survives the ban (`InfiniteLogitEscapes`, `BannedIffNotInfinite`,
  `GeneratedTextIsCleanIff`).
- A backward slice of a `FlatLogprobs` cannot be read, although the class documents list behaviour
  (`ReversedSliceLosesEntries`, `SliceReadsBack`), and an empty slice raises an IndexError where a list gives an empty
  list (`EmptySliceFails`, `RunsRefine`).
- More than eight bits wrap in the cast to eight bits (`MoreBitsWrap`, `QuantizationError`), and a zero point that
  does not fit 32 bits loses the row (`ConstantRowDoesNotFit`, `QuantizationErrorIff`).
- For groups below eps the power-of-two scale need not be the least that would do (`ZeroGroupHasNoLeastPower`,
  `LeastPowerIff`).
- The one-based block index is one too high for the last entry of every block
  (`FirstBlockIsMissed`, `BlockIndexIsRightIff`).
- An allowed logit of minus infinity can lose against a forbidden position
  (`AllowedNegInfIsLost`, `DecodeRowIff`).

## Model

| member | source | states |
|---|---|---|
| `GraphPartition.GetGraphPartitionSignature` | vllm-0.20.2/vllm/env_override.py:191-329 | The backward loop over the partitions returns exactly the signatures of the specification, whose fields `SignatureMeans` gives name by name, or the KeyError of a name that name_to_node lacks; a shorter list of flags drops partitions at the front |
| `GraphPartition.SignPartition` | vllm-0.20.2/vllm/env_override.py:228-327 | One iteration gives the specified signature and the names unmet before the partition, or nothing when a returned name is not in name_to_node; what the signature says is `SignatureMeans` |
| `GraphPartition.MergeDependencies` | vllm-0.20.2/vllm/env_override.py:231-263 | The names that a partition defines, touches and frees are the unions over its nodes |
| `GraphPartition.UnmetIsLiveness` | vllm-0.20.2/vllm/env_override.py:228-327 | Exact liveness on every graph: a name is unmet before partition i iff some partition j >= i takes or frees it, or it is a graph output, and no partition from i up to that use hands it out, under its own name or as a renamed version that is used later |
| `GraphPartition.RenamedIsUsed` | vllm-0.20.2/vllm/env_override.py:298-327 | A renamed version is unmet iff it is used anywhere later, since it is only returned under the name of its storage |
| `GraphPartition.InputsAreTakenOrFreed` | vllm-0.20.2/vllm/env_override.py:244-273 | The inputs of a partition are exactly the storages that one of its nodes frees, or touches under an allocated name, and that no node of it defines |
| `GraphPartition.SignatureMeans` | vllm-0.20.2/vllm/env_override.py:265-327 | Every field of every signature, name by name: an input is a node name that the partition takes or frees, its deallocation flag is true iff some node of the partition has it in its last uses, the constants are those it takes, the outputs are the allocated names it gives back, and the cudagraph flag is the one given for it |
| `GraphPartition.TouchedStorage` | vllm-0.20.2/vllm/env_override.py:208-259 | A partition that touches a buffer it does not define takes its storage if the buffer has a layout, or is a mutated version of one that has; a NoneLayout buffer that is no such version is not taken |
| `GraphMemory.LastUsesAreDropped` | vllm-0.20.2/vllm/env_override.py:265-327 | After a successful run of the first partitions of a well-formed graph the caller holds no buffer whose last use lies in one of them, and still holds every argument whose last use does not |
| `GraphMemory.CallDrops` | vllm-0.20.2/vllm/env_override.py:275-306 | After one call the caller holds nothing that a node of the partition uses last, and keeps everything else it held |
| `GraphMemory.InputIsDropped` | vllm-0.20.2/vllm/env_override.py:275-284 | The signature of a concrete partition that is the last to use its input: the input is declared, flagged and not an output |
| `GraphPartition.ReturnedInputsStayUnmet` | vllm-0.20.2/vllm/env_override.py:296-327 | The unfreed inputs that are returned, and so removed from the unmet names, are always put back as inputs |
| `Liveness.OrdinaryLivenessIff` | vllm-0.20.2/vllm/env_override.py:228-327 | On a scheduled graph with renames and NoneLayout buffers, a name is unmet iff it is used later and not defined before that use, except for two kinds of names: renamed graph outputs still to be defined, and storages of which a partition returns a version before their first use |
| `Liveness.AllocatedStorageLiveness` | vllm-0.20.2/vllm/env_override.py:228-327 | For allocated storages there is no exception: mutating one is using it |
| `Liveness.RenamedIsOutput` | vllm-0.20.2/vllm/env_override.py:298-327 | On a scheduled graph a renamed version is unmet iff it is a graph output, wherever it is defined |
| `Liveness.RenamedOutputStaysUnmet` | vllm-0.20.2/vllm/env_override.py:298-327 | A concrete well-formed graph whose only partition defines a graph output that is unmet before it |
| `Liveness.EmptyStorageIsReturnedEarly` | vllm-0.20.2/vllm/env_override.py:298-327 | A concrete well-formed graph of two partitions in which a graph output without storage, defined by the first, is taken off the unmet names by the second |
| `GraphExecution.PartitioningPreservesMeaning` | vllm-0.20.2/vllm/env_override.py:205-329 | For every well-formed graph (renames and NoneLayout buffers included), partitioning and kernel semantics: the partitioned run finds every declared input iff no partition frees a NoneLayout buffer defined elsewhere, and then the allocated graph outputs equal those of running all nodes in one environment |
| `GraphExecution.FreedNoneLayoutBufferIsMissing` | vllm-0.20.2/vllm/env_override.py:265-306 | A concrete two-partition graph that is well formed and whose second partition declares an input nobody can supply |
| `GraphExecution.WellFormedIsResolvable` | vllm-0.20.2/vllm/env_override.py:302-306 | On a well-formed graph the pass never raises the KeyError of the output lookup |
| `GraphExecution.BodyTracksGraph` | vllm-0.20.2/vllm/env_override.py:231-306 | A partition body that starts on part of the full environment, and frees buffers after their last use, agrees with the full run on everything it was given or defined and did not free |
| `GraphExecution.BodyDeliversOutputs` | vllm-0.20.2/vllm/env_override.py:286-306 | On its declared inputs alone a partition ends with the full run's value of every declared output |
| `GraphExecution.CallTracksGraph` | vllm-0.20.2/vllm/env_override.py:314-327 | One call, with deallocated inputs dropped, keeps the caller in step with the full run on all live storages |
| `GraphExecution.LiveIsUnmet` | vllm-0.20.2/vllm/env_override.py:325-327 | A storage that a later partition or the graph output needs is among the unmet names, up to renaming |
| `GraphExecution.MutatedIsExternal` | vllm-0.20.2/vllm/env_override.py:244-259 | A partition that mutates a storage it did not define takes that storage as an input |
| `MemoryPass.WrapperCode.MemoryPlanReuse` | vllm-0.20.2/vllm/env_override.py:159-179 | Succeeds iff the trimmed lines are bracketed (no exit or planning line on an empty stack, one state left); IndexError and AssertionError are told apart; every line is planned with the state on top of the stack; every state that was created is retired once, in the order of the exits |
| `MemoryPass.WrapperCode.DropPointless` | vllm-0.20.2/vllm/env_override.py:159-165 | The trimming loop leaves the trimmed lines |
| `MemoryPass.WrapperCode.PlanLine` | vllm-0.20.2/vllm/env_override.py:171-177 | One line: planned with the top state, or a push, or a pop that retires the top state; fails exactly on an empty stack |
| `MemoryPass.WrapperCode.PlanLines` | vllm-0.20.2/vllm/env_override.py:168-177 | The loop over the lines fails exactly where a prefix needs a state that is not there; otherwise stack, retired states and lines are those of the specification |
| `MemoryPlanning.TrimmedDropsPointlessTail` | vllm-0.20.2/vllm/env_override.py:159-165 | Trimming drops exactly the planning lines at the end whose buffers are not returned |
| `MemoryPlanning.PlannedAt` | vllm-0.20.2/vllm/env_override.py:172-173 | Each planning line receives the state of its own point; other lines are untouched |
| `MemoryPlanning.SameStateIffSameSubgraph` | vllm-0.20.2/vllm/env_override.py:168-178 | Two planning lines share a state iff they lie in the same subgraph: same depth and no shallower point between them |
| `MemoryPlanning.GoneIsGone` | vllm-0.20.2/vllm/env_override.py:176-177 | A state that left the stack never comes back |
| `MemoryPass.RetiredOrOpenOnce` | vllm-0.20.2/vllm/env_override.py:168-178 | Every state that was created is on the stack or retired, and only once |
| `ChunkPlan.MemcreateChunkSize` | vllm-0.20.2/csrc/cumem_allocator.cpp:24-42 | The environment value times 2^20 iff that is positive and below 2^64, 268435456 otherwise |
| `ChunkPlan.AlignUpRounds` | vllm-0.20.2/csrc/cumem_allocator.cpp:341 | The aligned size is the size rounded up to a multiple of the granularity, and zero exactly when the rounding addition wraps |
| `ChunkPlan.RoundUpIsLeast` | vllm-0.20.2/csrc/cumem_allocator.cpp:341 | The rounded size is the least multiple that holds the request |
| `ChunkPlan.NumChunksCovers` | vllm-0.20.2/csrc/cumem_allocator.cpp:369-370 | The chunk count is the least that covers the aligned size when the rounding addition does not wrap, and zero when it does |
| `ChunkPlan.FillChunks` | vllm-0.20.2/csrc/cumem_allocator.cpp:375-390 | The filled array is an exact plan: positive multiples of the granularity, all but the last full, that sum to the aligned size |
| `ChunkPlan.PlanChunks` | vllm-0.20.2/csrc/cumem_allocator.cpp:341-390 | For all sizes, granularities and chunk settings: the division by a wrapped chunk size stops the program; otherwise the chunks are the right plan for the least aligned size iff none of the three additions wraps, and none at all when one does |
| `ChunkPlan.HugeChunkDividesByZero` | vllm-0.20.2/csrc/cumem_allocator.cpp:366-370 | A concrete chunk setting that is rounded up to zero and then divided by |
| `ChunkPlan.HugeChunkPlansNothing` | vllm-0.20.2/csrc/cumem_allocator.cpp:366-370 | A concrete chunk setting with which a request of two granules gets no chunk |
| `ChunkPlan.HugeRequestIsRoundedToZero` | vllm-0.20.2/csrc/cumem_allocator.cpp:341 | A concrete size that is rounded up to zero |
| `CumemProofs.TilesPartition` | vllm-0.20.2/csrc/cumem_allocator.cpp:160-179 | The mapped chunks fill [d_mem, d_mem + sum) with no gap and no overlap |
| `CumemProofs.CreateAndMapAllOrNothing` | vllm-0.20.2/csrc/cumem_allocator.cpp:150-190 | From a clear error code: if a create or map step fails, live pages, mappings and reservations are those from before the call iff every rollback call succeeds; otherwise everything is mapped, also when setting access fails |
| `CumemProofs.CreateFailureRollsBack` | vllm-0.20.2/csrc/cumem_allocator.cpp:150-159 | A failing create step releases exactly the pages created before it |
| `CumemProofs.MapFailureRollsBack` | vllm-0.20.2/csrc/cumem_allocator.cpp:160-177 | A failing map step unmaps exactly the chunks mapped before it and releases all pages |
| `CumemProofs.NoFailureMaps` | vllm-0.20.2/csrc/cumem_allocator.cpp:150-190 | With no failing create or map step the call maps all chunks on fresh pages and changes nothing else |
| `CumemProofs.StaleErrorLeaksFirstPage` | vllm-0.20.2/csrc/cumem_allocator.cpp:150-159 | With an error code left over from an earlier failure the call creates one page, stops and leaks it |
| `CumemAllocator.AccessFailureStaysMapped` | vllm-0.20.2/csrc/cumem_allocator.cpp:187-190 | A concrete call in which only setting access fails: the error is reported and the chunk stays mapped |
| `CumemProofs.CreateAndMapKeepsReservations` | vllm-0.20.2/csrc/cumem_allocator.cpp:95-193 | Reservations do not change, whatever fails |
| `CumemProofs.UnmapAndReleaseUndoes` | vllm-0.20.2/csrc/cumem_allocator.cpp:195-261 | Ends without an error iff every driver call succeeds, the size is that of the reservation and the same address is reserved again; then exactly the pages and mappings of the allocation are gone |
| `CumemFailures.EachCallCounts` | vllm-0.20.2/csrc/cumem_allocator.cpp:213-228 | For every pattern of failures: chunk i stays mapped iff its own unmap call fails, and its page stays iff its own release call fails, whatever failed before |
| `CumemFailures.FirstErrorIsReported` | vllm-0.20.2/csrc/cumem_allocator.cpp:213-260 | The error that unmap_and_release ends with is that of the first failing unmap, or else of the first failing release |
| `CumemFailures.StrayIsGivenBack` | vllm-0.20.2/csrc/cumem_allocator.cpp:240-253 | When the address comes back elsewhere the error code is 1, and the stray reservation is given back unless that call fails |
| `CumemFailures.CreateErrorIsReported` | vllm-0.20.2/csrc/cumem_allocator.cpp:150-190 | The error that create_and_map ends with is that of the driver call that made it stop, whatever the rollback meets |
| `CumemFailures.MapErrorIsReported` | vllm-0.20.2/csrc/cumem_allocator.cpp:160-177 | Mapping stops with the error of the call it stops at, and with 1 for a range that is mapped already |
| `CumemAllocator.Allocator.CreateAndMap` | vllm-0.20.2/csrc/cumem_allocator.cpp:95-193 | The imperative loops, with their rollback, compute the specified driver state, error code and number of driver calls |
| `CumemAllocator.Allocator.CreateUntilError` | vllm-0.20.2/csrc/cumem_allocator.cpp:150-152 | Creates page after page until the error code is set, and reports where it stopped |
| `CumemAllocator.Allocator.MapUntilError` | vllm-0.20.2/csrc/cumem_allocator.cpp:160-163 | Maps chunk after chunk at growing offsets until one fails, and reports where it stopped |
| `CumemAllocator.Allocator.MapChunks` | vllm-0.20.2/csrc/cumem_allocator.cpp:160-190 | The mapping half of the call, with its rollback and the access step |
| `CumemAllocator.Allocator.UndoMapped` | vllm-0.20.2/csrc/cumem_allocator.cpp:164-176 | The rollback of a failed map step |
| `CumemAllocator.Allocator.ReleaseHandles` | vllm-0.20.2/csrc/cumem_allocator.cpp:223-228 | Releases every handle and keeps the first error |
| `CumemAllocator.Allocator.UnmapChunks` | vllm-0.20.2/csrc/cumem_allocator.cpp:213-221 | Unmaps every chunk at growing offsets and keeps the first error |
| `CumemAllocator.Allocator.UnmapAndRelease` | vllm-0.20.2/csrc/cumem_allocator.cpp:195-261 | The imperative ROCm branch computes the specified driver state and error code |
| `CumemAllocator.Allocator.CycleReservation` | vllm-0.20.2/csrc/cumem_allocator.cpp:235-255 | Freeing and reserving the address again, including the case that another address comes back |
| `CumemAllocator.Allocator.ReserveAddress` | vllm-0.20.2/csrc/cumem_allocator.cpp:335-354 | Reserves iff the error code was clear and both driver calls succeed; otherwise the error code is set and nothing else changes |
| `CumemAllocator.Allocator.MapReserved` | vllm-0.20.2/csrc/cumem_allocator.cpp:424-448 | Maps the chunks of a new reservation; on an error the address is given back |
| `CumemAllocator.Allocator.MyMalloc` | vllm-0.20.2/csrc/cumem_allocator.cpp:321-449 | Which of five ends the call comes to, and the driver state at each: refused, stopped by the division, no callback (the reservation stays), a failure of create_and_map rolled back as far as its calls succeed, or an address whose chunks are mapped; the chunks are right iff no rounding addition wraps |
| `CumemAllocator.Allocator.FillReservation` | vllm-0.20.2/csrc/cumem_allocator.cpp:356-448 | The part behind the reservation: planning, the callback and the mapping |
| `CumemAllocator.Allocator.MyFree` | vllm-0.20.2/csrc/cumem_allocator.cpp:452-560 | For every pattern of failures: ends without an error iff no call fails, the address comes back and the size is the reserved one; pages and mappings are gone once the unmap and release calls succeed; a wrong size keeps the reservation |
| `CumemAllocator.RequestedSizeIsNotFreed` | vllm-0.20.2/csrc/cumem_allocator.cpp:536-550 | A concrete allocation that is freed with the requested, not the aligned, size: error and reservation stay |
| `CumemAllocator.FreeCompletesRollback` | vllm-0.20.2/csrc/cumem_allocator.cpp:434-437 | After a rolled back mapping, giving the address back restores the driver state from before the call |
| `CumemPool.CuMemPool.Sleep` | vllm-0.20.2/vllm/device_allocator/cumem.py:171-207 | Exactly the pages of the pool are given back, no allocation keeps a page and nothing is mapped at its addresses; all keep address and reservation, and those with an offloaded tag have their bytes saved; the whole call is a run of sleep steps |
| `CumemPool.CuMemPool.SleepPointer` | vllm-0.20.2/vllm/device_allocator/cumem.py:192-207 | One allocation goes to sleep and gives exactly its pages back; the others do not notice |
| `CumemPool.CuMemPool.WakeUp` | vllm-0.20.2/vllm/device_allocator/cumem.py:221-243 | The allocations whose tag is asked for, or all of them without tags, are mapped again at their old address, on new pages, with their saved bytes; the other allocations and all other pages do not change; the whole call is a run of wake steps |
| `CumemPool.CuMemPool.WakePointer` | vllm-0.20.2/vllm/device_allocator/cumem.py:231-243 | One allocation wakes up; the others do not notice |
| `CumemPool.CuMemPool.MapPointer` | vllm-0.20.2/vllm/device_allocator/cumem.py:233-234 | A sleeping allocation gets new pages, mapped at its own address |
| `CumemPool.CuMemPool.RestorePointer` | vllm-0.20.2/vllm/device_allocator/cumem.py:235-243 | After copying the backup the allocation reads as the backup, and no other page has changed |
| `CumemPool.CuMemPool.SleepWake` | vllm-0.20.2/vllm/device_allocator/cumem.py:171-243 | A full cycle brings every offloaded allocation back with its address and bytes; while asleep exactly the pages of the pool are gone and nothing is mapped at its addresses, and afterwards as many pages are live as before |
| `CumemPool.CuMemPool.SleepWakeCycles` | vllm-0.20.2/vllm/device_allocator/cumem.py:171-243 | So does any number of cycles: in every sleep the same pages are gone and nothing is mapped, and over the whole run bytes and page count are kept |
| `CumemPool.CuMemPool.Allocate` | vllm-0.20.2/vllm/device_allocator/cumem.py:140-154 | my_malloc, called in the current driver state, and its callback: a malloc step that keeps the pool good |
| `CumemPool.CuMemPool.CallMalloc` | vllm-0.20.2/csrc/cumem_allocator.cpp:321-449 | On an unreserved range, with sizes that do not wrap and a driver that does not fail, my_malloc returns the address with the right chunks mapped on new pages |
| `CumemPool.CuMemPool.Release` | vllm-0.20.2/vllm/device_allocator/cumem.py:156-169 | The free callback and my_free: a free step that keeps the pool good and the order of the other entries |
| `CumemLifecycle.RunsKeepPool` | vllm-0.20.2/vllm/device_allocator/cumem.py:140-243 | For every run that mixes allocating, freeing, sleeping and waking in any order: the pool stays consistent, with memory mapped in reserved ranges only; pages of others are untouched; an allocation that is neither freed nor put to sleep without being saved keeps its address, chunks, tag and bytes |
| `CumemLifecycle.StepKeeps` | vllm-0.20.2/vllm/device_allocator/cumem.py:140-243 | The same for each single step, which changes one allocation only |
| `CumemLifecycle.AfterBoth` | vllm-0.20.2/vllm/device_allocator/cumem.py:140-243 | Runs can be put together, so runs of whole calls are runs of steps |
| `CumemLifecycle.WakeStep` | vllm-0.20.2/vllm/device_allocator/cumem.py:231-243 | Mapping and restoring together: the allocation has new pages with its saved bytes, the others do not notice |
| `CumemMemory.CountPages` | vllm-0.20.2/vllm/device_allocator/cumem.py:171-243 | The live pages are those outside the pool and one for each chunk of it |
| `CumemLifecycle.MallocExtendsPool` | vllm-0.20.2/vllm/device_allocator/cumem.py:140-154 | What my_malloc returns can be added to a consistent pool, whose other allocations keep their bytes |
| `CumemLifecycle.FreeShrinksPool` | vllm-0.20.2/vllm/device_allocator/cumem.py:156-169 | What my_free leaves is a consistent pool without the allocation |
| `CumemMemory.CreateAndMapSucceeds` | vllm-0.20.2/csrc/cumem_allocator.cpp:95-193 | On a free range, with no failing call, create_and_map maps the range completely |
| `CumemMemory.ReadTiles` | vllm-0.20.2/vllm/device_allocator/cumem.py:204 | Reading an allocation gives the concatenation of its pages, of the allocation's size |
| `CumemMemory.WriteReadsBack` | vllm-0.20.2/vllm/device_allocator/cumem.py:242 | What is copied into an allocation is what is read from it |
| `CumemMemory.WriteFrame` | vllm-0.20.2/vllm/device_allocator/cumem.py:242 | The copy changes no other page |
| `NinjaSweep.SummarizeEntries` | vllm-0.20.2/tools/report_build_time_ninja.py:198-256 | Weighted times for all targets, their total, the length and the sum of the durations. For times that are not negative the length is the largest end minus the smallest start; the total is at most the length, and equal iff at every moment between them something runs. The total is at most the sum of the durations. KeyError iff some task ends before it starts |
| `NinjaSweep.Sweep` | vllm-0.20.2/tools/report_build_time_ninja.py:230-256 | Fails with the KeyError of a task that is not running iff some task ends before it starts; otherwise each target gets its weighted time, and the total is the time during which anything ran |
| `NinjaSweep.ProcessEvent` | vllm-0.20.2/tools/report_build_time_ninja.py:239-255 | One event advances the weighted clock and starts or stops its task |
| `NinjaSweep.AdvanceClock` | vllm-0.20.2/tools/report_build_time_ninja.py:239-244 | The clock advances by the time since the last event over the number of running tasks |
| `NinjaSweep.StopTask` | vllm-0.20.2/tools/report_build_time_ninja.py:248-254 | A stopped task is charged the weighted time since it was started, and leaves the running tasks |
| `NinjaSweep.Length` | vllm-0.20.2/tools/report_build_time_ninja.py:207-220 | For times that are not negative the sentinels end at the smallest start and the largest end; the sum of the durations |
| `NinjaSweep.SortArranges` | vllm-0.20.2/tools/report_build_time_ninja.py:218-224 | Sorting yields every start and stop once, in time order, starts before stops at equal times |
| `NinjaSweep.WeightedTimeIsConserved` | vllm-0.20.2/tools/report_build_time_ninja.py:238-255 | Conservation: the weighted times of all tasks sum to the time during which at least one runs |
| `NinjaSweep.SegmentConserved` | vllm-0.20.2/tools/report_build_time_ninja.py:241-244 | Each segment in which something runs is charged in full, in equal shares |
| `NinjaSweep.WeightedIsBounded` | vllm-0.20.2/tools/report_build_time_ninja.py:74-89 | A weighted time is between zero and the duration of its task, so the assertion holds |
| `NinjaSweep.TiesDoNotMatter` | vllm-0.20.2/tools/report_build_time_ninja.py:223-228 | Any two orders of the events that agree with the sort key charge every task the same time |
| `NinjaSweep.RunningIsActive` | vllm-0.20.2/tools/report_build_time_ninja.py:238-255 | Over a segment of positive length the running tasks are exactly those whose interval spans it |
| `NinjaSweep.UnmatchedStop` | vllm-0.20.2/tools/report_build_time_ninja.py:248-251 | A stop whose task is not running comes from a task that ends before it starts |
| `NinjaSweep.BooksAtEnd` | vllm-0.20.2/tools/report_build_time_ninja.py:245-256 | At the end nothing runs and every task has been charged |
| `NinjaSweep.BusyAndLength` | vllm-0.20.2/tools/report_build_time_ninja.py:220-260 | The time during which anything runs is at most the largest end minus the smallest start, and equal iff no moment between them is idle |
| `NinjaSweep.BusyAndIdle` | vllm-0.20.2/tools/report_build_time_ninja.py:220-260 | Busy and idle time add up to the time between the first and the last time stamp |
| `NinjaSweep.NoIdleGapIff` | vllm-0.20.2/tools/report_build_time_ninja.py:220-260 | Every segment between two different time stamps has a running task iff at every moment between the first start and the last end something runs |
| `NinjaParallel.CpuTimeCountsTasks` | vllm-0.20.2/tools/report_build_time_ninja.py:211-253 | The sum of the durations is the integral of the number of running tasks; the total of the weighted times is at most that sum, and equal iff no moment lies inside two tasks |
| `NinjaParallel.RanIsDuration` | vllm-0.20.2/tools/report_build_time_ninja.py:217-255 | The segments that a task spans add up to its duration |
| `NinjaLog.ReadTargets` | vllm-0.20.2/tools/report_build_time_ninja.py:104-148 | The targets are exactly the groups by command hash of the records from the last reset on, in order of first occurrence; 1000 times a target's times are the milliseconds of the first record of its hash; fails on another header than "# ninja log v5" or a time stamp that is no number |
| `NinjaLog.ReadRecord` | vllm-0.20.2/tools/report_build_time_ninja.py:120-147 | One record: start over when it cannot belong to the current build, then add it to its group |
| `NinjaLog.StartOver` | vllm-0.20.2/tools/report_build_time_ninja.py:124-143 | The groups are dropped exactly when one of the two tests fires |
| `NinjaLog.ReadLine` | vllm-0.20.2/tools/report_build_time_ninja.py:112-148 | One line of the loop keeps the grouping of the records read so far |
| `NinjaLog.NewGroup` | vllm-0.20.2/tools/report_build_time_ninja.py:144-147 | The first record of a command makes a new target and leaves the others alone |
| `NinjaLog.ExtendGroup` | vllm-0.20.2/tools/report_build_time_ninja.py:133-147 | Another output of a command adds its name to the existing target |
| `NinjaLog.KeptIsOneBuild` | vllm-0.20.2/tools/report_build_time_ninja.py:124-143 | In the kept records end times never decrease and every hash has one start and end |
| `NinjaLog.KeptIsSuffix` | vllm-0.20.2/tools/report_build_time_ninja.py:124-143 | The kept records are the last ones of the log |
| `NinjaLog.StartsOverIff` | vllm-0.20.2/tools/report_build_time_ninja.py:124-143 | One more record is added to the kept records iff they are one build with it; otherwise it is the only one kept |
| `NinjaLog.ResetOfKept` | vllm-0.20.2/tools/report_build_time_ninja.py:124-143 | The reader's two tests fire exactly when the record clashes with the records kept so far |
| `NinjaLog.TwoRecords` | vllm-0.20.2/tools/report_build_time_ninja.py:124-143 | For two records in numbers: the first is dropped iff the second ends earlier, or is of the same command at another time |
| `NinjaLog.RecordsOfParts` | vllm-0.20.2/tools/report_build_time_ninja.py:112-119 | The records of a log are those of its parts in order: one for a line with five fields, none for a malformed line |
| `NinjaLog.NameIsInItsGroup` | vllm-0.20.2/tools/report_build_time_ninja.py:146-148 | A group has one name for each record of its hash, in the order of the records |
| `NinjaLog.HashesAreExact` | vllm-0.20.2/tools/report_build_time_ninja.py:133-145 | The keys are the hashes of the kept records, each once, and a target is made from the first record of its hash |
| `NinjaLog.HashesInOrder` | vllm-0.20.2/tools/report_build_time_ninja.py:133-145 | The keys are in order of first occurrence |
| `IndexRanges.FormatIndexRanges` | vllm-0.20.2/vllm/model_inspection.py:44-58 | The printed text is that of the runs of the sorted indices; IndexError on an empty list |
| `IndexRanges.PrintedRangesRoundTrip` | vllm-0.20.2/vllm/model_inspection.py:44-58 | Parsing what is printed and expanding the ranges gives the sorted indices, with their repetitions |
| `IndexRanges.ExpandRuns` | vllm-0.20.2/vllm/model_inspection.py:48-55 | The runs expand to the indices, repetitions included |
| `IndexRanges.RunsAreFewest` | vllm-0.20.2/vllm/model_inspection.py:48-57 | For distinct indices no list of ranges that covers exactly them is shorter |
| `IndexRanges.ParseBack` | vllm-0.20.2/vllm/model_inspection.py:53-58 | Printed ranges, negative numbers included, parse to the same ranges |
| `IndexRanges.SortSorts` | vllm-0.20.2/vllm/model_inspection.py:46 | Sorting gives a sorted permutation |
| `IndexRanges.OneIndexPrintsAlone` | vllm-0.20.2/vllm/model_inspection.py:53-57 | A run of one index prints as its number alone |
| `IndexRanges.RunsPrint` | vllm-0.20.2/vllm/model_inspection.py:48-58 | Every run prints as its number if it has one index, and else as its first and last number with a dash |
| `IndexRanges.TwoRunsPrint` | vllm-0.20.2/vllm/model_inspection.py:48-58 | The whole text for two runs of three, for all numbers, with the separator |
| `IndexRanges.NoLeadingZero` | vllm-0.20.2/vllm/model_inspection.py:53-57 | A printed number has no leading zero |
| `ModuleSignature.SignaturesDecideIff` | vllm-0.20.2/vllm/model_inspection.py:36-41 | For every set of names: the signature text tells all trees over these names apart iff no name is another one followed by a colon and more |
| `ModuleSignature.SignatureDeterminesTree` | vllm-0.20.2/vllm/model_inspection.py:36-41 | Over such names two modules have the same signature text iff they are the same tree |
| `ModuleSignature.ExtendedPath` | vllm-0.20.2/vllm/model_inspection.py:38-40 | If one dotted path is another one followed by a colon and more, so is one of the names |
| `ModuleSignature.AmbiguousNamesCollide` | vllm-0.20.2/vllm/model_inspection.py:36-41 | From two names one of which extends the other with a colon, two different trees with one signature |
| `ModuleSignature.ColonInNameCollides` | vllm-0.20.2/vllm/model_inspection.py:36-41 | With a colon in a name two different modules have the same signature |
| `ModuleSignature.PreorderInjective` | vllm-0.20.2/vllm/model_inspection.py:38-40 | For names that are not empty and have no dot, equal lists of paths and infos come from equal ordered trees |
| `ModuleTree.FormatModuleTree` | vllm-0.20.2/vllm/model_inspection.py:61-131 | The recursive printer computes the specified lines, from which `LinesReadBack` reads the whole tree back |
| `ModuleTree.FormatGroups` | vllm-0.20.2/vllm/model_inspection.py:109-124 | The loop over the groups prints one labelled block for each |
| `ModuleTree.FormatNamed` | vllm-0.20.2/vllm/model_inspection.py:126-128 | The loop over the other children prints each under its name |
| `ModuleTree.SplitChildren` | vllm-0.20.2/vllm/model_inspection.py:93-99 | Numbered and other children are told apart, in order |
| `ModuleTree.GroupBySignature` | vllm-0.20.2/vllm/model_inspection.py:103-107 | The dictionary loop computes the groups in order of first occurrence |
| `ModuleTree.GroupsPartition` | vllm-0.20.2/vllm/model_inspection.py:103-107 | Every numbered child is in exactly one group, once |
| `ModuleTree.CollapsesOnlyEqualIff` | vllm-0.20.2/vllm/model_inspection.py:103-112 | For every set of names: in all trees over them the members of a group are equal as whole trees, and different groups hold different trees, iff no name is another one followed by a colon and more |
| `ModuleTree.CollapsedLayersAreEqual` | vllm-0.20.2/vllm/model_inspection.py:103-112 | Over such names every member of a group is, as a whole tree, equal to the member that is printed, and different groups hold different trees |
| `ModuleTree.AmbiguousNamesCollapse` | vllm-0.20.2/vllm/model_inspection.py:103-112 | Otherwise a tree whose differently named children differ and are printed as one |
| `ModuleTree.ExpandingGroupsGivesSameChildren` | vllm-0.20.2/vllm/model_inspection.py:109-124 | Over such names, printing a member on its own would give the same block up to the label on its first line |
| `ModuleTree.LabelNamesMembers` | vllm-0.20.2/vllm/model_inspection.py:111-123 | Parsing the label of a group gives exactly the indices of its members |
| `ModuleTree.EveryNumberedChildIsPrintedOnce` | vllm-0.20.2/vllm/model_inspection.py:103-124 | The printed groups together are a permutation of the numbered children |
| `ModuleTree.SortGroupsOrders` | vllm-0.20.2/vllm/model_inspection.py:109-110 | The groups are printed in the order of their first indices |
| `ModuleTree.SortGroupsKeeps` | vllm-0.20.2/vllm/model_inspection.py:110 | Sorting by first index loses and repeats no group |
| `TreeText.LinesReadBack` | vllm-0.20.2/vllm/model_inspection.py:61-131 | A parser that knows only indentation, brackets and labels reads the printed lines back: the infos, the groups of numbered children with their indices and the named children, at every depth, none missing and none added |
| `TreeText.ParsePrinted` | vllm-0.20.2/vllm/model_inspection.py:82-131 | Indentation and closing brackets determine the nesting of any printed items |
| `TreeShape.LinesDecide` | vllm-0.20.2/vllm/model_inspection.py:61-131 | Two modules with the same printed lines are the same tree up to the order of their numbered children |
| `TreeShape.InspectionDecides` | vllm-0.20.2/vllm/model_inspection.py:134-136 | So are two modules with the same inspection text |
| `TreeShape.OutlineDecides` | vllm-0.20.2/vllm/model_inspection.py:103-128 | What is read back determines the tree: expanding every group to its indices gives all numbered children, and the named ones follow in order |
| `TreeShape.NamedExample` | vllm-0.20.2/vllm/model_inspection.py:82-131 | The four lines printed for a module with two named leaves |
| `TreeShape.MarkInNameCollides` | vllm-0.20.2/vllm/model_inspection.py:85-91 | With the label mark inside a name two different modules print the same lines |
| `TreeShape.NumberedTextCollides` | vllm-0.20.2/vllm/model_inspection.py:109-124 | Numbered leaves with the same number and the same info behind leading blanks print the same lines, whatever their names |
| `BadWords.NoBadWordsLogitsProcessor.Call` | vllm-0.20.2/vllm/logits_process.py:56-87 | Every token that would complete a bad word gets minus infinity added and every other token keeps its logit; ValueError iff an id is out of range, IndexError iff a word is empty |
| `BadWords.NoBadWordsLogitsProcessor.InitWordBias` | vllm-0.20.2/vllm/logits_process.py:89-104 | The lazily made bias holds minus infinity at exactly the one-token words |
| `BadWords.NoBadWordsLogitsProcessor.CheckTokenIdsBounds` | vllm-0.20.2/vllm/logits_process.py:106-121 | Accepts exactly the words whose ids are all below the vocabulary size |
| `BadWords.NoBadWordsLogitsProcessor.LastTokenBias` | vllm-0.20.2/vllm/logits_process.py:64-83 | The bias holds minus infinity at exactly the last tokens of longer words whose prefix ends the text |
| `BadWords.NoBadWordsLogitsProcessor.AddWord` | vllm-0.20.2/vllm/logits_process.py:67-83 | One word of the loop, with its two skips |
| `BadWords.BiasesMask` | vllm-0.20.2/vllm/logits_process.py:64-85 | The two biases together mask exactly the completing tokens |
| `BadWords.BiasesAddUp` | vllm-0.20.2/vllm/logits_process.py:85 | Adding one bias and then the other is adding their sum, infinities and NaN included |
| `BadWords.NewOccurrenceIsCompletion` | vllm-0.20.2/vllm/logits_process.py:70-83 | A word that first appears when a token is added is completed by that token |
| `BadWords.CompletionIsOccurrence` | vllm-0.20.2/vllm/logits_process.py:70-83 | A completing token makes the text contain the word |
| `BadWords.StepIsCleanIff` | vllm-0.20.2/vllm/logits_process.py:64-83 | A token keeps a clean text clean iff it completes no word |
| `BadWords.GeneratedTextIsCleanIff` | vllm-0.20.2/vllm/logits_process.py:56-104 | From a text without bad words, after any run of steps that pick tokens with a processed logit above minus infinity, the text is free of them at every position iff no step picked a completing token whose logit is plus infinity or NaN |
| `BadWords.OrdinaryLogitsStayClean` | vllm-0.20.2/vllm/logits_process.py:56-104 | So with logits that are finite or minus infinity no bad word ever appears |
| `BadWords.BannedIffNotInfinite` | vllm-0.20.2/vllm/logits_process.py:85 | A completing token ends at minus infinity iff its logit was neither plus infinity nor NaN |
| `BadWords.InfiniteLogitEscapes` | vllm-0.20.2/vllm/logits_process.py:85 | With a plus-infinite logit a bad word is not banned |
| `FlatContainer.RunsRefine` | vllm-0.20.2/vllm/logprobs.py:63-152 | After any run of append, append_fast, extend and positive-step slices the container holds what a list of dictionaries would hold; it fails iff some slice takes nothing |
| `FlatContainer.StepRefines` | vllm-0.20.2/vllm/logprobs.py:63-135 | The same for one operation |
| `FlatContainer.FlatLogprobs.Append` | vllm-0.20.2/vllm/logprobs.py:63-72 | Adds one position that reads back as the dictionary, or as empty for None |
| `FlatContainer.FlatLogprobs.AppendFast` | vllm-0.20.2/vllm/logprobs.py:74-93 | Adds one position that reads back as the dictionary of the zipped columns |
| `FlatContainer.FlatLogprobs.Extend` | vllm-0.20.2/vllm/logprobs.py:95-98 | Adds all positions in order |
| `FlatContainer.FlatLogprobs.Iterate` | vllm-0.20.2/vllm/logprobs.py:146-152 | Yields the list of dictionaries |
| `FlatContainer.EmptySliceFails` | vllm-0.20.2/vllm/logprobs.py:121-133 | A concrete empty slice that raises an IndexError where a list gives an empty list |
| `FlatContainer.AppendToFlat` | vllm-0.20.2/vllm/logprobs.py:184-193 | The flat branch adds one position; the keys of its dictionary are exactly the first m tokens, m the least of the three column lengths and of 1 + the requested top-k, and each has the data of its last occurrence with the given rank in front and rank i at place i |
| `FlatContainer.AppendToList` | vllm-0.20.2/vllm/logprobs.py:184-206 | The list branch adds the same dictionary, with the same keys and data in numbers, for all inputs |
| `FlatContainer.EntryOfNextPosition` | vllm-0.20.2/vllm/logprobs.py:184-206 | The entry of a token among the first m is its last occurrence there, with the given rank in front and rank i at place i of the top-k |
| `FlatContainer.NextPositionHolds` | vllm-0.20.2/vllm/logprobs.py:184-206 | For all inputs, -1 and negative requests included: the dictionary of the next position has exactly the first m tokens as keys, and their data |
| `FlatContainer.BothEntriesAreStored` | vllm-0.20.2/vllm/logprobs.py:184-206 | A concrete position whose sampled token and top-k token are both stored, with their ranks |
| `Logprobs.ReadIsList` | vllm-0.20.2/vllm/logprobs.py:110-120 | Reading position i agrees with list indexing, negative indices and IndexError included |
| `Logprobs.ExtendedView` | vllm-0.20.2/vllm/logprobs.py:63-93 | One more position changes no earlier one |
| `Logprobs.SampledTokenTwiceIsOnce` | vllm-0.20.2/vllm/logprobs.py:186-191 | If the sampled token is also in the top-k, inserting it in front changes nothing, whatever its data; otherwise it adds one key |
| `Logprobs.DictOfDict` | vllm-0.20.2/vllm/logprobs.py:67-71 | Inserting the items of a dictionary gives it back in the same order |
| `Logprobs.KeysInOrder` | vllm-0.20.2/vllm/logprobs.py:63-72 | The keys of a dictionary are in the order in which they were first inserted |
| `LogprobsSlices.SliceReadsBack` | vllm-0.20.2/vllm/logprobs.py:121-133 | A slice reads back like a slice of the list iff its step is positive, it takes one position, or all positions it takes are empty |
| `LogprobsSlices.BackwardPositionIsLost` | vllm-0.20.2/vllm/logprobs.py:122-133 | A filled position cannot be read from a backward slice of several positions |
| `LogprobsSlices.ReversedSliceLosesEntries` | vllm-0.20.2/vllm/logprobs.py:122-133 | A concrete reversal that loses both of its entries |
| `LogprobsSlices.SlicesCompose` | vllm-0.20.2/vllm/logprobs.py:121-133 | A positive-step slice of a positive-step slice equals one slice, in all six lists |
| `LogprobsSlices.RebasedView` | vllm-0.20.2/vllm/logprobs.py:122-133 | Choosing positions in order gives a container for the chosen dictionaries |
| `LogprobsSlices.SelectionsCompose` | vllm-0.20.2/vllm/logprobs.py:121-128 | The positions of the composed slice |
| `LogprobsSlices.SelectedByRule` | vllm-0.20.2/vllm/logprobs.py:121-128 | The positions of a slice, by Python's rule for bounds: it begins at the first position inside them, goes on by the step, or by 1, and ends with the last position inside |
| `XpuQuant.QuantizationError` | vllm-0.20.2/vllm/_xpu_ops.py:285-302 | For every row, both modes and up to eight bits, with a zero point that fits 32 bits, dequantizing is within half a scale of the input, in spite of the rounded zero point and the clamp; the scale in numbers is `ScaleInNumbers` |
| `XpuQuant.QuantizationErrorIff` | vllm-0.20.2/vllm/_xpu_ops.py:285-302 | Whatever an out-of-range conversion to 32 bits gives, the bound holds iff the mode is symmetric or the rounded quotient of minimum and scale lies strictly between -2^31 and 2^31 |
| `XpuQuant.RowError` | vllm-0.20.2/vllm/_xpu_ops.py:285-302 | With the extent of the row itself: the scale divides it into 2^bits - 1 steps, or 2^(bits-1) - 1 in symmetric mode, no step below 0.00001; no element is off by more than half a scale; the stored levels lie in the range of the bits |
| `XpuQuant.RowErrorBound` | vllm-0.20.2/vllm/_xpu_ops.py:285-302 | So no element is off by more than the spread over 2 (2^bits - 1), or the largest magnitude over 2 (2^(bits-1) - 1) in symmetric mode, or 0.000005 if that is more |
| `XpuQuant.ScaleInNumbers` | vllm-0.20.2/vllm/_xpu_ops.py:285-296 | The scale is the extent over 2^bits - 1 or 2^(bits-1) - 1, and at least 0.00001 |
| `XpuQuant.ExtentIs` | vllm-0.20.2/vllm/_xpu_ops.py:287-291 | The extent is the spread of the row, or its largest magnitude |
| `XpuQuant.FullRange` | vllm-0.20.2/vllm/_xpu_ops.py:285-302 | Concrete eight-bit rows that reach the levels 0 and 255, and -127 and 127 |
| `XpuQuant.TiesGoToEven` | vllm-0.20.2/vllm/_xpu_ops.py:296-300 | Rounding takes a number half way between two integers to the even one |
| `XpuQuant.MoreBitsWrap` | vllm-0.20.2/vllm/_xpu_ops.py:285-302 | For every larger number of bits, in each mode, a row on which the eight-bit cast breaks the bound |
| `XpuQuant.RawLevelInRange` | vllm-0.20.2/vllm/_xpu_ops.py:298-300 | Before rounding, a level leaves the range by at most one half, and not at all in symmetric mode |
| `XpuQuant.ScaleCovers` | vllm-0.20.2/vllm/_xpu_ops.py:289-296 | The scale, also when clamped from below, spreads the row over the available levels |
| `XpuQuant.RowsAroundZeroFit` | vllm-0.20.2/vllm/_xpu_ops.py:296 | Rows that reach zero have a zero point that fits |
| `XpuQuant.ConstantRowDoesNotFit` | vllm-0.20.2/vllm/_xpu_ops.py:295-296 | A constant row whose zero point does not fit, and on which the bound fails for some result of the conversion |
| `XpuGroupQuant.GroupQuant` | vllm-0.20.2/vllm/_xpu_ops.py:428-508 | Writes every group with its own scale so that the stored value times the scale is the input up to the error of the 8-bit cast, and in the range of the format; AssertionError, with the buffer untouched, iff a shape check fails |
| `XpuGroupQuant.QuantizeGroup` | vllm-0.20.2/vllm/_xpu_ops.py:469-497 | One group writes the cast of its clamped, scaled values, and its own part of the buffer only |
| `XpuGroupQuant.StoredIsClose` | vllm-0.20.2/vllm/_xpu_ops.py:490-493 | An element is recovered up to the relative error of the cast and its absolute error times the scale |
| `XpuGroupQuant.PowerOfTwoScaleIsLeast` | vllm-0.20.2/vllm/_xpu_ops.py:469-492 | Among the powers of two not below eps / FP8_MAX the chosen scale is the least that makes the clamp a no-op |
| `XpuGroupQuant.LeastPowerIff` | vllm-0.20.2/vllm/_xpu_ops.py:469-492 | It is the least of all powers of two iff the group is not zero and eps does not change the exponent |
| `XpuGroupQuant.LargeGroupsGetLeastPower` | vllm-0.20.2/vllm/_xpu_ops.py:469-492 | A group that reaches eps meets this condition |
| `XpuGroupQuant.ZeroGroupHasNoLeastPower` | vllm-0.20.2/vllm/_xpu_ops.py:469-492 | A concrete group for which it is not |
| `XpuGroupQuant.RawScaleIsLeast` | vllm-0.20.2/vllm/_xpu_ops.py:469-492 | Likewise for the ordinary scale among all scales not below eps / FP8_MAX |
| `XpuGroupQuant.LeastScaleIff` | vllm-0.20.2/vllm/_xpu_ops.py:469-492 | The ordinary scale is the least of all scales iff the group reaches eps |
| `XpuGroupQuant.ScaleOfZeros` | vllm-0.20.2/vllm/_xpu_ops.py:469-478 | A group of zeros gets the scale 1e-10 / FP8_MAX |
| `XpuGroupQuant.NoOpIff` | vllm-0.20.2/vllm/_xpu_ops.py:491-492 | The clamp does nothing iff the scale is at least the largest magnitude over FP8_MAX |
| `XpuGroupQuant.CeilLog2Least` | vllm-0.20.2/vllm/_xpu_ops.py:480-482 | 2 to the ceiling of the logarithm is the least power of two that reaches a number |
| `XpuFloat8.CastError` | vllm-0.20.2/vllm/platforms/xpu.py:327-328 | Rounding to the format with four exponent and three mantissa bits is off by less than a sixteenth of a number above 2^-6 and by at most 2^-10 for the others, and stays within 448 |
| `XpuFloat8.E4M3IsValid` | vllm-0.20.2/vllm/platforms/xpu.py:327-328 | So the format is one with a relative error of 2^-4 plus an absolute error of 2^-10 |
| `XpuFloat8.GroupQuantToE4M3` | vllm-0.20.2/vllm/_xpu_ops.py:490-497 | So every element comes back up to a sixteenth of itself and 2^-10 of its scale |
| `XpuLookup.LookupFindsSequence` | vllm-0.20.2/vllm/_xpu_ops.py:555-563 | A token t maps to the one b with cu[b] <= t < cu[b+1], empty sequences included, and to its one-based index there |
| `XpuLookup.LookupRoundTrip` | vllm-0.20.2/vllm/_xpu_ops.py:555-563 | Entry j of sequence b is found at (b, j) |
| `XpuLookup.PaddingGoesLast` | vllm-0.20.2/vllm/_xpu_ops.py:560 | Tokens behind the last sequence are attributed to the last one |
| `XpuLookup.BlockIndexIsRightIff` | vllm-0.20.2/vllm/_xpu_ops.py:565-570 | Block index and offset address the entry iff its one-based index is not a multiple of the block size |
| `XpuLookup.FirstBlockIsMissed` | vllm-0.20.2/vllm/_xpu_ops.py:565-570 | A concrete entry that is looked for one block late |
| `XpuTopK.TopKPerRowDecode` | vllm-0.20.2/vllm/_xpu_ops.py:626-660 | Each row of the buffer gets the masked top-k of its request's positions when there is no bad tie; the rest of the buffer is untouched |
| `XpuTopK.DecodeRowIff` | vllm-0.20.2/vllm/_xpu_ops.py:645-657 | However ties are broken, the row is the best min(K, valid) distinct allowed positions in order and then only -1, iff there are enough finite logits, all allowed logits are finite, or no position is forbidden |
| `XpuTopK.DecodeRow` | vllm-0.20.2/vllm/_xpu_ops.py:645-657 | The sufficient direction, for one result of topk |
| `XpuTopK.FiniteLogitsHaveNoBadTies` | vllm-0.20.2/vllm/_xpu_ops.py:645-657 | Finite allowed logits are enough |
| `XpuTopK.BadTie` | vllm-0.20.2/vllm/_xpu_ops.py:645-657 | Otherwise some result of topk gives a wrong row |
| `XpuTopK.AllowedNegInfIsLost` | vllm-0.20.2/vllm/_xpu_ops.py:645-657 | A concrete row whose only allowed position is lost |
| `XpuTopK.RowOfRequest` | vllm-0.20.2/vllm/_xpu_ops.py:642-644 | Row b * next_n + o belongs to request b and ends next_n - o before its length |

## Left out

- GraphPartition.GetGraphPartitionSignature: does not model the order of the ordered sets, symbol inputs and the constant name list, because meaning does not depend on them.
- GraphExecution.PartitioningPreservesMeaning: assumes what the scheduler provides (topological order, single assignment, correct last uses, real names that are not renamed again), which is code outside the file.
- MemoryPass.WrapperCode.MemoryPlanReuse: `line.plan` is opaque; only the state it receives is kept.
- CumemAllocator.Allocator.CreateAndMap: the CUDA branch (one handle, no rollback) would only add an easier copy; host `malloc` failures, context setup and Python reference counting are not modelled.
- CumemAllocator.Allocator.MyMalloc: the driver refuses a mapping at an address that is already mapped or with a dead handle; its other reasons to refuse are part of the failure pattern. A negative size is its unsigned value.
- CumemPool.CuMemPool.SleepWakeCycles: for driver calls that succeed and re-reservations that return the same address.
- CumemPool.CuMemPool.Allocate: for a callback that returns, sizes whose rounding additions do not wrap, which `PlanChunks` shows to be needed, and driver calls that succeed.
- CumemPool.CuMemPool.Release: for an allocation that is awake, freed with its aligned size; a freed sleeping allocation runs into failing unmap calls.
- CumemLifecycle.RunsKeepPool: for steps whose driver calls succeed; failing calls are the subject of `MyMalloc` and `MyFree`.
- NinjaSweep.SummarizeEntries: needs at least one entry, as the code does; floating-point rounding and the printing of the summary, including the warning about a length that is off and `GetExtension`, are not modelled.
- NinjaSweep.WeightedIsBounded: over the reals, so without the tolerance of the assertion.
- NinjaLog.ReadTargets: a line is its tab-separated fields; stripping white space and the grammar of integers are simplified to parsed numbers.
- ModuleTree.FormatModuleTree: modules are trees, so a module shared by two parents is not modelled; `_get_module_info` is a given text.
- TreeShape.LinesDecide: for names that neither hold the label mark nor read as indices, one name for each number, siblings with different names, names that are not ambiguous, and infos that do not begin with white space and are on one line; the collision lemmas show inputs for the first, second and last condition.
- ModuleSignature.SignaturesDecideIff: names are not empty and have no dot, as PyTorch requires; line breaks in names and infos are not modelled.
- BadWords.NoBadWordsLogitsProcessor.Call: needs the same vocabulary size on every call; broadcasting a bias of another size is not modelled, nor is the tokenizer that makes the word ids.
- Logprobs.ReadIsList: reading is by position in the six lists; the refused operations (set, delete, insert) would only add easy members.
- XpuQuant.QuantizationError: for zero points that fit 32 bits, which `QuantizationErrorIff` shows to be needed; one row at a time; symmetric mode needs two bits because one bit gives a zero divisor.
- XpuGroupQuant.GroupQuant: the cast is any function with the stated error, of which the format used on XPU is shown to be one; the column-major copy of the scales is not modelled.
- XpuLookup.BlockIndexIsRightIff: the layout of the cache behind the block index, and a round trip with the writer, are not modelled; the two functions use different layouts.
- XpuTopK.TopKPerRowDecode: logits are finite or minus infinity; the prefill variant is not modelled.
- `forward_context.py`: ceiling division and a restored global would only add easy members.
- The scheduler, block pool, kernels, configuration, servers, benchmarks and build scripts.
