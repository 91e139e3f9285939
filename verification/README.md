# StreamEP: verified model

StreamEP runs a mixture-of-experts layer across ranks with its dispatch, two expert GEMM kernels (A and Y) and
combine overlapped: the kernels are persistent, and they hand work to each other through counters in device
memory rather than at kernel boundaries. This project models the parts of it whose correctness is not visible
from any single function and proves, in Dafny, what they promise. `dafny verify dfyconfig.toml` checks all of it.

## What is modelled

**Kernel Y's consumer protocol** (`KernelY`, `KernelYSafety`, `KernelYCompletion`, `KernelYDevice`,
`KernelYWorkItem`, `TileScheduler`). Clusters claim indices from one counter, wait until the tile of the claim
has arrived, scatter their column stripe into `o`, and pass a per-tile stripe gate; the last stripe counts its rows off the
per-token counters and stamps the tokens that reach zero. Every atomic is a step of its own, and a run is any
interleaving of any number of clusters, stripes and rows. Two results carry the module: a stamped token is fully
summed in every reachable state, and every run ends, with exactly the counters it should have. The device code
(`KernelYDevice.Device`) is proved to take steps of this system, up to a CTA's whole work item. The scheduler's
warp-ballot decode is proved to be a bijection between work indices and pieces of work.

**The pool and its producers** (`PoolLayout`, `PrefixScan`, `DispatchPool`, `DispatchDelivery`,
`ArrivalHandoff`, `StreamTiles`). The metadata kernels' prefix scans and fills, the receiver's slot allocation,
its per-slot and per-token writes, and the arrival counts it fires. Slots are a bijection with the (token, k)
pairs whatever batches the ring delivers; the fired counts of a tile add up to its target; and a consumer that
waits for the target reads final rows only, in every interleaving.

**The meaning of the layer** (`PoolPipeline`, `KernelYBwd`, `ChainRule`, `LayerGradient`, `RowReduce`). Kernels A and Y know slots
only: a slot's row, its weight, its number for the dropout hash, and the expert of its tile by the block offsets.
From that, the weighted scatter, stamps and the sum over ranks give the token-major mixture of the reference
implementation, dropout included, from any state that every rank's kernel Y may be in when combine's gate opens.
The backward epilogue's register program is proved to leave the gradients of the weighted, masked, gated expert,
where "gradient" is checked against differentiation by dual numbers, and exact zeros on padding rows even if
their inputs are NaN; over a tile, its row sums end in the weight gradients for every way of dealing the columns.
The expert that is differentiated is, value by value, the one that the forward pass and the reference compute, and
the derivative is carried on through W1 to the row and to both weight matrices.

**The orchestrator** (`Orchestrator`, `OrchestratorRuns`, `OrchestratorOrder`, `OrchestratorCalls`,
`OrchestratorHost`). The forward and backward layers as programs for three FIFO streams per rank, with stream
waits, events, started-flag waits and in-kernel spins. For any number of ranks, any sequence of layers, any pattern
of empty ranks and any checkpoint levels: no deadlock, every run finite, a started-flag wait means that the launch
it counts has started, and each kernel's inputs are ready and each buffer free when the model says so. Every call
runs exactly its own kernels, the weight gradients are written once, and no rank is ever more than one call ahead
of another.

**Expert dropout** (`Words`, `ExpertDropout`, `DropoutFinalizer`). The counter hash permutes the 32-bit words, for
each of its three inputs (seed, row, column) by itself, so exactly the threshold number of columns, of rows and of
seeds is dropped; the host mirror agrees bit for bit; forward and backward tilings mask each column once with one
and the same factor.

**Memory layout** (`Carving`, `BufferLayout`, `SlabBuilder`, `RecvPoolCompress`, `ScatterStore`). Communication
regions as carved chains of slabs, the host's size hints against them, the post-poll slab, the level-2
compaction, and the padded staging and lane sweep of the scatter epilogue.

**Tile configuration** (`TileConfig`). The shape picker, validation and the overlay of overrides.

`Sums` and `Arith` hold finite sums and division facts.

## Conventions

- Atomics are sequentially consistent; barriers separate phases.
- Accumulated values are real numbers and integers are unbounded, except in the dropout hash, which is modulo
  2^32 with its 64-bit intermediate values bounded, and in the 32-bit offset results of `RecvPoolCompress`. NaN
  and infinity are one absorbing value in `KernelYBwd` and do not occur elsewhere.
- `KernelY.Config.running` is the number of column stripes of a tile whose CTA executes the epilogue. Kernel Y's
  gate counts `stripes`, the column tiles of H; clusters are handed out by rounding up. Whether an extra cluster
  peer executes the epilogue is decided in quack, which is not part of this model, so both numbers are
  parameters. Columns past the last tile contribute nothing. `KernelYCompletion.Completion` likewise takes the
  number of epilogue threads as it comes and says which tokens are then never stamped.
- An issued claim is remembered with its index; that claim number and index coincide is proved, not assumed.
- In the orchestrator a kernel begins, has published everything it owes to others (signalled), and finishes. Its
  started flag goes up when it begins. Inside kernel Y the two later moments are the subject of
  `KernelYCompletion`; dispatch's publications are the subject of `ArrivalHandoff`.

## Where the code departs from its comments and defaults

- `KernelYCompletion.GateSafeIff`, `TileConfig.DefaultGateIff`: nothing in the launch wrapper asks for the number
  of column tiles to be a multiple of the cluster size. If every peer of a cluster executes the epilogue, the
  default kernel Y tile makes the stripe gate exact if and only if 512 divides H; otherwise some run stamps a
  token before its last stripe has been added.
- `DropoutFinalizer`: the comment at `stream_ep/stream_moe/expert_dropout.py:75-77` says that the omitted last
  xor-shift cannot change what the threshold compare reads. It can, for instance at the threshold of p = 0.1.
  The dropped fraction is exact either way.
- `ScatterStore.NoCollisionIff`: the staging pad is the constant 34, so the layout is injective only for
  subtile widths up to 34.
- `BufferLayout.IntranodeEightIff`: the hint speaks of top-k up to 128, but counts 32-bit expert ids. With the
  64-bit ids of the intranode path it holds at eight ranks exactly up to top-k 96, and 97 with four ring slots or
  more over all channels; up to six ranks it holds to 128. `BufferLayout.IntranodeFitsIff` is the condition for
  every geometry.
- `BufferLayout.RdmaFitsIff`: the RDMA hint reserves nothing for the metadata area, which fits exactly if the room
  left by tokens narrower than top-k 128 and the rounding hold it. At top-k 128 that is never so
  (`BufferLayout.RdmaHintFails`), up to 125 at ring depths of 128 or more always
  (`BufferLayout.RdmaHintSuffices`).
- `StreamTiles.CoversAllIff`: the chunked producer copies a tile completely only if the number of chunks divides
  the tile height.

## Model

| member | source | states |
|---|---|---|
| `KernelYSafety.GateSafety` | stream_ep/stream_moe/kernel_y.py:290-366 | In every reachable state of every interleaving of claims, stripes and rows, a stamped token's row of `o` is already the full weighted sum over all its slots and all columns, when as many stripes run as the gate counts |
| `KernelYSafety.ReachableInv` | stream_ep/stream_moe/kernel_y.py:290-366 | The invariant behind it: `o` is the sum of the reductions issued so far, the stripe counter counts the CTAs past the gate, one last stripe per full tile, the token counters count the rows not yet taken off, at most one row is chosen to stamp |
| `KernelYCompletion.GateSafeIff` | stream_ep/stream_moe/kernel_y.py:900-915 | The exact condition: when the last tile holds a row and every row has a thread, the stamp is safe in all runs and for all accumulator values if and only if the number of stripes that run their epilogue equals the number the gate counts |
| `KernelYCompletion.UnsafeWithPhantoms` | stream_ep/stream_moe/kernel_y.py:332-336 | If a tile has more running stripes than the gate counts, some run stamps a token before a stripe has added its columns of it |
| `KernelYCompletion.AllPeersIff` | stream_ep/stream_moe/tile_scheduler.py:195 | When every peer of every cluster claim runs, the two counts are equal if and only if cluster_n divides the number of column tiles |
| `KernelYCompletion.Progress` | stream_ep/stream_moe/tile_scheduler.py:242-297 | No reachable state is stuck while anything is left: the next step of the earliest unfinished claim is enabled, also with one CTA held back for ever |
| `KernelYCompletion.StepDecreases` | stream_ep/stream_moe/tile_scheduler.py:242-297 | Every step lowers a lexicographic measure of claims and remaining work, so runs are finite |
| `KernelYCompletion.Completion` | stream_ep/stream_moe/kernel_y.py:278-366 | Where every run ends: each index below the total work claimed once, `consumer_head` at total work plus clusters, the started flag up by one, all arrivals and stripes complete, every token counter at the number of rows without an epilogue thread, a token stamped if and only if it has slots and none of them lacks a thread, and `o` complete |
| `KernelYCompletion.StampOnce` | stream_ep/stream_moe/kernel_y.py:354-366 | A token is stamped at most once |
| `KernelYCompletion.WorksOnArrivedTile` | stream_ep/stream_moe/tile_scheduler.py:286-297 | No CTA acts on a tile before its arrivals are complete |
| `KernelYDevice.Device.FetchNextWorkIdx` | stream_ep/stream_moe/tile_scheduler.py:242-284 | The claim on device memory is one step of the protocol: the old head is the index, index 0 raises the flag |
| `KernelYDevice.Device.SpinOnce` | stream_ep/stream_moe/tile_scheduler.py:286-297 | One turn of the ready spin either publishes the claim or changes nothing, as the count says |
| `KernelYDevice.Device.End` | stream_ep/stream_moe/kernel_y.py:278-366 | The end of a tile, run without interruption, has the effect of a path of protocol steps: the gate, the rows in order, the end |
| `KernelYDevice.Device.BookTile` | stream_ep/stream_moe/kernel_y.py:353-366 | The rows of the tile are taken off in thread order, as far as the epilogue has threads |
| `KernelYDevice.EndPath` | stream_ep/stream_moe/kernel_y.py:332-366 | The uninterrupted end of a tile is a path of the step system: one gate, the rows in order, the end |
| `KernelYDevice.Device.CountRow` | stream_ep/stream_moe/kernel_y.py:354-366 | One row's thread: the decrement, and the stamp when the old value was 1 |
| `KernelYDevice.PathReachable` | stream_ep/stream_moe/kernel_y.py:277-366 | Device code that follows protocol steps stays among the reachable states, so the theorems hold after it |
| `KernelYWorkItem.WorkItem` | stream_ep/stream_moe/tile_scheduler.py:242-297 | One CTA's next work item, claim to end, in protocol steps only: either there was none for it, or its tile had not arrived, or every row of the tile has been added to `o` once in the CTA's columns, the stripe is counted at the gate and the CTA is free again |
| `KernelYWorkItem.ScatterAndEnd` | stream_ep/stream_moe/kernel_y.py:516-615 | From a published claim: the reductions of all the stripe's rows and columns open the gate's guard, and the end of the tile follows |
| `KernelYWorkItem.SweepStripe` | stream_ep/stream_moe/kernel_y.py:516-615 | The epilogue's sweep over subtiles, warps and lanes changes `o` exactly as the protocol's reductions of the stripe do |
| `TileScheduler.DelinearizeWorkIdx` | stream_ep/stream_moe/tile_scheduler.py:299-364 | A claimed index decodes to the expert that owns its tile, the row tile inside it and the leader's column tile; a drained index to nothing; empty experts anywhere |
| `TileScheduler.BallotExpert` | stream_ep/stream_moe/tile_scheduler.py:323-360 | Ballot, popcount and shuffle over the lanes' registers return the owner of the tile and its block offset |
| `TileScheduler.LoadCums` | stream_ep/stream_moe/tile_scheduler.py:335-341 | The registers of the lanes hold the block offsets, out-of-range lanes the largest word |
| `TileScheduler.ShuffleCum` | stream_ep/stream_moe/tile_scheduler.py:349-359 | The shuffle fetches the owner's block offset from the lane and register that hold it |
| `TileScheduler.PopcCounts` | stream_ep/stream_moe/tile_scheduler.py:343-347 | The population count of a ballot word is the number of lanes that voted |
| `TileScheduler.MatchedCount` | stream_ep/stream_moe/tile_scheduler.py:343-347 | The offsets at or below a tile number one more than its owner |
| `TileScheduler.LinearInjective` | stream_ep/stream_moe/tile_scheduler.py:318-324 | No two pieces of work share an index |
| `TileScheduler.DecodeOnto` | stream_ep/stream_moe/tile_scheduler.py:318-324 | Every index below the total work is the index of the piece it decodes to |
| `TileScheduler.DecodeAgreesWithPool` | stream_ep_tests/kernels/_common.py:44-50 | The decoded expert owns the tile's slots in the pool layout, and cu_seqlens_m of the expert plus pid_m * tile_m is the first slot of the tile |
| `TileScheduler.DecodeIsKernelYClaim` | stream_ep/stream_moe/kernel_y.py:305-311 | The tile rebuilt at the end is the claimed one, and peer p works on column tile pid_n + p |
| `TileScheduler.PersistentClusters` | stream_ep/stream_moe/tile_scheduler.py:226-240 | The launch uses every cluster there is room for, unless fewer already have a CTA for every piece of work, and then the last of them still has work; none exactly when there is no work or no room |
| `PoolLayout.OneOwner` | stream_ep_tests/kernels/_common.py:40-50 | A tile has one owner |
| `PoolLayout.SomeOwner` | stream_ep_tests/kernels/_common.py:40-50 | Every tile of the pool has an owner |
| `PoolLayout.SlotExpertsAt` | stream_ep_tests/kernels/_common.py:44-50 | slot_expert names the owner of the slot's tile |
| `PoolLayout.TargetCountsReal` | csrc/kernels/intranode.cu:596-603 | The kernel's closed form for the arrival target is the number of real slots of the tile, between 1 and tile_m |
| `PoolLayout.TargetsSum` | stream_ep_tests/kernels/_common.py:58-60 | The targets of an expert's tiles add up to its rows |
| `PoolLayout.BlockOffsets` | csrc/kernels/intranode.cu:316-325 | The prefix loop computes the block offsets and the tile total of the layout |
| `PoolLayout.FillTileMetadata` | csrc/kernels/intranode.cu:580-605 | The grid-stride fill gives every tile its owner and its target, for any number of threads |
| `PoolLayout.FindExpert` | csrc/kernels/intranode.cu:591-597 | The linear search stops at the owner of the tile, empty experts in between or not |
| `PrefixScan.ShuffleScan` | csrc/kernels/intranode.cu:383-401 | Doubling shuffle steps leave inclusive sums in the lanes |
| `PrefixScan.ScanInPlace` | csrc/kernels/intranode.cu:375-439 | Chunks, warp scans, the scan of warp sums and the carry together are the exclusive prefix sum from the starting offset, for any length |
| `PrefixScan.ScanChunk` | csrc/kernels/intranode.cu:383-437 | One chunk: the exclusive sums from the carry, and the chunk's total |
| `DispatchPool.ScanBasePool` | csrc/kernels/intranode.cu:363-445 | Every substream's base slot is the expert's first slot plus what earlier substreams bring |
| `DispatchPool.AllocateToken` | csrc/kernels/intranode.cu:989-1005 | One token's pairs get the next free slots of their experts, -1 for experts that are not local |
| `DispatchPool.ReceiveSubstream` | csrc/kernels/intranode.cu:976-1005 | The slots are the same for every division of the substream into batches and sub-batches |
| `DispatchPool.SlotInjective` | csrc/kernels/intranode.cu:983-1005 | No two (token, k) pairs share a slot |
| `DispatchPool.SlotOnto` | csrc/kernels/intranode.cu:983-1005 | Every real slot belongs to a pair: the expert's region is filled without gaps |
| `DispatchPool.SlotInExpert` | csrc/kernels/intranode.cu:983-1005 | A pair's slot is a real row of its own expert |
| `DispatchDelivery.DeliverToken` | csrc/kernels/intranode.cu:1008-1089 | Everything a receiver writes for one token (its row to every slot, the weight, token and k of each slot, the token's slot list and counters), which disturbs no other pair, in any order of tokens |
| `DispatchDelivery.DeliverAll` | csrc/kernels/intranode.cu:1008-1089 | From the slab's fill values, in any order of tokens: every slot ends with its pair's row, weight, token and k, padding at -1, every token with its slot list and counter |
| `DispatchDelivery.DeliveredSlots` | stream_ep/buffer.py:29-40 | After dispatch every slot names its pair, and exactly the padding slots hold -1 |
| `DispatchDelivery.CounterIsSlotCount` | csrc/kernels/intranode.cu:1072-1087 | The per-token counter equals the number of pool slots that name the token, the value kernel Y's protocol starts from |
| `DispatchDelivery.CountersStartKernelY` | csrc/kernels/intranode.cu:1072-1087 | After the whole delivery the counters are, token by token, what kernel Y's protocol starts from |
| `DispatchDelivery.FirePoolBlocks` | csrc/kernels/utils.cuh:201-211 | Every block gets the number of the substream's slots that lie in it, and no other block anything |
| `DispatchDelivery.FireSubstream` | csrc/kernels/intranode.cu:1131-1138 | The expert-major firing of a drained substream adds its share to every tile |
| `DispatchDelivery.FiredSumsToTarget` | csrc/kernels/intranode.cu:1107-1138 | Over all substreams a tile is fired exactly up to its target |
| `ArrivalHandoff.HandoffSafe` | stream_ep/stream_moe/tile_scheduler.py:286-297 | In every interleaving the count never passes the target, a tile at its target holds only final rows, and whatever a consumer read was final |
| `ArrivalHandoff.CompleteIsWritten` | stream_ep/stream_moe/tile_scheduler.py:286-297 | A count at its target means that every producer with rows in the tile has drained, so its rows are final |
| `ArrivalHandoff.HandoffCompletes` | stream_ep/stream_moe/tile_scheduler.py:286-297 | When the producers are through, every tile is at its target |
| `ArrivalHandoff.FireCounts` | csrc/kernels/intranode.cu:1107-1138 | A firing never takes a count past its target |
| `ArrivalHandoff.DispatchIsHandoff` | csrc/kernels/intranode.cu:983-1138 | What dispatch's substreams write and fire satisfies the terms of the handoff |
| `StreamTiles.Stream` | stream_ep_tests/kernels/_common.py:139-154 | The chunked tile producer ends with every count at its target, and at no observation point does a tile at its target hold stale rows |
| `StreamTiles.StreamTile` | stream_ep_tests/kernels/_common.py:148-154 | One tile, chunk by chunk, ends at its target and passes through safe states only |
| `StreamTiles.CoversAllIff` | stream_ep_tests/kernels/_common.py:147-152 | Its chunks cover the whole tile if and only if their number divides tile_m |
| `PoolPipeline.CombineIsMixture` | stream_ep_tests/reference.py:110-143 | From the dispatched pool to the output: the experts that the tile scheduler decodes, applied slot by slot with dropout and slot weights, the weighted scatter, the stamps and the sum over ranks give every token exactly the token-major mixture, in whatever state every rank's kernel Y is when combine's gate lets it read |
| `PoolPipeline.SlotComputesPair` | stream_ep/stream_moe/kernel_y.py:629-671 | What kernels A and Y accumulate at a pair's slot, computed from the slot's pool row, slot weight and the expert of the slot's tile alone, is the pair's weighted expert output, dropout mask included |
| `PoolPipeline.RowOwner` | stream_ep/stream_moe/tile_scheduler.py:323-360 | A pair's row lies in tiles that the scheduler's block offsets give to the pair's own expert |
| `PoolPipeline.ScatterIsRankPart` | stream_ep/stream_moe/kernel_y.py:655-671 | Scattering a rank's slots gives each received token that rank's part of the mixture |
| `PoolPipeline.ContributionIsPart` | csrc/kernels/intranode.cu:1653-1675 | What combine may send of a token is the rank's part of the mixture, and nothing where the rank did not receive it |
| `PoolPipeline.PartsAddUp` | stream_ep_tests/reference.py:71-74 | Each kept (token, k) is served by exactly one rank |
| `PoolPipeline.MoeRank` | stream_ep_tests/reference.py:131-142 | The expert-by-expert loop of one rank leaves the rank's part |
| `PoolPipeline.Moe` | stream_ep_tests/reference.py:129-143 | The reference layer computes the token-major mixture |
| `OrchestratorRuns.Progress` | stream_ep/stream_moe/stream_moe.py:462-688 | No deadlock for any number of ranks, any sequence of forward and backward layers, any empty layers per rank and any checkpoint levels |
| `OrchestratorRuns.StepDecreases` | stream_ep/stream_moe/stream_moe.py:868-1123 | Every run is finite |
| `OrchestratorRuns.FlagReached` | csrc/stream_ep.cpp:394-424 | A started-flag wait is satisfied once everything before it is over: issue and wait are skipped together |
| `OrchestratorOrder.FlagMeansStarted` | csrc/stream_ep.cpp:394-424 | A flag wait for the k-th launch is passed only after the k-th launch itself has begun |
| `OrchestratorOrder.FlagOpensAtStart` | csrc/stream_ep.cpp:394-424 | And it can be passed as soon as that launch has begun, so the two sides overlap |
| `OrchestratorOrder.LayerBarrier` | stream_ep/stream_moe/stream_moe.py:665-688 | When anything of a layer runs, every operation of every earlier layer of the rank is finished on every stream, so releases at a layer's end are safe and saved tensors complete |
| `OrchestratorOrder.KernelAOrder` | stream_ep/stream_moe/stream_moe.py:496-588 | Kernel A starts after the metadata fills and zeroings and with dispatch on the device; past its spins every pool row is written |
| `OrchestratorOrder.KernelYOrder` | stream_ep/stream_moe/stream_moe.py:590-614 | Kernel Y reads finished activations and adds to a zeroed `o` |
| `OrchestratorOrder.CombineOrder` | stream_ep/stream_moe/stream_moe.py:617-632 | Combine comes after this rank's dispatch and, with tiles, after kernel Y has begun; what it sends comes after every rank's stamps |
| `OrchestratorOrder.CompressOrder` | stream_ep/stream_moe/stream_moe.py:634-663 | The level-2 compression and release of the pool come after its last readers and after dispatch's last pool write, which only kernel A's spins order |
| `OrchestratorOrder.KernelYBwdOrder` | stream_ep/stream_moe/stream_moe.py:868-986 | Kernel Y's backward starts on zeroed scratch and counters with dispatch_grads on the device; past its spins every gradient row is written |
| `OrchestratorOrder.RecomputeOrder` | stream_ep/stream_moe/stream_moe.py:917-976 | With checkpointing it finds the pre-activations recomputed, from the re-expanded pool at level 2 |
| `OrchestratorOrder.CombineGradsOrder` | stream_ep/stream_moe/stream_moe.py:1036-1055 | combine_grads spins on stamps zeroed before it starts and reads final weight gradients |
| `OrchestratorOrder.WeightGradsOrder` | stream_ep/stream_moe/stream_moe.py:1057-1119 | The weight gradients run after both backward kernels and every delivered gradient row |
| `OrchestratorCalls.LaunchesExactly` | stream_ep/stream_moe/stream_moe.py:462-688 | A call launches exactly the kernels that its direction, its tokens and its checkpoint level ask for, each once |
| `OrchestratorCalls.FinishedCallRan` | stream_ep/stream_moe/stream_moe.py:868-1123 | When everything is over, exactly those have run, in every call of every rank |
| `OrchestratorCalls.GradientsWrittenOnce` | stream_ep/stream_moe/stream_moe.py:1080-1119 | A backward call writes the weight gradients once: computed on a rank with tokens, zeroed on an empty one |
| `OrchestratorCalls.GradientsFinal` | stream_ep/stream_moe/stream_moe.py:1080-1123 | Past the call's last wait the caller finds that one writer finished |
| `OrchestratorCalls.CompressedIsReexpanded` | stream_ep/stream_moe/stream_moe.py:634-663 | A backward call at the level of its forward call re-expands the pool exactly if it was compressed and the rank has tokens, and then also recomputes |
| `OrchestratorCalls.ReexpandOrder` | stream_ep/stream_moe/stream_moe.py:917-931 | It re-expands from the finished compression |
| `OrchestratorCalls.ReexpandBeforeGradients` | stream_ep/stream_moe/stream_moe.py:917-931 | And before the weight gradients read the pool |
| `OrchestratorCalls.CountsOrder` | csrc/stream_ep.cpp:1185-1229 | The host sizes the slab and the tile metadata from final counts |
| `OrchestratorCalls.DispatchOrder` | csrc/stream_ep.cpp:1145-1265 | Dispatch starts on its input, final counts, copied prefixes, filled tile metadata and the filled slab |
| `OrchestratorCalls.DispatchGradsOrder` | stream_ep/stream_moe/stream_moe.py:868-901 | dispatch_grads starts on the output gradient and zeroed arrival counts |
| `OrchestratorCalls.ExchangeMeets` | csrc/stream_ep.cpp:1145-1185 | An exchange is complete on one rank only when every rank is in it |
| `OrchestratorCalls.OthersInLastExchange` | stream_ep/stream_moe/stream_moe.py:617-688 | When a rank has begun anything of a call, every other rank is at least in the last exchange of the call before |
| `OrchestratorCalls.RanksWithinOneCall` | stream_ep/stream_moe/stream_moe.py:617-688 | And has finished every call before that one on every stream, so that writes into its buffers meet nothing older |
| `OrchestratorHost.LayerHost.RunForward` | stream_ep/stream_moe/stream_moe.py:462-668 | The forward layer enqueues the program the step system runs, and its counters stand at the launches issued |
| `OrchestratorHost.LayerHost.RunBackward` | stream_ep/stream_moe/stream_moe.py:838-1123 | The same for the backward layer |
| `OrchestratorHost.LayerHost.Dispatch` | csrc/stream_ep.cpp:1263-1265 | The log gains the operations of one dispatch, with one launch of the main kernel, and the launch counter goes up by exactly one |
| `OrchestratorHost.LayerHost.ForwardCompute` | stream_ep/stream_moe/stream_moe.py:560-626 | Kernels A and Y, the launch counter and the flag wait are all there or, on an empty rank, all left out |
| `OrchestratorHost.LayerHost.BackwardKernels` | stream_ep/stream_moe/stream_moe.py:986-1041 | The backward kernels, the launch counter and the flag wait together |
| `OrchestratorHost.LayerHost.RunAll` | stream_ep/stream_moe/stream_moe.py:462-1123 | Over a whole run of layers the host's log is the program |
| `OrchestratorHost.EntriesComplete` | stream_ep/stream_moe/stream_moe.py:462-668 | The host's log has every operation of the program |
| `OrchestratorHost.EntriesOrdered` | stream_ep/stream_moe/stream_moe.py:462-668 | The log is in program order |
| `ScatterStore.ScatterSubtile` | stream_ep/stream_moe/kernel_y.py:516-615 | For every subtile, warp count and mask, `o` receives each staged row once, column by column, and padding rows and foreign ids nothing |
| `ScatterStore.ScatterWarp` | stream_ep/stream_moe/kernel_y.py:563-615 | One warp's sweep adds the reductions of its rows and no others |
| `ScatterStore.ReduceVec` | stream_ep/stream_moe/kernel_y.py:588-615 | A lane's predicated reduction adds the eight columns of a real row, and nothing for padding |
| `ScatterStore.NoCollisionIff` | stream_ep/stream_moe/kernel_y.py:147-169 | The padded staging layout is injective exactly for subtile widths up to the pad of 34 |
| `ScatterStore.StageRegisters` | stream_ep/stream_moe/kernel_y.py:500-506 | After the register-to-staging copy every element is read back from its own address |
| `ScatterStore.WorkUnit` | stream_ep/stream_moe/kernel_y.py:569-584 | A work item of a warp names the (row, chunk) its position in the sweep has |
| `ScatterStore.UnitsAreRows` | stream_ep/stream_moe/kernel_y.py:543-584 | The (row, chunk) reductions together add every row's columns once |
| `ScatterStore.ColumnOnce` | stream_ep/stream_moe/kernel_y.py:514-521 | Every column of a row has exactly one (stripe, subtile, column) place |
| `ScatterStore.ScatterStripe` | stream_ep/stream_moe/kernel_y.py:500-615 | A CTA over all its subtiles, staging included: every column of the stripe takes in every row of the tile once, columns of other stripes nothing |
| `ScatterStore.ScatterTile` | stream_ep/stream_moe/kernel_y.py:500-615 | All stripes of a tile in any order: every (row, column) accumulator is added once, to its row's token and its own column |
| `ExpertDropout.DropsExactly` | stream_ep/stream_moe/expert_dropout.py:71-85 | For fixed seed and row exactly `threshold` of the 2^32 column words are dropped |
| `ExpertDropout.RowsDropExactly` | stream_ep/stream_moe/expert_dropout.py:66-81 | So does the row: for a fixed seed, a column is dropped in exactly `threshold` of the 2^32 rows |
| `ExpertDropout.SeedsDropExactly` | stream_ep/stream_moe/expert_dropout.py:66-81 | And the seed: over all seed words every unit is dropped exactly `threshold` times |
| `ExpertDropout.HashSeparates` | stream_ep/stream_moe/expert_dropout.py:66-81 | Two units that differ in the row word, the seed word or the column word alone never hash alike |
| `ExpertDropout.MaskIsUnbiased` | stream_ep/stream_moe/expert_dropout.py:83-105 | Inverted dropout: the factors of a row average to one up to the threshold's rounding |
| `ExpertDropout.UnhashHash` | stream_ep/stream_moe/expert_dropout.py:71-85 | The column hash is injective: it has an inverse |
| `ExpertDropout.HashUnhash` | stream_ep/stream_moe/expert_dropout.py:71-85 | And onto the 32-bit words |
| `ExpertDropout.MurmurValid` | stream_ep/stream_moe/expert_dropout.py:22-26 | The constants of the source are such multipliers: each, the row multiplier included, has an inverse modulo 2^32 |
| `ExpertDropout.ThresholdIsFraction` | stream_ep/stream_moe/expert_dropout.py:29-33 | The threshold is p * 2^32 rounded to the nearest word, ties to even and clamped below 2^32; p outside [0, 1) is an error |
| `ExpertDropout.Mul32IsMul` | stream_ep/stream_moe/expert_dropout.py:88-90 | The split product is multiplication modulo 2^32 and stays in 64-bit range |
| `ExpertDropout.MirrorAgrees` | stream_ep/stream_moe/expert_dropout.py:93-106 | The host mirror and the device mask agree for every seed, row word, column word and p |
| `ExpertDropout.MirrorIsMask` | stream_ep/stream_moe/expert_dropout.py:93-106 | The mirror's factors are those with which the two kernels scale |
| `ExpertDropout.ForwardMask` | stream_ep/stream_moe/kernel_a.py:148-161 | Over the whole pool, tiled in 2I accumulator columns, every (slot, i) is scaled once by the factor hashed from the seed, the slot and i |
| `ExpertDropout.BackwardMask` | stream_ep/stream_moe/kernel_y_bwd.py:376-389 | Tiled in I columns with another width, every (slot, i) is scaled once by the very same factor |
| `ExpertDropout.HashedRow` | stream_ep/stream_moe/expert_dropout.py:56-68 | The row number a kernel hashes, cu_seqlens_m of the decoded expert plus pid_m tiles plus the row, is the pool slot |
| `Words.UnshiftXorInverse` | stream_ep/stream_moe/expert_dropout.py:78-84 | A xor-shift by 13 or 16 bits is undone by its inverse |
| `Words.MulInverse` | stream_ep/stream_moe/expert_dropout.py:22-26 | An odd multiplication modulo 2^32 is undone by the inverse constant |
| `DropoutFinalizer.ShiftRedundantIff` | stream_ep/stream_moe/expert_dropout.py:75-77 | The last xor-shift of the full finalizer changes no decision if and only if the threshold's lower half is a multiple of the least power of two above its upper half |
| `DropoutFinalizer.TenPercentDiffers` | stream_ep/stream_moe/expert_dropout.py:75-77 | For the threshold of p = 0.1 it does change one |
| `KernelYBwd.EpiVisitSubtile` | stream_ep/stream_moe/kernel_y_bwd.py:354-436 | Real elements leave with the weighted gate, up and activation gradients, padding elements with exact zeros whatever they held, and the row sums take in the unweighted dot product |
| `KernelYBwd.Differentiate` | stream_ep/stream_moe/kernel_y_bwd.py:360-389 | With and without dropout every finite element gets the masked, unweighted derivatives and the masked activation |
| `KernelYBwd.SelectPadding` | stream_ep/stream_moe/kernel_y_bwd.py:391-407 | The select makes padding exact zeros in all four registers, NaN or not |
| `KernelYBwd.ReduceRows` | stream_ep/stream_moe/kernel_y_bwd.py:409-415 | The row sums see the unweighted gradient |
| `KernelYBwd.WeightRows` | stream_ep/stream_moe/kernel_y_bwd.py:416-424 | The weight multiply turns the results into the gradients of the weighted layer |
| `ChainRule.EpilogueIsGradient` | stream_ep/stream_moe/kernel_y_bwd.py:329-341 | The epilogue's formulas are the gradients of the masked, weighted, gated expert: along every direction in the weight, the gates, the ups and W2 the dual-number derivative of the loss is the sum of each result times its movement |
| `LayerGradient.LayerIsDifferentiated` | stream_ep/stream_moe/stream_moe.py:1080-1114 | The whole layer: along every joint direction of the row, W1, W2 and the routing weight the loss moves by what the backward leaves times the movement, with the row gradient and dW1 from the interleaved gate and up gradients and dW2 from the weighted activation |
| `LayerGradient.PostIsAct` | stream_ep_tests/reference.py:105-107 | The activation of the forward pass and of the reference is the one that is differentiated: silu of the even column times the odd column, masked |
| `LayerGradient.RowIsExpert` | stream_ep_tests/reference.py:138-142 | So is its output row through W2 |
| `LayerGradient.MixtureLoss` | stream_ep_tests/reference.py:132-143 | The loss of a token's mixture is the sum of the losses of its kept pairs' layers, whose derivatives are above |
| `LayerGradient.ForwardIsCarried` | stream_ep/stream_moe/kernel_y_bwd.py:354-390 | Registers loaded with what the forward pass stored (gate and up columns, mask, weight, gradient through W2) carry that layer, so the epilogue leaves its gradients |
| `RowReduce.VisitSubtile` | stream_ep/stream_moe/kernel_y_bwd.py:354-436 | After a visit the registers hold the expert's gate, up and weighted activation gradients and exact zeros on padding, and the row sums have taken in the dot products of the visited columns |
| `RowReduce.EndLoopFinish` | stream_ep/stream_moe/epi_ops.py:91-141 | The leader merges the other warps' sums and adds each row inside the limit to its slot |
| `RowReduce.RunStripe` | stream_ep/stream_moe/epi_ops.py:75-141 | A stripe from its first visit to its add: the buffer takes in the stripe's columns of every row inside the limit |
| `RowReduce.RunTile` | stream_ep/stream_moe/epi_ops.py:75-141 | The stripes of a tile in any order: the buffer takes in every routed row's full dot product once, nothing for padding rows whatever they held, nothing beyond the limit |
| `RowReduce.PartsAreRow` | stream_ep/stream_moe/epi_ops.py:112-141 | However the columns are dealt to stripes, warps or subtiles, the partial sums add up to the full row |
| `RowReduce.LeaderAndOthers` | stream_ep/stream_moe/epi_ops.py:91-114 | The leader's and the exchanged warp sums make up the stripe's sum |
| `Carving.CarveDisjoint` | csrc/kernels/buffer.cuh:43-113 | Slabs of different (field, half, channel, rank) of a carved chain never overlap |
| `Carving.SlabInside` | csrc/kernels/buffer.cuh:43-113 | Every slab lies inside the chain's region |
| `Carving.EntriesDisjoint` | csrc/kernels/buffer.cuh:43-128 | Different entries, of one slab or of two, never share a byte |
| `Carving.AsymBuffer.constructor` | csrc/kernels/buffer.cuh:43-51 | The constructor places its base and moves the pointer past the field |
| `Carving.SymBuffer.constructor` | csrc/kernels/buffer.cuh:105-113 | The same with a send and a receive half |
| `Carving.AsymBuffer.AdvanceAlso` | csrc/kernels/buffer.cuh:71-74 | The mirror pointer moves by the same number of bytes |
| `Carving.AccessorsReachSlabs` | csrc/kernels/buffer.cuh:115-128 | The send and receive accessors of a carved buffer reach exactly the slabs of its field |
| `BufferLayout.NvlRegionsMatchChains` | csrc/kernels/api.cuh:316-346 | The NVL region formulas are the totals of what the kernels carve |
| `BufferLayout.RdmaRegionMatchesChain` | csrc/kernels/api.cuh:388-416 | So is the RDMA formula |
| `BufferLayout.MetadataRegionMatchesChain` | csrc/kernels/api.cuh:364-375 | And that of the metadata slabs |
| `BufferLayout.TokenHolds` | csrc/kernels/api.cuh:298-304 | A staged token has room for its data, source, ids and weights, with less than 16 bytes to spare, and keeps the 16-byte alignment |
| `BufferLayout.NvlSlabsHold` | csrc/kernels/api.cuh:316-346 | The NVL slabs hold exactly what their indices reach: a token per ring slot, a prefix word (in combine a head and a tail) per RDMA rank, one head and one tail in dispatch |
| `BufferLayout.RdmaSlabsHold` | csrc/kernels/api.cuh:388-416 | The RDMA slabs hold exactly a token per ring slot, one head and one tail |
| `BufferLayout.MetadataSlabsHold` | csrc/kernels/internode.cu:440-450 | The metadata slabs hold exactly a count per expert of the node, RDMA rank, local expert, and inbox index |
| `BufferLayout.InboxIndex` | csrc/kernels/internode.cu:540-567 | The inbox indices stay within their slab and are all different |
| `BufferLayout.CarveDispatchNvl` | csrc/kernels/internode.cu:1137-1153 | A block's carve of dispatch's NVL buffers through two pointers: both move by the region, and every buffer is the slab of the block's channel and of the rank on the other side |
| `BufferLayout.CarveCombineNvl` | csrc/kernels/internode.cu:3669-3682 | The same for combine's sender |
| `BufferLayout.PrefixWordsDisjoint` | csrc/kernels/internode.cu:1144-1149 | The prefix words of all channels, peers and RDMA ranks never share a byte |
| `BufferLayout.NvlHintSuffices` | csrc/config.hpp:52-100 | The NVL hint holds dispatch, combine and metadata for every top-k up to 128 and up to 64 local experts |
| `BufferLayout.NvlPartition` | csrc/stream_ep.cpp:1626-1634 | The three NVL regions are consecutive parts of one carved chain inside the allocation |
| `BufferLayout.NvlSlabsApart` | csrc/stream_ep.cpp:1615-1634 | No two slabs of dispatch, combine and metadata overlap on any rank or channel, and each is inside the hint's allocation |
| `BufferLayout.RdmaHintSuffices` | csrc/stream_ep.cpp:1599-1613 | The RDMA hint also holds the metadata it does not reserve, for top-k up to 125 at every ring depth of 128 or more and up to 64 local experts |
| `BufferLayout.RdmaHintFails` | csrc/config.hpp:102-142 | At the full top-k of 128 it never does: not for one expert, at any ring depth, channel count, rank count and hidden size |
| `BufferLayout.RdmaFitsIff` | csrc/stream_ep.cpp:1599-1613 | For every geometry and number of experts, the exact condition: the regions and the metadata fit the hint if and only if the room that tokens narrower than top-k 128 leave, and the rounding to 128 bytes, hold the metadata |
| `BufferLayout.RdmaByRank` | csrc/stream_ep.cpp:1599-1613 | One rank decides, whatever the hidden size: it fits if the room per rank holds the metadata per rank, and does not if that room is 128 bytes short |
| `BufferLayout.RdmaDepth128Iff` | csrc/stream_ep.cpp:1599-1613 | At depth 128, with 64 local experts and more than one node, it fits if and only if top-k is at most 125, or 126 with two channels or more |
| `BufferLayout.RdmaPartition` | csrc/stream_ep.cpp:1602-1613 | The RDMA buffer is one carved chain: dispatch, combine, count exchange, streaming inbox |
| `BufferLayout.RdmaSlabsApart` | csrc/stream_ep.cpp:1602-1613 | No two RDMA slabs overlap, for any top-k; each is inside the allocation wherever the regions fit |
| `BufferLayout.CarveRdma` | csrc/kernels/internode.cu:1117-1124 | A block's carve of data ring, heads and tails moves the pointer by the region, and the accessors reach the slabs of the block's own channel |
| `BufferLayout.IntranodePartition` | csrc/kernels/intranode.cu:669-705 | Dispatch's carve ends inside its section, combine's starts where that section ends, skips the source indices and ends inside its own |
| `BufferLayout.IntranodeSlabsHold` | csrc/kernels/intranode.cu:669-705 | The intranode slabs hold exactly the matrix, a word per channel and rank, and per ring slot the vectors, a source index, and an id and a weight per k |
| `BufferLayout.IntranodeSlabsApart` | csrc/kernels/intranode.cu:1606-1625 | No two slabs of the dispatch and combine sections overlap on any rank or channel, for any sizes; each is inside the allocation wherever the sections fit |
| `BufferLayout.IntranodeFitsIff` | csrc/stream_ep.cpp:1505-1510 | For every number of ranks and every geometry of a node, the exact condition for the host assert: what the ranks take per ring slot, the per-channel words, the matrix and two roundings against what the hint has |
| `BufferLayout.IntranodeFitsWhen` | csrc/stream_ep.cpp:1505-1510 | The assert holds whenever one ring slot of the hint has room for one slot of every rank and its share of the fixed parts |
| `BufferLayout.IntranodeHintSuffices` | csrc/stream_ep.cpp:1505-1510 | With 64-bit ids the assert holds up to top-k 95 at every number of ranks, up to top-k 128 at six ranks or fewer, and at seven up to 109, or 128 with rows of 65 vectors or more |
| `BufferLayout.IntranodeEightIff` | csrc/stream_ep.cpp:1505-1510 | At eight ranks it holds if and only if top-k is at most 96, or 97 with four ring slots or more over all channels |
| `SlabBuilder.Builder.ReserveBytes` | csrc/stream_ep.cpp:546-561 | A reserve returns an aligned offset after everything reserved before |
| `SlabBuilder.Builder.ReserveAll` | csrc/stream_ep.cpp:829-844 | A run of fields is laid out in order behind what was there before |
| `SlabBuilder.AllocatePostPoll` | csrc/stream_ep.cpp:827-879 | For any lists of field sizes, the intranode and the internode allocator's among them: after the three fills every byte of every field, empty fields included, has its region's value, and no two fields overlap |
| `RecvPoolCompress.Compress` | stream_ep/stream_moe/recv_pool_compress.py:48-70 | In any order of programs every token with a slot gets its row and others are untouched |
| `RecvPoolCompress.CompressProgram` | stream_ep/stream_moe/recv_pool_compress.py:39-50 | One program writes its block of its token's row, a padding slot nothing |
| `RecvPoolCompress.Expand` | stream_ep/stream_moe/recv_pool_compress.py:45-78 | In any order every (slot, column) is written: the token's row, or zero on padding |
| `RecvPoolCompress.ExpandProgram` | stream_ep/stream_moe/recv_pool_compress.py:39-47 | One program fills its block of its slot's row, with zeros on padding |
| `RecvPoolCompress.RoundTrip` | stream_ep/stream_moe/recv_pool_compress.py:64-78 | Expanding after compressing restores every real slot and zeroes padding |
| `RecvPoolCompress.OffsetsFit` | stream_ep/stream_moe/recv_pool_compress.py:53-61 | The one size check keeps the 32-bit offsets of both tensors in range when every token has a slot |
| `TileConfig.LargestPow2Divisor` | stream_ep/stream_moe/stream_moe.py:125-130 | The loop returns the largest power of two up to the cap that divides its argument |
| `TileConfig.Validate` | stream_ep/stream_moe/stream_moe.py:197-268 | Validation accepts exactly the configurations whose output tiles divide and whose heights the backward can generate; a zero tile divides by zero |
| `TileConfig.DefaultTileConfig` | stream_ep/stream_moe/stream_moe.py:271-324 | Every knob of the shape-picked configuration for every shape, and it always validates. Kernel A's tile comes out as 192 where that divides I and else as the largest power of two up to 256 that divides I, although it is first picked for 2I |
| `TileConfig.Pick` | stream_ep/stream_moe/stream_moe.py:283-286 | The preferred width where it divides, else the largest power of two up to the cap that does |
| `TileConfig.ResolveTileConfig` | stream_ep/stream_moe/stream_moe.py:327-347 | Resolution fails exactly when the overlay does not validate, and otherwise keeps every override and the shape-picked value of every knob that was not overridden |
| `TileConfig.DefaultStripesEvenIff` | stream_ep/stream_moe/stream_moe.py:283-296 | The default kernel Y tile leaves an even number of column tiles if and only if H is a multiple of 512 |
| `TileConfig.DefaultGateIff` | stream_ep/stream_moe/stream_moe.py:598-614 | With the clusters of two the layer launches and both peers running, the default tile makes the stripe gate count what runs if and only if H is a multiple of 512 |

## Left out

- KernelYCompletion.GateSafeIff: assumes a received row in the last tile, which `PoolLayout.TargetCountsReal` gives every tile of a dispatched pool, and an epilogue thread for every row of a tile; `KernelYCompletion.Completion` says what fewer threads leave unstamped
- KernelYDevice.Device.End: describes one CTA's end of tile without interruption; interleavings of such ends are the step system's, whose steps it follows
- ScatterStore.ScatterSubtile: subtile widths that are not a multiple of 8 or exceed the staging pad are excluded, as the kernel's alignment comments and `ScatterStore.NoCollisionIff` require
- KernelYBwd.EpiVisitSubtile: the padding mask, the row reduction and the weights are always present, as kernel Y's backward launches them; the packing to bf16 pairs is not modelled
- ChainRule.EpilogueIsGradient: silu's derivative is a parameter of the model; the directions do not move the mask or the output gradient
- ArrivalHandoff.DispatchIsHandoff: covers the intranode receivers; a substream fires after all of its own rows, as its final barrier and fence make it
- PoolPipeline.CombineIsMixture: the transport of dispatch and combine is reduced to what it delivers: each token with its row, weights and local ids, and the sum over ranks behind the per-token gate; the kernels' matrix products are sums over the slot's row
- KernelYWorkItem.WorkItem: takes one turn of the ready spin and one CTA of an otherwise idle cluster, without interruption; the interleavings are the step system's
- RowReduce.RunTile: the shuffle between the lanes of a warp is inside quack, so a warp's fragment is taken as one; a stored weight gradient that is not finite stays so
- OrchestratorRuns.Progress: SM capacity beyond the started-flag gates is not modelled, and a kernel that has begun is assumed to go on once what it spins on is there
- BufferLayout.IntranodeHintSuffices: at seven ranks, top-k 110 to 128 with rows under 65 vectors is left to the byte condition of `BufferLayout.IntranodeFitsIff`
- Carving.AsymBuffer.constructor: the 32-bit product of element count and element size in the constructors of buffer.cuh is taken without overflow
- TileConfig.Validate: the messages of the errors are not modelled, only whether there is one
- The ring protocol between senders and receivers, its generation stamps, wrap handling and timeouts
- Weak memory: PTX scopes, fences and acquire/release pairs
- bf16 and fp32 rounding, and the order sensitivity that goes with it
- Internode dispatch and combine bodies: only their carve sequences are used, for the buffer layout
- Kernel A's backward: kernel Y's scatter protocol without the weight, with the same steps
- Kernel A's GEMM, the mainloops, TMA, WGMMA, cluster broadcast and everything else inside quack and CuTeDSL
- Clusters along M: every launch has cluster_m equal to 1
- The draw of the dropout seed from the CPU generator and its mixing with the rank
- The ring-depth rounding of the `Config` constructor, the tuning tables and SM counts of `stream_ep/buffer.py`
- CUDA IPC, NVSHMEM and fabric allocation, Python bindings, benchmarks and build scripts
