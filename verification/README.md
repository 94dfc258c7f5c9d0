# SCAMP in Dafny

SCAMP computes matrix profiles: for every subsequence of a time series, its best Pearson correlation with the
subsequences of a series (its own, outside a trivial-match zone, or another one), with the position of the best match,
or a thresholded sum of all correlations. The meaning is a double loop, a centred dot product and a fold. The program
gets there through a tiled schedule, worker threads, a CPU kernel, two GPU kernels, constant-time statistics and a
distributed job server. This project models each of these layers and proves that it refines that one meaning.

## How the model is laid out

`Profiles` says, once and without any order, what it means for a profile element to have gathered a set of cells:
`Gathered(kind, distances, start, cells, result)`. For a sum it fixes the value; for a maximum it says that nothing in
`cells` is larger and that the index names a cell that attains it. Every kernel, merge and worker is proved against that
relation, so the order in which cells are visited never matters and each cell counts once. `Kernel` holds the arguments of a launch,
the covariance recurrence, the correlation of a cell and the band of cells a launch has to evaluate.

- `Arithmetic`: minimum, maximum, and a few facts about products and quotients
- `CpuKernel`: the CPU kernel with its in-place reductions on arrays, and what a second threshold drops
- `GpuBlock`: what one thread block has to do, and which blocks a launch has
- `ShflRing`, `ShflKernel`, `ShflMerge`, `ShflBlock`, `ShflTile`, `HandOff`: the cov-shuffle GPU kernel: ring of register slots, rotation, flush, one block's whole run, and the cross-warp hand-off under all interleavings
- `SlidingWindow`, `SlidingTile`, `SlidingWarp`, `SlidingBlock`: the sliding-window GPU kernel: checked rows, register-window iterations, row sums across a warp and when its lanes part, and one block's whole run
- `GpuLaunch`: a launch of either GPU kernel, and a tile's two launches
- `Statistics`, `CpuStats`: windowed statistics over the reals and the methods that compute them
- `Tiling`, `Coverage`: tile sizes, exclusion zones, schedule, and which pairs are evaluated how often
- `Joins`, `TileExec`: a tile's two launches, straight and transposed, in terms of the join, and a CPU worker's tile
- `Workers`, `WorkersProgress`, `AtomicMax`, `MatchMerge`: worker threads and merging, the lock-free maximum, bounded top-K queues
- `JoinPlan`, `JoinStep`, `JoinSlots`, `JoinProfile`: the join from end to end: where tiles copy from and merge into, a worker's tile as a step of the protocol, what each element is compared with, and what a finished run holds
- `MatrixProfile`: what a finished self-join says about the samples themselves
- `DistributedTiles`, `DistributedJob`, `JobList`: the job server: tiles, retries and scheduling
- `CacheText`, `AutotuneCache`: the autotune cache's printer and parser

Doubles are `real`; the cast of a correlation to the distance type is an arbitrary function of the real. A NaN norm is `Flat`,
and a correlation with one is `NoValue`, which loses every comparison. The kind `Nearest` stands for both maximum
profiles: both compare values alone, and the one without an index drops it. Where they differ, in what a tile's row
buffer is copied from, `Mode.indexed` tells them apart. Clocks, throughput estimates, the order in which
hash maps hand out their entries, rounding and the square root are parameters.

A join is run by any mix of CPU and GPU workers. What a CPU worker's sums are too high by is its tiles' `excess`. A GPU
worker adds up every selected correlation of the blocks it launches. Its launches need an even height for the cov-shuffle
kernel and no split warp where rows are summed by shuffles (`GpuLaunch.TileFits`), and they evaluate the whole tile when their
grids reach the bands (`GpuLaunch.TileCovered`). A finished run (`JoinProfile.FinishedRun`) has both for every tile given
to a GPU.

The threads of a thread block, and the blocks of a launch, are taken in one order where they only meet in atomic
maxima and additions, which commute; where order matters (the hand-off buffer and its barrier, the compare-and-swap loop,
the workers) all interleavings are covered.

## What the proofs found

- `JoinProfile.KeptRowsExactIff`: for a maximum without an index, a tile's row buffer is copied from the column profile whenever
  the join is a self-join, even when rows are kept apart (tile.cpp:348-360; the indexed one tests in the other order, 333-346),
  but it is merged into the row profile (556-558). With several tiles a kept row can then hold a value that belongs to a
  column: `WrongCopyExample`. The rows are right in all runs exactly with an index, in an AB-join, or with
  a single tile.
- `CpuKernel.RowSumExactIff`: the CPU kernel thresholds a row's batch sum a second time when it merges it
  (cpu_kernels.cpp:93-95 after 160-163). That is harmless for every batch exactly when the threshold is not negative or
  below minus the unroll width; `NegativeThresholdDropsARow` gives a batch that is lost otherwise, and
  `JoinProfile.SelfJoinSumExactIff` says when a whole join's sums are affected.
- `SlidingWarp.UniformWarpsIff`: the sliding-window kernel adds row sums up with shuffles that name all 32 lanes of a warp
  (kernels_compute.h:157-169), inside a path whose test depends on the lane (kernels_impl.h:101-103). The lanes agree
  exactly when the band does not end inside a warp of a block with a fast tile; `SplitWarpExample` is a launch where
  they do not. The block theorem of that kernel requires that they agree.
- `GpuBlock.LaunchCoversIff`: the launcher counts n_x minus both exclusions (kernels.cu:71-75) while the kernels' band has
  one diagonal more, the `+1` of num_diags. When the count fills the last block exactly, that diagonal has no block:
  `UnlaunchedExample`.
- `Coverage.FullTileExactIff`: an aligned join that is part of a larger one takes its trivial-match zone from each tile's corner
  (tile.cpp:12-24 and 84-142). That is right if the corner lies on the diagonal, one tile off it, or far enough away, so
  whenever the join's offset is a multiple of the tile size (`GridAligned`). Otherwise the tile evaluates a trivial match
  (`BadCornerPair`).
- `HandOff.HandOffNeedsEvenHeight`: the hand-off slot is chosen by the parity of the row within its tile, so consecutive rows agree
  on it if and only if the tile height is even. The block theorem of the cov-shuffle kernel requires that.
- The comment on the hand-off says that lane 0 of warps after the first reads the buffer (kernels_compute_shfl.h:542-543);
  the code takes the previous warp modulo the warp count (444-445), so warp 0 receives a real value too, the one that
  closes the ring. The model follows the code.
- `DistributedJob.CompletedIffNoLostReport`: a failure report is believed for any tile, so one that arrives after the tile's result
  puts it back in circulation. The completed count equals the number of finished tiles exactly when this never happens;
  `LateReportMergesTwice` is a run in which it does.
- `cleanup_failed_tiles` returns true when no tile is exhausted, while both of its callers name the result `failed`
  (distributed_job.cpp:95-101 and 303-313). The model keeps this as written; the bound on hand-outs holds regardless.
- `AutotuneCache.RoundTripIffClean`: a device key with a separator, a newline or a leading comment mark never survives
  the cache file.

## Model

| member | source | states |
|---|---|---|
| JoinProfile.SelfJoinProfile | src/core/SCAMP.cpp:97-169 | for every series length, window >= 3, tile size, number and kinds of workers and interleaving, each element of a self-join's final profile has gathered the correlations with exactly the subsequences at least ceil(w/4) away, each once; a sum is too high by its `Excess`, which is never negative, and zero exactly when no CPU worker drops a batch of negative sums |
| JoinProfile.SelfJoinMaximum | src/common/profile.cpp:14-25 | from precomputed statistics, a self-join ends, for every subsequence with a neighbour, with the largest rounded Pearson correlation outside its zone and the position of a subsequence that attains it; rounding only has to be monotone and keep -1 above -2 |
| MatrixProfile.BestMatches | src/core/SCAMP.cpp:191-206 | from raw samples: for every finite, not flat window with such a neighbour at least a quarter of the window away, the final value is the largest rounded Pearson correlation among those neighbours, and the index is one that attains it |
| MatrixProfile.NormIffRegular | src/core/cpu_stats.cpp:140-155 | a window of the samples has a norm if and only if it is finite throughout and not flat |
| JoinProfile.SelfJoinSumExactIff | src/core/SCAMP.cpp:97-169 | each sum of a finished self-join is the exact one if and only if no worker has dropped a batch of it |
| JoinProfile.ExcessIff | src/core/cpu_kernel/cpu_kernels.cpp:160-163 | over a whole join, what a sum is too high by is never negative, and zero exactly when every batch that holds a selected correlation of it and is reduced by a CPU worker has a sum above the threshold or equal to zero |
| JoinProfile.ExactWorkersDropNothing | src/core/cpu_kernel/cpu_kernels.cpp:93-95 | no batch of a whole join is dropped when every CPU worker has a threshold that is not negative, or below minus its unroll width while no correlation is below -1 |
| JoinProfile.ExactIsPearson | src/core/cpu_kernel/cpu_kernels.cpp:249 | the distance of two subsequences with norms is their Pearson correlation, rounded |
| JoinProfile.PrecomputedAtLeastMinusOne | src/core/cpu_kernel/cpu_kernels.cpp:67-69 | no correlation of a join with precomputed statistics is below -1, which is what very low thresholds rely on |
| JoinProfile.SeparateProfiles | src/core/SCAMP.cpp:97-169 | when rows do not go into the profile of the columns (every AB-join, with or without computed rows, and a self-join that keeps its rows), each column gathers exactly the pairs the join asks for, each once: all pairs (unaligned), those outside the exclusion zone (aligned, local, equally long), or those above it (self-join); each computed and kept row does the same, except for a maximum without an index in a self-join of several tiles |
| JoinProfile.KeptRowsExactIff | src/core/tile.cpp:333-360 | for data whose last subsequence has a correlation with its first, all runs of a maximum with kept rows end right if and only if it has an index, is an AB-join, or has a single tile |
| JoinProfile.WrongCopy | src/core/tile.cpp:348-360 | otherwise, in any data whose last subsequence has a correlation with its first, a run of one worker leaves a value of the column profile in the last kept row, which has nothing to gather |
| JoinProfile.WrongCopyExample | src/core/tile.cpp:348-360 | such a run for a series of nine samples, with exact statistics |
| JoinProfile.AlignedJoinEqualsSelfJoin | src/core/tile.cpp:44-142 | joining a series with itself as an aligned AB-join, whether it computes rows or not, ends in the self-join's profile, value for value; for sums, up to what either run has dropped |
| JoinPlan.PlanIsValid | src/core/tile.cpp:552-562 | no two elements of the tiles' buffers ever merge the same pair into the same profile element, whether rows are merged or not |
| JoinPlan.TileRefinesCompute | src/core/SCAMP.cpp:134-162 | executing a tile on its buffers, on a CPU or a GPU worker, is exactly the step the workers' protocol assumes of it, with the batches it drops as the excess |
| JoinStep.ComputeTile | src/core/SCAMP.cpp:134-162 | from any reachable state of a join in which a worker is about to run its tile, running it on a CPU or a GPU takes exactly the compute step of the protocol |
| WorkersProgress.BuffersAreFloored | src/core/tile.cpp:319-360 | whatever the interleaving, every buffer a worker starts a tile from holds nothing below the initial value of a maximum, as the kernels need |
| JoinSlots.SelfJoinCompares | src/core/SCAMP.cpp:34-43 | the tiles of a self-join compare each subsequence with all others outside its exclusion zone and with no other |
| JoinSlots.ComparesColumn | src/core/SCAMP.cpp:44-88 | when rows do not share its profile, the tiles compare each column with exactly the rows the join asks for |
| JoinSlots.ComparesRow | src/core/SCAMP.cpp:44-88 | the same for each row of a join that computes and keeps its rows |
| JoinSlots.ComparedIsEvaluated | src/core/tile.cpp:552-562 | whatever is merged into a profile element belongs to a pair that some scheduled kernel evaluated |
| JoinSlots.EvaluatedIsCompared | src/core/tile.cpp:552-562 | the column of every evaluated pair reaches its profile element, and so does the row wherever rows are merged |
| JoinSlots.ColumnOwnsSlot | src/core/tile.cpp:335-337 | whatever is merged into a column was copied from that column |
| JoinSlots.RowOwnsSlot | src/core/tile.cpp:338-345 | whatever is merged into a kept row was copied from that row, with an index or in an AB-join |
| JoinSlots.RowSlotExact | src/core/tile.cpp:333-360 | the copies of a kept row are harmless: taken from itself, of a sum, or made before anything else could fill their source |
| TileExec.ExecuteTile | src/core/tile.cpp:589-664 | a tile run on a CPU worker as upper kernel then transposed lower kernel leaves in every buffer element exactly the pairs the tile evaluates, each once, for any threshold: a sum ends too high by exactly the batches its launches drop |
| TileExec.ExecuteHalf | src/core/cpu_kernel/kernel_dispatcher.cpp:51-73 | one CPU launch, straight or with the two buffers and flags swapped, contributes exactly its half of the tile, and for sums the dropped batches of its rows |
| GpuLaunch.ExecuteTile | src/core/tile.cpp:589-664 | on a GPU worker, with either kernel, each buffer element gathers the pairs of the blocks that are launched, each once, for any threshold; those are exactly the pairs the tile evaluates when both grids reach their bands |
| GpuLaunch.ExecuteHalf | src/core/gpu_kernel/kernels.cu:86-118 | one GPU launch, straight or with buffers and flags swapped, contributes the launched part of its half of the tile, and the whole half if its grid reaches the band |
| GpuLaunch.Launch | src/core/gpu_kernel/kernels.cu:70-118 | the blocks of a grid, one after the other, gather exactly the cells of the band whose block is launched, or nothing runs when the exclusion zones leave no diagonal |
| GpuLaunch.CoveredIsLaunch | src/core/gpu_kernel/kernels.cu:70-75 | a grid that reaches the last diagonal gathers the whole band |
| TileExec.HalvesDisjointForSums | src/core/tile.cpp:25-42 | for sums no pair is evaluated by both halves: one of them leaves out the shared diagonal |
| TileExec.HalvesMakeTile | src/core/tile.cpp:589-616 | the two halves together are the tile, also where they overlap |
| TileExec.UpperColumn | src/core/kernel_common.cpp:6-39 | a column of a straight launch, in terms of the join's own distances |
| TileExec.LowerColumn | src/core/kernel_common.cpp:6-39 | a row of the transposed launch is a column of the tile |
| TileExec.LowerRow | src/core/kernel_common.cpp:6-39 | a column of the transposed launch is a row of the tile |
| TileExec.HasNanInput | src/core/tile.cpp:399-417 | the flag is set exactly when a subsequence without a norm starts within the tile's stretch of either series, so masking is never skipped when needed |
| TileExec.FirstCovariances | src/core/tile.cpp:619-664 | the seed row of either half holds the centred dot products of the series themselves, though computed on the tile's copies |
| TileExec.Precompute | src/core/SCAMP.cpp:191-206 | the series is the samples with everything that is not finite replaced by zero, a window has a norm if and only if its samples are finite and its squared differences exceed 1e-13, and the norms and update series are exact |
| Joins.LaunchDist | src/core/kernel_common.cpp:6-39 | every distance a launch computes is the join's correlation of that column and row, straight or transposed |
| Joins.ArgsAreFromSeries | src/core/kernel_common.cpp:6-39 | the arguments of both launches of a tile are cut from the two series at the tile's position |
| Joins.PairDistSymmetric | src/core/cpu_kernel/cpu_kernels.cpp:249 | a self-join's correlation does not depend on which subsequence is the row |
| Joins.NeededIsInside | src/core/SCAMP.cpp:112-119 | every scheduled tile holds at least one subsequence on both sides |
| ShflTile.Block.DoTileShfl | src/core/gpu_kernel/kernels_impl_shfl.h:122-257 | over a whole block run, for all widths, warp counts and even tile heights, and with rows or columns left out, every in-range cell of the block's diagonals reaches its own column and its own row exactly once |
| ShflTile.Block.RunTile | src/core/gpu_kernel/kernels_impl_shfl.h:160-257 | one tile keeps the ring invariant and extends both profiles by exactly the tile's rows |
| ShflTile.Block.constructor | src/core/gpu_kernel/kernels_impl_shfl.h:116-156 | the initial registers satisfy the ring invariant |
| ShflTile.DoRow | src/core/gpu_kernel/kernels_compute_shfl.h:432-593 | one row, on either path, keeps the ring, the hand-off and the merge invariants |
| ShflTile.ComputeRow | src/core/gpu_kernel/kernels_compute_shfl.h:443-568 | after the lane-0 fix-up the distances are those of the row's cells, and the shuffled covariances are the next row's |
| ShflTile.FlushAll | src/core/gpu_kernel/kernels_compute_shfl.h:315-338 | every column still in registers is flushed to its own element of the tile's buffer, which is then complete |
| ShflTile.TileEnds | src/core/gpu_kernel/kernels_impl_shfl.h:166-172 | the invariant between tiles is restored; the hand-off parity needs the even tile height |
| ShflTile.RotateAll | src/core/gpu_kernel/kernels_compute_shfl.h:570-577 | in each row exactly the one slot whose column leaves the block rotates |
| ShflBlock.RotationKeepsColumns | src/core/gpu_kernel/kernels_compute_shfl.h:170-197 | after the rotation every slot owns and holds the data of the one column congruent to it in the next row's window |
| ShflBlock.RotationKeepsMerges | src/core/gpu_kernel/kernels_compute_shfl.h:150-192 | every accumulator is flushed to the column it was gathered for before it is reset |
| ShflBlock.UpdateInfo | src/core/gpu_kernel/kernels_compute_shfl.h:141-197 | one rotation: flush, fetch the column one block on, start afresh; on the fast path the fetch is in range |
| ShflBlock.RotateThread | src/core/gpu_kernel/kernels_compute_shfl.h:570-577 | a thread's countdown fires for the rotating slot and for no other |
| ShflBlock.DistsAreCells | src/core/gpu_kernel/kernels_compute_shfl.h:502-519 | on either path the masked distances are those of the block's cells in the row |
| ShflKernel.FixUpMakesReady | src/core/gpu_kernel/kernels_compute_shfl.h:443-453 | after lane 0 takes the handed-off value every slot holds exactly cov(row, its column) |
| ShflKernel.ShuffleKeepsCov | src/core/gpu_kernel/kernels_compute_shfl.h:475-487 | shift, warp shuffle and publish together move every covariance to the slot that needs it next, around the ring, warp 0 included |
| ShflKernel.AdvanceSteps | src/core/gpu_kernel/kernels_compute_shfl.h:468-473 | the register update is the covariance recurrence |
| ShflKernel.PreviousOfWarpStart | src/core/gpu_kernel/kernels_compute_shfl.h:444-445 | the warp before, modulo the warp count, holds the slot before a warp's first slot |
| ShflMerge.FastPathAgrees | src/core/gpu_kernel/kernels_impl_shfl.h:199-206 | on a fast tile every check of the slow path holds for every slot and row, and every fetch is below n_x |
| ShflMerge.MaskIsCell | src/core/gpu_kernel/kernels_compute_shfl.h:502-519 | the slow path's mask lets through exactly the cells of the block |
| ShflMerge.MergeColumnStep | src/core/gpu_kernel/kernels_compute_shfl.h:282-313 | a column accumulator is extended by exactly the row's cell, if it has one |
| ShflMerge.MergeRow | src/core/gpu_kernel/kernels_compute_shfl.h:525-532 | the lanes' partial rows, reduced per warp and merged, gather exactly the row's cells |
| ShflMerge.MergeToRowLane | src/core/gpu_kernel/kernels_compute_shfl.h:343-372 | a lane's partial row gathers its own slots' cells |
| GpuBlock.WarpReduce | src/core/gpu_kernel/kernels_compute_shfl.h:379-421 | lane 0 of the shuffle reduction ends up with the tree reduction of all 32 lanes |
| ShflMerge.WarpGathers | src/core/gpu_kernel/kernels_compute_shfl.h:379-421 | that reduction gathers the cells of the whole warp |
| ShflRing.OwnedUnique | src/core/gpu_kernel/kernels_compute_shfl.h:170-197 | a slot owns exactly one column of the current window |
| ShflRing.OwnedNext | src/core/gpu_kernel/kernels_compute_shfl.h:191-192 | from row to row ownership changes for one slot only, by a whole block width |
| ShflRing.OwnedShift | src/core/gpu_kernel/kernels_compute_shfl.h:556-568 | the next column of a slot is owned by the next slot one row later |
| ShflRing.CountdownNamesSlot | src/core/gpu_kernel/kernels_impl_shfl.h:120 | the staggered countdown of a thread names the slot whose column leaves the window |
| ShflRing.ShuffleSourceIsPrevious | src/core/gpu_kernel/kernels_compute_shfl.h:556-568 | register shift and warp shuffle read the slot before |
| GpuBlock.BlocksPartitionTheBand | src/core/gpu_kernel/kernels_impl_shfl.h:104-111 | each cell of a launch's band has exactly one block index; whether that block is launched is `LaunchCoversIff` |
| GpuBlock.LaunchCoversIff | src/core/gpu_kernel/kernels.cu:70-75 | every cell of a band has its block launched if and only if the upper exclusion zone is empty or the grid has room for one diagonal more than the launcher counts |
| GpuBlock.UnlaunchedExample | src/core/gpu_kernel/kernels.cu:70-75 | a launch of three blocks whose band has a cell in a fourth |
| GpuBlock.ProfilesAfterTile | src/core/gpu_kernel/kernels_smem.h:217-257 | writing a tile's complete buffers back extends the global profiles by exactly the tile's rows |
| GpuBlock.BlockComplete | src/core/gpu_kernel/kernels_impl_shfl.h:160 | nothing of a block's band lies beyond its last tile |
| HandOff.ReadsPredecessor | src/core/gpu_kernel/kernels_compute_shfl.h:443-453 | in every interleaving, and across tiles, a warp that has read in row g has seen what warp w - 1, or for warp 0 the last warp, published in row g - 1 |
| HandOff.PublishedInTime | src/core/gpu_kernel/kernels_compute_shfl.h:443-453 | before a warp reads in row g, the slot of row parity g already holds that value |
| HandOff.ReadsIncoming | src/core/gpu_kernel/kernels_compute_shfl.h:444-453 | the value it stands for is the covariance of the slot before the warp's first one, around the ring, and is what the block's rows taken one after the other hand over |
| HandOff.NothingUnreadIsOverwritten | src/core/gpu_kernel/kernels_compute_shfl.h:475-487 | a warp never overwrites a slot before the warp after it, around the ring, has read that value or a later one of its |
| HandOff.HandOffNeedsEvenHeight | src/core/gpu_kernel/kernels_compute_shfl.h:443 | every row reads the slot the row before it wrote if and only if the tile height is even |
| HandOff.StepKeepsInv | src/core/gpu_kernel/kernels_compute_shfl.h:534-593 | every read, publish, arrive and wait keeps the protocol's invariant |
| HandOff.RunKeepsInv | src/core/gpu_kernel/kernels_compute_shfl.h:534-593 | the invariant holds in every reachable state |
| SlidingBlock.Block.DoTile | src/core/gpu_kernel/kernels_impl.h:86-155 | over a whole block run, row sums included, every cell of its band reaches its own column and its own row exactly once; where rows are added up across a warp, no warp may be split |
| SlidingBlock.Block.RunTile | src/core/gpu_kernel/kernels_impl.h:86-137 | one tile of all warps extends both profiles by exactly the tile's rows |
| SlidingBlock.Block.constructor | src/core/gpu_kernel/kernels_impl.h:71-84 | the initial registers satisfy the block's invariant |
| SlidingBlock.ThreadTile | src/core/gpu_kernel/kernels_impl.h:99-123 | whichever path a thread takes, it contributes exactly its own diagonals' cells of the tile; the fast path of a sum with rows is its warp's instead |
| SlidingBlock.WarpTile | src/core/gpu_kernel/kernels_impl.h:99-123 | a warp contributes exactly its diagonals' cells of the tile, with its lanes together on the fast path of a sum, else each on its own |
| SlidingBlock.EdgeRows | src/core/gpu_kernel/kernels_impl.h:113-122 | the checked path contributes exactly the cells of the rows it runs and stops only where none is left |
| SlidingBlock.FastRows | src/core/gpu_kernel/kernels_impl.h:105-109 | whole iterations of one thread cover the tile, for any number of them; rows are merged by the thread itself, so not those of a sum |
| SlidingWarp.FastMatchesEdge | src/core/gpu_kernel/kernels_impl.h:101-123 | the fast path and the checked path on the same rows and diagonals, a thread's or a whole warp's with its shuffles, leave the same values everywhere, and the same covariances to each thread |
| SlidingWarp.WarpFastRows | src/core/gpu_kernel/kernels_impl.h:105-109 | a warp with its lanes together covers the tile, row sums reduced by shuffles |
| SlidingWarp.WarpIteration | src/core/gpu_kernel/kernels_compute.h:363-488 | one iteration of a whole warp contributes exactly the cells of its rows |
| SlidingWarp.UpdateWarpRows | src/core/gpu_kernel/kernels_compute.h:157-169 | 32 lanes' row sums, shuffled and added by lane 0, add exactly the warp's cells to each row |
| SlidingWarp.WarpRowGathers | src/core/gpu_kernel/kernels_compute.h:160-164 | what the shuffles leave in lane 0 has gathered the warp's whole row |
| SlidingWarp.UniformWarpsIff | src/core/gpu_kernel/kernels_impl.h:101-103 | in every tile all 32 lanes of every warp take the same path if and only if the band does not end inside a warp of a block that has a fast tile |
| SlidingWarp.LowExclusionIsUniform | src/core/gpu_kernel/kernels_impl.h:101-103 | no warp is split when the upper exclusion zone is at most a tile height plus one |
| SlidingWarp.SplitWarpExample | src/core/gpu_kernel/kernels_impl.h:101-103 | a launch in which lane 0 of a warp takes the fast path and lane 31 does not |
| SlidingTile.DoIterationFast | src/core/gpu_kernel/kernels_compute.h:363-488 | the window mirrors shared memory at the current offset, every column accumulator is flushed exactly once, after its last contribution, and the row results are those of the thread's diagonals |
| SlidingTile.DoBatch | src/core/gpu_kernel/kernels_compute.h:443-474 | a batch of rows, its row results, and the column flush of what it completes |
| SlidingTile.SlideWindow | src/core/gpu_kernel/kernels_compute.h:413-442 | sliding and refilling at offset local_col + j*UR + DPT keeps the window a mirror of shared memory |
| SlidingTile.Update | src/core/gpu_kernel/kernels_compute.h:226-285 | flushing with a snapshot check is the plain merge of every element in the stretch and of no other |
| SlidingTile.ColumnsComplete | src/core/gpu_kernel/kernels_compute.h:465-483 | a flushed accumulator has seen every row of the iteration that has a cell in its column |
| SlidingWindow.DoRowEdge | src/core/gpu_kernel/kernels_compute.h:529-613 | one checked row contributes exactly the in-range cells of the thread's diagonals |
| SlidingWindow.DoRow | src/core/gpu_kernel/kernels_compute.h:309-341 | one row of the fast path: next covariances, column accumulators and row result |
| SlidingWindow.MergeToColumn | src/core/gpu_kernel/kernels_compute.h:185-224 | each distance goes to the accumulator of its own column |
| SlidingWindow.MergeToRow | src/core/gpu_kernel/kernels_compute.h:74-98 | the row result gathers the thread's whole row |
| SlidingWindow.MaxDist | src/core/gpu_kernel/kernels_compute.h:33-52 | the maximum and where it is, or -2, for any width and with NaNs |
| SlidingWindow.FastGuardsHold | src/core/gpu_kernel/kernels_impl.h:101-103 | on a fast tile every check of the edge path passes |
| SlidingWindow.StaleCheckIsSafe | src/core/gpu_kernel/kernel_gpu_utils.h:433-441 | a snapshot no larger than the word never suppresses an update that matters |
| CpuKernel.Launch | src/core/cpu_kernel/cpu_kernels.cpp:407-440 | a launch gathers exactly the cells of its band into every column and row, each once, but for the batches a negative threshold drops, or does nothing when the exclusion zones leave no diagonal |
| CpuKernel.DoTile | src/core/cpu_kernel/cpu_kernels.cpp:315-352 | whatever the fast/slow split, the unroll width and the threshold, every cell of the band is visited once; a row sum ends too high by exactly its dropped batches |
| CpuKernel.DoBlock | src/core/cpu_kernel/cpu_kernels.cpp:323-351 | one block of diagonals: full-width rows while they fit, then clipped ones |
| CpuKernel.DoRow | src/core/cpu_kernel/cpu_kernels.cpp:271-313 | one row of a block, on either handler |
| CpuKernel.HandleRow | src/core/cpu_kernel/cpu_kernels.cpp:241-269 | the new covariances, the column updates and the row update of one row |
| CpuKernel.UpdateRowwise | src/core/cpu_kernel/cpu_kernels.cpp:218-235 | the row element gathers the batch, and is raised by exactly its sum if the second threshold drops it |
| CpuKernel.UpdateColumnwise | src/core/cpu_kernel/cpu_kernels.cpp:206-214 | each column element takes in its own cell and no other |
| CpuKernel.ComputeCorr | src/core/cpu_kernel/cpu_kernels.cpp:249-258 | the batch holds the cells' correlations, NaNs masked |
| CpuKernel.UpdateCov | src/core/cpu_kernel/cpu_kernels.cpp:267-268 | the in-place update is the covariance recurrence |
| CpuKernel.ReduceRowFast | src/core/cpu_kernel/cpu_kernels.cpp:134-152 | the halving reduction returns the maximum and an index that attains it, for any power-of-two width |
| CpuKernel.ReduceRow | src/core/cpu_kernel/cpu_kernels.cpp:193-202 | on either reduction the first element becomes the batch's maximum or thresholded sum |
| CpuKernel.MaxCoeff | src/core/cpu_kernel/cpu_kernels.cpp:172-180 | the maximum of a batch and where it is |
| CpuKernel.RowGathers | src/core/cpu_kernel/cpu_kernels.cpp:228-233 | the reduced batch updates a row element as if its cells had been merged one by one |
| CpuKernel.RowSumExactIff | src/core/cpu_kernel/cpu_kernels.cpp:228-233 | over the batches correlations can form, thresholding a batch's sum a second time is harmless if and only if the threshold is not negative or below minus the unroll width |
| CpuKernel.NegativeThresholdDropsARow | src/core/cpu_kernel/cpu_kernels.cpp:228-233 | for every other threshold, a batch of correlations that is selected and then lost |
| CpuKernel.RowExcessSign | src/core/cpu_kernel/cpu_kernels.cpp:228-233 | what a row sum is too high by is never negative, and zero exactly when no batch of its own is dropped |
| CpuKernel.NoExcess | src/core/cpu_kernel/cpu_kernels.cpp:228-233 | with a threshold that is not negative, or below minus the unroll width, no row of correlations that are at least -1 drops anything |
| Profiles.TreeReduceGathers | src/core/gpu_kernel/kernels_compute_shfl.h:379-421 | a tree reduction gathers the cells of all its leaves |
| Profiles.GatherCombine | src/core/gpu_kernel/kernel_gpu_utils.h:416-441 | folding a partial accumulator in is the same as merging its cells directly |
| Profiles.GatherOne | src/core/cpu_kernel/cpu_kernels.cpp:80-95 | merging one cell extends what has been gathered by that cell |
| Profiles.GatheredValueUnique | src/core/cpu_kernel/cpu_kernels.cpp:80-95 | what has been gathered does not depend on the order of the cells; only the index may, on a tie |
| Statistics.CovarianceIsExact | src/core/cpu_kernel/cpu_kernels.cpp:267-268 | every cell a kernel can reach carries the centred dot product of its two subsequences |
| Statistics.CovarianceStep | src/core/cpu_stats.cpp:157-160 | one update with df and dg is one step down the diagonal, exactly |
| Statistics.CorrelationIsPearson | src/core/cpu_kernel/cpu_kernels.cpp:249 | covariance times both inverse norms is the Pearson correlation |
| Statistics.CorrelationRange | src/core/cpu_kernel/cpu_kernels.cpp:67-69 | a correlation lies in [-1, 1], so the sentinel -2 hides none |
| CpuStats.MovingMean | src/core/cpu_stats.cpp:50-75 | however each rounded sum is rounded, main part plus error is the exact window sum at every step, so the means are exact |
| CpuStats.BruteForceMovingMean | src/core/cpu_stats.cpp:31-41 | the brute-force means |
| CpuStats.FastSumOfSquaredDifference | src/core/cpu_stats.cpp:103-120 | the constant-time update equals the brute-force sum for every input and window |
| CpuStats.BruteForceSumOfSquaredDifference | src/core/cpu_stats.cpp:85-97 | the brute-force sums |
| CpuStats.SquaredDifferenceStep | src/core/cpu_stats.cpp:103-120 | the identity behind the constant-time update |
| CpuStats.ConvertNonFiniteToZero | src/core/cpu_stats.cpp:11-29 | non-finite samples become zero, and a window is marked exactly when it holds one |
| CpuStats.ComputeStatistics | src/core/cpu_stats.cpp:123-163 | means, inverse norms, update series and the list of windows without a norm |
| CpuStats.ComputeNorms | src/core/cpu_stats.cpp:140-155 | a window has no norm exactly when it is marked or its squared differences are at most 1e-13 |
| CpuStats.ComputeDiffs | src/core/cpu_stats.cpp:157-160 | the two update series |
| CpuStats.ComputeQT | src/core/qt_helper.cpp:49-71 | the rolling-mean seed is the centred dot product of the first row, in every entry |
| Tiling.GetTiles | src/core/SCAMP.cpp:25-90 | the queue enumerates the upper block triangle or the whole grid without duplicates |
| Tiling.SelfJoinTiles | src/core/SCAMP.cpp:34-43 | diagonals of the inner triangle, then the last column |
| Tiling.InnerTiles | src/core/SCAMP.cpp:45-61 | upper then lower diagonals of the grid without its last row and column |
| Tiling.EdgeTiles | src/core/SCAMP.cpp:63-87 | corner, alternating edges, leftovers |
| Tiling.MakeOpInfo | src/common/common.cpp:53-73 | the adjusted tile is larger than a window, and so than the exclusion zone |
| Tiling.OnlyHomeEvaluates | src/core/tile.cpp:12-42 | only the tile that holds a pair evaluates it |
| Tiling.EvaluationsByHome | src/core/SCAMP.cpp:25-90 | how often a queue evaluates a pair is how often it holds the pair's own tile |
| Coverage.SelfJoinCoverage | src/core/tile.cpp:12-42 | a self-join evaluates exactly the pairs with 4 (j - i) >= w, that is j - i >= ceil(w/4), and a sum counts each once |
| Coverage.SelfJoinFullTile | src/core/tile.cpp:12-42 | the two halves of an off-diagonal tile meet the exclusion zone exactly |
| Coverage.SelfJoinDiagonalTile | src/core/tile.cpp:12-42 | a diagonal tile evaluates its pairs outside the zone once |
| Coverage.AbJoinCoverage | src/core/tile.cpp:48-73 | an unaligned join evaluates every pair, and a sum counts each once |
| Coverage.AlignedJoinCoverage | src/core/tile.cpp:48-142 | an aligned local join of equally many subsequences evaluates exactly the pairs at least a quarter of the window apart, on either side, and a sum counts each once |
| Coverage.FullTileExactIff | src/core/tile.cpp:48-142 | a full tile of an aligned join, with or without positions in a larger one, evaluates exactly the pairs that are no trivial matches there if and only if its corner is on the diagonal, one tile off, or too far off to meet the zone |
| Coverage.GridAligned | src/core/tile.cpp:84-90 | that is so for every full tile of a join whose own offset in the larger join is a multiple of the tile size |
| Coverage.AlignedJoinAgreesWithSelfJoin | src/core/tile.cpp:44-142 | such a join of a series with itself compares what the self-join compares |
| WorkersProgress.FinalProfile | src/core/SCAMP.cpp:97-169 | for any number of workers and any interleaving of pops, unlocked snapshot reads and merges, columns and kept rows each under the lock of their own profile, every element whose copies are harmless ends as if each of its cells had been merged exactly once, plus the excess of its tiles |
| WorkersProgress.NeverStuck | src/core/SCAMP.cpp:97-169 | until all workers have left some worker can always go on |
| WorkersProgress.RunsAreBounded | src/core/SCAMP.cpp:97-169 | every run is bounded by a rank of its first state |
| WorkersProgress.StepLowersRank | src/core/SCAMP.cpp:97-169 | every step lowers that rank |
| Workers.StepKeepsInv | src/core/SCAMP.cpp:97-169 | each of the nine kinds of step keeps the invariant |
| Workers.RunKeepsInv | src/core/SCAMP.cpp:97-169 | the invariant holds in every reachable state |
| Workers.StoreKeepsProfileOk | src/common/profile.cpp:202-222 | a locked merge adds exactly one element's cells, and values never go down |
| Workers.LoadedSlotsDiffer | src/common/profile.cpp:202-222 | with one lock per profile, no two workers are between the load and the store of the same element |
| Workers.LocksAreApart | src/core/tile.cpp:552-562 | a merge into one profile can start exactly when that profile is not locked, whoever merges into the other |
| Workers.ResultFromSnapshot | src/core/tile.cpp:333-346 | a tile run from an admissible snapshot, taken from the slot it merges into or not, still gives an admissible result |
| Workers.CopyIsOk | src/core/tile.cpp:333-360 | a copy from a harmless place never beats the slot it will be merged into |
| WorkersProgress.CopiedValueArrives | src/core/tile.cpp:333-360 | a value that is in the slot a queued tile copies from ends up in the slot the copy is merged into |
| WorkersProgress.CopyLeaks | src/core/tile.cpp:348-360 | some run carries another slot's maximum into a slot that is copied from it |
| Workers.MergeGathers | src/common/profile.cpp:5-25 | an index is rebased exactly once: a stale entry never beats the current one |
| AtomicMax.FinalWordIsMaximum | src/core/gpu_kernel/kernel_gpu_utils.h:421-431 | the final pair is the initial one or one whole proposal, and its value is the maximum |
| AtomicMax.ValueNeverDecreases | src/core/gpu_kernel/kernel_gpu_utils.h:421-431 | the stored value never goes down |
| AtomicMax.RunsAreBounded | src/core/gpu_kernel/kernel_gpu_utils.h:421-431 | every thread finishes although a successful swap re-enters the loop |
| AtomicMax.NeverBlocked | src/core/gpu_kernel/kernel_gpu_utils.h:421-431 | a thread that is not done can always take a step |
| AtomicMax.StepKeepsInv | src/core/gpu_kernel/kernel_gpu_utils.h:421-431 | every step keeps the word whole and the threads' views admissible |
| MatchMerge.Profile.MatchMerge | src/common/profile.cpp:67-110 | every column keeps the K best of old contents and batch, no other column changes, and its threshold becomes the largest correlation that had to leave its queue, if one had to |
| MatchMerge.Profile.MergeColumn | src/common/profile.cpp:75-108 | the merge of one column's stretch of the batch, with its threshold |
| MatchMerge.TakeBest | src/common/profile.cpp:81-98 | candidates are taken in order until the first that cannot improve the queue; the best of those displaced is remembered |
| MatchMerge.SkipRest | src/common/profile.cpp:100-103 | the rest of the column's stretch is skipped and was useless |
| MatchMerge.Offer | src/common/profile.cpp:85-97 | one candidate offered to a bounded queue |
| MatchMerge.ThresholdIsSafe | src/common/profile.cpp:104-107 | ignoring later candidates at or below such a threshold cannot change the K best |
| MatchMerge.ReplaceWorst | src/common/profile.cpp:89-97 | replacing the worst of a full queue by a better candidate keeps the K best |
| MatchMerge.IgnoreIsSafe | src/common/profile.cpp:85-88 | a candidate no better than the worst of a full queue can be ignored |
| DistributedJob.RunJob | src/distributed/distributed_job.cpp:60-209 | in any run of calls on the tiles that `MakeTiles` lays out, those tiles keep their places and keep covering what the job needs, every tile is handed out at most five times (MAX_TILE_RETRIES + 2), and the completed count is the finished tiles plus the late failure reports, of which each follows a result of its own for the same tile |
| DistributedJob.HandoutsAreBounded | src/distributed/distributed_job.cpp:85-125 | the bound holds in every state that satisfies the invariant |
| DistributedJob.CompletedIffNoLostReport | src/distributed/distributed_job.cpp:203-208 | the completed count is the number of finished tiles if and only if no failure report ever named a finished tile |
| DistributedJob.LateReportMergesTwice | src/distributed/distributed_job.cpp:76-81 | a concrete run in which one late report makes a tile merge and count twice |
| DistributedJob.Job.FetchReadyTile | src/distributed/distributed_job.cpp:85-125 | which tile is handed out, with which timeout (half the estimate on the diagonal of a self-join, at least 10) and whether it keeps its rows, and when none is |
| DistributedJob.Job.CleanupFailedTiles | src/distributed/distributed_job.cpp:271-291 | failed tiles are requeued until one has no retry left; the boolean is true when none had |
| DistributedJob.Job.CombineProfile | src/distributed/distributed_job.cpp:127-209 | a result is accepted, and merged once, exactly for a running tile whose height, width, start row and start column it names, with a first profile of the tile's width and, wherever the tile keeps its rows, so always off the diagonal of a self-join, a second one of its height |
| DistributedJob.Job.ServeTile | src/distributed/distributed_job.cpp:85-209 | a tile that is handed out and comes back with its own place and profiles of its own size is accepted and finished |
| DistributedJob.Job.SetTileFailed | src/distributed/distributed_job.cpp:76-81 | a failure report fails any existing tile, whatever its state |
| DistributedJob.Job.CheckTimeTile | src/distributed/distributed_job.cpp:7-19 | exactly the running tiles that have used up their time fail |
| DistributedJob.Job.IsDone | src/distributed/distributed_job.cpp:60-73 | done exactly when found done before or all tiles are finished |
| DistributedJob.Job.HasWork | src/distributed/distributed_job.cpp:303-313 | there is work when something is queued; with an empty queue, by the inverted boolean, only when a tile is exhausted and others were requeued |
| DistributedJob.Job.HandOut | src/distributed/distributed_job.cpp:104-123 | the head of the queue starts running |
| DistributedJob.Job.constructor | src/distributed/distributed_job.cpp:254-268 | a new job has every tile ready and queued once |
| DistributedTiles.MakeTiles | src/distributed/distributed_job.cpp:245-267 | the tiles of a job, without duplicates, with their clipped sizes |
| DistributedTiles.CellsArePartitioned | src/distributed/distributed_job.cpp:254-267 | every cell of the matrix, or of its upper block triangle, lies in exactly one tile |
| JobList.Scheduler.ScheduleRoundRobin | src/distributed/job_list.cpp:51-62 | the answer is the first job with work, everything up to it goes to the back, and the list stays a permutation; no answer means that no job has work |
| JobList.Scheduler.CleanupJobs | src/distributed/job_list.cpp:24-39 | exactly the jobs that still run stay in the list, in their order |
| JobList.BoundedBypass | src/distributed/job_list.cpp:51-62 | with a fixed set of jobs, a job that always has work is answered within as many calls as its place in the list |
| JobList.WaitingJobAdvances | src/distributed/job_list.cpp:51-62 | every call that answers another job moves a waiting job forward |
| JobList.RotatedIsPermutation | src/distributed/job_list.cpp:51-62 | rotation keeps the jobs |
| AutotuneCache.RoundTripIffClean | src/core/gpu_kernel/autotune_cache.cpp:164-255 | the cache survives printing and parsing, in any record order, if and only if no device key holds a separator or newline or starts with a comment mark |
| AutotuneCache.CleanRoundTrip | src/core/gpu_kernel/autotune_cache.cpp:164-255 | for clean keys the very same map comes back |
| AutotuneCache.ReadKeysAreClean | src/core/gpu_kernel/autotune_cache.cpp:164-219 | no text whatever can make the parser produce another key |
| AutotuneCache.RecordRoundTrip | src/core/gpu_kernel/autotune_cache.cpp:184-217 | one printed record reads back as itself |
| AutotuneCache.Cache.Save | src/core/gpu_kernel/autotune_cache.cpp:242-255 | what is printed for a given order of the records |
| AutotuneCache.Cache.ParseStream | src/core/gpu_kernel/autotune_cache.cpp:164-219 | blank and comment lines, the header, and every record or error, line by line |
| AutotuneCache.Cache.ReadRecord | src/core/gpu_kernel/autotune_cache.cpp:184-215 | one record line, or which error it is |
| AutotuneCache.RecordErrors | src/core/gpu_kernel/autotune_cache.cpp:184-215 | which of the four errors a line is, in their order of precedence, or which field is which part of the record |
| AutotuneCache.HeaderDecides | src/core/gpu_kernel/autotune_cache.cpp:167-182 | a text without a line of content changes nothing, one with another header empties the cache, and all lines after the header are records |
| AutotuneCache.FirstErrorDecides | src/core/gpu_kernel/autotune_cache.cpp:184-219 | the outcome is the error of the first bad record with its line number, or none |
| AutotuneCache.KnownProfileTypes | src/core/gpu_kernel/autotune_cache.cpp:44-67 | the nine profile type names |
| AutotuneCache.KnownPrecisions | src/core/gpu_kernel/autotune_cache.cpp:69-82 | the five precision names |
| AutotuneCache.Cache.SplitN | src/core/gpu_kernel/autotune_cache.cpp:30-40 | the fields getline delivers, a trailing empty one dropped |
| AutotuneCache.Cache.LoadFromString | src/core/gpu_kernel/autotune_cache.cpp:148-152 | loading replaces the entries |
| AutotuneCache.ParseProfileTypeName | src/core/gpu_kernel/autotune_cache.cpp:84-99 | the enumerator with that name, if there is one (`KnownProfileTypes` lists them) |
| AutotuneCache.ParsePrecisionTypeName | src/core/gpu_kernel/autotune_cache.cpp:101-111 | the precision with that name, if there is one (`KnownPrecisions` lists them) |
| AutotuneCache.NamesAreDistinct | src/core/gpu_kernel/autotune_cache.cpp:44-82 | no two enumerators share a name |
| CacheText.GetLine | src/core/gpu_kernel/autotune_cache.cpp:35-37 | the next piece of a stream |
| CacheText.StoiOfPrinted | src/core/gpu_kernel/autotune_cache.cpp:206-211 | reading a printed 32-bit integer gives it back |
| CacheText.StoiReads | src/core/gpu_kernel/autotune_cache.cpp:206-211 | what is read from any text: white space, a sign or none and digits up to something else; out of 32 bits or without digits it is an error |
| CacheText.PrintedForm | src/core/gpu_kernel/autotune_cache.cpp:245-255 | integers are printed without leading zeros, with a sign exactly when negative |
| CacheText.PiecesAreClean | src/core/gpu_kernel/autotune_cache.cpp:30-40 | no field holds the separator |

## Left out

- JoinProfile.SelfJoinProfile: takes a tile's execution as one step between its snapshot and its merge; `JoinStep.ComputeTile` is that step carried out. It has no promise for a GPU tile whose warps split, or whose grid misses part of its band.
- JoinProfile.SeparateProfiles: covers aligned joins only when local and with equally many subsequences on both sides; `Coverage.FullTileExactIff` says for full tiles of any other aligned join whether they meet the zone, and shorter last tiles are not covered.
- JoinProfile.KeptRowsExactIff: is stated for data in which the last subsequence has a correlation with the first; without one the wrong copy may happen to be harmless.
- Profiles.GatheredValueUnique: does not say which of several tied indices is kept.
- ShflTile.Block.DoTileShfl: leaves out the early exit of the match-producing profile types and models 32-bit positions as unbounded integers.
- SlidingBlock.Block.DoTile: asks that no warp is split where its rows are summed, since a shuffle that names absent lanes has no defined result; leaves out the same as the other kernel.
- SlidingTile.DoIterationFast: starts every accumulator with index 0, where the kernel leaves the register unset until a value wins.
- GpuLaunch.Launch: runs the blocks of a grid in one order; they meet in atomic maxima and additions only.
- GpuLaunch.ExecuteTile: is given the first covariances of both halves, which the GPU computes by FFT, and asks that no warp is split where rows are summed.
- GpuLaunch.ExecuteHalf: asks the same of its one launch.
- SlidingBlock.Block.RunTile: asks the same of its block.
- HandOff.ReadsPredecessor: identifies a published value by its warp and row; `ReadsIncoming` and `ShflKernel.ShuffleKeepsCov` say which covariance it is.
- AtomicMax.FinalWordIsMaximum: models the pair of value and index as one word; the integer tricks of the single-value maximum are not modelled.
- MatchMerge.Profile.MatchMerge: takes batches already sorted; sorting them, the threshold update after an overflow and the retry loop around it are not modelled.
- DistributedJob.RunJob: orders calls by the job's mutex; the merge of a tile's profile into the job's is only counted.
- DistributedTiles.MakeTiles: divides exactly where the code takes the ceiling of a quotient of doubles.
- AutotuneCache.Cache.Save: prints to a string in a given order of the records; files, directories and the rename are not modelled.
- Rounding: results are exact over the reals except in `CpuStats.MovingMean`, where every main sum may be rounded arbitrarily.
- Matrix summaries, all-neighbours kernels, frequency and KNN profile types.
- The alternative formula of the highest precision mode and its combined statistics.
- The FFT that seeds a GPU worker's first row, GPU sorting, kernel selection, vectorised loads.
- The gRPC server, client and worker, protobuf conversion, command line, Python bindings, benchmarks and plotting.
- Name printers for logs, argument validation and default kernel configurations: single-branch facts.
