# TransFormers-Fusion: memory, quantizers, kernels and server protocol

This project models the parts of TransFormers-Fusion whose correctness does not show in any single
function body, and proves what they guarantee over all inputs, all runs or all interleavings.
`dafny verify dfyconfig.toml` checks everything.

**Memory** (`include/quant/memory.h`). `BumpAllocator` is the lock-free `allocate` of `MemoryPool`
and `StackAllocator` as a step machine: any number of threads, every load and compare-and-swap a
step of its own, weak failures at any time, stale relaxed loads. `BumpSafety` draws the conclusions
for every schedule, `BumpAddresses` those about alignment, `BumpWitnesses` shows where they end,
`BumpProgress` says what the retry loops achieve, and `AllocatorObjects` is the object updated in
place by its retry loops, each operation tied to a run of the machine. `BufferProtocol` and
`BufferSafety` do the same for the reference-counted `Buffer`, with increment, decrement,
deallocation and deletion of the counter as separate steps, `BufferContents` says what each finished
operation refers to; `BufferObjects` is the class with its fields and shared counter. `PoolRegistry`
is the per-thread registry. `Alignment` and `Bits` treat the mask arithmetic of 64-bit words.

**Codebooks and routing** (`bench/bench_poc_benchmark.cpp`). `Lloyd`, `LloydTraining` and
`PinnedCodebook` hold the two Lloyd-Max training loops with their optimisation theorems,
`LloydChain` what they do from the first round to the last, `ColumnWise` the column-wise quantizer
built on them, `Importance` the sort-and-assign routing of blocks to formats and `RoutingScores`
what its scores mean. `FormatMix` is `compute_format_mix` (`src/codec/format_planner.cpp`), which
plans the routing, `MixCounts` what it plans, and `TargetWidth` says how the width achieved follows
the target.

**Formats** (`bench/bench_format_comparison.cpp`, `engines/quant/quantize.cpp`). `Half` is the
bit-level conversion between binary32 and binary16 (section 3.4 of IEEE 754-2008), on naturals
scaled so that every value is an exact integer; `Q80` the Q8_0 round trip, `BlockFormats` the INT8
and Q6_K ones; `Affine` the 8-bit affine quantizer. `Shifts` and `Reals` are shared arithmetic.

**Training kernels** (`inferno/inferno_training_sim.cpp`). `Kernel`: eight lanes and a tail, the
adjoint, the descent.

**Server text protocol** (`tools/quant_server.cpp`, `include/quant/http_parse.h`). `HttpRead` is the
receive loop with `parse_content_length`, `TokenArray` the printer and parser of token arrays,
`JsonEscape` the string escaping, `Text` the string functions they use.

**Scheduler** (`inferno/inferno_scheduler.cpp`). `Scheduler` is the concurrent machine,
`SchedulerBatches` what a visit to `process_queue` runs, `SchedulerObject` the object used by one
thread.

**Indices** (`bench/bench_gpt2_inference.cpp`, `bench/bench_quality.cpp`, `src/codec/codebook.cpp`).
`Nibble`: two four-bit indices to a byte. `NearestSearch`: the search that chooses an index.
`CodebookHalf`: the half conversions of `CodebookQ4`, which truncate. `Codebook4`: `CodebookQ4`,
trained, stored through them and searched. `WeightCodec`: `quantize_weight`, which puts these
together, and its decoder.

Loops of the source are methods with loops, proved equal to a specification function; what the
source promises is then proved of that function. All arithmetic on floats is over the reals, except
in `Half` and `CodebookHalf` and for what passes through binary16: the scale of Q8_0 and the
codewords of `CodebookQ4`.

## Where the code does less than it seems to

Each of these is a lemma with a concrete input, next to the exact condition under which the code
does what it should.

- The bound checks `old_offset + aligned > capacity_` and `offset + count > block_.size` add machine
  words. They are sound exactly when the sum fits a word (`BumpAllocator.BoundCheckExact`,
  `BufferProtocol.SliceCheckExact`); otherwise bytes beyond the block are handed out
  (`BumpWitnesses.WrappedRequestEscapes`, `BumpWitnesses.BoundsHoldIff`), or the same bytes twice
  (`BumpWitnesses.WrappedReservationOverlaps`), or a slice lies outside its block
  (`BufferProtocol.WrappedSliceEscapes`, `BufferObjects.Buffer.Slice`). The theorems about runs hold for runs without such a sum.
- The alignment argument of `allocate` rounds the size and not the offset. An address is a multiple
  of the alignment asked for exactly if base address plus bytes in use already was; for a 64-aligned
  base and alignments up to 64, exactly if the bytes in use were
  (`BumpAddresses.GrantHonoursAlignmentIff`, `BumpWitnesses.MixedAlignmentsMisalign`,
  `BumpWitnesses.WideAlignmentMisaligns`).
- Below the normal range of binary16 the Q8_0 scale can be rounded so far down that the largest
  weight is clamped, or to 0, when the whole block comes back as 0 (`Q80.CoarseScaleFails`,
  `Q80.FaintScaleFails`); when a weight comes back within half a step is `Q80.Q80WithinHalfStepIff`.
- `CodebookQ4::half_to_float` counts the exponent of a subnormal in the wrong direction and keeps
  three bits of its shifted mantissa, so of the 1023 positive subnormals only 2^-19 is read right
  (`CodebookHalf.WidenExactIff`, `CodebookHalf.KeptIsTruncationIff`). Its `float_to_half` turns finite
  values of 65536 and more into NaN unless they are powers of two (`CodebookHalf.OverflowIsNaNIff`).
- `quantize_weight` trains a codebook for every 1024 weights and keeps only the last one; all
  tensors of a length decode with the codebooks their indices refer to exactly if that length fits
  one block (`WeightCodec.DecodesAsMeantIff`, `WeightCodec.MoreBlocksFail`).
- The comment at `tools/quant_server.cpp:524-527` announces 413 beyond 64 KB. A longer message is
  refused so under every segmentation exactly if its body alone exceeds the cap, or its header
  section does by more than a segment can pass over (`HttpRead.RefusedIff`). A header and body
  within the cap each, but not together, are cut off at 64 KB and passed on as if complete when they
  arrive in full segments (`HttpRead.CutOffAtCap`, `HttpRead.FullBodyIsCutOff`).
- `mix_quantize_dequantize` gives the blocks planned for more than twelve bits to the lowest tier,
  and loses a block to it when rounding plans one too many. A larger target gives no smaller width
  exactly if it does not lower the number of blocks with four bits or more
  (`TargetWidth.LargerTargetIff`, `TargetWidth.BeyondTwelve`, `TargetWidth.OneBlockAtSeven`).

In `ThreadLocalPoolRegistry` the branch for a pool of an older generation is never reached
(`PoolRegistry.Registry.GetOrCreatePool`).

## Model

| member | source | states |
|---|---|---|
| `Bits.PowerOfTwoTest` | include/quant/memory.h:188 | of a nonzero word `a & (a - 1)` is zero exactly if it is a power of two |
| `Alignment.AlignSizeExact` | include/quant/memory.h:187-192 | on machine words the mask form accepts exactly the power-of-two alignments whose rounding does not overflow, and then yields the least multiple of the alignment not below the request |
| `BumpAllocator.BoundCheckExact` | include/quant/memory.h:199 | the machine-word bound check protects every offset of the block if and only if capacity plus size fits a word |
| `BumpAllocator.StepKeepsInv` | include/quant/memory.h:194-211 | every atomic step of every thread keeps the allocator's invariant, spurious failures and stale loads included |
| `BumpAllocator.RunKeepsInv` | include/quant/memory.h:194-221 | the invariant holds after every schedule whose requests do not wrap |
| `BumpSafety.LiveAllocationsAreDisjoint` | include/quant/memory.h:194-211 | after every schedule of any number of threads, marks and restores included, the live intervals are pairwise disjoint, inside the block, and their lengths add up to exactly the offset |
| `BumpSafety.PoolAllocationsAreDisjoint` | include/quant/memory.h:194-221 | without restores the same holds of everything handed out since the last reset |
| `BumpSafety.PeakIsExactWhenQuiet` | include/quant/memory.h:204-209 | the peak never exceeds the largest end offset reached since reset, and equals it whenever no thread is between its reservation and the end of its peak loop |
| `BumpSafety.FailureMeansFull` | include/quant/memory.h:198-199 | a reservation gives up exactly when the size does not fit above the offset it read, and then it does not fit above the largest end reached either |
| `BumpSafety.PoolFailureMeansFull` | include/quant/memory.h:198-199 | without restores null is returned only when the request does not fit in what is left at that moment, however stale the offset read |
| `BumpSafety.MarkedAllocationsSurvive` | include/quant/memory.h:276-282 | while a mark stays in place, allocations live at it stay live and everything newer lies at or above the marked offset |
| `BumpSafety.NothingOverlapsMarkedAllocations` | include/quant/memory.h:276-301 | nested mark and restore: nothing handed out after a mark, restored or not, overlaps an allocation live at the mark |
| `BumpAddresses.ReturnedAddressesAreAligned` | include/quant/memory.h:194-211 | if all calls of a run use multiples of a and the base is 64-aligned, every returned address is a multiple of a |
| `BumpAddresses.ThreadsRemember` | include/quant/memory.h:194-203 | until its reservation a thread works with the size and alignment of the last request it made in the schedule |
| `BumpAddresses.GrantHonoursAlignmentIff` | include/quant/memory.h:194-210 | at any moment of any schedule the address granted is a multiple of the alignment its own request asked for if and only if base plus the live bytes was, and for a 64-aligned base and alignments up to 64 if and only if the live bytes were |
| `BumpAddresses.PoolAddressIff` | include/quant/memory.h:194-210 | in a whole run of a pool an address lies behind exactly the rounded sizes granted before it, so these decide its alignment |
| `BumpAddresses.FallingAlignmentsAreHonoured` | include/quant/memory.h:194-210 | in a run of a pool whose alignments are granted in falling order every request of at most 64 gets the alignment it asked for |
| `BumpProgress.NextExchangeWins` | include/quant/memory.h:195-203 | in every reachable state, after a failed exchange that saw the offset the next one can win, and grants exactly the bytes behind the offset; null exactly if they do not fit |
| `BumpProgress.NextPeakExchangeWins` | include/quant/memory.h:204-209 | after a failed exchange that saw the peak the next one leaves the maximum of peak and end |
| `BumpProgress.StaleOffsetsAreSeen` | include/quant/memory.h:195-203 | the runs spoken of are all those in which a load or failed exchange returns any value the offset had since the last reset |
| `BumpWitnesses.MixedAlignmentsMisalign` | include/quant/memory.h:194-211 | a schedule from an empty allocator at address 64 in which a request for 64 bytes at alignment 64 is granted at address 72 |
| `BumpWitnesses.WideAlignmentMisaligns` | include/quant/memory.h:194-211 | a schedule from an empty allocator at address 64 in which a request at alignment 128 is granted at address 64 |
| `BumpWitnesses.WrappedRequestEscapes` | include/quant/memory.h:199-201 | for every capacity and every accepted request whose rounded size does not fit a machine word together with it, a schedule from the empty allocator that is granted bytes beyond the block |
| `BumpWitnesses.BoundsHoldIff` | include/quant/memory.h:194-211 | requests of up to a limit no smaller than the capacity stay inside the block under every schedule of any number of threads if and only if capacity plus limit fits a machine word |
| `BumpWitnesses.WrappedReservationOverlaps` | include/quant/memory.h:199-201 | a schedule of two threads from an empty allocator, with a request that wraps, after which the block's only 64 bytes are handed out twice |
| `AllocatorObjects.StackAllocator.constructor` | include/quant/memory.h:240-243 | a new allocator has handed out nothing |
| `AllocatorObjects.StackAllocator.Allocate` | include/quant/memory.h:284-301 | succeeds exactly if the request is well formed and fits, returns the old offset's address, moves offset and peak accordingly, changes nothing on failure; the whole call is a run of the step machine |
| `AllocatorObjects.StackAllocator.ReserveRange` | include/quant/memory.h:287-293 | the reserve loop claims exactly the range at the offset found, however often the exchange fails spuriously |
| `AllocatorObjects.StackAllocator.RaisePeakTo` | include/quant/memory.h:294-299 | the peak loop leaves the maximum of the old peak and the new end |
| `AllocatorObjects.StackAllocator.TakeMarker` | include/quant/memory.h:276-278 | the marker records the offset and with it the allocations live |
| `AllocatorObjects.StackAllocator.RestoreTo` | include/quant/memory.h:280-282 | brings back offset and live allocations of the marker and leaves the peak |
| `AllocatorObjects.StackAllocator.ResetAll` | include/quant/memory.h:303-306 | gives back everything and forgets the peak |
| `BufferProtocol.SliceCheckExact` | include/quant/memory.h:96-98 | the bound test of slice is sound for every buffer size if and only if offset plus count fits a machine word |
| `BufferProtocol.WrappedSliceEscapes` | include/quant/memory.h:96-106 | a slice with a wrapping sum that is accepted and lies outside its block |
| `BufferProtocol.StepKeepsInv` | include/quant/memory.h:44-142 | every atomic step of construct, copy, move, assign, slice and destroy keeps the counting invariant |
| `BufferProtocol.RunKeepsInv` | include/quant/memory.h:44-142 | the counting invariant holds after every interleaving |
| `BufferSafety.CounterCountsOwners` | include/quant/memory.h:47-61 | in every reachable state a counter equals the number of owning handles, memory and counter are released at most once, and not before the last owner is gone |
| `BufferSafety.NoHandleToFreedBlock` | include/quant/memory.h:96-106 | a handle in use refers to memory still there, inside its block, slices of slices included |
| `BufferSafety.FreedExactlyWhenUnreferenced` | include/quant/memory.h:135-142 | with no operation in progress, a block has been released exactly once if no handle refers to it, and not at all otherwise |
| `BufferSafety.ReleaseStepsAreExclusive` | include/quant/memory.h:135-142 | whoever is about to release memory or counter is the only one, nobody owns the block any more, and memory goes before the counter |
| `BufferSafety.OperationsFinish` | include/quant/memory.h:53-78 | an operation begun on a handle is never stuck: its next step is possible and brings it nearer to its end |
| `BufferContents.CopyRefersToSource` | include/quant/memory.h:47-61 | whatever interleaves with it, a finished copy construction or assignment refers to exactly what its source referred to when it began, and the source still does |
| `BufferContents.MoveTakesFromSource` | include/quant/memory.h:67-78 | a finished move refers to what its source referred to, and the source is null |
| `BufferContents.SliceShowsRange` | include/quant/memory.h:96-106 | a finished slice is null exactly if its source was or the range did not fit; else its i-th byte is byte offset + i of the source, slices of slices included |
| `BufferContents.NewShowsItsBlock` | include/quant/memory.h:119-133 | a new buffer sees all of its block from the first byte on, and none for size 0 |
| `BufferContents.DestroyedIsGone` | include/quant/memory.h:63-65 | a destructor that has finished leaves no handle behind |
| `BufferContents.OperationsCanBegin` | include/quant/memory.h:44-106 | with no operation in progress every operation can begin on any handles |
| `BufferObjects.Buffer.Alloc` | include/quant/memory.h:119-133 | a new block with its counter at 1, or a null buffer for size 0 |
| `BufferObjects.Buffer.Share` | include/quant/memory.h:47-51 | one more owner of the other's block, seen through the given range |
| `BufferObjects.Buffer.Release` | include/quant/memory.h:135-142 | the counter falls by one, and the block is released exactly if this was its only owner |
| `BufferObjects.Buffer.Assign` | include/quant/memory.h:53-61 | the old block loses this owner, the other's gains one, self-assignment changes nothing |
| `BufferObjects.Buffer.TakeFrom` | include/quant/memory.h:67-70 | the fields move over, the other becomes null, no counter changes |
| `BufferObjects.Buffer.MoveAssign` | include/quant/memory.h:72-78 | the old block loses this owner, the other's view moves over unchanged |
| `BufferObjects.Buffer.Slice` | include/quant/memory.h:96-106 | for all machine words: shows exactly the requested bytes as a further owner, or is null if the test refuses them; accepted though they do not fit, they wrap, and the result does not lie in its block |
| `BufferObjects.Buffer.Resize` | include/quant/memory.h:86-94 | keeps the common prefix, leaves the bytes every other buffer shows, lets go of the old block |
| `BufferObjects.Buffer.Resized` | include/quant/memory.h:88-92 | a fresh block whose first bytes are those of this buffer |
| `PoolRegistry.Registry.GetOrCreatePool` | include/quant/memory.h:326-348 | a thread gets its own pool until it releases it, no two threads share one, nothing leaks; the stale-generation branch is dead |
| `PoolRegistry.Registry.GetPool` | include/quant/memory.h:350-357 | the thread's pool if it has one, and that pool is allocated |
| `PoolRegistry.Registry.ReleasePool` | include/quant/memory.h:359-368 | deletes the thread's own pool, once, and no other |
| `Lloyd.FindNear` | bench/bench_poc_benchmark.cpp:134-138 | the search finds the nearest codeword, the first on a tie |
| `Lloyd.NearestCellsAreBest` | bench/bench_poc_benchmark.cpp:124-128 | no assignment of points to codewords has a smaller squared error than the nearest one |
| `Lloyd.MoveToMean` | bench/bench_poc_benchmark.cpp:130 | moving one codeword to its cell's mean lowers the cost by the cell's size times the squared move |
| `Lloyd.IterationDescends` | bench/bench_poc_benchmark.cpp:121-132 | one iteration over any range of cells lowers the distortion by at least the points moved times the squared moves, empty cells and pinned ends included; so it never rises |
| `LloydTraining.Tally` | bench/bench_poc_benchmark.cpp:122-128 | one pass over the data counts and sums every cell |
| `LloydTraining.Iterate` | bench/bench_poc_benchmark.cpp:124-131 | the loop body computes one iteration in place and reports whether a codeword moved by more than 1e-8 |
| `LloydTraining.TrainingDescends` | bench/bench_poc_benchmark.cpp:121-132 | the distortion never rises over a whole training, wherever it stops |
| `LloydTraining.LmTrain` | bench/bench_poc_benchmark.cpp:107-133 | the procedure leaves in the array the codebook the theorems speak of |
| `LloydTraining.LmTrainImproves` | bench/bench_poc_benchmark.cpp:107-133 | on any data the codebook stays within the data's range, is never worse than its starting point, and is exact on constant data |
| `PinnedCodebook.LmTrainPinned` | bench/bench_poc_benchmark.cpp:143-170 | the procedure leaves in the array the pinned codebook the theorems speak of |
| `PinnedCodebook.CellBounds` | bench/bench_poc_benchmark.cpp:157-161 | a cell reaches from above the midpoint below it to the midpoint above it: ties fall to the lower index |
| `PinnedCodebook.IterationKeepsPinned` | bench/bench_poc_benchmark.cpp:162-169 | one iteration keeps 0 = c0 < c1 < ... < 1 strictly, on any data |
| `PinnedCodebook.PinnedTraining` | bench/bench_poc_benchmark.cpp:143-170 | for k of at least 2 the trained codebook is strictly increasing from 0 to 1 and no worse than the uniform grid |
| `PinnedCodebook.GridIsEven` | bench/bench_poc_benchmark.cpp:146-149 | the starting codebook is k - 1 equal steps from 0 to 1 |
| `LloydChain.LmTrainEndsTraining` | bench/bench_poc_benchmark.cpp:111-132 | on data not constant the codebook is the last of a chain of rounds from the seed, each replacing the codeword of every non-empty cell by its mean, as many as allowed or up to the first that moves no codeword by more than 1e-8; so a round or more lowers the distortion by the first round's gain, strictly if an occupied codeword was off its mean |
| `LloydChain.LmTrainPinnedEndsTraining` | bench/bench_poc_benchmark.cpp:146-169 | the same from the even grid, the first and last codeword left alone |
| `LloydChain.TrainingIsUnique` | bench/bench_poc_benchmark.cpp:121-132 | there is only one such chain |
| `LloydChain.SeedBalances` | bench/bench_poc_benchmark.cpp:112-118 | seed 0 is the middle of the range; seed i balances the data weighted by distance from the middle of the i-th of k slices, or is that middle where the weights all but vanish |
| `PinnedCodebook.LookupError` | bench/bench_poc_benchmark.cpp:134-138 | inside [0, 1] the codeword found is within half the widest gap |
| `ColumnWise.Quantize` | bench/bench_poc_benchmark.cpp:176-205 | the three passes leave in every position the value restored from its own column and the common codebook |
| `ColumnWise.ShapeIs` | bench/bench_poc_benchmark.cpp:178 | the columns asked for are used exactly if they divide the length |
| `ColumnWise.ColumnWiseError` | bench/bench_poc_benchmark.cpp:176-205 | every entry comes back within half the widest gap times its column's range, and exactly if and only if its place in the column is a codeword: the column minimum always, the maximum if and only if the range is not below 1e-10 or is itself a codeword |
| `Importance.BlockOfElement` | bench/bench_poc_benchmark.cpp:51-55 | every element lies in exactly one block |
| `Importance.SortBlocks` | bench/bench_poc_benchmark.cpp:59 | each block once, in descending score |
| `Importance.TopCountsFit` | bench/bench_poc_benchmark.cpp:63-64 | planned counts that exceed the blocks are scaled by the exact ratio rounded down and then fit together |
| `Importance.AssignTiers` | bench/bench_poc_benchmark.cpp:75-79 | the three loops give the block of each rank the tier of that rank |
| `Importance.TierSizes` | bench/bench_poc_benchmark.cpp:75-79 | for any counts the top tiers have min(o8, nb) and min(o4, remaining) blocks, the rest all others |
| `Importance.HigherTiersScoreHigher` | bench/bench_poc_benchmark.cpp:59-79 | for any sort, whatever it does with ties, no block of a higher tier scores below one of a lower tier |
| `Importance.WriteBlocks` | bench/bench_poc_benchmark.cpp:81-88 | every block is written whole, and the bits add up element by element |
| `Importance.ElementResult` | bench/bench_poc_benchmark.cpp:82-86 | each output element is what its own block's format made of it |
| `Importance.BitsAreWeighted` | bench/bench_poc_benchmark.cpp:87-89 | the width achieved is the mean of the formats' widths weighted by the lengths assigned |
| `Importance.BitsBetween` | bench/bench_poc_benchmark.cpp:87-89 | and lies between the narrowest and the widest of them |
| `Importance.MixQuantizeDequantize` | bench/bench_poc_benchmark.cpp:49-90 | for a target width the whole procedure yields a sort, the assignment planned for the target, written blocks and a width as the lemmas above describe |
| `Importance.ElementComesBack` | bench/bench_poc_benchmark.cpp:82-88 | every element comes back as its block of 256 does from its format, or unchanged where the format fails |
| `RoutingScores.ScoreIsSignBlind` | bench/bench_poc_benchmark.cpp:55-57 | flipping the signs of weights changes no block's score |
| `RoutingScores.ScoreBetween` | bench/bench_poc_benchmark.cpp:55-57 | a score lies between the least and greatest magnitude of its block |
| `RoutingScores.ScoreRises` | bench/bench_poc_benchmark.cpp:54-57 | a weight's magnitude raised by e raises its own block's score by e over the block's length, and no other |
| `RoutingScores.DominantBlocksRankHigher` | bench/bench_poc_benchmark.cpp:52-79 | a block all of whose weights are longer than all of another's is never in a lower tier |
| `FormatMix.ComputeExtended` | src/codec/format_planner.cpp:71-104 | the loops compute the ten counts the lemmas speak of |
| `FormatMix.ComputeFormatMix` | src/codec/format_planner.cpp:106-122 | the seven counts are the ten folded together |
| `MixCounts.ExtendedCounts` | src/codec/format_planner.cpp:71-104 | between two neighbouring widths each gets its share of the blocks, rounded, the others none, and the last width what is left |
| `MixCounts.MixIs` | src/codec/format_planner.cpp:106-124 | each of the seven counts for every target up to 6, and outside the range |
| `MixCounts.MixIsAbove` | src/codec/format_planner.cpp:106-124 | and for every target above 6 |
| `TargetWidth.CountsAre` | src/codec/format_planner.cpp:71-104 | for every number of blocks and every target, the counts the assignment works with in closed form, after planning, folding and scaling down |
| `TargetWidth.AssignmentIsPlanned` | bench/bench_poc_benchmark.cpp:61-79 | the assignment the procedure makes from the planned, folded and scaled counts is the one the closed-form counts describe, of which the next lemmas speak |
| `TargetWidth.LargerTargetIff` | bench/bench_poc_benchmark.cpp:61-89 | for the same data a larger target gives no smaller width, for all formats whose higher tiers are no narrower, if and only if it does not lower the number of blocks with four bits or more |
| `TargetWidth.UpToTwelve` | src/codec/format_planner.cpp:84-92 | which holds for every larger target up to 12 that is not a tie |
| `TargetWidth.BeyondTwelve` | src/codec/format_planner.cpp:116-121 | beyond 12 that number only falls, from all blocks to none at 16 |
| `TargetWidth.OneBlockAtSeven` | bench/bench_poc_benchmark.cpp:63-64 | a single block has four bits at target 6 and the lowest tier at target 7 |
| `TargetWidth.WidthOfWholeBlocks` | bench/bench_poc_benchmark.cpp:81-89 | with the registry's formats, the width achieved on whole blocks as a function of the target |
| `TargetWidth.RegistryWidthIff` | bench/bench_poc_benchmark.cpp:61-89 | and the exact condition under which a larger target gives no smaller width there |
| `Half.ToHalfIsNearest` | bench/bench_format_comparison.cpp:55-75 | every finite binary32 below overflow becomes a nearest binary16, ties away from zero (section 4.3.1 of IEEE 754-2008), in the normal, subnormal, underflow and carry cases |
| `Half.OverflowExact` | bench/bench_format_comparison.cpp:64-74 | the result is finite exactly below 65520 |
| `Half.OverflowIsInfinity` | bench/bench_format_comparison.cpp:60-68 | from the threshold on the result is exactly the infinity of the input's sign; infinities and NaNs stay what they are |
| `Half.NormalizedKeepsValue` | bench/bench_format_comparison.cpp:85 | the normalising loop keeps the value of a subnormal |
| `Half.ConvertToSingle` | bench/bench_format_comparison.cpp:77-98 | the widening with its loop computes the function the theorems speak of |
| `Half.ToSingleIsExact` | bench/bench_format_comparison.cpp:77-98 | widening keeps the exact value and sign |
| `Half.WidenSpecials` | bench/bench_format_comparison.cpp:91-92 | infinities and NaNs are widened to infinities and NaNs of the same sign |
| `Half.ToHalfUndoesToSingle` | bench/bench_format_comparison.cpp:55-98 | narrowing undoes widening on every finite binary16 |
| `Half.RoundTripIdempotent` | bench/bench_format_comparison.cpp:116-119 | a second round trip changes nothing |
| `Half.RoundTripMonotone` | bench/bench_format_comparison.cpp:116-119 | the round trip keeps the order of values |
| `Half.RoundTripError` | bench/bench_format_comparison.cpp:116-119 | in the normal range of binary16 it is off by at most one part in 2048 |
| `Half.RtFp16` | bench/bench_format_comparison.cpp:116-119 | the array loop makes the round trip of every element |
| `BlockFormats.ClampInactiveIff` | bench/bench_format_comparison.cpp:150-151 | the clamp leaves a code alone if and only if the weight is less than half a step beyond the extreme codes, the step being the one divided by, which replaces a step of 0 |
| `BlockFormats.HalfStepIff` | bench/bench_format_comparison.cpp:149-152 | a reconstruction is within half a step if and only if the weight is at most half a step beyond the extreme codes; of step 0 only the weight 0 comes back |
| `BlockFormats.BeyondIsExtreme` | bench/bench_format_comparison.cpp:150-152 | beyond that span a weight comes back as the extreme code of its side |
| `Reals.RoundTies` | bench/bench_format_comparison.cpp:150 | `lround` takes the integer farther from zero on a tie |
| `BlockFormats.BlocksAreIndependent` | bench/bench_format_comparison.cpp:121-182 | what a position comes back as depends on its own block of 256, or of 16, alone |
| `Q80.StepReaches` | bench/bench_format_comparison.cpp:147-148 | in the normal range of binary16 the rounded scale still reaches beyond the largest weight |
| `Q80.OneIsQuotient` | bench/bench_format_comparison.cpp:147-148 | the conditions are met, for instance, by the scale 1 of a block whose largest weight is 127 |
| `Q80.Q80Error` | bench/bench_format_comparison.cpp:141-155 | whole array, short tail included: where the scale is in that range no code is clamped and each weight is within half a step |
| `Q80.ZerosStay` | bench/bench_format_comparison.cpp:141-152 | a block of zeros comes back as zeros |
| `Q80.Q80BlocksAreIndependent` | bench/bench_format_comparison.cpp:141-155 | what a position comes back as depends on its own block of 32 alone |
| `Q80.Q80WithinHalfStepIff` | bench/bench_format_comparison.cpp:141-155 | at every position of every array, all-zero blocks and scales rounded to 0 included, the weight is within half a step, and its code unclamped, if and only if it lies within the stated multiples of the rounded scale |
| `Q80.StepVanishesIff` | bench/bench_format_comparison.cpp:147-148 | the rounded scale is 0 if and only if the scale is below 2^-25 |
| `Q80.CoarseScaleFails` | bench/bench_format_comparison.cpp:147-152 | an array of one weight, with the scale the code derives, whose code is clamped and which comes back off by more than half a step |
| `Q80.FaintScaleFails` | bench/bench_format_comparison.cpp:147-152 | an array of one positive weight, with the scale the code derives, which comes back as 0 |
| `Q80.RtQ80` | bench/bench_format_comparison.cpp:141-155 | the nested loops write the reconstruction the lemmas speak of, not a number where the scale overflows |
| `BlockFormats.Int8Error` | bench/bench_format_comparison.cpp:129-136 | between minimum and maximum no code needs its clamp, the error is at most 1/510 of the range, the extremes are exact, constant blocks included |
| `BlockFormats.Int8ArrayError` | bench/bench_format_comparison.cpp:122-138 | the bound for every position of every array, with the extremes as the code finds them |
| `BlockFormats.BlockExtremesAreWeights` | bench/bench_format_comparison.cpp:126-129 | of weights up to 1e30 the extremes found are two of the block's weights |
| `BlockFormats.Int8Extremes` | bench/bench_format_comparison.cpp:121-138 | so the least and the greatest of 256 come back exactly |
| `BlockFormats.RtInt8` | bench/bench_format_comparison.cpp:122-138 | the nested loops write that reconstruction |
| `BlockFormats.Q6Error` | bench/bench_format_comparison.cpp:174-180 | at most one step of error, attained by the largest positive weight; the clamp bites exactly from 31 and a half steps on |
| `BlockFormats.Q6ArrayError` | bench/bench_format_comparison.cpp:158-183 | the bound bmax/32 for every position of every array |
| `BlockFormats.Q6Extremes` | bench/bench_format_comparison.cpp:160-182 | a largest magnitude of 16 comes back exactly a 32nd short if positive, and exactly if negative |
| `BlockFormats.RtQ6K` | bench/bench_format_comparison.cpp:158-183 | the nested loops write that reconstruction |
| `Affine.QuantizeTensor` | engines/quant/quantize.cpp:14-43 | bytes and parameters are those the lemmas below speak of; on a size mismatch nothing is written |
| `Affine.Dequantize` | engines/quant/quantize.cpp:80-90 | each byte becomes its level |
| `Affine.ClampNeverActs` | engines/quant/quantize.cpp:38-42 | every rounded position is already between 0 and 255 |
| `Affine.RestoredWithinHalfStep` | engines/quant/quantize.cpp:29-43 | every entry comes back within half of inv_scale |
| `Affine.RestoredWithinRange` | engines/quant/quantize.cpp:21-43 | that is a 510th of the range, and the minimum itself where the range is below 1e-12 |
| `Affine.ExtremesAreExact` | engines/quant/quantize.cpp:21-36 | the minimum always comes back exactly; the maximum exactly if the range is at least 1e-12 or is zero |
| `Affine.QuantizerIsProjection` | engines/quant/quantize.cpp:14-43 | quantizing the dequantized tensor gives the same parameters and the same bytes, degenerate and empty tensors included |
| `Kernel.LaneDot` | inferno/inferno_training_sim.cpp:81-95 | eight lanes and a tail sum to the plain inner product, for every length |
| `Kernel.DotIsInnerProduct` | inferno/inferno_training_sim.cpp:81-95 | which is linear and, against a unit vector, one entry |
| `Kernel.GemvForward` | inferno/inferno_training_sim.cpp:76-104 | with and without vector instructions the output is the matrix-vector product |
| `Kernel.ApplyAt` | inferno/inferno_training_sim.cpp:76-104 | whose entry r is the inner product of row r with the activations |
| `Kernel.GemvBackward` | inferno/inferno_training_sim.cpp:108-132 | both forms add the outer product of output gradient and activations |
| `Kernel.OuterAt` | inferno/inferno_training_sim.cpp:124-130 | whose entry at row r and column j is g[r] times a[j] |
| `Kernel.GradientAt` | inferno/inferno_training_sim.cpp:220-228 | the accumulated gradient of a weight is the inner product, over the samples, of its output gradients and inputs |
| `Kernel.WeightUpdate` | inferno/inferno_training_sim.cpp:136-152 | both forms subtract the scaled gradient from every weight |
| `Kernel.BackwardIsAdjoint` | inferno/inferno_training_sim.cpp:108-132 | pairing with the forward product equals pairing with the outer product: backward is the adjoint of forward |
| `Kernel.LossChange` | inferno/inferno_training_sim.cpp:220-228 | over any batch, any change of the weights changes the linearised loss by its inner product with the accumulated gradient |
| `Kernel.UpdateDescends` | inferno/inferno_training_sim.cpp:136-152 | one update lowers that loss by exactly the rate times the squared gradient |
| `Kernel.UpdateNeverRaises` | inferno/inferno_training_sim.cpp:136-152 | so at no non-negative rate does it rise |
| `Kernel.SimulateStep` | inferno/inferno_training_sim.cpp:220-237 | the repeated phases lower it by exactly that much per update: repeating the backward pass changes nothing, repeating the update descends again |
| `HttpRead.ComputeContentLength` | include/quant/http_parse.h:49-68 | the loops compute the parsed length the lemmas speak of |
| `HttpRead.ContentLengthExact` | include/quant/http_parse.h:49-68 | the name, each letter small or capital, then any spaces and tabs, then a number, is read as exactly that number, or as more than the limit if it is more |
| `HttpRead.NoLengthIsZero` | include/quant/http_parse.h:54-55 | a header section that spells the name in no mixture of cases declares no body |
| `HttpRead.NoDigitsIsMalformed` | include/quant/http_parse.h:66 | the name with no digit after its spaces and tabs is malformed |
| `Text.FindInPrefix` | tools/quant_server.cpp:535 | the first occurrence is found at the same place in every longer prefix, and not at all in shorter ones |
| `Text.ValueOfDecimal` | tools/quant_server.cpp:460 | the printed decimal denotes the number |
| `HttpRead.ReadRequest` | tools/quant_server.cpp:528-558 | the receive loop decides as the recursion the lemmas speak of |
| `HttpRead.ReassemblyIsExact` | tools/quant_server.cpp:528-558 | a message of at most 64 KB that declares exactly its body is read whole under every segmentation, whatever arrives later |
| `HttpRead.DeclaredMessageIsRead` | tools/quant_server.cpp:528-558 | a request within 64 KB whose Content-Length, in any letter case and after any blanks, is written as the length of its body is read whole under every segmentation, other header lines and later segments arbitrary |
| `HttpRead.BodylessMessageIsRead` | tools/quant_server.cpp:528-558 | a request that declares no length and has no body, as a GET, is read whole under every segmentation |
| `HttpRead.LengthWithoutDigitsIsRefused` | tools/quant_server.cpp:538-544 | a length without digits is answered as malformed under every segmentation |
| `HttpRead.TruncatedIsPassedOn` | tools/quant_server.cpp:532-534 | a stream that ends before the message does is passed on as what arrived |
| `HttpRead.HeaderWithoutEnd` | tools/quant_server.cpp:553-557 | a stream without a blank line is passed on if it ends below 64 KB and refused with 413 otherwise |
| `HttpRead.RefusalIsIndependent` | tools/quant_server.cpp:538-549 | a malformed or oversized length is refused as such under every segmentation |
| `HttpRead.WholeIffWithinCap` | tools/quant_server.cpp:528-558 | of the messages that declare exactly their body, those read whole under every segmentation are the ones within the cap |
| `HttpRead.RefusedIff` | tools/quant_server.cpp:524-558 | of those beyond the cap, the ones refused with 413 under every segmentation are those whose body exceeds the cap, or whose header section exceeds it by more than 4095 bytes |
| `HttpRead.CutOffAtCap` | tools/quant_server.cpp:529-553 | one beyond the cap whose header section and body are each within it is, in full segments, cut off at 64 KB and passed on as complete |
| `HttpRead.FullBodyIsCutOff` | tools/quant_server.cpp:529-553 | such a message: a header of 24 bytes and a body of 64 KB |
| `TokenArray.PrintTokens` | tools/quant_server.cpp:457-463 | the printing loop produces the response the round trip speaks of |
| `TokenArray.ReadTokens` | tools/quant_server.cpp:474-500 | find, split, trim and parse compute the list the round trip speaks of, or refuse |
| `TokenArray.StoiOfIntText` | tools/quant_server.cpp:491 | reading undoes printing on every int, after any white space `std::stoi` skips and before anything but a digit, and refuses every other integer |
| `TokenArray.TokenRoundTrip` | tools/quant_server.cpp:457-500 | every list of ints printed by tokenize is read back by detokenize as the same list, empty and negative included |
| `TokenArray.OutOfRangeRefused` | tools/quant_server.cpp:491-497 | a list with an item beyond int is refused |
| `TokenArray.HandwrittenList` | tools/quant_server.cpp:474-500 | a list anywhere in the body, with any white space before its numbers, anything but digits after them and blank entries between, is read as its numbers; it is refused exactly if an entry has no number or one beyond 32 bits |
| `TokenArray.NoArrayIsNoTokens` | tools/quant_server.cpp:475-479 | without the key or brackets there are no tokens |
| `TokenArray.KnownResponse` | tools/quant_server.cpp:457-463 | the response for one list, character by character |
| `JsonEscape.JsonEscape` | tools/quant_server.cpp:87-110 | the loop computes the escaped text |
| `JsonEscape.EscapeIsUndone` | tools/quant_server.cpp:87-110 | a reader of the string grammar (section 7 of RFC 8259) gets every text back and stops at the closing quote; no control character is left |
| `JsonEscape.ShortForms` | tools/quant_server.cpp:90-98 | the seven short escapes, and all other printable text unchanged |
| `Scheduler.StepKeepsInv` | inferno/inferno_scheduler.cpp:20-53 | every step of every thread conserves the tasks and the counters |
| `Scheduler.RunKeepsInv` | inferno/inferno_scheduler.cpp:20-53 | so does every interleaving, tasks that submit included |
| `Scheduler.EveryTaskInOnePlace` | inferno/inferno_scheduler.cpp:20-53 | every submitted task is in exactly one of queue, one thread's batch, run or cleared: none is lost, none runs twice |
| `Scheduler.BatchesDescend` | inferno/inferno_scheduler.cpp:33-37 | every batch, finished or under way, runs in non-increasing priority |
| `Scheduler.CountersAreExact` | inferno/inferno_scheduler.cpp:45-46 | the counters equal number and operations of the tasks counted so far, and of all tasks run once nobody is processing |
| `SchedulerBatches.BatchIsQueueAtEntry` | inferno/inferno_scheduler.cpp:25-48 | the batch a thread finishes between entering a non-empty queue and leaving is a permutation of that queue; nothing submitted later is in it; all of it has been run |
| `SchedulerBatches.HigherPriorityFirst` | inferno/inferno_scheduler.cpp:33-48 | of two tasks in the queue at a thread's entry the lower priority has run only if the higher has, at every later moment of every interleaving |
| `SchedulerBatches.ClearedNeverRun` | inferno/inferno_scheduler.cpp:50-53 | a task queued when the queue is cleared is never run |
| `SchedulerBatches.CountersCountTasksRun` | inferno/inferno_scheduler.cpp:44-47 | once no thread is processing the 64-bit counters hold the number of tasks run and the sum of their operations |
| `Scheduler.ProcessingFinishes` | inferno/inferno_scheduler.cpp:25-48 | a thread inside process_queue is never stuck and each step brings it nearer to leaving |
| `SchedulerObject.InfernoScheduler.SubmitTask` | inferno/inferno_scheduler.cpp:20-23 | the task is last in the queue |
| `SchedulerObject.InfernoScheduler.ProcessQueue` | inferno/inferno_scheduler.cpp:25-48 | runs exactly the tasks queued at the call, in descending priority, counts each, and leaves in the queue what they submitted |
| `SchedulerObject.InfernoScheduler.ClearQueue` | inferno/inferno_scheduler.cpp:50-53 | the queue is empty, the counters stay |
| `Nibble.Store` | bench/bench_gpt2_inference.cpp:148-151 | the read-modify-write changes exactly one four-bit field |
| `Nibble.GetPut` | bench/bench_gpt2_inference.cpp:148-151 | a written index is read back, every other position unchanged, the neighbour in the byte included |
| `Nibble.LayoutIs` | bench/bench_gpt2_inference.cpp:148-151 | a byte is sixteen times its odd position plus its even one |
| `Nibble.GetPutAll` | bench/bench_gpt2_inference.cpp:148-151 | after any sequence of writes every position holds the index last written there |
| `CodebookHalf.HalfToFloat` | src/codec/codebook.cpp:36-62 | the widening with its loop computes the function the lemmas speak of |
| `CodebookHalf.NarrowRoundsTowardZero` | src/codec/codebook.cpp:16-34 | every binary32 below 65536 in magnitude becomes the greatest binary16 magnitude not above it, under its own sign: roundTowardZero (section 4.3.2 of IEEE 754-2008) |
| `CodebookHalf.OverflowIsNaNIff` | src/codec/codebook.cpp:29-32 | a finite binary32 stays finite exactly below 65536, and from there on becomes NaN exactly if its mantissa is not zero |
| `CodebookHalf.NarrowSpecials` | src/codec/codebook.cpp:16-34 | signs are kept; infinities stay infinities and NaNs stay NaNs |
| `CodebookHalf.SubnormalRead` | src/codec/codebook.cpp:43-51 | a subnormal with mantissa below 32 is read as more than twice its value, one above 32 as less than its value |
| `CodebookHalf.WidenExactIff` | src/codec/codebook.cpp:36-62 | a finite binary16 is read as its value if and only if it is not a subnormal or its mantissa is 32 |
| `CodebookHalf.NarrowUndoesWidenIff` | src/codec/codebook.cpp:16-62 | narrowing gets back what was widened under the same condition |
| `CodebookHalf.KeptIsTruncationIff` | src/codec/codebook.cpp:16-62 | a codeword below 65536 comes back as the binary16 it was rounded to if and only if its magnitude is at least 2^-14, below 2^-24, or between the subnormals 32 and 33 |
| `CodebookHalf.KeptWithin` | src/codec/codebook.cpp:16-62 | from 2^-14 up to 65536 storing keeps the sign, never lengthens, shortens by at most one part in 1024, and a second time changes nothing |
| `Codebook4.OverflowIsOutOfReach` | src/codec/codebook.cpp:316-327 | a codeword stored as infinity or NaN is never chosen for a finite value |
| `Codebook4.CodebookQ4.Train` | src/codec/codebook.cpp:215-277 | seeding, at most so many rounds of assigning and averaging, and storing through `float_to_half` compute the stored codebook the lemmas speak of, for every shuffle |
| `Codebook4.CodebookQ4.Quantize` | src/codec/codebook.cpp:316-330 | the index found is that of the nearest-entry search over the stored entries as `half_to_float` reads them |
| `Codebook4.RoundsDescend` | src/codec/codebook.cpp:237-271 | training never raises the distortion, for data narrow enough for the search |
| `Codebook4.TrainedEndsTraining` | src/codec/codebook.cpp:215-277 | what is stored ends the one chain of rounds over all sixteen cells from the seeds that rests at 1e-7; a round or more lowers the distortion by the first round's gain |
| `Codebook4.SeedsAreDataPoints` | src/codec/codebook.cpp:215-234 | the seeds are points at different positions: all of them, and the first again, up to sixteen; else some sixteen |
| `Codebook4.ConstantBlock` | src/codec/codebook.cpp:215-277 | training on a constant block stores that constant, narrowed, in all sixteen entries |
| `WeightCodec.QuantizeWeight4` | bench/bench_gpt2_inference.cpp:136-155 | every position holds the index of the entry found in its own block's codebook, the padding is zero, and the codebook kept is the last block's |
| `WeightCodec.BookEndsTraining` | bench/bench_gpt2_inference.cpp:139-143 | a block's codebook is what its own training ends with, narrowed and read again |
| `WeightCodec.DequantizeQuant4` | bench/bench_gpt2_inference.cpp:178-184 | every weight is the codebook entry of its index |
| `WeightCodec.RoundTripWeight4` | bench/bench_gpt2_inference.cpp:136-184 | both loops together give every weight the kept codebook's entry at the index its own block's codebook chose |
| `WeightCodec.MeantIsNearest` | bench/bench_gpt2_inference.cpp:144-146 | that choice is an entry at minimal squared distance in its own block's codebook |
| `WeightCodec.OneBlockIsNearest` | bench/bench_gpt2_inference.cpp:136-184 | up to one block every weight comes back as a nearest entry of the codebook kept |
| `WeightCodec.DecodesAsMeantIff` | bench/bench_gpt2_inference.cpp:141-146 | all weights of all tensors of length n decode with the codebook of their own block, for all shuffles, if and only if n is at most one block |
| `WeightCodec.MoreBlocksFail` | bench/bench_gpt2_inference.cpp:141-146 | for every shuffle and every longer length, a block of ones before zeros comes back as 0 where its own codebook held 1 |
| `NearestSearch.BestIsMinimalIff` | bench/bench_quality.cpp:56-64 | the search ends at an entry of minimal squared distance if and only if some distance is below the value it starts from or the first entry is minimal anyway |
| `NearestSearch.BestIsFirst` | bench/bench_quality.cpp:58-64 | of equally near entries the first is taken |
| `NearestSearch.BestIsNear` | src/codec/codebook.cpp:316-326 | with an entry in reach it agrees with the search by absolute distance |
| `Nibble.QuantizeQuant8` | bench/bench_quality.cpp:52-67 | every byte is the index found for its value |
| `Nibble.QuantizeQuant4` | bench/bench_quality.cpp:72-87 | every four-bit field is the index found for its value, a missing second value read as zero |
| `Nibble.DecodeQuant4` | bench/bench_quality.cpp:244-247 | every position decodes to its entry, odd lengths included |
| `Nibble.RoundTripQuant4` | bench/bench_quality.cpp:72-247 | every decoded weight is an entry of the codebook, and a nearest one exactly under the condition above |

## Left out

- Requests and slices whose sizes wrap a machine word: the theorems about runs exclude them; the exact conditions and what goes wrong otherwise are stated.
- A reset that races with an allocation, and two operations on one handle at once: undefined in the source.
- Memory ordering beyond relaxed loads returning older values of the same variable.
- AllocatorObjects.StackAllocator.Allocate: how often a weak exchange fails spuriously is a parameter, bounded for each call.
- BufferObjects.Buffer.Resize: the bytes beyond the common prefix are left open, as `malloc` leaves them.
- BufferObjects.Buffer.Slice: a slice that wraps leaves the set of well-formed buffers; nothing is said of what is done with it.
- Failing allocations (`std::bad_alloc`, a null block), and moving a whole pool or stack allocator.
- PoolRegistry.Registry.GetOrCreatePool: a pool is an identity here; its memory is the subject of `BumpAllocator`, and the mutex makes each call one step.
- Rounding of float arithmetic outside binary16: means, distances, scales and products are real numbers. The Q8_0 scale is any binary32 within one rounding of amax / 127.
- NaN and infinite inputs of the quantizers; entries beyond 1e30 where a search or scan starts from that value are covered by the stated conditions.
- Q80.Q80Error: speaks of blocks whose scale is in the normal range of binary16; `Q80.Q80WithinHalfStepIff` has no such restriction.
- The round trips of Q4_K and the one-bit and ternary formats, the F32 destination of `quantize_tensor`, and `quantize_activations`.
- Affine.QuantizeTensor: dtype checks are left to the types; the size check is modelled.
- The block codecs behind `FormatRegistry`, and the tokenizer, are arbitrary functions of the shapes their callers rely on.
- Importance.SortBlocks: the source's sort leaves the order of ties open; the lemmas hold for every order, the method produces one of them. The lookup of formats by name is resolved by hand.
- TargetWidth.CountsAre: shares of blocks and the scaling ratio are exact here; where the source rounds them to floats a count on the edge can differ by one.
- Importance.TopCountsFit: the ratio is exact here, where the source rounds it to a float.
- Lanes of a vector register are eight accumulators; a batch is a list of samples rather than one flat array; timings and derived figures of `simulate_step` are not modelled.
- Kernel.WeightUpdate: subtracting a product is written as adding its negation, with the same loops as the backward kernel.
- Sockets, time-outs and empty reads: the receive loop sees the list of chunks that arrive and then the end of the stream; the request-line cap (414), `parse_request` and the handlers' other parts are left out.
- JsonEscape.EscapeIsUndone: `\u` escapes beyond ASCII are not decoded by the reader modelled here, since the code never writes one.
- TokenArray.ReadTokens: the split, trim and number functions of the C++ library are functions here, in the C locale.
- The scheduler's start time and throughput figures, exceptions thrown by tasks, and null work items.
- SchedulerObject.InfernoScheduler.ProcessQueue: what running a task does to the scheduler is submitting a list of tasks that depends on the task alone.
- WeightCodec.QuantizeWeight4: the eight-bit and ternary parts of `quantize_weight` are left out. The shuffle that seeds a codebook is any permutation.
- Codebook4.CodebookQ4.Train: codewords are trained as real numbers; which binary32 a trained codeword is, before it is stored, is a parameter, in `WeightCodec` one that takes 0 and 1 to themselves. The accumulators for moving averages are left out.
