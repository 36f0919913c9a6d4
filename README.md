# oneDNN AArch64 reducers and eltwise injector, modelled in Dafny

This project models two parts of the AArch64 CPU backend of oneDNN:

- **The reduction machinery** (`cpu_reducer.cpp`):
  - `reduce_balancer_t::balance()` splits `njobs` jobs between `nthr` threads. It forms
    thread groups and, when allowed, lets several threads of a group reduce the same jobs.
  - `cpu_reducer_t` (1-D) and `cpu_reducer_2d_t` (2-D) book scratch space for the partial
    results of a group's followers. Their `reduce_nolock` has each thread add those partial
    results into its own stretch (or tile share) of the destination.
  - `reducer_2d_driver_f_s_32_t` is the JIT kernel both reducers use. `cpu_accumulator_1d_t`
    is a one-source driver.
- **The register and constant-table logic of `jit_uni_eltwise_injector_f32`**
  (`jit_uni_eltwise_injector.cpp`):
  - how `injector_preamble`, `injector_preamble_tail` and `injector_postamble` choose, save
    and restore scratch vector and general-purpose registers around the two `compute_body`
    passes of `compute_vector_range`;
  - the routine `compute_body` dispatches to;
  - `register_table_entries`, `need_t` and `prepare_table` (the constant table);
  - `aux_gprs_count` and `aux_vecs_count`;
  - the compare chosen by `compute_cmp_mask`;
  - the integer bit manipulations the log and tanh kernels use to index their tables.

How the model is built:

- **Balancer.** The topology `balance()` picks is a function (`BalanceSpec`) defined by the
  scan it performs. The class method `ReduceBalancer.Balance` runs the same loop over the
  object's fields and is proved to reach that function. Lemmas then prove:
  - the asserts at the end of `balance()`;
  - that the result is the first candidate of strictly least cost.
- **Driver.** The driver is a class over arrays of 32-bit elements. Its `loop_x` chunk
  cascade is proved to compute `DriveSpec`. For every row the driver reduces, `DriveSpec`
  adds the `n_src` sources into each destination element, in order, and leaves every other
  element unchanged.
- **Reducers.** Both reducers are classes whose `ReduceNolock` is proved against a
  per-thread specification. Lemmas about that specification prove four things:
  - the threads' stretches are disjoint, so the order in which threads run does not matter;
  - the threads of a group together compute the reference sum (`SIMPLE_IMPL` for the 1-D
    reducer);
  - in the 2-D reducer, every tile element ends up as the sum of its partial results;
  - every address handed to the driver lies inside the destination and the booked space.
- **Injector.** The injector is a class with the fields `preserved_vec_idxs`,
  `preserved_gpr_idxs`, `start_idx_tail` and the register roles. The generated code is a
  sequence of abstract operations: stores and loads of scratch slots, stores and loads of
  general-purpose registers on the stack, the moves of the stack pointer around the vector
  save area, and one routine applied to one register. A small machine with a stack pointer
  and addressed memory gives the stack operations the addressing of the instructions they
  stand for. Each method appends
  to that sequence and is proved against specification functions. Lemmas over those
  functions prove that:
  - every requested register is computed exactly once;
  - every load from the save area reads back the register stored there;
  - with its GPR loads corrected to post-indexed pops, the postamble gives `x_table` and the
    scratch GPRs back their values from before the preamble and returns the stack pointer;
  - as written, its pre-indexed loads each read the word above the one the register was
    pushed to, so `x_table` comes back wrong (see "Findings").
- **Constant table.** `entry_map_` is a key-sorted sequence (a multimap). It is proved
  that:
  - it stays sorted and laid out;
  - the debug offset check of `prepare_table` always holds;
  - `table_val(key, n)` reads the `n`-th value pushed under `key`.

A few helpers the code calls are defined in headers that are not part of this model:
`balance211`, `div_up`, the balancer's `group_id`, `id_in_group`, `idle`, `ithr_njobs`,
`ithr_job_off` and `space_per_thread`, the injector's `vecs_count`, `vlen`, `table_off`,
and the order of the `key_t` enumeration. They are given the usual oneDNN definitions
(`IntUtil`, `ReduceBalance`, `EltwiseRegs`, `EltwiseTable`), and their properties are
proved here.

## Model

Paths are relative to the repository root.

| member | source | states |
|---|---|---|
| IntUtil.DivUp | src/cpu/aarch64/cpu_reducer.cpp:677 | `div_up(a, b)` is the least `q` with `q * b >= a` (positive when `a` is) |
| IntUtil.Balance211Contract | src/cpu/aarch64/cpu_reducer.cpp:676-680 | `balance211` slices are well formed and within `[0, n)`; thread 0 starts at 0, the last thread ends at `n`, and each slice starts where the previous one ends |
| IntUtil.Balance211Ordered | src/cpu/aarch64/cpu_reducer.cpp:676-680 | an earlier thread's slice ends before a later thread's begins |
| IntUtil.Balance211Owner | src/cpu/aarch64/cpu_reducer.cpp:800-803 | every item of `[0, n)` lies in some thread's slice |
| IntUtil.Balance211Split | src/cpu/aarch64/cpu_reducer.cpp:677-678 | with more than one thread, the first `t1` threads take `div_up(n, team)` items and the rest one fewer, where `1 <= t1 <= team` |
| ReduceBalance.MinNjobsPerGroup | src/cpu/aarch64/cpu_reducer.cpp:52 | `min_njobs_per_group` lies in `[1, njobs]` |
| ReduceBalance.CandidateWellShaped | src/cpu/aarch64/cpu_reducer.cpp:72-77 | every candidate has 1 to `njobs` groups and at least one thread per group; `ngroups * nthr_per_group <= nthr`; one thread per group when sharing is off; `njobs_per_group_ub == div_up(njobs, ngroups)` |
| ReduceBalance.CandidateOf | src/cpu/aarch64/cpu_reducer.cpp:72-77 | computes the candidate topology for `c_njobs_per_group`, which is well shaped |
| ReduceBalance.CostOf | src/cpu/aarch64/cpu_reducer.cpp:79-83 | computes `c_thread_complexity_ub` of a topology |
| ReduceBalance.InitialGuessAdmissible | src/cpu/aarch64/cpu_reducer.cpp:57-60 | the initial guess has one thread per group or one job per group, so the buffer test never rejects it |
| ReduceBalance.InitialGuessShared | src/cpu/aarch64/cpu_reducer.cpp:57-60 | when the initial guess shares a group between threads, each group has exactly one job |
| ReduceBalance.ScanInvariant | src/cpu/aarch64/cpu_reducer.cpp:67-91 | after any prefix of the brute-force loop, the incumbent is well shaped and admissible, and its bound never exceeds the rough starting bound |
| ReduceBalance.ScanLowerBound | src/cpu/aarch64/cpu_reducer.cpp:76-90 | the incumbent's bound is at most the cost of every admissible candidate seen so far |
| ReduceBalance.ScanOptimal | src/cpu/aarch64/cpu_reducer.cpp:85-90 | the incumbent is either the initial guess or a seen admissible candidate; it beats the starting bound and strictly beats every earlier admissible candidate |
| ReduceBalance.BalanceChoosesFirstCheapest | src/cpu/aarch64/cpu_reducer.cpp:44-101 | `balance()` keeps the initial guess or picks the first admissible candidate of least cost |
| ReduceBalance.BalanceInvariants | src/cpu/aarch64/cpu_reducer.cpp:92-96 | the asserts at lines 92, 93 and 96 hold for every valid input, and the result is well shaped |
| ReduceBalance.BalancedShape | src/cpu/aarch64/cpu_reducer.cpp:44-101 | the topology `balance()` chooses is well shaped |
| ReduceBalance.BalanceBufferFits | src/cpu/aarch64/cpu_reducer.cpp:94-95 | the buffer bound of line 94 holds when the budget fits one job per thread |
| ReduceBalance.BufferBoundNeedsBudget | src/cpu/aarch64/cpu_reducer.cpp:53-54 | without that budget the bound of line 94 fails: 8 threads, 4 one-byte jobs, reduction depth 2, budget 1 |
| ReduceBalance.ReduceBalancer.Balance | src/cpu/aarch64/cpu_reducer.cpp:44-101 | the method's loop over the object's fields sets `ngroups_`, `nthr_per_group_` and `njobs_per_group_ub_` to the specified topology |
| ReduceBalance.ReduceBalancer.constructor | src/cpu/aarch64/cpu_reducer.cpp:44-101 | a new balancer keeps its inputs and has already balanced them |
| ReduceBalance.GroupJobsFit | src/cpu/aarch64/cpu_reducer.cpp:785-788 | a working thread's group exists, and its jobs are a non-empty range of `[0, njobs)` of at most `njobs_per_group_ub` jobs |
| ReduceBalance.GroupJobsContiguous | src/cpu/aarch64/cpu_reducer.cpp:785-788 | the groups' job ranges follow one another from 0 to `njobs` |
| ReduceBalance.GroupShare | src/cpu/aarch64/cpu_reducer.cpp:785-788 | each group gets at least one job, and its share ends within `njobs` |
| ReduceDriver.ChunkLens | src/cpu/aarch64/cpu_reducer.cpp:488-496 | the three `loop_x` branches move 256, 16 and 1 elements (`n_vregs / 2` vectors, one vector, one element) |
| ReduceDriver.Driver.constructor | src/cpu/aarch64/cpu_reducer.cpp:107-118 | the driver keeps `n_src`, `src_ld`, `src_step`, `dst_step` and `nullify_dst` |
| ReduceDriver.Driver.LoadAndAccumulate | src/cpu/aarch64/cpu_reducer.cpp:499-525 | a chunk's registers hold the loaded (or zeroed) destination plus each source's element, in source order |
| ReduceDriver.Driver.Chunk | src/cpu/aarch64/cpu_reducer.cpp:499-535 | storing a chunk reduces exactly its `len` destination elements |
| ReduceDriver.Driver.LoopBranch | src/cpu/aarch64/cpu_reducer.cpp:501-538 | one branch of `loop_x` reduces whole chunks while at least one remains, leaving less than a chunk |
| ReduceDriver.Driver.LoopX | src/cpu/aarch64/cpu_reducer.cpp:488-546 | `loop_x` reduces the whole row of `nx` elements and nothing else |
| ReduceDriver.Driver.Run | src/cpu/aarch64/cpu_reducer.cpp:548-575 | a driver call reduces `ny` rows `dst_step` apart from sources `src_step` apart (`DriveSpec`) |
| ReduceDriver.SrcFitsEach | src/cpu/aarch64/cpu_reducer.cpp:512-528 | when the last source fits in the source array, every source does |
| ReduceDriver.ChunkStep | src/cpu/aarch64/cpu_reducer.cpp:501-538 | reducing a row prefix, then the next chunk, reduces the longer prefix |
| ReduceDriver.RowSpecShift | src/cpu/aarch64/cpu_reducer.cpp:501-538 | advancing the row pointers by `x` is the same as reducing from column `x` |
| ReduceDriver.RowSpecSplit | src/cpu/aarch64/cpu_reducer.cpp:501-538 | reducing `[lo, mid)` then `[mid, hi)` is reducing `[lo, hi)` |
| ReduceDriver.RowSpecCommute | src/cpu/aarch64/cpu_reducer.cpp:499-535 | reductions of non-overlapping stretches commute |
| ReduceDriver.DriveOutsideUnchanged | src/cpu/aarch64/cpu_reducer.cpp:548-575 | the driver changes no element outside its `ny` by `nx` block |
| ReduceDriver.DriveUnchangedBefore | src/cpu/aarch64/cpu_reducer.cpp:548-575 | elements before the block are untouched |
| ReduceDriver.DrivePointwise | src/cpu/aarch64/cpu_reducer.cpp:548-575 | the element at row `y`, column `x` of the block becomes its old value (or 0) plus its `n_src` sources, when rows do not overlap |
| ReduceDriver.Accumulator.constructor | src/cpu/aarch64/cpu_reducer.cpp:845-848 | the accumulator's driver has one source, no strides, and no nullify |
| ReduceDriver.Accumulator.Accumulate | src/cpu/aarch64/cpu_reducer.cpp:855-859 | `dst[i] += src[i]` (32-bit wrap-around) for `i < size`, nothing else changes |
| CpuReducer.InitScratchpad | src/cpu/aarch64/cpu_reducer.cpp:604-615 | nothing is booked with one thread per group; otherwise a slot per follower and one barrier per group |
| CpuReducer.ThreadOfGroup | src/cpu/aarch64/cpu_reducer.cpp:635-643 | thread `grp * nthr_per_group + id` has group `grp` and id `id`, and is not idle when the group exists |
| CpuReducer.SourcesInBooking | src/cpu/aarch64/cpu_reducer.cpp:609-611 | the last follower slot of every group ends within the booked space |
| CpuReducer.FollowerSlotInBooking | src/cpu/aarch64/cpu_reducer.cpp:631-647 | a working follower's `get_local_ptr` slot lies within the booked space |
| CpuReducer.FollowerSlotsDisjoint | src/cpu/aarch64/cpu_reducer.cpp:631-647 | two followers' slots do not overlap |
| CpuReducer.LeaderRangesDisjoint | src/cpu/aarch64/cpu_reducer.cpp:636-637 | leaders of different groups write disjoint stretches of the destination |
| CpuReducer.GroupJobOffMonotone | src/cpu/aarch64/cpu_reducer.cpp:639 | an earlier group's jobs end before a later group's begin |
| CpuReducer.GroupDataFits | src/cpu/aarch64/cpu_reducer.cpp:639-675 | a group's reduction size fits `space_per_thread`, and its data lies within `dst` |
| CpuReducer.NolockFits | src/cpu/aarch64/cpu_reducer.cpp:682-687 | the driver call's `len` is positive, and its destination and source rows fit their arrays |
| CpuReducer.Reducer.constructor | src/cpu/aarch64/cpu_reducer.cpp:617-624 | no driver with one thread per group; otherwise one with `nthr_per_group - 1` sources `space_per_thread` apart |
| CpuReducer.Reducer.ReduceNolock | src/cpu/aarch64/cpu_reducer.cpp:649-689 | `reduce_nolock` leaves the destination as `NolockSpec`: redundant threads change nothing, and others add the followers' slots into their cache-line share of the group's data |
| CpuReducer.ThreadSlicesTile | src/cpu/aarch64/cpu_reducer.cpp:675-685 | the threads' shares tile the group's data in thread order |
| CpuReducer.SlicesApart | src/cpu/aarch64/cpu_reducer.cpp:675-685 | two working threads' stretches do not overlap |
| CpuReducer.SliceOrder | src/cpu/aarch64/cpu_reducer.cpp:676-685 | within a group, a lower id's stretch ends before a higher id's begins |
| CpuReducer.SlicesOfGroups | src/cpu/aarch64/cpu_reducer.cpp:676-685 | a thread of a lower group writes before any thread of a higher group |
| CpuReducer.NolockEmpty | src/cpu/aarch64/cpu_reducer.cpp:680 | a thread with an empty `balance211` share leaves the destination unchanged |
| CpuReducer.NolockEffect | src/cpu/aarch64/cpu_reducer.cpp:682-687 | the driver call over `[start * cl, min(end * cl, size))` gives `NolockSpec` |
| CpuReducer.FollowersSumIsStrided | src/cpu/aarch64/cpu_reducer.cpp:622-666 | adding followers' slots one by one is the driver's strided sum over `space_per_thread` |
| CpuReducer.NolockCommutes | src/cpu/aarch64/cpu_reducer.cpp:649-689 | two threads' `reduce_nolock` give the same destination in either order (no lock needed) |
| CpuReducer.GroupReduces | src/cpu/aarch64/cpu_reducer.cpp:656-667 | after all threads of a group run, the group's data equals the `SIMPLE_IMPL` reference sum |
| CpuReducer.SimpleReduceIsDriven | src/cpu/aarch64/cpu_reducer.cpp:656-667 | one driver pass over the whole group data equals the `SIMPLE_IMPL` loops |
| CpuReducer2D.InitScratchpad2D | src/cpu/aarch64/cpu_reducer.cpp:696-706 | nothing is booked with one thread per group; otherwise a slot per thread and one barrier per group |
| CpuReducer2D.Slot2DInBooking | src/cpu/aarch64/cpu_reducer.cpp:723-732 | a working thread's slot number is its thread number, and the slot lies within the booking |
| CpuReducer2D.Slots2DDisjoint | src/cpu/aarch64/cpu_reducer.cpp:723-732 | two threads' slots do not overlap |
| CpuReducer2D.LeaderSlot2D | src/cpu/aarch64/cpu_reducer.cpp:790 | `ithr - id_in_grp` is the group's first thread and its slot |
| CpuReducer2D.ShrinkProps | src/cpu/aarch64/cpu_reducer.cpp:741-748 | the halving/thirding loop keeps a divisor of its start, stays at least the minimum, and stops when neither step applies |
| CpuReducer2D.XBlockingProps | src/cpu/aarch64/cpu_reducer.cpp:734-754 | `choose_x_blocking` returns a positive multiple of `x_block` dividing `nx`; in blocks it is 1 or in `[min, 4 * min)` and not further divisible |
| CpuReducer2D.Reducer2D.ChooseXBlocking | src/cpu/aarch64/cpu_reducer.cpp:734-754 | the method's loop computes that blocking |
| CpuReducer2D.Reducer2D.constructor | src/cpu/aarch64/cpu_reducer.cpp:708-716 | the driver sums all `nthr_per_group` slots, rows `job_size_x` and `dst_x` apart, nullifying the destination |
| CpuReducer2D.JobTileInside | src/cpu/aarch64/cpu_reducer.cpp:804-810 | every job's tile lies in the destination, at least one row high and a whole number of `x_block`s wide |
| CpuReducer2D.JobFits | src/cpu/aarch64/cpu_reducer.cpp:756-776 | every `reduce_block` address of a job lies in the destination and the booked space |
| CpuReducer2D.PrSplit | src/cpu/aarch64/cpu_reducer.cpp:792-795 | `pr_grps` is between 1 and the group's jobs, and `pr_grps * pr_nthr_per_grp <= nthr_per_group` |
| CpuReducer2D.ThreadShare | src/cpu/aarch64/cpu_reducer.cpp:812-816 | a thread's `nxy` share lies within the tile |
| CpuReducer2D.ShareOf | src/cpu/aarch64/cpu_reducer.cpp:811-818 | a thread's blocking is a multiple of `x_block` dividing `nx`, and its range lies in the tile |
| CpuReducer2D.Reducer2D.ReduceBlock | src/cpu/aarch64/cpu_reducer.cpp:756-776 | `reduce_block` is one driver call over `ny_step` rows of `nx_step` elements of the tile |
| CpuReducer2D.Reducer2D.ReduceTile | src/cpu/aarch64/cpu_reducer.cpp:818-835 | the three `reduce_block` calls together reduce positions `[nxy_start, nxy_end)` of the tile |
| CpuReducer2D.Reducer2D.PartialRow | src/cpu/aarch64/cpu_reducer.cpp:821-826 | the first block finishes the started row (or the range), leaving the rest to reduce |
| CpuReducer2D.Reducer2D.WholeRows | src/cpu/aarch64/cpu_reducer.cpp:827-832 | with more than a row left, the second block covers whole rows, leaving less than a row |
| CpuReducer2D.Reducer2D.ReduceJob | src/cpu/aarch64/cpu_reducer.cpp:804-836 | one iteration of the job loop does the thread's share of job `j` |
| CpuReducer2D.Reducer2D.ReduceJobs | src/cpu/aarch64/cpu_reducer.cpp:803-837 | the job loop does the thread's share of each of its sub-group's jobs, in order |
| CpuReducer2D.Reducer2D.ReduceNolock | src/cpu/aarch64/cpu_reducer.cpp:778-838 | `reduce_nolock` leaves the destination as `NolockSpec2D` |
| CpuReducer2D.NolockJobs | src/cpu/aarch64/cpu_reducer.cpp:795-803 | a working thread does exactly its sub-group's `balance211` share of the jobs |
| CpuReducer2DWork.RemainingSplit | src/cpu/aarch64/cpu_reducer.cpp:818-835 | reducing tile positions `[a, b)` then `[b, c)` is reducing `[a, c)` |
| CpuReducer2DWork.SharesTile | src/cpu/aarch64/cpu_reducer.cpp:812-816 | a sub-group's threads' shares follow one another and cover the tile |
| CpuReducer2DWork.SubGroupReducesTile | src/cpu/aarch64/cpu_reducer.cpp:803-837 | all threads of a sub-group together reduce the job's whole tile |
| CpuReducer2DWork.SubGroupElement | src/cpu/aarch64/cpu_reducer.cpp:756-776 | after the sub-group, each tile element is the sum of its partial results in all the group's slots |
| EltwiseKinds.DispatchProperties | src/cpu/aarch64/injectors/jit_uni_eltwise_injector.cpp:2476-2561 | `compute_body` has a routine for every kind and direction except backward `round`; the routine matches the direction; `*_use_dst_for_bwd` uses its base; the zero-slope relu is chosen exactly for forward relu with `alpha == 0` |
| EltwiseKinds.DispatchInjective | src/cpu/aarch64/injectors/jit_uni_eltwise_injector.cpp:2483-2561 | distinct base algorithms run distinct routines |
| EltwiseKinds.AuxGprsCountCases | src/cpu/aarch64/injectors/jit_uni_eltwise_injector.cpp:2385-2395 | four scratch GPRs exactly for the tanh family on `asimd`, none otherwise |
| EltwiseKinds.NeedOfRules | src/cpu/aarch64/injectors/jit_uni_eltwise_injector.cpp:3071-3107 | each `need_t` flag holds exactly for the algorithms it names |
| EltwiseKinds.InclusionRules | src/cpu/aarch64/injectors/jit_uni_eltwise_injector.cpp:3123-3138 | each table group is pushed exactly when its `need_t` flag holds |
| EltwiseKinds.PushesMembership | src/cpu/aarch64/injectors/jit_uni_eltwise_injector.cpp:3123-3138 | the guarded pushes push exactly the needed groups, none twice |
| EltwiseKinds.PushedExactly | src/cpu/aarch64/injectors/jit_uni_eltwise_injector.cpp:3123-3138 | the groups pushed for an algorithm are exactly those its `need_t` asks for |
| EltwiseKinds.PushedGroupsRules | src/cpu/aarch64/injectors/jit_uni_eltwise_injector.cpp:3123-3138 | the inclusion rules per algorithm (consts with polynomials, tanh, log, gelu, soft_relu) |
| EltwiseKinds.PushedGroupsOrder | src/cpu/aarch64/injectors/jit_uni_eltwise_injector.cpp:3123-3138 | the common values come first, and no group is pushed twice |
| EltwiseKinds.CmpMaskByLowBits | src/cpu/aarch64/injectors/jit_uni_eltwise_injector.cpp:269-417 | the 32-way switch picks the compare named by the code's three low bits; it rejects exactly the codes `≡ 3 (mod 4)` and those outside `[0, 32)` |
| EltwiseBits.LogTableIndexRange | src/cpu/aarch64/injectors/jit_uni_eltwise_injector.cpp:1306-1313 | the doubled log index is even, at most 62, and half of it is mantissa bits 18 to 22 |
| EltwiseBits.LogAnticancellationIsTopMantissaBit | src/cpu/aarch64/injectors/jit_uni_eltwise_injector.cpp:1315-1316 | the anticancellation term is mantissa bit 22 |
| EltwiseBits.LogGatherInsideTable | src/cpu/aarch64/injectors/jit_uni_eltwise_injector.cpp:1341-1357 | both gathers read inside `log_predefined_values`, at `r_i` and `log(r_i)` |
| EltwiseBits.TanhTableIndexBits | src/cpu/aarch64/injectors/jit_uni_eltwise_injector.cpp:747-751 | the tanh row index has ten bits, and its five-bit permute index is below `tanh_n_polynomials` |
| EltwiseBits.TanhTableIndexInPolynomialRange | src/cpu/aarch64/injectors/jit_uni_eltwise_injector.cpp:732-751 | in the polynomial range the row is in `[1, 30]` and equal to its own five-bit index |
| EltwiseBits.TanhTableIndexMonotone | src/cpu/aarch64/injectors/jit_uni_eltwise_injector.cpp:732-751 | the row grows with `|x|` |
| EltwiseRegs.SparesFacts | src/cpu/aarch64/injectors/jit_uni_eltwise_injector.cpp:45-57 | the spares are increasing and are exactly the registers outside `[start_idx, end_idx)` |
| EltwiseRegs.ScratchProperties | src/cpu/aarch64/injectors/jit_uni_eltwise_injector.cpp:39-65 | the preamble takes `aux_vecs_count()` distinct registers: register 0 on `asimd`, then spares outside the set, then the borrowed front of the set |
| EltwiseRegs.ScratchDisjoint | src/cpu/aarch64/injectors/jit_uni_eltwise_injector.cpp:52-65 | the scratch registers are distinct; spares are not in the set; registers past `start_idx_tail` are not scratch |
| EltwiseRegs.SparesLowestFirst | src/cpu/aarch64/injectors/jit_uni_eltwise_injector.cpp:52-57 | a free register left out is above every spare taken |
| EltwiseRegs.GprScratchProperties | src/cpu/aarch64/injectors/jit_uni_eltwise_injector.cpp:67-75 | the GPR loop takes `aux_gprs_count()` registers from 30 down, skipping `x_table` and no other |
| EltwiseInjector.Injector.constructor | src/cpu/aarch64/injectors/jit_uni_eltwise_injector.cpp:39-43 | an injector starts as `injector_preamble` resets it: nothing preserved, `start_idx_tail` at the front, nothing emitted |
| EltwiseInjector.Injector.AssignRegs | src/cpu/aarch64/injectors/jit_uni_eltwise_injector.cpp:223-237 | `z_tmp`, `vmm_mask`/`vmm_aux0` and `vmm_aux1..7` are the scratch slots 0, 1 and 2..8 |
| EltwiseInjector.Injector.TakeSpares | src/cpu/aarch64/injectors/jit_uni_eltwise_injector.cpp:39-57 | the first loops fill the slots with the spares |
| EltwiseInjector.Injector.BorrowFront | src/cpu/aarch64/injectors/jit_uni_eltwise_injector.cpp:59-65 | the borrowing loop completes the scratch registers and sets `start_idx_tail` |
| EltwiseInjector.Injector.TakeGprs | src/cpu/aarch64/injectors/jit_uni_eltwise_injector.cpp:67-75 | the GPR loop fills `preserved_gpr_idxs` |
| EltwiseInjector.Injector.ScanOutside | src/cpu/aarch64/injectors/jit_uni_eltwise_injector.cpp:52-57 | the scan takes the registers outside `[start_idx, end_idx)` in increasing order, up to `aux_vecs_count()` |
| EltwiseInjector.Injector.ChooseVecs | src/cpu/aarch64/injectors/jit_uni_eltwise_injector.cpp:39-65 | all `aux_vecs_count()` scratch registers are chosen, and `start_idx_tail` counts the borrowed ones |
| EltwiseInjector.Injector.EmitSaves | src/cpu/aarch64/injectors/jit_uni_eltwise_injector.cpp:98-113 | stores the scratch registers from slot `off` on, each to its own slot |
| EltwiseInjector.Injector.EmitRestores | src/cpu/aarch64/injectors/jit_uni_eltwise_injector.cpp:198-213 | loads the scratch registers from slot `off` on, each from its own slot |
| EltwiseInjector.Injector.EmitSaveState | src/cpu/aarch64/injectors/jit_uni_eltwise_injector.cpp:81-115 | pushes `x_table` and the scratch GPRs, lowers the stack pointer by `preserved_vecs_count * vlen` when there are vectors to save, saves them, loads the table address |
| EltwiseInjector.Injector.Preamble | src/cpu/aarch64/injectors/jit_uni_eltwise_injector.cpp:35-118 | `injector_preamble` chooses the scratch registers and emits the save code |
| EltwiseInjector.Injector.PreambleTail | src/cpu/aarch64/injectors/jit_uni_eltwise_injector.cpp:120-187 | `injector_preamble_tail` as written: reload, shift the last `t` slots by `t`, store |
| EltwiseInjector.Injector.PreambleTailCorrected | src/cpu/aarch64/injectors/jit_uni_eltwise_injector.cpp:120-187 | the corrected tail step: the last `t` slots take the `t` set registers after the borrowed ones |
| EltwiseInjector.Injector.ReloadTail | src/cpu/aarch64/injectors/jit_uni_eltwise_injector.cpp:128-155 | reloads the last `t` scratch slots when saving state |
| EltwiseInjector.Injector.StoreTail | src/cpu/aarch64/injectors/jit_uni_eltwise_injector.cpp:160-184 | stores the last `t` scratch registers to their slots when saving state |
| EltwiseInjector.Injector.ShiftSlots | src/cpu/aarch64/injectors/jit_uni_eltwise_injector.cpp:157-158 | the shift loop as written |
| EltwiseInjector.Injector.RehomeSlots | src/cpu/aarch64/injectors/jit_uni_eltwise_injector.cpp:157-158 | the corrected tail reassignment |
| EltwiseInjector.Injector.Postamble | src/cpu/aarch64/injectors/jit_uni_eltwise_injector.cpp:189-221 | `injector_postamble` as written emits the vector reloads, the `add_imm` past the save area, then pre-indexed loads of the scratch GPRs in reverse and of `x_table` last |
| EltwiseInjector.Injector.PostambleCorrected | src/cpu/aarch64/injectors/jit_uni_eltwise_injector.cpp:189-221 | the same postamble with the GPR loads as post-indexed pops, which `compute_vector_range` uses here |
| EltwiseInjector.Injector.ReleaseSaveArea | src/cpu/aarch64/injectors/jit_uni_eltwise_injector.cpp:215-216 | raises the stack pointer by `preserved_vecs_count * vlen` when there were vectors to save |
| EltwiseInjector.Injector.ReloadGprs | src/cpu/aarch64/injectors/jit_uni_eltwise_injector.cpp:218-220 | loads the scratch GPRs from the last to the first, then `x_table`, all with one kind of load |
| EltwiseInjector.Injector.ComputeBody | src/cpu/aarch64/injectors/jit_uni_eltwise_injector.cpp:2476-2568 | `compute_body` applies the dispatched routine (and the scale) to each register in order |
| EltwiseInjector.Injector.FirstPass | src/cpu/aarch64/injectors/jit_uni_eltwise_injector.cpp:2587-2588 | the preamble plus the first `compute_body` over the registers from `start_idx_tail` on |
| EltwiseInjector.Injector.SecondPass | src/cpu/aarch64/injectors/jit_uni_eltwise_injector.cpp:2589-2591 | the tail step, the second `compute_body` over the borrowed registers, and the corrected postamble |
| EltwiseInjector.Injector.ComputeVectorRange | src/cpu/aarch64/injectors/jit_uni_eltwise_injector.cpp:2579-2592 | `compute_vector_range` emits `RangeOps` and leaves the corrected tail scratch registers |
| EltwiseInjector.Injector.ComputeVectorRangeOf | src/cpu/aarch64/injectors/jit_uni_eltwise_injector.cpp:2570-2577 | the `(start_idx, end_idx)` overload always fits, and emits `RangeOps` of the contiguous set |
| EltwiseRange.RangeComputesEachOnce | src/cpu/aarch64/injectors/jit_uni_eltwise_injector.cpp:2587-2591 | the range code applies the routine to the set's registers, tail part first; each exactly once |
| EltwiseRange.RangeOpsParts | src/cpu/aarch64/injectors/jit_uni_eltwise_injector.cpp:2579-2592 | the range code is preamble, first body, tail step, second body, postamble |
| EltwiseRange.RangeRestoresMatchSaves | src/cpu/aarch64/injectors/jit_uni_eltwise_injector.cpp:80-221 | every load from the save area reads back the register last stored in that slot |
| EltwiseRange.PreambleMatches | src/cpu/aarch64/injectors/jit_uni_eltwise_injector.cpp:81-115 | the preamble loads nothing, and with `save_state` slot `i` holds scratch register `i` |
| EltwiseRange.TailMatches | src/cpu/aarch64/injectors/jit_uni_eltwise_injector.cpp:120-187 | the tail step only loads slots last stored with the register it loads |
| EltwiseRange.PostambleMatches | src/cpu/aarch64/injectors/jit_uni_eltwise_injector.cpp:189-221 | the postamble only loads slots last stored with the register it loads |
| EltwiseRange.PostambleUndoesPreamble | src/cpu/aarch64/injectors/jit_uni_eltwise_injector.cpp:81-92 | with the GPR loads as post-indexed pops, the postamble after the preamble gives `x_table` and every scratch GPR its value from before the preamble, whatever the bodies did to the registers, and returns the stack pointer to where it was |
| EltwiseRange.PostambleAsWrittenMisloads | src/cpu/aarch64/injectors/jit_uni_eltwise_injector.cpp:215-220 | as written, the postamble returns the stack pointer but gives `x_table` the word at the caller's stack pointer, which the preamble never wrote, and each scratch GPR the value of the register pushed before it |
| EltwiseRange.TableAddressNotRestored | src/cpu/aarch64/injectors/jit_uni_eltwise_injector.cpp:218-220 | with `save_state`, `x_table` holding 1 on entry and nothing stored at the caller's stack pointer, the as-written postamble leaves `x_table` holding 0 |
| EltwiseRange.TailScratchProperties | src/cpu/aarch64/injectors/jit_uni_eltwise_injector.cpp:157-158 | the corrected second-pass scratch registers are distinct, keep the spares and avoid the borrowed registers |
| EltwiseRange.ShiftMatchesRehomeWhenContiguous | src/cpu/aarch64/injectors/jit_uni_eltwise_injector.cpp:157-158 | on a contiguous set the as-written shift equals the corrected step |
| EltwiseRange.ContiguousFits | src/cpu/aarch64/injectors/jit_uni_eltwise_injector.cpp:2570-2577 | every contiguous request fits, and the as-written tail step is correct for it |
| EltwiseRange.ShiftTailCollides | src/cpu/aarch64/injectors/jit_uni_eltwise_injector.cpp:157-158 | for `{0, 2, ..., 31}` on `sve_512` the shifted scratch register 9 is one the second pass computes |
| EltwiseOps.PushesLayout | src/cpu/aarch64/injectors/jit_uni_eltwise_injector.cpp:82-88 | each pre-decrement store puts register `i` in the word `8 * (i + 1)` bytes below the starting stack pointer; no register and no word at or above that pointer changes |
| EltwiseOps.LoadsRead | src/cpu/aarch64/injectors/jit_uni_eltwise_injector.cpp:218-220 | the `i`-th of a run of loads reads the word `8 * i` bytes above the starting stack pointer when post-indexed, `8 * (i + 1)` when pre-indexed; memory and other registers are unchanged |
| EltwiseOps.ReloadedFrom | src/cpu/aarch64/injectors/jit_uni_eltwise_injector.cpp:218-220 | reloading pushed registers in reverse reads each one's own word (post-indexed) or the word above it (pre-indexed), and returns the stack pointer |
| EltwiseOps.StackRoundTrip | src/cpu/aarch64/injectors/jit_uni_eltwise_injector.cpp:84-88 | pushing distinct GPRs and popping them in reverse restores each one and the stack pointer, and leaves the others alone |
| EltwiseOps.StackLoadsShifted | src/cpu/aarch64/injectors/jit_uni_eltwise_injector.cpp:218-220 | reloading them with pre-indexed loads instead gives the first one pushed the word at the starting stack pointer and every later one the value of the one pushed before it |
| EltwiseOps.BodyApplies | src/cpu/aarch64/injectors/jit_uni_eltwise_injector.cpp:2476-2568 | a `compute_body` applies its routine to exactly the given registers, in order |
| EltwiseTable.InsertSorted | src/cpu/aarch64/injectors/jit_uni_eltwise_injector.cpp:3109-3113 | an `entry_map_` insert keeps the map sorted and adds exactly the element |
| EltwiseTable.InsertAllRuns | src/cpu/aarch64/injectors/jit_uni_eltwise_injector.cpp:3115-3121 | after the pushes, each key's elements are its entries in push order |
| EltwiseTable.SetOffsetsProperties | src/cpu/aarch64/injectors/jit_uni_eltwise_injector.cpp:3144-3149 | the offset loop lays the elements out and changes nothing else |
| EltwiseTable.RegistrationLaysOut | src/cpu/aarch64/injectors/jit_uni_eltwise_injector.cpp:3107-3149 | after registration the map is key-sorted and laid out, and uniform tables give uniform keys |
| EltwiseTable.DebugCheckHolds | src/cpu/aarch64/injectors/jit_uni_eltwise_injector.cpp:2622-2633 | the debug check of `prepare_table` holds: the running offset is `table_off(key, occurrence)` |
| EltwiseTable.ImagePlacement | src/cpu/aarch64/injectors/jit_uni_eltwise_injector.cpp:2614-2620 | `prepare_table` puts each element's value at its offset |
| EltwiseTable.TableValIsNthPushed | src/cpu/aarch64/injectors/jit_uni_eltwise_injector.cpp:2594-2635 | at `table_off(key, n)` in the table lies the `n`-th value pushed under `key` |
| EltwiseTable.ConstTable.PushArgEntryOf | src/cpu/aarch64/injectors/jit_uni_eltwise_injector.cpp:3109-3113 | one multimap insert |
| EltwiseTable.ConstTable.PushEntriesOf | src/cpu/aarch64/injectors/jit_uni_eltwise_injector.cpp:3115-3121 | a static table's entries are inserted in order |
| EltwiseTable.ConstTable.RegisterTableEntries | src/cpu/aarch64/injectors/jit_uni_eltwise_injector.cpp:3107-3149 | `scale`, `alpha`, `beta`, then the needed groups, are inserted and laid out; the map is then valid |
| EltwiseTable.ConstTable.AssignOffsets | src/cpu/aarch64/injectors/jit_uni_eltwise_injector.cpp:3144-3149 | the offset loop lays the entries out |
| EltwiseTable.ConstTable.PrepareTable | src/cpu/aarch64/injectors/jit_uni_eltwise_injector.cpp:2594-2635 | with `gen_table`, writes `width / 4` copies of each value in map order; otherwise nothing |
| EltwiseTable.ConstTable.EmitValue | src/cpu/aarch64/injectors/jit_uni_eltwise_injector.cpp:2619-2620 | emits `len / sizeof(table_entry_val_t)` copies of a value |
| EltwiseTable.ConstTable.EmitChecked | src/cpu/aarch64/injectors/jit_uni_eltwise_injector.cpp:2614-2635 | one loop iteration appends the entry's image and keeps the debug check's counters tracking |

## Left out

- Threads and barriers. Each `reduce_nolock` is modelled on its own; the order-independence lemmas stand in for concurrency.
- The scratchpad registrar is left out; bookings are counts of elements and barriers. The `PAGE_4K` alignment is not modelled.
- Integer widths. `int` and `size_t` overflow in the balancer and the reducers is not modelled, because all quantities are unbounded naturals. Element additions do wrap at 32 bits (s32).
- Floating point. The f32 instantiation of the reducers is not modelled. Neither is the arithmetic of the eltwise routines (exp, tanh, log, gelu and the rest, including pow); each routine is one abstract operation on one register. NaN and ordered/unordered semantics of `compute_cmp_mask` are not modelled, only which compare is chosen.
- Instruction emission is left out: register encodings, the five-register address batching (the `add_imm`s into `x_tmp_vec` and the vector save area's addresses), `ptrue` setup, `load_table_addr`, labels and `align(64)`. Also not modelled: the `vlen == 32` routes marked as untested, and the `DNNL_X64_IMPLEMENTATION` branches.
- The static tables' numeric contents are a parameter of `RegisterTableEntries`, except the constants the index lemmas use.
- ReduceBalance.BalanceBufferFits: requires a budget of at least `nthr * job_size`. Without it the assert at line 94 can fail, as `BufferBoundNeedsBudget` shows. The `max(1, ...)` at line 54 admits one job per group even when the budget fits none.
- ReduceDriver.Driver.Run: requires `dst` and the sources not to alias, and `ny >= 1` (the row loop runs at least once). It also requires `n_src >= 1` whenever the 256-element branch runs, because its `dec`/`jnz` source loop would not stop at zero. Every constructor in the source passes `n_src >= 1`.
- CpuReducer2D.Reducer2D.ChooseXBlocking: accepts `nx == x_block`, which the debug assert excludes. A last tile column one block wide gives such an `nx`, and the computation is well defined there.
- EltwiseInjector.Injector.Preamble: requires the spares and the set together to supply `aux_vecs_count()` registers (and register 0 below the set on `asimd`); otherwise the borrowing loop runs off the set.
- EltwiseInjector.Injector.ComputeVectorRange: requires the set to hold at least twice as many registers as are borrowed, which the corrected tail step needs. Contiguous requests always satisfy this (`ContiguousFits`). The whole range is modelled only with the corrected tail step and the corrected postamble; the as-written step is modelled on its own (`PreambleTail`).
- Without `save_state` the preamble saves nothing, so the caller must not need the borrowed registers. That contract is the caller's and is not modelled.
- The stack model takes `X_SP` to be register `x4`, because the preamble lowers `X_SP` and the postamble raises `XReg(4)`. The definition of `X_SP` is not part of this model.
- ReduceDriver.Driver.LoadAndAccumulate: reads exactly one element per source for a one-element chunk. For `s32`, `accumulate` loads a 16-byte `QReg` at that element (cpu_reducer.cpp lines 443-447), so up to 12 bytes past the row, and possibly past the booked reduction space (`space_per_thread` is not padded, lines 609-611 and 646), are read. Only lane 0 is stored back (lines 263-268), so the values are unaffected. The bounds lemmas (`SrcFitsEach`, `NolockFits`, `JobFits`) bound the element read, not the 16 bytes.
- Only the `sve_512` instantiation is compiled. The `asimd` branches of the preamble and of `aux_gprs_count` are kept as an `isa` parameter.

## Findings

| source | as written | input that shows it | evidently intended | confidence | as-written member | corrected member |
|---|---|---|---|---|---|---|
| src/cpu/aarch64/injectors/jit_uni_eltwise_injector.cpp:157-158 | the tail step adds `t` (the number borrowed) to each of the last `t` scratch register numbers | index set `{0, 2, 3, ..., 31}` on `sve_512`: all nine scratch registers are borrowed, and the shifted first one is register 9, which the second `compute_body` computes | the last `t` slots take the `t` registers that follow the borrowed ones in the set, which is the same thing for contiguous sets | not executed | EltwiseRange.ShiftTailCollides | EltwiseInjector.Injector.PreambleTailCorrected |
| src/cpu/aarch64/injectors/jit_uni_eltwise_injector.cpp:218-220 | the postamble reloads the scratch GPRs and `x_table` with pre-indexed loads `ldr Xr, [x4, #8]!`, after the preamble pushed them with pre-decrement stores `str Xr, [X_SP, #-8]!` | any configuration with `save_state`, e.g. `sve_512` (no scratch GPRs): `x_table` holds 1 on entry and the word at the caller's stack pointer holds 0; on exit `x_table` holds 0 | post-indexed pops `ldr Xr, [x4], #8`, which give every pushed register its own word back | not executed | EltwiseRange.PostambleAsWrittenMisloads | EltwiseRange.PostambleUndoesPreamble |
