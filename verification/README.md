# Verified models of a vLLM fork's algorithms

This project models, in Dafny, the self-contained algorithms of a vLLM fork and proves what they
are for. It covers the compiler pass that signs graph partitions, the ridge fit and request traces
of the TAPER benchmark, the build-time report, the ROCm chunked allocator, bad-word masking, the
best-of-n length predictors with their calibration table and replay features, the int8 quantiser
and the index-range printer. `dafny verify dfyconfig.toml` checks everything.

## How to read it

Code that changes state is modelled by methods and classes (`Device`, `Target`, `RequestTrace`,
`NoBadWordsLogitsProcessor`, `Wrapper`), each tied by its postcondition to a function on values;
the theorems are lemmas about those functions. Exceptions are an `Option` or a flag.

| file | models |
|---|---|
| `PartitionSignatures`, `PartitionSoundness`, `MemoryPlanner` | `vllm/env_override.py` |
| `LinearSolve`, `RidgeFit`, `RequestTraces`, `BranchTraces` | `benchmarks/benchmark_taper_plus.py` |
| `BuildSweep`, `SweepSteps`, `BuildReport`, `NinjaLog` | `tools/report_build_time_ninja.py` |
| `ChunkTiling`, `ChunkedAllocator` | `csrc/cumem_allocator.cpp` |
| `BadWords` | `vllm/logits_process.py` |
| `OrderStatistics`, `LengthPredictors`, `PredictionMeanings`, `Calibration`, `PrefixSummaries`, `SummaryMeanings` | `benchmarks/bon_output_length_prediction.py`, `benchmarks/bon_taper_feature_replay.py` |
| `Quantiser` | `vllm/_xpu_ops.py` |
| `IndexRanges` | `vllm/model_inspection.py` |
| `Common`, `RealArith`, `Rounding`, `Sorting` | shared definitions |

Conventions. Floating point is modelled by exact reals. A sort is either a function or, where ties
matter, any permutation in key order. A driver call that may be refused takes its answer from an
arbitrary plan, so statements hold for every pattern of refusals. The exponential weights and the
standard deviation of the length predictors are inputs, positive and not negative respectively;
the exponential of the prefix summaries is a function that below zero moves no further than its
argument. The symbols a partition needs are a function of the partition and its inputs. A graph is
*scheduled* when names are defined once, aliases lead to real names that exist by then, accesses
come after definitions, what is freed is real and not wanted later, and graph inputs are allocated;
it is *well-formed* when in addition every alias in use is backed and nothing unallocated is freed
from outside. Products of reals are written `Mul` so that proofs can treat them as opaque. Every
lemma carries `{:induction false}`: its proof is its body.

## What was found

- Partition signatures: a partition that defines an alias without touching the buffer behind it
  returns that buffer without having it, while its maker drops it
  (`PartitionSoundness.UnbackedAliasStops`). A buffer without an allocation is never a partition
  output, but becomes an input when it is freed in a partition that does not define it, because
  only accessed names are filtered, not freed ones, and then nothing can supply it
  (`PartitionSoundness.UnallocatedFreeStops`). On scheduled graphs these are the only two ways for
  the signed partitions to fail (`PartitionSoundness.SignedRunIsSound`).
- Memory planner: the closing assertion accepts a subgraph that is closed before it is opened
  (`MemoryPlanner.PlannableButNotBalanced`); `MemoryPlanner.BalancedExactly` says what is missing.
- Build report: `earliest` is the least start exactly when no start is negative or the last start
  is the least (`BuildReport.ExtentLength`, `BuildReport.NegativeStartIsLost`). A reset by a changed hash may
  drop records that would still fit the last build (`NinjaLog.CutByHashMayDropMore`);
  `NinjaLog.KeptIsLongestExactly` says when it does not.
- Allocator: with a driver that takes things back, all-or-nothing fails in exactly two ways. An
  error code left over from before makes `create_and_map` keep its first handle
  (`ChunkedAllocator.StaleErrorKeepsHandle`), and a refused access request leaves every chunk
  mapped (`ChunkedAllocator.RefusedAccessKeepsChunk`); `ChunkedAllocator.Device.CreateAndMap` says
  from the state before which outcome it will be. Errors while undoing are ignored there. The chunk
  count covers the request exactly when its rounding does not wrap
  (`ChunkTiling.ChunksTileExactly`, `ChunkTiling.CountMayWrap`).
- Request traces: a branch that brings tokens twice in one output records a latency of zero, below
  the request's own (`RequestTraces.RepeatedBranchIsFaster`); `RequestTraces.RunLatencies` gives
  the exact condition.
- Length predictors: their order holds exactly when the lower bound does not exceed the
  prior (`LengthPredictors.PredictionsInOrder`, `LengthPredictors.BoundMayExceedPrior`).
- Prefix summaries: generator and replay cut the same windows exactly for windows of at least one
  (`PrefixSummaries.WindowsAgreeExactly`).

## Model

| member | source | states |
|---|---|---|
| PartitionSignatures.CollectNames | vllm/env_override.py:238-270 | the loops over nodes gather exactly the names the partition defines, accesses and frees |
| PartitionSignatures.PartitionInputs | vllm/env_override.py:253-280 | the names accessed or freed here that are made elsewhere, filtered and under their real names as the source does |
| PartitionSignatures.SignPartition | vllm/env_override.py:235-334 | one backward step raises exactly when an alias chain is endless or a returned buffer has no node, and otherwise yields the signature, every field of it told from the nodes' own names, and the next set of unmet names |
| PartitionSignatures.SignAll | vllm/env_override.py:235-336 | the pass fails exactly when some step does, and returns the signatures in partition order |
| PartitionSignatures.GetGraphPartitionSignature | vllm/env_override.py:198-336 | lists of different lengths are paired from the back and the surplus in front is left unsigned; counted from the back, each signature carries the flag of its partition, the symbols for its own input nodes, and exactly the inputs, constants, outputs and deallocations that its nodes' names call for |
| PartitionSignatures.NamesOfNodes | vllm/env_override.py:238-270 | the collected sets hold exactly the names that some node defines, touches or frees |
| PartitionSignatures.InputsComeFromOutside | vllm/env_override.py:253-280 | an input is exactly the real name of an allocated name that a node touches and none defines, or a name with a node that one frees and none defines |
| PartitionSignatures.ReturnedAreHandedOn | vllm/env_override.py:243-307 | a returned name is exactly the real name of a definition that is wanted later or of an input node that is not freed |
| PartitionSignatures.SignatureDescribes | vllm/env_override.py:238-328 | every field of a signature, over the name sets of the nodes |
| PartitionSignatures.UnallocatedExactly | vllm/env_override.py:215-233 | a buffer is unallocated exactly when its layout says so and, for a mutation output with a real name, that one is unallocated too |
| PartitionSignatures.FailureIsFinal | vllm/env_override.py:235-336 | a step that raises ends the whole pass, whatever partitions come before it |
| PartitionSoundness.SignedRunIsSound | vllm/env_override.py:198-336 | on every scheduled graph the pass raises nothing; running the partitions forward from the graph inputs, each needing its inputs and having only these and its own definitions to access and return, gets to the end exactly when every alias in use is backed where it is defined and nothing unallocated is freed from outside; it then ends with every existing, allocated graph output available under its real name |
| PartitionSoundness.FreedIsGone | vllm/env_override.py:268-307 | on a well-formed graph the run completes, and whatever some partition frees, among names that have a node, is no longer held when it ends |
| PartitionSoundness.FreedIsDropped | vllm/env_override.py:268-307 | a freed buffer is not held when its partition returns |
| PartitionSoundness.StepKeepsSupply | vllm/env_override.py:282-334 | on a well-formed graph one signed partition runs and keeps everything still unmet at hand |
| PartitionSoundness.PassNeverFails | vllm/env_override.py:215-233 | on a scheduled graph no step of the pass raises |
| PartitionSoundness.AliasChainsEnd | vllm/env_override.py:215-233 | when aliases resolve in one hop the layout query always ends |
| PartitionSoundness.UnmetIsWanted | vllm/env_override.py:332-334 | a name is kept unmet only if the graph returns it or a later partition touches or frees its buffer |
| PartitionSoundness.InputsAreReady | vllm/env_override.py:253-280 | on a scheduled graph every partition input with a node is a real buffer that exists before the partition, and an allocated one unless it is an unallocated buffer freed here |
| PartitionSoundness.InputsAreAvailable | vllm/env_override.py:253-280 | when everything unmet is at hand and nothing unallocated is freed, so are the inputs |
| PartitionSoundness.ReturnedIsReal | vllm/env_override.py:282-303 | what is returned is a real buffer that has a node and exists afterwards |
| PartitionSoundness.RunIsSupplied | vllm/env_override.py:235-336 | from any partition on, a supplied run of a well-formed graph completes and stays supplied |
| PartitionSoundness.UnwantedIsNotReturned | vllm/env_override.py:287-303 | a buffer nobody wants later is not returned unless it is an input that stays alive |
| PartitionSoundness.UnwantedStaysAway | vllm/env_override.py:235-336 | a buffer nobody wants and nobody holds never comes back |
| PartitionSoundness.InputsFreedOrReturned | vllm/env_override.py:287-307 | on a scheduled graph every input is either deallocated or returned as an output, never both |
| PartitionSoundness.InputsCoverAccesses | vllm/env_override.py:245-266 | the buffers behind the allocated names a partition accesses are its inputs or definitions exactly when every alias it both defines and accesses stands for a buffer it makes, frees or reaches under a name it does not define |
| PartitionSoundness.OutputsAreItsOwn | vllm/env_override.py:287-313 | a partition returns only what it takes in or makes exactly when every alias it hands on, for an allocated buffer, is backed in that sense |
| PartitionSoundness.AliasUnmetExactly | vllm/env_override.py:297-334 | an alias is left unmet exactly when the graph returns it, so the condition can be read off the graph |
| PartitionSoundness.SelfContainedExactly | vllm/env_override.py:235-334 | a partition can do its work with what its signature gives it exactly when the aliases it defines and uses are backed |
| PartitionSoundness.UnbackedStops | vllm/env_override.py:235-336 | a run stops at the latest at a partition whose aliases are not backed, whatever is at hand |
| PartitionSoundness.UnbackedAliasStops | vllm/env_override.py:243-334 | a graph that meets every other assumption on which a buffer is dropped by its maker and returned by a partition that never had it |
| PartitionSoundness.NoneLayoutInputs | vllm/env_override.py:251-313 | where aliases of allocated names are allocated, no output is unallocated, and no input is, exactly when nothing unallocated is freed without being defined |
| PartitionSoundness.UnallocatedStops | vllm/env_override.py:251-313 | an unallocated buffer is never returned, so a run that starts without it stops at the latest at a partition that frees it without having made it |
| PartitionSoundness.UnallocatedFreeStops | vllm/env_override.py:268-280 | a graph with an unallocated buffer made in one partition and freed in the next, where this happens |
| PartitionSoundness.StepIsTextbook | vllm/env_override.py:297-334 | without aliases, subtracting pass-through outputs still gives inputs plus live-out minus definitions |
| PartitionSoundness.UnmetIsLive | vllm/env_override.py:332-334 | without aliases the unmet names are exactly the live ones |
| PartitionSoundness.OwnDefinitionsReturned | vllm/env_override.py:243-313 | without aliases a partition returns an allocated definition of its own exactly when it is live afterwards |
| PartitionSoundness.MutationIsWellFormed | vllm/env_override.py:264-307 | the assumptions of the soundness theorem hold of a graph with an in-place mutation |
| MemoryPlanner.Wrapper.DropPointlessTail | vllm/env_override.py:166-172 | drops the longest tail of planning lines that are not outputs |
| MemoryPlanner.Wrapper.PlanReuse | vllm/env_override.py:174-186 | fails exactly when a line needs a state and none is open or the stack does not end with one; each planned line gets the innermost state open around it |
| MemoryPlanner.Wrapper.MemoryPlanReuse | vllm/env_override.py:166-186 | what is dropped is pointless, the last line that is left is not, and what is left is planned |
| MemoryPlanner.TopIsInnermost | vllm/env_override.py:175-184 | the state on top of the stack is the innermost one open |
| MemoryPlanner.StateStays | vllm/env_override.py:175-184 | a state keeps its place while the stack above it comes and goes |
| MemoryPlanner.BalancedIsPlannable | vllm/env_override.py:175-186 | balanced subgraphs are always planned without a failure |
| MemoryPlanner.PlannableButNotBalanced | vllm/env_override.py:185-186 | lines that pass the closing assertion although their subgraphs are not balanced |
| MemoryPlanner.BalancedExactly | vllm/env_override.py:175-186 | subgraphs are balanced exactly when planning succeeds and the stack is never empty on the way |
| LinearSolve.Pivot | benchmarks/benchmark_taper_plus.py:768 | the first row from the column on with the largest entry in size |
| LinearSolve.ClearColumn | benchmarks/benchmark_taper_plus.py:772-781 | normalises the pivot row and clears the column from the others |
| LinearSolve.ClearedActsLike | benchmarks/benchmark_taper_plus.py:772-781 | where the finished rows vanish, the remaining rows act like the original ones |
| LinearSolve.ClearedFollows | benchmarks/benchmark_taper_plus.py:772-781 | a solution of the original equations stays one |
| LinearSolve.ClearedReduced | benchmarks/benchmark_taper_plus.py:772-781 | one more column is reduced and the finished ones stay so |
| LinearSolve.SwappedActsLike | benchmarks/benchmark_taper_plus.py:771 | swapping in the pivot row keeps the rows acting like the original ones, swapped alike |
| LinearSolve.SwappedFollows | benchmarks/benchmark_taper_plus.py:771 | solutions of the original equations survive the swap |
| LinearSolve.SwappedReduced | benchmarks/benchmark_taper_plus.py:771 | the finished columns survive the swap, and the pivot row is in place |
| LinearSolve.WitnessVanishes | benchmarks/benchmark_taper_plus.py:769-770 | a column without a pivot exposes a vector that every row sends within 1e-9 of zero |
| LinearSolve.FinishedSolution | benchmarks/benchmark_taper_plus.py:782 | the last column of the reduced matrix is the only solution |
| LinearSolve.Solve | benchmarks/benchmark_taper_plus.py:764-782 | an answer is the system's only solution; none is given only for a near-singular system, and always when the first column is below the threshold |
| RidgeFit.NormalEquations | benchmarks/benchmark_taper_plus.py:791-807 | the loops accumulate the Gram matrix plus ridge and the moment vector |
| RidgeFit.AddRow | benchmarks/benchmark_taper_plus.py:798-803 | the inner loop adds a multiple of the features |
| RidgeFit.AddSample | benchmarks/benchmark_taper_plus.py:793-803 | one sample adds its outer product and its moment |
| RidgeFit.GramIsCoupling | benchmarks/benchmark_taper_plus.py:793-803 | the accumulated matrix is the sum of products of predictions |
| RidgeFit.MomentIsResponse | benchmarks/benchmark_taper_plus.py:793-803 | the accumulated vector is the sum of predictions times observations |
| RidgeFit.VanishingIsShort | benchmarks/benchmark_taper_plus.py:805-807 | what the ridged matrix sends close to zero is short |
| RidgeFit.ResidualExpansion | benchmarks/benchmark_taper_plus.py:793-803 | squared residuals of any two coefficient vectors differ by a linear and a quadratic term |
| RidgeFit.RidgedIsNotNearSingular | benchmarks/benchmark_taper_plus.py:805-811 | with the ridge every vector is moved by more than the pivot threshold, whatever the row swaps |
| RidgeFit.LossAroundSolution | benchmarks/benchmark_taper_plus.py:793-809 | away from the solution the loss grows by the squared change in predictions plus the ridge on the change |
| RidgeFit.SolutionIsUniqueMinimiser | benchmarks/benchmark_taper_plus.py:793-809 | the solved coefficients are the unique minimiser of squared residuals plus ridge |
| RidgeFit.FitTaperLatencyCoefficients | benchmarks/benchmark_taper_plus.py:785-816 | fails exactly for fewer than three samples; otherwise base, width and context are, each raised to its own floor, those of the one line with the least sum of squared errors and penalty, and predict what it predicts when no floor binds |
| RidgeFit.ErrorsInFields | benchmarks/benchmark_taper_plus.py:794-810 | the loss in vectors is the loss in the named fields of the samples |
| RidgeFit.PredictionInFields | benchmarks/benchmark_taper_plus.py:794-810 | the features times a vector are base plus width times decode width plus context times context length |
| RidgeFit.MinimiserIsBestLine | benchmarks/benchmark_taper_plus.py:785-816 | the unique minimiser among vectors is the unique best line |
| RequestTraces.RequestTrace.UpdateFromOutput | benchmarks/benchmark_taper_plus.py:481-519 | the trace after an output is the specified function of the trace before, whose meaning over runs the rows below and those of `BranchTraces` give |
| RequestTraces.RequestTrace.AddBranch | benchmarks/benchmark_taper_plus.py:499-515 | one completion updates its branch and no other, as specified |
| RequestTraces.RequestTrace.AddLogical | benchmarks/benchmark_taper_plus.py:489-497 | the tokens of one output update the request itself |
| RequestTraces.BranchesAddUp | benchmarks/benchmark_taper_plus.py:499-515 | the completions of one output keep branch counts and output tokens in step |
| RequestTraces.UpdateTelescopes | benchmarks/benchmark_taper_plus.py:489-505 | one more output keeps the telescoping sum |
| RequestTraces.RunAddsUp | benchmarks/benchmark_taper_plus.py:499-515 | over every run the branch counts add up to the output tokens, which are all tokens streamed |
| RequestTraces.RunTelescopes | benchmarks/benchmark_taper_plus.py:489-505 | over every run there is one latency per output with tokens after the first, and latencies times tokens add up to the time from the first token to the last |
| RequestTraces.RequestLatencyIsSmallest | benchmarks/benchmark_taper_plus.py:489-513 | with time not going back, a request latency is at most every branch latency recorded by the same output exactly when no branch brings tokens twice in it or no time has passed; earlier latencies stay |
| RequestTraces.BranchLatenciesAtLeast | benchmarks/benchmark_taper_plus.py:499-513 | when no branch brings tokens twice or no time has passed, every latency the branches of one output record is at least the time elapsed per token of the whole output |
| RequestTraces.RepeatIsFaster | benchmarks/benchmark_taper_plus.py:499-511 | the second time a branch brings tokens in one output it records a latency below the request's |
| RequestTraces.RunStaysBehind | benchmarks/benchmark_taper_plus.py:489-513 | in runs with time not going back no branch is ever ahead of the request |
| RequestTraces.RunLatencies | benchmarks/benchmark_taper_plus.py:489-513 | the exact condition holds at every step of every run with time not going back |
| RequestTraces.RepeatedBranchIsFaster | benchmarks/benchmark_taper_plus.py:499-511 | a run of two outputs in which the second names its branch twice and the order fails |
| BranchTraces.RunHoldsBranches | benchmarks/benchmark_taper_plus.py:481-519 | over every run and for every branch: the latencies recorded for it, times the tokens that brought them, add up to the time from its first tokens to its last; there is one latency for each completion with tokens after the first; its token count and last time are those of its completions |
| BranchTraces.UpdateHolds | benchmarks/benchmark_taper_plus.py:481-519 | one output keeps this |
| BranchTraces.BranchHolds | benchmarks/benchmark_taper_plus.py:499-515 | so does one completion |
| BranchTraces.RunMilestones | benchmarks/benchmark_taper_plus.py:486-519 | over every run the prompt length is the first one given, the finish time that of the last finished output, and the last token time that of the last output with tokens |
| BranchTraces.UpdateMilestones | benchmarks/benchmark_taper_plus.py:486-519 | one output's part in these |
| BuildSweep.TiesDoNotMatter | tools/report_build_time_ninja.py:223-224 | however ties are sorted the event times, and so all shares, are the same |
| BuildSweep.SharesAreBusyTime | tools/report_build_time_ninja.py:237-255 | the shares of all tasks add up to the time during which something runs |
| BuildSweep.CompanySplitsDuration | tools/report_build_time_ninja.py:237-255 | a task that has the same tasks beside it throughout gets its duration divided by their number, itself included |
| BuildSweep.CompanyShares | tools/report_build_time_ninja.py:237-255 | up to any event it has got the time elapsed, so divided |
| BuildSweep.ShareWithinDuration | tools/report_build_time_ninja.py:74-89 | a task's share lies between zero and its duration |
| BuildSweep.BusyIsLengthExactly | tools/report_build_time_ninja.py:258-265 | busy time is at most the length of the build and equals it exactly when no moment is idle |
| BuildSweep.SortedTimes | tools/report_build_time_ninja.py:224 | any order the sort may give is ascending in time and holds every start and end |
| BuildSweep.CoveredExactlyWhenRunning | tools/report_build_time_ninja.py:241-244 | a stretch between two events counts exactly when something runs inside it |
| BuildSweep.BusyWithoutGap | tools/report_build_time_ninja.py:237-255 | without an idle moment busy time is elapsed time |
| BuildSweep.BusyWithGap | tools/report_build_time_ninja.py:237-255 | with an idle moment it is less |
| SweepSteps.AdvanceKeepsAccount | tools/report_build_time_ninja.py:240-244 | adding a stretch of time keeps every running task's account equal to its covered shares |
| SweepSteps.RunningIsCovering | tools/report_build_time_ninja.py:241-244 | the running tasks are exactly those that span the stretch |
| SweepSteps.StartKeepsAccount | tools/report_build_time_ninja.py:245-247 | a start keeps the account |
| SweepSteps.StopKeepsAccount | tools/report_build_time_ninja.py:248-254 | a stop keeps the account and settles a share that was still zero |
| SweepSteps.StopNotBeforeStart | tools/report_build_time_ninja.py:224-228 | no task has stopped before its start is met, ties included |
| SweepSteps.StopFindsItsTask | tools/report_build_time_ninja.py:248-254 | a stop finds its task running exactly when the task does not end before it starts |
| SweepSteps.AllAccounted | tools/report_build_time_ninja.py:256 | after the last event nothing runs, every task has its share, and they sum to busy time |
| BuildReport.Target.constructor | tools/report_build_time_ninja.py:57-64 | a new target has its times, no outputs and no weight |
| BuildReport.Extent | tools/report_build_time_ninja.py:209-220 | what the loop computes for earliest and latest, and exactly when these are the least start and the greatest end |
| BuildReport.NegativeStartIsLost | tools/report_build_time_ninja.py:209-220 | two steps for which the least start is lost and the length comes out short |
| BuildReport.ProcessEvent | tools/report_build_time_ninja.py:238-255 | one event keeps the account, and fails only for a task that ends before it starts |
| BuildReport.Sweep | tools/report_build_time_ninja.py:224-256 | fails exactly for no entries or a reversed one; otherwise each target holds its share and the total is busy time |
| BuildReport.Record | tools/report_build_time_ninja.py:248-253 | writes a stopped target's weighted duration and leaves every other as it was |
| BuildReport.ExtentLength | tools/report_build_time_ninja.py:209-220 | the reported length is right exactly when no start is negative, the least start comes last, or, with negative ends only, the last start lies as far below zero as the build is long |
| BuildReport.SummarizeEntries | tools/report_build_time_ninja.py:198-265 | fails exactly for no entries or a reversed one; every weighted duration is its share and within its duration; the weighted total never exceeds the time from earliest start to latest end and equals it exactly when nothing was idle; the reported length is that time exactly when the stated condition on signs holds |
| BuildReport.TotalIsEndsLessStarts | tools/report_build_time_ninja.py:217 | the total time is the sum of the ends less that of the starts |
| NinjaLog.GroupedCollects | tools/report_build_time_ninja.py:132-147 | one group per hash, with exactly its records in order and the first one's times |
| NinjaLog.LastBuildIsOneBuild | tools/report_build_time_ninja.py:124-143 | in the kept suffix, at every point of the log, end times never go back and equal hashes have equal times |
| NinjaLog.KeptIsLongestExactly | tools/report_build_time_ninja.py:124-143 | at every point of the log, no longer suffix could be one build exactly when the kept one reaches back to the first record, starts where time goes back, or holds the hash of the record before it with other times |
| NinjaLog.OneBuildOneMore | tools/report_build_time_ninja.py:124-143 | a record can be put in front of a build exactly when it does not end later and no record has its hash with other times |
| NinjaLog.CutByHashMayDropMore | tools/report_build_time_ninja.py:133-143 | a log on which the kept suffix is not the longest |
| NinjaLog.Insert | tools/report_build_time_ninja.py:132-147 | files a record under its hash, creating the target if need be |
| NinjaLog.MustReset | tools/report_build_time_ninja.py:124-143 | emptying the dictionary or not, as it answers, and filing the record gives the groups of the records kept so far |
| NinjaLog.OtherTimes | tools/report_build_time_ninja.py:133-135 | comparing with the one target under a hash finds a disagreement exactly when some record kept disagrees |
| NinjaLog.KeptNext | tools/report_build_time_ninja.py:124-143 | one more record extends what is kept or starts it afresh |
| NinjaLog.ReadRecord | tools/report_build_time_ninja.py:124-147 | one turn of the loop keeps the dictionary equal to the groups of the records kept |
| NinjaLog.InOrder | tools/report_build_time_ninja.py:148 | the values come in order of first appearance, each once |
| NinjaLog.ReadTargets | tools/report_build_time_ninja.py:104-148 | returns the groups of all valid records, or of the last build's suffix of them |
| NinjaLog.GroupTimesInMs | tools/report_build_time_ninja.py:122-123 | a thousand times a target's start, end and duration are the milliseconds of the first record with its hash |
| NinjaLog.KeptIsGreedy | tools/report_build_time_ninja.py:124-143 | a record joins those kept exactly when together they could be one build, and otherwise starts anew |
| ChunkTiling.BaseChunk | csrc/cumem_allocator.cpp:24-42 | the configured chunk is a positive whole number of megabytes that fits 64 bits |
| ChunkTiling.ChunkIsAsConfigured | csrc/cumem_allocator.cpp:24-42 | a configured number of megabytes is honoured exactly when it is positive and fits 64 bits, else the chunk is 256 MB |
| ChunkTiling.AlignUpExactly | csrc/cumem_allocator.cpp:319 | rounding up reaches the request exactly when the sum does not wrap, and is then its next multiple; it gives zero exactly for zero or when the sum wraps |
| ChunkTiling.ChunksTile | csrc/cumem_allocator.cpp:344-369 | when nothing wraps, all chunks but the last are full, all are positive multiples of the granularity, and they add up to the size |
| ChunkTiling.ChunksTileExactly | csrc/cumem_allocator.cpp:347-369 | they add up to the size exactly when the rounding of the count does not wrap |
| ChunkTiling.CountMayWrap | csrc/cumem_allocator.cpp:347-348 | an aligned size for which the count of default chunks wraps to none |
| ChunkTiling.ComputeChunks | csrc/cumem_allocator.cpp:319-369 | the loop fills sizes that tile the request rounded up to the granularity whenever counting them does not wrap; the request is covered, by less than one granule too much, exactly when its own rounding does not wrap; a request for nothing gets no chunks; the precondition rules out only a chunk size of zero, by which the source would divide |
| ChunkedAllocator.AlignedRangeTiled | csrc/cumem_allocator.cpp:160-178 | when nothing wraps, the running offsets put every address of the aligned range in exactly one chunk |
| ChunkedAllocator.UnmapLeavesRest | csrc/cumem_allocator.cpp:165-171 | unmapping the first chunks leaves the others and everything else |
| ChunkedAllocator.MapNext | csrc/cumem_allocator.cpp:160-178 | a chunk that fits its place is laid on top of those before it |
| ChunkedAllocator.UnmapUndoesMap | csrc/cumem_allocator.cpp:165-171 | unmapping by running offset removes exactly the chunks' mappings |
| ChunkedAllocator.UnmapKeeps | csrc/cumem_allocator.cpp:165-171 | whatever the driver answers, unmapping chunks loses nothing that was mapped before them |
| ChunkedAllocator.UnmappedExactly | csrc/cumem_allocator.cpp:165-171 | unmapping chunks takes all of them away exactly when the driver lets every one go |
| ChunkedAllocator.ReleasedExactly | csrc/cumem_allocator.cpp:173-175 | releasing new handles gives all of them back exactly when the driver takes every one |
| ChunkedAllocator.FailsOnce | csrc/cumem_allocator.cpp:150-190 | an allocation fails at one request only, determined by the answers ahead and the room there is |
| ChunkedAllocator.FailsSomewhere | csrc/cumem_allocator.cpp:150-190 | some request fails exactly when not all are granted or there is no room |
| ChunkedAllocator.Device.UnmapChunks | csrc/cumem_allocator.cpp:219-226 | unmaps what is mapped and the driver lets go, and reports an error exactly when something is missing or refused; the error is that of the first such chunk |
| ChunkedAllocator.Device.ReleaseHandles | csrc/cumem_allocator.cpp:228-233 | releases the handles the driver lets go, and reports an error exactly when one is missing, repeated or refused; the error is that of the first such handle |
| ChunkedAllocator.Device.CreateHandles | csrc/cumem_allocator.cpp:150-159 | creates all handles exactly when the driver grants them all; otherwise, at the first refusal, it gives back as many as it has, and none is left exactly when the driver takes every one; with a stale error it keeps the first; the error is the driver's answer to the refused request |
| ChunkedAllocator.Device.MapChunks | csrc/cumem_allocator.cpp:160-179 | maps all chunks exactly when the driver grants all and their places are free; otherwise, at the first chunk refused or without room, it gives back every chunk mapped and every handle, and none is left exactly when the driver takes every one; nothing else is lost; the error is the driver's answer, or an invalid value where there is no room |
| ChunkedAllocator.Device.GiveUpMapping | csrc/cumem_allocator.cpp:164-177 | takes back the chunks mapped so far and every handle; none is left exactly when the driver takes every one, and nothing else is lost |
| ChunkedAllocator.Device.CreateAndMap | csrc/cumem_allocator.cpp:150-190 | succeeds exactly when the driver grants every request and the range is free; if only the request for access is refused, everything is left in place; for any other refusal it stops there, gives back as many things as it got, and nothing is left exactly when the driver takes every one; a stale error leaves the first handle; the error is the answer to the request that failed |
| ChunkedAllocator.StaleErrorKeepsHandle | csrc/cumem_allocator.cpp:150-159 | two allocations, the first refused and its error not cleared, after which a handle is left and nothing is mapped |
| ChunkedAllocator.RefusedAccessKeepsChunk | csrc/cumem_allocator.cpp:186-190 | an allocation of one chunk whose access is refused, after which the handle and the mapping are left |
| ChunkedAllocator.Device.UnmapAndRelease | csrc/cumem_allocator.cpp:216-237 | gives back everything that is there and the driver lets go; undoes a successful allocation exactly when the driver lets everything go; reports an error exactly when a mapping or a handle is missing or refused; the error is the first of the unmapping or, if there is none, of the releasing |
| ChunkedAllocator.Device.Cycle | csrc/cumem_allocator.cpp:655-656 | one sleep and, if it raised nothing, one wake; succeeds exactly when the driver grants everything and the range is free; otherwise, in terms of the answers ahead, something is still there and waking was not attempted, or waking left all, none or part as for an allocation |
| ChunkedAllocator.Device.SleepWake | csrc/cumem_allocator.cpp:722-726 | any number of sleep and wake cycles succeeds exactly when the driver grants every request and the range is free, and then leaves the allocation as it was; otherwise the first cycle with a refusal stops, leaving what one cycle leaves |
| BadWords.PrefixTest | vllm/logits_process.py:70-80 | comparing the last tokens with the prefix tells whether the word would be completed |
| BadWords.SplitMask | vllm/logits_process.py:66-85 | one-token words and longer ones together give exactly the tokens that complete a word |
| BadWords.CompletedThere | vllm/logits_process.py:70-80 | a word is completed at a position exactly when it occurs ending there |
| BadWords.NoBadWordsLogitsProcessor.constructor | vllm/logits_process.py:52-54 | a new processor has its words and an empty cache |
| BadWords.NoBadWordsLogitsProcessor.CheckTokenIdsBounds | vllm/logits_process.py:106-121 | lists exactly the tokens outside the vocabulary |
| BadWords.NoBadWordsLogitsProcessor.InitWordBias | vllm/logits_process.py:89-104 | caches the bias of one-token words, or fails for a token outside the vocabulary and leaves the cache alone |
| BadWords.NoBadWordsLogitsProcessor.LastTokenBias | vllm/logits_process.py:64-83 | masks exactly the tokens completing a longer word; fails exactly for an empty word or a compared word whose last token lies beyond the logits |
| BadWords.NoBadWordsLogitsProcessor.Call | vllm/logits_process.py:56-87 | for logits of any length, returns what the specification says for the vocabulary of the cache, which is filled once by the first call that passes the bounds check |
| BadWords.ResultExactly | vllm/logits_process.py:64-87 | with logits for the cached vocabulary a call fails exactly for an empty word or a token outside it, and otherwise masks exactly the tokens that complete a bad word and leaves the others alone |
| BadWords.ResultRepeats | vllm/logits_process.py:64-87 | where a single logit or a vocabulary of one is spread over the other, which tokens are masked and which logit the others keep |
| BadWords.ResultMasks | vllm/logits_process.py:64-87 | with logits of any length that can be added at all, no token that completes a bad word is left open |
| BadWords.GeneratedIsClean | vllm/logits_process.py:56-87 | text generated through the mask never contains a bad word, whatever lengths the logits have |
| BadWords.CleanCanBeGenerated | vllm/logits_process.py:66-85 | any text without bad words can be generated from finite logits for the vocabulary, exactly when the words are usable |
| BadWords.Generate | vllm/logits_process.py:48-87 | a whole generation with one cached processor and any logits stops only where the next choice is not available, and no bad word comes out |
| OrderStatistics.PercentileMonotone | benchmarks/bon_output_length_prediction.py:674-684 | percentiles of any values grow with q between 0 and 1 |
| OrderStatistics.InterpolateBetween | benchmarks/bon_output_length_prediction.py:677-684 | an interpolated value lies between its neighbours |
| OrderStatistics.InterpolateMonotone | benchmarks/bon_output_length_prediction.py:677-684 | interpolation grows with the position |
| OrderStatistics.PercentileBounded | benchmarks/bon_output_length_prediction.py:674-684 | and stay within the bounds of the values |
| OrderStatistics.StepFormAgrees | benchmarks/benchmark_taper_plus.py:125 | the last line, a step from the lower neighbour, gives the interpolated value |
| OrderStatistics.PercentilesAgree | benchmarks/benchmark_taper_plus.py:111-125 | the whole function, in percent, gives the same value as the other program for every list that is not empty |
| OrderStatistics.InterpolateIsAtRank | benchmarks/bon_output_length_prediction.py:677-684 | at a whole position it is that value, and in between the step from the lower neighbour is the fraction times the gap |
| OrderStatistics.PercentileIsAtRank | benchmarks/bon_output_length_prediction.py:674-684 | a percentile is the value at rank q times n minus one of the sorted list |
| LengthPredictors.PredictionsInOrder | benchmarks/bon_output_length_prediction.py:713-803 | for the first branches of any sorted list to finish, and a shrinkage, floor and deviation that are not negative: bound, median blend, confidence blend, tail mean, p75, p90 and prior are in order exactly when the bound does not exceed the prior |
| LengthPredictors.BoundMayExceedPrior | benchmarks/bon_output_length_prediction.py:742-744 | a finished branch longer than the prior, for which the order fails |
| LengthPredictors.PredictionsCensored | benchmarks/bon_output_length_prediction.py:731-803 | when the bound does not exceed the prior, every other censored predictor lies between the two, and the blends with the tail mean below the tail mean |
| LengthPredictors.WeightIsFraction | benchmarks/bon_output_length_prediction.py:722 | the weight given to siblings is positive and at most one |
| LengthPredictors.ConfidenceIsFraction | benchmarks/bon_output_length_prediction.py:766-778 | confidence lies between zero and one, whatever the mean, bound and prior |
| LengthPredictors.OrderOfBlends | benchmarks/bon_output_length_prediction.py:745-803 | the median blend never exceeds the confidence blend, nor that the tail mean |
| LengthPredictors.MedianAtMost | benchmarks/bon_output_length_prediction.py:724 | the median of the finished lengths never exceeds the longest |
| LengthPredictors.SiblingMeanIsShort | benchmarks/bon_output_length_prediction.py:960-977 | the mean of finished siblings never exceeds the length of a remaining branch |
| LengthPredictors.SoftmaxAtMost | benchmarks/bon_output_length_prediction.py:691-710 | the weighted length never exceeds the longest finished one |
| PredictionMeanings.PredictionsTell | benchmarks/bon_output_length_prediction.py:713-803 | every field for any finished branches: the mean times their number is the total; each shrunk or blended field divides the distance between its two estimates as the shrinkage is to the number finished, then is raised to the bound; tail mean, p75 and p90 divide the distance from bound to prior evenly, 3 to 1 and 9 to 1; the confidence blends divide theirs by the confidence |
| PredictionMeanings.MedianIsMedian | benchmarks/bon_output_length_prediction.py:724 | the median is midway between the two middle lengths of the sorted list |
| PredictionMeanings.MedianHalves | benchmarks/bon_output_length_prediction.py:724 | at least half of the lengths lie on each side of it |
| PredictionMeanings.LogprobEstimates | benchmarks/bon_output_length_prediction.py:689-709 | the weighted length balances the weighted deviations; without any weight it is the mean |
| PredictionMeanings.BlendDivides | benchmarks/bon_output_length_prediction.py:732-737 | a blend divides the distance between its two values as shrinkage to number |
| PredictionMeanings.BoundShareIs | benchmarks/bon_output_length_prediction.py:770 | the share of the prior that the bound makes up, from none to all |
| PredictionMeanings.ConfidenceIs | benchmarks/bon_output_length_prediction.py:766-778 | confidence times the number finished plus shrinkage times the mean plus deviation is the number times the mean times half of one plus the bound's share, where the mean counts as one at least |
| PredictionMeanings.TrustIs | benchmarks/bon_output_length_prediction.py:780-789 | the confidence blends divide as confidence to doubt, and the adjusted one adds 15 per cent of the doubted gap up to the prior |
| PredictionMeanings.PredictedMeanIsShort | benchmarks/bon_output_length_prediction.py:713-803 | the predicted mean of the finished branches is at most every remaining length |
| Calibration.FitOrderCalibration | benchmarks/bon_output_length_prediction.py:1138-1169 | the table has exactly the levels with enough samples, each summarised from the samples that filtering gives |
| Calibration.AddLevelsGroups | benchmarks/bon_output_length_prediction.py:1144-1156 | filing one more sample under its four levels keeps every group equal to filtering |
| Calibration.StatsAscend | benchmarks/bon_output_length_prediction.py:1158-1168 | the quantiles of a level are in order |
| Calibration.LookupCalibration | benchmarks/bon_output_length_prediction.py:1172-1186 | returns the first level present |
| Calibration.LookupIsFinest | benchmarks/bon_output_length_prediction.py:1172-1186 | in a fitted table that is the finest level with enough samples, and the default only without samples |
| Calibration.CalibratedInOrder | benchmarks/bon_output_length_prediction.py:1189-1206 | for a prior that is not negative, every calibrated prediction has bound, median, p75 and p90 in order, and the mean above the bound |
| Calibration.CalibratedTells | benchmarks/bon_output_length_prediction.py:1189-1206 | each prediction is the prior times its own statistic, raised to one more than the bound; the statistics are those of the finest level tabulated, and without samples the prior stands for all four |
| Calibration.StatsSummarise | benchmarks/bon_output_length_prediction.py:1162-1168 | count and mean of the values, and the values at half, three quarters and nine tenths of the sorted ranks |
| Calibration.TabulatedExactly | benchmarks/bon_output_length_prediction.py:1158-1161 | a level is tabulated exactly when it groups a sample, and the finest one when it groups enough |
| Calibration.ValuesAreCounted | benchmarks/bon_output_length_prediction.py:1147-1156 | a level collects one value for each sample it groups |
| Calibration.LevelsWiden | benchmarks/bon_output_length_prediction.py:1178-1183 | the four levels compare n, k and bin; n and k; n; nothing |
| PrefixSummaries.WindowsAgreeExactly | benchmarks/bon_taper_feature_replay.py:61-70 | both programs cut the same windows from every prefix exactly for windows of at least one |
| PrefixSummaries.StoredMeanClose | benchmarks/bon_output_length_prediction.py:149-157 | rounding the mean or the values first makes at most 1e-6 difference |
| PrefixSummaries.StoredDeltaClose | benchmarks/bon_output_length_prediction.py:149-157 | and at most 1.5e-6 for a difference of two means |
| PrefixSummaries.RepeatRatesAgree | benchmarks/bon_taper_feature_replay.py:73-82 | both compute the same rate of repeated four-grams |
| PrefixSummaries.SummaryClose | benchmarks/bon_output_length_prediction.py:220-291 | for windows of at least one, a stored summary differs from the recomputation by at most 1e-6 in means, 1.5e-6 in deltas and 5e-7 in the repeat rate |
| PrefixSummaries.ProbClose | benchmarks/bon_output_length_prediction.py:285-289 | exponentiating before rounding or after makes at most 1e-6 difference for logarithms that are not positive |
| PrefixSummaries.SummarisedExactly | benchmarks/bon_output_length_prediction.py:220-223 | a prefix is summarised exactly when it is a checkpoint, positive and short of the end |
| PrefixSummaries.FoundExactly | benchmarks/bon_taper_feature_replay.py:124-145 | the replay reads the stored features exactly for those prefixes |
| PrefixSummaries.PrefixSignalSummary | benchmarks/bon_output_length_prediction.py:210-292 | a prefix has a summary exactly when it is a checkpoint inside the output, with the stored features |
| PrefixSummaries.LivePrefixFeatures | benchmarks/bon_taper_feature_replay.py:119-186 | the first stored summary of the prefix, or else the recomputation |
| PrefixSummaries.ReplayAgrees | benchmarks/bon_taper_feature_replay.py:119-186 | for every branch, checkpoints and prefix, and windows of at least one, features read with and without summaries agree within those bounds, and the end-of-sequence probability within 1e-6 for logarithms that are not positive |
| SummaryMeanings.SummariesTell | benchmarks/bon_output_length_prediction.py:210-292 | in every stored summary, up to half a unit in the sixth digit: averages of prefix and windows are where the values balance, deltas are differences of the window averages, the probability is the exponential of the average, and the repeat rate times the positions is the number of positions whose four tokens occurred before |
| SummaryMeanings.LiveFeaturesTell | benchmarks/bon_taper_feature_replay.py:119-186 | the same of what the replay uses: of the values themselves when a summary is found, otherwise exactly, of the rounded ones |
| SummaryMeanings.StoredTells | benchmarks/bon_output_length_prediction.py:232-291 | the stored features of any prefix |
| SummaryMeanings.RecomputedTells | benchmarks/bon_taper_feature_replay.py:145-186 | the recomputed features of any prefix, exactly |
| SummaryMeanings.MeanAverages | benchmarks/bon_taper_feature_replay.py:61-70 | the deviations from a mean add up to zero |
| SummaryMeanings.RoundedMeanAverages | benchmarks/bon_output_length_prediction.py:149-157 | to half a unit in the sixth digit per value once rounded |
| SummaryMeanings.StoredSignalTells | benchmarks/bon_output_length_prediction.py:236-281 | average, first and recent window and delta as stored |
| SummaryMeanings.ReplaySignalTells | benchmarks/bon_taper_feature_replay.py:146-178 | and as recomputed |
| SummaryMeanings.EosTells | benchmarks/bon_output_length_prediction.py:256-289 | the recent end-of-sequence logprob and its exponential, stored or recomputed |
| SummaryMeanings.RepeatRateTells | benchmarks/bon_output_length_prediction.py:259-265 | the repeat rate counts the positions whose four tokens occurred before |
| SummaryMeanings.DistinctAndRepeated | benchmarks/bon_taper_feature_replay.py:73-82 | distinct runs of four and positions that repeat one make up all positions |
| SummaryMeanings.RateZeroExactly | benchmarks/bon_taper_feature_replay.py:73-82 | the rate is zero exactly when no two positions start the same four tokens |
| SummaryMeanings.StoredHasSixDigits | benchmarks/bon_output_length_prediction.py:155-157 | every number in a summary is a whole number of millionths |
| SummaryMeanings.StoredTokensAreRounded | benchmarks/bon_output_length_prediction.py:541-560 | stored token values are the nearest millionths of the originals, and ids are kept |
| Quantiser.ReconstructionError | vllm/_xpu_ops.py:306-331 | with enough bits, two in the symmetric case and one in the other, every element is recovered within half the scale, and quantised values stay in range |
| Quantiser.SymmetricRange | vllm/_xpu_ops.py:317-321 | scaled values of a symmetric row lie within the range |
| Quantiser.AsymmetricRange | vllm/_xpu_ops.py:322-330 | scaled and shifted values of an asymmetric row overshoot the range by at most half a step |
| Quantiser.QuantizedNear | vllm/_xpu_ops.py:306-331 | clamping or not, a quantised value is within half a step |
| Quantiser.SymmetricClampIsIdle | vllm/_xpu_ops.py:318-331 | in the symmetric case the clamp never changes a value |
| Quantiser.AsymmetricClampExactly | vllm/_xpu_ops.py:323-331 | in the asymmetric case it changes exactly the values half a step above the top |
| Quantiser.ErrorBoundIsSharp | vllm/_xpu_ops.py:318-331 | the bound is attained |
| Quantiser.ScaleIsTight | vllm/_xpu_ops.py:317-323 | the scale is the least number not below 0.00001 that spreads the span over the positive range |
| Quantiser.SpanIs | vllm/_xpu_ops.py:315-323 | the span is the greatest magnitude, or greatest less least |
| Quantiser.AbsoluteError | vllm/_xpu_ops.py:306-331 | so the error is at most half of 0.00001 or half a step of the span, whichever is larger |
| Quantiser.BoundsAttained | vllm/_xpu_ops.py:315-316 | the least and the greatest value are elements of the row |
| Quantiser.EightBits | vllm/_xpu_ops.py:313-314 | for eight bits the ranges are those of signed and unsigned bytes |
| IndexRanges.FormatIndexRanges | vllm/model_inspection.py:44-58 | fails exactly for an empty list; parsing the printed text gives back the sorted indices, negative ones and repeats included |
| IndexRanges.ParseUndoesPrint | vllm/model_inspection.py:54-58 | whatever ranges are printed, the reader spells out the same indices |
| IndexRanges.RunsSpellOut | vllm/model_inspection.py:46-57 | the ranges spell out exactly the sorted list |
| IndexRanges.RunsAreMaximal | vllm/model_inspection.py:50-57 | in a strictly ascending list neighbouring ranges never touch |
| IndexRanges.RangeReadsBack | vllm/model_inspection.py:54-57 | a printed range reads back, and holds no comma |
| IndexRanges.SplitUndoesJoin | vllm/model_inspection.py:58 | splitting undoes joining |
| IndexRanges.DistinctGivesGaps | vllm/model_inspection.py:50-57 | for distinct indices the ranges are increasing, disjoint and never adjacent |
| IndexRanges.PrintedForm | vllm/model_inspection.py:54-57 | a single index is printed without a hyphen between digits, a longer range as its ends around one, and numbers without leading zeros |
| IndexRanges.DocumentedExample | vllm/model_inspection.py:45 | the documented example is printed as documented |

## Left out

- `vllm/env_override.py`: which symbols a partition needs, what a planning state does with a line, and the other patches, which install themselves into a library that is not part of this model.
- `benchmarks/benchmark_taper_plus.py`: the engine loop, workload generation, metrics, command line and file output.
- `tools/report_build_time_ninja.py`: splitting log lines into fields and converting them to integers, the header check, extensions and the printed report, whose averages divide by the length of the build.
- `csrc/cumem_allocator.cpp`: the single-handle CUDA path, device contexts, Python argument handling, host allocation failures and reserving the address range; loop counters are not limited to 32 bits and addresses do not wrap.
- `vllm/logits_process.py`: building the word lists with a tokenizer; positive infinity and not-a-number logits.
- `benchmarks/bon_output_length_prediction.py`: generation, scoring, building calibration samples from records, per-branch logprob predictions, error summaries and splitting, which would add only easy members.
- `benchmarks/bon_taper_feature_replay.py`: statistics of finished branches, prediction features and row output.
- `vllm/_xpu_ops.py`: everything but the reference quantiser, and in it the casts to narrower types.
- `vllm/model_inspection.py`: the module tree around the range printer.
- Quantiser.ReconstructionError: symmetric quantisation to a single bit is not modelled, because its scale divides by zero; empty rows, which have no minimum, are not either.
- BuildReport.Sweep: takes the sorted events as an argument and holds for every order the sort may give; sorting itself is not modelled.
- Rounding errors of floating point, except where six-digit rounding is the point.
