# Verified models of the hft-lab benchmarks

hft-lab is a set of C++ micro-benchmarks. Its shared headers hold concurrent algorithms (counters raced
by pinned threads behind a start barrier) and loop algorithms (a pointer-chase chain, two migration
detectors, percentiles, an interleaved trial schedule) whose correctness is claimed for every run and
checked at run time on some. This project models them in Dafny and proves the claims for every input and
every schedule.

`dafny verify dfyconfig.toml` checks everything.

## How it is organised

| file | content |
|---|---|
| `Sums.dfy`, `Modular.dfy` | words, sums and tallies; remainders by a variable divisor |
| `RaceMachine.dfy` | the race of `race<C>()` as a transition system: main, any number of workers, any aliasing of the counters, all six kinds of counter, one step per atomic access |
| `BarrierProtocol.dfy` | the start barrier |
| `CriticalSections.dfy`, `Lockout.dfy` | mutual exclusion, and that a held lock keeps the others out |
| `AtomicSpec.dfy`, `Totals.dfy`, `Refinement.dfy` | the atomic counter, and the race refining it |
| `CasRetries.dfy`, `CasDuel.dfy` | how often the compare-exchange of one thread can fail, and that it can |
| `CasTotals.dfy`, `CasContest.dfy` | the same for all threads together |
| `Progress.dfy`, `FairTermination.dfy` | no deadlock, a step budget for every schedule, and the return of every fair one |
| `LostUpdates.dfy`, `LossSchedules.dfy`, `LossOutcomes.dfy` | the load-then-store control: bounds on every run, schedules that reach them |
| `RepeatedRaces.dfy` | races one after the other on the same counters |
| `RaceRun.dfy` | the same race as a program with counter objects and mutable fields, each turn proved to be a step of the transition system |
| `Layouts.dfy`, `CpuSelection.dfy` | private counter layouts, the false-sharing runner, CPU selection |
| `Cycles.dfy`, `Sattolo.dfy`, `ChainLab.dfy` | chains, Sattolo's algorithm, and the builders, checker and chase as loops over arrays |
| `Changes.dfy`, `Samples.dfy` | what sampling a sequence misses; what the two migration trackers are shown |
| `SameCoreCounts.dfy`, `Migration.dfy` | when their same-core counts can be compared; the trackers as objects |
| `Doubles.dfy`, `Percentile.dfy` | rounding to binary64; nearest-rank percentiles computed with it |
| `Rotation.dfy` | the interleaved schedule |

A schedule is a sequence of actors (worker numbers, and `n` for main); a run is what a schedule makes of
the starting state, and "every run" is a quantifier over schedules. A schedule may stop anywhere and may
starve anybody. Memory is sequentially consistent; a counter word is a natural number below 2^64 and
every addition to it wraps. `++v_` under a lock is two steps, so mutual exclusion has work to do.

## Where code and comments differ

* The comment at `04_cache_latency/src/cache_lab.hpp:96-103` says Fisher-Yates could give several short
  cycles. The code links consecutive entries of `order` (lines 122-124), so any permutation gives one
  cycle (`AnyPermutationLinksToOneCycle`). That Sattolo's order, read as a map, is itself one cycle is
  also true and proved separately (`OrderIsSingleCycle`).
* `06_atomic_counter/src/exp1_sanity.cpp` expects every race on `LoadStoreCounter` to lose updates. No
  schedule has to: the exact total is among the possible outcomes (`LoadStoreOutcomes`). The difference
  it computes without a sign wraps for some schedules once threads x iterations reaches 2^64
  (`LostNeverWraps` gives the exact condition).
* `02_latency_timer/README.md:167-170` computes the rank of p99.9 among 20000 samples as
  ceil(0.999 x 20000) = 19980, the 21st largest. `latency_stats.hpp:34` evaluates `p / 100.0 * n` in
  doubles: the quotient is rounded up to 8998192055486252 / 2^53, the product with it, and `ceil` gives
  19981, the 20th largest (`SixteenOutliersStayHidden`). `RankOfP999` says for which sample counts that
  happens: the multiples 1000 m for which no power of two lies between 992 m and 999 m.
* `03_cpu_migration/src/exp3_fine_detector.cpp:6-12` expects the finer detector to count at least as many
  migrations. In total and across cores it does (`RunWorkerThread`). The same-core count alone can come
  out higher on the coarse side: that tracker sees one same-core migration where the fine one saw the
  thread leave the core and come back. `SameCoreOrderedExactly` says on which machines.
* `OffsetLayout` states what it needs of its argument but does not check it; `OffsetForAnyArgument` says
  what happens for every argument.

## Model

| member | source | states |
|---|---|---|
| BarrierProtocol.StartBarrier | 06_atomic_counter/src/atomic_counter.hpp:342-422 | in every run: `go` implies all n checked in; increments and writes to counters only after `go`; while main resets no worker exists; once main has joined, no worker can change anything, so the unlocked `reset()` and `value()` race with nobody |
| CriticalSections.MutualExclusion | 06_atomic_counter/src/atomic_counter.hpp:166-181 | in every run two workers of one spinlock or mutex counter are never both between lock and unlock nor both at an access to `v_`, and the lock word is set exactly if somebody is between |
| CriticalSections.IdleAgain | 06_atomic_counter/src/atomic_counter.hpp:404-424 | once main has joined the workers no lock is left held, for every kind of counter, so the counters can be raced again |
| Lockout.LockOwnerBlocks | 06_atomic_counter/src/atomic_counter.hpp:166-198 | every thread can come to hold its spinlock or mutex, and from then on no schedule without it changes the word or lets a sharer complete an increment |
| Refinement.FreeLockCounts | 06_atomic_counter/src/atomic_counter.hpp:166-185 | in every run, when the lock is free `v_` is the number of completed critical sections mod 2^64 |
| AtomicSpec.ConservedNext | 06_atomic_counter/src/atomic_counter.hpp:368-372 | the atomic-counter specification keeps every reset counter equal to the increments made through pointers to it |
| Refinement.RefinesStep | 06_atomic_counter/src/atomic_counter.hpp:119-206 | each step of a fetch_add, CAS, spinlock or mutex race (or of a race of private split increments) is one atomic increment, one reset, or a stutter of the specification |
| Refinement.RunsRefineAtomicCounter | 06_atomic_counter/src/atomic_counter.hpp:119-206 | hence every run of such a race is a run of the specification, and conserves its counts |
| Refinement.CountersExact | 06_atomic_counter/src/atomic_counter.hpp:408-422 | after the join every distinct counter holds the iterations of all workers that shared it |
| Refinement.RaceIsExact | 06_atomic_counter/src/atomic_counter.hpp:379-424 | for every aliasing of the pointers and every schedule that returns, `observed_total` equals `expected_total` in 64-bit arithmetic |
| RaceMachine.SortUniqueDeduplicates | 06_atomic_counter/src/atomic_counter.hpp:389-391 | sort, unique and erase leave each pointed-to counter exactly once, ascending |
| RaceMachine.DeduplicatedIsUnique | 06_atomic_counter/src/atomic_counter.hpp:389-391 | and there is only one such vector |
| Sums.TalliesPartition | 06_atomic_counter/src/atomic_counter.hpp:371-372 | summed over the distinct counters, what the threads did through each of them is what all threads did |
| Totals.AccumulatedStep | 06_atomic_counter/src/atomic_counter.hpp:410-422 | the loops after the join keep `cas_failures` and `observed_total` equal to the sums over the workers and distinct counters passed so far |
| CasRetries.CasFailuresBounded | 06_atomic_counter/src/atomic_counter.hpp:143-148 | in every run a thread's failures plus successes never exceed the increments made on its counter; it fails at most once per increment of another sharer, at most (n-1)*k times |
| CasTotals.AllFailuresBounded | 06_atomic_counter/src/atomic_counter.hpp:143-148 | in every run and at all times the failures of all threads together are at most n*(n-1)*(2k-1)/2 |
| CasTotals.ReportedFailuresBounded | 06_atomic_counter/src/atomic_counter.hpp:410-415 | the reported `cas_failures` keeps that bound, is the true sum when the bound fits a word, and is zero for counters without a retry loop |
| CasTotals.CasAttemptsBounded | 06_atomic_counter/src/atomic_counter.hpp:352-355 | every schedule, fair or not, executes at most n*(n-1)*(2k-1)/2 + n*k compare-exchanges |
| CasContest.AllBoundsAttained | 06_atomic_counter/src/atomic_counter.hpp:143-148 | on one shared counter some schedule returns with exactly that many failures and compare-exchanges, for every n and k |
| CasDuel.CasBoundAttained | 06_atomic_counter/src/atomic_counter.hpp:143-148 | for every n, k and every thread some schedule makes it fail exactly (n-1)*k times |
| Progress.RankStep | 06_atomic_counter/src/atomic_counter.hpp:342-424 | waiting leaves the rank unchanged, every other step of any actor lowers it |
| Progress.NoDeadlock | 06_atomic_counter/src/atomic_counter.hpp:342-424 | in every reachable state in which race() has not returned some actor lowers the rank within its next two steps |
| Progress.RaceCanFinish | 06_atomic_counter/src/atomic_counter.hpp:399-424 | after any schedule some continuation makes race() return |
| Progress.ProductiveStepsBounded | 06_atomic_counter/src/atomic_counter.hpp:342-424 | every schedule makes at most a fixed number of steps that are not waiting |
| FairTermination.RoundProgresses | 06_atomic_counter/src/atomic_counter.hpp:342-424 | two turns for everybody contain a productive step, whatever the order and however much is spinning, until race() has returned |
| FairTermination.FairRaceReturns | 06_atomic_counter/src/atomic_counter.hpp:379-424 | every fair schedule makes race() return, for every kind of counter and every aliasing, and for exact configurations with the right total |
| FairTermination.RoundRobinReturns | 06_atomic_counter/src/atomic_counter.hpp:379-424 | in particular race() returns when everybody is scheduled in turn often enough |
| LostUpdates.LoadStoreBounds | 06_atomic_counter/src/atomic_counter.hpp:101-112 | in every run, for any aliasing, a load-then-store counter ends between min(k, 2) and the number of increments asked of it, if that number fits a word |
| LossOutcomes.LoadStoreOutcomes | 06_atomic_counter/src/atomic_counter.hpp:94-112 | on one shared counter the totals some schedule reports are exactly those from 2 (k for one thread or k < 2) to n*k: each is reached by a constructed schedule, no other by any |
| LossOutcomes.LowerBoundExactlyWithoutOverflow | 06_atomic_counter/src/atomic_counter.hpp:101-112 | the lower bound 2 holds on every run if and only if n*k < 2^64 |
| LossOutcomes.LostNeverWraps | 06_atomic_counter/src/exp1_sanity.cpp:123-129 | `expected - observed` never wraps on any run if and only if n*k < 2^64 or n*k mod 2^64 is the largest word |
| LossOutcomes.ExactOnEverySchedule | 06_atomic_counter/src/atomic_counter.hpp:368-372 | the count check passes on every schedule if and only if increments are atomic or locked, or no two threads share a counter, or k = 0 |
| RaceRun.Counter.CompareExchange | 06_atomic_counter/src/atomic_counter.hpp:143-148 | succeeds exactly if the word is the expected one; reports what it saw; a failure changes nothing |
| RaceRun.Race.constructor | 06_atomic_counter/src/atomic_counter.hpp:394-398 | the race object starts in the transition system's starting state |
| RaceRun.Race.BeginIncrement | 06_atomic_counter/src/atomic_counter.hpp:83-198 | the first access of `increment()` of each kind does to worker and counter what the transition system says |
| RaceRun.Race.WorkerTurn | 06_atomic_counter/src/atomic_counter.hpp:342-366 | a worker's turn, on mutable fields and counter objects, is its step |
| RaceRun.Race.MainTurn | 06_atomic_counter/src/atomic_counter.hpp:392-423 | main's turn is its step |
| RaceRun.Race.Play | 06_atomic_counter/src/atomic_counter.hpp:342-424 | under any scheduler the object runs as the transition system does |
| RaceRun.RunRace | 06_atomic_counter/src/atomic_counter.hpp:379-424 | without one counter per CPU nothing is observed and nothing changed; otherwise it reports the observed total, the CAS failures and the memory that the transition system reaches under the schedule, from the memory it was called with; so exact configurations have their counts right, the failures keep their bound, and the counters can be raced again |
| RepeatedRaces.RacesFollow | 06_atomic_counter/src/atomic_counter.hpp:504-510 | in a series of races each runs under its own schedule in the memory the one before has left, and all but the last have returned |
| RaceRun.Measure | 06_atomic_counter/src/atomic_counter.hpp:464-510 | if all races of such a series return: `counts_ok` exactly if every race, warm-ups included, observed what it expected; the failures are the sum over the timed races in 64-bit arithmetic, the increments what those were asked for; exact configurations are always ok |
| Layouts.CounterAddresses | 05_false_sharing/src/false_sharing.hpp:67-121 | counter i lies at 8 i if packed, at 64 i if padded, both with room for eight; the second counter of an offset layout lies at the offset, in whole words |
| Layouts.LayoutsKeepApart | 05_false_sharing/src/false_sharing.hpp:67-127 | for any 64-aligned base all counters of a layout are in bounds and disjoint, at the stated distance; two share a line exactly if packed, or at an offset below 64 |
| Layouts.OffsetForAnyArgument | 05_false_sharing/src/false_sharing.hpp:103-121 | for every constructor argument: the distance is the argument in whole words; disjoint exactly from 8 up, one line exactly below 64, in bounds exactly below 576 |
| Layouts.RunnerIsExact | 05_false_sharing/src/false_sharing.hpp:191-243 | in every run on every layout each thread's plain counter ends at exactly `iterations` |
| CpuSelection.OneCpuPerCore | 05_false_sharing/src/false_sharing.hpp:147-159 | the result ascends and is exactly the lowest-numbered CPUs of the cores above 0, one for each such core |
| Cycles.FirstReturnIsSingleCycle | 04_cache_latency/src/cache_lab.hpp:134-147 | returning to 0 first after exactly n steps implies every index is visited once |
| Cycles.SingleCycleVisitsAll | 04_cache_latency/src/cache_lab.hpp:100-103 | one cycle visits every index, has no fixed point for n >= 2, and is a bijection |
| ChainLab.BuildSequential | 04_cache_latency/src/cache_lab.hpp:83-91 | links each node to its right neighbour; one cycle; t steps lead to t mod n |
| ChainLab.Shuffle | 04_cache_latency/src/cache_lab.hpp:111-119 | `order` ends as the identity after the swaps of index i with draw i for i from n - 1 down to 1; it is one n-cycle without a fixed point for n >= 2, and its last entry is the first draw made |
| ChainLab.SwapsEndInOrder | 04_cache_latency/src/cache_lab.hpp:114-119 | those swaps end in Sattolo's order of the draws, built up by splicing |
| ChainLab.ShuffleLaws | 04_cache_latency/src/cache_lab.hpp:96-119 | hence the swaps of any draws end in one cycle, and two shuffles end equal exactly if their draws are |
| ChainLab.LinkInOrder | 04_cache_latency/src/cache_lab.hpp:121-125 | linking consecutive entries of any permutation makes it the tour of the links |
| ChainLab.BuildRandom | 04_cache_latency/src/cache_lab.hpp:110-126 | the nodes are linked in the order in which the swaps of the draws end, each to its successor and the last to the first, and are one cycle |
| ChainLab.AnyPermutationLinksToOneCycle | 04_cache_latency/src/cache_lab.hpp:96-125 | whatever permutation `order` holds, the links are a bijection and one n-cycle, met in the order of the entries |
| Sattolo.OrderIsSingleCycle | 04_cache_latency/src/cache_lab.hpp:96-119 | for every draw sequence `order` read as a map is one n-cycle, without a fixed point for n >= 2 |
| Sattolo.OrderInjective | 04_cache_latency/src/cache_lab.hpp:110-119 | different draw sequences give different orders |
| Sattolo.OrderSurjective | 04_cache_latency/src/cache_lab.hpp:110-119 | every n-cycle arises from some draw sequence |
| ChainLab.IsSingleCycle | 04_cache_latency/src/cache_lab.hpp:138-147 | true exactly if following the links from 0 visits every index once and returns; at most n + 1 links are followed |
| ChainLab.Chase | 04_cache_latency/src/cache_lab.hpp:168-183 | the final index is `next` applied warmup + measure times to 0; on one cycle after the standard warm-up only measure mod n counts |
| ChainLab.WarmupReturns | 04_cache_latency/src/cache_lab.hpp:189-191 | on every single cycle the warm-up leads back to 0 |
| ChainLab.WarmupVisitsAllFourTimes | 04_cache_latency/src/cache_lab.hpp:189-191 | and on the way leaves every node exactly four times |
| ChainLab.FinalIndexOfRandomChain | 04_cache_latency/src/cache_lab.hpp:121-125 | a random chain's final index is the entry of `order` measure places after the entry 0 |
| Migration.CpuTopology.constructor | 03_cpu_migration/src/cpu_topology.hpp:52-59 | caches what the reader says of every logical CPU |
| Migration.Tally.constructor | 03_cpu_migration/src/exp4_compare.cpp:24-29 | a tally starts at the starting CPU with nothing counted |
| Migration.Tally.Record | 03_cpu_migration/src/exp4_compare.cpp:31-41 | after any samples from the CPUs of the table `total` is the number of places where the CPU changes, `same_core` of those where its entry in the table does not, `cross_core` of those where the entry changes |
| Samples.SameCoreMeans | 03_cpu_migration/src/cpu_topology.hpp:61-73 | two CPUs of the table are on one core exactly if their entries agree; what holds outside the table |
| Samples.CountedPlaces | 03_cpu_migration/src/exp4_compare.cpp:31-41 | the recursive counts behind the trackers are those numbers of places |
| Samples.HopsAndCrossings | 03_cpu_migration/src/exp4_compare.cpp:31-41 | total = same_core + cross_core for every sequence of samples |
| Migration.SamplePoint | 03_cpu_migration/src/exp4_compare.cpp:65-76 | one iteration shows the trackers exactly the samples due |
| Migration.RunWorker | 03_cpu_migration/src/exp4_compare.cpp:50-83 | the trackers see the starting CPU and then the trace at exactly the iterations that are multiples of the fine interval, the coarse one of both intervals, in order |
| Samples.ShownElements | 03_cpu_migration/src/exp4_compare.cpp:65-76 | sample by sample, for any rule of when to look |
| Samples.CoarseIsSampled | 03_cpu_migration/src/exp4_compare.cpp:69-75 | the coarse tracker sees the fine one's samples at its checkpoints and nothing else |
| Samples.CoarseSamplesOfTheExperiment | 03_cpu_migration/src/exp4_compare.cpp:20-22 | with the experiment's intervals these are the samples of every millionth iteration |
| Changes.EndsShow | 03_cpu_migration/src/exp4_compare.cpp:5-11 | the two ends of a window show as many changes as happened in it exactly if at most one did |
| Changes.SamplingMisses | 03_cpu_migration/src/exp4_compare.cpp:5-11 | sampling never adds changes, and misses none exactly if every window has at most one and the tail none |
| Migration.RunWorkerThread | 03_cpu_migration/src/exp4_compare.cpp:43-89 | on every trace fine.total >= coarse.total and fine.cross_core >= coarse.cross_core, with equality exactly if the CPU (the core) changes at most once per window and not in the tail; fine.same_core >= coarse.same_core wherever SameCoreOrderedExactly says that it always is |
| Samples.DetectorsCompared | 03_cpu_migration/src/exp4_compare.cpp:31-76 | the same comparison for any sequence, any checkpoints and any core ids |
| SameCoreCounts.SameCoreOrderedExactly | 03_cpu_migration/src/exp4_compare.cpp:31-76 | for every core table, number of iterations and intervals: no execution gives the coarse tracker more same-core migrations than the fine one, if and only if no two CPUs share a core, or all do, or every fine sample is a coarse one, or the coarse tracker looks only once |
| SameCoreCounts.SameCoreOfTheExperiment | 03_cpu_migration/src/exp4_compare.cpp:20-22 | with the experiment's iterations and intervals the core table alone decides: no two CPUs share a core, or all do |
| SameCoreCounts.DetourIsNotOrdered | 03_cpu_migration/src/exp4_compare.cpp:34-35 | the counterexample: a thread that goes from a CPU to another core and back to the CPU's sibling between two coarse samples |
| Doubles.RoundsToNearestEven | 02_latency_timer/src/latency_stats.hpp:34-34 | no integer is nearer than the one rounded to, and of two equally near ones it is the even one |
| Doubles.RoundingScales | 02_latency_timer/src/latency_stats.hpp:34-34 | rounding is that, in units of 2^-52 between 1 and 2, and commutes with doubling and the sign |
| Doubles.RoundingError | 02_latency_timer/src/latency_stats.hpp:34-34 | rounding to binary64 moves a number by at most a relative 2^-53 |
| Doubles.RoundingMonotone | 02_latency_timer/src/latency_stats.hpp:34-34 | and keeps the order |
| Percentile.Rank | 02_latency_timer/src/latency_stats.hpp:34-36 | the clamped rank always names a sample |
| Percentile.NearestRankCharacterised | 02_latency_timer/src/latency_stats.hpp:29-31 | what the comment promises: for 0 < p <= 100 the nearest-rank percentile is the least number with at least p% of the samples at or below it, and the greatest with fewer than p% below it |
| Percentile.PercentileNearlyNearest | 02_latency_timer/src/latency_stats.hpp:32-38 | what the code computes in doubles: a sample whose rank is right exactly if the rounded and the exact product have the same ceiling, and off by one otherwise; then one half of that property holds, and the other exactly if the neighbouring sample is equal |
| Percentile.LowerColumnsAreNearest | 02_latency_timer/src/latency_stats.hpp:48-50 | the ranks of p50, p95 and p99 are right for every number of samples up to 2^40 |
| Percentile.RankOfP999 | 02_latency_timer/src/latency_stats.hpp:51-51 | for every n up to 2^40 the rank of p99.9 is right, or one too high exactly if n = 1000 m and no power of two lies between 992 m and 999 m |
| Percentile.ReportIsNearestExactly | 02_latency_timer/src/latency_stats.hpp:43-54 | for every n up to 2^40 the report of n samples is the nearest-rank report, whatever the samples, if and only if n is not such a number |
| Percentile.ReportColumns | 02_latency_timer/src/latency_stats.hpp:43-54 | for every n up to 2^40 the columns are the extremes and the samples of 1-based rank n - n/2, n - n/20, n - n/100 and n - n/1000 (whole quotients), the last of them plus one if it is rounded up |
| Percentile.RoundsUpMeans | 02_latency_timer/src/latency_stats.hpp:34-34 | which it is exactly if n = 1000 m and no power of two lies between 992 m and 999 m |
| Percentile.PercentileMonotone | 02_latency_timer/src/latency_stats.hpp:32-38 | a higher percentile is never smaller, and all lie between the extremes |
| Percentile.TailVisible | 02_latency_timer/README.md:164-178 | a percentile exceeds x exactly if at least n - rank + 1 samples do |
| Percentile.SixteenOutliersStayHidden | 02_latency_timer/README.md:167-173 | of 20000 samples the computed p99.9 is the 20th largest, not the 21st: outliers are hidden from it exactly if there are at most 19 |
| Percentile.ReportAscends | 02_latency_timer/src/latency_stats.hpp:43-54 | min <= p50 <= p95 <= p99 <= p99.9 <= max |
| Rotation.MeasureInterleaved | 06_atomic_counter/src/atomic_counter.hpp:541-550 | contender i has one warm-up race, at position i of its round, and one timed race in each round t, at the position j with (j + t) mod k = i; its races stay under its own index |
| Rotation.RoundIsPermutation | 06_atomic_counter/src/atomic_counter.hpp:546-548 | in every round positions and contenders correspond one to one |
| Rotation.RotationIsFair | 06_atomic_counter/src/atomic_counter.hpp:537-540 | over any number of trials a contender's counts at any two positions differ by at most one |

## Left out

- Clocks, `getrusage`, throughput, kernel share and min/p50/max of timings: measurements, not computed facts.
- Pinning, `sched_getcpu`, sysfs and `std::thread`: core ids and the CPU trace are arbitrary inputs; a spawned thread simply becomes able to run; the `pinned` flags are not modelled.
- Memory orders: memory is sequentially consistent, so that acquire and release suffice is not proved. A `PlainCounter` shared by two threads would be a data race in C++; the model treats it like load-then-store, and the exactness results use it only unshared.
- `std::mutex` is an owner lock that blocks; futexes and spurious wake-ups are not part of this model. compare_exchange_weak does not fail spuriously, as the source states for x86.
- `std::sort`, `std::mt19937_64` and `uniform_int_distribution`: the sorted pointers are any ascending rearrangement, the draws are any in-range numbers. `summarize`'s sorting in place is not modelled; its report is a function of the sorted samples.
- ChainLab.IsSingleCycle: requires at least one node, as ChainLab.Chase does for a chase of at least one step: with none the source reads past the end of the vector.
- ChainLab.WarmupReturns: requires that n nodes of 64 bytes fit a 64-bit address space.
- Doubles.RoundingError: the exponent range is unbounded, so overflow, underflow, infinities and NaN are not modelled; neither are NaN samples, an empty sample vector, and the cast of a negative rank.
- Percentile.PercentileNearlyNearest: is stated for at most 2^52 samples, and the results on the columns of a report for at most 2^40, eight tebibytes of them.
- CasContest.AllBoundsAttained: is stated for one shared counter; for other aliasings the bound holds and need not be attained.
- Layouts.RunnerIsExact: speaks of the state after the join; the flag folding behind it is one line. PackedCounters and PaddedCounters of 06_atomic_counter place 8-byte counters at the same addresses and are not repeated.
- `physical_core_of`, the folding of trial statistics, argument parsing, printing and all of project 01: nothing hard in them.
- The C++ `int` and `long` counters of the trackers are unbounded: each counts at most one per sample.
