# lockfree-fifo-queue: the sequential core, modelled in Dafny

The repository benchmarks a lock-free multi-producer, multi-consumer FIFO queue against a
mutex-guarded baseline. This project models its sequential logic and proves properties of it.

- **`bench_queue` command line** (`src/benchmark_main.cpp`). `parse` walks argv and fills an
  `Args` record, or ends the process with status 0 or 1. `main` dispatches on `--impl`.
  Numbers go through C's `atoi` (ISO C11, section 7.22.1.2).
- **`MPMCQueueMutex`** (`include/queue/mutex_queue.hpp`). A closable FIFO queue. Its lock makes
  each call one atomic step on the pair (contents, closed flag).
- **Per-thread retire-list bookkeeping** of the two memory reclaimers
  (`include/reclaimer/hazard_pointers.hpp`, `include/reclaimer/epoch_based_reclamation.hpp`).
  A `NodeId` names one allocation of a queue node, that is, one `new Node`. Memory that `new` hands out
  again after a `delete[]` is a new allocation and a new `NodeId`, even at the same address.
  Each `delete[]` is recorded in a ghost log called `freed`.
- **Results-to-charts script** (`scripts/plot_results.py`):
  - `parse_row`, including Python's `int()` and `float()` on the CSV cells;
  - the grouping and sorting loops of the threads chart and the payload chart;
  - the first-match selection of the comparison chart;
  - the two-level grouping of the summary;
  - the early exits of `main`.

Files:

| file | module | what it holds |
|---|---|---|
| `common.dfy` | `Common` | `Option`, duplicate-freedom, decimal digits, `%d` text and its round trip |
| `py_numbers.dfy` | `PyNumbers` | Python `int()` / `float()` on `str`, `%.3f` text, and the round trips between them |
| `py_sort.dfy` | `PySort` | the `str` ordering, `sorted()` of strings, stable `list.sort(key=...)` |
| `plot_results.dfy` | `PlotResults` | `parse_row`, charts, comparison, summary, `main` |
| `benchmark_main.dfy` | `BenchmarkMain` | `Args`, `atoi`, `parse`, the dispatch in `main` |
| `mutex_queue.dfy` | `MutexQueue` | the queue class and its step semantics over histories |
| `hazard_pointers.dfy` | `HazardPointers` | hazard slots and retire list |
| `epoch_reclamation.dfy` | `EpochReclamation` | epoch snapshot, active flag and retire list |

Code that changes state step by step is modelled as imperative Dafny:

- the argv loop, the queue, the reclaimer contexts and the script's `for` loops over `defaultdict`s;
- each method is proved equal to a specification function, and the properties are lemmas about
  that function;
- `parse_row`, the comparison selection and the charts' final shape are pure functions.

## Model

| member | source | states |
|---|---|---|
| `BenchmarkMain.Atoi` | src/benchmark_main.cpp:48-52 | `atoi` of text without a leading digit, or with a sign not followed by one, is 0 |
| `BenchmarkMain.AtoiReadsDecimal` | src/benchmark_main.cpp:48-52 | after any C white space, `atoi` reads back any integer written in decimal, whatever non-digit text follows |
| `BenchmarkMain.AtoiOfDecimal` | src/benchmark_main.cpp:48-52 | `atoi(str(n) + rest) == n` for every integer `n`, negative ones included |
| `BenchmarkMain.AtoiOfDigits` | src/benchmark_main.cpp:48-52 | `atoi` of white space, an optional `+` or `-`, digits (leading zeros allowed) and a non-digit tail is the digits' value, negated after `-` |
| `BenchmarkMain.SetFlag` | src/benchmark_main.cpp:47-53 | definition: each value flag sets only its own field, the text itself for `--impl`/`--csv` and `atoi` of it for the five numbers |
| `BenchmarkMain.Parse` | src/benchmark_main.cpp:41-57 | the argv loop, with `i` advanced once more by `need(i++)`, computes exactly `ParseArgs(argv)` |
| `BenchmarkMain.NoArgumentsGiveDefaults` | src/benchmark_main.cpp:22-30 | with no arguments, the result is impl "hp", 4 producers, 4 consumers, payload 100, warmup 2, duration 5, csv "" |
| `BenchmarkMain.ParseConcat` | src/benchmark_main.cpp:43-55 | after a prefix that scans cleanly, the scan resumes exactly at its end with the record that prefix built |
| `BenchmarkMain.HelpStops` | src/benchmark_main.cpp:46 | `--help`/`-h`, once reached, exits with status 0 whatever follows |
| `BenchmarkMain.UnknownArgumentFails` | src/benchmark_main.cpp:54 | an argument that is neither help nor a known flag exits with status 1 |
| `BenchmarkMain.MissingValueFails` | src/benchmark_main.cpp:45 | a value flag in last position exits with status 1 |
| `BenchmarkMain.ValueFlagConsumesNext` | src/benchmark_main.cpp:45-53 | a value flag takes the next argument, whatever it is, and the scan resumes after it; a later repeat overwrites the field |
| `BenchmarkMain.CountsAreNotChecked` | src/benchmark_main.cpp:48-53 | non-numeric text gives 0, a negative count is kept, and `--csv --help` takes "--help" as the path |
| `BenchmarkMain.Dispatch` | src/benchmark_main.cpp:154-173 | a benchmark runs iff parse succeeds and impl is one of hp, ebr, none, mutex; the label equals impl; the mutex queue is used iff impl is "mutex"; otherwise parse's status, or 1 |
| `BenchmarkMain.ExitStatus` | src/benchmark_main.cpp:172 | definition: a run ends with status 0 |
| `MutexQueue.MPMCQueueMutex.constructor` | include/queue/mutex_queue.hpp:11 | a new queue is empty and open |
| `MutexQueue.MPMCQueueMutex.Enqueue` | include/queue/mutex_queue.hpp:13-17 | returns true and appends `v` iff the queue was open; otherwise returns false and changes nothing |
| `MutexQueue.MPMCQueueMutex.TryDequeue` | include/queue/mutex_queue.hpp:20-26 | returns true iff non-empty, then hands out the front and removes exactly it, closed or not; on an empty queue `out` and the state are unchanged |
| `MutexQueue.MPMCQueueMutex.Close` | include/queue/mutex_queue.hpp:28-31 | sets closed and leaves the contents alone, so closing twice equals closing once |
| `MutexQueue.MPMCQueueMutex.IsClosed` | include/queue/mutex_queue.hpp:33 | reports the closed flag and changes nothing |
| `MutexQueue.StepReplies` | include/queue/mutex_queue.hpp:13-26 | a value enters the accepted history iff its enqueue returned true; the dequeued history gets exactly the value a true `try_dequeue` returned |
| `MutexQueue.StepConserves` | include/queue/mutex_queue.hpp:13-26 | one call loses, duplicates and reorders nothing: queued + accepted == handed out + queued after |
| `MutexQueue.RunConserves` | include/queue/mutex_queue.hpp:13-31 | over any history of calls: old contents ++ accepted == dequeued ++ final contents |
| `MutexQueue.FifoFromFresh` | src/tests_correctness_main.cpp:58 | from a new queue, the dequeued values are a prefix of the accepted ones, and dequeued + remaining == accepted in count |
| `MutexQueue.PerProducerOrder` | src/tests_correctness_main.cpp:40-44 | if each producer enqueues increasing sequence numbers, no consumer-visible order ever shows them going backwards |
| `MutexQueue.ClosedIsFinal` | include/queue/mutex_queue.hpp:13-31 | once closed, the queue stays closed, accepts nothing, and never gains an item |
| `MutexQueue.ClosedQueueDrains` | src/tests_correctness_main.cpp:70-74 | n `try_dequeue` calls on a closed queue of n items hand them all out in order and leave it empty |
| `MutexQueue.ShutdownSemantics` | src/tests_correctness_main.cpp:63-75 | enqueue succeeds while open, fails after close, and the item enqueued before close still comes out |
| `HazardPointers.Fresh` | include/reclaimer/hazard_pointers.hpp:26-28 | a new context meets the invariant: 3 slots, fewer than 100 pending, no node both freed and pending or freed twice |
| `HazardPointers.AfterProtect` | include/reclaimer/hazard_pointers.hpp:37-42 | only slot `idx` changes, to `p`, and only when `idx < 3`; the retire list is untouched |
| `HazardPointers.AfterClear` | include/reclaimer/hazard_pointers.hpp:45-50 | only slot `idx` changes, to null, and only when `idx < 3` |
| `HazardPointers.AfterScan` | include/reclaimer/hazard_pointers.hpp:62-72 | frees all pending entries in order and empties the list, or changes nothing; it empties a non-empty list only at 100 or more; slots untouched |
| `HazardPointers.AfterRetire` | include/reclaimer/hazard_pointers.hpp:53-59 | `p` joins the pending list; freed ++ pending grows by exactly `p`; the list stays below 100; below 99 entries `p` is simply appended; the retire that brings the list to 100 frees every pending node, `p` included, and empties it |
| `HazardPointers.AfterQuiescent` | include/reclaimer/hazard_pointers.hpp:81-88 | nulls all three slots and frees exactly what a scan frees, whatever the slots held |
| `HazardPointers.RunKeepsInv` | include/reclaimer/hazard_pointers.hpp:53-72 | over any history with no node retired twice: at most 99 pending, and freed ++ pending == everything retired, in order |
| `HazardPointers.FreshHistory` | include/reclaimer/hazard_pointers.hpp:55-70 | from a new context, every retired node is pending or freed, never both, and freed at most once |
| `HazardPointers.ThreadContext.constructor` | include/reclaimer/hazard_pointers.hpp:26-28 | the context starts as `Fresh()` |
| `HazardPointers.ThreadContext.Protect` | include/reclaimer/hazard_pointers.hpp:37-42 | the slot array changes as `AfterProtect` says |
| `HazardPointers.ThreadContext.Clear` | include/reclaimer/hazard_pointers.hpp:45-50 | the slot array changes as `AfterClear` says; the list and the log are untouched |
| `HazardPointers.ThreadContext.ScanAndRetire` | include/reclaimer/hazard_pointers.hpp:62-72 | the free loop and `clear()` together do what `AfterScan` says |
| `HazardPointers.ThreadContext.RetireNode` | include/reclaimer/hazard_pointers.hpp:53-59 | the context changes as `AfterRetire` says, and the invariant holds again |
| `HazardPointers.ThreadContext.Quiescent` | include/reclaimer/hazard_pointers.hpp:81-88 | the clearing loop then the scan do what `AfterQuiescent` says |
| `EpochReclamation.Fresh` | include/reclaimer/epoch_based_reclamation.hpp:23-27 | a new context has epoch 0, is inactive, and meets the invariant: fewer than 100 pending, nothing freed twice |
| `EpochReclamation.AfterEnter` | include/reclaimer/epoch_based_reclamation.hpp:35-39 | snapshot the global epoch, become active; list and log unchanged |
| `EpochReclamation.AfterExit` | include/reclaimer/epoch_based_reclamation.hpp:42-45 | become inactive and change nothing else |
| `EpochReclamation.AfterScan` | include/reclaimer/epoch_based_reclamation.hpp:69-80 | all-or-nothing batch free at 100 or more; epoch and active flag untouched and not consulted |
| `EpochReclamation.AfterRetire` | include/reclaimer/epoch_based_reclamation.hpp:48-55 | `p` joins the pending list; freed ++ pending grows by exactly `p`; the list stays below 100; the retire that brings the list to 100 frees every pending node, `p` included, and empties it |
| `EpochReclamation.AfterQuiescentState` | include/reclaimer/epoch_based_reclamation.hpp:58-66 | become inactive, and free exactly what a scan would |
| `EpochReclamation.RunKeepsInv` | include/reclaimer/epoch_based_reclamation.hpp:48-80 | over any history with no node retired twice: at most 99 pending, freed ++ pending == retired in order, and the snapshot only ever holds the global epoch or its start value |
| `EpochReclamation.FreshHistory` | include/reclaimer/epoch_based_reclamation.hpp:35-39 | from a new context with the global epoch at 0, the snapshot is always 0, at most 99 are pending, and nothing is freed twice |
| `EpochReclamation.ThreadContext.constructor` | include/reclaimer/epoch_based_reclamation.hpp:23-27 | the context starts as `Fresh()` |
| `EpochReclamation.EpochManager.constructor` | include/reclaimer/epoch_based_reclamation.hpp:83 | the global epoch starts at 0 |
| `EpochReclamation.EpochManager.EnterCritical` | include/reclaimer/epoch_based_reclamation.hpp:35-39 | the context changes as `AfterEnter` says; the global epoch, and so the snapshot, stay 0 |
| `EpochReclamation.EpochManager.ExitCritical` | include/reclaimer/epoch_based_reclamation.hpp:42-45 | the context changes as `AfterExit` says |
| `EpochReclamation.EpochManager.ScanAndRetire` | include/reclaimer/epoch_based_reclamation.hpp:69-80 | the free loop and `clear()` together do what `AfterScan` says |
| `EpochReclamation.EpochManager.RetireNode` | include/reclaimer/epoch_based_reclamation.hpp:48-55 | the context changes as `AfterRetire` says, and the invariant holds again |
| `EpochReclamation.EpochManager.QuiescentState` | include/reclaimer/epoch_based_reclamation.hpp:58-66 | the context changes as `AfterQuiescentState` says |
| `PyNumbers.PyIntOfDecimal` | scripts/plot_results.py:33-36 | `int()` reads back the decimal text of every integer of at most 4300 digits |
| `PyNumbers.PyIntRejectsLongDigits` | scripts/plot_results.py:33-36 | `int()` of more than 4300 digits, with or without a minus sign, fails |
| `PyNumbers.CIntDigits` | src/benchmark_main.cpp:142-144 | the `%d` text of a C `int` has at most ten digits |
| `PyNumbers.PyIntRejectsNonDigit` | scripts/plot_results.py:33-40 | `int()` rejects stripped text that starts with neither a sign nor a digit |
| `PyNumbers.SeparatorPrefixRejected` | scripts/plot_results.py:33-39 | `int()` and `float()` reject a cell that starts with one of U+001C to U+001F, which they do not strip as white space |
| `PyNumbers.PyFloatOfFixedThree` | scripts/plot_results.py:37 | `float()` reads back what `%.3f` wrote, as thousandths / 1000 |
| `PyNumbers.FixedThreeValue` | src/benchmark_main.cpp:143-144 | the text `%.3f` writes is the decimal literal of thousandths / 1000 |
| `PyNumbers.DecimalLiteralPointForm` | scripts/plot_results.py:37 | `float()`'s decimal grammar gives "ip.fp" the value ip + fp / 10^len(fp) |
| `PyNumbers.ThreeDigitsValue` | src/benchmark_main.cpp:143 | the three digits after the point read back as the remainder they encode |
| `PySort.SortStrings` | scripts/plot_results.py:65 | `sorted()` of strings is a permutation of its input |
| `PySort.SortStringsSorted` | scripts/plot_results.py:65 | `sorted()` of strings is ascending in the `str` ordering |
| `PySort.StrLeTotal` | scripts/plot_results.py:65 | any two strings are ordered one way or the other |
| `PySort.StrLeAntisymmetric` | scripts/plot_results.py:65 | two strings ordered both ways are equal |
| `PySort.StrLeTransitive` | scripts/plot_results.py:65 | the `str` ordering is transitive |
| `PySort.SortByKey` | scripts/plot_results.py:57-58 | `list.sort(key=...)` is a permutation of its input |
| `PySort.SortByKeySorted` | scripts/plot_results.py:57-58 | `list.sort(key=...)` is ascending in the key |
| `PySort.SortByKeyStable` | scripts/plot_results.py:57-58 | elements with equal keys keep their input order |
| `PySort.InsertByKeyStable` | scripts/plot_results.py:57-58 | inserting an element appends it to the elements with its key |
| `PySort.SortedIntsEnds` | scripts/plot_results.py:239 | the first and last of sorted ints are elements, and they are the minimum and the maximum |
| `PlotResults.ParseRow` | scripts/plot_results.py:28-41 | None iff a column is missing or a numeric cell fails `int()`/`float()`, which includes an integer cell of more than 4300 digits and a cell padded with U+001C to U+001F, characters that `int()` and `float()` do not strip; otherwise impl is copied and each field is `int()`/`float()` of its cell |
| `PlotResults.ParseWrittenRow` | src/benchmark_main.cpp:142-144 | `parse_row` reads back every field of a data line the benchmark wrote, whose integer fields are C `int`s |
| `PlotResults.HeaderRowIsDropped` | scripts/plot_results.py:30-41 | a repeated header line parses to None because `int('P')` fails |
| `PlotResults.SeparatorCellIsDropped` | scripts/plot_results.py:30-41 | a row whose numeric cell starts with one of U+001C to U+001F parses to None |
| `PlotResults.ExtraColumnsIgnored` | scripts/plot_results.py:31-39 | columns other than the seven do not change the result |
| `PlotResults.ParseAllEmpty` | scripts/plot_results.py:254-257 | no row is left iff no row parses |
| `PlotResults.ParseAllFrom` | scripts/plot_results.py:254-255 | every record left is `parse_row` of some input row |
| `PlotResults.SelectMembers` | scripts/plot_results.py:164-165 | a filter keeps exactly the records that meet its condition |
| `PlotResults.SelectNested` | scripts/plot_results.py:233-236 | filtering twice is filtering on both conditions |
| `PlotResults.DistinctMembers` | scripts/plot_results.py:236-239 | the dict's keys list each value once, and exactly the values that occur |
| `PlotResults.ImplNamesMembers` | scripts/plot_results.py:215-217 | the impl keys are exactly the impls of the records |
| `PlotResults.ImplNamesNoDups` | scripts/plot_results.py:215-217 | the impl keys have no duplicates |
| `PlotResults.GroupsPartition` | scripts/plot_results.py:49-54 | when every record's impl is listed once, the groups' sizes sum to the number of records |
| `PlotResults.CollectedIsSelect` | scripts/plot_results.py:49-54 | `series[impl]` before sorting is the points of the kept rows of that impl, in input order |
| `PlotResults.CollectedMembers` | scripts/plot_results.py:49-54 | a point is in `series[impl]` iff it comes from a kept row of that impl |
| `PlotResults.GroupRow` | scripts/plot_results.py:50-54 | one loop step: skip an unkept row, else append its point to its impl's list, creating the list on first use |
| `PlotResults.GroupPoints` | scripts/plot_results.py:47-54 | the loop builds, for each impl with a kept row, exactly `Collected`; the keys are the kept rows' impls in first-seen order |
| `PlotResults.SortSeries` | scripts/plot_results.py:57-58 | every list is replaced by its stable sort on x; the key set is unchanged |
| `PlotResults.EmitSeries` | scripts/plot_results.py:65-67 | one series per name, in the order given, each with that impl's list |
| `PlotResults.PlotSeries` | scripts/plot_results.py:47-67 | the grouping, sorting and emitting loops produce exactly `ChartOf(rows, axis)` |
| `PlotResults.PlotThreadsVsMetrics` | scripts/plot_results.py:43-67 | the threads chart is `ChartOf` with payload fixed at 100 and x = P |
| `PlotResults.PlotPayloadVsMetrics` | scripts/plot_results.py:103-127 | the payload chart is `ChartOf` with P = C = 2 and x = payload |
| `PlotResults.ChartImpls` | scripts/plot_results.py:65-67 | the chart has one series per sorted impl name, in that order |
| `PlotResults.ChartNames` | scripts/plot_results.py:65 | one series per impl with a kept row, each once, in ascending name order |
| `PlotResults.SeriesContents` | scripts/plot_results.py:57-58 | each series is sorted by x, is a permutation of its collected points, and keeps input order among equal x |
| `PlotResults.ChartPartition` | scripts/plot_results.py:49-54 | the series partition the kept rows: total points == number of kept rows |
| `PlotResults.FirstIndex` | scripts/plot_results.py:172 | the position of the first row of the impl: it has the impl, and no earlier row does |
| `PlotResults.FirstOf` | scripts/plot_results.py:172-173 | `next(...)` yields a row of the impl with no earlier row of that impl |
| `PlotResults.BarsFor` | scripts/plot_results.py:172-173 | one bar per name, valued from the first filtered row of that impl |
| `PlotResults.PlotImplementationComparison` | scripts/plot_results.py:164-169 | no bars iff no row has P = 2, C = 2 and payload 100 |
| `PlotResults.ComparisonBars` | scripts/plot_results.py:171-173 | the bars name each matching impl once, in ascending order, valued from its first matching row |
| `PlotResults.SortedNames` | scripts/plot_results.py:171 | `sorted(set(impls))` is ascending, has no duplicates, and holds exactly the records' impls |
| `PlotResults.FixedPayloadThreads` | scripts/plot_results.py:234-236 | the keys of `thread_data` are exactly the P of the payload-100 rows |
| `PlotResults.TwoThreadCounts` | scripts/plot_results.py:238 | `thread_data` has more than one key iff two payload-100 rows differ in P |
| `PlotResults.ScalingPresent` | scripts/plot_results.py:238-243 | a scaling line appears iff two payload-100 rows differ in P |
| `PlotResults.ScalingEnds` | scripts/plot_results.py:239-243 | the scaling line compares the smallest P with the largest, two different values that both occur |
| `PlotResults.DistinctSortedEnds` | scripts/plot_results.py:239 | `sorted(keys)` with two keys or more starts at the minimum and ends at a larger maximum |
| `PlotResults.ScalingThroughputs` | scripts/plot_results.py:240 | each end of the scaling line carries the throughputs of the payload-100 rows with that P, in input order |
| `PlotResults.SummaryEntries` | scripts/plot_results.py:223-226 | one entry per impl, each once, ascending, with all of that impl's throughputs and depths in input order |
| `PlotResults.SummaryImpls` | scripts/plot_results.py:223-226 | the summary has one entry per sorted impl name, with that impl's throughputs and depths |
| `PlotResults.ThreadRow` | scripts/plot_results.py:235-236 | one loop step: only a payload-100 row is appended, under its P |
| `PlotResults.GroupByThreads` | scripts/plot_results.py:233-236 | `thread_data` maps each P of a payload-100 row to those rows, in input order |
| `PlotResults.ThreadsScaling` | scripts/plot_results.py:238-240 | `len(thread_data)` is the number of distinct P; with more than one, the sorted ends index the lists the scaling line averages; otherwise there is no line |
| `PlotResults.KeyCount` | scripts/plot_results.py:238 | a dict whose keys are listed once each has that many entries |
| `PlotResults.SummarizeImpl` | scripts/plot_results.py:224-243 | the summary of one impl equals `Summarize` |
| `PlotResults.ImplRow` | scripts/plot_results.py:216-217 | one loop step: append the record to its impl's list, creating it on first use |
| `PlotResults.GroupByImpl` | scripts/plot_results.py:215-217 | `by_impl` maps each impl to its records, in input order |
| `PlotResults.SummarizeGroups` | scripts/plot_results.py:223-243 | the loop over `sorted(by_impl)` builds exactly `SummaryOf(parsed)` |
| `PlotResults.GenerateSummaryTable` | scripts/plot_results.py:205-243 | the summary is `SummaryOf` of the parsed rows, and it is empty iff no row parses |
| `PlotResults.PlotAll` | scripts/plot_results.py:245-273 | stops with "no results" iff nothing was loaded, and with "no valid rows" iff rows were loaded but none parses; otherwise the charts, bars and summary are those of the parsed rows |

## Left out

- Drawing: matplotlib calls, `savefig`, `print` formatting and `os.makedirs` are not modelled. A chart is modelled as the series or bars handed to matplotlib.
- Reading files: `glob`, `open` and `load_results` are not modelled. `main` takes the loaded rows as its parameter.
- Float statistics: numpy's mean, min and max, and the speedup division, are float arithmetic. The summary keeps the lists they are computed from.
- Digit bound: `int()` rejects more than 4300 digits, which is CPython's default bound (`sys.set_int_max_str_digits` changes it; CPython releases before 3.11.0, 3.10.7, 3.9.14, 3.8.14 and 3.7.14 have none). The model fixes it at 4300. `float()` has no such bound.
- Floating point: `float()` values are exact reals, with no rounding to binary64. Only ASCII digits are modelled in `int()` and `float()`.
- Short CSV lines: `csv.DictReader` fills missing cells of a short line with None. `int(None)` raises TypeError, which `parse_row` does not catch. The model's rows are string-to-string maps, so this crash is not represented.
- Whole-line rejection: a row is dropped as a whole when any cell fails. The model never produces a partial record.
- `atoi` range: `atoi` of a number outside the `int` range is undefined behaviour in C. The model keeps the exact integer.
- Usage text: `help()` is not modelled. Only the exit status it accompanies is.
- `run_bench` is not modelled. It consists of threads, atomics, timing, the throughput division and the CSV append. Only the row format `%s,%d,%d,%d,%d,%.3f,%d` is modelled, in `PlotResults.WrittenRow`, with the throughput given as whole thousandths.
- The lock-free queue and `no_reclamation` are not modelled.
  - `include/queue/lockfree_queue.hpp` is CAS loops over atomics. Its sequential contract is the mutex queue's.
  - `include/reclaimer/no_reclamation.hpp` does nothing.
- Concurrency: the `std::mutex`, the atomics and the memory orderings are not modelled. Each locked call is one step.
- Reclaimer plumbing: the `instance()` singletons and the `thread_local` contexts are not modelled. The managers' methods take the calling thread's context as an argument.
- Freeing: the real `delete[]` is not modelled. It is applied to nodes allocated with `new`, which is a mismatched deallocation. Freeing is modelled as an entry in the ghost log.
- Namespaces: `hazard_pointers.hpp` declares `mpmcq::reclaimer`, while its users name `lfq::reclaimer`. This naming mismatch is not modelled.
- `HazardPointers.ThreadContext.Protect` requires `idx >= 0`. A negative index indexes the slot vector out of bounds, which is undefined behaviour in C++.
- `HazardPointers.ThreadContext.Clear` requires `idx >= 0`, for the same reason.
- `HazardPointers.ThreadContext.RetireNode` requires that the allocation `p` was never retired before. The lock-free queue retires each old head once, and a second retire would free the node twice. An address that is reused after `delete[]` is a new allocation, so it is not excluded.
- `EpochReclamation.EpochManager.RetireNode` requires that the allocation `p` was never retired before, for the same reason.
- Call histories: `HazardPointers.RunKeepsInv` and `EpochReclamation.RunKeepsInv` hold for histories that retire no allocation twice.
- `MutexQueue.PerProducerOrder` assumes each producer's sequence numbers strictly increase, as the test's producers enqueue 0, 1, 2, and so on. Under that assumption it proves strict increase at the consumer, which is stronger than the test's check.
- `MutexQueue.MPMCQueueMutex.constructor` ignores the capacity hint, as the source does.
- List sorting: the in-place `list.sort` over `series` is modelled as reassigning the dict entry to the sorted list.
