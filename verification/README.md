# Proofs about the ns-3 top-level tools and examples

This project models ten programs that stand around the ns-3 simulator: the parallel test runner, the
configuration-path gatherer of the documentation generator, the library load order of the Python
bindings, the coding-style fixer, the scheduler benchmark, three TCP examples, a SQLite to XML export
and a small traffic application. Each is modelled as its code is written, and what it is for is proved
over every input, every run or every reachable state. `dafny verify dfyconfig.toml` checks everything.

## How the files fit together

- `WorkerPool.dfy`, `PoolRuns.dfy`, `PoolOrder.dfy`, `TestReport.dfy`: the worker pool of `test.py` as an interleaving state machine
  (main thread, workers, signal handler), and the accounting of its results. Conservation of jobs,
  absence of deadlock, a bound on the length of every run, the exact effect of an interrupt, exactly when
  the main thread dies of an uncaught error, in which order jobs pass through, and exactly which runs
  make the runner return 0.
- `ConfigPaths.dfy`, `ConfigWalks.dfy`: the recursive `DoGather` as a class with its two stacks, and
  the proof that it records exactly the simple walks of the type graph, once each and in order.
- `ConfigEdges.dfy`: which attributes, registered types and aggregations give which edges, in which
  order, and the whole output as an enumeration of walks, root by root.
- `ConfigRepeats.dfy`, `ConfigRegistry.dfy`: when two of the recorded entries are equal, in one walk and
  over all roots, first on any labelled graph, then in terms of the registered types and aggregations.
- `LoadOrder.dfy`: the rounds of `dependency_order` over shared work lists; least fixed point, longest
  chains, and when the recursion returns.
- `PyText.dfy`, `StyleFixer.dfy`, `StyleChecks.dfy`, `StyleVerdicts.dfy`: Python's text operations, the
  guard-aware file loop for any line check, and the five line checks. A fixed file, written and read
  again, is compliant; what each check rejects and writes is stated on the characters of a line, and
  what the guards protect on their texts.
- `Benchmark.dfy`, `Welford.dfy`: the self-rescheduling event, the suite of runs, and the one-pass
  statistics.
- `BulkWriter.dfy`, `Fairness.dfy`, `TracePair.dfy`, `SenderApp.dfy`: the resumable writer, Jain's index
  in 64-bit arithmetic, the two tracers that write to each other's log, and the sender application.
- `Decimal.dfy`, `XmlExport.dfy`, `XmlTree.dfy`, `XmlDecode.dfy`: numerals, sanitising and indentation,
  indentation in place on objects, and reading every row back.

Code that updates objects in place is a class or a method with loops; each is proved against a
specification function, and the lemmas are about that function. Concurrency is a step relation.

## Where the code differs from what is said about it

- `Uniquefy` (utils/print-introspected-doxygen.cc:474-495) is documented to sort and deduplicate in
  place but takes its container by value. The model follows the code: gathering only appends, and an
  aggregation that is registered twice (lines 630 and 632) records its paths twice
  (`ConfigRegistry.RegisteredTwiceRepeats`). `ConfigRegistry.OutputRepeatsIff` says exactly when the output
  over all roots has a repetition, for registries whose names can be told apart in a path (`WellNamed`: types
  registered once under different names without a slash, attribute names that are different within a
  type, plain, and do not start with a dollar sign). Without that, `ConfigRepeats.DoubledRepeats` still
  gives one direction. The list of missing names is the documented one exactly if the registrations came
  in the order of the names missing from them (`ConfigPaths.TypicalNoTypeIds`).
- A benchmark suite sets its scheduler once (utils/bench-scheduler.cc:262), but every run ends with
  `Simulator::Destroy` (line 146), and the next run creates a simulator with a scheduler of the type that
  the global value SchedulerType names (src/core/model/simulator.cc:62-66, 88-112), which is
  ns3::MapScheduler unless the user sets it, and with the initial values of its attributes. Only the
  priming run is sure to use the requested scheduler; `Benchmark.BenchSuite` says exactly when the data
  runs do too: when SchedulerType names the type and the factory sets no attribute of that type away from
  its initial value, or there are no data runs. The data runs
  never measure a calendar in reverse order (line 508), whatever SchedulerType is, unless the user
  changes that initial value (`Benchmark.ReverseCalendarSuite`).
- A test suite that returns 0, 1 or 2 without having written its result file, or with bytes in it that
  are not UTF-8, makes the runner fail with an uncaught error, because the file is opened and read
  outside the exception handler (test.py:2098-2101); `TestReport.CollectResults` says exactly when.
  The main thread then neither collects the remaining jobs nor joins the workers, which still exit;
  `PoolRuns.MaximalRunsComplete` says exactly when this happens. Hence even a run in which every suite
  passes need not return 0 (`TestReport.PassingSuiteStopsRunner`); `TestReport.ReturnsZeroIff` is the exact
  condition.
- With a negative process limit (test.py:1612-1617) no worker is started and the collector waits for
  ever; `PoolRuns.FinishesIffStaffed` says exactly when the pool can finish.
- `sanitize_xml_text` is meant to leave text that XML accepts; it does exactly when the text holds
  neither U+FFFE nor U+FFFF (`XmlExport.TextIsXmlIff`).
- `indent_xml` gives no line of its own to what follows an element with children, unless it is the last
  of its parent (sqlite_to_xml.py:67-73): consecutive rows stand on one line. `XmlExport.IndentLayout`
  states the layout.

## Model

| member | source | states |
|---|---|---|
| WorkerPool.Conservation | test.py:1087-1171 | In every state of every interleaving, the dispatched jobs are, as a multiset, exactly those in the input queue, held by a worker, in the output queue or collected |
| WorkerPool.BreaksComeLast | test.py:1936-1943 | A worker that has taken a break marker finds every real job dispatched and taken, and only markers left in the queue |
| WorkerPool.InterruptedJobsDidNotRun | test.py:1101-1117 | A collected job is marked as a break only after the flag was raised, and neither it nor a skipped job was ever run |
| PoolRuns.RunsAreBounded | test.py:1623-1626 | No run has more than six steps per job, five per worker and one for the interrupt, wherever the interrupt falls |
| PoolRuns.Progress | test.py:1963-1966 | Until the main thread has left, by its joins or by an uncaught error, and every worker has exited, some thread other than the signal handler can move: no deadlock |
| PoolRuns.CanFinishFrom | test.py:2128-2129 | From every reachable state the pool can still be driven to its end, with all workers exited; the main thread can return from it unless an unreadable result is already reported, queued or collected |
| PoolRuns.MaximalRunsComplete | test.py:1936-2129 | In a run that cannot go on every worker took its one marker and exited, the input queue is empty, and the output queue and the collected jobs are a permutation of the planned ones; the main thread died if and only if some job run returned an unreadable result, and otherwise it joined all workers and the output queue is empty |
| PoolRuns.FailsIff | test.py:2095-2101 | In every reachable state the main thread is dead only if some job run returned an unreadable result, and a pool that is done without such a death never had one returned |
| PoolRuns.FinishesIffStaffed | test.py:1612-1626 | A run in which the main thread returns from its last join exists if and only if there is a worker or there is no job |
| PoolRuns.ResultsAreDelivered | test.py:1119-1171 | When the pool is done, every return code and result file of a job run is collected, or left in the output queue by a main thread that died, unaltered and exactly as often as it was produced, and nothing else is |
| PoolRuns.InterruptTheorem | test.py:639-645 | Once the flag is up, in whatever state, the jobs that end with a real result, when the pool is done, are exactly those a worker had looked at before |
| PoolOrder.InputIsFifo | test.py:1087-1104 | The jobs taken from the input queue, followed by those still in it, are the dispatched jobs in the order of the plan and then the markers |
| PoolOrder.OutputIsFifo | test.py:1963-1966 | The collected jobs, followed by those still in the output queue, are the reported jobs in the order of the reports |
| PoolOrder.OneWorkerKeepsOrder | test.py:1087-1171 | With one worker the collected jobs are, in every reachable state, the first jobs of the plan, in order |
| TestReport.RecordJob | test.py:1965-2121 | The effect of one collected job on the five counters and on failed_jobs, and when a result file that cannot be opened or decoded stops the runner |
| TestReport.CollectResults | test.py:1952-2121 | The loop counts every job by its status, builds failed_jobs and derives the exit code, or ends in an uncaught error exactly if a result file it opens is missing or is not UTF-8 |
| TestReport.CountsPartition | test.py:1977-1999 | passed + failed + valgrind + crashed + skipped + interrupted is the number of jobs |
| TestReport.SummaryByFields | test.py:1973-1999 | The counters of a completed report are the numbers of collected jobs that are skipped, or that were run and returned 0, 1, 2, or none of these |
| TestReport.ErrorByFields | test.py:2090-2101 | The report is the uncaught error if and only if some collected suite that was run returned 0, 1 or 2 and its file is missing or not UTF-8 |
| TestReport.ZeroIffAllGood | test.py:2238-2241 | When the pool has finished, the runner returns 0 if and only if every job was skipped, or returned 0 without leaving an unreadable result file, and none was interrupted |
| TestReport.UncaughtIffFailed | test.py:2095-2101 | However the main thread ended: the report is the uncaught error if and only if the main thread died while collecting |
| TestReport.ReturnsZeroIff | test.py:1963-2121 | However the main thread ended: the runner returns 0 if and only if every job run along the run returned 0 and left no unreadable result file, and no job came back as interrupted |
| TestReport.FailedOccurrences | test.py:1983-2115 | failed_jobs holds a job once for a non-zero return code plus once for a suite without a good result file read at return code 0 to 2, for every time it was collected |
| TestReport.FailedByFields | test.py:1983-2115 | What one job leaves in failed_jobs, by its return code, kind and result file |
| TestReport.FailedConcat | test.py:1963-2121 | failed_jobs lists these entries in the order of collection |
| TestReport.InterruptedRunZeroIff | test.py:1095-1104 | A run that is interrupted in some state returns 0 if and only if every planned job had been looked at by then and every job run was good |
| TestReport.CleanRunZeroIff | test.py:2238-2241 | Without an interrupt, in every interleaving, the runner returns 0 if and only if every job run returned 0 and left no unreadable result file |
| TestReport.PassingSuiteStopsRunner | test.py:2090-2101 | A run of one suite that returns 0 without writing its result file ends, for the main thread, in an uncaught error at the collection of that suite |
| ConfigPaths.StaticInformation.RecordAggregationInfo | utils/print-introspected-doxygen.cc:395-414 | Either the pair or the first unregistered name is recorded |
| ConfigPaths.StaticInformation.GetCurrentPath | utils/print-introspected-doxygen.cc:427-436 | The path string of the label stack |
| ConfigPaths.StaticInformation.HasAlreadyBeenProcessed | utils/print-introspected-doxygen.cc:446-457 | Membership in the ancestor stack |
| ConfigPaths.StaticInformation.DoGather | utils/print-introspected-doxygen.cc:514-596 | Terminates on every finite cyclic graph, appends the entries of the type, and restores both stacks |
| ConfigPaths.StaticInformation.FollowAttributes | utils/print-introspected-doxygen.cc:522-562 | The attribute loop follows exactly the pointer and container attributes, in order, except pointers to Object |
| ConfigPaths.StaticInformation.FollowChildren | utils/print-introspected-doxygen.cc:563-575 | The loop over registered types follows exactly the descendants, in order |
| ConfigPaths.StaticInformation.FollowAggregates | utils/print-introspected-doxygen.cc:576-595 | The loop over aggregations follows exactly the pairs with this type, to the other side, in order |
| ConfigEdges.EdgesInOrder | utils/print-introspected-doxygen.cc:522-595 | The edges that DoGather follows from a type: one for each pointer attribute, except to Object, with the attribute's name; one for each container attribute, with its name and "/[i]"; one for each registered descendant and one for each aggregation, with "$" and the name of the other type; in this order and no others |
| ConfigEdges.EdgeIff | utils/print-introspected-doxygen.cc:522-595 | An edge is followed if and only if an attribute, a registered descendant or an aggregation gives it |
| ConfigEdges.FirstStepIsRecorded | utils/print-introspected-doxygen.cc:514-596 | Every root is in the output with the empty path, and every other end of its edges with a slash and the label |
| ConfigEdges.ContainersAreFollowed | utils/print-introspected-doxygen.cc:549-560 | From the registrations on, the items of a container attribute of a root are recorded under "/name/[i]" |
| ConfigPaths.StaticInformation.Gather | utils/print-introspected-doxygen.cc:506-511 | Appends the entries of the walk and nothing else happens to the output: the call of Uniquefy changes a copy |
| ConfigPaths.StaticInformation.GatherRoots | utils/print-introspected-doxygen.cc:651-655 | The output over all root objects is the concatenation of their entries |
| ConfigPaths.StaticInformation.Get | utils/print-introspected-doxygen.cc:460-472 | The paths recorded for a type, in discovery order |
| ConfigEdges.PathsInOrder | utils/print-introspected-doxygen.cc:460-472 | The paths returned are those at exactly the positions of the type, each once and in the order of discovery |
| ConfigPaths.StaticInformation.GetNoTypeIds | utils/print-introspected-doxygen.cc:498-503 | The names as recorded; they are the documented list, sorted and without repetitions, of the names missing from the registered pairs if and only if the pairs came in strictly increasing order of those names |
| ConfigPaths.Uniquefy | utils/print-introspected-doxygen.cc:489-495 | What it makes of its own copy is sorted, free of repetitions and has the same elements; nothing of it reaches the caller |
| ConfigPaths.GetTypicalAggregations | utils/print-introspected-doxygen.cc:602-659 | Registering the pairs and gathering all roots leaves the entries of the type graph of the known pairs, and the first unknown name of every other pair |
| ConfigPaths.TypicalNoTypeIds | utils/print-introspected-doxygen.cc:602-659 | From the registrations on: exactly the names missing from some pair are returned, and as the documented list if and only if the pairs came in strictly increasing order of them |
| ConfigWalks.GatherEnumeratesSimpleWalks | utils/print-introspected-doxygen.cc:514-596 | The appended entries correspond one to one to the simple labelled walks that avoid the ancestors, in lexicographic order, each with the type it ends in and its labels |
| ConfigEdges.OutputEnumeratesWalks | utils/print-introspected-doxygen.cc:651-655 | The whole output holds one entry per root and simple walk from it, root by root and in lexicographic order |
| ConfigWalks.GetIsComplete | utils/print-introspected-doxygen.cc:460-472 | After any Gather calls, a path is returned for a type if and only if a simple walk from a root to the type spells it |
| ConfigWalks.TypicalPaths | utils/print-introspected-doxygen.cc:602-659 | The whole program: a path is returned for a type if and only if a simple walk from a root to it, in the graph of the known registrations, spells it |
| ConfigWalks.EqualEdgesRepeatPaths | utils/print-introspected-doxygen.cc:576-595 | An edge that exists twice records every path through it at two positions |
| ConfigRepeats.PathStringInjective | utils/print-introspected-doxygen.cc:427-436 | A path string determines its labels, when each is a plain name or one followed by the mark of a container |
| ConfigRepeats.RepeatsIffDoubled | utils/print-introspected-doxygen.cc:506-596 | With good labels, the appended entries hold two equal ones if and only if some simple walk reaches a type with two equal edges whose target is neither on the walk nor an ancestor |
| ConfigRepeats.OutputRepeats | utils/print-introspected-doxygen.cc:651-655 | The output over all roots holds two equal entries if and only if some root reaches a doubled edge, or simple walks from two of the roots end in the same type with the same labels |
| ConfigRegistry.RegisteredTwice | utils/print-introspected-doxygen.cc:576-595 | A pair that is registered twice gives two equal edges at both of its types |
| ConfigRegistry.NamedTwice | utils/print-introspected-doxygen.cc:630-632 | Naming the same two registered types twice records their pair twice |
| ConfigRegistry.RegisteredTwiceRepeats | utils/print-introspected-doxygen.cc:576-595 | A pair that is registered twice is recorded twice wherever a simple walk can still go through it |
| ConfigRegistry.WalkRepeatsIff | utils/print-introspected-doxygen.cc:506-596 | The same for what one walk appends, from any path and ancestor stack |
| ConfigRegistry.OutputRepeatsIff | utils/print-introspected-doxygen.cc:474-511 | In a well-named registry, the output over all roots has a repetition if and only if a simple walk from some root reaches a type that is linked, by two aggregations or by an aggregation and descent, to a type it can still go on to, or simple walks from two of the roots end in the same type with the same labels |
| ConfigRegistry.TypicalOutput | utils/print-introspected-doxygen.cc:602-659 | From the registrations on, the output is free of repetitions exactly under that condition on the known pairs |
| LoadOrder.ModulesThatCanBeLoaded | bindings/python/ns__init__.py:444-455 | The pending modules whose dependencies are all placed, in order |
| LoadOrder.Sorter.Round | bindings/python/ns__init__.py:462-469 | One round moves exactly the next layer from the pending list to the placed list and to its step |
| LoadOrder.Sorter.DependencyOrder | bindings/python/ns__init__.py:457-472 | Returns if and only if enough stack frames remain to place everything; the steps are then the layers |
| LoadOrder.SortToDependencies | bindings/python/ns__init__.py:474-479 | The flattened layers, or the recursion error |
| LoadOrder.PlacedIsLeastFixedPoint | bindings/python/ns__init__.py:444-455 | The modules ever placed are the least set closed under "all my dependencies are placed" |
| LoadOrder.CompletesIffNobodyDoomed | bindings/python/ns__init__.py:457-472 | Everything is placed eventually if and only if no module reaches a cycle or an absent library |
| LoadOrder.PendingStabilises | bindings/python/ns__init__.py:457-472 | Otherwise what is pending stops changing and is exactly the set of those modules |
| LoadOrder.ReturnsIffChainsFit | bindings/python/ns__init__.py:470-472 | With a given number of frames the recursion returns if and only if every dependency chain is shorter than that and ends in a known library |
| LoadOrder.StepIsLongestChain | bindings/python/ns__init__.py:462-469 | A module's step number is the length of its longest dependency chain |
| LoadOrder.LoadListIsTopological | bindings/python/ns__init__.py:474-479 | The load list is a duplicate-free permutation of the modules in which every dependency comes earlier |
| LoadOrder.DependenciesInEarlierSteps | bindings/python/ns__init__.py:462-469 | A module belongs to one step only, and each of its dependencies to a strictly earlier one |
| LoadOrder.StepsKeepOrder | bindings/python/ns__init__.py:444-455 | Within a step the modules keep the order of the dictionary |
| StyleFixer.PassGuard | utils/check-style-clang-format.py:646-659 | The guard flag after a line, and whether the line is skipped |
| StyleFixer.ScanLines | utils/check-style-clang-format.py:645-674 | The verdict of the early-exit scan is that of the full scan, and the rewritten lines are the fixed lines |
| StyleFixer.CheckManuallyFile | utils/check-style-clang-format.py:619-680 | The verdict and the contents of the file afterwards, in every mode |
| StyleFixer.VerdictIsFullScan | utils/check-style-clang-format.py:646-674 | A file is compliant if and only if every line outside the switched-off regions is |
| StyleFixer.GuardedLinesAreKept | utils/check-style-clang-format.py:646-668 | A fix leaves every line of a switched-off region unchanged and replaces every other bad line by its fix |
| StyleFixer.FixedFileIsCompliant | utils/check-style-clang-format.py:675-680 | For any check with good line fixes: the fixed file, read again, is compliant, and a second fix changes nothing |
| StyleVerdicts.GuardsMeaning | utils/check-style-clang-format.py:46-57 | For every check that respects the guards: a line is protected if it is none of the six guard texts, comes after one of the three "off" texts, and none of the three "on" texts stands between; the verdict is that of all other lines, and the fix replaces exactly the bad ones among them |
| StyleVerdicts.RegionIsKept | utils/check-style-clang-format.py:646-668 | Between an "off" and an "on" text the body is kept whatever it contains, and every bad line around it is replaced |
| StyleVerdicts.RegionFileIsKept | utils/check-style-clang-format.py:646-680 | A file whose only bad lines are in such a region is accepted and left alone by the include, license, emacs and tabs checks |
| StyleVerdicts.UnguardedMeaning | utils/check-style-clang-format.py:645-668 | A check that ignores the guards looks at every line and replaces every bad one |
| StyleChecks.IncludeQuotesFix | utils/check-style-clang-format.py:734-769 | A fixed include line is compliant and no guard was involved |
| StyleVerdicts.IncludeQuotesMeaning | utils/check-style-clang-format.py:751-769 | A line is rejected if and only if it starts with the include of an ns-3 header in angle brackets that closes after .h on the same line; the fix turns all angle brackets into quotes and changes nothing else |
| StyleChecks.LicenseFix | utils/check-style-clang-format.py:822-883 | A license line becomes a compliant SPDX line in the same comment, or disappears |
| StyleVerdicts.LicenseMeaning | utils/check-style-clang-format.py:837-883 | A line is rejected if and only if it is one of the license texts inside space, comment marks and space; the first text is replaced by the SPDX text inside the same comment, and a line with another one is deleted |
| StyleChecks.EmacsFix | utils/check-style-clang-format.py:886-923 | An editor line disappears, and a guard is never such a line |
| StyleVerdicts.EmacsMeaning | utils/check-style-clang-format.py:901-923 | A line is rejected if and only if one of the two editor marks occurs in it, and is then deleted |
| StyleChecks.WhitespaceFix | utils/check-style-clang-format.py:926-956 | The fixed line has no trailing space and ends in one newline |
| StyleVerdicts.WhitespaceMeaning | utils/check-style-clang-format.py:941-956 | A line is accepted if and only if it ends in a newline with no space before it; the fix cuts it after its last character that is no space and ends it with a newline |
| StyleChecks.TabsFix | utils/check-style-clang-format.py:959-991 | The expanded line has no tab, stays one line, and a guard stays the same guard |
| StyleVerdicts.TabsMeaning | utils/check-style-clang-format.py:974-991 | A line is rejected if and only if it has a tab; the fix keeps all other characters in order and puts for each tab the spaces up to the next multiple of 4 |
| StyleChecks.FixIsFinal | utils/check-style-clang-format.py:675-680 | For each of the five checks: fixing, writing and reading again gives a compliant file that a second fix leaves alone |
| StyleVerdicts.TabsAreGone | utils/check-style-clang-format.py:959-991 | After fixing tabs, no line of the file outside the protected regions holds one |
| StyleVerdicts.TrailingSpaceIsGone | utils/check-style-clang-format.py:926-956 | After fixing whitespace, every line of the file ends in a newline with no space before it |
| PyText.NewlinesMeaning | utils/check-style-clang-format.py:642-643 | Reading a file turns each carriage return, with the newline after it if there is one, into a newline |
| StyleChecks.TabsKeepWhitespace | utils/check-style-clang-format.py:959-991 | Fixing tabs does not bring trailing whitespace back |
| StyleChecks.WhitespaceThenTabs | utils/check-style-clang-format.py:76-86 | The two passes in their order leave a file that both checks accept |
| Benchmark.PopulationIsConstant | utils/bench-scheduler.cc:151-164 | For every order of events and every delay, the number of pending events is constant until the stop, and the count follows the callbacks |
| Benchmark.TimesAdvance | utils/bench-scheduler.cc:151-164 | Until the stop the times of the pending events advance by exactly the delays drawn |
| Benchmark.RunsExecuteTotal | utils/bench-scheduler.cc:121-164 | A run of a positive population stops after exactly total events; an empty one executes none |
| Benchmark.Simulator.GetImpl | src/core/model/simulator.cc:88-112 | The simulator is created on demand, with a scheduler of the type that SchedulerType names and the initial values of its attributes |
| Benchmark.CreatesTheSameIff | src/core/model/object-base.cc:99-158 | A factory creates the same scheduler as a bare type name if and only if it has that type and sets no attribute of it away from its initial value |
| Benchmark.Bench.Run | utils/bench-scheduler.cc:121-149 | The number of events executed, the scheduler, with its attributes, that executed them, and one delay drawn for each event scheduled |
| Benchmark.BenchSuite | utils/bench-scheduler.cc:255-296 | The priming run uses the scheduler that the factory creates and every data run that of SchedulerType; all data runs use the former if and only if SchedulerType names its type and the factory sets no attribute of it away from its initial value, or there are no data runs; every run executes exactly the total, or nothing for an empty population |
| Benchmark.ReverseCalendarSuite | utils/bench-scheduler.cc:505-514 | Also when SchedulerType names the calendar, the data runs of the reverse calendar use one in normal order |
| Welford.AccumulateTracks | utils/bench-scheduler.cc:345-349 | One update keeps the average the mean and the moment the sum of squared deviations from it, whatever the average was seeded with |
| Welford.Log | utils/bench-scheduler.cc:319-359 | After the loop each of the six fields, by its name, holds the exact mean and sum of squared deviations of that field; nothing is logged for fewer than two results |
| Welford.DeviationsNonNegative | utils/bench-scheduler.cc:361-368 | The quantity under the square root is never negative |
| BulkWriter.Flow.constructor | examples/tcp/tcp-large-transfer.cc:94-99 | The buffer holds the alphabet over and over |
| BulkWriter.Flow.WriteUntilBufferFull | examples/tcp/tcp-large-transfer.cc:211-232 | What the socket accepts stays a prefix of the stream, no byte outside the buffer is read, it returns early only when the socket is full or refuses, and it closes the socket exactly when everything is accepted |
| BulkWriter.Flow.StartFlow | examples/tcp/tcp-large-transfer.cc:199-208 | Connects and starts writing |
| BulkWriter.Transfer | examples/tcp/tcp-large-transfer.cc:198-232 | For every socket and every number of callbacks the accepted bytes are a prefix of the stream of at most the total length, and the socket is closed if and only if all of it was accepted |
| BulkWriter.BufferMatchesStream | examples/tcp/tcp-large-transfer.cc:40-45 | The write size is a multiple of the alphabet: an offset into the buffer is an offset into the stream |
| Fairness.Lagrange | examples/tcp/dctcp-example.cc:172-186 | n times the sum of squares minus the squared sum is the sum of squared differences over all pairs |
| Fairness.FairnessBounds | examples/tcp/dctcp-example.cc:172-186 | sumSquares <= sum^2 <= n * sumSquares, with equality on the right if and only if all counts are equal |
| Fairness.GroupFairness | examples/tcp/dctcp-example.cc:180-186 | Sum, sum of squares, numerator and denominator are those of the exact index modulo 2^64, and exact when every count is at most B with n * B < 2^32 |
| Fairness.AggregateBits | examples/tcp/dctcp-example.cc:218-239 | Eight times the sum over two groups, modulo 2^64 |
| Fairness.Counters.TraceSink | examples/tcp/dctcp-example.cc:114-130 | A packet is added to the counter of its flow and to no other |
| Fairness.Counters.InitializeCounters | examples/tcp/dctcp-example.cc:132-147 | All counters are zero afterwards |
| Fairness.Counters.PrintFairness | examples/tcp/dctcp-example.cc:174-240 | The three indices and the two aggregates, each over its own groups |
| TracePair.NodeIdRoundTrip | examples/tcp/tcp-variants-comparison.cc:69-74 | The parser recovers every 32-bit node id from its context path |
| TracePair.StoulMeaning | examples/tcp/tcp-variants-comparison.cc:73 | What the conversion makes of space, a sign, digits and a rest: it throws without digits or for a number of more than 64 bits, negates modulo 2^64 for a minus sign, and ignores the rest |
| TracePair.Traces.Connect | examples/tcp/tcp-variants-comparison.cc:546-549 | Raises both flags of one node and opens both logs |
| TracePair.Traces.CwndTracer | examples/tcp/tcp-variants-comparison.cc:84-101 | The effect on both logs of the node that the context names; other nodes are untouched, and so is everything if the context does not parse |
| TracePair.Traces.SsThreshTracer | examples/tcp/tcp-variants-comparison.cc:111-129 | The effect on both logs of the node that the context names; other nodes are untouched, and so is everything if the context does not parse |
| TracePair.LogsAreStepFunctions | examples/tcp/tcp-variants-comparison.cc:84-129 | Over every sequence of events each log is empty until the first event of its own kind and is then the step function of its quantity: initial value at time 0, and the value in force at the time of every later event of either kind |
| TracePair.Traces.TraceFlows | examples/tcp/tcp-variants-comparison.cc:84-129 | After connecting any nodes, and for any sequence of trace calls over all nodes, both logs of each connected node are the step functions of that node's own events |
| TracePair.OwnEventsOnly | examples/tcp/tcp-variants-comparison.cc:69-74 | Whatever calls come for other nodes, a node ends up as its own events alone would leave it |
| TracePair.LogsGrowTogether | examples/tcp/tcp-variants-comparison.cc:84-129 | Once both flags are cleared, every sequence of events adds exactly one entry per event to both logs, with the same times, and keeps what was there |
| SenderApp.Sender.StartApplication | examples/stats/wifi-example-apps.cc:93-109 | Whatever was pending, exactly one new event is afterwards; the socket is open and the counter is zero |
| SenderApp.Sender.StopApplication | examples/stats/wifi-example-apps.cc:112-116 | Nothing is pending afterwards, and nothing was sent |
| SenderApp.Sender.SendPacket | examples/stats/wifi-example-apps.cc:119-142 | One packet is sent, and one event is pending afterwards if and only if packets are left |
| SenderApp.Drive | examples/stats/wifi-example-apps.cc:93-142 | The object driven by any script of starts, stops and timer events follows the model; without a start it sends at most what is left, and nothing if no event is pending |
| SenderApp.AtMostOnePending | examples/stats/wifi-example-apps.cc:93-142 | In every interleaving at most one send event is pending, and it finds a socket |
| SenderApp.SilentAfterStop | examples/stats/wifi-example-apps.cc:112-116 | Nothing is sent between a stop and the next start |
| SenderApp.StartSendsAll | examples/stats/wifi-example-apps.cc:119-142 | A start is followed by at most the configured number of packets, and by exactly that many if left to finish |
| XmlExport.TagIsName | sqlite_to_xml.py:26-37 | A sanitised tag is a Name per section 2.3 of XML 1.0 |
| XmlExport.TagIsStable | sqlite_to_xml.py:26-37 | Sanitising a tag twice is sanitising it once |
| XmlExport.TagMeaning | sqlite_to_xml.py:26-37 | The stripped name keeps its letters, digits, underscores, colons and hyphens and has underscores for all other characters; a digit, colon or hyphen in front gets the prefix "col_", and an empty name becomes "column" |
| XmlExport.TextKeepsTheRest | sqlite_to_xml.py:43-52 | A position is dropped if and only if its character is no XML character and neither U+FFFE nor U+FFFF; the others stay, each once and in order |
| XmlExport.XmlTextIsKept | sqlite_to_xml.py:43-52 | A text of XML characters is kept as it is |
| XmlExport.TextIsXmlIff | sqlite_to_xml.py:43-52 | The result holds only characters that XML 1.0 allows if and only if the text has neither U+FFFE nor U+FFFF |
| XmlExport.TextIsStable | sqlite_to_xml.py:43-52 | Sanitising a text twice is sanitising it once |
| XmlExport.IndentKeepsContent | sqlite_to_xml.py:58-73 | Indenting keeps tags, attributes, structure, the text of leaves and all text that is not blank |
| XmlExport.IndentIsIdempotent | sqlite_to_xml.py:58-73 | Indenting an indented tree changes nothing |
| XmlExport.IndentLayout | sqlite_to_xml.py:58-73 | The layout: which blank texts and tails become a line break, and how deep it is, and that nothing else changes |
| XmlTree.Node.Indent | sqlite_to_xml.py:58-73 | The in-place recursion on the element objects computes exactly the indented tree |
| XmlDecode.BuildTree | sqlite_to_xml.py:91-139 | The nested loops build the tree of tables, rows and cells, with the summary in front |
| XmlDecode.BuildRow | sqlite_to_xml.py:107-116 | One cell per column, with a null mark or the sanitised text |
| XmlDecode.FoundByTag | sqlite_to_xml.py:85-139 | A reader who looks for tags finds the database, its one summary with one table per table, and the tables |
| XmlDecode.RowsAreRecovered | sqlite_to_xml.py:79-141 | From the indented tree a reader who looks for the tags table and row recovers every table's name and rows, in order, with every column's sanitised text or null mark |
| XmlDecode.CountsAgree | sqlite_to_xml.py:120-139 | The row counts in a table and in the summary are numerals of the number of rows present |
| Decimal.DecimalDigits | sqlite_to_xml.py:120-137 | Numerals have their most significant digit first |

## Left out

- Worker pool: process launching, valgrind and the command lines of test.py; a job run returns any code and any result file. A job run that never returns is not modelled.
- Worker pool: a second signal leaves the flag as it is and is not a step of its own.
- Report: names, printed lines, the XML results file and the HTML and text reports of test.py, including the errors that writing or translating them can raise. A result file that exists but cannot be opened counts as missing.
- Gatherer: `TypeId`, attribute checkers and `IsChildOf` of src/core are a finite registry given as a parameter; the printing functions of utils/print-introspected-doxygen.cc are not modelled.
- Load order: library discovery, reading linked libraries, and the name filter before the sort; the dependency map is a parameter. The step dictionary, whose keys are 0, 1, 2, ... in insertion order, is a sequence.
- Style fixer: `check_formatting_file` (runs clang-format), `check_encoding_file`, `check_include_prefixes_line` (depends on which files exist), `check_doxygen_tags_line`, the verbose messages, and the search for files. Lines are written with a single newline character, as on Linux. A file is text: one that is not UTF-8 cannot be read by the fixer either.
- Style fixer: no claim is made that all passes together are final, because expanding tabs can turn a line into a license line after the license pass.
- Benchmark: wall-clock times, the printed tables and square roots; averages are over real numbers, not rounded ones.
- BulkWriter.Flow.WriteUntilBufferFull: the socket calls back only between calls, and accepts at least one byte when it does not refuse; reentrant callbacks are not modelled.
- Benchmark.Simulator.GetImpl: SchedulerType and the initial attribute values are fixed while a suite runs, as the program sets them only while it parses its command line. The simulator implementation is the default one.
- TestReport.RecordJob: the content of a result file is fixed when its job run returns, although it is read only when the job is collected; nothing writes to it in between.
- ConfigPaths.GetTypicalAggregations: a second call, which returns the static object as it is (lines 610-613), is not modelled.
- ConfigPaths.Uniquefy: `std::sort` and `std::unique` are an insertion that skips what is there already.
- Fairness: the division, the averages and the throughput files; counters are vectors of their intended lengths.
- TracePair.Traces.Connect: the flags are raised at set-up and the streams opened by a later event, before which the sources of the node are not connected; here both are one step. Opening a stream is an empty log; a write to a stream that was never opened, which would crash, is not modelled, and neither are the tracers of other quantities.
- SenderApp.Sender.SendPacket: packet contents, addresses and `DoDispose`; the number of packets is at least one, as the attribute's checker demands.
- XmlDecode.BuildTree: the tree is built as a value and indented as objects; the database connection, `str` of a value, and writing and parsing the XML file belong to Python's libraries. Lone surrogates, which Python strings may hold, are not characters here.
- Everything under src/, apart from the creation and destruction of the simulator, and the other examples and utilities: library code, or topology set-up that would only add easy members.
