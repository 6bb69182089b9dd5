# Verified model of the performance toolkit's algorithms

The toolkit is a collection of C and C++ programs that measure an operating system: locks, barriers, context
switches, memory access, scheduling, disks and sockets. Around the measuring code stand algorithms whose results
the measurements depend on. This project models those algorithms in Dafny and proves what they are for.

* **Concurrent protocols** are machines on values. A state holds the shared variables and every thread's program
  counter and locals, one step is one atomic operation of one thread, and `Runs` lifts an inductive invariant to
  every run of any length, for any number of threads and any interleaving. `Folding` sums per-thread contributions
  to shared counters over all threads. Modules: `SpinLockWorkers`, `Barrier`, `HerdGate`, `Rally` with its two
  refinements `TurnHandOff` and `PipeHandOff`, `CasStatistics`, `EchoProtocol`, `SocketOwnership`.
* **Code that updates memory in place** is methods over arrays and classes, each proved against a function of the
  old contents: `ServerTable`, `PointerChase`, `PointerChaseLists`, `Traversals`, `LatencyHistogram`,
  `AllocationLedger`, the wrapper class of `SocketOwnership` and the summaries of `TwoPassStatistics`. Lemmas then
  state what those functions mean.
* **Arithmetic** is over the reals, and standard deviations are compared by their squares: `Moments`, `Quantiles`,
  `Fairness`, `TwoPassStatistics`.

Clocks, `rand()`, the scheduler, `select`, `accept`, `recv` and `send` are nondeterministic: they are parameters,
or choices of a step, restricted only by what their interfaces guarantee.

Some things the code might be taken to promise do not hold in general. The model keeps the code as it is and proves
exactly when they hold:

* the barrier keeps threads together if and only if the condition variable never wakes a thread without a signal,
  because its wait is not in a loop (`Barrier.SafeIff`, witness `Barrier.EarlyReturn`); the herd gate does wait in a
  loop and needs no such condition;
* `g_max_waiters` is the true peak for sure only with a single thread (`SpinLockWorkers.PeakRecordedIff`, witness
  `SpinLockWorkers.LateStore`);
* the echo client cannot hang if and only if the server's sends are complete (`EchoProtocol.NeverStuckIff`);
* after shuffling the links of a ring, the pointer chase visits every node if and only if the choices split cycles as
  often as they join them (`PointerChase.CoversIffBalanced`); with two nodes or more it never even leaves node 0
  if and only if the first choice is the last node (`PointerChase.StuckAtStartIff`). The C++ cache analyzer's list
  always visits every node (`PointerChaseLists.TourIsHamiltonian`);
* `rand()` reaches every order of the links if and only if there are at most `RAND_MAX + 1` nodes
  (`FisherYates.EveryOrderDrawableIff`);
* the two memory traversals have the same effect if and only if the size is a multiple of a cache line or the
  increments have gone round (`Traversals.SameEffectIff`);
* the compare-exchange maximum starts at 0, so it is the largest sample if and only if some submitted sample is not
  negative (`CasStatistics.MaximumIff`, failing states in `CasStatistics.NegativesLost`);
* the buckets of the latency histogram count the samples on its present scale if and only if no sample was more than
  twice the first, as samples are not moved when the scale changes (`LatencyHistogram.ExactIff`);
* descriptors are all closed with their wrappers if and only if `release` was never called on an owner
  (`SocketOwnership.AllClosedIff`, witness `SocketOwnership.ReleaseLeaks`).

## Model

| member | source | states |
|---|---|---|
| SpinLockWorkers.MutualExclusion | src/lock_contention_visualizer.c:126-145 | In every reachable state at most one thread is between the test-and-set and the clear, and the flag is set exactly while one is there. |
| SpinLockWorkers.NoLostUpdates | src/lock_contention_visualizer.c:247-259 | With the load and the store of the increment as separate steps, the shared counter always equals the write counts of all threads plus the writers that have stored but not yet counted themselves. |
| SpinLockWorkers.Quiescence | src/lock_contention_visualizer.c:293-347 | When all workers have stopped the lock is free, nobody is counted as waiting, and the data and both global counters are the sums of the per-thread ones; balanced threads have at most one more read than writes, and in a herd every acquisition is one increment. |
| SpinLockWorkers.OneKindOnly | src/lock_contention_visualizer.c:300-305 | With a read percentage of 100 or more nobody ever writes and the data stays 0; with 0 or less nobody ever reads. |
| SpinLockWorkers.ReadShare | src/lock_contention_visualizer.c:297-311 | Of a hundred successive draws exactly the percentage chooses a read, of two in the random workload exactly the even one; balanced threads take turns. |
| SpinLockWorkers.LongWaitsCount | src/lock_contention_visualizer.c:198-202 | A wait over the threshold is counted once, for the thread that waited, and nothing else is. |
| SpinLockWorkers.AlwaysProgress | src/lock_contention_visualizer.c:126-145 | Until every worker has stopped, some worker has a step that changes the state. |
| SpinLockWorkers.EveryStopEnds | src/lock_contention_visualizer.c:293-347 | Once the stop flag is set, at most 17 steps for each worker can be anything but a test of a held lock, and nothing else is left only when all workers have finished. |
| SpinLockWorkers.StepInv | src/lock_contention_visualizer.c:168-343 | Every step of every thread keeps the whole invariant: one holder, balanced books, unchanged data between an increment's load and store, and honest per-thread counts. |
| SpinLockWorkers.PeakRecordedIff | src/lock_contention_visualizer.c:171-176 | The recorded maximum never exceeds the true peak of waiters; it is sure to equal it when no update is pending if and only if there is at most one thread. |
| SpinLockWorkers.LateStore | src/lock_contention_visualizer.c:171-176 | For two or more threads, a run in which a late store leaves 1 recorded although 2 threads waited. |
| Barrier.NoEarlyReturn | src/cache_analyzer.c:35-48 | Without spurious wakeups nobody has returned from more waits than anybody else has entered, and arrival counts never differ by more than one. |
| Barrier.CountIsSleepers | src/cache_analyzer.c:35-48 | While the mutex is free, `count` is the number of threads asleep on the condition and less than the number of threads. |
| Barrier.OneSerialThread | src/cache_analyzer.c:38-46 | In every round that all threads have left, exactly one of them got the result 1 and the others 0. |
| Barrier.NoDeadlock | src/cache_analyzer.c:35-48 | Until all threads are through all rounds some thread can take a step. |
| Barrier.EveryRunEnds | src/cache_analyzer.c:35-48 | Without spurious wakeups every run has at most 6 steps for each thread and round, and one that cannot go on has brought all threads through all rounds. |
| Barrier.ReadyForReuse | src/cache_analyzer.c:658-711 | When all are through, every round has been completed, the mutex is free and the count is 0, so the same barrier serves the next batch of threads. |
| Barrier.StepInv | src/cache_analyzer.c:35-48 | Every step keeps the invariant that relates the count, the round number, who won which round and what each wait returned. |
| Barrier.SafeIff | src/cache_analyzer.c:43-46 | Waits never end before everyone has arrived if and only if there are no spurious wakeups, or at most one thread, or no rounds. |
| Barrier.EarlyReturn | src/cache_analyzer.c:43-46 | With spurious wakeups and two threads or more, a run in which one thread returns before another has arrived. |
| HerdGate.NobodyStartsEarly | src/lock_contention_visualizer.c:279-290 | No thread is past the gate before every thread has been counted, even with spurious wakeups. |
| HerdGate.NoLostWakeup | src/lock_contention_visualizer.c:279-290 | Behind an open gate a thread sleeps only while the broadcast is still to come, and until all are past the gate some thread can take a step. |
| HerdGate.EveryRunEnds | src/lock_contention_visualizer.c:279-290 | Without spurious wakeups every run has at most 8 steps for each thread, and one that cannot go on has brought all past the gate. |
| HerdGate.StepInv | src/lock_contention_visualizer.c:279-290 | Every step keeps the invariant: the ready count is the number of arrived threads, and a sleeper behind an open gate has its broadcast still to come. |
| Rally.StrictAlternation | src/context_switch_cpp.cpp:308-389 | In the abstract rally that both mechanisms implement, parent and child strictly alternate, parent first, for at most the given rounds. |
| TurnHandOff.MovesInTurn | src/context_switch_cpp.cpp:274-296 | A step either leaves control where it is or is the stepping party's own legal move in the rally. |
| TurnHandOff.RefinesRally | src/context_switch_cpp.cpp:318-346 | Every reachable state of the turn-variable machine shows a reachable state of the rally and satisfies the invariant. |
| TurnHandOff.SamplesAreRounds | src/context_switch_cpp.cpp:286-298 | Sample k uses the parent's and the child's time stamps of round k and is not negative; at the end there is one sample per iteration, and the child never leaves through its `done` break. |
| TurnHandOff.SamplesAreClockTimes | src/context_switch_cpp.cpp:274-296 | Over every run, sample k is the clock at the step where the child stamped round k minus the clock at the step where the parent did. |
| TurnHandOff.SomePartyProgresses | src/context_switch_cpp.cpp:272-302 | Progress is bounded and never undone, and until both have left some party has a step that increases it, and the bound is reached when both have left. |
| PipeHandOff.RefinesRally | src/context_switch_cpp.cpp:356-388 | The two-pipe machine refines the same rally, even when reads and writes may fail. |
| PipeHandOff.OneByte | src/context_switch_cpp.cpp:356-388 | At most one byte is in both pipes together and it is the parent's first byte; samples are not negative, and a parent that ends normally has one per iteration. |
| PipeHandOff.TimesAreClockTimes | src/context_switch_cpp.cpp:359-373 | Over every run, even with failing calls, time k is the clock when the parent had its byte back in round k minus the clock when it began that round. |
| PipeHandOff.NeverBlocked | src/context_switch_cpp.cpp:356-388 | Without failures each step raises a bounded measure, and somebody is always able to step until both have left. |
| SameRally.SameGame | src/context_switch_cpp.cpp:318-388 | With equal iterations, completed runs of the two mechanisms made the very same moves and as many samples. |
| CasStatistics.StepInv | src/network_io_benchmarker_cpp.cpp:97-122 | Every operation, including compare-exchanges that fail spuriously, keeps the accumulators equal to what the pushed samples and those in flight account for. |
| CasStatistics.Quiescence | src/network_io_benchmarker_cpp.cpp:97-122 | Once all submissions are over, the sample list holds exactly the submitted samples, and total, count, minimum and maximum are theirs. |
| CasStatistics.Monotone | src/disk_io_analyzer_cpp.cpp:100-110 | No step raises the minimum or lowers the maximum. |
| CasStatistics.MaximumIff | src/lock_visualizer_cpp.cpp:159-163 | In every run the final maximum is the largest submitted sample if and only if some submitted sample is not below the initial 0. |
| CasStatistics.NegativesLost | src/lock_visualizer_cpp.cpp:159-163 | Whenever no submitted sample reaches 0, a finished run is reachable whose maximum is 0, which is none of the samples. |
| CasStatistics.EveryRunEnds | src/network_io_benchmarker_cpp.cpp:97-122 | Under any interleaving without spurious failures every run ends within a bound fixed by the work, and only with every submission finished. |
| CasStatistics.QuietFollows | src/network_io_benchmarker_cpp.cpp:97-122 | From every reachable state, even after spurious failures, all submissions can still be finished. |
| CasStatistics.FailureMeansSuccess | src/disk_io_analyzer_cpp.cpp:94-110 | If a waiting thread's expected value was current and no longer is, so that its compare-exchange fails, another thread's compare-exchange has succeeded in between. |
| CasStatistics.AloneItFinishes | src/disk_io_analyzer_cpp.cpp:94-114 | A run in which one thread steps alone without spurious failures has at most 16 operations for each of its samples. |
| EchoProtocol.EveryRoundEchoes | src/network_io_benchmarker.c:732-762 | Every round that ends left the whole message in the receive buffer, byte for byte, even if the server's sends may be short; with complete sends, received bytes followed by those in the streams and the server's hands are always the message. |
| EchoProtocol.BytesConserved | src/network_io_benchmarker.c:732-762 | At most one message is outstanding; unless the client has aborted, bytes sent equal bytes received, outstanding and dropped; the server never sends more than it received. |
| EchoProtocol.NothingSentAfterStop | src/network_io_benchmarker.c:732 | Once a stop is requested no further message is sent, and there are never more messages than rounds. |
| EchoProtocol.MessageBytes | src/network_io_benchmarker.c:726-728 | The message counts up from 0 and starts over at 256. |
| EchoProtocol.ShortSendOut | src/network_io_benchmarker.c:736-740 | A short send of the client leaves exactly the accepted beginning of the message under way and ends the client. |
| EchoProtocol.AnyPieces | src/network_io_benchmarker.c:747-753 | Every division of a message into first pieces, by the server and by the client, is reached. |
| EchoProtocol.RoundIsWhole | src/network_io_benchmarker.c:745-760 | A round can only end with nothing dropped and nothing left in any stream. |
| EchoProtocol.StuckIff | src/network_io_benchmarker.c:302-313 | Nothing but failure can happen exactly when the client is receiving, bytes were dropped and none is outstanding. |
| EchoProtocol.NeverStuckIff | src/network_io_benchmarker.c:307-313 | No run gets stuck if and only if sends are complete, or messages are empty, or no round is played. |
| EchoProtocol.StepUsesWork | src/network_io_benchmarker.c:732-762 | Every step except a stop request strictly uses up the hops that bytes and rounds still have to make. |
| EchoProtocol.EveryRunEnds | src/network_io_benchmarker.c:732-762 | Whatever is dropped or fails, a run without stop requests is over after at most 3 steps for each byte and 2 for each round, and one more. |
| EchoProtocol.CalmRunCompletes | src/network_io_benchmarker.c:732-762 | With complete sends, no failing call and no stop request, a run that cannot go on has echoed every round, byte for byte. |
| ServerTable.SelectServer.Pass | src/network_io_benchmarker.c:251-330 | After a pass the table is the old one with any accepted connection appended, without the closed ones, in order, served if ready; each old ready connection was serviced, the new one was not; the table, the watched set, the largest descriptor and the byte counts stay consistent. Each connection that delivered n bytes has n more received, what was sent back more sent and the new time; each that would block or was not ready is unchanged; each total has grown by the sum over the serviced ones. |
| ServerTable.SelectServer.HandleAccept | src/network_io_benchmarker.c:267-293 | An accepted descriptor is appended, watched and counted into the largest exactly if it is valid and there are fewer than 10000 connections; otherwise nothing changes. |
| ServerTable.SelectServer.HandleClients | src/network_io_benchmarker.c:296-329 | The loop with its shift and `i--` computes the survivors of the old table in order and services exactly the ready entries in order. |
| ServerTable.SelectServer.ServiceAt | src/network_io_benchmarker.c:299-328 | One ready descriptor: echo and account, close and remove, or leave alone when it would block. |
| ServerTable.SelectServer.ShiftDown | src/network_io_benchmarker.c:322-325 | Shifting down removes exactly entry i and keeps the order of the others. |
| ServerTable.ScanStepInv | src/network_io_benchmarker.c:296-329 | After each iteration the entries before the index are the survivors of those seen, and those from the index on are the rest of the old table. |
| ServerTable.SurvivorsAre | src/network_io_benchmarker.c:296-329 | The survivors are exactly the connections that were not closed, each once and with its own echo accounted. |
| ServerTable.SurvivorsServed | src/network_io_benchmarker.c:299-328 | Afterwards a connection that delivered data has its counters and time moved on, one that was not ready or would block is untouched, and a closed one is gone. |
| ServerTable.OrderKept | src/network_io_benchmarker.c:321-326 | Connections that stand in some order afterwards stood in that order before. |
| ServerTable.TrafficCounted | src/network_io_benchmarker.c:302-313 | Bytes and messages received and sent have each grown by the sum over the serviced descriptors. |
| ServerTable.ServicedOnce | src/network_io_benchmarker.c:296-329 | Every connection of the table that is ready is serviced exactly once and no other descriptor is. |
| ServerTable.PassKeeps | src/network_io_benchmarker.c:283-327 | Descriptors stay distinct, the watched set stays the table's plus the listener, all at most `max_fd`, and no connection was sent more than it delivered. |
| ServerTable.HandleClientData | src/network_io_benchmarker_cpp.cpp:567-602 | Erasing through an iterator computes the same table, watched set and traffic as the C loop. |
| Permutations.CycleThrough | src/vm_explorer.c:232-237 | In a bijection of links every node lies on a cycle that starts with it. |
| Permutations.SwapSplitsOrJoins | src/vm_explorer.c:225-227 | Swapping two links splits their cycle if they share one, joins their two cycles otherwise, and leaves all other cycles alone. |
| Permutations.SwapCounts | src/vm_explorer.c:225-227 | Such a swap changes the number of cycles by exactly one, up for a split and down for a join. |
| Permutations.CoversIff | src/vm_explorer.c:232-237 | The cycle through node 0 has all nodes if and only if it is the only cycle. |
| FisherYates.ShuffleBijection | src/vm_explorer.c:223-228 | On distinct elements the swap loop maps choice sequences one to one onto all rearrangements. |
| FisherYates.ChoiceFollowsDraw | src/vm_explorer.c:224 | The choice for position i is one of i, ..., n - 1, at a distance that differs from the draw by a multiple of n - i. |
| FisherYates.EveryOrderDrawableIff | src/vm_explorer.c:223-228 | Draws up to RAND_MAX reach every rearrangement if and only if there are at most RAND_MAX + 1 nodes. |
| FisherYates.LastNeverFirst | src/vm_explorer.c:224 | With more nodes than that no draws bring the last element to the front. |
| PointerChase.LinkRing | src/vm_explorer.c:216-220 | The linking loop leaves every node k linked to k + 1 and the last to 0. |
| PointerChase.Shuffle | src/vm_explorer.c:222-228 | The loop with its temporary computes the Fisher-Yates shuffle of the links for the choices drawn. |
| PointerChase.Chase | src/vm_explorer.c:232-237 | The nested loops end at the node that `iterations` times `num_nodes` links lead to from node 0. |
| PointerChase.TestPointerChase | src/vm_explorer.c:207-240 | The whole test leaves a shuffled ring that is still a bijection and ends on the walk from node 0. |
| PointerChase.ShuffleParity | src/vm_explorer.c:222-228 | The shuffle keeps the links a bijection and changes the number of cycles by the parity of its real exchanges. |
| PointerChase.FirstReturn | src/vm_explorer.cpp:281-301 | The walk from node 0 first returns after some d steps, d at most the number of nodes, has then visited exactly d distinct nodes, and never visits another. |
| PointerChase.ShuffleBalance | src/vm_explorer.c:222-228 | The shuffle leaves as many cycles as there were, plus one for each exchange within a cycle, minus one for each exchange across two. |
| PointerChase.CoversIffBalanced | src/vm_explorer.cpp:287-301 | The chase visits every node if and only if the choices make as many exchanges within a cycle as across two; so their number is even. |
| PointerChase.StuckAtStartIff | src/vm_explorer.c:222-237 | With two nodes or more, the walk never leaves node 0 if and only if the first choice is the last node. |
| PointerChase.ExchangeLosesNode | src/vm_explorer.c:222-237 | With two nodes and one exchange, node 1 is never visited. |
| PointerChaseLists.PointerChaseList.constructor | src/cache_analyzer_cpp.cpp:296-313 | For any order of the index vector, the node at position k links to that at position k + 1, the last to the first, and carries k. |
| PointerChaseLists.ThreadedIsOneCycle | src/cache_analyzer_cpp.cpp:307-312 | The links built are a bijection and one cycle in index order. |
| PointerChaseLists.TourIsHamiltonian | src/cache_analyzer_cpp.cpp:320-321 | One inner pass from node 0 visits every node exactly once and ends at node 0. |
| PointerChaseLists.DataCountsUp | src/cache_analyzer_cpp.cpp:307-312 | Following a link takes the data to the next number, and from the last back to 0. |
| PointerChaseLists.ToursAreOneWalk | src/cache_analyzer_cpp.cpp:319-326 | A tour that ends where it began, repeated, is one long walk. |
| PointerChaseLists.PointerChaseList.Chase | src/cache_analyzer_cpp.cpp:315-329 | The nodes visited are the tour repeated once per iteration, the k-th of them k + 1 links from node 0, and the result is iterations times nodes. |
| Traversals.SequentialAccess | src/vm_explorer.cpp:227-237 | Every line head, including that of a cut-off last line, is incremented once per iteration modulo 256, and no other byte changes. |
| Traversals.RandomAccess | src/vm_explorer.cpp:239-257 | Under any permutation of the whole lines each of their heads is incremented once per iteration modulo 256, and no other byte changes. |
| Traversals.SameEffectIff | src/vm_explorer.cpp:227-257 | Both traversals have the same effect on every memory of a size if and only if it is a multiple of 64 or the iterations are a multiple of 256. |
| Fairness.FairnessIdentity | src/scheduler_analyzer_cpp.cpp:204-227 | For two or more values with non-zero sum, J (1 + ((n - 1) / n) cv^2) = 1. |
| Fairness.FairnessBounds | src/scheduler_analyzer_cpp.cpp:204-212 | For non-negative values J is a number if and only if some value is not zero, and then lies between 1/n and 1, is 1 if and only if all are equal and 1/n if and only if at most one is not zero. |
| Fairness.EdgeCases | src/scheduler_analyzer_cpp.cpp:204-227 | Without values J is 0; with fewer than two values or mean 0 the variation is 0. |
| Fairness.PositiveAre | src/scheduler_analyzer.c:291-296 | Exactly the positive entries are counted, each as often as it occurs. |
| Fairness.SquareBelowSquares | src/scheduler_analyzer_cpp.cpp:204-212 | The square of a sum is at most n times the sum of squares, with equality if and only if all values are equal. |
| Fairness.PrintedIndex | src/scheduler_analyzer.c:290-297 | The C loop computes the index from the positive entries' sums but the full number of threads. |
| Fairness.PrintedIndexIsJains | src/scheduler_analyzer.c:290-297 | For non-negative times that is Jain's index of the full list. |
| Fairness.IndexBelowActiveShare | src/scheduler_analyzer.c:290-297 | The index is at most the share of threads with a positive time. |
| TwoPassStatistics.CalculateStats | src/scheduler_analyzer.c:189-207 | The two passes find the minimum, the maximum, the mean and the variance of any non-empty list. |
| TwoPassStatistics.MeanInRange | src/scheduler_analyzer.c:194-199 | The mean lies between the minimum and the maximum. |
| TwoPassStatistics.VarianceInRange | src/scheduler_analyzer.c:201-206 | The variance is at most (max - mean)(mean - min), with equality if and only if every value is one of the two. |
| TwoPassStatistics.SpreadBelowHalfRange | src/scheduler_analyzer.c:201-206 | So the standard deviation is at most half the range. |
| TwoPassStatistics.ContextSwitchStats.Calculate | src/context_switch_cpp.cpp:135-157 | Empty times change nothing; otherwise the times are sorted and all summary fields are theirs, with the two percentiles left alone below 20 and 100 samples. |
| TwoPassStatistics.SummaryOrdered | src/context_switch_cpp.cpp:140-150 | Of one sorted list, min, median, 95th, 99th percentile and max are in this order. |
| TwoPassStatistics.PercentilesOrdered | src/disk_io_analyzer_cpp.cpp:126-130 | Higher percentages have percentiles at least as large, inside the range of the samples. |
| TwoPassStatistics.PercentileIsQuantile | src/disk_io_analyzer_cpp.cpp:126-130 | At most p n samples lie strictly below the percentile and more than p n not above it. |
| TwoPassStatistics.GetPercentiles | src/network_io_benchmarker_cpp.cpp:124-141 | No samples give no percentiles; otherwise the six reported values are quantiles of the samples in ascending order. |
| LatencyHistogram.NetworkStats.AddLatencySample | src/network_io_benchmarker.c:159-179 | One sample goes to one bucket of the current scale; count, total, minimum and maximum are those of all samples, the buckets sum to the count, histogram and scale are the functions of the samples below, and the scale still fits: the first sample makes it twice itself, a later one beyond it one and a half times itself, and any other leaves it alone. |
| LatencyHistogram.ScaleTracks | src/network_io_benchmarker.c:166-172 | The scale stays between the maximum latency and twice it. |
| LatencyHistogram.NetworkStats.LatencyPercentiles | src/network_io_benchmarker.c:931-951 | More than ten samples report all five percentiles, 50, 90, 95, 99 and 99.9, each at the first bucket whose cumulative share reaches it, with that bucket's midpoint; fewer report none. While the first scale is in use each is near the sample at its rank. |
| LatencyHistogram.ReportedInOrder | src/network_io_benchmarker.c:942-950 | The bucket reported is the smallest whose share reaches the percentile, and higher percentiles are never in lower buckets. |
| LatencyHistogram.ExactIff | src/network_io_benchmarker.c:166-178 | The histogram equals the count of all samples on the present scale if and only if no sample exceeds twice the first, that is, the scale has never changed. |
| LatencyHistogram.ReportedNearRank | src/network_io_benchmarker.c:942-949 | When the histogram is exact, the latency reported for a percentile is within half a bucket of the sample at that rank. |
| LatencyHistogram.ScaleFits | src/network_io_benchmarker.c:166-172 | The scale covers every sample and is twice the first exactly while no sample exceeds that. |
| LatencyHistogram.ScaleFollows | src/network_io_benchmarker.c:170-172 | A later sample beyond the scale makes it one and a half times that sample, and any other leaves it alone. |
| LatencyHistogram.BucketHolds | src/network_io_benchmarker.c:174-176 | A latency lies in its bucket of a fiftieth of the scale, which does not contain its upper end except for the last. |
| LatencyHistogram.TallyTotal | src/network_io_benchmarker.c:174-178 | The buckets together hold every sample once. |
| LatencyHistogram.LastShare | src/network_io_benchmarker.c:943-946 | The last bucket's share is 100 percent, so the single scan misses no percentile. |
| SocketOwnership.SocketWrapper.Move | src/network_io_benchmarker_cpp.cpp:154-157 | A move hands descriptor and ownership over and leaves the source with descriptor -1, owning nothing. |
| SocketOwnership.SocketWrapper.MoveAssign | src/network_io_benchmarker_cpp.cpp:159-168 | Move assignment first closes what the target owned; assigning a wrapper to itself changes nothing. |
| SocketOwnership.SocketWrapper.Close | src/network_io_benchmarker_cpp.cpp:174-179 | Only an owned valid descriptor is closed, and then forgotten. |
| SocketOwnership.SocketWrapper.Release | src/network_io_benchmarker_cpp.cpp:182 | The descriptor is returned and no longer owned. |
| SocketOwnership.ApplyInv | src/network_io_benchmarker_cpp.cpp:144-183 | Every operation keeps this: owners own different open descriptors, every open one is owned or was released, and openings match closings plus what is open. |
| SocketOwnership.UniqueOwner | src/network_io_benchmarker_cpp.cpp:144-183 | Over any sequence of operations a descriptor has at most one live owner and is closed only while open, once per opening. |
| SocketOwnership.AllClosedIff | src/network_io_benchmarker_cpp.cpp:170-182 | After any sequence of operations that ends with all wrappers destroyed, every descriptor was closed as often as opened if and only if no operation released an owner. |
| SocketOwnership.OrphansStayOpen | src/network_io_benchmarker_cpp.cpp:170-182 | When all wrappers are gone, the descriptors open are exactly those given up by release. |
| SocketOwnership.OperationsOf | src/network_io_benchmarker_cpp.cpp:144-183 | Every run is made by some sequence of operations, so statements over sequences hold of every run. |
| SocketOwnership.ReleaseLeaks | src/network_io_benchmarker_cpp.cpp:182 | Opening, releasing and destroying leaves any descriptor open. |
| AllocationLedger.Statistics.UpdateAllocation | src/memory_allocator_benchmarker.cpp:116-130 | Current bytes are the sum of the live sizes and the peak is the largest use after any event so far. |
| AllocationLedger.Statistics.UpdateFree | src/memory_allocator_benchmarker.cpp:132-141 | Freeing a live block with its size keeps that, never wraps around and leaves the peak. |
| AllocationLedger.ThreadWork | src/memory_allocator_benchmarker.cpp:387-410 | After any number of iterations nothing is in use, allocations and frees agree, the failures are counted, and the peak is the largest single size allocated. |

## Left out

- Clocks, resource usage, CPU affinity, mapped memory, page faults, argument parsing, tables and printing: no functional content.
- Weak memory: atomics declared relaxed, and the plain shared fields of the turn protocol, are sequentially consistent here.
- IEEE rounding and overflow: `double` is `real`; a standard deviation is represented by its square; 0 / 0 is modelled as NaN where the code can reach it.
- Integer widths: counters, byte totals, `shared_data` and the `size_t` sums of allocated bytes are unbounded; bytes of memory and the subtraction in `update_free` do wrap.
- The mutex, adaptive and read-write variants of the C lock benchmark, `spinlock_trylock`, and the C++ `AdaptiveMutex`, whose fallback path does not exclude the fast one.
- Wait and hold time totals, minimum, maximum and samples of the C workers: per-thread sums nobody else touches.
- SpinLockWorkers.EveryStopEnds: steps that only test a held lock are not bounded, and before the stop nothing says that each worker eventually gets the lock, as the lock is not fair.
- HerdGate.EveryRunEnds: with spurious wakeups a thread may wake and sleep again any number of times; the bound assumes none, the other results about the gate do not.
- CasStatistics.EveryRunEnds: spurious failures are not bounded, so the bound assumes none.
- SpinLockWorkers.MutualExclusion: the concurrent protocols are machines on values rather than classes, as Dafny methods do not interleave.
- CasStatistics.Quiescence: the C++ variants without a count or without a minimum are this machine with those steps dropped; the push under its mutex is one step.
- EchoProtocol.EveryRoundEchoes: one client, on one connection; the multiplexers other than `select`, and UDP, are not modelled.
- ServerTable.SelectServer.HandleAccept: a descriptor accepted while the table is full is neither entered nor closed, as in the C code; the limit of `fd_set` is not modelled.
- ServerTable.HandleClientData: the vector of the C++ server is a value; its accept step and the socket destructors are not part of this method.
- PointerChase.TestPointerChase: needs at least one node, as `num_nodes - 1` wraps around without any; nodes are numbered and links are indices.
- FisherYates.EveryOrderDrawableIff: which orders are reachable, not how likely they are; the modulo bias of `rand()` is not modelled.
- PointerChaseLists.PointerChaseList.constructor: at least one node, for the same reason; `std::shuffle` is any permutation, and `data` does not wrap.
- Traversals.RandomAccess: element type `char`; larger elements change only the stride.
- TwoPassStatistics.ContextSwitchStats.Calculate: `std::sort` is a parameter that must be the sorted rearrangement of the times.
- LatencyHistogram.NetworkStats.AddLatencySample: latencies are not negative and the first is positive; a first latency of 0 would divide 0 by 0 and convert the result to an integer, which C leaves undefined.
- LatencyHistogram.ReportedNearRank: nothing is claimed about reported latencies after a change of scale, as the code does not redistribute the buckets filled before.
- SocketOwnership.AllClosedIff: closing a released descriptor by hand is not an operation of the wrapper.
- AllocationLedger.Statistics.UpdateFree: callers free live blocks with their own size; the C++ speed test, which reports another block's size, and the C ledger, which counts frees as successful allocations again, do not.
- AllocationLedger.ThreadWork: sizes from the pattern generator are any sequence; time statistics are left out.
- The ASCII histogram of the lock benchmark, the counters of the workload generators and the size and time histograms of the allocator benchmark: easy members of the same kind.
- `memory_intensive_work` adds 10000 per flush whatever is pending, and the defaulted moves of `SharedMemory` copy raw handles: neither keeps the property one would state.
