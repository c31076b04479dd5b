# telemetryd, verified

telemetryd watches NVMe devices. A bpftrace collector counts commands in the kernel and
prints its maps once a second. Host readers follow and parse that log, a profiler turns the
result into observation sessions and charges I/O to processes, and a few helpers read guest
memory: the user page-table walker, the PRP decoder and the PCIe tree builder. This project
models these parts in Dafny and proves what they promise, over every run and every input.

The modules follow the pipeline, and the lemmas connect it end to end:

- `History` says what a run of the collector is (submissions, completions, timeouts, ticks) and
  what each map must hold after it. `Collector` is the script itself, one method per probe,
  and keeps every map equal to that. `Ledger` counts what happened in a run from the fields of the
  trace points alone; `Counters` proves that every map holds such a count, `Conservation` what the
  maps conserve.
- `LogLines`, `PerfParser`, `PerfReader`, `ProcParser`, `ErrorStats` are the host readers.
  `Recovery`, `HistRecovery`, `DeviceRecovery`, `ProcRecovery` and `StatRecovery` prove that what
  they read from the log of any run is what happened in its last tick. `Percentile` and `Merge` are the statistics.
- `Cursor` is the incremental log cursor and the event buffers on top of it. `EventLog` follows an
  event from the probe through the log into the buffer of a reader.
- `Sessions` specifies the registry; `Refresh` and `Restart` prove what every refresh, every run
  and every restart keeps; `Registry` is the class with its loops; `Attribution` charges I/O.
- `Pipeline` puts it together: the rates shown for devices, sessions, unmonitored processes and
  thread groups are counts of the commands submitted in the last tick.
- `IoStats` and `Adapters` are the process statistics and the thread groups. `PageWalk`, `PrpDecode`
  and `Topology` are the guest readers, `ManualWalk` the paging of the architecture manual they are
  measured against, `TtlCache` the adaptive cache. `Common`, `Physical` and
  `Tables` are shared.

Rates, shares and percentile targets are reals; counters are unbounded. Where a promise holds
only under a condition, the condition is proved exact: `PageWalk.FrameExact`,
`PrpDecode.LinkTakenForData`, `Cursor.ReplacementExact`, `Cursor.ReceivedExact`,
`HistRecovery.HistRecovered`, `ErrorStats.TailExact`, `Restart.ResumeExact`, `Restart.LoadedExact`.

Where the source and its own text differ, the model follows the code:

- The text of `src/telemetryd/platform/cache.py` says a factor of 3 keeps a lookup below one third of the
  worker. The code waits `factor` times the duration after the computation ends, so the bound is
  one part in `factor + 1` (`TtlCache.WorkerShare`).
- List bounds of zero: `s[-0:]` is the whole list, so `max_events = 0` and `max_finished = 0` keep
  everything (`Common.Tail`).

## Model

| member | source | states |
|---|---|---|
| `Collector.Collector.SetupCmd` | ebpf/nvme_perf.bt:32-121 | after a submission every map holds exactly what the run with that submission implies: flight and slot caches, queue, process, thread and pattern counters |
| `Collector.Collector.CompleteRq` | ebpf/nvme_perf.bt:123-227 | the same after a completion: latency maps updated only for a seen command, caches emptied, error counted and reported within the budget |
| `Collector.Collector.CaptureError` | ebpf/nvme_perf.bt:171-212 | the cumulative error map and the per-controller budget follow the run; a line is printed exactly while the budget lasts |
| `Collector.Collector.Report` | ebpf/nvme_perf.bt:172-204 | the printed ERROR_EVENT fields are those of the run's error line |
| `Collector.Collector.NvmeTimeout` | ebpf/nvme_perf.bt:238-255 | prints the TIMEOUT_EVENT of the run and changes no map |
| `Collector.Collector.TimeoutFields` | ebpf/nvme_perf.bt:247-254 | the printed fields are those of the slot cache, zeros where it has none |
| `Collector.Collector.IntervalTick` | ebpf/nvme_perf.bt:257-305 | prints every map of the moment and the tick mark, then clears the counters and keeps the commands in flight, the error totals and the last positions |
| `Collector.Collector.constructor` | ebpf/nvme_perf.bt:27-30 | a fresh collector is valid for the empty run |
| `Collector.PrintHist` | ebpf/nvme_perf.bt:265 | prints for every queue with samples one block of consecutive rows with the map's counts |
| `Collector.FlightIsPending` | ebpf/nvme_perf.bt:100-149 | in every run, `@start` and `@cmd_tgid` have exactly the commands submitted and not completed, with their time and process |
| `Collector.FlightIsCache` | ebpf/nvme_perf.bt:110-120 | in every run, all ten `@to_*` maps have the same slots, each with the fields of the command cached there |
| `History.CacheIsPending` | ebpf/nvme_perf.bt:104-120 | when no tag is reused before its completion, slots and commands in flight correspond one to one, although the two key spaces differ |
| `History.SlotsStayDistinct` | ebpf/nvme_perf.bt:104-110 | seen commands and those in flight before attach never share a slot |
| `History.PendingWasSubmitted` | ebpf/nvme_perf.bt:34 | a pending command is one that was submitted and neither completed nor submitted again since |
| `History.UntouchedIsPending` | ebpf/nvme_perf.bt:34 | and conversely, a submission nothing has completed or repeated since is pending, as that very command |
| `History.PendingIsOutstanding` | ebpf/nvme_perf.bt:34-149 | the commands in flight, by controller, queue and id, are those whose last submission no completion has followed |
| `History.StampedInPast` | ebpf/nvme_perf.bt:127-129 | submission stamps are positive and not in the future, so elapsed times are not negative and a zero stamp means unseen |
| `History.ErrorReportExact` | ebpf/nvme_perf.bt:184-204 | the report is that of the completion; cached=1 exactly when the command's submission was seen, and then opcode, namespace, LBA, block count, id and elapsed time are those of that same command; otherwise they are zero and the block count one |
| `History.StatusFields` | ebpf/nvme_perf.bt:172-176 | the printed code, type, retry delay, more and do-not-retry fields are bits 7:0, 10:8, 12:11, 13 and 14 of the status |
| `History.TimeoutReportExact` | ebpf/nvme_perf.bt:247-254 | a timeout reports all fields of the one command in flight with that tag, or zeros when its submission was not seen |
| `History.SlbaOfWords` | ebpf/nvme_perf.bt:88-91 | the byte shifts at submission and the word shifts at completion give the same start LBA |
| `History.NlbOfWord` | ebpf/nvme_perf.bt:189 | the low half of the cached third word is the block count of the command |
| `History.NlbOfBytes` | ebpf/nvme_perf.bt:40-42 | the two-byte shift at submission is the same count |
| `Counters.QueueReads` | ebpf/nvme_perf.bt:54-56 | in every run, `@read_count` holds for a queue the commands with opcode 2 submitted to it since the last tick |
| `Counters.QueueWrites` | ebpf/nvme_perf.bt:46-48 | `@write_count` those with opcode 1 |
| `Counters.QueueBytes` | ebpf/nvme_perf.bt:40-45 | `@bytes_sum` 512 times the block count, bytes 8 and 9 of the command words plus one, of both |
| `Counters.CtrlBytes` | ebpf/nvme_perf.bt:40-45 | summed over the queues of a controller, all bytes read and written on it |
| `Counters.ProcessReads` | ebpf/nvme_perf.bt:80 | `@proc_rd` counts the same reads for the submitting process |
| `Counters.ProcessWrites` | ebpf/nvme_perf.bt:79 | `@proc_wr` its writes |
| `Counters.ProcessBytes` | ebpf/nvme_perf.bt:71-74 | `@proc_bytes` their bytes |
| `Counters.ProcessSizes` | ebpf/nvme_perf.bt:73-77 | `@proc_bs` its reads and writes of each size in bytes |
| `Counters.ProcessQueues` | ebpf/nvme_perf.bt:69 | `@proc_q` its submissions to each queue |
| `Counters.ProcessSubmissions` | ebpf/nvme_perf.bt:65 | `@proc_ops` its submissions under each name |
| `Counters.ThreadSubmissions` | ebpf/nvme_perf.bt:66 | `@thr_ops` those of each of its threads |
| `Counters.LastEndExact` | ebpf/nvme_perf.bt:88-98 | `@last_lba_end` is the block behind the last read or write of the process, however long ago |
| `Counters.ProcessPattern` | ebpf/nvme_perf.bt:87-99 | `@proc_seq` counts the reads and writes that start at that block, `@proc_rand` the others |
| `Counters.QueueLatencies` | ebpf/nvme_perf.bt:127-132 | `@op_count`, `@lat_count` and `@lat_sum` are the completions of commands seen at submission and the time between submission and completion, added up |
| `Counters.ProcessLatencies` | ebpf/nvme_perf.bt:142-146 | `@proc_lat_cnt` and `@proc_lat_sum` are the same for the process that submitted the command |
| `Counters.IdleUncharged` | ebpf/nvme_perf.bt:143 | commands of pid 0 are charged to no process |
| `Counters.ErrorCounts` | ebpf/nvme_perf.bt:171-211 | `@err_count` holds, for each controller, status type and status code, the completions since the start whose status is not zero and has them in bits 10:8 and 7:0, and no other entry |
| `Conservation.SubmissionsConserved` | ebpf/nvme_perf.bt:65-69 | in every tick of every run the sums of `@proc_ops`, `@thr_ops` and `@proc_q` over a controller all equal its submissions |
| `Conservation.ThreadsConserved` | ebpf/nvme_perf.bt:65-69 | per process, thread counters and queue usage sum to the process counter |
| `Conservation.ReadsWritesConserved` | ebpf/nvme_perf.bt:71-99 | per process, reads plus writes equal sequential plus random and the sum of the size distribution |
| `Conservation.BytesConserved` | ebpf/nvme_perf.bt:43-51 | per controller, queues and processes move the same bytes, reads and writes |
| `Conservation.CompletionsConserved` | ebpf/nvme_perf.bt:131-137 | per queue, the latency count is the histogram's total |
| `Conservation.LatencyConserved` | ebpf/nvme_perf.bt:142-146 | process latency counts and sums are the queues' less exactly those of pid 0, so they never exceed them |
| `Conservation.ErrorsConserved` | ebpf/nvme_perf.bt:207-211 | `@err_count` sums to all failed completions of the controller since the start, across ticks and beyond the print budget |
| `Conservation.BudgetExact` | ebpf/nvme_perf.bt:196-205 | each tick prints min(50, failed completions of the tick) error lines per controller |
| `Conservation.DetailExact` | ebpf/nvme_perf.bt:171-205 | an error line is printed for a failed completion, and only while fewer than fifty of its controller have failed in the tick |
| `Recovery.TickFound` | src/telemetryd/backend/ebpf_perf.py:96-104 | in the log of any run, however much of a next tick follows, the last complete tick is the one last printed |
| `PerfParser.LastTickFound` | src/telemetryd/backend/ebpf_perf.py:101-104 | the segment before the last mark is found whatever precedes and follows |
| `PerfParser.NoTickYet` | src/telemetryd/backend/ebpf_perf.py:101-103 | before the first mark there is no complete tick |
| `PerfParser.ParseSegment` | src/telemetryd/backend/ebpf_perf.py:55-93 | the two dictionaries hold for every key the last scalar of each name and all bucket rows that follow its headers, and nothing else |
| `PerfParser.ScalarIsLine` | src/telemetryd/backend/ebpf_perf.py:68-73 | a value is that of the last line with its name and keys, and where there is none there is no such line |
| `PerfParser.HistOfRows` | src/telemetryd/backend/ebpf_perf.py:74-91 | a header and the rows right behind it give one bucket a row, with its bounds and count, for the header's queue only |
| `PerfParser.HistAppend` | src/telemetryd/backend/ebpf_perf.py:74-91 | buckets are read piecewise and in order, wherever no row is cut off from its header |
| `Recovery.ScalarsRecovered` | src/telemetryd/backend/ebpf_perf.py:68-73 | every two-key counter of the tick, and no other, is read back with its value |
| `HistRecovery.HistRecovered` | src/telemetryd/backend/ebpf_perf.py:74-91 | the buckets read for a queue are the exact log2 histogram of the times of its completions below 2^39 ns, unless one of them was below 2 ns, and then there are none |
| `HistRecovery.RowCounts` | ebpf/nvme_perf.bt:137 | each row of the collector's histogram counts the latencies that fall in it |
| `HistRecovery.StartsLow` | src/telemetryd/backend/ebpf_perf.py:37 | a printed block begins with a row the bucket pattern rejects exactly when a latency was below 2 ns |
| `HistRecovery.ReadableRows` | src/telemetryd/backend/ebpf_perf.py:37 | of consecutive rows, exactly those below the first one with a suffix above G are read, each with its bounds and count |
| `HistRecovery.ShortMeans` | src/telemetryd/backend/ebpf_perf.py:37 | the row of a latency is readable exactly when the latency is below 2^39 ns |
| `Percentile.PercentileNs` | src/telemetryd/backend/ebpf_perf.py:117-129 | zero without samples; for p up to 1 the upper edge of the first bucket, by position, whose cumulative count reaches p; the fallback is reached only for p above 1 |
| `Percentile.CumulativeIsBelow` | src/telemetryd/backend/ebpf_perf.py:124-128 | the cumulative count at a bucket is the number of samples below its upper edge |
| `Percentile.WithinFactorTwo` | src/telemetryd/backend/ebpf_perf.py:117-129 | against the true p-quantile q of the samples, the result v satisfies q < v <= 2q |
| `Percentile.QuantileExists` | src/telemetryd/backend/ebpf_perf.py:117-129 | samples have a p-quantile for every p up to 1 |
| `Percentile.MonotoneInShare` | src/telemetryd/backend/ebpf_perf.py:117-129 | a larger p never gives a smaller result |
| `Percentile.OrderIndependent` | src/telemetryd/backend/ebpf_perf.py:125 | the result does not depend on the order of the buckets nor on empty ones |
| `Merge.MergeBuckets` | src/telemetryd/backend/ebpf_perf.py:107-114 | the merged list has each edge of the inputs once, with the sum of its counts |
| `Merge.MergeConserves` | src/telemetryd/backend/ebpf_perf.py:107-114 | the count of any set of buckets is conserved |
| `Merge.MergeKeys` | src/telemetryd/backend/ebpf_perf.py:107-114 | the merged edges are exactly those of the inputs |
| `Merge.MergedRepresents` | src/telemetryd/backend/ebpf_perf.py:107-114 | merging the histograms of several sample lists gives the histogram of all the samples together |
| `Merge.AggregateBetween` | src/telemetryd/backend/ebpf_perf.py:165-182 | the aggregate percentile lies between the smallest and the largest percentile of the queues that have samples |
| `PerfReader.BuildQueuePerf` | src/telemetryd/backend/ebpf_perf.py:132-150 | the row has the counters as rates, the mean latency and the four percentiles of its histogram |
| `PerfReader.ReadLatest` | src/telemetryd/backend/ebpf_perf.py:153-182 | one row for each key of the device, in order of queue id, each the row of its own counters and histogram; the aggregate is absent exactly when there is no row, else sums counters and merges histograms |
| `DeviceRecovery.AvailableExact` | src/telemetryd/backend/ebpf_perf.py:178-179 | the device has rows exactly when something was read, written or completed on it in the tick; process lines alone never make it available |
| `DeviceRecovery.ProcessRowsAreZero` | src/telemetryd/backend/ebpf_perf.py:35 | a row that stands for a process id and not a queue is all zeros, unless a queue has that number |
| `DeviceRecovery.QueueRowExact` | src/telemetryd/backend/ebpf_perf.py:169-173 | a queue's row has the completions of the tick on that queue, the reads and writes submitted to it and the bytes they move |
| `DeviceRecovery.MeanExact` | src/telemetryd/backend/ebpf_perf.py:145 | the mean latency of a queue's row is the mean time of the completions of the tick, zero without any |
| `DeviceRecovery.NoHistDropped` | src/telemetryd/backend/ebpf_perf.py:169-174 | the loop over scalar keys misses no histogram: a queue with latencies has a row |
| `DeviceRecovery.DeviceTotal` | src/telemetryd/backend/ebpf_perf.py:175-176 | summed over the rows, process-id rows included, each counter is the controller's total |
| `DeviceRecovery.ChartedAll` | src/telemetryd/backend/ebpf_perf.py:37 | all latencies of a queue reach its histogram exactly when all are at least 2 ns and below 2^39 ns |
| `DeviceRecovery.AggregateExact` | src/telemetryd/backend/ebpf_perf.py:181-182 | the aggregate row has the controller's completions, reads, writes and bytes of the tick, and the mean time of all completions of the device |
| `DeviceRecovery.MergedExact` | src/telemetryd/backend/ebpf_perf.py:181 | the merged histogram is the exact histogram of all latencies of the device below 2^39 ns, less those of queues that had one below 2 ns |
| `DeviceRecovery.QueuePercentileExact` | src/telemetryd/backend/ebpf_perf.py:146-149 | a queue's percentile is above the true quantile of its charted latencies and at most twice as large, and that quantile exists; it is zero when none was charted |
| `DeviceRecovery.RowPercentilesExact` | src/telemetryd/backend/ebpf_perf.py:146-149 | the four percentile fields of a row are those of 0.50, 0.95, 0.99 and 0.999, each against the true quantile |
| `DeviceRecovery.AggregatePercentileExact` | src/telemetryd/backend/ebpf_perf.py:181 | the same for the aggregate and the charted latencies of all queues |
| `DeviceRecovery.AggregateRowPercentilesExact` | src/telemetryd/backend/ebpf_perf.py:181 | and the aggregate's four fields |
| `ProcParser.ParseTick` | src/telemetryd/backend/proc_stats.py:53-100 | the slots are those of the segment's process lines, folded in order |
| `ProcParser.SlotSums` | src/telemetryd/backend/proc_stats.py:68-100 | operations and every two-key field of a slot are the sums over their lines |
| `ProcParser.SlotKeyedSums` | src/telemetryd/backend/proc_stats.py:93-99 | so are the size distribution and the queue usage |
| `ProcParser.SlotThreadSums` | src/telemetryd/backend/proc_stats.py:75-83 | so are the operations of each thread |
| `ProcParser.SlotName` | src/telemetryd/backend/proc_stats.py:73 | the name of a process is that of its last operations line |
| `ProcParser.SlotThreadName` | src/telemetryd/backend/proc_stats.py:83 | and that of a thread likewise |
| `ProcParser.ToStat` | src/telemetryd/backend/proc_stats.py:103-132 | the rates, bandwidth, mean latency, estimated depth and sequential share are those of the slot's counters, and the threads are the slot's; `StatRecovery.StatExact` says what they count |
| `ProcParser.ThreadsListed` | src/telemetryd/backend/proc_stats.py:117-118 | every thread of the slot is listed once, with its own rate, and no other |
| `ProcParser.ReadProcessStats` | src/telemetryd/backend/proc_stats.py:135-151 | one statistic for each slot of the last complete tick that was asked for, largest rate first |
| `ProcParser.TailHasSameTick` | src/telemetryd/backend/proc_stats.py:39-50 | a tail with two tick marks has the same last complete tick as the whole log, also when it begins with a fragment of a line |
| `ProcRecovery.OpsRecovered` | src/telemetryd/backend/proc_stats.py:68-74 | from the log of any run, a process has the operations it submitted, under whatever names |
| `ProcRecovery.FieldRecovered` | src/telemetryd/backend/proc_stats.py:84-92 | and its bytes, reads, writes, latency sums and counts, sequential and random counts |
| `ProcRecovery.KeyedRecovered` | src/telemetryd/backend/proc_stats.py:93-99 | and its size distribution and queue usage |
| `StatRecovery.StatExact` | src/telemetryd/backend/proc_stats.py:103-132 | every figure of a statistic is a count of the tick: submissions, reads, writes and bytes of the process on the controller, mean time of the completions charged to it, depth by Little's law, share of the reads and writes in sequence |
| `StatRecovery.SlotExact` | src/telemetryd/backend/proc_stats.py:53-62 | a process has a slot for a controller exactly when it submitted a command to it in the tick or a completion there is charged to it |
| `StatRecovery.StatsListed` | src/telemetryd/backend/proc_stats.py:143-151 | the statistics returned are those of these processes, on the controllers asked for, each once |
| `ProcRecovery.ThreadExact` | src/telemetryd/backend/proc_stats.py:75-83 | the operations of a thread are the commands it submitted to that controller in the tick |
| `ProcRecovery.StatsAddUp` | src/telemetryd/backend/proc_stats.py:117-118 | in statistics read from a log, thread rates add up to the process rate |
| `ProcRecovery.StatsExact` | src/telemetryd/backend/proc_stats.py:135-151 | rates summed over any choice of controllers and processes are the commands submitted with that controller and process in the tick |
| `ProcRecovery.DeviceStatsExact` | src/telemetryd/backend/proc_stats.py:148-149 | the rates read for one device are together its submissions |
| `ErrorStats.ParseErrCounts` | src/telemetryd/backend/ebpf_error_events.py:160-170 | each code has the count of its last line |
| `ErrorStats.ReadErrorStats` | src/telemetryd/backend/ebpf_error_events.py:173-203 | the rows are the controller's codes with their counts, and the total is their sum |
| `ErrorStats.TailExact` | src/telemetryd/platform/ebpf/logfile.py:83-93 | the statistics of a tail equal those of the whole text exactly when no code occurs only before the tail |
| `ErrorStats.TailIsEnough` | src/telemetryd/platform/ebpf/logfile.py:83-93 | for the log of any run, a tail that holds the error block of one finished dump gives the statistics of the whole log, whatever follows, also when the tail begins with a fragment of a line |
| `ErrorStats.LogCountsKnown` | ebpf/nvme_perf.bt:269 | the log never names an error code the collector has not counted |
| `ErrorStats.StatsAreAllErrors` | src/telemetryd/backend/ebpf_error_events.py:173-203 | after a tick the row of each status type and code is the number of completions of the controller that failed with them since the collector started, there is no other row, and the total is all its failed completions |
| `Cursor.FileCursor.ReadNewLines` | src/telemetryd/platform/ebpf/logfile.py:32-52 | delivers the terminated lines after the offset, or from the start when the file looks shorter, and moves the offset past them; nothing on any access failure |
| `Cursor.PiecesAreLines` | src/telemetryd/platform/ebpf/logfile.py:48-52 | dropping the last newline and splitting gives exactly the terminated lines |
| `Cursor.LinesExact` | src/telemetryd/platform/ebpf/logfile.py:43-52 | no line has a newline, byte 10, in it, and written one after the other with their newlines they are the text up to its last newline |
| `Cursor.StepIsPoll` | src/telemetryd/platform/ebpf/logfile.py:32-52 | the steps of a run are polls of the cursor, failing ones included |
| `Cursor.ExactlyOnce` | src/telemetryd/platform/ebpf/logfile.py:32-52 | after any run of appends, replacements, polls and failing polls that ends with a successful one, appends between size check and read included, the polls have delivered each finished line of the current file once and in order |
| `Cursor.ReplacementExact` | src/telemetryd/platform/ebpf/logfile.py:39-40 | a poll of a replaced file delivers it from its start exactly when the file is shorter than the offset, or the offset is zero, or it has no finished line |
| `Cursor.ReceivedByGeneration` | src/telemetryd/backend/ebpf_error_events.py:146-153 | what a reader has received is what each generation of the file delivered, one after the other; a replacement clears nothing |
| `Cursor.WaitingExact` | src/telemetryd/platform/ebpf/logfile.py:48-52 | a finished line is still to be delivered exactly when one was written since the last successful poll |
| `Cursor.ReceivedExact` | src/telemetryd/platform/ebpf/logfile.py:32-52 | a reader has received all finished lines of all generations, in order, exactly when a successful poll came after the last finished line of each generation before it was replaced, and of the current one |
| `Cursor.EventReader.Poll` | src/telemetryd/backend/ebpf_error_events.py:146-153 | the buffer is the last `max_events` matching events of all lines delivered so far |
| `Cursor.EventReader.constructor` | src/telemetryd/backend/ebpf_timeout_events.py:102-109 | an empty buffer over a cursor at the start |
| `Cursor.TrimAgain` | src/telemetryd/backend/ebpf_timeout_events.py:111-118 | trimming after every poll is the same as trimming once |
| `Common.TailIsEnd` | src/telemetryd/backend/ebpf_error_events.py:152 | trimming leaves the last elements, as many as the bound allows, and all of them for a bound of zero |
| `Cursor.Follow` | src/telemetryd/backend/ebpf_error_events.py:146-153 | a new reader polled along any run has the last `max_events` matching events of all lines that run delivers, across replacements |
| `Cursor.MatchingAppend` | src/telemetryd/backend/ebpf_error_events.py:148-151 | the events of lines are those of their parts, in order |
| `Cursor.MatchingOne` | src/telemetryd/backend/ebpf_error_events.py:148-151 | and of one line the event it parses as, if it does |
| `Cursor.ScheduleIndependent` | src/telemetryd/backend/ebpf_timeout_events.py:111-118 | of two readers on the same history of the file, one of which missed nothing, the other has received the same lines exactly when it, too, was polled after the last finished line of each generation; then the buffers are equal, however the polls were scheduled otherwise |
| `Cursor.AppendOnly` | src/telemetryd/backend/ebpf_timeout_events.py:111-118 | for a file that is only appended to, the buffer after any poll is that of the finished lines in the file |
| `Cursor.ReplacedTooEarly` | src/telemetryd/backend/ebpf_timeout_events.py:111-118 | without the condition it fails: for every line that is an event, two schedules on one history of the file end with and without it |
| `EventLog.WrittenLines` | src/telemetryd/platform/ebpf/logfile.py:48-52 | the finished lines of a file written line by line are those lines |
| `EventLog.PickedAppend` | src/telemetryd/backend/ebpf_error_events.py:146-153 | the events among the lines of a log are those of its parts, in order |
| `EventLog.PickedOne` | src/telemetryd/backend/ebpf_error_events.py:146-153 | and of one line the event it is, if it is one |
| `EventLog.BufferShowsRun` | src/telemetryd/backend/ebpf_error_events.py:146-153 | a reader that polls the log of a collector run shows, after any poll, the last `max_events` events of its kind that the run has printed, however polls and writes interleaved, a line in the making included |
| `EventLog.EventPrinted` | ebpf/nvme_perf.bt:197-205 | every event line of the log was printed by a probe at some moment of the run |
| `EventLog.ShownErrorExact` | src/telemetryd/backend/ebpf_error_events.py:146-153 | each error a reader shows was reported at the completion of a command that failed before fifty others of its controller did in that tick; id, retries, status and its fields are those of the completion, and the rest those of the command, cached exactly when its submission was seen |
| `EventLog.ShownTimeoutExact` | src/telemetryd/backend/ebpf_timeout_events.py:111-118 | each timeout a reader shows has all fields of the one command in flight with that tag at the time, or zeros when its submission was not seen |
| `Sessions.SessionIdFor` | src/telemetryd/backend/targets.py:81-96 | the suffix search ends, with the first free id |
| `Sessions.FreshId` | src/telemetryd/backend/targets.py:81-96 | the id is not taken, is the plain one when that is free, and otherwise the one with the first free suffix: every smaller one is taken |
| `Registry.Resolve` | src/telemetryd/backend/targets.py:186-194 | the nested loops give the specified map from pid to rule |
| `Refresh.HitsExact` | src/telemetryd/backend/targets.py:186-194 | a pid is a target exactly when a rule matches a process listed under it, with the first rule that matches the last such process |
| `Refresh.ByPidExact` | src/telemetryd/backend/targets.py:204 | the process looked up for a pid is the last one listed under it |
| `Refresh.HitsDistinct` | src/telemetryd/backend/targets.py:186-194 | with one process per pid, the process observed is the one that was matched |
| `Refresh.FirstMatchExact` | src/telemetryd/backend/targets.py:190-193 | the rule found matches and none before it does; none is found only when none matches |
| `Sessions.TargetsSorted` | src/telemetryd/backend/targets.py:213 | the targets are visited in ascending order of pid, each once, and all have a process |
| `Registry.TargetRegistry.CloseStaleSessions` | src/telemetryd/backend/targets.py:221-224 | exactly the active sessions of the same pid and another start time are closed, now |
| `Registry.TargetRegistry.AttachOne` | src/telemetryd/backend/targets.py:213-259 | the new state is the specified one, for known and for new processes |
| `Registry.TargetRegistry.AttachLoop` | src/telemetryd/backend/targets.py:212-259 | the loop over the sorted targets gives the specified state and the ids it attached |
| `Registry.TargetRegistry.FinishOthers` | src/telemetryd/backend/targets.py:261-266 | the new state is the specified one |
| `Registry.TargetRegistry.RefreshSessions` | src/telemetryd/backend/targets.py:197-266 | the new state is the specified one; a valid registry stays valid, keeps all sessions, and has exactly the targets observed |
| `Refresh.AttachKeeps` | src/telemetryd/backend/targets.py:213-259 | one round keeps the registry consistent, observes the process, touches no session of another pid, and makes a session, under a new id with the second and the pid in it, exactly when the process had none |
| `Refresh.StaleClosed` | src/telemetryd/backend/targets.py:218-224 | before a process gets its first session, the active sessions of earlier processes with its pid are closed, now |
| `Refresh.NameKept` | src/telemetryd/backend/targets.py:244 | a process listed without a name keeps the one its session has |
| `Refresh.RefreshKeeps` | src/telemetryd/backend/targets.py:197-266 | every refresh keeps the registry consistent; no session disappears or changes id, process, command line, start or rule; no process gets a second session; the file stays usable, and in step if it can be written |
| `Refresh.ActiveAreTargets` | src/telemetryd/backend/targets.py:213-266 | after every refresh the active sessions and the matched processes are in bijection by pid and start time; active sessions have no end and show this refresh's rate, devices, name and thread count |
| `Refresh.OthersRest` | src/telemetryd/backend/targets.py:261-266 | a session that is over keeps all its data, one that stops being a target ends now, and a new session is for a process that never had one, with its command line and rule |
| `Registry.TargetRegistry.constructor` | src/telemetryd/backend/targets.py:102-139 | the loop over the file gives the specified state, valid when no session or process is in the file twice |
| `Registry.TargetRegistry.Write` | src/telemetryd/backend/targets.py:141-159 | the file gets the rules and the last `max_finished` sessions as they are, or stays as it was |
| `Registry.TargetRegistry.AddRule` | src/telemetryd/backend/targets.py:162-171 | refuses exactly the kinds other than the four; otherwise the rules are those with this one added, no session changes, and the file gets the new rules if it can be written; the registry stays valid |
| `Registry.TargetRegistry.RemoveRule` | src/telemetryd/backend/targets.py:173-179 | reports a change exactly when such a rule existed; then the rules are those without it, no session changes and the file gets them if it can be written, otherwise nothing changes; the registry stays valid |
| `Registry.TargetRegistry.ClearRules` | src/telemetryd/backend/targets.py:181-183 | no rule is left, no session changes, and the file gets that if it can be written; the registry stays valid |
| `Restart.WithRuleExact` | src/telemetryd/backend/targets.py:165-170 | adding changes the adapter of the first rule of that kind and value, or else appends the rule, and leaves every other rule in its place |
| `Restart.WithRuleOnce` | src/telemetryd/backend/targets.py:165-170 | where each kind and value has one rule it stays so, and exactly the given rule stands for its own |
| `Restart.WithoutRuleExact` | src/telemetryd/backend/targets.py:173-179 | after removing, exactly the rules of that kind and value are gone |
| `Restart.WithoutRuleAppend` | src/telemetryd/backend/targets.py:175 | and the others keep their order |
| `Restart.WithoutRuleOnce` | src/telemetryd/backend/targets.py:173-179 | and where each kind and value had one rule, it stays so |
| `Restart.LoadedSound` | src/telemetryd/backend/targets.py:113-139 | a file without repetitions loads into a consistent registry with exactly its sessions as they are there, none active and none with a rate, and one session per process |
| `Restart.ValidRulesExact` | src/telemetryd/backend/targets.py:119-122 | of the rules of a file those of the four kinds are taken |
| `Restart.ValidRulesAppend` | src/telemetryd/backend/targets.py:119-122 | in their order |
| `Restart.LoadedExact` | src/telemetryd/backend/targets.py:113-139 | any file, repetitions or not, loads with the last entry of each id, as it is there but over and without a rate, and the last entry of each process, and nothing else; the registry is consistent exactly when in the file the last entry of each process is also the last one with its id |
| `Restart.RunKeeps` | src/telemetryd/backend/targets.py:99-266 | after any sequence of rule edits, refreshes and restarts, with the file writable or not, the registry is sound; between restarts nothing is lost; while writes succeed the file stays in step: the current rules and the latest sessions, those that are over with all their data |
| `Restart.StartsSound` | src/telemetryd/backend/targets.py:113-118 | a registry that starts without a file is sound and in step |
| `Restart.AnyRunWatches` | src/telemetryd/backend/targets.py:197-266 | after any run that started without a file, the next refresh leaves exactly the matched processes observed and loses no session |
| `Restart.ReloadKeeps` | src/telemetryd/backend/targets.py:113-159 | a restart gives back the same rules and the last `max_finished` sessions, in order, under their ids and for their processes; those that were over with all their data but the rate |
| `Restart.ResumeSame` | src/telemetryd/backend/targets.py:113-159 | with at most `max_finished` sessions, stopping after any refresh, restarting and refreshing with the same processes gives the same rules, sessions, ids and active sessions; those that are over are unchanged but for the rate |
| `Restart.ResumeExact` | src/telemetryd/backend/targets.py:148-152 | with more sessions, a process continues its old session exactly when that one was among the last `max_finished` |
| `Restart.AnyRunResumes` | src/telemetryd/backend/targets.py:113-159 | and, if all writes succeeded, stopping there, restarting and refreshing with the same processes continues the same sessions |
| `Attribution.Attribute` | src/telemetryd/backend/targets.py:268-284 | every device with statistics has its total, observed and other I/O, and without repetition exactly the active sessions that use it; the unmonitored list has the positive rates of the others |
| `Attribution.DeviceSplits` | src/telemetryd/backend/targets.py:272-281 | on every device total = attributed + unattributed |
| `Attribution.ContributorsShowDevice` | src/telemetryd/backend/targets.py:277-279 | the sessions that contribute to a device are exactly the active ones that show it among their devices |
| `Attribution.DevicesAddUp` | src/telemetryd/backend/targets.py:272-281 | over all devices the totals are all I/O, and each part is all I/O of its kind |
| `Attribution.SessionsAddUp` | src/telemetryd/backend/targets.py:244-258 | after a refresh the rates of the active sessions sum to all attributed I/O |
| `Attribution.UnmonitoredAddsUp` | src/telemetryd/backend/targets.py:280-284 | with rates that are not negative, the unmonitored rates sum to all unattributed I/O |
| `Attribution.UnmonitoredLists` | src/telemetryd/backend/targets.py:280-284 | the unmonitored list names exactly the statistics with I/O of processes nobody observes, with process, device and rate |
| `Attribution.OfPidSum` | src/telemetryd/backend/targets.py:207-210 | a session's statistics are all those of its process, over all devices |
| `Pipeline.LogMeasures` | src/telemetryd/backend/proc_stats.py:46-50 | in the whole log of any run, read between two ticks, the statistics are those of the earlier one |
| `Pipeline.TailMeasures` | src/telemetryd/backend/proc_stats.py:135-151 | so they are when only the end of the log is read, if it holds two tick marks, also when it begins with a fragment of a line |
| `Pipeline.DeviceExact` | src/telemetryd/backend/targets.py:268-281 | what a device is told are command counts: all submissions of the tick, those of observed processes, and the rest |
| `Pipeline.SessionExact` | src/telemetryd/backend/targets.py:258 | an active session's rate is the number of commands its process submitted in the tick |
| `Pipeline.UnmonitoredExact` | src/telemetryd/backend/targets.py:280-284 | the unmonitored rates are the commands of processes without an active session |
| `Pipeline.ThreadsOfPidExact` | src/telemetryd/backend/adapters/base.py:66 | the rates of any choice of threads of a process, over all devices, are the commands those threads submitted in the tick |
| `Pipeline.GroupExact` | src/telemetryd/backend/adapters/generic.py:72-86 | the rate of one group is the number of commands its own threads submitted; a group that stands alone has all of its process |
| `Pipeline.GroupsExact` | src/telemetryd/backend/adapters/generic.py:63-86 | the generic groups of a process share out exactly the commands it submitted, when every issuing thread is listed |
| `Pipeline.TotalsExact` | src/telemetryd/backend/adapters/base.py:69-85 | the totals that thread groups share in are the bytes, reads and writes of the process in the tick, over all devices |
| `Pipeline.WorkloadExact` | src/telemetryd/backend/adapters/base.py:55-85 | what is measured for a whole process: its submissions, its bytes, and its reads and writes as parts of both |
| `Adapters.ShareIsThreadRate` | src/telemetryd/backend/adapters/base.py:63-84 | scaling the total by a thread share gives the threads' own rate, and the total without a choice of threads |
| `Adapters.ShareExact` | src/telemetryd/backend/adapters/base.py:63-67 | the share times the whole rate is the threads' rate; nothing of nothing, and all when no threads are chosen |
| `Adapters.MeasuredIsShare` | src/telemetryd/backend/adapters/base.py:63-85 | whatever is measured is one share of rate, bandwidth and depth alike |
| `Adapters.Buckets` | src/telemetryd/backend/adapters/generic.py:65-67 | the dictionary has every key in order of first occurrence, with its threads |
| `Adapters.NamesInOrder` | src/telemetryd/backend/adapters/generic.py:65-67 | later threads add names behind those that are there |
| `Adapters.MembersAppend` | src/telemetryd/backend/adapters/generic.py:65-67 | and the threads of a group are in list order |
| `Adapters.GenericGroups` | src/telemetryd/backend/adapters/generic.py:63-86 | one group for each key with its threads and their share; one group for the process when no thread is listed |
| `Adapters.GroupsPartition` | src/telemetryd/backend/adapters/generic.py:65-67 | with distinct thread ids every listed thread is in exactly one group |
| `Adapters.GenericGroupsAddUp` | src/telemetryd/backend/adapters/generic.py:72-86 | the group rates sum to the process rate when the issuing threads are listed and thread rates sum to process rates |
| `Adapters.BandwidthAddsUp` | src/telemetryd/backend/adapters/base.py:85 | groups whose rates add up to the process rate have together its bandwidth |
| `Adapters.DepthAddsUp` | src/telemetryd/backend/adapters/base.py:83 | and its queue depth |
| `Adapters.GenericFiguresAddUp` | src/telemetryd/backend/adapters/generic.py:72-86 | the generic groups share out the bandwidth and the queue depth of their process, when the issuing threads are listed and thread rates sum to process rates |
| `Adapters.RatiosKept` | src/telemetryd/backend/adapters/base.py:69-82 | a thread share with I/O shows the read and write ratios of the process |
| `Adapters.RatiosExact` | src/telemetryd/backend/adapters/base.py:69-82 | and they are the reads and the writes as parts of both |
| `Adapters.TotalsStep` | src/telemetryd/backend/adapters/base.py:62-85 | bandwidth, depth, reads and writes are summed over the statistics, field by field |
| `Adapters.SumOfShares` | src/telemetryd/backend/adapters/base.py:63-84 | disjoint groups, fio jobs included, have together the rate of their threads |
| `Adapters.FioGroups` | src/telemetryd/backend/adapters/fio.py:175-203 | each thread goes to the first job it fits, a lone job nobody fits takes all threads, the jobs' threads are disjoint, and each job has its threads' share of what was measured |
| `Adapters.FitsExact` | src/telemetryd/backend/adapters/fio.py:186-187 | a thread name of at most fifteen characters fits a job just when it is not empty and agrees with the job's name as far as both go |
| `Adapters.CommMapExact` | src/telemetryd/backend/adapters/fio.py:176 | a thread goes by the last name listed for its id |
| `PageWalk.ReadUser` | src/telemetryd/backend/procinfo.py:64-102 | the walker returns what byte-by-byte translation returns, for any mix of page sizes, any range and any memory, faults included |
| `PageWalk.ReadPages` | src/telemetryd/backend/procinfo.py:73-102 | the chunked loop terminates and equals the bytewise form for every translation that is steady inside its pages |
| `PageWalk.Chunk` | src/telemetryd/backend/procinfo.py:83-101 | one chunk inside a page stands for that many single bytes |
| `PageWalk.TranslateIsSteady` | src/telemetryd/backend/procinfo.py:77-98 | inside one page the next address translates to the next physical address |
| `PageWalk.LongestMappedPrefix` | src/telemetryd/backend/procinfo.py:77-102 | the bytes are those of the longest mapped prefix, and the first missing one is unmapped; the read fails exactly when a table or byte cannot be read before that |
| `PageWalk.FrameExact` | src/telemetryd/backend/procinfo.py:84-98 | the address computed is the one of that section exactly when the leaf has no address bits below its page size |
| `PageWalk.WalkIsManual` | src/telemetryd/backend/procinfo.py:77-98 | for every address the walk ends where the four-level walk of section 4.5 of the Intel SDM, Volume 3A, written on its own in `ManualWalk`, ends, with the same address but for those bits |
| `PageWalk.ManualAgrees` | src/telemetryd/backend/procinfo.py:77-102 | when every leaf met in the range is such, the bytes are those the manual's walk gives, and the failures the same |
| `PrpDecode.DecodePages` | src/telemetryd/services/queues/decode.py:48-101 | nothing for a null PRP1 or an empty transfer; else the first page is PRP1 with its offset, the next PRP2, marked as a list, and shown whole, exactly when more than two pages are needed, and the data pages are the bytes of PRP1's page followed by those of the second page, up to 4096 |
| `PrpDecode.FurtherPages` | src/telemetryd/services/queues/decode.py:76-101 | PRP2 is taken as a data page or as a list by the true number of pages |
| `PrpDecode.CutExact` | src/telemetryd/services/queues/decode.py:67-76 | the first bytes are those in PRP1's page, and the further pages the fewest that hold the rest |
| `PrpDecode.ListPages` | src/telemetryd/services/queues/decode.py:93-101 | the list loop reads only the first entry's page, up to the cap |
| `PrpDecode.ShownIsTransfer` | src/telemetryd/services/queues/decode.py:48-110 | when the reads succeed, the bytes shown are the first min(length, 4096) bytes of the transfer of section 4.3 of NVM Express 1.4, counted page by page, for every layout and offset, unless the list begins in the last slot of a page |
| `PrpDecode.ReadsExact` | src/telemetryd/services/queues/decode.py:67-110 | the reads that must succeed are those of the first page's bytes and, when bytes behind it are shown, of up to eight list entries, if a list is needed, and of the second page's bytes |
| `PrpDecode.LinkTakenForData` | src/telemetryd/services/queues/decode.py:87-99 | for every aligned list that begins in the last slot of a page and is longer, some memory makes the decoder show the link's page in place of the data |
| `PrpDecode.ShortOnFault` | src/telemetryd/services/queues/decode.py:104-110 | when a read fails, fewer bytes are shown |
| `Topology.BusChain` | src/telemetryd/backend/topology.py:195-215 | ends on every finite bus graph, cyclic ones included, with a chain of buses and their bridges from the device's bus up; on an acyclic one it starts at a root bus |
| `Topology.AddDevice` | src/telemetryd/backend/topology.py:385-443 | adds exactly the device's line to a tree in which each node stands once, under its hardware parent |
| `Topology.BuildTopology` | src/telemetryd/backend/topology.py:368-446 | the tree has each node once, under its hardware parent, and holds the devices that could be looked up |
| `Topology.UnionOfLines` | src/telemetryd/backend/topology.py:382-443 | its nodes are exactly the union of the devices' lines to the root |
| `Topology.ChildrenAreHardware` | src/telemetryd/backend/topology.py:385-443 | under the root are host bridges of root buses, and under a host bridge or bridge only devices of the bus it leads to |
| `Topology.DevicesAreChildren` | src/telemetryd/backend/topology.py:385-443 | and every device in the tree hangs there |
| `Topology.OrderDoesNotMatter` | src/telemetryd/backend/topology.py:385-443 | the order and repetition of devices change neither nodes nor children |
| `TtlCache.AdaptiveTtlCache.GetOrCompute` | src/telemetryd/platform/cache.py:42-56 | a hit is younger than its own TTL and changes nothing, and an entry younger than the minimum is always one; otherwise the value is computed and stored with the time and a TTL that is the larger of the minimum and factor times the duration; computations of a key stay at least a TTL apart |
| `TtlCache.AdaptiveTtlCache.Invalidate` | src/telemetryd/platform/cache.py:63-69 | forgets one key or all |
| `TtlCache.AdaptiveTtlCache.constructor` | src/telemetryd/platform/cache.py:35-40 | an empty cache |
| `TtlCache.WorkerShare` | src/telemetryd/platform/cache.py:42-56 | over any run of computations of one key, (factor + 1) times their total before the latest is at most the time from the first start to the latest |

## Left out

- Text: regular expressions, UTF-8 decoding, JSON, `shlex`, number and time formatting. Log lines are a datatype, bytes are bytes, the state file is a record, session ids are a datatype with the suffixes of `_session_id`. Histogram bounds are read as the numbers they stand for, where the host's pattern knows the suffix; the fragment of a line that a tail read begins with is some line, for `ErrorStats.TailIsEnough` one that is not a count line, because those begin with their name.
- A process name that contains a newline or the tick mark, and 64-bit counter wrap-around.
- Signed printing of opcode and namespace in `TIMEOUT_EVENT` and the host's masking of them: single values that cancel out.
- bpftrace's asynchronous printing and clearing and its per-CPU maps, and races between Python threads: every probe and every call is one atomic step. Cached command fields rely on blk-mq not reusing a tag before its completion.
- The collector's maps are grouped in records by what they are for instead of one field each.
- Clocks, the process list, the statistics and physical memory are parameters. Rule matching (`rule_matches`) is an arbitrary predicate of rule and process, because most of it is regular expressions.
- One refresh or rule edit either can or cannot write the state file; a write that fails halfway through one call is not modelled. `Restart.RunKeeps` is about files the registry wrote; `Restart.LoadedExact` says what any other file loads into. A missing or unreadable file loads like an empty one.
- Registry.TargetRegistry.AttachOne: sets no adapter name, executable path or logical groups on the session, because choosing an adapter is a chain of text tests; the groups themselves are in `Adapters`.
- Registry.TargetRegistry.RefreshSessions: the same, and the snapshot's sorted presentation of sessions, devices and unmonitored I/O and the multi-process warning.
- Adapters.GenericGroups: does not sort the groups by name nor their thread ids, and names them without the `_*` suffix, because both only present.
- Registry.TargetRegistry.AttachLoop: the same as AttachOne.
- Adapters.FioGroups: leaves out the expected workload of a job and its comparison, which are text handling and single expressions.
- Topology.BuildTopology: has no controller nodes and no error texts, because they come from kernel objects that are not part of this model.
- ProcParser.ToStat: has no name, size list or queue list in the statistic and does not sort the threads; the counters behind them are in `ProcRecovery.KeyedRecovered`.
- The cursor's file is replaced between polls, not between the size check and the read of one poll; `Cursor.FileCursor.ReadNewLines` itself allows that, the runs do not.
- `parse_fio_cmdline`, `compare`, `infer_role` and the dominant I/O size: single expressions or text handling.
- Leaf attributes of the topology and its controller, namespace and queue nodes; names of buses and devices are taken as unique.
- `_window_indices`, `nvme_const.py` name tables and event summaries: finite tables and text.
- drgn object access, gRPC, protobuf conversion, the web server, the CLI and the mock backends.
