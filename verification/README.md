# GPUViz: the telemetry pipeline, modelled and proved in Dafny

GPUViz measures NCCL network operations on hot-path threads, turns the measurements into
histograms and per-millisecond bandwidth on a reporter thread, and uploads the result from an
executor thread. This project models that pipeline and proves what it keeps, over all inputs
and, where threads meet, over all interleavings. `dafny verify dfyconfig.toml` checks it.

| Files | What they model |
|---|---|
| `BandwidthWindow`, `ConnectionBandwidth` | time buckets, carry-over and the two bandwidth buffers of a connection; the class on arrays and its specification |
| `NicShaping`, `NicAggregation` | the leaky bucket with its closed form, and a pass over all NICs through the one carry field |
| `BandwidthRuns`, `BandwidthTicks`, `BandwidthConservation`, `BandwidthClocks`, `BandwidthLoss` | writers and the reporter interleaved: what the clocks of the ticks fix, conservation of Send bytes, and exactly which clock readings lose some |
| `HistogramGenerations`, `ConnectionHistograms` | the two histogram generations, refining one atomic histogram set; the class whose calls are runs of that machine |
| `MessageSplitting`, `UploaderQueue` | the splitter: its packing, and its message objects with the destination bound by reference |
| `UploadProtocol`, `ExecutorRounds`, `UploadSections`, `UploadIndices` | executor, reporter and Shutdown interleaved; what the executor thread does with the queue when left alone; the critical sections as methods of the shared object; the index of the message sent at shutdown |
| `UploaderRetry`, `UploaderTiming` | the two retry counters, their termination measure and the backoff; the times at which calls get through |
| `RealPowers`, `Bucketing`, `BucketDump` | the exponential histogram, its closed-form index and its coalescing text form |
| `BatchBuffer`, `BatchRecord`, `PassAlignment` | the millisecond buffer, what it records over a run, and where its passes really begin |
| `BatchTimes`, `BatchStamps`, `BatchLateness`, `BatchStampRuns`, `TickDates` | when the buckets of its samples began against the stamps they are written with: over all runs, in runs that misdate some, and for the ticks of the aggregator |
| `Framing` | the delimiter between messages and the reader that splits on it |
| `IntervalMerge`, `BandwidthOverlay` | merging the time intervals of all processes and overlaying their samples |
| `Scheduler`, `HistogramFilter` | the callback loop; the in-place filter |
| `Arithmetic`, `RealSums`, `Wrappers` | quotients, products, sums, and an optional value |

Objects the program updates in place are classes with the same fields, whose methods are proved
equal to functions of the old state; the laws are proved about those functions. Threads are
state machines, one step for each section under a lock or call to another component.

## What the code does not keep

- **Message size** (`SizeBoundIff`). The header promises that every queued message stays within
  the size limit (src/nccl_stats_uploader_executor.h:61-67). The destination of a field is bound
  once, before the field is split, while a flush replaces the current message; so a field always
  lands whole in one message, and the promise holds exactly when no split is needed at all.
- **Late writers** (`RaceLosesBytes`, `NothingLostIffClocksKept`). A writer samples the clock before
  it takes the lock (src/nccl_stats_aggregator.cc:1155-1161). If a tick comes in between, its bytes
  can land in buckets that are cleared without being read. Nothing is lost exactly if the clock
  of every measurement was kept by the tick that closed its generation; `ClockKept` says which are.
- **Recv bandwidth** (`RecvBytesNeverReachNic`). Both directions of a retired buffer are cleared
  after the Send pass, so no Recv byte is ever aggregated.
- **Saves at the wrong moment** (`SaveKeepsRecordIff`). A save while the current batch is the first
  one of the buffer clears that batch without exporting it; one made while later batches already
  hold samples leaves these where they are and puts the record out of order.
- **Late stamps** (`TickSampleError`, `TickRunsAreLate`, `ExportedStampsDatedIff`). A tick registers its
  own clock and then copies the buckets of the generation that began one tick and the maximal
  latency earlier (src/nccl_stats_aggregator.cc:771-793). It dates each sample late by that much,
  less what is rounded off the clock: never rightly, as soon as it comes to a bucket, and not
  always by the same amount. `TicksMisdate` has samples 13 and 43 milliseconds late.
- **Mixed batches** (`BatchesUniformIff`, `RestampingIff`, `AbuttingTicksDisagree`, `LatePassMisdates`).
  A pass that begins in a half-filled batch stamps it anew. One stamp could date the batch only if
  the two generations began as far apart as the cells where they are put. Passes that abut
  there, of ticks on time, as they must to lose nothing, hand on more buckets than time has passed
  and never meet that.
- **Uneven batches** (`StampError`, `UnevenBatch`). The parameters admit batches that are not a whole
  number of buckets; their stamps err by a further amount, which changes with the millisecond.
- **The save at the end** (`LastStampIff`, `StaleStampExported`, `FinalSaveCompleteIff`,
  `LastSamplesLeftOut`). An ordinary save moves the current batch to the front of the buffer, but
  not its time stamp. If no pass follows, the save at the end of the program exports that batch
  under the stamp of another one. It also stops at the batch in which the last pass began: what
  that pass copied into later batches is never written.
- **Overlapping passes** (`NextPassAbutsIff`, `SteadyTicksOverlap`, `LastSampleOverwritten`,
  `BatchSkipped`). The next pass over the millisecond buffer begins where the clock says, by the
  millisecond of the second, whereas the last one ended where its count took it. For every batch
  and bucket length `NextPassAbutsIff` says when the two agree. They need not when batches do not
  divide a second and a second ends in between (`BatchesThatDoNotDivideASecond`). Within a second
  they do not when ticks come at equal distances of whole buckets and the maximal latency is whole
  buckets too, unless a batch is a single bucket: each tick then hands on one bucket more than that
  distance, and the next pass overwrites the last sample of its predecessor or, at a batch boundary,
  skips most of a batch. Passes can stay in step only while the distance of ticks grows, so not for
  long (`InStepTicksAreBounded`). The run theorem `NothingLostOrMoved` asks that passes abut, which
  `PassKeepsRecordIff` shows to be necessary at each of them.
- **Indices at shutdown** (`ShutdownIndexContinuesIff`, `SentIndicesDistinctIff`). An upload index is
  meant to identify a message (src/proto/nccl_telemetry_proto.proto:277-279). The message sent at
  shutdown is numbered on if it comes from the queue. It is made up if the queue is empty, and then
  carries index 0 once more, even after a clean run (`ShutdownUploadMayRepeatIndexZero`).
- **Delimiter** (`CleanIff`). A message that merely ends with `==END` is read back wrongly, since
  the delimiter begins the way it ends.

## Model

| member | source | states |
|---|---|---|
| `BandwidthWindow.ValidLimit` | src/nccl_stats_aggregator.cc:74-98 | the number of leading buckets handed on leaves room for the carry-over buckets behind them whenever these fit the buffer |
| `BandwidthWindow.UnusedBuckets` | src/nccl_stats_aggregator.cc:777-789 | never more than the buffer holds, and the whole buffer for the generation before the first swap |
| `BandwidthWindow.UnusedNotBegun` | src/nccl_stats_aggregator.cc:777-789 | after the first swap the unused buckets are exactly those that have not begun by the tick |
| `BandwidthWindow.TickArithmetic` | src/nccl_stats_aggregator.cc:777-793 | with a maximal latency of K buckets and r milliseconds, every tick after the first that does not overrun the buffer processes exactly floor((D+r)/b)+1 buckets for D elapsed milliseconds, and each carried bucket is dated more than r and at most r+b earlier than before |
| `BandwidthWindow.DriftAccumulates` | src/nccl_stats_aggregator.cc:74-98 | over any number of such ticks the processed buckets claim between n(r+1) and n(r+b) milliseconds more than elapsed |
| `BandwidthWindow.Reach` | src/nccl_stats_aggregator.cc:1444-1460 | how far into the buffer a measurement reaches is at most its size |
| `BandwidthWindow.ReachCases` | src/nccl_stats_aggregator.cc:1444-1460 | where a measurement reaches, for every elapsed time a 64-bit difference can express: one past its own bucket, the first bucket when it is less than a bucket early, the whole buffer when it is earlier or past the end |
| `BandwidthWindow.InWindowReach` | src/nccl_stats_aggregator.cc:1444-1460 | a measurement clocked between the start of its generation and the clock of the tick that closes it stays within the buckets that are handed on or carried |
| `BandwidthWindow.ReachWithinCarriedIff` | src/nccl_stats_aggregator.cc:1444-1460 | the exact condition, on the clock readings, under which a measurement stays within the buckets handed on or carried |
| `BandwidthWindow.BitsPerSecond` | src/nccl_stats_aggregator.cc:99-113 | the rate times the seconds of a bucket are the bits of its bytes |
| `ConnectionBandwidth.AddBytesSum` | src/nccl_stats_aggregator.cc:1428-1466 | an accepted measurement adds exactly its size to the total of its direction, for every elapsed time and latency, the fallback included |
| `ConnectionBandwidth.AddBytesReach` | src/nccl_stats_aggregator.cc:1444-1466 | buckets at or beyond the reach keep their content, none decreases, and the last bucket below the reach grows |
| `ConnectionBandwidth.AddBytesLands` | src/nccl_stats_aggregator.cc:1444-1470 | for every latency and every clock not before the generation: the bytes are shared equally among exactly those buckets that began by the clock reading and had not ended the latency before it; if there are none the last bucket gets them all |
| `ConnectionBandwidth.EarlyBytesLand` | src/nccl_stats_aggregator.cc:1444-1470 | for a clock before the generation: the first bucket gets all if it is less than a bucket early, the last one if less than two, otherwise every bucket an equal share |
| `ConnectionBandwidth.MeasureLands` | src/nccl_stats_aggregator.cc:1427-1470 | a measurement changes nothing but the active cells of its own direction, and those in that way; without a start time it changes nothing |
| `ConnectionBandwidth.AddBytesTouches` | src/nccl_stats_aggregator.cc:1444-1466 | for positive bytes and a clock not before the generation: a bucket changes exactly if the span of the measurement overlaps it, or if it is the last and none is overlapped |
| `ConnectionBandwidth.SwapSum` | src/nccl_stats_aggregator.cc:1278-1297 | a swap into a clean copy carries over exactly the content of the carried buckets |
| `ConnectionBandwidth.SwapCells` | src/nccl_stats_aggregator.cc:1278-1299 | cell by cell in both directions: new cell i is old cell limit + i for the carry-over buckets and the clean copy's own beyond; the closed copy is kept whole |
| `ConnectionBandwidth.AccumulateCells` | src/nccl_stats_aggregator.cc:1327-1356 | bucket by bucket: the prefix handed on is added to the same buckets of the NIC, the others stay |
| `ConnectionBandwidth.AccumulateSum` | src/nccl_stats_aggregator.cc:1341-1344 | a NIC vector gains exactly the content of the processed prefix |
| `ConnectionStatistics.NcclConnectionStatistics.constructor` | src/nccl_stats_aggregator.cc:1055-1071 | both copies begin empty, with the sentinel start time |
| `ConnectionStatistics.NcclConnectionStatistics.UpdateBandwidth` | src/nccl_stats_aggregator.cc:1428-1466 | in place, on the active copy only: the functional Measure of the specification |
| `ConnectionStatistics.NcclConnectionStatistics.SwapState` | src/nccl_stats_aggregator.cc:1278-1297 | in place: the generations change roles and the carry-over buckets are copied to the front of the new one |
| `ConnectionStatistics.NcclConnectionStatistics.AggregateLastInterval` | src/nccl_stats_aggregator.cc:1217-1226 | adds the processed prefix of one direction to the NIC vector, submits for each of its buckets the rate at which the bucket's time carries its bits, and then clears both directions of the retired copy |
| `ConnectionStatistics.AddToBuckets` | src/nccl_stats_aggregator.cc:1444-1466 | the in-place spread over an array equals AddBytes |
| `ConnectionStatistics.CopyCarryOver` | src/nccl_stats_aggregator.cc:1294-1296 | the copy loop of the swap equals CarryOver |
| `ConnectionStatistics.ZeroOut` | src/nccl_stats_aggregator.cc:1358-1365 | an array becomes all zero |
| `NicShaping.ShapeConserves` | src/nccl_stats_aggregator.cc:552-572 | shaped bytes plus the final carry are the carry taken in plus all arrivals |
| `NicShaping.ShapeClosedForm` | src/nccl_stats_aggregator.cc:552-572 | the (min,plus) closed form: cumulative output is n*C or the least over j of c0 + A(j) + (n-j)*C, whichever is smaller |
| `NicShaping.ShapeIsGreatestAdmissible` | src/nccl_stats_aggregator.cc:552-572 | the shaped sequence is admissible and its cumulative output dominates that of every schedule that caps each slot and never emits bytes before they arrive |
| `NicShaping.ShapeAppend` | src/nccl_stats_aggregator.cc:484-496 | shaping two vectors one after the other through the one carry is shaping their concatenation |
| `NicShaping.RatesAddUp` | src/nccl_stats_aggregator.cc:565-573 | over the time of a bucket each, the rates submitted add up to the bits of all the bytes |
| `NicShaping.CalculateAndUpdateHistogram` | src/nccl_stats_aggregator.cc:538-587 | the loop shapes the prefix in place through the carry, submits for each bucket and in sum the rate that carries its bits, and clears the vector |
| `NicAggregation.ArrivalsTotal` | src/nccl_stats_aggregator.cc:484-496 | whatever the map iteration order, the arrivals of a pass add up to the processed prefixes of all NICs and both directions |
| `NicAggregation.PassConserves` | src/nccl_stats_aggregator.cc:484-496 | across all NICs and both directions, in any order, shaped bytes plus the one carry field are the carry before plus everything processed; the carry stays non-negative and no slot exceeds the cap |
| `NicAggregation.ClearingDiscardsOnlyZeros` | src/nccl_stats_aggregator.cc:833-846 | clearing a NIC at the end of a pass discards nothing but zeros exactly if both vectors are zero beyond the processed prefix |
| `NicAggregation.ShapeOneMore` | src/nccl_stats_aggregator.cc:488-495 | processing one more NIC extends the shaped sequence of those before it |
| `NicAggregation.NcclStatsAggregator.AggregateNicStats` | src/nccl_stats_aggregator.cc:484-496 | over the objects of the map: what is submitted is the shaping of the arrivals in the order visited, the carry field follows it, and every vector ends cleared |
| `NicAggregation.NcclStatsAggregator.ShapeNic` | src/nccl_stats_aggregator.cc:489-494 | Send and then Recv of one NIC through the one carry, other NICs untouched; the rates submitted carry in sum the bits of all that was shaped |
| `BandwidthConservation.StepKeepsInv` | src/nccl_stats_aggregator.cc:768-831 | every step of every thread keeps the balance of bytes, the cleanliness of the copies about to be swapped in, and the shapes of all buffers |
| `BandwidthConservation.SendBytesConserved` | src/nccl_stats_aggregator.cc:768-831 | over every interleaved run, recorded Send bytes = shaped + carry + NIC vectors + connection buffers + lost bytes, and nothing is lost exactly when no closed generation was reached beyond its carried buckets |
| `BandwidthConservation.SwappedInCopyIsZero` | src/nccl_stats_aggregator.cc:1217-1226 | the copy a connection is about to swap in is all zero, in every run |
| `BandwidthConservation.RecvBytesNeverReachNic` | src/nccl_stats_aggregator.cc:805-813 | because both directions are cleared after the Send pass, no Recv byte of a connection reaches a NIC vector in any run |
| `BandwidthTicks.TicksSetStarts` | src/nccl_stats_aggregator.cc:791-799 | after every run with some tick: each connection the last tick has swapped is in a generation that began the maximal latency before that tick, each one it has yet to swap in one that began so before the tick before |
| `BandwidthTicks.TickHandsOn` | src/nccl_stats_aggregator.cc:771-793 | after every run: the first tick hands on nothing; one on time D milliseconds after the last hands on exactly floor((D+r)/b)+1 buckets, r being the part of a bucket in the maximal latency; one that is too late, all but the carry-over buckets |
| `BandwidthTicks.MeasurementLands` | src/nccl_stats_aggregator.cc:1427-1470 | in every state: a measurement changes one direction of the active cells of one connection, by sharing its bytes among the buckets its span overlaps, and nothing else |
| `BandwidthTicks.SwapCarries` | src/nccl_stats_aggregator.cc:1278-1299 | a swap changes one connection: cell by cell the carry-over moves to the front of the other copy, which gets the start time of the tick |
| `BandwidthTicks.AggregateAdds` | src/nccl_stats_aggregator.cc:800-812 | aggregating adds the prefix of one direction of a connection to the same buckets of that direction of its own NIC, clears the copy, and changes nothing else |
| `BandwidthTicks.PassShapesAllItMay` | src/nccl_stats_aggregator.cc:536-587 | in every run the pass over the NICs puts out what an admissible schedule for all arrivals may, and none may more |
| `BandwidthClocks.NothingLostInWindow` | src/nccl_stats_aggregator.cc:1156-1161 | when every sampled clock lies between the start of the active generation and the clock of the tick that closes it, all recorded Send bytes are accounted for without loss |
| `BandwidthClocks.RaceLosesBytes` | src/nccl_stats_aggregator.cc:1156-1161 | a run in which a writer samples its clock and is overtaken by a tick before it takes the lock: a recorded byte is lost |
| `BandwidthLoss.GreatestKept` | src/nccl_stats_aggregator.cc:1444-1460 | the measurements of a generation stay within the buckets its closing tick hands on or carries exactly if that tick keeps each of their clocks |
| `BandwidthLoss.NothingLostIffClocksKept` | src/nccl_stats_aggregator.cc:768-831 | over every interleaved run, no Send byte is lost if and only if every accepted Send measurement of every closed generation was kept, by its clock, by its closing tick |
| `HistogramGenerations.Submissions` | src/nccl_stats_aggregator.cc:1163-1180 | an operation submits only to the histograms fed by writers |
| `ConnectionHistograms.SubmissionsFill` | src/nccl_stats_aggregator.cc:1152-1178 | on the histograms themselves: a send adds to histogram 0 exactly the software latencies before the first unknown type, in order, to 2 the hardware ones and to 5 the size, a receive to 1, 3, 4 and 6 likewise, and no other histogram changes |
| `HistogramGenerations.StepRefines` | src/nccl_stats_aggregator.cc:1152-1261 | every step of the two generations is a step of one atomic histogram set |
| `HistogramGenerations.RunRefines` | src/nccl_stats_aggregator.cc:1152-1261 | and so is every interleaved run |
| `HistogramGenerations.EachSampleOnce` | src/nccl_stats_aggregator.cc:1208-1215 | for every histogram and interleaving, what was reported followed by what is still buffered is exactly what was submitted, in order |
| `HistogramGenerations.WritersSubmitWhatIsRequested` | src/nccl_stats_aggregator.cc:1152-1199 | the samples submitted plus those of the operation holding the lock are those the operations ask for, in lock order |
| `HistogramGenerations.WriteCopyEmptyAfterSwap` | src/nccl_stats_aggregator.cc:1245-1252 | right after a swap the copy writers move to is empty |
| `HistogramGenerations.ExclusiveAccess` | src/nccl_stats_aggregator.h:166-182 | a writer and the reporter thread never touch the same histogram at once, although the reporter submits without a lock |
| `ConnectionHistograms.NcclStatsConnectionStatistics.NotifyOperationMeasurement` | src/nccl_stats_aggregator.cc:1152-1199 | submits to the active copy in that way, and succeeds exactly if neither the operation nor any latency is of unknown type |
| `ConnectionHistograms.NcclStatsConnectionStatistics.ReadStatsFromLastInterval` | src/nccl_stats_aggregator.cc:1208-1215 | returns all of the retired copy, and leaves it empty |
| `ConnectionHistograms.NotifyIsARun` | src/nccl_stats_aggregator.cc:1162-1198 | a call that submits is a run of writer steps of the state machine with the same effect |
| `ConnectionHistograms.ReadIsARun` | src/nccl_stats_aggregator.cc:1208-1215 | a read is a run of swap, copy and reset steps with the same effect |
| `MessageSplitting.SplitConserves` | src/nccl_stats_uploader_executor.cc:71-136 | every element is queued exactly once: each field, read across the queue, is the input field from its end to its beginning |
| `MessageSplitting.IndicesConsecutive` | src/nccl_stats_uploader_executor.cc:89-98 | upload indices are consecutive modulo 2^64 |
| `MessageSplitting.GroupsPartition` | src/nccl_stats_uploader_executor.cc:105-123 | the running-size groups partition the elements in the order they are taken |
| `MessageSplitting.GroupsWithinQuota` | src/nccl_stats_uploader_executor.cc:105-123 | a group exceeds the quota only if it has exactly one element of non-zero size |
| `MessageSplitting.AdjacentGroupsExceed` | src/nccl_stats_uploader_executor.cc:105-123 | two neighbouring groups together exceed the quota |
| `MessageSplitting.NextFitPacking` | src/nccl_stats_uploader_executor.cc:105-136 | the groups between flushes partition the elements; a group exceeds the quota only if one element makes up its size; adjacent groups together exceed it; only the last may be of size zero; at most 2*total/quota + 1 messages |
| `MessageSplitting.FieldsLandWhole` | src/nccl_stats_uploader_executor.cc:94-133 | all logs land in the first message, all connection statistics in the message begun when the logs alone have been packed, all events in the one begun when both have |
| `MessageSplitting.PlacedSize` | src/nccl_stats_uploader_executor.cc:105-131 | the size of the first message as it is really filled: every field begun before the first flush lies in it whole |
| `MessageSplitting.FirstMessageSize` | src/nccl_stats_uploader_executor.cc:105-131 | the first message exceeds the quota as soon as the telemetry does; otherwise it is the only one and holds everything |
| `MessageSplitting.SizeBoundIff` | src/nccl_stats_uploader_executor.h:61-67 | the promised bound on the size of every message holds if and only if the whole telemetry fits one message |
| `MessageSplitting.SizeBoundWitness` | src/nccl_stats_uploader_executor.h:61-67 | two log entries of 6 bytes under a quota of 10 make a first message of 12 bytes and an empty second one |
| `UploaderQueue.AllStats.Append` | src/nccl_stats_uploader_executor.cc:25-47 | one element is appended to one field |
| `UploaderQueue.NcclStatsUploaderExecutor.AddSubMessageToQ` | src/nccl_stats_uploader_executor.cc:89-98 | the current message is numbered and queued, and a new one begun |
| `UploaderQueue.NcclStatsUploaderExecutor.PlaceElement` | src/nccl_stats_uploader_executor.cc:108-122 | one iteration: flush if the element does not fit, then append to the destination bound when the field was begun |
| `UploaderQueue.NcclStatsUploaderExecutor.SplitField` | src/nccl_stats_uploader_executor.cc:105-123 | a field ends up whole and reversed in that destination, whatever is flushed meanwhile |
| `UploaderQueue.NcclStatsUploaderExecutor.SplitAllStatsMessageIntoQ` | src/nccl_stats_uploader_executor.cc:71-136 | on message objects, with the destination as a reference: the queue equals the functional Split |
| `UploaderQueue.NcclStatsUploaderExecutor.UpdateQueue` | src/nccl_stats_uploader_executor.cc:226-246 | succeeds exactly with an uploader and an empty queue; the start entry then leads the logs of the first message; a refused update still uses up indices |
| `UploadProtocol.StepKeepsInv` | src/nccl_stats_uploader_executor.cc:138-334 | every step of the executor, the reporter and Shutdown keeps the protocol invariant |
| `UploadProtocol.CommitKeepsInv` | src/nccl_stats_uploader_executor.cc:235-245 | the critical section of UpdateQueue keeps it, accepting or, once the uploader is dead, refusing |
| `UploadProtocol.EachMessageSentAtMostOnce` | src/nccl_stats_uploader_executor.cc:160-224 | in every reachable state the messages sent from the queue are the first ones enqueued, each once; the others are pending or, after the clean-up, dropped; at most one message, made up at shutdown, is sent besides; the executor never moves from an empty or null front |
| `UploadProtocol.UpdateNeverRefusedWhileLive` | src/nccl_stats_reporter.cc:169-221 | as long as there is a live uploader, and all through a shutdown, no UpdateQueue call made after UploadFinished has ever failed and no upload index been lost |
| `UploadProtocol.NullFrontMeansUploadInFlight` | src/nccl_stats_uploader_executor.cc:187-215 | only the front can be a null placeholder, and only while an upload owns its message |
| `UploadProtocol.QueueSendsConsecutiveIndices` | src/nccl_stats_uploader_executor.cc:160-224 | all messages from the queue, including one sent at shutdown, are sent with upload indices 0, 1, 2, ... without a gap |
| `UploadProtocol.ExecutorWaitsOnlyForWork` | src/nccl_stats_uploader_executor.cc:250-260 | the executor is blocked only with an empty queue and no shutdown |
| `UploadProtocol.ShutdownIsBounded` | src/nccl_stats_uploader_executor.cc:149-158 | once the shutdown flag is set the executor thread ends within nine of its own steps, whatever the others do |
| `ExecutorRounds.RoundSendsFront` | src/nccl_stats_uploader_executor.cc:172-201 | from every reachable state with work and no shutdown, when no other thread interferes: five steps send the front of the queue, pop it and remember the success |
| `ExecutorRounds.RoundRetries` | src/nccl_stats_uploader_executor.cc:202-215 | or, the upload failing, six steps change nothing but what is remembered of it |
| `ExecutorRounds.RoundDies` | src/nccl_stats_uploader_executor.cc:202-219 | or, the uploader dying over it, the thread ends and all pending messages are dropped |
| `ExecutorRounds.StartsToWork` | src/nccl_stats_uploader_executor.cc:160-170 | the thread begins to work exactly if there is a live uploader, and otherwise goes to the clean-up |
| `ExecutorRounds.ShutdownSendsFront` | src/nccl_stats_uploader_executor.cc:289-328 | from every reachable state at the start of the clean-up, with the uploader there, alive and successful last: four steps end the thread; if the upload succeeds the front of the queue, and nothing else of it, is sent and the rest dropped, or for an empty queue a message with index 0; otherwise all is dropped |
| `ExecutorRounds.ShutdownSendsNothing` | src/nccl_stats_uploader_executor.cc:289-299 | without one of these nothing more is sent and all pending messages are dropped |
| `ExecutorRounds.ShutdownAtOnce` | src/nccl_stats_uploader_executor.cc:289-328 | a shutdown before anything was sent still sends its own message, with index 0 |
| `ExecutorRounds.ExecuteIsARun` | src/nccl_stats_uploader_executor.cc:160-328 | such steps are a run of the protocol |
| `UploadIndices.ClosingIndexIs` | src/nccl_stats_uploader_executor.cc:303-318 | a message from the queue sent at shutdown carries the count of messages sent before it, modulo 2^64; a made-up one carries 0 |
| `UploadIndices.ShutdownIndexContinuesIff` | src/nccl_stats_uploader_executor.cc:289-328 | it carries the next index after the main loop exactly if it came from the queue, or was made up and the main loop had sent nothing (or whole turns of the counter) |
| `UploadIndices.SentIndicesDistinctIff` | src/proto/nccl_telemetry_proto.proto:275-279 | all indices sent are different exactly if at most 2^64 messages were sent and none was made up at shutdown after others |
| `UploadIndices.ShutdownUploadMayRepeatIndexZero` | src/nccl_stats_uploader_executor.cc:303-318 | a run without any refused update that sends the indices 0 and 0 |
| `UploadSections.NcclStatsUploaderExecutor.MoveFrontOut` | src/nccl_stats_uploader_executor.cc:187-188 | the front message moves to the local buffer and leaves a null slot |
| `UploadSections.NcclStatsUploaderExecutor.AfterUploadReturns` | src/nccl_stats_uploader_executor.cc:190-215 | on success the slot is popped, otherwise the message is put back, with the flags set accordingly |
| `UploadSections.NcclStatsUploaderExecutor.CleanUpQ` | src/nccl_stats_uploader_executor.cc:330-334 | the loop empties the queue and drops exactly what was pending |
| `UploadSections.NcclStatsUploaderExecutor.UploadAndCleanupRemainingTelemetryOnShutdown` | src/nccl_stats_uploader_executor.cc:289-328 | the whole function on the object is those four steps, or the one step if it may not send |
| `UploadSections.NcclStatsUploaderExecutor.UploadFinished` | src/nccl_stats_uploader_executor.cc:138-147 | when it answers yes, the queue is empty or the pipeline is not live, so that an update made at once is refused only by a pipeline that is not live; when it answers no, the pipeline is live and an update would be refused |
| `UploadSections.NcclStatsUploaderExecutor.UploaderIsGone` | src/nccl_stats_uploader_executor.cc:142-144 | the read made before the lock is the first question of the protocol |
| `UploadSections.NcclStatsUploaderExecutor.NothingToUpload` | src/nccl_stats_uploader_executor.cc:145-146 | the read made under the lock is the second one |
| `UploadSections.NcclStatsUploaderExecutor.ReplaceIfEmpty` | src/nccl_stats_uploader_executor.cc:235-245 | the queue is replaced only if it is empty |
| `UploadSections.NcclStatsUploaderExecutor.RequestShutdown` | src/nccl_stats_uploader_executor.cc:149-154 | sets the shutdown flag and nothing else |
| `UploaderRetry.NcclUploader.Upload` | src/nccl_uploader.cc:16-43 | rejects when dead or too early, otherwise sends, creating a client first if none is alive: the new state and the status, for every answer of the environment |
| `UploaderRetry.NcclUploader.UploadMessage` | src/nccl_uploader.cc:54-81 | success resets the counter and schedules after the minimum wait; failure backs off or gives up |
| `UploaderRetry.NcclUploader.CreateClientAndUploadMessage` | src/nccl_uploader.cc:98-120 | creation resets its counter and sends at once; failure backs off or gives up |
| `UploaderRetry.NcclUploader.GiveUpRetry` | src/nccl_uploader.cc:122-127 | no client, dead, and no next upload time |
| `UploaderRetry.RunKeepsInv` | src/nccl_uploader.h:91-100 | over every run the counters stay below their limits while the uploader lives, and it is dead exactly when the next upload time is infinite |
| `UploaderRetry.DeathIsAbsorbing` | src/nccl_uploader.h:91-100 | once dead, every later call is rejected as dead and changes nothing |
| `UploaderRetry.FailureAdvances` | src/nccl_uploader.cc:54-120 | an accepted call that does not send kills the uploader or increases send*max_create + create |
| `UploaderRetry.DeadAfterTooManyFailures` | src/nccl_uploader.cc:54-120 | after max_send*max_create accepted calls in a row without a successful send, for any limits (those below 1 act like 1), the uploader is dead |
| `UploaderRetry.BoundIsReached` | src/nccl_uploader.cc:54-120 | for all limits there is a run of one call less that leaves a fresh uploader alive |
| `UploaderRetry.FailureSchedulesWithinBand` | src/nccl_uploader.cc:129-150 | every failure that is not the last schedules the next upload within the capped equal-jitter band, and after a failed send no earlier than the minimum wait |
| `UploaderRetry.BandGrows` | src/nccl_uploader.h:32-39 | with a base of at least 1 the band never moves back as failures go on, and stays below the cap |
| `UploaderTiming.GateIff` | src/nccl_uploader.cc:17-26 | over every run: a live uploader turns a call away, unchanged, exactly if it comes before the next upload time and does not ignore that |
| `UploaderTiming.CallsAreSpaced` | src/nccl_uploader.cc:17-126 | over every run: between an accepted call and the next one accepted at its due time at least the client's minimum wait passes after a message was sent; that and half the exponential delay after a failed send; half the delay after a failed creation |
| `UploaderTiming.SuccessStartsOver` | src/nccl_uploader.cc:58-66 | a message sent takes the failed sends back and makes the next one due after the minimum wait of the client that sent it; a client created for it also takes back the failed creations |
| `UploaderTiming.DelayGrows` | src/nccl_uploader.cc:126-150 | the exponential delay is the base delay at first and then grows by the base up to the cap |
| `UploaderTiming.JitterReaches` | src/nccl_uploader.cc:126-150 | every delay of the band, from half the exponential one to just below it, can be drawn |
| `UploaderTiming.NoDelayLeftIff` | src/nccl_uploader.cc:129-136 | and there is none exactly when the attempts are used up |
| `UploaderTiming.FailedSendKeepsClient` | src/nccl_uploader.cc:68-84 | after a failed send the client is kept exactly if it did not die over it, with the minimum wait of that client |
| `UploaderTiming.DeadClientIsReplaced` | src/nccl_uploader.cc:28-47 | a client that died over a message is not used again: the next accepted call makes one |
| `RealPowers.FloorLog` | src/distribution_bucketer.cc:56-57 | the integer part of the logarithm exists for every positive argument |
| `RealPowers.FloorLogUnique` | src/distribution_bucketer.cc:56-57 | and is unique |
| `Bucketing.LeastBucketCount` | src/distribution_bucketer.cc:19-29 | the bucket count is the least n >= 2 whose last bound reaches max_bucket |
| `Bucketing.BoundsGrow` | src/distribution_bucketer.cc:26-28 | the bounds are positive and strictly increasing |
| `Bucketing.BoundsAre` | src/distribution_bucketer.cc:26-28 | the first bucket ends at the scale and each later one the base times as far on |
| `Bucketing.IndexIsLinearSearch` | src/distribution_bucketer.cc:49-59 | the clamped closed-form index is the number of exclusive upper bounds the sample has passed, or the last bucket |
| `Bucketing.BucketRange` | src/proto/nccl_telemetry_proto.proto:88-98 | a sample lies at or above the bound below its bucket and below its own bound, the first and last buckets being open |
| `Bucketing.TalliesSum` | src/distribution_bucketer.cc:60-62 | every sample is counted in exactly one bucket |
| `Bucketing.ExtremesBound` | src/distribution_bucketer.cc:63-64 | the running extremes are samples and bound all samples |
| `Bucketing.AverageBetween` | src/distribution_bucketer.cc:76-79 | the average lies between the extremes |
| `Bucketing.DistributionBucketer.constructor` | src/distribution_bucketer.cc:19-29 | empty buckets with the right bounds |
| `Bucketing.DistributionBucketer.Submit` | src/distribution_bucketer.cc:49-64 | keeps counts, sum and extremes those of the sample history, extended by one sample |
| `Bucketing.DistributionBucketer.Reset` | src/distribution_bucketer.cc:87-95 | the history is empty again |
| `Bucketing.DistributionBucketer.GetMin` | src/distribution_bucketer.cc:66-69 | the least sample since the last reset, if there is one |
| `Bucketing.DistributionBucketer.GetMax` | src/distribution_bucketer.cc:71-74 | the greatest sample since the last reset, if there is one |
| `Bucketing.DistributionBucketer.GetAvg` | src/distribution_bucketer.cc:76-79 | the mean of the samples since the last reset, between the extremes |
| `Bucketing.DistributionBucketer.GetBucketCounts` | src/distribution_bucketer.cc:31-38 | the number of samples whose index is each bucket; together all samples |
| `Bucketing.DistributionBucketer.DumpRanges` | src/distribution_bucketer.cc:99-153 | the ranges printed for the histogram tile from 0 to its last bound |
| `BucketDump.WriteLines` | src/distribution_bucketer.cc:124-150 | the coalescing loop writes one line a non-empty bucket and one for each maximal run of empty ones |
| `BucketDump.Dump` | src/distribution_bucketer.cc:99-153 | lines join end to end, no two neighbours are empty, a non-empty line is one bucket, and every bucket count can be read back |
| `BatchBuffer.SaveKeepsRecordIff` | src/millisecond_bandwidth_output.cc:155-189 | exported batches followed by the buffer after a save are the buffer before, padded with empty batches, if and only if nothing lies beyond the current batch or, when that is the first one, if it is empty |
| `BatchBuffer.MillisecondBandwidthOutput.constructor` | src/millisecond_bandwidth_output.cc:25-46 | half as many batches again as whole ones fit between two exports, none when disabled; the batch size in samples; and no data |
| `BatchBuffer.MillisecondBandwidthOutput.AllocateBufferForNic` | src/millisecond_bandwidth_output.cc:67-78 | both directions of the NIC get zero batches |
| `BatchBuffer.MillisecondBandwidthOutput.RegisterCurrentTimeInMilliseconds` | src/millisecond_bandwidth_output.h:32-39 | the current batch becomes the next one, and the clock difference is taken once |
| `BatchBuffer.MillisecondBandwidthOutput.CopyOverBandwidthStats` | src/millisecond_bandwidth_output.cc:80-118 | data[k] goes to linear cell start+k of one direction of one NIC and nothing else changes; the next batch advances by (offset+n)/batch size; the batches touched are stamped once a pass |
| `BatchBuffer.MillisecondBandwidthOutput.CopyOverAll` | src/nccl_stats_aggregator.cc:484-496 | the copies of one pass over every NIC and direction: each series gets its own data at the same cells, and the batches are stamped once |
| `BatchBuffer.MillisecondBandwidthOutput.SaveBandwidthStats` | src/millisecond_bandwidth_output.cc:137-190 | exports the complete batches of every NIC, then clears them and moves the incomplete one to the front; a final save exports that one too and changes nothing |
| `BatchBuffer.MillisecondBandwidthOutput.ZeroOutNicData` | src/millisecond_bandwidth_output.cc:192-199 | one batch of every NIC and direction becomes zero |
| `BatchRecord.NothingLostOrMoved` | src/millisecond_bandwidth_output.cc:80-190 | over every run in which passes abut and fit and saves find their current batch to be the last one begun and not the first, exported batches followed by the buffer hold every sample once, in order, and zeros elsewhere |
| `BatchRecord.PassKeepsRecordIff` | src/millisecond_bandwidth_output.cc:80-103 | whatever the samples are, a pass that fits keeps exported batches and buffer holding every sample in its place if and only if it begins in the cell after its predecessor |
| `BatchRecord.PassOver` | src/nccl_stats_aggregator.cc:484-496 | one registration of the time and the copies of every series on the object are the pass of the run model for each series |
| `BatchRecord.SaveAll` | src/millisecond_bandwidth_output.cc:137-190 | saving on the object is the save of the run model for each series |
| `BatchRecord.FinalSave` | src/millisecond_bandwidth_output.cc:145-168 | the save at the end of the program on the object writes, for each series, what the run model has as written |
| `BatchRecord.EmptyBufferIntact` | src/millisecond_bandwidth_output.cc:67-78 | a freshly allocated buffer satisfies the run invariant |
| `BatchRecord.FinalSaveCompleteIff` | src/millisecond_bandwidth_output.cc:148-153 | over every run as in NothingLostOrMoved: once the program has ended every sample is found written in its place if and only if the last step was an ordinary save, or a pass whose offset and length together stay within one batch |
| `BatchRecord.LastSamplesLeftOut` | src/millisecond_bandwidth_output.cc:148-153 | a run in which they are not: any first pass that goes beyond its batch |
| `BatchTimes.StampError` | src/millisecond_bandwidth_output.cc:105-117 | for every batch and bucket length, start of the generation and clock: the stamp of a batch differs from the one due for the buckets copied there by the lateness of the pass and by what the millisecond differs when reckoned in buckets and in batches, which is nothing if a batch is a whole number of buckets |
| `BatchTimes.UnevenBatch` | src/millisecond_bandwidth_output.cc:37-39 | with batches of 100 ms and buckets of 3 ms, which the parameters allow, the sample of millisecond 99 is dated 0 |
| `BatchStamps.StepUniformIff` | src/millisecond_bandwidth_output.cc:80-190 | for every batch and bucket length, a sample being dated by the place of its bucket in its generation: after a step each batch holds samples that one stamp could date if and only if the step is a save or a pass that, in every batch where earlier samples stay, is due the stamp due there |
| `BatchStamps.BatchesUniformIff` | src/millisecond_bandwidth_output.cc:80-190 | over every run, also when passes overwrite and saves clear samples: each batch of buffer and files always holds samples that one stamp could date if and only if every pass joins in that way |
| `BatchStamps.FreshIsSound` | src/millisecond_bandwidth_output.cc:67-78 | a freshly allocated buffer is as the run theorems ask of the first state |
| `BatchLateness.PassError` | src/millisecond_bandwidth_output.cc:105-117 | for every batch and bucket length: by exactly how much a pass dates each of its samples after the bucket began |
| `BatchLateness.JoinedRunsAreLate` | src/millisecond_bandwidth_output.cc:137-190 | for every batch and bucket length: over every run whose passes join, ordinary saves date every sample late by no less and no more than the passes that finish batches are late |
| `BatchLateness.LastStampIff` | src/millisecond_bandwidth_output.cc:172-189 | batches being whole numbers of buckets: the last batch a final save would write has the stamp due after a pass that copied samples exactly if that was not late, and after a save exactly if the batch moved to the front was due the stamp found there |
| `BatchLateness.ExportedStampsDatedIff` | src/millisecond_bandwidth_output.cc:80-190 | over every run in which no sample is overwritten and saves find their current batch to be the last one begun and not the first, batches being whole numbers of buckets: every stamp written by the end of the program dates all samples of its batch if and only if every pass joined, none that finished a batch was late, and the last batch has the stamp due |
| `BatchLateness.JoinsIff` | src/millisecond_bandwidth_output.cc:82-84 | in such a run a pass joins if and only if it copies nothing, or the batch where it begins is without samples or due the same stamp |
| `BatchLateness.RestampingIff` | src/millisecond_bandwidth_output.cc:105-117 | where samples of a pass stay in the batch in which the next one begins, one stamp could date that batch exactly if the two generations began as far apart as the first cells of the passes are, and its stamp does, batches being whole numbers of buckets, if also the later pass was not late |
| `TickDates.TickLateness` | src/nccl_stats_aggregator.cc:771-793 | every tick registers its time later than its first bucket began, by its distance from the tick before and the maximal latency less what is rounded off its clock |
| `TickDates.PassOfRun` | src/nccl_stats_aggregator.cc:771-793 | in every run of writers and ticks the next tick hands on that number of buckets, of the generation that began then |
| `TickDates.TickSampleError` | src/nccl_stats_aggregator.cc:771-793 | and by exactly that the stamps date each sample it copies too late, batches being whole numbers of buckets |
| `TickDates.TickRunsAreLate` | src/nccl_stats_aggregator.cc:771-793 | over every run of ticks whose passes join, ordinary saves date each sample late by more than the least distance of ticks and the maximal latency less a bucket, and by no more than the greatest distance and the maximal latency |
| `TickDates.TickRunsAreMisdated` | src/nccl_stats_aggregator.cc:771-793 | when that distance and the maximal latency make a bucket, a run in which nothing is lost and some pass finished a batch never writes all samples rightly dated |
| `TickDates.AbuttingTicksDisagree` | src/nccl_stats_aggregator.cc:791-793 | passes of ticks that abut within a batch, the first being on time, leave samples that no stamp dates together |
| `TickDates.TicksAgreeIff` | src/nccl_stats_aggregator.cc:791-793 | in general one could exactly if the two ticks that opened the generations were as far apart as the first cells of the passes are |
| `TickDates.TicksMisdate` | src/nccl_stats_aggregator.cc:771-793 | ticks at 1000, 1010 and 1050: nothing is overwritten, samples of buckets begun at 997 and 1007 are dated 1010 and 1050, and two samples of one moment are 30 cells apart |
| `BatchStampRuns.LatePassMisdates` | src/millisecond_bandwidth_output.cc:105-117 | a pass that begins late in a half-filled batch stamps it anew, and an ordinary save exports the first sample of the pass before late by the lateness of that pass and the distance of the two batches on the clock |
| `BatchStampRuns.StaleStampExported` | src/millisecond_bandwidth_output.cc:172-189 | for all clocks, batches being whole numbers of buckets: a pass into the second batch, one that copies samples and stays there, a save and the end of the program write the second pass under the stamp of the first |
| `BatchStampRuns.PassOver` | src/nccl_stats_aggregator.cc:484-496 | one registration of the time and the copies of every series on the object are the pass of the stamp model, and its history dates the very cells copied into |
| `BatchStampRuns.SaveAll` | src/millisecond_bandwidth_output.cc:137-190 | saving on the object is the save of the stamp model; the stamps written are those of the batches exported, and samples and dates are moved or cleared alike |
| `BatchStampRuns.FinalSave` | src/millisecond_bandwidth_output.cc:145-168 | the save at the end of the program writes the stamps the model has as written |
| `PassAlignment.NextPassAbutsIff` | src/millisecond_bandwidth_output.cc:82-84 | for every batch and bucket length, a pass begins in the cell after its predecessor exactly when the place within the second has moved by as many buckets as that one copied, up to whole batches |
| `PassAlignment.AdvanceInSeconds` | src/millisecond_bandwidth_output.cc:82-84 | where c buckets make a second, that place moves by the buckets that began less c for every second that ended |
| `PassAlignment.PassesAbutIff` | src/millisecond_bandwidth_output.cc:82-84 | a pass over n buckets followed n buckets later abuts exactly if the seconds that ended in between are whole batches |
| `PassAlignment.PassesAbut` | src/millisecond_bandwidth_output.cc:82-84 | where whole batches divide a second they always are, so that such passes always abut |
| `PassAlignment.BatchesThatDoNotDivideASecond` | src/millisecond_bandwidth_output.cc:82-84 | with batches of 300 one-millisecond buckets, 50 buckets copied 50 milliseconds before a second ends are not followed by the next cell |
| `PassAlignment.SteadyTicksOverlap` | src/nccl_stats_aggregator.cc:777-793 | for every batch and bucket length, with ticks k buckets apart and a whole number of carry-over buckets each pass copies k+1 buckets, so that the next one, within the second, begins one cell early and abuts only if a batch is one bucket |
| `PassAlignment.SteadyTicksAbutIff` | src/nccl_stats_aggregator.cc:777-793 | and across seconds it abuts exactly if the seconds that ended and one bucket are whole batches |
| `PassAlignment.AbuttingMeansInStep` | src/millisecond_bandwidth_output.cc:82-84 | where whole batches divide a second, a pass that abuts its predecessor is in step with it, unless distances of ticks differ by a batch |
| `PassAlignment.InStepTicksAreBounded` | src/nccl_stats_aggregator.cc:777-793 | n consecutive on-time ticks in step make the distance of ticks grow by more than n(r+1)-b, and n(r+1) stays below size*b - M - D + b for a first distance D |
| `PassAlignment.LastSampleOverwritten` | src/millisecond_bandwidth_output.cc:88-103 | such a pass replaces the last sample of its predecessor |
| `PassAlignment.BatchSkipped` | src/millisecond_bandwidth_output.cc:99-105 | or, when the predecessor filled its batch, leaves all but one cell of the next batch empty |
| `Framing.RoundTripIff` | scripts/simpleParserMsBwProtobuf.py:299-306 | what was written is read back if and only if every message is clean: followed by the delimiter it first shows it at its own end |
| `Framing.CleanIff` | src/millisecond_bandwidth_output.cc:156-157 | a message is clean exactly if it does not contain the delimiter and ends neither with ==END nor with ==END= |
| `Framing.TruncatedFile` | scripts/simpleParserMsBwProtobuf.py:299-306 | a file cut off at any byte yields exactly the messages written in full |
| `IntervalMerge.Sorted` | scripts/simpleParserMsBwProtobuf.py:432-433 | sorting by start time, a permutation |
| `IntervalMerge.SortedIsStable` | scripts/simpleParserMsBwProtobuf.py:431-432 | intervals that begin together keep their order |
| `IntervalMerge.MergeSorted` | scripts/simpleParserMsBwProtobuf.py:434-449 | the merging loop: sorted, strictly separated, every interval within a merged one, and no other millisecond |
| `IntervalMerge.MergeIntervals` | scripts/simpleParserMsBwProtobuf.py:400-451 | the same for intervals in any order |
| `IntervalMerge.SameUnion` | scripts/simpleParserMsBwProtobuf.py:434-451 | merged and given intervals cover the same milliseconds |
| `IntervalMerge.FirstEndingAfter` | scripts/simpleParserMsBwProtobuf.py:470-471 | the first interval that ends after a batch begins contains the whole batch, and no other meets it |
| `BandwidthOverlay.FindInterval` | scripts/simpleParserMsBwProtobuf.py:470-471 | the search loop finds that interval |
| `BandwidthOverlay.ExtentIff` | scripts/simpleParserMsBwProtobuf.py:420-427 | the interval of a process is made of the milliseconds of which some NIC has a sample |
| `BandwidthOverlay.AddNic` | scripts/simpleParserMsBwProtobuf.py:474-498 | padding and adding the lists of a NIC adds its samples at their absolute times and nothing else |
| `BandwidthOverlay.Overlay` | scripts/simpleParserMsBwProtobuf.py:454-500 | for every interval, NIC, direction and millisecond the value is the sum of all samples of all processes at that absolute time |
| `BandwidthOverlay.OverlayConservesTotals` | scripts/simpleParserMsBwProtobuf.py:454-500 | for every NIC and direction the overlay adds up to what was recorded |
| `Scheduler.NcclStatsReporter.RegisterCallback` | src/nccl_stats_reporter.cc:151-158 | appended, due one interval later |
| `Scheduler.NcclStatsReporter.InvokeCallbacksAndReturnDurationToNextCallback` | src/nccl_stats_reporter.cc:233-254 | exactly the due callbacks run, each is then due one interval after it was looked at, and the wait is max(0, earliest due - now), infinite without callbacks |
| `Scheduler.RunsAreSpaced` | src/nccl_stats_reporter.cc:241-248 | over every run of passes, runs of one callback are at least its interval apart and none is early |
| `Scheduler.RunsIfDue` | src/nccl_stats_reporter.cc:241-248 | a callback runs at a look exactly if an interval has passed since its last run or its registration |
| `Scheduler.RunsAtMostOncePerInterval` | src/nccl_stats_reporter.cc:241-248 | with a clock that does not run backwards at most floor((T-t0)/interval) runs occur by time T |
| `Scheduler.RunsArePunctual` | src/nccl_stats_reporter.cc:241-248 | with looks at most a gap apart, runs are at most an interval and a gap apart |
| `HistogramFilter.FilterCounts` | src/utils.cc:47-59 | exactly the matching elements go, every copy of them |
| `HistogramFilter.WantedStay` | src/utils.cc:189-199 | what is left are exactly the histograms with a wanted type, every copy of them |
| `HistogramFilter.FilterAppend` | src/utils.cc:47-59 | and their order is kept: filtering a list in two parts is filtering it |
| `HistogramFilter.FilterIdempotent` | src/utils.cc:189-199 | filtering again changes nothing |
| `HistogramFilter.FilterTwice` | src/utils.cc:189-199 | filtering for two sets of types keeps what both want |
| `HistogramFilter.RepeatedField.Partition` | src/utils.cc:47-56 | the in-place swap loop: the kept elements in order in front, the others behind, no element lost |
| `HistogramFilter.RepeatedField.RemoveIf` | src/utils.cc:47-59 | equals the order-preserving filter and returns the number removed |
| `HistogramFilter.RepeatedField.Truncate` | src/utils.cc:38-43 | keeps the front |
| `HistogramFilter.FilterHistogramsByDistType` | src/utils.cc:189-199 | every connection keeps exactly the histograms of the wanted types, in order |

## Left out

- Rounding: all floating-point arithmetic, `log` and `pow` is exact real arithmetic. NaN and infinities do not occur as samples.
- Offered load, latency and variance vectors and the histograms fed from them; they are updated beside the byte vectors and never read by the code modelled here.
- AggregateLastInterval: does not add up the offered load of the connection, because those vectors are left out.
- Connections added or deleted during a run; the set of connections and NICs is fixed, and every connection collects both directions of bandwidth and all latency types.
- UpdateBandwidth: requires a non-empty buffer, which the parameters guarantee, and models a start time as an integer, since only clock differences matter; the zero sentinel is kept.
- SwapState: requires the carry-over buckets to fit the buffer; the code copies past the end otherwise.
- NotifyOperationMeasurement: the samples it submits to histograms; the measurements of bandwidth it makes of its software latencies are the steps of `BandwidthRuns`. Histograms that are absent because their bit is not set are not modelled.
- Reading environment parameters (src/params.cc); valid values are preconditions.
- Protobuf serialization, arenas and wire sizes; an element is an identity with a size, and the identifier of the process is dropped.
- UpdateQueue: the size limit is an argument; that it comes from the client, if one is alive, is not modelled.
- RunUploadExecutor: a state machine rather than a loop, because other threads act between its sections. Waiting until the next upload time is a step that may happen at any moment. The unlocked accesses to `uploader_` are atomic steps, so that the race on it at destruction is not captured.
- UploadFinished: called, like UpdateQueue, only through the reporter's pointer, which is null before the destructor sets the shutdown flag (src/nccl_stats_reporter.cc:138-146, 172, 207-216, 256-263); so the protocol lets no call begin after that, while one under way may still finish.
- Upload: the client (src/client.cc), the clock and the random draw are arguments, one answer for each call; the one-time delay before the first client is created is left out, and so is a backoff calculator other than the built-in one.
- CopyOverBandwidthStats: requires that the pass ends before the last cell of the buffer; the code checks nothing and writes past its buffer otherwise.
- SaveBandwidthStats: requires the current batch to lie within the buffer; log rotation and the stream itself are left out, a written message being an element of a list. A batch must be at least one bucket long; the code divides by zero otherwise.
- Framing: the reader skips a piece that does not parse as a message; parsing is not modelled.
- PassOver: requires, like CopyOverBandwidthStats, that the pass ends before the last cell of the buffer; a pass copies the same number of samples of every series, and at least one series where stamps are concerned.
- ExportedStampsDatedIff: for batches of whole buckets; for others `PassError` and `JoinedRunsAreLate` say how late samples are dated, and `BatchesUniformIff` holds as it is.
- TickRunsAreLate: likewise.
- TickSampleError: a bucket is dated by its place in the generation that hands it on; bytes carried over from the generation before are moved by the shift of `TickArithmetic` besides.
- Overlay: times are whole milliseconds, and every process has some sample and as many in one direction as in the other for each NIC; the list of process identifiers is left out.
- Merging the batches of one process across rotated files (scripts/simpleParserMsBwProtobuf.py:369-397), whose result depends on the order in which files are found.
- The functions that callbacks run, and the thread that calls them; a run is a sequence of clock readings.
- Connection identifiers, plugin tables, the container and its teardown, logging, plotting and build files.
