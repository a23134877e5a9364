# A verified model of the time-triggered packet generator

The generator sends frames at exact times. `sche.c` computes the hyperperiod of all flows and, for
every transmit queue, a table of (time, flow) slots. `tx_loop` in `talker.c` replays a queue's
table for ever on its own core, but it looks only at the order of the flows: the time of each
frame comes from a counter kept in the flow itself (`flow.c`), and all cores share those counters.
`statistic.c` counts frames and keeps running averages and maxima. `ptpclient_dpdk.c` is a PTP
slave.

This project models that code in Dafny and proves, for every configuration, run and interleaving:

* the cheap per-flow counters agree with the precomputed tables in every cycle, in every
  interleaving of the queues' loads and stores, whatever the clocks, sends and timestamps do
  (`Interleaving.TimersRefineTables`, resting on `Interleaving.NoInterference`);
* the places of all tables, replayed for ever, and the frames of all flows are in bijection
  (`Coverage`), and per-queue tables are projections of the port's table because the sort is
  stable (`Schedule.QueueTableIsProjection`);
* exactly when the transmit times of a queue never decrease (`InOrder.InOrderIffCompatible`);
* `tx_loop` stops, with a bound on the number of cycles, when sleeps last in the cycles that can
  start (`TxLoop.Talker.Run`; by `TxLoop.SomePortStops` there are such clocks for every job whose
  times stay in range); it ends at the first test at which the clock has reached the base time plus
  the run time;
* every counter of every row is the number of frames that were late, refused or accepted by the port,
  whatever the hardware stamps do (`Interleaving.FramesAccountedFor`);
* packets are conserved, averages stay within explicit distance of exact arithmetic, maxima are
  maxima, and late statistics are booked to the right frame (`Statistics`, `Interleaving`);
* the delta and jitter samples of a run are exactly those its wake-ups, frames and hardware stamps
  call for, and each software jitter is known to lie between two frames or not (`History`,
  `Interleaving.JittersInEveryRun`);
* a PTP exchange removes the clock offset up to the path asymmetry; in whole runs, with foreign
  clocks about, an adjustment does so if and only if the last Sync received was the master's Sync of
  the exchange answered, and its error is known in all cases (`PtpRuns.AdjustmentCorrects`,
  `PtpRuns.AdjustmentError`); every field the slave keeps, and when it asks and adjusts, is given in
  terms of the messages it received (`PtpRuns.SlaveTold`, `PtpRuns.AnswersAdjust`).

## How it is laid out

| file | what it holds |
|---|---|
| `Words.dfy` | 64- and 32-bit arithmetic, C's `abs` and truncating division |
| `Arithmetic.dfy` | gcd, lcm, `lcm_of_array` |
| `Sequences.dfy` | filtering and counting |
| `Flow.dfy` | flows and the flow set, as objects with timers |
| `Schedule.dfy` | what a transmit table is: a stable sort of the expanded flows |
| `Tables.dfy` | counting, filling and bubble-sorting the tables in place |
| `Coverage.dfy` | slots against frames |
| `Statistics.dfy` | statistics rows as the result of a sequence of calls, and the statistics object |
| `TxCore.dfy` | one `tx_loop` as a machine of single loads and stores |
| `History.dfy` | which samples a run takes, read off its history |
| `Outcomes.dfy` | what the readings of a run come to: counters, hardware samples, the clock |
| `Interleaving.dfy` | all loops at once |
| `InOrder.dfy` | overtaking |
| `TxLoop.dfy` | `tx_loop` as a loop over objects, tied to the machine, and its termination |
| `Launch.dfy` | from a configuration to tables and loops |
| `Engine.dfy` | nanoseconds to timer cycles |
| `Ptp.dfy` | the PTP slave: one exchange, and the slave as a machine and as an object |
| `PtpRuns.dfy` | the PTP slave over whole runs |

The machine of `TxCore` splits a frame into the accesses that other cores can come between:
reading the clock, loading a timer, storing it back, loading it again, sending. `TxLoop` has the
loop itself, over objects and arrays, and ties every part of the body, and the whole run, to steps
of that machine with the same readings.
Clock readings, send results and timestamp reads are inputs and unconstrained everywhere except in
the termination result, which needs a sleep to last.

## What the model brought out

* `inc_flow_timer` runs before the timer is read, so each frame goes out one period of its own flow
  after its table time. Flows of different periods can therefore overtake each other
  (`InOrder.OvertakingExample`: periods 1 and 3 give transmit times 1, 3, 2). With offsets below
  periods, nothing is ever overtaken exactly when any two flows of the queue have equal periods,
  or periods that differ by just their gcd, offsets that agree modulo it, and the shorter period
  configured first.
* `prev_time` of the flow that ends a table is set at the first wake-up of the run, before any frame.
  The guard on `num_pkt_total` keeps that wake-up out of the deltas but not out of the jitters. A
  jitter is measured from there exactly when that flow is woken for again and the clock did not read
  0 at the first wake-up, so in every run that starts a second cycle; all other software jitters lie
  between two frames of their flow (`History.SpuriousJitter`, `History.JittersMeasure`).
* `parse_sync` compares the sender of a Sync with itself, so a Sync of any clock overwrites the
  receive stamp, and even matching sequence numbers do not help then (`PtpRuns.KeepsLastSync`,
  `PtpRuns.AdjustmentOfOneExchange`, `PtpRuns.ForeignSyncIsTaken`).
* A Sync that arrives between a Follow_Up and its Delay_Resp mixes two exchanges
  (`PtpRuns.LaterSyncMixesExchanges`): perfectly aligned clocks are moved by half a Sync interval. With
  one master this is the only way an adjustment goes wrong (`PtpRuns.AdjustmentCorrects`).
* `abs` cuts its 64-bit argument down to an `int`: a recorded deviation is the true one exactly
  below 2^31 ns, about two seconds, or at the one value INT_MIN widens to (`Words.AbsIsMagnitude`).
* `offset >= cycle_period` is only warned about; no theorem but those on order needs offsets below
  periods. The tables need just that no time of a flow wraps within one cycle
  (`Schedule.FlowSlotsInOrder`).

## Model

| member | source | states |
|---|---|---|
| `Words.AbsIsMagnitude` | src/statistic.c:96-138 | `abs` of a wrapped 64-bit difference is the true magnitude if and only if that is below 2^31 or equals 2^64 - 2^31 |
| `Words.AbsOfLowWord` | src/statistic.c:96-138 | in general `abs` yields the magnitude of the low word read as a signed one, or INT_MIN widened |
| `Words.AbsBound` | src/statistic.c:96-138 | a sample is below 2^31 unless the truncated difference is INT_MIN |
| `Arithmetic.Bezout` | src/sche.c:49-54 | the recursive gcd divides both arguments and is an integer combination of them |
| `Arithmetic.LcmIsLeast` | src/sche.c:56-58 | dividing before multiplying gives a common multiple that divides every common multiple |
| `Arithmetic.LcmAllIsLeast` | src/sche.c:60-66 | the fold over all periods is their least common multiple |
| `Arithmetic.PrefixesFit` | src/sche.c:60-66 | no intermediate accumulator exceeds the final value, so none overflows if that fits |
| `Arithmetic.LcmOfArray` | src/sche.c:60-66 | the returned word is the least common multiple if and only if that fits in 64 bits |
| `Flows.Flow.InitTimer` | src/flow.c:106-108 | the timer becomes base plus offset as a 64-bit word |
| `Flows.Flow.IncTimer` | src/flow.c:110-112 | the timer advances by one period as a 64-bit word |
| `Flows.FlowState.constructor` | src/flow.c:120-133 | a new flow set is empty |
| `Flows.FlowState.AddFlow` | src/flow.c:142-149 | a flow is appended, or ignored when 128 are there; all others keep place and timer |
| `Flows.FlowState.InitTimers` | src/flow.c:114-118 | every flow's timer is base plus its own offset |
| `Schedule.ExpandLength` | src/sche.c:100-116 | the frames counted are the slots filled |
| `Schedule.QueueCountsAddUp` | src/sche.c:20-24 | the queues' frame counts sum to the port's when every queue index is in range |
| `Schedule.ExpandQueueIsFilter` | src/sche.c:150-163 | a queue's unsorted table is the part of the port's that lies on the queue |
| `Schedule.ExpandOfFlow` | src/sche.c:126-137 | each flow is filled in once, with its own consecutive rows |
| `Schedule.StableSortUnique` | src/sche.c:68-85 | there is only one stable sort of a table |
| `Schedule.StableSortIsPermutation` | src/sche.c:68-85 | a stable sort keeps the multiset of (time, flow) pairs |
| `Schedule.TableLength` | src/sche.c:108-116 | a finished table has exactly the counted number of slots |
| `Schedule.QueueTableIsProjection` | src/sche.c:118-168 | filtering the port's sorted table by queue gives the queue's table slot for slot |
| `Schedule.FlowSlotsInOrder` | src/sche.c:157-165 | a flow's slots are sorted into the order of its frames if and only if its times do not wrap |
| `Schedule.OccurrenceTime` | src/sche.c:157-165 | the j-th occurrence of a flow in the order stands at offset + j * period |
| `Schedule.FlowCount` | src/sche.c:150-163 | a flow has cycle / period slots in its queue's table and none in the others |
| `Tables.SwapAt` | src/sche.c:73-81 | both columns exchange the same two neighbours |
| `Tables.CompareAt` | src/sche.c:71-82 | one comparison carries the latest slot of a pass one place on and keeps the order among equal times |
| `Tables.Sort` | src/sche.c:68-85 | the in-place bubble sort over two arrays is the stable sort of their pairs |
| `Tables.ExchangeKeepsTimes` | src/sche.c:72-82 | one exchange of unequal neighbours keeps the order within every time |
| `Tables.CalculateCycle` | src/sche.c:87-98 | the cycle is the least common multiple of the periods if and only if that fits |
| `Tables.CalculateNumFrames` | src/sche.c:100-106 | the count is the sum of cycle / period as an `int` |
| `Tables.CalculateNumFramesPerQueue` | src/sche.c:108-116 | the same over the flows of one queue |
| `Tables.ScheduleState.FillFlow` | src/sche.c:157-161 | the inner loop writes exactly the flow's rows, in bounds, after what was there |
| `Tables.ScheduleState.Fill` | src/sche.c:150-163 | the fill writes every counted cell and no other |
| `Tables.ScheduleState.Init` | src/sche.c:118-168 | the finished columns are the stable sort of the expanded flows in scope |
| `Tables.CreateScheduleState` | src/sche.c:10-47 | every queue gets its table over the common hyperperiod |
| `Coverage.PlaceHoldsFrame` | src/sche.c:142-168 | c * cycle + sending_time[k] = offset + n * period for exactly the frame n that place (c, k) holds |
| `Coverage.FrameHasOnePlace` | src/sche.c:142-168 | every frame of every flow has one place and no other |
| `Coverage.FrameScheduledOnce` | src/sche.c:87-168 | exactly one place of all queues and cycles carries a flow at a given frame's time |
| `Statistics.CountersCount` | src/statistic.c:72-94 | each counter is the number of calls of its sort in the run |
| `Statistics.Conservation` | src/statistic.c:72-89 | total = (send - 1) + drop + misdl if and only if no call was flagged both missed and failed |
| `Statistics.CoreRowSums` | src/statistic.c:91-94 | the core row is the sum of the flow rows |
| `Statistics.MaximumAndAverage` | src/statistic.c:96-138 | the maximum is that of all recorded values, and no average exceeds it, even after a wrapped sum |
| `Statistics.LatestSample` | src/statistic.c:96-138 | the last field holds the latest recorded value |
| `Statistics.MaximumIsTrueMaximum` | src/statistic.c:96-138 | over runs with deviations below 2^31 the maximum is that of the true deviations |
| `Statistics.FrameCounted` | src/statistic.c:72-94 | a counting call changes the counters of the flow's row and the core row, each by what it is for, and nothing else |
| `Statistics.SwDeltaTaken` | src/statistic.c:96-105 | a software delta is abs(swtime - txtime) below 2^31; it enters that quantity of the flow's row and the core row, with its average and maximum, and nothing else |
| `Statistics.HwDeltaTaken` | src/statistic.c:108-117 | the same for abs(hwtime - txtime) |
| `Statistics.SwJitterTaken` | src/statistic.c:119-128 | a software jitter is abs(now - prev - period) below 2^31; it enters that quantity of the flow's row alone |
| `Statistics.HwJitterTaken` | src/statistic.c:130-138 | the same for hardware jitters |
| `Statistics.AverageFits` | src/statistic.c:96-138 | avg * (n - 1) + sample fits in 64 bits while n is at most 2^33 and samples are below 2^31 |
| `Statistics.AverageLag` | src/statistic.c:96-138 | every integer average is at most the exact running average and lags it by at most n - 1 |
| `Statistics.AverageDrift` | src/statistic.c:107-117 | with a stamp per send, 0 <= S - n * avg <= n * (n - 1) / 2 for the sum S of the samples |
| `Statistics.TrueDrift` | src/statistic.c:107-117 | the same for the sum of the true deviations while each is below 2^31 |
| `Statistics.StatisticCore.constructor` | src/statistic.c:10-61 | all rows start with zero counters but one for the sends |
| `Statistics.StatisticCore.UpdateNumsSt` | src/statistic.c:72-89 | one row counts the frame, all others stay |
| `Statistics.StatisticCore.UpdateNums` | src/statistic.c:91-94 | the flow's row and the core row count the frame |
| `Statistics.StatisticCore.Sample` | src/statistic.c:96-138 | one quantity of one row takes the sample, everything else stays |
| `Statistics.StatisticCore.Record` | src/statistic.c:119-149 | delta samples reach the flow's row and the core row, jitter samples the flow's row alone |
| `TxCore.LoopTest` | src/talker.c:294-294 | the loop goes on if and only if the clock is below base + runtime * 10^9 |
| `TxCore.StepCountsTimers` | src/talker.c:318-319 | each step keeps: a timer is base + offset + period times the increments so far |
| `TxCore.StepIssuesDue` | src/talker.c:294-319 | each step keeps: frame m of the run is slot k of cycle c and got the transmit time due there |
| `TxCore.StepAttributes` | src/talker.c:305-347 | each step keeps: every statistics call names the right flow, period and transmit time, and totals count finished frames |
| `TxCore.AloneKept` | src/talker.c:258-350 | the three hold in every state of a loop, for all clock, send and timestamp results |
| `History.SecondWakeCounts` | src/talker.c:305-308 | the guard on the total is open exactly when a frame has gone before |
| `History.WakeTold` | src/talker.c:296-313 | the top of the loop body keeps the account below |
| `History.SendTold` | src/talker.c:321-347 | so do the misses, failures and stamps of a frame |
| `History.AloneTold` | src/talker.c:275-350 | `prev_time` and `prev_hwtime` hold the flow's latest wake-up and latest unforgotten stamp; software deltas, software jitters and hardware jitters are exactly those the history calls for, in order |
| `History.FirstJitterFromStart` | src/talker.c:299-313 | until its first frame is followed by a wake-up, the last flow of the table remembers the launch |
| `History.SpansMeasured` | src/talker.c:310-313 | jitter spans are exactly those from a wake-up of a flow, not at clock 0, to the flow's next one |
| `History.JittersMeasure` | src/talker.c:299-313 | in every state, the recorded software jitters are those over these spans, in order; a span that does not lie between two frames of the flow starts at the first wake-up |
| `History.SpuriousJitter` | src/talker.c:299-313 | in every state, a jitter of flow f is measured from the first wake-up if and only if f ends the table, has been woken for again, and the first wake-up was not at clock 0; so always from the second cycle on |
| `History.SpuriousJitterHappens` | src/talker.c:299-313 | a run of two frames records such a jitter |
| `Outcomes.SendCounts` | src/talker.c:323-337 | a frame's turn raises send, drop or misdl of its flow's row and the core row as it was accepted, refused or late, with or without hardware stamps, and no other row |
| `Outcomes.SendSamples` | src/talker.c:338-346 | the hardware delta becomes the deviation of the stamp from the frame's transmit time if stamps are on, the frame was sent and its stamp read; otherwise it stays |
| `Outcomes.OutcomesOfIssues` | src/talker.c:315-333 | the frames whose turn is over are those issued, in order, each with the transmit time it was issued |
| `Outcomes.CountersOfRun` | src/talker.c:294-349 | in every state each counter of each row is the number of frames with that outcome |
| `Outcomes.HwDeltasOfRun` | src/talker.c:338-346 | the hardware deltas of a run are those of its stamped frames, in order |
| `Outcomes.HwJittersOfRun` | src/talker.c:326-346 | in every state, the hardware jitters are those from a stamped frame to the next stamped one of its flow, unless a frame of the flow was lost in between or the first stamp was 0 |
| `Outcomes.WakesOfRun` | src/talker.c:296-313 | the wake-ups are the clock readings at the top of the body, in order |
| `Outcomes.ClockOfRun` | src/talker.c:273-329 | `current_time` is the latest clock reading: at the launch, at a wake-up, or before a frame that was not late |
| `Interleaving.StepIsLocal` | src/talker.c:315-319 | a core's step depends on the timers of its own queue's flows only |
| `Interleaving.StepIsFramed` | src/talker.c:315-319 | and leaves the other queues' timers alone |
| `Interleaving.NoInterference` | src/talker.c:485-509 | in every interleaving each core does exactly what it would do alone |
| `Interleaving.SamplesToldByHistory` | src/talker.c:258-350 | the account of samples holds in every reachable state of every interleaving |
| `Interleaving.JittersInEveryRun` | src/talker.c:299-313 | what the software jitters measure, in every reachable state of every interleaving |
| `Interleaving.LateUpdatesAttributed` | src/talker.c:299-313 | a jitter update finds `flow` at the previous frame's flow, a delta update finds its timer in `txtime` |
| `Interleaving.DueIsTableTime` | src/talker.c:318-319 | counted increments equal the table time, c cycles later, plus one period |
| `Interleaving.TimersRefineTables` | src/talker.c:294-349 | txtime = base + c * cycle + sending_time[k] + period(order[k]) in every reachable state of every interleaving |
| `Interleaving.PacketsConserved` | src/talker.c:323-347 | conservation in every row and the sum in the core row, in every reachable state |
| `Interleaving.FramesAccountedFor` | src/talker.c:323-349 | counters, hardware deltas and hardware jitters are those of the frames' outcomes in every interleaving |
| `Interleaving.TotalsAfterCycles` | src/talker.c:294-349 | after N cycles a flow's total is N * cycle / period on its queue and 0 elsewhere |
| `Interleaving.RunDrift` | src/talker.c:336-339 | the drift bound for every row of every run in which stamps are read |
| `Interleaving.RunTrueDrift` | src/talker.c:336-339 | the same for the sum of the true deviations while each is below 2^31 |
| `InOrder.TableTies` | src/sche.c:142-168 | slots of equal time stand in configuration order |
| `InOrder.InOrderIffCompatible` | src/talker.c:295-319 | transmit times never decrease over the whole run if and only if the queue's flows are pairwise compatible |
| `InOrder.CommonPeriodNeverOvertakes` | src/talker.c:295-319 | a common period is such a case |
| `InOrder.IssuedInOrder` | src/talker.c:294-349 | then the times issued in any interleaving never decrease |
| `InOrder.OvertakingExample` | src/talker.c:318-319 | a scheduled system with periods 1 and 3 issues time 3 before time 2 |
| `TxLoop.LastDue` | src/talker.c:295-319 | the last slot of a cycle is due at the next cycle's start plus its flow's offset |
| `TxLoop.FrameCatchesUp` | src/talker.c:321-329 | after a frame, sent or missed, the core's clock has reached the wake-up time |
| `TxLoop.LatenessOfWords` | src/talker.c:321-325 | the two comparisons for any words, with transmit times below delta and deadlines that wrap |
| `TxLoop.MissedWhenLate` | src/talker.c:321-327 | a frame is counted as missed if and only if the wake-up came more than 1 ms after its wake-up time |
| `TxLoop.CycleBound` | src/talker.c:294-294 | the loop goes on only while the deadline is ahead |
| `TxLoop.SomePortStops` | src/talker.c:294-332 | for every job whose times are in range there are clocks, sends and a number of cycles that meet all assumptions of `Run` |
| `TxLoop.Talker.LateStatistics` | src/talker.c:305-312 | the late calls are exactly those of the machine's step |
| `TxLoop.Talker.WakeUp` | src/talker.c:296-316 | the top of the loop body is one step of the machine |
| `TxLoop.Talker.Bump` | src/talker.c:318-319 | increment and read back are the next three; flows of other queues stay as they are |
| `TxLoop.Talker.FrameStatistics` | src/talker.c:333-347 | the calls for a frame handed over are exactly those of the machine's step |
| `TxLoop.Talker.SendFrame` | src/talker.c:321-347 | the rest of the body is the last step |
| `TxLoop.Talker.Run` | src/talker.c:294-349 | if sleeps last in all cycles that can start, the loop stops within any number of cycles that reaches runtime plus the last flow's delta, at the first test that finds the clock at base + runtime * 10^9 or later, in the state the machine reaches with the same readings |
| `Launch.Prepare` | src/talker.c:447-449 | the computed schedules are such that all theorems on interleavings apply |
| `Launch.PrepareBelowPeriods` | src/talker.c:447-449 | offsets below the periods are enough for that |
| `Launch.LaunchQueue` | src/talker.c:485-509 | a queue without frames gets no loop, any other one starts in the machine's initial state, whatever the loops launched before have done to their own flows' timers |
| `Engine.SleepCycles` | src/engine_dpdk.c:359-368 | exactly floor(ns * hz / 10^9) cycles, as a word, whenever hz * 10^9 fits in 64 bits |
| `Ptp.CombinedDifference` | src/ptpclient_dpdk.c:57-62 | the unsigned differences combine to 2 * offset + d_ms - d_sm modulo 2^64 |
| `Ptp.CorrectionExact` | src/ptpclient_dpdk.c:62-62 | the signed reading is the true difference if and only if that is in the 64-bit signed range |
| `Ptp.ToNsReads` | src/ptpclient_dpdk.c:19-22 | a stamp is seconds * 10^9 plus nanoseconds as a word |
| `Ptp.StampCarries` | src/ptpclient_dpdk.c:19-22 | exactly that in range; 10^9 nanoseconds more and one second more are the same instant |
| `Ptp.ExchangeCorrects` | src/ptpclient_dpdk.c:49-65 | twice the corrected offset plus the asymmetry is at most 1 in magnitude |
| `Ptp.ExchangeCorrectsSeconds` | src/ptpclient_dpdk.c:49-65 | the same from the seconds and nanoseconds of the four stamps |
| `Ptp.ErrorOfGap` | src/ptpclient_dpdk.c:49-65 | with t2 off its exchange by a gap, twice the offset left is the negated asymmetry less the gap, up to the rounding of an odd difference |
| `Ptp.CorrectionIsStable` | src/ptpclient_dpdk.c:49-65 | a second exchange over the same paths corrects nothing |
| `PtpRuns.SlaveTold` | src/ptpclient_dpdk.c:67-264 | in any run, every field of the slave in terms of the messages: first Sync, last Sync, last readable Sync, last Follow_Up of the master, last one that led to a request, last fitting answer |
| `PtpRuns.RequestsExactly` | src/ptpclient_dpdk.c:105-199 | a request is sent for a Follow_Up of the master that names the last Sync and can be sent, and for nothing else |
| `PtpRuns.AdjustsExactly` | src/ptpclient_dpdk.c:202-231 | in any run, the clock is adjusted for an answer to the clock that asked with the number of the master's last Follow_Up, and for nothing else |
| `PtpRuns.AnswersAdjust` | src/ptpclient_dpdk.c:202-231 | in honest runs, every answer to this slave for the master's last Follow_Up sets t4 and the correction from the four stamps; any other Delay_Resp changes nothing |
| `PtpRuns.KeepsLastSync` | src/ptpclient_dpdk.c:81-87 | in any run, tstamp2 is the receive stamp of the last readable Sync, whoever sent it |
| `PtpRuns.AlwaysMatched` | src/ptpclient_dpdk.c:67-264 | in every reachable state, t1 and t3 are those of the exchange seqID_FOLLOWUP names; with one master, t2 is that of the exchange seqID_SYNC names |
| `PtpRuns.AdjustmentsMatch` | src/ptpclient_dpdk.c:202-231 | every adjustment uses t1, t3, t4 of seqID_FOLLOWUP and the stamp of the last readable Sync, with one master t2 of seqID_SYNC |
| `PtpRuns.AdjustmentOfOneExchange` | src/ptpclient_dpdk.c:67-231 | an adjustment uses four stamps of one exchange of the master if and only if the last readable Sync was the master's Sync of that exchange |
| `PtpRuns.AdjustmentError` | src/ptpclient_dpdk.c:49-231 | the exact error an adjustment leaves, for any gap between the stamp kept and the true t2 |
| `PtpRuns.AdjustmentCorrects` | src/ptpclient_dpdk.c:49-231 | the offset is removed up to the asymmetry if and only if the last readable Sync was the master's Sync of the exchange answered; with one master, if and only if seqID_SYNC still names it |
| `PtpRuns.LaterSyncMixesExchanges` | src/ptpclient_dpdk.c:67-88 | such an error is reached with one master: for every Sync interval, a later Sync moves perfect clocks by half of it |
| `PtpRuns.ForeignSyncIsTaken` | src/ptpclient_dpdk.c:81-87 | and by a Sync of any foreign clock, although all sequence numbers match |
| `Ptp.PtpData.ParseSync` | src/ptpclient_dpdk.c:67-88 | the object follows the machine on a Sync |
| `Ptp.PtpData.ParseFup` | src/ptpclient_dpdk.c:90-200 | the object follows the machine on a Follow_Up |
| `Ptp.PtpData.PollStamp` | src/ptpclient_dpdk.c:188-198 | polling yields the first stamp readable in 1001 attempts, or none if there is none |
| `Ptp.PtpData.ParseDrsp` | src/ptpclient_dpdk.c:202-231 | the object follows the machine on a Delay_Resp |

## Left out

- The four packet counters are unbounded numbers: their wrap after 2^64 frames, at which the divisor `num_pkt_send` would become 0, is not modelled.
- `abs(INT_MIN)` is undefined in C; the model takes the two's complement result.
- Ptp.DeltaEval: negating the signed difference is undefined in C when that is exactly -2^63; the model then gives 2^62.
- Flows.FlowState.AddFlow: asks for a flow that is not in the set yet, as every caller passes a freshly created one; a flow entered twice would share one timer.
- Tables.CreateScheduleState: asks for a hyperperiod that fits in 64 bits and frame counts that fit in an `int`, since the allocations before the fill rely on both.
- InOrder.InOrderIffCompatible: asks for offsets below periods; with larger offsets the loop does not go by time across cycle boundaries.
- TxLoop.Talker.Run: asks for times within the 64-bit range over the run and, in the cycles that can still start, for a clock that does not run backwards within a frame and for sleeps that last; all other results hold for arbitrary readings.
- A load or a store of one timer is a single step, and a core's accesses happen in program order; weaker memory orders are not modelled.
- TxLoop works on one core's loop alone; other cores come in through the machine of `TxCore` and `Interleaving.NoInterference`.
- The four sampling functions of `statistic.c` are one method with the quantity as a parameter; queue and flow numbers, rates and utilisation in a row are not kept.
- The busy wait of `sleep` after the conversion: only its effect on the next clock reading is modelled.
- Port and queue setup, packet contents, buffers, bursts, timestamp and clock reads: their results are inputs.
- Command line, configuration file, printing, memory exhaustion and freeing.
- PtpRuns.AlwaysMatched: sequence numbers do not wrap around; after 2^16 exchanges two of them share a number.
- In the PTP client, packet layout and byte order, MAC addresses beyond the clock id, and a failing packet allocation.
- `listener.c` and `utility.c`, and the unused `ns_to_timeval` and `timespec_less`.
