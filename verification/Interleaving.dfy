/**
 * All queues' `tx_loop`s at once, over one shared flow set: any interleaving of their loads,
 * stores and local steps.
 */
module Interleaving {
  import opened Words
  import opened Sequences
  import opened Flows
  import opened Schedule
  import opened Statistics
  import opened TxCore
  import opened Wrappers
  import opened Coverage
  import History
  import Outcomes

  /** What `main` launches: one loop per queue, over one flow set. */
  datatype System = System(cfg: seq<FlowSpec>, orders: seq<seq<nat>>, base: u64, runtime: u64, hw: bool)

  datatype World = World(cores: seq<Core>, timers: seq<u64>)

  /** Core `core` takes its next step and finds the given readings. */
  datatype Event = Event(core: nat, reading: Reading)

  function JobOf(sys: System, q: nat): Job
    requires q < |sys.orders|
  {
    Job(sys.cfg, sys.orders[q], sys.base, sys.runtime, sys.hw)
  }

  /** Each queue's order lists flows of that queue only. */
  ghost predicate Separate(sys: System) {
    forall q, k | 0 <= q < |sys.orders| && 0 <= k < |sys.orders[q]| ::
      sys.orders[q][k] < |sys.cfg| && sys.cfg[sys.orders[q][k]].queue == q
  }

  ghost predicate Coherent(sys: System, w: World) {
    && Separate(sys)
    && |w.cores| == |sys.orders|
    && |w.timers| == |sys.cfg|
    && forall q | 0 <= q < |w.cores| :: Sane(JobOf(sys, q), w.cores[q])
  }

  ghost function Boot(sys: System, starts: seq<u64>): (w: World)
    requires Separate(sys) && |starts| == |sys.orders|
    ensures Coherent(sys, w)
  {
    World(seq(|starts|, q requires 0 <= q < |starts| => Start(JobOf(sys, q), starts[q])),
          InitialTimers(sys.cfg, sys.base))
  }

  ghost function Act(sys: System, w: World, e: Event): (w': World)
    requires Coherent(sys, w)
    ensures Coherent(sys, w')
  {
    if e.core >= |w.cores| then w
    else
      var v := Step(JobOf(sys, e.core), View(w.cores[e.core], w.timers), e.reading);
      World(w.cores[e.core := v.core], v.timers)
  }

  ghost function Run(sys: System, w: World, events: seq<Event>): (w': World)
    requires Coherent(sys, w)
    ensures Coherent(sys, w')
  {
    if |events| == 0 then w else Act(sys, Run(sys, w, Front(events)), Last(events))
  }

  /** The readings one core finds in an interleaving. */
  function ReadingsOf(events: seq<Event>, q: nat): seq<Reading> {
    if |events| == 0 then []
    else if Last(events).core == q then ReadingsOf(Front(events), q) + [Last(events).reading]
    else ReadingsOf(Front(events), q)
  }

  /** Core q after an interleaving from the launch on. */
  ghost function CoreAfter(sys: System, starts: seq<u64>, events: seq<Event>, q: nat): (core: Core)
    requires Separate(sys) && |starts| == |sys.orders| && q < |sys.orders|
    ensures Sane(JobOf(sys, q), core)
  {
    Run(sys, Boot(sys, starts), events).cores[q]
  }

  // ---------- Non-interference ----------

  ghost predicate AgreeOn(sys: System, q: nat, s: seq<u64>, t: seq<u64>) {
    |s| == |t| == |sys.cfg| && forall i | 0 <= i < |s| && sys.cfg[i].queue == q :: s[i] == t[i]
  }

  /** A core's step depends on the timers of its own queue's flows only. */
  lemma StepIsLocal(sys: System, q: nat, core: Core, s: seq<u64>, t: seq<u64>, r: Reading)
    requires Separate(sys) && q < |sys.orders| && Sane(JobOf(sys, q), core) && AgreeOn(sys, q, s, t)
    ensures var v, w := Step(JobOf(sys, q), View(core, s), r), Step(JobOf(sys, q), View(core, t), r);
            v.core == w.core && AgreeOn(sys, q, v.timers, w.timers)
  {
  }

  /** A core's step leaves the timers of the other queues' flows alone. */
  lemma StepIsFramed(sys: System, q: nat, p: nat, v: View, r: Reading)
    requires Separate(sys) && q < |sys.orders| && p != q && Fits(JobOf(sys, q), v)
    ensures AgreeOn(sys, p, v.timers, Step(JobOf(sys, q), v, r).timers)
  {
  }

  /** In every interleaving a core does exactly what it would do alone with the same readings. */
  lemma {:induction false} NoInterference(sys: System, starts: seq<u64>, events: seq<Event>, q: nat)
    requires Separate(sys) && |starts| == |sys.orders| && q < |sys.orders|
    ensures var w := Run(sys, Boot(sys, starts), events);
            var v := Alone(JobOf(sys, q), Launched(JobOf(sys, q), starts[q]), ReadingsOf(events, q));
            w.cores[q] == v.core && AgreeOn(sys, q, w.timers, v.timers)
  {
    if |events| > 0 {
      var before, e, job := Front(events), Last(events), JobOf(sys, q);
      NoInterference(sys, starts, before, q);
      var w := Run(sys, Boot(sys, starts), before);
      var v := Alone(job, Launched(job, starts[q]), ReadingsOf(before, q));
      if e.core == q {
        assert Front(ReadingsOf(events, q)) == ReadingsOf(before, q);
        StepIsLocal(sys, q, v.core, w.timers, v.timers, e.reading);
      } else if e.core < |w.cores| {
        StepIsFramed(sys, e.core, q, View(w.cores[e.core], w.timers), e.reading);
      }
    }
  }

  /**
   * Hence everything a core keeps alone it keeps in every interleaving. In particular the late
   * updates find the previous frame's transmit time, which is still its flow's timer.
   */
  lemma CoreKept(sys: System, starts: seq<u64>, events: seq<Event>, q: nat)
    requires Separate(sys) && |starts| == |sys.orders| && q < |sys.orders|
    ensures var core, job := CoreAfter(sys, starts, events, q), JobOf(sys, q);
            && IssuesDue(job, core)
            && CallsAttributed(job, core)
            && (core.pc in {Test, Wake} && !First(core) ==>
                  core.txtime == Run(sys, Boot(sys, starts), events).timers[Previous(job, core.slot)])
  {
    NoInterference(sys, starts, events, q);
    AloneKept(JobOf(sys, q), starts[q], ReadingsOf(events, q));
  }

  /** And its samples are exactly those its history of wake-ups, frames and stamps calls for. */
  lemma SamplesToldByHistory(sys: System, starts: seq<u64>, events: seq<Event>, q: nat)
    requires Separate(sys) && |starts| == |sys.orders| && q < |sys.orders|
    ensures History.Told(JobOf(sys, q), CoreAfter(sys, starts, events, q))
  {
    NoInterference(sys, starts, events, q);
    History.AloneTold(JobOf(sys, q), starts[q], ReadingsOf(events, q));
  }

  /**
   * The software jitters a queue's core has recorded are those over the measured spans. One of
   * them is measured from the launch exactly when the last flow of the queue's table has been woken
   * for again, the first wake-up not being at clock 0; all others lie between two frames of a flow.
   */
  lemma JittersInEveryRun(sys: System, starts: seq<u64>, events: seq<Event>, q: nat, core: Core, f: nat)
    requires Separate(sys) && |starts| == |sys.orders| && q < |sys.orders| && sys.orders[q] != []
    requires core == CoreAfter(sys, starts, events, q)
    ensures History.Booked(JobOf(sys, q), core.wakes)
    ensures var spans := History.Spans(core.wakes);
            && History.TakenOver(JobOf(sys, q), core.wakes, Filter(core.log, History.IsSwJitter()), spans)
            && forall i | 0 <= i < |spans| :: History.FromLaunch(core, i) <==> !History.BetweenFrames(core, spans[i])
    ensures History.Spurious(core, f) <==> f == Last(sys.orders[q]) && History.WokenAgain(core.wakes, f)
  {
    NoInterference(sys, starts, events, q);
    History.JittersMeasure(JobOf(sys, q), starts[q], ReadingsOf(events, q), core);
    History.SpuriousJitter(JobOf(sys, q), starts[q], ReadingsOf(events, q), core, f);
  }

  /**
   * Late attribution: when a loop is about to update the statistics of the previous frame, the
   * jitter update finds `flow` pointing to that frame's flow, and the delta update finds in
   * `txtime` what the shared timer of that flow still holds.
   */
  lemma LateUpdatesAttributed(sys: System, starts: seq<u64>, events: seq<Event>, q: nat, core: Core, prev: nat)
    requires Separate(sys) && |starts| == |sys.orders| && q < |sys.orders|
    requires core == CoreAfter(sys, starts, events, q) && core.pc.Wake? && prev == Previous(JobOf(sys, q), core.slot)
    ensures core.prevTime[prev] != 0 ==> core.flow == Some(prev)
    ensures RowAfter(|sys.cfg|, core.log, prev).total != 0 ==>
              core.txtime == Run(sys, Boot(sys, starts), events).timers[prev]
  {
    CoreKept(sys, starts, events, q);
    assert First(core) ==> core.log == [];
  }

  // ---------- The timers refine the tables ----------

  /** The system runs the tables of its own configuration. */
  ghost predicate Scheduled(sys: System, cycle: u64, tables: seq<seq<Entry>>) {
    && PortTables(sys.cfg, cycle, tables)
    && |tables| == |sys.orders|
    && forall q | 0 <= q < |tables| :: sys.orders[q] == Order(tables[q])
  }

  lemma ScheduledIsSeparate(sys: System, cycle: u64, tables: seq<seq<Entry>>)
    requires Scheduled(sys, cycle, tables)
    ensures Separate(sys)
  {
    forall q, k | 0 <= q < |sys.orders| && 0 <= k < |sys.orders[q]|
      ensures sys.orders[q][k] < |sys.cfg| && sys.cfg[sys.orders[q][k]].queue == q
    {
      TableFlowsInScope(tables[q], sys.cfg, cycle, Queue(q), k);
    }
  }

  /** Counting increments comes to the table time, a whole number of cycles later, plus one period. */
  lemma DueIsTableTime(sys: System, cycle: u64, tables: seq<seq<Entry>>, q: nat, c: nat, k: nat)
    requires Scheduled(sys, cycle, tables) && Separate(sys) && q < |tables| && k < |tables[q]|
    ensures Due(JobOf(sys, q), c, k) ==
            sys.base + c * cycle + tables[q][k].time + sys.cfg[tables[q][k].flow].period
  {
    var p := Place(q, c, k);
    PlaceHoldsFrame(sys.cfg, cycle, tables, p);
    DueIsFrameTime(sys, tables, p);
    NextProduct(FrameAt(tables, p), sys.cfg[FlowAt(tables, p)].period);
  }

  lemma DueIsFrameTime(sys: System, tables: seq<seq<Entry>>, p: Place)
    requires Separate(sys) && |tables| == |sys.orders| && IsPlace(tables, p)
    requires sys.orders[p.queue] == Order(tables[p.queue])
    ensures Due(JobOf(sys, p.queue), p.cycle, p.slot) ==
            sys.base + sys.cfg[FlowAt(tables, p)].offset +
            (FrameAt(tables, p) + 1) * sys.cfg[FlowAt(tables, p)].period
  {
  }

  /**
   * In every reachable state of every interleaving, whatever the clocks, sends and timestamps
   * did: the m-th frame a queue's loop issued is slot k of cycle c with m = c * K + k, it is the
   * flow the table names, and its transmit time, computed from the flow's own counter, is
   * base + c * cycle + sending_time[k] + period, as a 64-bit word.
   */
  lemma TimersRefineTables(sys: System, cycle: u64, tables: seq<seq<Entry>>, starts: seq<u64>,
                           events: seq<Event>, q: nat, m: nat)
    requires Scheduled(sys, cycle, tables) && Separate(sys) && |starts| == |sys.orders| && q < |tables|
    requires m < |CoreAfter(sys, starts, events, q).issued|
    ensures var e := CoreAfter(sys, starts, events, q).issued[m];
            && e.slot < |tables[q]|
            && m == e.cycle * |tables[q]| + e.slot
            && e.flow == tables[q][e.slot].flow
            && e.txtime == Wrap(sys.base + e.cycle * cycle + tables[q][e.slot].time + sys.cfg[e.flow].period)
  {
    var e := CoreAfter(sys, starts, events, q).issued[m];
    assert IssueDue(JobOf(sys, q), e, m) by {
      CoreKept(sys, starts, events, q);
    }
    DueIsTableTime(sys, cycle, tables, q, e.cycle, e.slot);
  }

  // ---------- Statistics over whole runs ----------

  /** No call flags a frame twice or names a flow that does not exist. */
  lemma CallsClean(sys: System, starts: seq<u64>, events: seq<Event>, q: nat, op: Op)
    requires Separate(sys) && |starts| == |sys.orders| && q < |sys.orders|
    requires op in CoreAfter(sys, starts, events, q).log
    ensures op.flow < |sys.cfg| && (op.Nums? ==> !(op.missed && op.failed))
  {
    CoreKept(sys, starts, events, q);
    assert CallOk(JobOf(sys, q), CoreAfter(sys, starts, events, q), op);
  }

  /**
   * Packets are conserved in every flow row and in the core row, and the core row is the sum of
   * the flow rows.
   */
  lemma PacketsConserved(sys: System, starts: seq<u64>, events: seq<Event>, q: nat, row: nat, log: seq<Op>)
    requires Separate(sys) && |starts| == |sys.orders| && q < |sys.orders|
    requires log == CoreAfter(sys, starts, events, q).log
    ensures var r := RowAfter(|sys.cfg|, log, row);
            r.total == (r.send - 1) + r.drop + r.misdl
    ensures var core := RowAfter(|sys.cfg|, log, |sys.cfg|);
            Totals(|sys.cfg|, log, |sys.cfg|) == (core.total, core.send - 1, core.drop, core.misdl)
  {
    forall op | op in log
      ensures op.flow < |sys.cfg| && !Contradictory(row, |sys.cfg|)(op)
    {
      CallsClean(sys, starts, events, q, op);
    }
    Conservation(|sys.cfg|, log, row);
    CoreRowSums(|sys.cfg|, log);
  }

  /**
   * In every interleaving the counters of a queue's core are the numbers of its frames that were
   * late, refused and accepted; its hardware deltas are those of its stamped frames, in order.
   */
  lemma FramesAccountedFor(sys: System, starts: seq<u64>, events: seq<Event>, q: nat, row: nat, log: seq<Op>,
                           os: seq<Outcomes.Outcome>)
    requires Separate(sys) && |starts| == |sys.orders| && q < |sys.orders|
    requires log == CoreAfter(sys, starts, events, q).log
    requires os == Outcomes.OutcomesOf(JobOf(sys, q), Launched(JobOf(sys, q), starts[q]), ReadingsOf(events, q))
    ensures var n, r := |sys.cfg|, RowAfter(|sys.cfg|, log, row);
            && r.total == |Filter(os, Outcomes.Any(row, n))|
            && r.misdl == |Filter(os, Outcomes.Late(row, n))|
            && r.drop == |Filter(os, Outcomes.Refused(row, n))|
            && r.send == 1 + |Filter(os, Outcomes.Accepted(row, n))|
    ensures Filter(log, Outcomes.IsTimeHw()) == Outcomes.HwDeltas(sys.hw, os)
    ensures Outcomes.HwTold(JobOf(sys, q), CoreAfter(sys, starts, events, q), os)
    ensures Outcomes.FromIssues(CoreAfter(sys, starts, events, q), os)
  {
    NoInterference(sys, starts, events, q);
    Outcomes.CountersOfRun(JobOf(sys, q), starts[q], ReadingsOf(events, q), row);
    Outcomes.OutcomesOfIssues(JobOf(sys, q), starts[q], ReadingsOf(events, q));
    Outcomes.HwJittersOfRun(JobOf(sys, q), starts[q], ReadingsOf(events, q));
    Outcomes.HwDeltasOfRun(JobOf(sys, q), starts[q], ReadingsOf(events, q));
  }

  /**
   * After N whole cycles a queue's core has counted N * cycle / period frames of each of its flows,
   * and none of the others.
   */
  lemma TotalsAfterCycles(sys: System, cycle: u64, tables: seq<seq<Entry>>, starts: seq<u64>,
                          events: seq<Event>, q: nat, i: nat)
    requires Scheduled(sys, cycle, tables) && Separate(sys) && |starts| == |sys.orders| && q < |tables|
    requires i < |sys.cfg|
    requires CoreAfter(sys, starts, events, q).slot == 0
    requires CoreAfter(sys, starts, events, q).pc in {Test, Wake, Done}
    ensures var core := CoreAfter(sys, starts, events, q);
            RowAfter(|sys.cfg|, core.log, i).total * sys.cfg[i].period ==
            if sys.cfg[i].queue == q then core.cycle * cycle else 0
  {
    CoreKept(sys, starts, events, q);
    var core, job := CoreAfter(sys, starts, events, q), JobOf(sys, q);
    assert RowOf(job, core, i).total == Finished(job, core, i);
    FinishedCycles(sys, cycle, tables, q, core, i);
  }

  lemma FinishedCycles(sys: System, cycle: u64, tables: seq<seq<Entry>>, q: nat, core: Core, i: nat)
    requires Scheduled(sys, cycle, tables) && Separate(sys) && q < |tables| && i < |sys.cfg|
    requires Sane(JobOf(sys, q), core) && core.slot == 0
    ensures Finished(JobOf(sys, q), core, i) * sys.cfg[i].period ==
            if sys.cfg[i].queue == q then core.cycle * cycle else 0
  {
    var job := JobOf(sys, q);
    assert job.order[..0] == [];
    FlowCount(tables[q], sys.cfg, cycle, Queue(q), i);
    WholePeriods(sys.cfg, cycle, i);
    if sys.cfg[i].queue == q {
      FrameTime(core.cycle, FramesPerCycle(sys.cfg[i], cycle), 0, sys.cfg[i].period, cycle);
    }
  }

  /** Every send that succeeds has its timestamp read. */
  ghost predicate AllStamped(readings: seq<Reading>) {
    forall k | 0 <= k < |readings| && readings[k].sent :: readings[k].stamp.Some?
  }

  /** With hardware stamps on and always read, each successful send is followed by its sample. */
  lemma {:induction false} RunStampsEverySend(job: Job, v: View, readings: seq<Reading>, row: nat)
    requires Fits(job, v) && job.hw && AllStamped(readings) && StampPerSend(|job.cfg|, v.core.log, row)
    ensures StampPerSend(|job.cfg|, Alone(job, v, readings).core.log, row)
  {
    if |readings| > 0 {
      RunStampsEverySend(job, v, Front(readings), row);
      StepStamps(job, Alone(job, v, Front(readings)), Last(readings), row);
    }
  }

  lemma StepStamps(job: Job, v: View, r: Reading, row: nat)
    requires Fits(job, v) && job.hw && (r.sent ==> r.stamp.Some?) && StampPerSend(|job.cfg|, v.core.log, row)
    ensures StampPerSend(|job.cfg|, Step(job, v, r).core.log, row)
  {
    var w := Step(job, v, r);
    if v.core.pc.Wake? {
      assert w.core == AfterWake(job, v.core, r);
      LateStamps(job, v.core, r, row);
    } else if v.core.pc.Send? {
      assert w.core == AfterSend(job, v.core, r);
      FrameStamps(job, v.core, r, row);
    } else {
      assert w.core.log == v.core.log;
    }
  }

  lemma LateStamps(job: Job, core: Core, r: Reading, row: nat)
    requires Sane(job, core) && core.pc.Wake? && StampPerSend(|job.cfg|, core.log, row)
    ensures StampPerSend(|job.cfg|, AfterWake(job, core, r).log, row)
  {
    AppendUnrelated(|job.cfg|, core.log, LateOps(job, core, r.clock), row);
  }

  lemma FrameStamps(job: Job, core: Core, r: Reading, row: nat)
    requires Sane(job, core) && core.pc.Send?
    requires job.hw && (r.sent ==> r.stamp.Some?) && StampPerSend(|job.cfg|, core.log, row)
    ensures StampPerSend(|job.cfg|, AfterSend(job, core, r).log, row)
  {
    AppendFrame(|job.cfg|, core.log, FrameOps(job, core, r), row);
  }

  /** The calls of one frame: a frame not sent, or a send, its stamp and perhaps a jitter sample. */
  lemma AppendFrame(numFlows: nat, log: seq<Op>, ops: seq<Op>, row: nat)
    requires StampPerSend(numFlows, log, row)
    requires |ops| > 0 && ops[0].Nums?
    requires ops[0].missed || ops[0].failed ==> |ops| == 1
    requires !ops[0].missed && !ops[0].failed ==> |ops| > 1 && ops[1].TimeHw? && ops[1].flow == ops[0].flow
    requires forall k | 2 <= k < |ops| :: ops[k].HwJitter?
    ensures StampPerSend(numFlows, log + ops, row)
  {
    if |ops| == 1 {
      AppendUnrelated(numFlows, log, ops, row);
    } else {
      AppendStamped(numFlows, log, ops[0], ops[1], row);
      assert log + ops == (log + [ops[0], ops[1]]) + ops[2..];
      AppendUnrelated(numFlows, log + [ops[0], ops[1]], ops[2..], row);
    }
  }

  lemma {:induction false} AppendUnrelated(numFlows: nat, log: seq<Op>, more: seq<Op>, row: nat)
    requires StampPerSend(numFlows, log, row)
    requires forall k | 0 <= k < |more| ::
               !Samples(more[k], DeltaHw, row, numFlows) && !Sent(row, numFlows)(more[k])
    ensures StampPerSend(numFlows, log + more, row)
  {
    if |more| == 0 {
      assert log + more == log;
    } else {
      AppendUnrelated(numFlows, log, Front(more), row);
      assert Front(log + more) == log + Front(more);
      assert Last(log + more) == more[|more| - 1];
    }
  }

  lemma AppendStamped(numFlows: nat, log: seq<Op>, sent: Op, stamp: Op, row: nat)
    requires StampPerSend(numFlows, log, row)
    requires sent.Nums? && !sent.missed && !sent.failed && stamp.TimeHw? && stamp.flow == sent.flow
    ensures StampPerSend(numFlows, log + [sent, stamp], row)
  {
    var all := log + [sent, stamp];
    assert all[..|all| - 2] == log;
    assert Front(all) == log + [sent] && Front(Front(all)) == log;
  }

  lemma RunStamped(sys: System, starts: seq<u64>, events: seq<Event>, q: nat, row: nat, log: seq<Op>)
    requires Separate(sys) && |starts| == |sys.orders| && q < |sys.orders|
    requires sys.hw && AllStamped(ReadingsOf(events, q)) && log == CoreAfter(sys, starts, events, q).log
    ensures StampPerSend(|sys.cfg|, log, row)
  {
    NoInterference(sys, starts, events, q);
    RunStampsEverySend(JobOf(sys, q), Launched(JobOf(sys, q), starts[q]), ReadingsOf(events, q), row);
  }

  /**
   * The drift bound of the hardware average, for every row of a core in every interleaving in which
   * all stamps are read.
   */
  lemma RunDrift(sys: System, starts: seq<u64>, events: seq<Event>, q: nat, row: nat, log: seq<Op>, r: Row)
    requires Separate(sys) && |starts| == |sys.orders| && q < |sys.orders|
    requires sys.hw && AllStamped(ReadingsOf(events, q))
    requires log == CoreAfter(sys, starts, events, q).log && r == RowAfter(|sys.cfg|, log, row)
    requires r.send <= 0x2_0000_0000 && r.deltaHw.max < TWO31
    ensures DriftBounded(SumOfHw(|sys.cfg|, log, row), r)
  {
    RunStamped(sys, starts, events, q, row, log);
    AverageDrift(|sys.cfg|, log, row);
  }

  /** The same for the sum of the true deviations |hwtime - txtime|, as long as each is below 2^31 ns. */
  lemma RunTrueDrift(sys: System, starts: seq<u64>, events: seq<Event>, q: nat, row: nat, log: seq<Op>, r: Row)
    requires Separate(sys) && |starts| == |sys.orders| && q < |sys.orders|
    requires sys.hw && AllStamped(ReadingsOf(events, q))
    requires log == CoreAfter(sys, starts, events, q).log && r == RowAfter(|sys.cfg|, log, row)
    requires r.send <= 0x2_0000_0000 && forall d | d in TrueDeviations(|sys.cfg|, log, row, DeltaHw) :: d < TWO31
    ensures DriftBounded(TrueSumOfHw(|sys.cfg|, log, row), r)
  {
    RunStamped(sys, starts, events, q, row, log);
    TrueDrift(|sys.cfg|, log, row);
  }
}
