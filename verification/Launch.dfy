/** The part of `main` in talker.c that turns a configuration into running loops. */
module Launch {
  import opened Words
  import opened Arithmetic
  import opened Sequences
  import opened Flows
  import opened Schedule
  import opened Statistics
  import opened TxCore
  import opened Coverage
  import opened Interleaving
  import opened InOrder
  import Tables
  import TxLoop

  /** With every offset below its flow's period no sending time wraps. */
  lemma OffsetsFit(cfg: seq<FlowSpec>, cycle: u64)
    requires PositivePeriods(cfg) && IsLeastCommonMultiple(cycle, Tables.Periods(cfg)) && OffsetsBelowPeriods(cfg)
    ensures TimesFit(cfg, cycle)
  {
    forall i | 0 <= i < |cfg|
      ensures RowsFit(cfg[i], cycle)
    {
      WholePeriods(cfg, cycle, i);
      NextProduct(FramesPerCycle(cfg[i], cycle) - 1, cfg[i].period);
    }
  }

  lemma TableIsPeriodic(t: seq<Entry>, cfg: seq<FlowSpec>, cycle: u64, q: int, job: Job)
    requires PositivePeriods(cfg) && IsLeastCommonMultiple(cycle, Tables.Periods(cfg))
    requires IsTable(t, cfg, cycle, Queue(q)) && job.cfg == cfg && job.order == Order(t)
    ensures TxLoop.Periodic(job, cycle)
  {
    forall k | 0 <= k < |t|
      ensures t[k].flow < |cfg| && Count(Order(t), t[k].flow) * cfg[t[k].flow].period == cycle
    {
      TableFlowsInScope(t, cfg, cycle, Queue(q), k);
      FlowCount(t, cfg, cycle, Queue(q), t[k].flow);
      WholePeriods(cfg, cycle, t[k].flow);
    }
  }

  /** The columns of finished schedules, as values. */
  ghost function TablesOf(schedules: seq<Tables.ScheduleState>): (ts: seq<seq<Entry>>)
    requires forall q | 0 <= q < |schedules| :: schedules[q].Allocated()
    reads set q | 0 <= q < |schedules| :: schedules[q].order
    reads set q | 0 <= q < |schedules| :: schedules[q].sendingTime
    ensures |ts| == |schedules|
    ensures forall q | 0 <= q < |ts| :: ts[q] == schedules[q].Table()
    decreases |schedules|
  {
    if |schedules| == 0 then []
    else TablesOf(schedules[..|schedules| - 1]) + [schedules[|schedules| - 1].Table()]
  }

  ghost function OrdersOf(tables: seq<seq<Entry>>): (os: seq<seq<nat>>)
    ensures |os| == |tables|
    ensures forall q | 0 <= q < |os| :: os[q] == Order(tables[q])
  {
    seq(|tables|, q requires 0 <= q < |tables| => Order(tables[q]))
  }

  /** The schedule of all queues, computed from the configuration, is one the concurrent theorems apply to. */
  method Prepare(state: FlowState, numQueues: nat, base: u64, runtime: u64, hw: bool)
    returns (schedules: seq<Tables.ScheduleState>, ghost cycle: u64)
    requires state.Valid() && Tables.Schedulable(state.Config())
    requires TimesFit(state.Config(), LcmAll(Tables.Periods(state.Config())))
    ensures |schedules| == numQueues
    ensures forall q | 0 <= q < numQueues :: schedules[q].Allocated()
    ensures var tables := TablesOf(schedules);
            Scheduled(System(state.Config(), OrdersOf(tables), base, runtime, hw), cycle, tables)
  {
    ghost var cfg := state.Config();
    schedules := Tables.CreateScheduleState(state, numQueues);
    cycle := LcmAll(Tables.Periods(cfg));
    LcmAllIsLeast(Tables.Periods(cfg));
    forall q | 0 <= q < numQueues
      ensures IsTable(TablesOf(schedules)[q], cfg, cycle, Queue(q))
    {
      LeastIsUnique(cycle, schedules[q].cyclePeriod, Tables.Periods(cfg));
    }
  }

  /** Offsets below the periods are enough. */
  method PrepareBelowPeriods(state: FlowState, numQueues: nat, base: u64, runtime: u64, hw: bool)
    returns (schedules: seq<Tables.ScheduleState>, ghost cycle: u64)
    requires state.Valid() && Tables.Schedulable(state.Config()) && OffsetsBelowPeriods(state.Config())
    ensures |schedules| == numQueues
    ensures forall q | 0 <= q < numQueues :: schedules[q].Allocated()
    ensures var tables := TablesOf(schedules);
            Scheduled(System(state.Config(), OrdersOf(tables), base, runtime, hw), cycle, tables)
  {
    LcmAllIsLeast(Tables.Periods(state.Config()));
    OffsetsFit(state.Config(), LcmAll(Tables.Periods(state.Config())));
    schedules, cycle := Prepare(state, numQueues, base, runtime, hw);
  }

  lemma LeastIsUnique(m: nat, n: nat, s: seq<nat>)
    requires IsLeastCommonMultiple(m, s) && IsLeastCommonMultiple(n, s)
    ensures m == n
  {
    DivisorAtMost(m, n);
    DivisorAtMost(n, m);
  }

  /**
   * One queue's loop: none for an empty table, otherwise fresh statistics and a loop about to test
   * the time.
   */
  method LaunchQueue(state: FlowState, schedule: Tables.ScheduleState, ghost q: int,
                     base: u64, runtime: u64, hw: bool, now: u64, ghost port: TxLoop.Port)
    returns (talker: TxLoop.Talker?)
    requires state.Valid() && PositivePeriods(state.Config()) && port.start == now
    requires forall i | 0 <= i < state.numFlows && state.Config()[i].queue == q ::
               state.Timers()[i] == InitialTimers(state.Config(), base)[i]
    requires schedule.Allocated() && IsLeastCommonMultiple(schedule.cyclePeriod, Tables.Periods(state.Config()))
    requires IsTable(schedule.Table(), state.Config(), schedule.cyclePeriod, Queue(q))
    ensures talker == null <==> schedule.numFrames == 0
    ensures talker != null ==>
              var job := Job(state.Config(), Order(schedule.Table()), base, runtime, hw);
              talker.After(job, port, 0, true) && TxLoop.Periodic(job, schedule.cyclePeriod)
  {
    ghost var cfg, t := state.Config(), schedule.Table();
    ghost var job := Job(cfg, Order(t), base, runtime, hw);
    assert schedule.order[..] == Order(t);
    TableIsPeriodic(t, cfg, schedule.cyclePeriod, q, job);
    if schedule.numFrames == 0 {
      return null;
    }
    forall k | 0 <= k < schedule.order.Length
      ensures schedule.order[k] < |cfg| && cfg[schedule.order[k]].queue == q
    {
      assert schedule.order[..][k] == Order(t)[k];
      TableFlowsInScope(t, cfg, schedule.cyclePeriod, Queue(q), k);
    }
    TxLoop.LaunchFed(job, port);
    var stats := new StatisticCore(state.numFlows);
    talker := new TxLoop.Talker(state, schedule.order, stats, base, runtime, hw, now);
  }
}
