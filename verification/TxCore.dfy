/**
 * `tx_loop` of talker.c as a machine whose steps are the accesses a core makes to the flow set
 * it shares with the other cores: one load and one store for `inc_flow_timer`, one load for
 * reading the timer back. Clock readings, send results and timestamp reads are inputs.
 */
module TxCore {
  import opened Words
  import opened Sequences
  import opened Flows
  import opened Statistics
  import opened Wrappers

  /** What the outside world answers during one step. */
  datatype Reading = Reading(clock: u64, sent: bool, stamp: Option<u64>)

  /** The arguments of one `tx_loop`. Of the schedule it only ever reads `order`. */
  datatype Job = Job(cfg: seq<FlowSpec>, order: seq<nat>, base: u64, runtime: u64, hw: bool)

  /**
   * Where a core stands: before the loop test, before a frame, inside `inc_flow_timer`, before
   * reading the timer back, before sending.
   */
  datatype Pc = Test | Wake | IncLoad | IncStore | TxLoad | Send | Done

  /** A frame that was given its transmit time. */
  datatype Issue = Issue(cycle: nat, slot: nat, flow: nat, txtime: u64)

  /** A reading of the clock at the top of the loop body, and the flow it is booked to. */
  datatype Wakeup = Wakeup(flow: nat, clock: u64)

  /** The locals of `tx_loop`, with the history of wake-ups, issued frames and statistics calls. */
  datatype Core = Core(
    pc: Pc, cycle: nat, slot: nat, now: u64, txtime: u64, flow: Option<nat>, reg: u64,
    prevTime: seq<u64>, prevHwtime: seq<u64>, wakes: seq<Wakeup>, issued: seq<Issue>, log: seq<Op>)

  /** A core together with the shared timers as it finds them. */
  datatype View = View(core: Core, timers: seq<u64>)

  predicate WellFormed(job: Job) {
    forall k | 0 <= k < |job.order| :: job.order[k] < |job.cfg|
  }

  /** The flow whose frame came last, as the first lines of the loop body determine it. */
  function Previous(job: Job, slot: nat): nat
    requires slot < |job.order|
  {
    if slot == 0 then job.order[|job.order| - 1] else job.order[slot - 1]
  }

  predicate First(core: Core) {
    core.cycle == 0 && core.slot == 0
  }

  /**
   * What holds in every state of one core. In particular `flow` points to the previous frame's
   * flow whenever a frame after the first is about to start.
   */
  predicate Sane(job: Job, core: Core) {
    && WellFormed(job)
    && |core.prevTime| == |core.prevHwtime| == |job.cfg|
    && (core.pc.Test? || core.pc.Done? ==> core.slot == 0)
    && (!core.pc.Done? ==> core.slot < |job.order|)
    && (core.pc in {IncLoad, IncStore, TxLoad, Send} ==> core.flow == Some(job.order[core.slot]))
    && (core.pc in {Test, Wake} && !First(core) ==> core.flow == Some(Previous(job, core.slot)))
    && (core.pc in {Test, Wake} && First(core) ==>
          core.log == [] && forall i | 0 <= i < |core.prevTime| :: core.prevTime[i] == 0)
  }

  function Start(job: Job, now: u64): (core: Core)
    requires WellFormed(job)
    ensures Sane(job, core)
  {
    var zeros := seq(|job.cfg|, _ => 0);
    Core(if job.order == [] then Done else Test, 0, 0, now, now, None, 0, zeros, zeros, [], [], [])
  }

  /** The loop test: run until `runtime` seconds after the base time. */
  predicate Running(job: Job, now: u64) {
    now < job.base || (now - job.base) / SECOND < job.runtime
  }

  function RowOf(job: Job, core: Core, row: nat): Row {
    RowAfter(|job.cfg|, core.log, row)
  }

  /** The late statistics of the previous frame. */
  function LateOps(job: Job, core: Core, now: u64): seq<Op>
    requires Sane(job, core) && core.pc.Wake?
  {
    var prev := Previous(job, core.slot);
    (if RowOf(job, core, prev).total != 0 then [TimeSw(prev, now, core.txtime)] else []) +
    (if core.prevTime[prev] != 0 then
       [SwJitter(prev, core.prevTime[prev], now, job.cfg[core.flow.value].period)]
     else [])
  }

  function AfterWake(job: Job, core: Core, r: Reading): (c: Core)
    requires Sane(job, core) && core.pc.Wake?
    ensures Sane(job, c)
  {
    core.(pc := IncLoad, now := r.clock, log := core.log + LateOps(job, core, r.clock),
          prevTime := core.prevTime[Previous(job, core.slot) := r.clock],
          wakes := core.wakes + [Wakeup(Previous(job, core.slot), r.clock)],
          flow := Some(job.order[core.slot]))
  }

  /** The earliest and latest moments at which a frame is still sent, in 64-bit arithmetic. */
  predicate TooEarly(spec: FlowSpec, now: u64, txtime: u64) {
    now < Wrap(txtime - spec.delta)
  }

  predicate TooLate(spec: FlowSpec, now: u64, txtime: u64) {
    !TooEarly(spec, now, txtime) && now > Wrap(Wrap(txtime - spec.delta) + FUDGE)
  }

  /** The statistics calls for the frame itself. */
  function FrameOps(job: Job, core: Core, r: Reading): seq<Op>
    requires Sane(job, core) && core.pc.Send?
  {
    var f := core.flow.value;
    if TooLate(job.cfg[f], core.now, core.txtime) then [Nums(f, true, false)]
    else if !r.sent then [Nums(f, false, true)]
    else if !(job.hw && r.stamp.Some?) then [Nums(f, false, false)]
    else
      [Nums(f, false, false), TimeHw(f, r.stamp.value, core.txtime)] +
      (if core.prevHwtime[f] != 0 then
         [HwJitter(f, core.prevHwtime[f], r.stamp.value, job.cfg[f].period)]
       else [])
  }

  function NextHwtime(job: Job, core: Core, r: Reading): u64
    requires Sane(job, core) && core.pc.Send?
  {
    var f := core.flow.value;
    if TooLate(job.cfg[f], core.now, core.txtime) || !r.sent then 0
    else if job.hw && r.stamp.Some? then r.stamp.value
    else core.prevHwtime[f]
  }

  function AfterSend(job: Job, core: Core, r: Reading): (c: Core)
    requires Sane(job, core) && core.pc.Send?
    ensures Sane(job, c)
  {
    var f := core.flow.value;
    var last := core.slot + 1 == |job.order|;
    core.(pc := if last then Test else Wake,
          cycle := if last then core.cycle + 1 else core.cycle,
          slot := if last then 0 else core.slot + 1,
          now := if TooLate(job.cfg[f], core.now, core.txtime) then core.now else r.clock,
          prevHwtime := core.prevHwtime[f := NextHwtime(job, core, r)],
          log := core.log + FrameOps(job, core, r))
  }

  predicate Fits(job: Job, v: View) {
    Sane(job, v.core) && |v.timers| == |job.cfg|
  }

  /** Within a frame the places follow each other; the frame stays the same. */
  predicate Follows(core: Core, next: Core) {
    match core.pc
    case Wake => next.pc.IncLoad? && next.cycle == core.cycle && next.slot == core.slot
    case IncLoad => next.pc.IncStore? && next.cycle == core.cycle && next.slot == core.slot
    case IncStore => next.pc.TxLoad? && next.cycle == core.cycle && next.slot == core.slot
    case TxLoad => next.pc.Send? && next.cycle == core.cycle && next.slot == core.slot
    case _ => true
  }

  function Step(job: Job, v: View, r: Reading): (w: View)
    requires Fits(job, v)
    ensures Fits(job, w) && Follows(v.core, w.core)
  {
    var core := v.core;
    match core.pc
    case Test => v.(core := core.(pc := if Running(job, core.now) then Wake else Done))
    case Wake => v.(core := AfterWake(job, core, r))
    case IncLoad => v.(core := core.(pc := IncStore, reg := v.timers[core.flow.value]))
    case IncStore =>
      var f := core.flow.value;
      View(core.(pc := TxLoad), v.timers[f := Wrap(core.reg + job.cfg[f].period)])
    case TxLoad =>
      var f := core.flow.value;
      v.(core := core.(pc := Send, txtime := v.timers[f],
                       issued := core.issued + [Issue(core.cycle, core.slot, f, v.timers[f])]))
    case Send => v.(core := AfterSend(job, core, r))
    case Done => v
  }

  /** The loop goes on exactly while the clock is below the base time plus `runtime` seconds. */
  lemma LoopTest(job: Job, v: View, r: Reading)
    requires Fits(job, v) && v.core.pc.Test?
    ensures Step(job, v, r) ==
            v.(core := v.core.(pc := if v.core.now < job.base + job.runtime * 1_000_000_000 then Wake else Done))
  {
  }

  /** One core running by itself. */
  function Alone(job: Job, v: View, readings: seq<Reading>): (w: View)
    requires Fits(job, v)
    ensures Fits(job, w)
  {
    if |readings| == 0 then v else Step(job, Alone(job, v, Front(readings)), Last(readings))
  }

  /** A core at its start, beside freshly initialised timers. */
  function Launched(job: Job, now: u64): (v: View)
    requires WellFormed(job)
    ensures Fits(job, v)
  {
    View(Start(job, now), InitialTimers(job.cfg, job.base))
  }

  // ---------- What a core's run keeps ----------

  /** Frames of flow i that the core has finished. */
  function Finished(job: Job, core: Core, i: nat): nat
    requires Sane(job, core)
  {
    core.cycle * Count(job.order, i) + Count(job.order[..core.slot], i)
  }

  /**
   * The transmit time of slot k in cycle c, in unbounded arithmetic: the flow's base and offset
   * plus one period more than the frames of the flow before it.
   */
  function Due(job: Job, c: nat, k: nat): int
    requires WellFormed(job) && k < |job.order|
  {
    var i := job.order[k];
    job.base + job.cfg[i].offset +
    (c * Count(job.order, i) + Count(job.order[..k], i) + 1) * job.cfg[i].period
  }

  function Bumps(job: Job, core: Core, i: nat): nat
    requires Sane(job, core)
  {
    Finished(job, core, i) + (if core.pc in {TxLoad, Send} && job.order[core.slot] == i then 1 else 0)
  }

  /** Timer i after n increments. */
  function TimerAfter(job: Job, i: nat, n: nat): u64
    requires i < |job.cfg|
  {
    Wrap(job.base + job.cfg[i].offset + n * job.cfg[i].period)
  }

  ghost predicate TimersCount(job: Job, v: View)
    requires Fits(job, v)
  {
    && (forall i | 0 <= i < |v.timers| ::
          v.timers[i] == TimerAfter(job, i, Bumps(job, v.core, i)))
    && (v.core.pc.IncStore? ==> v.core.reg == v.timers[v.core.flow.value])
    && (v.core.pc.Send? ==> v.core.txtime == v.timers[v.core.flow.value])
    && (v.core.pc in {Test, Wake} && !First(v.core) ==>
          v.core.txtime == v.timers[Previous(job, v.core.slot)])
  }

  lemma FrameFinishes(job: Job, core: Core, r: Reading, i: nat)
    requires Sane(job, core) && core.pc.Send?
    ensures Finished(job, AfterSend(job, core, r), i) ==
            Finished(job, core, i) + (if job.order[core.slot] == i then 1 else 0)
  {
    CountStep(job.order, core.slot, i);
    if core.slot + 1 == |job.order| {
      assert job.order[..core.slot + 1] == job.order;
      assert job.order[..0] == [];
      assert (core.cycle + 1) * Count(job.order, i) == core.cycle * Count(job.order, i) + Count(job.order, i);
    }
  }

  /** Only the store of `inc_flow_timer` moves a flow ahead. */
  lemma StepBumps(job: Job, v: View, r: Reading, i: nat)
    requires Fits(job, v)
    ensures Bumps(job, Step(job, v, r).core, i) ==
            Bumps(job, v.core, i) + (if v.core.pc.IncStore? && job.order[v.core.slot] == i then 1 else 0)
  {
    if v.core.pc.Send? {
      FrameFinishes(job, v.core, r, i);
    }
  }

  lemma StepCountsTimers(job: Job, v: View, r: Reading)
    requires Fits(job, v) && TimersCount(job, v)
    ensures TimersCount(job, Step(job, v, r))
  {
    var core, w := v.core, Step(job, v, r);
    forall i | 0 <= i < |v.timers|
      ensures w.timers[i] == TimerAfter(job, i, Bumps(job, w.core, i))
    {
      StepBumps(job, v, r, i);
      if core.pc.IncStore? && i == core.flow.value {
        BumpOnce(job, i, Bumps(job, core, i));
      }
    }
  }

  lemma BumpOnce(job: Job, i: nat, n: nat)
    requires i < |job.cfg|
    ensures Wrap(TimerAfter(job, i, n) + job.cfg[i].period) == TimerAfter(job, i, n + 1)
  {
    var x, p := job.base + job.cfg[i].offset + n * job.cfg[i].period, job.cfg[i].period;
    WrapSum(x, p);
    assert (n + 1) * p == n * p + p;
  }

  /** Number m in the run's frames is slot e.slot of cycle e.cycle, and it got the transmit time due there. */
  ghost predicate IssueDue(job: Job, e: Issue, m: nat)
    requires WellFormed(job)
  {
    && e.slot < |job.order|
    && m == FrameNumber(job, e.cycle, e.slot)
    && e.flow == job.order[e.slot]
    && e.txtime == Wrap(Due(job, e.cycle, e.slot))
  }

  function FrameNumber(job: Job, cycle: nat, slot: nat): nat {
    cycle * |job.order| + slot
  }

  /**
   * Every frame ever issued got the transmit time its position in the run determines, and none was
   * skipped.
   */
  ghost predicate IssuesDue(job: Job, core: Core)
    requires Sane(job, core)
  {
    && |core.issued| == FrameNumber(job, core.cycle, core.slot) + (if core.pc.Send? then 1 else 0)
    && forall m | 0 <= m < |core.issued| :: IssueDue(job, core.issued[m], m)
  }

  lemma LoadIsDue(job: Job, v: View)
    requires Fits(job, v) && TimersCount(job, v) && v.core.pc.TxLoad?
    ensures v.timers[v.core.flow.value] == Wrap(Due(job, v.core.cycle, v.core.slot))
  {
  }

  lemma SendIsDue(job: Job, v: View)
    requires Fits(job, v) && TimersCount(job, v) && v.core.pc.Send?
    ensures v.core.txtime == Wrap(Due(job, v.core.cycle, v.core.slot))
  {
  }

  lemma StepIssuesDue(job: Job, v: View, r: Reading)
    requires Fits(job, v) && TimersCount(job, v) && IssuesDue(job, v.core)
    ensures IssuesDue(job, Step(job, v, r).core)
  {
    var core, next, k := v.core, Step(job, v, r).core, |job.order|;
    if core.pc.TxLoad? {
      LoadIsDue(job, v);
      assert next.issued == core.issued + [Issue(core.cycle, core.slot, job.order[core.slot], next.txtime)];
    } else {
      assert next.issued == core.issued;
      assert (core.cycle + 1) * k == core.cycle * k + k;
    }
  }

  /** The statistics calls a core may have made. */
  ghost predicate CallOk(job: Job, core: Core, op: Op) {
    && op.flow < |job.cfg|
    && (op.Nums? ==> !(op.missed && op.failed))
    && (op.SwJitter? || op.HwJitter? ==> op.period == job.cfg[op.flow].period)
    && (op.TimeSw? || op.TimeHw? ==>
          exists m | 0 <= m < |core.issued| :: core.issued[m].flow == op.flow && core.issued[m].txtime == op.txtime)
  }

  /**
   * Late attribution: every call names the flow, period and transmit time of the frame it is about;
   * totals count finished frames.
   */
  ghost predicate CallsAttributed(job: Job, core: Core)
    requires Sane(job, core)
  {
    && (forall op | op in core.log :: CallOk(job, core, op))
    && (forall i | 0 <= i < |job.cfg| :: RowOf(job, core, i).total == Finished(job, core, i))
    && (core.pc.Send? || (core.pc in {Test, Wake} && !First(core)) ==>
          |core.issued| > 0 && Last(core.issued).txtime == core.txtime && Some(Last(core.issued).flow) == core.flow)
  }

  lemma CallStillOk(job: Job, core: Core, later: Core, op: Op)
    requires CallOk(job, core, op) && core.issued <= later.issued
    ensures CallOk(job, later, op)
  {
    if op.TimeSw? || op.TimeHw? {
      var m :| 0 <= m < |core.issued| && core.issued[m].flow == op.flow && core.issued[m].txtime == op.txtime;
      assert later.issued[m] == core.issued[m];
    }
  }

  /** Sampling calls do not count frames. */
  lemma {:induction false} SamplesKeepTotals(numFlows: nat, log: seq<Op>, more: seq<Op>, row: nat)
    requires forall op | op in more :: !op.Nums?
    ensures RowAfter(numFlows, log + more, row).total == RowAfter(numFlows, log, row).total
  {
    if |more| == 0 {
      assert log + more == log;
    } else {
      SamplesKeepTotals(numFlows, log, Front(more), row);
      assert log + more == (log + Front(more)) + [Last(more)];
      assert Last(more) in more;
      RowAfterAppend(numFlows, log + Front(more), Last(more), row);
    }
  }

  lemma FrameCountsOnce(job: Job, core: Core, r: Reading, i: nat)
    requires Sane(job, core) && core.pc.Send? && i < |job.cfg|
    ensures RowOf(job, AfterSend(job, core, r), i).total ==
            RowOf(job, core, i).total + (if job.order[core.slot] == i then 1 else 0)
  {
    var ops := FrameOps(job, core, r);
    assert core.log + ops == (core.log + [ops[0]]) + ops[1..];
    RowAfterAppend(|job.cfg|, core.log, ops[0], i);
    SamplesKeepTotals(|job.cfg|, core.log + [ops[0]], ops[1..], i);
  }

  /** Row totals follow the frames the core finishes. */
  lemma StepTotals(job: Job, v: View, r: Reading, i: nat)
    requires Fits(job, v) && i < |job.cfg|
    requires RowOf(job, v.core, i).total == Finished(job, v.core, i)
    ensures RowOf(job, Step(job, v, r).core, i).total == Finished(job, Step(job, v, r).core, i)
  {
    if v.core.pc.Wake? {
      SamplesKeepTotals(|job.cfg|, v.core.log, LateOps(job, v.core, r.clock), i);
    } else if v.core.pc.Send? {
      FrameCountsOnce(job, v.core, r, i);
      FrameFinishes(job, v.core, r, i);
    }
  }

  lemma StepCalls(job: Job, v: View, r: Reading, op: Op)
    requires Fits(job, v) && CallsAttributed(job, v.core)
    requires op in Step(job, v, r).core.log
    ensures CallOk(job, Step(job, v, r).core, op)
  {
    var core, next, m := v.core, Step(job, v, r).core, |v.core.issued| - 1;
    if op in core.log {
      CallStillOk(job, core, next, op);
    } else if core.pc.Wake? {
      assert op in LateOps(job, core, r.clock);
      assert core.issued[m].flow == Previous(job, core.slot) && core.issued[m].txtime == core.txtime;
    } else {
      assert op in FrameOps(job, core, r);
      assert next.issued[m].flow == core.flow.value && next.issued[m].txtime == core.txtime;
    }
  }

  lemma StepAttributes(job: Job, v: View, r: Reading)
    requires Fits(job, v) && CallsAttributed(job, v.core)
    ensures CallsAttributed(job, Step(job, v, r).core)
  {
    var next := Step(job, v, r).core;
    forall op | op in next.log
      ensures CallOk(job, next, op)
    {
      StepCalls(job, v, r, op);
    }
    forall i | 0 <= i < |job.cfg|
      ensures RowOf(job, next, i).total == Finished(job, next, i)
    {
      StepTotals(job, v, r, i);
    }
  }

  ghost predicate Kept(job: Job, v: View) {
    Fits(job, v) && TimersCount(job, v) && IssuesDue(job, v.core) && CallsAttributed(job, v.core)
  }

  lemma LaunchKept(job: Job, now: u64)
    requires WellFormed(job)
    ensures Kept(job, Launched(job, now))
  {
    var v := Launched(job, now);
    forall i | 0 <= i < |job.cfg|
      ensures Bumps(job, v.core, i) == 0 && v.timers[i] == TimerAfter(job, i, 0)
    {
      assert job.order[..0] == [];
    }
  }

  /** Every state a core reaches by itself, from any clock, send and timestamp results. */
  lemma {:induction false} AloneKept(job: Job, now: u64, readings: seq<Reading>)
    requires WellFormed(job)
    ensures Kept(job, Alone(job, Launched(job, now), readings))
  {
    if |readings| == 0 {
      LaunchKept(job, now);
    } else {
      AloneKept(job, now, Front(readings));
      var v := Alone(job, Launched(job, now), Front(readings));
      StepCountsTimers(job, v, Last(readings));
      StepIssuesDue(job, v, Last(readings));
      StepAttributes(job, v, Last(readings));
    }
  }
}
