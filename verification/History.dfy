/**
 * Which samples a run takes. The loop remembers one wake-up and one hardware stamp per flow;
 * here both memories, and every delta and jitter sample made from them, are read off the run's
 * history instead.
 */
module History {
  import opened Words
  import opened Sequences
  import opened Flows
  import opened Statistics
  import opened TxCore
  import opened Wrappers

  function IsTimeSw(): Op -> bool {
    (op: Op) => op.TimeSw?
  }

  function IsSwJitter(): Op -> bool {
    (op: Op) => op.SwJitter?
  }

  function IsHwJitter(): Op -> bool {
    (op: Op) => op.HwJitter?
  }

  /** The clock at the latest wake-up booked to flow i, 0 if there is none. */
  function WakeMemory(wakes: seq<Wakeup>, i: nat): u64 {
    if |wakes| == 0 then 0 else if Last(wakes).flow == i then Last(wakes).clock else WakeMemory(Front(wakes), i)
  }

  /** The latest hardware stamp of flow i, forgotten when a frame of the flow is missed or not sent. */
  function HwMemory(log: seq<Op>, i: nat): u64 {
    if |log| == 0 then 0
    else
      match Last(log)
      case TimeHw(f, hwtime, _) => if f == i then hwtime else HwMemory(Front(log), i)
      case Nums(f, missed, failed) => if f == i && (missed || failed) then 0 else HwMemory(Front(log), i)
      case _ => HwMemory(Front(log), i)
  }

  predicate Booked(job: Job, wakes: seq<Wakeup>) {
    forall m | 0 <= m < |wakes| :: wakes[m].flow < |job.cfg|
  }

  /** One jitter sample between each wake-up and the previous one of the same flow. */
  function SwJitters(job: Job, wakes: seq<Wakeup>): seq<Op>
    requires Booked(job, wakes)
  {
    if |wakes| == 0 then []
    else
      var w, before := Last(wakes), Front(wakes);
      SwJitters(job, before) +
      (if WakeMemory(before, w.flow) != 0 then
         [SwJitter(w.flow, WakeMemory(before, w.flow), w.clock, job.cfg[w.flow].period)]
       else [])
  }

  /** One delta sample at each wake-up but the first, against the transmit time of the frame before it. */
  function SwDeltas(wakes: seq<Wakeup>, issued: seq<Issue>): seq<Op>
    requires |wakes| <= |issued| + 1
  {
    if |wakes| <= 1 then []
    else SwDeltas(Front(wakes), issued) + [TimeSw(Last(wakes).flow, Last(wakes).clock, issued[|wakes| - 2].txtime)]
  }

  /** One jitter sample between each hardware stamp and the remembered one of the same flow. */
  function HwJitters(job: Job, log: seq<Op>): seq<Op> {
    if |log| == 0 then []
    else
      var op, before := Last(log), Front(log);
      HwJitters(job, before) +
      (if op.TimeHw? && op.flow < |job.cfg| && HwMemory(before, op.flow) != 0 then
         [HwJitter(op.flow, HwMemory(before, op.flow), op.hwtime, job.cfg[op.flow].period)]
       else [])
  }

  /** The wake-ups are those after each frame, preceded by one before the first. */
  ghost predicate WakesFollowFrames(job: Job, core: Core) {
    && Booked(job, core.wakes)
    && |core.wakes| == |core.issued| + (if core.pc in {IncLoad, IncStore, TxLoad} then 1 else 0)
    && (|core.wakes| > 0 && job.order != [] ==> core.wakes[0].flow == job.order[|job.order| - 1])
    && forall m | 0 < m < |core.wakes| :: core.wakes[m].flow == core.issued[m - 1].flow
  }

  ghost predicate Remembers(job: Job, core: Core) {
    && |core.prevTime| == |core.prevHwtime| == |job.cfg|
    && (forall i | 0 <= i < |job.cfg| :: core.prevTime[i] == WakeMemory(core.wakes, i))
    && (forall i | 0 <= i < |job.cfg| :: core.prevHwtime[i] == HwMemory(core.log, i))
  }

  /** The samples of a run are exactly those its history calls for, in order. */
  ghost predicate SamplesExact(job: Job, core: Core)
    requires WakesFollowFrames(job, core)
  {
    && Filter(core.log, IsSwJitter()) == SwJitters(job, core.wakes)
    && Filter(core.log, IsTimeSw()) == SwDeltas(core.wakes, core.issued)
    && Filter(core.log, IsHwJitter()) == HwJitters(job, core.log)
  }

  ghost predicate Told(job: Job, core: Core) {
    WakesFollowFrames(job, core) && Remembers(job, core) && SamplesExact(job, core)
  }

  // ---------- Steps ----------

  lemma HwAppend(job: Job, log: seq<Op>, op: Op, i: nat)
    ensures HwMemory(log + [op], i) ==
            (if op.TimeHw? && op.flow == i then op.hwtime
             else if op.Nums? && op.flow == i && (op.missed || op.failed) then 0
             else HwMemory(log, i))
    ensures HwJitters(job, log + [op]) ==
            HwJitters(job, log) +
            (if op.TimeHw? && op.flow < |job.cfg| && HwMemory(log, op.flow) != 0 then
               [HwJitter(op.flow, HwMemory(log, op.flow), op.hwtime, job.cfg[op.flow].period)]
             else [])
  {
    assert Front(log + [op]) == log;
  }

  /** Software samples leave the hardware memory alone. */
  lemma {:induction false} HwIgnoresSoftware(job: Job, log: seq<Op>, more: seq<Op>, i: nat)
    requires forall k | 0 <= k < |more| :: more[k].TimeSw? || more[k].SwJitter?
    ensures HwMemory(log + more, i) == HwMemory(log, i)
    ensures HwJitters(job, log + more) == HwJitters(job, log)
    ensures Filter(log + more, IsHwJitter()) == Filter(log, IsHwJitter())
  {
    if |more| == 0 {
      assert log + more == log;
    } else {
      var front, op := Front(more), more[|more| - 1];
      HwIgnoresSoftware(job, log, front, i);
      assert log + more == (log + front) + [op];
      HwAppend(job, log + front, op, i);
      FilterAppend(log + front, op, IsHwJitter());
    }
  }

  /** The delta update is due exactly when a frame has gone before. */
  lemma SecondWakeCounts(job: Job, v: View)
    requires Kept(job, v) && v.core.pc.Wake?
    ensures RowOf(job, v.core, Previous(job, v.core.slot)).total != 0 <==> |v.core.issued| > 0
  {
    var core, prev := v.core, Previous(job, v.core.slot);
    var k := |job.order|;
    assert RowOf(job, core, prev).total == Finished(job, core, prev);
    if First(core) {
      assert job.order[..0] == [];
    } else if core.slot > 0 {
      CountStep(job.order, core.slot - 1, prev);
      ProductMonotone(0, core.cycle, k);
    } else {
      CountStep(job.order, k - 1, prev);
      assert job.order[..k] == job.order;
      ProductMonotone(1, core.cycle, k);
      ProductMonotone(1, core.cycle, Count(job.order, prev));
    }
  }

  /** The two late calls, each made or not. */
  function LateDelta(job: Job, core: Core, now: u64): (ops: seq<Op>)
    requires Sane(job, core) && core.pc.Wake?
    ensures |ops| <= 1 && (|ops| == 1 ==> ops[0].TimeSw?)
  {
    var prev := Previous(job, core.slot);
    if RowOf(job, core, prev).total != 0 then [TimeSw(prev, now, core.txtime)] else []
  }

  function LateJitter(job: Job, core: Core, now: u64): (ops: seq<Op>)
    requires Sane(job, core) && core.pc.Wake?
    ensures |ops| <= 1 && (|ops| == 1 ==> ops[0].SwJitter?)
  {
    var prev := Previous(job, core.slot);
    if core.prevTime[prev] != 0 then
      [SwJitter(prev, core.prevTime[prev], now, job.cfg[core.flow.value].period)]
    else []
  }

  lemma AppendLate(job: Job, log: seq<Op>, a: seq<Op>, b: seq<Op>, i: nat)
    requires |a| <= 1 && (|a| == 1 ==> a[0].TimeSw?)
    requires |b| <= 1 && (|b| == 1 ==> b[0].SwJitter?)
    ensures Filter(log + (a + b), IsTimeSw()) == Filter(log, IsTimeSw()) + a
    ensures Filter(log + (a + b), IsSwJitter()) == Filter(log, IsSwJitter()) + b
    ensures Filter(log + (a + b), IsHwJitter()) == Filter(log, IsHwJitter())
    ensures HwJitters(job, log + (a + b)) == HwJitters(job, log)
    ensures HwMemory(log + (a + b), i) == HwMemory(log, i)
  {
    HwIgnoresSoftware(job, log, a + b, i);
    assert log + (a + b) == (log + a) + b;
    AppendShort(log, a);
    AppendShort(log + a, b);
  }

  lemma AppendShort(log: seq<Op>, a: seq<Op>)
    requires |a| <= 1
    ensures Filter(log + a, IsTimeSw()) == Filter(log, IsTimeSw()) + (if |a| == 1 && a[0].TimeSw? then a else [])
    ensures Filter(log + a, IsSwJitter()) == Filter(log, IsSwJitter()) + (if |a| == 1 && a[0].SwJitter? then a else [])
  {
    if |a| == 1 {
      assert log + a == log + [a[0]];
      FilterAppend(log, a[0], IsTimeSw());
      FilterAppend(log, a[0], IsSwJitter());
    } else {
      assert log + a == log;
    }
  }

  lemma StartsAtFirst(c: nat, k: nat, n: nat)
    requires n > 0 && c * n + k == 0
    ensures c == 0
  {
    if c > 0 {
      ProductMonotone(1, c, n);
    }
  }

  lemma WakeFollows(job: Job, v: View, r: Reading)
    requires Kept(job, v) && WakesFollowFrames(job, v.core) && v.core.pc.Wake?
    ensures WakesFollowFrames(job, AfterWake(job, v.core, r))
  {
    var core, prev := v.core, Previous(job, v.core.slot);
    if |core.issued| == 0 {
      StartsAtFirst(core.cycle, core.slot, |job.order|);
    } else {
      assert Last(core.issued).flow == prev by {
        ProductMonotone(0, core.cycle, |job.order|);
      }
    }
  }

  lemma WakeRemembers(job: Job, core: Core, r: Reading)
    requires Sane(job, core) && Remembers(job, core) && core.pc.Wake?
    ensures Remembers(job, AfterWake(job, core, r))
  {
    var c := AfterWake(job, core, r);
    assert Front(c.wakes) == core.wakes;
    assert LateOps(job, core, r.clock) == LateDelta(job, core, r.clock) + LateJitter(job, core, r.clock);
    forall i | 0 <= i < |job.cfg|
      ensures HwMemory(c.log, i) == HwMemory(core.log, i)
    {
      AppendLate(job, core.log, LateDelta(job, core, r.clock), LateJitter(job, core, r.clock), i);
    }
  }

  lemma WakeTold(job: Job, v: View, r: Reading)
    requires Kept(job, v) && Told(job, v.core) && v.core.pc.Wake?
    ensures Told(job, AfterWake(job, v.core, r))
  {
    var core, c := v.core, AfterWake(job, v.core, r);
    WakeFollows(job, v, r);
    WakeRemembers(job, core, r);
    SecondWakeCounts(job, v);
    assert Front(c.wakes) == core.wakes;
    assert LateOps(job, core, r.clock) == LateDelta(job, core, r.clock) + LateJitter(job, core, r.clock);
    AppendLate(job, core.log, LateDelta(job, core, r.clock), LateJitter(job, core, r.clock), 0);
    JitterCalledFor(job, core, r);
    DeltaCalledFor(job, v, r);
  }

  lemma JitterCalledFor(job: Job, core: Core, r: Reading)
    requires Sane(job, core) && Remembers(job, core) && core.pc.Wake?
    requires Booked(job, core.wakes)
    ensures var c := AfterWake(job, core, r);
            && Booked(job, c.wakes)
            && SwJitters(job, c.wakes) == SwJitters(job, core.wakes) + LateJitter(job, core, r.clock)
  {
    assert Front(AfterWake(job, core, r).wakes) == core.wakes;
  }

  lemma DeltaCalledFor(job: Job, v: View, r: Reading)
    requires Kept(job, v) && v.core.pc.Wake? && |v.core.wakes| == |v.core.issued|
    ensures var c := AfterWake(job, v.core, r);
            SwDeltas(c.wakes, c.issued) == SwDeltas(v.core.wakes, v.core.issued) + LateDelta(job, v.core, r.clock)
  {
    SecondWakeCounts(job, v);
    assert Front(AfterWake(job, v.core, r).wakes) == v.core.wakes;
    if |v.core.issued| > 0 {
      ProductMonotone(0, v.core.cycle, |job.order|);
      assert Last(v.core.issued).txtime == v.core.txtime;
    }
  }

  ghost predicate HwConsistent(job: Job, log: seq<Op>) {
    Filter(log, IsHwJitter()) == HwJitters(job, log)
  }

  lemma UnstampedFrame(job: Job, log: seq<Op>, op: Op, i: nat)
    requires HwConsistent(job, log) && op.Nums?
    ensures HwConsistent(job, log + [op])
    ensures HwMemory(log + [op], i) == if op.flow == i && (op.missed || op.failed) then 0 else HwMemory(log, i)
  {
    HwAppend(job, log, op, i);
    FilterAppend(log, op, IsHwJitter());
  }

  lemma StampedFrame(job: Job, log: seq<Op>, f: nat, hwtime: u64, txtime: u64, jitter: seq<Op>, i: nat)
    requires HwConsistent(job, log) && f < |job.cfg|
    requires jitter == if HwMemory(log, f) != 0 then
                         [HwJitter(f, HwMemory(log, f), hwtime, job.cfg[f].period)]
                       else []
    ensures var all := log + ([Nums(f, false, false), TimeHw(f, hwtime, txtime)] + jitter);
            HwConsistent(job, all) && HwMemory(all, i) == if f == i then hwtime else HwMemory(log, i)
  {
    var one := log + [Nums(f, false, false)];
    var two := one + [TimeHw(f, hwtime, txtime)];
    UnstampedFrame(job, log, Nums(f, false, false), i);
    UnstampedFrame(job, log, Nums(f, false, false), f);
    HwAppend(job, one, TimeHw(f, hwtime, txtime), i);
    FilterAppend(one, TimeHw(f, hwtime, txtime), IsHwJitter());
    if jitter == [] {
      assert log + ([Nums(f, false, false), TimeHw(f, hwtime, txtime)] + jitter) == two;
    } else {
      HwAppend(job, two, jitter[0], i);
      FilterAppend(two, jitter[0], IsHwJitter());
      assert log + ([Nums(f, false, false), TimeHw(f, hwtime, txtime)] + jitter) == two + [jitter[0]];
    }
  }

  /** The calls of a frame, as far as the hardware memory goes. */
  lemma FrameOpsTold(job: Job, core: Core, r: Reading, i: nat)
    requires Sane(job, core) && core.pc.Send? && Remembers(job, core) && i < |job.cfg|
    requires HwConsistent(job, core.log)
    ensures HwConsistent(job, core.log + FrameOps(job, core, r))
    ensures HwMemory(core.log + FrameOps(job, core, r), i) == AfterSend(job, core, r).prevHwtime[i]
  {
    var f, ops := core.flow.value, FrameOps(job, core, r);
    if |ops| == 1 {
      assert ops == [ops[0]];
      UnstampedFrame(job, core.log, ops[0], i);
    } else {
      StampedFrame(job, core.log, f, r.stamp.value, core.txtime, ops[2..], i);
      assert ops == [Nums(f, false, false), TimeHw(f, r.stamp.value, core.txtime)] + ops[2..];
    }
  }

  lemma {:induction false} FrameOpsKeepSoftware(log: seq<Op>, more: seq<Op>)
    requires forall k | 0 <= k < |more| :: !more[k].TimeSw? && !more[k].SwJitter?
    ensures Filter(log + more, IsTimeSw()) == Filter(log, IsTimeSw())
    ensures Filter(log + more, IsSwJitter()) == Filter(log, IsSwJitter())
  {
    FilterConcat(log, more, IsTimeSw());
    FilterConcat(log, more, IsSwJitter());
    FilterNone(more, IsTimeSw());
    FilterNone(more, IsSwJitter());
  }

  lemma SendTold(job: Job, v: View, r: Reading)
    requires Fits(job, v) && Told(job, v.core) && v.core.pc.Send?
    ensures Told(job, AfterSend(job, v.core, r))
  {
    var core := v.core;
    FrameOpsKeepSoftware(core.log, FrameOps(job, core, r));
    forall i | 0 <= i < |job.cfg|
      ensures HwMemory(core.log + FrameOps(job, core, r), i) == AfterSend(job, core, r).prevHwtime[i]
    {
      FrameOpsTold(job, core, r, i);
    }
    FrameOpsTold(job, core, r, core.flow.value);
  }

  /** Issuing a frame leaves the deltas of the earlier wake-ups alone. */
  lemma {:induction false} DeltasKeep(wakes: seq<Wakeup>, issued: seq<Issue>, e: Issue)
    requires |wakes| <= |issued| + 1
    ensures SwDeltas(wakes, issued + [e]) == SwDeltas(wakes, issued)
  {
    if |wakes| > 1 {
      DeltasKeep(Front(wakes), issued, e);
    }
  }

  lemma StepTold(job: Job, v: View, r: Reading)
    requires Kept(job, v) && Told(job, v.core)
    ensures Told(job, Step(job, v, r).core)
  {
    var core, w := v.core, Step(job, v, r);
    if core.pc.Wake? {
      assert w.core == AfterWake(job, core, r);
      WakeTold(job, v, r);
    } else if core.pc.Send? {
      assert w.core == AfterSend(job, core, r);
      SendTold(job, v, r);
    } else if core.pc.TxLoad? {
      DeltasKeep(core.wakes, core.issued, Last(w.core.issued));
    }
  }

  /** In every state a core reaches, for all clock, send and timestamp results. */
  lemma {:induction false} AloneTold(job: Job, now: u64, readings: seq<Reading>)
    requires WellFormed(job)
    ensures Told(job, Alone(job, Launched(job, now), readings).core)
  {
    if |readings| > 0 {
      AloneTold(job, now, Front(readings));
      AloneKept(job, now, Front(readings));
      StepTold(job, Alone(job, Launched(job, now), Front(readings)), Last(readings));
    }
  }

  // ---------- What the software jitters measure ----------

  /** Two wake-ups, by their numbers in the run. */
  datatype Span = Span(earlier: nat, later: nat)

  /** The latest wake-up booked to flow f. */
  function Latest(wakes: seq<Wakeup>, f: nat): (j: Option<nat>)
    ensures j.None? ==> forall k | 0 <= k < |wakes| :: wakes[k].flow != f
    ensures j.Some? ==>
              && j.value < |wakes| && wakes[j.value].flow == f
              && forall k | j.value < k < |wakes| :: wakes[k].flow != f
    ensures WakeMemory(wakes, f) == if j.Some? then wakes[j.value].clock else 0
  {
    if |wakes| == 0 then None else if Last(wakes).flow == f then Some(|wakes| - 1) else Latest(Front(wakes), f)
  }

  /** From one wake-up of a flow to the flow's next, the first not at time 0. */
  predicate Measured(wakes: seq<Wakeup>, s: Span) {
    && s.earlier < s.later < |wakes|
    && wakes[s.earlier].flow == wakes[s.later].flow
    && (forall k | s.earlier < k < s.later :: wakes[k].flow != wakes[s.later].flow)
    && wakes[s.earlier].clock != 0
  }

  /** The span at whose end the last wake-up samples a jitter, if it does. */
  function Closing(wakes: seq<Wakeup>): (spans: seq<Span>)
    requires |wakes| > 0
  {
    var before, j := Front(wakes), Latest(Front(wakes), Last(wakes).flow);
    if j.Some? && before[j.value].clock != 0 then [Span(j.value, |wakes| - 1)] else []
  }

  /** The spans at whose ends a software jitter is sampled, in order. */
  function Spans(wakes: seq<Wakeup>): seq<Span> {
    if |wakes| == 0 then [] else Spans(Front(wakes)) + Closing(wakes)
  }

  lemma ClosingMeasured(wakes: seq<Wakeup>, s: Span)
    requires |wakes| > 0
    ensures s in Closing(wakes) <==> Measured(wakes, s) && s.later == |wakes| - 1
  {
    var before, f := Front(wakes), Last(wakes).flow;
    if Measured(wakes, s) && s.later == |wakes| - 1 {
      assert before[s.earlier].flow == f;
      assert Latest(before, f) == Some(s.earlier);
    }
  }

  lemma FrontMeasured(wakes: seq<Wakeup>, s: Span)
    requires |wakes| > 0
    ensures Measured(Front(wakes), s) <==> Measured(wakes, s) && s.later < |wakes| - 1
  {
    if Measured(Front(wakes), s) {
      assert forall k | s.earlier < k < s.later :: wakes[k] == Front(wakes)[k];
    }
  }

  /** No other spans are measured, none is left out, and none comes twice. */
  lemma {:induction false} SpansMeasured(wakes: seq<Wakeup>)
    ensures forall s :: s in Spans(wakes) <==> Measured(wakes, s)
    ensures forall i, j | 0 <= i < j < |Spans(wakes)| :: Spans(wakes)[i].later < Spans(wakes)[j].later
  {
    if |wakes| > 0 {
      var before, n := Front(wakes), |wakes| - 1;
      SpansMeasured(before);
      forall s: Span
        ensures s in Spans(wakes) <==> Measured(wakes, s)
      {
        ClosingMeasured(wakes, s);
        FrontMeasured(wakes, s);
      }
      forall i | 0 <= i < |Spans(before)|
        ensures Spans(before)[i].later < n
      {
        assert Spans(before)[i] in Spans(before);
      }
    }
  }

  /** These samples were taken over these spans, one each. */
  ghost predicate TakenOver(job: Job, wakes: seq<Wakeup>, ops: seq<Op>, spans: seq<Span>)
    requires Booked(job, wakes)
  {
    && |ops| == |spans|
    && forall i | 0 <= i < |spans| ::
         && spans[i].earlier < |wakes| && spans[i].later < |wakes|
         && var from, to := wakes[spans[i].earlier], wakes[spans[i].later];
            ops[i] == SwJitter(to.flow, from.clock, to.clock, job.cfg[to.flow].period)
  }

  lemma {:induction false} JittersTakenOver(job: Job, wakes: seq<Wakeup>)
    requires Booked(job, wakes)
    ensures TakenOver(job, wakes, SwJitters(job, wakes), Spans(wakes))
  {
    if |wakes| > 0 {
      JittersTakenOver(job, Front(wakes));
    }
  }

  /** Both ends of the span are the wake-ups after frames of the flow. */
  ghost predicate BetweenFrames(core: Core, s: Span) {
    && 0 < s.earlier < s.later < |core.wakes|
    && s.later <= |core.issued|
    && core.issued[s.earlier - 1].flow == core.issued[s.later - 1].flow == core.wakes[s.later].flow
  }

  /** Jitter number i of the run starts at the wake-up before the first frame. */
  ghost predicate FromLaunch(core: Core, i: nat) {
    i < |Spans(core.wakes)| && Spans(core.wakes)[i].earlier == 0
  }

  lemma SpanKind(job: Job, core: Core, i: nat)
    requires WakesFollowFrames(job, core) && i < |Spans(core.wakes)|
    ensures Measured(core.wakes, Spans(core.wakes)[i])
    ensures FromLaunch(core, i) <==> !BetweenFrames(core, Spans(core.wakes)[i])
  {
    SpansMeasured(core.wakes);
    assert Spans(core.wakes)[i] in Spans(core.wakes);
  }

  /**
   * The software jitters of a run are those over the measured spans, in order. Such a span lies
   * between two frames of its flow, unless it starts at the first wake-up of the run.
   */
  lemma JittersMeasure(job: Job, now: u64, readings: seq<Reading>, core: Core)
    requires WellFormed(job) && core == Alone(job, Launched(job, now), readings).core
    ensures Booked(job, core.wakes)
    ensures TakenOver(job, core.wakes, Filter(core.log, IsSwJitter()), Spans(core.wakes))
    ensures forall i | 0 <= i < |Spans(core.wakes)| ::
              Measured(core.wakes, Spans(core.wakes)[i]) &&
              (FromLaunch(core, i) <==> !BetweenFrames(core, Spans(core.wakes)[i]))
  {
    AloneTold(job, now, readings);
    JittersTakenOver(job, core.wakes);
    forall i | 0 <= i < |Spans(core.wakes)|
      ensures Measured(core.wakes, Spans(core.wakes)[i])
      ensures FromLaunch(core, i) <==> !BetweenFrames(core, Spans(core.wakes)[i])
    {
      SpanKind(job, core, i);
    }
  }

  /**
   * Until flow f is woken for a second time, the loop remembers the wake-up of the launch for the
   * flow that was booked there.
   */
  lemma {:induction false} FirstJitterFromStart(wakes: seq<Wakeup>, m: nat, f: nat)
    requires 0 < m <= |wakes| && wakes[0].flow == f
    requires forall j | 0 < j < m :: wakes[j].flow != f
    ensures WakeMemory(wakes[..m], f) == wakes[0].clock
  {
    if m > 1 {
      FirstJitterFromStart(wakes, m - 1, f);
      assert Front(wakes[..m]) == wakes[..m - 1];
    }
  }

  lemma {:induction false} FirstAfterLaunch(wakes: seq<Wakeup>, m: nat) returns (s: Span)
    requires 0 < m < |wakes| && wakes[m].flow == wakes[0].flow && wakes[0].clock != 0
    ensures Measured(wakes, s) && s.earlier == 0 && s.later <= m
  {
    if k :| 0 < k < m && wakes[k].flow == wakes[0].flow {
      s := FirstAfterLaunch(wakes, k);
    } else {
      s := Span(0, m);
    }
  }

  /** The first wake-up of the run is booked to flow f, and f has been woken for again since. */
  ghost predicate WokenAgain(wakes: seq<Wakeup>, f: nat) {
    && |wakes| > 0 && wakes[0].flow == f && wakes[0].clock != 0
    && exists m | 0 < m < |wakes| :: wakes[m].flow == f
  }

  /** The flow that jitter number i of the run is booked to. */
  function JitterFlow(core: Core, i: nat): int {
    var jitters := Filter(core.log, IsSwJitter());
    if i < |jitters| then jitters[i].flow else -1
  }

  /** Some recorded software jitter of flow f is measured from the launch. */
  ghost predicate Spurious(core: Core, f: nat) {
    exists i: nat :: FromLaunch(core, i) && JitterFlow(core, i) == f
  }

  lemma SpuriousIfWokenAgain(job: Job, core: Core, f: nat)
    requires Booked(job, core.wakes) && WokenAgain(core.wakes, f)
    requires TakenOver(job, core.wakes, Filter(core.log, IsSwJitter()), Spans(core.wakes))
    ensures Spurious(core, f)
  {
    SpansMeasured(core.wakes);
    var m :| 0 < m < |core.wakes| && core.wakes[m].flow == f;
    var s := FirstAfterLaunch(core.wakes, m);
    var i :| 0 <= i < |Spans(core.wakes)| && Spans(core.wakes)[i] == s;
    assert FromLaunch(core, i) && JitterFlow(core, i) == f;
  }

  lemma WokenAgainIfSpurious(job: Job, core: Core, f: nat)
    requires Booked(job, core.wakes) && Spurious(core, f)
    requires TakenOver(job, core.wakes, Filter(core.log, IsSwJitter()), Spans(core.wakes))
    ensures WokenAgain(core.wakes, f)
  {
    SpansMeasured(core.wakes);
    var i: nat :| FromLaunch(core, i) && JitterFlow(core, i) == f;
    assert Measured(core.wakes, Spans(core.wakes)[i]) by {
      assert Spans(core.wakes)[i] in Spans(core.wakes);
    }
  }

  /** The first wake-up of a second cycle is booked to the last flow of the table again. */
  lemma SecondCycleWakes(job: Job, core: Core)
    requires Sane(job, core) && IssuesDue(job, core) && WakesFollowFrames(job, core)
    requires 0 < |job.order| < |core.wakes|
    ensures core.wakes[|job.order|].flow == Last(job.order)
  {
    var n := |job.order|;
    var e := core.issued[n - 1];
    assert IssueDue(job, e, n - 1);
    SameQuotient(n, e.cycle, e.slot, 0, n - 1);
  }

  lemma SpuriousIff(job: Job, core: Core, f: nat)
    requires WakesFollowFrames(job, core) && job.order != []
    requires TakenOver(job, core.wakes, Filter(core.log, IsSwJitter()), Spans(core.wakes))
    ensures Spurious(core, f) <==> f == Last(job.order) && WokenAgain(core.wakes, f)
  {
    if Spurious(core, f) {
      WokenAgainIfSpurious(job, core, f);
    }
    if WokenAgain(core.wakes, f) {
      SpuriousIfWokenAgain(job, core, f);
    }
  }

  lemma SecondCycleSpurious(job: Job, core: Core)
    requires Sane(job, core) && IssuesDue(job, core) && WakesFollowFrames(job, core)
    requires TakenOver(job, core.wakes, Filter(core.log, IsSwJitter()), Spans(core.wakes))
    requires 0 < |job.order| < |core.wakes| && core.wakes[0].clock != 0
    ensures Spurious(core, Last(job.order))
  {
    SecondCycleWakes(job, core);
    SpuriousIfWokenAgain(job, core, Last(job.order));
  }

  /**
   * A jitter of flow f is measured from the launch exactly when f ends the table, has been woken
   * for again, and the clock did not read 0 at the first wake-up. So it is for the last flow once a
   * second cycle has begun.
   */
  lemma SpuriousJitter(job: Job, now: u64, readings: seq<Reading>, core: Core, f: nat)
    requires WellFormed(job) && job.order != [] && core == Alone(job, Launched(job, now), readings).core
    ensures Spurious(core, f) <==> f == Last(job.order) && WokenAgain(core.wakes, f)
    ensures |core.wakes| > |job.order| && core.wakes[0].clock != 0 ==> Spurious(core, Last(job.order))
  {
    AloneTold(job, now, readings);
    JittersTakenOver(job, core.wakes);
    SpuriousIff(job, core, f);
    if |core.wakes| > |job.order| && core.wakes[0].clock != 0 {
      AloneKept(job, now, readings);
      SecondCycleSpurious(job, core);
    }
  }

  /** A table of one slot, and a base time the clock stays below. */
  const LONE: Job := Job([FlowSpec(1, 0, 0, 0)], [0], 100, 0, false)

  const QUIET: Reading := Reading(0, true, None)

  /** The time is tested, then the clock shows `wake`. */
  function LoneWake(before: seq<Reading>, wake: u64): seq<Reading> {
    before + [QUIET] + [Reading(wake, true, None)]
  }

  function LoneCycle(before: seq<Reading>, wake: u64): seq<Reading> {
    LoneWake(before, wake) + [QUIET] + [QUIET] + [QUIET] + [QUIET]
  }

  lemma AloneAppend(job: Job, v: View, readings: seq<Reading>, r: Reading)
    requires Fits(job, v)
    ensures Alone(job, v, readings + [r]) == Step(job, Alone(job, v, readings), r)
  {
    assert Front(readings + [r]) == readings;
  }

  lemma LoneWakes(v: View, before: seq<Reading>, wake: u64)
    requires Fits(LONE, v)
    requires Alone(LONE, v, before).core.pc.Test? && Alone(LONE, v, before).core.now < 100
    ensures var core, next := Alone(LONE, v, before).core, Alone(LONE, v, LoneWake(before, wake)).core;
            next.pc.IncLoad? && next.wakes == core.wakes + [Wakeup(0, wake)] && next.now == wake
  {
    AloneAppend(LONE, v, before, QUIET);
    AloneAppend(LONE, v, before + [QUIET], Reading(wake, true, None));
  }

  lemma LoneFrame(v: View, rs: seq<Reading>)
    requires Fits(LONE, v) && Alone(LONE, v, rs).core.pc.IncLoad?
    ensures var core, next := Alone(LONE, v, rs).core, Alone(LONE, v, rs + [QUIET] + [QUIET] + [QUIET] + [QUIET]).core;
            next.pc.Test? && next.wakes == core.wakes && next.now in {0, core.now}
  {
    AloneAppend(LONE, v, rs, QUIET);
    AloneAppend(LONE, v, rs + [QUIET], QUIET);
    AloneAppend(LONE, v, rs + [QUIET] + [QUIET], QUIET);
    AloneAppend(LONE, v, rs + [QUIET] + [QUIET] + [QUIET], QUIET);
  }

  /** Such a jitter is taken in a run of two frames, at clock 7 against the wake-up at clock 5. */
  lemma SpuriousJitterHappens()
    ensures Spurious(Alone(LONE, Launched(LONE, 0), LoneCycle(LoneCycle([], 5), 7)).core, 0)
  {
    var v, first := Launched(LONE, 0), LoneCycle([], 5);
    LoneWakes(v, [], 5);
    LoneFrame(v, LoneWake([], 5));
    LoneWakes(v, first, 7);
    LoneFrame(v, LoneWake(first, 7));
    SpuriousJitter(LONE, 0, LoneCycle(first, 7), Alone(LONE, v, LoneCycle(first, 7)).core, 0);
  }
}
