/**
 * What a run's readings come to: which frames were missed, sent or refused, and when the clock was
 * read. Counters, hardware samples and wake-ups are tied to the readings here, not to the loop's own
 * record of its calls.
 */
module Outcomes {
  import opened Words
  import opened Sequences
  import opened Flows
  import opened Statistics
  import opened TxCore
  import opened Wrappers
  import History

  /** One frame: its flow and transmit time, whether its turn came too late, and what the port answered. */
  datatype Outcome = Outcome(flow: nat, txtime: u64, late: bool, sent: bool, stamp: Option<u64>)

  /** The outcome of the frame that is about to be sent, if the port answers r. */
  function OutcomeOf(job: Job, core: Core, r: Reading): Outcome
    requires Sane(job, core) && core.pc.Send?
  {
    var f := job.order[core.slot];
    Outcome(f, core.txtime, TooLate(job.cfg[f], core.now, core.txtime), r.sent, r.stamp)
  }

  /** The outcomes of all frames of a run. */
  function OutcomesOf(job: Job, v: View, readings: seq<Reading>): seq<Outcome>
    requires Fits(job, v)
  {
    if |readings| == 0 then []
    else
      var before, u := OutcomesOf(job, v, Front(readings)), Alone(job, v, Front(readings));
      if u.core.pc.Send? then before + [OutcomeOf(job, u.core, Last(readings))] else before
  }

  /** A row of the statistics is about all flows or about one. */
  predicate About(o: Outcome, row: nat, numFlows: nat) {
    o.flow == row || row == numFlows
  }

  function Any(row: nat, numFlows: nat): Outcome -> bool {
    (o: Outcome) => About(o, row, numFlows)
  }

  function Late(row: nat, numFlows: nat): Outcome -> bool {
    (o: Outcome) => About(o, row, numFlows) && o.late
  }

  function Refused(row: nat, numFlows: nat): Outcome -> bool {
    (o: Outcome) => About(o, row, numFlows) && !o.late && !o.sent
  }

  function Accepted(row: nat, numFlows: nat): Outcome -> bool {
    (o: Outcome) => About(o, row, numFlows) && !o.late && o.sent
  }

  // ---------- One step ----------

  /** Everything but the counters of a row. */
  predicate SameMetrics(r: Row, s: Row) {
    r.jitterHw == s.jitterHw && r.jitterSw == s.jitterSw && r.deltaSw == s.deltaSw && r.deltaHw == s.deltaHw
  }

  predicate SameCounters(r: Row, s: Row) {
    r.total == s.total && r.misdl == s.misdl && r.drop == s.drop && r.send == s.send
  }

  /** A row has counted one more frame of this outcome; hardware stamps play no part in it. */
  predicate Counts(r: Row, s: Row, o: Outcome) {
    && s.total == r.total + 1
    && s.misdl == r.misdl + (if o.late then 1 else 0)
    && s.drop == r.drop + (if !o.late && !o.sent then 1 else 0)
    && s.send == r.send + (if !o.late && o.sent then 1 else 0)
  }

  /** The frame gives a hardware sample: stamps are on, it was sent, and its stamp could be read. */
  predicate Stamped(hw: bool, o: Outcome) {
    hw && !o.late && o.sent && o.stamp.Some?
  }

  /** The calls of a frame: it is counted, and perhaps sampled. */
  lemma FrameCalls(job: Job, core: Core, r: Reading)
    requires Sane(job, core) && core.pc.Send?
    ensures var o, ops := OutcomeOf(job, core, r), FrameOps(job, core, r);
            && |ops| > 0 && ops[0] == Nums(o.flow, o.late, !o.late && !o.sent)
            && (!Stamped(job.hw, o) ==> ops == [ops[0]])
            && (Stamped(job.hw, o) ==>
                  && 2 <= |ops| <= 3 && (|ops| == 3 ==> ops[2].HwJitter?)
                  && ops == [ops[0], TimeHw(o.flow, o.stamp.value, o.txtime)] + ops[2..])
  {
  }

  /** A frame, once its turn is over, is counted in its flow's row and in the core row, and nowhere else. */
  lemma SendCounts(job: Job, v: View, r: Reading, row: nat)
    requires Fits(job, v) && v.core.pc.Send?
    ensures var o, n := OutcomeOf(job, v.core, r), |job.cfg|;
            var before, after := RowAfter(n, v.core.log, row), RowAfter(n, Step(job, v, r).core.log, row);
            if About(o, row, n) then Counts(before, after, o) else SameCounters(before, after)
  {
    FrameCalls(job, v.core, r);
    assert Step(job, v, r).core.log == v.core.log + FrameOps(job, v.core, r);
    CountedOnce(|job.cfg|, v.core.log, FrameOps(job, v.core, r), OutcomeOf(job, v.core, r), row);
  }

  lemma CountedOnce(numFlows: nat, log: seq<Op>, ops: seq<Op>, o: Outcome, row: nat)
    requires |ops| > 0 && ops[0] == Nums(o.flow, o.late, !o.late && !o.sent)
    requires forall k | 1 <= k < |ops| :: !ops[k].Nums?
    ensures var before, after := RowAfter(numFlows, log, row), RowAfter(numFlows, log + ops, row);
            if About(o, row, numFlows) then Counts(before, after, o) else SameCounters(before, after)
  {
    assert log + ops == (log + [ops[0]]) + ops[1..];
    FrameCounted(numFlows, log, o.flow, o.late, !o.late && !o.sent, row);
    SamplesKeepCounters(numFlows, log + [ops[0]], ops[1..], row);
  }

  lemma {:induction false} SamplesKeepCounters(numFlows: nat, log: seq<Op>, more: seq<Op>, row: nat)
    requires forall k | 0 <= k < |more| :: !more[k].Nums?
    ensures SameCounters(RowAfter(numFlows, log, row), RowAfter(numFlows, log + more, row))
  {
    if |more| == 0 {
      assert log + more == log;
    } else {
      SamplesKeepCounters(numFlows, log, Front(more), row);
      assert log + more == (log + Front(more)) + [Last(more)];
      RowAfterAppend(numFlows, log + Front(more), Last(more), row);
    }
  }

  /** All other steps leave the counters alone. */
  lemma OtherStepsKeepCounters(job: Job, v: View, r: Reading, row: nat)
    requires Fits(job, v) && !v.core.pc.Send?
    ensures SameCounters(RowAfter(|job.cfg|, v.core.log, row), RowAfter(|job.cfg|, Step(job, v, r).core.log, row))
  {
    if v.core.pc.Wake? {
      SamplesKeepCounters(|job.cfg|, v.core.log, LateOps(job, v.core, r.clock), row);
    }
  }

  /**
   * The hardware delta of the flow's row and of the core row becomes the deviation of the stamp from
   * the frame's transmit time; without a stamp it stays.
   */
  lemma SendSamples(job: Job, v: View, r: Reading, row: nat)
    requires Fits(job, v) && v.core.pc.Send?
    ensures var o, n := OutcomeOf(job, v.core, r), |job.cfg|;
            var before, after := RowAfter(n, v.core.log, row), RowAfter(n, Step(job, v, r).core.log, row);
            if Stamped(job.hw, o) && About(o, row, n) then
              TakesSample(before.deltaHw, after.deltaHw, after.send, o.stamp.value - o.txtime)
            else after.deltaHw == before.deltaHw
  {
    var n, o, ops := |job.cfg|, OutcomeOf(job, v.core, r), FrameOps(job, v.core, r);
    assert Step(job, v, r).core.log == v.core.log + ops;
    FrameCalls(job, v.core, r);
    if Stamped(job.hw, o) {
      StampedSample(n, v.core.log, ops[0], o.flow, o.stamp.value, o.txtime, ops[2..], row);
    } else {
      FrameCounted(n, v.core.log, ops[0].flow, ops[0].missed, ops[0].failed, row);
    }
  }

  lemma StampedSample(numFlows: nat, log: seq<Op>, count: Op, f: nat, hwtime: u64, txtime: u64,
                      jitter: seq<Op>, row: nat)
    requires count.Nums? && |jitter| <= 1 && (|jitter| == 1 ==> jitter[0].HwJitter?)
    ensures var before := RowAfter(numFlows, log, row);
            var after := RowAfter(numFlows, log + ([count, TimeHw(f, hwtime, txtime)] + jitter), row);
            if f == row || row == numFlows then
              TakesSample(before.deltaHw, after.deltaHw, after.send, hwtime - txtime)
            else after.deltaHw == before.deltaHw
  {
    var one := log + [count];
    var two := one + [TimeHw(f, hwtime, txtime)];
    FrameCounted(numFlows, log, count.flow, count.missed, count.failed, row);
    HwDeltaTaken(numFlows, one, f, hwtime, txtime, row);
    if |jitter| == 0 {
      assert log + ([count, TimeHw(f, hwtime, txtime)] + jitter) == two;
    } else {
      assert log + ([count, TimeHw(f, hwtime, txtime)] + jitter) == two + [jitter[0]];
      HwJitterTaken(numFlows, two, jitter[0].flow, jitter[0].prev, jitter[0].now, jitter[0].period, row);
    }
  }

  // ---------- Runs ----------

  /**
   * In every state of a run each counter of each row is the number of its frames with that outcome:
   * late ones are missed, refused ones are dropped, and only accepted ones are sent.
   */
  lemma {:induction false} CountersOfRun(job: Job, now: u64, readings: seq<Reading>, row: nat)
    requires WellFormed(job)
    ensures var n, os := |job.cfg|, OutcomesOf(job, Launched(job, now), readings);
            var s := RowAfter(n, Alone(job, Launched(job, now), readings).core.log, row);
            && s.total == |Filter(os, Any(row, n))|
            && s.misdl == |Filter(os, Late(row, n))|
            && s.drop == |Filter(os, Refused(row, n))|
            && s.send == 1 + |Filter(os, Accepted(row, n))|
  {
    if |readings| > 0 {
      var v, r, n := Launched(job, now), Last(readings), |job.cfg|;
      CountersOfRun(job, now, Front(readings), row);
      var u, os := Alone(job, v, Front(readings)), OutcomesOf(job, v, Front(readings));
      if u.core.pc.Send? {
        SendCounts(job, u, r, row);
        var o := OutcomeOf(job, u.core, r);
        FilterAppend(os, o, Any(row, n));
        FilterAppend(os, o, Late(row, n));
        FilterAppend(os, o, Refused(row, n));
        FilterAppend(os, o, Accepted(row, n));
      } else {
        OtherStepsKeepCounters(job, u, r, row);
      }
    }
  }

  /** The frames whose turn is over are those that were issued, each with its transmit time. */
  ghost predicate FromIssues(core: Core, os: seq<Outcome>) {
    && |os| + (if core.pc.Send? then 1 else 0) == |core.issued|
    && forall m | 0 <= m < |os| :: os[m].flow == core.issued[m].flow && os[m].txtime == core.issued[m].txtime
  }

  /**
   * Hence the port is handed the frames of the table one after the other, with the transmit times the
   * table gives them, but for those that are late.
   */
  lemma {:induction false} OutcomesOfIssues(job: Job, now: u64, readings: seq<Reading>)
    requires WellFormed(job)
    ensures FromIssues(Alone(job, Launched(job, now), readings).core, OutcomesOf(job, Launched(job, now), readings))
  {
    if |readings| > 0 {
      OutcomesOfIssues(job, now, Front(readings));
      AloneKept(job, now, Front(readings));
      StepFromIssues(job, Alone(job, Launched(job, now), Front(readings)), Last(readings),
                     OutcomesOf(job, Launched(job, now), Front(readings)));
    }
  }

  lemma StepFromIssues(job: Job, u: View, r: Reading, os: seq<Outcome>)
    requires Fits(job, u) && FromIssues(u.core, os) && CallsAttributed(job, u.core)
    ensures FromIssues(Step(job, u, r).core, if u.core.pc.Send? then os + [OutcomeOf(job, u.core, r)] else os)
  {
  }

  function IsTimeHw(): Op -> bool {
    (op: Op) => op.TimeHw?
  }

  /** One hardware delta for each frame with a stamp. */
  function HwDeltas(hw: bool, os: seq<Outcome>): seq<Op> {
    if |os| == 0 then []
    else
      HwDeltas(hw, Front(os)) +
      (if Stamped(hw, Last(os)) then [TimeHw(Last(os).flow, Last(os).stamp.value, Last(os).txtime)] else [])
  }

  /** The hardware deltas of a run are those of its stamped frames, in order. */
  lemma {:induction false} HwDeltasOfRun(job: Job, now: u64, readings: seq<Reading>)
    requires WellFormed(job)
    ensures Filter(Alone(job, Launched(job, now), readings).core.log, IsTimeHw()) ==
            HwDeltas(job.hw, OutcomesOf(job, Launched(job, now), readings))
  {
    if |readings| > 0 {
      HwDeltasOfRun(job, now, Front(readings));
      StepHwDeltas(job, Alone(job, Launched(job, now), Front(readings)), Last(readings),
                   OutcomesOf(job, Launched(job, now), Front(readings)));
    }
  }

  lemma StepHwDeltas(job: Job, u: View, r: Reading, os: seq<Outcome>)
    requires Fits(job, u) && Filter(u.core.log, IsTimeHw()) == HwDeltas(job.hw, os)
    ensures Filter(Step(job, u, r).core.log, IsTimeHw()) ==
            HwDeltas(job.hw, if u.core.pc.Send? then os + [OutcomeOf(job, u.core, r)] else os)
  {
    if u.core.pc.Wake? {
      FilterConcat(u.core.log, LateOps(job, u.core, r.clock), IsTimeHw());
      FilterNone(LateOps(job, u.core, r.clock), IsTimeHw());
    } else if u.core.pc.Send? {
      FilterConcat(u.core.log, FrameOps(job, u.core, r), IsTimeHw());
      FrameHwDeltas(job, u.core, r);
      HwDeltasAppend(job.hw, os, OutcomeOf(job, u.core, r));
    }
  }

  lemma HwDeltasAppend(hw: bool, os: seq<Outcome>, o: Outcome)
    ensures HwDeltas(hw, os + [o]) == HwDeltas(hw, os) + HwDeltas(hw, [o])
  {
    assert Front(os + [o]) == os;
  }

  lemma FrameHwDeltas(job: Job, core: Core, r: Reading)
    requires Sane(job, core) && core.pc.Send?
    ensures Filter(FrameOps(job, core, r), IsTimeHw()) == HwDeltas(job.hw, [OutcomeOf(job, core, r)])
  {
    var ops := FrameOps(job, core, r);
    if |ops| == 1 {
      FilterNone(ops, IsTimeHw());
    } else {
      assert ops == [ops[0], ops[1]] + ops[2..];
      FilterConcat([ops[0], ops[1]], ops[2..], IsTimeHw());
      FilterNone(ops[2..], IsTimeHw());
      FilterAppend([ops[0]], ops[1], IsTimeHw());
      assert [ops[0]] + [ops[1]] == [ops[0], ops[1]];
      FilterNone([ops[0]], IsTimeHw());
    }
  }

  // ---------- What the hardware jitters measure ----------

  /** The frame was missed or not accepted: its flow's stamp is forgotten. */
  predicate Lost(o: Outcome) {
    o.late || !o.sent
  }

  /** The latest frame of flow f with a stamp, unless a later frame of the flow was lost. */
  function Remembered(hw: bool, os: seq<Outcome>, f: nat): (j: Option<nat>)
    ensures j.Some? ==>
              && j.value < |os| && os[j.value].flow == f && Stamped(hw, os[j.value])
              && forall k | j.value < k < |os| && os[k].flow == f :: !Lost(os[k]) && !Stamped(hw, os[k])
    ensures j.None? ==>
              forall i | 0 <= i < |os| && os[i].flow == f && Stamped(hw, os[i]) ::
                exists k | i < k < |os| :: os[k].flow == f && Lost(os[k])
  {
    if |os| == 0 then None
    else if Last(os).flow == f && Stamped(hw, Last(os)) then Some(|os| - 1)
    else if Last(os).flow == f && Lost(Last(os)) then None
    else
      var j := Remembered(hw, Front(os), f);
      assert forall i | 0 <= i < |os| - 1 :: Front(os)[i] == os[i];
      j
  }

  function StampMemory(hw: bool, os: seq<Outcome>, f: nat): u64 {
    var j := Remembered(hw, os, f);
    if j.Some? then os[j.value].stamp.value else 0
  }

  /** One jitter between each stamped frame and the remembered one of its flow, if that was not stamped 0. */
  function HwJittersOf(job: Job, os: seq<Outcome>): seq<Op>
    requires forall k | 0 <= k < |os| :: os[k].flow < |job.cfg|
  {
    if |os| == 0 then []
    else
      var o, from := Last(os), StampMemory(job.hw, Front(os), Last(os).flow);
      HwJittersOf(job, Front(os)) +
      (if Stamped(job.hw, o) && from != 0 then
         [HwJitter(o.flow, from, o.stamp.value, job.cfg[o.flow].period)]
       else [])
  }

  ghost predicate HwTold(job: Job, core: Core, os: seq<Outcome>) {
    && |core.prevHwtime| == |job.cfg|
    && (forall k | 0 <= k < |os| :: os[k].flow < |job.cfg|)
    && (forall f | 0 <= f < |job.cfg| :: core.prevHwtime[f] == StampMemory(job.hw, os, f))
    && Filter(core.log, History.IsHwJitter()) == HwJittersOf(job, os)
  }

  lemma StampMemoryNext(hw: bool, os: seq<Outcome>, o: Outcome, f: nat)
    ensures StampMemory(hw, os + [o], f) ==
            if o.flow == f && Stamped(hw, o) then o.stamp.value
            else if o.flow == f && Lost(o) then 0
            else StampMemory(hw, os, f)
  {
    assert Front(os + [o]) == os;
  }

  lemma SendHwTold(job: Job, core: Core, r: Reading, os: seq<Outcome>)
    requires Sane(job, core) && core.pc.Send? && HwTold(job, core, os)
    ensures HwTold(job, AfterSend(job, core, r), os + [OutcomeOf(job, core, r)])
  {
    var o := OutcomeOf(job, core, r);
    forall f | 0 <= f < |job.cfg|
      ensures AfterSend(job, core, r).prevHwtime[f] == StampMemory(job.hw, os + [o], f)
    {
      SendRemembers(job, core, r, os, f);
    }
    FilterConcat(core.log, FrameOps(job, core, r), History.IsHwJitter());
    FrameHwJitter(job, core, r);
    assert Front(os + [o]) == os;
  }

  lemma SendRemembers(job: Job, core: Core, r: Reading, os: seq<Outcome>, f: nat)
    requires Sane(job, core) && core.pc.Send? && f < |job.cfg|
    requires core.prevHwtime[f] == StampMemory(job.hw, os, f)
    ensures AfterSend(job, core, r).prevHwtime[f] == StampMemory(job.hw, os + [OutcomeOf(job, core, r)], f)
  {
    StampMemoryNext(job.hw, os, OutcomeOf(job, core, r), f);
  }

  lemma FrameHwJitter(job: Job, core: Core, r: Reading)
    requires Sane(job, core) && core.pc.Send?
    ensures var o := OutcomeOf(job, core, r);
            Filter(FrameOps(job, core, r), History.IsHwJitter()) ==
            if Stamped(job.hw, o) && core.prevHwtime[o.flow] != 0 then
              [HwJitter(o.flow, core.prevHwtime[o.flow], o.stamp.value, job.cfg[o.flow].period)]
            else []
  {
    var ops := FrameOps(job, core, r);
    if |ops| == 3 {
      assert ops == [ops[0], ops[1]] + [ops[2]];
      FilterAppend([ops[0], ops[1]], ops[2], History.IsHwJitter());
      FilterNone([ops[0], ops[1]], History.IsHwJitter());
    } else {
      FilterNone(ops, History.IsHwJitter());
    }
  }

  /** The hardware jitters of a run are those between its stamped frames, in order. */
  lemma {:induction false} HwJittersOfRun(job: Job, now: u64, readings: seq<Reading>)
    requires WellFormed(job)
    ensures HwTold(job, Alone(job, Launched(job, now), readings).core, OutcomesOf(job, Launched(job, now), readings))
  {
    if |readings| > 0 {
      HwJittersOfRun(job, now, Front(readings));
      StepHwTold(job, Alone(job, Launched(job, now), Front(readings)), Last(readings),
                 OutcomesOf(job, Launched(job, now), Front(readings)));
    }
  }

  lemma StepHwTold(job: Job, u: View, r: Reading, os: seq<Outcome>)
    requires Fits(job, u) && HwTold(job, u.core, os)
    ensures HwTold(job, Step(job, u, r).core, if u.core.pc.Send? then os + [OutcomeOf(job, u.core, r)] else os)
  {
    if u.core.pc.Wake? {
      FilterConcat(u.core.log, LateOps(job, u.core, r.clock), History.IsHwJitter());
      FilterNone(LateOps(job, u.core, r.clock), History.IsHwJitter());
    } else if u.core.pc.Send? {
      SendHwTold(job, u.core, r, os);
    }
  }

  // ---------- The clock ----------

  /** What the clock showed at each wake-up. */
  function WakeClocks(job: Job, v: View, readings: seq<Reading>): seq<u64>
    requires Fits(job, v)
  {
    if |readings| == 0 then []
    else
      var before := WakeClocks(job, v, Front(readings));
      if Alone(job, v, Front(readings)).core.pc.Wake? then before + [Last(readings).clock] else before
  }

  function ClocksOf(wakes: seq<Wakeup>): (s: seq<u64>)
    ensures |s| == |wakes| && forall m | 0 <= m < |s| :: s[m] == wakes[m].clock
  {
    seq(|wakes|, m requires 0 <= m < |wakes| => wakes[m].clock)
  }

  /** The wake-ups on record are the clock readings at the top of the loop body, in order. */
  lemma {:induction false} WakesOfRun(job: Job, v: View, readings: seq<Reading>)
    requires Fits(job, v)
    ensures ClocksOf(Alone(job, v, readings).core.wakes) == ClocksOf(v.core.wakes) + WakeClocks(job, v, readings)
  {
    if |readings| > 0 {
      WakesOfRun(job, v, Front(readings));
      StepWakes(job, Alone(job, v, Front(readings)), Last(readings));
    }
  }

  lemma StepWakes(job: Job, u: View, r: Reading)
    requires Fits(job, u)
    ensures ClocksOf(Step(job, u, r).core.wakes) ==
            ClocksOf(u.core.wakes) + (if u.core.pc.Wake? then [r.clock] else [])
  {
  }

  /** The latest reading of the clock: at the launch, at a wake-up, or before a frame that was not late. */
  function LatestClock(job: Job, now: u64, readings: seq<Reading>): u64
    requires WellFormed(job)
  {
    if |readings| == 0 then now
    else
      var core := Alone(job, Launched(job, now), Front(readings)).core;
      if core.pc.Wake? || (core.pc.Send? && !OutcomeOf(job, core, Last(readings)).late) then Last(readings).clock
      else LatestClock(job, now, Front(readings))
  }

  /** `current_time` is always that. */
  lemma {:induction false} ClockOfRun(job: Job, now: u64, readings: seq<Reading>)
    requires WellFormed(job)
    ensures Alone(job, Launched(job, now), readings).core.now == LatestClock(job, now, readings)
  {
    if |readings| > 0 {
      ClockOfRun(job, now, Front(readings));
      StepClock(job, Alone(job, Launched(job, now), Front(readings)), Last(readings));
    }
  }

  lemma StepClock(job: Job, u: View, r: Reading)
    requires Fits(job, u)
    ensures Step(job, u, r).core.now ==
            if u.core.pc.Wake? || (u.core.pc.Send? && !OutcomeOf(job, u.core, r).late) then r.clock else u.core.now
  {
  }
}
