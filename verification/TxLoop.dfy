/** `tx_loop` of talker.c as the nested loop it is, over the shared objects. */
module TxLoop {
  import opened Words
  import opened Sequences
  import opened Flows
  import opened Statistics
  import opened TxCore
  import opened Wrappers

  /**
   * What the port answers: the clock at the launch, and before and at each frame, the send result
   * and the timestamp, by cycle and slot.
   */
  datatype Port = Port(start: u64, wake: (nat, nat) -> u64, send: (nat, nat) -> Reading)

  function Clock(now: u64): Reading {
    Reading(now, false, None)
  }

  /** A state the machine reaches by itself from its launch. */
  ghost predicate Reachable(job: Job, v: View) {
    WellFormed(job) &&
    exists now: u64, readings: seq<Reading> :: v == Alone(job, Launched(job, now), readings)
  }

  lemma ReachableKept(job: Job, v: View)
    requires Reachable(job, v)
    ensures Kept(job, v)
  {
    var now: u64, readings: seq<Reading> :| v == Alone(job, Launched(job, now), readings);
    AloneKept(job, now, readings);
  }

  // ---------- The readings of the loop, in the machine's steps ----------

  /** One frame: the wake-up reads the clock, the send reads the rest, the steps between read nothing. */
  function FrameReadings(wake: u64, r: Reading): seq<Reading> {
    [Clock(wake), Clock(0), Clock(0), Clock(0), r]
  }

  /** Everything read before frame k of cycle c, each cycle opening with a test. */
  function Feed(port: Port, slots: nat, c: nat, k: nat): seq<Reading>
    decreases c, k + 1
  {
    if k > 0 then Feed(port, slots, c, k - 1) + FrameReadings(port.wake(c, k - 1), port.send(c, k - 1))
    else CycleFeed(port, slots, c) + [Clock(0)]
  }

  /** Everything read in the first c cycles. */
  function CycleFeed(port: Port, slots: nat, c: nat): seq<Reading>
    decreases c, 0
  {
    if c == 0 then [] else Feed(port, slots, c - 1, slots)
  }

  /** The state the machine is in after these readings. */
  ghost predicate FedBy(job: Job, port: Port, v: View, readings: seq<Reading>) {
    WellFormed(job) && v == Alone(job, Launched(job, port.start), readings)
  }

  lemma LaunchFed(job: Job, port: Port)
    requires WellFormed(job)
    ensures FedBy(job, port, Launched(job, port.start), CycleFeed(port, |job.order|, 0))
  {
  }

  lemma StepFed(job: Job, port: Port, v: View, readings: seq<Reading>, r: Reading)
    requires FedBy(job, port, v, readings)
    ensures Fits(job, v) && FedBy(job, port, Step(job, v, r), readings + [r])
  {
    assert Front(readings + [r]) == readings;
  }

  // ---------- When the loop stops ----------

  function LastFlow(job: Job): nat
    requires job.order != []
  {
    job.order[|job.order| - 1]
  }

  /** Every flow of the table comes round in exactly one hyperperiod. */
  ghost predicate Periodic(job: Job, cycle: nat) {
    WellFormed(job) &&
    forall k | 0 <= k < |job.order| :: Count(job.order, job.order[k]) * job.cfg[job.order[k]].period == cycle
  }

  /** The moment the run is over. */
  function End(job: Job): nat {
    job.base + job.runtime * 1_000_000_000
  }

  /** The duration of the run, allowing for the wake-up margin of the last flow in the table. */
  function Deadline(job: Job): nat
    requires WellFormed(job) && job.order != []
  {
    job.runtime * 1_000_000_000 + job.cfg[LastFlow(job)].delta
  }

  /** Cycle c may still be started: it is the first, or c hyperperiods end before the deadline. */
  predicate InTime(job: Job, cycle: nat, c: nat)
    requires WellFormed(job) && job.order != []
  {
    c == 0 || c * cycle < Deadline(job)
  }

  /** Frame k of cycle c is woken for more than 1 ms after its wake-up time. */
  predicate WokenLate(job: Job, port: Port, c: nat, k: nat)
    requires WellFormed(job) && k < |job.order|
  {
    port.wake(c, k) > Due(job, c, k) - job.cfg[job.order[k]].delta + 1_000_000
  }

  /**
   * The latest reading of the clock when the time is tested after c cycles: at the launch, or at the
   * wake-up for the last frame if that was missed, or else before it was sent.
   */
  function ClockAt(job: Job, port: Port, c: nat): u64
    requires WellFormed(job) && job.order != []
  {
    var k := |job.order| - 1;
    if c == 0 then port.start
    else if WokenLate(job, port, c - 1, k) then port.wake(c - 1, k)
    else port.send(c - 1, k).clock
  }

  /** The clock has reached the wake-up time of the last frame of cycle c. */
  predicate CaughtUp(job: Job, now: u64, c: nat)
    requires WellFormed(job) && job.order != []
  {
    now >= Due(job, c, |job.order| - 1) - job.cfg[LastFlow(job)].delta
  }

  /** No time of the run leaves the 64-bit range. */
  ghost predicate WithinRange(job: Job, cycle: nat)
    requires WellFormed(job) && job.order != []
  {
    forall i | i in job.order ::
      && job.cfg[i].delta <= job.base
      && job.base + job.cfg[i].offset + cycle + Deadline(job) + FUDGE < TWO64
  }

  /** Within frame k of cycle c the clock does not run backwards, and a sleep lasts until the wake-up time. */
  ghost predicate ElapsesAt(job: Job, port: Port, c: nat, k: nat)
    requires WellFormed(job) && k < |job.order|
  {
    var wakeUp := Due(job, c, k) - job.cfg[job.order[k]].delta;
    && port.wake(c, k) <= port.send(c, k).clock
    && (port.wake(c, k) < wakeUp ==> wakeUp <= port.send(c, k).clock)
  }

  /** The same in every cycle that can still start. */
  ghost predicate SleepElapses(job: Job, port: Port, cycle: nat)
    requires WellFormed(job) && job.order != []
  {
    forall c: nat, k: nat | k < |job.order| && InTime(job, cycle, c) :: ElapsesAt(job, port, c, k)
  }

  /** A cycle that starts before the deadline issues no transmit time beyond one hyperperiod after it. */
  lemma DueWithinRange(job: Job, cycle: nat, c: nat, k: nat)
    requires Periodic(job, cycle) && k < |job.order| && WithinRange(job, cycle)
    requires InTime(job, cycle, c)
    ensures var spec := job.cfg[job.order[k]];
            job.base <= Due(job, c, k) && Due(job, c, k) + FUDGE < TWO64 && spec.delta <= job.base
  {
    var i := job.order[k];
    var j, cnt, p := Count(job.order[..k], i), Count(job.order, i), job.cfg[i].period;
    FilterRank(job.order, Is(i), k);
    ProductMonotone(j + 1, cnt, p);
    ProductMonotone(0, j + 1, p);
    DueParts(job, cycle, c, k);
    ProductMonotone(0, c, cycle);
    assert i in job.order;
  }

  lemma DueParts(job: Job, cycle: nat, c: nat, k: nat)
    requires Periodic(job, cycle) && k < |job.order|
    ensures var i := job.order[k];
            Due(job, c, k) ==
            job.base + job.cfg[i].offset + c * cycle + (Count(job.order[..k], i) + 1) * job.cfg[i].period
  {
    var i := job.order[k];
    FrameTime(c, Count(job.order, i), Count(job.order[..k], i) + 1, job.cfg[i].period, cycle);
  }

  /** The last slot of a cycle is due at the start of the next cycle, plus its flow's offset. */
  lemma LastDue(job: Job, cycle: nat, c: nat)
    requires Periodic(job, cycle) && job.order != []
    ensures Due(job, c, |job.order| - 1) == job.base + job.cfg[LastFlow(job)].offset + (c + 1) * cycle
  {
    var k := |job.order| - 1;
    CountStep(job.order, k, LastFlow(job));
    assert job.order[..k + 1] == job.order;
    DueParts(job, cycle, c, k);
    NextProduct(c, cycle);
  }

  /** After a frame, sent or missed, the core's idea of the time has reached the frame's wake-up time. */
  lemma FrameCatchesUp(job: Job, core: Core, r: Reading, due: int)
    requires Sane(job, core) && core.pc.Send?
    requires var delta := job.cfg[core.flow.value].delta;
             && core.txtime == Wrap(due) && delta <= due && due + FUDGE < TWO64
             && core.now <= r.clock
             && (core.now < due - delta ==> due - delta <= r.clock)
    ensures AfterSend(job, core, r).now >= due - job.cfg[core.flow.value].delta
    ensures AfterSend(job, core, r).now ==
            if core.now > due - job.cfg[core.flow.value].delta + 1_000_000 then core.now else r.clock
  {
    LatenessIs(job.cfg[core.flow.value], core.now, due);
  }

  /** Once a cycle is over, the loop goes on only while the deadline is ahead. */
  lemma CycleBound(job: Job, cycle: nat, c: nat, now: u64)
    requires Periodic(job, cycle) && job.order != [] && c > 0
    requires now >= Due(job, c - 1, |job.order| - 1) - job.cfg[LastFlow(job)].delta
    requires now < End(job)
    ensures c * cycle < Deadline(job)
  {
    LastDue(job, cycle, c - 1);
  }

  /** One pass of the inner loop, as five steps of the machine. */
  function FrameRun(job: Job, v: View, wake: u64, r: Reading): View
    requires Fits(job, v) && v.core.pc.Wake?
  {
    Step(job, ReadyRun(job, v, wake), r)
  }

  /** The first four of them: the frame is ready to be sent. */
  function ReadyRun(job: Job, v: View, wake: u64): (u: View)
    requires Fits(job, v) && v.core.pc.Wake?
    ensures Fits(job, u) && u.core.pc.Send? && u.core.now == wake
    ensures u.core.cycle == v.core.cycle && u.core.slot == v.core.slot
  {
    Step(job, Step(job, Step(job, Step(job, v, Clock(wake)), Clock(0)), Clock(0)), Clock(0))
  }

  lemma ReadyRunFed(job: Job, port: Port, v: View, readings: seq<Reading>, wake: u64)
    requires FedBy(job, port, v, readings) && v.core.pc.Wake?
    ensures FedBy(job, port, ReadyRun(job, v, wake), readings + [Clock(wake)] + [Clock(0)] + [Clock(0)] + [Clock(0)])
  {
    var v1 := Step(job, v, Clock(wake));
    var v2 := Step(job, v1, Clock(0));
    var v3 := Step(job, v2, Clock(0));
    StepFed(job, port, v, readings, Clock(wake));
    StepFed(job, port, v1, readings + [Clock(wake)], Clock(0));
    StepFed(job, port, v2, readings + [Clock(wake)] + [Clock(0)], Clock(0));
    StepFed(job, port, v3, readings + [Clock(wake)] + [Clock(0)] + [Clock(0)], Clock(0));
  }

  /**
   * Frame k of cycle c is next, or the cycle's frames are done and the clock has caught up with the
   * last one.
   */
  ghost predicate InCycle(job: Job, port: Port, v: View, c: nat, k: nat) {
    && FedBy(job, port, v, Feed(port, |job.order|, c, k))
    && k <= |job.order| && job.order != []
    && (k < |job.order| ==> v.core.pc.Wake? && v.core.cycle == c && v.core.slot == k)
    && (k == |job.order| ==> v.core.pc.Test? && v.core.cycle == c + 1)
    && (k == |job.order| ==> v.core.now == ClockAt(job, port, c + 1))
    && (k == |job.order| ==> CaughtUp(job, v.core.now, c))
  }

  /** The loop test is next, after c cycles. */
  ghost predicate BetweenCycles(job: Job, port: Port, v: View, c: nat) {
    && FedBy(job, port, v, CycleFeed(port, |job.order|, c))
    && job.order != []
    && v.core.pc.Test? && v.core.cycle == c && v.core.now == ClockAt(job, port, c)
    && (c > 0 ==> CaughtUp(job, v.core.now, c - 1))
  }

  /** The clock had not reached the end of the run at any of the first c tests. */
  ghost predicate RanUntil(job: Job, port: Port, c: nat)
    requires WellFormed(job) && job.order != []
  {
    forall j: nat | j < c :: ClockAt(job, port, j) < End(job)
  }

  /** The same, and if the loop does not go on, that is since the next test found the run at its end. */
  ghost predicate RanFor(job: Job, port: Port, c: nat, goOn: bool) {
    && WellFormed(job) && job.order != []
    && RanUntil(job, port, c) && (!goOn ==> ClockAt(job, port, c) >= End(job))
  }

  lemma RunsOn(job: Job, port: Port, c: nat, goOn: bool)
    requires RanFor(job, port, c, true) && (goOn <==> ClockAt(job, port, c) < End(job))
    ensures RanFor(job, port, if goOn then c + 1 else c, goOn)
  {
  }

  /** The loop is over, after c cycles. */
  ghost predicate Stopped(job: Job, port: Port, v: View, c: nat) {
    && FedBy(job, port, v, CycleFeed(port, |job.order|, c) + [Clock(0)])
    && job.order != []
    && v.core.pc.Done? && v.core.cycle == c && v.core.now == ClockAt(job, port, c)
  }

  lemma EnterCycle(job: Job, port: Port, cycle: nat, v: View, c: nat)
    requires BetweenCycles(job, port, v, c) && Periodic(job, cycle) && v.core.now < End(job)
    ensures InCycle(job, port, Step(job, v, Clock(0)), c, 0)
    ensures InTime(job, cycle, c)
  {
    StepFed(job, port, v, CycleFeed(port, |job.order|, c), Clock(0));
    LoopTest(job, v, Clock(0));
    if c > 0 {
      CycleBound(job, cycle, c, v.core.now);
    }
  }

  lemma FrameRunKept(job: Job, cycle: nat, v: View, c: nat, k: nat, port: Port)
    requires InCycle(job, port, v, c, k) && k < |job.order|
    requires Periodic(job, cycle) && WithinRange(job, cycle) && SleepElapses(job, port, cycle)
    requires InTime(job, cycle, c)
    ensures InCycle(job, port, FrameRun(job, v, port.wake(c, k), port.send(c, k)), c, k + 1)
  {
    FrameRunFed(job, port, v, c, k);
    FrameRunEnds(job, v, port.wake(c, k), port.send(c, k));
    if k + 1 == |job.order| {
      LastFrameKept(job, cycle, v, c, k, port);
    }
  }

  lemma LastFrameKept(job: Job, cycle: nat, v: View, c: nat, k: nat, port: Port)
    requires InCycle(job, port, v, c, k) && k + 1 == |job.order|
    requires Periodic(job, cycle) && WithinRange(job, cycle) && SleepElapses(job, port, cycle)
    requires InTime(job, cycle, c)
    ensures var now := FrameRun(job, v, port.wake(c, k), port.send(c, k)).core.now;
            now == ClockAt(job, port, c + 1) && CaughtUp(job, now, c)
  {
    var wake := port.wake(c, k);
    FrameRunEnds(job, v, wake, port.send(c, k));
    ReadyIsDue(job, port, v, Feed(port, |job.order|, c, k), wake);
    LastSend(job, cycle, ReadyRun(job, v, wake).core, c, k, port);
  }

  /** Where the clock stands after the last frame of a cycle. */
  lemma LastSend(job: Job, cycle: nat, core: Core, c: nat, k: nat, port: Port)
    requires Sane(job, core) && core.pc.Send? && core.slot == k && core.txtime == Wrap(Due(job, c, k))
    requires core.now == port.wake(c, k) && k + 1 == |job.order|
    requires Periodic(job, cycle) && WithinRange(job, cycle) && SleepElapses(job, port, cycle)
    requires InTime(job, cycle, c)
    ensures var now := AfterSend(job, core, port.send(c, k)).now;
            now == ClockAt(job, port, c + 1) && CaughtUp(job, now, c)
  {
    assert ElapsesAt(job, port, c, k);
    SendCatchesUp(job, cycle, core, c, k, port);
  }

  lemma FrameRunFed(job: Job, port: Port, v: View, c: nat, k: nat)
    requires FedBy(job, port, v, Feed(port, |job.order|, c, k)) && v.core.pc.Wake?
    ensures FedBy(job, port, FrameRun(job, v, port.wake(c, k), port.send(c, k)), Feed(port, |job.order|, c, k + 1))
  {
    var readings, wake, r := Feed(port, |job.order|, c, k), port.wake(c, k), port.send(c, k);
    var ready := readings + [Clock(wake)] + [Clock(0)] + [Clock(0)] + [Clock(0)];
    ReadyRunFed(job, port, v, readings, wake);
    StepFed(job, port, ReadyRun(job, v, wake), ready, r);
    JoinFive(readings, Clock(wake), Clock(0), Clock(0), Clock(0), r);
  }

  lemma JoinFive<T>(s: seq<T>, a: T, b: T, c: T, d: T, e: T)
    ensures s + [a] + [b] + [c] + [d] + [e] == s + [a, b, c, d, e]
  {
  }

  lemma FrameRunEnds(job: Job, v: View, wake: u64, r: Reading)
    requires Fits(job, v) && v.core.pc.Wake?
    ensures var last, w := v.core.slot + 1 == |job.order|, FrameRun(job, v, wake, r);
            && w.core.pc == (if last then Test else Wake)
            && w.core.cycle == (if last then v.core.cycle + 1 else v.core.cycle)
            && w.core.slot == (if last then 0 else v.core.slot + 1)
            && w.core.now == AfterSend(job, ReadyRun(job, v, wake).core, r).now
  {
  }

  lemma ReadyIsDue(job: Job, port: Port, v: View, readings: seq<Reading>, wake: u64)
    requires FedBy(job, port, v, readings) && v.core.pc.Wake?
    ensures ReadyRun(job, v, wake).core.txtime == Wrap(Due(job, v.core.cycle, v.core.slot))
  {
    var u := ReadyRun(job, v, wake);
    ReadyRunFed(job, port, v, readings, wake);
    AloneKept(job, port.start, readings + [Clock(wake)] + [Clock(0)] + [Clock(0)] + [Clock(0)]);
    SendIsDue(job, u);
  }

  /**
   * What the two comparisons mean for any words: w is the wake-up time as a word, and a deadline that
   * wraps around has always passed.
   */
  lemma LatenessOfWords(spec: FlowSpec, now: u64, txtime: u64, w: int)
    requires w == if txtime < spec.delta then txtime - spec.delta + 0x1_0000_0000_0000_0000 else txtime - spec.delta
    ensures TooEarly(spec, now, txtime) <==> now < w
    ensures TooLate(spec, now, txtime) <==>
            now >= w && (now > w + 1_000_000 || w + 1_000_000 >= 0x1_0000_0000_0000_0000)
  {
    WrapIs(txtime - spec.delta, if txtime < spec.delta then -1 else 0, w);
    if w + 1_000_000 < TWO64 {
      WrapIs(w + 1_000_000, 0, w + 1_000_000);
    } else {
      WrapIs(w + 1_000_000, 1, w + 1_000_000 - TWO64);
    }
  }

  /** What the two comparisons mean when the due time is in range. */
  lemma LatenessIs(spec: FlowSpec, now: u64, due: int)
    requires spec.delta <= due && due + FUDGE < TWO64
    ensures TooEarly(spec, now, Wrap(due)) <==> now < due - spec.delta
    ensures TooLate(spec, now, Wrap(due)) <==> now > due - spec.delta + 1_000_000
  {
    WrapIs(due, 0, due);
    LatenessOfWords(spec, now, due, due - spec.delta);
  }

  /** A frame counts as missed exactly when the wake-up found it more than 1 ms past its wake-up time. */
  lemma MissedWhenLate(job: Job, v: View, r: Reading, due: int)
    requires Fits(job, v) && Reachable(job, v) && v.core.pc.Send?
    requires due == Due(job, v.core.cycle, v.core.slot)
    requires job.cfg[v.core.flow.value].delta <= due && due + FUDGE < TWO64
    ensures FrameOps(job, v.core, r)[0].missed <==> v.core.now > due - job.cfg[v.core.flow.value].delta + 1_000_000
  {
    ReachableKept(job, v);
    SendIsDue(job, v);
    LatenessIs(job.cfg[v.core.flow.value], v.core.now, due);
  }

  lemma SendCatchesUp(job: Job, cycle: nat, core: Core, c: nat, k: nat, port: Port)
    requires Sane(job, core) && core.pc.Send? && core.slot == k && core.txtime == Wrap(Due(job, c, k))
    requires core.now == port.wake(c, k) && ElapsesAt(job, port, c, k)
    requires Periodic(job, cycle) && WithinRange(job, cycle)
    requires InTime(job, cycle, c)
    ensures AfterSend(job, core, port.send(c, k)).now >= Due(job, c, k) - job.cfg[job.order[k]].delta
    ensures AfterSend(job, core, port.send(c, k)).now ==
            if WokenLate(job, port, c, k) then port.wake(c, k) else port.send(c, k).clock
  {
    var due := Due(job, c, k);
    DueWithinRange(job, cycle, c, k);
    FrameCatchesUp(job, core, port.send(c, k), due);
  }

  lemma LeaveCycle(job: Job, port: Port, v: View, c: nat)
    requires InCycle(job, port, v, c, |job.order|)
    ensures BetweenCycles(job, port, v, c + 1)
  {
  }

  lemma LeaveLoop(job: Job, port: Port, v: View, c: nat)
    requires BetweenCycles(job, port, v, c) && v.core.now >= End(job)
    ensures Stopped(job, port, Step(job, v, Clock(0)), c)
  {
    LoopTest(job, v, Clock(0));
    StepFed(job, port, v, CycleFeed(port, |job.order|, c), Clock(0));
  }

  /** `limit` hyperperiods, and at least one, reach the deadline. */
  predicate Suffices(job: Job, cycle: nat, limit: nat)
    requires WellFormed(job) && job.order != []
  {
    limit > 0 && Deadline(job) <= limit * cycle
  }

  /**
   * What stopping rests on: the table's period, the range of times, the clock, and a number of
   * cycles that suffices.
   */
  ghost predicate Stoppable(job: Job, port: Port, cycle: nat, limit: nat)
    requires WellFormed(job) && job.order != []
  {
    Periodic(job, cycle) && WithinRange(job, cycle) && SleepElapses(job, port, cycle) && Suffices(job, cycle, limit)
  }

  /** A port whose clock shows each frame's wake-up time when the frame's turn comes. */
  ghost function Punctual(job: Job, cycle: nat, start: u64): (port: Port)
    requires Periodic(job, cycle) && job.order != [] && WithinRange(job, cycle)
    ensures port.start == start
  {
    Port(start, (c: nat, k: nat) => WakeUpTime(job, cycle, c, k),
         (c: nat, k: nat) => Clock(WakeUpTime(job, cycle, c, k)))
  }

  /** When frame k of cycle c is woken for; 0 for a frame that never comes. */
  ghost function WakeUpTime(job: Job, cycle: nat, c: nat, k: nat): (now: u64)
    requires Periodic(job, cycle) && job.order != [] && WithinRange(job, cycle)
    ensures k < |job.order| && InTime(job, cycle, c) ==> now == Due(job, c, k) - job.cfg[job.order[k]].delta
  {
    if k < |job.order| && InTime(job, cycle, c) then
      DueWithinRange(job, cycle, c, k);
      Due(job, c, k) - job.cfg[job.order[k]].delta
    else 0
  }

  /** The assumptions on the clock can be met, from any start, whenever the times of the run are in range. */
  lemma SomePortStops(job: Job, cycle: nat, start: u64)
    requires Periodic(job, cycle) && job.order != [] && WithinRange(job, cycle) && cycle > 0
    ensures exists port: Port, limit: nat :: port.start == start && Stoppable(job, port, cycle, limit)
  {
    var port, limit := Punctual(job, cycle, start), Deadline(job) + 1;
    forall c: nat, k: nat | k < |job.order| && InTime(job, cycle, c)
      ensures ElapsesAt(job, port, c, k)
    {
      assert port.wake(c, k) == port.send(c, k).clock == WakeUpTime(job, cycle, c, k);
    }
    ProductMonotone(1, cycle, limit);
    assert port.start == start && Stoppable(job, port, cycle, limit);
  }

  lemma InTimeBound(job: Job, cycle: nat, limit: nat, c: nat)
    requires WellFormed(job) && job.order != [] && InTime(job, cycle, c) && Suffices(job, cycle, limit)
    ensures c < limit
  {
    if c > 0 {
      ProductReflect(c, limit, cycle);
    }
  }

  /** What the three steps of `inc_flow_timer` and the reading back come to when no other core is in between. */
  lemma BumpEffect(job: Job, v: View)
    requires Fits(job, v) && v.core.pc.IncLoad?
    ensures var f := job.order[v.core.slot];
            var w := Step(job, Step(job, Step(job, v, Clock(0)), Clock(0)), Clock(0));
            && w.timers == v.timers[f := Wrap(v.timers[f] + job.cfg[f].period)]
            && w.core.txtime == w.timers[f]
            && w.core == v.core.(pc := Send, reg := v.timers[f], txtime := w.timers[f], issued := w.core.issued)
  {
  }

  // ---------- The loop ----------

  class Talker {
    const state: FlowState
    const order: array<nat>
    const stats: StatisticCore
    const base: u64
    const runtime: u64
    const hw: bool
    const prevTime: array<u64>
    const prevHwtime: array<u64>
    var currentTime: u64
    var txtime: u64
    var flow: Flow?
    ghost const cfg: seq<FlowSpec>
    ghost const members: seq<Flow>
    /** The state of the machine of TxCore that the fields and the shared objects are in. */
    ghost var view: View

    ghost function Args(): Job
      reads order
    {
      Job(cfg, order[..], base, runtime, hw)
    }

    /** The flow set is the configured one. */
    ghost predicate FlowsOk()
      reads this, state, state.flows
    {
      && state.numFlows == |cfg| == |members| <= state.flows.Length
      && (forall i | 0 <= i < |members| :: state.flows[i] == members[i] && members[i].Spec() == cfg[i])
      && (forall i, j | 0 <= i < j < |members| :: members[i] != members[j])
    }

    /** The timers of the loop's own flows; the other flows' timers belong to other loops. */
    ghost predicate TimersOk(timers: seq<u64>)
      reads this, order, members
    {
      |timers| == |members| &&
      forall i | 0 <= i < |members| && i in order[..] :: members[i].scheTime == timers[i]
    }

    ghost predicate LocalsOk(core: Core)
      reads this, prevTime, prevHwtime
    {
      && prevTime != prevHwtime
      && prevTime[..] == core.prevTime && prevHwtime[..] == core.prevHwtime
      && currentTime == core.now && txtime == core.txtime
      && (flow == null <==> core.flow.None?)
      && (flow != null ==> core.flow.value < |members| && flow == members[core.flow.value])
    }

    ghost predicate StatsOk(log: seq<Op>)
      reads this, stats, stats.st
    {
      stats.Valid() && stats.numFlows == |cfg| && stats.log == log
    }

    ghost predicate Valid()
      reads this, state, state.flows, members, stats, stats.st, order, prevTime, prevHwtime
    {
      && Fits(Args(), view)
      && FlowsOk() && TimersOk(view.timers) && LocalsOk(view.core) && StatsOk(view.core.log)
    }

    /** The beginning of `tx_loop`: cleared arrays and a first reading of the clock. */
    constructor (state: FlowState, order: array<nat>, stats: StatisticCore, base: u64, runtime: u64, hw: bool, now: u64)
      requires state.Valid()
      requires forall k | 0 <= k < order.Length ::
                 order[k] < state.numFlows &&
                 state.Timers()[order[k]] == InitialTimers(state.Config(), base)[order[k]]
      requires stats.Valid() && stats.numFlows == state.numFlows && stats.log == []
      ensures Valid() && fresh(prevTime) && fresh(prevHwtime)
      ensures this.state == state && this.order == order && this.stats == stats
      ensures Args() == Job(state.Config(), order[..], base, runtime, hw)
      ensures view == Launched(Args(), now)
    {
      this.state, this.order, this.stats := state, order, stats;
      this.base, this.runtime, this.hw := base, runtime, hw;
      prevTime := new u64[state.numFlows](_ => 0);
      prevHwtime := new u64[state.numFlows](_ => 0);
      currentTime, txtime, flow := now, now, null;
      cfg := state.Config();
      members := state.Members();
      new;
      view := Launched(Args(), now);
    }

    /** The late software statistics of the previous frame. */
    method LateStatistics(flowIdPrev: nat, now: u64)
      requires Valid() && view.core.pc.Wake? && flowIdPrev == Previous(Args(), view.core.slot)
      modifies stats`log, stats.st
      ensures StatsOk(view.core.log + LateOps(Args(), view.core, now))
    {
      ghost var log := stats.log;
      if stats.st[flowIdPrev].total != 0 {
        stats.Record(TimeSw(flowIdPrev, now, txtime));
      }
      if prevTime[flowIdPrev] != 0 {
        stats.Record(SwJitter(flowIdPrev, prevTime[flowIdPrev], now, flow.period));
      }
      assert stats.log == log + LateOps(Args(), view.core, now);
    }

    /** The top of the loop body: statistics of the previous frame, then the choice of this frame's flow. */
    method WakeUp(itFrame: nat, now: u64)
      requires Valid() && view.core.pc.Wake? && view.core.slot == itFrame
      modifies this, stats`log, stats.st, prevTime
      ensures Valid() && view == Step(Args(), old(view), Clock(now))
      ensures view.core.pc.IncLoad? && view.core.slot == itFrame
    {
      var flowIdPrev := if itFrame == 0 then order[order.Length - 1] else order[itFrame - 1];
      LateStatistics(flowIdPrev, now);
      prevTime[flowIdPrev] := now;
      currentTime := now;
      flow := state.flows[order[itFrame]];
      view := Step(Args(), view, Clock(now));
    }

    /** `inc_flow_timer`, and the reading back of the timer. */
    method Bump()
      requires Valid() && view.core.pc.IncLoad?
      modifies this, flow
      ensures Valid()
      ensures view == Step(Args(), Step(Args(), Step(Args(), old(view), Clock(0)), Clock(0)), Clock(0))
      ensures view.core.pc.Send? && view.core.slot == old(view.core.slot)
    {
      BumpEffect(Args(), view);
      flow.IncTimer();
      txtime := flow.scheTime;
      view := Step(Args(), Step(Args(), Step(Args(), view, Clock(0)), Clock(0)), Clock(0));
    }

    /** The statistics of a frame that was handed to the port. */
    method FrameStatistics(flowId: nat, r: Reading)
      requires Valid() && view.core.pc.Send? && view.core.flow == Some(flowId)
      requires !TooLate(cfg[flowId], currentTime, txtime)
      modifies stats`log, stats.st, prevHwtime
      ensures StatsOk(view.core.log + FrameOps(Args(), view.core, r))
      ensures prevHwtime[..] == view.core.prevHwtime[flowId := NextHwtime(Args(), view.core, r)]
    {
      ghost var log := stats.log;
      if !r.sent {
        stats.UpdateNums(flowId, false, true);
        prevHwtime[flowId] := 0;
      } else {
        stats.UpdateNums(flowId, false, false);
        if hw && r.stamp.Some? {
          stats.Record(TimeHw(flowId, r.stamp.value, txtime));
          if prevHwtime[flowId] != 0 {
            stats.Record(HwJitter(flowId, prevHwtime[flowId], r.stamp.value, flow.period));
          }
          prevHwtime[flowId] := r.stamp.value;
        }
      }
      assert stats.log == log + FrameOps(Args(), view.core, r);
    }

    /** The rest of the body: sleep or miss, send, and the statistics of the frame. */
    method SendFrame(itFrame: nat, r: Reading)
      requires Valid() && view.core.pc.Send? && view.core.slot == itFrame
      modifies this, stats`log, stats.st, prevHwtime
      ensures Valid() && view == Step(Args(), old(view), r)
    {
      var flowId := order[itFrame];
      if currentTime < Wrap(txtime - flow.delta) {
        // sleep(txtime - flow->delta - current_time): it shows in the next clock reading only.
      } else if currentTime > Wrap(Wrap(txtime - flow.delta) + FUDGE) {
        stats.UpdateNums(flowId, true, false);
        prevHwtime[flowId] := 0;
        view := Step(Args(), view, r);
        return;
      }
      FrameStatistics(flowId, r);
      currentTime := r.clock;
      view := Step(Args(), view, r);
    }

    /** One pass of the inner loop. */
    method Frame(k: nat, wake: u64, r: Reading)
      requires Valid() && view.core.pc.Wake? && view.core.slot == k
      modifies this, stats`log, stats.st, prevTime, prevHwtime, members
      ensures Valid() && view == FrameRun(Args(), old(view), wake, r)
    {
      WakeUp(k, wake);
      Bump();
      SendFrame(k, r);
    }

    /** The loop test is next, after c cycles of the given job. */
    ghost predicate Ready(job: Job, port: Port, c: nat)
      reads this, state, state.flows, members, stats, stats.st, order, prevTime, prevHwtime
    {
      Valid() && job == Args() && BetweenCycles(job, port, view, c)
    }

    /** The loop is over, after c cycles of the given job. */
    ghost predicate Over(job: Job, port: Port, c: nat)
      reads this, state, state.flows, members, stats, stats.st, order, prevTime, prevHwtime
    {
      Valid() && job == Args() && Stopped(job, port, view, c)
    }

    /** The test of the outer loop. */
    method TestTime() returns (goOn: bool)
      requires Valid() && view.core.pc.Test?
      modifies this`view
      ensures Valid() && view == Step(Args(), old(view), Clock(0))
      ensures goOn <==> currentTime < End(Args())
    {
      goOn := currentTime < base || (currentTime - base) / 1_000_000_000 < runtime;
      view := Step(Args(), view, Clock(0));
    }

    /** The inner loop. */
    method RunCycle(port: Port, ghost job: Job, ghost cycle: nat, c: nat)
      requires Valid() && job == Args() && InCycle(job, port, view, c, 0)
      requires Periodic(job, cycle) && WithinRange(job, cycle) && SleepElapses(job, port, cycle)
      requires InTime(job, cycle, c)
      modifies this, stats`log, stats.st, prevTime, prevHwtime, members
      ensures Valid() && job == Args() && InCycle(job, port, view, c, |job.order|)
    {
      for itFrame := 0 to order.Length
        invariant Args() == job && Valid()
        invariant InCycle(job, port, view, c, itFrame)
      {
        FrameRunKept(job, cycle, view, c, itFrame, port);
        Frame(itFrame, port.wake(c, itFrame), port.send(c, itFrame));
      }
    }

    /** One pass of the outer loop, its test included. */
    method Pass(port: Port, ghost job: Job, ghost cycle: nat, ghost limit: nat, c: nat) returns (goOn: bool)
      requires Ready(job, port, c)
      requires Stoppable(job, port, cycle, limit)
      modifies this, stats`log, stats.st, prevTime, prevHwtime, members
      ensures goOn <==> ClockAt(job, port, c) < End(job)
      ensures goOn ==> Ready(job, port, c + 1) && c < limit
      ensures !goOn ==> Over(job, port, c)
    {
      ghost var before := view;
      goOn := TestTime();
      if goOn {
        EnterCycle(job, port, cycle, before, c);
        RunCycle(port, job, cycle, c);
        LeaveCycle(job, port, view, c);
        InTimeBound(job, cycle, limit, c);
      } else {
        LeaveLoop(job, port, before, c);
      }
    }

    ghost predicate After(job: Job, port: Port, c: nat, goOn: bool)
      reads this, state, state.flows, members, stats, stats.st, order, prevTime, prevHwtime
    {
      RanFor(job, port, c, goOn) && if goOn then Ready(job, port, c) else Over(job, port, c)
    }

    /** The same, counting the cycles. */
    method CountPass(port: Port, ghost job: Job, ghost cycle: nat, ghost limit: nat, c: nat)
      returns (goOn: bool, n: nat)
      requires After(job, port, c, true) && Stoppable(job, port, cycle, limit)
      modifies this, stats`log, stats.st, prevTime, prevHwtime, members
      ensures After(job, port, n, goOn)
      ensures n == (if goOn then c + 1 else c) && (goOn ==> n <= limit)
    {
      goOn := Pass(port, job, cycle, limit, c);
      RunsOn(job, port, c, goOn);
      n := if goOn then c + 1 else c;
    }

    /**
     * `tx_loop` stops: with a clock on which a sleep really elapses, no more cycles are run than
     * it takes hyperperiods to reach the deadline, and it ends in the state the machine of TxCore
     * reaches with the same readings. It ends at the first test that finds the clock at the base
     * time plus `runtime` seconds or later.
     */
    method Run(port: Port, ghost job: Job, ghost cycle: nat, ghost limit: nat) returns (cycles: nat)
      requires After(job, port, 0, true) && Stoppable(job, port, cycle, limit)
      modifies this, stats`log, stats.st, prevTime, prevHwtime, members
      ensures After(job, port, cycles, false) && cycles <= limit
      ensures RanUntil(job, port, cycles) && ClockAt(job, port, cycles) >= End(job)
    {
      cycles := 0;
      var goOn := true;
      while goOn
        invariant After(job, port, cycles, goOn) && cycles <= limit
        decreases limit - cycles, goOn
      {
        goOn, cycles := CountPass(port, job, cycle, limit, cycles);
      }
    }
  }
}
