/** How sche.c counts, fills and sorts the transmit tables in place. */
module Tables {
  import opened Words
  import opened Arithmetic
  import opened Sequences
  import opened Flows
  import opened Schedule

  /** Two parallel columns read as one sequence of slots. */
  function Zip(time: seq<u64>, flow: seq<nat>): (t: seq<Entry>)
    requires |time| == |flow|
    ensures |t| == |time|
    ensures forall k | 0 <= k < |t| :: t[k] == Entry(time[k], flow[k])
  {
    seq(|time|, k requires 0 <= k < |time| => Entry(time[k], flow[k]))
  }

  function Exchange(s: seq<Entry>, j: nat): seq<Entry>
    requires j + 1 < |s|
  {
    s[j := s[j + 1]][j + 1 := s[j]]
  }

  /** Exchanging neighbours of different times leaves the order within every time alone. */
  lemma ExchangeKeepsTimes(s: seq<Entry>, j: nat)
    requires j + 1 < |s| && s[j].time != s[j + 1].time
    ensures SameByTime(Exchange(s, j), s)
  {
    var a, b, c, d := s[..j], s[j], s[j + 1], s[j + 2..];
    assert s == a + [b] + [c] + d;
    assert Exchange(s, j) == a + [c] + [b] + d;
    forall x: int
      ensures Filter(Exchange(s, j), At(x)) == Filter(s, At(x))
    {
      FilterConcat(a + [b] + [c], d, At(x));
      FilterConcat(a + [c] + [b], d, At(x));
      FilterAppend(a + [b], c, At(x));
      FilterAppend(a, b, At(x));
      FilterAppend(a + [c], b, At(x));
      FilterAppend(a, c, At(x));
    }
  }

  lemma SameByTimeTransitive(r: seq<Entry>, s: seq<Entry>, t: seq<Entry>)
    requires SameByTime(r, s) && SameByTime(s, t)
    ensures SameByTime(r, t)
  {
    forall x: int
      ensures Filter(r, At(x)) == Filter(t, At(x))
    {
      assert Filter(r, At(x)) == Filter(s, At(x));
    }
  }

  /** From slot m on, every slot is at least as late as all slots before it. */
  ghost predicate SettledFrom(s: seq<Entry>, m: int) {
    forall a, b | 0 <= a <= b < |s| && m <= b :: s[a].time <= s[b].time
  }

  ghost predicate LatestAt(s: seq<Entry>, j: nat) {
    j < |s| && forall a | 0 <= a <= j :: s[a].time <= s[j].time
  }

  /** One comparison of the inner loop carries the latest slot so far one place further. */
  lemma ExchangeCarriesLatest(s: seq<Entry>, j: nat, m: nat)
    requires j + 1 < m <= |s| && s[j].time > s[j + 1].time
    requires SettledFrom(s, m) && LatestAt(s, j)
    ensures SettledFrom(Exchange(s, j), m) && LatestAt(Exchange(s, j), j + 1)
  {
    var r := Exchange(s, j);
    forall a, b | 0 <= a <= b < |r| && m <= b
      ensures r[a].time <= r[b].time
    {
      assert s[if a == j then j + 1 else if a == j + 1 then j else a].time <= s[b].time;
    }
  }

  /** The two exchanges of the inner loop, on both columns. */
  method SwapAt(time: array<u64>, flowId: array<nat>, j: nat)
    requires j + 1 < time.Length == flowId.Length
    modifies time, flowId
    ensures Zip(time[..], flowId[..]) == Exchange(Zip(old(time[..]), old(flowId[..])), j)
  {
    var tempTime := time[j];
    time[j] := time[j + 1];
    time[j + 1] := tempTime;
    var tempFlowId := flowId[j];
    flowId[j] := flowId[j + 1];
    flowId[j + 1] := tempFlowId;
  }

  lemma LatestStays(s: seq<Entry>, j: nat)
    requires j + 1 < |s| && LatestAt(s, j) && s[j].time <= s[j + 1].time
    ensures LatestAt(s, j + 1)
  {
  }

  lemma LatestSettles(s: seq<Entry>, j: nat)
    requires LatestAt(s, j) && SettledFrom(s, j + 1)
    ensures SettledFrom(s, j)
  {
  }

  lemma SettledIsSorted(s: seq<Entry>, given: seq<Entry>)
    requires SameByTime(s, given) && SettledFrom(s, 1)
    ensures StableSortOf(s, given)
  {
  }

  /** How far a pass has come: the slots from m on are settled, and the latest of the others is at j. */
  ghost predicate Passing(s: seq<Entry>, given: seq<Entry>, m: nat, j: nat) {
    SameByTime(s, given) && SettledFrom(s, m) && LatestAt(s, j)
  }

  /** The body of the inner loop. */
  method CompareAt(time: array<u64>, flowId: array<nat>, j: nat, ghost m: nat, ghost given: seq<Entry>)
    requires j + 1 < m <= time.Length == flowId.Length
    requires Passing(Zip(time[..], flowId[..]), given, m, j)
    modifies time, flowId
    ensures Passing(Zip(time[..], flowId[..]), given, m, j + 1)
  {
    ghost var s := Zip(time[..], flowId[..]);
    if time[j] > time[j + 1] {
      ExchangeCarriesLatest(s, j, m);
      ExchangeKeepsTimes(s, j);
      SameByTimeTransitive(Exchange(s, j), s, given);
      SwapAt(time, flowId, j);
    } else {
      LatestStays(s, j);
    }
  }

  /** The bubble sort over two parallel arrays is a stable sort of the slots they hold. */
  method Sort(time: array<u64>, flowId: array<nat>, n: nat)
    requires n == time.Length == flowId.Length
    modifies time, flowId
    ensures StableSortOf(Zip(time[..], flowId[..]), Zip(old(time[..]), old(flowId[..])))
  {
    ghost var given := Zip(time[..], flowId[..]);
    var i := 0;
    while i < n - 1
      invariant 0 <= i <= n && (n > 0 ==> i < n)
      invariant SameByTime(Zip(time[..], flowId[..]), given) && SettledFrom(Zip(time[..], flowId[..]), n - i)
    {
      var j := 0;
      while j < n - i - 1
        invariant 0 <= j <= n - i - 1
        invariant Passing(Zip(time[..], flowId[..]), given, n - i, j)
      {
        CompareAt(time, flowId, j, n - i, given);
        j := j + 1;
      }
      LatestSettles(Zip(time[..], flowId[..]), n - i - 1);
      i := i + 1;
    }
    SettledIsSorted(Zip(time[..], flowId[..]), given);
  }

  /**
   * `calculate_cycle`: the word returned is the least common multiple of the periods exactly when
   * that fits.
   */
  method CalculateCycle(state: FlowState) returns (cycle: u64)
    requires state.Valid() && state.numFlows > 0 && PositivePeriods(state.Config())
    ensures IsLeastCommonMultiple(cycle, Periods(state.Config())) <==> LcmAll(Periods(state.Config())) < TWO64
    ensures LcmAll(Periods(state.Config())) < TWO64 ==> cycle == LcmAll(Periods(state.Config()))
  {
    var periods := new u64[state.numFlows](_ => 0);
    for i := 0 to state.numFlows
      invariant periods[..i] == Periods(state.Config())[..i]
    {
      periods[i] := state.flows[i].period;
    }
    assert periods[..state.numFlows] == Periods(state.Config());
    cycle := LcmOfArray(periods, state.numFlows);
  }

  function Periods(cfg: seq<FlowSpec>): (ps: seq<u64>)
    ensures |ps| == |cfg|
    ensures forall i | 0 <= i < |cfg| :: ps[i] == cfg[i].period
  {
    seq(|cfg|, i requires 0 <= i < |cfg| => cfg[i].period)
  }

  /** An `int` accumulator plus a 64-bit quotient: the sum is taken in 64 bits and stored back as an `int`. */
  function AddToInt(acc: int, x: u64): int {
    ToInt32(Wrap(Wrap(acc) + x))
  }

  lemma AddToIntIsSum(sum: int, x: u64)
    ensures AddToInt(ToInt32(sum), x) == ToInt32(sum + x)
  {
    var k := ToInt32Split(sum);
    var m := ToInt32Split(sum + x);
    WrapSum(ToInt32(sum), x);
    WrapKeepsLow(ToInt32(sum) + x);
    LowIs(ToInt32(sum) + x, m - k, ToInt32(sum + x));
  }

  lemma AddWhen(counts: bool, sum: int, x: u64, next: int)
    requires next == if counts then sum + x else sum
    ensures ToInt32(next) == if counts then AddToInt(ToInt32(sum), x) else ToInt32(sum)
  {
    AddToIntIsSum(sum, x);
  }

  /** What one more flow does to the accumulator. */
  lemma CountNext(cfg: seq<FlowSpec>, cycle: u64, i: nat, scope: Scope)
    requires PositivePeriods(cfg) && i < |cfg|
    ensures ToInt32(FrameCount(cfg, cycle, i + 1, scope)) ==
            if InScope(cfg[i], scope) then
              AddToInt(ToInt32(FrameCount(cfg, cycle, i, scope)), FramesPerCycle(cfg[i], cycle))
            else ToInt32(FrameCount(cfg, cycle, i, scope))
  {
    AddWhen(InScope(cfg[i], scope), FrameCount(cfg, cycle, i, scope), FramesPerCycle(cfg[i], cycle),
            FrameCount(cfg, cycle, i + 1, scope));
  }

  /** `calculate_num_frames`: exact modulo the width of `int`, hence exact when the count fits. */
  method CalculateNumFrames(state: FlowState, cycle: u64) returns (numFrames: int)
    requires state.Valid() && PositivePeriods(state.Config())
    ensures numFrames == ToInt32(FrameCount(state.Config(), cycle, state.numFlows, WholePort))
  {
    ghost var cfg := state.Config();
    numFrames := 0;
    for i := 0 to state.numFlows
      invariant numFrames == ToInt32(FrameCount(cfg, cycle, i, WholePort))
    {
      CountNext(cfg, cycle, i, WholePort);
      var spec := state.flows[i].Spec();
      assert spec == cfg[i];
      numFrames := AddToInt(numFrames, FramesPerCycle(spec, cycle));
    }
  }

  method CalculateNumFramesPerQueue(state: FlowState, cycle: u64, queueIndex: int) returns (numFrames: int)
    requires state.Valid() && PositivePeriods(state.Config())
    ensures numFrames == ToInt32(FrameCount(state.Config(), cycle, state.numFlows, Queue(queueIndex)))
  {
    ghost var cfg := state.Config();
    numFrames := 0;
    for i := 0 to state.numFlows
      invariant numFrames == ToInt32(FrameCount(cfg, cycle, i, Queue(queueIndex)))
    {
      CountNext(cfg, cycle, i, Queue(queueIndex));
      var spec := state.flows[i].Spec();
      assert spec == cfg[i];
      if spec.queue == queueIndex {
        numFrames := AddToInt(numFrames, FramesPerCycle(spec, cycle));
      }
    }
  }

  lemma ZipAppend(time: seq<u64>, flow: seq<nat>, k: nat)
    requires k < |time| == |flow|
    ensures Zip(time[..k + 1], flow[..k + 1]) == Zip(time[..k], flow[..k]) + [Entry(time[k], flow[k])]
  {
  }

  class ScheduleState {
    const order: array<nat>
    const sendingTime: array<u64>
    const cyclePeriod: u64
    const numFrames: nat

    constructor (cyclePeriod: u64, numFrames: nat)
      ensures Allocated() && fresh(order) && fresh(sendingTime)
      ensures this.cyclePeriod == cyclePeriod && this.numFrames == numFrames
    {
      this.cyclePeriod, this.numFrames := cyclePeriod, numFrames;
      this.order := new nat[numFrames](_ => 0);
      this.sendingTime := new u64[numFrames](_ => 0);
    }

    /** Both columns have exactly the cells that were counted. */
    ghost predicate Allocated() {
      order.Length == numFrames && sendingTime.Length == numFrames
    }

    ghost function Table(): seq<Entry>
      requires Allocated()
      reads order, sendingTime
    {
      Zip(sendingTime[..], order[..])
    }

    ghost function Filled(index: nat): seq<Entry>
      requires Allocated() && index <= numFrames
      reads order, sendingTime
    {
      Zip(sendingTime[..index], order[..index])
    }

    /** The inner loop of the fill: all frames of flow i in one cycle, from `start` on. */
    method FillFlow(flow: Flow, i: nat, start: nat) returns (index: nat)
      requires Allocated() && flow.period > 0 && start + FramesPerCycle(flow.Spec(), cyclePeriod) <= numFrames
      modifies order, sendingTime
      ensures index == start + FramesPerCycle(flow.Spec(), cyclePeriod)
      ensures Filled(index) == old(Filled(start)) + FlowRows(flow.Spec(), i, FramesPerCycle(flow.Spec(), cyclePeriod))
    {
      var period := flow.period;
      var offset := Wrap(flow.offsetSec * SECOND + flow.offsetNsec);
      index := start;
      for j := 0 to cyclePeriod / period
        invariant index == start + j
        invariant Filled(index) == old(Filled(start)) + FlowRows(flow.Spec(), i, j)
      {
        ghost var before := Filled(index);
        sendingTime[index] := Wrap(offset + j * period);
        order[index] := i;
        assert before == Filled(index);
        ZipAppend(sendingTime[..], order[..], index);
        index := index + 1;
      }
    }

    /** The fill before the sort: exactly the counted cells are written. */
    method Fill(state: FlowState, scope: Scope)
      requires Allocated() && state.Valid() && PositivePeriods(state.Config())
      requires numFrames == FrameCount(state.Config(), cyclePeriod, state.numFlows, scope)
      modifies order, sendingTime
      ensures Filled(numFrames) == Expand(state.Config(), cyclePeriod, state.numFlows, scope)
    {
      ghost var cfg := state.Config();
      var index := 0;
      for i := 0 to state.numFlows
        invariant index == FrameCount(cfg, cyclePeriod, i, scope) <= numFrames
        invariant Filled(index) == Expand(cfg, cyclePeriod, i, scope)
      {
        FrameCountMonotone(cfg, cyclePeriod, i + 1, state.numFlows, scope);
        var flow := state.flows[i];
        assert flow.Spec() == cfg[i];
        if scope.WholePort? || flow.queue == scope.q {
          index := FillFlow(flow, i, index);
        }
      }
    }

    /** `init_schedule_state` (scope WholePort) and `init_schedule_state_per_queue` (scope Queue). */
    method Init(state: FlowState, scope: Scope)
      requires Allocated() && state.Valid() && PositivePeriods(state.Config())
      requires numFrames == FrameCount(state.Config(), cyclePeriod, state.numFlows, scope)
      modifies order, sendingTime
      ensures IsTable(Table(), state.Config(), cyclePeriod, scope)
    {
      Fill(state, scope);
      assert Table() == Filled(numFrames);
      Sort(sendingTime, order, numFrames);
    }
  }

  /**
   * Configurations whose hyperperiod fits in 64 bits and whose queues' frames per hyperperiod fit
   * in an `int`.
   */
  ghost predicate Schedulable(cfg: seq<FlowSpec>) {
    && |cfg| > 0
    && PositivePeriods(cfg)
    && LcmAll(Periods(cfg)) < TWO64
    && forall q: int :: FrameCount(cfg, LcmAll(Periods(cfg)), |cfg|, Queue(q)) < TWO31
  }

  /** The body of the loop over queues: count, allocate, fill and sort. */
  method MakeTable(state: FlowState, cyclePeriod: u64, q: nat) returns (schedule: ScheduleState)
    requires state.Valid() && PositivePeriods(state.Config())
    requires FrameCount(state.Config(), cyclePeriod, state.numFlows, Queue(q)) < TWO31
    ensures fresh(schedule.order) && fresh(schedule.sendingTime)
    ensures schedule.Allocated() && schedule.cyclePeriod == cyclePeriod
    ensures IsTable(schedule.Table(), state.Config(), cyclePeriod, Queue(q))
  {
    var numFrames := CalculateNumFramesPerQueue(state, cyclePeriod, q);
    ghost var counted := FrameCount(state.Config(), cyclePeriod, state.numFlows, Queue(q));
    LowIs(counted, 0, counted);
    schedule := new ScheduleState(cyclePeriod, numFrames);
    schedule.Init(state, Queue(q));
  }

  /** `create_schedule_state`: one finished table for every queue, all over the same hyperperiod. */
  method CreateScheduleState(state: FlowState, numQueues: nat) returns (schedules: seq<ScheduleState>)
    requires state.Valid() && Schedulable(state.Config())
    ensures |schedules| == numQueues
    ensures forall q | 0 <= q < numQueues :: schedules[q].Allocated()
    ensures forall q | 0 <= q < numQueues :: IsLeastCommonMultiple(schedules[q].cyclePeriod, Periods(state.Config()))
    ensures forall q | 0 <= q < numQueues ::
              IsTable(schedules[q].Table(), state.Config(), schedules[q].cyclePeriod, Queue(q))
  {
    ghost var cfg := state.Config();
    var cyclePeriod := CalculateCycle(state);
    schedules := [];
    for i := 0 to numQueues
      invariant |schedules| == i
      invariant forall q | 0 <= q < i :: schedules[q].Allocated() && schedules[q].cyclePeriod == cyclePeriod
      invariant forall q | 0 <= q < i :: IsTable(schedules[q].Table(), cfg, cyclePeriod, Queue(q))
    {
      var schedule := MakeTable(state, cyclePeriod, i);
      schedules := schedules + [schedule];
    }
  }
}
