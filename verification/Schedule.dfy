/** What the transmit tables of sche.c mean, independently of how they are filled and sorted. */
module Schedule {
  import opened Words
  import opened Sequences
  import opened Flows

  /** One table slot: sending_time[k] and order[k]. */
  datatype Entry = Entry(time: u64, flow: nat)

  /** The flows a table is built for: all of them, or those of one queue. */
  datatype Scope = WholePort | Queue(q: int)

  predicate InScope(spec: FlowSpec, scope: Scope) {
    scope.WholePort? || spec.queue == scope.q
  }

  predicate PositivePeriods(cfg: seq<FlowSpec>) {
    forall i | 0 <= i < |cfg| :: cfg[i].period > 0
  }

  function At(t: int): Entry -> bool {
    (e: Entry) => e.time == t
  }

  function Of(i: nat): Entry -> bool {
    (e: Entry) => e.flow == i
  }

  function OnQueue(cfg: seq<FlowSpec>, q: int): Entry -> bool {
    (e: Entry) => e.flow < |cfg| && cfg[e.flow].queue == q
  }

  /** The order[] column of a table. */
  function Order(t: seq<Entry>): (r: seq<nat>)
    ensures |r| == |t|
    ensures forall k | 0 <= k < |t| :: r[k] == t[k].flow
  {
    seq(|t|, k requires 0 <= k < |t| => t[k].flow)
  }

  // ---------- The unsorted table ----------

  /** The first n slots of flow i: offset, offset + period, ... */
  function FlowRows(spec: FlowSpec, i: nat, n: nat): (r: seq<Entry>)
    ensures |r| == n
    ensures forall j | 0 <= j < n :: r[j] == Entry(Wrap(spec.offset + j * spec.period), i)
  {
    if n == 0 then [] else FlowRows(spec, i, n - 1) + [Entry(Wrap(spec.offset + (n - 1) * spec.period), i)]
  }

  /** The quotient is a word again, and at most the hyperperiod. */
  function FramesPerCycle(spec: FlowSpec, cycle: u64): u64
    requires spec.period > 0
  {
    QuotientAtMost(cycle, spec.period);
    cycle / spec.period
  }

  /** All slots of the first m flows in scope, flow after flow. */
  function Expand(cfg: seq<FlowSpec>, cycle: u64, m: nat, scope: Scope): seq<Entry>
    requires PositivePeriods(cfg) && m <= |cfg|
  {
    if m == 0 then []
    else if InScope(cfg[m - 1], scope) then
      Expand(cfg, cycle, m - 1, scope) + FlowRows(cfg[m - 1], m - 1, FramesPerCycle(cfg[m - 1], cycle))
    else Expand(cfg, cycle, m - 1, scope)
  }

  function FrameCount(cfg: seq<FlowSpec>, cycle: u64, m: nat, scope: Scope): nat
    requires PositivePeriods(cfg) && m <= |cfg|
  {
    if m == 0 then 0
    else FrameCount(cfg, cycle, m - 1, scope) +
         (if InScope(cfg[m - 1], scope) then FramesPerCycle(cfg[m - 1], cycle) else 0)
  }

  /** The frames counted before a table is allocated are the slots written to it afterwards. */
  lemma {:induction false} ExpandLength(cfg: seq<FlowSpec>, cycle: u64, m: nat, scope: Scope)
    requires PositivePeriods(cfg) && m <= |cfg|
    ensures |Expand(cfg, cycle, m, scope)| == FrameCount(cfg, cycle, m, scope)
  {
    if m > 0 {
      ExpandLength(cfg, cycle, m - 1, scope);
    }
  }

  lemma {:induction false} FrameCountMonotone(cfg: seq<FlowSpec>, cycle: u64, m: nat, n: nat, scope: Scope)
    requires PositivePeriods(cfg) && m <= n <= |cfg|
    ensures FrameCount(cfg, cycle, m, scope) <= FrameCount(cfg, cycle, n, scope)
    decreases n
  {
    if m < n {
      FrameCountMonotone(cfg, cycle, m, n - 1, scope);
    }
  }

  function SumOverQueues(cfg: seq<FlowSpec>, cycle: u64, m: nat, queues: nat): nat
    requires PositivePeriods(cfg) && m <= |cfg|
  {
    if queues == 0 then 0
    else SumOverQueues(cfg, cycle, m, queues - 1) + FrameCount(cfg, cycle, m, Queue(queues - 1))
  }

  /** When every flow's queue is in range, the queues' frame counts add up to the port's. */
  lemma {:induction false} QueueCountsAddUp(cfg: seq<FlowSpec>, cycle: u64, m: nat, queues: nat)
    requires PositivePeriods(cfg) && m <= |cfg|
    requires forall i | 0 <= i < m :: 0 <= cfg[i].queue < queues
    ensures SumOverQueues(cfg, cycle, m, queues) == FrameCount(cfg, cycle, m, WholePort)
  {
    if m == 0 {
      NoFlowsNoFrames(cfg, cycle, queues);
    } else {
      QueueCountsAddUp(cfg, cycle, m - 1, queues);
      OneMoreFlow(cfg, cycle, m, queues);
    }
  }

  lemma {:induction false} NoFlowsNoFrames(cfg: seq<FlowSpec>, cycle: u64, queues: nat)
    requires PositivePeriods(cfg)
    ensures SumOverQueues(cfg, cycle, 0, queues) == 0
  {
    if queues > 0 {
      NoFlowsNoFrames(cfg, cycle, queues - 1);
    }
  }

  lemma {:induction false} OneMoreFlow(cfg: seq<FlowSpec>, cycle: u64, m: nat, queues: nat)
    requires PositivePeriods(cfg) && 0 < m <= |cfg|
    ensures SumOverQueues(cfg, cycle, m, queues) ==
            SumOverQueues(cfg, cycle, m - 1, queues) +
            (if 0 <= cfg[m - 1].queue < queues then FramesPerCycle(cfg[m - 1], cycle) else 0)
  {
    if queues > 0 {
      OneMoreFlow(cfg, cycle, m, queues - 1);
    }
  }

  lemma {:induction false} FilterRows(spec: FlowSpec, i: nat, n: nat, p: Entry -> bool, keep: bool)
    requires forall t: u64 :: p(Entry(t, i)) == keep
    ensures Filter(FlowRows(spec, i, n), p) == if keep then FlowRows(spec, i, n) else []
  {
    if n > 0 {
      FilterRows(spec, i, n - 1, p, keep);
      FilterAppend(FlowRows(spec, i, n - 1), Entry(Wrap(spec.offset + (n - 1) * spec.period), i), p);
    }
  }

  /** A queue's unsorted table is the part of the port's unsorted table that lies on the queue. */
  lemma {:induction false} ExpandQueueIsFilter(cfg: seq<FlowSpec>, cycle: u64, m: nat, q: int)
    requires PositivePeriods(cfg) && m <= |cfg|
    ensures Expand(cfg, cycle, m, Queue(q)) == Filter(Expand(cfg, cycle, m, WholePort), OnQueue(cfg, q))
  {
    if m > 0 {
      ExpandQueueIsFilter(cfg, cycle, m - 1, q);
      var n := FramesPerCycle(cfg[m - 1], cycle);
      FilterConcat(Expand(cfg, cycle, m - 1, WholePort), FlowRows(cfg[m - 1], m - 1, n), OnQueue(cfg, q));
      FilterRows(cfg[m - 1], m - 1, n, OnQueue(cfg, q), cfg[m - 1].queue == q);
    }
  }

  /** The slots of flow i in the unsorted table are its own rows, once, or none. */
  lemma {:induction false} ExpandOfFlow(cfg: seq<FlowSpec>, cycle: u64, m: nat, scope: Scope, i: nat)
    requires PositivePeriods(cfg) && m <= |cfg|
    ensures Filter(Expand(cfg, cycle, m, scope), Of(i)) ==
            if i < m && InScope(cfg[i], scope) then FlowRows(cfg[i], i, FramesPerCycle(cfg[i], cycle)) else []
  {
    if m > 0 {
      ExpandOfFlow(cfg, cycle, m - 1, scope, i);
      if InScope(cfg[m - 1], scope) {
        AppendRows(Expand(cfg, cycle, m - 1, scope), cfg[m - 1], m - 1, FramesPerCycle(cfg[m - 1], cycle), i);
      }
    }
  }

  lemma AppendRows(s: seq<Entry>, spec: FlowSpec, i: nat, n: nat, k: nat)
    requires i == k ==> Filter(s, Of(k)) == []
    ensures Filter(s + FlowRows(spec, i, n), Of(k)) == if i == k then FlowRows(spec, i, n) else Filter(s, Of(k))
  {
    FilterConcat(s, FlowRows(spec, i, n), Of(k));
    FilterRows(spec, i, n, Of(k), i == k);
  }

  lemma {:induction false} ExpandFlowsInScope(cfg: seq<FlowSpec>, cycle: u64, m: nat, scope: Scope, e: Entry)
    requires PositivePeriods(cfg) && m <= |cfg| && e in Expand(cfg, cycle, m, scope)
    ensures e.flow < m && InScope(cfg[e.flow], scope)
  {
    if InScope(cfg[m - 1], scope) {
      if e in Expand(cfg, cycle, m - 1, scope) {
        ExpandFlowsInScope(cfg, cycle, m - 1, scope, e);
      }
    } else {
      ExpandFlowsInScope(cfg, cycle, m - 1, scope, e);
    }
  }

  // ---------- Stable sorting ----------

  ghost predicate SortedByTime(s: seq<Entry>) {
    forall i, j | 0 <= i <= j < |s| :: s[i].time <= s[j].time
  }

  /** `s` and `t` hold the same slots, and those of equal time stand in the same order. */
  ghost predicate SameByTime(s: seq<Entry>, t: seq<Entry>) {
    forall x: int :: Filter(s, At(x)) == Filter(t, At(x))
  }

  ghost predicate StableSortOf(sorted: seq<Entry>, given: seq<Entry>) {
    SortedByTime(sorted) && SameByTime(sorted, given)
  }

  /** There is only one stable sort of a table. */
  lemma {:induction false} StableSortUnique(a: seq<Entry>, b: seq<Entry>)
    requires SortedByTime(a) && SortedByTime(b) && SameByTime(a, b)
    ensures a == b
    decreases |a|
  {
    StableSortIsPermutation(a, b);
    assert |multiset(a)| == |a| && |multiset(b)| == |b|;
    if |a| > 0 {
      SameLast(a, b);
      forall x: int
        ensures Filter(Front(a), At(x)) == Filter(Front(b), At(x))
      {
        assert Filter(a, At(x)) == Filter(b, At(x));
        if Last(a).time == x {
          assert Filter(Front(a), At(x)) == Front(Filter(a, At(x)));
          assert Filter(Front(b), At(x)) == Front(Filter(b, At(x)));
        }
      }
      StableSortUnique(Front(a), Front(b));
      assert a == Front(a) + [Last(a)] && b == Front(b) + [Last(b)];
    }
  }

  lemma SameLast(a: seq<Entry>, b: seq<Entry>)
    requires |a| > 0 && |b| > 0
    requires SortedByTime(a) && SortedByTime(b) && SameByTime(a, b)
    ensures Last(a) == Last(b)
  {
    var x, y := Last(a), Last(b);
    FilterSound(a, At(x.time), x);
    FilterSound(b, At(x.time), x);
    FilterSound(b, At(y.time), y);
    FilterSound(a, At(y.time), y);
    assert x in b && y in a;
    assert x.time == y.time;
    assert Last(Filter(a, At(x.time))) == x;
    assert Last(Filter(b, At(x.time))) == y;
  }

  /** A stable sort is a permutation. */
  lemma {:induction false} StableSortIsPermutation(s: seq<Entry>, t: seq<Entry>)
    requires SameByTime(s, t)
    ensures multiset(s) == multiset(t)
  {
    forall e: Entry
      ensures multiset(s)[e] == multiset(t)[e]
    {
      FilterMultiplicity(s, e);
      FilterMultiplicity(t, e);
    }
  }

  lemma {:induction false} FilterMultiplicity(s: seq<Entry>, e: Entry)
    ensures multiset(s)[e] == multiset(Filter(s, At(e.time)))[e]
  {
    if |s| > 0 {
      FilterMultiplicity(Front(s), e);
      assert s == Front(s) + [Last(s)];
    }
  }

  lemma {:induction false} FilterSorted(s: seq<Entry>, p: Entry -> bool)
    requires SortedByTime(s)
    ensures SortedByTime(Filter(s, p))
  {
    if |s| > 0 {
      FilterSorted(Front(s), p);
      var f := Filter(Front(s), p);
      forall k | 0 <= k < |f|
        ensures f[k].time <= Last(s).time
      {
        FilterSound(Front(s), p, f[k]);
      }
    }
  }

  /** Keeping only some slots commutes with stable sorting. */
  lemma FilterOfStableSort(sorted: seq<Entry>, given: seq<Entry>, p: Entry -> bool)
    requires StableSortOf(sorted, given)
    ensures StableSortOf(Filter(sorted, p), Filter(given, p))
  {
    FilterSorted(sorted, p);
    forall x: int
      ensures Filter(Filter(sorted, p), At(x)) == Filter(Filter(given, p), At(x))
    {
      FilterCommute(sorted, p, At(x));
      FilterCommute(given, p, At(x));
      assert Filter(sorted, At(x)) == Filter(given, At(x));
    }
  }

  // ---------- Tables ----------

  ghost predicate IsTable(t: seq<Entry>, cfg: seq<FlowSpec>, cycle: u64, scope: Scope)
    requires PositivePeriods(cfg)
  {
    StableSortOf(t, Expand(cfg, cycle, |cfg|, scope))
  }

  lemma TableLength(t: seq<Entry>, cfg: seq<FlowSpec>, cycle: u64, scope: Scope)
    requires PositivePeriods(cfg) && IsTable(t, cfg, cycle, scope)
    ensures |t| == FrameCount(cfg, cycle, |cfg|, scope)
  {
    var given := Expand(cfg, cycle, |cfg|, scope);
    StableSortIsPermutation(t, given);
    assert |multiset(t)| == |t| && |multiset(given)| == |given|;
    ExpandLength(cfg, cycle, |cfg|, scope);
  }

  /**
   * Per-queue tables are projections: the port's table, cut down to one queue, is that queue's
   * table slot for slot.
   */
  lemma QueueTableIsProjection(whole: seq<Entry>, t: seq<Entry>, cfg: seq<FlowSpec>, cycle: u64, q: int)
    requires PositivePeriods(cfg)
    requires IsTable(whole, cfg, cycle, WholePort) && IsTable(t, cfg, cycle, Queue(q))
    ensures t == Filter(whole, OnQueue(cfg, q))
  {
    FilterOfStableSort(whole, Expand(cfg, cycle, |cfg|, WholePort), OnQueue(cfg, q));
    ExpandQueueIsFilter(cfg, cycle, |cfg|, q);
    assert SameByTime(t, Filter(whole, OnQueue(cfg, q))) by {
      forall x: int
        ensures Filter(t, At(x)) == Filter(Filter(whole, OnQueue(cfg, q)), At(x))
      {
        assert Filter(t, At(x)) == Filter(Expand(cfg, cycle, |cfg|, Queue(q)), At(x));
      }
    }
    StableSortUnique(t, Filter(whole, OnQueue(cfg, q)));
  }

  lemma TableFlowsInScope(t: seq<Entry>, cfg: seq<FlowSpec>, cycle: u64, scope: Scope, k: nat)
    requires PositivePeriods(cfg) && IsTable(t, cfg, cycle, scope) && k < |t|
    ensures t[k].flow < |cfg| && InScope(cfg[t[k].flow], scope)
  {
    var given := Expand(cfg, cycle, |cfg|, scope);
    FilterSound(t, At(t[k].time), t[k]);
    FilterSound(given, At(t[k].time), t[k]);
    ExpandFlowsInScope(cfg, cycle, |cfg|, scope, t[k]);
  }

  /** No sending time of the flow wraps around within one cycle. */
  predicate RowsFit(spec: FlowSpec, cycle: u64)
    requires spec.period > 0
  {
    var n := FramesPerCycle(spec, cycle);
    n > 0 ==> spec.offset + (n - 1) * spec.period < TWO64
  }

  lemma RowsAscend(spec: FlowSpec, i: nat, cycle: u64)
    requires spec.period > 0
    ensures RowsFit(spec, cycle) <==> SortedByTime(FlowRows(spec, i, FramesPerCycle(spec, cycle)))
  {
    var n := FramesPerCycle(spec, cycle);
    var rows := FlowRows(spec, i, n);
    if RowsFit(spec, cycle) {
      forall j: nat, k: nat | j <= k < n
        ensures rows[j].time <= rows[k].time
      {
        RowsAscendPair(spec, j, k, n);
        assert rows[j].time == Wrap(spec.offset + j * spec.period);
        assert rows[k].time == Wrap(spec.offset + k * spec.period);
      }
    } else {
      RowsDescendOnce(spec, i, n, n - 1);
    }
  }

  lemma RowsAscendPair(spec: FlowSpec, j: nat, k: nat, n: nat)
    requires j <= k < n && spec.offset + (n - 1) * spec.period < TWO64
    ensures Wrap(spec.offset + j * spec.period) == spec.offset + j * spec.period
    ensures Wrap(spec.offset + j * spec.period) <= Wrap(spec.offset + k * spec.period)
  {
    ProductMonotone(j, k, spec.period);
    ProductMonotone(k, n - 1, spec.period);
    assert j * spec.period >= 0;
  }

  /** The first time that wraps is smaller than its predecessor. */
  lemma {:induction false} RowsDescendOnce(spec: FlowSpec, i: nat, n: nat, j: nat)
    requires spec.period > 0 && j < n && spec.offset + j * spec.period >= TWO64
    ensures !SortedByTime(FlowRows(spec, i, n))
  {
    var x := (j - 1) * spec.period;
    assert j * spec.period == x + spec.period;
    ProductReflect(0, j, spec.period);
    if spec.offset + x >= TWO64 {
      RowsDescendOnce(spec, i, n, j - 1);
    } else {
      ProductMonotone(0, j - 1, spec.period);
      WrapDrops(spec.offset + x, spec.period);
      var rows := FlowRows(spec, i, n);
      assert rows[j - 1].time > rows[j].time;
    }
  }

  lemma WrapDrops(x: nat, p: u64)
    requires x < TWO64 <= x + p
    ensures Wrap(x + p) < Wrap(x)
  {
  }

  /**
   * In the sorted table a flow's slots appear in the order of its frames exactly when its times do
   * not wrap.
   */
  lemma FlowSlotsInOrder(t: seq<Entry>, cfg: seq<FlowSpec>, cycle: u64, scope: Scope, i: nat)
    requires PositivePeriods(cfg) && IsTable(t, cfg, cycle, scope)
    requires i < |cfg| && InScope(cfg[i], scope)
    ensures Filter(t, Of(i)) == FlowRows(cfg[i], i, FramesPerCycle(cfg[i], cycle)) <==> RowsFit(cfg[i], cycle)
  {
    var given := Expand(cfg, cycle, |cfg|, scope);
    FilterOfStableSort(t, given, Of(i));
    ExpandOfFlow(cfg, cycle, |cfg|, scope, i);
    RowsAscend(cfg[i], i, cycle);
    if RowsFit(cfg[i], cycle) {
      StableSortUnique(Filter(t, Of(i)), Filter(given, Of(i)));
    }
  }

  ghost predicate TimesFit(cfg: seq<FlowSpec>, cycle: u64)
    requires PositivePeriods(cfg)
  {
    forall i | 0 <= i < |cfg| :: RowsFit(cfg[i], cycle)
  }

  lemma {:induction false} CountIsFilter(t: seq<Entry>, i: nat)
    ensures Count(Order(t), i) == |Filter(t, Of(i))|
  {
    if |t| > 0 {
      CountIsFilter(Front(t), i);
      assert Order(t) == Order(Front(t)) + [Last(t).flow];
      CountAppend(Order(Front(t)), Last(t).flow, i);
    }
  }

  /** A flow takes cycle / period slots of its queue's table, and its j-th slot is at offset + j * period. */
  lemma OccurrenceTime(t: seq<Entry>, cfg: seq<FlowSpec>, cycle: u64, scope: Scope, k: nat)
    requires PositivePeriods(cfg) && IsTable(t, cfg, cycle, scope) && TimesFit(cfg, cycle)
    requires k < |t|
    ensures t[k].flow < |cfg| && InScope(cfg[t[k].flow], scope)
    ensures Count(Order(t), t[k].flow) == FramesPerCycle(cfg[t[k].flow], cycle)
    ensures Count(Order(t)[..k], t[k].flow) < FramesPerCycle(cfg[t[k].flow], cycle)
    ensures t[k].time == cfg[t[k].flow].offset + Count(Order(t)[..k], t[k].flow) * cfg[t[k].flow].period
  {
    TableFlowsInScope(t, cfg, cycle, scope, k);
    var i := t[k].flow;
    FlowSlotsInOrder(t, cfg, cycle, scope, i);
    assert Order(t)[..k] == Order(t[..k]);
    CountIsFilter(t[..k], i);
    CountIsFilter(t, i);
    FilterRank(t, Of(i), k);
    RowsAscendPair(cfg[i], |Filter(t[..k], Of(i))|, |Filter(t[..k], Of(i))|, FramesPerCycle(cfg[i], cycle));
  }

  lemma FlowCount(t: seq<Entry>, cfg: seq<FlowSpec>, cycle: u64, scope: Scope, i: nat)
    requires PositivePeriods(cfg) && IsTable(t, cfg, cycle, scope) && i < |cfg|
    ensures Count(Order(t), i) == if InScope(cfg[i], scope) then FramesPerCycle(cfg[i], cycle) else 0
  {
    var given := Expand(cfg, cycle, |cfg|, scope);
    CountIsFilter(t, i);
    FilterOfStableSort(t, given, Of(i));
    ExpandOfFlow(cfg, cycle, |cfg|, scope, i);
    StableSortIsPermutation(Filter(t, Of(i)), Filter(given, Of(i)));
    assert |Filter(t, Of(i))| == |multiset(Filter(t, Of(i)))| == |multiset(Filter(given, Of(i)))|;
  }
}
