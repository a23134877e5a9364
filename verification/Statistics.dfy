/** The per-flow and per-core statistics of statistic.c. */
module Statistics {
  import opened Words
  import opened Sequences

  /** The latest sample of a quantity, its running integer average and its maximum. */
  datatype Metric = Metric(last: u64, avg: u64, max: u64)

  /** One `stat_st`, with its twelve sample fields grouped by quantity. */
  datatype Row = Row(
    total: nat, send: nat, drop: nat, misdl: nat,
    jitterHw: Metric, jitterSw: Metric, deltaSw: Metric, deltaHw: Metric)

  datatype Kind = DeltaSw | DeltaHw | JitterSw | JitterHw

  /** One call of the statistics engine by `tx_loop`, with the arguments it passes. */
  datatype Op =
    | Nums(flow: nat, missed: bool, failed: bool)
    | TimeSw(flow: nat, swtime: u64, txtime: u64)
    | TimeHw(flow: nat, hwtime: u64, txtime: u64)
    | SwJitter(flow: nat, prev: u64, now: u64, period: u64)
    | HwJitter(flow: nat, prev: u64, now: u64, period: u64)

  const ZERO: Metric := Metric(0, 0, 0)

  /** `init_statistics` starts num_pkt_send at one, so that it can divide. */
  const INITIAL: Row := Row(0, 1, 0, 0, ZERO, ZERO, ZERO, ZERO)

  /** The signed difference a sampling call passes to `abs`. */
  function Difference(op: Op): int
    requires !op.Nums?
  {
    match op
    case TimeSw(_, swtime, txtime) => swtime - txtime
    case TimeHw(_, hwtime, txtime) => hwtime - txtime
    case SwJitter(_, prev, now, period) => now - prev - period
    case HwJitter(_, prev, now, period) => now - prev - period
  }

  /** The value a sampling call records. */
  function Value(op: Op): u64
    requires !op.Nums?
  {
    Abs(Wrap(Difference(op)))
  }

  function KindOf(op: Op): Kind
    requires !op.Nums?
  {
    match op
    case TimeSw(_, _, _) => DeltaSw
    case TimeHw(_, _, _) => DeltaHw
    case SwJitter(_, _, _, _) => JitterSw
    case HwJitter(_, _, _, _) => JitterHw
  }

  function MetricOf(r: Row, kind: Kind): Metric {
    match kind
    case DeltaSw => r.deltaSw
    case DeltaHw => r.deltaHw
    case JitterSw => r.jitterSw
    case JitterHw => r.jitterHw
  }

  function WithMetric(r: Row, kind: Kind, m: Metric): Row {
    match kind
    case DeltaSw => r.(deltaSw := m)
    case DeltaHw => r.(deltaHw := m)
    case JitterSw => r.(jitterSw := m)
    case JitterHw => r.(jitterHw := m)
  }

  /** Recording sample d with divisor n; product and sum are taken in 64 bits. */
  function Sampled(m: Metric, n: nat, d: u64): Metric
    requires n > 0
  {
    Metric(d, DivWord(Wrap(m.avg * (n - 1) + d), n), if d > m.max then d else m.max)
  }

  function DivWord(x: u64, n: nat): u64
    requires n > 0
  {
    QuotientAtMost(x, n);
    x / n
  }

  /** The effect of a call on one row it reaches. */
  function Updated(r: Row, op: Op): Row
    requires r.send > 0
  {
    match op
    case Nums(_, missed, failed) =>
      r.(total := r.total + 1,
         misdl := if missed then r.misdl + 1 else r.misdl,
         drop := if failed then r.drop + 1 else r.drop,
         send := if !missed && !failed then r.send + 1 else r.send)
    case _ =>
      WithMetric(r, KindOf(op), Sampled(MetricOf(r, KindOf(op)), r.send, Value(op)))
  }

  /** A call reaches its flow's row and, except for the jitter calls, the core row. */
  predicate Reaches(op: Op, row: nat, numFlows: nat) {
    op.flow == row || (row == numFlows && !op.SwJitter? && !op.HwJitter?)
  }

  /** A row after a sequence of calls. */
  function RowAfter(numFlows: nat, log: seq<Op>, row: nat): (r: Row)
    ensures r.send > 0
  {
    if |log| == 0 then INITIAL
    else if Reaches(Last(log), row, numFlows) then Updated(RowAfter(numFlows, Front(log), row), Last(log))
    else RowAfter(numFlows, Front(log), row)
  }

  lemma RowAfterAppend(numFlows: nat, log: seq<Op>, op: Op, row: nat)
    ensures RowAfter(numFlows, log + [op], row) ==
            if Reaches(op, row, numFlows) then Updated(RowAfter(numFlows, log, row), op)
            else RowAfter(numFlows, log, row)
  {
    assert Front(log + [op]) == log;
  }

  // ---------- Counters ----------

  function Counted(row: nat, numFlows: nat): Op -> bool {
    (op: Op) => op.Nums? && Reaches(op, row, numFlows)
  }

  function Missed(row: nat, numFlows: nat): Op -> bool {
    (op: Op) => op.Nums? && Reaches(op, row, numFlows) && op.missed
  }

  function Failed(row: nat, numFlows: nat): Op -> bool {
    (op: Op) => op.Nums? && Reaches(op, row, numFlows) && op.failed
  }

  function Sent(row: nat, numFlows: nat): Op -> bool {
    (op: Op) => op.Nums? && Reaches(op, row, numFlows) && !op.missed && !op.failed
  }

  function Contradictory(row: nat, numFlows: nat): Op -> bool {
    (op: Op) => op.Nums? && Reaches(op, row, numFlows) && op.missed && op.failed
  }

  /** Each counter is the number of calls of its sort in the whole run. */
  lemma {:induction false} CountersCount(numFlows: nat, log: seq<Op>, row: nat)
    ensures var r := RowAfter(numFlows, log, row);
            && r.total == |Filter(log, Counted(row, numFlows))|
            && r.misdl == |Filter(log, Missed(row, numFlows))|
            && r.drop == |Filter(log, Failed(row, numFlows))|
            && r.send == 1 + |Filter(log, Sent(row, numFlows))|
  {
    if |log| > 0 {
      CountersCount(numFlows, Front(log), row);
    }
  }

  /** Packets are conserved in a row exactly when no call flagged a frame as both missed and failed. */
  lemma {:induction false} Conservation(numFlows: nat, log: seq<Op>, row: nat)
    ensures var r := RowAfter(numFlows, log, row);
            r.total == (r.send - 1) + r.drop + r.misdl <==>
            (forall op | op in log :: !Contradictory(row, numFlows)(op))
  {
    Balance(numFlows, log, row);
    var p := Contradictory(row, numFlows);
    if forall op | op in log :: !p(op) {
      FilterNone(log, p);
    } else {
      var op :| op in log && p(op);
      FilterSound(log, p, op);
    }
  }

  lemma {:induction false} Balance(numFlows: nat, log: seq<Op>, row: nat)
    ensures var r := RowAfter(numFlows, log, row);
            r.total + |Filter(log, Contradictory(row, numFlows))| == (r.send - 1) + r.drop + r.misdl
  {
    if |log| > 0 {
      Balance(numFlows, Front(log), row);
    }
  }

  /** The four counters of rows 0, ..., m - 1 added up; sends are counted from zero. */
  function Totals(numFlows: nat, log: seq<Op>, m: nat): (nat, nat, nat, nat) {
    if m == 0 then (0, 0, 0, 0)
    else
      var t, r := Totals(numFlows, log, m - 1), RowAfter(numFlows, log, m - 1);
      (t.0 + r.total, t.1 + (r.send - 1), t.2 + r.drop, t.3 + r.misdl)
  }

  ghost predicate FlowsBelow(log: seq<Op>, numFlows: nat) {
    forall op | op in log :: op.flow < numFlows
  }

  /** The core row holds the sums of the flow rows. */
  lemma {:induction false} CoreRowSums(numFlows: nat, log: seq<Op>)
    requires FlowsBelow(log, numFlows)
    ensures var core := RowAfter(numFlows, log, numFlows);
            Totals(numFlows, log, numFlows) == (core.total, core.send - 1, core.drop, core.misdl)
  {
    if |log| == 0 {
      TotalsOfNothing(numFlows, numFlows);
    } else {
      assert FlowsBelow(Front(log), numFlows);
      assert Last(log) in log;
      CoreRowSums(numFlows, Front(log));
      TotalsStep(numFlows, log, numFlows);
    }
  }

  lemma {:induction false} TotalsOfNothing(numFlows: nat, m: nat)
    ensures Totals(numFlows, [], m) == (0, 0, 0, 0)
  {
    if m > 0 {
      TotalsOfNothing(numFlows, m - 1);
    }
  }

  lemma {:induction false} TotalsStep(numFlows: nat, log: seq<Op>, m: nat)
    requires |log| > 0 && m <= numFlows
    ensures var op, t := Last(log), Totals(numFlows, Front(log), m);
            Totals(numFlows, log, m) ==
            if op.Nums? && op.flow < m then
              (t.0 + 1,
               t.1 + (if !op.missed && !op.failed then 1 else 0),
               t.2 + (if op.failed then 1 else 0),
               t.3 + (if op.missed then 1 else 0))
            else t
  {
    if m > 0 {
      TotalsStep(numFlows, log, m - 1);
    }
  }

  // ---------- Samples ----------

  predicate Samples(op: Op, kind: Kind, row: nat, numFlows: nat) {
    !op.Nums? && KindOf(op) == kind && Reaches(op, row, numFlows)
  }

  /** The calls that sampled a quantity of a row. */
  function Sampling(kind: Kind, row: nat, numFlows: nat): Op -> bool {
    (op: Op) => Samples(op, kind, row, numFlows)
  }

  ghost predicate IsMaximum(max: u64, values: iset<int>) {
    && (forall v | v in values :: v <= max)
    && (max == 0 || max in values)
  }

  /** Every value recorded for a quantity of a row. */
  ghost function Recorded(numFlows: nat, log: seq<Op>, row: nat, kind: Kind): iset<int> {
    iset op | op in log && Samples(op, kind, row, numFlows) :: Value(op) as int
  }

  ghost function TrueDeviations(numFlows: nat, log: seq<Op>, row: nat, kind: Kind): iset<int> {
    iset op | op in log && Samples(op, kind, row, numFlows) :: Magnitude(Difference(op))
  }

  /** The maximum field is the maximum of everything recorded, and no average exceeds it. */
  lemma {:induction false} MaximumAndAverage(numFlows: nat, log: seq<Op>, row: nat, kind: Kind)
    ensures var m := MetricOf(RowAfter(numFlows, log, row), kind);
            IsMaximum(m.max, Recorded(numFlows, log, row, kind)) && m.avg <= m.max
  {
    if |log| > 0 {
      var before, op := Front(log), Last(log);
      assert log == before + [op];
      MaximumAndAverage(numFlows, before, row, kind);
      var r := RowAfter(numFlows, before, row);
      var m := MetricOf(r, kind);
      if Samples(op, kind, row, numFlows) {
        AverageAtMostMaximum(m, r.send, Value(op));
        assert Recorded(numFlows, log, row, kind) == Recorded(numFlows, before, row, kind) + iset{Value(op) as int};
      } else {
        assert Recorded(numFlows, log, row, kind) == Recorded(numFlows, before, row, kind);
        assert MetricOf(RowAfter(numFlows, log, row), kind) == m;
      }
    }
  }

  /** Even a wrapped sum cannot lift the average above the maximum. */
  lemma AverageAtMostMaximum(m: Metric, n: nat, d: u64)
    requires n > 0 && m.avg <= m.max
    ensures Sampled(m, n, d).avg <= Sampled(m, n, d).max
  {
    var top := Sampled(m, n, d).max;
    var x := m.avg * (n - 1) + d;
    SumAtMost(m.avg, n, d, top);
    assert Wrap(x) <= x;
    QuotientBound(Wrap(x), n, top);
  }

  lemma SumAtMost(avg: nat, n: nat, d: nat, top: nat)
    requires n > 0 && avg <= top && d <= top
    ensures 0 <= avg * (n - 1) + d <= top * n
  {
    ProductMonotone(avg, top, n - 1);
    ProductMonotone(0, avg, n - 1);
    assert top * n == top * (n - 1) + top;
  }

  /** The last field holds the value of the latest sampling call. */
  lemma {:induction false} LatestSample(numFlows: nat, log: seq<Op>, row: nat, kind: Kind)
    ensures var f := Filter(log, Sampling(kind, row, numFlows));
            && (f != [] ==> Samples(Last(f), kind, row, numFlows))
            && MetricOf(RowAfter(numFlows, log, row), kind).last == if f == [] then 0 else Value(Last(f))
  {
    if |log| > 0 {
      LatestSample(numFlows, Front(log), row, kind);
    }
  }

  /** When every true deviation stays below 2^31, the maximum field is the maximum true deviation. */
  lemma MaximumIsTrueMaximum(numFlows: nat, log: seq<Op>, row: nat, kind: Kind)
    requires forall d | d in TrueDeviations(numFlows, log, row, kind) :: d < TWO31
    ensures IsMaximum(MetricOf(RowAfter(numFlows, log, row), kind).max, TrueDeviations(numFlows, log, row, kind))
  {
    MaximumAndAverage(numFlows, log, row, kind);
    forall op | op in log && Samples(op, kind, row, numFlows)
      ensures Value(op) == Magnitude(Difference(op))
    {
      assert Magnitude(Difference(op)) in TrueDeviations(numFlows, log, row, kind);
      AbsIsMagnitude(Difference(op));
    }
    assert Recorded(numFlows, log, row, kind) == TrueDeviations(numFlows, log, row, kind);
  }

  /** While at most 2^33 packets are counted and no sample reached 2^31, the averaging sum fits in 64 bits. */
  lemma AverageFits(numFlows: nat, log: seq<Op>, row: nat, kind: Kind, d: u64)
    requires RowAfter(numFlows, log, row).send <= 0x2_0000_0000
    requires MetricOf(RowAfter(numFlows, log, row), kind).max < TWO31 && d < TWO31
    ensures var r := RowAfter(numFlows, log, row);
            MetricOf(r, kind).avg * (r.send - 1) + d < TWO64
  {
    MaximumAndAverage(numFlows, log, row, kind);
    var r := RowAfter(numFlows, log, row);
    WordSum(MetricOf(r, kind).avg, r.send, d);
  }

  lemma WordSum(avg: nat, n: nat, d: nat)
    requires avg < TWO31 && d < TWO31 && 0 < n <= 0x2_0000_0000
    ensures avg * (n - 1) + d < TWO64
  {
    ProductMonotone(avg, 0x7FFF_FFFF, n - 1);
  }

  // ---------- What one call changes ----------

  /**
   * The quantity takes a sample of the deviation x, the row's packet counter being n: its magnitude
   * below 2^31, otherwise what `abs` makes of it.
   */
  ghost predicate TakesSample(before: Metric, after: Metric, n: nat, x: int) {
    && after.last == Abs(Wrap(x))
    && (-0x8000_0000 < x < 0x8000_0000 ==> after.last == if x < 0 then -x else x)
    && after.max == (if after.last > before.max then after.last else before.max)
    && after.avg * n <= Wrap(before.avg * (n - 1) + after.last) < after.avg * n + n
  }

  lemma SampledTakes(m: Metric, n: nat, x: int)
    requires n > 0
    ensures TakesSample(m, Sampled(m, n, Abs(Wrap(x))), n, x)
  {
    AbsIsMagnitude(x);
    QuotientAtMost(Wrap(m.avg * (n - 1) + Abs(Wrap(x))), n);
  }

  /** A jitter goes into the flow's row alone, and there into one quantity alone. */
  lemma SwJitterTaken(numFlows: nat, log: seq<Op>, f: nat, prev: u64, now: u64, period: u64, row: nat)
    ensures var r, s := RowAfter(numFlows, log, row), RowAfter(numFlows, log + [SwJitter(f, prev, now, period)], row);
            if row == f then
              TakesSample(r.jitterSw, s.jitterSw, r.send, now - prev - period) && s == r.(jitterSw := s.jitterSw)
            else s == r
  {
    RowAfterAppend(numFlows, log, SwJitter(f, prev, now, period), row);
    var r := RowAfter(numFlows, log, row);
    SampledTakes(r.jitterSw, r.send, now - prev - period);
  }

  lemma HwJitterTaken(numFlows: nat, log: seq<Op>, f: nat, prev: u64, now: u64, period: u64, row: nat)
    ensures var r, s := RowAfter(numFlows, log, row), RowAfter(numFlows, log + [HwJitter(f, prev, now, period)], row);
            if row == f then
              TakesSample(r.jitterHw, s.jitterHw, r.send, now - prev - period) && s == r.(jitterHw := s.jitterHw)
            else s == r
  {
    RowAfterAppend(numFlows, log, HwJitter(f, prev, now, period), row);
    var r := RowAfter(numFlows, log, row);
    SampledTakes(r.jitterHw, r.send, now - prev - period);
  }

  /** A delta goes into the flow's row and the core row, and there into one quantity alone. */
  lemma SwDeltaTaken(numFlows: nat, log: seq<Op>, f: nat, swtime: u64, txtime: u64, row: nat)
    ensures var r, s := RowAfter(numFlows, log, row), RowAfter(numFlows, log + [TimeSw(f, swtime, txtime)], row);
            if row == f || row == numFlows then
              TakesSample(r.deltaSw, s.deltaSw, r.send, swtime - txtime) && s == r.(deltaSw := s.deltaSw)
            else s == r
  {
    RowAfterAppend(numFlows, log, TimeSw(f, swtime, txtime), row);
    var r := RowAfter(numFlows, log, row);
    SampledTakes(r.deltaSw, r.send, swtime - txtime);
  }

  lemma HwDeltaTaken(numFlows: nat, log: seq<Op>, f: nat, hwtime: u64, txtime: u64, row: nat)
    ensures var r, s := RowAfter(numFlows, log, row), RowAfter(numFlows, log + [TimeHw(f, hwtime, txtime)], row);
            if row == f || row == numFlows then
              TakesSample(r.deltaHw, s.deltaHw, r.send, hwtime - txtime) && s == r.(deltaHw := s.deltaHw)
            else s == r
  {
    RowAfterAppend(numFlows, log, TimeHw(f, hwtime, txtime), row);
    var r := RowAfter(numFlows, log, row);
    SampledTakes(r.deltaHw, r.send, hwtime - txtime);
  }

  /** A counting call changes the flow's row and the core row, and only counters. */
  lemma FrameCounted(numFlows: nat, log: seq<Op>, f: nat, missed: bool, failed: bool, row: nat)
    ensures var r, s := RowAfter(numFlows, log, row), RowAfter(numFlows, log + [Nums(f, missed, failed)], row);
            if row == f || row == numFlows then
              s == r.(total := r.total + 1,
                      misdl := r.misdl + (if missed then 1 else 0),
                      drop := r.drop + (if failed then 1 else 0),
                      send := r.send + (if missed || failed then 0 else 1))
            else s == r
  {
    RowAfterAppend(numFlows, log, Nums(f, missed, failed), row);
  }

  // ---------- The averages against exact arithmetic ----------

  function NextExact(exact: real, n: nat, d: nat): real
    requires n > 0
  {
    (exact * (n as real - 1.0) + d as real) / n as real
  }

  /** The same running average without truncation. */
  ghost function ExactAverage(numFlows: nat, log: seq<Op>, row: nat, kind: Kind): real {
    if |log| == 0 then 0.0
    else if Samples(Last(log), kind, row, numFlows) then
      var before := Front(log);
      NextExact(ExactAverage(numFlows, before, row, kind), RowAfter(numFlows, before, row).send, Value(Last(log)))
    else ExactAverage(numFlows, Front(log), row, kind)
  }

  /**
   * Each integer average is at most the exact one, and lags behind it by no more than the number of
   * packets sent.
   */
  lemma {:induction false} AverageLag(numFlows: nat, log: seq<Op>, row: nat, kind: Kind)
    requires RowAfter(numFlows, log, row).send <= 0x2_0000_0000
    requires MetricOf(RowAfter(numFlows, log, row), kind).max < TWO31
    ensures var r := RowAfter(numFlows, log, row);
            0.0 <= ExactAverage(numFlows, log, row, kind) - MetricOf(r, kind).avg as real <= (r.send - 1) as real
  {
    if |log| > 0 {
      var before, op := Front(log), Last(log);
      var r := RowAfter(numFlows, before, row);
      AverageLag(numFlows, before, row, kind);
      if Samples(op, kind, row, numFlows) {
        MaximumAndAverage(numFlows, before, row, kind);
        LagStep(ExactAverage(numFlows, before, row, kind), MetricOf(r, kind), r.send, Value(op));
      }
    }
  }

  lemma LagStep(exact: real, m: Metric, n: nat, d: u64)
    requires 0 < n <= 0x2_0000_0000 && m.avg < TWO31 && d < TWO31
    requires 0.0 <= exact - m.avg as real <= (n - 1) as real
    ensures 0.0 <= NextExact(exact, n, d) - Sampled(m, n, d).avg as real <= (n - 1) as real
  {
    var r := SampledRemainder(m, n, d);
    RealDivision(m.avg, n, d, Sampled(m, n, d).avg, r);
    LagOfQuotient(exact, m.avg, n, d, Sampled(m, n, d).avg, r);
  }

  lemma LagOfQuotient(exact: real, avg: nat, n: nat, d: nat, q: nat, r: nat)
    requires n > 0 && r < n && avg as real * (n as real - 1.0) + d as real == q as real * n as real + r as real
    requires 0.0 <= exact - avg as real <= (n - 1) as real
    ensures 0.0 <= NextExact(exact, n, d) - q as real <= (n - 1) as real
  {
    RealPredecessor(r, n);
    NextExactProduct(exact, n, d);
    LagArithmetic(exact, avg as real, n as real, d as real, q as real, r as real, NextExact(exact, n, d));
  }

  lemma NextExactProduct(exact: real, n: nat, d: nat)
    requires n > 0
    ensures NextExact(exact, n, d) * n as real == exact * (n as real - 1.0) + d as real
  {
    var sum, top := exact * (n as real - 1.0) + d as real, n as real;
    assert (sum / top) * top == sum;
  }

  lemma RealPredecessor(r: nat, n: nat)
    requires r < n
    ensures (n - 1) as real == n as real - 1.0 && 0.0 <= r as real <= n as real - 1.0 && n as real >= 1.0
  {
  }

  /** The division behind a sample, when the sum fits in a word. */
  lemma SampledRemainder(m: Metric, n: nat, d: u64) returns (r: nat)
    requires 0 < n <= 0x2_0000_0000 && m.avg < TWO31 && d < TWO31
    ensures r < n && m.avg * (n - 1) + d == Sampled(m, n, d).avg * n + r
  {
    var x := m.avg * (n - 1) + d;
    WordSum(m.avg, n, d);
    ProductMonotone(0, m.avg, n - 1);
    WrapIs(x, 0, x);
    QuotientAtMost(x, n);
    r := x % n;
  }

  lemma RealDivision(avg: nat, n: nat, d: nat, q: nat, r: nat)
    requires n > 0 && avg * (n - 1) + d == q * n + r
    ensures avg as real * (n as real - 1.0) + d as real == q as real * n as real + r as real
  {
    RealProduct(avg, n - 1);
    RealProduct(q, n);
    assert (n - 1) as real == n as real - 1.0;
    assert (avg * (n - 1) + d) as real == (avg * (n - 1)) as real + d as real;
    assert (q * n + r) as real == (q * n) as real + r as real;
  }

  /** Conversion to reals commutes with products. */
  lemma {:induction false} RealProduct(a: int, b: nat)
    ensures (a * b) as real == a as real * b as real
  {
    if b > 0 {
      RealProduct(a, b - 1);
      assert a * b == a * (b - 1) + a;
      assert a as real * b as real == a as real * (b - 1) as real + a as real;
    }
  }

  lemma LagArithmetic(exact: real, avg: real, n: real, d: real, q: real, r: real, next: real)
    requires n >= 1.0 && avg * (n - 1.0) + d == q * n + r && 0.0 <= r <= n - 1.0
    requires 0.0 <= exact - avg <= n - 1.0 && next * n == exact * (n - 1.0) + d
    ensures 0.0 <= next - q <= n - 1.0
  {
    var e, lag := exact - avg, next - q;
    assert e * (n - 1.0) == exact * (n - 1.0) - avg * (n - 1.0);
    assert lag * n == next * n - q * n;
    LagBound(lag, e, n - 1.0, n, r);
  }

  lemma LagBound(lag: real, e: real, k: real, n: real, r: real)
    requires k >= 0.0 && n == k + 1.0 && 0.0 <= e <= k && 0.0 <= r <= k && lag * n == e * k + r
    ensures 0.0 <= lag <= k
  {
    RealMonotone(0.0, e, k);
    RealReflect(0.0, lag, n);
    LagAtMost(lag, e, k, n, r);
  }

  lemma LagAtMost(lag: real, e: real, k: real, n: real, r: real)
    requires k >= 0.0 && n == k + 1.0 && e <= k && r <= k && lag * n == e * k + r
    ensures lag <= k
  {
    RealMonotone(e, k, k);
    RealNext(k, n);
    RealReflect(lag, k, n);
  }

  lemma RealNext(k: real, n: real)
    requires n == k + 1.0
    ensures k * n == k * k + k
  {
    assert k * n == k * (k + 1.0);
  }

  lemma RealMonotone(a: real, b: real, c: real)
    requires a <= b && c >= 0.0
    ensures a * c <= b * c
  {
    assert (b - a) * c >= 0.0;
  }

  lemma RealReflect(a: real, b: real, c: real)
    requires a * c <= b * c && c > 0.0
    ensures a <= b
  {
    assert (b - a) * c >= 0.0;
  }

  // ---------- Drift of the hardware average ----------

  /**
   * Every successful send of the row is directly followed by its hardware sample, and there are no
   * other samples.
   */
  ghost predicate StampPerSend(numFlows: nat, log: seq<Op>, row: nat) {
    if |log| == 0 then true
    else if Samples(Last(log), DeltaHw, row, numFlows) then
      && |log| >= 2
      && Sent(row, numFlows)(log[|log| - 2])
      && StampPerSend(numFlows, log[..|log| - 2], row)
    else !Sent(row, numFlows)(Last(log)) && StampPerSend(numFlows, Front(log), row)
  }

  function SumOfHw(numFlows: nat, log: seq<Op>, row: nat): nat {
    if |log| == 0 then 0
    else SumOfHw(numFlows, Front(log), row) +
         (if Samples(Last(log), DeltaHw, row, numFlows) then Value(Last(log)) else 0)
  }

  ghost predicate DriftBounded(sum: int, r: Row) {
    0 <= 2 * (sum - r.send * r.deltaHw.avg) <= r.send * (r.send - 1)
  }

  /**
   * Truncation makes the running average drift: n times the average stays below the sum of the
   * samples, by at most n * (n - 1) / 2.
   */
  lemma {:induction false} AverageDrift(numFlows: nat, log: seq<Op>, row: nat)
    requires StampPerSend(numFlows, log, row)
    requires RowAfter(numFlows, log, row).send <= 0x2_0000_0000
    requires RowAfter(numFlows, log, row).deltaHw.max < TWO31
    ensures DriftBounded(SumOfHw(numFlows, log, row), RowAfter(numFlows, log, row))
  {
    if |log| == 0 {
    } else if Samples(Last(log), DeltaHw, row, numFlows) {
      var before, sent := log[..|log| - 2], log[|log| - 2];
      assert Front(log) == before + [sent];
      RowAfterAppend(numFlows, before, sent, row);
      assert Front(Front(log)) == before;
      var prior, d := RowAfter(numFlows, before, row), Value(Last(log));
      assert RowAfter(numFlows, log, row).deltaHw == Sampled(prior.deltaHw, prior.send + 1, d);
      AverageDrift(numFlows, before, row);
      MaximumAndAverage(numFlows, before, row, DeltaHw);
      DriftStep(SumOfHw(numFlows, before, row), prior.deltaHw, prior.send + 1, d);
    } else {
      AverageDrift(numFlows, Front(log), row);
    }
  }

  lemma DriftStep(sum: nat, m: Metric, n: nat, d: u64)
    requires 1 < n <= 0x2_0000_0000 && m.avg < TWO31 && d < TWO31
    requires 0 <= 2 * (sum - (n - 1) * m.avg) <= (n - 1) * (n - 2)
    ensures 0 <= 2 * (sum + d - n * Sampled(m, n, d).avg) <= n * (n - 1)
  {
    var r := SampledRemainder(m, n, d);
    DriftArithmetic(sum, m.avg, n, d, Sampled(m, n, d).avg, r);
  }

  lemma DriftArithmetic(sum: int, avg: int, n: int, d: int, q: int, r: int)
    requires avg * (n - 1) + d == q * n + r && 0 <= r < n
    requires 0 <= 2 * (sum - (n - 1) * avg) <= (n - 1) * (n - 2)
    ensures 0 <= 2 * (sum + d - n * q) <= n * (n - 1)
  {
    assert n * (n - 1) == (n - 1) * (n - 2) + 2 * (n - 1);
  }

  /** The true deviations of the row's hardware samples, added up. */
  function TrueSumOfHw(numFlows: nat, log: seq<Op>, row: nat): nat {
    if |log| == 0 then 0
    else TrueSumOfHw(numFlows, Front(log), row) +
         (if Samples(Last(log), DeltaHw, row, numFlows) then Magnitude(Difference(Last(log))) else 0)
  }

  lemma {:induction false} SumIsTrueSum(numFlows: nat, log: seq<Op>, row: nat)
    requires forall op | op in log && Samples(op, DeltaHw, row, numFlows) :: Magnitude(Difference(op)) < TWO31
    ensures SumOfHw(numFlows, log, row) == TrueSumOfHw(numFlows, log, row)
  {
    if |log| > 0 {
      assert forall op | op in Front(log) :: op in log;
      SumIsTrueSum(numFlows, Front(log), row);
      if Samples(Last(log), DeltaHw, row, numFlows) {
        AbsIsMagnitude(Difference(Last(log)));
      }
    }
  }

  /** While true deviations stay below 2^31 the average drifts by no more from their sum. */
  lemma TrueDrift(numFlows: nat, log: seq<Op>, row: nat)
    requires StampPerSend(numFlows, log, row)
    requires RowAfter(numFlows, log, row).send <= 0x2_0000_0000
    requires forall d | d in TrueDeviations(numFlows, log, row, DeltaHw) :: d < TWO31
    ensures DriftBounded(TrueSumOfHw(numFlows, log, row), RowAfter(numFlows, log, row))
  {
    MaximumIsTrueMaximum(numFlows, log, row, DeltaHw);
    AverageDrift(numFlows, log, row);
    forall op | op in log && Samples(op, DeltaHw, row, numFlows)
      ensures Magnitude(Difference(op)) < TWO31
    {
      assert Magnitude(Difference(op)) in TrueDeviations(numFlows, log, row, DeltaHw);
    }
    SumIsTrueSum(numFlows, log, row);
  }

  // ---------- The statistics object ----------

  class StatisticCore {
    const numFlows: nat
    /** One row per flow, the core row at index numFlows, and one spare row. */
    const st: array<Row>
    /** Every call so far. */
    ghost var log: seq<Op>

    ghost predicate Valid()
      reads this, st
    {
      && st.Length == numFlows + 2
      && forall i | 0 <= i < st.Length :: st[i] == RowAfter(numFlows, log, i)
    }

    constructor (numFlows: nat)
      ensures Valid() && fresh(st) && this.numFlows == numFlows && log == []
    {
      this.numFlows := numFlows;
      this.st := new Row[numFlows + 2](_ => INITIAL);
      this.log := [];
    }

    method UpdateNumsSt(row: nat, missedDeadline: bool, sendFailure: bool)
      requires row < st.Length && st[row].send > 0
      modifies st
      ensures st[..] == old(st[..])[row := Updated(old(st[row]), Nums(row, missedDeadline, sendFailure))]
    {
      st[row] := st[row].(total := st[row].total + 1);
      if missedDeadline {
        st[row] := st[row].(misdl := st[row].misdl + 1);
      }
      if sendFailure {
        st[row] := st[row].(drop := st[row].drop + 1);
      }
      if !missedDeadline && !sendFailure {
        st[row] := st[row].(send := st[row].send + 1);
      }
    }

    /**
     * Takes a sample into one quantity of one row; the four `_st` functions differ only in the
     * quantity and the difference.
     */
    method Sample(row: nat, op: Op)
      requires row < st.Length && st[row].send > 0 && !op.Nums?
      modifies st
      ensures st[..] == old(st[..])[row := Updated(old(st[row]), op)]
    {
      var m, n := MetricOf(st[row], KindOf(op)), st[row].send;
      var delta := Abs(Wrap(Difference(op)));
      m := m.(last := delta);
      m := m.(avg := DivWord(Wrap(m.avg * (n - 1) + delta), n));
      if delta > m.max {
        m := m.(max := delta);
      }
      st[row] := WithMetric(st[row], KindOf(op), m);
    }

    /** `update_nums`: the flow's row, then the core row. */
    method UpdateNums(flow: nat, missedDeadline: bool, sendFailure: bool)
      requires Valid() && flow < numFlows
      modifies this`log, st
      ensures Valid() && log == old(log) + [Nums(flow, missedDeadline, sendFailure)]
    {
      UpdateNumsSt(flow, missedDeadline, sendFailure);
      UpdateNumsSt(numFlows, missedDeadline, sendFailure);
      Logged(Nums(flow, missedDeadline, sendFailure));
    }

    /**
     * `update_time_sw`, `update_time_hw`: the flow's row, then the core row. `update_jitter_*_st`:
     * the flow's row alone.
     */
    method Record(op: Op)
      requires Valid() && op.flow < numFlows && !op.Nums?
      modifies this`log, st
      ensures Valid() && log == old(log) + [op]
    {
      Sample(op.flow, op);
      if op.TimeSw? || op.TimeHw? {
        Sample(numFlows, op);
      }
      Logged(op);
    }

    ghost method Logged(op: Op)
      requires st.Length == numFlows + 2 && op.flow < numFlows
      requires forall i | 0 <= i < st.Length ::
                 st[i] == if Reaches(op, i, numFlows) then Updated(RowAfter(numFlows, log, i), op)
                          else RowAfter(numFlows, log, i)
      modifies this`log
      ensures Valid() && log == old(log) + [op]
    {
      forall i | 0 <= i < st.Length
        ensures st[i] == RowAfter(numFlows, log + [op], i)
      {
        RowAfterAppend(numFlows, log, op, i);
      }
      log := log + [op];
    }
  }
}
