/**
 * When a queue's loop issues its transmit times in order. Every frame goes out one period of its
 * own flow after its table time, so flows of different periods can overtake each other; this
 * module finds exactly when they never do.
 */
module InOrder {
  import opened Words
  import opened Arithmetic
  import opened Sequences
  import opened Flows
  import opened Schedule
  import opened TxCore
  import opened Coverage
  import opened Interleaving
  import Tables

  /** The documented use: every offset lies below its flow's period. */
  predicate OffsetsBelowPeriods(cfg: seq<FlowSpec>) {
    forall i | 0 <= i < |cfg| :: cfg[i].offset < cfg[i].period
  }

  /** The moment a place stands for, from the base time on. */
  ghost function Instant(cycle: u64, tables: seq<seq<Entry>>, p: Place): int
    requires IsPlace(tables, p)
  {
    p.cycle * cycle + tables[p.queue][p.slot].time
  }

  ghost function Period(cfg: seq<FlowSpec>, tables: seq<seq<Entry>>, p: Place): int
    requires IsPlace(tables, p) && FlowAt(tables, p) < |cfg|
  {
    cfg[FlowAt(tables, p)].period
  }

  /** Two places of one queue, in the order the loop reaches them. */
  predicate Before(p: Place, r: Place) {
    p.queue == r.queue && (p.cycle < r.cycle || (p.cycle == r.cycle && p.slot < r.slot))
  }

  // ---------- The loop goes by instant, and by flow index within an instant ----------

  lemma TimeBelowCycle(cfg: seq<FlowSpec>, cycle: u64, tables: seq<seq<Entry>>, p: Place)
    requires PortTables(cfg, cycle, tables) && IsPlace(tables, p) && OffsetsBelowPeriods(cfg)
    ensures tables[p.queue][p.slot].time < cycle
  {
    var t := tables[p.queue];
    OccurrenceTime(t, cfg, cycle, Queue(p.queue), p.slot);
    var i := t[p.slot].flow;
    var j := Count(Order(t)[..p.slot], i);
    WholePeriods(cfg, cycle, i);
    ProductMonotone(j + 1, FramesPerCycle(cfg[i], cycle), cfg[i].period);
    NextProduct(j, cfg[i].period);
  }

  lemma InstantsFollowPlaces(cfg: seq<FlowSpec>, cycle: u64, tables: seq<seq<Entry>>, p: Place, r: Place)
    requires PortTables(cfg, cycle, tables) && IsPlace(tables, p) && IsPlace(tables, r) && OffsetsBelowPeriods(cfg)
    requires Before(p, r)
    ensures Instant(cycle, tables, p) <= Instant(cycle, tables, r)
  {
    if p.cycle < r.cycle {
      TimeBelowCycle(cfg, cycle, tables, p);
      ProductMonotone(p.cycle + 1, r.cycle, cycle);
      NextProduct(p.cycle, cycle);
    } else {
      assert SortedByTime(tables[p.queue]);
    }
  }

  /** Rows of one flow never share a time; `last` is the latest of them. */
  lemma {:induction false} OneRowPerTime(spec: FlowSpec, i: nat, n: nat, last: int, x: int)
    requires spec.period > 0 && (n > 0 ==> 0 <= last < TWO64 && last == spec.offset + (n - 1) * spec.period)
    ensures var f := Filter(FlowRows(spec, i, n), At(x));
            && (f == [] || (|f| == 1 && f[0].flow == i))
            && (x > last ==> f == [])
  {
    if n > 0 {
      WrapIs(last, 0, last);
      FilterAppend(FlowRows(spec, i, n - 1), Entry(last, i), At(x));
      if n > 1 {
        NextProduct(n - 2, spec.period);
        ProductMonotone(0, n - 2, spec.period);
        OneRowPerTime(spec, i, n - 1, last - spec.period, x);
      }
    }
  }

  ghost predicate FlowsAscend(s: seq<Entry>, m: nat) {
    && (forall k | 0 <= k < |s| :: s[k].flow < m)
    && (forall a, b | 0 <= a < b < |s| :: s[a].flow < s[b].flow)
  }

  /** Slots of equal time stand in the order of their flows, each flow at most once. */
  lemma {:induction false} TiesByFlow(cfg: seq<FlowSpec>, cycle: u64, m: nat, q: int, x: int)
    requires PositivePeriods(cfg) && TimesFit(cfg, cycle) && m <= |cfg|
    ensures FlowsAscend(Filter(Expand(cfg, cycle, m, Queue(q)), At(x)), m)
  {
    if m > 0 {
      TiesByFlow(cfg, cycle, m - 1, q, x);
      if InScope(cfg[m - 1], Queue(q)) {
        assert RowsFit(cfg[m - 1], cycle);
        var n: int := FramesPerCycle(cfg[m - 1], cycle);
        if n > 0 {
          ProductMonotone(0, n - 1, cfg[m - 1].period);
        }
        OneRowPerTime(cfg[m - 1], m - 1, n, cfg[m - 1].offset + (n - 1) * cfg[m - 1].period, x);
        FilterConcat(Expand(cfg, cycle, m - 1, Queue(q)), FlowRows(cfg[m - 1], m - 1, n), At(x));
        AscendFurther(Filter(Expand(cfg, cycle, m - 1, Queue(q)), At(x)),
                      Filter(FlowRows(cfg[m - 1], m - 1, n), At(x)), m);
      }
    }
  }

  lemma AscendFurther(s: seq<Entry>, f: seq<Entry>, m: nat)
    requires m > 0 && FlowsAscend(s, m - 1) && (f == [] || (|f| == 1 && f[0].flow == m - 1))
    ensures FlowsAscend(s + f, m)
  {
  }

  lemma TableTies(t: seq<Entry>, cfg: seq<FlowSpec>, cycle: u64, q: int, a: nat, b: nat)
    requires PositivePeriods(cfg) && TimesFit(cfg, cycle) && IsTable(t, cfg, cycle, Queue(q))
    requires a < b < |t| && t[a].time == t[b].time
    ensures t[a].flow < t[b].flow
  {
    var x := t[a].time;
    TiesByFlow(cfg, cycle, |cfg|, q, x);
    assert Filter(t, At(x)) == Filter(Expand(cfg, cycle, |cfg|, Queue(q)), At(x));
    FilterRank(t, At(x), a);
    FilterRank(t, At(x), b);
    FilterMonotone(t, At(x), a, b);
  }

  // ---------- When nothing overtakes ----------

  /** The transmit times of queue q never decrease over the whole run. */
  ghost predicate NeverOvertakes(sys: System, q: nat)
    requires Separate(sys) && q < |sys.orders|
  {
    forall c: nat, k: nat, d: nat, l: nat |
      k < |sys.orders[q]| && l < |sys.orders[q]| && Before(Place(q, c, k), Place(q, d, l)) ::
      Due(JobOf(sys, q), c, k) <= Due(JobOf(sys, q), d, l)
  }

  /**
   * What a pair of flows on one queue has to meet: equal periods, or periods that differ by just
   * their gcd, offsets that agree modulo it, and the shorter period configured first.
   */
  predicate Compatible(cfg: seq<FlowSpec>, i: nat, j: nat)
    requires i < |cfg| && j < |cfg|
  {
    var p, r := cfg[i].period, cfg[j].period;
    p > 0 && r > 0 && p < r ==>
      i < j && r - p == Gcd(p, r) && Gcd(p, r) > 0 && (cfg[i].offset - cfg[j].offset) % Gcd(p, r) == 0
  }

  ghost predicate AllCompatible(cfg: seq<FlowSpec>, q: int) {
    forall i: nat, j: nat | i < |cfg| && j < |cfg| && cfg[i].queue == q && cfg[j].queue == q ::
      Compatible(cfg, i, j)
  }

  /** The distance of two instants is a multiple of the gcd, when the offsets agree modulo it. */
  lemma DistanceIsMultiple(g: nat, p: nat, r: nat, o: int, n: nat, m: nat)
    requires g > 0 && Divides(g, p) && Divides(g, r) && Divides(g, o)
    ensures Divides(g, o + n * p - m * r)
  {
    var minus: int := 0 - m;
    DividesLinear(g, p, n, r, minus);
    DividesLinear(g, o, 1, p * n + r * minus, 1);
    assert r * minus == -(m * r);
  }

  lemma MultipleAtLeast(g: nat, d: int)
    requires Divides(g, d) && d > 0
    ensures d >= g
  {
    DivisorAtMost(g, d);
  }

  /** Compatible flows: an earlier place is never due after a later one. */
  lemma CompatiblePair(sys: System, cycle: u64, tables: seq<seq<Entry>>, p: Place, r: Place)
    requires Scheduled(sys, cycle, tables) && Separate(sys) && OffsetsBelowPeriods(sys.cfg)
    requires IsPlace(tables, p) && IsPlace(tables, r) && Before(p, r)
    requires FlowAt(tables, p) < |sys.cfg| && FlowAt(tables, r) < |sys.cfg|
    requires Compatible(sys.cfg, FlowAt(tables, r), FlowAt(tables, p))
    ensures Instant(cycle, tables, p) + Period(sys.cfg, tables, p) <=
            Instant(cycle, tables, r) + Period(sys.cfg, tables, r)
  {
    var cfg, i, j := sys.cfg, FlowAt(tables, r), FlowAt(tables, p);
    InstantsFollowPlaces(cfg, cycle, tables, p, r);
    if cfg[i].period < cfg[j].period {
      var g := Gcd(cfg[i].period, cfg[j].period);
      PlaceHoldsFrame(cfg, cycle, tables, p);
      PlaceHoldsFrame(cfg, cycle, tables, r);
      var x, y := Bezout(cfg[i].period, cfg[j].period);
      DistanceIsMultiple(g, cfg[i].period, cfg[j].period, cfg[i].offset - cfg[j].offset,
                         FrameAt(tables, r), FrameAt(tables, p));
      if Instant(cycle, tables, p) == Instant(cycle, tables, r) {
        TiesFollowPlaces(cfg, cycle, tables, p, r);
        assert false;
      }
      MultipleAtLeast(g, Instant(cycle, tables, r) - Instant(cycle, tables, p));
    }
  }

  /** Within an instant the loop goes by flow index. */
  lemma TiesFollowPlaces(cfg: seq<FlowSpec>, cycle: u64, tables: seq<seq<Entry>>, p: Place, r: Place)
    requires PortTables(cfg, cycle, tables) && IsPlace(tables, p) && IsPlace(tables, r) && OffsetsBelowPeriods(cfg)
    requires Before(p, r) && Instant(cycle, tables, p) == Instant(cycle, tables, r)
    ensures FlowAt(tables, p) < FlowAt(tables, r)
  {
    if p.cycle < r.cycle {
      TimeBelowCycle(cfg, cycle, tables, p);
      ProductMonotone(p.cycle + 1, r.cycle, cycle);
      NextProduct(p.cycle, cycle);
      assert false;
    }
    TableTies(tables[p.queue], cfg, cycle, p.queue, p.slot, r.slot);
  }

  /** Frames n of flow i and m of flow j whose instants are any given distance apart that the gcd allows. */
  lemma FramesAtDistance(p: nat, r: nat, o: int, d: int) returns (n: nat, m: nat)
    requires p > 0 && r > 0 && Divides(Gcd(p, r), d - o)
    ensures o + n * p - m * r == d
  {
    var x, y := Bezout(p, r);
    var z := Cofactor(Gcd(p, r), d - o);
    var t := Magnitude(x * z) + Magnitude(y * z);
    ProductMonotone(1, r, t);
    ProductMonotone(1, p, t);
    n, m := x * z + t * r, t * p - y * z;
    DistanceOf(p, r, x, y, z, t);
  }

  lemma DistanceOf(p: int, r: int, x: int, y: int, z: int, t: int)
    ensures (x * z + t * r) * p - (t * p - y * z) * r == z * (p * x + r * y)
  {
    assert (x * z + t * r) * p == z * (p * x) + t * (r * p);
    assert (t * p - y * z) * r == t * (r * p) - z * (r * y);
    assert z * (p * x) + z * (r * y) == z * (p * x + r * y);
  }

  /** The distance at which flow j overtakes flow i, if the pair is not compatible. */
  lemma OvertakingDistance(cfg: seq<FlowSpec>, i: nat, j: nat) returns (d: nat)
    requires i < |cfg| && j < |cfg| && 0 < cfg[i].period < cfg[j].period && !Compatible(cfg, i, j)
    ensures d < cfg[j].period - cfg[i].period
    ensures Divides(Gcd(cfg[i].period, cfg[j].period), d - (cfg[i].offset - cfg[j].offset))
    ensures d == 0 ==> j < i
  {
    var p, r, o := cfg[i].period, cfg[j].period, cfg[i].offset - cfg[j].offset;
    var g := Gcd(p, r);
    var x, y := Bezout(p, r);
    DividesLinear(g, r, 1, p, -1);
    DivisorAtMost(g, r - p);
    if o % g != 0 {
      d := o % g;
      RestDivides(g, o);
    } else if r - p == g {
      d := 0;
      DividesLinear(g, o, -1, o, 0);
    } else {
      d := g;
      DividesMultiple(g, 1);
      DividesLinear(g, g, 1, o, -1);
    }
  }

  lemma RestDivides(g: nat, o: int)
    requires g > 0
    ensures Divides(g, o % g - o)
  {
    var q := o / g;
    assert o == g * q + o % g;
    assert (0 - q) * g == -(g * q);
    DividesMultiple(g, 0 - q);
  }

  /** Incompatible flows: some frame of the longer period is reached first and due later. */
  lemma IncompatiblePair(sys: System, cycle: u64, tables: seq<seq<Entry>>, q: nat, i: nat, j: nat)
    requires Scheduled(sys, cycle, tables) && Separate(sys) && OffsetsBelowPeriods(sys.cfg) && q < |tables|
    requires i < |sys.cfg| && j < |sys.cfg| && sys.cfg[i].queue == q && sys.cfg[j].queue == q
    requires !Compatible(sys.cfg, i, j)
    ensures !NeverOvertakes(sys, q)
  {
    var cfg := sys.cfg;
    var d := OvertakingDistance(cfg, i, j);
    var n, m := FramesAtDistance(cfg[i].period, cfg[j].period, cfg[i].offset - cfg[j].offset, d);
    var p, r := PlaceOf(cfg, cycle, tables, j, m), PlaceOf(cfg, cycle, tables, i, n);
    FrameHasOnePlace(cfg, cycle, tables, j, m);
    FrameHasOnePlace(cfg, cycle, tables, i, n);
    PlaceHoldsFrame(cfg, cycle, tables, p);
    PlaceHoldsFrame(cfg, cycle, tables, r);
    assert Instant(cycle, tables, r) - Instant(cycle, tables, p) == d;
    assert Before(p, r) by {
      if Before(r, p) {
        InstantsFollowPlaces(cfg, cycle, tables, r, p);
        TiesFollowPlaces(cfg, cycle, tables, r, p);
      }
    }
    DueIsTableTime(sys, cycle, tables, q, p.cycle, p.slot);
    DueIsTableTime(sys, cycle, tables, q, r.cycle, r.slot);
  }

  /**
   * A queue's transmit times are in order over the whole run, cycle boundaries included, exactly
   * when its flows are pairwise compatible. A common period is one such case.
   */
  lemma InOrderIffCompatible(sys: System, cycle: u64, tables: seq<seq<Entry>>, q: nat)
    requires Scheduled(sys, cycle, tables) && Separate(sys) && OffsetsBelowPeriods(sys.cfg) && q < |tables|
    ensures NeverOvertakes(sys, q) <==> AllCompatible(sys.cfg, q)
  {
    if AllCompatible(sys.cfg, q) {
      forall c: nat, k: nat, d: nat, l: nat |
        k < |sys.orders[q]| && l < |sys.orders[q]| && Before(Place(q, c, k), Place(q, d, l))
        ensures Due(JobOf(sys, q), c, k) <= Due(JobOf(sys, q), d, l)
      {
        var p, r := Place(q, c, k), Place(q, d, l);
        PlaceHoldsFrame(sys.cfg, cycle, tables, p);
        PlaceHoldsFrame(sys.cfg, cycle, tables, r);
        assert Compatible(sys.cfg, FlowAt(tables, r), FlowAt(tables, p));
        CompatiblePair(sys, cycle, tables, p, r);
        DueIsTableTime(sys, cycle, tables, q, c, k);
        DueIsTableTime(sys, cycle, tables, q, d, l);
      }
    } else {
      var i: nat, j: nat :| i < |sys.cfg| && j < |sys.cfg| && sys.cfg[i].queue == q && sys.cfg[j].queue == q &&
                            !Compatible(sys.cfg, i, j);
      IncompatiblePair(sys, cycle, tables, q, i, j);
    }
  }

  /** With a common period nothing overtakes. */
  lemma CommonPeriodNeverOvertakes(sys: System, cycle: u64, tables: seq<seq<Entry>>, q: nat)
    requires Scheduled(sys, cycle, tables) && Separate(sys) && OffsetsBelowPeriods(sys.cfg) && q < |tables|
    requires forall i, j | 0 <= i < |sys.cfg| && 0 <= j < |sys.cfg| && sys.cfg[i].queue == sys.cfg[j].queue == q ::
               sys.cfg[i].period == sys.cfg[j].period
    ensures NeverOvertakes(sys, q)
  {
    InOrderIffCompatible(sys, cycle, tables, q);
  }

  /**
   * On a queue without overtaking, the transmit times issued in any interleaving never decrease, as
   * long as they fit in a word.
   */
  lemma IssuedInOrder(sys: System, starts: seq<u64>, events: seq<Event>, q: nat, m: nat, n: nat)
    requires Separate(sys) && |starts| == |sys.orders| && q < |sys.orders| && NeverOvertakes(sys, q)
    requires m < n < |CoreAfter(sys, starts, events, q).issued|
    requires forall e | e in CoreAfter(sys, starts, events, q).issued && e.slot < |sys.orders[q]| ::
               Due(JobOf(sys, q), e.cycle, e.slot) < TWO64
    ensures var issued := CoreAfter(sys, starts, events, q).issued;
            issued[m].txtime <= issued[n].txtime
  {
    var job, core := JobOf(sys, q), CoreAfter(sys, starts, events, q);
    var e, f := core.issued[m], core.issued[n];
    assert IssueDue(job, e, m) && IssueDue(job, f, n) by {
      CoreKept(sys, starts, events, q);
    }
    EarlierFrame(e.cycle, e.slot, f.cycle, f.slot, |job.order|);
    assert Before(Place(q, e.cycle, e.slot), Place(q, f.cycle, f.slot));
    assert e in core.issued && f in core.issued;
    DueIsWord(job, e.cycle, e.slot);
    DueIsWord(job, f.cycle, f.slot);
  }

  lemma EarlierFrame(c: nat, k: nat, d: nat, l: nat, n: nat)
    requires k < n && l < n && c * n + k < d * n + l
    ensures c < d || (c == d && k < l)
  {
    NextProduct(d, n);
    ProductReflect(c, d + 1, n);
  }

  lemma DueIsWord(job: Job, c: nat, k: nat)
    requires WellFormed(job) && k < |job.order| && Due(job, c, k) < TWO64
    ensures Wrap(Due(job, c, k)) == Due(job, c, k)
  {
    var i := job.order[k];
    ProductMonotone(0, c * Count(job.order, i) + Count(job.order[..k], i) + 1, job.cfg[i].period);
    WrapIs(Due(job, c, k), 0, Due(job, c, k));
  }

  // ---------- An example of overtaking ----------

  /** Periods 1 and 3, both offsets 0, on one queue. */
  const EXAMPLE: seq<FlowSpec> := [FlowSpec(1, 0, 0, 0), FlowSpec(3, 0, 0, 0)]

  const EXAMPLE_TABLE: seq<Entry> := [Entry(0, 0), Entry(0, 1), Entry(1, 0), Entry(2, 0)]

  const EXAMPLE_SYSTEM: System := System(EXAMPLE, [Order(EXAMPLE_TABLE)], 0, 0, false)

  /** The second slot goes out at time 3, the third at time 2. */
  lemma OvertakingExample()
    ensures Scheduled(EXAMPLE_SYSTEM, 3, [EXAMPLE_TABLE]) && Separate(EXAMPLE_SYSTEM)
    ensures OffsetsBelowPeriods(EXAMPLE)
    ensures Due(JobOf(EXAMPLE_SYSTEM, 0), 0, 1) == 3 && Due(JobOf(EXAMPLE_SYSTEM, 0), 0, 2) == 2
    ensures !NeverOvertakes(EXAMPLE_SYSTEM, 0)
  {
    ExampleScheduled();
    ScheduledIsSeparate(EXAMPLE_SYSTEM, 3, [EXAMPLE_TABLE]);
    ExampleTimes(JobOf(EXAMPLE_SYSTEM, 0));
    assert Before(Place(0, 0, 1), Place(0, 0, 2));
  }

  lemma ExampleTimes(job: Job)
    requires job.cfg == EXAMPLE && job.order == Order(EXAMPLE_TABLE) && job.base == 0 && WellFormed(job)
    ensures Due(job, 0, 1) == 3 && Due(job, 0, 2) == 2
  {
    assert job.order[..1] == [] + [0] && job.order[..2] == [0] + [1];
    CountAppend([], 0, 1);
    CountAppend([], 0, 0);
    CountAppend([0], 1, 0);
    assert Count(job.order[..1], 1) == 0 && Count(job.order[..2], 0) == 1;
  }

  lemma ExampleScheduled()
    ensures Scheduled(EXAMPLE_SYSTEM, 3, [EXAMPLE_TABLE])
  {
    ExampleSorted();
    assert Tables.Periods(EXAMPLE) == [1, 3];
    assert FramesPerCycle(EXAMPLE[0], 3) == 3 && FramesPerCycle(EXAMPLE[1], 3) == 1;
    assert IsLeastCommonMultiple(3, Tables.Periods(EXAMPLE)) by {
      forall c: nat | CommonMultipleOf(c, Tables.Periods(EXAMPLE))
        ensures Divides(3, c)
      {
        assert Divides(Tables.Periods(EXAMPLE)[1], c);
      }
    }
  }

  lemma ExampleSorted()
    ensures PositivePeriods(EXAMPLE) && IsTable(EXAMPLE_TABLE, EXAMPLE, 3, Queue(0))
  {
    var given := [Entry(0, 0), Entry(1, 0), Entry(2, 0), Entry(0, 1)];
    var once := [Entry(0, 0), Entry(1, 0), Entry(0, 1), Entry(2, 0)];
    ExampleRows();
    Tables.ExchangeKeepsTimes(given, 2);
    assert Tables.Exchange(given, 2) == once;
    Tables.ExchangeKeepsTimes(once, 1);
    assert Tables.Exchange(once, 1) == EXAMPLE_TABLE;
    Tables.SameByTimeTransitive(EXAMPLE_TABLE, once, given);
  }

  lemma ExampleRows()
    ensures PositivePeriods(EXAMPLE)
    ensures Expand(EXAMPLE, 3, 2, Queue(0)) == [Entry(0, 0), Entry(1, 0), Entry(2, 0), Entry(0, 1)]
  {
    assert FlowRows(EXAMPLE[0], 0, 3) == [Entry(0, 0), Entry(1, 0), Entry(2, 0)];
    assert FlowRows(EXAMPLE[1], 1, 1) == [Entry(0, 1)];
    assert Expand(EXAMPLE, 3, 0, Queue(0)) == [];
    assert Expand(EXAMPLE, 3, 1, Queue(0)) == FlowRows(EXAMPLE[0], 0, 3);
  }
}
