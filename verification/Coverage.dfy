/** The tables, replayed cycle after cycle, schedule every frame of every flow exactly once. */
module Coverage {
  import opened Words
  import opened Arithmetic
  import opened Sequences
  import opened Flows
  import opened Schedule
  import Tables

  /** The per-queue tables of a configuration over its hyperperiod. */
  ghost predicate PortTables(cfg: seq<FlowSpec>, cycle: u64, tables: seq<seq<Entry>>) {
    && PositivePeriods(cfg)
    && IsLeastCommonMultiple(cycle, Tables.Periods(cfg))
    && TimesFit(cfg, cycle)
    && forall q | 0 <= q < |tables| :: IsTable(tables[q], cfg, cycle, Queue(q))
  }

  /** Slot k of a queue's table in cycle c. */
  datatype Place = Place(queue: nat, cycle: nat, slot: nat)

  ghost predicate IsPlace(tables: seq<seq<Entry>>, p: Place) {
    p.queue < |tables| && p.slot < |tables[p.queue]|
  }

  ghost function FlowAt(tables: seq<seq<Entry>>, p: Place): nat
    requires IsPlace(tables, p)
  {
    tables[p.queue][p.slot].flow
  }

  /**
   * Which frame of its flow a place holds: the frames of the earlier cycles, and those earlier in
   * this one.
   */
  ghost function FrameAt(tables: seq<seq<Entry>>, p: Place): nat
    requires IsPlace(tables, p)
  {
    var order, i := Order(tables[p.queue]), FlowAt(tables, p);
    p.cycle * Count(order, i) + Count(order[..p.slot], i)
  }

  /** Where the n-th frame of flow i is placed. */
  ghost function PlaceOf(cfg: seq<FlowSpec>, cycle: u64, tables: seq<seq<Entry>>, i: nat, n: nat): (p: Place)
    requires PortTables(cfg, cycle, tables) && i < |cfg| && 0 <= cfg[i].queue < |tables|
    ensures IsPlace(tables, p)
  {
    var q, cnt := cfg[i].queue, FramesPerCycle(cfg[i], cycle);
    FlowCount(tables[q], cfg, cycle, Queue(q), i);
    WholePeriods(cfg, cycle, i);
    QuotientAtMost(n, cnt);
    Place(q, n / cnt, Position(Order(tables[q]), Is(i), n % cnt))
  }

  lemma WholePeriods(cfg: seq<FlowSpec>, cycle: u64, i: nat)
    requires PositivePeriods(cfg) && IsLeastCommonMultiple(cycle, Tables.Periods(cfg)) && i < |cfg|
    ensures FramesPerCycle(cfg[i], cycle) > 0
    ensures FramesPerCycle(cfg[i], cycle) * cfg[i].period == cycle
  {
    assert Divides(Tables.Periods(cfg)[i], cycle);
    var k := Cofactor(cfg[i].period, cycle);
  }

  /** Every place holds a frame of a flow of its queue, and its table time is that frame's time. */
  lemma PlaceHoldsFrame(cfg: seq<FlowSpec>, cycle: u64, tables: seq<seq<Entry>>, p: Place)
    requires PortTables(cfg, cycle, tables) && IsPlace(tables, p)
    ensures FlowAt(tables, p) < |cfg| && cfg[FlowAt(tables, p)].queue == p.queue
    ensures p.cycle * cycle + tables[p.queue][p.slot].time ==
            cfg[FlowAt(tables, p)].offset + FrameAt(tables, p) * cfg[FlowAt(tables, p)].period
    ensures PlaceOf(cfg, cycle, tables, FlowAt(tables, p), FrameAt(tables, p)) == p
  {
    var t := tables[p.queue];
    OccurrenceTime(t, cfg, cycle, Queue(p.queue), p.slot);
    var i := t[p.slot].flow;
    var cnt, j := FramesPerCycle(cfg[i], cycle), Count(Order(t)[..p.slot], i);
    WholePeriods(cfg, cycle, i);
    FrameTime(p.cycle, cnt, j, cfg[i].period, cycle);
    QuotientUnique(p.cycle * cnt + j, cnt, p.cycle, j);
    PositionUnique(Order(t), Is(i), p.slot);
  }

  /**
   * Every frame of every flow has a place, and no other place holds it: the places and the frames
   * are in bijection.
   */
  lemma FrameHasOnePlace(cfg: seq<FlowSpec>, cycle: u64, tables: seq<seq<Entry>>, i: nat, n: nat)
    requires PortTables(cfg, cycle, tables) && i < |cfg| && 0 <= cfg[i].queue < |tables|
    ensures var p := PlaceOf(cfg, cycle, tables, i, n);
            FlowAt(tables, p) == i && FrameAt(tables, p) == n
    ensures forall p | IsPlace(tables, p) && FlowAt(tables, p) == i && FrameAt(tables, p) == n ::
              p == PlaceOf(cfg, cycle, tables, i, n)
  {
    var q, cnt := cfg[i].queue, FramesPerCycle(cfg[i], cycle);
    FlowCount(tables[q], cfg, cycle, Queue(q), i);
    WholePeriods(cfg, cycle, i);
    QuotientAtMost(n, cnt);
    forall p | IsPlace(tables, p) && FlowAt(tables, p) == i && FrameAt(tables, p) == n
      ensures p == PlaceOf(cfg, cycle, tables, i, n)
    {
      PlaceHoldsFrame(cfg, cycle, tables, p);
    }
  }

  /**
   * The same by time alone: exactly one place of the whole port and the whole run carries flow i at
   * offset + n * period.
   */
  lemma FrameScheduledOnce(cfg: seq<FlowSpec>, cycle: u64, tables: seq<seq<Entry>>, i: nat, n: nat, p: Place)
    requires PortTables(cfg, cycle, tables) && i < |cfg| && 0 <= cfg[i].queue < |tables|
    requires IsPlace(tables, p)
    ensures FlowAt(tables, p) == i &&
            p.cycle * cycle + tables[p.queue][p.slot].time == cfg[i].offset + n * cfg[i].period
            <==> p == PlaceOf(cfg, cycle, tables, i, n)
  {
    FrameHasOnePlace(cfg, cycle, tables, i, n);
    PlaceHoldsFrame(cfg, cycle, tables, p);
    if FlowAt(tables, p) == i && FrameAt(tables, p) * cfg[i].period == n * cfg[i].period {
      CancelFactor(FrameAt(tables, p), n, cfg[i].period);
    }
  }
}
