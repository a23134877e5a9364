/** Flows, their timers, and the flow set of flow.c and flow.h. */
module Flows {
  import opened Words

  /**
   * The part of a flow that never changes once it is configured. `offset` is offset_sec and
   * offset_nsec in one word.
   */
  datatype FlowSpec = FlowSpec(period: u64, offset: u64, delta: u64, queue: int)

  const MAX_NUM_FLOWS: int := 128

  class Flow {
    const period: u64
    const delta: u64
    const offsetSec: u64
    const offsetNsec: u64
    const queue: int
    /** Schedule time, updated before each frame. */
    var scheTime: u64

    constructor (delta: u64, period: u64, offsetSec: u64, offsetNsec: u64, queue: int)
      ensures Spec() == FlowSpec(period, Wrap(offsetSec * SECOND + offsetNsec), delta, queue)
    {
      this.delta, this.period, this.queue := delta, period, queue;
      this.offsetSec, this.offsetNsec := offsetSec, offsetNsec;
      this.scheTime := 0;
    }

    function Spec(): FlowSpec {
      FlowSpec(period, Wrap(offsetSec * SECOND + offsetNsec), delta, queue)
    }

    method InitTimer(base: u64)
      modifies this
      ensures scheTime == Wrap(base + Spec().offset)
    {
      scheTime := Wrap(base + offsetSec * SECOND + offsetNsec);
      WrapSum(offsetSec * SECOND + offsetNsec, base);
    }

    method IncTimer()
      modifies this
      ensures scheTime == Wrap(old(scheTime) + period)
    {
      scheTime := Wrap(scheTime + period);
    }
  }

  /** All timers of a flow set as `init_flowset_timer` leaves them. */
  function InitialTimers(cfg: seq<FlowSpec>, base: u64): seq<u64> {
    seq(|cfg|, i requires 0 <= i < |cfg| => Wrap(base + cfg[i].offset))
  }

  ghost function SpecsOf(fs: seq<Flow>): seq<FlowSpec> {
    seq(|fs|, i requires 0 <= i < |fs| => fs[i].Spec())
  }

  ghost function TimersOf(fs: seq<Flow>): seq<u64>
    reads fs
  {
    seq(|fs|, i requires 0 <= i < |fs| reads fs => fs[i].scheTime)
  }

  class FlowState {
    const flows: array<Flow?>
    var numFlows: nat

    ghost predicate Valid()
      reads this, flows
    {
      && flows.Length == MAX_NUM_FLOWS
      && numFlows <= MAX_NUM_FLOWS
      && (forall i | 0 <= i < numFlows :: flows[i] != null)
      && (forall i, j | 0 <= i < j < numFlows :: flows[i] != flows[j])
    }

    /** The configured flows, in configuration order. */
    ghost function Members(): (fs: seq<Flow>)
      requires Valid()
      reads this, flows
      ensures |fs| == numFlows
      ensures forall i | 0 <= i < |fs| :: fs[i] == flows[i]
    {
      seq(numFlows, i requires 0 <= i < numFlows && Valid() reads this, flows => flows[i])
    }

    ghost function Config(): (cfg: seq<FlowSpec>)
      requires Valid()
      reads this, flows
      ensures |cfg| == numFlows
    {
      SpecsOf(Members())
    }

    ghost function Timers(): (ts: seq<u64>)
      requires Valid()
      reads this, flows, Members()
      ensures |ts| == numFlows
    {
      TimersOf(Members())
    }

    constructor ()
      ensures Valid() && Config() == [] && fresh(flows)
    {
      flows := new Flow?[MAX_NUM_FLOWS](_ => null);
      numFlows := 0;
    }

    /** A flow set that is full ignores the new flow. */
    method AddFlow(flow: Flow)
      requires Valid() && flow !in Members()
      modifies this`numFlows, flows
      ensures Valid()
      ensures Config() == if old(numFlows) < 128 then old(Config()) + [flow.Spec()] else old(Config())
      ensures Timers() == if old(numFlows) < 128 then old(Timers()) + [flow.scheTime] else old(Timers())
    {
      if numFlows >= MAX_NUM_FLOWS {
        return;
      }
      flows[numFlows] := flow;
      numFlows := numFlows + 1;
    }

    method InitTimers(base: u64)
      requires Valid()
      modifies Members()
      ensures Timers() == InitialTimers(Config(), base)
    {
      for i := 0 to numFlows
        invariant forall j | 0 <= j < i :: flows[j].scheTime == Wrap(base + flows[j].Spec().offset)
      {
        flows[i].InitTimer(base);
      }
    }
  }
}
