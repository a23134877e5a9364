/** The nanoseconds-to-cycles conversion of engine_dpdk.c. */
module Engine {
  import opened Words

  /** The timer cycles in ns nanoseconds at a given frequency, rounded down. */
  function CyclesIn(ns: nat, hz: nat): nat {
    QuotientAtMost(ns * hz, 1_000_000_000);
    ns * hz / 1_000_000_000
  }

  /**
   * The loop of `sleep` that comes before the busy wait. Whole seconds are taken off one at a
   * time, so the product ns * hz, which may not fit in a word, is never formed: the count is
   * exact as a word whenever one second's worth of products fits.
   */
  method SleepCycles(ns: u64, hz: u64) returns (cycles: u64)
    ensures hz * SECOND < TWO64 ==> cycles == Wrap(CyclesIn(ns, hz))
    ensures hz * SECOND < TWO64 && CyclesIn(ns, hz) < TWO64 ==> cycles == CyclesIn(ns, hz)
  {
    var rest := ns;
    cycles := 0;
    ghost var seconds := 0;
    while rest >= 1_000_000_000
      invariant 0 <= rest && 0 <= seconds && ns == seconds * 1_000_000_000 + rest
      invariant cycles == Wrap(seconds * hz)
    {
      AddSecond(seconds, hz);
      cycles := Wrap(cycles + hz);
      rest := rest - 1_000_000_000;
      seconds := seconds + 1;
    }
    AddRest(ns, hz, seconds, rest);
    cycles := Wrap(cycles + Wrap(rest * hz) / 1_000_000_000);
  }

  lemma AddSecond(seconds: nat, hz: u64)
    ensures Wrap(Wrap(seconds * hz) + hz) == Wrap((seconds + 1) * hz)
  {
    WrapSum(seconds * hz, hz);
    NextProduct(seconds, hz);
  }

  lemma AddRest(ns: u64, hz: u64, seconds: nat, rest: nat)
    requires ns == seconds * 1_000_000_000 + rest && rest < SECOND
    ensures hz * SECOND < TWO64 ==>
              Wrap(Wrap(seconds * hz) + Wrap(rest * hz) / 1_000_000_000) == Wrap(CyclesIn(ns, hz))
    ensures CyclesIn(ns, hz) < TWO64 ==> Wrap(CyclesIn(ns, hz)) == CyclesIn(ns, hz)
  {
    if hz * SECOND < TWO64 {
      RemainderFits(rest, hz);
      SplitSeconds(ns, hz, seconds, rest);
      WrapIs(rest * hz, 0, rest * hz);
      WrapSum(seconds * hz, rest * hz / 1_000_000_000);
    }
  }

  lemma RemainderFits(rest: nat, hz: nat)
    requires rest < SECOND && hz * SECOND < TWO64
    ensures 0 <= rest * hz < TWO64
  {
    ProductMonotone(rest, SECOND, hz);
    ProductMonotone(0, rest, hz);
  }

  lemma SplitSeconds(ns: nat, hz: nat, seconds: nat, rest: nat)
    requires ns == seconds * 1_000_000_000 + rest && rest * hz >= 0
    ensures CyclesIn(ns, hz) == seconds * hz + rest * hz / 1_000_000_000
  {
    var q := rest * hz / 1_000_000_000;
    var r := rest * hz % 1_000_000_000;
    assert ns * hz == (seconds * hz) * 1_000_000_000 + rest * hz by {
      assert (seconds * 1_000_000_000 + rest) * hz == (seconds * 1_000_000_000) * hz + rest * hz;
      assert (seconds * 1_000_000_000) * hz == (seconds * hz) * 1_000_000_000;
    }
    QuotientUnique(ns * hz, 1_000_000_000, seconds * hz + q, r);
  }
}
