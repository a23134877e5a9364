/**
 * The PTP slave of ptpclient_dpdk.c: the delay request-response mechanism of IEEE 1588-2008,
 * section 11.3, as a machine over the messages it receives.
 */
module Ptp {
  import opened Words
  import opened Sequences
  import opened Wrappers

  /** A `struct timespec`. */
  datatype Stamp = Stamp(sec: u64, nsec: u64)

  const ZERO: Stamp := Stamp(0, 0)

  function ToNs(ts: Stamp): u64 {
    Wrap(Wrap(ts.sec * 1_000_000_000) + ts.nsec)
  }

  /**
   * `delta_eval`: unsigned differences, a signed reading of the result, negation, then truncating
   * division.
   */
  function DeltaEval(t1: Stamp, t2: Stamp, t3: Stamp, t4: Stamp): int {
    Halve(-ToInt64(Wrap(Wrap(ToNs(t2) - ToNs(t1)) - Wrap(ToNs(t4) - ToNs(t3)))))
  }

  // ---------- One exchange ----------

  /** A time stamp that reads t nanoseconds, modulo the width of a word. */
  ghost predicate Reads(ts: Stamp, t: int) {
    Wrap(ts.sec * 1_000_000_000 + ts.nsec) == Wrap(t)
  }

  /** `timespec64_to_ns` yields what the stamp reads. */
  lemma ToNsReads(ts: Stamp, t: int)
    ensures Reads(ts, t) <==> ToNs(ts) == Wrap(t)
  {
    WrapSum(ts.sec * 1_000_000_000, ts.nsec);
  }

  /** It is exact in range, and a second is a thousand million nanoseconds. */
  lemma StampCarries(s: nat, n: nat)
    requires (s + 1) * 1_000_000_000 + n < 0x1_0000_0000_0000_0000
    ensures ToNs(Stamp(s, n)) == s * 1_000_000_000 + n
    ensures ToNs(Stamp(s, n + 1_000_000_000)) == ToNs(Stamp(s + 1, n)) == ToNs(Stamp(s, n)) + 1_000_000_000
  {
    var t := s * 1_000_000_000 + n;
    ToNsReads(Stamp(s, n), t);
    ToNsReads(Stamp(s, n + 1_000_000_000), t + 1_000_000_000);
    ToNsReads(Stamp(s + 1, n), t + 1_000_000_000);
    WrapIs(t, 0, t);
    WrapIs(t + 1_000_000_000, 0, t + 1_000_000_000);
  }

  /**
   * Four stamps of one exchange with a slave that is `offset` ahead of its master: the Sync
   * leaves at t1 and travels d_ms, the request leaves at t3 on the slave's clock and travels d_sm.
   */
  ghost predicate Exchange(t1: Stamp, t2: Stamp, t3: Stamp, t4: Stamp,
                           m: int, s: int, offset: int, dms: int, dsm: int) {
    Reads(t1, m) && Reads(t2, m + dms + offset) && Reads(t3, s) && Reads(t4, s - offset + dsm)
  }

  /** The combined difference survives the word arithmetic as long as it is below 2^63 in magnitude. */
  lemma CombinedDifference(t1: Stamp, t2: Stamp, t3: Stamp, t4: Stamp, m: int, s: int, offset: int, dms: int, dsm: int)
    requires Exchange(t1, t2, t3, t4, m, s, offset, dms, dsm)
    ensures Wrap(Wrap(ToNs(t2) - ToNs(t1)) - Wrap(ToNs(t4) - ToNs(t3))) == Wrap(2 * offset + dms - dsm)
  {
    var x, y := m + dms + offset, s - offset + dsm;
    ToNsReads(t1, m);
    ToNsReads(t2, x);
    ToNsReads(t3, s);
    ToNsReads(t4, y);
    WrappedDifference(x, m);
    WrappedDifference(y, s);
    WrappedDifference(x - m, y - s);
  }

  lemma WrappedDifference(a: int, b: int)
    ensures Wrap(Wrap(a) - Wrap(b)) == Wrap(a - b)
  {
    var w: int := Wrap(b);
    WrapSum(a, -w);
    WrapDifference(a, b);
  }

  lemma SignedWord(x: int)
    ensures -TWO63 <= x < TWO63 <==> ToInt64(Wrap(x)) == x
  {
    if 0 <= x < TWO63 {
      WrapIs(x, 0, x);
    } else if -TWO63 <= x < 0 {
      WrapIs(x, -1, x + TWO64);
    }
  }

  /** What the truncating division adds to twice the correction. */
  function Rounding(difference: int): int {
    if difference % 2 == 0 then 0 else if difference > 0 then 1 else -1
  }

  /**
   * Four stamps of which the second is `gap` off its exchange: exactly that much is left of twice
   * the offset, besides the path asymmetry and the rounding.
   */
  lemma ErrorOfGap(t1: Stamp, t2: Stamp, t3: Stamp, t4: Stamp,
                   m: int, s: int, offset: int, dms: int, dsm: int, gap: int)
    requires Exchange(t1, t2, t3, t4, m, s, offset, dms + gap, dsm)
    requires Magnitude(2 * offset + dms - dsm + gap) < TWO63
    ensures 2 * (offset + DeltaEval(t1, t2, t3, t4)) + (dms - dsm) ==
            Rounding(2 * offset + dms - dsm + gap) - gap
  {
    var difference := 2 * offset + (dms + gap) - dsm;
    SignedDifference(t1, t2, t3, t4, m, s, offset, dms + gap, dsm);
    HalveRounds(difference);
  }

  lemma HalveRounds(x: int)
    ensures 2 * Halve(-x) == Rounding(x) - x
  {
  }

  lemma SignedDifference(t1: Stamp, t2: Stamp, t3: Stamp, t4: Stamp, m: int, s: int, offset: int, dms: int, dsm: int)
    requires Exchange(t1, t2, t3, t4, m, s, offset, dms, dsm)
    requires Magnitude(2 * offset + dms - dsm) < TWO63
    ensures DeltaEval(t1, t2, t3, t4) == Halve(-(2 * offset + dms - dsm))
  {
    CombinedDifference(t1, t2, t3, t4, m, s, offset, dms, dsm);
    SignedWord(2 * offset + dms - dsm);
  }

  /**
   * One exchange corrects the clock up to half the path asymmetry and half a nanosecond,
   * whatever the offset was before.
   */
  lemma ExchangeCorrects(t1: Stamp, t2: Stamp, t3: Stamp, t4: Stamp, m: int, s: int, offset: int, dms: int, dsm: int)
    requires Exchange(t1, t2, t3, t4, m, s, offset, dms, dsm)
    requires Magnitude(2 * offset + dms - dsm) < TWO63
    ensures Magnitude(2 * (offset + DeltaEval(t1, t2, t3, t4)) + (dms - dsm)) <= 1
  {
    SignedDifference(t1, t2, t3, t4, m, s, offset, dms, dsm);
    HalveRounds(2 * offset + dms - dsm);
  }

  /** The same, from the seconds and nanoseconds of the stamps. */
  lemma ExchangeCorrectsSeconds(t1: Stamp, t2: Stamp, t3: Stamp, t4: Stamp, offset: int, dms: int, dsm: int)
    requires t2.sec * 1_000_000_000 + t2.nsec == t1.sec * 1_000_000_000 + t1.nsec + dms + offset
    requires t4.sec * 1_000_000_000 + t4.nsec == t3.sec * 1_000_000_000 + t3.nsec - offset + dsm
    requires -0x8000_0000_0000_0000 < 2 * offset + dms - dsm < 0x8000_0000_0000_0000
    ensures -1 <= 2 * (offset + DeltaEval(t1, t2, t3, t4)) + (dms - dsm) <= 1
  {
    var m, s := t1.sec * 1_000_000_000 + t1.nsec, t3.sec * 1_000_000_000 + t3.nsec;
    ExchangeCorrects(t1, t2, t3, t4, m, s, offset, dms, dsm);
  }

  /**
   * The correction is the one for the true difference exactly when that difference is below 2^63 in
   * magnitude.
   */
  lemma CorrectionExact(t1: Stamp, t2: Stamp, t3: Stamp, t4: Stamp, m: int, s: int, offset: int, dms: int, dsm: int)
    requires Exchange(t1, t2, t3, t4, m, s, offset, dms, dsm)
    ensures ToInt64(Wrap(Wrap(ToNs(t2) - ToNs(t1)) - Wrap(ToNs(t4) - ToNs(t3)))) == 2 * offset + dms - dsm
            <==> -TWO63 <= 2 * offset + dms - dsm < TWO63
  {
    CombinedDifference(t1, t2, t3, t4, m, s, offset, dms, dsm);
    SignedWord(2 * offset + dms - dsm);
  }

  /** Once corrected, a second exchange over the same paths asks for no further correction. */
  lemma CorrectionIsStable(t1: Stamp, t2: Stamp, t3: Stamp, t4: Stamp, u1: Stamp, u2: Stamp, u3: Stamp, u4: Stamp,
                           m: int, s: int, m': int, s': int, offset: int, dms: int, dsm: int)
    requires Exchange(t1, t2, t3, t4, m, s, offset, dms, dsm)
    requires Magnitude(2 * offset + dms - dsm) < TWO63
    requires Exchange(u1, u2, u3, u4, m', s', offset + DeltaEval(t1, t2, t3, t4), dms, dsm)
    ensures DeltaEval(u1, u2, u3, u4) == 0
  {
    ExchangeCorrects(t1, t2, t3, t4, m, s, offset, dms, dsm);
    var residual := offset + DeltaEval(t1, t2, t3, t4);
    CombinedDifference(u1, u2, u3, u4, m', s', residual, dms, dsm);
    SignedWord(2 * residual + dms - dsm);
  }

  // ---------- The slave as a machine over messages ----------

  /**
   * A received frame of the PTP ether type, with what the port answers while it is handled: the
   * receive stamp of a Sync, and for a Follow_Up whether a request could be built and the
   * transmit stamp read afterwards, if any attempt succeeded.
   */
  datatype Message =
    | Sync(seqId: nat, sender: nat, rx: Option<Stamp>)
    | FollowUp(seqId: nat, sender: nat, origin: Stamp, canSend: bool, tx: Option<Stamp>)
    | DelayResp(seqId: nat, requester: nat, rx4: Stamp)
    | Other

  /** The fields of `ptp_data` that a message can change; clock ids are numbers, all-zero is 0. */
  datatype Slave = Slave(
    tstamp1: Stamp, tstamp2: Stamp, tstamp3: Stamp, tstamp4: Stamp,
    client: nat, master: nat, delta: int, seqSync: nat, seqFollowUp: nat, ptpSet: bool)

  /** `memset(&ptp_data, 0, ...)`. */
  const INITIAL: Slave := Slave(ZERO, ZERO, ZERO, ZERO, 0, 0, 0, 0, 0, false)

  /**
   * A request is sent while this message is handled. `self` is the clock id built from the port's
   * MAC address.
   */
  predicate Requests(s: Slave, msg: Message) {
    msg.FollowUp? && msg.sender == s.master && msg.seqId == s.seqSync && msg.canSend
  }

  /** The clock is adjusted while this message is handled. */
  predicate Adjusts(s: Slave, msg: Message) {
    msg.DelayResp? && msg.requester == s.client && msg.seqId == s.seqFollowUp
  }

  function Receive(s: Slave, self: nat, msg: Message): Slave {
    match msg
    case Sync(seqId, sender, rx) =>
      s.(seqSync := seqId,
         master := if s.ptpSet then s.master else sender,
         ptpSet := true,
         tstamp2 := if rx.Some? then rx.value else s.tstamp2)
    case FollowUp(seqId, sender, origin, _, tx) =>
      if sender != s.master then s
      else
        var t := s.(seqFollowUp := seqId, tstamp1 := origin);
        if Requests(s, msg) then t.(client := self, tstamp3 := if tx.Some? then tx.value else ZERO) else t
    case DelayResp(_, _, rx4) =>
      if Adjusts(s, msg) then s.(tstamp4 := rx4, delta := DeltaEval(s.tstamp1, s.tstamp2, s.tstamp3, rx4)) else s
    case Other => s
  }

  function ReceiveAll(self: nat, msgs: seq<Message>): Slave {
    if |msgs| == 0 then INITIAL else Receive(ReceiveAll(self, Front(msgs)), self, Last(msgs))
  }

  // ---------- The slave as an object ----------

  /** `tx` is what polling at most 1001 times yields: the first stamp that can be read, if any can. */
  ghost predicate FirstStamp(attempts: nat -> Option<Stamp>, tx: Option<Stamp>) {
    if tx.None? then forall k: nat | k <= 1000 :: attempts(k).None?
    else exists k: nat | k <= 1000 :: attempts(k) == tx && forall j: nat | j < k :: attempts(j).None?
  }

  class PtpData {
    var tstamp1: Stamp
    var tstamp2: Stamp
    var tstamp3: Stamp
    var tstamp4: Stamp
    var clientClockId: nat
    var masterClockId: nat
    var delta: int
    var seqIdSync: nat
    var seqIdFollowUp: nat
    var ptpSet: bool

    ghost function State(): Slave
      reads this
    {
      Slave(tstamp1, tstamp2, tstamp3, tstamp4, clientClockId, masterClockId, delta, seqIdSync, seqIdFollowUp, ptpSet)
    }

    constructor ()
      ensures State() == INITIAL
    {
      tstamp1, tstamp2, tstamp3, tstamp4 := ZERO, ZERO, ZERO, ZERO;
      clientClockId, masterClockId, delta, seqIdSync, seqIdFollowUp, ptpSet := 0, 0, 0, 0, 0, false;
    }

    method ParseSync(seqId: nat, sender: nat, rx: Option<Stamp>)
      modifies this
      ensures State() == Receive(old(State()), 0, Sync(seqId, sender, rx))
    {
      seqIdSync := seqId;
      if !ptpSet {
        masterClockId := sender;
        ptpSet := true;
      }
      if sender == sender {
        if ptpSet {
          if rx.Some? {
            tstamp2 := rx.value;
          }
        }
      }
    }

    /** After a request has left, the transmit stamp is polled until it can be read. */
    method ParseFup(seqId: nat, sender: nat, origin: Stamp, canSend: bool, self: nat, attempts: nat -> Option<Stamp>)
      returns (ghost tx: Option<Stamp>)
      modifies this
      ensures State() == Receive(old(State()), self, FollowUp(seqId, sender, origin, canSend, tx))
      ensures Requests(old(State()), FollowUp(seqId, sender, origin, canSend, tx)) ==> FirstStamp(attempts, tx)
    {
      tx := None;
      if sender != masterClockId {
        return;
      }
      seqIdFollowUp := seqId;
      tstamp1 := origin;
      if seqIdFollowUp == seqIdSync {
        if !canSend {
          return;
        }
        clientClockId := self;
        tstamp3 := ZERO;
        var read := PollStamp(attempts);
        tx := read;
        if read.Some? {
          tstamp3 := read.value;
        }
      }
    }

    method PollStamp(attempts: nat -> Option<Stamp>) returns (read: Option<Stamp>)
      ensures FirstStamp(attempts, read)
    {
      var waitUs := 0;
      read := attempts(0);
      while read.None? && waitUs < 1000
        invariant 0 <= waitUs <= 1000
        invariant read == attempts(waitUs) && forall j: nat | j < waitUs :: attempts(j).None?
      {
        waitUs := waitUs + 1;
        read := attempts(waitUs);
      }
    }

    method ParseDrsp(seqId: nat, requester: nat, rx4: Stamp)
      modifies this
      ensures State() == Receive(old(State()), 0, DelayResp(seqId, requester, rx4))
    {
      if clientClockId == requester {
        if seqId == seqIdFollowUp {
          tstamp4 := rx4;
          delta := DeltaEval(tstamp1, tstamp2, tstamp3, tstamp4);
        }
      }
    }
  }
}
