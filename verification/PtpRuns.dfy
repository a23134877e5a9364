/**
 * Whole runs of the PTP slave: what it keeps, when it asks and when it adjusts the clock, in terms
 * of the messages received, and what the adjustments are worth.
 */
module PtpRuns {
  import opened Words
  import opened Sequences
  import opened Wrappers
  import opened Ptp

  /** The four instants of exchange n, as the clocks of master and slave show them. */
  datatype Truth = Truth(t1: nat -> Stamp, t2: nat -> Stamp, t3: nat -> Stamp, t4: nat -> Stamp)

  // ---------- What the slave keeps, read off the messages ----------

  /** The sender of the first Sync, 0 if there has been none. */
  function MasterOf(msgs: seq<Message>): nat {
    if |msgs| == 0 then 0
    else if !Synced(Front(msgs)) && Last(msgs).Sync? then Last(msgs).sender
    else MasterOf(Front(msgs))
  }

  predicate Synced(msgs: seq<Message>) {
    exists k | 0 <= k < |msgs| :: msgs[k].Sync?
  }

  /** The number of the last Sync, whoever sent it. */
  function SyncNumber(msgs: seq<Message>): nat {
    if |msgs| == 0 then 0 else if Last(msgs).Sync? then Last(msgs).seqId else SyncNumber(Front(msgs))
  }

  predicate ReadableSync(msg: Message) {
    msg.Sync? && msg.rx.Some?
  }

  /** The index of the last Sync with a readable receive stamp, whoever sent it. */
  function LastSync(msgs: seq<Message>): (k: Option<nat>)
    ensures k.Some? ==> k.value < |msgs| && ReadableSync(msgs[k.value])
    ensures k.Some? ==> forall j | k.value < j < |msgs| :: !ReadableSync(msgs[j])
    ensures k.None? ==> forall j | 0 <= j < |msgs| :: !ReadableSync(msgs[j])
  {
    if |msgs| == 0 then None
    else if ReadableSync(Last(msgs)) then Some(|msgs| - 1)
    else LastSync(Front(msgs))
  }

  function SyncStamp(msgs: seq<Message>): Stamp {
    if LastSync(msgs).Some? then msgs[LastSync(msgs).value].rx.value else ZERO
  }

  /** A Follow_Up of the master. */
  predicate Heeded(before: seq<Message>, msg: Message) {
    msg.FollowUp? && msg.sender == MasterOf(before)
  }

  /** The master's last Follow_Up. */
  function LastFollowUp(msgs: seq<Message>): (m: Option<Message>)
    ensures m.Some? ==> m.value.FollowUp?
  {
    if |msgs| == 0 then None
    else if Heeded(Front(msgs), Last(msgs)) then Some(Last(msgs))
    else LastFollowUp(Front(msgs))
  }

  /** A Follow_Up of the master, for the exchange of the last Sync, and a request can be sent. */
  predicate Asks(before: seq<Message>, msg: Message) {
    Heeded(before, msg) && msg.seqId == SyncNumber(before) && msg.canSend
  }

  /** The Follow_Up after which the last request was sent. */
  function LastAsked(msgs: seq<Message>): (m: Option<Message>)
    ensures m.Some? ==> m.value.FollowUp?
  {
    if |msgs| == 0 then None
    else if Asks(Front(msgs), Last(msgs)) then Some(Last(msgs))
    else LastAsked(Front(msgs))
  }

  function AskedStamp(msgs: seq<Message>): Stamp {
    if LastAsked(msgs).Some? && LastAsked(msgs).value.tx.Some? then LastAsked(msgs).value.tx.value else ZERO
  }

  /** A Delay_Resp to the clock that last asked, for the exchange of the master's last Follow_Up. */
  predicate Answers(self: nat, before: seq<Message>, msg: Message) {
    && msg.DelayResp?
    && msg.requester == (if LastAsked(before).Some? then self else 0)
    && msg.seqId == (if LastFollowUp(before).Some? then LastFollowUp(before).value.seqId else 0)
  }

  /** t4 and the correction of the last such answer. */
  function LastAnswer(self: nat, msgs: seq<Message>): (Stamp, int) {
    if |msgs| == 0 then (ZERO, 0)
    else
      var before, msg := Front(msgs), Last(msgs);
      if Answers(self, before, msg) then
        (msg.rx4, DeltaEval(OriginStamp(before), SyncStamp(before), AskedStamp(before), msg.rx4))
      else LastAnswer(self, before)
  }

  function OriginStamp(msgs: seq<Message>): Stamp {
    if LastFollowUp(msgs).Some? then LastFollowUp(msgs).value.origin else ZERO
  }

  /** In any run at all, every field of the slave is what these say. */
  lemma {:induction false} SlaveTold(self: nat, msgs: seq<Message>)
    ensures ReceiveAll(self, msgs) ==
            Slave(OriginStamp(msgs), SyncStamp(msgs), AskedStamp(msgs), LastAnswer(self, msgs).0,
                  if LastAsked(msgs).Some? then self else 0, MasterOf(msgs), LastAnswer(self, msgs).1,
                  SyncNumber(msgs), if LastFollowUp(msgs).Some? then LastFollowUp(msgs).value.seqId else 0,
                  Synced(msgs))
  {
    if |msgs| > 0 {
      SlaveTold(self, Front(msgs));
      SyncedNext(msgs);
    }
  }

  lemma SyncedNext(msgs: seq<Message>)
    requires |msgs| > 0
    ensures Synced(msgs) <==> Synced(Front(msgs)) || Last(msgs).Sync?
  {
    if Synced(Front(msgs)) {
      var k :| 0 <= k < |Front(msgs)| && Front(msgs)[k].Sync?;
      assert msgs[k].Sync?;
    }
  }

  /**
   * A request is sent for a Follow_Up of the master that names the last Sync, and for nothing else.
   * It carries the clock id the port has at that time, `id`, and answers are expected for that.
   */
  lemma RequestsExactly(self: nat, msgs: seq<Message>, msg: Message, id: nat)
    ensures Requests(ReceiveAll(self, msgs), msg) <==> Asks(msgs, msg)
    ensures var s, t := ReceiveAll(self, msgs), Receive(ReceiveAll(self, msgs), id, msg);
            if Asks(msgs, msg) then t.client == id && t.tstamp3 == (if msg.tx.Some? then msg.tx.value else ZERO)
            else t.client == s.client && t.tstamp3 == s.tstamp3
  {
    SlaveTold(self, msgs);
  }

  /** The clock is adjusted for a fitting answer, and for nothing else; any other answer changes nothing at all. */
  lemma AdjustsExactly(self: nat, msgs: seq<Message>, msg: Message)
    ensures Adjusts(ReceiveAll(self, msgs), msg) <==> Answers(self, msgs, msg)
    ensures var s, t := ReceiveAll(self, msgs), ReceiveAll(self, msgs + [msg]);
            && (Answers(self, msgs, msg) ==>
                  t == s.(tstamp4 := msg.rx4,
                          delta := DeltaEval(OriginStamp(msgs), SyncStamp(msgs), AskedStamp(msgs), msg.rx4)))
            && (!Answers(self, msgs, msg) ==> t.tstamp4 == s.tstamp4 && t.delta == s.delta)
            && (msg.DelayResp? && !Answers(self, msgs, msg) ==> t == s)
  {
    SlaveTold(self, msgs);
    assert Front(msgs + [msg]) == msgs && Last(msgs + [msg]) == msg;
  }

  // ---------- Honest runs ----------

  /** The exchanges for which the slave has to send a request. */
  function Asked(msgs: seq<Message>): set<nat> {
    if |msgs| == 0 then {}
    else if Asks(Front(msgs), Last(msgs)) then Asked(Front(msgs)) + {Last(msgs).seqId}
    else Asked(Front(msgs))
  }

  /** The exchanges whose Follow_Up has arrived from the given clock. */
  function FollowedUp(master: nat, msgs: seq<Message>): set<nat> {
    if |msgs| == 0 then {}
    else if Last(msgs).FollowUp? && Last(msgs).sender == master then
      FollowedUp(master, Front(msgs)) + {Last(msgs).seqId}
    else FollowedUp(master, Front(msgs))
  }

  /**
   * The clock whose Sync comes first has timestamps that can be read and sends at most one
   * Follow_Up per exchange; this slave gets answers to real requests only. Nothing is said about
   * the order of messages of different exchanges, and nothing about other clocks, but that a clock
   * id is not 0.
   */
  ghost predicate Honest(truth: Truth, self: nat, master: nat, msgs: seq<Message>) {
    |msgs| == 0 ||
    (Honest(truth, self, master, Front(msgs)) && HonestNext(truth, self, master, Front(msgs), Last(msgs)))
  }

  ghost predicate HonestNext(truth: Truth, self: nat, master: nat, before: seq<Message>, msg: Message) {
    match msg
    case Sync(n, sender, rx) =>
      if sender == master then rx == Some(truth.t2(n)) else Synced(before)
    case FollowUp(n, sender, origin, canSend, tx) =>
      && sender != 0
      && (sender == master ==> n !in FollowedUp(master, before) && origin == truth.t1(n) && tx == Some(truth.t3(n)))
    case DelayResp(n, requester, rx4) =>
      && requester != 0
      && (requester == self ==> n in Asked(before) && rx4 == truth.t4(n))
    case Other => true
  }

  /** No other clock sends a Sync. */
  predicate OneMaster(master: nat, msgs: seq<Message>) {
    forall k | 0 <= k < |msgs| && msgs[k].Sync? :: msgs[k].sender == master
  }

  /** In any run at all, the receive stamp kept is that of the last readable Sync, whoever sent it. */
  lemma KeepsLastSync(self: nat, msgs: seq<Message>)
    ensures ReceiveAll(self, msgs).tstamp2 ==
            if LastSync(msgs).Some? then msgs[LastSync(msgs).value].rx.value else ZERO
  {
    SlaveTold(self, msgs);
  }

  /** What the slave's stamps are stamps of, in every reachable state. */
  ghost predicate Matched(truth: Truth, self: nat, master: nat, msgs: seq<Message>) {
    var s := ReceiveAll(self, msgs);
    && s.master == (if s.ptpSet then master else 0)
    && (s.ptpSet <==> LastSync(msgs).Some?)
    && (s.ptpSet && OneMaster(master, msgs) ==> s.tstamp2 == truth.t2(s.seqSync))
    && (s.client != 0 ==> s.client == self)
    && Asked(msgs) <= FollowedUp(master, msgs)
    && (Asked(msgs) != {} ==> s.ptpSet)
    && (s.seqFollowUp in Asked(msgs) ==>
          s.tstamp1 == truth.t1(s.seqFollowUp) && s.tstamp3 == truth.t3(s.seqFollowUp))
  }

  /** The same of the messages alone. */
  ghost predicate MessagesMatch(truth: Truth, master: nat, msgs: seq<Message>) {
    && MasterOf(msgs) == (if Synced(msgs) then master else 0)
    && (Synced(msgs) <==> LastSync(msgs).Some?)
    && (Synced(msgs) && OneMaster(master, msgs) ==> SyncStamp(msgs) == truth.t2(SyncNumber(msgs)))
    && Asked(msgs) <= FollowedUp(master, msgs)
    && (Asked(msgs) != {} ==> Synced(msgs))
    && (LastFollowUp(msgs).Some? && LastFollowUp(msgs).value.seqId in Asked(msgs) ==>
          var n := LastFollowUp(msgs).value.seqId;
          OriginStamp(msgs) == truth.t1(n) && AskedStamp(msgs) == truth.t3(n))
  }

  lemma {:induction false} HonestMatches(truth: Truth, self: nat, master: nat, msgs: seq<Message>)
    requires master != 0 && Honest(truth, self, master, msgs)
    ensures MessagesMatch(truth, master, msgs)
  {
    if |msgs| > 0 {
      HonestMatches(truth, self, master, Front(msgs));
      SyncedNext(msgs);
      assert OneMaster(master, msgs) ==> OneMaster(master, Front(msgs));
    }
  }

  /** Whoever has been asked of has followed up. */
  lemma {:induction false} AskedOnce(msgs: seq<Message>)
    ensures Asked(msgs) != {} <==> LastAsked(msgs).Some?
    ensures LastAsked(msgs).Some? ==> LastFollowUp(msgs).Some?
  {
    if |msgs| > 0 {
      AskedOnce(Front(msgs));
    }
  }

  lemma AlwaysMatched(truth: Truth, self: nat, master: nat, msgs: seq<Message>)
    requires master != 0 && Honest(truth, self, master, msgs)
    ensures Matched(truth, self, master, msgs)
  {
    HonestMatches(truth, self, master, msgs);
    SlaveTold(self, msgs);
    AskedOnce(msgs);
  }

  /**
   * Every clock adjustment evaluates t1, t3 and t4 of the exchange named by seqID_FOLLOWUP, and
   * the stamp of the last readable Sync: with one master, t2 of the exchange named by seqID_SYNC.
   */
  lemma AdjustmentsMatch(truth: Truth, self: nat, master: nat, msgs: seq<Message>, resp: Message)
    requires self != 0 && master != 0 && Honest(truth, self, master, msgs + [resp])
    requires Adjusts(ReceiveAll(self, msgs), resp)
    ensures var s, n := ReceiveAll(self, msgs), resp.seqId;
            && n == s.seqFollowUp && LastSync(msgs).Some?
            && s.tstamp2 == msgs[LastSync(msgs).value].rx.value
            && ReceiveAll(self, msgs + [resp]).delta == DeltaEval(truth.t1(n), s.tstamp2, truth.t3(n), truth.t4(n))
            && (OneMaster(master, msgs) ==> s.tstamp2 == truth.t2(s.seqSync))
  {
    assert Front(msgs + [resp]) == msgs && Last(msgs + [resp]) == resp;
    AlwaysMatched(truth, self, master, msgs);
    KeepsLastSync(self, msgs);
  }

  /**
   * An answer to this slave for the exchange of the master's last Follow_Up adjusts the clock, every
   * time; any other Delay_Resp leaves the slave as it is.
   */
  lemma AnswersAdjust(truth: Truth, self: nat, master: nat, msgs: seq<Message>, resp: Message)
    requires self != 0 && master != 0 && Honest(truth, self, master, msgs + [resp]) && resp.DelayResp?
    ensures var s, t, n := ReceiveAll(self, msgs), ReceiveAll(self, msgs + [resp]), resp.seqId;
            if resp.requester == self && LastFollowUp(msgs).Some? && LastFollowUp(msgs).value.seqId == n then
              t == s.(tstamp4 := truth.t4(n),
                      delta := DeltaEval(truth.t1(n), SyncStamp(msgs), truth.t3(n), truth.t4(n)))
            else t == s
  {
    assert Front(msgs + [resp]) == msgs && Last(msgs + [resp]) == resp;
    AdjustsExactly(self, msgs, resp);
    SlaveTold(self, msgs);
    AlwaysMatched(truth, self, master, msgs);
    AskedOnce(msgs);
  }

  /** A Sync of exchange n, from the master. */
  predicate SyncOf(msg: Message, master: nat, n: nat) {
    msg.Sync? && msg.sender == master && msg.seqId == n
  }

  /**
   * An adjustment uses the four stamps of one exchange of the master exactly when the last readable
   * Sync was the master's Sync of that exchange, provided no other Sync was received at the very
   * same instant.
   */
  lemma AdjustmentOfOneExchange(truth: Truth, self: nat, master: nat, msgs: seq<Message>, resp: Message)
    requires self != 0 && master != 0 && Honest(truth, self, master, msgs + [resp])
    requires Adjusts(ReceiveAll(self, msgs), resp)
    requires forall k | 0 <= k < |msgs| && ReadableSync(msgs[k]) && msgs[k].rx.value == truth.t2(resp.seqId) ::
               SyncOf(msgs[k], master, resp.seqId)
    ensures LastSync(msgs).Some?
    ensures var s, n := ReceiveAll(self, msgs), resp.seqId;
            s.tstamp1 == truth.t1(n) && s.tstamp3 == truth.t3(n) && resp.rx4 == truth.t4(n) &&
            (s.tstamp2 == truth.t2(n) <==> SyncOf(msgs[LastSync(msgs).value], master, n))
  {
    assert Front(msgs + [resp]) == msgs && Last(msgs + [resp]) == resp;
    AlwaysMatched(truth, self, master, msgs);
    KeepsLastSync(self, msgs);
    if SyncOf(msgs[LastSync(msgs).value], master, resp.seqId) {
      HonestSyncStamp(truth, self, master, msgs, LastSync(msgs).value);
    }
  }

  lemma {:induction false} HonestSyncStamp(truth: Truth, self: nat, master: nat, msgs: seq<Message>, k: nat)
    requires Honest(truth, self, master, msgs) && k < |msgs| && msgs[k].Sync? && msgs[k].sender == master
    ensures msgs[k].rx == Some(truth.t2(msgs[k].seqId))
  {
    if k < |msgs| - 1 {
      HonestSyncStamp(truth, self, master, Front(msgs), k);
    }
  }

  /**
   * In every run, what an adjustment leaves of the offset: with the stamp kept `gap` away from the
   * true t2 of the exchange, twice the offset left is the path asymmetry less the gap, up to rounding.
   */
  lemma AdjustmentError(truth: Truth, self: nat, master: nat, msgs: seq<Message>, resp: Message,
                        m: int, t: int, offset: int, dms: int, dsm: int, gap: int)
    requires self != 0 && master != 0 && Honest(truth, self, master, msgs + [resp])
    requires Adjusts(ReceiveAll(self, msgs), resp)
    requires var n := resp.seqId;
             Reads(truth.t1(n), m) && Reads(truth.t3(n), t) && Reads(truth.t4(n), t - offset + dsm)
    requires Reads(ReceiveAll(self, msgs).tstamp2, m + dms + offset + gap)
    requires Magnitude(2 * offset + dms - dsm + gap) < TWO63
    ensures 2 * (offset + ReceiveAll(self, msgs + [resp]).delta) + (dms - dsm) ==
            Rounding(2 * offset + dms - dsm + gap) - gap
  {
    var n, t2 := resp.seqId, ReceiveAll(self, msgs).tstamp2;
    AdjustmentsMatch(truth, self, master, msgs, resp);
    assert m + (dms + gap) + offset == m + dms + offset + gap;
    ErrorOfGap(truth.t1(n), t2, truth.t3(n), truth.t4(n), m, t, offset, dms, dsm, gap);
  }

  /**
   * Each readable Sync k arrives when the slave's clock shows seen(k): the master's Sync n at
   * `arrival`, any other one more than 2 ns before or after that.
   */
  ghost predicate Arrivals(msgs: seq<Message>, master: nat, n: nat, seen: nat -> int, arrival: int) {
    forall k | 0 <= k < |msgs| && ReadableSync(msgs[k]) ::
      && Reads(msgs[k].rx.value, seen(k))
      && if SyncOf(msgs[k], master, n) then seen(k) == arrival else Magnitude(seen(k) - arrival) > 2
  }

  /**
   * Hence the adjustment leaves at most half the path asymmetry and half a nanosecond of the offset
   * if and only if the last readable Sync was the master's Sync of the exchange answered. With one
   * master, that is if and only if seqID_SYNC still names that exchange.
   */
  lemma AdjustmentCorrects(truth: Truth, self: nat, master: nat, msgs: seq<Message>, resp: Message,
                           m: int, t: int, offset: int, dms: int, dsm: int, seen: nat -> int)
    requires self != 0 && master != 0 && Honest(truth, self, master, msgs + [resp])
    requires Adjusts(ReceiveAll(self, msgs), resp)
    requires var n := resp.seqId;
             Reads(truth.t1(n), m) && Reads(truth.t3(n), t) && Reads(truth.t4(n), t - offset + dsm)
    requires Arrivals(msgs, master, resp.seqId, seen, m + dms + offset)
    requires LastSync(msgs).Some? ==> Magnitude(offset + seen(LastSync(msgs).value) - m - dsm) < TWO63
    ensures LastSync(msgs).Some?
    ensures var k, error := LastSync(msgs).value, 2 * (offset + ReceiveAll(self, msgs + [resp]).delta) + (dms - dsm);
            && (Magnitude(error) <= 1 <==> SyncOf(msgs[k], master, resp.seqId))
            && (OneMaster(master, msgs) ==> (Magnitude(error) <= 1 <==> ReceiveAll(self, msgs).seqSync == resp.seqId))
  {
    AdjustmentsMatch(truth, self, master, msgs, resp);
    var k := LastSync(msgs).value;
    AdjustmentError(truth, self, master, msgs, resp, m, t, offset, dms, dsm, seen(k) - (m + dms + offset));
    if OneMaster(master, msgs) {
      SyncNamed(truth, self, master, msgs);
    }
  }

  /** With one master the last readable Sync is the one seqID_SYNC names. */
  lemma {:induction false} SyncNamed(truth: Truth, self: nat, master: nat, msgs: seq<Message>)
    requires Honest(truth, self, master, msgs) && OneMaster(master, msgs) && LastSync(msgs).Some?
    ensures msgs[LastSync(msgs).value].seqId == ReceiveAll(self, msgs).seqSync
  {
    if !ReadableSync(Last(msgs)) {
      assert OneMaster(master, Front(msgs));
      SyncNamed(truth, self, master, Front(msgs));
    }
  }

  // ---------- Two runs that go wrong ----------

  /** Instants d ns apart, the n-th at n * d. */
  function Every(d: nat): nat -> Stamp {
    (n: nat) => Stamp(0, Wrap(n * d))
  }

  /** Clocks that agree perfectly, over instant paths, with an exchange every d ns. */
  function Perfect(d: nat): Truth {
    Truth(Every(d), Every(d), Every(d), Every(d))
  }

  /** Sync and Follow_Up of exchange 1 from clock 7. */
  function Begun(d: nat): seq<Message> {
    [] + [Sync(1, 7, Some(Every(d)(1)))] + [FollowUp(1, 7, Every(d)(1), true, Some(Every(d)(1)))]
  }

  /** The same, then a Sync with the given sequence number and sender, d ns later. */
  function Crossed(d: nat, seqId: nat, sender: nat): seq<Message> {
    Begun(d) + [Sync(seqId, sender, Some(Every(d)(2)))]
  }

  function Answer(d: nat): Message {
    DelayResp(1, 5, Every(d)(1))
  }

  lemma BegunState(d: nat)
    ensures ReceiveAll(5, Begun(d)) == Slave(Every(d)(1), Every(d)(1), Every(d)(1), ZERO, 5, 7, 0, 1, 1, true)
    ensures Asked(Begun(d)) == {1} && Honest(Perfect(d), 5, 7, Begun(d))
  {
    var sync := Sync(1, 7, Some(Every(d)(1)));
    HonestAppend(Perfect(d), 5, 7, [], sync);
    SlaveTold(5, [] + [sync]);
    HonestAppend(Perfect(d), 5, 7, [] + [sync], FollowUp(1, 7, Every(d)(1), true, Some(Every(d)(1))));
  }

  lemma CrossedState(d: nat, seqId: nat, sender: nat)
    ensures ReceiveAll(5, Crossed(d, seqId, sender)) ==
            Slave(Every(d)(1), Every(d)(2), Every(d)(1), ZERO, 5, 7, 0, seqId, 1, true)
    ensures Asked(Crossed(d, seqId, sender)) == {1}
    ensures Honest(Perfect(d), 5, 7, Crossed(d, seqId, sender)) <==> sender != 7 || Every(d)(2) == Every(d)(seqId)
  {
    BegunState(d);
    SlaveTold(5, Begun(d));
    HonestAppend(Perfect(d), 5, 7, Begun(d), Sync(seqId, sender, Some(Every(d)(2))));
  }

  lemma PerfectButOne(d: nat)
    requires d < TWO63
    ensures DeltaEval(Every(d)(1), Every(d)(2), Every(d)(1), Every(d)(1)) == -(d / 2)
  {
    CrossedExchange(d);
    SignedDifference(Every(d)(1), Every(d)(2), Every(d)(1), Every(d)(1), d, d, 0, d, 0);
  }

  lemma CrossedExchange(d: nat)
    ensures Exchange(Every(d)(1), Every(d)(2), Every(d)(1), Every(d)(1), d, d, 0, d, 0)
  {
    EveryReads(d, 1, d);
    EveryReads(d, 2, d + d);
  }

  lemma EveryReads(d: nat, n: nat, t: nat)
    requires t == n * d
    ensures Reads(Every(d)(n), t)
  {
    WrapSum(t, 0);
  }

  lemma CrossedAnswer(d: nat, seqId: nat, sender: nat)
    requires d < TWO63
    ensures ReceiveAll(5, Crossed(d, seqId, sender) + [Answer(d)]).delta == -(d / 2)
  {
    CrossedState(d, seqId, sender);
    HonestAppend(Perfect(d), 5, 7, Crossed(d, seqId, sender), Answer(d));
    PerfectButOne(d);
  }

  lemma CrossedIsHonest(d: nat, seqId: nat, sender: nat)
    requires sender != 7 || seqId == 2
    ensures Honest(Perfect(d), 5, 7, Crossed(d, seqId, sender) + [Answer(d)])
  {
    CrossedState(d, seqId, sender);
    HonestAppend(Perfect(d), 5, 7, Crossed(d, seqId, sender), Answer(d));
  }

  /** A later Sync mixes exchanges: clocks that agree perfectly are moved apart by half the Sync interval. */
  lemma LaterSyncMixesExchanges(d: nat)
    requires d < TWO63
    ensures Honest(Perfect(d), 5, 7, Crossed(d, 2, 7) + [Answer(d)])
    ensures ReceiveAll(5, Crossed(d, 2, 7) + [Answer(d)]).delta == -(d / 2)
  {
    CrossedIsHonest(d, 2, 7);
    CrossedAnswer(d, 2, 7);
  }

  /**
   * A Sync of any clock is taken as the master's, since its sender is compared with itself:
   * matching sequence numbers do not help then.
   */
  lemma ForeignSyncIsTaken(d: nat, sender: nat)
    requires d < TWO63 && sender != 7
    ensures Honest(Perfect(d), 5, 7, Crossed(d, 1, sender) + [Answer(d)])
    ensures var s := ReceiveAll(5, Crossed(d, 1, sender));
            s.master == 7 && s.seqSync == s.seqFollowUp == 1 && s.tstamp2 == Every(d)(2)
    ensures ReceiveAll(5, Crossed(d, 1, sender) + [Answer(d)]).delta == -(d / 2)
  {
    CrossedIsHonest(d, 1, sender);
    CrossedState(d, 1, sender);
    CrossedAnswer(d, 1, sender);
  }

  lemma HonestAppend(truth: Truth, self: nat, master: nat, msgs: seq<Message>, m: Message)
    ensures Front(msgs + [m]) == msgs && Last(msgs + [m]) == m
    ensures ReceiveAll(self, msgs + [m]) == Receive(ReceiveAll(self, msgs), self, m)
    ensures Asked(msgs + [m]) == Asked(msgs) + (if Asks(msgs, m) then {m.seqId} else {})
    ensures Honest(truth, self, master, msgs + [m]) <==>
            Honest(truth, self, master, msgs) && HonestNext(truth, self, master, msgs, m)
    ensures FollowedUp(master, msgs + [m]) ==
            FollowedUp(master, msgs) + (if m.FollowUp? && m.sender == master then {m.seqId} else {})
  {
    assert Front(msgs + [m]) == msgs;
  }
}
