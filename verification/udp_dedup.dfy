/** Which blocks a flow of the UDP receiver remembers: while the flow stays, a decoded block is answered as a
    duplicate until as many others as the flow remembers have been decoded. */
module UdpDedup {
  import opened Collections
  import opened Prelude
  import opened Totals
  import opened UdpTracker
  import opened UdpSpec
  import opened UdpInvariants
  import opened UdpRuns

  // ---------------------------------------------------------------- one step

  function OrderOf(s: Udp, f: FlowKey): seq<nat> {
    if f in s.flows then s.flows[f].completedOrder else []
  }

  /** The block of this flow that the call reports as decoded. */
  function DecodedBlock(r: Result<Outcome, Error>, f: FlowKey): Option<nat> {
    if r.Ok? && r.value.Decoded? && r.value.key.flow == f then Some(r.value.key.block) else None
  }

  /** A decode appends a block that was not remembered; nothing else moves the queue. */
  ghost predicate OrderAdvances(before: seq<nat>, after: seq<nat>, decoded: Option<nat>, limit: nat) {
    if decoded.None? then after == before
    else decoded.value !in before && after == LastOf(before + [decoded.value], limit)
  }

  lemma AnsweredOrder(s: Udp, key: ObjectKey, newFlow: bool, verdict: Verdict, f: FlowKey)
    requires UdpInv(s) && key.flow in s.flows && key in s.objects && (newFlow ==> OrderOf(s, key.flow) == [])
    ensures
      var (s', r) := Answered(s, key, newFlow, verdict);
      OrderAdvances(OrderOf(s, f), OrderOf(s', f), DecodedBlock(r, f), s.config.maxCompletedPerFlow)
  {
    BlockIsNotRemembered(s, key);
    hide UdpInv, CountAccepted, Accept, RejectWith, Blocks;
  }

  lemma BlockIsNotRemembered(s: Udp, key: ObjectKey)
    requires UdpInv(s) && key in s.objects
    ensures key.flow in s.flows && key.block !in s.flows[key.flow].completed && key.block !in OrderOf(s, key.flow)
  {
    assert FlowOk(s.config, s.flows[key.flow]);
  }

  lemma AdmittedOrder(s: Udp, h: Header, now: nat, f: FlowKey)
    requires h.key in s.objects ==> h.key.flow in s.flows
    ensures OrderOf(Admitted(s, h, now), f) == OrderOf(s, f)
    ensures h.key.flow in Admitted(s, h, now).flows && h.key in Admitted(s, h, now).objects
    ensures Admitted(s, h, now).config == s.config
  {
    hide Observe;
  }

  lemma HandleOrder(s: Udp, d: Datagram, verdict: Verdict, now: nat, f: FlowKey)
    requires UdpInv(s)
    ensures forall k <- s.objects :: k.flow in s.flows
    ensures
      var (s', r) := HandleDatagram(s, d, verdict, now);
      OrderAdvances(OrderOf(s, f), OrderOf(s', f), DecodedBlock(r, f), s.config.maxCompletedPerFlow)
  {
    hide HandleDatagram, UdpInv, RemoveObject, Admitted, Answered, Touched, Accept, RejectWith, Decide, SameOtherFlows;
    match Decide(s, d)
    case Feed =>
      HandleFeed(s, d, verdict, now);
      FeedOrder(s, d, verdict, now, f);
    case Repeat =>
      HandleRepeat(s, d, verdict, now);
      TouchedOrder(s, d.header.value, now, f);
    case _ =>
      HandleRefused(s, d, verdict, now);
      if d.header.Some? {
        RemovedOrder(s, d.header.value.key, f);
      }
  }

  lemma FeedOrder(s: Udp, d: Datagram, verdict: Verdict, now: nat, f: FlowKey)
    requires UdpInv(s) && Decide(s, d).Feed?
    ensures d.header.Some? && forall k <- s.objects :: k.flow in s.flows
    ensures
      var h := d.header.value;
      var (s', r) := Answered(Admitted(s, h, now), h.key, h.key.flow !in s.flows, verdict);
      OrderAdvances(OrderOf(s, f), OrderOf(s', f), DecodedBlock(r, f), s.config.maxCompletedPerFlow)
  {
    HousedObjects(s);
    FeedDecision(s, d);
    hide UdpInv, Admitted, Answered, Decide, DecideHeader, SameRest, SameOtherFlows;
    var h := d.header.value;
    AdmittedKeepsInv(s, h, now);
    AdmittedOrder(s, h, now, f);
    AdmittedOrder(s, h, now, h.key.flow);
    AnsweredOrder(Admitted(s, h, now), h.key, h.key.flow !in s.flows, verdict, f);
  }

  lemma TouchedOrder(s: Udp, h: Header, now: nat, f: FlowKey)
    requires h.key.flow in s.flows
    ensures OrderOf(Touched(s, h, now), f) == OrderOf(s, f)
    ensures forall a :: OrderOf(Accept(Touched(s, h, now), a).0, f) == OrderOf(s, f)
  {
    hide Observe;
  }

  lemma RemovedOrder(s: Udp, key: ObjectKey, f: FlowKey)
    ensures OrderOf(RemoveObject(s, key), f) == OrderOf(s, f)
  {}

  lemma ScanOrder(s: Udp, now: nat, f: FlowKey)
    ensures OrderOf(Scan(s, now), f) == if f in Scan(s, now).flows then OrderOf(s, f) else []
    ensures f in Scan(s, now).flows ==> f in s.flows
  {}

  // ---------------------------------------------------------------- the decode log of one life of a flow

  /** The receiver after the expiry that opens the call. */
  ghost function AfterExpiry(s: Udp, op: Op): Udp {
    match op
    case Arrive(_, _, now) => ExpireIfDue(s, now)
    case Sweep(now) => Expire(s, now)
  }

  ghost function ResultOf(s: Udp, op: Op): Result<Outcome, Error>
    requires UdpInv(s)
  {
    match op
    case Arrive(d, verdict, now) => PushKeepsInv(s, d, verdict, now); Push(s, d, verdict, now).1
    case Sweep(_) => Err(Fec)
  }

  /** The blocks reported as decoded in this flow since it last came into being. */
  ghost function DecodeLog(config: Config, ops: seq<Op>, f: FlowKey, n: nat): seq<nat>
    requires n <= |ops|
  {
    if n == 0 then []
    else
      var s, op := StateAt(config, ops, n - 1), ops[n - 1];
      Logged(if f in AfterExpiry(s, op).flows then DecodeLog(config, ops, f, n - 1) else [],
             DecodedBlock(ResultOf(s, op), f))
  }

  lemma ExpiryOrder(s: Udp, op: Op, f: FlowKey)
    ensures OrderOf(AfterExpiry(s, op), f) == if f in AfterExpiry(s, op).flows then OrderOf(s, f) else []
    ensures OrderOf(Received(AfterExpiry(s, op)), f) == OrderOf(AfterExpiry(s, op), f)
    ensures AfterExpiry(s, op).config == s.config
  {
    ScanOrder(s, op.now, f);
    ExpireConfig(s, op.now);
    hide Scan;
  }

  lemma StepOrder(s: Udp, op: Op, f: FlowKey)
    requires UdpInv(s)
    ensures OrderAdvances(OrderOf(AfterExpiry(s, op), f), OrderOf(Step(s, op), f), DecodedBlock(ResultOf(s, op), f),
                          s.config.maxCompletedPerFlow)
  {
    hide UdpInv, HandleDatagram, ExpireIfDue, Expire, OrderAdvances;
    ExpiryOrder(s, op, f);
    match op
    case Arrive(d, verdict, now) =>
      ExpireIfDueKeepsInv(s, now);
      PushKeepsInv(s, d, verdict, now);
      HandleOrder(Received(ExpireIfDue(s, now)), d, verdict, now, f);
    case Sweep(now) =>
      SameOrder(OrderOf(Expire(s, now), f), s.config.maxCompletedPerFlow);
  }

  lemma SameOrder(order: seq<nat>, limit: nat)
    ensures OrderAdvances(order, order, None, limit)
  {}

  function Logged(log: seq<nat>, decoded: Option<nat>): seq<nat> {
    if decoded.Some? then log + [decoded.value] else log
  }

  lemma NextOrder(log: seq<nat>, order: seq<nat>, after: seq<nat>, decoded: Option<nat>, limit: nat)
    requires order == LastOf(log, limit) && WindowFresh(log, limit) && OrderAdvances(order, after, decoded, limit)
    ensures after == LastOf(Logged(log, decoded), limit) && WindowFresh(Logged(log, decoded), limit)
  {
    if decoded.Some? {
      if limit > 0 {
        LastOfAppend(log, decoded.value, limit);
      }
      ExtendWindow(log, decoded.value, limit);
    }
  }

  lemma NothingLogged(limit: nat)
    ensures LastOf<nat>([], limit) == [] && WindowFresh<nat>([], limit)
  {}

  /** What a flow remembers is always the last blocks of its decode log, as many as it may remember; two decodes of
      one block in one life of the flow are further apart than that. */
  lemma {:induction false} RemembersRecentDecodes(config: Config, ops: seq<Op>, f: FlowKey, n: nat)
    requires n <= |ops|
    ensures OrderOf(StateAt(config, ops, n), f) == LastOf(DecodeLog(config, ops, f, n), config.maxCompletedPerFlow)
    ensures WindowFresh(DecodeLog(config, ops, f, n), config.maxCompletedPerFlow)
  {
    hide UdpInv, Step, AfterExpiry, ResultOf, DecodedBlock, WindowFresh, LastOf, OrderAdvances;
    NothingLogged(config.maxCompletedPerFlow);
    if n > 0 {
      var s, op := StateAt(config, ops, n - 1), ops[n - 1];
      RemembersRecentDecodes(config, ops, f, n - 1);
      ConfigConstant(config, ops, n - 1);
      ExpiryOrder(s, op, f);
      StepOrder(s, op, f);
      var log := if f in AfterExpiry(s, op).flows then DecodeLog(config, ops, f, n - 1) else [];
      NextOrder(log, OrderOf(AfterExpiry(s, op), f), OrderOf(StateAt(config, ops, n), f),
                DecodedBlock(ResultOf(s, op), f), config.maxCompletedPerFlow);
    }
  }

  /** Between two decodes of one block, while the flow stays, at least as many other blocks were decoded as the flow
      remembers. */
  lemma RedecodeNeedsFullWindow(config: Config, ops: seq<Op>, f: FlowKey, n: nat, i: nat, j: nat)
    requires n <= |ops| && i < j < |DecodeLog(config, ops, f, n)|
    requires DecodeLog(config, ops, f, n)[i] == DecodeLog(config, ops, f, n)[j]
    ensures
      var between := DecodeLog(config, ops, f, n)[i + 1..j];
      |Members(between) - {DecodeLog(config, ops, f, n)[j]}| >= config.maxCompletedPerFlow
  {
    RemembersRecentDecodes(config, ops, f, n);
    FreshWindowIsFull(DecodeLog(config, ops, f, n), config.maxCompletedPerFlow, i, j);
  }

  /** A datagram of acceptable length and size is answered as a duplicate exactly if its block is among the last ones
      its flow decoded and the flow outlives the expiry of the call. */
  lemma RecentBlockIsDuplicate(config: Config, ops: seq<Op>, n: nat, d: Datagram, verdict: Verdict, now: nat)
    requires n <= |ops| && d.length <= config.maxDatagramBytes && d.header.Some?
    requires d.header.value.transferLength <= config.maxObjectBytes
    ensures
      var s, key := StateAt(config, ops, n), d.header.value.key;
      var recent := LastOf(DecodeLog(config, ops, key.flow, n), config.maxCompletedPerFlow);
      ResultOf(s, Arrive(d, verdict, now)) == Ok(Duplicate(key))
      <==> key.flow in AfterExpiry(s, Arrive(d, verdict, now)).flows && key.block in recent
  {
    var s, key, op := StateAt(config, ops, n), d.header.value.key, Arrive(d, verdict, now);
    hide UdpInv, StateAt, DecodeLog, LastOf;
    RemembersRecentDecodes(config, ops, key.flow, n);
    ConfigConstant(config, ops, n);
    ExpiryOrder(s, op, key.flow);
    ExpireIfDueKeepsInv(s, now);
    PushKeepsInv(s, d, verdict, now);
    DuplicateExactly(Received(ExpireIfDue(s, now)), d, verdict, now);
  }

  lemma DuplicateExactly(s: Udp, d: Datagram, verdict: Verdict, now: nat)
    requires UdpInv(s) && d.length <= s.config.maxDatagramBytes && d.header.Some?
    requires d.header.value.transferLength <= s.config.maxObjectBytes
    ensures forall k <- s.objects :: k.flow in s.flows
    ensures
      var key := d.header.value.key;
      HandleDatagram(s, d, verdict, now).1 == Ok(Duplicate(key))
      <==> key.flow in s.flows && key.block in s.flows[key.flow].completedOrder
  {
    HousedObjects(s);
    var key := d.header.value.key;
    if key.flow in s.flows {
      assert FlowOk(s.config, s.flows[key.flow]);
    }
    hide UdpInv, Admitted, RemoveObject, Touched, Completed, CountAccepted;
  }
}
