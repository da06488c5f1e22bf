/** The UDP RaptorQ receiver as it is written: flows, objects, budgets and counters updated in place.  Every
    method is proved to take the step of module UdpSpec and to keep its invariant. */
module UdpReceiver {
  import opened Collections
  import opened Prelude
  import opened Totals
  import opened UdpTracker
  import opened UdpSpec
  import opened UdpInvariants

  datatype Expiry = Expiry(objects: nat, flows: nat, releasedObjectBytes: nat, releasedDatagrams: nat)

  /** The completed queue pushes the new block and pops from the front while it is too long. */
  method MarkBlockCompleted(config: Config, flow: Flow, block: nat) returns (flow': Flow)
    requires FlowOk(config, flow)
    ensures flow' == MarkCompleted(flow, block, config.maxCompletedPerFlow)
  {
    var limit := config.maxCompletedPerFlow;
    if limit == 0 || block in flow.completed {
      return flow;
    }
    var order, completed := flow.completedOrder + [block], flow.completed + {block};
    ghost var all := order;
    assert Blocks(all) == completed;
    while |order| > limit
      invariant order == LastOf(all, limit) || (order == all && |all| == limit + 1)
      invariant Distinct(order) && completed == Blocks(order)
      decreases |order|
    {
      var expired := order[0];
      BlocksAfterPop(order);
      order := order[1..];
      completed := completed - {expired};
    }
    return flow.(completedOrder := order, completed := completed);
  }

  lemma BlocksAfterPop(order: seq<nat>)
    requires Distinct(order) && order != []
    ensures Distinct(order[1..]) && Blocks(order[1..]) == Blocks(order) - {order[0]}
  {
    assert forall b :: b in order <==> b == order[0] || b in order[1..];
  }

  class UdpFecReceiver {
    const config: Config
    var flows: map<FlowKey, Flow>
    var objects: map<ObjectKey, ObjectState>
    var bufferedObjectBytes: nat
    var bufferedDatagrams: nat
    var counters: Counters
    var lastError: Option<Error>
    var nextExpiryScan: Option<nat>

    function State(): Udp
      reads this
    {
      Udp(config, flows, objects, bufferedObjectBytes, bufferedDatagrams, counters, nextExpiryScan)
    }

    ghost predicate Valid()
      reads this
    {
      UdpInv(State())
    }

    constructor (config: Config)
      ensures Valid() && State() == Fresh(config)
    {
      this.config := config;
      flows, objects, bufferedObjectBytes, bufferedDatagrams := map[], map[], 0, 0;
      counters, lastError, nextExpiryScan := NO_COUNTS, None, None;
    }

    // -------------------------------------------------------------- removal and expiry

    method RemoveObjectState(key: ObjectKey) returns (state: Option<ObjectState>)
      modifies `objects, `flows, `bufferedObjectBytes, `bufferedDatagrams
      ensures State() == RemoveObject(old(State()), key)
      ensures state == (if key in old(objects) then Some(old(objects)[key]) else None)
    {
      if key !in objects {
        assert objects - {key} == objects;
        return None;
      }
      state := Some(objects[key]);
      objects := objects - {key};
      bufferedObjectBytes := SatSub(bufferedObjectBytes, state.value.transferLength);
      bufferedDatagrams := SatSub(bufferedDatagrams, state.value.acceptedDatagrams);
      if key.flow in flows {
        flows := flows[key.flow := flows[key.flow].(active := SatSub(flows[key.flow].active, 1))];
      }
    }

    method RejectDatagram(error: Error) returns (r: Result<Outcome, Error>)
      modifies `counters, `lastError
      ensures (State(), r) == RejectWith(old(State()), error)
      ensures r == Err(error) && lastError == Some(error)
    {
      counters := counters.(rejected := counters.rejected + 1);
      lastError := Some(error);
      return Err(error);
    }

    /** Stale objects are removed one by one, then idle flows. */
    method ScanInactive(now: nat) returns (expiry: Expiry)
      requires Valid()
      modifies this
      ensures Valid() && State() == Scan(old(State()), now) && lastError == old(lastError)
      ensures expiry.releasedObjectBytes == old(bufferedObjectBytes) - bufferedObjectBytes
      ensures expiry.releasedDatagrams == old(bufferedDatagrams) - bufferedDatagrams
    {
      hide UdpInv, Released, StaleObjects, IdleFlows, Scan;
      ScanKeepsInv(State(), now);
      ScanIs(State(), now);
      var stale := StaleObjects(State(), now);
      expiry := ReleaseObjects(stale);
      var idle := DropIdleFlows(expiry.objects, now);
      expiry := expiry.(flows := idle);
    }

    method DropIdleFlows(expiredObjects: nat, now: nat) returns (dropped: nat)
      modifies `flows, `counters
      ensures
        var idle := IdleFlows(old(flows), config, now);
        && dropped == |idle|
        && flows == old(flows) - idle
        && counters == old(counters).(scans := old(counters).scans + 1,
                                      objectsExpired := old(counters).objectsExpired + expiredObjects,
                                      flowsExpired := old(counters).flowsExpired + |idle|)
    {
      hide IdleFlows;
      var idle := IdleFlows(flows, config, now);
      flows := flows - idle;
      counters := counters.(scans := counters.scans + 1);
      counters := counters.(objectsExpired := counters.objectsExpired + expiredObjects,
                            flowsExpired := counters.flowsExpired + |idle|);
      dropped := |idle|;
    }

    method ReleaseObjects(stale: set<ObjectKey>) returns (expiry: Expiry)
      requires Valid() && stale <= objects.Keys
      modifies `objects, `flows, `bufferedObjectBytes, `bufferedDatagrams
      ensures Valid() && State() == Released(old(State()), stale)
      ensures expiry.objects == |stale| && expiry.flows == 0
      ensures expiry.releasedObjectBytes == old(bufferedObjectBytes) - bufferedObjectBytes
      ensures expiry.releasedDatagrams == old(bufferedDatagrams) - bufferedDatagrams
    {
      hide UdpInv, Released, RemoveObject;
      ghost var before := State();
      ghost var done: set<ObjectKey> := {};
      var remaining := stale;
      expiry := Expiry(0, 0, 0, 0);
      ReleaseNothing(before);
      while remaining != {}
        invariant remaining <= stale && done == stale - remaining && stale <= before.objects.Keys
        invariant Valid() && State() == Released(before, done)
        invariant expiry.objects + |remaining| == |stale| && expiry.flows == 0
        invariant expiry.releasedObjectBytes == before.bufferedObjectBytes - bufferedObjectBytes
        invariant expiry.releasedDatagrams == before.bufferedDatagrams - bufferedDatagrams
        decreases remaining
      {
        var key :| key in remaining;
        ReleaseOneMore(before, done, key);
        RemoveKeepsInv(State(), key);
        RemovedBudgets(State(), key);
        var state := RemoveObjectState(key);
        remaining := remaining - {key};
        done := done + {key};
        expiry := Expiry(expiry.objects + 1, 0, expiry.releasedObjectBytes + state.value.transferLength,
                         expiry.releasedDatagrams + state.value.acceptedDatagrams);
      }
      assert done == stale;
    }

    method ExpireInactive(now: nat) returns (expiry: Expiry)
      requires Valid()
      modifies this
      ensures Valid() && State() == Expire(old(State()), now) && lastError == old(lastError)
    {
      hide UdpInv, Scan;
      expiry := ScanInactive(now);
      CountersKeepInv(State(), counters, Some(now + ScanInterval(config)));
      nextExpiryScan := Some(now + ScanInterval(config));
    }

    method ExpireInactiveIfDue(now: nat)
      requires Valid()
      modifies this
      ensures Valid() && State() == ExpireIfDue(old(State()), now) && lastError == old(lastError)
    {
      hide UdpInv, Expire;
      if nextExpiryScan.Some? && now < nextExpiryScan.value {
        return;
      }
      var _ := ExpireInactive(now);
    }

    // -------------------------------------------------------------- datagrams

    /** Every accepted or rejected datagram leaves the receiver valid; a rejection is remembered. */
    method TryPushPayload(d: Datagram, verdict: Verdict, now: nat) returns (r: Result<Outcome, Error>)
      requires Valid()
      modifies this
      ensures Valid()
      ensures forall k <- Received(ExpireIfDue(old(State()), now)).objects ::
                k.flow in Received(ExpireIfDue(old(State()), now)).flows
      ensures (State(), r) == Push(old(State()), d, verdict, now)
      ensures lastError == (if r.Err? then Some(r.error) else old(lastError))
    {
      hide UdpInv, ExpireIfDue, HandleHeader, DecideHeader;
      PushKeepsInv(State(), d, verdict, now);
      ExpireIfDueKeepsInv(State(), now);
      ExpireInactiveIfDue(now);
      counters := counters.(received := counters.received + 1);
      if d.length > config.maxDatagramBytes {
        r := RejectDatagram(DatagramTooLarge);
        return;
      }
      if d.header.None? {
        r := RejectDatagram(Fec);
        return;
      }
      RefusedHeader(State(), d.header.value, verdict, now);
      r := PushHeader(d.header.value, verdict, now);
    }

    method PushHeader(h: Header, verdict: Verdict, now: nat) returns (r: Result<Outcome, Error>)
      requires Valid()
      modifies this
      ensures h.key in old(objects) ==> h.key.flow in old(flows)
      ensures (State(), r) == HandleHeader(old(State()), h, verdict, now)
      ensures lastError == (if r.Err? then Some(r.error) else old(lastError))
    {
      HousedObjects(State());
      RepeatHasFlow(State(), h);
      hide UdpInv, Accept, RejectWith, RemoveObject, Admitted, Answered, Touched, DecideHeader, SameRest, SameOtherFlows;
      var decision := DecideInPlace(h);
      match decision {
        case Refuse(e) =>
          r := RejectDatagram(e);
        case Drop =>
          var _ := RemoveObjectState(h.key);
          r := RejectDatagram(ObjectDatagramLimitExceeded);
        case Repeat =>
          TouchFlow(h, now);
          r := AcceptDatagram(Duplicate(h.key));
        case Feed =>
          r := FeedDatagram(h, verdict, now);
      }
    }

    /** The checks in their order, on the running totals. */
    method DecideInPlace(h: Header) returns (decision: Decision)
      ensures decision == DecideHeader(State(), h)
    {
      if h.transferLength > config.maxObjectBytes {
        return Refuse(ObjectTooLarge);
      }
      if h.key.flow in flows && h.key.block in flows[h.key.flow].completed {
        return Repeat;
      }
      var isNewObject := h.key !in objects;
      var isNewFlow := h.key.flow !in flows;
      if bufferedDatagrams >= config.maxBufferedDatagrams {
        return Refuse(BufferedDatagramLimitExceeded);
      }
      if isNewObject && config.maxDatagramsPerObject == 0 {
        return Refuse(ObjectDatagramLimitExceeded);
      }
      if !isNewObject && objects[h.key].acceptedDatagrams >= config.maxDatagramsPerObject {
        return Drop;
      }
      if isNewObject {
        if isNewFlow && |flows| >= config.maxFlows {
          return Refuse(FlowLimitExceeded);
        }
        if |objects| >= config.maxActiveObjects {
          return Refuse(ActiveObjectLimitExceeded);
        }
        var activeInFlow := if isNewFlow then 0 else flows[h.key.flow].active;
        if activeInFlow >= config.maxActiveObjectsPerFlow {
          return Refuse(FlowObjectLimitExceeded);
        }
        if bufferedObjectBytes + h.transferLength > config.maxBufferedObjectBytes {
          return Refuse(BufferedObjectBytesLimitExceeded);
        }
      }
      return Feed;
    }

    method AcceptDatagram(outcome: Outcome) returns (r: Result<Outcome, Error>)
      modifies `counters
      ensures (State(), r) == Accept(old(State()), outcome) && r == Ok(outcome)
    {
      r := Ok(outcome);
      counters := counters.(accepted := counters.accepted + 1);
      match outcome {
        case Buffered(_) => counters := counters.(buffered := counters.buffered + 1);
        case Decoded(_) => counters := counters.(decoded := counters.decoded + 1);
        case Duplicate(_) => counters := counters.(duplicate := counters.duplicate + 1);
      }
    }

    method TouchFlow(h: Header, now: nat)
      requires h.key.flow in flows
      modifies `flows
      ensures State() == Touched(old(State()), h, now)
    {
      hide Observe;
      var flow := flows[h.key.flow];
      var tracker := ObserveInPlace(flow.tracker, h.sequence, config.maxTrackedGaps);
      flows := flows[h.key.flow := flow.(tracker := tracker, lastActivity := now)];
    }

    method FeedDatagram(h: Header, verdict: Verdict, now: nat) returns (r: Result<Outcome, Error>)
      requires Valid() && DecideHeader(State(), h).Feed?
      modifies this
      ensures h.key in old(objects) ==> h.key.flow in old(flows)
      ensures (State(), r) == Answered(Admitted(old(State()), h, now), h.key, h.key.flow !in old(flows), verdict)
      ensures lastError == (if r.Err? then Some(r.error) else old(lastError))
    {
      HousedObjects(State());
      AdmittedKeepsInv(State(), h, now);
      hide UdpInv, DecideHeader, Answered, Admitted;
      var isNewFlow := h.key.flow !in flows;
      AdmitDatagram(h, now);
      r := AnswerDatagram(h.key, isNewFlow, verdict);
    }

    method AdmitDatagram(h: Header, now: nat)
      requires h.key in objects ==> h.key.flow in flows
      modifies `flows, `objects, `bufferedObjectBytes, `bufferedDatagrams
      ensures State() == Admitted(old(State()), h, now)
    {
      AdmittedIs(State(), h, now);
      hide Reserved, Touched, Held, Admitted, SameRest, SameOtherFlows;
      if h.key !in objects {
        ReserveObject(h, now);
      }
      TouchFlow(h, now);
      HoldDatagram(h.key, now);
    }

    method ReserveObject(h: Header, now: nat)
      modifies `flows, `objects, `bufferedObjectBytes
      ensures State() == Reserved(old(State()), h, now)
    {
      var flow := if h.key.flow in flows then flows[h.key.flow] else NewFlow(now);
      flows := flows[h.key.flow := flow.(active := flow.active + 1)];
      objects := objects[h.key := ObjectState(h.transferLength, 0, now)];
      bufferedObjectBytes := bufferedObjectBytes + h.transferLength;
    }

    method HoldDatagram(key: ObjectKey, now: nat)
      requires key in objects
      modifies `objects, `bufferedDatagrams
      ensures State() == Held(old(State()), key, now)
    {
      var o := objects[key];
      o := o.(lastActivity := now);
      o := o.(acceptedDatagrams := o.acceptedDatagrams + 1);
      objects := objects[key := o];
      bufferedDatagrams := bufferedDatagrams + 1;
    }

    method AnswerDatagram(key: ObjectKey, isNewFlow: bool, verdict: Verdict) returns (r: Result<Outcome, Error>)
      requires Valid() && key.flow in flows
      modifies this
      ensures (State(), r) == Answered(old(State()), key, isNewFlow, verdict)
      ensures lastError == (if r.Err? then Some(r.error) else old(lastError))
    {
      hide UdpInv, Accept, RejectWith, RemoveObject, RemoveEmptyFlow, Completed, SameRest, SameOtherFlows;
      AnswerCases(State(), key, isNewFlow);
      match verdict {
        case Complete =>
          RemoveKeepsInv(State(), key);
          var _ := RemoveObjectState(key);
          CompleteBlock(key);
          r := AcceptDatagram(Decoded(key));
        case Incomplete =>
          r := AcceptDatagram(Buffered(key));
        case Broken =>
          var _ := RemoveObjectState(key);
          if isNewFlow {
            RemoveFlowIfEmpty(key.flow);
          }
          r := RejectDatagram(Fec);
      }
    }

    method CompleteBlock(key: ObjectKey)
      requires Valid() && key.flow in flows
      modifies `flows
      ensures State() == Completed(old(State()), key)
    {
      hide MarkCompleted, FlowOk;
      assert FlowOk(config, flows[key.flow]);
      var flow := MarkBlockCompleted(config, flows[key.flow], key.block);
      flows := flows[key.flow := flow];
    }

    method RemoveFlowIfEmpty(f: FlowKey)
      modifies `flows
      ensures State() == RemoveEmptyFlow(old(State()), f)
    {
      if f in flows && flows[f].active == 0 && flows[f].completed == {} {
        flows := flows - {f};
      }
    }
  }

  lemma AdmittedIs(s: Udp, h: Header, now: nat)
    requires h.key in s.objects ==> h.key.flow in s.flows
    ensures h.key in s.objects ==> h.key in Touched(s, h, now).objects && Admitted(s, h, now) == Held(Touched(s, h, now), h.key, now)
    ensures h.key !in s.objects ==>
              && h.key in Touched(Reserved(s, h, now), h, now).objects
              && Admitted(s, h, now) == Held(Touched(Reserved(s, h, now), h, now), h.key, now)
  {
    hide Reserved, Held;
  }

  lemma ScanIs(s: Udp, now: nat)
    ensures
      var stale := StaleObjects(s, now);
      var released := Released(s, stale);
      var idle := IdleFlows(released.flows, s.config, now);
      && stale <= s.objects.Keys
      && released.config == s.config && released.counters == s.counters
      && Scan(s, now) == released.(
           flows := released.flows - idle,
           counters := s.counters.(scans := s.counters.scans + 1,
                                   objectsExpired := s.counters.objectsExpired + |stale|,
                                   flowsExpired := s.counters.flowsExpired + |idle|))
  {}

  lemma ReleaseNothing(s: Udp)
    requires UdpInv(s)
    ensures Released(s, {}) == s
  {
    assert s.objects - {} == s.objects;
    assert Recounted(s.flows, s.objects.Keys) == s.flows;
  }

  lemma ReleaseOneMore(s: Udp, gone: set<ObjectKey>, key: ObjectKey)
    requires UdpInv(Released(s, gone)) && key in s.objects && key !in gone
    ensures key in Released(s, gone).objects && Released(s, gone).objects[key] == s.objects[key]
    ensures RemoveObject(Released(s, gone), key) == Released(s, gone + {key})
  {
    hide UdpInv;
    RemoveIsRelease(Released(s, gone), key);
    assert s.objects - gone - {key} == s.objects - (gone + {key});
    RecountTwice(s.flows, (s.objects - gone).Keys, (s.objects - (gone + {key})).Keys);
  }

  lemma RecountTwice(flows: map<FlowKey, Flow>, keys: set<ObjectKey>, fewer: set<ObjectKey>)
    ensures Recounted(Recounted(flows, keys), fewer) == Recounted(flows, fewer)
  {
    hide OfFlow;
  }

  lemma RemovedBudgets(s: Udp, key: ObjectKey)
    requires UdpInv(s) && key in s.objects
    ensures RemoveObject(s, key).bufferedObjectBytes == s.bufferedObjectBytes - s.objects[key].transferLength
    ensures RemoveObject(s, key).bufferedDatagrams == s.bufferedDatagrams - s.objects[key].acceptedDatagrams
  {
    TotalRemove(s.objects, TransferLength, key);
    TotalRemove(s.objects, AcceptedDatagrams, key);
  }

  /** A header refused on its own is refused as a datagram. */
  lemma RefusedHeader(s: Udp, h: Header, verdict: Verdict, now: nat)
    requires UdpInv(s)
    ensures h.key in s.objects ==> h.key.flow in s.flows
    ensures DecideHeader(s, h).Refuse? ==>
              HandleHeader(s, h, verdict, now) == RejectWith(s, DecideHeader(s, h).error)
  {
    HousedObjects(s);
  }

  lemma AnswerCases(s: Udp, key: ObjectKey, newFlow: bool)
    requires key.flow in s.flows
    ensures key.flow in RemoveObject(s, key).flows
  {}
}
