/** What every datagram and every expiry scan of the UDP receiver keeps: flows, objects and budgets agree. */
module UdpInvariants {
  import opened Collections
  import opened Prelude
  import opened Totals
  import opened UdpTracker
  import opened UdpSpec

  ghost predicate FlowOk(config: Config, flow: Flow) {
    && Distinct(flow.completedOrder)
    && flow.completed == Blocks(flow.completedOrder)
    && |flow.completedOrder| <= config.maxCompletedPerFlow
    && |flow.tracker.missing| <= config.maxTrackedGaps
    && flow.active <= config.maxActiveObjectsPerFlow
  }

  ghost predicate FlowsOk(config: Config, flows: map<FlowKey, Flow>) {
    forall f <- flows :: FlowOk(config, flows[f])
  }

  /** Every object has a live flow and is not among its completed blocks. */
  ghost predicate Housed(flows: map<FlowKey, Flow>, keys: set<ObjectKey>) {
    forall k <- keys :: k.flow in flows && k.block !in flows[k.flow].completed
  }

  /** Every flow knows how many objects it has. */
  ghost predicate Counted(flows: map<FlowKey, Flow>, keys: set<ObjectKey>) {
    forall f <- flows :: flows[f].active == |OfFlow(keys, f)|
  }

  ghost predicate ObjectsOk(config: Config, objects: map<ObjectKey, ObjectState>) {
    forall k <- objects ::
      objects[k].acceptedDatagrams <= config.maxDatagramsPerObject && objects[k].transferLength <= config.maxObjectBytes
  }

  ghost predicate Budgets(objects: map<ObjectKey, ObjectState>, bytes: nat, datagrams: nat) {
    bytes == Total(objects, TransferLength) && datagrams == Total(objects, AcceptedDatagrams)
  }

  ghost predicate Ceilings(s: Udp) {
    && |s.flows| <= s.config.maxFlows
    && |s.objects| <= s.config.maxActiveObjects
    && s.bufferedObjectBytes <= s.config.maxBufferedObjectBytes
    && s.bufferedDatagrams <= s.config.maxBufferedDatagrams
  }

  ghost predicate UdpInv(s: Udp) {
    && FlowsOk(s.config, s.flows)
    && Housed(s.flows, s.objects.Keys)
    && Counted(s.flows, s.objects.Keys)
    && ObjectsOk(s.config, s.objects)
    && Budgets(s.objects, s.bufferedObjectBytes, s.bufferedDatagrams)
    && Ceilings(s)
  }

  lemma FreshInv(config: Config)
    ensures UdpInv(Fresh(config))
  {}

  // ---------------------------------------------------------------- removal

  lemma ObjectsAfterDrop(config: Config, objects: map<ObjectKey, ObjectState>, gone: set<ObjectKey>)
    requires ObjectsOk(config, objects)
    ensures ObjectsOk(config, objects - gone)
    ensures Total(objects - gone, TransferLength) <= Total(objects, TransferLength)
    ensures Total(objects - gone, AcceptedDatagrams) <= Total(objects, AcceptedDatagrams)
  {
    TotalRemoveSome(objects, TransferLength, gone);
    TotalRemoveSome(objects, AcceptedDatagrams, gone);
  }

  lemma ObjectsAfterInsert(
    config: Config, objects: map<ObjectKey, ObjectState>, key: ObjectKey, o: ObjectState, bytes: nat, datagrams: nat)
    requires ObjectsOk(config, objects) && Budgets(objects, bytes, datagrams) && key !in objects
    requires o.acceptedDatagrams <= config.maxDatagramsPerObject && o.transferLength <= config.maxObjectBytes
    ensures ObjectsOk(config, objects[key := o])
    ensures Budgets(objects[key := o], bytes + o.transferLength, datagrams + o.acceptedDatagrams)
  {
    TotalInsert(objects, TransferLength, key, o);
    TotalInsert(objects, AcceptedDatagrams, key, o);
  }

  lemma ObjectsAfterReplace(
    config: Config, objects: map<ObjectKey, ObjectState>, key: ObjectKey, o: ObjectState, bytes: nat, datagrams: nat)
    requires ObjectsOk(config, objects) && Budgets(objects, bytes, datagrams) && key in objects
    requires o.acceptedDatagrams == objects[key].acceptedDatagrams + 1 <= config.maxDatagramsPerObject
    requires o.transferLength == objects[key].transferLength
    ensures ObjectsOk(config, objects[key := o]) && Budgets(objects[key := o], bytes, datagrams + 1)
  {
    TotalReplace(objects, TransferLength, key, o);
    TotalReplace(objects, AcceptedDatagrams, key, o);
  }

  lemma FewerOfFlow(keys: set<ObjectKey>, gone: set<ObjectKey>, f: FlowKey)
    ensures |OfFlow(keys - gone, f)| <= |OfFlow(keys, f)|
  {
    SubsetSize(OfFlow(keys - gone, f), OfFlow(keys, f));
  }

  lemma RecountedIsOk(config: Config, flows: map<FlowKey, Flow>, keys: set<ObjectKey>, gone: set<ObjectKey>)
    requires FlowsOk(config, flows) && Housed(flows, keys) && Counted(flows, keys)
    ensures FlowsOk(config, Recounted(flows, keys - gone))
    ensures Housed(Recounted(flows, keys - gone), keys - gone)
    ensures Counted(Recounted(flows, keys - gone), keys - gone)
  {
    hide Distinct, Blocks, OfFlow;
    forall f <- flows
      ensures FlowOk(config, Recounted(flows, keys - gone)[f])
    {
      assert FlowOk(config, flows[f]);
      FewerOfFlow(keys, gone, f);
    }
  }

  lemma ReleasedKeepsInv(s: Udp, gone: set<ObjectKey>)
    requires UdpInv(s)
    ensures UdpInv(Released(s, gone))
  {
    hide FlowsOk, Housed, Counted, Recounted, ObjectsOk;
    ObjectsAfterDrop(s.config, s.objects, gone);
    KeysAfterDrop(s.objects, gone);
    SizeAfterDrop(s.objects, gone);
    RecountedIsOk(s.config, s.flows, s.objects.Keys, gone);
    RecountedKeys(s.flows, s.objects.Keys - gone);
  }

  lemma RecountedKeys(flows: map<FlowKey, Flow>, keys: set<ObjectKey>)
    ensures Recounted(flows, keys).Keys == flows.Keys && |Recounted(flows, keys)| == |flows|
  {
    assert |Recounted(flows, keys)| == |Recounted(flows, keys).Keys| && |flows| == |flows.Keys|;
  }

  /** No subtraction clips: dropping one object leaves exact counts and budgets. */
  lemma RemoveIsRelease(s: Udp, key: ObjectKey)
    requires UdpInv(s) && key in s.objects
    ensures RemoveObject(s, key) == Released(s, {key})
  {
    hide FlowOk;
    TotalRemove(s.objects, TransferLength, key);
    TotalRemove(s.objects, AcceptedDatagrams, key);
    assert (s.objects - {key}).Keys == s.objects.Keys - {key};
    RecountAfterOne(s.flows, s.objects.Keys, key);
  }

  lemma RecountAfterOne(flows: map<FlowKey, Flow>, keys: set<ObjectKey>, key: ObjectKey)
    requires Counted(flows, keys) && key in keys && key.flow in flows
    ensures flows[key.flow].active > 0
    ensures Recounted(flows, keys - {key})
         == flows[key.flow := flows[key.flow].(active := flows[key.flow].active - 1)]
  {
    forall f <- flows
      ensures |OfFlow(keys - {key}, f)| == flows[f].active - (if f == key.flow then 1 else 0)
    {
      if f == key.flow {
        assert OfFlow(keys - {key}, f) == OfFlow(keys, f) - {key};
      } else {
        assert OfFlow(keys - {key}, f) == OfFlow(keys, f);
      }
    }
  }

  lemma RemoveKeepsInv(s: Udp, key: ObjectKey)
    requires UdpInv(s)
    ensures UdpInv(RemoveObject(s, key))
  {
    hide UdpInv, Released;
    if key in s.objects {
      RemoveIsRelease(s, key);
      ReleasedKeepsInv(s, {key});
    }
  }

  // ---------------------------------------------------------------- flows leave

  /** A flow without objects can go. */
  lemma DropFlowsKeepsInv(s: Udp, idle: set<FlowKey>)
    requires UdpInv(s) && forall f <- idle :: f in s.flows ==> s.flows[f].active == 0
    ensures UdpInv(s.(flows := s.flows - idle))
  {
    hide FlowOk, Total;
    KeysAfterDrop(s.flows, idle);
    SizeAfterDrop(s.flows, idle);
    forall k <- s.objects
      ensures k.flow !in idle
    {
      assert k in OfFlow(s.objects.Keys, k.flow);
    }
  }

  lemma RemoveEmptyKeepsInv(s: Udp, f: FlowKey)
    requires UdpInv(s)
    ensures UdpInv(RemoveEmptyFlow(s, f))
  {
    hide UdpInv;
    if RemoveEmptyFlow(s, f) != s {
      DropFlowsKeepsInv(s, {f});
    }
  }

  lemma ScanKeepsInv(s: Udp, now: nat)
    requires UdpInv(s)
    ensures UdpInv(Scan(s, now))
  {
    hide UdpInv, Released, StaleObjects;
    var released := Released(s, StaleObjects(s, now));
    ReleasedKeepsInv(s, StaleObjects(s, now));
    var idle := IdleFlows(released.flows, s.config, now);
    DropFlowsKeepsInv(released, idle);
    CountersKeepInv(released.(flows := released.flows - idle), Scan(s, now).counters, released.nextExpiryScan);
  }

  lemma CountersKeepInv(s: Udp, counters: Counters, next: Option<nat>)
    requires UdpInv(s)
    ensures UdpInv(s.(counters := counters, nextExpiryScan := next))
  {}

  lemma AcceptKeepsInv(s: Udp, r: Outcome)
    requires UdpInv(s)
    ensures UdpInv(Accept(s, r).0)
  {}

  lemma RejectKeepsInv(s: Udp, e: Error)
    requires UdpInv(s)
    ensures UdpInv(RejectWith(s, e).0)
  {}

  lemma ExpireIfDueKeepsInv(s: Udp, now: nat)
    requires UdpInv(s)
    ensures UdpInv(ExpireIfDue(s, now)) && UdpInv(Received(ExpireIfDue(s, now)))
  {
    hide UdpInv, Scan;
    ScanKeepsInv(s, now);
    CountersKeepInv(Scan(s, now), Scan(s, now).counters, Some(now + ScanInterval(s.config)));
    var s' := ExpireIfDue(s, now);
    CountersKeepInv(s', Received(s').counters, s'.nextExpiryScan);
  }

  // ---------------------------------------------------------------- one datagram

  lemma TouchedKeepsInv(s: Udp, h: Header, now: nat)
    requires UdpInv(s) && h.key.flow in s.flows
    ensures UdpInv(Touched(s, h, now))
  {
    hide Distinct, Blocks, Observe, OfFlow;
    var flow := s.flows[h.key.flow];
    assert FlowOk(s.config, flow);
    ObserveIsBounded(flow.tracker, h.sequence, s.config.maxTrackedGaps);
  }

  lemma CountAfterOneMore(flows: map<FlowKey, Flow>, flows': map<FlowKey, Flow>, keys: set<ObjectKey>, key: ObjectKey)
    requires Counted(flows, keys) && Housed(flows, keys) && key !in keys
    requires key.flow in flows' && flows'.Keys == flows.Keys + {key.flow}
    requires forall f <- flows :: f != key.flow ==> flows'[f] == flows[f]
    requires flows'[key.flow].active == (if key.flow in flows then flows[key.flow].active else 0) + 1
    ensures Counted(flows', keys + {key})
  {
    forall f <- flows'
      ensures flows'[f].active == |OfFlow(keys + {key}, f)|
    {
      OfFlowAfterOne(keys, key, f);
      if f !in flows {
        assert OfFlow(keys, f) == {};
      }
    }
  }

  lemma OfFlowAfterOne(keys: set<ObjectKey>, key: ObjectKey, f: FlowKey)
    requires key !in keys
    ensures |OfFlow(keys + {key}, f)| == |OfFlow(keys, f)| + (if f == key.flow then 1 else 0)
  {
    if f == key.flow {
      assert OfFlow(keys + {key}, f) == OfFlow(keys, f) + {key};
    } else {
      assert OfFlow(keys + {key}, f) == OfFlow(keys, f);
    }
  }

  lemma FlowsAfterPut(config: Config, flows: map<FlowKey, Flow>, keys: set<ObjectKey>, f: FlowKey, flow: Flow)
    requires FlowsOk(config, flows) && Housed(flows, keys) && FlowOk(config, flow)
    requires f in flows ==> flow.completed == flows[f].completed
    ensures FlowsOk(config, flows[f := flow]) && Housed(flows[f := flow], keys)
  {
    hide FlowOk;
  }

  lemma ReservedFlowOk(s: Udp, h: Header, now: nat)
    requires UdpInv(s) && h.key !in s.objects && DecideHeader(s, h).Feed?
    ensures
      var flow := JoinedFlow(s, h.key.flow, now);
      && FlowOk(s.config, flow)
      && h.key.block !in flow.completed
      && (h.key.flow !in s.flows ==> |s.flows| < s.config.maxFlows)
  {
    hide Distinct, Blocks, Counted, Budgets, ObjectsOk, Housed;
    NewFlowOk(s.config, now);
    assert h.key.flow in s.flows ==> FlowOk(s.config, s.flows[h.key.flow]);
  }

  lemma HousedToo(flows: map<FlowKey, Flow>, keys: set<ObjectKey>, key: ObjectKey)
    requires Housed(flows, keys) && key.flow in flows && key.block !in flows[key.flow].completed
    ensures Housed(flows, keys + {key})
  {}

  /** The flow a new object joins. */
  function JoinedFlow(s: Udp, f: FlowKey, now: nat): Flow {
    if f in s.flows then s.flows[f].(active := s.flows[f].active + 1) else NewFlow(now).(active := 1)
  }

  lemma ReservedFlows(s: Udp, h: Header, now: nat)
    requires UdpInv(s) && h.key !in s.objects && DecideHeader(s, h).Feed?
    ensures
      var flows' := s.flows[h.key.flow := JoinedFlow(s, h.key.flow, now)];
      && FlowsOk(s.config, flows')
      && Housed(flows', s.objects.Keys + {h.key})
      && Counted(flows', s.objects.Keys + {h.key})
      && |flows'| <= s.config.maxFlows
  {
    ReservedFlowOk(s, h, now);
    NewFlowOk(s.config, now);
    hide FlowsOk, FlowOk, Housed, Counted, Budgets, ObjectsOk, DecideHeader, NewFlow;
    PutFlow(s.config, s.flows, s.objects.Keys, h.key, JoinedFlow(s, h.key.flow, now));
  }

  lemma ReservedFlow(s: Udp, h: Header, now: nat)
    ensures Reserved(s, h, now).flows == s.flows[h.key.flow := JoinedFlow(s, h.key.flow, now)]
  {}

  lemma PutFlow(config: Config, flows: map<FlowKey, Flow>, keys: set<ObjectKey>, key: ObjectKey, flow: Flow)
    requires FlowsOk(config, flows) && Housed(flows, keys) && Counted(flows, keys) && key !in keys
    requires FlowOk(config, flow) && key.block !in flow.completed
    requires key.flow in flows ==>
               flow.completed == flows[key.flow].completed && flow.active == flows[key.flow].active + 1
    requires key.flow !in flows ==> flow.active == 1
    ensures
      var flows' := flows[key.flow := flow];
      && FlowsOk(config, flows') && Housed(flows', keys + {key}) && Counted(flows', keys + {key})
      && |flows'| == |flows| + (if key.flow in flows then 0 else 1)
  {
    var flows' := flows[key.flow := flow];
    KeysAfterPut(flows, key.flow, flow);
    SizeAfterPut(flows, key.flow, flow);
    FlowsAfterPut(config, flows, keys, key.flow, flow);
    HousedToo(flows', keys, key);
    hide FlowsOk, FlowOk, Housed, Counted;
    CountAfterOneMore(flows, flows', keys, key);
  }

  lemma ReservedObjects(s: Udp, h: Header, now: nat)
    requires UdpInv(s) && h.key !in s.objects && DecideHeader(s, h).Feed?
    ensures
      var s' := Reserved(s, h, now);
      && s'.objects.Keys == s.objects.Keys + {h.key}
      && ObjectsOk(s.config, s'.objects)
      && Budgets(s'.objects, s'.bufferedObjectBytes, s'.bufferedDatagrams)
      && |s'.objects| <= s.config.maxActiveObjects
      && s'.bufferedObjectBytes <= s.config.maxBufferedObjectBytes
  {
    hide FlowsOk, Housed, Counted, ObjectsOk, Budgets;
    var o := ObjectState(h.transferLength, 0, now);
    ObjectsAfterInsert(s.config, s.objects, h.key, o, s.bufferedObjectBytes, s.bufferedDatagrams);
    KeysAfterPut(s.objects, h.key, o);
    SizeAfterPut(s.objects, h.key, o);
  }

  lemma ReservedKeepsInv(s: Udp, h: Header, now: nat)
    requires UdpInv(s) && h.key !in s.objects && DecideHeader(s, h).Feed?
    ensures UdpInv(Reserved(s, h, now))
  {
    ReservedFlows(s, h, now);
    ReservedFlow(s, h, now);
    ReservedObjects(s, h, now);
    hide FlowsOk, Housed, Counted, ObjectsOk, Budgets, DecideHeader;
  }

  lemma NewFlowOk(config: Config, now: nat)
    ensures NewFlow(now).completed == Blocks([]) && Distinct<nat>([]) && NewFlow(now).completedOrder == []
    ensures |NewFlow(now).tracker.missing| == 0 && NewFlow(now).active == 0
  {}

  lemma HeldKeepsInv(s: Udp, key: ObjectKey, now: nat)
    requires UdpInv(s) && key in s.objects && s.bufferedDatagrams < s.config.maxBufferedDatagrams
    requires s.objects[key].acceptedDatagrams < s.config.maxDatagramsPerObject
    ensures UdpInv(Held(s, key, now))
  {
    hide FlowsOk, Housed, Counted, ObjectsOk, Budgets;
    var o := s.objects[key].(acceptedDatagrams := s.objects[key].acceptedDatagrams + 1, lastActivity := now);
    ObjectsAfterReplace(s.config, s.objects, key, o, s.bufferedObjectBytes, s.bufferedDatagrams);
    KeysAfterPut(s.objects, key, o);
    SizeAfterPut(s.objects, key, o);
  }

  lemma AdmittedKeepsInv(s: Udp, h: Header, now: nat)
    requires UdpInv(s) && DecideHeader(s, h).Feed?
    ensures h.key in s.objects ==> h.key.flow in s.flows
    ensures UdpInv(Admitted(s, h, now))
  {
    hide FlowsOk, Counted, Budgets;
    if h.key !in s.objects {
      ReservedKeepsInv(s, h, now);
    }
    hide UdpInv, Observe;
    var reserved := if h.key in s.objects then s else Reserved(s, h, now);
    TouchedKeepsInv(reserved, h, now);
    HeldKeepsInv(Touched(reserved, h, now), h.key, now);
  }

  lemma {:induction false} MarkKeepsFlowOk(config: Config, flow: Flow, block: nat)
    requires FlowOk(config, flow)
    ensures FlowOk(config, MarkCompleted(flow, block, config.maxCompletedPerFlow))
    ensures MarkCompleted(flow, block, config.maxCompletedPerFlow).completed <= flow.completed + {block}
  {}

  /** Once its object is gone, a block may be marked completed. */
  lemma CompletedKeepsInv(s: Udp, key: ObjectKey)
    requires UdpInv(s) && key !in s.objects && key.flow in s.flows
    ensures UdpInv(Completed(s, key))
  {
    hide FlowOk, OfFlow, Total, MarkCompleted;
    assert FlowOk(s.config, s.flows[key.flow]);
    MarkKeepsFlowOk(s.config, s.flows[key.flow], key.block);
    MarkKeepsActive(s.flows[key.flow], key.block, s.config.maxCompletedPerFlow);
    KeysAfterPut(s.flows, key.flow, Completed(s, key).flows[key.flow]);
    SizeAfterPut(s.flows, key.flow, Completed(s, key).flows[key.flow]);
  }

  lemma MarkKeepsActive(flow: Flow, block: nat, limit: nat)
    ensures MarkCompleted(flow, block, limit).active == flow.active
  {}

  lemma AnsweredKeepsInv(s: Udp, key: ObjectKey, newFlow: bool, verdict: Verdict)
    requires UdpInv(s) && key in s.objects && key.flow in s.flows
    ensures UdpInv(Answered(s, key, newFlow, verdict).0)
  {
    hide UdpInv, Accept, RejectWith, Completed, RemoveObject, RemoveEmptyFlow, SameOtherFlows;
    var removed := RemoveObject(s, key);
    RemoveKeepsInv(s, key);
    match verdict
    case Incomplete => AcceptKeepsInv(s, Buffered(key));
    case Complete =>
      CompletedKeepsInv(removed, key);
      AcceptKeepsInv(Completed(removed, key), Decoded(key));
    case Broken =>
      RemoveEmptyKeepsInv(removed, key.flow);
      RejectKeepsInv(if newFlow then RemoveEmptyFlow(removed, key.flow) else removed, Fec);
  }

  lemma HousedObjects(s: Udp)
    requires UdpInv(s)
    ensures forall k <- s.objects :: k.flow in s.flows
  {}

  lemma RepeatHasFlow(s: Udp, h: Header)
    ensures DecideHeader(s, h).Repeat? ==> h.key.flow in s.flows
  {}

  lemma FedHeaderKeepsInv(s: Udp, h: Header, verdict: Verdict, now: nat)
    requires UdpInv(s) && DecideHeader(s, h).Feed?
    ensures h.key in s.objects ==> h.key.flow in s.flows
    ensures UdpInv(HandleHeader(s, h, verdict, now).0)
  {
    hide UdpInv, RemoveObject, Answered, Admitted, DecideHeader, SameRest, SameOtherFlows;
    AdmittedKeepsInv(s, h, now);
    AnsweredKeepsInv(Admitted(s, h, now), h.key, h.key.flow !in s.flows, verdict);
  }

  lemma RepeatedHeaderKeepsInv(s: Udp, h: Header, verdict: Verdict, now: nat)
    requires UdpInv(s) && DecideHeader(s, h).Repeat?
    ensures h.key in s.objects ==> h.key.flow in s.flows
    ensures UdpInv(HandleHeader(s, h, verdict, now).0)
  {
    HousedObjects(s);
    RepeatHasFlow(s, h);
    hide UdpInv, RemoveObject, Answered, Admitted, DecideHeader, Touched, Accept;
    TouchedKeepsInv(s, h, now);
    AcceptKeepsInv(Touched(s, h, now), Duplicate(h.key));
  }

  lemma RefusedHeaderKeepsInv(s: Udp, h: Header, verdict: Verdict, now: nat)
    requires UdpInv(s) && (DecideHeader(s, h).Refuse? || DecideHeader(s, h).Drop?)
    ensures h.key in s.objects ==> h.key.flow in s.flows
    ensures UdpInv(HandleHeader(s, h, verdict, now).0)
  {
    HousedObjects(s);
    hide UdpInv, RemoveObject, Answered, Admitted, DecideHeader, RejectWith;
    if DecideHeader(s, h).Refuse? {
      RejectKeepsInv(s, DecideHeader(s, h).error);
    } else {
      RemoveKeepsInv(s, h.key);
      RejectKeepsInv(RemoveObject(s, h.key), ObjectDatagramLimitExceeded);
    }
  }

  lemma HandleHeaderKeepsInv(s: Udp, h: Header, verdict: Verdict, now: nat)
    requires UdpInv(s)
    ensures h.key in s.objects ==> h.key.flow in s.flows
    ensures UdpInv(HandleHeader(s, h, verdict, now).0)
  {
    hide UdpInv, HandleHeader, DecideHeader;
    match DecideHeader(s, h)
    case Feed => FedHeaderKeepsInv(s, h, verdict, now);
    case Repeat => RepeatedHeaderKeepsInv(s, h, verdict, now);
    case _ => RefusedHeaderKeepsInv(s, h, verdict, now);
  }

  lemma PushKeepsInv(s: Udp, d: Datagram, verdict: Verdict, now: nat)
    requires UdpInv(s)
    ensures forall k <- Received(ExpireIfDue(s, now)).objects :: k.flow in Received(ExpireIfDue(s, now)).flows
    ensures UdpInv(Push(s, d, verdict, now).0)
  {
    var s1 := Received(ExpireIfDue(s, now));
    ExpireIfDueKeepsInv(s, now);
    HousedObjects(s1);
    hide UdpInv, ExpireIfDue, HandleHeader;
    if Decide(s1, d).Refuse? {
      CountersKeepInv(s1, Reject(s1).counters, s1.nextExpiryScan);
    } else {
      HandleHeaderKeepsInv(s1, d.header.value, verdict, now);
    }
  }
}
