/** The UDP RaptorQ ingress as a state machine: flows, objects under assembly, the aggregate budgets and the
    counters, and what each datagram does to them.  Datagram parsing and decoding are inputs. */
module UdpSpec {
  import opened Collections
  import opened Prelude
  import opened Totals
  import opened UdpTracker

  datatype Config = Config(
    maxDatagramBytes: nat, maxObjectBytes: nat, maxBufferedObjectBytes: nat, maxFlows: nat, maxActiveObjects: nat,
    maxActiveObjectsPerFlow: nat, maxCompletedPerFlow: nat, maxDatagramsPerObject: nat, maxBufferedDatagrams: nat,
    maxTrackedGaps: nat, objectTimeout: nat, flowTimeout: nat, scanInterval: nat)

  datatype FlowKey = Unprefixed(peer: nat) | Stream(peer: nat, stream: nat)

  datatype ObjectKey = ObjectKey(flow: FlowKey, block: nat)

  datatype Flow = Flow(tracker: Tracker, active: nat, completedOrder: seq<nat>, completed: set<nat>, lastActivity: nat)

  datatype ObjectState = ObjectState(transferLength: nat, acceptedDatagrams: nat, lastActivity: nat)

  datatype Header = Header(key: ObjectKey, sequence: nat, transferLength: nat)

  /** A received datagram: its length and what the header parser makes of it. */
  datatype Datagram = Datagram(length: nat, header: Option<Header>)

  /** What the object's decoder answers: more symbols needed, the payload, or an error. */
  datatype Verdict = Incomplete | Complete | Broken

  datatype Error =
    | DatagramTooLarge
    | ObjectTooLarge
    | FlowLimitExceeded
    | ActiveObjectLimitExceeded
    | FlowObjectLimitExceeded
    | ObjectDatagramLimitExceeded
    | BufferedDatagramLimitExceeded
    | BufferedObjectBytesLimitExceeded
    | Fec

  datatype Outcome = Buffered(key: ObjectKey) | Decoded(key: ObjectKey) | Duplicate(key: ObjectKey)

  datatype Counters = Counters(
    received: nat, accepted: nat, rejected: nat, buffered: nat, duplicate: nat, decoded: nat, objectsExpired: nat,
    flowsExpired: nat, scans: nat)

  const NO_COUNTS: Counters := Counters(0, 0, 0, 0, 0, 0, 0, 0, 0)

  datatype Udp = Udp(
    config: Config,
    flows: map<FlowKey, Flow>,
    objects: map<ObjectKey, ObjectState>,
    bufferedObjectBytes: nat,
    bufferedDatagrams: nat,
    counters: Counters,
    nextExpiryScan: Option<nat>)

  function Fresh(config: Config): Udp {
    Udp(config, map[], map[], 0, 0, NO_COUNTS, None)
  }

  const TransferLength: ObjectState -> nat := (o: ObjectState) => o.transferLength
  const AcceptedDatagrams: ObjectState -> nat := (o: ObjectState) => o.acceptedDatagrams

  function NewFlow(now: nat): Flow {
    Flow(NEW_TRACKER, 0, [], {}, now)
  }

  function OfFlow(keys: set<ObjectKey>, f: FlowKey): set<ObjectKey> {
    set k | k in keys && k.flow == f
  }

  // ---------------------------------------------------------------- expiry

  function ScanInterval(config: Config): nat {
    Min(Min(config.scanInterval, config.objectTimeout), config.flowTimeout)
  }

  function StaleObjects(s: Udp, now: nat): set<ObjectKey> {
    set k | k in s.objects && SatSub(now, s.objects[k].lastActivity) >= s.config.objectTimeout
  }

  function Recounted(flows: map<FlowKey, Flow>, keys: set<ObjectKey>): map<FlowKey, Flow> {
    map f | f in flows :: flows[f].(active := |OfFlow(keys, f)|)
  }

  /** The objects in `gone` leave; counts and budgets are those of what remains. */
  ghost function Released(s: Udp, gone: set<ObjectKey>): Udp {
    var objects := s.objects - gone;
    s.(flows := Recounted(s.flows, objects.Keys),
       objects := objects,
       bufferedObjectBytes := Total(objects, TransferLength),
       bufferedDatagrams := Total(objects, AcceptedDatagrams))
  }

  function IdleFlows(flows: map<FlowKey, Flow>, config: Config, now: nat): set<FlowKey> {
    set f | f in flows && flows[f].active == 0 && SatSub(now, flows[f].lastActivity) >= config.flowTimeout
  }

  /** Stale objects first, then flows left without objects and idle for long enough. */
  ghost function Scan(s: Udp, now: nat): Udp {
    var stale := StaleObjects(s, now);
    var released := Released(s, stale);
    var idle := IdleFlows(released.flows, s.config, now);
    released.(flows := released.flows - idle,
              counters := s.counters.(scans := s.counters.scans + 1,
                                      objectsExpired := s.counters.objectsExpired + |stale|,
                                      flowsExpired := s.counters.flowsExpired + |idle|))
  }

  ghost function Expire(s: Udp, now: nat): Udp {
    Scan(s, now).(nextExpiryScan := Some(now + ScanInterval(s.config)))
  }

  ghost function ExpireIfDue(s: Udp, now: nat): Udp {
    if s.nextExpiryScan.Some? && now < s.nextExpiryScan.value then s else Expire(s, now)
  }

  // ---------------------------------------------------------------- one datagram

  /** Counters, configuration and schedule are untouched. */
  predicate SameRest(s: Udp, s': Udp) {
    s'.counters == s.counters && s'.config == s.config && s'.nextExpiryScan == s.nextExpiryScan
  }

  /** Only this flow may differ. */
  predicate SameOtherFlows(s: Udp, s': Udp, f: FlowKey) {
    forall g <- s.flows :: g != f ==> g in s'.flows && s'.flows[g] == s.flows[g]
  }

  /** What is decided before anything changes.  An object that used up its datagrams is dropped. */
  datatype Decision = Refuse(error: Error) | Drop | Repeat | Feed

  function Decide(s: Udp, d: Datagram): Decision {
    if d.length > s.config.maxDatagramBytes then Refuse(DatagramTooLarge)
    else if d.header.None? then Refuse(Fec)
    else DecideHeader(s, d.header.value)
  }

  function DecideHeader(s: Udp, h: Header): Decision {
    if h.transferLength > s.config.maxObjectBytes then Refuse(ObjectTooLarge)
    else if h.key.flow in s.flows && h.key.block in s.flows[h.key.flow].completed then Repeat
    else if s.bufferedDatagrams >= s.config.maxBufferedDatagrams then Refuse(BufferedDatagramLimitExceeded)
    else if h.key !in s.objects && s.config.maxDatagramsPerObject == 0 then Refuse(ObjectDatagramLimitExceeded)
    else if h.key in s.objects then
      if s.objects[h.key].acceptedDatagrams >= s.config.maxDatagramsPerObject then Drop else Feed
    else if h.key.flow !in s.flows && |s.flows| >= s.config.maxFlows then Refuse(FlowLimitExceeded)
    else if |s.objects| >= s.config.maxActiveObjects then Refuse(ActiveObjectLimitExceeded)
    else if ActiveIn(s, h.key.flow) >= s.config.maxActiveObjectsPerFlow then Refuse(FlowObjectLimitExceeded)
    else if s.bufferedObjectBytes + h.transferLength > s.config.maxBufferedObjectBytes then
      Refuse(BufferedObjectBytesLimitExceeded)
    else Feed
  }

  function ActiveIn(s: Udp, f: FlowKey): nat {
    if f in s.flows then s.flows[f].active else 0
  }

  function Reject(s: Udp): Udp {
    s.(counters := s.counters.(rejected := s.counters.rejected + 1))
  }

  /** The flow saw a packet of this object. */
  function Touched(s: Udp, h: Header, now: nat): (s': Udp)
    requires h.key.flow in s.flows
    ensures SameRest(s, s') && s'.objects == s.objects && h.key.flow in s'.flows
    ensures SameOtherFlows(s, s', h.key.flow)
  {
    var flow := s.flows[h.key.flow];
    s.(flows := s.flows[h.key.flow := flow.(
         tracker := Observe(flow.tracker, h.sequence, s.config.maxTrackedGaps), lastActivity := now)])
  }

  /** A new object, in a new flow if need be, with its bytes reserved. */
  function Reserved(s: Udp, h: Header, now: nat): (s': Udp)
    ensures SameRest(s, s') && h.key in s'.objects && h.key.flow in s'.flows
    ensures SameOtherFlows(s, s', h.key.flow)
  {
    var flow := if h.key.flow in s.flows then s.flows[h.key.flow] else NewFlow(now);
    s.(flows := s.flows[h.key.flow := flow.(active := flow.active + 1)],
       objects := s.objects[h.key := ObjectState(h.transferLength, 0, now)],
       bufferedObjectBytes := s.bufferedObjectBytes + h.transferLength)
  }

  /** One more datagram held by the object. */
  function Held(s: Udp, key: ObjectKey, now: nat): (s': Udp)
    requires key in s.objects
    ensures SameRest(s, s') && s'.flows == s.flows
  {
    var o := s.objects[key];
    s.(objects := s.objects[key := o.(acceptedDatagrams := o.acceptedDatagrams + 1, lastActivity := now)],
       bufferedDatagrams := s.bufferedDatagrams + 1)
  }

  function RemoveObject(s: Udp, key: ObjectKey): (s': Udp)
    ensures SameRest(s, s') && SameOtherFlows(s, s', key.flow) && s'.objects == s.objects - {key}
    ensures forall f :: f in s'.flows <==> f in s.flows
  {
    if key !in s.objects then s
    else
      var o := s.objects[key];
      s.(objects := s.objects - {key},
         bufferedObjectBytes := SatSub(s.bufferedObjectBytes, o.transferLength),
         bufferedDatagrams := SatSub(s.bufferedDatagrams, o.acceptedDatagrams),
         flows := if key.flow in s.flows
                  then s.flows[key.flow := s.flows[key.flow].(active := SatSub(s.flows[key.flow].active, 1))]
                  else s.flows)
  }

  function RemoveEmptyFlow(s: Udp, f: FlowKey): (s': Udp)
    ensures SameRest(s, s') && SameOtherFlows(s, s', f) && s'.objects == s.objects
  {
    if f in s.flows && s.flows[f].active == 0 && s.flows[f].completed == {} then s.(flows := s.flows - {f}) else s
  }

  function Blocks(order: seq<nat>): set<nat> {
    set b | b in order
  }

  /** The queue of completed blocks keeps the newest ones. */
  function MarkCompleted(flow: Flow, block: nat, limit: nat): Flow {
    if limit == 0 || block in flow.completed then flow
    else
      var order := LastOf(flow.completedOrder + [block], limit);
      flow.(completedOrder := order, completed := Blocks(order))
  }

  function Completed(s: Udp, key: ObjectKey): (s': Udp)
    requires key.flow in s.flows
    ensures SameRest(s, s') && SameOtherFlows(s, s', key.flow) && s'.objects == s.objects
  {
    s.(flows := s.flows[key.flow := MarkCompleted(s.flows[key.flow], key.block, s.config.maxCompletedPerFlow)])
  }

  /** The state when the object's decoder is consulted. */
  function Admitted(s: Udp, h: Header, now: nat): (s': Udp)
    requires h.key in s.objects ==> h.key.flow in s.flows
    ensures SameRest(s, s') && h.key.flow in s'.flows && h.key in s'.objects
    ensures SameOtherFlows(s, s', h.key.flow)
  {
    var reserved := if h.key in s.objects then s else Reserved(s, h, now);
    Held(Touched(reserved, h, now), h.key, now)
  }

  function CountAccepted(c: Counters, r: Outcome): Counters {
    match r
    case Buffered(_) => c.(accepted := c.accepted + 1, buffered := c.buffered + 1)
    case Decoded(_) => c.(accepted := c.accepted + 1, decoded := c.decoded + 1)
    case Duplicate(_) => c.(accepted := c.accepted + 1, duplicate := c.duplicate + 1)
  }

  function Accept(s: Udp, r: Outcome): (a: (Udp, Result<Outcome, Error>))
    ensures a.1 == Ok(r) && a.0.counters == CountAccepted(s.counters, r)
    ensures a.0 == s.(counters := a.0.counters)
  {
    (s.(counters := CountAccepted(s.counters, r)), Ok(r))
  }

  function RejectWith(s: Udp, e: Error): (a: (Udp, Result<Outcome, Error>))
    ensures a.1 == Err(e) && a.0.counters == s.counters.(rejected := s.counters.rejected + 1)
    ensures a.0 == s.(counters := a.0.counters)
  {
    (Reject(s), Err(e))
  }

  /** What the decoder's answer leads to; a broken datagram of a new flow takes the flow with it. */
  function Answered(s: Udp, key: ObjectKey, newFlow: bool, verdict: Verdict): (Udp, Result<Outcome, Error>)
    requires key.flow in s.flows
  {
    match verdict
    case Incomplete => Accept(s, Buffered(key))
    case Complete => Accept(Completed(RemoveObject(s, key), key), Decoded(key))
    case Broken =>
      var removed := RemoveObject(s, key);
      RejectWith(if newFlow then RemoveEmptyFlow(removed, key.flow) else removed, Fec)
  }

  function HandleHeader(s: Udp, h: Header, verdict: Verdict, now: nat): (Udp, Result<Outcome, Error>)
    requires h.key in s.objects ==> h.key.flow in s.flows
  {
    match DecideHeader(s, h)
    case Refuse(e) => RejectWith(s, e)
    case Drop => RejectWith(RemoveObject(s, h.key), ObjectDatagramLimitExceeded)
    case Repeat => Accept(Touched(s, h, now), Duplicate(h.key))
    case Feed => Answered(Admitted(s, h, now), h.key, h.key.flow !in s.flows, verdict)
  }

  function HandleDatagram(s: Udp, d: Datagram, verdict: Verdict, now: nat): (Udp, Result<Outcome, Error>)
    requires forall k <- s.objects :: k.flow in s.flows
  {
    match Decide(s, d)
    case Refuse(e) => RejectWith(s, e)
    case _ => HandleHeader(s, d.header.value, verdict, now)
  }

  function Received(s: Udp): Udp {
    s.(counters := s.counters.(received := s.counters.received + 1))
  }

  /** One datagram: due expiry first, then exactly one of accepted or rejected. */
  ghost function Push(s: Udp, d: Datagram, verdict: Verdict, now: nat): (Udp, Result<Outcome, Error>)
    requires forall k <- Received(ExpireIfDue(s, now)).objects :: k.flow in Received(ExpireIfDue(s, now)).flows
  {
    HandleDatagram(Received(ExpireIfDue(s, now)), d, verdict, now)
  }
}
