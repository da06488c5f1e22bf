/** Every answer of the UDP receiver with the condition it is given under, what an accepted datagram changes, and
    exactly what an inactivity scan removes; told by the fields and sums of the state. */
module UdpAnswers {
  import opened Collections
  import opened Prelude
  import opened Totals
  import opened UdpTracker
  import opened UdpSpec
  import opened UdpInvariants
  import opened UdpRuns

  // ---------------------------------------------------------------- expiry

  /** A scan removes exactly the objects inactive for the timeout and the flows then left without objects and
      inactive for theirs; whatever stays keeps its history. */
  lemma ScanExactly(s: Udp, now: nat)
    requires UdpInv(s)
    ensures
      var s' := Scan(s, now);
      && (forall k :: k in s'.objects <==>
            k in s.objects && SatSub(now, s.objects[k].lastActivity) < s.config.objectTimeout)
      && (forall k <- s'.objects :: s'.objects[k] == s.objects[k])
      && (forall f :: f in s'.flows <==>
            && f in s.flows
            && (HasObject(s'.objects.Keys, f) || SatSub(now, s.flows[f].lastActivity) < s.config.flowTimeout))
      && (forall f <- s'.flows :: s'.flows[f] == s.flows[f].(active := s'.flows[f].active))
  {
    hide UdpInv, Total;
    var objects := s.objects - StaleObjects(s, now);
    forall f <- s.flows
      ensures |OfFlow(objects.Keys, f)| == 0 <==> !HasObject(objects.Keys, f)
    {
      CountsItsObjects(objects.Keys, f);
    }
  }

  ghost predicate HasObject(keys: set<ObjectKey>, f: FlowKey) {
    exists k <- keys :: k.flow == f
  }

  lemma CountsItsObjects(keys: set<ObjectKey>, f: FlowKey)
    ensures |OfFlow(keys, f)| == 0 <==> !HasObject(keys, f)
  {
    if HasObject(keys, f) {
      var k :| k in keys && k.flow == f;
      assert k in OfFlow(keys, f);
    } else {
      assert OfFlow(keys, f) == {};
    }
  }

  /** A call scans first if no scan is scheduled or the scheduled one is due, and not otherwise. */
  lemma ScansWhenDue(s: Udp, now: nat)
    ensures s.nextExpiryScan.Some? && now < s.nextExpiryScan.value ==> ExpireIfDue(s, now) == s
    ensures s.nextExpiryScan.None? || now >= s.nextExpiryScan.value ==>
              && ExpireIfDue(s, now).objects == Scan(s, now).objects
              && ExpireIfDue(s, now).flows == Scan(s, now).flows
              && ExpireIfDue(s, now).nextExpiryScan
                 == Some(now + Min(s.config.scanInterval, Min(s.config.objectTimeout, s.config.flowTimeout)))
  {
    hide Scan;
  }

  // ---------------------------------------------------------------- answers

  /** Parsed, and of acceptable length and object size. */
  predicate Sized(s: Udp, d: Datagram) {
    && d.length <= s.config.maxDatagramBytes
    && d.header.Some? && d.header.value.transferLength <= s.config.maxObjectBytes
  }

  predicate Remembered(s: Udp, h: Header) {
    h.key.flow in s.flows && h.key.block in s.flows[h.key.flow].completedOrder
  }

  /** The object may take one more datagram. */
  predicate ObjectHasRoom(s: Udp, h: Header) {
    (if h.key in s.objects then s.objects[h.key].acceptedDatagrams else 0) < s.config.maxDatagramsPerObject
  }

  predicate FlowHasRoom(s: Udp, h: Header) {
    h.key in s.objects || h.key.flow in s.flows || |s.flows| < s.config.maxFlows
  }

  predicate TableHasRoom(s: Udp, h: Header) {
    h.key in s.objects || |s.objects| < s.config.maxActiveObjects
  }

  predicate ShareHasRoom(s: Udp, h: Header) {
    || h.key in s.objects
    || (if h.key.flow in s.flows then |OfFlow(s.objects.Keys, h.key.flow)| else 0) < s.config.maxActiveObjectsPerFlow
  }

  ghost predicate BytesHaveRoom(s: Udp, h: Header) {
    h.key in s.objects || Total(s.objects, TransferLength) + h.transferLength <= s.config.maxBufferedObjectBytes
  }

  ghost predicate BufferHasRoom(s: Udp) {
    Total(s.objects, AcceptedDatagrams) < s.config.maxBufferedDatagrams
  }

  ghost predicate Acceptable(s: Udp, h: Header) {
    && BufferHasRoom(s) && ObjectHasRoom(s, h) && FlowHasRoom(s, h) && TableHasRoom(s, h) && ShareHasRoom(s, h)
    && BytesHaveRoom(s, h)
  }

  lemma CachesAreExact(s: Udp, h: Header)
    requires UdpInv(s)
    ensures s.bufferedDatagrams == Total(s.objects, AcceptedDatagrams)
    ensures s.bufferedObjectBytes == Total(s.objects, TransferLength)
    ensures h.key.flow in s.flows ==>
              && s.flows[h.key.flow].active == |OfFlow(s.objects.Keys, h.key.flow)|
              && (h.key.block in s.flows[h.key.flow].completed <==> h.key.block in s.flows[h.key.flow].completedOrder)
    ensures h.key in s.objects ==> h.key.flow in s.flows && h.key.block !in s.flows[h.key.flow].completed
  {
    if h.key.flow in s.flows {
      assert FlowOk(s.config, s.flows[h.key.flow]);
    }
  }

  /** The limits are checked in this order, and the first one that fails is the answer. */
  lemma DecisionExactly(s: Udp, h: Header)
    requires UdpInv(s) && h.transferLength <= s.config.maxObjectBytes
    ensures
      var decision := DecideHeader(s, h);
      && (decision == Repeat <==> Remembered(s, h))
      && (decision == Feed <==> !Remembered(s, h) && Acceptable(s, h))
      && (decision == Refuse(BufferedDatagramLimitExceeded) <==> !Remembered(s, h) && !BufferHasRoom(s))
      && (decision == Refuse(ObjectDatagramLimitExceeded) || decision == Drop <==>
            !Remembered(s, h) && BufferHasRoom(s) && !ObjectHasRoom(s, h))
      && (decision == Refuse(FlowLimitExceeded) <==>
            !Remembered(s, h) && BufferHasRoom(s) && ObjectHasRoom(s, h) && !FlowHasRoom(s, h))
      && (decision == Refuse(ActiveObjectLimitExceeded) <==>
            && !Remembered(s, h) && BufferHasRoom(s) && ObjectHasRoom(s, h) && FlowHasRoom(s, h)
            && !TableHasRoom(s, h))
      && (decision == Refuse(FlowObjectLimitExceeded) <==>
            && !Remembered(s, h) && BufferHasRoom(s) && ObjectHasRoom(s, h) && FlowHasRoom(s, h) && TableHasRoom(s, h)
            && !ShareHasRoom(s, h))
      && (decision == Refuse(BufferedObjectBytesLimitExceeded) <==>
            && !Remembered(s, h) && BufferHasRoom(s) && ObjectHasRoom(s, h) && FlowHasRoom(s, h) && TableHasRoom(s, h)
            && ShareHasRoom(s, h) && !BytesHaveRoom(s, h))
      && (decision == Drop ==> h.key in s.objects)
  {
    CachesAreExact(s, h);
    hide UdpInv, Total, OfFlow;
  }

  /** What the receiver answers once due expiry is over. */
  lemma PushAnswers(s: Udp, d: Datagram, verdict: Verdict, now: nat)
    requires UdpInv(s)
    ensures forall k <- s.objects :: k.flow in s.flows
    ensures
      var r := HandleDatagram(s, d, verdict, now).1;
      && (r == Err(DatagramTooLarge) <==> d.length > s.config.maxDatagramBytes)
      && (r == Err(ObjectTooLarge) <==>
            && d.length <= s.config.maxDatagramBytes
            && d.header.Some? && d.header.value.transferLength > s.config.maxObjectBytes)
      && (r == Err(Fec) <==>
            || (d.length <= s.config.maxDatagramBytes && d.header.None?)
            || (Sized(s, d) && !Remembered(s, d.header.value) && Acceptable(s, d.header.value) && verdict == Broken))
      && (Sized(s, d) ==>
            var h := d.header.value;
            && (r == Ok(Duplicate(h.key)) <==> Remembered(s, h))
            && (r == Ok(Buffered(h.key)) <==> !Remembered(s, h) && Acceptable(s, h) && verdict == Incomplete)
            && (r == Ok(Decoded(h.key)) <==> !Remembered(s, h) && Acceptable(s, h) && verdict == Complete)
            && (r == Err(BufferedDatagramLimitExceeded) <==> !Remembered(s, h) && !BufferHasRoom(s))
            && (r == Err(ObjectDatagramLimitExceeded) <==>
                  !Remembered(s, h) && BufferHasRoom(s) && !ObjectHasRoom(s, h))
            && (r in {Err(FlowLimitExceeded), Err(ActiveObjectLimitExceeded), Err(FlowObjectLimitExceeded),
                      Err(BufferedObjectBytesLimitExceeded)} <==>
                  !Remembered(s, h) && BufferHasRoom(s) && ObjectHasRoom(s, h) && !Acceptable(s, h)))
      && (r.Ok? ==> Sized(s, d))
  {
    HousedObjects(s);
    if Sized(s, d) {
      DecisionExactly(s, d.header.value);
      AnswerOfDecision(s, d.header.value, verdict, now);
    }
    hide UdpInv, DecideHeader, HandleHeader, Remembered, Acceptable, BufferHasRoom, ObjectHasRoom;
  }

  /** The answer is settled by the decision and the decoder's verdict. */
  lemma AnswerOfDecision(s: Udp, h: Header, verdict: Verdict, now: nat)
    requires h.key in s.objects ==> h.key.flow in s.flows
    ensures HandleHeader(s, h, verdict, now).1
         == match DecideHeader(s, h)
            case Refuse(e) => Err(e)
            case Drop => Err(ObjectDatagramLimitExceeded)
            case Repeat => Ok(Duplicate(h.key))
            case Feed =>
              if verdict == Incomplete then Ok(Buffered(h.key))
              else if verdict == Complete then Ok(Decoded(h.key)) else Err(Fec)
    ensures DecideHeader(s, h).Refuse? ==>
              || DecideHeader(s, h).error !in {DatagramTooLarge, ObjectTooLarge, Fec}
              || h.transferLength > s.config.maxObjectBytes
  {
    RepeatHasFlow(s, h);
    hide Touched, Admitted, RemoveObject, RemoveEmptyFlow, Completed, CountAccepted, SameOtherFlows;
  }

  // ---------------------------------------------------------------- what an accepted datagram changes

  /** The flow before the datagram, or the one it opens. */
  function FlowBefore(s: Udp, f: FlowKey): Flow {
    if f in s.flows then s.flows[f] else Flow(NEW_TRACKER, 0, [], {}, 0)
  }

  /** A datagram for an incomplete object: the object counts one datagram more and is active now, its flow has seen
      the packet, and nothing else moves. */
  lemma BufferedExactly(s: Udp, d: Datagram, verdict: Verdict, now: nat)
    requires UdpInv(s) && d.header.Some? && HandleDatagram.requires(s, d, verdict, now)
    requires HandleDatagram(s, d, verdict, now).1 == Ok(Buffered(d.header.value.key))
    ensures
      var h := d.header.value;
      var (s', flow) := (HandleDatagram(s, d, verdict, now).0, FlowBefore(s, d.header.value.key.flow));
      && h.key in s'.objects && h.key.flow in s'.flows
      && s'.objects == s.objects[h.key := s'.objects[h.key]] && s'.flows == s.flows[h.key.flow := s'.flows[h.key.flow]]
      && s'.objects[h.key]
         == (if h.key in s.objects
             then ObjectState(s.objects[h.key].transferLength, s.objects[h.key].acceptedDatagrams + 1, now)
             else ObjectState(h.transferLength, 1, now))
      && s'.flows[h.key.flow].tracker == Observe(flow.tracker, h.sequence, s.config.maxTrackedGaps)
      && s'.flows[h.key.flow].lastActivity == now
      && s'.flows[h.key.flow].completedOrder == flow.completedOrder
  {
    var h := d.header.value;
    HandleFedIs(s, d, verdict, now);
    hide UdpInv, HandleDatagram, Observe, DecideHeader, Admitted;
    AdmittedExactly(s, h, now);
  }

  /** The state in which the decoder is consulted. */
  lemma AdmittedExactly(s: Udp, h: Header, now: nat)
    requires h.key in s.objects ==> h.key.flow in s.flows
    ensures
      var (s', flow) := (Admitted(s, h, now), FlowBefore(s, h.key.flow));
      && s'.config == s.config && s'.objects == s.objects[h.key := s'.objects[h.key]]
      && s'.flows == s.flows[h.key.flow := s'.flows[h.key.flow]]
      && s'.objects[h.key]
         == (if h.key in s.objects
             then ObjectState(s.objects[h.key].transferLength, s.objects[h.key].acceptedDatagrams + 1, now)
             else ObjectState(h.transferLength, 1, now))
      && s'.flows[h.key.flow].tracker == Observe(flow.tracker, h.sequence, s.config.maxTrackedGaps)
      && s'.flows[h.key.flow].lastActivity == now
      && s'.flows[h.key.flow].completedOrder == flow.completedOrder
  {
    hide Observe;
  }

  lemma HandleFedIs(s: Udp, d: Datagram, verdict: Verdict, now: nat)
    requires UdpInv(s) && d.header.Some? && HandleDatagram.requires(s, d, verdict, now)
    requires HandleDatagram(s, d, verdict, now).1.Ok? && !HandleDatagram(s, d, verdict, now).1.value.Duplicate?
    ensures d.header.value.key in s.objects ==> d.header.value.key.flow in s.flows
    ensures
      var h := d.header.value;
      HandleDatagram(s, d, verdict, now) == Answered(Admitted(s, h, now), h.key, h.key.flow !in s.flows, verdict)
  {
    HousedObjects(s);
    if d.header.value.transferLength <= s.config.maxObjectBytes {
      AnswerOfDecision(s, d.header.value, verdict, now);
    }
    hide UdpInv, Touched, Admitted, RemoveObject, Answered, SameOtherFlows, SameRest;
  }

  /** A datagram that completes its block: the object is gone, its flow has seen the packet and is active now, no other
      object moves and no other flow. */
  lemma DecodedExactly(s: Udp, d: Datagram, verdict: Verdict, now: nat)
    requires UdpInv(s) && d.header.Some? && HandleDatagram.requires(s, d, verdict, now)
    requires HandleDatagram(s, d, verdict, now).1 == Ok(Decoded(d.header.value.key))
    ensures
      var h := d.header.value;
      var (s', flow) := (HandleDatagram(s, d, verdict, now).0, FlowBefore(s, d.header.value.key.flow));
      && s'.objects == s.objects - {h.key} && h.key.flow in s'.flows
      && s'.flows == s.flows[h.key.flow := s'.flows[h.key.flow]]
      && s'.flows[h.key.flow].tracker == Observe(flow.tracker, h.sequence, s.config.maxTrackedGaps)
      && s'.flows[h.key.flow].lastActivity == now
  {
    var h := d.header.value;
    HandleFedIs(s, d, verdict, now);
    hide UdpInv, HandleDatagram, Observe, DecideHeader, Admitted, Answered;
    AdmittedExactly(s, h, now);
    var admitted := Admitted(s, h, now);
    CompletionExactly(admitted, h.key, h.key.flow !in s.flows, verdict);
    var s' := HandleDatagram(s, d, verdict, now).0;
    PutThenDrop(s.objects, h.key, admitted.objects[h.key]);
    PutTwice(s.flows, h.key.flow, admitted.flows[h.key.flow], s'.flows[h.key.flow]);
  }

  lemma CompletionExactly(s: Udp, key: ObjectKey, newFlow: bool, verdict: Verdict)
    requires key.flow in s.flows && Answered(s, key, newFlow, verdict).1 == Ok(Decoded(key))
    ensures
      var s' := Answered(s, key, newFlow, verdict).0;
      && s'.objects == s.objects - {key} && key.flow in s'.flows
      && s'.flows == s.flows[key.flow := s'.flows[key.flow]]
      && s'.flows[key.flow].tracker == s.flows[key.flow].tracker
      && s'.flows[key.flow].lastActivity == s.flows[key.flow].lastActivity
  {
    hide Blocks;
  }

  /** A rejection removes the object of a broken datagram, or one that used up its datagrams, and no other object. */
  lemma RejectedExactly(s: Udp, d: Datagram, verdict: Verdict, now: nat)
    requires UdpInv(s) && HandleDatagram.requires(s, d, verdict, now)
    requires HandleDatagram(s, d, verdict, now).1.Err?
    ensures
      var (s', r) := HandleDatagram(s, d, verdict, now);
      if Sized(s, d) && r.error in {Fec, ObjectDatagramLimitExceeded} then s'.objects == s.objects - {d.header.value.key}
      else s'.objects == s.objects && s'.flows == s.flows
  {
    HousedObjects(s);
    hide UdpInv, RemoveObject, RemoveEmptyFlow, Answered, Admitted, Completed, HandleHeader, DecideHeader;
    if Sized(s, d) {
      RejectedHeader(s, d.header.value, verdict, now);
    } else if d.header.Some? && d.length <= s.config.maxDatagramBytes {
      OversizedHeader(s, d.header.value, verdict, now);
    }
  }

  lemma OversizedHeader(s: Udp, h: Header, verdict: Verdict, now: nat)
    requires h.key in s.objects ==> h.key.flow in s.flows
    requires h.transferLength > s.config.maxObjectBytes
    ensures HandleHeader(s, h, verdict, now) == RejectWith(s, ObjectTooLarge)
  {}

  lemma RejectedHeader(s: Udp, h: Header, verdict: Verdict, now: nat)
    requires UdpInv(s) && h.transferLength <= s.config.maxObjectBytes
    requires h.key in s.objects ==> h.key.flow in s.flows
    requires HandleHeader(s, h, verdict, now).1.Err?
    ensures
      var (s', r) := HandleHeader(s, h, verdict, now);
      if r.error in {Fec, ObjectDatagramLimitExceeded} then s'.objects == s.objects - {h.key}
      else s'.objects == s.objects && s'.flows == s.flows
  {
    hide UdpInv, DecideHeader, Admitted, Answered, Total;
    DecisionExactly(s, h);
    RefusalIsNotFec(s, h);
    match DecideHeader(s, h)
    case Feed =>
      AdmittedExactly(s, h, now);
      var admitted := Admitted(s, h, now);
      BrokenExactly(admitted, h.key, h.key.flow !in s.flows, verdict);
      PutThenDrop(s.objects, h.key, admitted.objects[h.key]);
    case Repeat =>
    case Drop =>
    case Refuse(e) =>
      if e == ObjectDatagramLimitExceeded {
        NothingToDrop(s, h);
      }
  }

  lemma RefusalIsNotFec(s: Udp, h: Header)
    ensures DecideHeader(s, h) != Refuse(Fec)
  {}

  lemma NothingToDrop(s: Udp, h: Header)
    requires DecideHeader(s, h) == Refuse(ObjectDatagramLimitExceeded)
    ensures s.objects - {h.key} == s.objects
  {}

  lemma BrokenExactly(s: Udp, key: ObjectKey, newFlow: bool, verdict: Verdict)
    requires key.flow in s.flows && Answered(s, key, newFlow, verdict).1.Err?
    ensures Answered(s, key, newFlow, verdict).1 == Err(Fec)
    ensures Answered(s, key, newFlow, verdict).0.objects == s.objects - {key}
  {}

  /** A repeated datagram is only seen by its flow. */
  lemma DuplicateExactly(s: Udp, d: Datagram, verdict: Verdict, now: nat)
    requires UdpInv(s) && d.header.Some? && HandleDatagram.requires(s, d, verdict, now)
    requires HandleDatagram(s, d, verdict, now).1 == Ok(Duplicate(d.header.value.key))
    ensures
      var h, s' := d.header.value, HandleDatagram(s, d, verdict, now).0;
      && h.key.flow in s.flows && s'.objects == s.objects
      && s'.flows == s.flows[h.key.flow := s.flows[h.key.flow].(
           tracker := Observe(s.flows[h.key.flow].tracker, h.sequence, s.config.maxTrackedGaps), lastActivity := now)]
  {
    HousedObjects(s);
    RepeatHasFlow(s, d.header.value);
    if d.header.value.transferLength <= s.config.maxObjectBytes {
      AnswerOfDecision(s, d.header.value, verdict, now);
    }
    hide UdpInv, Observe, Admitted, RemoveObject, Answered;
  }
}
