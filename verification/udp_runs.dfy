/** Any run of the UDP receiver: agreement of flows, objects and budgets; the datagram ledger; what a
    rejection leaves behind; and how stale an object can get between amortised scans. */
module UdpRuns {
  import opened Collections
  import opened Prelude
  import opened Totals
  import opened UdpTracker
  import opened UdpSpec
  import opened UdpInvariants

  datatype Op = Arrive(datagram: Datagram, verdict: Verdict, now: nat) | Sweep(now: nat)

  ghost function Step(s: Udp, op: Op): Udp
    requires UdpInv(s)
  {
    match op
    case Arrive(d, verdict, now) => PushKeepsInv(s, d, verdict, now); Push(s, d, verdict, now).0
    case Sweep(now) => Expire(s, now)
  }

  lemma StepKeepsInv(s: Udp, op: Op)
    requires UdpInv(s)
    ensures UdpInv(Step(s, op))
  {
    hide UdpInv, Push, Scan;
    match op
    case Arrive(d, verdict, now) => PushKeepsInv(s, d, verdict, now);
    case Sweep(now) =>
      ScanKeepsInv(s, now);
      CountersKeepInv(Scan(s, now), Scan(s, now).counters, Some(now + ScanInterval(s.config)));
  }

  /** The state after the first `n` calls on a new receiver.  That the invariant holds in it is what makes
      the next call defined. */
  ghost function StateAt(config: Config, ops: seq<Op>, n: nat): (s: Udp)
    requires n <= |ops|
    ensures UdpInv(s)
  {
    if n == 0 then FreshInv(config); Fresh(config)
    else
      var before := StateAt(config, ops, n - 1);
      StepKeepsInv(before, ops[n - 1]);
      Step(before, ops[n - 1])
  }

  /** In every reachable state flows, objects, completed blocks and budgets agree and the ceilings hold. */
  lemma RunKeepsInv(config: Config, ops: seq<Op>, n: nat)
    requires n <= |ops|
    ensures
      var s := StateAt(config, ops, n);
      && s.config == config
      && (forall k <- s.objects :: k.flow in s.flows && k.block !in s.flows[k.flow].completed)
      && (forall f <- s.flows :: s.flows[f].active == |OfFlow(s.objects.Keys, f)| <= config.maxActiveObjectsPerFlow)
      && (forall f <- s.flows :: s.flows[f].completed == Blocks(s.flows[f].completedOrder)
                                 && Distinct(s.flows[f].completedOrder)
                                 && |s.flows[f].completedOrder| <= config.maxCompletedPerFlow
                                 && |s.flows[f].tracker.missing| <= config.maxTrackedGaps)
      && s.bufferedObjectBytes == Total(s.objects, TransferLength) <= config.maxBufferedObjectBytes
      && s.bufferedDatagrams == Total(s.objects, AcceptedDatagrams) <= config.maxBufferedDatagrams
      && |s.flows| <= config.maxFlows && |s.objects| <= config.maxActiveObjects
  {
    var s := StateAt(config, ops, n);
    ConfigConstant(config, ops, n);
    hide StateAt;
    forall f <- s.flows
      ensures FlowOk(config, s.flows[f])
    {}
  }

  lemma {:induction false} ConfigConstant(config: Config, ops: seq<Op>, n: nat)
    requires n <= |ops|
    ensures StateAt(config, ops, n).config == config
  {
    hide UdpInv, Step;
    if n > 0 {
      ConfigConstant(config, ops, n - 1);
      StepKeepsConfig(StateAt(config, ops, n - 1), ops[n - 1]);
    }
  }

  lemma StepKeepsConfig(s: Udp, op: Op)
    requires UdpInv(s)
    ensures Step(s, op).config == s.config
  {
    hide UdpInv, ExpireIfDue, Expire, HandleDatagram;
    match op
    case Arrive(d, verdict, now) =>
      ExpireConfig(s, now);
      ExpireIfDueKeepsInv(s, now);
      HandleTouches(Received(ExpireIfDue(s, now)), d, verdict, now);
    case Sweep(now) => ExpireConfig(s, now);
  }

  lemma ExpireConfig(s: Udp, now: nat)
    ensures Expire(s, now).config == s.config && ExpireIfDue(s, now).config == s.config
  {
    hide Released, StaleObjects, IdleFlows;
    ReleasedCounts(s, StaleObjects(s, now));
  }

  /** What makes every lookup of an object's flow succeed and every subtraction exact. */
  lemma EveryLookupSucceeds(config: Config, ops: seq<Op>, n: nat, key: ObjectKey)
    requires n <= |ops| && key in StateAt(config, ops, n).objects
    ensures
      var s := StateAt(config, ops, n);
      && key.flow in s.flows
      && s.flows[key.flow].active == |OfFlow(s.objects.Keys, key.flow)| > 0
      && s.objects[key].transferLength <= s.bufferedObjectBytes
      && s.objects[key].acceptedDatagrams <= s.bufferedDatagrams
  {
    var s := StateAt(config, ops, n);
    hide StateAt;
    TotalRemove(s.objects, TransferLength, key);
    TotalRemove(s.objects, AcceptedDatagrams, key);
    assert key in OfFlow(s.objects.Keys, key.flow);
  }

  // ---------------------------------------------------------------- the ledger

  predicate Ledger(c: Counters) {
    c.received == c.accepted + c.rejected && c.accepted == c.buffered + c.duplicate + c.decoded
  }

  predicate SamePackets(c: Counters, c': Counters) {
    && c'.received == c.received && c'.accepted == c.accepted && c'.rejected == c.rejected
    && c'.buffered == c.buffered && c'.duplicate == c.duplicate && c'.decoded == c.decoded
  }

  lemma ExpireCounts(s: Udp, now: nat)
    ensures SamePackets(s.counters, ExpireIfDue(s, now).counters) && SamePackets(s.counters, Expire(s, now).counters)
  {
    hide Released, StaleObjects, IdleFlows;
    ReleasedCounts(s, StaleObjects(s, now));
  }

  lemma ReleasedCounts(s: Udp, gone: set<ObjectKey>)
    ensures Released(s, gone).counters == s.counters && Released(s, gone).config == s.config
    ensures Released(s, gone).objects == s.objects - gone
  {}

  /** One more accepted or one more rejected, according to the answer. */
  predicate Counted(s: Udp, a: (Udp, Result<Outcome, Error>)) {
    a.0.counters == (if a.1.Ok? then CountAccepted(s.counters, a.1.value)
                     else s.counters.(rejected := s.counters.rejected + 1))
  }

  lemma AnsweredCounts(s: Udp, key: ObjectKey, newFlow: bool, verdict: Verdict)
    requires key.flow in s.flows
    ensures Counted(s, Answered(s, key, newFlow, verdict))
  {
    hide CountAccepted, Completed, RemoveObject, RemoveEmptyFlow, Accept, RejectWith;
  }

  lemma HandleFeed(s: Udp, d: Datagram, verdict: Verdict, now: nat)
    requires UdpInv(s) && Decide(s, d).Feed?
    ensures d.header.Some? && forall k <- s.objects :: k.flow in s.flows
    ensures
      var h := d.header.value;
      HandleDatagram(s, d, verdict, now) == Answered(Admitted(s, h, now), h.key, h.key.flow !in s.flows, verdict)
  {
    HousedObjects(s);
    hide UdpInv, DecideHeader, RemoveObject, Admitted, Answered, Touched, Accept, RejectWith, SameRest, SameOtherFlows;
  }

  lemma HandleRepeat(s: Udp, d: Datagram, verdict: Verdict, now: nat)
    requires UdpInv(s) && Decide(s, d).Repeat?
    ensures forall k <- s.objects :: k.flow in s.flows
    ensures d.header.Some? && d.header.value.key.flow in s.flows
    ensures HandleDatagram(s, d, verdict, now)
         == Accept(Touched(s, d.header.value, now), Duplicate(d.header.value.key))
  {
    HousedObjects(s);
    if d.header.Some? {
      RepeatHasFlow(s, d.header.value);
    }
    hide UdpInv, DecideHeader, RemoveObject, Admitted, Answered, Touched, Accept, RejectWith, SameRest, SameOtherFlows;
  }

  lemma HandleRefused(s: Udp, d: Datagram, verdict: Verdict, now: nat)
    requires UdpInv(s) && (Decide(s, d).Refuse? || Decide(s, d).Drop?)
    ensures forall k <- s.objects :: k.flow in s.flows
    ensures Decide(s, d).Refuse? ==> HandleDatagram(s, d, verdict, now) == RejectWith(s, Decide(s, d).error)
    ensures Decide(s, d).Drop? ==>
              && d.header.Some?
              && HandleDatagram(s, d, verdict, now)
                 == RejectWith(RemoveObject(s, d.header.value.key), ObjectDatagramLimitExceeded)
  {
    HousedObjects(s);
    hide UdpInv, DecideHeader, RemoveObject, Admitted, Answered, Touched, Accept, RejectWith, SameRest, SameOtherFlows;
  }

  lemma HandleCounts(s: Udp, d: Datagram, verdict: Verdict, now: nat)
    requires UdpInv(s)
    ensures forall k <- s.objects :: k.flow in s.flows
    ensures Counted(s, HandleDatagram(s, d, verdict, now))
  {
    hide HandleDatagram, UdpInv, CountAccepted, RemoveObject, Admitted, Answered, Touched, Accept, RejectWith, Decide,
      SameOtherFlows;
    match Decide(s, d)
    case Feed =>
      HandleFeed(s, d, verdict, now);
      var h := d.header.value;
      AnsweredCounts(Admitted(s, h, now), h.key, h.key.flow !in s.flows, verdict);
    case Repeat => HandleRepeat(s, d, verdict, now);
    case _ => HandleRefused(s, d, verdict, now);
  }

  lemma PushBalances(s: Udp, d: Datagram, verdict: Verdict, now: nat)
    requires UdpInv(s) && Ledger(s.counters)
    ensures UdpInv(Received(ExpireIfDue(s, now)))
    ensures forall k <- Received(ExpireIfDue(s, now)).objects :: k.flow in Received(ExpireIfDue(s, now)).flows
    ensures Ledger(Push(s, d, verdict, now).0.counters)
  {
    hide UdpInv, ExpireIfDue, HandleDatagram;
    ExpireCounts(s, now);
    ExpireIfDueKeepsInv(s, now);
    HandleCounts(Received(ExpireIfDue(s, now)), d, verdict, now);
  }

  lemma StepBalances(s: Udp, op: Op)
    requires UdpInv(s) && Ledger(s.counters)
    ensures Ledger(Step(s, op).counters)
  {
    hide UdpInv, Expire, Push, Ledger;
    match op
    case Arrive(d, verdict, now) => PushBalances(s, d, verdict, now);
    case Sweep(now) => SweepBalances(s, now);
  }

  lemma SweepBalances(s: Udp, now: nat)
    requires Ledger(s.counters)
    ensures Ledger(Expire(s, now).counters)
  {
    hide Expire;
    ExpireCounts(s, now);
  }

  /** Received datagrams are accepted or rejected; accepted ones were buffered, duplicates or decoded. */
  lemma {:induction false} DatagramLedger(config: Config, ops: seq<Op>, n: nat)
    requires n <= |ops|
    ensures
      var c := StateAt(config, ops, n).counters;
      c.received == c.accepted + c.rejected && c.accepted == c.buffered + c.duplicate + c.decoded
  {
    hide UdpInv, Step;
    if n > 0 {
      DatagramLedger(config, ops, n - 1);
      StepBalances(StateAt(config, ops, n - 1), ops[n - 1]);
    }
  }

  // ---------------------------------------------------------------- rejections

  predicate NothingNew(s: Udp, s': Udp) {
    && s'.flows.Keys <= s.flows.Keys
    && s'.objects.Keys <= s.objects.Keys
    && forall k <- s'.objects :: s'.objects[k] == s.objects[k]
  }

  predicate OthersUntouched(s: Udp, s': Udp, key: ObjectKey) {
    && SameOtherFlows(s, s', key.flow)
    && forall k <- s.objects :: k != key ==> k in s'.objects
  }

  predicate NothingChanged(s: Udp, s': Udp) {
    && s'.flows == s.flows && s'.objects == s.objects
    && s'.bufferedObjectBytes == s.bufferedObjectBytes && s'.bufferedDatagrams == s.bufferedDatagrams
  }

  /** A rejected datagram leaves no new flow or object behind and touches no other flow or object; unless
      its object was dropped or its decoder broke, it changes nothing at all. */
  lemma RejectionLeavesNothing(s: Udp, d: Datagram, verdict: Verdict, now: nat)
    requires UdpInv(s)
    ensures forall k <- s.objects :: k.flow in s.flows
    ensures
      var (s', r) := HandleDatagram(s, d, verdict, now);
      r.Err? ==>
        && NothingNew(s, s')
        && (d.header.Some? ==> OthersUntouched(s, s', d.header.value.key))
        && (Decide(s, d).Refuse? ==> NothingChanged(s, s'))
  {
    hide HandleDatagram, UdpInv, CountAccepted, RemoveObject, Admitted, Answered, Touched, Accept, RejectWith,
      NothingNew, OthersUntouched, NothingChanged, SameOtherFlows, Decide, DecideHeader;
    match Decide(s, d)
    case Feed =>
      HandleFeed(s, d, verdict, now);
      var h := d.header.value;
      if verdict.Broken? {
        FeedDecision(s, d);
        BrokenLeavesNothing(s, h, now);
      } else {
        AnsweredOk(Admitted(s, h, now), h.key, h.key.flow !in s.flows, verdict);
      }
    case Repeat => HandleRepeat(s, d, verdict, now);
    case Refuse(e) =>
      HandleRefused(s, d, verdict, now);
      RejectedAsIs(s, s, e);
      NothingLost(s);
    case Drop =>
      HandleRefused(s, d, verdict, now);
      DroppedLeavesNothing(s, d.header.value.key);
  }

  lemma FeedDecision(s: Udp, d: Datagram)
    requires Decide(s, d).Feed?
    ensures d.header.Some? && DecideHeader(s, d.header.value).Feed?
  {}

  /** Rejecting only counts. */
  lemma RejectedAsIs(s: Udp, left: Udp, e: Error)
    ensures NothingNew(s, left) ==> NothingNew(s, RejectWith(left, e).0)
    ensures NothingChanged(s, left) ==> NothingChanged(s, RejectWith(left, e).0)
    ensures forall key :: OthersUntouched(s, left, key) ==> OthersUntouched(s, RejectWith(left, e).0, key)
  {}

  lemma NothingLost(s: Udp)
    ensures NothingNew(s, s) && NothingChanged(s, s) && forall key :: OthersUntouched(s, s, key)
  {}

  lemma DroppedLeavesNothing(s: Udp, key: ObjectKey)
    ensures
      var s' := RejectWith(RemoveObject(s, key), ObjectDatagramLimitExceeded).0;
      NothingNew(s, s') && OthersUntouched(s, s', key)
  {
    hide RemoveObject;
    RejectedAsIs(s, RemoveObject(s, key), ObjectDatagramLimitExceeded);
  }

  lemma AnsweredOk(s: Udp, key: ObjectKey, newFlow: bool, verdict: Verdict)
    requires key.flow in s.flows
    ensures Answered(s, key, newFlow, verdict).1.Ok? <==> !verdict.Broken?
  {}

  lemma BrokenLeavesNothing(s: Udp, h: Header, now: nat)
    requires UdpInv(s) && DecideHeader(s, h).Feed?
    ensures h.key in s.objects ==> h.key.flow in s.flows
    ensures
      var s' := Answered(Admitted(s, h, now), h.key, h.key.flow !in s.flows, Broken).0;
      NothingNew(s, s') && OthersUntouched(s, s', h.key)
  {
    HousedObjects(s);
    hide UdpInv, DecideHeader, Admitted, Answered, RemoveObject, RemoveEmptyFlow, RejectWith, NothingNew, OthersUntouched,
      SameOtherFlows, SameRest, Completed, Accept, Discarded;
    AdmittedParts(s, h, now);
    var admitted := Admitted(s, h, now);
    var left := Discarded(admitted, h.key, h.key.flow !in s.flows);
    DiscardLeavesNothing(s, admitted, h.key);
    BrokenDiscards(admitted, h.key, h.key.flow !in s.flows);
    RejectedAsIs(s, left, Fec);
  }

  lemma BrokenDiscards(s: Udp, key: ObjectKey, newFlow: bool)
    requires key.flow in s.flows
    ensures Answered(s, key, newFlow, Broken) == RejectWith(Discarded(s, key, newFlow), Fec)
  {
    hide RemoveObject, RemoveEmptyFlow, RejectWith;
  }

  function Discarded(s: Udp, key: ObjectKey, newFlow: bool): Udp {
    var removed := RemoveObject(s, key);
    if newFlow then RemoveEmptyFlow(removed, key.flow) else removed
  }

  lemma DiscardLeavesNothing(s: Udp, admitted: Udp, key: ObjectKey)
    requires SameOtherFlows(s, admitted, key.flow)
    requires admitted.objects.Keys == s.objects.Keys + {key} && admitted.flows.Keys == s.flows.Keys + {key.flow}
    requires forall k <- s.objects :: k != key ==> admitted.objects[k] == s.objects[k]
    requires key.flow !in s.flows ==>
               admitted.flows[key.flow].active == 1 && admitted.flows[key.flow].completed == {}
    ensures
      var left := Discarded(admitted, key, key.flow !in s.flows);
      NothingNew(s, left) && OthersUntouched(s, left, key)
  {
    if key.flow !in s.flows {
      LoneFlowGoes(admitted, key);
    }
    hide RemoveObject, RemoveEmptyFlow;
  }

  /** The flow created for a broken datagram goes with its only object. */
  lemma LoneFlowGoes(s: Udp, key: ObjectKey)
    requires key in s.objects && key.flow in s.flows
    requires s.flows[key.flow].active == 1 && s.flows[key.flow].completed == {}
    ensures key.flow !in RemoveEmptyFlow(RemoveObject(s, key), key.flow).flows
    ensures RemoveEmptyFlow(RemoveObject(s, key), key.flow).flows.Keys <= s.flows.Keys
  {}

  lemma AdmittedParts(s: Udp, h: Header, now: nat)
    requires h.key in s.objects ==> h.key.flow in s.flows
    ensures
      var s' := Admitted(s, h, now);
      && s'.objects.Keys == s.objects.Keys + {h.key} && s'.flows.Keys == s.flows.Keys + {h.key.flow}
      && (forall k <- s.objects :: k != h.key ==> s'.objects[k] == s.objects[k])
      && s'.objects[h.key].lastActivity == now
      && (h.key.flow !in s.flows ==> s'.flows[h.key.flow].active == 1 && s'.flows[h.key.flow].completed == {})
  {
    hide Observe;
  }

  // ---------------------------------------------------------------- bounded staleness

  /** The timeout and one scan interval, or the shortest time there is when the timeout is zero. */
  function StalenessLimit(config: Config): nat {
    if config.objectTimeout == 0 then 1 else config.objectTimeout + ScanInterval(config)
  }

  /** The next scan comes before any object is overdue by a whole interval. */
  ghost predicate Scheduled(s: Udp, clock: nat) {
    match s.nextExpiryScan
    case None => s.objects == map[]
    case Some(t) =>
      && t <= clock + ScanInterval(s.config)
      && forall k <- s.objects :: t < s.objects[k].lastActivity + StalenessLimit(s.config)
  }

  ghost predicate NotOverdue(s: Udp, now: nat) {
    forall k <- s.objects :: SatSub(now, s.objects[k].lastActivity) < StalenessLimit(s.config)
  }

  lemma ExpireSchedules(s: Udp, now: nat)
    ensures Scheduled(Expire(s, now), now) && NotOverdue(Expire(s, now), now) && Expire(s, now).config == s.config
  {
    hide Released, IdleFlows;
    ReleasedCounts(s, StaleObjects(s, now));
  }

  lemma ExpireIfDueSchedules(s: Udp, clock: nat, now: nat)
    requires Scheduled(s, clock) && clock <= now
    ensures
      var s' := Received(ExpireIfDue(s, now));
      Scheduled(s', now) && NotOverdue(s', now) && s'.config == s.config
  {
    hide Expire;
    ExpireSchedules(s, now);
  }

  predicate TouchedNow(s: Udp, s': Udp, now: nat) {
    && s'.nextExpiryScan == s.nextExpiryScan && s'.config == s.config
    && forall k <- s'.objects :: s'.objects[k].lastActivity == now || (k in s.objects && s'.objects[k] == s.objects[k])
  }

  lemma AnsweredTouches(s: Udp, key: ObjectKey, newFlow: bool, verdict: Verdict)
    requires key.flow in s.flows
    ensures
      var s' := Answered(s, key, newFlow, verdict).0;
      && s'.nextExpiryScan == s.nextExpiryScan && s'.config == s.config
      && forall k <- s'.objects :: k in s.objects && s'.objects[k] == s.objects[k]
  {
    hide CountAccepted, Completed, RemoveObject, RemoveEmptyFlow, Accept, RejectWith;
  }

  /** Objects are only touched at the current time, and the schedule not at all. */
  lemma HandleTouches(s: Udp, d: Datagram, verdict: Verdict, now: nat)
    requires UdpInv(s)
    ensures forall k <- s.objects :: k.flow in s.flows
    ensures TouchedNow(s, HandleDatagram(s, d, verdict, now).0, now)
  {
    hide HandleDatagram, UdpInv, CountAccepted, RemoveObject, Admitted, Answered, Touched, Accept, RejectWith, Decide,
      SameOtherFlows;
    match Decide(s, d)
    case Feed =>
      HandleFeed(s, d, verdict, now);
      var h := d.header.value;
      AdmittedParts(s, h, now);
      AnsweredTouches(Admitted(s, h, now), h.key, h.key.flow !in s.flows, verdict);
    case Repeat => HandleRepeat(s, d, verdict, now);
    case _ => HandleRefused(s, d, verdict, now);
  }

  lemma StepSchedules(s: Udp, op: Op, clock: nat)
    requires UdpInv(s) && Scheduled(s, clock) && clock <= op.now
    ensures Scheduled(Step(s, op), op.now) && NotOverdue(Step(s, op), op.now) && Step(s, op).config == s.config
  {
    hide UdpInv, ExpireIfDue, Expire, HandleDatagram, Scheduled, NotOverdue, TouchedNow;
    match op
    case Sweep(now) =>
      ExpireSchedules(s, now);
    case Arrive(d, verdict, now) =>
      var s1 := Received(ExpireIfDue(s, now));
      ExpireIfDueSchedules(s, clock, now);
      ExpireIfDueKeepsInv(s, now);
      PushKeepsInv(s, d, verdict, now);
      HandleTouches(s1, d, verdict, now);
      ScanIsScheduled(s, now);
      TouchingKeepsSchedule(s1, HandleDatagram(s1, d, verdict, now).0, now);
  }

  lemma TouchingKeepsSchedule(s: Udp, s': Udp, now: nat)
    requires Scheduled(s, now) && NotOverdue(s, now) && TouchedNow(s, s', now) && s.nextExpiryScan.Some?
    ensures Scheduled(s', now) && NotOverdue(s', now) && s'.config == s.config
  {}

  lemma ScanIsScheduled(s: Udp, now: nat)
    ensures Received(ExpireIfDue(s, now)).nextExpiryScan.Some?
  {
    hide Scan;
  }

  predicate Monotone(ops: seq<Op>) {
    forall i, j :: 0 <= i <= j < |ops| ==> ops[i].now <= ops[j].now
  }

  lemma {:induction false} RunSchedules(config: Config, ops: seq<Op>, n: nat)
    requires Monotone(ops) && 0 < n <= |ops|
    ensures Scheduled(StateAt(config, ops, n), ops[n - 1].now) && NotOverdue(StateAt(config, ops, n), ops[n - 1].now)
  {
    hide UdpInv, Step, Scheduled;
    ConfigConstant(config, ops, n - 1);
    if n > 1 {
      RunSchedules(config, ops, n - 1);
      StepSchedules(StateAt(config, ops, n - 1), ops[n - 1], ops[n - 2].now);
    } else {
      FreshScheduled(config);
      StepSchedules(StateAt(config, ops, 0), ops[0], 0);
    }
  }

  /** With a nondecreasing clock, after any call no object has been inactive for the timeout plus a whole scan
      interval; with a zero timeout, none has been inactive at all. */
  lemma BoundedStaleness(config: Config, ops: seq<Op>, n: nat, key: ObjectKey)
    requires Monotone(ops) && 0 < n <= |ops|
    requires key in StateAt(config, ops, n).objects
    ensures
      var inactive := SatSub(ops[n - 1].now, StateAt(config, ops, n).objects[key].lastActivity);
      if config.objectTimeout == 0 then inactive == 0 else inactive < config.objectTimeout + ScanInterval(config)
  {
    RunSchedules(config, ops, n);
    ConfigConstant(config, ops, n);
    hide StateAt, Scheduled;
  }

  /** The receiver can take one object at all. */
  predicate HasRoom(config: Config) {
    && config.maxFlows > 0 && config.maxActiveObjects > 0 && config.maxActiveObjectsPerFlow > 0
    && config.maxDatagramsPerObject > 0 && config.maxBufferedDatagrams > 0
    && config.maxObjectBytes > 0 && config.maxBufferedObjectBytes > 0
  }

  /** After the last call nothing has been inactive for the timeout plus a scan interval. */
  ghost predicate NoneOverdue(config: Config, ops: seq<Op>) {
    Monotone(ops) && ops != [] ==>
      forall key <- StateAt(config, ops, |ops|).objects ::
        SatSub(ops[|ops| - 1].now, StateAt(config, ops, |ops|).objects[key].lastActivity)
        < config.objectTimeout + ScanInterval(config)
  }

  /** That bound holds in all runs exactly when the timeout is not zero: at zero, an object is kept until the
      next call. */
  lemma StalenessBoundExactly(config: Config)
    requires HasRoom(config)
    ensures (forall ops: seq<Op> :: NoneOverdue(config, ops)) <==> config.objectTimeout > 0
  {
    hide StateAt;
    if config.objectTimeout > 0 {
      forall ops: seq<Op>
        ensures NoneOverdue(config, ops)
      {
        if Monotone(ops) && ops != [] {
          forall key <- StateAt(config, ops, |ops|).objects
            ensures SatSub(ops[|ops| - 1].now, StateAt(config, ops, |ops|).objects[key].lastActivity)
                 < config.objectTimeout + ScanInterval(config)
          {
            BoundedStaleness(config, ops, |ops|, key);
          }
        }
      }
    } else {
      var ops := OneObject(config);
      assert !NoneOverdue(config, ops);
    }
  }

  function FirstHeader(): Header {
    Header(ObjectKey(Unprefixed(0), 0), 0, 1)
  }

  lemma FirstIsFed(config: Config, s: Udp)
    requires HasRoom(config) && s.config == config
    requires s.objects == map[] && s.flows == map[] && s.bufferedDatagrams == 0 && s.bufferedObjectBytes == 0
    ensures Decide(s, Datagram(0, Some(FirstHeader()))) == Feed
  {}

  lemma FirstIsHeld(config: Config)
    requires HasRoom(config)
    ensures UdpInv(Fresh(config))
    ensures Step(Fresh(config), Arrive(Datagram(0, Some(FirstHeader())), Incomplete, 0)).objects != map[]
  {
    var s, d := Received(ExpireIfDue(Fresh(config), 0)), Datagram(0, Some(FirstHeader()));
    FreshInv(config);
    ExpireIfDueKeepsInv(Fresh(config), 0);
    EmptyExpiry(config);
    FirstIsFed(config, s);
    hide UdpInv, ExpireIfDue, HandleDatagram, Admitted, Decide, Fresh;
    PushKeepsInv(Fresh(config), d, Incomplete, 0);
    HandleFeed(s, d, Incomplete, 0);
    AdmittedParts(s, FirstHeader(), 0);
    assert FirstHeader().key in Admitted(s, FirstHeader(), 0).objects;
  }

  /** One datagram whose object is still incomplete. */
  lemma OneObject(config: Config) returns (ops: seq<Op>)
    requires HasRoom(config)
    ensures Monotone(ops) && |ops| == 1 && StateAt(config, ops, 1).objects != map[]
  {
    FirstIsHeld(config);
    hide UdpInv, Step, Fresh;
    ops := [Arrive(Datagram(0, Some(FirstHeader())), Incomplete, 0)];
    assert StateAt(config, ops, 0) == Fresh(config);
    assert StateAt(config, ops, 1) == Step(Fresh(config), ops[0]);
  }

  lemma EmptyExpiry(config: Config)
    ensures
      var s := Received(ExpireIfDue(Fresh(config), 0));
      && s.objects == map[] && s.flows == map[] && s.config == config
      && s.bufferedDatagrams == 0 && s.bufferedObjectBytes == 0
  {}

  lemma FreshScheduled(config: Config)
    ensures Scheduled(Fresh(config), 0)
  {}
}
