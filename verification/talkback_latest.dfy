/** Who hears a talkback frame and what a full queue gives up: each receiver's queue holds the newest unexpired
    frames, so an evicted frame was queued before every frame that still waits. */
module TalkbackLatest {
  import opened Collections
  import opened Prelude
  import opened TalkbackWindow
  import opened TalkbackSpec
  import opened TalkbackInvariants
  import opened TalkbackRuns
  import opened TalkbackDrain

  // ---------------------------------------------------------------- publishing, by the fields

  /** The frame is in time, its audience has a route of the same epochs, and the route allows the publisher under
      the grant the frame carries. */
  predicate MayPublish(s: Lane, f: Frame, now: nat) {
    && now < f.deadline
    && f.audience in s.routes
    && s.routes[f.audience].epochs == f.epochs
    && Publisher(f.participant, f.endpoint, f.subjectGrantEpoch) in s.routes[f.audience].publishers
  }

  /** Every answer of a publish, with the condition it is given under. */
  lemma PublishAnswers(s: Lane, f: Frame, now: nat)
    ensures
      var r := Publish(s, f, now).1;
      var p := PublisherKey(f.audience, f.participant, f.endpoint);
      var admitted := p in s.sequences ==> AdmitSequence(s.sequences[p], f.sequence).0;
      && (r == Err(FrameExpired) <==> f.deadline <= now)
      && (r == Err(RouteUnavailable) <==> now < f.deadline && f.audience !in s.routes)
      && (r == Err(AuthorizationEpoch) <==>
            now < f.deadline && f.audience in s.routes && s.routes[f.audience].epochs != f.epochs)
      && (r == Err(PublisherNotAllowed) <==>
            && now < f.deadline && f.audience in s.routes && s.routes[f.audience].epochs == f.epochs
            && Publisher(f.participant, f.endpoint, f.subjectGrantEpoch) !in s.routes[f.audience].publishers)
      && (r == Err(FrameReplay) <==> MayPublish(s, f, now) && !admitted)
      && (r.Ok? <==> MayPublish(s, f, now) && admitted)
  {
    hide AdmitSequence;
  }

  /** Each answer moves its own counters. */
  lemma PublishCounts(s: Lane, f: Frame, now: nat)
    ensures
      var ((s', r), c) := (Publish(s, f, now), s.counters);
      var c' := s'.counters;
      && c'.admitted == c.admitted + (if r.Ok? then 1 else 0)
      && c'.queued == c.queued + (if r.Ok? then |r.value.queued| else 0)
      && c'.mixMinus == c.mixMinus + (if r.Ok? then |r.value.excluded| else 0)
      && c'.expiredRejections == c.expiredRejections + (if r == Err(FrameExpired) then 1 else 0)
      && c'.replayRejections == c.replayRejections + (if r == Err(FrameReplay) then 1 else 0)
      && c'.authorizationRejections == c.authorizationRejections
         + (if r in {Err(RouteUnavailable), Err(AuthorizationEpoch), Err(PublisherNotAllowed)} then 1 else 0)
      && c'.pulled == c.pulled && c'.acceptedAcks == c.acceptedAcks && c'.rejectedAcks == c.rejectedAcks
      && c'.purged == c.purged
  {
    hide AdmitSequence, Authorize, FanOut, Targets, Evicting;
  }

  /** The queue of this key gets a copy: it belongs to the publisher and to a subscriber of another participant. */
  predicate Hears(s: Lane, f: Frame, k: DeliveryKey)
    requires f.audience in s.routes
  {
    var subscribers := s.routes[f.audience].subscribers;
    && k.publisher == PublisherKey(f.audience, f.participant, f.endpoint)
    && k.endpoint in subscribers && subscribers[k.endpoint] == k.participant
    && k.participant != f.participant
  }

  function Unexpired(q: seq<Frame>, now: nat): seq<Frame> {
    if q == [] then [] else (if now < q[0].deadline then [q[0]] else []) + Unexpired(q[1..], now)
  }

  lemma {:induction false} LiveIsUnexpired(q: seq<Frame>, now: nat)
    ensures Live(q, now) == Unexpired(q, now)
  {
    if q != [] {
      LiveIsUnexpired(q[1..], now);
      LiveCons(q[0], q[1..], now);
      assert [q[0]] + q[1..] == q;
    }
  }

  lemma EnqueuedIsLatest(q: seq<Frame>, f: Frame, now: nat, max: nat)
    requires |q| <= max && 0 < max
    ensures Enqueued(q, f, now, max) == LastOf(Unexpired(q, now) + [f], max)
  {
    hide Live, Unexpired, LastOf;
    LiveIsUnexpired(q, now);
    assert |Live(q, now)| <= |q| by { LiveKeepsFrames(q, now); }
    OneOutOneIn(Live(q, now), f, max);
  }

  lemma OneOutOneIn(q: seq<Frame>, f: Frame, max: nat)
    requires |q| <= max && 0 < max
    ensures (if |q| == max then q[1..] else q) + [f] == LastOf(q + [f], max)
  {}

  lemma HeardByTargets(s: Lane, f: Frame, k: DeliveryKey)
    requires f.audience in s.routes
    ensures k in Targets(s.routes[f.audience], f.Publisher(), Receivers(s.routes[f.audience], f.participant))
       <==> Hears(s, f, k)
  {
    var route := s.routes[f.audience];
    if Hears(s, f, k) {
      assert k == Delivery(route, f.Publisher(), k.endpoint);
    }
  }

  lemma QueueLength(s: Lane, k: DeliveryKey)
    requires LaneInv(s)
    ensures |QueueOf(s.queues, k)| <= s.config.maxFrames && 0 < s.config.maxFrames
  {}

  /** After an accepted publish each receiver's queue is the newest frames of the unexpired ones it held and the new
      one, as many as a queue may hold; every other queue is as it was.  The answer names who got a copy and which
      of the publisher's own endpoints were left out. */
  lemma PublishKeepsTheLatest(s: Lane, f: Frame, now: nat, k: DeliveryKey)
    requires LaneInv(s) && Publish(s, f, now).1.Ok?
    ensures f.audience in s.routes
    ensures
      var s' := Publish(s, f, now).0;
      if Hears(s, f, k) then
        k in s'.queues && s'.queues[k] == LastOf(Unexpired(QueueOf(s.queues, k), now) + [f], s.config.maxFrames)
      else
        QueueOf(s'.queues, k) == QueueOf(s.queues, k)
    ensures
      var subscribers := s.routes[f.audience].subscribers;
      Publish(s, f, now).1.value == Fanout(set e | e in subscribers && subscribers[e] != f.participant,
                                           set e | e in subscribers && subscribers[e] == f.participant)
  {
    hide Enqueued, Unexpired, LastOf, Hears, AdmitSequence, LaneInv, Evicting, Targets, CountPublish;
    PublishAnswers(s, f, now);
    HeardByTargets(s, f, k);
    QueueLength(s, k);
    EnqueuedIsLatest(QueueOf(s.queues, k), f, now, s.config.maxFrames);
  }

  /** A refused frame leaves every queue and every replay window as it was. */
  lemma RefusedPublishChangesNothing(s: Lane, f: Frame, now: nat)
    requires Publish(s, f, now).1.Err?
    ensures Publish(s, f, now).0 == s.(counters := Publish(s, f, now).0.counters)
  {
    hide AdmitSequence;
  }

  // ---------------------------------------------------------------- purges, pulls and acknowledgements

  /** The key is absent from both maps or has the same value in both. */
  predicate SameAt<K, V(==)>(m: map<K, V>, m': map<K, V>, k: K) {
    (k in m' <==> k in m) && (k in m ==> m'[k] == m[k])
  }

  /** Installing, removing or ending touches the audiences it names and no others. */
  lemma PurgeSparesOthers(s: Lane, op: Op, a: AudienceKey)
    requires op.Install? || op.Remove? || op.End?
    ensures
      var s' := Step(s, op);
      && (op.Install? ==> op.snapshot.audience in s'.routes && s'.routes[op.snapshot.audience] == op.snapshot)
      && (!Purges(op, a) ==>
            && SameAt(s.routes, s'.routes, a)
            && (forall p: PublisherKey | p.audience == a :: SameAt(s.sequences, s'.sequences, p))
            && (forall k: DeliveryKey | k.publisher.audience == a ::
                  SameAt(s.queues, s'.queues, k) && SameAt(s.played, s'.played, k)))
  {
    hide QueuedFrames;
  }

  /** The frame pulled was accepted no later than any other unexpired front of the receiver, and among those accepted at
      the same time has the least sequence. */
  lemma PulledIsOldest(s: Lane, endpoint: Id, now: nat, k: DeliveryKey, other: DeliveryKey)
    requires ValidChoice(Swept(s.queues, endpoint, now), endpoint, Some(k))
    ensures
      var (swept, r) := (Swept(s.queues, endpoint, now), PullFrom(s, endpoint, now, Some(k)).1);
      && r.Some? && r.value in s.queues[k] && k.endpoint == endpoint
      && (other in s.queues && other.endpoint == endpoint && DropExpired(s.queues[other], now) != [] ==>
            var front := DropExpired(s.queues[other], now)[0];
            r.value.acceptedAt < front.acceptedAt
            || (r.value.acceptedAt == front.acceptedAt && r.value.sequence <= front.sequence))
  {
    DropExpiredIsSuffix(s.queues[k], now);
    hide DropExpired;
    var swept := Swept(s.queues, endpoint, now);
    assert PullFrom(s, endpoint, now, Some(k)).1 == Some(swept[k][0]);
    if other in s.queues && other.endpoint == endpoint && DropExpired(s.queues[other], now) != [] {
      assert other in swept && Candidate(swept, endpoint, other);
    }
  }

  /** A pull raises the delivered mark of the queue it took from, and keeps its acknowledgement. */
  lemma PullMarksDelivered(s: Lane, endpoint: Id, now: nat, k: DeliveryKey)
    requires Candidate(Swept(s.queues, endpoint, now), endpoint, k)
    ensures
      var (s', r) := PullFrom(s, endpoint, now, Some(k));
      && r.Some? && now < r.value.deadline && k in s'.played
      && s'.played[k].deliveredSequence
         == (if k in s.played && s.played[k].deliveredSequence > r.value.sequence then s.played[k].deliveredSequence
             else r.value.sequence)
      && s'.played[k].acknowledgedSequence == (if k in s.played then s.played[k].acknowledgedSequence else None)
      && s'.played[k].acknowledgedAt == (if k in s.played then s.played[k].acknowledgedAt else None)
      && (forall j <- s.played :: j != k ==> j in s'.played && s'.played[j] == s.played[j])
  {
    SweptFrontIsLive(s.queues[k], now);
  }

  /** Every answer to an acknowledgement, with the condition it is given under, and what an accepted one records. */
  lemma AcknowledgeAnswers(s: Lane, ack: Ack, now: nat)
    ensures
      var (s', r) := Acknowledge(s, ack, now);
      var k, a := ack.key, ack.key.publisher.audience;
      var subscribed := a in s.routes && k.endpoint in s.routes[a].subscribers
                        && s.routes[a].subscribers[k.endpoint] == k.participant;
      var delivered := k in s.played && ack.sequence <= s.played[k].deliveredSequence;
      var newer := k in s.played && (s.played[k].acknowledgedSequence.None?
                                     || s.played[k].acknowledgedSequence.value < ack.sequence);
      && (r == Err(RouteUnavailable) <==> a !in s.routes)
      && (r == Err(SubscriberNotAllowed) <==> a in s.routes && !subscribed)
      && (r == Err(PlayoutBeyondDelivery) <==> subscribed && !delivered)
      && (r == Err(StaleAcknowledgement) <==> subscribed && delivered && !newer)
      && (r.Ok? <==> subscribed && delivered && newer)
      && s' == s.(played := s'.played, counters := s'.counters)
      && s'.played.Keys == s.played.Keys
      && (forall j <- s.played :: s'.played[j]
            == if r.Ok? && j == k
               then PlayedHighWater(s.played[j].deliveredSequence, Some(ack.sequence), Some(now)) else s.played[j])
  {}

  // ---------------------------------------------------------------- what an eviction gives up

  ghost predicate Increasing(times: seq<nat>) {
    forall x, y :: 0 <= x < y < |times| ==> times[x] < times[y]
  }

  /** Where the unexpired frames stand in the queue. */
  ghost predicate Places(q: seq<Frame>, picked: seq<Frame>, index: seq<nat>) {
    && |index| == |picked| && Increasing(index)
    && forall x :: 0 <= x < |index| ==> index[x] < |q| && q[index[x]] == picked[x]
  }

  function Shifted(index: seq<nat>): (r: seq<nat>)
    ensures |r| == |index| && forall x :: 0 <= x < |r| ==> r[x] == index[x] + 1
  {
    seq(|index|, x requires 0 <= x < |index| => index[x] + 1)
  }

  lemma PlacesInTail(q: seq<Frame>, picked: seq<Frame>, index: seq<nat>)
    requires q != [] && Places(q[1..], picked, index)
    ensures Places(q, picked, Shifted(index)) && Places(q, [q[0]] + picked, [0] + Shifted(index))
  {
    hide Shifted;
    assert forall x :: 0 <= x < |index| ==> q[index[x] + 1] == q[1..][index[x]];
  }

  lemma {:induction false} UnexpiredIndex(q: seq<Frame>, now: nat) returns (index: seq<nat>)
    ensures Places(q, Unexpired(q, now), index)
  {
    hide Places, Shifted;
    if q == [] {
      index := [];
      NoPlaces(q);
    } else {
      var rest := UnexpiredIndex(q[1..], now);
      PlacesInTail(q, Unexpired(q[1..], now), rest);
      index := if now < q[0].deadline then [0] + Shifted(rest) else Shifted(rest);
      assert [] + Unexpired(q[1..], now) == Unexpired(q[1..], now);
    }
  }

  lemma NoPlaces(q: seq<Frame>)
    ensures Places(q, [], [])
  {}

  lemma {:induction false} WaitingIsUnexpired(q: seq<Frame>, now: nat, g: Frame)
    requires g in q && now < g.deadline
    ensures g in Unexpired(q, now)
  {
    if q[0] != g {
      WaitingIsUnexpired(q[1..], now, g);
    }
  }

  /** Step `j` put the frame into the queue. */
  ghost predicate QueuedAt(states: seq<Lane>, ops: seq<Op>, j: nat, k: DeliveryKey, f: Frame) {
    && j < |ops| && j < |states|
    && ops[j].Send? && ops[j].frame == f && Publish(states[j], f, ops[j].now).1.Ok?
    && f.audience in states[j].routes && Hears(states[j], f, k)
  }

  lemma SendPublishes(s: Lane, op: Op)
    requires op.Send?
    ensures Enabled(s, op) && Step(s, op) == Publish(s, op.frame, op.now).0
  {}

  lemma QueuedNow(states: seq<Lane>, ops: seq<Op>, j: nat, k: DeliveryKey)
    requires j < |ops| && j < |states| && ops[j].Send? && Publish(states[j], ops[j].frame, ops[j].now).1.Ok?
    requires ops[j].frame.audience in states[j].routes && Hears(states[j], ops[j].frame, k)
    ensures QueuedAt(states, ops, j, k, ops[j].frame)
  {}

  /** Frames wait in the order in which they were queued. */
  ghost predicate QueuedInOrder(states: seq<Lane>, ops: seq<Op>, n: nat, k: DeliveryKey, times: seq<nat>)
    requires n < |states|
  {
    var q := QueueOf(states[n].queues, k);
    && |times| == |q|
    && (forall x :: 0 <= x < |times| ==> times[x] < n && QueuedAt(states, ops, times[x], k, q[x]))
    && Increasing(times)
  }

  /** Apart from an accepted publish, a call only takes frames out of a queue. */
  lemma OtherStepsOnlyRemove(s: Lane, op: Op, k: DeliveryKey) returns (from: nat)
    requires LaneInv(s) && Enabled(s, op)
    requires op.Send? && Publish(s, op.frame, op.now).1.Ok? ==> !Hears(s, op.frame, k)
    requires op.Send? && Publish(s, op.frame, op.now).1.Ok? ==> op.frame.audience in s.routes
    ensures from <= |QueueOf(s.queues, k)|
    ensures QueueOf(Step(s, op).queues, k) == QueueOf(s.queues, k)[from..]
  {
    hide LaneInv, QueuedFrames, Hears, Publish, ValidChoice, AckOutcome;
    var q := QueueOf(s.queues, k);
    from := 0;
    match op
    case Send(f, now) =>
      if Publish(s, f, now).1.Ok? {
        PublishKeepsTheLatest(s, f, now, k);
      } else {
        RefusedPublishChangesNothing(s, f, now);
      }
    case Pull(endpoint, now, choice) =>
      from := PullRemoves(s, endpoint, now, choice, k);
    case Play(_, _) =>
    case _ =>
      if Purges(op, k.publisher.audience) {
        from := |q|;
        PurgedQueueIsEmpty(s, op, k);
      } else {
        PurgeSparesOthers(s, op, k.publisher.audience);
      }
  }

  lemma PurgedQueueIsEmpty(s: Lane, op: Op, k: DeliveryKey)
    requires LaneInv(s) && Purges(op, k.publisher.audience)
    ensures QueueOf(Step(s, op).queues, k) == []
  {
    hide QueuedFrames, FramesOk, ReceiverOk;
    if k in s.queues {
      assert QueueOk(s.routes, s.sequences, k, s.queues[k]);
    }
  }

  lemma PullRemoves(s: Lane, endpoint: Id, now: nat, choice: Option<DeliveryKey>, k: DeliveryKey) returns (from: nat)
    requires ValidChoice(Swept(s.queues, endpoint, now), endpoint, choice)
    ensures from <= |QueueOf(s.queues, k)|
    ensures QueueOf(PullFrom(s, endpoint, now, choice).0.queues, k) == QueueOf(s.queues, k)[from..]
  {
    hide DropExpired;
    var q := QueueOf(s.queues, k);
    from := 0;
    if k in s.queues {
      if k.endpoint == endpoint {
        DropExpiredIsSuffix(q, now);
        from := |q| - |DropExpired(q, now)|;
      }
      if choice == Some(k) {
        from := from + 1;
      }
    }
  }

  lemma SuffixMembers<T>(s: seq<T>, d: nat, x: nat)
    requires d <= |s| && x < |s| && s[x] !in s[d..]
    ensures x < d
  {
    assert forall y :: d <= y < |s| ==> s[d..][y - d] == s[y];
  }

  /** The times of the unexpired frames and of the new one. */
  function TimesOf(before: seq<nat>, index: seq<nat>, n: nat): seq<nat>
    requires forall x :: 0 <= x < |index| ==> index[x] < |before|
  {
    seq(|index|, x requires 0 <= x < |index| => before[index[x]]) + [n]
  }

  lemma TimesIncrease(before: seq<nat>, index: seq<nat>, n: nat)
    requires Increasing(before) && Increasing(index) && forall x :: 0 <= x < |before| ==> before[x] < n
    requires forall x :: 0 <= x < |index| ==> index[x] < |before|
    ensures Increasing(TimesOf(before, index, n))
  {}

  /** The queue after a publish, with the times of what it kept. */
  lemma LatestTimes(q: seq<Frame>, f: Frame, now: nat, max: nat, before: seq<nat>, n: nat) returns (times: seq<nat>)
    requires |before| == |q| && Increasing(before) && forall x :: 0 <= x < |before| ==> before[x] < n
    requires 0 < max
    ensures
      var after := LastOf(Unexpired(q, now) + [f], max);
      && |times| == |after| && Increasing(times)
      && (forall x :: 0 <= x < |times| ==> TimeIsRight(q, f, before, n, after[x], times[x]))
      && (forall g :: g in q && now < g.deadline && g !in after ==> OlderThan(q, before, g, times))
  {
    hide Unexpired, TimesOf, Places, Increasing, TimeIsRight, OlderThan, LastOf;
    var kept := Unexpired(q, now);
    var index := UnexpiredIndex(q, now);
    PlacesAreInOrder(q, kept, index);
    TimesIncrease(before, index, n);
    AllTimesRight(q, f, kept, index, before, n);
    var all, frames := TimesOf(before, index, n), kept + [f];
    LastOfIsSuffix(frames, max);
    var d := |frames| - |LastOf(frames, max)|;
    times := all[d..];
    SuffixIncreases(all, d);
    forall x | 0 <= x < |times|
      ensures TimeIsRight(q, f, before, n, frames[d..][x], times[x])
    {
      assert frames[d..][x] == frames[d + x] && times[x] == all[d + x];
    }
    forall g | g in q && now < g.deadline && g !in frames[d..]
      ensures OlderThan(q, before, g, times)
    {
      WaitingIsUnexpired(q, now, g);
      var x :| 0 <= x < |kept| && kept[x] == g;
      assert frames[x] == g;
      SuffixMembers(frames, d, x);
      GivenUpIsOlder(q, before, kept, index, n, x, d);
    }
  }

  lemma PlacesAreInOrder(q: seq<Frame>, picked: seq<Frame>, index: seq<nat>)
    requires Places(q, picked, index)
    ensures |index| == |picked| && Increasing(index) && forall x :: 0 <= x < |index| ==> index[x] < |q|
  {}

  lemma LastOfIsSuffix<T>(s: seq<T>, n: nat)
    ensures |LastOf(s, n)| <= |s| && LastOf(s, n) == s[|s| - |LastOf(s, n)|..]
  {}

  lemma SuffixIncreases(all: seq<nat>, d: nat)
    requires Increasing(all) && d <= |all|
    ensures Increasing(all[d..])
  {}

  /** The time is that of the new frame, or that of a frame of the old queue. */
  ghost predicate TimeIsRight(q: seq<Frame>, f: Frame, before: seq<nat>, n: nat, g: Frame, time: nat)
    requires |before| == |q|
  {
    (time == n && g == f) || exists b :: 0 <= b < |q| && time == before[b] && g == q[b]
  }

  lemma AllTimesRight(q: seq<Frame>, f: Frame, kept: seq<Frame>, index: seq<nat>, before: seq<nat>, n: nat)
    requires Places(q, kept, index) && |before| == |q|
    ensures |TimesOf(before, index, n)| == |kept + [f]|
    ensures forall x :: 0 <= x <= |kept| ==> TimeIsRight(q, f, before, n, (kept + [f])[x], TimesOf(before, index, n)[x])
  {}

  /** The frame was queued before everything these times stand for. */
  ghost predicate OlderThan(q: seq<Frame>, before: seq<nat>, g: Frame, times: seq<nat>)
    requires |before| == |q|
  {
    exists a :: 0 <= a < |q| && q[a] == g && EarlierThan(before[a], times)
  }

  ghost predicate EarlierThan(time: nat, times: seq<nat>) {
    forall x :: 0 <= x < |times| ==> time < times[x]
  }

  lemma GivenUpIsOlder(
    q: seq<Frame>, before: seq<nat>, kept: seq<Frame>, index: seq<nat>, n: nat, x: nat, d: nat)
    requires |before| == |q| && Places(q, kept, index) && forall y :: 0 <= y < |index| ==> index[y] < |before|
    requires x < d <= |index| + 1 && x < |kept| && Increasing(TimesOf(before, index, n))
    ensures OlderThan(q, before, kept[x], TimesOf(before, index, n)[d..])
  {
    var all := TimesOf(before, index, n);
    assert before[index[x]] == all[x];
    assert EarlierThan(all[x], all[d..]);
  }

  lemma HistoryAfterPublish(states: seq<Lane>, ops: seq<Op>, n: nat, k: DeliveryKey, before: seq<nat>)
    returns (times: seq<nat>)
    requires n < |ops| && n + 1 < |states| && StepAt(states, ops, n) && LaneInv(states[n])
    requires QueuedInOrder(states, ops, n, k, before)
    requires ops[n].Send? && QueuedAt(states, ops, n, k, ops[n].frame)
    ensures QueuedInOrder(states, ops, n + 1, k, times)
    ensures KeptOrSince(times, before, n)
    ensures forall g <- QueueOf(states[n].queues, k) | ops[n].now < g.deadline && g !in QueueOf(states[n + 1].queues, k) ::
              OlderThan(QueueOf(states[n].queues, k), before, g, times)
  {
    hide LaneInv, Enabled, Hears, Publish, Unexpired, LastOf, OlderThan, Increasing;
    var s, f, now := states[n], ops[n].frame, ops[n].now;
    var q := QueueOf(s.queues, k);
    PublishKeepsTheLatest(s, f, now, k);
    QueueLength(s, k);
    assert QueueOf(states[n + 1].queues, k) == LastOf(Unexpired(q, now) + [f], s.config.maxFrames);
    times := LatestTimes(q, f, now, s.config.maxFrames, before, n);
    hide QueuedAt;
  }

  /** Every time is one of before or not earlier than `m`. */
  ghost predicate KeptOrSince(times: seq<nat>, before: seq<nat>, m: nat) {
    forall x :: 0 <= x < |times| ==> times[x] in before || times[x] >= m
  }

  lemma SameTimes(times: seq<nat>, m: nat)
    ensures KeptOrSince(times, times, m)
  {}

  lemma KeptAcross(times: seq<nat>, before: seq<nat>, start: seq<nat>, m: nat, n: nat)
    requires KeptOrSince(times, before, n) && KeptOrSince(before, start, m) && m <= n
    ensures KeptOrSince(times, start, m)
  {}

  /** The next step keeps times of before, or adds its own. */
  lemma HistoryStep(config: Config, states: seq<Lane>, ops: seq<Op>, n: nat, k: DeliveryKey, before: seq<nat>)
    returns (times: seq<nat>)
    requires IsRun(config, states, ops) && n < |ops| && QueuedInOrder(states, ops, n, k, before)
    ensures QueuedInOrder(states, ops, n + 1, k, times)
    ensures KeptOrSince(times, before, n)
  {
    hide LaneInv, Step, Enabled, QueuedAt, Publish, Hears, Increasing;
    assert StepAt(states, ops, n);
    RunKeepsInv(config, states, ops, n);
    var s, op := states[n], ops[n];
    if op.Send? && Publish(s, op.frame, op.now).1.Ok? {
      PublishKeepsTheLatest(s, op.frame, op.now, k);
      if Hears(s, op.frame, k) {
        QueuedNow(states, ops, n, k);
        times := HistoryAfterPublish(states, ops, n, k, before);
      } else {
        SendPublishes(s, op);
        times := before;
      }
    } else {
      var from := OtherStepsOnlyRemove(s, op, k);
      times := before[from..];
      SuffixIncreases(before, from);
    }
  }

  lemma RunLength(config: Config, states: seq<Lane>, ops: seq<Op>)
    requires IsRun(config, states, ops)
    ensures |states| == |ops| + 1
  {}

  lemma {:induction false} History(
    config: Config, states: seq<Lane>, ops: seq<Op>, m: nat, n: nat, k: DeliveryKey, start: seq<nat>)
    returns (times: seq<nat>)
    requires IsRun(config, states, ops) && m <= n < |states| && QueuedInOrder(states, ops, m, k, start)
    ensures QueuedInOrder(states, ops, n, k, times)
    ensures KeptOrSince(times, start, m)
    decreases n
  {
    hide IsRun, QueuedInOrder, KeptOrSince;
    RunLength(config, states, ops);
    if m == n {
      times := start;
      SameTimes(start, m);
    } else {
      var before := History(config, states, ops, m, n - 1, k, start);
      times := HistoryStep(config, states, ops, n - 1, k, before);
      KeptAcross(times, before, start, m, n - 1);
    }
  }

  lemma NothingQueued(config: Config, states: seq<Lane>, ops: seq<Op>, k: DeliveryKey)
    requires IsRun(config, states, ops)
    ensures QueuedInOrder(states, ops, 0, k, [])
  {}

  /** A frame that a publish evicts before its deadline was queued before every frame that waits in that queue
      then or at any later time. */
  lemma EvictedWasOldest(
    config: Config, states: seq<Lane>, ops: seq<Op>, i: nat, n: nat, k: DeliveryKey, g: Frame, h: Frame)
    requires IsRun(config, states, ops) && i < n < |states| && ops[i].Send? && ops[i].now < g.deadline
    requires g in QueueOf(states[i].queues, k) && g !in QueueOf(states[i + 1].queues, k)
    requires h in QueueOf(states[n].queues, k)
    ensures exists first, second ::
              0 <= first < second < n && QueuedAt(states, ops, first, k, g) && QueuedAt(states, ops, second, k, h)
  {
    hide LaneInv, Step, Enabled, QueuedAt, Publish, Hears, Increasing;
    assert StepAt(states, ops, i);
    RunKeepsInv(config, states, ops, i);
    NothingQueued(config, states, ops, k);
    assert states[i + 1] == Step(states[i], ops[i]);
    var before := History(config, states, ops, 0, i, k, []);
    EvictionIsHeard(states[i], ops[i], k, g);
    QueuedNow(states, ops, i, k);
    var after := HistoryAfterPublish(states, ops, i, k, before);
    var q := QueueOf(states[i].queues, k);
    assert OlderThan(q, before, g, after);
    var a :| 0 <= a < |q| && q[a] == g && EarlierThan(before[a], after);
    var times := History(config, states, ops, i + 1, n, k, after);
    var b :| 0 <= b < |times| && QueueOf(states[n].queues, k)[b] == h;
    assert before[a] < times[b];
  }

  lemma EvictionIsHeard(s: Lane, op: Op, k: DeliveryKey, g: Frame)
    requires LaneInv(s) && op.Send? && g in QueueOf(s.queues, k) && g !in QueueOf(Step(s, op).queues, k)
    ensures Publish(s, op.frame, op.now).1.Ok? && op.frame.audience in s.routes && Hears(s, op.frame, k)
  {
    hide LaneInv, Publish, Hears;
    if Publish(s, op.frame, op.now).1.Ok? {
      PublishKeepsTheLatest(s, op.frame, op.now, k);
    } else {
      RefusedPublishChangesNothing(s, op.frame, op.now);
    }
  }
}
