/** Route safety of the talkback lane: what every call keeps. */
module TalkbackInvariants {
  import opened Prelude
  import opened Totals
  import opened TalkbackWindow
  import opened TalkbackSpec

  ghost predicate RoutesOk(routes: map<AudienceKey, Snapshot>) {
    forall a <- routes :: routes[a].audience == a
  }

  ghost predicate SequencesOk(routes: map<AudienceKey, Snapshot>, sequences: map<PublisherKey, SequenceWindow>) {
    forall p <- sequences :: p.audience in routes
  }

  /** The frame was published under the installed route by the queue's publisher. */
  predicate FrameOk(route: Snapshot, k: DeliveryKey, f: Frame) {
    f.Publisher() == k.publisher && f.epochs == route.epochs && PublisherAllowed(route, f)
  }

  /** The receiver subscribes under the installed route and shares no participant with the publisher. */
  predicate ReceiverOk(route: Snapshot, k: DeliveryKey) {
    && k.endpoint in route.subscribers
    && route.subscribers[k.endpoint] == k.participant
    && k.participant != k.publisher.participant
  }

  ghost predicate DistinctSequences(q: seq<Frame>) {
    forall i, j :: 0 <= i < j < |q| ==> q[i].sequence != q[j].sequence
  }

  ghost predicate FramesOk(route: Snapshot, window: SequenceWindow, k: DeliveryKey, q: seq<Frame>) {
    && (forall f <- q :: FrameOk(route, k, f) && Spent(window, f.sequence))
    && DistinctSequences(q)
  }

  ghost predicate QueueOk(
    routes: map<AudienceKey, Snapshot>, sequences: map<PublisherKey, SequenceWindow>, k: DeliveryKey, q: seq<Frame>)
  {
    && k.publisher.audience in routes
    && k.publisher in sequences
    && ReceiverOk(routes[k.publisher.audience], k)
    && FramesOk(routes[k.publisher.audience], sequences[k.publisher], k, q)
  }

  ghost predicate QueuesOk(
    config: Config, routes: map<AudienceKey, Snapshot>, sequences: map<PublisherKey, SequenceWindow>,
    queues: map<DeliveryKey, seq<Frame>>)
  {
    forall k <- queues :: QueueOk(routes, sequences, k, queues[k]) && |queues[k]| <= config.maxFrames
  }

  ghost predicate MarkOk(sequences: map<PublisherKey, SequenceWindow>, k: DeliveryKey, mark: PlayedHighWater) {
    && k.publisher in sequences
    && mark.deliveredSequence <= sequences[k.publisher].highest
    && (mark.acknowledgedSequence.Some? ==> mark.acknowledgedSequence.value <= mark.deliveredSequence)
  }

  ghost predicate PlayedOk(
    sequences: map<PublisherKey, SequenceWindow>, queues: map<DeliveryKey, seq<Frame>>,
    played: map<DeliveryKey, PlayedHighWater>)
  {
    forall k <- played :: k in queues && MarkOk(sequences, k, played[k])
  }

  ghost predicate LaneInv(s: Lane) {
    && s.config.Valid()
    && RoutesOk(s.routes)
    && SequencesOk(s.routes, s.sequences)
    && QueuesOk(s.config, s.routes, s.sequences, s.queues)
    && PlayedOk(s.sequences, s.queues, s.played)
  }

  // ---------------------------------------------------------------- queues

  lemma {:induction false} LiveKeepsFrames(q: seq<Frame>, now: nat)
    ensures |Live(q, now)| <= |q|
    ensures forall f :: f in Live(q, now) <==> f in q && !f.IsExpired(now)
    ensures DistinctSequences(q) ==> DistinctSequences(Live(q, now))
  {
    if q != [] {
      var front, last := q[..|q| - 1], q[|q| - 1];
      LiveKeepsFrames(front, now);
      LiveSnoc(front, last, now);
      assert q == front + [last];
      if DistinctSequences(q) {
        assert DistinctSequences(front) && forall f <- front :: f.sequence != last.sequence;
      }
    }
  }

  lemma LiveSnoc(front: seq<Frame>, last: Frame, now: nat)
    ensures Live(front + [last], now) == Live(front, now) + (if last.IsExpired(now) then [] else [last])
  {
    assert (front + [last])[..|front|] == front;
  }

  lemma EnqueuedKeepsFrames(
    route: Snapshot, window: SequenceWindow, k: DeliveryKey, q: seq<Frame>, f: Frame, now: nat, max: nat)
    requires FramesOk(route, window, k, q) && FrameOk(route, k, f) && !Spent(window, f.sequence) && |q| <= max
    requires 0 < max
    ensures FramesOk(route, AdmitSequence(window, f.sequence).1, k, Enqueued(q, f, now, max))
    ensures |Enqueued(q, f, now, max)| <= max
  {
    hide AdmitSequence, Spent, FrameOk;
    LiveKeepsFrames(q, now);
    var next := AdmitSequence(window, f.sequence).1;
    forall g | g in Enqueued(q, f, now, max)
      ensures FrameOk(route, k, g) && Spent(next, g.sequence)
    {
      if g in q {
        SpentForever(window, f.sequence, g.sequence);
      } else {
        AdmittedIsSpent(window, f.sequence);
      }
    }
  }

  lemma {:induction false} DropExpiredIsSuffix(q: seq<Frame>, now: nat)
    ensures |DropExpired(q, now)| <= |q| && DropExpired(q, now) == q[|q| - |DropExpired(q, now)|..]
    decreases |q|
  {
    if q != [] && q[0].IsExpired(now) {
      DropExpiredIsSuffix(q[1..], now);
    }
  }

  lemma SuffixOk(route: Snapshot, window: SequenceWindow, k: DeliveryKey, q: seq<Frame>, from: nat)
    requires FramesOk(route, window, k, q) && from <= |q|
    ensures FramesOk(route, window, k, q[from..])
  {
    hide FrameOk, Spent;
  }

  lemma FramesStayOk(route: Snapshot, window: SequenceWindow, k: DeliveryKey, q: seq<Frame>, sequence: nat)
    requires FramesOk(route, window, k, q)
    ensures FramesOk(route, AdmitSequence(window, sequence).1, k, q)
  {
    hide FrameOk, Spent, AdmitSequence;
    forall f <- q
      ensures Spent(AdmitSequence(window, sequence).1, f.sequence)
    {
      SpentForever(window, sequence, f.sequence);
    }
  }

  // ---------------------------------------------------------------- every call

  lemma FreshInv(config: Config)
    requires config.Valid()
    ensures LaneInv(Fresh(config))
  {}

  lemma RemovalKeepsInv(s: Lane, gone: set<AudienceKey>)
    requires LaneInv(s)
    ensures LaneInv(RemoveAudiences(s, gone))
  {
    hide FramesOk, ReceiverOk, QueuedFrames;
    var s' := RemoveAudiences(s, gone);
    forall k <- s'.queues
      ensures QueueOk(s'.routes, s'.sequences, k, s'.queues[k])
    {
      assert QueueOk(s.routes, s.sequences, k, s.queues[k]);
    }
    forall k <- s'.played
      ensures k in s'.queues && MarkOk(s'.sequences, k, s'.played[k])
    {
      assert MarkOk(s.sequences, k, s.played[k]);
    }
  }

  lemma InstallKeepsInv(s: Lane, snapshot: Snapshot)
    requires LaneInv(s)
    ensures LaneInv(InstallSnapshot(s, snapshot))
  {
    hide FramesOk, ReceiverOk, QueuedFrames;
    var s' := InstallSnapshot(s, snapshot);
    forall k <- s'.queues
      ensures QueueOk(s'.routes, s'.sequences, k, s'.queues[k])
    {
      assert QueueOk(s.routes, s.sequences, k, s.queues[k]);
    }
    forall k <- s'.played
      ensures k in s'.queues && MarkOk(s'.sequences, k, s'.played[k])
    {
      assert MarkOk(s.sequences, k, s.played[k]);
    }
  }

  lemma TargetIsReceiver(route: Snapshot, p: PublisherKey, k: DeliveryKey)
    ensures k in Targets(route, p, Receivers(route, p.participant)) ==> k.publisher == p && ReceiverOk(route, k)
  {}

  lemma PublishKeepsQueues(s: Lane, f: Frame, now: nat, k: DeliveryKey)
    requires LaneInv(s) && Authorize(s, f, now).None? && AdmitNext(WindowOf(s, f.Publisher()), f.sequence).0
    ensures
      var s' := Accepted(s, f, AdmitNext(WindowOf(s, f.Publisher()), f.sequence).1, now);
      k in s'.queues ==> QueueOk(s'.routes, s'.sequences, k, s'.queues[k]) && |s'.queues[k]| <= s.config.maxFrames
  {
    hide FramesOk, Enqueued, Spent, AdmitSequence, Targets, Evicting;
    var p, route := f.Publisher(), s.routes[f.audience];
    var s' := Accepted(s, f, AdmitNext(WindowOf(s, p), f.sequence).1, now);
    if k in s'.queues {
      TargetIsReceiver(route, p, k);
      if k in s.queues {
        assert QueueOk(s.routes, s.sequences, k, s.queues[k]);
      }
      if k in Targets(route, p, Receivers(route, f.participant)) {
        EnqueueOk(s, f, now, k);
      } else if k.publisher == p {
        FramesStayOk(route, s.sequences[p], k, s.queues[k], f.sequence);
      }
    }
  }

  /** The queue of a target after the frame arrived. */
  lemma EnqueueOk(s: Lane, f: Frame, now: nat, k: DeliveryKey)
    requires LaneInv(s) && Authorize(s, f, now).None? && AdmitNext(WindowOf(s, f.Publisher()), f.sequence).0
    requires k.publisher == f.Publisher()
    ensures FramesOk(s.routes[f.audience], AdmitNext(WindowOf(s, f.Publisher()), f.sequence).1, k,
                     Enqueued(QueueOf(s.queues, k), f, now, s.config.maxFrames))
    ensures |Enqueued(QueueOf(s.queues, k), f, now, s.config.maxFrames)| <= s.config.maxFrames
  {
    var p, route := f.Publisher(), s.routes[f.audience];
    var q := QueueOf(s.queues, k);
    if k in s.queues {
      assert QueueOk(s.routes, s.sequences, k, q);
    }
    if p in s.sequences {
      AdmitRemembers(s.sequences[p], f.sequence, f.sequence);
      EnqueuedKeepsFrames(route, s.sequences[p], k, q, f, now, s.config.maxFrames);
    } else {
      assert q == [] && Enqueued(q, f, now, s.config.maxFrames) == [f];
      FirstRemembers(f.sequence, f.sequence);
    }
  }

  lemma PublishKeepsInv(s: Lane, f: Frame, now: nat)
    requires LaneInv(s)
    ensures LaneInv(Publish(s, f, now).0)
  {
    hide QueueOk, AdmitSequence, Evicting, Targets, CountPublish, Enqueued;
    var s' := PublishInner(s, f, now).0;
    if PublishInner(s, f, now).1.Ok? {
      forall k <- s'.queues
        ensures QueueOk(s'.routes, s'.sequences, k, s'.queues[k]) && |s'.queues[k]| <= s.config.maxFrames
      {
        PublishKeepsQueues(s, f, now, k);
      }
      if f.Publisher() in s.sequences {
        AdmitRemembers(s.sequences[f.Publisher()], f.sequence, f.sequence);
      }
      forall k <- s'.played
        ensures k in s'.queues && MarkOk(s'.sequences, k, s'.played[k])
      {
        assert MarkOk(s.sequences, k, s.played[k]);
      }
    }
  }

  lemma SweepKeepsQueues(
    config: Config, routes: map<AudienceKey, Snapshot>, sequences: map<PublisherKey, SequenceWindow>,
    queues: map<DeliveryKey, seq<Frame>>, endpoint: Id, now: nat)
    requires QueuesOk(config, routes, sequences, queues)
    ensures QueuesOk(config, routes, sequences, Swept(queues, endpoint, now))
  {
    hide FramesOk, ReceiverOk;
    forall k <- queues
      ensures QueueOk(routes, sequences, k, Swept(queues, endpoint, now)[k])
      ensures |Swept(queues, endpoint, now)[k]| <= config.maxFrames
    {
      var q := queues[k];
      assert QueueOk(routes, sequences, k, q);
      DropExpiredIsSuffix(q, now);
      SuffixOk(routes[k.publisher.audience], sequences[k.publisher], k, q, |q| - |DropExpired(q, now)|);
    }
  }

  lemma PullKeepsInv(s: Lane, endpoint: Id, now: nat, choice: Option<DeliveryKey>)
    requires LaneInv(s) && ValidChoice(Swept(s.queues, endpoint, now), endpoint, choice)
    ensures LaneInv(PullFrom(s, endpoint, now, choice).0)
  {
    hide FramesOk, Spent, ReceiverOk, Swept;
    var swept := Swept(s.queues, endpoint, now);
    SweepKeepsQueues(s.config, s.routes, s.sequences, s.queues, endpoint, now);
    assert swept.Keys == s.queues.Keys by { SweptKeys(s.queues, endpoint, now); }
    if choice.Some? {
      var k, q := choice.value, swept[choice.value];
      assert QueueOk(s.routes, s.sequences, k, q);
      SuffixOk(s.routes[k.publisher.audience], s.sequences[k.publisher], k, q, 1);
      FrontIsSpent(s.routes[k.publisher.audience], s.sequences[k.publisher], k, q);
      assert k in s.played ==> MarkOk(s.sequences, k, s.played[k]);
    }
  }

  lemma SweptKeys(queues: map<DeliveryKey, seq<Frame>>, endpoint: Id, now: nat)
    ensures Swept(queues, endpoint, now).Keys == queues.Keys
  {}

  lemma FrontIsSpent(route: Snapshot, window: SequenceWindow, k: DeliveryKey, q: seq<Frame>)
    requires FramesOk(route, window, k, q) && q != []
    ensures q[0].sequence <= window.highest && Spent(window, q[0].sequence)
  {}

  lemma AcknowledgeKeepsInv(s: Lane, ack: Ack, now: nat)
    requires LaneInv(s)
    ensures LaneInv(Acknowledge(s, ack, now).0)
  {
    hide QueueOk;
    if AckOutcome(s, ack).Ok? {
      assert MarkOk(s.sequences, ack.key, s.played[ack.key]);
    }
  }
}
