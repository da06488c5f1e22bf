/** What any run of the talkback lane keeps: route safety, one pull per sequence, nothing left of an ended
    session, frame conservation, and the merge order of a drained receiver. */
module TalkbackRuns {
  import opened Prelude
  import opened Totals
  import opened TalkbackWindow
  import opened TalkbackSpec
  import opened TalkbackInvariants

  datatype Op =
    | Install(snapshot: Snapshot)
    | Remove(audience: AudienceKey)
    | End(session: Id)
    | Send(frame: Frame, now: nat)
    | Pull(endpoint: Id, now: nat, choice: Option<DeliveryKey>)
    | Play(ack: Ack, now: nat)

  ghost predicate Enabled(s: Lane, op: Op) {
    op.Pull? ==> ValidChoice(Swept(s.queues, op.endpoint, op.now), op.endpoint, op.choice)
  }

  ghost function Step(s: Lane, op: Op): Lane
    requires Enabled(s, op)
  {
    match op
    case Install(snapshot) => InstallSnapshot(s, snapshot)
    case Remove(a) => RemoveAudiences(s, {a})
    case End(session) => EndSession(s, session)
    case Send(f, now) => Publish(s, f, now).0
    case Pull(endpoint, now, choice) => PullFrom(s, endpoint, now, choice).0
    case Play(ack, now) => Acknowledge(s, ack, now).0
  }

  ghost predicate StepAt(states: seq<Lane>, ops: seq<Op>, i: nat) {
    && i < |ops| && i + 1 < |states|
    && Enabled(states[i], ops[i])
    && states[i + 1] == Step(states[i], ops[i])
  }

  ghost predicate IsRun(config: Config, states: seq<Lane>, ops: seq<Op>) {
    && config.Valid()
    && |states| == |ops| + 1
    && states[0] == Fresh(config)
    && forall i :: 0 <= i < |ops| ==> StepAt(states, ops, i)
  }

  lemma StepKeepsInv(s: Lane, op: Op)
    requires LaneInv(s) && Enabled(s, op)
    ensures LaneInv(Step(s, op))
  {
    hide LaneInv, InstallSnapshot, RemoveAudiences, Publish, PullFrom, Acknowledge, ValidChoice, Swept;
    match op
    case Install(snapshot) => InstallKeepsInv(s, snapshot);
    case Remove(a) => RemovalKeepsInv(s, {a});
    case End(session) => RemovalKeepsInv(s, SessionAudiences(s.routes, session));
    case Send(f, now) => PublishKeepsInv(s, f, now);
    case Pull(endpoint, now, choice) => PullKeepsInv(s, endpoint, now, choice);
    case Play(ack, now) => AcknowledgeKeepsInv(s, ack, now);
  }

  lemma {:induction false} RunKeepsInv(config: Config, states: seq<Lane>, ops: seq<Op>, n: nat)
    requires IsRun(config, states, ops) && n < |states|
    ensures LaneInv(states[n])
  {
    hide LaneInv, Step, Enabled;
    if n == 0 {
      FreshInv(config);
    } else {
      RunKeepsInv(config, states, ops, n - 1);
      assert StepAt(states, ops, n - 1);
      StepKeepsInv(states[n - 1], ops[n - 1]);
    }
  }

  // ---------------------------------------------------------------- route safety

  /** Every queued frame carries the installed route's epochs, comes from one of its publishers, goes to one
      of its subscribers, and never returns to a participant's own endpoint. */
  lemma RouteSafety(config: Config, states: seq<Lane>, ops: seq<Op>, n: nat, k: DeliveryKey, f: Frame)
    requires IsRun(config, states, ops) && n < |states|
    requires k in states[n].queues && f in states[n].queues[k]
    ensures f.audience in states[n].routes
    ensures
      var route := states[n].routes[f.audience];
      && f.epochs == route.epochs
      && Publisher(f.participant, f.endpoint, f.subjectGrantEpoch) in route.publishers
      && k.publisher == PublisherKey(f.audience, f.participant, f.endpoint)
      && k.endpoint in route.subscribers && route.subscribers[k.endpoint] == k.participant
      && k.participant != f.participant
    ensures |states[n].queues[k]| <= config.maxFrames
  {
    RunKeepsInv(config, states, ops, n);
    assert QueueOk(states[n].routes, states[n].sequences, k, states[n].queues[k]);
    ConfigConstant(config, states, ops, n);
  }

  lemma {:induction false} ConfigConstant(config: Config, states: seq<Lane>, ops: seq<Op>, n: nat)
    requires IsRun(config, states, ops) && n < |states|
    ensures states[n].config == config
  {
    hide Swept, FanOut, ValidChoice, AckOutcome, Authorize, AdmitSequence;
    if n > 0 {
      ConfigConstant(config, states, ops, n - 1);
      assert StepAt(states, ops, n - 1);
    }
  }

  /** Once a session ended, nothing in the lane mentions it. */
  lemma EndedSessionIsGone(config: Config, states: seq<Lane>, ops: seq<Op>, n: nat)
    requires IsRun(config, states, ops) && n < |ops| && ops[n].End?
    ensures
      var s, session := states[n + 1], ops[n].session;
      && (forall a <- s.routes :: a.session != session)
      && (forall p <- s.sequences :: p.audience.session != session)
      && (forall k <- s.queues :: k.publisher.audience.session != session)
      && (forall k <- s.played :: k.publisher.audience.session != session)
  {
    hide QueuedFrames, FramesOk, ReceiverOk;
    var s, s', session := states[n], states[n + 1], ops[n].session;
    assert StepAt(states, ops, n);
    RunKeepsInv(config, states, ops, n);
    forall k <- s.queues
      ensures k.publisher.audience in s.routes
    {
      assert QueueOk(s.routes, s.sequences, k, s.queues[k]);
    }
  }

  // ---------------------------------------------------------------- at most one pull per sequence

  /** The delivery a pull makes: the queue and the sequence number. */
  function Pulled(s: Lane, op: Op): Option<(DeliveryKey, nat)> {
    if op.Pull? && op.choice.Some? then
      var swept := Swept(s.queues, op.endpoint, op.now);
      if Candidate(swept, op.endpoint, op.choice.value)
      then Some((op.choice.value, swept[op.choice.value][0].sequence)) else None
    else None
  }

  /** The operations that end the installed snapshot of an audience. */
  predicate Purges(op: Op, a: AudienceKey) {
    match op
    case Install(snapshot) => snapshot.audience == a
    case Remove(audience) => audience == a
    case End(session) => session == a.session
    case _ => false
  }

  /** The sequence can neither be queued again nor is it waiting. */
  ghost predicate Gone(s: Lane, k: DeliveryKey, sequence: nat) {
    && k.publisher in s.sequences
    && Spent(s.sequences[k.publisher], sequence)
    && forall f <- QueueOf(s.queues, k) :: f.sequence != sequence
  }

  lemma PulledIsGone(s: Lane, endpoint: Id, now: nat, k: DeliveryKey)
    requires LaneInv(s) && Candidate(Swept(s.queues, endpoint, now), endpoint, k)
    ensures Gone(PullFrom(s, endpoint, now, Some(k)).0, k, Swept(s.queues, endpoint, now)[k][0].sequence)
  {
    hide Spent, ReceiverOk, Swept, FrameOk;
    var q := Swept(s.queues, endpoint, now)[k];
    SweepKeepsQueues(s.config, s.routes, s.sequences, s.queues, endpoint, now);
    assert QueueOk(s.routes, s.sequences, k, q);
    FrontIsSpent(s.routes[k.publisher.audience], s.sequences[k.publisher], k, q);
  }

  lemma SweptHasNoNewFrames(queues: map<DeliveryKey, seq<Frame>>, endpoint: Id, now: nat, k: DeliveryKey, f: Frame)
    requires k in queues && f in Swept(queues, endpoint, now)[k]
    ensures f in queues[k]
  {
    DropExpiredIsSuffix(queues[k], now);
  }

  lemma EnqueuedHasOnlyOneNewFrame(q: seq<Frame>, f: Frame, now: nat, max: nat, g: Frame)
    requires g in Enqueued(q, f, now, max)
    ensures g == f || g in q
  {
    LiveKeepsFrames(q, now);
  }

  lemma PublishKeepsGone(s: Lane, f: Frame, now: nat, k: DeliveryKey, sequence: nat)
    requires Gone(s, k, sequence) && Authorize(s, f, now).None?
    requires AdmitNext(WindowOf(s, f.Publisher()), f.sequence).0
    ensures Gone(Accepted(s, f, AdmitNext(WindowOf(s, f.Publisher()), f.sequence).1, now), k, sequence)
  {
    hide Enqueued, Evicting, Spent, AdmitSequence, Receivers;
    var p := f.Publisher();
    var s' := Accepted(s, f, AdmitNext(WindowOf(s, p), f.sequence).1, now);
    if p == k.publisher {
      SpentForever(s.sequences[p], f.sequence, sequence);
      AdmitRemembers(s.sequences[p], f.sequence, f.sequence);
      assert f.sequence != sequence;
    }
    forall g <- QueueOf(s'.queues, k)
      ensures g.sequence != sequence
    {
      var targets := Targets(s.routes[f.audience], p, Receivers(s.routes[f.audience], f.participant));
      if k in targets {
        assert k.publisher == p;
        EnqueuedHasOnlyOneNewFrame(QueueOf(s.queues, k), f, now, s.config.maxFrames, g);
      }
    }
  }

  lemma PullKeepsGone(s: Lane, endpoint: Id, now: nat, choice: Option<DeliveryKey>, k: DeliveryKey, sequence: nat)
    requires Gone(s, k, sequence) && ValidChoice(Swept(s.queues, endpoint, now), endpoint, choice)
    ensures Gone(PullFrom(s, endpoint, now, choice).0, k, sequence)
  {
    hide Spent;
    var s' := PullFrom(s, endpoint, now, choice).0;
    forall f <- QueueOf(s'.queues, k)
      ensures f.sequence != sequence
    {
      assert k in s.queues && f in Swept(s.queues, endpoint, now)[k];
      SweptHasNoNewFrames(s.queues, endpoint, now, k, f);
    }
  }

  lemma RemovalKeepsGone(s: Lane, gone: set<AudienceKey>, k: DeliveryKey, sequence: nat)
    requires Gone(s, k, sequence) && k.publisher.audience !in gone
    ensures Gone(Purged(s, gone), k, sequence)
  {
    hide Spent, QueuedFrames;
  }

  lemma StepKeepsGone(s: Lane, op: Op, k: DeliveryKey, sequence: nat)
    requires Enabled(s, op) && Gone(s, k, sequence) && !Purges(op, k.publisher.audience)
    ensures Gone(Step(s, op), k, sequence)
  {
    hide Spent, Purged, PullFrom, ValidChoice, Swept, AckOutcome, AdmitSequence, Accepted, Authorize;
    match op
    case Install(snapshot) => RemovalKeepsGone(s, {snapshot.audience}, k, sequence);
    case Remove(a) => RemovalKeepsGone(s, {a}, k, sequence);
    case End(session) => RemovalKeepsGone(s, SessionAudiences(s.routes, session), k, sequence);
    case Send(f, now) =>
      if PublishInner(s, f, now).1.Ok? {
        PublishKeepsGone(s, f, now, k, sequence);
      }
    case Pull(endpoint, now, choice) => PullKeepsGone(s, endpoint, now, choice, k, sequence);
    case Play(_, _) =>
  }

  lemma {:induction false} RunKeepsGone(states: seq<Lane>, ops: seq<Op>, i: nat, j: nat, k: DeliveryKey, sequence: nat)
    requires |states| == |ops| + 1 && i <= j < |states|
    requires forall n :: i <= n < j ==> StepAt(states, ops, n)
    requires Gone(states[i], k, sequence) && forall n :: i <= n < j ==> !Purges(ops[n], k.publisher.audience)
    ensures Gone(states[j], k, sequence)
  {
    hide Gone, Step, Enabled, Purges;
    if i < j {
      RunKeepsGone(states, ops, i, j - 1, k, sequence);
      assert StepAt(states, ops, j - 1);
      StepKeepsGone(states[j - 1], ops[j - 1], k, sequence);
    }
  }

  /** A delivery key pulls a given sequence at most once per installed snapshot. */
  lemma PulledOncePerSnapshot(config: Config, states: seq<Lane>, ops: seq<Op>, i: nat, j: nat)
    requires IsRun(config, states, ops) && i < j < |ops|
    requires Pulled(states[i], ops[i]).Some? && Pulled(states[j], ops[j]) == Pulled(states[i], ops[i])
    ensures exists n :: i < n < j && Purges(ops[n], Pulled(states[i], ops[i]).value.0.publisher.audience)
  {
    hide LaneInv, Gone, ValidChoice, Swept, Purges;
    var (k, sequence) := Pulled(states[i], ops[i]).value;
    if forall n :: i < n < j ==> !Purges(ops[n], k.publisher.audience) {
      assert StepAt(states, ops, i) && StepAt(states, ops, j);
      RunKeepsInv(config, states, ops, i);
      PulledIsGone(states[i], ops[i].endpoint, ops[i].now, k);
      RunKeepsGone(states, ops, i + 1, j, k, sequence);
      PulledWasWaiting(states[j], ops[j].endpoint, ops[j].now, k);
      assert false;
    }
  }

  lemma PulledWasWaiting(s: Lane, endpoint: Id, now: nat, k: DeliveryKey)
    requires Candidate(Swept(s.queues, endpoint, now), endpoint, k)
    ensures !Gone(s, k, Swept(s.queues, endpoint, now)[k][0].sequence)
  {
    var f := Swept(s.queues, endpoint, now)[k][0];
    SweptHasNoNewFrames(s.queues, endpoint, now, k, f);
    assert f in QueueOf(s.queues, k);
  }

  // ---------------------------------------------------------------- playout

  /** Right after an accepted acknowledgement the receiver counts as receiving that very sequence, for as
      long as the acknowledgement is fresh, and no other; it is one that was delivered and is newer than any
      acknowledged before. */
  lemma AcknowledgedIsReceiving(s: Lane, ack: Ack, at: nat, now: nat, other: nat)
    requires Acknowledge(s, ack, at).1.Ok?
    ensures
      var s' := Acknowledge(s, ack, at).0;
      && (IsReceiving(s', ack, now) <==> SatSub(now, at) < s.config.acknowledgementFreshness)
      && (other != ack.sequence ==> !IsReceiving(s', ack.(sequence := other), now))
      && ack.key in s.played && ack.sequence <= s.played[ack.key].deliveredSequence
      && (s.played[ack.key].acknowledgedSequence.Some? ==>
            s.played[ack.key].acknowledgedSequence.value < ack.sequence)
  {}

  ghost predicate AckRecorded(s: Lane, k: DeliveryKey, sequence: nat, at: nat) {
    && k in s.played
    && s.played[k].acknowledgedSequence == Some(sequence)
    && s.played[k].acknowledgedAt == Some(at)
  }

  lemma AudienceIsRouted(s: Lane, k: DeliveryKey)
    requires LaneInv(s) && k in s.played
    ensures k.publisher.audience in s.routes
  {
    assert MarkOk(s.sequences, k, s.played[k]);
    assert QueueOk(s.routes, s.sequences, k, s.queues[k]);
  }

  /** A recorded acknowledgement was there before, or this step accepted it. */
  lemma StepRecordsAck(s: Lane, op: Op, k: DeliveryKey, sequence: nat, at: nat)
    requires LaneInv(s) && Enabled(s, op) && AckRecorded(Step(s, op), k, sequence, at)
    ensures
      || (AckRecorded(s, k, sequence, at) && !Purges(op, k.publisher.audience))
      || (op == Play(Ack(k, sequence), at) && AckOutcome(s, Ack(k, sequence)).Ok?)
  {
    if k in s.played {
      AudienceIsRouted(s, k);
    }
    if op.Send? {
      PublishKeepsPlayed(s, op.frame, op.now);
    }
    hide LaneInv, Swept, ValidChoice, Publish, QueuedFrames, QueuesWithout, SequencesWithout;
  }

  lemma PublishKeepsPlayed(s: Lane, f: Frame, now: nat)
    ensures Publish(s, f, now).0.played == s.played
  {}

  /** A receiver counts as receiving a sequence only if some call accepted the acknowledgement of it within
      the freshness limit, and the audience was not replaced or ended since. */
  lemma {:induction false} ReceivingWasAcknowledged(
    config: Config, states: seq<Lane>, ops: seq<Op>, n: nat, k: DeliveryKey, sequence: nat, at: nat)
    requires IsRun(config, states, ops) && n < |states| && AckRecorded(states[n], k, sequence, at)
    ensures exists i :: 0 <= i < n && ops[i] == Play(Ack(k, sequence), at)
                        && AckOutcome(states[i], Ack(k, sequence)).Ok?
                        && forall m :: i < m < n ==> !Purges(ops[m], k.publisher.audience)
  {
    hide LaneInv, Step, Enabled, AckRecorded, Purges, AckOutcome;
    if n == 0 {
      NothingRecorded(config, k, sequence, at);
    } else {
      assert StepAt(states, ops, n - 1);
      RunKeepsInv(config, states, ops, n - 1);
      StepRecordsAck(states[n - 1], ops[n - 1], k, sequence, at);
      if AckRecorded(states[n - 1], k, sequence, at) && !Purges(ops[n - 1], k.publisher.audience) {
        ReceivingWasAcknowledged(config, states, ops, n - 1, k, sequence, at);
      }
    }
  }

  lemma NothingRecorded(config: Config, k: DeliveryKey, sequence: nat, at: nat)
    ensures !AckRecorded(Fresh(config), k, sequence, at)
  {}
}
