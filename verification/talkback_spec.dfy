/** The ephemeral talkback lane as a mathematical state machine: routes, replay windows, per
    publisher-and-receiver queues and playout marks, and what each call does to them. */
module TalkbackSpec {
  import opened Prelude
  import opened Totals
  import opened TalkbackWindow

  datatype Id = Id(name: string)

  datatype AudienceKey = AudienceKey(session: Id, audience: Id)

  datatype PublisherKey = PublisherKey(audience: AudienceKey, participant: Id, endpoint: Id)

  datatype DeliveryKey = DeliveryKey(publisher: PublisherKey, participant: Id, endpoint: Id)

  datatype Epochs = Epochs(session: nat, mediaAuthorization: nat, talkback: nat, policyVersion: nat)

  /** `deadline` is the first instant, in microseconds, at which the frame counts as expired. */
  datatype Frame = Frame(
    audience: AudienceKey, epochs: Epochs, participant: Id, endpoint: Id, subjectGrantEpoch: nat, sequence: nat,
    acceptedAt: nat, deadline: nat)
  {
    function Publisher(): PublisherKey {
      PublisherKey(audience, participant, endpoint)
    }

    predicate IsExpired(now: nat) {
      deadline <= now
    }
  }

  datatype Publisher = Publisher(participant: Id, endpoint: Id, subjectGrantEpoch: nat)

  /** `subscribers` maps each receiving endpoint to its participant. */
  datatype Snapshot = Snapshot(
    audience: AudienceKey, epochs: Epochs, publishers: set<Publisher>, subscribers: map<Id, Id>)

  datatype PlayedHighWater = PlayedHighWater(
    deliveredSequence: nat, acknowledgedSequence: Option<nat>, acknowledgedAt: Option<nat>)

  datatype Config = Config(maxFrames: nat, acknowledgementFreshness: nat) {
    predicate Valid() {
      0 < maxFrames <= 256 && 0 < acknowledgementFreshness <= 3_000_000
    }
  }

  datatype Counters = Counters(
    admitted: nat, queued: nat, mixMinus: nat, evictions: nat, expiredRejections: nat, replayRejections: nat,
    authorizationRejections: nat, pulled: nat, acceptedAcks: nat, rejectedAcks: nat, purged: nat)

  const NO_COUNTS: Counters := Counters(0, 0, 0, 0, 0, 0, 0, 0, 0, 0, 0)

  datatype Lane = Lane(
    config: Config,
    routes: map<AudienceKey, Snapshot>,
    sequences: map<PublisherKey, SequenceWindow>,
    queues: map<DeliveryKey, seq<Frame>>,
    played: map<DeliveryKey, PlayedHighWater>,
    counters: Counters)

  datatype Error =
    | RouteUnavailable
    | AuthorizationEpoch
    | PublisherNotAllowed
    | SubscriberNotAllowed
    | FrameReplay
    | FrameExpired
    | PlayoutBeyondDelivery
    | StaleAcknowledgement

  datatype Fanout = Fanout(queued: set<Id>, excluded: set<Id>)

  datatype Ack = Ack(key: DeliveryKey, sequence: nat)

  function Fresh(config: Config): Lane {
    Lane(config, map[], map[], map[], map[], NO_COUNTS)
  }

  const QueueLength: seq<Frame> -> nat := (q: seq<Frame>) => |q|

  /** Frames waiting in any queue. */
  ghost function QueuedFrames(queues: map<DeliveryKey, seq<Frame>>): nat {
    Total(queues, QueueLength)
  }

  // ---------------------------------------------------------------- purging

  function QueuesOf(queues: map<DeliveryKey, seq<Frame>>, gone: set<AudienceKey>): map<DeliveryKey, seq<Frame>> {
    map k | k in queues && k.publisher.audience in gone :: queues[k]
  }

  function SequencesWithout(sequences: map<PublisherKey, SequenceWindow>, gone: set<AudienceKey>)
    : map<PublisherKey, SequenceWindow>
  {
    map p | p in sequences && p.audience !in gone :: sequences[p]
  }

  function QueuesWithout(queues: map<DeliveryKey, seq<Frame>>, gone: set<AudienceKey>): map<DeliveryKey, seq<Frame>> {
    map k | k in queues && k.publisher.audience !in gone :: queues[k]
  }

  function PlayedWithout(played: map<DeliveryKey, PlayedHighWater>, gone: set<AudienceKey>)
    : map<DeliveryKey, PlayedHighWater>
  {
    map k | k in played && k.publisher.audience !in gone :: played[k]
  }

  /** All live state of some audiences is dropped, their queued frames counted as purged. */
  ghost function Purged(s: Lane, gone: set<AudienceKey>): Lane {
    s.(sequences := SequencesWithout(s.sequences, gone),
       queues := QueuesWithout(s.queues, gone),
       played := PlayedWithout(s.played, gone),
       counters := s.counters.(purged := s.counters.purged + QueuedFrames(QueuesOf(s.queues, gone))))
  }

  ghost function InstallSnapshot(s: Lane, snapshot: Snapshot): Lane {
    Purged(s, {snapshot.audience}).(routes := s.routes[snapshot.audience := snapshot])
  }

  ghost function RemoveAudiences(s: Lane, gone: set<AudienceKey>): Lane {
    Purged(s, gone).(routes := s.routes - gone)
  }

  /** The audiences of one session. */
  function SessionAudiences(routes: map<AudienceKey, Snapshot>, session: Id): set<AudienceKey> {
    set a | a in routes && a.session == session
  }

  ghost function EndSession(s: Lane, session: Id): Lane {
    RemoveAudiences(s, SessionAudiences(s.routes, session))
  }

  // ---------------------------------------------------------------- publishing

  predicate PublisherAllowed(route: Snapshot, f: Frame) {
    Publisher(f.participant, f.endpoint, f.subjectGrantEpoch) in route.publishers
  }

  /** What is checked before the replay window. */
  function Authorize(s: Lane, f: Frame, now: nat): Option<Error> {
    if f.IsExpired(now) then Some(FrameExpired)
    else if f.audience !in s.routes then Some(RouteUnavailable)
    else if s.routes[f.audience].epochs != f.epochs then Some(AuthorizationEpoch)
    else if !PublisherAllowed(s.routes[f.audience], f) then Some(PublisherNotAllowed)
    else None
  }

  function WindowOf(s: Lane, p: PublisherKey): Option<SequenceWindow> {
    if p in s.sequences then Some(s.sequences[p]) else None
  }

  /** Mix-minus: a publisher never receives its own audio back, on any endpoint. */
  function Excluded(route: Snapshot, participant: Id): set<Id> {
    set e | e in route.subscribers && route.subscribers[e] == participant
  }

  function Receivers(route: Snapshot, participant: Id): set<Id> {
    set e | e in route.subscribers && route.subscribers[e] != participant
  }

  function Delivery(route: Snapshot, p: PublisherKey, e: Id): DeliveryKey
    requires e in route.subscribers
  {
    DeliveryKey(p, route.subscribers[e], e)
  }

  function QueueOf(queues: map<DeliveryKey, seq<Frame>>, k: DeliveryKey): seq<Frame> {
    if k in queues then queues[k] else []
  }

  function Live(q: seq<Frame>, now: nat): seq<Frame> {
    if q == [] then []
    else Live(q[..|q| - 1], now) + (if q[|q| - 1].IsExpired(now) then [] else [q[|q| - 1]])
  }

  function Evicts(q: seq<Frame>, now: nat, max: nat): bool {
    |Live(q, now)| == max
  }

  /** Expired frames leave, the oldest leaves a full queue, and the new frame is last. */
  function Enqueued(q: seq<Frame>, f: Frame, now: nat, max: nat): seq<Frame> {
    var live := Live(q, now);
    (if Evicts(q, now, max) && live != [] then live[1..] else live) + [f]
  }

  function Targets(route: Snapshot, p: PublisherKey, endpoints: set<Id>): set<DeliveryKey> {
    set e | e in endpoints && e in route.subscribers :: Delivery(route, p, e)
  }

  /** The queues after one copy of the frame went to each target. */
  function FanOut(
    queues: map<DeliveryKey, seq<Frame>>, targets: set<DeliveryKey>, f: Frame, now: nat, max: nat)
    : map<DeliveryKey, seq<Frame>>
  {
    map k | k in queues.Keys + targets ::
      if k in targets then Enqueued(QueueOf(queues, k), f, now, max) else QueueOf(queues, k)
  }

  function Evicting(queues: map<DeliveryKey, seq<Frame>>, targets: set<DeliveryKey>, now: nat, max: nat)
    : set<DeliveryKey>
  {
    set k | k in targets && Evicts(QueueOf(queues, k), now, max)
  }

  /** An admitted frame: the replay window moves and the frame goes to every receiver. */
  function Accepted(s: Lane, f: Frame, window: SequenceWindow, now: nat): Lane
    requires f.audience in s.routes
  {
    var route := s.routes[f.audience];
    var targets := Targets(route, f.Publisher(), Receivers(route, f.participant));
    s.(sequences := s.sequences[f.Publisher() := window],
       queues := FanOut(s.queues, targets, f, now, s.config.maxFrames),
       counters := s.counters.(
         evictions := s.counters.evictions + |Evicting(s.queues, targets, now, s.config.maxFrames)|))
  }

  function PublishInner(s: Lane, f: Frame, now: nat): (Lane, Result<Fanout, Error>) {
    var refusal := Authorize(s, f, now);
    if refusal.Some? then (s, Err(refusal.value))
    else
      var (admitted, window) := AdmitNext(WindowOf(s, f.Publisher()), f.sequence);
      if !admitted then (s, Err(FrameReplay))
      else
        var route := s.routes[f.audience];
        (Accepted(s, f, window, now), Ok(Fanout(Receivers(route, f.participant), Excluded(route, f.participant))))
  }

  function CountPublish(c: Counters, r: Result<Fanout, Error>): Counters {
    match r
    case Ok(fanout) =>
      c.(admitted := c.admitted + 1, queued := c.queued + |fanout.queued|, mixMinus := c.mixMinus + |fanout.excluded|)
    case Err(FrameExpired) => c.(expiredRejections := c.expiredRejections + 1)
    case Err(FrameReplay) => c.(replayRejections := c.replayRejections + 1)
    case Err(RouteUnavailable) | Err(AuthorizationEpoch) | Err(PublisherNotAllowed) =>
      c.(authorizationRejections := c.authorizationRejections + 1)
    case Err(_) => c
  }

  function Publish(s: Lane, f: Frame, now: nat): (Lane, Result<Fanout, Error>) {
    var (s', r) := PublishInner(s, f, now);
    (s'.(counters := CountPublish(s'.counters, r)), r)
  }

  // ---------------------------------------------------------------- pulling

  function DropExpired(q: seq<Frame>, now: nat): seq<Frame> {
    if q != [] && q[0].IsExpired(now) then DropExpired(q[1..], now) else q
  }

  /** The receiver's queues, each without the expired frames at its front. */
  function Swept(queues: map<DeliveryKey, seq<Frame>>, endpoint: Id, now: nat): map<DeliveryKey, seq<Frame>> {
    map k | k in queues :: if k.endpoint == endpoint then DropExpired(queues[k], now) else queues[k]
  }

  predicate Candidate(queues: map<DeliveryKey, seq<Frame>>, endpoint: Id, k: DeliveryKey) {
    k in queues && k.endpoint == endpoint && queues[k] != []
  }

  predicate NotLater(a: Frame, b: Frame) {
    a.acceptedAt < b.acceptedAt || (a.acceptedAt == b.acceptedAt && a.sequence <= b.sequence)
  }

  /** The queue pulled from: some queue whose front is oldest; none only when all are empty. */
  ghost predicate ValidChoice(queues: map<DeliveryKey, seq<Frame>>, endpoint: Id, choice: Option<DeliveryKey>) {
    match choice
    case None => forall k <- queues :: !Candidate(queues, endpoint, k)
    case Some(best) =>
      && Candidate(queues, endpoint, best)
      && forall k <- queues :: Candidate(queues, endpoint, k) ==> NotLater(queues[best][0], queues[k][0])
  }

  function MarkDelivered(played: map<DeliveryKey, PlayedHighWater>, k: DeliveryKey, sequence: nat)
    : map<DeliveryKey, PlayedHighWater>
  {
    played[k :=
      if k in played then played[k].(deliveredSequence := Max(played[k].deliveredSequence, sequence))
      else PlayedHighWater(sequence, None, None)]
  }

  /** A pull from the chosen queue. */
  function PullFrom(s: Lane, endpoint: Id, now: nat, choice: Option<DeliveryKey>): (Lane, Option<Frame>)
    requires choice.Some? ==> Candidate(Swept(s.queues, endpoint, now), endpoint, choice.value)
  {
    var queues := Swept(s.queues, endpoint, now);
    match choice
    case None => (s.(queues := queues), None)
    case Some(k) =>
      var frame := queues[k][0];
      (s.(queues := queues[k := queues[k][1..]],
          played := MarkDelivered(s.played, k, frame.sequence),
          counters := s.counters.(pulled := s.counters.pulled + 1)),
       Some(frame))
  }

  // ---------------------------------------------------------------- playout acknowledgements

  function AckRefusal(s: Lane, ack: Ack): Option<Error> {
    if ack.key.publisher.audience !in s.routes then Some(RouteUnavailable)
    else
      var subscribers := s.routes[ack.key.publisher.audience].subscribers;
      if ack.key.endpoint !in subscribers || subscribers[ack.key.endpoint] != ack.key.participant
      then Some(SubscriberNotAllowed)
      else None
  }

  function AckOutcome(s: Lane, ack: Ack): Result<(), Error> {
    var refusal := AckRefusal(s, ack);
    if refusal.Some? then Err(refusal.value)
    else if ack.key !in s.played || ack.sequence > s.played[ack.key].deliveredSequence then Err(PlayoutBeyondDelivery)
    else
      var previous := s.played[ack.key].acknowledgedSequence;
      if previous.Some? && ack.sequence <= previous.value then Err(StaleAcknowledgement) else Ok(())
  }

  function Acknowledge(s: Lane, ack: Ack, now: nat): (Lane, Result<(), Error>) {
    var r := AckOutcome(s, ack);
    if r.Ok? && ack.key in s.played then
      (s.(played := s.played[ack.key := s.played[ack.key].(
                      acknowledgedSequence := Some(ack.sequence), acknowledgedAt := Some(now))],
          counters := s.counters.(acceptedAcks := s.counters.acceptedAcks + 1)), r)
    else (s.(counters := s.counters.(rejectedAcks := s.counters.rejectedAcks + 1)), r)
  }

  predicate IsReceiving(s: Lane, ack: Ack, now: nat) {
    && AckRefusal(s, ack).None?
    && ack.key in s.played
    && s.played[ack.key].acknowledgedSequence == Some(ack.sequence)
    && s.played[ack.key].acknowledgedAt.Some?
    && SatSub(now, s.played[ack.key].acknowledgedAt.value) < s.config.acknowledgementFreshness
  }
}
