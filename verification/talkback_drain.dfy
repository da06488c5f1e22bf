/** Draining one receiver at a fixed clock, and where every queued frame goes. */
module TalkbackDrain {
  import opened Prelude
  import opened Totals
  import opened TalkbackSpec
  import opened TalkbackInvariants
  import opened TalkbackRuns

  type Log = seq<(DeliveryKey, Frame)>

  // ---------------------------------------------------------------- a complete drain

  /** Pulling until nothing is left hands out exactly the frames of the log, in this order. */
  ghost predicate Drains(s: Lane, endpoint: Id, now: nat, log: Log)
    decreases |log|
  {
    var swept := Swept(s.queues, endpoint, now);
    if log == [] then ValidChoice(swept, endpoint, None)
    else
      var (k, f) := log[0];
      && ValidChoice(swept, endpoint, Some(k))
      && f == swept[k][0]
      && Drains(PullFrom(s, endpoint, now, Some(k)).0, endpoint, now, log[1..])
  }

  /** The frames one queue contributed, in the order they came out. */
  function FramesFrom(log: Log, k: DeliveryKey): seq<Frame> {
    if log == [] then [] else (if log[0].0 == k then [log[0].1] else []) + FramesFrom(log[1..], k)
  }

  lemma {:induction false} LiveCons(f: Frame, q: seq<Frame>, now: nat)
    ensures Live([f] + q, now) == (if f.IsExpired(now) then [] else [f]) + Live(q, now)
  {
    if q == [] {
      assert [f] + q == [] + [f];
      LiveSnoc([], f, now);
    } else {
      var front, last := q[..|q| - 1], q[|q| - 1];
      LiveCons(f, front, now);
      LiveSnoc([f] + front, last, now);
      assert [f] + q == ([f] + front) + [last];
    }
  }

  lemma {:induction false} LiveAfterSweep(q: seq<Frame>, now: nat)
    ensures Live(DropExpired(q, now), now) == Live(q, now)
    decreases |q|
  {
    if q != [] && q[0].IsExpired(now) {
      LiveCons(q[0], q[1..], now);
      assert [q[0]] + q[1..] == q;
      LiveAfterSweep(q[1..], now);
    }
  }

  lemma {:induction false} SweptFrontIsLive(q: seq<Frame>, now: nat)
    ensures DropExpired(q, now) != [] ==> !DropExpired(q, now)[0].IsExpired(now)
    decreases |q|
  {
    if q != [] && q[0].IsExpired(now) {
      SweptFrontIsLive(q[1..], now);
    }
  }

  /** One pull takes the first unexpired frame of the chosen queue and leaves the other queues' ones. */
  lemma PullTakesFirstLive(s: Lane, endpoint: Id, now: nat, best: DeliveryKey, k: DeliveryKey)
    requires Candidate(Swept(s.queues, endpoint, now), endpoint, best) && k in s.queues && k.endpoint == endpoint
    ensures
      var s' := PullFrom(s, endpoint, now, Some(best)).0;
      && k in s'.queues
      && Live(s.queues[k], now)
         == (if best == k then [Swept(s.queues, endpoint, now)[k][0]] else []) + Live(s'.queues[k], now)
  {
    hide Live, DropExpired;
    var q := DropExpired(s.queues[k], now);
    LiveAfterSweep(s.queues[k], now);
    if best == k {
      SweptFrontIsLive(s.queues[k], now);
      LiveCons(q[0], q[1..], now);
      assert [q[0]] + q[1..] == q;
    }
  }

  /** A drained receiver gets exactly its unexpired frames, once each, first in first out per queue. */
  lemma {:induction false} DrainYieldsLiveFrames(s: Lane, endpoint: Id, now: nat, log: Log, k: DeliveryKey)
    requires Drains(s, endpoint, now, log) && k in s.queues && k.endpoint == endpoint
    ensures FramesFrom(log, k) == Live(s.queues[k], now)
    decreases |log|
  {
    hide Live, DropExpired, PullFrom, NotLater;
    if log == [] {
      LiveAfterSweep(s.queues[k], now);
      assert !Candidate(Swept(s.queues, endpoint, now), endpoint, k);
      LiveKeepsFrames([], now);
    } else {
      PullTakesFirstLive(s, endpoint, now, log[0].0, k);
      DrainYieldsLiveFrames(PullFrom(s, endpoint, now, Some(log[0].0)).0, endpoint, now, log[1..], k);
    }
  }

  /** Nothing else comes out. */
  lemma {:induction false} DrainedFramesWereQueued(s: Lane, endpoint: Id, now: nat, log: Log, i: nat)
    requires Drains(s, endpoint, now, log) && i < |log|
    ensures
      var (k, f) := log[i];
      k in s.queues && k.endpoint == endpoint && f in DropExpired(s.queues[k], now)
    decreases |log|
  {
    var s' := PullFrom(s, endpoint, now, Some(log[0].0)).0;
    if i > 0 {
      DrainedFramesWereQueued(s', endpoint, now, log[1..], i - 1);
      var (k, f) := log[i];
      DropExpiredIsSuffix(s'.queues[k], now);
    }
  }

  ghost predicate Sorted(q: seq<Frame>) {
    forall i, j :: 0 <= i < j < |q| ==> NotLater(q[i], q[j])
  }

  ghost predicate ReceiverSorted(queues: map<DeliveryKey, seq<Frame>>, endpoint: Id) {
    forall k <- queues :: k.endpoint == endpoint ==> Sorted(queues[k])
  }

  lemma PullKeepsSorted(s: Lane, endpoint: Id, now: nat, k: DeliveryKey)
    requires ReceiverSorted(s.queues, endpoint) && Candidate(Swept(s.queues, endpoint, now), endpoint, k)
    ensures ReceiverSorted(PullFrom(s, endpoint, now, Some(k)).0.queues, endpoint)
  {
    var s' := PullFrom(s, endpoint, now, Some(k)).0;
    forall j <- s'.queues | j.endpoint == endpoint
      ensures Sorted(s'.queues[j])
    {
      DropExpiredIsSuffix(s.queues[j], now);
      assert Sorted(s.queues[j]);
    }
  }

  /** The frame pulled first is not later than any frame waiting for the receiver. */
  lemma OldestFirst(s: Lane, endpoint: Id, now: nat, best: DeliveryKey, k: DeliveryKey, f: Frame)
    requires ReceiverSorted(s.queues, endpoint)
    requires ValidChoice(Swept(s.queues, endpoint, now), endpoint, Some(best))
    requires k in s.queues && k.endpoint == endpoint && f in DropExpired(s.queues[k], now)
    ensures NotLater(Swept(s.queues, endpoint, now)[best][0], f)
  {
    var q := DropExpired(s.queues[k], now);
    DropExpiredIsSuffix(s.queues[k], now);
    assert Sorted(s.queues[k]);
    assert Candidate(Swept(s.queues, endpoint, now), endpoint, k);
    assert f == q[0] || NotLater(q[0], f);
  }

  /** When every queue is in (accepted time, sequence) order, so is the whole drain. */
  lemma {:induction false} DrainIsOrdered(s: Lane, endpoint: Id, now: nat, log: Log, i: nat, j: nat)
    requires Drains(s, endpoint, now, log) && ReceiverSorted(s.queues, endpoint) && i < j < |log|
    ensures
      var (a, b) := (log[i].1, log[j].1);
      a.acceptedAt < b.acceptedAt || (a.acceptedAt == b.acceptedAt && a.sequence <= b.sequence)
    decreases |log|
  {
    var s' := PullFrom(s, endpoint, now, Some(log[0].0)).0;
    if i == 0 {
      DrainedFramesWereQueued(s, endpoint, now, log, j);
      OldestFirst(s, endpoint, now, log[0].0, log[j].0, log[j].1);
    } else {
      PullKeepsSorted(s, endpoint, now, log[0].0);
      DrainIsOrdered(s', endpoint, now, log[1..], i - 1, j - 1);
    }
  }

  // ---------------------------------------------------------------- every state can be drained

  lemma {:induction false} SomeChoice(queues: map<DeliveryKey, seq<Frame>>, endpoint: Id, among: set<DeliveryKey>)
    returns (choice: Option<DeliveryKey>)
    requires among <= queues.Keys
    ensures choice.None? ==> forall k <- among :: !Candidate(queues, endpoint, k)
    ensures choice.Some? ==>
              && choice.value in among && Candidate(queues, endpoint, choice.value)
              && forall k <- among :: Candidate(queues, endpoint, k) ==> NotLater(queues[choice.value][0], queues[k][0])
    decreases among
  {
    if among == {} {
      return None;
    }
    var k :| k in among;
    choice := SomeChoice(queues, endpoint, among - {k});
    if Candidate(queues, endpoint, k) && (choice.None? || !NotLater(queues[choice.value][0], queues[k][0])) {
      choice := Some(k);
    }
  }

  lemma {:induction false} DrainExists(s: Lane, endpoint: Id, now: nat) returns (log: Log)
    ensures Drains(s, endpoint, now, log)
    decreases QueuedFrames(s.queues)
  {
    var swept := Swept(s.queues, endpoint, now);
    var choice := SomeChoice(swept, endpoint, swept.Keys);
    if choice.None? {
      return [];
    }
    var k := choice.value;
    var s' := PullFrom(s, endpoint, now, choice).0;
    SweepTotal(s.queues, endpoint, now);
    TotalReplace(swept, QueueLength, k, swept[k][1..]);
    var rest := DrainExists(s', endpoint, now);
    log := [(k, swept[k][0])] + rest;
    assert log[1..] == rest;
  }

  // ---------------------------------------------------------------- frames that expire in a queue

  /** How many frames of a queue have expired. */
  function ExpiredCount(q: seq<Frame>, now: nat): nat {
    if q == [] then 0 else ExpiredCount(q[..|q| - 1], now) + (if q[|q| - 1].IsExpired(now) then 1 else 0)
  }

  /** How many expired frames stand in front of the first one that has not. */
  function ExpiredFront(q: seq<Frame>, now: nat): nat {
    if q != [] && q[0].IsExpired(now) then 1 + ExpiredFront(q[1..], now) else 0
  }

  function Expired(now: nat): seq<Frame> -> nat {
    q => ExpiredCount(q, now)
  }

  function ExpiredAhead(now: nat): seq<Frame> -> nat {
    q => ExpiredFront(q, now)
  }

  lemma {:induction false} LiveLosesExpired(q: seq<Frame>, now: nat)
    ensures |Live(q, now)| + ExpiredCount(q, now) == |q|
  {
    if q != [] {
      LiveLosesExpired(q[..|q| - 1], now);
    }
  }

  lemma {:induction false} DropLosesFront(q: seq<Frame>, now: nat)
    ensures |DropExpired(q, now)| + ExpiredFront(q, now) == |q|
  {
    if q != [] && q[0].IsExpired(now) {
      DropLosesFront(q[1..], now);
    }
  }

  /** The queues of some keys, and all others. */
  function Only(queues: map<DeliveryKey, seq<Frame>>, keys: set<DeliveryKey>): map<DeliveryKey, seq<Frame>> {
    map k | k in queues && k in keys :: queues[k]
  }

  function KeysTo(queues: map<DeliveryKey, seq<Frame>>, endpoint: Id): set<DeliveryKey> {
    set k | k in queues && k.endpoint == endpoint
  }

  lemma SplitTotal(queues: map<DeliveryKey, seq<Frame>>, keys: set<DeliveryKey>)
    ensures QueuedFrames(queues) == QueuedFrames(queues - keys) + QueuedFrames(Only(queues, keys))
  {
    var mine, others := Only(queues, keys), queues - keys;
    TotalUnion(others, mine, QueueLength);
    assert others + mine == queues;
  }

  /** A sweep takes exactly the expired fronts of the receiver's queues. */
  lemma SweepTotal(queues: map<DeliveryKey, seq<Frame>>, endpoint: Id, now: nat)
    ensures QueuedFrames(Swept(queues, endpoint, now)) + Total(Only(queues, KeysTo(queues, endpoint)), ExpiredAhead(now))
         == QueuedFrames(queues)
  {
    var swept, keys := Swept(queues, endpoint, now), KeysTo(queues, endpoint);
    SplitTotal(queues, keys);
    SplitTotal(swept, keys);
    assert swept - keys == queues - keys;
    var mine, rest := Only(queues, keys), Only(swept, keys);
    forall k <- rest
      ensures QueueLength(rest[k]) + ExpiredAhead(now)(mine[k]) == QueueLength(mine[k])
    {
      DropLosesFront(queues[k], now);
    }
    TotalLost(rest, mine, QueueLength, ExpiredAhead(now));
  }

  // ---------------------------------------------------------------- conservation

  /** How many frames a call drops because they expired: a publish clears the queues it appends to of every
      expired frame, a pull clears the fronts of the receiver's queues. */
  ghost function ExpiredIn(s: Lane, op: Op): nat {
    match op
    case Send(f, now) =>
      if PublishInner(s, f, now).1.Ok? then
        var route := s.routes[f.audience];
        Total(Only(s.queues, Targets(route, f.Publisher(), Receivers(route, f.participant))), Expired(now))
      else 0
    case Pull(endpoint, now, _) => Total(Only(s.queues, KeysTo(s.queues, endpoint)), ExpiredAhead(now))
    case _ => 0
  }

  ghost function ExpiredBefore(states: seq<Lane>, ops: seq<Op>, n: nat): nat
    requires n <= |ops| && n < |states|
  {
    if n == 0 then 0 else ExpiredBefore(states, ops, n - 1) + ExpiredIn(states[n - 1], ops[n - 1])
  }

  /** Every delivery ever queued is still waiting, was pulled, evicted or purged, or expired in its queue. */
  ghost predicate Conserved(s: Lane, expired: nat) {
    QueuedFrames(s.queues) + s.counters.pulled + s.counters.evictions + s.counters.purged + expired == s.counters.queued
  }

  lemma EnqueuedLength(q: seq<Frame>, f: Frame, now: nat, max: nat)
    requires 0 < max
    ensures |Enqueued(q, f, now, max)| + (if Evicts(q, now, max) then 1 else 0) + ExpiredCount(q, now) == |q| + 1
  {
    LiveLosesExpired(q, now);
  }

  lemma FanOutOne(queues: map<DeliveryKey, seq<Frame>>, targets: set<DeliveryKey>, k: DeliveryKey, f: Frame, now: nat,
                  max: nat)
    requires k in targets
    ensures
      var before := FanOut(queues, targets - {k}, f, now, max);
      && FanOut(queues, targets, f, now, max) == before[k := Enqueued(QueueOf(queues, k), f, now, max)]
      && QueueOf(before, k) == QueueOf(queues, k)
      && |Evicting(queues, targets, now, max)|
         == |Evicting(queues, targets - {k}, now, max)| + (if Evicts(QueueOf(queues, k), now, max) then 1 else 0)
  {
    hide Enqueued, Evicts;
    assert Evicting(queues, targets, now, max)
        == Evicting(queues, targets - {k}, now, max) + (if Evicts(QueueOf(queues, k), now, max) then {k} else {});
  }

  lemma FanOutNone(queues: map<DeliveryKey, seq<Frame>>, f: Frame, now: nat, max: nat)
    ensures FanOut(queues, {}, f, now, max) == queues
    ensures Evicting(queues, {}, now, max) == {} && Only(queues, {}) == map[]
  {}

  lemma OnlyOne(queues: map<DeliveryKey, seq<Frame>>, targets: set<DeliveryKey>, k: DeliveryKey, now: nat)
    requires k in targets
    ensures Total(Only(queues, targets), Expired(now))
         == Total(Only(queues, targets - {k}), Expired(now)) + ExpiredCount(QueueOf(queues, k), now)
  {
    var before := Only(queues, targets - {k});
    if k in queues {
      TotalInsert(before, Expired(now), k, queues[k]);
      assert Only(queues, targets) == before[k := queues[k]];
    } else {
      assert Only(queues, targets) == before;
    }
  }

  lemma {:induction false} FanOutTotal(
    queues: map<DeliveryKey, seq<Frame>>, targets: set<DeliveryKey>, f: Frame, now: nat, max: nat)
    requires 0 < max
    ensures QueuedFrames(FanOut(queues, targets, f, now, max)) + |Evicting(queues, targets, now, max)|
            + Total(Only(queues, targets), Expired(now))
         == QueuedFrames(queues) + |targets|
    decreases targets
  {
    hide Enqueued, Evicts, ExpiredCount, FanOut, Evicting, Only;
    if targets == {} {
      FanOutNone(queues, f, now, max);
    } else {
      var k :| k in targets;
      FanOutTotal(queues, targets - {k}, f, now, max);
      FanOutOne(queues, targets, k, f, now, max);
      EnqueuedLength(QueueOf(queues, k), f, now, max);
      OnlyOne(queues, targets, k, now);
      var before, q := FanOut(queues, targets - {k}, f, now, max), Enqueued(QueueOf(queues, k), f, now, max);
      if k in before {
        TotalReplace(before, QueueLength, k, q);
      } else {
        TotalInsert(before, QueueLength, k, q);
      }
    }
  }

  lemma {:induction false} TargetCount(route: Snapshot, p: PublisherKey, endpoints: set<Id>)
    requires endpoints <= route.subscribers.Keys
    ensures |Targets(route, p, endpoints)| == |endpoints|
    decreases endpoints
  {
    if endpoints == {} {
      assert Targets(route, p, endpoints) == {};
    } else {
      var e :| e in endpoints;
      TargetCount(route, p, endpoints - {e});
      assert Targets(route, p, endpoints) == Targets(route, p, endpoints - {e}) + {Delivery(route, p, e)};
    }
  }

  lemma PublishConserves(s: Lane, f: Frame, now: nat, expired: nat)
    requires s.config.Valid() && Conserved(s, expired)
    ensures Conserved(Publish(s, f, now).0, expired + ExpiredIn(s, Send(f, now)))
  {
    hide FanOut, Evicting, Receivers, Excluded, QueuedFrames;
    if PublishInner(s, f, now).1.Ok? {
      var route := s.routes[f.audience];
      var endpoints := Receivers(route, f.participant);
      assert endpoints <= route.subscribers.Keys by { ReceiversSubscribe(route, f.participant); }
      TargetCount(route, f.Publisher(), endpoints);
      FanOutTotal(s.queues, Targets(route, f.Publisher(), endpoints), f, now, s.config.maxFrames);
    }
  }

  lemma ReceiversSubscribe(route: Snapshot, participant: Id)
    ensures Receivers(route, participant) <= route.subscribers.Keys
  {}

  lemma PurgeConserves(s: Lane, gone: set<AudienceKey>, expired: nat)
    requires Conserved(s, expired)
    ensures Conserved(Purged(s, gone), expired)
  {
    var kept, dropped := Purged(s, gone).queues, QueuesOf(s.queues, gone);
    TotalUnion(kept, dropped, QueueLength);
    assert kept + dropped == s.queues;
  }

  lemma StepConserves(s: Lane, op: Op, expired: nat)
    requires s.config.Valid() && Conserved(s, expired) && Enabled(s, op)
    ensures Conserved(Step(s, op), expired + ExpiredIn(s, op)) && Step(s, op).config == s.config
  {
    hide QueuedFrames, Purged, Swept, ValidChoice, AckOutcome, Accepted, Authorize, CountPublish;
    match op
    case Install(snapshot) => AudiencesConserve(s, {snapshot.audience}, expired);
    case Remove(a) => AudiencesConserve(s, {a}, expired);
    case End(session) => AudiencesConserve(s, SessionAudiences(s.routes, session), expired);
    case Send(f, now) => PublishConserves(s, f, now, expired); PublishConfig(s, f, now);
    case Pull(endpoint, now, choice) => PullConserves(s, endpoint, now, choice, expired);
    case Play(_, _) =>
  }

  lemma AudiencesConserve(s: Lane, gone: set<AudienceKey>, expired: nat)
    requires Conserved(s, expired)
    ensures Conserved(Purged(s, gone), expired) && Purged(s, gone).config == s.config
  {
    PurgeConserves(s, gone, expired);
    PurgedConfig(s, gone);
  }

  lemma PurgedConfig(s: Lane, gone: set<AudienceKey>)
    ensures Purged(s, gone).config == s.config
  {}

  lemma PublishConfig(s: Lane, f: Frame, now: nat)
    ensures Publish(s, f, now).0.config == s.config
  {}

  lemma PullConserves(s: Lane, endpoint: Id, now: nat, choice: Option<DeliveryKey>, expired: nat)
    requires Conserved(s, expired) && ValidChoice(Swept(s.queues, endpoint, now), endpoint, choice)
    ensures Conserved(PullFrom(s, endpoint, now, choice).0, expired + ExpiredIn(s, Pull(endpoint, now, choice)))
  {
    hide Swept;
    SweepTotal(s.queues, endpoint, now);
    if choice.Some? {
      var swept := Swept(s.queues, endpoint, now);
      TotalReplace(swept, QueueLength, choice.value, swept[choice.value][1..]);
    }
  }

  /** In every reachable state each delivery ever queued is accounted for exactly once: it waits, was pulled,
      evicted or purged, or expired in its queue. */
  lemma {:induction false} FramesConserved(config: Config, states: seq<Lane>, ops: seq<Op>, n: nat)
    requires IsRun(config, states, ops) && n < |states|
    ensures
      var s := states[n];
      QueuedFrames(s.queues) + s.counters.pulled + s.counters.evictions + s.counters.purged
      + ExpiredBefore(states, ops, n) == s.counters.queued
    ensures states[n].config == config
  {
    hide Step, Enabled, ExpiredIn;
    if n > 0 {
      FramesConserved(config, states, ops, n - 1);
      assert StepAt(states, ops, n - 1);
      StepConserves(states[n - 1], ops[n - 1], ExpiredBefore(states, ops, n - 1));
    }
  }
}
