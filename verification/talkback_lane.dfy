/** The talkback lane as it is written: four maps and the counters updated in place.  Every method is proved
    to take the step of the state machine in module TalkbackSpec and to keep route safety. */
module TalkbackLanes {
  import opened Prelude
  import opened Totals
  import opened TalkbackWindow
  import opened TalkbackSpec
  import opened TalkbackInvariants
  import TalkbackDrain

  /** The frames that are not expired, in order. */
  method RetainLive(q: seq<Frame>, now: nat) returns (live: seq<Frame>)
    ensures live == Live(q, now)
  {
    live := [];
    for i := 0 to |q|
      invariant live == Live(q[..i], now)
    {
      LiveSnoc(q[..i], q[i], now);
      assert q[..i + 1] == q[..i] + [q[i]];
      if !q[i].IsExpired(now) {
        live := live + [q[i]];
      }
    }
    assert q[..|q|] == q;
  }

  method PopExpired(q: seq<Frame>, now: nat) returns (rest: seq<Frame>)
    ensures rest == DropExpired(q, now)
  {
    rest := q;
    while rest != [] && rest[0].IsExpired(now)
      invariant DropExpired(rest, now) == DropExpired(q, now)
      decreases |rest|
    {
      rest := rest[1..];
    }
  }

  method CountFrames(queues: map<DeliveryKey, seq<Frame>>) returns (n: nat)
    ensures n == QueuedFrames(queues)
  {
    n := 0;
    var rest := queues;
    while rest != map[]
      invariant n + QueuedFrames(rest) == QueuedFrames(queues)
      decreases |rest|
    {
      var k :| k in rest;
      TotalRemove(rest, QueueLength, k);
      n := n + |rest[k]|;
      rest := rest - {k};
    }
  }

  /** Purging audience by audience purges the whole set. */
  lemma RemoveOneMore(s: Lane, gone: set<AudienceKey>, a: AudienceKey)
    requires a !in gone
    ensures RemoveAudiences(RemoveAudiences(s, gone), {a}) == RemoveAudiences(s, gone + {a})
  {
    hide QueuedFrames;
    var first := RemoveAudiences(s, gone);
    var second, both := RemoveAudiences(first, {a}), RemoveAudiences(s, gone + {a});
    assert second.sequences == both.sequences;
    assert second.queues == both.queues;
    assert second.played == both.played;
    assert second.routes == both.routes;
    PurgedCounts(s.queues, first.queues, gone, a);
  }

  lemma PurgedCounts(
    queues: map<DeliveryKey, seq<Frame>>, left: map<DeliveryKey, seq<Frame>>, gone: set<AudienceKey>, a: AudienceKey)
    requires a !in gone && left == QueuesWithout(queues, gone)
    ensures QueuedFrames(QueuesOf(queues, gone)) + QueuedFrames(QueuesOf(left, {a}))
         == QueuedFrames(QueuesOf(queues, gone + {a}))
  {
    TotalUnion(QueuesOf(queues, gone), QueuesOf(left, {a}), QueueLength);
    assert QueuesOf(queues, gone) + QueuesOf(left, {a}) == QueuesOf(queues, gone + {a});
  }

  lemma NothingRemoved(s: Lane)
    ensures RemoveAudiences(s, {}) == s
  {
    assert QueuesOf(s.queues, {}) == map[];
    assert RemoveAudiences(s, {}).queues == s.queues;
    assert RemoveAudiences(s, {}).sequences == s.sequences;
    assert RemoveAudiences(s, {}).played == s.played;
    assert RemoveAudiences(s, {}).routes == s.routes;
  }

  /** The fan-out so far: the queues, the eviction count and the two endpoint lists after the loop has
      visited some subscribers. */
  ghost predicate FannedOutTo(
    before: Lane, queues: map<DeliveryKey, seq<Frame>>, evictions: nat, route: Snapshot, f: Frame, now: nat,
    receivers: set<Id>)
  {
    var targets := Targets(route, f.Publisher(), receivers);
    && queues == FanOut(before.queues, targets, f, now, before.config.maxFrames)
    && evictions == before.counters.evictions + |Evicting(before.queues, targets, now, before.config.maxFrames)|
  }

  lemma NobodyYet(before: Lane, route: Snapshot, f: Frame, now: nat)
    ensures FannedOutTo(before, before.queues, before.counters.evictions, route, f, now, {})
  {
    assert Targets(route, f.Publisher(), {}) == {};
    assert FanOut(before.queues, {}, f, now, before.config.maxFrames) == before.queues;
  }

  /** The two endpoint lists after all subscribers but `remaining` were visited. */
  ghost predicate Visited(route: Snapshot, participant: Id, remaining: set<Id>, queued: set<Id>, excluded: set<Id>) {
    && queued == Receivers(route, participant) - remaining
    && excluded == Excluded(route, participant) - remaining
  }

  lemma NoneVisited(route: Snapshot, participant: Id)
    ensures Visited(route, participant, route.subscribers.Keys, {}, {})
  {}

  lemma VisitOne(route: Snapshot, participant: Id, remaining: set<Id>, queued: set<Id>, excluded: set<Id>, e: Id)
    requires Visited(route, participant, remaining, queued, excluded) && e in remaining && e in route.subscribers
    ensures e !in queued
    ensures route.subscribers[e] == participant ==>
              Visited(route, participant, remaining - {e}, queued, excluded + {e})
    ensures route.subscribers[e] != participant ==>
              Visited(route, participant, remaining - {e}, queued + {e}, excluded)
  {}

  lemma EverySubscriber(route: Snapshot, participant: Id, queued: set<Id>, excluded: set<Id>)
    requires Visited(route, participant, {}, queued, excluded)
    ensures queued == Receivers(route, participant) && excluded == Excluded(route, participant)
  {}

  /** One more receiver: its queue was untouched so far. */
  lemma OneMoreReceiver(
    before: Lane, queues: map<DeliveryKey, seq<Frame>>, evictions: nat, route: Snapshot, f: Frame, now: nat,
    receivers: set<Id>, e: Id)
    requires FannedOutTo(before, queues, evictions, route, f, now, receivers)
    requires e in route.subscribers && e !in receivers
    ensures
      var k := Delivery(route, f.Publisher(), e);
      var q, max := QueueOf(queues, k), before.config.maxFrames;
      FannedOutTo(before, queues[k := Enqueued(q, f, now, max)], evictions + (if Evicts(q, now, max) then 1 else 0),
                  route, f, now, receivers + {e})
  {
    hide Enqueued, Evicts, FanOut, Evicting;
    var p, k := f.Publisher(), Delivery(route, f.Publisher(), e);
    var targets := Targets(route, p, receivers);
    assert k !in targets;
    assert Targets(route, p, receivers + {e}) == targets + {k};
    assert targets + {k} - {k} == targets;
    TalkbackDrain.FanOutOne(before.queues, targets + {k}, k, f, now, before.config.maxFrames);
    assert k !in Evicting(before.queues, targets, now, before.config.maxFrames) by { EvictingTargets(before, targets, now); }
  }

  lemma EvictingTargets(s: Lane, targets: set<DeliveryKey>, now: nat)
    ensures Evicting(s.queues, targets, now, s.config.maxFrames) <= targets
  {}

  class TalkbackLane {
    const config: Config
    var routes: map<AudienceKey, Snapshot>
    var sequences: map<PublisherKey, SequenceWindow>
    var queues: map<DeliveryKey, seq<Frame>>
    var played: map<DeliveryKey, PlayedHighWater>
    var counters: Counters

    function State(): Lane
      reads this
    {
      Lane(config, routes, sequences, queues, played, counters)
    }

    ghost predicate Valid()
      reads this
    {
      LaneInv(State())
    }

    constructor (config: Config)
      requires config.Valid()
      ensures Valid() && State() == TalkbackSpec.Fresh(config)
    {
      this.config := config;
      routes, sequences, queues, played, counters := map[], map[], map[], map[], NO_COUNTS;
    }

    method PurgeAudience(a: AudienceKey)
      modifies `sequences, `queues, `played, `counters
      ensures State() == Purged(old(State()), {a})
    {
      hide QueuedFrames, SequencesWithout, QueuesWithout, PlayedWithout, QueuesOf;
      var purged := CountFrames(QueuesOf(queues, {a}));
      sequences := SequencesWithout(sequences, {a});
      queues := QueuesWithout(queues, {a});
      played := PlayedWithout(played, {a});
      counters := counters.(purged := counters.purged + purged);
    }

    method InstallSnapshot(snapshot: Snapshot)
      requires Valid()
      modifies this
      ensures Valid() && State() == TalkbackSpec.InstallSnapshot(old(State()), snapshot)
    {
      hide LaneInv, Purged;
      InstallKeepsInv(State(), snapshot);
      PurgedRoutes(State(), {snapshot.audience});
      PurgeAudience(snapshot.audience);
      routes := routes[snapshot.audience := snapshot];
    }

    method RemoveAudience(a: AudienceKey) returns (removed: bool)
      requires Valid()
      modifies this
      ensures Valid() && State() == RemoveAudiences(old(State()), {a})
      ensures removed == (a in old(routes))
    {
      hide LaneInv, Purged;
      RemovalKeepsInv(State(), {a});
      PurgedRoutes(State(), {a});
      removed := a in routes;
      RemoveRouteFirst(State(), a);
      routes := routes - {a};
      PurgeAudience(a);
    }

    method EndSession(session: Id)
      requires Valid()
      modifies this
      ensures Valid() && State() == TalkbackSpec.EndSession(old(State()), session)
    {
      hide LaneInv, RemoveAudiences;
      var keys := SessionAudiences(routes, session);
      ghost var before := State();
      ghost var done: set<AudienceKey> := {};
      var remaining := keys;
      NothingRemoved(before);
      while remaining != {}
        invariant remaining <= keys && done == keys - remaining
        invariant Valid() && State() == RemoveAudiences(before, done)
        decreases remaining
      {
        var a :| a in remaining;
        RemoveOneMore(before, done, a);
        var _ := RemoveAudience(a);
        remaining := remaining - {a};
        done := done + {a};
      }
      assert done == keys;
    }

    // -------------------------------------------------------------- publishing

    method PublishFrame(f: Frame, now: nat) returns (r: Result<Fanout, Error>)
      requires Valid()
      modifies this
      ensures Valid() && (State(), r) == Publish(old(State()), f, now)
    {
      assert config.Valid();
      hide LaneInv, PublishInner, CountPublish;
      PublishKeepsInv(State(), f, now);
      r := PublishFrameInner(f, now);
      CountOutcome(r);
    }

    method CountOutcome(r: Result<Fanout, Error>)
      modifies `counters
      ensures counters == CountPublish(old(counters), r)
    {
      match r {
        case Ok(fanout) =>
          counters := counters.(admitted := counters.admitted + 1, queued := counters.queued + |fanout.queued|,
                                mixMinus := counters.mixMinus + |fanout.excluded|);
        case Err(FrameExpired) => counters := counters.(expiredRejections := counters.expiredRejections + 1);
        case Err(FrameReplay) => counters := counters.(replayRejections := counters.replayRejections + 1);
        case Err(RouteUnavailable) | Err(AuthorizationEpoch) | Err(PublisherNotAllowed) =>
          counters := counters.(authorizationRejections := counters.authorizationRejections + 1);
        case Err(_) =>
      }
    }

    method PublishFrameInner(f: Frame, now: nat) returns (r: Result<Fanout, Error>)
      requires config.Valid()
      modifies this
      ensures (State(), r) == PublishInner(old(State()), f, now)
    {
      hide AdmitSequence, FanOut, Evicting, Targets, Receivers, Excluded;
      if f.IsExpired(now) {
        return Err(FrameExpired);
      }
      if f.audience !in routes {
        return Err(RouteUnavailable);
      }
      var route := routes[f.audience];
      if route.epochs != f.epochs {
        return Err(AuthorizationEpoch);
      }
      if !PublisherAllowed(route, f) {
        return Err(PublisherNotAllowed);
      }
      var publisher := f.Publisher();
      if publisher in sequences {
        var admitted, window := Admit(sequences[publisher], f.sequence);
        if !admitted {
          return Err(FrameReplay);
        }
        sequences := sequences[publisher := window];
      } else {
        sequences := sequences[publisher := First(f.sequence)];
      }
      var fanout := FanOutFrame(route, f, now);
      return Ok(fanout);
    }

    method FanOutFrame(route: Snapshot, f: Frame, now: nat) returns (fanout: Fanout)
      requires config.Valid()
      modifies `queues, `counters
      ensures fanout == Fanout(Receivers(route, f.participant), Excluded(route, f.participant))
      ensures
        var targets := Targets(route, f.Publisher(), Receivers(route, f.participant));
        && queues == FanOut(old(queues), targets, f, now, config.maxFrames)
        && counters == old(counters).(
             evictions := old(counters).evictions + |Evicting(old(queues), targets, now, config.maxFrames)|)
    {
      hide Enqueued, Evicts, FanOut, Evicting, Targets, FannedOutTo, Visited, Receivers, Excluded, QueueOf;
      ghost var before := State();
      var queued: set<Id>, excluded: set<Id> := {}, {};
      var remaining := route.subscribers.Keys;
      NobodyYet(before, route, f, now);
      NoneVisited(route, f.participant);
      while remaining != {}
        invariant remaining <= route.subscribers.Keys
        invariant Visited(route, f.participant, remaining, queued, excluded)
        invariant FannedOutTo(before, queues, counters.evictions, route, f, now, queued)
        invariant counters == before.counters.(evictions := counters.evictions)
        decreases remaining
      {
        var e :| e in remaining;
        VisitOne(route, f.participant, remaining, queued, excluded, e);
        remaining := remaining - {e};
        if route.subscribers[e] == f.participant {
          excluded := excluded + {e};
        } else {
          OneMoreReceiver(before, queues, counters.evictions, route, f, now, queued, e);
          Enqueue(Delivery(route, f.Publisher(), e), f, now);
          queued := queued + {e};
        }
      }
      EverySubscriber(route, f.participant, queued, excluded);
      AllReceivers(before, queues, counters.evictions, route, f, now);
      fanout := Fanout(queued, excluded);
    }

    method Enqueue(k: DeliveryKey, f: Frame, now: nat)
      requires config.Valid()
      modifies `queues, `counters
      ensures queues == old(queues)[k := Enqueued(QueueOf(old(queues), k), f, now, config.maxFrames)]
      ensures counters == old(counters).(
                evictions := old(counters).evictions
                               + (if Evicts(QueueOf(old(queues), k), now, config.maxFrames) then 1 else 0))
    {
      var queue := RetainLive(if k in queues then queues[k] else [], now);
      if |queue| == config.maxFrames {
        queue := queue[1..];
        counters := counters.(evictions := counters.evictions + 1);
      }
      queues := queues[k := queue + [f]];
    }

    // -------------------------------------------------------------- pulling

    /** The oldest valid frame across the receiver's queues; which queue wins a tie is left open. */
    method PullNext(endpoint: Id, now: nat) returns (r: Option<Frame>, ghost choice: Option<DeliveryKey>)
      requires Valid()
      modifies this
      ensures Valid()
      ensures ValidChoice(Swept(old(queues), endpoint, now), endpoint, choice)
      ensures (State(), r) == PullFrom(old(State()), endpoint, now, choice)
    {
      hide LaneInv, Swept;
      ghost var before := State();
      SweepExpired(endpoint, now);
      var best := OldestQueue(endpoint);
      choice := best;
      PullKeepsInv(before, endpoint, now, choice);
      if best.None? {
        return None, choice;
      }
      var k := best.value;
      var frame := queues[k][0];
      queues := queues[k := queues[k][1..]];
      counters := counters.(pulled := counters.pulled + 1);
      if k in played {
        played := played[k := played[k].(deliveredSequence := Max(played[k].deliveredSequence, frame.sequence))];
      } else {
        played := played[k := PlayedHighWater(frame.sequence, None, None)];
      }
      return Some(frame), choice;
    }

    method SweepExpired(endpoint: Id, now: nat)
      modifies `queues
      ensures queues == Swept(old(queues), endpoint, now)
    {
      hide DropExpired;
      var remaining := queues.Keys;
      while remaining != {}
        invariant remaining <= queues.Keys == old(queues).Keys
        invariant forall k <- queues :: queues[k]
                    == if k !in remaining && k.endpoint == endpoint then DropExpired(old(queues)[k], now)
                       else old(queues)[k]
        decreases remaining
      {
        var k :| k in remaining;
        if k.endpoint == endpoint {
          var rest := PopExpired(queues[k], now);
          queues := queues[k := rest];
        }
        remaining := remaining - {k};
      }
    }

    method OldestQueue(endpoint: Id) returns (best: Option<DeliveryKey>)
      ensures ValidChoice(queues, endpoint, best)
    {
      best := None;
      var remaining := queues.Keys;
      while remaining != {}
        invariant remaining <= queues.Keys
        invariant best.None? ==> forall k <- queues :: Candidate(queues, endpoint, k) ==> k in remaining
        invariant best.Some? ==>
                    && Candidate(queues, endpoint, best.value)
                    && forall k <- queues :: Candidate(queues, endpoint, k) ==>
                                               k in remaining || NotLater(queues[best.value][0], queues[k][0])
        decreases remaining
      {
        var k :| k in remaining;
        remaining := remaining - {k};
        if Candidate(queues, endpoint, k) {
          if best.None? || !NotLater(queues[best.value][0], queues[k][0]) {
            best := Some(k);
          }
        }
      }
    }

    // -------------------------------------------------------------- playout

    method AcknowledgePlayout(ack: Ack, now: nat) returns (r: Result<(), Error>)
      requires Valid()
      modifies this
      ensures Valid() && (State(), r) == Acknowledge(old(State()), ack, now)
    {
      hide LaneInv;
      AcknowledgeKeepsInv(State(), ack, now);
      r := AcknowledgePlayoutInner(ack, now);
      if r.Ok? {
        counters := counters.(acceptedAcks := counters.acceptedAcks + 1);
      } else {
        counters := counters.(rejectedAcks := counters.rejectedAcks + 1);
      }
    }

    method IsReceiving(ack: Ack, now: nat) returns (receiving: bool)
      ensures receiving <==> TalkbackSpec.IsReceiving(State(), ack, now)
    {
      if AckRefusal(State(), ack).Some? {
        return false;
      }
      if ack.key !in played {
        return false;
      }
      var mark := played[ack.key];
      receiving := mark.acknowledgedSequence == Some(ack.sequence) && mark.acknowledgedAt.Some?
                   && SatSub(now, mark.acknowledgedAt.value) < config.acknowledgementFreshness;
    }

    method AcknowledgePlayoutInner(ack: Ack, now: nat) returns (r: Result<(), Error>)
      modifies `played
      ensures r == AckOutcome(old(State()), ack)
      ensures r.Err? ==> played == old(played)
      ensures r.Ok? ==> ack.key in old(played)
                        && played == old(played)[ack.key := old(played)[ack.key].(
                                       acknowledgedSequence := Some(ack.sequence), acknowledgedAt := Some(now))]
    {
      var refusal := AckRefusal(State(), ack);
      if refusal.Some? {
        return Err(refusal.value);
      }
      if ack.key !in played {
        return Err(PlayoutBeyondDelivery);
      }
      var mark := played[ack.key];
      if ack.sequence > mark.deliveredSequence {
        return Err(PlayoutBeyondDelivery);
      }
      if mark.acknowledgedSequence.Some? && ack.sequence <= mark.acknowledgedSequence.value {
        return Err(StaleAcknowledgement);
      }
      played := played[ack.key := mark.(acknowledgedSequence := Some(ack.sequence), acknowledgedAt := Some(now))];
      return Ok(());
    }
  }

  lemma AllReceivers(
    before: Lane, queues: map<DeliveryKey, seq<Frame>>, evictions: nat, route: Snapshot, f: Frame, now: nat)
    requires FannedOutTo(before, queues, evictions, route, f, now, Receivers(route, f.participant))
    ensures
      var targets := Targets(route, f.Publisher(), Receivers(route, f.participant));
      && queues == FanOut(before.queues, targets, f, now, before.config.maxFrames)
      && evictions == before.counters.evictions + |Evicting(before.queues, targets, now, before.config.maxFrames)|
  {}

  lemma PurgedRoutes(s: Lane, gone: set<AudienceKey>)
    ensures Purged(s, gone).routes == s.routes && Purged(s, gone).config == s.config
  {}

  lemma RemoveRouteFirst(s: Lane, a: AudienceKey)
    ensures Purged(s.(routes := s.routes - {a}), {a}) == RemoveAudiences(s, {a})
  {}
}
