/** Whose symbols an object takes: over any run, every symbol an active object holds was sent by one of its parents,
    and every parent announced the object as it is. */
module RelaySenders {
  import opened Prelude
  import opened RelaySpec
  import opened RelayInvariants
  import opened RelayRuns
  import opened RelayAnswers

  /** The call is a datagram of this key with this packet sequence and fingerprint. */
  predicate Sends(op: RelayOp, k: ObjectKey, sequence: nat, fingerprint: Fingerprint) {
    && (op.Push? || op.DispatchControlled?) && op.wire.Decoded?
    && op.wire.symbol.key == k && op.wire.symbol.packetSequence == Some(sequence)
    && op.wire.symbol.datagramHash == fingerprint.datagramHash && op.wire.symbol.role == fingerprint.role
  }

  /** The call announces the object, reliably or by the first symbol of a controlled session. */
  predicate Announces(op: RelayOp, id: nat, a: Announcement) {
    || (op.Announce? && op.sessionId == id && op.announcement == a)
    || (op.DispatchControlled? && op.sessionId == id && op.wire.Decoded?
        && var symbol := op.wire.symbol;
        a == Announcement(symbol.generation, symbol.subscriptionId, symbol.key, symbol.kind, symbol.deadline,
                          symbol.coding, 0, 0))
  }

  function Lookup(s: Relay, k: ObjectKey): Option<ActiveObject> {
    if k in s.objects then Some(s.objects[k]) else None
  }

  // ---------------------------------------------------------------- one call

  /** Each symbol was there before or is sent by this call, made by one of the object's parents. */
  ghost predicate SymbolsEvolve(before: Option<ActiveObject>, op: RelayOp, k: ObjectKey, after: ActiveObject) {
    forall q <- after.symbols ::
      || (before.Some? && q in before.value.symbols && after.symbols[q] == before.value.symbols[q]
          && before.value.parentSessions <= after.parentSessions)
      || (Sends(op, k, q, after.symbols[q]) && op.sessionId in after.parentSessions)
  }

  /** Each parent was one before or announces the object by this call. */
  ghost predicate ParentsEvolve(before: Option<ActiveObject>, op: RelayOp, after: ActiveObject) {
    forall p <- after.parentSessions ::
      || (before.Some? && p in before.value.parentSessions && before.value.announcement == after.announcement)
      || Announces(op, p, after.announcement)
  }

  ghost predicate Evolves(s: Relay, op: RelayOp, s': Relay) {
    forall k <- s'.objects ::
      SymbolsEvolve(Lookup(s, k), op, k, s'.objects[k]) && ParentsEvolve(Lookup(s, k), op, s'.objects[k])
  }

  lemma StayedEvolves(s: Relay, op: RelayOp, s': Relay)
    requires forall k <- s'.objects :: k in s.objects && s'.objects[k] == s.objects[k]
    ensures Evolves(s, op, s')
  {}

  lemma EvolvesTwice(s: Relay, op: RelayOp, s': Relay, s'': Relay)
    requires Evolves(s, op, s') && Evolves(s', op, s'')
    ensures Evolves(s, op, s'')
  {
    hide Sends, Announces;
    forall k <- s''.objects
      ensures SymbolsEvolve(Lookup(s, k), op, k, s''.objects[k]) && ParentsEvolve(Lookup(s, k), op, s''.objects[k])
    {
      if k in s'.objects {
        assert SymbolsEvolve(Lookup(s, k), op, k, s'.objects[k]) && ParentsEvolve(Lookup(s, k), op, s'.objects[k]);
      }
    }
  }

  lemma AnnouncedEvolves(s: Relay, op: RelayOp, id: nat, a: Announcement, ready: bool, now: nat)
    requires Announces(op, id, a)
    ensures Evolves(s, op, Announced(s, id, a, ready, now))
  {
    hide Announces, Announced, AnnounceOutcome, Sends;
    AnnouncedExactly(s, id, a, ready, now);
    JoinedIsTheSame(s, id, a, ready, now);
    var s' := Announced(s, id, a, ready, now);
    match AnnounceOutcome(s, id, a, ready, now)
    case Err(_) =>
    case Ok(AlreadyComplete) =>
    case Ok(Started) =>
      forall k <- s'.objects
        ensures SymbolsEvolve(Lookup(s, k), op, k, s'.objects[k]) && ParentsEvolve(Lookup(s, k), op, s'.objects[k])
      {
        assert k != a.key ==> s'.objects[k] == s.objects[k];
      }
    case Ok(Joined) =>
      forall k <- s'.objects
        ensures SymbolsEvolve(Lookup(s, k), op, k, s'.objects[k]) && ParentsEvolve(Lookup(s, k), op, s'.objects[k])
      {
        assert k != a.key ==> s'.objects[k] == s.objects[k];
      }
  }

  lemma JoinedIsTheSame(s: Relay, id: nat, a: Announcement, ready: bool, now: nat)
    ensures AnnounceOutcome(s, id, a, ready, now) == Ok(Joined) ==>
              a.key in s.objects && s.objects[a.key].announcement == a
  {
    AcceptedAnnouncement(s, id, a, ready, now);
    hide AnnounceOutcome, AddParent;
  }

  /** What a symbol can do to the objects: leave them, let some go, or add itself to one that its sender announced. */
  lemma PushSymbolObjects(s: Relay, id: nat, symbol: Symbol, verdict: Verdict, now: nat)
    requires id in s.sessions
    ensures
      var s' := PushSymbol(s, id, symbol, verdict, now).0;
      forall k <- s'.objects ::
        || (k in s.objects && s'.objects[k] == s.objects[k])
        || (&& k == symbol.key && k in s.objects && id in s.objects[k].parentSessions && symbol.packetSequence.Some?
            && OneMoreSymbol(s.objects[k], symbol, symbol.packetSequence.value, now, s'.objects[k]))
  {
    SequenceIsTheSymbols(s, id, symbol, now);
    hide Admit, KindMismatch, CountRole;
    var a := Admit(s, id, symbol, now);
    if a.Feed? {
      FedByParent(s, id, symbol, now);
      FedObjects(s, symbol, a.sequence, verdict, now);
    }
  }

  lemma FedByParent(s: Relay, id: nat, symbol: Symbol, now: nat)
    requires id in s.sessions && Admit(s, id, symbol, now).Feed?
    ensures symbol.key in s.objects && id in s.objects[symbol.key].parentSessions
  {
    hide IdentityConflict, Authorized, MatchesCompleted;
  }

  lemma FedObjects(s: Relay, symbol: Symbol, sequence: nat, verdict: Verdict, now: nat)
    requires symbol.key in s.objects
    ensures
      var s' := FedOutcome(s, symbol, sequence, verdict, now).0;
      forall k <- s'.objects ::
        || (k in s.objects && s'.objects[k] == s.objects[k])
        || (k == symbol.key && OneMoreSymbol(s.objects[k], symbol, sequence, now, s'.objects[k]))
  {
    hide KindMismatch, CountRole, CompletionCounts;
  }

  lemma PushEvolves(s: Relay, op: RelayOp, id: nat, wire: Wire, verdict: Verdict, now: nat)
    requires (op.Push? || op.DispatchControlled?) && op.sessionId == id && op.wire == wire
    ensures Evolves(s, op, PushDatagram(s, id, wire, verdict, now).0)
  {
    hide Announces, PushSymbol, Expire, OneMoreSymbol, Evolves;
    var s' := PushDatagram(s, id, wire, verdict, now).0;
    if id in s.sessions && wire.Decoded? {
      var swept := ExpireIfDue(Received(s), now);
      ExpiryEvolves(s, op, now);
      PushSymbolObjects(swept, id, wire.symbol, verdict, now);
      SymbolEvolves(swept, op, PushSymbol(swept, id, wire.symbol, verdict, now).0, now);
      EvolvesTwice(s, op, swept, PushSymbol(swept, id, wire.symbol, verdict, now).0);
      SameObjects(s, op, PushSymbol(swept, id, wire.symbol, verdict, now).0, s');
    } else {
      StayedEvolves(s, op, s');
    }
  }

  lemma SameObjects(s: Relay, op: RelayOp, s': Relay, s'': Relay)
    requires Evolves(s, op, s') && s''.objects == s'.objects
    ensures Evolves(s, op, s'')
  {}

  lemma ExpiryEvolves(s: Relay, op: RelayOp, now: nat)
    ensures Evolves(s, op, ExpireIfDue(s, now)) && Evolves(s, op, ExpireIfDue(Received(s), now))
    ensures Evolves(s, op, Expire(s, now))
  {
    hide Evolves;
    StayedEvolves(s, op, ExpireIfDue(s, now));
    StayedEvolves(s, op, ExpireIfDue(Received(s), now));
    StayedEvolves(s, op, Expire(s, now));
  }

  lemma SymbolEvolves(s: Relay, op: RelayOp, s': Relay, now: nat)
    requires (op.Push? || op.DispatchControlled?) && op.wire.Decoded?
    requires
      forall k <- s'.objects ::
        || (k in s.objects && s'.objects[k] == s.objects[k])
        || (&& k == op.wire.symbol.key && k in s.objects && op.sessionId in s.objects[k].parentSessions
            && op.wire.symbol.packetSequence.Some?
            && OneMoreSymbol(s.objects[k], op.wire.symbol, op.wire.symbol.packetSequence.value, now, s'.objects[k]))
    ensures Evolves(s, op, s')
  {
    hide Announces;
  }

  lemma StepEvolves(s: Relay, op: RelayOp)
    ensures Evolves(s, op, Step(s, op))
  {
    hide Evolves, PushDatagram, Announced, AnnounceOutcome, EnsureControlled, Expire, ExpireIfDue;
    match op
    case RegisterParent(session) => StayedEvolves(s, op, Step(s, op));
    case Announce(id, a, ready, now) => AnnounceEvolves(s, op);
    case Push(id, wire, verdict, now) => PushEvolves(s, op, id, wire, verdict, now);
    case DispatchControlled(id, wire, verdict, ready, now) =>
      ControlledEvolves(s, op);
      var announced := EnsureControlled(s, id, wire, ready, now).0;
      PushEvolves(announced, op, id, wire, verdict, now);
      EvolvesTwice(s, op, announced, PushDatagram(announced, id, wire, verdict, now).0);
      if EnsureControlled(s, id, wire, ready, now).1.Err? {
        SameObjects(s, op, announced, Step(s, op));
      }
    case DispatchUnbound => StayedEvolves(s, op, Step(s, op));
    case Sweep(now) => ExpiryEvolves(s, op, now);
  }

  lemma AnnounceEvolves(s: Relay, op: RelayOp)
    requires op.Announce?
    ensures Evolves(s, op, Step(s, op))
  {
    hide Evolves, Announced, AnnounceOutcome, Expire, ExpireIfDue;
    var swept := ExpireIfDue(s, op.now);
    ExpiryEvolves(s, op, op.now);
    AnnouncedEvolves(swept, op, op.sessionId, op.announcement, op.ready, op.now);
    EvolvesTwice(s, op, swept, Announced(swept, op.sessionId, op.announcement, op.ready, op.now));
    if AnnounceOutcome(swept, op.sessionId, op.announcement, op.ready, op.now).Err? {
      SameObjects(s, op, swept, Step(s, op));
    }
  }

  lemma ControlledEvolves(s: Relay, op: RelayOp)
    requires op.DispatchControlled?
    ensures Evolves(s, op, EnsureControlled(s, op.sessionId, op.wire, op.ready, op.now).0)
  {
    hide Evolves, Announced, AnnounceOutcome, Expire, ExpireIfDue, Authorized;
    StayedEvolves(s, op, s);
    if op.wire.Decoded? {
      var swept := ExpireIfDue(s, op.now);
      ExpiryEvolves(s, op, op.now);
      AnnouncedEvolves(swept, op, op.sessionId, DerivedAnnouncement(op.wire.symbol), op.ready, op.now);
      EvolvesTwice(s, op, swept, Announced(swept, op.sessionId, DerivedAnnouncement(op.wire.symbol), op.ready, op.now));
    }
  }

  // ---------------------------------------------------------------- whole runs

  /** Every symbol an object holds was sent, with that packet sequence and fingerprint, by one of its parents. */
  lemma {:induction false} SymbolsComeFromParents(config: Config, ops: seq<RelayOp>, n: nat, k: ObjectKey, q: nat)
    requires n <= |ops| && k in StateAt(config, ops, n).objects && q in StateAt(config, ops, n).objects[k].symbols
    ensures exists i ::
              && 0 <= i < n && Sends(ops[i], k, q, StateAt(config, ops, n).objects[k].symbols[q])
              && ops[i].sessionId in StateAt(config, ops, n).objects[k].parentSessions
  {
    hide Step;
    if n == 0 {
      assert false;
    } else {
      var s, s' := StateAt(config, ops, n - 1), StateAt(config, ops, n);
      StepEvolves(s, ops[n - 1]);
      assert SymbolsEvolve(Lookup(s, k), ops[n - 1], k, s'.objects[k]);
      if !(Sends(ops[n - 1], k, q, s'.objects[k].symbols[q]) && ops[n - 1].sessionId in s'.objects[k].parentSessions) {
        SymbolsComeFromParents(config, ops, n - 1, k, q);
        var i :| && 0 <= i < n - 1 && Sends(ops[i], k, q, s.objects[k].symbols[q])
                 && ops[i].sessionId in s.objects[k].parentSessions;
        assert Sends(ops[i], k, q, s'.objects[k].symbols[q]);
      }
    }
  }

  /** Every parent of an object announced it, exactly as the object has it. */
  lemma {:induction false} ParentsAnnounced(config: Config, ops: seq<RelayOp>, n: nat, k: ObjectKey, p: nat)
    requires n <= |ops| && k in StateAt(config, ops, n).objects && p in StateAt(config, ops, n).objects[k].parentSessions
    ensures exists i :: 0 <= i < n && Announces(ops[i], p, StateAt(config, ops, n).objects[k].announcement)
  {
    hide Step, Announces;
    if n == 0 {
      assert false;
    } else {
      var s, s' := StateAt(config, ops, n - 1), StateAt(config, ops, n);
      StepEvolves(s, ops[n - 1]);
      assert ParentsEvolve(Lookup(s, k), ops[n - 1], s'.objects[k]);
      if !Announces(ops[n - 1], p, s'.objects[k].announcement) {
        ParentsAnnounced(config, ops, n - 1, k, p);
        var i :| 0 <= i < n - 1 && Announces(ops[i], p, s.objects[k].announcement);
        assert Announces(ops[i], p, s'.objects[k].announcement);
      }
    }
  }
}
