/** The global invariant of the relay receiver and its preservation by every call. */
module RelayInvariants {
  import opened Collections
  import opened Prelude
  import opened Totals
  import opened RelaySpec

  ghost predicate SessionsOk(sessions: map<nat, Session>) {
    forall id <- sessions :: sessions[id].sessionId == id
  }

  ghost predicate ParentsOk(config: Config, sessions: map<nat, Session>, parents: set<nat>) {
    && |parents| <= config.maxParentsPerObject
    && (forall p <- parents :: p in sessions)
    && (forall p <- parents, q <- parents :: p != q ==> Compatible(sessions[p], sessions[q]))
  }

  /** Per object, source and repair symbols together are the distinct admitted sequences. */
  ghost predicate ObjectOk(config: Config, sessions: map<nat, Session>, k: ObjectKey, o: ActiveObject) {
    && o.announcement.key == k
    && o.reservedBytes == o.announcement.coding.transferLength
    && o.sourceSymbols + o.repairSymbols == |o.symbols| <= config.maxDatagramsPerObject
    && ParentsOk(config, sessions, o.parentSessions)
  }

  ghost predicate ActiveOk(config: Config, sessions: map<nat, Session>, objects: map<ObjectKey, ActiveObject>) {
    forall k <- objects :: ObjectOk(config, sessions, k, objects[k])
  }

  ghost predicate CompletedOk(config: Config, sessions: map<nat, Session>, completed: map<ObjectKey, CompletedObject>) {
    forall k <- completed ::
      completed[k].announcement.key == k && ParentsOk(config, sessions, completed[k].parentSessions)
  }

  /** A canonical key is active or completed, never both, and a logical identity names at most one key. */
  ghost predicate Identities(active: set<ObjectKey>, completed: set<ObjectKey>) {
    && active !! completed
    && (forall k <- active + completed, j <- active + completed :: k.logical == j.logical ==> k == j)
  }

  /** The tombstone queue lists every completed key exactly once. */
  ghost predicate Tombstones(completed: set<ObjectKey>, order: seq<ObjectKey>, limit: nat) {
    && Distinct(order)
    && (forall k :: k in completed <==> k in order)
    && |order| <= limit
  }

  ghost predicate Ceilings(config: Config, sessions: map<nat, Session>, objects: map<ObjectKey, ActiveObject>) {
    && |sessions| <= config.maxParentSessions
    && |objects| <= config.maxActiveObjects
    && Total(objects, ReservedBytes) <= config.maxBufferedObjectBytes
    && Total(objects, SymbolCount) <= config.maxBufferedDatagrams
  }

  ghost predicate Inv(s: Relay) {
    && s.config.Valid()
    && SessionsOk(s.sessions)
    && ActiveOk(s.config, s.sessions, s.objects)
    && CompletedOk(s.config, s.sessions, s.completed)
    && Identities(s.objects.Keys, s.completed.Keys)
    && Tombstones(s.completed.Keys, s.completedOrder, s.config.maxCompletedObjects)
    && Ceilings(s.config, s.sessions, s.objects)
  }

  lemma FreshInv(config: Config)
    requires config.Valid()
    ensures Inv(Fresh(config))
  {}

  // ---------------------------------------------------------------- removal

  lemma RemovalKeepsCeilings(
    config: Config, sessions: map<nat, Session>, objects: map<ObjectKey, ActiveObject>, gone: set<ObjectKey>)
    requires Ceilings(config, sessions, objects)
    ensures Ceilings(config, sessions, objects - gone)
  {
    SizeAfterDrop(objects, gone);
    TotalRemoveSome(objects, ReservedBytes, gone);
    TotalRemoveSome(objects, SymbolCount, gone);
  }

  lemma ExpireKeepsInv(s: Relay, now: nat)
    requires Inv(s)
    ensures Inv(Expire(s, now))
  {
    var gone := ExpiredKeys(s, now);
    RemovalKeepsCeilings(s.config, s.sessions, s.objects, gone);
    RemovalKeepsIdentities(s.objects.Keys, s.completed.Keys, gone);
    assert (s.objects - gone).Keys == s.objects.Keys - gone;
  }

  lemma RemovalKeepsIdentities(active: set<ObjectKey>, completed: set<ObjectKey>, gone: set<ObjectKey>)
    requires Identities(active, completed)
    ensures Identities(active - gone, completed)
  {}

  // ---------------------------------------------------------------- one object at a time

  lemma PutKeepsActiveOk(
    config: Config, sessions: map<nat, Session>, objects: map<ObjectKey, ActiveObject>, k: ObjectKey, o: ActiveObject)
    requires ActiveOk(config, sessions, objects) && ObjectOk(config, sessions, k, o)
    ensures ActiveOk(config, sessions, objects[k := o])
  {}

  lemma InsertKeepsCeilings(
    config: Config, sessions: map<nat, Session>, objects: map<ObjectKey, ActiveObject>, k: ObjectKey, o: ActiveObject)
    requires Ceilings(config, sessions, objects) && k !in objects && |objects| < config.maxActiveObjects
    requires Total(objects, ReservedBytes) + o.reservedBytes <= config.maxBufferedObjectBytes && o.symbols == map[]
    ensures Ceilings(config, sessions, objects[k := o])
  {
    TotalInsert(objects, ReservedBytes, k, o);
    TotalInsert(objects, SymbolCount, k, o);
  }

  lemma ReplaceKeepsCeilings(
    config: Config, sessions: map<nat, Session>, objects: map<ObjectKey, ActiveObject>, k: ObjectKey, o: ActiveObject)
    requires Ceilings(config, sessions, objects) && k in objects && o.reservedBytes == objects[k].reservedBytes
    requires Total(objects, SymbolCount) - |objects[k].symbols| + |o.symbols| <= config.maxBufferedDatagrams
    ensures Ceilings(config, sessions, objects[k := o]) && objects[k := o].Keys == objects.Keys
  {
    TotalReplace(objects, ReservedBytes, k, o);
    TotalReplace(objects, SymbolCount, k, o);
    assert objects[k := o].Keys == objects.Keys;
    assert |objects[k := o]| == |objects[k := o].Keys| && |objects| == |objects.Keys|;
  }

  // ---------------------------------------------------------------- sessions and parents

  lemma MoreSessionsKeepParents(config: Config, sessions: map<nat, Session>, session: Session, parents: set<nat>)
    requires ParentsOk(config, sessions, parents) && session.sessionId !in sessions
    ensures ParentsOk(config, sessions[session.sessionId := session], parents)
  {}

  lemma MoreSessionsKeepObjects(s: Relay, session: Session)
    requires Inv(s) && session.sessionId !in s.sessions
    ensures ActiveOk(s.config, s.sessions[session.sessionId := session], s.objects)
    ensures CompletedOk(s.config, s.sessions[session.sessionId := session], s.completed)
    ensures SessionsOk(s.sessions[session.sessionId := session])
  {
    var sessions := s.sessions[session.sessionId := session];
    hide ParentsOk, Identities, Tombstones, Ceilings;
    forall k <- s.objects
      ensures ObjectOk(s.config, sessions, k, s.objects[k])
    {
      assert ObjectOk(s.config, s.sessions, k, s.objects[k]);
      MoreSessionsKeepParents(s.config, s.sessions, session, s.objects[k].parentSessions);
    }
    forall k <- s.completed
      ensures ParentsOk(s.config, sessions, s.completed[k].parentSessions)
    {
      MoreSessionsKeepParents(s.config, s.sessions, session, s.completed[k].parentSessions);
    }
  }

  lemma RegisterKeepsInv(s: Relay, session: Session)
    requires Inv(s)
    ensures Inv(Register(s, session).0)
  {
    if session.sessionId !in s.sessions && |s.sessions| < s.config.maxParentSessions {
      MoreSessionsKeepObjects(s, session);
      hide ActiveOk, CompletedOk, SessionsOk, Identities, Tombstones;
      assert |s.sessions[session.sessionId := session]| == |s.sessions| + 1;
    }
  }

  lemma AddParentKeepsOk(config: Config, sessions: map<nat, Session>, parents: set<nat>, id: nat)
    requires ParentsOk(config, sessions, parents) && id in sessions && sessions[id].sessionId == id
    requires AddParent(sessions, parents, sessions[id], config.maxParentsPerObject).Ok?
    ensures ParentsOk(config, sessions, parents + {id})
    ensures AddParent(sessions, parents, sessions[id], config.maxParentsPerObject).value == parents + {id}
  {
    if id in parents {
      assert parents + {id} == parents;
    }
  }

  // ---------------------------------------------------------------- announcements

  lemma StartedKeepsIdentities(s: Relay, key: ObjectKey)
    requires Identities(s.objects.Keys, s.completed.Keys) && !IdentityConflict(s, key) && key !in s.completed
    ensures Identities(s.objects.Keys + {key}, s.completed.Keys)
  {
    forall k <- s.objects.Keys + {key} + s.completed.Keys, j <- s.objects.Keys + {key} + s.completed.Keys
           | k.logical == j.logical
      ensures k == j
    {
      assert k == key || Known(s, k);
      assert j == key || Known(s, j);
    }
  }

  lemma NewObjectOk(config: Config, sessions: map<nat, Session>, sessionId: nat, a: Announcement, now: nat)
    requires config.Valid() && sessionId in sessions
    ensures ObjectOk(config, sessions, a.key, NewObject(sessionId, a, now))
  {}

  lemma StartedKeepsInv(s: Relay, sessionId: nat, a: Announcement, now: nat)
    requires Inv(s) && Identities(s.objects.Keys + {a.key}, s.completed.Keys)
    requires sessionId in s.sessions && a.key !in s.objects && |s.objects| < s.config.maxActiveObjects
    requires BufferedBytes(s) + a.coding.transferLength <= s.config.maxBufferedObjectBytes
    ensures Inv(s.(objects := s.objects[a.key := NewObject(sessionId, a, now)]))
  {
    var o := NewObject(sessionId, a, now);
    NewObjectOk(s.config, s.sessions, sessionId, a, now);
    InsertKeepsCeilings(s.config, s.sessions, s.objects, a.key, o);
    PutKeepsActiveOk(s.config, s.sessions, s.objects, a.key, o);
    KeysAfterPut(s.objects, a.key, o);
  }

  /** Replacing an active object by a sound one of the same reservation. */
  lemma ReplaceKeepsInv(s: Relay, key: ObjectKey, o: ActiveObject, counters: Counters)
    requires Inv(s) && key in s.objects && ObjectOk(s.config, s.sessions, key, o)
    requires o.reservedBytes == s.objects[key].reservedBytes
    requires BufferedDatagrams(s) - |s.objects[key].symbols| + |o.symbols| <= s.config.maxBufferedDatagrams
    ensures Inv(s.(objects := s.objects[key := o], counters := counters))
  {
    ReplaceKeepsCeilings(s.config, s.sessions, s.objects, key, o);
    PutKeepsActiveOk(s.config, s.sessions, s.objects, key, o);
  }

  lemma JoinKeepsInv(s: Relay, sessionId: nat, key: ObjectKey, now: nat)
    requires Inv(s) && sessionId in s.sessions && key in s.objects
    requires AddParent(s.sessions, s.objects[key].parentSessions, s.sessions[sessionId], s.config.maxParentsPerObject).Ok?
    ensures Inv(s.(objects := s.objects[key := WithParent(s.objects[key], sessionId, now)]))
  {
    var o := s.objects[key];
    assert ObjectOk(s.config, s.sessions, key, o);
    AddParentKeepsOk(s.config, s.sessions, o.parentSessions, sessionId);
    ReplaceKeepsInv(s, key, WithParent(o, sessionId, now), s.counters);
  }

  lemma PutKeepsCompletedOk(
    config: Config, sessions: map<nat, Session>, completed: map<ObjectKey, CompletedObject>, k: ObjectKey,
    c: CompletedObject)
    requires CompletedOk(config, sessions, completed)
    requires c.announcement.key == k && ParentsOk(config, sessions, c.parentSessions)
    ensures CompletedOk(config, sessions, completed[k := c])
  {}

  lemma JoinCompletedKeepsInv(s: Relay, sessionId: nat, key: ObjectKey)
    requires Inv(s) && sessionId in s.sessions && key in s.completed
    requires
      AddParent(s.sessions, s.completed[key].parentSessions, s.sessions[sessionId], s.config.maxParentsPerObject).Ok?
    ensures Inv(s.(completed := s.completed[key := WithLateParent(s.completed[key], sessionId)]))
  {
    var c := s.completed[key];
    AddParentKeepsOk(s.config, s.sessions, c.parentSessions, sessionId);
    PutKeepsCompletedOk(s.config, s.sessions, s.completed, key, WithLateParent(c, sessionId));
    KeysAfterPut(s.completed, key, WithLateParent(c, sessionId));
  }

  lemma AnnounceKeepsInv(s: Relay, sessionId: nat, a: Announcement, ready: bool, now: nat)
    requires Inv(s)
    ensures Inv(Announced(s, sessionId, a, ready, now))
  {
    AcceptedAnnouncement(s, sessionId, a, ready, now);
    match AnnounceOutcome(s, sessionId, a, ready, now)
    case Err(_) =>
    case Ok(Started) =>
      StartedKeepsIdentities(s, a.key);
      StartedKeepsInv(s, sessionId, a, now);
    case Ok(Joined) => JoinKeepsInv(s, sessionId, a.key, now);
    case Ok(AlreadyComplete) => JoinCompletedKeepsInv(s, sessionId, a.key);
  }

  // ---------------------------------------------------------------- symbols

  lemma WithSymbolOk(
    config: Config, sessions: map<nat, Session>, o: ActiveObject, sequence: nat, symbol: Symbol, now: nat)
    requires ObjectOk(config, sessions, symbol.key, o)
    requires sequence !in o.symbols && |o.symbols| < config.maxDatagramsPerObject
    ensures ObjectOk(config, sessions, symbol.key, WithSymbol(o, sequence, symbol, now))
    ensures |WithSymbol(o, sequence, symbol, now).symbols| == |o.symbols| + 1
  {}

  lemma FedKeepsInv(s: Relay, symbol: Symbol, sequence: nat, now: nat)
    requires Inv(s) && symbol.key in s.objects && sequence !in s.objects[symbol.key].symbols
    requires |s.objects[symbol.key].symbols| < s.config.maxDatagramsPerObject
    requires BufferedDatagrams(s) < s.config.maxBufferedDatagrams
    ensures Inv(FedState(s, sequence, symbol, now))
  {
    var o := s.objects[symbol.key];
    WithSymbolOk(s.config, s.sessions, o, sequence, symbol, now);
    ReplaceKeepsInv(s, symbol.key, WithSymbol(o, sequence, symbol, now), CountRole(s.counters, symbol.role));
  }

  lemma CompletionKeepsIdentities(s: Relay, key: ObjectKey)
    requires Identities(s.objects.Keys, s.completed.Keys) && key in s.objects
    ensures Identities(CompletedState(s, key).objects.Keys, CompletedState(s, key).completed.Keys)
  {
    hide CompletionCounts, LastOf;
  }

  lemma CompletionKeepsTombstones(s: Relay, key: ObjectKey)
    requires Tombstones(s.completed.Keys, s.completedOrder, s.config.maxCompletedObjects)
    requires key in s.objects && key !in s.completed && 0 < s.config.maxCompletedObjects
    ensures Tombstones(CompletedState(s, key).completed.Keys, CompletedState(s, key).completedOrder,
                       s.config.maxCompletedObjects)
  {
    hide CompletionCounts;
  }

  lemma CompletionKeepsCompletedOk(s: Relay, key: ObjectKey)
    requires CompletedOk(s.config, s.sessions, s.completed) && key in s.objects
    requires ObjectOk(s.config, s.sessions, key, s.objects[key])
    ensures CompletedOk(s.config, s.sessions, CompletedState(s, key).completed)
  {}

  lemma RemovalKeepsActiveOk(
    config: Config, sessions: map<nat, Session>, objects: map<ObjectKey, ActiveObject>, gone: set<ObjectKey>)
    requires ActiveOk(config, sessions, objects)
    ensures ActiveOk(config, sessions, objects - gone) && (objects - gone).Keys == objects.Keys - gone
  {}

  lemma CompletedKeepsInv(s: Relay, key: ObjectKey)
    requires Inv(s) && key in s.objects
    ensures Inv(CompletedState(s, key))
  {
    assert ObjectOk(s.config, s.sessions, key, s.objects[key]) && key !in s.completed;
    hide ActiveOk, CompletedOk, Identities, Tombstones, Ceilings, LastOf, Tombstoned, CompletionCounts, SessionsOk;
    RemovalKeepsActiveOk(s.config, s.sessions, s.objects, {key});
    RemovalKeepsCeilings(s.config, s.sessions, s.objects, {key});
    CompletionKeepsCompletedOk(s, key);
    CompletionKeepsIdentities(s, key);
    CompletionKeepsTombstones(s, key);
  }

  lemma CountersKeepInv(s: Relay, counters: Counters)
    requires Inv(s)
    ensures Inv(s.(counters := counters))
  {}

  lemma FedOutcomeKeepsInv(s: Relay, symbol: Symbol, sequence: nat, verdict: Verdict, now: nat)
    requires Inv(s) && symbol.key in s.objects && Inv(FedState(s, sequence, symbol, now))
    ensures Inv(FedOutcome(s, symbol, sequence, verdict, now).0)
  {
    if verdict.Completed? && !KindMismatch(s, symbol, verdict) {
      var fed := FedState(s, sequence, symbol, now);
      CompletedKeepsInv(fed, symbol.key);
      assert FedOutcome(s, symbol, sequence, verdict, now).0 == CompletedState(fed, symbol.key);
    }
  }

  lemma PushSymbolKeepsInv(s: Relay, sessionId: nat, symbol: Symbol, verdict: Verdict, now: nat)
    requires Inv(s) && sessionId in s.sessions
    ensures Inv(PushSymbol(s, sessionId, symbol, verdict, now).0)
  {
    hide Inv, Admit, FedOutcome, FedState, Expire;
    var admission := Admit(s, sessionId, symbol, now);
    if admission.Repeat? {
      CountersKeepInv(s, CountRole(s.counters.(duplicate := s.counters.duplicate + 1), symbol.role));
    } else if admission.Late? {
      ExpireKeepsInv(s, now);
    } else if admission.Feed? {
      AdmittedSymbol(s, sessionId, symbol, now);
      FedKeepsInv(s, symbol, admission.sequence, now);
      FedOutcomeKeepsInv(s, symbol, admission.sequence, verdict, now);
    }
  }

  lemma AnnounceObjectKeepsInv(s: Relay, sessionId: nat, a: Announcement, ready: bool, now: nat)
    requires Inv(s)
    ensures Inv(AnnounceObject(s, sessionId, a, ready, now).0)
  {
    var swept := ExpireIfDue(s, now);
    ExpireKeepsInv(s, now);
    AnnounceKeepsInv(swept, sessionId, a, ready, now);
    CountersKeepInv(swept, AnnounceObject(s, sessionId, a, ready, now).0.counters);
  }

  lemma PushDatagramKeepsInv(s: Relay, sessionId: nat, wire: Wire, verdict: Verdict, now: nat)
    requires Inv(s)
    ensures Inv(PushDatagram(s, sessionId, wire, verdict, now).0)
  {
    CountersKeepInv(s, Received(s).counters);
    ExpireKeepsInv(Received(s), now);
    if sessionId in s.sessions && wire.Decoded? {
      PushSymbolKeepsInv(ExpireIfDue(Received(s), now), sessionId, wire.symbol, verdict, now);
    }
    CountersKeepInv(PushWire(Received(s), sessionId, wire, verdict, now).0,
                    PushDatagram(s, sessionId, wire, verdict, now).0.counters);
  }

  lemma PushControlledKeepsInv(s: Relay, sessionId: nat, wire: Wire, verdict: Verdict, ready: bool, now: nat)
    requires Inv(s)
    ensures Inv(PushControlled(s, sessionId, wire, verdict, ready, now).0)
  {
    var (announced, result) := EnsureControlled(s, sessionId, wire, ready, now);
    ExpireKeepsInv(s, now);
    if wire.Decoded? {
      AnnounceKeepsInv(ExpireIfDue(s, now), sessionId, DerivedAnnouncement(wire.symbol), ready, now);
    }
    assert Inv(announced);
    PushDatagramKeepsInv(announced, sessionId, wire, verdict, now);
    if result.Err? {
      CountersKeepInv(announced, PushControlled(s, sessionId, wire, verdict, ready, now).0.counters);
    }
  }
}
