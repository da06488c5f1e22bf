/** The relay receiver as it is written: five collections and two running budgets updated in place.  The
    logical-identity index and the budgets are caches; `Valid` says they are exact, and every method is
    proved to refine the corresponding transition of module RelaySpec. */
module RelayReceiver {
  import opened Collections
  import opened Prelude
  import opened Totals
  import opened RelaySpec
  import opened RelayInvariants

  /** The index maps each logical identity in use to the one canonical key that has it. */
  ghost predicate IndexExact(index: map<Logical, ObjectKey>, known: set<ObjectKey>) {
    && (forall k <- known :: k.logical in index && index[k.logical] == k)
    && (forall l <- index :: index[l].logical == l && index[l] in known)
  }

  /** The running totals are the sums over the active objects. */
  ghost predicate Budgets(objects: map<ObjectKey, ActiveObject>, bytes: nat, datagrams: nat) {
    bytes == Total(objects, ReservedBytes) && datagrams == Total(objects, SymbolCount)
  }

  lemma IndexFindsConflicts(s: Relay, index: map<Logical, ObjectKey>, key: ObjectKey)
    requires IndexExact(index, s.objects.Keys + s.completed.Keys)
    ensures (key.logical in index && index[key.logical] != key) <==> IdentityConflict(s, key)
  {
    if key.logical in index && index[key.logical] != key {
      assert Known(s, index[key.logical]);
    }
  }

  lemma IndexAfterRemoval(index: map<Logical, ObjectKey>, known: set<ObjectKey>, key: ObjectKey)
    requires IndexExact(index, known) && key in known
    ensures IndexExact(index - {key.logical}, known - {key})
  {}

  lemma IndexAfterInsertion(index: map<Logical, ObjectKey>, known: set<ObjectKey>, key: ObjectKey)
    requires IndexExact(index, known) && (key.logical in index ==> index[key.logical] == key)
    ensures IndexExact(index[key.logical := key], known + {key})
  {}

  lemma WithoutActive(active: set<ObjectKey>, completed: set<ObjectKey>, key: ObjectKey)
    requires active !! completed && key in active
    ensures active + completed - {key} == (active - {key}) + completed
  {}

  lemma WithActive(active: set<ObjectKey>, completed: set<ObjectKey>, key: ObjectKey)
    ensures active + completed + {key} == (active + {key}) + completed
  {}

  lemma ActiveAndCompletedDisjoint(s: Relay)
    requires Inv(s)
    ensures s.objects.Keys !! s.completed.Keys
  {}

  lemma KnownParentsOk(s: Relay, key: ObjectKey)
    requires Inv(s)
    ensures s.config.Valid()
    ensures key in s.objects ==> ParentsOk(s.config, s.sessions, s.objects[key].parentSessions)
    ensures key in s.completed ==> ParentsOk(s.config, s.sessions, s.completed[key].parentSessions)
    ensures forall id <- s.sessions :: s.sessions[id].sessionId == id
  {
    if key in s.objects {
      assert ObjectOk(s.config, s.sessions, key, s.objects[key]);
    }
  }

  lemma ExpiredAreActive(s: Relay, now: nat)
    ensures ExpiredKeys(s, now) <= s.objects.Keys
  {}

  datatype Expiry = Expiry(objects: nat, releasedObjectBytes: nat, releasedDatagrams: nat)

  /** The scan over an object's parents before another session may join. */
  method AddParentToSet(sessions: map<nat, Session>, parents: set<nat>, candidate: Session, config: Config)
    returns (r: Result<set<nat>, Error>)
    requires config.Valid() && ParentsOk(config, sessions, parents)
    ensures r == AddParent(sessions, parents, candidate, config.maxParentsPerObject)
  {
    if candidate.sessionId in parents {
      return Ok(parents);
    }
    if |parents| >= config.maxParentsPerObject {
      return Err(ParentLimitExceeded);
    }
    // At most two parents are configured, so at most one is left to compare with.
    var remaining := parents;
    while remaining != {}
      invariant remaining <= parents
      invariant forall p <- parents - remaining :: Compatible(sessions[p], candidate)
      decreases remaining
    {
      var id :| id in remaining;
      SingletonOnly(parents, id);
      var existing := sessions[id];
      if existing.peer == candidate.peer
         && !(existing.controlledQualification && candidate.controlledQualification) {
        return Err(ParentSessionConflict);
      }
      if existing.parentPath == candidate.parentPath {
        return Err(ParentRoleConflict);
      }
      remaining := remaining - {id};
    }
    return Ok(parents + {candidate.sessionId});
  }

  lemma SingletonOnly(parents: set<nat>, id: nat)
    requires id in parents && |parents| < 2
    ensures parents == {id}
  {
    assert |parents - {id}| == |parents| - 1;
  }

  class RelayObjectReceiver {
    const config: Config
    var sessions: map<nat, Session>
    var objects: map<ObjectKey, ActiveObject>
    var logicalKeys: map<Logical, ObjectKey>
    var completed: map<ObjectKey, CompletedObject>
    var completedOrder: seq<ObjectKey>
    var bufferedObjectBytes: nat
    var bufferedDatagrams: nat
    var counters: Counters
    var nextExpiryScanUs: Option<nat>

    function State(): Relay
      reads this
    {
      Relay(config, sessions, objects, completed, completedOrder, counters, nextExpiryScanUs)
    }

    ghost predicate BudgetsExact()
      reads `objects, `bufferedObjectBytes, `bufferedDatagrams
    {
      Budgets(objects, bufferedObjectBytes, bufferedDatagrams)
    }

    ghost predicate Valid()
      reads this
    {
      Inv(State()) && IndexExact(logicalKeys, objects.Keys + completed.Keys) && BudgetsExact()
    }

    constructor (config: Config)
      requires config.Valid()
      ensures Valid() && State() == Fresh(config)
    {
      this.config := config;
      sessions, objects, logicalKeys, completed, completedOrder := map[], map[], map[], map[], [];
      bufferedObjectBytes, bufferedDatagrams := 0, 0;
      counters, nextExpiryScanUs := NO_COUNTS, None;
    }

    method RegisterParentSession(session: Session) returns (r: Result<(), Error>)
      requires Valid()
      modifies this`sessions
      ensures Valid() && (State(), r) == Register(old(State()), session)
    {
      RegisterKeepsInv(State(), session);
      if session.sessionId in sessions {
        return if sessions[session.sessionId] == session then Ok(()) else Err(ParentSessionConflict);
      }
      if |sessions| >= config.maxParentSessions {
        return Err(LimitExceeded);
      }
      sessions := sessions[session.sessionId := session];
      return Ok(());
    }

    // -------------------------------------------------------------- removal and expiry

    /** Neither subtraction clips: the budgets really contained this object. */
    method RemoveActiveObject(key: ObjectKey, removeLogicalKey: bool) returns (state: ActiveObject)
      requires key in objects && BudgetsExact()
      modifies `objects, `logicalKeys, `bufferedObjectBytes, `bufferedDatagrams
      ensures state == old(objects)[key] && objects == old(objects) - {key} && BudgetsExact()
      ensures bufferedObjectBytes == old(bufferedObjectBytes) - state.reservedBytes
      ensures bufferedDatagrams == old(bufferedDatagrams) - |state.symbols|
      ensures logicalKeys == if removeLogicalKey then old(logicalKeys) - {key.logical} else old(logicalKeys)
    {
      state := objects[key];
      TotalRemove(objects, ReservedBytes, key);
      TotalRemove(objects, SymbolCount, key);
      objects := objects - {key};
      bufferedObjectBytes := SatSub(bufferedObjectBytes, state.reservedBytes);
      bufferedDatagrams := SatSub(bufferedDatagrams, |state.symbols|);
      if removeLogicalKey {
        logicalKeys := logicalKeys - {key.logical};
      }
    }

    method ExpireObjects(now: nat) returns (result: Expiry)
      requires Valid()
      modifies this
      ensures Valid() && State() == Expire(old(State()), now)
      ensures result.objects == |ExpiredKeys(old(State()), now)|
      ensures result.releasedObjectBytes == old(bufferedObjectBytes) - bufferedObjectBytes
      ensures result.releasedDatagrams == old(bufferedDatagrams) - bufferedDatagrams
    {
      hide Inv, SessionsOk, ActiveOk, CompletedOk, Identities, Tombstones, Ceilings, IndexExact, ExpiredKeys, IsExpired,
        SatAdd, BudgetsExact;
      ghost var after := Expire(State(), now);
      var expired := ExpiredKeys(State(), now);
      ExpireKeepsInv(State(), now);
      ActiveAndCompletedDisjoint(State());
      ExpiredAreActive(State(), now);
      result := RemoveExpired(expired);
      counters := counters.(expired := counters.expired + result.objects);
      nextExpiryScanUs := Some(SatAdd(now, config.expiryScanIntervalUs));
      assert State() == after;
    }

    method RemoveExpired(expired: set<ObjectKey>) returns (result: Expiry)
      requires expired <= objects.Keys && objects.Keys !! completed.Keys
      requires IndexExact(logicalKeys, objects.Keys + completed.Keys) && BudgetsExact()
      modifies `objects, `logicalKeys, `bufferedObjectBytes, `bufferedDatagrams
      ensures IndexExact(logicalKeys, objects.Keys + completed.Keys) && BudgetsExact()
      ensures objects == old(objects) - expired && result.objects == |expired|
      ensures result.releasedObjectBytes == old(bufferedObjectBytes) - bufferedObjectBytes
      ensures result.releasedDatagrams == old(bufferedDatagrams) - bufferedDatagrams
    {
      hide IndexExact;
      result := Expiry(0, 0, 0);
      var remaining := expired;
      while remaining != {}
        invariant remaining <= expired
        invariant forall k :: k in objects <==> k in old(objects) && (k in remaining || k !in expired)
        invariant forall k <- objects :: objects[k] == old(objects)[k]
        invariant objects.Keys !! completed.Keys
        invariant IndexExact(logicalKeys, objects.Keys + completed.Keys) && BudgetsExact()
        invariant result.objects + |remaining| == |expired|
        invariant result.releasedObjectBytes == old(bufferedObjectBytes) - bufferedObjectBytes
        invariant result.releasedDatagrams == old(bufferedDatagrams) - bufferedDatagrams
        decreases remaining
      {
        var key :| key in remaining;
        IndexAfterRemoval(logicalKeys, objects.Keys + completed.Keys, key);
        WithoutActive(objects.Keys, completed.Keys, key);
        KeysAfterDrop(objects, {key});
        var state := RemoveActiveObject(key, true);
        remaining := remaining - {key};
        result := Expiry(result.objects + 1, result.releasedObjectBytes + state.reservedBytes,
                         result.releasedDatagrams + |state.symbols|);
      }
      assert objects == old(objects) - expired;
    }

    method ExpireObjectsIfDue(now: nat)
      requires Valid()
      modifies this
      ensures Valid() && State() == ExpireIfDue(old(State()), now)
    {
      var due := nextExpiryScanUs.None? || now >= nextExpiryScanUs.value;
      if due {
        var _ := ExpireObjects(now);
      }
    }

    // -------------------------------------------------------------- announcements

    method AnnounceReliable(sessionId: nat, a: Announcement, ready: bool, now: nat)
      returns (r: Result<AnnouncementOutcome, Error>)
      requires Valid()
      modifies this
      ensures Valid() && (State(), r) == AnnounceObject(old(State()), sessionId, a, ready, now)
    {
      hide Inv, IndexExact, AnnounceOutcome, ExpireIfDue;
      r := TryAnnounceObject(sessionId, a, ready, now);
      if r.Err? {
        CountersKeepInv(State(), CountRejection(counters, r.error, false));
        RecordRejection(r.error, false);
      }
    }

    method RecordRejection(error: Error, datagram: bool)
      modifies `counters
      ensures counters == CountRejection(old(counters), error, datagram)
    {
      if datagram {
        counters := counters.(rejected := counters.rejected + 1);
      }
      match error {
        case AuthenticationRequired | ParentSessionMissing | UnauthorizedParent =>
          counters := counters.(authenticationDrops := counters.authenticationDrops + 1);
        case DeadlineExpired =>
          counters := counters.(deadlineDrops := counters.deadlineDrops + 1);
        case AnnouncementConflict | ObjectIdentityConflict | SymbolReplayConflict | RelaySessionConflict =>
          counters := counters.(conflictDrops := counters.conflictDrops + 1);
        case _ =>
      }
    }

    method TryAnnounceObject(sessionId: nat, a: Announcement, ready: bool, now: nat)
      returns (r: Result<AnnouncementOutcome, Error>)
      requires Valid()
      modifies this
      ensures Valid()
      ensures r == AnnounceOutcome(ExpireIfDue(old(State()), now), sessionId, a, ready, now)
      ensures State() == Announced(ExpireIfDue(old(State()), now), sessionId, a, ready, now)
    {
      hide Inv, IndexExact, IdentityConflict, PlacementOutcome, ExpireIfDue;
      ExpireObjectsIfDue(now);
      if sessionId !in sessions {
        return Err(ParentSessionMissing);
      }
      var session := sessions[sessionId];
      if a.generation != session.generation || a.subscriptionId != session.subscriptionId {
        return Err(UnauthorizedParent);
      }
      if !a.coding.wellFormed {
        return Err(RelaySessionError);
      }
      if a.initialRepairSymbols > config.maxExtraRepairSymbols {
        return Err(LimitExceeded);
      }
      IndexFindsConflicts(State(), logicalKeys, a.key);
      if a.key.logical in logicalKeys && logicalKeys[a.key.logical] != a.key {
        return Err(ObjectIdentityConflict);
      }
      AnnounceKeepsInv(State(), sessionId, a, ready, now);
      KnownParentsOk(State(), a.key);
      r := PlaceAnnouncement(sessionId, session, a, ready, now);
    }

    method PlaceAnnouncement(sessionId: nat, session: Session, a: Announcement, ready: bool, now: nat)
      returns (r: Result<AnnouncementOutcome, Error>)
      requires config.Valid() && session.sessionId == sessionId
      requires IndexExact(logicalKeys, objects.Keys + completed.Keys) && BudgetsExact()
      requires a.key.logical in logicalKeys ==> logicalKeys[a.key.logical] == a.key
      requires a.key in objects ==> ParentsOk(config, sessions, objects[a.key].parentSessions)
      requires a.key in completed ==> ParentsOk(config, sessions, completed[a.key].parentSessions)
      modifies `objects, `completed, `logicalKeys, `bufferedObjectBytes
      ensures IndexExact(logicalKeys, objects.Keys + completed.Keys) && BudgetsExact()
      ensures r == PlacementOutcome(old(State()), session, a, ready, now)
      ensures State() == Placed(old(State()), sessionId, a, now, r)
    {
      hide IndexExact, AddParent, ParentsOk;
      if a.key in completed {
        r := JoinCompleted(session, a);
        return;
      }
      if a.deadline <= now {
        return Err(DeadlineExpired);
      }
      if a.key in objects {
        r := JoinActive(session, a, now);
        return;
      }
      if |objects| >= config.maxActiveObjects {
        return Err(LimitExceeded);
      }
      var requested := bufferedObjectBytes + a.coding.transferLength;
      if requested > config.maxBufferedObjectBytes {
        return Err(LimitExceeded);
      }
      if !ready {
        return Err(RelaySessionError);
      }
      StartObject(sessionId, a, requested, now);
      return Ok(Started);
    }

    method JoinCompleted(session: Session, a: Announcement) returns (r: Result<AnnouncementOutcome, Error>)
      requires config.Valid() && a.key in completed
      requires ParentsOk(config, sessions, completed[a.key].parentSessions)
      modifies `completed
      ensures
        var c := old(completed)[a.key];
        var joined := AddParent(sessions, c.parentSessions, session, config.maxParentsPerObject);
        && r == (if c.announcement != a then Err(AnnouncementConflict)
                 else if joined.Err? then Err(joined.error) else Ok(AlreadyComplete))
        && completed == (if r.Ok? then old(completed)[a.key := WithLateParent(c, session.sessionId)] else old(completed))
        && completed.Keys == old(completed).Keys
    {
      var c := completed[a.key];
      if c.announcement != a {
        return Err(AnnouncementConflict);
      }
      var joined := AddParentToSet(sessions, c.parentSessions, session, config);
      if joined.Err? {
        return Err(joined.error);
      }
      AddParentAdds(sessions, c.parentSessions, session, config.maxParentsPerObject);
      KeysAfterPut(completed, a.key, WithLateParent(c, session.sessionId));
      completed := completed[a.key := c.(parentSessions := joined.value)];
      return Ok(AlreadyComplete);
    }

    method JoinActive(session: Session, a: Announcement, now: nat) returns (r: Result<AnnouncementOutcome, Error>)
      requires config.Valid() && a.key in objects && BudgetsExact()
      requires ParentsOk(config, sessions, objects[a.key].parentSessions)
      modifies `objects
      ensures
        var o := old(objects)[a.key];
        var joined := AddParent(sessions, o.parentSessions, session, config.maxParentsPerObject);
        && r == (if o.announcement != a then Err(AnnouncementConflict)
                 else if joined.Err? then Err(joined.error) else Ok(Joined))
        && objects == (if r.Ok? then old(objects)[a.key := WithParent(o, session.sessionId, now)] else old(objects))
        && objects.Keys == old(objects).Keys && BudgetsExact()
    {
      var o := objects[a.key];
      if o.announcement != a {
        return Err(AnnouncementConflict);
      }
      var joined := AddParentToSet(sessions, o.parentSessions, session, config);
      if joined.Err? {
        return Err(joined.error);
      }
      AddParentAdds(sessions, o.parentSessions, session, config.maxParentsPerObject);
      ghost var joinedObject := WithParent(o, session.sessionId, now);
      KeysAfterPut(objects, a.key, joinedObject);
      TotalReplace(objects, ReservedBytes, a.key, joinedObject);
      TotalReplace(objects, SymbolCount, a.key, joinedObject);
      objects := objects[a.key := o.(parentSessions := joined.value, lastActivityUs := now)];
      return Ok(Joined);
    }

    method StartObject(sessionId: nat, a: Announcement, requested: nat, now: nat)
      requires a.key !in objects && requested == bufferedObjectBytes + a.coding.transferLength
      requires IndexExact(logicalKeys, objects.Keys + completed.Keys) && BudgetsExact()
      requires a.key.logical in logicalKeys ==> logicalKeys[a.key.logical] == a.key
      modifies `objects, `logicalKeys, `bufferedObjectBytes
      ensures objects == old(objects)[a.key := NewObject(sessionId, a, now)]
      ensures IndexExact(logicalKeys, objects.Keys + completed.Keys) && BudgetsExact()
    {
      hide IndexExact;
      IndexAfterInsertion(logicalKeys, objects.Keys + completed.Keys, a.key);
      WithActive(objects.Keys, completed.Keys, a.key);
      var o := NewObject(sessionId, a, now);
      TotalsAfterStart(objects, sessionId, a, now);
      logicalKeys := logicalKeys[a.key.logical := a.key];
      objects := objects[a.key := o];
      bufferedObjectBytes := requested;
    }

    /** A controlled qualification session derives the announcement from its first symbol. */
    method EnsureControlledAnnouncement(sessionId: nat, wire: Wire, ready: bool, now: nat)
      returns (r: Result<(), Error>)
      requires Valid()
      modifies this
      ensures Valid() && (State(), r) == EnsureControlled(old(State()), sessionId, wire, ready, now)
    {
      hide Inv, IndexExact, Announced, AnnounceOutcome, ExpireIfDue, Budgets;
      if sessionId !in sessions {
        return Err(ParentSessionMissing);
      }
      var session := sessions[sessionId];
      if !session.controlledQualification {
        return Err(AnnouncementRequired);
      }
      if wire.Undecodable? {
        return Err(RelaySessionError);
      }
      if !Authorized(State(), session, wire.symbol) {
        return Err(UnauthorizedParent);
      }
      var outcome := TryAnnounceObject(sessionId, DerivedAnnouncement(wire.symbol), ready, now);
      return if outcome.Err? then Err(outcome.error) else Ok(());
    }

    // -------------------------------------------------------------- symbols

    method PushWireDatagram(sessionId: nat, wire: Wire, verdict: Verdict, now: nat)
      returns (r: Result<IngressOutcome, Error>)
      requires Valid()
      requires wire.Decoded? && verdict.Completed? ==> verdict.object_.key == wire.symbol.key
      modifies this
      ensures Valid() && (State(), r) == PushDatagram(old(State()), sessionId, wire, verdict, now)
    {
      hide Inv, IndexExact, PushWire, CountRejection;
      CountersKeepInv(State(), Received(State()).counters);
      counters := counters.(received := counters.received + 1);
      r := TryPushWireDatagram(sessionId, wire, verdict, now);
      if r.Err? {
        CountersKeepInv(State(), CountRejection(counters, r.error, true));
        RecordRejection(r.error, true);
      }
    }

    method TryPushWireDatagram(sessionId: nat, wire: Wire, verdict: Verdict, now: nat)
      returns (r: Result<IngressOutcome, Error>)
      requires Valid()
      requires wire.Decoded? && verdict.Completed? ==> verdict.object_.key == wire.symbol.key
      modifies this
      ensures Valid() && (State(), r) == PushWire(old(State()), sessionId, wire, verdict, now)
    {
      hide Inv, IndexExact, PushSymbol, ExpireIfDue;
      if sessionId !in sessions {
        return Err(ParentSessionMissing);
      }
      if wire.Undecodable? {
        return Err(RelaySessionError);
      }
      ExpireObjectsIfDue(now);
      r := PushDecoded(sessionId, wire.symbol, verdict, now);
    }

    method PushDecoded(sessionId: nat, symbol: Symbol, verdict: Verdict, now: nat)
      returns (r: Result<IngressOutcome, Error>)
      requires Valid() && sessionId in sessions
      requires verdict.Completed? ==> verdict.object_.key == symbol.key
      modifies this
      ensures Valid() && (State(), r) == PushSymbol(old(State()), sessionId, symbol, verdict, now)
    {
      hide Inv, IndexExact, AdmitActive, IdentityConflict, MatchesCompleted, Expire, FedOutcome, BudgetsExact;
      var session := sessions[sessionId];
      KnownParentsOk(State(), symbol.key);
      PushSymbolKeepsInv(State(), sessionId, symbol, verdict, now);
      if !Authorized(State(), session, symbol) {
        return Err(UnauthorizedParent);
      }
      IndexFindsConflicts(State(), logicalKeys, symbol.key);
      if symbol.key.logical in logicalKeys && logicalKeys[symbol.key.logical] != symbol.key {
        return Err(ObjectIdentityConflict);
      }
      if symbol.key in completed {
        if !MatchesCompleted(State(), completed[symbol.key], session, symbol) {
          return Err(UnauthorizedParent);
        }
        CountDuplicate(symbol.role);
        return Ok(DuplicateSymbol(symbol.key, symbol.role));
      }
      if symbol.deadline <= now {
        var _ := ExpireObjects(now);
        return Err(DeadlineExpired);
      }
      if symbol.key !in objects {
        return Err(AnnouncementRequired);
      }
      ReadyToFeed(State(), symbol.key);
      r := PushActive(sessionId, symbol, verdict, now);
    }

    method CountDuplicate(role: Role)
      modifies `counters
      ensures counters == CountRole(old(counters).(duplicate := old(counters).duplicate + 1), role)
    {
      counters := counters.(duplicate := counters.duplicate + 1);
      match role {
        case SourceSymbol => counters := counters.(source := counters.source + 1);
        case RepairSymbol => counters := counters.(repair := counters.repair + 1);
      }
    }

    /** The part of a push that works on one active object. */
    method PushActive(sessionId: nat, symbol: Symbol, verdict: Verdict, now: nat)
      returns (r: Result<IngressOutcome, Error>)
      requires symbol.key in objects && symbol.key !in completed && objects.Keys !! completed.Keys
      requires verdict.Completed? ==> verdict.object_.key == symbol.key
      requires 0 < config.maxCompletedObjects
      requires IndexExact(logicalKeys, objects.Keys + completed.Keys) && BudgetsExact()
      requires Tombstones(completed.Keys, completedOrder, config.maxCompletedObjects)
      modifies this
      ensures IndexExact(logicalKeys, objects.Keys + completed.Keys) && BudgetsExact()
      ensures (State(), r)
           == HandleSymbol(old(State()), symbol, AdmitActive(old(State()), sessionId, symbol), verdict, now)
    {
      hide IndexExact, Tombstones, FedOutcome, CountRole, HandleSymbol, AdmitActive, BudgetsExact;
      var admission := CheckActive(sessionId, symbol);
      match admission {
        case Refuse(error) =>
          r := Err(error);
          HandleRefused(State(), symbol, error, verdict, now);
        case Repeat =>
          HandleRepeat(State(), symbol, verdict, now);
          CountDuplicate(symbol.role);
          r := Ok(DuplicateSymbol(symbol.key, symbol.role));
        case Feed(sequence) =>
          HandleFeed(State(), symbol, sequence, verdict, now);
          r := Assemble(symbol, sequence, verdict, now);
      }
    }

    /** The checks on an active object before its assembler sees the symbol. */
    method CheckActive(sessionId: nat, symbol: Symbol) returns (admission: Admission)
      requires symbol.key in objects && BudgetsExact()
      ensures admission == AdmitActive(State(), sessionId, symbol) && !admission.Late?
      ensures admission.Feed? ==> admission.sequence !in objects[symbol.key].symbols
    {
      var state := objects[symbol.key];
      if sessionId !in state.parentSessions {
        return Refuse(UnauthorizedParent);
      }
      if symbol.packetSequence.None? {
        return Refuse(RelaySessionError);
      }
      var sequence := symbol.packetSequence.value;
      if sequence in state.symbols {
        if state.symbols[sequence] != Fingerprint(symbol.datagramHash, symbol.role) {
          return Refuse(SymbolReplayConflict);
        }
        return Repeat;
      }
      if |state.symbols| >= config.maxDatagramsPerObject {
        return Refuse(DatagramLimitExceeded);
      }
      if bufferedDatagrams >= config.maxBufferedDatagrams {
        return Refuse(BufferedDatagramLimitExceeded);
      }
      return Feed(sequence);
    }

    method Assemble(symbol: Symbol, sequence: nat, verdict: Verdict, now: nat)
      returns (r: Result<IngressOutcome, Error>)
      requires symbol.key in objects && symbol.key !in completed && objects.Keys !! completed.Keys
      requires sequence !in objects[symbol.key].symbols
      requires verdict.Completed? ==> verdict.object_.key == symbol.key
      requires 0 < config.maxCompletedObjects
      requires IndexExact(logicalKeys, objects.Keys + completed.Keys) && BudgetsExact()
      requires Tombstones(completed.Keys, completedOrder, config.maxCompletedObjects)
      modifies this
      ensures IndexExact(logicalKeys, objects.Keys + completed.Keys) && BudgetsExact()
      ensures (State(), r) == FedOutcome(old(State()), symbol, sequence, verdict, now)
    {
      hide IndexExact, Tombstones, CompletedState, CountRole, BudgetsExact;
      if verdict.Refused? {
        return Err(if verdict.conflict then RelaySessionConflict else RelaySessionError);
      }
      ghost var fed := FedState(State(), sequence, symbol, now);
      StoreSymbol(symbol, sequence, now);
      assert State() == fed;
      if verdict.Incomplete? {
        return Ok(BufferedSymbol(symbol.key, symbol.role));
      }
      if !KindCompatible(verdict.object_, objects[symbol.key].announcement.kind) {
        return Err(ObjectIdentityConflict);
      }
      var active := objects[symbol.key];
      CompleteObject(verdict.object_.key);
      return Ok(DecodedObject(verdict.object_, symbol.role, |active.parentSessions|, |active.symbols|));
    }

    method StoreSymbol(symbol: Symbol, sequence: nat, now: nat)
      requires symbol.key in objects && sequence !in objects[symbol.key].symbols && BudgetsExact()
      modifies `objects, `counters, `bufferedDatagrams
      ensures objects == old(objects)[symbol.key := WithSymbol(old(objects)[symbol.key], sequence, symbol, now)]
      ensures counters == CountRole(old(counters), symbol.role)
      ensures objects.Keys == old(objects).Keys && BudgetsExact()
    {
      hide CountRole, WithSymbol, Budgets;
      TotalsAfterSymbol(objects, bufferedObjectBytes, bufferedDatagrams, symbol, sequence, now);
      var state := AddSymbol(objects[symbol.key], sequence, symbol, now);
      objects := objects[symbol.key := state];
      bufferedDatagrams := bufferedDatagrams + 1;
    }

    method AddSymbol(old_: ActiveObject, sequence: nat, symbol: Symbol, now: nat) returns (state: ActiveObject)
      modifies `counters
      ensures state == WithSymbol(old_, sequence, symbol, now)
      ensures counters == CountRole(old(counters), symbol.role)
    {
      state := old_.(symbols := old_.symbols[sequence := Fingerprint(symbol.datagramHash, symbol.role)]);
      if symbol.role == SourceSymbol {
        state := state.(sourceSymbols := state.sourceSymbols + 1);
        counters := counters.(source := counters.source + 1);
      } else {
        state := state.(repairSymbols := state.repairSymbols + 1);
        counters := counters.(repair := counters.repair + 1);
      }
      state := state.(lastActivityUs := now);
    }

    method CompleteObject(key: ObjectKey)
      requires key in objects && key !in completed && objects.Keys !! completed.Keys
      requires 0 < config.maxCompletedObjects
      requires IndexExact(logicalKeys, objects.Keys + completed.Keys) && BudgetsExact()
      requires Tombstones(completed.Keys, completedOrder, config.maxCompletedObjects)
      modifies `objects, `logicalKeys, `completed, `completedOrder, `bufferedObjectBytes, `bufferedDatagrams, `counters
      ensures IndexExact(logicalKeys, objects.Keys + completed.Keys) && BudgetsExact()
      ensures State() == CompletedState(old(State()), key)
    {
      hide IndexExact, Tombstones, LastOf, Tombstoned, CompletionCounts, BudgetsExact, Distinct;
      ghost var before := State();
      var active := CompleteActive(key);
      CountCompletion(active);
      InsertCompleted(key, CompletedObject(active.announcement, active.parentSessions));
      assert State() == CompletedState(before, key);
    }

    /** The object leaves the active set; its logical identity stays bound. */
    method CompleteActive(key: ObjectKey) returns (active: ActiveObject)
      requires key in objects && objects.Keys !! completed.Keys
      requires IndexExact(logicalKeys, objects.Keys + completed.Keys) && BudgetsExact()
      modifies `objects, `logicalKeys, `bufferedObjectBytes, `bufferedDatagrams
      ensures active == old(objects)[key] && objects == old(objects) - {key}
      ensures key !in objects && objects.Keys !! completed.Keys
      ensures IndexExact(logicalKeys, objects.Keys + completed.Keys + {key}) && BudgetsExact()
    {
      hide IndexExact, BudgetsExact;
      KeysAfterDrop(objects, {key});
      RestoreActive(objects.Keys, completed.Keys, key);
      active := RemoveActiveObject(key, false);
    }

    method CountCompletion(active: ActiveObject)
      modifies `counters
      ensures counters == CompletionCounts(old(counters), active)
    {
      counters := counters.(decoded := counters.decoded + 1);
      if active.repairSymbols > 0 {
        counters := counters.(repairAssisted := counters.repairAssisted + 1);
      }
      var missing := SatSub(active.announcement.coding.sourceSymbols, active.sourceSymbols);
      if missing > 0 {
        counters := counters.(fecRecovered := counters.fecRecovered + 1,
                              fecRecoveredSymbols := counters.fecRecoveredSymbols + missing);
      }
    }

    method InsertCompleted(key: ObjectKey, entry: CompletedObject)
      requires key !in objects && key !in completed && objects.Keys !! completed.Keys
      requires 0 < config.maxCompletedObjects
      requires IndexExact(logicalKeys, objects.Keys + completed.Keys + {key})
      requires Tombstones(completed.Keys, completedOrder, config.maxCompletedObjects)
      modifies `completed, `completedOrder, `logicalKeys
      ensures completedOrder == LastOf(old(completedOrder) + [key], config.maxCompletedObjects)
      ensures completed == Tombstoned(old(completed)[key := entry], completedOrder)
      ensures IndexExact(logicalKeys, objects.Keys + completed.Keys)
    {
      hide IndexExact, Tombstones, Tombstoned, LastOf, SuffixAfterEviction;
      ghost var completed0, order0 := completed, completedOrder;
      AllTombstoned(completed, completedOrder, config.maxCompletedObjects);
      NothingEvictedYet(completedOrder, config.maxCompletedObjects);
      while |completed| >= config.maxCompletedObjects && completedOrder != []
        invariant SuffixAfterEviction(order0, completedOrder, config.maxCompletedObjects)
        invariant completed == Tombstoned(completed0, completedOrder)
        invariant Tombstones(completed.Keys, completedOrder, config.maxCompletedObjects)
        invariant key !in completed && objects.Keys !! completed.Keys
        invariant IndexExact(logicalKeys, objects.Keys + completed.Keys + {key})
        decreases |completedOrder|
      {
        EvictOldest(completed0, completed, order0, completedOrder, config.maxCompletedObjects);
        EvictCompleted(key);
      }
      InsertNewest(completed0, completed, order0, completedOrder, key, entry, config.maxCompletedObjects);
      KeysAfterPut(completed, key, entry);
      WithCompleted(objects.Keys, completed.Keys, key);
      completedOrder := completedOrder + [key];
      completed := completed[key := entry];
    }

    /** Drops the oldest tombstone together with its logical identity, while `key` is being inserted. */
    method EvictCompleted(ghost key: ObjectKey)
      requires completedOrder != [] && completedOrder[0] in completed
      requires key !in completed && objects.Keys !! completed.Keys
      requires IndexExact(logicalKeys, objects.Keys + completed.Keys + {key})
      modifies `completed, `completedOrder, `logicalKeys
      ensures completedOrder == old(completedOrder)[1..]
      ensures completed == old(completed) - {old(completedOrder)[0]}
      ensures completed.Keys == old(completed).Keys - {old(completedOrder)[0]}
      ensures key !in completed && objects.Keys !! completed.Keys
      ensures IndexExact(logicalKeys, objects.Keys + completed.Keys + {key})
    {
      hide IndexExact;
      var evicted := completedOrder[0];
      IndexAfterRemoval(logicalKeys, objects.Keys + completed.Keys + {key}, evicted);
      WithoutCompleted(objects.Keys, completed.Keys, key, evicted);
      KeysAfterDrop(completed, {evicted});
      completedOrder := completedOrder[1..];
      completed := completed - {evicted};
      logicalKeys := logicalKeys - {evicted.logical};
    }
  }

  datatype DispatchOutcome = Legacy | Relayed(outcome: IngressOutcome)

  /** The shared UDP socket: legacy framing is left alone, peers without a session are refused, and
      controlled sessions announce from their first symbol. */
  class RelayUdpDispatch {
    const receiver: RelayObjectReceiver
    var sessionsByPeer: map<nat, nat>
    var controlledSessions: set<nat>

    constructor (config: Config)
      requires config.Valid()
      ensures fresh(receiver) && receiver.Valid() && receiver.State() == Fresh(config)
      ensures sessionsByPeer == map[] && controlledSessions == {}
    {
      receiver := new RelayObjectReceiver(config);
      sessionsByPeer, controlledSessions := map[], {};
    }

    /** `privateUdp`: the session was authenticated on a private network underlay. */
    method BindAuthenticatedPeer(peer: nat, session: Session, privateUdp: bool) returns (r: Result<(), Error>)
      requires receiver.Valid()
      modifies this`sessionsByPeer, receiver
      ensures receiver.Valid()
      ensures r.Ok? ==> privateUdp && sessionsByPeer == old(sessionsByPeer)[peer := session.sessionId]
      ensures r.Ok? ==> (receiver.State(), r) == Register(old(receiver.State()), session)
      ensures r.Err? ==> sessionsByPeer == old(sessionsByPeer) && receiver.State() == old(receiver.State())
    {
      if !privateUdp {
        return Err(AuthenticationRequired);
      }
      r := Bind(peer, session);
    }

    method BindControlledPeer(peer: nat, session: Session) returns (r: Result<(), Error>)
      requires receiver.Valid()
      modifies this, receiver
      ensures receiver.Valid()
      ensures r.Ok? ==> sessionsByPeer == old(sessionsByPeer)[peer := session.sessionId]
      ensures r.Ok? ==> controlledSessions == old(controlledSessions) + {session.sessionId}
      ensures r.Ok? ==> (receiver.State(), r) == Register(old(receiver.State()), session)
      ensures r.Err? ==> sessionsByPeer == old(sessionsByPeer) && controlledSessions == old(controlledSessions)
      ensures r.Err? ==> receiver.State() == old(receiver.State())
    {
      hide Inv, IndexExact, Budgets;
      r := Bind(peer, session);
      if r.Ok? {
        controlledSessions := controlledSessions + {session.sessionId};
      }
    }

    method Bind(peer: nat, session: Session) returns (r: Result<(), Error>)
      requires receiver.Valid()
      modifies this`sessionsByPeer, receiver
      ensures receiver.Valid()
      ensures r.Ok? <==> (peer in old(sessionsByPeer) ==> old(sessionsByPeer)[peer] == session.sessionId)
                         && Register(old(receiver.State()), session).1.Ok?
      ensures r.Ok? ==> sessionsByPeer == old(sessionsByPeer)[peer := session.sessionId]
      ensures r.Ok? ==> (receiver.State(), r) == Register(old(receiver.State()), session)
      ensures r.Err? ==> sessionsByPeer == old(sessionsByPeer) && receiver.State() == old(receiver.State())
    {
      hide Inv, IndexExact, Budgets;
      if peer in sessionsByPeer && sessionsByPeer[peer] != session.sessionId {
        return Err(UdpPeerConflict);
      }
      r := receiver.RegisterParentSession(session);
      if r.Ok? {
        sessionsByPeer := sessionsByPeer[peer := session.sessionId];
      }
    }

    method Push(peer: nat, relayFraming: bool, wire: Wire, verdict: Verdict, ready: bool, now: nat)
      returns (r: Result<DispatchOutcome, Error>)
      requires receiver.Valid()
      requires wire.Decoded? && verdict.Completed? ==> verdict.object_.key == wire.symbol.key
      modifies receiver
      ensures receiver.Valid()
      ensures !relayFraming ==> r == Ok(Legacy) && receiver.State() == old(receiver.State())
      ensures relayFraming && peer !in sessionsByPeer ==>
                r == Err(AuthenticationRequired) && receiver.State() == PushUnbound(old(receiver.State()))
      ensures relayFraming && peer in sessionsByPeer ==>
                var id := sessionsByPeer[peer];
                var (s', outcome) :=
                  if id in controlledSessions then PushControlled(old(receiver.State()), id, wire, verdict, ready, now)
                  else PushDatagram(old(receiver.State()), id, wire, verdict, now);
                && receiver.State() == s'
                && r == (if outcome.Err? then Err(outcome.error) else Ok(Relayed(outcome.value)))
    {
      hide Inv, IndexExact, Budgets, EnsureControlled, PushDatagram, CountRejection;
      if !relayFraming {
        return Ok(Legacy);
      }
      if peer !in sessionsByPeer {
        RefuseDatagram(AuthenticationRequired);
        return Err(AuthenticationRequired);
      }
      var sessionId := sessionsByPeer[peer];
      if sessionId in controlledSessions {
        var announced := receiver.EnsureControlledAnnouncement(sessionId, wire, ready, now);
        if announced.Err? {
          RefuseDatagram(announced.error);
          return Err(announced.error);
        }
      }
      var pushed := receiver.PushWireDatagram(sessionId, wire, verdict, now);
      return if pushed.Err? then Err(pushed.error) else Ok(Relayed(pushed.value));
    }

    /** Counts a datagram that never reached the receiver. */
    method RefuseDatagram(error: Error)
      requires receiver.Valid()
      modifies receiver
      ensures receiver.Valid() && receiver.State() == Rejected(Received(old(receiver.State())), error, true)
    {
      hide Inv, IndexExact, Budgets, CountRejection;
      ghost var after := Rejected(Received(receiver.State()), error, true);
      CountersKeepInv(receiver.State(), after.counters);
      receiver.counters := receiver.counters.(received := receiver.counters.received + 1);
      receiver.RecordRejection(error, true);
    }
  }

  lemma TotalsAfterStart(objects: map<ObjectKey, ActiveObject>, sessionId: nat, a: Announcement, now: nat)
    requires a.key !in objects
    ensures
      var after := objects[a.key := NewObject(sessionId, a, now)];
      && after.Keys == objects.Keys + {a.key}
      && Total(after, ReservedBytes) == Total(objects, ReservedBytes) + a.coding.transferLength
      && Total(after, SymbolCount) == Total(objects, SymbolCount)
  {
    TotalInsert(objects, ReservedBytes, a.key, NewObject(sessionId, a, now));
    TotalInsert(objects, SymbolCount, a.key, NewObject(sessionId, a, now));
  }

  lemma TotalsAfterSymbol(
    objects: map<ObjectKey, ActiveObject>, bytes: nat, datagrams: nat, symbol: Symbol, sequence: nat, now: nat)
    requires symbol.key in objects && sequence !in objects[symbol.key].symbols && Budgets(objects, bytes, datagrams)
    ensures
      var after := objects[symbol.key := WithSymbol(objects[symbol.key], sequence, symbol, now)];
      after.Keys == objects.Keys && Budgets(after, bytes, datagrams + 1)
  {
    var o := WithSymbol(objects[symbol.key], sequence, symbol, now);
    TotalReplace(objects, ReservedBytes, symbol.key, o);
    TotalReplace(objects, SymbolCount, symbol.key, o);
  }

  lemma ReadyToFeed(s: Relay, key: ObjectKey)
    requires Inv(s)
    ensures s.objects.Keys !! s.completed.Keys && 0 < s.config.maxCompletedObjects
    ensures Tombstones(s.completed.Keys, s.completedOrder, s.config.maxCompletedObjects)
  {}

  lemma WithCompleted(active: set<ObjectKey>, completed: set<ObjectKey>, key: ObjectKey)
    ensures active + completed + {key} == active + (completed + {key})
  {}

  lemma WithoutCompleted(active: set<ObjectKey>, completed: set<ObjectKey>, key: ObjectKey, evicted: ObjectKey)
    requires active !! completed && evicted in completed && key !in completed
    ensures active + completed + {key} - {evicted} == active + (completed - {evicted}) + {key}
    ensures active !! completed - {evicted}
  {}

  /** At most the oldest key has left a queue that was full. */
  ghost predicate SuffixAfterEviction(order0: seq<ObjectKey>, order: seq<ObjectKey>, limit: nat) {
    || order == order0
    || (|order0| == limit && order0 != [] && order == order0[1..])
  }

  lemma AllTombstoned(completed: map<ObjectKey, CompletedObject>, order: seq<ObjectKey>, limit: nat)
    requires Tombstones(completed.Keys, order, limit)
    ensures Tombstoned(completed, order) == completed
  {}

  lemma NothingEvictedYet(order: seq<ObjectKey>, limit: nat)
    ensures SuffixAfterEviction(order, order, limit)
  {}

  lemma EvictOldest(
    completed0: map<ObjectKey, CompletedObject>, completed: map<ObjectKey, CompletedObject>, order0: seq<ObjectKey>,
    order: seq<ObjectKey>, limit: nat)
    requires Tombstones(completed.Keys, order, limit) && order != [] && completed == Tombstoned(completed0, order)
    requires SuffixAfterEviction(order0, order, limit) && |completed| >= limit
    ensures Tombstones(completed.Keys - {order[0]}, order[1..], limit) && order[0] in completed
    ensures completed - {order[0]} == Tombstoned(completed0, order[1..])
    ensures SuffixAfterEviction(order0, order[1..], limit)
  {
    DistinctCardinality(order, completed.Keys);
    assert |completed| == |completed.Keys|;
  }

  lemma InsertNewest(
    completed0: map<ObjectKey, CompletedObject>, completed: map<ObjectKey, CompletedObject>, order0: seq<ObjectKey>,
    order: seq<ObjectKey>, key: ObjectKey, entry: CompletedObject, limit: nat)
    requires Tombstones(completed.Keys, order, limit) && completed == Tombstoned(completed0, order)
    requires SuffixAfterEviction(order0, order, limit) && key !in completed && 0 < limit
    requires |completed| < limit || order == []
    ensures order + [key] == LastOf(order0 + [key], limit)
    ensures completed[key := entry] == Tombstoned(completed0[key := entry], order + [key])
  {
    DistinctCardinality(order, completed.Keys);
    assert |completed| == |completed.Keys|;
    NewestOrder(order0, order, key, limit);
    NewestEntry(completed0, order, key, entry);
  }

  lemma NewestOrder(order0: seq<ObjectKey>, order: seq<ObjectKey>, key: ObjectKey, limit: nat)
    requires SuffixAfterEviction(order0, order, limit) && 0 < limit && (|order| < limit || order == [])
    ensures order + [key] == LastOf(order0 + [key], limit)
  {}

  lemma NewestEntry(completed0: map<ObjectKey, CompletedObject>, order: seq<ObjectKey>, key: ObjectKey,
                    entry: CompletedObject)
    requires key !in order
    ensures Tombstoned(completed0, order)[key := entry] == Tombstoned(completed0[key := entry], order + [key])
  {
    assert forall k :: k in order + [key] <==> k in order || k == key;
  }

  lemma RestoreActive(active: set<ObjectKey>, completed: set<ObjectKey>, key: ObjectKey)
    requires active !! completed && key in active
    ensures (active - {key}) + completed + {key} == active + completed
  {}

  lemma HandleRefused(s: Relay, symbol: Symbol, error: Error, verdict: Verdict, now: nat)
    ensures HandleSymbol(s, symbol, Refuse(error), verdict, now) == (s, Err(error))
  {}

  lemma HandleRepeat(s: Relay, symbol: Symbol, verdict: Verdict, now: nat)
    ensures HandleSymbol(s, symbol, Repeat, verdict, now)
         == (s.(counters := CountRole(s.counters.(duplicate := s.counters.duplicate + 1), symbol.role)),
             Ok(DuplicateSymbol(symbol.key, symbol.role)))
  {}

  lemma HandleFeed(s: Relay, symbol: Symbol, sequence: nat, verdict: Verdict, now: nat)
    requires symbol.key in s.objects
    ensures HandleSymbol(s, symbol, Feed(sequence), verdict, now) == FedOutcome(s, symbol, sequence, verdict, now)
  {}

  lemma AddParentAdds(sessions: map<nat, Session>, parents: set<nat>, candidate: Session, maxParents: nat)
    requires AddParent(sessions, parents, candidate, maxParents).Ok?
    ensures AddParent(sessions, parents, candidate, maxParents).value == parents + {candidate.sessionId}
  {
    if candidate.sessionId in parents {
      assert parents + {candidate.sessionId} == parents;
    }
  }
}
