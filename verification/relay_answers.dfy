/** Every answer of the relay receiver with the condition it is given under, and what an accepted call changes;
    told by the fields of sessions, announcements and objects. */
module RelayAnswers {
  import opened Collections
  import opened Prelude
  import opened Totals
  import opened RelaySpec
  import opened RelayInvariants

  // ---------------------------------------------------------------- expiry

  /** An expiry scan removes exactly the objects past their deadline or inactive for the timeout. */
  lemma ExpireExactly(s: Relay, now: nat)
    ensures
      var s' := Expire(s, now);
      && (forall k :: k in s'.objects <==>
            && k in s.objects && now < s.objects[k].announcement.deadline
            && SatSub(now, s.objects[k].lastActivityUs) < s.config.objectInactivityTimeoutUs)
      && (forall k <- s'.objects :: s'.objects[k] == s.objects[k])
      && s'.completed == s.completed && s'.completedOrder == s.completedOrder
      && s'.counters.expired == s.counters.expired + |s.objects.Keys - s'.objects.Keys|
  {
    var gone := ExpiredKeys(s, now);
    assert s.objects.Keys - (s.objects - gone).Keys == gone;
  }

  /** A call scans first if no scan is scheduled or the scheduled one is due, and not otherwise. */
  lemma ExpiresWhenDue(s: Relay, now: nat)
    ensures s.nextExpiryScanUs.Some? && now < s.nextExpiryScanUs.value ==> ExpireIfDue(s, now) == s
    ensures s.nextExpiryScanUs.None? || now >= s.nextExpiryScanUs.value ==> ExpireIfDue(s, now) == Expire(s, now)
    ensures Expire(s, now).nextExpiryScanUs
         == Some(if now + s.config.expiryScanIntervalUs <= U64_MAX then now + s.config.expiryScanIntervalUs else U64_MAX)
  {}

  // ---------------------------------------------------------------- symbols

  /** The symbol carries the session's generation and subscription and a path its role may take. */
  predicate Entitled(s: Relay, session: Session, symbol: Symbol) {
    && symbol.generation == session.generation && symbol.subscriptionId == session.subscriptionId
    && (session.parentPath, symbol.pathIntent) in s.config.permits
  }

  /** Another key of the same logical object is known. */
  ghost predicate Clashes(s: Relay, key: ObjectKey) {
    exists k :: (k in s.objects || k in s.completed) && k.logical == key.logical && k.digest != key.digest
  }

  /** The object was completed with this parent and announced as the symbol says. */
  predicate FitsCompleted(s: Relay, id: nat, symbol: Symbol) {
    && symbol.key in s.completed
    && id in s.completed[symbol.key].parentSessions
    && var a := s.completed[symbol.key].announcement;
    && symbol.generation == a.generation && symbol.subscriptionId == a.subscriptionId
    && symbol.kind == a.kind && symbol.deadline == a.deadline && symbol.coding == a.coding
  }

  /** The object is being assembled and this session announced it. */
  predicate FromParent(s: Relay, id: nat, symbol: Symbol) {
    symbol.key in s.objects && id in s.objects[symbol.key].parentSessions
  }

  predicate Holds(s: Relay, symbol: Symbol) {
    && symbol.key in s.objects && symbol.packetSequence.Some?
    && symbol.packetSequence.value in s.objects[symbol.key].symbols
  }

  predicate HoldsTheSame(s: Relay, symbol: Symbol) {
    && Holds(s, symbol)
    && s.objects[symbol.key].symbols[symbol.packetSequence.value].datagramHash == symbol.datagramHash
    && s.objects[symbol.key].symbols[symbol.packetSequence.value].role == symbol.role
  }

  predicate ObjectHasRoom(s: Relay, symbol: Symbol) {
    symbol.key in s.objects && |s.objects[symbol.key].symbols| < s.config.maxDatagramsPerObject
  }

  ghost predicate BufferHasRoom(s: Relay) {
    Total(s.objects, SymbolCount) < s.config.maxBufferedDatagrams
  }

  /** The checks before the object itself is looked at all pass, and the object is not completed. */
  ghost predicate Reaches(s: Relay, session: Session, symbol: Symbol, now: nat) {
    && Entitled(s, session, symbol) && !Clashes(s, symbol.key)
    && symbol.key !in s.completed && now < symbol.deadline
  }

  /** A new symbol from an announced parent, with room for it. */
  ghost predicate Feeds(s: Relay, session: Session, id: nat, symbol: Symbol, now: nat) {
    && Reaches(s, session, symbol, now) && FromParent(s, id, symbol)
    && symbol.packetSequence.Some? && !Holds(s, symbol)
    && ObjectHasRoom(s, symbol) && BufferHasRoom(s)
  }

  lemma ClashIsConflict(s: Relay, key: ObjectKey)
    ensures Clashes(s, key) <==> IdentityConflict(s, key)
  {
    if Clashes(s, key) {
      var k :| (k in s.objects || k in s.completed) && k.logical == key.logical && k.digest != key.digest;
      assert Known(s, k);
    }
  }

  /** Which kinds an object may have been announced as. */
  lemma CompatibleKinds(o: MediaObject, announced: AnnouncedKind)
    ensures KindCompatible(o, announced)
       <==> || (o.kind == Initialization && announced == InitializationKind)
            || (o.kind == CodecConfiguration && announced == CodecConfigKind)
            || (o.kind == Discontinuity && announced == DataKind)
            || (o.kind == Media && announced == VideoKeyframeKind)
            || (o.kind == Media && !o.keyframe && announced in {AudioKind, VideoDeltaKind, DataKind})
  {}

  lemma AdmissionExactly(s: Relay, id: nat, symbol: Symbol, now: nat)
    requires id in s.sessions && s.sessions[id].sessionId == id
    ensures
      var (a, session) := (Admit(s, id, symbol, now), s.sessions[id]);
      && (a.Feed? <==> Feeds(s, session, id, symbol, now))
      && (a.Feed? ==> a.sequence == symbol.packetSequence.value)
      && (a.Late? <==> Entitled(s, session, symbol) && !Clashes(s, symbol.key) && symbol.key !in s.completed
                       && symbol.deadline <= now)
      && (a.Repeat? <==>
            || (Entitled(s, session, symbol) && !Clashes(s, symbol.key) && FitsCompleted(s, id, symbol))
            || (Reaches(s, session, symbol, now) && FromParent(s, id, symbol) && HoldsTheSame(s, symbol)))
      && (a == Refuse(UnauthorizedParent) <==>
            || !Entitled(s, session, symbol)
            || (!Clashes(s, symbol.key) && symbol.key in s.completed && !FitsCompleted(s, id, symbol))
            || (Reaches(s, session, symbol, now) && symbol.key in s.objects && !FromParent(s, id, symbol)))
      && (a == Refuse(ObjectIdentityConflict) <==> Entitled(s, session, symbol) && Clashes(s, symbol.key))
      && (a == Refuse(AnnouncementRequired) <==> Reaches(s, session, symbol, now) && symbol.key !in s.objects)
      && (a == Refuse(RelaySessionError) <==>
            Reaches(s, session, symbol, now) && FromParent(s, id, symbol) && symbol.packetSequence.None?)
      && (a == Refuse(SymbolReplayConflict) <==>
            && Reaches(s, session, symbol, now) && FromParent(s, id, symbol)
            && Holds(s, symbol) && !HoldsTheSame(s, symbol))
      && (a == Refuse(DatagramLimitExceeded) <==>
            && Reaches(s, session, symbol, now) && FromParent(s, id, symbol) && symbol.packetSequence.Some?
            && !Holds(s, symbol) && !ObjectHasRoom(s, symbol))
      && (a == Refuse(BufferedDatagramLimitExceeded) <==>
            && Reaches(s, session, symbol, now) && FromParent(s, id, symbol) && symbol.packetSequence.Some?
            && !Holds(s, symbol) && ObjectHasRoom(s, symbol) && !BufferHasRoom(s))
      && (a.Refuse? ==> a.error != RelaySessionConflict)
  {
    ClashIsConflict(s, symbol.key);
    hide Clashes, IdentityConflict, Total;
  }

  /** Every answer to a decoded symbol of a registered session, overdue objects being gone. */
  lemma PushSymbolAnswers(s: Relay, id: nat, symbol: Symbol, verdict: Verdict, now: nat)
    requires id in s.sessions && s.sessions[id].sessionId == id
    ensures
      var (r, session) := (PushSymbol(s, id, symbol, verdict, now).1, s.sessions[id]);
      var feeds := Feeds(s, session, id, symbol, now);
      var compatible := symbol.key in s.objects && verdict.Completed?
                        && KindCompatible(verdict.object_, s.objects[symbol.key].announcement.kind);
      && (r == Ok(BufferedSymbol(symbol.key, symbol.role)) <==> feeds && verdict.Incomplete?)
      && (r.Ok? && r.value.DecodedObject? <==> feeds && verdict.Completed? && compatible)
      && (feeds && verdict.Completed? && compatible ==>
            r == Ok(DecodedObject(verdict.object_, symbol.role, |s.objects[symbol.key].parentSessions|,
                                  |s.objects[symbol.key].symbols| + 1)))
      && (r == Ok(DuplicateSymbol(symbol.key, symbol.role)) <==>
            || (Entitled(s, session, symbol) && !Clashes(s, symbol.key) && FitsCompleted(s, id, symbol))
            || (Reaches(s, session, symbol, now) && FromParent(s, id, symbol) && HoldsTheSame(s, symbol)))
      && (r == Err(SymbolReplayConflict) <==>
            && Reaches(s, session, symbol, now) && FromParent(s, id, symbol)
            && Holds(s, symbol) && !HoldsTheSame(s, symbol))
      && (r == Err(UnauthorizedParent) <==>
            || !Entitled(s, session, symbol)
            || (!Clashes(s, symbol.key) && symbol.key in s.completed && !FitsCompleted(s, id, symbol))
            || (Reaches(s, session, symbol, now) && symbol.key in s.objects && !FromParent(s, id, symbol)))
      && (r == Err(AnnouncementRequired) <==> Reaches(s, session, symbol, now) && symbol.key !in s.objects)
      && (r == Err(DeadlineExpired) <==>
            && Entitled(s, session, symbol) && !Clashes(s, symbol.key) && symbol.key !in s.completed
            && symbol.deadline <= now)
      && (r == Err(ObjectIdentityConflict) <==>
            || (Entitled(s, session, symbol) && Clashes(s, symbol.key))
            || (feeds && verdict.Completed? && !compatible))
      && (r == Err(RelaySessionConflict) <==> feeds && verdict == Refused(true))
  {
    AdmissionExactly(s, id, symbol, now);
    hide Admit, Feeds, Reaches, Entitled, Clashes, FitsCompleted, FromParent, Holds, HoldsTheSame, KindCompatible;
    var a := Admit(s, id, symbol, now);
    if a.Feed? {
      AdmittedSymbol(s, id, symbol, now);
      FedAnswer(s, symbol, a.sequence, verdict, now);
    }
    hide FedOutcome;
  }

  lemma FedAnswer(s: Relay, symbol: Symbol, sequence: nat, verdict: Verdict, now: nat)
    requires symbol.key in s.objects && sequence !in s.objects[symbol.key].symbols
    ensures FedOutcome(s, symbol, sequence, verdict, now).1
         == match verdict
            case Refused(conflict) => Err(if conflict then RelaySessionConflict else RelaySessionError)
            case Incomplete => Ok(BufferedSymbol(symbol.key, symbol.role))
            case Completed(o) =>
              if KindCompatible(o, s.objects[symbol.key].announcement.kind)
              then Ok(DecodedObject(o, symbol.role, |s.objects[symbol.key].parentSessions|,
                                    |s.objects[symbol.key].symbols| + 1))
              else Err(ObjectIdentityConflict)
  {
    hide KindCompatible, CompletedState, CountRole;
  }

  // ---------------------------------------------------------------- what a symbol changes

  /** The object after one more symbol. */
  predicate OneMoreSymbol(before: ActiveObject, symbol: Symbol, sequence: nat, now: nat, after: ActiveObject) {
    && after.announcement == before.announcement && after.parentSessions == before.parentSessions
    && after.reservedBytes == before.reservedBytes
    && after.symbols == before.symbols[sequence := Fingerprint(symbol.datagramHash, symbol.role)]
    && after.sourceSymbols == before.sourceSymbols + (if symbol.role == SourceSymbol then 1 else 0)
    && after.repairSymbols == before.repairSymbols + (if symbol.role == RepairSymbol then 1 else 0)
    && after.lastActivityUs == now
  }

  /** A buffered symbol is added to its object, and nothing else moves. */
  lemma BufferedExactly(s: Relay, id: nat, symbol: Symbol, verdict: Verdict, now: nat)
    requires id in s.sessions && PushSymbol(s, id, symbol, verdict, now).1 == Ok(BufferedSymbol(symbol.key, symbol.role))
    ensures symbol.key in s.objects && symbol.packetSequence.Some?
    ensures
      var s' := PushSymbol(s, id, symbol, verdict, now).0;
      && symbol.key in s'.objects && s'.objects == s.objects[symbol.key := s'.objects[symbol.key]]
      && OneMoreSymbol(s.objects[symbol.key], symbol, symbol.packetSequence.value, now, s'.objects[symbol.key])
      && s'.completed == s.completed && s'.completedOrder == s.completedOrder
  {
    SequenceIsTheSymbols(s, id, symbol, now);
    hide Admit, CountRole, KindMismatch;
  }

  lemma SequenceIsTheSymbols(s: Relay, id: nat, symbol: Symbol, now: nat)
    requires id in s.sessions
    ensures Admit(s, id, symbol, now).Feed? ==>
              symbol.key in s.objects && symbol.packetSequence == Some(Admit(s, id, symbol, now).sequence)
  {
    hide IdentityConflict, Authorized, MatchesCompleted;
  }

  /** A decoded object leaves the active ones for the completed ones, with its announcement and parents, and the
      counters say how much repair it took. */
  lemma DecodedExactly(s: Relay, id: nat, symbol: Symbol, verdict: Verdict, now: nat)
    requires id in s.sessions && PushSymbol(s, id, symbol, verdict, now).1.Ok?
    requires PushSymbol(s, id, symbol, verdict, now).1.value.DecodedObject? && s.config.maxCompletedObjects > 0
    ensures symbol.key in s.objects && symbol.packetSequence.Some?
    ensures
      var (s', o) := (PushSymbol(s, id, symbol, verdict, now).0, s.objects[symbol.key]);
      var sources := o.sourceSymbols + (if symbol.role == SourceSymbol then 1 else 0);
      var repaired := o.repairSymbols > 0 || symbol.role == RepairSymbol;
      var missing := SatSub(o.announcement.coding.sourceSymbols, sources);
      && s'.objects == s.objects - {symbol.key} && symbol.key in s'.completed
      && s'.completed[symbol.key] == CompletedObject(o.announcement, o.parentSessions)
      && (forall k <- s'.completed :: k != symbol.key ==> k in s.completed && s'.completed[k] == s.completed[k])
      && s'.counters.decoded == s.counters.decoded + 1
      && s'.counters.repairAssisted == s.counters.repairAssisted + (if repaired then 1 else 0)
      && s'.counters.fecRecovered == s.counters.fecRecovered + (if missing > 0 then 1 else 0)
      && s'.counters.fecRecoveredSymbols == s.counters.fecRecoveredSymbols + missing
  {
    SequenceIsTheSymbols(s, id, symbol, now);
    hide Admit, KindMismatch;
    var q := symbol.packetSequence.value;
    CompletionExactly(FedState(s, q, symbol, now), symbol.key);
    assert FedState(s, q, symbol, now).objects - {symbol.key} == s.objects - {symbol.key};
  }

  lemma CompletionExactly(s: Relay, key: ObjectKey)
    requires key in s.objects && s.config.maxCompletedObjects > 0
    ensures
      var (s', o) := (CompletedState(s, key), s.objects[key]);
      && s'.objects == s.objects - {key} && key in s'.completed
      && s'.completed[key] == CompletedObject(o.announcement, o.parentSessions)
      && (forall k <- s'.completed :: k != key ==> k in s.completed && s'.completed[k] == s.completed[k])
      && s'.counters == CompletionCounts(s.counters, o)
  {
    var order := LastOf(s.completedOrder + [key], s.config.maxCompletedObjects);
    assert order[|order| - 1] == key;
    hide CompletionCounts, LastOf;
  }

  /** A symbol that is refused or repeated touches no object, except that a late one lets overdue objects go. */
  lemma OthersTouchNothing(s: Relay, id: nat, symbol: Symbol, verdict: Verdict, now: nat)
    requires id in s.sessions
    ensures
      var (s', r) := PushSymbol(s, id, symbol, verdict, now);
      && ((r.Ok? && r.value.DuplicateSymbol?) || (r.Err? && r.error !in {DeadlineExpired, ObjectIdentityConflict}) ==>
            s' == s.(counters := s'.counters))
      && (r == Err(DeadlineExpired) ==> s' == Expire(s, now))
  {
    RefusalErrors(s, id, symbol, now);
    hide Admit, KindMismatch, Expire, CompletedState;
  }

  lemma RefusalErrors(s: Relay, id: nat, symbol: Symbol, now: nat)
    requires id in s.sessions
    ensures Admit(s, id, symbol, now).Refuse? ==> Admit(s, id, symbol, now).error != DeadlineExpired
  {
    hide IdentityConflict, Authorized, MatchesCompleted;
  }

  /** A parent that announced the object is heard: a new symbol of it, with room left, is kept, and if the assembler
      says so completes the object. */
  lemma AnnouncedParentIsHeard(s: Relay, id: nat, symbol: Symbol, sequence: nat, verdict: Verdict, now: nat)
    requires Inv(s) && id in s.sessions && symbol.key in s.objects && symbol.packetSequence == Some(sequence)
    requires
      var (session, o) := (s.sessions[id], s.objects[symbol.key]);
      && symbol.generation == session.generation && symbol.subscriptionId == session.subscriptionId
      && (session.parentPath, symbol.pathIntent) in s.config.permits
      && now < symbol.deadline && now < o.announcement.deadline
      && SatSub(now, o.lastActivityUs) < s.config.objectInactivityTimeoutUs
      && id in o.parentSessions && sequence !in o.symbols
      && |o.symbols| < s.config.maxDatagramsPerObject
      && Total(s.objects, SymbolCount) < s.config.maxBufferedDatagrams
    ensures
      var (s', r) := PushDatagram(s, id, Decoded(symbol), verdict, now);
      var o := s.objects[symbol.key];
      && (verdict.Incomplete? ==>
            && r == Ok(BufferedSymbol(symbol.key, symbol.role)) && symbol.key in s'.objects
            && OneMoreSymbol(o, symbol, sequence, now, s'.objects[symbol.key]))
      && (verdict.Completed? && KindCompatible(verdict.object_, o.announcement.kind) ==>
            && r == Ok(DecodedObject(verdict.object_, symbol.role, |o.parentSessions|, |o.symbols| + 1))
            && symbol.key !in s'.objects && symbol.key in s'.completed
            && s'.completed[symbol.key] == CompletedObject(o.announcement, o.parentSessions))
  {
    hide Inv, ExpireIfDue, PushSymbol, PushDatagram, KindCompatible, Feeds, Total, OneMoreSymbol;
    var swept := ExpireIfDue(Received(s), now);
    FeedsAfterExpiry(s, id, symbol, sequence, now);
    PushAfterExpiry(s, id, symbol, verdict, now);
    if verdict.Incomplete? {
      FedIsBuffered(swept, id, symbol, verdict, now);
    } else if verdict.Completed? && KindCompatible(verdict.object_, s.objects[symbol.key].announcement.kind) {
      FedIsDecoded(swept, id, symbol, verdict, now);
    }
  }

  lemma FeedsAfterExpiry(s: Relay, id: nat, symbol: Symbol, sequence: nat, now: nat)
    requires Inv(s) && id in s.sessions && symbol.key in s.objects && symbol.packetSequence == Some(sequence)
    requires
      var (session, o) := (s.sessions[id], s.objects[symbol.key]);
      && symbol.generation == session.generation && symbol.subscriptionId == session.subscriptionId
      && (session.parentPath, symbol.pathIntent) in s.config.permits
      && now < symbol.deadline && now < o.announcement.deadline
      && SatSub(now, o.lastActivityUs) < s.config.objectInactivityTimeoutUs
      && id in o.parentSessions && sequence !in o.symbols
      && |o.symbols| < s.config.maxDatagramsPerObject
      && Total(s.objects, SymbolCount) < s.config.maxBufferedDatagrams
    ensures
      var swept := ExpireIfDue(Received(s), now);
      && SameSetup(s, swept) && s.sessions[id].sessionId == id && s.config.maxCompletedObjects > 0
      && symbol.key in swept.objects && swept.objects[symbol.key] == s.objects[symbol.key]
      && Feeds(swept, s.sessions[id], id, symbol, now)
  {
    InvFields(s, id, symbol.key);
    hide Inv, ExpireIfDue, Clashes, Total, Identities;
    KeptByExpiry(s, symbol.key, now);
    KeyIsAlone(s, ExpireIfDue(Received(s), now), symbol.key);
  }

  lemma FedIsBuffered(s: Relay, id: nat, symbol: Symbol, verdict: Verdict, now: nat)
    requires id in s.sessions && s.sessions[id].sessionId == id && Feeds(s, s.sessions[id], id, symbol, now)
    requires verdict.Incomplete?
    ensures symbol.key in s.objects && symbol.packetSequence.Some?
    ensures
      var (s', r) := PushSymbol(s, id, symbol, verdict, now);
      && r == Ok(BufferedSymbol(symbol.key, symbol.role)) && symbol.key in s'.objects
      && OneMoreSymbol(s.objects[symbol.key], symbol, symbol.packetSequence.value, now, s'.objects[symbol.key])
  {
    hide Feeds, OneMoreSymbol, PushSymbol;
    PushSymbolAnswers(s, id, symbol, verdict, now);
    BufferedExactly(s, id, symbol, verdict, now);
  }

  lemma FedIsDecoded(s: Relay, id: nat, symbol: Symbol, verdict: Verdict, now: nat)
    requires id in s.sessions && s.sessions[id].sessionId == id && Feeds(s, s.sessions[id], id, symbol, now)
    requires s.config.maxCompletedObjects > 0 && symbol.key in s.objects
    requires verdict.Completed? && KindCompatible(verdict.object_, s.objects[symbol.key].announcement.kind)
    ensures
      var ((s', r), o) := (PushSymbol(s, id, symbol, verdict, now), s.objects[symbol.key]);
      && r == Ok(DecodedObject(verdict.object_, symbol.role, |o.parentSessions|, |o.symbols| + 1))
      && symbol.key !in s'.objects && symbol.key in s'.completed
      && s'.completed[symbol.key] == CompletedObject(o.announcement, o.parentSessions)
  {
    hide Feeds, KindCompatible, PushSymbol;
    PushSymbolAnswers(s, id, symbol, verdict, now);
    DecodedExactly(s, id, symbol, verdict, now);
  }

  lemma InvFields(s: Relay, id: nat, key: ObjectKey)
    requires Inv(s) && id in s.sessions && key in s.objects
    ensures s.sessions[id].sessionId == id && s.config.maxCompletedObjects > 0
    ensures Identities(s.objects.Keys, s.completed.Keys)
  {}

  lemma PushAfterExpiry(s: Relay, id: nat, symbol: Symbol, verdict: Verdict, now: nat)
    requires id in s.sessions
    ensures
      var (s', r) := PushDatagram(s, id, Decoded(symbol), verdict, now);
      var pushed := PushSymbol(ExpireIfDue(Received(s), now), id, symbol, verdict, now);
      r == pushed.1 && s'.objects == pushed.0.objects && s'.completed == pushed.0.completed
  {
    hide PushSymbol, ExpireIfDue;
  }

  lemma KeptByExpiry(s: Relay, key: ObjectKey, now: nat)
    requires key in s.objects && now < s.objects[key].announcement.deadline
    requires SatSub(now, s.objects[key].lastActivityUs) < s.config.objectInactivityTimeoutUs
    ensures
      var swept := ExpireIfDue(Received(s), now);
      && SameSetup(s, swept) && key in swept.objects && swept.objects[key] == s.objects[key]
      && swept.objects.Keys <= s.objects.Keys && swept.completed == s.completed
      && Total(swept.objects, SymbolCount) <= Total(s.objects, SymbolCount)
  {
    var gone := ExpiredKeys(Received(s), now);
    TotalRemoveSome(s.objects, SymbolCount, gone);
    hide Total;
  }

  lemma KeyIsAlone(s: Relay, swept: Relay, key: ObjectKey)
    requires Identities(s.objects.Keys, s.completed.Keys)
    requires key in s.objects && swept.objects.Keys <= s.objects.Keys && swept.completed == s.completed
    ensures key !in swept.completed && !Clashes(swept, key)
  {
    forall k | (k in swept.objects || k in swept.completed) && k.logical == key.logical
      ensures k.digest == key.digest
    {
      assert k in s.objects.Keys + s.completed.Keys && key in s.objects.Keys + s.completed.Keys;
    }
  }

  // ---------------------------------------------------------------- sessions and counters

  /** A session is registered once: repeating it changes nothing, changing it is refused, and so is one too many. */
  lemma RegisterExactly(s: Relay, session: Session)
    ensures
      var ((s', r), known) := (Register(s, session), session.sessionId in s.sessions);
      && (r == Ok(()) <==> if known then s.sessions[session.sessionId] == session
                           else |s.sessions| < s.config.maxParentSessions)
      && (r == Err(ParentSessionConflict) <==> known && s.sessions[session.sessionId] != session)
      && (r == Err(LimitExceeded) <==> !known && |s.sessions| >= s.config.maxParentSessions)
      && s' == (if r.Ok? then s.(sessions := s.sessions[session.sessionId := session]) else s)
  {
    if session.sessionId in s.sessions && s.sessions[session.sessionId] == session {
      assert s.sessions[session.sessionId := session] == s.sessions;
    }
  }

  /** Which counters a refusal moves. */
  lemma RejectionCounts(c: Counters, error: Error, datagram: bool)
    ensures
      var c' := CountRejection(c, error, datagram);
      && c'.rejected == c.rejected + (if datagram then 1 else 0)
      && c'.authenticationDrops == c.authenticationDrops
         + (if error in {AuthenticationRequired, ParentSessionMissing, UnauthorizedParent} then 1 else 0)
      && c'.deadlineDrops == c.deadlineDrops + (if error == DeadlineExpired then 1 else 0)
      && c'.conflictDrops == c.conflictDrops
         + (if error in {AnnouncementConflict, ObjectIdentityConflict, SymbolReplayConflict, RelaySessionConflict}
            then 1 else 0)
      && c' == c.(rejected := c'.rejected, authenticationDrops := c'.authenticationDrops,
                  deadlineDrops := c'.deadlineDrops, conflictDrops := c'.conflictDrops)
  {}

  // ---------------------------------------------------------------- announcements

  /** The session may serve the object beside its parents: there is room for another one, and it has neither the role
      of any of them nor, unless both are controlled qualification sessions, its peer. */
  predicate MayJoin(s: Relay, parents: set<nat>, session: Session) {
    || session.sessionId in parents
    || (&& |parents| < s.config.maxParentsPerObject
        && forall p <- parents :: p in s.sessions ==>
             && s.sessions[p].parentPath != session.parentPath
             && (s.sessions[p].peer != session.peer
                 || (s.sessions[p].controlledQualification && session.controlledQualification)))
  }

  lemma JoinExactly(s: Relay, parents: set<nat>, session: Session)
    ensures AddParent(s.sessions, parents, session, s.config.maxParentsPerObject).Ok? <==> MayJoin(s, parents, session)
  {}

  /** The session is registered and the announcement is its own, well formed and clashes with no known object. */
  ghost predicate MayAnnounce(s: Relay, id: nat, a: Announcement) {
    && id in s.sessions
    && a.generation == s.sessions[id].generation && a.subscriptionId == s.sessions[id].subscriptionId
    && a.coding.wellFormed && a.initialRepairSymbols <= s.config.maxExtraRepairSymbols
    && !Clashes(s, a.key)
  }

  /** When an announcement starts an object, joins one, or is late for one. */
  lemma AnnouncementExactly(s: Relay, id: nat, a: Announcement, ready: bool, now: nat)
    ensures
      var r := AnnounceOutcome(s, id, a, ready, now);
      && (r == Ok(Started) <==>
            && MayAnnounce(s, id, a) && a.key !in s.completed && now < a.deadline && a.key !in s.objects
            && |s.objects| < s.config.maxActiveObjects
            && Total(s.objects, ReservedBytes) + a.coding.transferLength <= s.config.maxBufferedObjectBytes
            && ready)
      && (r == Ok(Joined) <==>
            && MayAnnounce(s, id, a) && a.key !in s.completed && now < a.deadline && a.key in s.objects
            && s.objects[a.key].announcement == a && MayJoin(s, s.objects[a.key].parentSessions, s.sessions[id]))
      && (r == Ok(AlreadyComplete) <==>
            && MayAnnounce(s, id, a) && a.key in s.completed
            && s.completed[a.key].announcement == a && MayJoin(s, s.completed[a.key].parentSessions, s.sessions[id]))
  {
    ClashIsConflict(s, a.key);
    if id in s.sessions {
      if a.key in s.completed {
        JoinExactly(s, s.completed[a.key].parentSessions, s.sessions[id]);
      }
      if a.key in s.objects {
        JoinExactly(s, s.objects[a.key].parentSessions, s.sessions[id]);
      }
    }
    hide Clashes, IdentityConflict, Total, AddParent, MayJoin;
  }

  /** Why an announcement is refused. */
  lemma AnnouncementRefusals(s: Relay, id: nat, a: Announcement, ready: bool, now: nat)
    ensures
      var r := AnnounceOutcome(s, id, a, ready, now);
      && (r == Err(ParentSessionMissing) <==> id !in s.sessions)
      && (r == Err(UnauthorizedParent) <==>
            && id in s.sessions
            && !(a.generation == s.sessions[id].generation && a.subscriptionId == s.sessions[id].subscriptionId))
      && (r == Err(ObjectIdentityConflict) <==>
            && id in s.sessions
            && a.generation == s.sessions[id].generation && a.subscriptionId == s.sessions[id].subscriptionId
            && a.coding.wellFormed && a.initialRepairSymbols <= s.config.maxExtraRepairSymbols
            && Clashes(s, a.key))
      && (r == Err(DeadlineExpired) <==> MayAnnounce(s, id, a) && a.key !in s.completed && a.deadline <= now)
      && (r == Err(AnnouncementConflict) <==>
            && MayAnnounce(s, id, a)
            && if a.key in s.completed then s.completed[a.key].announcement != a
               else now < a.deadline && a.key in s.objects && s.objects[a.key].announcement != a)
      && (r == Err(ParentLimitExceeded) ==>
            MayAnnounce(s, id, a) && (a.key in s.completed || a.key in s.objects))
  {
    ClashIsConflict(s, a.key);
    ParentErrors(s, a.key, id);
    hide Clashes, IdentityConflict, Total, AddParent;
  }

  lemma ParentErrors(s: Relay, key: ObjectKey, id: nat)
    ensures forall parents: set<nat>, candidate: Session ::
              var r := AddParent(s.sessions, parents, candidate, s.config.maxParentsPerObject);
              r.Err? ==> r.error in {ParentLimitExceeded, ParentSessionConflict, ParentRoleConflict}
  {}

  /** What an accepted announcement leaves: a new object with this one parent and nothing received, or one more parent
      of the object it names. */
  lemma AnnouncedExactly(s: Relay, id: nat, a: Announcement, ready: bool, now: nat)
    ensures
      var (s', r) := (Announced(s, id, a, ready, now), AnnounceOutcome(s, id, a, ready, now));
      && (r.Err? ==> s' == s)
      && (r == Ok(Started) ==>
            && s'.completed == s.completed && a.key in s'.objects
            && s'.objects == s.objects[a.key := ActiveObject(a, {id}, map[], 0, 0, a.coding.transferLength, now)])
      && (r == Ok(Joined) ==>
            && s'.completed == s.completed && a.key in s.objects
            && s'.objects == s.objects[a.key := s.objects[a.key].(
                 parentSessions := s.objects[a.key].parentSessions + {id}, lastActivityUs := now)])
      && (r == Ok(AlreadyComplete) ==>
            && s'.objects == s.objects && a.key in s.completed
            && s'.completed == s.completed[a.key := s.completed[a.key].(
                 parentSessions := s.completed[a.key].parentSessions + {id})])
  {
    AcceptedAnnouncement(s, id, a, ready, now);
    hide AnnounceOutcome, IdentityConflict, AddParent;
  }

  // ---------------------------------------------------------------- before and beside a symbol

  /** A datagram of an unknown session, or one that does not decode, is refused before anything else happens. */
  lemma UnreadableTouchesNothing(s: Relay, id: nat, wire: Wire, verdict: Verdict, now: nat)
    requires id !in s.sessions || wire.Undecodable?
    ensures
      var (s', r) := PushDatagram(s, id, wire, verdict, now);
      && r == Err(if id !in s.sessions then ParentSessionMissing else RelaySessionError)
      && s' == s.(counters := s'.counters)
  {
    hide CountRejection;
  }

  /** When a controlled session's symbol announces its object, and as what; otherwise why it is refused. */
  lemma ControlledExactly(s: Relay, id: nat, wire: Wire, ready: bool, now: nat)
    ensures
      var (s', r) := EnsureControlled(s, id, wire, ready, now);
      && (r == Err(ParentSessionMissing) <==> id !in s.sessions)
      && (id in s.sessions && !s.sessions[id].controlledQualification ==> r == Err(AnnouncementRequired) && s' == s)
      && (id in s.sessions && s.sessions[id].controlledQualification && wire.Undecodable? ==>
            r == Err(RelaySessionError) && s' == s)
      && (id in s.sessions && s.sessions[id].controlledQualification && wire.Decoded? ==>
            var symbol := wire.symbol;
            var a := Announcement(symbol.generation, symbol.subscriptionId, symbol.key, symbol.kind, symbol.deadline,
                                  symbol.coding, 0, 0);
            var swept := ExpireIfDue(s, now);
            if Entitled(s, s.sessions[id], symbol) then
              && s' == Announced(swept, id, a, ready, now)
              && (r.Ok? <==> AnnounceOutcome(swept, id, a, ready, now).Ok?)
            else r == Err(UnauthorizedParent) && s' == s)
  {
    if id in s.sessions {
      RegisteredIsNotMissing(ExpireIfDue(s, now), id, wire, ready, now);
    }
    hide AnnounceOutcome, Announced, ExpireIfDue;
  }

  lemma RegisteredIsNotMissing(s: Relay, id: nat, wire: Wire, ready: bool, now: nat)
    requires id in s.sessions
    ensures wire.Decoded? ==>
              AnnounceOutcome(s, id, DerivedAnnouncement(wire.symbol), ready, now) != Err(ParentSessionMissing)
  {
    if wire.Decoded? {
      AnnouncementRefusals(s, id, DerivedAnnouncement(wire.symbol), ready, now);
    }
    hide AnnounceOutcome;
  }
}
