/** The relay object receiver as a mathematical state machine: which objects are being assembled, which
    have completed, and what each call does to them.  Budgets are sums over the active objects and
    identity conflicts are facts about the keys; the receiver's running totals and its logical-identity
    index are caches of these, proved exact in module RelayReceiver. */
module RelaySpec {
  import opened Collections
  import opened Prelude
  import opened Totals

  const HARD_MAX_PARENT_SESSIONS: nat := 65_536
  const HARD_MAX_ACTIVE_OBJECTS: nat := 65_536
  const HARD_MAX_PARENTS_PER_OBJECT: nat := 2
  const HARD_MAX_DATAGRAMS_PER_OBJECT: nat := 65_536
  const HARD_MAX_BUFFERED_DATAGRAMS: nat := 262_144
  const HARD_MAX_BUFFERED_OBJECT_BYTES: nat := 512 * 1024 * 1024
  const HARD_MAX_COMPLETED_OBJECTS: nat := 65_536

  datatype ParentPath = Primary | Secondary | PromotedSecondary

  datatype Config = Config(
    maxExtraRepairSymbols: nat,
    permits: set<(ParentPath, nat)>, // which path intents a parent role may carry
    maxParentSessions: nat,
    maxActiveObjects: nat,
    maxParentsPerObject: nat,
    maxDatagramsPerObject: nat,
    maxBufferedDatagrams: nat,
    maxBufferedObjectBytes: nat,
    maxCompletedObjects: nat,
    objectInactivityTimeoutUs: nat,
    expiryScanIntervalUs: nat)
  {
    predicate Valid() {
      && 0 < maxParentSessions <= HARD_MAX_PARENT_SESSIONS
      && 0 < maxActiveObjects <= HARD_MAX_ACTIVE_OBJECTS
      && 0 < maxParentsPerObject <= HARD_MAX_PARENTS_PER_OBJECT
      && 0 < maxDatagramsPerObject <= HARD_MAX_DATAGRAMS_PER_OBJECT
      && 0 < maxBufferedDatagrams <= HARD_MAX_BUFFERED_DATAGRAMS
      && 0 < maxBufferedObjectBytes <= HARD_MAX_BUFFERED_OBJECT_BYTES
      && 0 < maxCompletedObjects <= HARD_MAX_COMPLETED_OBJECTS
      && 0 < objectInactivityTimeoutUs
      && 0 < expiryScanIntervalUs
    }
  }

  datatype Logical = Logical(
    tenant: string, stream: string, track: string, epoch: nat, group: nat, object_: nat, version: nat)

  /** A canonical object key: the logical identity plus the payload digest. */
  datatype ObjectKey = ObjectKey(logical: Logical, digest: nat)

  datatype Session = Session(
    sessionId: nat, peer: string, generation: nat, subscriptionId: nat, parentPath: ParentPath,
    controlledQualification: bool)

  datatype AnnouncedKind = InitializationKind | CodecConfigKind | DataKind | AudioKind | VideoDeltaKind | VideoKeyframeKind

  datatype ObjectKind = Initialization | CodecConfiguration | Discontinuity | Media

  datatype MediaObject = MediaObject(key: ObjectKey, kind: ObjectKind, keyframe: bool)

  /** `wellFormed`: the profile passes validation against the configured relay limits. */
  datatype Coding = Coding(transferLength: nat, sourceSymbols: nat, wellFormed: bool)

  /** `deadline` is the first instant, in microseconds, at which the media deadline counts as expired. */
  datatype Announcement = Announcement(
    generation: nat, subscriptionId: nat, key: ObjectKey, kind: AnnouncedKind, deadline: nat, coding: Coding,
    initialRepairSymbols: nat, nextPacketSequence: nat)

  datatype Role = SourceSymbol | RepairSymbol

  /** One decoded RLS1 datagram; `packetSequence` is absent when the inner FEC header is malformed. */
  datatype Symbol = Symbol(
    generation: nat, subscriptionId: nat, key: ObjectKey, kind: AnnouncedKind, deadline: nat, coding: Coding,
    role: Role, pathIntent: nat, packetSequence: Option<nat>, datagramHash: nat)

  datatype Wire = Undecodable | Decoded(symbol: Symbol)

  /** What the object assembler answers to a symbol: it refuses it unchanged (perhaps as a conflict with
      earlier symbols), keeps it, or completes. */
  datatype Verdict = Refused(conflict: bool) | Incomplete | Completed(object_: MediaObject)

  datatype Fingerprint = Fingerprint(datagramHash: nat, role: Role)

  datatype ActiveObject = ActiveObject(
    announcement: Announcement, parentSessions: set<nat>, symbols: map<nat, Fingerprint>, sourceSymbols: nat,
    repairSymbols: nat, reservedBytes: nat, lastActivityUs: nat)

  datatype CompletedObject = CompletedObject(announcement: Announcement, parentSessions: set<nat>)

  datatype Error =
    | LimitExceeded
    | AuthenticationRequired
    | ParentSessionMissing
    | ParentSessionConflict
    | AnnouncementRequired
    | AnnouncementConflict
    | ObjectIdentityConflict
    | ParentLimitExceeded
    | ParentRoleConflict
    | UnauthorizedParent
    | DeadlineExpired
    | DatagramLimitExceeded
    | BufferedDatagramLimitExceeded
    | SymbolReplayConflict
    | RelaySessionError
    | RelaySessionConflict
    | UdpPeerConflict

  datatype AnnouncementOutcome = Started | Joined | AlreadyComplete

  datatype IngressOutcome =
    | BufferedSymbol(key: ObjectKey, role: Role)
    | DecodedObject(object_: MediaObject, role: Role, parentCount: nat, acceptedDatagrams: nat)
    | DuplicateSymbol(key: ObjectKey, role: Role)

  datatype Counters = Counters(
    received: nat, rejected: nat, source: nat, repair: nat, duplicate: nat, decoded: nat, repairAssisted: nat,
    fecRecovered: nat, fecRecoveredSymbols: nat, expired: nat, conflictDrops: nat, authenticationDrops: nat,
    deadlineDrops: nat)

  const NO_COUNTS: Counters := Counters(0, 0, 0, 0, 0, 0, 0, 0, 0, 0, 0, 0, 0)

  datatype Relay = Relay(
    config: Config,
    sessions: map<nat, Session>,
    objects: map<ObjectKey, ActiveObject>,
    completed: map<ObjectKey, CompletedObject>,
    completedOrder: seq<ObjectKey>,
    counters: Counters,
    nextExpiryScanUs: Option<nat>)

  function Fresh(config: Config): Relay {
    Relay(config, map[], map[], map[], [], NO_COUNTS, None)
  }

  // ---------------------------------------------------------------- derived quantities

  const ReservedBytes: ActiveObject -> nat := (o: ActiveObject) => o.reservedBytes
  const SymbolCount: ActiveObject -> nat := (o: ActiveObject) => |o.symbols|

  ghost function BufferedBytes(s: Relay): nat {
    Total(s.objects, ReservedBytes)
  }

  ghost function BufferedDatagrams(s: Relay): nat {
    Total(s.objects, SymbolCount)
  }

  predicate Known(s: Relay, key: ObjectKey) {
    key in s.objects || key in s.completed
  }

  /** The logical identity is already bound to a different canonical key. */
  ghost predicate IdentityConflict(s: Relay, key: ObjectKey) {
    exists k :: Known(s, k) && k.logical == key.logical && k != key
  }

  /** Configuration and registered sessions are untouched. */
  predicate SameSetup(s: Relay, s': Relay) {
    s'.config == s.config && s'.sessions == s.sessions
  }

  // ---------------------------------------------------------------- expiry

  predicate IsExpired(config: Config, o: ActiveObject, now: nat) {
    o.announcement.deadline <= now || SatSub(now, o.lastActivityUs) >= config.objectInactivityTimeoutUs
  }

  function ExpiredKeys(s: Relay, now: nat): set<ObjectKey> {
    set k | k in s.objects && IsExpired(s.config, s.objects[k], now)
  }

  function Expire(s: Relay, now: nat): (s': Relay)
    ensures SameSetup(s, s')
  {
    s.(objects := s.objects - ExpiredKeys(s, now),
       counters := s.counters.(expired := s.counters.expired + |ExpiredKeys(s, now)|),
       nextExpiryScanUs := Some(SatAdd(now, s.config.expiryScanIntervalUs)))
  }

  function ExpireIfDue(s: Relay, now: nat): (s': Relay)
    ensures SameSetup(s, s')
  {
    if s.nextExpiryScanUs.None? || now >= s.nextExpiryScanUs.value then Expire(s, now) else s
  }

  // ---------------------------------------------------------------- parents

  /** Two different parents may serve one object only in different roles and, unless both are controlled
      qualification sessions, from different peers. */
  predicate SamePeer(a: Session, b: Session) {
    a.peer == b.peer && !(a.controlledQualification && b.controlledQualification)
  }

  predicate Compatible(a: Session, b: Session) {
    !SamePeer(a, b) && a.parentPath != b.parentPath
  }

  function AddParent(sessions: map<nat, Session>, parents: set<nat>, candidate: Session, maxParents: nat)
    : Result<set<nat>, Error>
  {
    if candidate.sessionId in parents then Ok(parents)
    else if |parents| >= maxParents then Err(ParentLimitExceeded)
    else if exists p <- parents :: p in sessions && SamePeer(sessions[p], candidate) then Err(ParentSessionConflict)
    else if exists p <- parents :: p in sessions && sessions[p].parentPath == candidate.parentPath
    then Err(ParentRoleConflict)
    else Ok(parents + {candidate.sessionId})
  }

  function Register(s: Relay, session: Session): (Relay, Result<(), Error>) {
    if session.sessionId in s.sessions then
      (s, if s.sessions[session.sessionId] == session then Ok(()) else Err(ParentSessionConflict))
    else if |s.sessions| >= s.config.maxParentSessions then (s, Err(LimitExceeded))
    else (s.(sessions := s.sessions[session.sessionId := session]), Ok(()))
  }

  // ---------------------------------------------------------------- announcements

  /** The answer to an announcement, once overdue objects are gone; `ready` says whether the assembler
      can be built for it. */
  ghost function AnnounceOutcome(s: Relay, sessionId: nat, a: Announcement, ready: bool, now: nat)
    : Result<AnnouncementOutcome, Error>
  {
    if sessionId !in s.sessions then Err(ParentSessionMissing)
    else
      var session := s.sessions[sessionId];
      if a.generation != session.generation || a.subscriptionId != session.subscriptionId then Err(UnauthorizedParent)
      else if !a.coding.wellFormed then Err(RelaySessionError)
      else if a.initialRepairSymbols > s.config.maxExtraRepairSymbols then Err(LimitExceeded)
      else if IdentityConflict(s, a.key) then Err(ObjectIdentityConflict)
      else PlacementOutcome(s, session, a, ready, now)
  }

  ghost function PlacementOutcome(s: Relay, session: Session, a: Announcement, ready: bool, now: nat)
    : Result<AnnouncementOutcome, Error>
  {
    if a.key in s.completed then
      if s.completed[a.key].announcement != a then Err(AnnouncementConflict)
      else
        var joined := AddParent(s.sessions, s.completed[a.key].parentSessions, session, s.config.maxParentsPerObject);
        if joined.Err? then Err(joined.error) else Ok(AlreadyComplete)
    else if a.deadline <= now then Err(DeadlineExpired)
    else if a.key in s.objects then
      if s.objects[a.key].announcement != a then Err(AnnouncementConflict)
      else
        var joined := AddParent(s.sessions, s.objects[a.key].parentSessions, session, s.config.maxParentsPerObject);
        if joined.Err? then Err(joined.error) else Ok(Joined)
    else if |s.objects| >= s.config.maxActiveObjects then Err(LimitExceeded)
    else if BufferedBytes(s) + a.coding.transferLength > s.config.maxBufferedObjectBytes then Err(LimitExceeded)
    else if !ready then Err(RelaySessionError)
    else Ok(Started)
  }

  function NewObject(sessionId: nat, a: Announcement, now: nat): ActiveObject {
    ActiveObject(a, {sessionId}, map[], 0, 0, a.coding.transferLength, now)
  }

  function WithParent(o: ActiveObject, sessionId: nat, now: nat): ActiveObject {
    o.(parentSessions := o.parentSessions + {sessionId}, lastActivityUs := now)
  }

  function WithLateParent(c: CompletedObject, sessionId: nat): CompletedObject {
    c.(parentSessions := c.parentSessions + {sessionId})
  }

  /** A refused announcement changes nothing; an accepted one adds the object, or the parent to it. */
  ghost function Announced(s: Relay, sessionId: nat, a: Announcement, ready: bool, now: nat): (s': Relay)
    ensures SameSetup(s, s')
  {
    Placed(s, sessionId, a, now, AnnounceOutcome(s, sessionId, a, ready, now))
  }

  ghost function Placed(
    s: Relay, sessionId: nat, a: Announcement, now: nat, outcome: Result<AnnouncementOutcome, Error>): (s': Relay)
    ensures SameSetup(s, s')
  {
    match outcome
    case Err(_) => s
    case Ok(Started) => s.(objects := s.objects[a.key := NewObject(sessionId, a, now)])
    case Ok(Joined) =>
      if a.key in s.objects then s.(objects := s.objects[a.key := WithParent(s.objects[a.key], sessionId, now)]) else s
    case Ok(AlreadyComplete) =>
      if a.key in s.completed then
        s.(completed := s.completed[a.key := WithLateParent(s.completed[a.key], sessionId)])
      else s
  }

  /** What has been checked when an announcement is accepted. */
  lemma AcceptedAnnouncement(s: Relay, sessionId: nat, a: Announcement, ready: bool, now: nat)
    ensures
      var outcome := AnnounceOutcome(s, sessionId, a, ready, now);
      && (outcome.Ok? ==> sessionId in s.sessions && !IdentityConflict(s, a.key))
      && (outcome == Ok(Started) ==>
            && !Known(s, a.key) && now < a.deadline
            && |s.objects| < s.config.maxActiveObjects
            && BufferedBytes(s) + a.coding.transferLength <= s.config.maxBufferedObjectBytes)
      && (outcome == Ok(Joined) ==>
            && a.key in s.objects && s.objects[a.key].announcement == a && now < a.deadline
            && AddParent(s.sessions, s.objects[a.key].parentSessions, s.sessions[sessionId],
                         s.config.maxParentsPerObject).Ok?)
      && (outcome == Ok(AlreadyComplete) ==>
            && a.key in s.completed && s.completed[a.key].announcement == a
            && AddParent(s.sessions, s.completed[a.key].parentSessions, s.sessions[sessionId],
                         s.config.maxParentsPerObject).Ok?)
  {}

  // ---------------------------------------------------------------- symbols

  predicate Authorized(s: Relay, session: Session, symbol: Symbol) {
    && symbol.generation == session.generation
    && symbol.subscriptionId == session.subscriptionId
    && (session.parentPath, symbol.pathIntent) in s.config.permits
  }

  predicate MatchesCompleted(s: Relay, c: CompletedObject, session: Session, symbol: Symbol) {
    && session.sessionId in c.parentSessions
    && symbol.generation == c.announcement.generation
    && symbol.subscriptionId == c.announcement.subscriptionId
    && symbol.kind == c.announcement.kind
    && symbol.deadline == c.announcement.deadline
    && symbol.coding == c.announcement.coding
    && (session.parentPath, symbol.pathIntent) in s.config.permits
  }

  /** How a decoded symbol is treated before the assembler sees it. */
  datatype Admission = Refuse(error: Error) | Repeat | Late | Feed(sequence: nat)

  ghost function Admit(s: Relay, sessionId: nat, symbol: Symbol, now: nat): Admission
    requires sessionId in s.sessions
  {
    var session := s.sessions[sessionId];
    if !Authorized(s, session, symbol) then Refuse(UnauthorizedParent)
    else if IdentityConflict(s, symbol.key) then Refuse(ObjectIdentityConflict)
    else if symbol.key in s.completed then
      if MatchesCompleted(s, s.completed[symbol.key], session, symbol) then Repeat else Refuse(UnauthorizedParent)
    else if symbol.deadline <= now then Late
    else if symbol.key !in s.objects then Refuse(AnnouncementRequired)
    else AdmitActive(s, sessionId, symbol)
  }

  ghost function AdmitActive(s: Relay, sessionId: nat, symbol: Symbol): Admission
    requires symbol.key in s.objects
  {
    var o := s.objects[symbol.key];
    if sessionId !in o.parentSessions then Refuse(UnauthorizedParent)
    else if symbol.packetSequence.None? then Refuse(RelaySessionError)
    else
      var sequence := symbol.packetSequence.value;
      if sequence in o.symbols then
        if o.symbols[sequence] == Fingerprint(symbol.datagramHash, symbol.role) then Repeat
        else Refuse(SymbolReplayConflict)
      else if |o.symbols| >= s.config.maxDatagramsPerObject then Refuse(DatagramLimitExceeded)
      else if BufferedDatagrams(s) >= s.config.maxBufferedDatagrams then Refuse(BufferedDatagramLimitExceeded)
      else Feed(sequence)
  }

  /** What has been checked when a symbol reaches the assembler. */
  lemma AdmittedSymbol(s: Relay, sessionId: nat, symbol: Symbol, now: nat)
    requires sessionId in s.sessions && Admit(s, sessionId, symbol, now).Feed?
    ensures symbol.key in s.objects && symbol.key !in s.completed && now < symbol.deadline
    ensures Admit(s, sessionId, symbol, now).sequence !in s.objects[symbol.key].symbols
    ensures |s.objects[symbol.key].symbols| < s.config.maxDatagramsPerObject
    ensures BufferedDatagrams(s) < s.config.maxBufferedDatagrams
  {}

  predicate KindCompatible(o: MediaObject, announced: AnnouncedKind) {
    match o.kind
    case Initialization => announced == InitializationKind
    case CodecConfiguration => announced == CodecConfigKind
    case Discontinuity => announced == DataKind
    case Media =>
      if o.keyframe then announced == VideoKeyframeKind
      else announced in {AudioKind, VideoDeltaKind, DataKind, VideoKeyframeKind}
  }

  function CountRole(c: Counters, role: Role): Counters {
    if role == SourceSymbol then c.(source := c.source + 1) else c.(repair := c.repair + 1)
  }

  /** The object with one more distinct symbol. */
  function WithSymbol(o: ActiveObject, sequence: nat, symbol: Symbol, now: nat): ActiveObject {
    o.(symbols := o.symbols[sequence := Fingerprint(symbol.datagramHash, symbol.role)],
       sourceSymbols := o.sourceSymbols + (if symbol.role == SourceSymbol then 1 else 0),
       repairSymbols := o.repairSymbols + (if symbol.role == RepairSymbol then 1 else 0),
       lastActivityUs := now)
  }

  function FedState(s: Relay, sequence: nat, symbol: Symbol, now: nat): Relay
    requires symbol.key in s.objects
  {
    s.(objects := s.objects[symbol.key := WithSymbol(s.objects[symbol.key], sequence, symbol, now)],
       counters := CountRole(s.counters, symbol.role))
  }

  /** The completed objects that still have a place in the queue. */
  function Tombstoned(completed: map<ObjectKey, CompletedObject>, order: seq<ObjectKey>)
    : map<ObjectKey, CompletedObject>
  {
    map k | k in completed && k in order :: completed[k]
  }

  function CompletionCounts(c: Counters, o: ActiveObject): Counters {
    var missing := SatSub(o.announcement.coding.sourceSymbols, o.sourceSymbols);
    c.(decoded := c.decoded + 1,
       repairAssisted := c.repairAssisted + (if o.repairSymbols > 0 then 1 else 0),
       fecRecovered := c.fecRecovered + (if missing > 0 then 1 else 0),
       fecRecoveredSymbols := c.fecRecoveredSymbols + missing)
  }

  /** The FIFO of tombstones holds the most recently completed keys, oldest first. */
  function CompletedState(s: Relay, key: ObjectKey): Relay
    requires key in s.objects
  {
    var o := s.objects[key];
    var order := LastOf(s.completedOrder + [key], s.config.maxCompletedObjects);
    s.(objects := s.objects - {key},
       completedOrder := order,
       completed := Tombstoned(s.completed[key := CompletedObject(o.announcement, o.parentSessions)], order),
       counters := CompletionCounts(s.counters, o))
  }

  /** The symbol was fed and completed an object of another kind than announced. */
  predicate KindMismatch(s: Relay, symbol: Symbol, verdict: Verdict)
    requires symbol.key in s.objects
  {
    verdict.Completed? && !KindCompatible(verdict.object_, s.objects[symbol.key].announcement.kind)
  }

  /** What the assembler's verdict on an admitted symbol leads to. */
  function FedOutcome(s: Relay, symbol: Symbol, sequence: nat, verdict: Verdict, now: nat)
    : (r: (Relay, Result<IngressOutcome, Error>))
    requires symbol.key in s.objects
    ensures SameSetup(s, r.0)
  {
    var fed := FedState(s, sequence, symbol, now);
    if verdict.Refused? then (s, Err(if verdict.conflict then RelaySessionConflict else RelaySessionError))
    else if verdict.Incomplete? then (fed, Ok(BufferedSymbol(symbol.key, symbol.role)))
    else if KindMismatch(s, symbol, verdict) then (fed, Err(ObjectIdentityConflict))
    else
      var o := fed.objects[symbol.key];
      (CompletedState(fed, symbol.key),
       Ok(DecodedObject(verdict.object_, symbol.role, |o.parentSessions|, |o.symbols|)))
  }

  lemma AdmittedSymbolIsActive(s: Relay, sessionId: nat, symbol: Symbol, now: nat)
    requires sessionId in s.sessions
    ensures Admit(s, sessionId, symbol, now).Feed? ==> symbol.key in s.objects
  {}

  /** Outcome and state of one decoded symbol from a known session, overdue objects already gone. */
  ghost function PushSymbol(s: Relay, sessionId: nat, symbol: Symbol, verdict: Verdict, now: nat)
    : (r: (Relay, Result<IngressOutcome, Error>))
    requires sessionId in s.sessions
    ensures SameSetup(s, r.0)
  {
    var admission := Admit(s, sessionId, symbol, now);
    AdmittedSymbolIsActive(s, sessionId, symbol, now);
    HandleSymbol(s, symbol, admission, verdict, now)
  }

  function HandleSymbol(s: Relay, symbol: Symbol, admission: Admission, verdict: Verdict, now: nat)
    : (r: (Relay, Result<IngressOutcome, Error>))
    requires admission.Feed? ==> symbol.key in s.objects
    ensures SameSetup(s, r.0)
  {
    match admission
    case Refuse(error) => (s, Err(error))
    case Repeat =>
      (s.(counters := CountRole(s.counters.(duplicate := s.counters.duplicate + 1), symbol.role)),
       Ok(DuplicateSymbol(symbol.key, symbol.role)))
    case Late => (Expire(s, now), Err(DeadlineExpired))
    case Feed(sequence) =>
      FedOutcome(s, symbol, sequence, verdict, now)
  }

  ghost function PushWire(s: Relay, sessionId: nat, wire: Wire, verdict: Verdict, now: nat)
    : (r: (Relay, Result<IngressOutcome, Error>))
    ensures SameSetup(s, r.0)
  {
    if sessionId !in s.sessions then (s, Err(ParentSessionMissing))
    else if wire.Undecodable? then (s, Err(RelaySessionError))
    else PushSymbol(ExpireIfDue(s, now), sessionId, wire.symbol, verdict, now)
  }

  // ---------------------------------------------------------------- counted entry points

  function CountRejection(c: Counters, error: Error, datagram: bool): Counters {
    var c' := if datagram then c.(rejected := c.rejected + 1) else c;
    match error
    case AuthenticationRequired | ParentSessionMissing | UnauthorizedParent =>
      c'.(authenticationDrops := c'.authenticationDrops + 1)
    case DeadlineExpired => c'.(deadlineDrops := c'.deadlineDrops + 1)
    case AnnouncementConflict | ObjectIdentityConflict | SymbolReplayConflict | RelaySessionConflict =>
      c'.(conflictDrops := c'.conflictDrops + 1)
    case _ => c'
  }

  function Received(s: Relay): Relay {
    s.(counters := s.counters.(received := s.counters.received + 1))
  }

  function Rejected(s: Relay, error: Error, datagram: bool): Relay {
    s.(counters := CountRejection(s.counters, error, datagram))
  }

  ghost function AnnounceObject(s: Relay, sessionId: nat, a: Announcement, ready: bool, now: nat)
    : (r: (Relay, Result<AnnouncementOutcome, Error>))
    ensures SameSetup(s, r.0)
  {
    var swept := ExpireIfDue(s, now);
    var outcome := AnnounceOutcome(swept, sessionId, a, ready, now);
    if outcome.Err? then (Rejected(swept, outcome.error, false), outcome)
    else (Announced(swept, sessionId, a, ready, now), outcome)
  }

  ghost function PushDatagram(s: Relay, sessionId: nat, wire: Wire, verdict: Verdict, now: nat)
    : (r: (Relay, Result<IngressOutcome, Error>))
    ensures SameSetup(s, r.0)
  {
    var (s', outcome) := PushWire(Received(s), sessionId, wire, verdict, now);
    if outcome.Err? then (Rejected(s', outcome.error, true), outcome) else (s', outcome)
  }

  // ---------------------------------------------------------------- the UDP dispatch seam

  /** The announcement a controlled qualification session derives from its first symbol. */
  function DerivedAnnouncement(symbol: Symbol): Announcement {
    Announcement(symbol.generation, symbol.subscriptionId, symbol.key, symbol.kind, symbol.deadline, symbol.coding, 0, 0)
  }

  ghost function EnsureControlled(s: Relay, sessionId: nat, wire: Wire, ready: bool, now: nat)
    : (r: (Relay, Result<(), Error>))
    ensures SameSetup(s, r.0)
  {
    if sessionId !in s.sessions then (s, Err(ParentSessionMissing))
    else if !s.sessions[sessionId].controlledQualification then (s, Err(AnnouncementRequired))
    else if wire.Undecodable? then (s, Err(RelaySessionError))
    else if !Authorized(s, s.sessions[sessionId], wire.symbol) then (s, Err(UnauthorizedParent))
    else
      var a := DerivedAnnouncement(wire.symbol);
      var swept := ExpireIfDue(s, now);
      var outcome := AnnounceOutcome(swept, sessionId, a, ready, now);
      (Announced(swept, sessionId, a, ready, now), if outcome.Err? then Err(outcome.error) else Ok(()))
  }

  ghost function PushControlled(s: Relay, sessionId: nat, wire: Wire, verdict: Verdict, ready: bool, now: nat)
    : (r: (Relay, Result<IngressOutcome, Error>))
    ensures SameSetup(s, r.0)
  {
    var (announced, result) := EnsureControlled(s, sessionId, wire, ready, now);
    if result.Err? then (Rejected(Received(announced), result.error, true), Err(result.error))
    else PushDatagram(announced, sessionId, wire, verdict, now)
  }

  function PushUnbound(s: Relay): Relay {
    Rejected(Received(s), AuthenticationRequired, true)
  }
}
