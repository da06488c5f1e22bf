/** The relay receiver over whole runs: the invariant, the deduplication window, the datagram ledger and
    the staleness bound of its amortised expiry. */
module RelayRuns {
  import opened Collections
  import opened Prelude
  import opened RelaySpec
  import opened RelayInvariants

  datatype RelayOp =
    | RegisterParent(session: Session)
    | Announce(sessionId: nat, announcement: Announcement, ready: bool, now: nat)
    | Push(sessionId: nat, wire: Wire, verdict: Verdict, now: nat)
    | DispatchControlled(sessionId: nat, wire: Wire, verdict: Verdict, ready: bool, now: nat)
    | DispatchUnbound
    | Sweep(now: nat)

  ghost function Step(s: Relay, op: RelayOp): (s': Relay)
    ensures s'.config == s.config
  {
    match op
    case RegisterParent(session) => Register(s, session).0
    case Announce(id, a, ready, now) => AnnounceObject(s, id, a, ready, now).0
    case Push(id, wire, verdict, now) => PushDatagram(s, id, wire, verdict, now).0
    case DispatchControlled(id, wire, verdict, ready, now) => PushControlled(s, id, wire, verdict, ready, now).0
    case DispatchUnbound => PushUnbound(s)
    case Sweep(now) => Expire(s, now)
  }

  /** The state after the first `n` calls on a new receiver. */
  ghost function StateAt(config: Config, ops: seq<RelayOp>, n: nat): Relay
    requires n <= |ops|
  {
    if n == 0 then Fresh(config) else Step(StateAt(config, ops, n - 1), ops[n - 1])
  }

  lemma StepKeepsInv(s: Relay, op: RelayOp)
    requires Inv(s)
    ensures Inv(Step(s, op))
  {
    match op
    case RegisterParent(session) => RegisterKeepsInv(s, session);
    case Announce(id, a, ready, now) => AnnounceObjectKeepsInv(s, id, a, ready, now);
    case Push(id, wire, verdict, now) => PushDatagramKeepsInv(s, id, wire, verdict, now);
    case DispatchControlled(id, wire, verdict, ready, now) => PushControlledKeepsInv(s, id, wire, verdict, ready, now);
    case DispatchUnbound => CountersKeepInv(s, PushUnbound(s).counters);
    case Sweep(now) => ExpireKeepsInv(s, now);
  }

  lemma {:induction false} RunKeepsInv(config: Config, ops: seq<RelayOp>, n: nat)
    requires config.Valid() && n <= |ops|
    ensures Inv(StateAt(config, ops, n)) && StateAt(config, ops, n).config == config
  {
    hide Step, Inv;
    if n == 0 {
      FreshInv(config);
    } else {
      RunKeepsInv(config, ops, n - 1);
      StepKeepsInv(StateAt(config, ops, n - 1), ops[n - 1]);
    }
  }

  // ---------------------------------------------------------------- what one step does to the tombstones

  /** The result a datagram call reports. */
  ghost function ResultOf(s: Relay, op: RelayOp): Result<IngressOutcome, Error> {
    match op
    case Push(id, wire, verdict, now) => PushDatagram(s, id, wire, verdict, now).1
    case DispatchControlled(id, wire, verdict, ready, now) => PushControlled(s, id, wire, verdict, ready, now).1
    case _ => Err(AuthenticationRequired)
  }

  /** The key completed by a datagram call that reports `result`. */
  function Completion(wire: Wire, result: Result<IngressOutcome, Error>): Option<ObjectKey> {
    if wire.Decoded? && result.Ok? && result.value.DecodedObject? then Some(wire.symbol.key) else None
  }

  ghost function DecodedKey(s: Relay, op: RelayOp): Option<ObjectKey> {
    if op.Push? || op.DispatchControlled? then Completion(op.wire, ResultOf(s, op)) else None
  }

  /** Tombstones move only by a decode, which appends a key that had none. */
  ghost predicate TombstonesAdvance(s: Relay, s': Relay, decoded: Option<ObjectKey>) {
    if decoded.None? then s'.completedOrder == s.completedOrder
    else decoded.value !in s.completedOrder
         && s'.completedOrder == LastOf(s.completedOrder + [decoded.value], s.config.maxCompletedObjects)
  }

  lemma ActiveKeyHasNoTombstone(s: Relay, key: ObjectKey)
    requires Inv(s) && key in s.objects
    ensures key !in s.completedOrder
  {}

  lemma FedAdvancesTombstones(s: Relay, symbol: Symbol, sequence: nat, verdict: Verdict, now: nat)
    requires symbol.key in s.objects && symbol.key !in s.completedOrder
    ensures
      var (s', result) := FedOutcome(s, symbol, sequence, verdict, now);
      TombstonesAdvance(s, s', Completion(Decoded(symbol), result))
  {}

  lemma PushSymbolAdvancesTombstones(s: Relay, id: nat, symbol: Symbol, verdict: Verdict, now: nat)
    requires Inv(s) && id in s.sessions
    ensures
      var (s', result) := PushSymbol(s, id, symbol, verdict, now);
      TombstonesAdvance(s, s', Completion(Decoded(symbol), result))
  {
    hide Inv, Admit, FedOutcome;
    var admission := Admit(s, id, symbol, now);
    if admission.Feed? {
      AdmittedSymbol(s, id, symbol, now);
      ActiveKeyHasNoTombstone(s, symbol.key);
      FedAdvancesTombstones(s, symbol, admission.sequence, verdict, now);
    }
  }

  lemma PushAdvancesTombstones(s: Relay, id: nat, wire: Wire, verdict: Verdict, now: nat)
    requires Inv(s)
    ensures
      var (s', result) := PushDatagram(s, id, wire, verdict, now);
      TombstonesAdvance(s, s', Completion(wire, result))
  {
    hide Inv, PushSymbol;
    CountersKeepInv(s, Received(s).counters);
    ExpireKeepsInv(Received(s), now);
    if id in s.sessions && wire.Decoded? {
      PushSymbolAdvancesTombstones(ExpireIfDue(Received(s), now), id, wire.symbol, verdict, now);
    }
  }

  lemma AnnouncedKeepsTombstones(s: Relay, id: nat, a: Announcement, ready: bool, now: nat)
    ensures Announced(s, id, a, ready, now).completedOrder == s.completedOrder
  {
    hide AnnounceOutcome;
  }

  lemma EnsureControlledKeepsInv(s: Relay, id: nat, wire: Wire, ready: bool, now: nat)
    requires Inv(s)
    ensures Inv(EnsureControlled(s, id, wire, ready, now).0)
    ensures EnsureControlled(s, id, wire, ready, now).0.completedOrder == s.completedOrder
  {
    hide Inv, Announced, AnnounceOutcome;
    ExpireKeepsInv(s, now);
    if wire.Decoded? {
      AnnounceKeepsInv(ExpireIfDue(s, now), id, DerivedAnnouncement(wire.symbol), ready, now);
      AnnouncedKeepsTombstones(ExpireIfDue(s, now), id, DerivedAnnouncement(wire.symbol), ready, now);
    }
  }

  lemma StepAdvancesTombstones(s: Relay, op: RelayOp)
    requires Inv(s)
    ensures TombstonesAdvance(s, Step(s, op), DecodedKey(s, op))
  {
    hide Inv, PushDatagram, EnsureControlled, Announced, AnnounceOutcome;
    match op
    case Push(id, wire, verdict, now) => PushAdvancesTombstones(s, id, wire, verdict, now);
    case DispatchControlled(id, wire, verdict, ready, now) =>
      EnsureControlledKeepsInv(s, id, wire, ready, now);
      PushAdvancesTombstones(EnsureControlled(s, id, wire, ready, now).0, id, wire, verdict, now);
    case Announce(id, a, ready, now) => AnnouncedKeepsTombstones(ExpireIfDue(s, now), id, a, ready, now);
    case _ =>
  }

  // ---------------------------------------------------------------- the deduplication window

  ghost function DecodeLog(config: Config, ops: seq<RelayOp>, n: nat): seq<ObjectKey>
    requires n <= |ops|
  {
    if n == 0 then []
    else
      var decoded := DecodedKey(StateAt(config, ops, n - 1), ops[n - 1]);
      if decoded.Some? then DecodeLog(config, ops, n - 1) + [decoded.value] else DecodeLog(config, ops, n - 1)
  }

  /** The tombstone queue is always the last keys of the decode log, as many as it may hold. */
  lemma {:induction false} TombstonesAreRecentDecodes(config: Config, ops: seq<RelayOp>, n: nat)
    requires config.Valid() && n <= |ops|
    ensures StateAt(config, ops, n).completedOrder == LastOf(DecodeLog(config, ops, n), config.maxCompletedObjects)
    ensures WindowFresh(DecodeLog(config, ops, n), config.maxCompletedObjects)
  {
    hide Inv, Step, DecodedKey;
    if n > 0 {
      var s, op := StateAt(config, ops, n - 1), ops[n - 1];
      var log := DecodeLog(config, ops, n - 1);
      TombstonesAreRecentDecodes(config, ops, n - 1);
      RunKeepsInv(config, ops, n - 1);
      StepAdvancesTombstones(s, op);
      var decoded := DecodedKey(s, op);
      if decoded.Some? {
        LastOfAppend(log, decoded.value, config.maxCompletedObjects);
        ExtendWindow(log, decoded.value, config.maxCompletedObjects);
      }
    }
  }

  /** Between two decodes of one key, at least `maxCompletedObjects` other keys were decoded. */
  lemma RedecodeNeedsFullWindow(config: Config, ops: seq<RelayOp>, n: nat, i: nat, j: nat)
    requires config.Valid() && n <= |ops|
    requires i < j < |DecodeLog(config, ops, n)|
    requires DecodeLog(config, ops, n)[i] == DecodeLog(config, ops, n)[j]
    ensures
      var between := DecodeLog(config, ops, n)[i + 1..j];
      |Members(between) - {DecodeLog(config, ops, n)[j]}| >= config.maxCompletedObjects
  {
    TombstonesAreRecentDecodes(config, ops, n);
    FreshWindowIsFull(DecodeLog(config, ops, n), config.maxCompletedObjects, i, j);
  }

  // ---------------------------------------------------------------- the datagram ledger

  function Balance(c: Counters): int {
    c.received - c.rejected - c.source - c.repair
  }

  /** The call fed a symbol that completed an object of an unannounced kind: it is then counted both by
      role and as rejected. */
  ghost predicate FedMismatch(s: Relay, id: nat, symbol: Symbol, verdict: Verdict, now: nat)
    requires id in s.sessions
  {
    Admit(s, id, symbol, now).Feed? && symbol.key in s.objects && KindMismatch(s, symbol, verdict)
  }

  ghost predicate CountedTwice(s: Relay, id: nat, wire: Wire, verdict: Verdict, now: nat) {
    && id in s.sessions && wire.Decoded?
    && FedMismatch(ExpireIfDue(Received(s), now), id, wire.symbol, verdict, now)
  }

  ghost predicate KindMismatched(s: Relay, op: RelayOp) {
    match op
    case Push(id, wire, verdict, now) => CountedTwice(s, id, wire, verdict, now)
    case DispatchControlled(id, wire, verdict, ready, now) =>
      && EnsureControlled(s, id, wire, ready, now).1.Ok?
      && CountedTwice(EnsureControlled(s, id, wire, ready, now).0, id, wire, verdict, now)
    case _ => false
  }

  lemma FedBalance(s: Relay, symbol: Symbol, sequence: nat, verdict: Verdict, now: nat)
    requires symbol.key in s.objects
    ensures
      var (s', result) := FedOutcome(s, symbol, sequence, verdict, now);
      Balance(s'.counters)
      == Balance(s.counters) - (if result.Ok? || KindMismatch(s, symbol, verdict) then 1 else 0)
  {}

  lemma PushSymbolBalance(s: Relay, id: nat, symbol: Symbol, verdict: Verdict, now: nat)
    requires id in s.sessions
    ensures
      var (s', result) := PushSymbol(s, id, symbol, verdict, now);
      Balance(s'.counters)
      == Balance(s.counters) - (if result.Ok? || FedMismatch(s, id, symbol, verdict, now) then 1 else 0)
  {
    hide Admit, FedOutcome, KindMismatch;
    var admission := Admit(s, id, symbol, now);
    if admission.Feed? {
      AdmittedSymbol(s, id, symbol, now);
      FedBalance(s, symbol, admission.sequence, verdict, now);
    }
  }

  lemma FedMismatchFails(s: Relay, id: nat, symbol: Symbol, verdict: Verdict, now: nat)
    requires id in s.sessions && FedMismatch(s, id, symbol, verdict, now)
    ensures PushSymbol(s, id, symbol, verdict, now).1.Err?
  {
    hide Admit;
  }

  lemma PushBalance(s: Relay, id: nat, wire: Wire, verdict: Verdict, now: nat)
    ensures Balance(PushDatagram(s, id, wire, verdict, now).0.counters)
         == Balance(s.counters) - (if CountedTwice(s, id, wire, verdict, now) then 1 else 0)
  {
    hide PushSymbol, FedMismatch;
    if id in s.sessions && wire.Decoded? {
      var swept := ExpireIfDue(Received(s), now);
      PushSymbolBalance(swept, id, wire.symbol, verdict, now);
      if FedMismatch(swept, id, wire.symbol, verdict, now) {
        FedMismatchFails(swept, id, wire.symbol, verdict, now);
      }
    }
  }

  lemma EnsureControlledBalance(s: Relay, id: nat, wire: Wire, ready: bool, now: nat)
    ensures Balance(EnsureControlled(s, id, wire, ready, now).0.counters) == Balance(s.counters)
  {
    hide AnnounceOutcome;
  }

  lemma AnnounceBalance(s: Relay, id: nat, a: Announcement, ready: bool, now: nat)
    ensures Balance(AnnounceObject(s, id, a, ready, now).0.counters) == Balance(s.counters)
  {
    hide AnnounceOutcome, Announced, ExpiredKeys;
    AnnouncedCounts(ExpireIfDue(s, now), id, a, ready, now);
  }

  lemma AnnouncedCounts(s: Relay, id: nat, a: Announcement, ready: bool, now: nat)
    ensures Announced(s, id, a, ready, now).counters == s.counters
  {
    hide AnnounceOutcome, NewObject, WithParent, WithLateParent;
  }

  lemma OtherBalance(s: Relay, op: RelayOp)
    requires !op.Push? && !op.DispatchControlled?
    ensures Balance(Step(s, op).counters) == Balance(s.counters)
  {
    hide AnnounceObject, ExpiredKeys;
    if op.Announce? {
      AnnounceBalance(s, op.sessionId, op.announcement, op.ready, op.now);
    }
  }

  lemma ControlledBalance(s: Relay, id: nat, wire: Wire, verdict: Verdict, ready: bool, now: nat)
    ensures
      var (s', r) := EnsureControlled(s, id, wire, ready, now);
      Balance(PushControlled(s, id, wire, verdict, ready, now).0.counters)
      == Balance(s.counters) - (if r.Ok? && CountedTwice(s', id, wire, verdict, now) then 1 else 0)
  {
    hide PushDatagram, CountedTwice, EnsureControlled;
    EnsureControlledBalance(s, id, wire, ready, now);
    PushBalance(EnsureControlled(s, id, wire, ready, now).0, id, wire, verdict, now);
  }

  lemma StepBalance(s: Relay, op: RelayOp)
    ensures Balance(Step(s, op).counters) == Balance(s.counters) - (if KindMismatched(s, op) then 1 else 0)
  {
    hide PushDatagram, CountedTwice, EnsureControlled, PushControlled, Balance;
    match op
    case Push(id, wire, verdict, now) => PushBalance(s, id, wire, verdict, now);
    case DispatchControlled(id, wire, verdict, ready, now) => ControlledBalance(s, id, wire, verdict, ready, now);
    case _ => OtherBalance(s, op);
  }

  ghost function KindMismatches(config: Config, ops: seq<RelayOp>, n: nat): nat
    requires n <= |ops|
  {
    if n == 0 then 0
    else KindMismatches(config, ops, n - 1) + (if KindMismatched(StateAt(config, ops, n - 1), ops[n - 1]) then 1 else 0)
  }

  /** Every received datagram is rejected or counted by role; a kind mismatch is counted as both. */
  lemma {:induction false} DatagramLedger(config: Config, ops: seq<RelayOp>, n: nat)
    requires n <= |ops|
    ensures
      var c := StateAt(config, ops, n).counters;
      c.received + KindMismatches(config, ops, n) == c.rejected + c.source + c.repair
  {
    hide Step, KindMismatched;
    if n > 0 {
      DatagramLedger(config, ops, n - 1);
      StepBalance(StateAt(config, ops, n - 1), ops[n - 1]);
    }
  }

  // ---------------------------------------------------------------- bounded staleness

  /** The first instant at which an active object counts as overdue. */
  function DueAt(config: Config, o: ActiveObject): nat {
    Min(o.announcement.deadline, o.lastActivityUs + config.objectInactivityTimeoutUs)
  }

  lemma DueMeansExpired(config: Config, o: ActiveObject, now: nat)
    requires config.Valid()
    ensures IsExpired(config, o, now) <==> DueAt(config, o) <= now
  {}

  ghost predicate OverdueByLessThanScan(s: Relay, now: nat) {
    forall k <- s.objects :: now < DueAt(s.config, s.objects[k]) + s.config.expiryScanIntervalUs
  }

  /** No object becomes overdue a full interval before the next scheduled scan. */
  ghost predicate ScanSchedule(s: Relay, clock: nat) {
    match s.nextExpiryScanUs
    case None => s.objects == map[]
    case Some(scan) =>
      && scan <= clock + s.config.expiryScanIntervalUs
      && forall k <- s.objects :: scan < DueAt(s.config, s.objects[k]) + s.config.expiryScanIntervalUs
  }

  /** The state right after a due-check at time `now`. */
  ghost predicate Swept(s: Relay, now: nat) {
    ScanSchedule(s, now) && OverdueByLessThanScan(s, now) && s.nextExpiryScanUs.Some?
  }

  lemma ExpireSchedules(s: Relay, now: nat)
    requires s.config.Valid()
    ensures Swept(Expire(s, now), now)
  {
    forall k <- Expire(s, now).objects
      ensures now < DueAt(s.config, s.objects[k])
    {
      DueMeansExpired(s.config, s.objects[k], now);
    }
  }

  lemma ExpireIfDueSchedules(s: Relay, clock: nat, now: nat)
    requires s.config.Valid() && ScanSchedule(s, clock) && clock <= now
    ensures Swept(ExpireIfDue(s, now), now)
  {
    hide Expire;
    ExpireSchedules(s, now);
  }

  /** An object touched now keeps the schedule if it is new with its deadline ahead, or keeps its deadline. */
  lemma TouchSchedules(s: Relay, key: ObjectKey, o: ActiveObject, now: nat)
    requires s.config.Valid() && Swept(s, now) && o.lastActivityUs == now
    requires
      || now < o.announcement.deadline
      || (key in s.objects && o.announcement == s.objects[key].announcement)
    ensures Swept(s.(objects := s.objects[key := o]), now)
  {}

  lemma AnnouncedSchedules(s: Relay, id: nat, a: Announcement, ready: bool, now: nat)
    requires s.config.Valid() && Swept(s, now)
    ensures Swept(Announced(s, id, a, ready, now), now)
  {
    hide AnnounceOutcome, IdentityConflict;
    AcceptedAnnouncement(s, id, a, ready, now);
    match AnnounceOutcome(s, id, a, ready, now)
    case Ok(Started) => TouchSchedules(s, a.key, NewObject(id, a, now), now);
    case Ok(Joined) => TouchSchedules(s, a.key, WithParent(s.objects[a.key], id, now), now);
    case _ =>
  }

  lemma FedSchedules(s: Relay, symbol: Symbol, sequence: nat, verdict: Verdict, now: nat)
    requires s.config.Valid() && Swept(s, now) && symbol.key in s.objects
    ensures Swept(FedOutcome(s, symbol, sequence, verdict, now).0, now)
  {
    TouchSchedules(s, symbol.key, WithSymbol(s.objects[symbol.key], sequence, symbol, now), now);
  }

  lemma PushSymbolSchedules(s: Relay, id: nat, symbol: Symbol, verdict: Verdict, now: nat)
    requires s.config.Valid() && Swept(s, now) && id in s.sessions
    ensures Swept(PushSymbol(s, id, symbol, verdict, now).0, now)
  {
    hide Admit, FedOutcome, Expire;
    ExpireSchedules(s, now);
    var admission := Admit(s, id, symbol, now);
    if admission.Feed? {
      AdmittedSymbol(s, id, symbol, now);
      FedSchedules(s, symbol, admission.sequence, verdict, now);
    }
  }

  /** The call gets as far as the check whether a scan is due. */
  predicate ReachesDueCheck(s: Relay, op: RelayOp) {
    match op
    case Announce(_, _, _, _) => true
    case Push(id, wire, _, _) => id in s.sessions && wire.Decoded?
    case DispatchControlled(id, wire, _, _, _) =>
      && id in s.sessions && s.sessions[id].controlledQualification && wire.Decoded?
      && Authorized(s, s.sessions[id], wire.symbol)
    case Sweep(_) => true
    case _ => false
  }

  function TimeOf(op: RelayOp, clock: nat): nat {
    if op.RegisterParent? || op.DispatchUnbound? then clock else op.now
  }

  lemma PushSchedules(s: Relay, id: nat, wire: Wire, verdict: Verdict, clock: nat, now: nat)
    requires s.config.Valid() && ScanSchedule(s, clock) && clock <= now
    ensures
      var s' := PushDatagram(s, id, wire, verdict, now).0;
      if id in s.sessions && wire.Decoded? then Swept(s', now)
      else s'.objects == s.objects && s'.nextExpiryScanUs == s.nextExpiryScanUs
  {
    hide PushSymbol, ExpireIfDue;
    if id in s.sessions && wire.Decoded? {
      ExpireIfDueSchedules(Received(s), clock, now);
      PushSymbolSchedules(ExpireIfDue(Received(s), now), id, wire.symbol, verdict, now);
    }
  }

  lemma EnsureControlledSchedules(s: Relay, id: nat, wire: Wire, verdict: Verdict, ready: bool, clock: nat, now: nat)
    requires s.config.Valid() && ScanSchedule(s, clock) && clock <= now
    ensures
      var (s', result) := EnsureControlled(s, id, wire, ready, now);
      if ReachesDueCheck(s, DispatchControlled(id, wire, verdict, ready, now)) then Swept(s', now)
      else s' == s && result.Err?
  {
    hide Announced, AnnounceOutcome, ExpireIfDue;
    if wire.Decoded? {
      ExpireIfDueSchedules(s, clock, now);
      AnnouncedSchedules(ExpireIfDue(s, now), id, DerivedAnnouncement(wire.symbol), ready, now);
    }
  }

  lemma PushControlledSchedules(s: Relay, id: nat, wire: Wire, verdict: Verdict, ready: bool, clock: nat, now: nat)
    requires s.config.Valid() && ScanSchedule(s, clock) && clock <= now
    ensures
      var s' := PushControlled(s, id, wire, verdict, ready, now).0;
      if ReachesDueCheck(s, DispatchControlled(id, wire, verdict, ready, now)) then Swept(s', now)
      else s'.objects == s.objects && s'.nextExpiryScanUs == s.nextExpiryScanUs
  {
    hide EnsureControlled, PushDatagram;
    EnsureControlledSchedules(s, id, wire, verdict, ready, clock, now);
    var announced := EnsureControlled(s, id, wire, ready, now).0;
    if ReachesDueCheck(s, DispatchControlled(id, wire, verdict, ready, now)) {
      PushSchedules(announced, id, wire, verdict, now, now);
    }
  }

  lemma StepSchedules(s: Relay, op: RelayOp, clock: nat)
    requires s.config.Valid() && ScanSchedule(s, clock) && clock <= TimeOf(op, clock)
    ensures ScanSchedule(Step(s, op), TimeOf(op, clock))
    ensures ReachesDueCheck(s, op) ==> OverdueByLessThanScan(Step(s, op), TimeOf(op, clock))
  {
    hide PushDatagram, PushControlled, ExpireIfDue, Expire, Announced, AnnounceOutcome, Authorized;
    match op
    case Announce(id, a, ready, now) =>
      ExpireIfDueSchedules(s, clock, now);
      AnnouncedSchedules(ExpireIfDue(s, now), id, a, ready, now);
    case Push(id, wire, verdict, now) => PushSchedules(s, id, wire, verdict, clock, now);
    case DispatchControlled(id, wire, verdict, ready, now) =>
      PushControlledSchedules(s, id, wire, verdict, ready, clock, now);
    case Sweep(now) => ExpireSchedules(s, now);
    case _ =>
  }

  /** The latest time any of the first `n` calls carried. */
  function Clock(ops: seq<RelayOp>, n: nat): nat
    requires n <= |ops|
  {
    if n == 0 then 0 else TimeOf(ops[n - 1], Clock(ops, n - 1))
  }

  ghost predicate NondecreasingClock(ops: seq<RelayOp>) {
    forall n :: 0 <= n < |ops| ==> Clock(ops, n) <= TimeOf(ops[n], Clock(ops, n))
  }

  lemma {:induction false} RunSchedules(config: Config, ops: seq<RelayOp>, n: nat)
    requires config.Valid() && NondecreasingClock(ops) && n <= |ops|
    ensures ScanSchedule(StateAt(config, ops, n), Clock(ops, n))
  {
    hide Step, ScanSchedule;
    if n == 0 {
      FreshSchedules(config);
    } else {
      RunKeepsInv(config, ops, n - 1);
      RunSchedules(config, ops, n - 1);
      StepSchedules(StateAt(config, ops, n - 1), ops[n - 1], Clock(ops, n - 1));
    }
  }

  lemma FreshSchedules(config: Config)
    ensures ScanSchedule(Fresh(config), 0)
  {}

  /** With a nondecreasing clock, after any call that reaches the due-check no active object is overdue,
      by deadline or inactivity, by a full scan interval. */
  lemma BoundedStaleness(config: Config, ops: seq<RelayOp>, n: nat)
    requires config.Valid() && NondecreasingClock(ops) && n < |ops|
    requires ReachesDueCheck(StateAt(config, ops, n), ops[n])
    ensures OverdueByLessThanScan(StateAt(config, ops, n + 1), Clock(ops, n + 1))
  {
    hide Step, ScanSchedule, OverdueByLessThanScan, ReachesDueCheck;
    RunKeepsInv(config, ops, n);
    RunSchedules(config, ops, n);
    StepSchedules(StateAt(config, ops, n), ops[n], Clock(ops, n));
  }
}
