/** Many authorizations at once.  Each lock-held region of the gate is one atomic step: resolving a
    binding (Begin), the guard's check-and-admit (Check), commit plus lease (Issue), drop (Abandon) and
    the registry's own updates.  Steps of different attempts interleave freely. */
module SubscribeGate {
  import opened Prelude
  import opened SubscribeRegistry
  import opened RegistryRuns
  import opened AdmissionTable

  /** One call of `authorize_strict` in flight; `admitted` records what its guard has let through. */
  datatype Attempt = Attempt(
    fingerprint: Fingerprint,
    registered: Registered,
    now: int,
    admitted: map<string, int>,
    pending: Option<string>)

  datatype Issued = Issued(reservation: nat, fingerprint: Fingerprint, lease: Lease)

  datatype Gate = Gate(
    registry: Registry,
    admissions: Admissions,
    nextReservation: nat,
    attempts: map<nat, Attempt>,
    leases: seq<Issued>)

  datatype GateOp =
    | UpdateRegistry(op: RegistryOp)
    | Begin(key: BindingKey, connectionId: string, now: int)
    | Check(reservation: nat, capabilityId: string, expiresAt: int)
    | Issue(reservation: nat, claims: Verified)
    | Abandon(reservation: nat)

  function AttemptAfterCheck(g: Gate, r: nat, capabilityId: string, expiresAt: int): Attempt
    requires r in g.attempts
  {
    var a := g.attempts[r];
    if AdmitOutcome(Purged(g.admissions, a.now), a.fingerprint, r, capabilityId).Ok? then
      a.(admitted := a.admitted[capabilityId := expiresAt],
         pending := AdmitPending(a.pending, g.admissions, a.now, a.fingerprint, r, capabilityId))
    else a
  }

  function LeaseOf(a: Attempt, claims: Verified): Lease {
    Lease(a.registered.binding, a.registered.revision, claims.capabilityId, a.fingerprint.connectionId,
          claims.sourceIds, claims.audienceIds, claims.maxChannels, claims.maxBitrate, claims.maxDatagramBytes,
          claims.expiresAt)
  }

  ghost predicate GateStep(g: Gate, op: GateOp, g': Gate) {
    match op
    case UpdateRegistry(update) =>
      Step(g.registry, update, g'.registry) && g' == g.(registry := g'.registry)
    case Begin(key, connectionId, now) =>
      var resolved := g.registry.Resolve(key);
      if resolved.Err? then g' == g
      else g' == g.(
             nextReservation := g.nextReservation + 1,
             attempts := g.attempts[g.nextReservation :=
                           Attempt(Fingerprint(key, connectionId), resolved.value, now, map[], None)])
    case Check(r, capabilityId, expiresAt) =>
      && r in g.attempts
      && var a := g.attempts[r];
         g' == g.(
           admissions := AdmitTable(g.admissions, a.now, a.fingerprint, r, capabilityId, expiresAt),
           attempts := g.attempts[r := AttemptAfterCheck(g, r, capabilityId, expiresAt)])
    case Issue(r, claims) =>
      && r in g.attempts
      && var a := g.attempts[r];
         && claims.capabilityId in a.admitted && claims.expiresAt == a.admitted[claims.capabilityId]
         && a.now < claims.expiresAt
         && g' == g.(
              admissions := CommitTable(g.admissions, a.pending, r),
              attempts := g.attempts - {r},
              leases := g.leases + [Issued(r, a.fingerprint, LeaseOf(a, claims))])
    case Abandon(r) =>
      && r in g.attempts
      && g' == g.(
           admissions := RollbackTable(g.admissions, g.attempts[r].pending, r),
           attempts := g.attempts - {r})
  }

  ghost predicate IsSegment(states: seq<Gate>, ops: seq<GateOp>) {
    && |states| == |ops| + 1
    && forall i :: 0 <= i < |ops| ==> GateStepAt(states, ops, i)
  }

  ghost predicate IsGateRun(states: seq<Gate>, ops: seq<GateOp>) {
    && IsSegment(states, ops)
    && states[0].registry.Valid()
    && states[0] == Gate(states[0].registry, map[], 1, map[], [])
  }

  ghost predicate GateStepAt(states: seq<Gate>, ops: seq<GateOp>, i: nat)
    requires |states| == |ops| + 1 && i < |ops|
  {
    GateStep(states[i], ops[i], states[i + 1])
  }

  /** The lease an attempt ends with: the binding it resolved, its own connection, and the signed claims. */
  lemma IssuedLeaseCarriesClaims(g: Gate, r: nat, claims: Verified, g': Gate)
    requires GateStep(g, Issue(r, claims), g')
    ensures |g'.leases| == |g.leases| + 1 && r in g.attempts
    ensures
      var (lease, a) := (g'.leases[|g.leases|].lease, g.attempts[r]);
      && lease.binding == a.registered.binding && lease.bindingRevision == a.registered.revision
      && lease.connectionId == a.fingerprint.connectionId
      && lease.capabilityId == claims.capabilityId && lease.expiresAt == claims.expiresAt
      && lease.sourceIds == claims.sourceIds && lease.audienceIds == claims.audienceIds
      && lease.maxChannels == claims.maxChannels && lease.maxBitrate == claims.maxBitrate
      && lease.maxDatagramBytes == claims.maxDatagramBytes
  {}

  // ---------------------------------------------------------------- reservation numbers

  /** A reservation number belongs to one attempt and ends with it. */
  ghost predicate Reservations(g: Gate) {
    && (forall r <- g.attempts :: r < g.nextReservation)
    && (forall i :: 0 <= i < |g.leases| ==> g.leases[i].reservation < g.nextReservation
                                            && g.leases[i].reservation !in g.attempts)
    && ReservationsBelow(g.admissions, g.nextReservation)
  }

  // ---------------------------------------------------------------- where a lease comes from

  lemma StepKeepsReservations(g: Gate, op: GateOp, g': Gate)
    requires Reservations(g) && GateStep(g, op, g')
    ensures Reservations(g')
  {}

  lemma {:induction false} RunKeepsReservations(states: seq<Gate>, ops: seq<GateOp>, n: nat)
    requires IsGateRun(states, ops) && n < |states|
    ensures Reservations(states[n])
  {
    if n > 0 {
      RunKeepsReservations(states, ops, n - 1);
      assert GateStepAt(states, ops, n - 1);
      StepKeepsReservations(states[n - 1], ops[n - 1], states[n]);
    }
  }

  function Registries(states: seq<Gate>): seq<Registry> {
    seq(|states|, i requires 0 <= i < |states| => states[i].registry)
  }

  function RegistryOps(ops: seq<GateOp>): seq<RegistryOp> {
    seq(|ops|, i requires 0 <= i < |ops| => if ops[i].UpdateRegistry? then ops[i].op else Observe)
  }

  /** Seen from the registry, an interleaved run is a run of the registry alone. */
  lemma RegistryProjection(states: seq<Gate>, ops: seq<GateOp>)
    requires IsGateRun(states, ops)
    ensures IsRun(Registries(states), RegistryOps(ops))
  {
    var rs, us := Registries(states), RegistryOps(ops);
    forall i | 0 <= i < |us|
      ensures StepAt(rs, us, i)
    {
      assert GateStepAt(states, ops, i);
    }
  }

  lemma RegistryStaysValid(states: seq<Gate>, ops: seq<GateOp>, n: nat)
    requires IsGateRun(states, ops) && n < |states|
    ensures states[n].registry.Valid()
  {
    RegistryProjection(states, ops);
    RunExtends(Registries(states), RegistryOps(ops), n, n);
  }

  ghost predicate ResolvedAt(states: seq<Gate>, m: nat, a: Attempt)
    requires m < |states|
  {
    states[m].registry.Resolve(a.fingerprint.key) == Ok(a.registered)
  }

  lemma {:induction false} AttemptOrigin(states: seq<Gate>, ops: seq<GateOp>, n: nat, r: nat)
    requires IsGateRun(states, ops) && n < |states| && r in states[n].attempts
    ensures exists m :: 0 <= m < n && ResolvedAt(states, m, states[n].attempts[r])
  {
    var g := states[n - 1];
    assert GateStepAt(states, ops, n - 1);
    RunKeepsReservations(states, ops, n - 1);
    if r in g.attempts {
      AttemptOrigin(states, ops, n - 1, r);
      var m :| 0 <= m < n - 1 && ResolvedAt(states, m, g.attempts[r]);
      assert ResolvedAt(states, m, states[n].attempts[r]);
    } else {
      assert ResolvedAt(states, n - 1, states[n].attempts[r]);
    }
  }

  /** The lease an attempt ends with carries the binding and revision the attempt resolved. */
  lemma {:induction false} LeaseCarriesResolution(
    states: seq<Gate>, ops: seq<GateOp>, b: nat, n: nat, r: nat, i: nat)
    requires IsGateRun(states, ops) && b <= n < |states|
    requires r in states[b].attempts && i < |states[n].leases| && states[n].leases[i].reservation == r
    ensures states[n].leases[i].lease.binding == states[b].attempts[r].registered.binding
    ensures states[n].leases[i].lease.bindingRevision == states[b].attempts[r].registered.revision
    decreases n
  {
    RunKeepsReservations(states, ops, b);
    assert GateStepAt(states, ops, n - 1);
    if i < |states[n - 1].leases| {
      LeaseCarriesResolution(states, ops, b, n - 1, r, i);
    } else {
      AttemptUnchanged(states, ops, b, n - 1, r);
    }
  }

  lemma {:induction false} AttemptUnchanged(states: seq<Gate>, ops: seq<GateOp>, b: nat, n: nat, r: nat)
    requires IsGateRun(states, ops) && b <= n < |states|
    requires r in states[b].attempts && r in states[n].attempts
    ensures states[n].attempts[r].registered == states[b].attempts[r].registered
    decreases n
  {
    if b < n {
      RunKeepsReservations(states, ops, b);
      RunKeepsReservations(states, ops, n - 1);
      assert GateStepAt(states, ops, n - 1);
      NextReservationGrows(states, ops, b, n - 1);
      AttemptUnchanged(states, ops, b, n - 1, r);
    }
  }

  lemma {:induction false} NextReservationGrows(states: seq<Gate>, ops: seq<GateOp>, b: nat, n: nat)
    requires IsGateRun(states, ops) && b <= n < |states|
    ensures states[b].nextReservation <= states[n].nextReservation
    decreases n
  {
    if b < n {
      assert GateStepAt(states, ops, n - 1);
      NextReservationGrows(states, ops, b, n - 1);
    }
  }

  /** What happens to the registry while an authorization is in flight counts against its lease: a newer event
      with a newer epoch of the resolved binding's session, or with a newer grant for its endpoint, ends the lease
      from that step on, and so does any snapshot. */
  lemma FencedWhileInFlight(states: seq<Gate>, ops: seq<GateOp>, b: nat, m: nat, n: nat, k: nat, r: nat, i: nat)
    requires IsGateRun(states, ops) && b <= m < k < |states| && b <= n < |states|
    requires r in states[b].attempts && i < |states[n].leases| && states[n].leases[i].reservation == r
    requires states[n].leases[i].lease.bindingRevision < U64_MAX
    requires ops[m].UpdateRegistry?
    requires
      || (&& ops[m].op.Invalidate? && WellFormed(ops[m].op.event, states[m].registry.maxGeneration)
          && var binding, event := states[b].attempts[r].registered.binding, ops[m].op.event;
          && states[m].registry.lastSequence < event.deliverySequence
          && binding.sessionId == event.sessionId
          && (|| binding.sessionEpoch < event.sessionEpoch
              || binding.mediaAuthorizationEpoch < event.mediaAuthorizationEpoch
              || binding.mediaPolicyVersion < event.mediaPolicyVersion
              || (&& event.endpointId == Some(binding.endpointId)
                  && binding.subjectGrantEpoch < event.subjectGrantEpoch.value)))
      || (&& ops[m].op.Snapshot?
          && SnapshotOutcome(states[m].registry, ops[m].op.boundary, ops[m].op.bindings).Ok?)
    ensures states[k].registry.Revalidate(states[n].leases[i].lease).Err?
  {
    var lease := states[n].leases[i].lease;
    LeaseCarriesResolution(states, ops, b, n, r, i);
    AttemptOrigin(states, ops, b, r);
    var o :| 0 <= o < b && ResolvedAt(states, o, states[b].attempts[r]);
    RegistryProjection(states, ops);
    var rs, us := Registries(states), RegistryOps(ops);
    RunExtends(rs, us, o, o);
    assert ResolvedFrom(rs[o], lease);
    if ops[m].op.Invalidate? {
      StaleEventEndsLease(rs, us, o, m, k, lease);
    } else {
      SnapshotEndsLease(rs, us, o, m, k, lease);
    }
  }

  /** A lease that fails revalidation at any time after it was issued fails for ever after. */
  lemma LeaseFailStop(states: seq<Gate>, ops: seq<GateOp>, n: nat, i: nat, j: nat, k: nat)
    requires IsGateRun(states, ops) && n <= j <= k < |states| && i < |states[n].leases|
    requires states[n].leases[i].lease.bindingRevision < U64_MAX
    requires states[j].registry.Revalidate(states[n].leases[i].lease).Err?
    ensures states[k].registry.Revalidate(states[n].leases[i].lease).Err?
  {
    var o := LeaseOrigin(states, ops, n, i);
    RegistryProjection(states, ops);
    FailStop(Registries(states), RegistryOps(ops), o, j, k, states[n].leases[i].lease);
  }

  lemma {:induction false} LeaseOrigin(states: seq<Gate>, ops: seq<GateOp>, n: nat, i: nat) returns (o: nat)
    requires IsGateRun(states, ops) && n < |states| && i < |states[n].leases|
    ensures o < n && ResolvedFrom(states[o].registry, states[n].leases[i].lease)
    ensures states[n].leases[i].fingerprint
         == Fingerprint(states[n].leases[i].lease.binding.Key(), states[n].leases[i].lease.connectionId)
    decreases n
  {
    assert GateStepAt(states, ops, n - 1);
    if i < |states[n - 1].leases| {
      o := LeaseOrigin(states, ops, n - 1, i);
    } else {
      var r := ops[n - 1].reservation;
      AttemptOrigin(states, ops, n - 1, r);
      o :| 0 <= o < n - 1 && ResolvedAt(states, o, states[n - 1].attempts[r]);
      RegistryStaysValid(states, ops, o);
    }
  }
}
