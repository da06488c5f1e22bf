/** The shared table of capability admissions and the guard that reserves, commits and rolls back one
    entry of it.  Each guard method is one lock-held region of `SubscribeAdmissionGuard`. */
module AdmissionTable {
  import opened Prelude
  import opened SubscribeRegistry

  datatype Fingerprint = Fingerprint(key: BindingKey, connectionId: string)

  datatype AdmissionState = Pending(reservation: nat) | Committed

  datatype Stored = Stored(fingerprint: Fingerprint, expiresAt: int, state: AdmissionState)

  type Admissions = map<string, Stored>

  datatype Rejection = AtCapacity | Replay

  function Purged(admissions: Admissions, now: int): Admissions {
    map c | c in admissions && admissions[c].expiresAt > now :: admissions[c]
  }

  /** The entry is already this requester's own: committed for the same carrier, or its own reservation. */
  predicate OwnEntry(stored: Stored, fingerprint: Fingerprint, reservation: nat) {
    stored.fingerprint == fingerprint && (stored.state == Committed || stored.state == Pending(reservation))
  }

  function AdmitOutcome(kept: Admissions, fingerprint: Fingerprint, reservation: nat, capabilityId: string)
    : Result<(), Rejection>
  {
    if capabilityId in kept then
      if OwnEntry(kept[capabilityId], fingerprint, reservation) then Ok(()) else Err(Replay)
    else
      if |kept| >= MAX_ACTIVE_SUBSCRIPTIONS then Err(AtCapacity) else Ok(())
  }

  /** What the table holds for an admitted capability. */
  function AdmittedEntry(
    kept: Admissions, fingerprint: Fingerprint, reservation: nat, capabilityId: string, expiresAt: int): Stored
  {
    if capabilityId !in kept then Stored(fingerprint, expiresAt, Pending(reservation))
    else if kept[capabilityId].state == Committed then kept[capabilityId].(expiresAt := expiresAt)
    else kept[capabilityId]
  }

  function AdmitTable(
    admissions: Admissions, now: int, fingerprint: Fingerprint, reservation: nat, capabilityId: string,
    expiresAt: int): Admissions
  {
    var kept := Purged(admissions, now);
    if AdmitOutcome(kept, fingerprint, reservation, capabilityId).Ok?
    then kept[capabilityId := AdmittedEntry(kept, fingerprint, reservation, capabilityId, expiresAt)]
    else kept
  }

  function AdmitPending(
    pending: Option<string>, admissions: Admissions, now: int, fingerprint: Fingerprint, reservation: nat,
    capabilityId: string): Option<string>
  {
    var kept := Purged(admissions, now);
    if AdmitOutcome(kept, fingerprint, reservation, capabilityId).Ok? && capabilityId !in kept
    then Some(capabilityId) else pending
  }

  predicate OwnsPending(admissions: Admissions, pending: Option<string>, reservation: nat) {
    pending.Some? && pending.value in admissions && admissions[pending.value].state == Pending(reservation)
  }

  function CommitTable(admissions: Admissions, pending: Option<string>, reservation: nat): Admissions {
    if OwnsPending(admissions, pending, reservation)
    then admissions[pending.value := admissions[pending.value].(state := Committed)] else admissions
  }

  function RollbackTable(admissions: Admissions, pending: Option<string>, reservation: nat): Admissions {
    if OwnsPending(admissions, pending, reservation) then admissions - {pending.value} else admissions
  }

  /** A capability is admitted when it has no unexpired entry and the table has room, or when its unexpired entry is
      committed to the same carrier or is this very reservation; a foreign entry makes it a replay. */
  lemma AdmissionExactly(
    admissions: Admissions, now: int, fingerprint: Fingerprint, reservation: nat, capabilityId: string)
    ensures
      var live := capabilityId in admissions && admissions[capabilityId].expiresAt > now;
      var own := live && admissions[capabilityId].fingerprint == fingerprint
                 && (admissions[capabilityId].state == Committed || admissions[capabilityId].state == Pending(reservation));
      var full := |set c | c in admissions && admissions[c].expiresAt > now| >= MAX_ACTIVE_SUBSCRIPTIONS;
      var outcome := AdmitOutcome(Purged(admissions, now), fingerprint, reservation, capabilityId);
      && (outcome.Ok? <==> own || (!live && !full))
      && (outcome == Err(Replay) <==> live && !own)
      && (outcome == Err(AtCapacity) <==> !live && full)
  {
    assert Purged(admissions, now).Keys == set c | c in admissions && admissions[c].expiresAt > now;
    assert |Purged(admissions, now)| == |Purged(admissions, now).Keys|;
  }

  /** What the table holds after a check: the unexpired entries, and for an admitted capability its reservation, or the
      carrier's own entry with the new expiry if it was committed. */
  lemma AdmittedTableExactly(
    admissions: Admissions, now: int, fingerprint: Fingerprint, reservation: nat, capabilityId: string, expiresAt: int,
    c: string)
    ensures
      var table := AdmitTable(admissions, now, fingerprint, reservation, capabilityId, expiresAt);
      var admitted := AdmitOutcome(Purged(admissions, now), fingerprint, reservation, capabilityId).Ok?;
      var live := c in admissions && admissions[c].expiresAt > now;
      && (c in table <==> live || (c == capabilityId && admitted))
      && (live && !(c == capabilityId && admitted) ==> table[c] == admissions[c])
      && (c == capabilityId && admitted && !live ==> table[c] == Stored(fingerprint, expiresAt, Pending(reservation)))
      && (c == capabilityId && admitted && live ==>
            table[c] == Stored(fingerprint, if admissions[c].state == Committed then expiresAt else admissions[c].expiresAt,
                               admissions[c].state))
  {}

  /** A rollback never removes a committed entry, nor a reservation made by anyone else. */
  lemma RollbackRemovesOnlyOwnReservation(
    admissions: Admissions, pending: Option<string>, reservation: nat, capabilityId: string)
    requires capabilityId in admissions && admissions[capabilityId].state != Pending(reservation)
    ensures capabilityId in RollbackTable(admissions, pending, reservation)
    ensures RollbackTable(admissions, pending, reservation)[capabilityId] == admissions[capabilityId]
  {}

  /** Reserving a vacant capability and rolling back leaves exactly the unexpired entries. */
  lemma RollbackUndoesReservation(
    admissions: Admissions, now: int, fingerprint: Fingerprint, reservation: nat, capabilityId: string, expiresAt: int)
    requires capabilityId !in Purged(admissions, now)
    ensures
      var pending := AdmitPending(None, admissions, now, fingerprint, reservation, capabilityId);
      var table := AdmitTable(admissions, now, fingerprint, reservation, capabilityId, expiresAt);
      RollbackTable(table, pending, reservation) == Purged(admissions, now)
  {
    var kept := Purged(admissions, now);
    var entry := AdmittedEntry(kept, fingerprint, reservation, capabilityId, expiresAt);
    assert kept[capabilityId := entry] - {capabilityId} == kept;
  }

  // ---------------------------------------------------------------- the guard over the shared table

  predicate ReservationsBelow(admissions: Admissions, next: nat) {
    forall c <- admissions :: admissions[c].state.Pending? ==> admissions[c].state.reservation < next
  }

  class SharedAdmissions {
    var entries: Admissions
    var nextReservationId: nat

    predicate Valid()
      reads this
    {
      ReservationsBelow(entries, nextReservationId)
    }

    constructor ()
      ensures entries == map[] && nextReservationId == 1 && Valid()
    {
      entries, nextReservationId := map[], 1;
    }
  }

  class SubscribeAdmissionGuard {
    const table: SharedAdmissions
    const fingerprint: Fingerprint
    const now: int
    const reservationId: nat
    var pendingCapabilityId: Option<string>

    constructor (table: SharedAdmissions, fingerprint: Fingerprint, now: int, reservationId: nat)
      ensures this.table == table && this.fingerprint == fingerprint
      ensures this.now == now && this.reservationId == reservationId && pendingCapabilityId == None
    {
      this.table, this.fingerprint, this.now, this.reservationId := table, fingerprint, now, reservationId;
      pendingCapabilityId := None;
    }

    method CheckAndAdmit(capabilityId: string, expiresAt: int) returns (r: Result<(), Rejection>)
      modifies this`pendingCapabilityId, table`entries
      ensures r == AdmitOutcome(Purged(old(table.entries), now), fingerprint, reservationId, capabilityId)
      ensures table.entries
           == AdmitTable(old(table.entries), now, fingerprint, reservationId, capabilityId, expiresAt)
      ensures pendingCapabilityId
           == AdmitPending(old(pendingCapabilityId), old(table.entries), now, fingerprint, reservationId, capabilityId)
    {
      table.entries := map c | c in table.entries && table.entries[c].expiresAt > now :: table.entries[c];
      if capabilityId !in table.entries && |table.entries| >= MAX_ACTIVE_SUBSCRIPTIONS {
        return Err(AtCapacity);
      }
      if capabilityId !in table.entries {
        pendingCapabilityId := Some(capabilityId);
        table.entries := table.entries[capabilityId := Stored(fingerprint, expiresAt, Pending(reservationId))];
        return Ok(());
      }
      var entry := table.entries[capabilityId];
      if entry.fingerprint == fingerprint && entry.state == Committed {
        table.entries := table.entries[capabilityId := entry.(expiresAt := expiresAt)];
        return Ok(());
      }
      if entry.fingerprint == fingerprint && entry.state == Pending(reservationId) {
        assert table.entries[capabilityId := entry] == table.entries;
        return Ok(());
      }
      return Err(Replay);
    }

    method Commit()
      modifies this`pendingCapabilityId, table`entries
      ensures pendingCapabilityId == None
      ensures table.entries == CommitTable(old(table.entries), old(pendingCapabilityId), reservationId)
    {
      if pendingCapabilityId.None? {
        return;
      }
      var capabilityId := pendingCapabilityId.value;
      pendingCapabilityId := None;
      if capabilityId in table.entries {
        var stored := table.entries[capabilityId];
        if stored.state == Pending(reservationId) {
          table.entries := table.entries[capabilityId := stored.(state := Committed)];
        }
      }
    }

    method Rollback()
      modifies this`pendingCapabilityId, table`entries
      ensures pendingCapabilityId == None
      ensures table.entries == RollbackTable(old(table.entries), old(pendingCapabilityId), reservationId)
    {
      if pendingCapabilityId.None? {
        return;
      }
      var capabilityId := pendingCapabilityId.value;
      pendingCapabilityId := None;
      var ownsPending := capabilityId in table.entries
        && table.entries[capabilityId].state == Pending(reservationId);
      if ownsPending {
        table.entries := table.entries - {capabilityId};
      }
    }
  }

  // ---------------------------------------------------------------- one authorization, start to finish

  datatype Request = Request(key: BindingKey, connectionId: string, clientKeyThumbprint: Option<string>, now: int)

  datatype Verified = Verified(
    capabilityId: string,
    sourceIds: seq<string>,
    audienceIds: seq<string>,
    maxChannels: nat,
    maxBitrate: nat,
    maxDatagramBytes: nat,
    clientKeyThumbprint: Option<string>,
    expiresAt: int)

  /** The capability verifier: it refuses outright, or presents the signed claims to the guard; once
      admitted it may still refuse.  Success therefore implies that the guard admitted the claims. */
  datatype Verdict =
    | Refused(code: ErrorCode)
    | Signed(claims: Verified, afterAdmission: Result<(), ErrorCode>)

  function LeaseFor(registered: Registered, request: Request, verified: Verified): Lease {
    Lease(registered.binding, registered.revision, verified.capabilityId, request.connectionId,
          verified.sourceIds, verified.audienceIds, verified.maxChannels, verified.maxBitrate,
          verified.maxDatagramBytes, verified.expiresAt)
  }

  predicate ProofPresented(expected: Option<string>, presented: Option<string>) {
    expected.None? || expected == presented
  }

  predicate SameHolder(before: Stored, after: Stored) {
    after.fingerprint == before.fingerprint && after.state == before.state
  }

  /** No entry appeared, changed hands or changed state. */
  ghost predicate NothingGranted(before: Admissions, after: Admissions) {
    forall c <- after :: c in before && SameHolder(before[c], after[c])
  }

  lemma FailedAuthorizationGrantsNothing(
    admissions: Admissions, now: int, fingerprint: Fingerprint, reservation: nat, capabilityId: string, expiresAt: int)
    ensures
      var pending := AdmitPending(None, admissions, now, fingerprint, reservation, capabilityId);
      var table := AdmitTable(admissions, now, fingerprint, reservation, capabilityId, expiresAt);
      && NothingGranted(admissions, RollbackTable(table, pending, reservation))
      && (pending.None? ==> NothingGranted(admissions, table))
  {}

  lemma SuccessfulAuthorizationGrantsOne(
    admissions: Admissions, now: int, fingerprint: Fingerprint, reservation: nat, capabilityId: string, expiresAt: int)
    requires ReservationsBelow(admissions, reservation)
    requires AdmitOutcome(Purged(admissions, now), fingerprint, reservation, capabilityId).Ok?
    ensures
      var pending := AdmitPending(None, admissions, now, fingerprint, reservation, capabilityId);
      var table := AdmitTable(admissions, now, fingerprint, reservation, capabilityId, expiresAt);
      var committed := CommitTable(table, pending, reservation);
      && capabilityId in committed
      && committed[capabilityId] == Stored(fingerprint, expiresAt, Committed)
      && NothingGranted(admissions, committed - {capabilityId})
  {}

  method AuthorizeStrict(
    registry: CurrentSubscribeRegistry, table: SharedAdmissions, request: Request, verdict: Verdict)
    returns (r: Result<Lease, ErrorCode>)
    requires table.Valid()
    modifies table
    ensures table.Valid()
    ensures r.Err? ==> NothingGranted(old(table.entries), table.entries)
    ensures r.Ok? <==>
              && registry.State().Resolve(request.key).Ok?
              && verdict.Signed? && verdict.afterAdmission.Ok?
              && AdmitOutcome(Purged(old(table.entries), request.now), Fingerprint(request.key, request.connectionId),
                              old(table.nextReservationId), verdict.claims.capabilityId).Ok?
              && request.now < verdict.claims.expiresAt
              && ProofPresented(verdict.claims.clientKeyThumbprint, request.clientKeyThumbprint)
    ensures r.Ok? ==>
              && r.value.binding == registry.State().Resolve(request.key).value.binding
              && r.value.bindingRevision == registry.State().Resolve(request.key).value.revision
              && r.value.connectionId == request.connectionId
              && r.value.capabilityId == verdict.claims.capabilityId && r.value.expiresAt == verdict.claims.expiresAt
              && r.value.sourceIds == verdict.claims.sourceIds && r.value.audienceIds == verdict.claims.audienceIds
              && r.value.maxChannels == verdict.claims.maxChannels && r.value.maxBitrate == verdict.claims.maxBitrate
              && r.value.maxDatagramBytes == verdict.claims.maxDatagramBytes
    ensures r.Ok? ==>
              && r.value.capabilityId in table.entries
              && table.entries[r.value.capabilityId]
              == Stored(Fingerprint(request.key, request.connectionId), r.value.expiresAt, Committed)
              && NothingGranted(old(table.entries), table.entries - {r.value.capabilityId})
  {
    var resolved := registry.State().Resolve(request.key);
    if resolved.Err? {
      return Err(resolved.error);
    }
    var registered := resolved.value;
    ghost var before := table.entries;
    var reservationId := table.nextReservationId;
    table.nextReservationId := table.nextReservationId + 1;
    var guard := new SubscribeAdmissionGuard(
      table, Fingerprint(request.key, request.connectionId), request.now, reservationId);
    if verdict.Refused? {
      return Err(verdict.code);
    }
    var verified := verdict.claims;
    FailedAuthorizationGrantsNothing(
      before, request.now, guard.fingerprint, reservationId, verified.capabilityId, verified.expiresAt);
    var admission := guard.CheckAndAdmit(verified.capabilityId, verified.expiresAt);
    if admission.Err? {
      return Err(CapabilityReplay);
    }
    if verdict.afterAdmission.Err? {
      guard.Rollback();
      return Err(verdict.afterAdmission.error);
    }
    if request.now >= verified.expiresAt {
      guard.Rollback();
      return Err(CapabilityExpired);
    }
    if verified.clientKeyThumbprint.Some? && request.clientKeyThumbprint.None? {
      guard.Rollback();
      return Err(ProofRequired);
    }
    if verified.clientKeyThumbprint.Some? && verified.clientKeyThumbprint != request.clientKeyThumbprint {
      guard.Rollback();
      return Err(ProofMismatch);
    }
    SuccessfulAuthorizationGrantsOne(
      before, request.now, guard.fingerprint, reservationId, verified.capabilityId, verified.expiresAt);
    guard.Commit();
    return Ok(LeaseFor(registered, request, verified));
  }
}
