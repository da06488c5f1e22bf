/** Capability exclusivity, read off the log of check-and-admit regions.  A carrier's entry can leave the
    table only by a purge, so a second carrier gets in only after some region's clock has reached an expiry
    that the first carrier's entry carried. */
module SubscribeExclusivity {
  import opened Prelude
  import opened SubscribeRegistry
  import opened AdmissionTable
  import opened SubscribeGate

  // ---------------------------------------------------------------- the log

  /** One check-and-admit region: its clock, and the capability and expiry its claims carry. */
  datatype Region = Region(now: int, capabilityId: string, expiresAt: int)

  function RegionOf(g: Gate, op: GateOp): seq<Region> {
    if op.Check? && op.reservation in g.attempts
    then [Region(g.attempts[op.reservation].now, op.capabilityId, op.expiresAt)]
    else []
  }

  /** The regions among the first `n` steps, in order. */
  function RegionLog(states: seq<Gate>, ops: seq<GateOp>, n: nat): seq<Region>
    requires |states| == |ops| + 1 && n <= |ops|
  {
    if n == 0 then [] else RegionLog(states, ops, n - 1) + RegionOf(states[n - 1], ops[n - 1])
  }

  /** The region names the capability and could lead to a lease of it. */
  predicate Leasable(x: Region, c: string) {
    x.capabilityId == c && x.now < x.expiresAt
  }

  /** An entry leased at region `i` may carry the expiry of the later region `m`. */
  predicate ArmedAt(log: seq<Region>, c: string, expiry: int, i: nat, m: nat) {
    i <= m < |log| && Leasable(log[i], c) && log[m].capabilityId == c && log[m].expiresAt == expiry
  }

  ghost predicate Armed(log: seq<Region>, c: string, expiry: int) {
    exists i, m :: ArmedAt(log, c, expiry, i, m)
  }

  /** The clock of region `j` has reached that expiry. */
  predicate LapsedAt(log: seq<Region>, c: string, i: nat, m: nat, j: nat) {
    i <= m < j < |log| && Leasable(log[i], c) && log[m].capabilityId == c && log[m].expiresAt <= log[j].now
  }

  ghost predicate Lapsed(log: seq<Region>, c: string) {
    exists i, m, j :: LapsedAt(log, c, i, m, j)
  }

  /** And a region no earlier than `j` can lease the capability again. */
  predicate ReopensAt(log: seq<Region>, c: string, i: nat, m: nat, j: nat, k: nat) {
    && i <= m < j <= k < |log|
    && Leasable(log[i], c)
    && log[m].capabilityId == c && log[m].expiresAt <= log[j].now
    && Leasable(log[k], c)
  }

  ghost predicate Reopens(log: seq<Region>, c: string) {
    exists i, m, j, k :: ReopensAt(log, c, i, m, j, k)
  }

  lemma LogGrows(log: seq<Region>, more: seq<Region>, c: string)
    ensures Lapsed(log, c) ==> Lapsed(log + more, c)
    ensures Reopens(log, c) ==> Reopens(log + more, c)
    ensures forall expiry :: Armed(log, c, expiry) ==> Armed(log + more, c, expiry)
  {
    var longer := log + more;
    if i, m, j :| LapsedAt(log, c, i, m, j) {
      assert LapsedAt(longer, c, i, m, j);
    }
    if i, m, j, k :| ReopensAt(log, c, i, m, j, k) {
      assert ReopensAt(longer, c, i, m, j, k);
    }
    forall expiry | Armed(log, c, expiry)
      ensures Armed(longer, c, expiry)
    {
      var i, m :| ArmedAt(log, c, expiry, i, m);
      assert ArmedAt(longer, c, expiry, i, m);
    }
  }

  /** What one more region does to an armed expiry. */
  lemma NextRegion(log: seq<Region>, x: Region, c: string)
    ensures forall expiry :: Armed(log, c, expiry) && expiry <= x.now ==> Lapsed(log + [x], c)
    ensures x.capabilityId == c ==> forall expiry :: Armed(log, c, expiry) ==> Armed(log + [x], c, x.expiresAt)
    ensures Leasable(x, c) ==> Armed(log + [x], c, x.expiresAt)
    ensures Leasable(x, c) && Lapsed(log + [x], c) ==> Reopens(log + [x], c)
  {
    var longer, last := log + [x], |log|;
    assert longer[last] == x;
    forall expiry | Armed(log, c, expiry)
      ensures expiry <= x.now ==> Lapsed(longer, c)
      ensures x.capabilityId == c ==> Armed(longer, c, x.expiresAt)
    {
      var i, m :| ArmedAt(log, c, expiry, i, m);
      if expiry <= x.now {
        assert LapsedAt(longer, c, i, m, last);
      }
      if x.capabilityId == c {
        assert ArmedAt(longer, c, x.expiresAt, i, last);
      }
    }
    if Leasable(x, c) {
      assert ArmedAt(longer, c, x.expiresAt, last, last);
      if i, m, j :| LapsedAt(longer, c, i, m, j) {
        assert ReopensAt(longer, c, i, m, j, last);
      }
    }
  }

  // ---------------------------------------------------------------- the invariant

  /** Attempt or lease `r` may use, or does use, capability `c` on behalf of `fingerprint`. */
  ghost predicate Claims(g: Gate, r: nat, c: string, fingerprint: Fingerprint) {
    || (&& r in g.attempts && c in g.attempts[r].admitted
        && g.attempts[r].now < g.attempts[r].admitted[c] && g.attempts[r].fingerprint == fingerprint)
    || exists i :: 0 <= i < |g.leases| && g.leases[i] == Issued(r, fingerprint, g.leases[i].lease)
                   && g.leases[i].lease.capabilityId == c
  }

  /** The table holds the capability for this carrier, and nobody else can take the entry away. */
  ghost predicate Reserved(g: Gate, r: nat, c: string, fingerprint: Fingerprint) {
    c in g.admissions && OwnEntry(g.admissions[c], fingerprint, r)
  }

  ghost predicate Agreement(g: Gate, c: string) {
    forall r, q, f, h :: Claims(g, r, c, f) && Claims(g, q, c, h) ==> f == h
  }

  ghost predicate Backed(g: Gate, log: seq<Region>, r: nat, c: string, fingerprint: Fingerprint) {
    Reserved(g, r, c, fingerprint) && Armed(log, c, g.admissions[c].expiresAt)
  }

  /** Every claim is backed by the table, or the log shows how its entry could have lapsed. */
  ghost predicate ClaimsBacked(g: Gate, log: seq<Region>, c: string) {
    forall r, f :: Claims(g, r, c, f) ==> Backed(g, log, r, c, f) || Lapsed(log, c)
  }

  /** A pending entry of a running attempt carries an expiry that this attempt brought. */
  ghost predicate PendingSource(g: Gate, log: seq<Region>, c: string) {
    c in g.admissions && g.admissions[c].state.Pending? && g.admissions[c].state.reservation in g.attempts ==>
      Region(g.attempts[g.admissions[c].state.reservation].now, c, g.admissions[c].expiresAt) in log
  }

  ghost predicate GateInv(g: Gate, log: seq<Region>, c: string) {
    && Reservations(g)
    && PendingSource(g, log, c)
    && ClaimsBacked(g, log, c)
    && (Reopens(log, c) || Agreement(g, c))
  }

  // ---------------------------------------------------------------- the check-and-admit region

  /** A check adds at most the claim of its own attempt on the capability it names. */
  lemma CheckClaims(g: Gate, op: GateOp, g': Gate, q: nat, c: string, f: Fingerprint)
    requires op.Check? && GateStep(g, op, g') && Claims(g', q, c, f)
    ensures Claims(g, q, c, f) || AdmitsNow(g, op, q, c, f)
  {
    assert g'.leases == g.leases;
  }

  predicate AdmitsNow(g: Gate, op: GateOp, q: nat, c: string, f: Fingerprint) {
    && op.Check? && q == op.reservation && c == op.capabilityId && q in g.attempts
    && f == g.attempts[q].fingerprint && g.attempts[q].now < op.expiresAt
    && AdmitOutcome(Purged(g.admissions, g.attempts[q].now), f, q, c).Ok?
  }

  /** What one region does to the entry of a capability. */
  lemma EntryAfterCheck(g: Gate, op: GateOp, g': Gate, c: string)
    requires op.Check? && GateStep(g, op, g')
    ensures
      var a := g.attempts[op.reservation];
      && (c in g.admissions && g.admissions[c].expiresAt > a.now ==>
            && c in g'.admissions
            && g'.admissions[c].fingerprint == g.admissions[c].fingerprint
            && g'.admissions[c].state == g.admissions[c].state
            && (|| g'.admissions[c].expiresAt == g.admissions[c].expiresAt
                || (op.capabilityId == c && g'.admissions[c].expiresAt == op.expiresAt)))
      && (c in g'.admissions && (c !in g.admissions || g.admissions[c].expiresAt <= a.now) ==>
            && op.capabilityId == c
            && g'.admissions[c] == Stored(a.fingerprint, op.expiresAt, Pending(op.reservation)))
  {}

  lemma OldClaimAfterCheck(g: Gate, log: seq<Region>, op: GateOp, g': Gate, q: nat, c: string, f: Fingerprint)
    requires op.Check? && GateStep(g, op, g')
    requires Backed(g, log, q, c, f) || Lapsed(log, c)
    ensures Backed(g', log + RegionOf(g, op), q, c, f) || Lapsed(log + RegionOf(g, op), c)
  {
    hide Armed, Lapsed, AdmitTable, AttemptAfterCheck;
    var x := Region(g.attempts[op.reservation].now, op.capabilityId, op.expiresAt);
    LogGrows(log, [x], c);
    NextRegion(log, x, c);
    if Backed(g, log, q, c, f) {
      EntryAfterCheck(g, op, g', c);
    }
  }

  lemma NewClaimAfterCheck(g: Gate, log: seq<Region>, op: GateOp, g': Gate, q: nat, c: string, f: Fingerprint)
    requires op.Check? && GateStep(g, op, g') && AdmitsNow(g, op, q, c, f)
    requires PendingSource(g, log, c)
    ensures Backed(g', log + RegionOf(g, op), q, c, f)
  {
    hide Armed, Lapsed;
    var x := Region(g.attempts[op.reservation].now, op.capabilityId, op.expiresAt);
    NextRegion(log, x, c);
    var now := g.attempts[q].now;
    if c in g.admissions && g.admissions[c].expiresAt > now && g.admissions[c].state == Pending(q) {
      SourceArms(log, Region(now, c, g.admissions[c].expiresAt), c);
      LogGrows(log, [x], c);
    }
  }

  lemma SourceArms(log: seq<Region>, x: Region, c: string)
    requires x in log && Leasable(x, c)
    ensures Armed(log, c, x.expiresAt)
  {
    var i :| 0 <= i < |log| && log[i] == x;
    assert ArmedAt(log, c, x.expiresAt, i, i);
  }

  /** An earlier claim and a newly admitted one agree, or the log reopens the capability. */
  lemma NewClaimAgrees(g: Gate, log: seq<Region>, op: GateOp, q: nat, r: nat, c: string, f: Fingerprint, h: Fingerprint)
    requires op.Check? && AdmitsNow(g, op, q, c, f)
    requires Backed(g, log, r, c, h) || Lapsed(log, c)
    ensures f == h || Reopens(log + RegionOf(g, op), c)
  {
    hide Armed, Lapsed, Reopens;
    var x := Region(g.attempts[op.reservation].now, op.capabilityId, op.expiresAt);
    LogGrows(log, [x], c);
    NextRegion(log, x, c);
  }

  lemma SourceAfterCheck(g: Gate, log: seq<Region>, op: GateOp, g': Gate, c: string)
    requires op.Check? && GateStep(g, op, g') && PendingSource(g, log, c)
    ensures PendingSource(g', log + RegionOf(g, op), c)
  {
    hide AdmitTable, AttemptAfterCheck;
    EntryAfterCheck(g, op, g', c);
    NowAfterCheck(g, op, g');
    if c in g.admissions && g.admissions[c].state.Pending?
       && g.admissions[c].expiresAt > g.attempts[op.reservation].now {
      PendingIsNotRenewed(g, op, g', c);
    }
  }

  lemma NowAfterCheck(g: Gate, op: GateOp, g': Gate)
    requires op.Check? && GateStep(g, op, g')
    ensures g'.attempts.Keys == g.attempts.Keys && forall r <- g.attempts :: g'.attempts[r].now == g.attempts[r].now
  {}

  lemma PendingIsNotRenewed(g: Gate, op: GateOp, g': Gate, c: string)
    requires op.Check? && GateStep(g, op, g') && c in g.admissions
    requires g.admissions[c].expiresAt > g.attempts[op.reservation].now && g.admissions[c].state.Pending?
    ensures c in g'.admissions && g'.admissions[c] == g.admissions[c]
  {}

  lemma CheckKeepsInv(g: Gate, log: seq<Region>, op: GateOp, g': Gate, c: string)
    requires GateInv(g, log, c) && op.Check? && GateStep(g, op, g')
    ensures GateInv(g', log + RegionOf(g, op), c)
  {
    StepKeepsReservations(g, op, g');
    SourceAfterCheck(g, log, op, g', c);
    var longer := log + RegionOf(g, op);
    LogGrows(log, RegionOf(g, op), c);
    hide GateStep, Claims, Backed, Lapsed, Reopens, Reservations, PendingSource, AdmitsNow;
    forall q, f | Claims(g', q, c, f)
      ensures Backed(g', longer, q, c, f) || Lapsed(longer, c)
    {
      CheckClaims(g, op, g', q, c, f);
      if Claims(g, q, c, f) {
        OldClaimAfterCheck(g, log, op, g', q, c, f);
      } else {
        NewClaimAfterCheck(g, log, op, g', q, c, f);
      }
    }
    if !Reopens(longer, c) {
      CheckKeepsAgreement(g, log, op, g', c);
    }
  }

  lemma CheckKeepsAgreement(g: Gate, log: seq<Region>, op: GateOp, g': Gate, c: string)
    requires ClaimsBacked(g, log, c) && Agreement(g, c) && op.Check? && GateStep(g, op, g')
    requires !Reopens(log + RegionOf(g, op), c)
    ensures Agreement(g', c)
  {
    hide GateStep, Claims, Backed, Lapsed, Reopens;
    forall r, q, f, h | Claims(g', r, c, f) && Claims(g', q, c, h)
      ensures f == h
    {
      CheckClaims(g, op, g', r, c, f);
      CheckClaims(g, op, g', q, c, h);
      if AdmitsNow(g, op, r, c, f) && Claims(g, q, c, h) {
        NewClaimAgrees(g, log, op, r, q, c, f, h);
      } else if AdmitsNow(g, op, q, c, h) && Claims(g, r, c, f) {
        NewClaimAgrees(g, log, op, q, r, c, h, f);
      }
    }
  }

  // ---------------------------------------------------------------- every other step

  /** No other step adds a claim or takes the entry of one away. */
  lemma OtherStepClaims(g: Gate, op: GateOp, g': Gate, q: nat, c: string, f: Fingerprint)
    requires Reservations(g) && !op.Check? && GateStep(g, op, g') && Claims(g', q, c, f)
    ensures Claims(g, q, c, f)
    ensures Reserved(g, q, c, f) ==> Reserved(g', q, c, f) && g'.admissions[c].expiresAt == g.admissions[c].expiresAt
  {
    if q !in g'.attempts || c !in g'.attempts[q].admitted {
      var i :| 0 <= i < |g'.leases| && g'.leases[i] == Issued(q, f, g'.leases[i].lease)
               && g'.leases[i].lease.capabilityId == c;
      if i < |g.leases| {
        assert g.leases[i] == g'.leases[i];
      }
    }
  }

  lemma OtherStepKeepsSource(g: Gate, log: seq<Region>, op: GateOp, g': Gate, c: string)
    requires Reservations(g) && !op.Check? && GateStep(g, op, g') && PendingSource(g, log, c)
    ensures PendingSource(g', log, c)
  {}

  lemma OtherStepKeepsInv(g: Gate, log: seq<Region>, op: GateOp, g': Gate, c: string)
    requires GateInv(g, log, c) && !op.Check? && GateStep(g, op, g')
    ensures GateInv(g', log, c)
  {
    StepKeepsReservations(g, op, g');
    OtherStepKeepsSource(g, log, op, g', c);
    hide GateStep, Claims, Reserved, Lapsed, Reopens, Armed, PendingSource, Reservations;
    forall q, f | Claims(g', q, c, f)
      ensures Claims(g, q, c, f)
      ensures Backed(g', log, q, c, f) || Lapsed(log, c)
    {
      OtherStepClaims(g, op, g', q, c, f);
    }
  }

  /** In every interleaving: each claim on a capability is backed by a table entry nobody else can take away,
      or the log shows how it lapsed; and all claims agree unless the log reopens the capability. */
  lemma {:induction false} RunKeepsInv(states: seq<Gate>, ops: seq<GateOp>, n: nat, c: string)
    requires IsGateRun(states, ops) && n <= |ops|
    ensures GateInv(states[n], RegionLog(states, ops, n), c)
  {
    if n > 0 {
      RunKeepsInv(states, ops, n - 1, c);
      assert GateStepAt(states, ops, n - 1);
      var g, op, log := states[n - 1], ops[n - 1], RegionLog(states, ops, n - 1);
      hide GateInv, GateStep;
      if op.Check? {
        CheckKeepsInv(g, log, op, states[n], c);
      } else {
        OtherStepKeepsInv(g, log, op, states[n], c);
        assert log + RegionOf(g, op) == log;
      }
    }
  }

  // ---------------------------------------------------------------- two carriers of one capability

  /** Same endpoint, media class, binding generation and carrier connection. */
  predicate SameCarrier(a: Lease, b: Lease) {
    a.binding.Key() == b.binding.Key() && a.connectionId == b.connectionId
  }

  /** All leases ever issued for the capability belong to one carrier. */
  ghost predicate Exclusive(g: Gate, c: string) {
    forall i, j :: 0 <= i < |g.leases| && 0 <= j < |g.leases|
                   && g.leases[i].lease.capabilityId == c && g.leases[j].lease.capabilityId == c
                   ==> SameCarrier(g.leases[i].lease, g.leases[j].lease)
  }

  /** Two carriers get one capability only if the log reopens it. */
  lemma ExclusiveUnlessReopened(states: seq<Gate>, ops: seq<GateOp>, c: string)
    requires IsGateRun(states, ops) && !Reopens(RegionLog(states, ops, |ops|), c)
    ensures Exclusive(states[|ops|], c)
  {
    RunKeepsInv(states, ops, |ops|, c);
    var g := states[|ops|];
    forall i, j | 0 <= i < |g.leases| && 0 <= j < |g.leases|
                  && g.leases[i].lease.capabilityId == c && g.leases[j].lease.capabilityId == c
      ensures SameCarrier(g.leases[i].lease, g.leases[j].lease)
    {
      var _ := LeaseOrigin(states, ops, |ops|, i);
      var _ := LeaseOrigin(states, ops, |ops|, j);
      assert Claims(g, g.leases[i].reservation, c, g.leases[i].fingerprint);
      assert Claims(g, g.leases[j].reservation, c, g.leases[j].fingerprint);
    }
  }
}
