/** The exact condition for capability exclusivity: which logs of check-and-admit regions belong to a run
    that leases one capability to two carriers. */
module ExclusivityRuns {
  import opened Collections
  import opened Prelude
  import opened SubscribeRegistry
  import opened RegistryRuns
  import opened AdmissionTable
  import opened SubscribeGate
  import opened SubscribeExclusivity

  // ---------------------------------------------------------------- one authorization at a time

  const LISTENER: Binding :=
    Binding("ten", "ses", 1, 1, 1, 1, None, 1, 1, "par", "ep", Source, "edge", 0)

  function OneBinding(): Registry {
    Registry(100, 1, 0, 0, true, map[LISTENER.Key() := Registered(LISTENER, 1, true)])
  }

  lemma OneBindingIsValid()
    ensures OneBinding().Valid()
  {}

  function ClaimsFor(x: Region): Verified {
    Verified(x.capabilityId, [], [], 0, 0, 0, None, x.expiresAt)
  }

  function Carrier(connectionId: string): Fingerprint {
    Fingerprint(LISTENER.Key(), connectionId)
  }

  function NewAttempt(connectionId: string, now: int): Attempt {
    Attempt(Carrier(connectionId), Registered(LISTENER, 1, true), now, map[], None)
  }

  function Started(g: Gate, connectionId: string, now: int): Gate {
    g.(nextReservation := g.nextReservation + 1,
       attempts := g.attempts[g.nextReservation := NewAttempt(connectionId, now)])
  }

  /** A gate between two authorizations. */
  ghost predicate Quiet(g: Gate) {
    && g.registry == OneBinding() && g.attempts == map[]
    && |g.admissions| <= 1 && forall c <- g.admissions :: g.admissions[c].state == Committed
  }

  ghost predicate IsVisit(g: Gate, x: Region, connectionId: string, states: seq<Gate>, ops: seq<GateOp>) {
    && |states| == 4 && |ops| == 3 && states[0] == g && IsSegment(states, ops)
    && ops[0] == Begin(LISTENER.Key(), connectionId, x.now)
    && ops[1] == Check(g.nextReservation, x.capabilityId, x.expiresAt)
    && !ops[2].Check?
    && g.nextReservation in states[1].attempts && states[1].attempts[g.nextReservation].now == x.now
  }

  lemma VisitLog(g: Gate, x: Region, connectionId: string, states: seq<Gate>, ops: seq<GateOp>)
    requires IsVisit(g, x, connectionId, states, ops)
    ensures RegionLog(states, ops, 3) == [x]
  {
    hide IsSegment;
    assert RegionLog(states, ops, 1) == [];
    assert RegionLog(states, ops, 2) == [x];
  }

  lemma TableSize(table: Admissions, c: string, entry: Stored, now: int)
    ensures |Purged(table, now)| <= |table|
    ensures |table| <= 1 && c in table ==> table[c := entry] == map[c := entry] && |table[c := entry]| == 1
  {
    assert Purged(table, now).Keys <= table.Keys;
    assert |Purged(table, now)| == |Purged(table, now).Keys| && |table| == |table.Keys|;
    SubsetSize(Purged(table, now).Keys, table.Keys);
    if |table| <= 1 && c in table {
      assert |table.Keys - {c}| == |table.Keys| - 1;
      assert table.Keys == {c};
      assert table[c := entry] == map[c := entry];
    }
  }

  /** Begin, reserve a vacant capability and issue, as three consecutive steps. */
  lemma LeaseVisit(g: Gate, x: Region, connectionId: string) returns (states: seq<Gate>, ops: seq<GateOp>)
    requires Quiet(g) && x.now < x.expiresAt && Purged(g.admissions, x.now) == map[]
    ensures IsVisit(g, x, connectionId, states, ops)
    ensures
      var lease := LeaseOf(NewAttempt(connectionId, x.now), ClaimsFor(x));
      states[3] == Gate(g.registry, map[x.capabilityId := Stored(Carrier(connectionId), x.expiresAt, Committed)],
                        g.nextReservation + 1, map[],
                        g.leases + [Issued(g.nextReservation, Carrier(connectionId), lease)])
    ensures Quiet(states[3])
  {
    var r, c, carrier := g.nextReservation, x.capabilityId, Carrier(connectionId);
    var begun := Started(g, connectionId, x.now);
    var a := begun.attempts[r];
    var table := map[c := Stored(carrier, x.expiresAt, Pending(r))];
    var admitted := a.(admitted := map[c := x.expiresAt], pending := Some(c));
    var checked := begun.(admissions := table, attempts := begun.attempts[r := admitted]);
    var issued := Gate(g.registry, map[c := Stored(carrier, x.expiresAt, Committed)], r + 1, map[],
                       g.leases + [Issued(r, carrier, LeaseOf(a, ClaimsFor(x)))]);
    states := [g, begun, checked, issued];
    ops := [Begin(LISTENER.Key(), connectionId, x.now), Check(r, c, x.expiresAt), Issue(r, ClaimsFor(x))];
    assert GateStepAt(states, ops, 0);
    assert GateStepAt(states, ops, 1);
    assert checked.attempts - {r} == map[];
    assert GateStepAt(states, ops, 2);
  }

  /** What an authorization that gives up after its check leaves in a quiet table: the unexpired entry, renewed
      if it was the visitor's own. */
  function Visited(table: Admissions, x: Region, connectionId: string): Admissions {
    var kept := Purged(table, x.now);
    if x.capabilityId in kept && kept[x.capabilityId].fingerprint == Carrier(connectionId)
    then kept[x.capabilityId := kept[x.capabilityId].(expiresAt := x.expiresAt)] else kept
  }

  /** Rolling the visitor's own reservation back leaves what was there, purged and perhaps renewed. */
  lemma VisitedTable(g: Gate, x: Region, connectionId: string)
    requires Quiet(g)
    ensures
      var r, carrier := g.nextReservation, Carrier(connectionId);
      var pending := AdmitPending(None, g.admissions, x.now, carrier, r, x.capabilityId);
      var table := AdmitTable(g.admissions, x.now, carrier, r, x.capabilityId, x.expiresAt);
      RollbackTable(table, pending, r) == Visited(g.admissions, x, connectionId)
    ensures
      var after := Visited(g.admissions, x, connectionId);
      |after| <= 1 && forall c <- after :: after[c].state == Committed
  {
    var kept, c := Purged(g.admissions, x.now), x.capabilityId;
    var entry := Stored(Carrier(connectionId), x.expiresAt, Committed);
    TableSize(g.admissions, c, entry, x.now);
    if c in kept {
      TableSize(kept, c, entry, x.now);
    } else {
      RollbackUndoesReservation(g.admissions, x.now, Carrier(connectionId), g.nextReservation, c, x.expiresAt);
    }
  }

  /** Begin, check and give up, as three consecutive steps. */
  lemma AbandonVisit(g: Gate, x: Region, connectionId: string) returns (states: seq<Gate>, ops: seq<GateOp>)
    requires Quiet(g)
    ensures IsVisit(g, x, connectionId, states, ops)
    ensures states[3] == g.(admissions := Visited(g.admissions, x, connectionId),
                            nextReservation := g.nextReservation + 1)
    ensures Quiet(states[3])
  {
    hide AdmitTable, RollbackTable, Visited, AdmitOutcome;
    var r, c := g.nextReservation, x.capabilityId;
    VisitedTable(g, x, connectionId);
    var begun := Started(g, connectionId, x.now);
    var table := AdmitTable(g.admissions, x.now, Carrier(connectionId), r, c, x.expiresAt);
    var checked := begun.(admissions := table,
                          attempts := begun.attempts[r := AttemptAfterCheck(begun, r, c, x.expiresAt)]);
    var after := g.(admissions := Visited(g.admissions, x, connectionId), nextReservation := r + 1);
    assert checked.attempts - {r} == map[];
    states := [g, begun, checked, after];
    ops := [Begin(LISTENER.Key(), connectionId, x.now), Check(r, c, x.expiresAt), Abandon(r)];
    assert GateStepAt(states, ops, 0);
    assert GateStepAt(states, ops, 1);
    assert GateStepAt(states, ops, 2);
  }

  // ---------------------------------------------------------------- runs one after the other

  lemma Join(a: seq<Gate>, aOps: seq<GateOp>, b: seq<Gate>, bOps: seq<GateOp>)
    requires IsSegment(a, aOps) && IsSegment(b, bOps) && a[|a| - 1] == b[0]
    ensures IsSegment(a + b[1..], aOps + bOps)
  {
    hide GateStep;
    var states, ops := a + b[1..], aOps + bOps;
    forall i | 0 <= i < |ops|
      ensures GateStepAt(states, ops, i)
    {
      if i < |aOps| {
        assert GateStepAt(a, aOps, i);
        assert states[i] == a[i] && states[i + 1] == a[i + 1] && ops[i] == aOps[i];
      } else {
        assert GateStepAt(b, bOps, i - |aOps|);
        assert states[i] == b[i - |aOps|] && states[i + 1] == b[i - |aOps| + 1] && ops[i] == bOps[i - |aOps|];
      }
    }
  }

  lemma {:induction false} JoinLog(a: seq<Gate>, aOps: seq<GateOp>, b: seq<Gate>, bOps: seq<GateOp>, n: nat)
    requires |a| == |aOps| + 1 && |b| == |bOps| + 1 && a[|a| - 1] == b[0] && n <= |bOps|
    ensures RegionLog(a + b[1..], aOps + bOps, |aOps| + n) == RegionLog(a, aOps, |aOps|) + RegionLog(b, bOps, n)
  {
    hide RegionOf;
    var states, ops := a + b[1..], aOps + bOps;
    if n == 0 {
      PrefixLog(a, aOps, b, bOps, |aOps|);
    } else {
      JoinLog(a, aOps, b, bOps, n - 1);
      assert states[|aOps| + n - 1] == b[n - 1] && ops[|aOps| + n - 1] == bOps[n - 1];
      var front, last := RegionLog(b, bOps, n - 1), RegionOf(b[n - 1], bOps[n - 1]);
      assert (RegionLog(a, aOps, |aOps|) + front) + last == RegionLog(a, aOps, |aOps|) + (front + last);
    }
  }

  lemma {:induction false} PrefixLog(a: seq<Gate>, aOps: seq<GateOp>, b: seq<Gate>, bOps: seq<GateOp>, n: nat)
    requires |a| == |aOps| + 1 && |b| == |bOps| + 1 && n <= |aOps|
    ensures RegionLog(a + b[1..], aOps + bOps, n) == RegionLog(a, aOps, n)
  {
    hide RegionOf;
    if n > 0 {
      PrefixLog(a, aOps, b, bOps, n - 1);
    }
  }

  // ---------------------------------------------------------------- every reopening log has such a run

  /** The table along the run: empty until region `i` leases the capability to carrier "a", then that entry or
      nothing, with the expiry of region `m` once that is past, and nothing once the clock of `j` has passed it. */
  ghost predicate TableAt(table: Admissions, log: seq<Region>, c: string, i: nat, m: nat, j: nat, n: nat)
    requires i <= m < j < |log|
  {
    || table == map[]
    || (&& i < n <= j && c in table
        && table == map[c := Stored(Carrier("a"), table[c].expiresAt, Committed)]
        && (m < n ==> table[c].expiresAt == log[m].expiresAt))
  }

  /** The leases along the run: none, then carrier "a", then carrier "b" as well. */
  ghost predicate LeasesAt(leases: seq<Issued>, c: string, i: nat, k: nat, n: nat) {
    && (n <= i ==> leases == [])
    && (i < n <= k ==> |leases| == 1)
    && (i < n ==> |leases| >= 1 && LeasedTo(leases[0], c, "a"))
    && (k < n ==> |leases| == 2 && LeasedTo(leases[1], c, "b"))
  }

  predicate LeasedTo(issued: Issued, c: string, connectionId: string) {
    issued.lease.capabilityId == c && issued.lease.connectionId == connectionId
  }

  ghost predicate RunSoFar(states: seq<Gate>, ops: seq<GateOp>, log: seq<Region>, n: nat)
    requires n <= |log|
  {
    && |states| == |ops| + 1 && IsGateRun(states, ops) && RegionLog(states, ops, |ops|) == log[..n] && Quiet(states[|ops|])
  }

  /** Who makes the `n`-th visit, and whether a lease comes of it. */
  function Visitor(i: nat, m: nat, k: nat, n: nat): string {
    if n == i || n == m then "a" else if n == k then "b" else "x"
  }

  lemma {:induction false} RunOf(log: seq<Region>, c: string, i: nat, m: nat, j: nat, k: nat, n: nat)
    returns (states: seq<Gate>, ops: seq<GateOp>)
    requires ReopensAt(log, c, i, m, j, k) && n <= |log|
    ensures RunSoFar(states, ops, log, n)
    ensures LeasesAt(states[|ops|].leases, c, i, k, n)
    ensures n <= k ==> TableAt(states[|ops|].admissions, log, c, i, m, j, n)
  {
    if n == 0 {
      OneBindingIsValid();
      states, ops := [Gate(OneBinding(), map[], 1, map[], [])], [];
      assert log[..0] == [];
    } else {
      var front, frontOps := RunOf(log, c, i, m, j, k, n - 1);
      var visit, visitOps := NextVisit(front[|frontOps|], log, c, i, m, j, k, n - 1);
      states, ops := Extend(front, frontOps, log, n - 1, visit, visitOps, Visitor(i, m, k, n - 1));
    }
  }

  lemma Extend(front: seq<Gate>, frontOps: seq<GateOp>, log: seq<Region>, n: nat, visit: seq<Gate>,
               visitOps: seq<GateOp>, connectionId: string)
    returns (states: seq<Gate>, ops: seq<GateOp>)
    requires n < |log| && RunSoFar(front, frontOps, log, n)
    requires IsVisit(front[|frontOps|], log[n], connectionId, visit, visitOps) && Quiet(visit[3])
    ensures RunSoFar(states, ops, log, n + 1) && states[|ops|] == visit[3]
  {
    hide IsSegment, Quiet, RegionLog;
    VisitLog(front[|frontOps|], log[n], connectionId, visit, visitOps);
    Join(front, frontOps, visit, visitOps);
    JoinLog(front, frontOps, visit, visitOps, 3);
    states, ops := front + visit[1..], frontOps + visitOps;
    assert states[0] == front[0] && states[|ops|] == visit[3];
    assert log[..n + 1] == log[..n] + [log[n]];
  }

  /** The next visit keeps the table and the leases as described. */
  lemma NextVisit(g: Gate, log: seq<Region>, c: string, i: nat, m: nat, j: nat, k: nat, n: nat)
    returns (visit: seq<Gate>, visitOps: seq<GateOp>)
    requires ReopensAt(log, c, i, m, j, k) && n < |log| && Quiet(g)
    requires LeasesAt(g.leases, c, i, k, n) && (n <= k ==> TableAt(g.admissions, log, c, i, m, j, n))
    ensures IsVisit(g, log[n], Visitor(i, m, k, n), visit, visitOps) && Quiet(visit[3])
    ensures LeasesAt(visit[3].leases, c, i, k, n + 1)
    ensures n + 1 <= k ==> TableAt(visit[3].admissions, log, c, i, m, j, n + 1)
  {
    hide IsVisit, Quiet;
    if n == i || n == k {
      EmptyForLease(g.admissions, log, c, i, m, j, k, n);
      visit, visitOps := LeaseVisit(g, log[n], Visitor(i, m, k, n));
    } else {
      visit, visitOps := AbandonVisit(g, log[n], Visitor(i, m, k, n));
      if n < k {
        TableAfterVisit(g.admissions, log, c, i, m, j, k, n);
      }
    }
  }

  lemma EmptyForLease(table: Admissions, log: seq<Region>, c: string, i: nat, m: nat, j: nat, k: nat, n: nat)
    requires ReopensAt(log, c, i, m, j, k) && (n == i || n == k) && TableAt(table, log, c, i, m, j, n)
    ensures Purged(table, log[n].now) == map[]
  {}

  lemma TableAfterVisit(table: Admissions, log: seq<Region>, c: string, i: nat, m: nat, j: nat, k: nat, n: nat)
    requires ReopensAt(log, c, i, m, j, k) && n < k && n != i && TableAt(table, log, c, i, m, j, n)
    ensures TableAt(Visited(table, log[n], Visitor(i, m, k, n)), log, c, i, m, j, n + 1)
  {
    var after := Visited(table, log[n], Visitor(i, m, k, n));
    if table != map[] {
      assert Carrier("x") != Carrier("a");
      if table[c].expiresAt > log[n].now {
        assert Purged(table, log[n].now) == table;
        assert after == map[c := Stored(Carrier("a"), after[c].expiresAt, Committed)];
      } else {
        assert Purged(table, log[n].now) == map[];
      }
    } else {
      assert Purged(table, log[n].now) == map[];
    }
  }

  // ---------------------------------------------------------------- the exact condition

  ghost predicate HasLog(states: seq<Gate>, ops: seq<GateOp>, log: seq<Region>) {
    |states| == |ops| + 1 && IsGateRun(states, ops) && RegionLog(states, ops, |ops|) == log
  }

  ghost predicate TwoCarriers(states: seq<Gate>, c: string) {
    |states| > 0 && !Exclusive(states[|states| - 1], c)
  }

  /** Some run with this log of check-and-admit regions leases a capability to two carriers if and only if the
      log holds regions `i <= m < j <= k` such that `i` and `k` could lease it, `m` names it, and the clock of
      `j` has reached the expiry brought by `m`. */
  lemma ExclusivityFailsExactly(log: seq<Region>, c: string)
    ensures (exists states, ops :: HasLog(states, ops, log) && TwoCarriers(states, c)) <==> Reopens(log, c)
  {
    hide IsGateRun, ReopensAt, Exclusive, RegionLog;
    if states, ops :| HasLog(states, ops, log) && TwoCarriers(states, c) {
      if !Reopens(log, c) {
        ExclusiveUnlessReopened(states, ops, c);
      }
    }
    if i: nat, m: nat, j: nat, k: nat :| ReopensAt(log, c, i, m, j, k) {
      var states, ops := ReopenedRun(log, c, i, m, j, k);
    }
  }

  lemma ReopenedRun(log: seq<Region>, c: string, i: nat, m: nat, j: nat, k: nat)
    returns (states: seq<Gate>, ops: seq<GateOp>)
    requires ReopensAt(log, c, i, m, j, k)
    ensures HasLog(states, ops, log) && TwoCarriers(states, c)
  {
    states, ops := RunOf(log, c, i, m, j, k, |log|);
    assert log[..|log|] == log;
    var leases := states[|ops|].leases;
    assert leases[0].lease.connectionId == "a" && leases[1].lease.connectionId == "b";
    assert !SameCarrier(leases[0].lease, leases[1].lease);
  }

  // ---------------------------------------------------------------- two hypotheses that exclude it

  ghost predicate NondecreasingClock(log: seq<Region>) {
    forall i, j :: 0 <= i <= j < |log| ==> log[i].now <= log[j].now
  }

  /** The issuer signs one expiry per capability id. */
  ghost predicate OneExpiry(log: seq<Region>) {
    forall i, j :: 0 <= i < |log| && 0 <= j < |log| && log[i].capabilityId == log[j].capabilityId
                   ==> log[i].expiresAt == log[j].expiresAt
  }

  lemma OrderedLogNeverReopens(log: seq<Region>, c: string)
    requires NondecreasingClock(log) && OneExpiry(log)
    ensures !Reopens(log, c)
  {
    forall i: nat, m: nat, j: nat, k: nat
      ensures !ReopensAt(log, c, i, m, j, k)
    {}
  }

  /** Any two leases ever issued for one capability id belong to one carrier, however attempts interleave. */
  lemma Exclusivity(states: seq<Gate>, ops: seq<GateOp>, c: string)
    requires IsGateRun(states, ops)
    requires NondecreasingClock(RegionLog(states, ops, |ops|)) && OneExpiry(RegionLog(states, ops, |ops|))
    ensures Exclusive(states[|ops|], c)
  {
    OrderedLogNeverReopens(RegionLog(states, ops, |ops|), c);
    ExclusiveUnlessReopened(states, ops, c);
  }

  /** Until its capability expires by the latest clock, every claim is backed by the carrier's own entry. */
  lemma UnexpiredClaimsAreBacked(states: seq<Gate>, ops: seq<GateOp>, r: nat, c: string, f: Fingerprint, last: nat)
    requires IsGateRun(states, ops)
    requires NondecreasingClock(RegionLog(states, ops, |ops|)) && OneExpiry(RegionLog(states, ops, |ops|))
    requires last < |RegionLog(states, ops, |ops|)| && RegionLog(states, ops, |ops|)[last].capabilityId == c
    requires Claims(states[|ops|], r, c, f)
    requires forall x <- RegionLog(states, ops, |ops|) :: x.now < RegionLog(states, ops, |ops|)[last].expiresAt
    ensures Reserved(states[|ops|], r, c, f)
  {
    var log := RegionLog(states, ops, |ops|);
    RunKeepsInv(states, ops, |ops|, c);
    hide RegionLog, Claims, Reserved;
    forall i: nat, m: nat, j: nat
      ensures !LapsedAt(log, c, i, m, j)
    {}
  }

  /** A check that purges with a later clock than its successor lets a second carrier in, one expiry per
      capability notwithstanding. */
  lemma BackwardClockBreaksExclusivity() returns (states: seq<Gate>, ops: seq<GateOp>)
    ensures IsGateRun(states, ops) && OneExpiry(RegionLog(states, ops, |ops|))
    ensures TwoCarriers(states, "cap")
  {
    var log := [Region(10, "cap", 50), Region(60, "other", 100), Region(20, "cap", 50)];
    assert ReopensAt(log, "cap", 0, 0, 1, 2);
    states, ops := ReopenedRun(log, "cap", 0, 0, 1, 2);
  }

  /** A capability signed twice with different expiries can be leased to two carriers, clock in order. */
  lemma VaryingExpiryBreaksExclusivity() returns (states: seq<Gate>, ops: seq<GateOp>)
    ensures IsGateRun(states, ops) && NondecreasingClock(RegionLog(states, ops, |ops|))
    ensures TwoCarriers(states, "cap")
  {
    var log := [Region(10, "cap", 50), Region(60, "cap", 100)];
    assert ReopensAt(log, "cap", 0, 0, 1, 1);
    states, ops := ReopenedRun(log, "cap", 0, 0, 1, 1);
  }
}
