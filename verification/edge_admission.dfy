/** Edge admission: normalised limits, overload with hysteresis, and the bounded session table. */
module EdgeAdmission {
  import opened Prelude
  import opened EgressWindow

  datatype Config = Config(
    capacityBps: nat, admissionPercent: nat, recoveryPercent: nat, windowSeconds: nat, minSustainedSeconds: nat,
    sessionIdleSeconds: nat, maxSessions: nat)

  function Clamp(value: nat, low: nat, high: nat): nat {
    if value < low then low else if value > high then high else value
  }

  function PercentOf(value: nat, percent: nat): nat {
    SatMul(value, percent) / 100
  }

  function Normalized(c: Config): Config {
    var admission := Clamp(c.admissionPercent, 1, 100);
    var window := Max(c.windowSeconds, 1);
    Config(Max(c.capacityBps, 1), admission, Clamp(c.recoveryPercent, 1, Max(SatSub(admission, 1), 1)), window,
           Clamp(c.minSustainedSeconds, 1, window), Max(c.sessionIdleSeconds, 1), Max(c.maxSessions, 1))
  }

  function AdmissionBps(c: Config): nat {
    PercentOf(c.capacityBps, c.admissionPercent)
  }

  function RecoveryBps(c: Config): nat {
    PercentOf(c.capacityBps, c.recoveryPercent)
  }

  /** Whatever is configured, recovery is never above admission, and the window is never empty. */
  lemma NormalizedIsOrdered(c: Config)
    ensures
      var n := Normalized(c);
      && RecoveryBps(n) <= AdmissionBps(n)
      && 1 <= n.recoveryPercent <= n.admissionPercent <= 100
      && (n.admissionPercent > 1 ==> n.recoveryPercent < n.admissionPercent)
      && 1 <= n.minSustainedSeconds <= n.windowSeconds
      && 1 <= n.maxSessions
      && Normalized(n) == n
  {
    var n := Normalized(c);
    PercentIsMonotone(n.capacityBps, n.recoveryPercent, n.admissionPercent);
  }

  lemma PercentIsMonotone(value: nat, low: nat, high: nat)
    requires low <= high
    ensures PercentOf(value, low) <= PercentOf(value, high)
  {
    assert value * low <= value * high;
    DivideMonotone(SatMul(value, low), SatMul(value, high));
  }

  lemma DivideMonotone(a: nat, b: nat)
    requires a <= b
    ensures a / 100 <= b / 100
  {}

  /** A configuration within its ranges is left as it is. */
  lemma NormalizedKeepsValid(c: Config)
    requires 1 <= c.capacityBps && 1 <= c.admissionPercent <= 100 && 1 <= c.windowSeconds
    requires 1 <= c.recoveryPercent && (c.recoveryPercent < c.admissionPercent || c.recoveryPercent == 1)
    requires 1 <= c.minSustainedSeconds <= c.windowSeconds && 1 <= c.sessionIdleSeconds && 1 <= c.maxSessions
    ensures Normalized(c) == c
  {}

  /** The two limits are whole percentages of the capacity. */
  lemma LimitsArePercentages(c: Config)
    requires c.capacityBps * Max(c.admissionPercent, c.recoveryPercent) <= U64_MAX
    ensures 100 * AdmissionBps(c) <= c.capacityBps * c.admissionPercent < 100 * AdmissionBps(c) + 100
    ensures 100 * RecoveryBps(c) <= c.capacityBps * c.recoveryPercent < 100 * RecoveryBps(c) + 100
  {
    var most := Max(c.admissionPercent, c.recoveryPercent);
    assert c.capacityBps * c.admissionPercent <= c.capacityBps * most;
    assert c.capacityBps * c.recoveryPercent <= c.capacityBps * most;
  }

  // ---------------------------------------------------------------- hysteresis

  /** One look at the window: the rate and how many seconds it covers. */
  datatype Observation = Observation(bps: nat, seconds: nat)

  predicate Crosses(c: Config, o: Observation) {
    o.seconds >= c.minSustainedSeconds && o.bps >= AdmissionBps(c)
  }

  predicate Holds(c: Config, o: Observation) {
    o.bps >= RecoveryBps(c)
  }

  function NextOverloaded(c: Config, was: bool, o: Observation): bool {
    if was then Holds(c, o) else Crosses(c, o)
  }

  function Overloaded(c: Config, seen: seq<Observation>): bool {
    if seen == [] then false
    else NextOverloaded(c, Overloaded(c, seen[..|seen| - 1]), seen[|seen| - 1])
  }

  /** Snapshot `j` crossed the sustained admission limit and none since fell below recovery. */
  ghost predicate OverloadedSince(c: Config, seen: seq<Observation>, j: nat) {
    && j < |seen| && seen[j].seconds >= c.minSustainedSeconds && seen[j].bps >= AdmissionBps(c)
    && forall i :: j <= i < |seen| ==> seen[i].bps >= RecoveryBps(c)
  }

  lemma SinceSnoc(c: Config, front: seq<Observation>, last: Observation, j: nat)
    ensures j < |front| ==> (OverloadedSince(c, front + [last], j) <==> OverloadedSince(c, front, j) && Holds(c, last))
    ensures j == |front| ==> (OverloadedSince(c, front + [last], j) <==> Crosses(c, last) && Holds(c, last))
  {
    hide AdmissionBps, RecoveryBps;
    var all := front + [last];
    if j < |front| && OverloadedSince(c, all, j) {
      assert all[|front|].bps >= RecoveryBps(c);
      forall i | j <= i < |front|
        ensures front[i].bps >= RecoveryBps(c)
      {
        assert all[i] == front[i];
      }
    }
  }

  /** The edge is overloaded exactly when some snapshot crossed the sustained admission limit and no snapshot
      since fell below recovery. */
  lemma {:induction false} OverloadedIff(raw: Config, seen: seq<Observation>)
    ensures Overloaded(Normalized(raw), seen) <==> exists j :: OverloadedSince(Normalized(raw), seen, j)
  {
    var c := Normalized(raw);
    NormalizedIsOrdered(raw);
    if seen != [] {
      var front, last := seen[..|seen| - 1], seen[|seen| - 1];
      assert seen == front + [last];
      assert Crosses(c, last) ==> Holds(c, last);
      OverloadedIff(raw, front);
      hide Crosses, Holds, Normalized, OverloadedSince;
      SinceSnoc(c, front, last, |front|);
      if Overloaded(c, front) && Holds(c, last) {
        var j :| OverloadedSince(c, front, j);
        SinceInRange(c, front, j);
        SinceSnoc(c, front, last, j);
      }
      if j :| OverloadedSince(c, seen, j) {
        SinceInRange(c, seen, j);
        SinceSnoc(c, front, last, j);
      }
    }
  }

  lemma SinceInRange(c: Config, seen: seq<Observation>, j: nat)
    requires OverloadedSince(c, seen, j)
    ensures j < |seen|
  {}

  // ---------------------------------------------------------------- sessions

  datatype Admission = Anonymous | Admitted | Existing | Rejected

  function Active(sessions: map<string, nat>, now: nat, idleSeconds: nat): map<string, nat> {
    map s | s in sessions && SatSub(now, sessions[s]) < SatMul(idleSeconds, 1000) :: sessions[s]
  }

  /** A session stays while it was seen within the idle time. */
  lemma ActiveExactly(sessions: map<string, nat>, now: nat, idleSeconds: nat, s: string)
    requires idleSeconds * 1000 <= U64_MAX
    ensures s in Active(sessions, now, idleSeconds) <==>
              s in sessions && idleSeconds > 0 && now < sessions[s] + idleSeconds * 1000
    ensures s in Active(sessions, now, idleSeconds) ==> Active(sessions, now, idleSeconds)[s] == sessions[s]
  {
    assert SatMul(idleSeconds, 1000) == idleSeconds * 1000;
  }

  /** Some session seen no later than every other. */
  predicate LeastRecent(sessions: map<string, nat>, victim: string) {
    victim in sessions && forall s <- sessions :: sessions[victim] <= sessions[s]
  }

  class EdgeAdmissionControl {
    const config: Config
    const window: RollingEgressWindow
    var overloaded: bool
    var sessions: map<string, nat>
    var admittedSessions: nat

    ghost predicate Valid()
      reads this
    {
      1 <= config.maxSessions && |sessions| <= config.maxSessions
    }

    constructor (raw: Config)
      ensures Valid() && config == Normalized(raw) && fresh(window)
      ensures window.buckets == [] && sessions == map[] && !overloaded && admittedSessions == 0
    {
      config := Normalized(raw);
      window := new RollingEgressWindow();
      overloaded, sessions, admittedSessions := false, map[], 0;
    }

    method RecordBytes(second: nat, bytes: nat)
      modifies window
      ensures bytes == 0 ==> window.buckets == old(window.buckets)
      ensures bytes > 0 ==>
                window.buckets == Added(Pruned(old(window.buckets), second, config.windowSeconds), Event(second, bytes))
    {
      if bytes > 0 {
        window.Record(second, bytes, config.windowSeconds);
      }
    }

    /** One snapshot is one step of the hysteresis. */
    method Snapshot(second: nat, elapsedMs: nat) returns (o: Observation, activeSessions: nat)
      requires Valid()
      modifies this, window
      ensures Valid() && admittedSessions == old(admittedSessions)
      ensures window.buckets == Pruned(old(window.buckets), second, config.windowSeconds)
      ensures (o.bps, o.seconds) == RateOf(window.buckets, second, config.windowSeconds)
      ensures overloaded == NextOverloaded(config, old(overloaded), o)
      ensures sessions == Active(old(sessions), elapsedMs, config.sessionIdleSeconds) && activeSessions == |sessions|
    {
      var bps, seconds := window.Rate(second, config.windowSeconds);
      o := Observation(bps, seconds);
      var admission, recovery := AdmissionBps(config), RecoveryBps(config);
      if overloaded {
        overloaded := bps >= recovery;
      } else {
        overloaded := seconds >= config.minSustainedSeconds && bps >= admission;
      }
      ActiveIsSmaller(sessions, elapsedMs, config.sessionIdleSeconds);
      sessions := Active(sessions, elapsedMs, config.sessionIdleSeconds);
      activeSessions := |sessions|;
    }

    /** An active session is never refused; a new one is refused under overload and otherwise, in a full
        table, replaces a least recently seen one. */
    method AdmitPlayback(session: Option<string>, isOverloaded: bool, elapsedMs: nat) returns (r: Admission)
      requires Valid()
      modifies `sessions, `admittedSessions
      ensures Valid()
      ensures session.None? ==>
                r == (if isOverloaded then Rejected else Anonymous) && sessions == old(sessions)
      ensures session.Some? ==>
                var active := Active(old(sessions), elapsedMs, config.sessionIdleSeconds);
                && (r == Existing <==> session.value in active)
                && (r == Rejected <==> session.value !in active && isOverloaded)
                && (r == Existing ==> sessions == active[session.value := elapsedMs])
                && (r == Rejected ==> sessions == active)
                && (r == Admitted && |active| < config.maxSessions ==> sessions == active[session.value := elapsedMs])
                && (r == Admitted && |active| >= config.maxSessions ==>
                      exists victim :: LeastRecent(active, victim)
                                       && sessions == (active - {victim})[session.value := elapsedMs])
      ensures admittedSessions == old(admittedSessions) + (if r == Admitted then 1 else 0)
    {
      if session.None? {
        return if isOverloaded then Rejected else Anonymous;
      }
      var id := session.value;
      hide Active;
      ActiveIsSmaller(sessions, elapsedMs, config.sessionIdleSeconds);
      sessions := Active(sessions, elapsedMs, config.sessionIdleSeconds);
      if id in sessions {
        SizeAfterPut(sessions, id, elapsedMs);
        sessions := sessions[id := elapsedMs];
        return Existing;
      }
      if isOverloaded {
        return Rejected;
      }
      if |sessions| >= config.maxSessions {
        var victim := OldestSession(sessions);
        SizeAfterDrop(sessions, victim);
        sessions := sessions - {victim};
      }
      SizeAfterPut(sessions, id, elapsedMs);
      sessions := sessions[id := elapsedMs];
      admittedSessions := admittedSessions + 1;
      return Admitted;
    }
  }

  method OldestSession(sessions: map<string, nat>) returns (victim: string)
    requires |sessions| > 0
    ensures LeastRecent(sessions, victim)
  {
    assert sessions != map[];
    victim :| victim in sessions;
    var remaining := sessions.Keys - {victim};
    while remaining != {}
      invariant remaining <= sessions.Keys && victim in sessions
      invariant forall s <- sessions :: s in remaining || sessions[victim] <= sessions[s]
      decreases remaining
    {
      var s :| s in remaining;
      if sessions[s] < sessions[victim] {
        victim := s;
      }
      remaining := remaining - {s};
    }
  }

  lemma ActiveIsSmaller(sessions: map<string, nat>, now: nat, idleSeconds: nat)
    ensures |Active(sessions, now, idleSeconds)| <= |sessions|
  {
    var active := Active(sessions, now, idleSeconds);
    assert sessions.Keys == active.Keys + (sessions.Keys - active.Keys);
    assert |active| == |active.Keys| && |sessions| == |sessions.Keys|;
  }

  lemma SizeAfterPut(sessions: map<string, nat>, id: string, at: nat)
    ensures |sessions[id := at]| == |sessions| + (if id in sessions then 0 else 1)
  {
    assert sessions[id := at].Keys == sessions.Keys + {id};
    assert id in sessions ==> sessions.Keys + {id} == sessions.Keys;
    assert |sessions[id := at]| == |sessions[id := at].Keys| && |sessions| == |sessions.Keys|;
  }

  lemma SizeAfterDrop(sessions: map<string, nat>, id: string)
    requires id in sessions
    ensures |sessions - {id}| == |sessions| - 1
  {
    assert (sessions - {id}).Keys == sessions.Keys - {id};
    assert |sessions - {id}| == |(sessions - {id}).Keys| && |sessions| == |sessions.Keys|;
  }
}
