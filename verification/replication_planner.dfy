/** The planner's loops: they compute the plan of module ReplicationPlan for some visiting order of the
    continents, regions and demanded scopes. */
module ReplicationPlanner {
  import opened Prelude
  import opened ReplicationPlan
  import opened ReplicationFixpoint

  lemma PerformAllSnoc(env: Env, tasks: seq<Task>, t: Task)
    ensures PerformAll(env, tasks + [t]) == Perform(env, t, PerformAll(env, tasks))
  {
    assert (tasks + [t])[..|tasks|] == tasks;
  }

  /** Adds placements to the selection and their targets to the id set. */
  method FillScope(env: Env, selected: seq<Placement>, ids: set<Id>, scope: Scope, target: nat, reason: Reason)
    returns (selected': seq<Placement>, ids': set<Id>, added: bool)
    requires ids == Targets(selected)
    ensures selected' == Fill(env, scope, target, reason, selected) && ids' == Targets(selected')
    ensures added <==> selected' != selected
  {
    hide Count, Choose;
    selected', ids', added := selected, ids, false;
    while Count(env, scope, ids') < target && |selected'| < env.policy.maxNewReplicas
      invariant ids' == Targets(selected') && selected <= selected'
      invariant Fill(env, scope, target, reason, selected') == Fill(env, scope, target, reason, selected)
      invariant added <==> |selected'| > |selected|
      decreases env.policy.maxNewReplicas - |selected'|
    {
      var candidate := Choose(env, scope, ids');
      if candidate.None? {
        break;
      }
      TargetsSnoc(selected', Placement(candidate.value.id, reason));
      ids' := ids' + {candidate.value.id};
      selected' := selected' + [Placement(candidate.value.id, reason)];
      added := true;
    }
  }

  type Demands = map<(Id, Id), (real, nat)>

  function SoFar(totals: Demands, key: (Id, Id)): (real, nat) {
    if key in totals then totals[key] else (0.0, 0)
  }

  function DemandedScopes(demand: seq<Signal>, stream: nat): set<(Id, Id)> {
    set s | s in demand && s.stream == stream :: (s.region, s.continent)
  }

  function Sums(demand: seq<Signal>, stream: nat, key: (Id, Id)): (real, nat) {
    (TotalReads(demand, stream, key.0, key.1), TotalReaders(demand, stream, key.0, key.1))
  }

  /** One more signal changes the sums of its own scope only. */
  lemma OneMoreSignal(front: seq<Signal>, s: Signal, stream: nat)
    ensures DemandedScopes(front + [s], stream)
         == DemandedScopes(front, stream) + (if s.stream == stream then {(s.region, s.continent)} else {})
    ensures forall k :: Sums(front + [s], stream, k)
              == if s.stream == stream && (s.region, s.continent) == k
                 then (Sums(front, stream, k).0 + s.readsPerSec, SatAdd(Sums(front, stream, k).1, s.activeReaders))
                 else Sums(front, stream, k)
  {
    assert (front + [s])[..|front|] == front;
    assert forall t :: t in front + [s] <==> t in front || t == s;
    ReadersBounded(front, stream);
  }

  lemma {:induction false} ReadersBounded(demand: seq<Signal>, stream: nat)
    ensures forall r, c :: TotalReaders(demand, stream, r, c) <= U64_MAX
  {
    if demand != [] {
      ReadersBounded(demand[..|demand| - 1], stream);
    }
  }

  /** Sums the demand for the stream per region and continent. */
  method GroupDemand(stream: nat, demand: seq<Signal>) returns (totals: Demands)
    ensures totals.Keys == DemandedScopes(demand, stream)
    ensures forall k <- totals :: totals[k] == Sums(demand, stream, k)
  {
    hide TotalReads, TotalReaders, DemandedScopes, Sums, SatAdd;
    totals := map[];
    NoSignals(stream);
    for i := 0 to |demand|
      invariant totals.Keys == DemandedScopes(demand[..i], stream)
      invariant forall k :: SoFar(totals, k) == Sums(demand[..i], stream, k)
    {
      var s := demand[i];
      OneMoreSignal(demand[..i], s, stream);
      assert demand[..i + 1] == demand[..i] + [s];
      if s.stream == stream {
        var key := (s.region, s.continent);
        var sums := SoFar(totals, key);
        totals := totals[key := (sums.0 + s.readsPerSec, SatAdd(sums.1, s.activeReaders))];
      }
    }
    assert demand[..|demand|] == demand;
    forall k <- totals
      ensures totals[k] == Sums(demand, stream, k)
    {
      assert SoFar(totals, k) == totals[k];
    }
  }

  lemma NoSignals(stream: nat)
    ensures DemandedScopes([], stream) == {} && forall k :: Sums([], stream, k) == (0.0, 0)
  {}

  function Phase(t: Task): nat {
    match t
    case Baseline(Continent(_), _) => 0
    case Baseline(Region(_), _) => 1
    case Demand(_, _) => 2
  }

  /** Continents come before regions, and both before demand. */
  ghost predicate InPhases(tasks: seq<Task>) {
    forall i, j :: 0 <= i < j < |tasks| ==> Phase(tasks[i]) <= Phase(tasks[j])
  }

  /** The work so far, continued by work of one phase. */
  ghost predicate Continues(before: seq<Task>, after: seq<Task>, phase: nat) {
    before <= after && forall i :: |before| <= i < |after| ==> Phase(after[i]) == phase
  }

  ghost predicate UpTo(tasks: seq<Task>, phase: nat) {
    InPhases(tasks) && forall t <- tasks :: Phase(t) <= phase
  }

  lemma PhaseContinues(before: seq<Task>, after: seq<Task>, phase: nat, next: nat)
    requires UpTo(before, phase) && phase <= next && Continues(before, after, next)
    ensures UpTo(after, next)
  {
    forall i | 0 <= i < |after|
      ensures i < |before| ==> after[i] == before[i] && after[i] in before
    {}
    hide Phase;
    assert forall t <- after :: exists i :: 0 <= i < |after| && after[i] == t;
  }

  lemma NothingYet()
    ensures UpTo([], 0)
  {}

  lemma UpToIsInPhases(tasks: seq<Task>, phase: nat)
    requires UpTo(tasks, phase)
    ensures InPhases(tasks)
  {}

  /** Continents, then regions, then hot demand.  The order inside each group is the map's own. */
  method PlanReplicas(env: Env, demand: seq<Signal>) returns (selected: seq<Placement>, ghost tasks: seq<Task>)
    ensures IsWork(env, demand, tasks) && InPhases(tasks) && selected == PerformAll(env, tasks)
    ensures exists work :: IsWork(env, demand, work) && InPhases(work) && selected == PerformAll(env, work)
    ensures Sound(env, selected) && |selected| <= env.policy.maxNewReplicas
  {
    hide Count, Fill, Perform, TotalReads, TotalReaders, Continues, UpTo, Sound;
    var ids: set<Id> := {};
    selected, tasks := [], [];
    assert Targets([]) == {};
    NothingYet();
    if env.policy.perContinent > 0 {
      selected, ids, tasks := FillEach(env, selected, ids, tasks, set c | c in Continents(env.nodes) :: Continent(c),
                                       env.policy.perContinent, 0);
      PhaseContinues([], tasks, 0, 0);
    }
    ghost var first := tasks;
    if env.policy.perRegion > 0 {
      selected, ids, tasks := FillEach(env, selected, ids, tasks, set r | r in Regions(env.nodes) :: Region(r),
                                       env.policy.perRegion, 1);
      PhaseContinues(first, tasks, 0, 1);
    }
    ghost var baseline := tasks;
    var totals := GroupDemand(env.stream.id, demand);
    var hot := set k | k in totals && IsHot(env.policy, totals[k]);
    selected, ids, tasks := FillDemand(env, selected, ids, tasks, hot);
    PhaseContinues(baseline, tasks, if baseline == first then 0 else 1, 2);
    UpToIsInPhases(tasks, 2);
    assert hot == HotScopes(env.policy, env.stream.id, demand) by { HotIsGrouped(env, demand, totals); }
    PlanIsSound(env, tasks);
  }

  predicate IsHot(policy: Policy, totals: (real, nat)) {
    totals.0 >= policy.demandReads || totals.1 >= policy.demandReaders
  }

  lemma HotIsGrouped(env: Env, demand: seq<Signal>, totals: Demands)
    requires totals.Keys == DemandedScopes(demand, env.stream.id)
    requires forall k <- totals :: totals[k] == Sums(demand, env.stream.id, k)
    ensures (set k | k in totals && IsHot(env.policy, totals[k])) == HotScopes(env.policy, env.stream.id, demand)
  {
    hide TotalReads, TotalReaders;
  }

  /** The baseline of every scope in turn. */
  method FillEach(env: Env, selected0: seq<Placement>, ids0: set<Id>, ghost tasks0: seq<Task>, scopes: set<Scope>, target: nat,
                  ghost phase: nat)
    returns (selected: seq<Placement>, ids: set<Id>, ghost tasks: seq<Task>)
    requires selected0 == PerformAll(env, tasks0) && ids0 == Targets(selected0)
    requires forall s <- scopes :: Phase(Baseline(s, target)) == phase
    ensures Continues(tasks0, tasks, phase)
    ensures selected == PerformAll(env, tasks) && ids == Targets(selected)
    ensures forall t :: t in tasks <==> t in tasks0 || (t.Baseline? && t.scope in scopes && t.target == target)
  {
    hide PerformAll, Fill, Targets;
    selected, ids, tasks := selected0, ids0, tasks0;
    var remaining := scopes;
    while remaining != {}
      invariant remaining <= scopes
      invariant selected == PerformAll(env, tasks) && ids == Targets(selected)
      invariant Continues(tasks0, tasks, phase)
      invariant forall t :: t in tasks <==>
                  t in tasks0 || (t.Baseline? && t.scope in scopes - remaining && t.target == target)
      decreases remaining
    {
      var scope :| scope in remaining;
      remaining := remaining - {scope};
      PerformAllSnoc(env, tasks, Baseline(scope, target));
      var added;
      selected, ids, added := FillScope(env, selected, ids, scope, target, BaselineReason(scope));
      tasks := tasks + [Baseline(scope, target)];
    }
  }

  /** Hot demand asks for one replica in its region, or else in its continent. */
  method FillDemand(env: Env, selected0: seq<Placement>, ids0: set<Id>, ghost tasks0: seq<Task>, hot: set<(Id, Id)>)
    returns (selected: seq<Placement>, ids: set<Id>, ghost tasks: seq<Task>)
    requires selected0 == PerformAll(env, tasks0) && ids0 == Targets(selected0)
    ensures selected == PerformAll(env, tasks) && ids == Targets(selected)
    ensures forall t :: t in tasks <==> t in tasks0 || (t.Demand? && (t.region, t.continent) in hot)
    ensures Continues(tasks0, tasks, 2)
  {
    hide PerformAll, Fill, Targets, Perform;
    selected, ids, tasks := selected0, ids0, tasks0;
    var remaining := hot;
    while remaining != {}
      invariant remaining <= hot
      invariant selected == PerformAll(env, tasks) && ids == Targets(selected)
      invariant forall t :: t in tasks <==> t in tasks0 || (t.Demand? && (t.region, t.continent) in hot - remaining)
      invariant Continues(tasks0, tasks, 2)
      decreases remaining
    {
      var key :| key in remaining;
      remaining := remaining - {key};
      PerformAllSnoc(env, tasks, Demand(key.0, key.1));
      selected, ids := MeetDemand(env, selected, ids, key.0, key.1);
      tasks := tasks + [Demand(key.0, key.1)];
    }
  }

  method MeetDemand(env: Env, selected0: seq<Placement>, ids0: set<Id>, region: Id, continent: Id)
    returns (selected: seq<Placement>, ids: set<Id>)
    requires ids0 == Targets(selected0)
    ensures selected == Perform(env, Demand(region, continent), selected0) && ids == Targets(selected)
  {
    hide Fill, Targets, Count;
    selected, ids := selected0, ids0;
    var added := false;
    if Count(env, Region(region), ids) == 0 {
      selected, ids, added := FillScope(env, selected, ids, Region(region), 1, DemandRegion(region));
    }
    if added {
      return;
    }
    if Count(env, Continent(continent), ids) == 0 {
      selected, ids, added := FillScope(env, selected, ids, Continent(continent), 1, DemandContinent(continent));
    }
  }
}
