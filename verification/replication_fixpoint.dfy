/** What a plan achieves, and when planning again adds nothing. */
module ReplicationFixpoint {
  import opened Prelude
  import opened ReplicationPlan

  /** The scope has its replicas, or no node of it can take another. */
  ghost predicate Filled(env: Env, scope: Scope, target: nat, ids: set<Id>) {
    Count(env, scope, ids) >= target || NoCandidates(env, scope, ids)
  }

  /** Nothing is left to do here. */
  ghost predicate Done(env: Env, task: Task, ids: set<Id>) {
    match task
    case Baseline(scope, target) => Filled(env, scope, target, ids)
    case Demand(region, continent) => Filled(env, Region(region), 1, ids) && Filled(env, Continent(continent), 1, ids)
  }

  lemma FilledStays(env: Env, scope: Scope, target: nat, ids: set<Id>, more: set<Id>)
    requires Filled(env, scope, target, ids) && ids <= more
    ensures Filled(env, scope, target, more)
  {
    hide Count;
    CountGrows(env, scope, ids, more);
  }

  lemma DoneStays(env: Env, task: Task, ids: set<Id>, more: set<Id>)
    requires Done(env, task, ids) && ids <= more
    ensures Done(env, task, more)
  {
    hide Filled;
    match task
    case Baseline(scope, target) => FilledStays(env, scope, target, ids, more);
    case Demand(region, continent) =>
      FilledStays(env, Region(region), 1, ids, more);
      FilledStays(env, Continent(continent), 1, ids, more);
  }

  // ---------------------------------------------------------------- one scope

  lemma TargetsSnoc(selected: seq<Placement>, p: Placement)
    ensures Targets(selected + [p]) == Targets(selected) + {p.target}
  {
    assert forall q :: q in selected + [p] <==> q in selected || q == p;
  }

  lemma TargetsGrow(before: seq<Placement>, after: seq<Placement>)
    requires before <= after
    ensures Targets(before) <= Targets(after)
  {
    assert forall p :: p in before ==> p in after by {
      assert after[..|before|] == before;
    }
  }

  /** A fill extends the selection and stays within the cap; below the cap the scope ends up filled. */
  lemma {:induction false} FillFills(env: Env, scope: Scope, target: nat, reason: Reason, selected: seq<Placement>)
    ensures
      var after := Fill(env, scope, target, reason, selected);
      && selected <= after
      && (|selected| <= env.policy.maxNewReplicas ==> |after| <= env.policy.maxNewReplicas)
      && (|after| < env.policy.maxNewReplicas ==> Filled(env, scope, target, Targets(after)))
      && (Filled(env, scope, target, Targets(selected)) ==> after == selected)
      && (after == selected ==>
            |selected| >= env.policy.maxNewReplicas || Filled(env, scope, target, Targets(selected)))
    decreases env.policy.maxNewReplicas - |selected|
  {
    hide Count, NoCandidates, Choose, Targets;
    ChooseFinds(env, scope, Targets(selected));
    var next := Choose(env, scope, Targets(selected));
    if Count(env, scope, Targets(selected)) < target && |selected| < env.policy.maxNewReplicas && next.Some? {
      FillFills(env, scope, target, reason, selected + [Placement(next.value.id, reason)]);
    }
  }

  // ---------------------------------------------------------------- one task

  /** Nodes of the demanded region lie in the demanded continent. */
  ghost predicate Nested(env: Env, task: Task) {
    task.Demand? ==> forall n <- env.nodes :: n.region == task.region ==> n.continent == task.continent
  }

  lemma RegionCountsForContinent(env: Env, region: Id, continent: Id, ids: set<Id>)
    requires Nested(env, Demand(region, continent))
    ensures Count(env, Region(region), ids) <= Count(env, Continent(continent), ids)
  {
    FilterGrows(env.nodes, n => Matches(n, Region(region)) && (n.id in env.existing || n.id in ids),
                n => Matches(n, Continent(continent)) && (n.id in env.existing || n.id in ids));
  }

  /** A fill that adds anything leaves a replica in the scope. */
  lemma {:induction false} AddedCounts(env: Env, scope: Scope, target: nat, reason: Reason, selected: seq<Placement>)
    ensures Fill(env, scope, target, reason, selected) != selected ==>
              Count(env, scope, Targets(Fill(env, scope, target, reason, selected))) > 0
    decreases env.policy.maxNewReplicas - |selected|
  {
    hide Count, Choose, Targets;
    ChooseFinds(env, scope, Targets(selected));
    var next := Choose(env, scope, Targets(selected));
    if Count(env, scope, Targets(selected)) < target && |selected| < env.policy.maxNewReplicas && next.Some? {
      var placement := Placement(next.value.id, reason);
      var longer := selected + [placement];
      TargetsSnoc(selected, placement);
      CountsOne(env, scope, Targets(longer), next.value);
      FillFills(env, scope, target, reason, longer);
      TargetsGrow(longer, Fill(env, scope, target, reason, longer));
      CountGrows(env, scope, Targets(longer), Targets(Fill(env, scope, target, reason, longer)));
    }
  }

  lemma CountsOne(env: Env, scope: Scope, ids: set<Id>, n: Node)
    requires n in env.nodes && Matches(n, scope) && n.id in ids
    ensures Count(env, scope, ids) > 0
  {
    FilterMembers(env.nodes, m => Matches(m, scope) && (m.id in env.existing || m.id in ids));
  }

  /** A task only extends the selection; below the cap, and if geography is nested, it is done afterwards.
      A task that was done adds nothing. */
  lemma PerformDoes(env: Env, task: Task, selected: seq<Placement>)
    ensures
      var after := Perform(env, task, selected);
      && selected <= after
      && (|selected| <= env.policy.maxNewReplicas ==> |after| <= env.policy.maxNewReplicas)
      && (Nested(env, task) && |after| < env.policy.maxNewReplicas ==> Done(env, task, Targets(after)))
      && (Done(env, task, Targets(selected)) ==> after == selected)
      && (after == selected ==> |selected| >= env.policy.maxNewReplicas || Done(env, task, Targets(selected)))
  {
    hide Count, NoCandidates, Fill, Targets, Nested;
    match task
    case Baseline(scope, target) => FillFills(env, scope, target, BaselineReason(scope), selected);
    case Demand(region, continent) => DemandDoes(env, region, continent, selected);
  }

  lemma DemandDoes(env: Env, region: Id, continent: Id, selected: seq<Placement>)
    ensures
      var task := Demand(region, continent);
      var after := Perform(env, task, selected);
      && selected <= after
      && (|selected| <= env.policy.maxNewReplicas ==> |after| <= env.policy.maxNewReplicas)
      && (Nested(env, task) && |after| < env.policy.maxNewReplicas ==> Done(env, task, Targets(after)))
      && (Done(env, task, Targets(selected)) ==> after == selected)
      && (after == selected ==> |selected| >= env.policy.maxNewReplicas || Done(env, task, Targets(selected)))
  {
    hide Count, NoCandidates, Fill, Targets, Nested;
    var task := Demand(region, continent);
    FillFills(env, Region(region), 1, DemandRegion(region), selected);
    AddedCounts(env, Region(region), 1, DemandRegion(region), selected);
    var filled := if Count(env, Region(region), Targets(selected)) > 0 then selected
                  else Fill(env, Region(region), 1, DemandRegion(region), selected);
    FillFills(env, Continent(continent), 1, DemandContinent(continent), filled);
    var after := Perform(env, task, selected);
    TargetsGrow(filled, after);
    if Nested(env, task) {
      RegionCountsForContinent(env, region, continent, Targets(filled));
    }
    if Filled(env, Region(region), 1, Targets(filled)) {
      FilledStays(env, Region(region), 1, Targets(filled), Targets(after));
    }
  }

  // ---------------------------------------------------------------- a whole plan

  lemma {:induction false} PlanDoes(env: Env, tasks: seq<Task>, i: nat)
    requires i < |tasks| && Nested(env, tasks[i]) && |PerformAll(env, tasks)| < env.policy.maxNewReplicas
    ensures Done(env, tasks[i], Targets(PerformAll(env, tasks)))
  {
    hide Done, Perform, Targets, Nested;
    var front, last := tasks[..|tasks| - 1], tasks[|tasks| - 1];
    var before, after := PerformAll(env, front), PerformAll(env, tasks);
    PerformDoes(env, last, before);
    if i < |front| {
      PlanDoes(env, front, i);
      TargetsGrow(before, after);
      DoneStays(env, tasks[i], Targets(before), Targets(after));
    }
  }

  /** With nothing left to do, a plan is empty. */
  lemma {:induction false} NothingToDo(env: Env, tasks: seq<Task>)
    requires forall t <- tasks :: Done(env, t, {})
    ensures PerformAll(env, tasks) == []
  {
    hide Done, Perform;
    if tasks != [] {
      NothingToDo(env, tasks[..|tasks| - 1]);
      assert Targets([]) == {};
      PerformDoes(env, tasks[|tasks| - 1], []);
    }
  }

  lemma {:induction false} EmptyPlanDid(env: Env, tasks: seq<Task>, i: nat)
    requires i < |tasks| && PerformAll(env, tasks) == [] && env.policy.maxNewReplicas > 0
    ensures Done(env, tasks[i], {})
  {
    hide Done, Perform;
    var front, last := tasks[..|tasks| - 1], tasks[|tasks| - 1];
    PerformDoes(env, last, PerformAll(env, front));
    assert Targets([]) == {};
    if i < |front| {
      EmptyPlanDid(env, front, i);
    }
  }

  /** The environment once a plan has been carried out. */
  function Applied(env: Env, plan: seq<Placement>): Env {
    env.(existing := env.existing + Targets(plan))
  }

  lemma AppliedCounts(env: Env, plan: seq<Placement>, scope: Scope)
    ensures Count(Applied(env, plan), scope, {}) == Count(env, scope, Targets(plan))
    ensures NoCandidates(Applied(env, plan), scope, {}) <==> NoCandidates(env, scope, Targets(plan))
  {
    hide Targets;
    var env', none, ids := Applied(env, plan), {}, Targets(plan);
    FilterSame(env.nodes, n => Matches(n, scope) && (n.id in env'.existing || n.id in none),
               n => Matches(n, scope) && (n.id in env.existing || n.id in ids));
    forall n <- env.nodes
      ensures IsCandidate(env', scope, {}, n) <==> IsCandidate(env, scope, Targets(plan), n)
    {}
  }

  lemma AppliedDone(env: Env, plan: seq<Placement>, task: Task)
    ensures Done(Applied(env, plan), task, {}) <==> Done(env, task, Targets(plan))
  {
    hide Count, NoCandidates, Targets, Applied;
    match task
    case Baseline(scope, target) => AppliedCounts(env, plan, scope);
    case Demand(region, continent) =>
      AppliedCounts(env, plan, Region(region));
      AppliedCounts(env, plan, Continent(continent));
  }

  /** Planning again, whatever the visiting orders, adds nothing exactly when every task is done. */
  lemma ReplanIsEmptyIffDone(env: Env, demand: seq<Signal>, plan: seq<Placement>, again: seq<Task>)
    requires IsWork(env, demand, again) && env.policy.maxNewReplicas > 0
    ensures PerformAll(Applied(env, plan), again) == [] <==> forall t <- again :: Done(env, t, Targets(plan))
  {
    hide Done, Targets, IsWork;
    var env' := Applied(env, plan);
    forall t <- again
      ensures Done(env', t, {}) <==> Done(env, t, Targets(plan))
    {
      AppliedDone(env, plan, t);
    }
    if PerformAll(env', again) == [] {
      forall i | 0 <= i < |again|
        ensures Done(env', again[i], {})
      {
        EmptyPlanDid(env', again, i);
      }
    }
    if forall t <- again :: Done(env, t, Targets(plan)) {
      NothingToDo(env', again);
    }
  }

  /** Fixpoint: with consistent geography and the cap not reached, carrying out a plan and planning again for
      the same nodes and demand gives the empty plan, in whatever orders regions are visited. */
  lemma PlanIsFixpoint(env: Env, demand: seq<Signal>, tasks: seq<Task>, again: seq<Task>)
    requires IsWork(env, demand, tasks) && IsWork(Applied(env, PerformAll(env, tasks)), demand, again)
    requires ConsistentGeography(env, demand)
    requires |PerformAll(env, tasks)| < env.policy.maxNewReplicas
    ensures PerformAll(Applied(env, PerformAll(env, tasks)), again) == []
  {
    var plan := PerformAll(env, tasks);
    SameWork(env, plan, demand, tasks, again);
    forall t <- again
      ensures Done(env, t, Targets(plan))
    {
      assert t in tasks;
      var i :| 0 <= i < |tasks| && tasks[i] == t;
      WorkIsNested(env, demand, tasks, t);
      PlanDoes(env, tasks, i);
    }
    hide Done, Targets, PerformAll, ConsistentGeography;
    assert IsWork(env, demand, again);
    ReplanIsEmptyIffDone(env, demand, plan, again);
  }

  lemma SameWork(env: Env, plan: seq<Placement>, demand: seq<Signal>, tasks: seq<Task>, again: seq<Task>)
    requires IsWork(env, demand, tasks) && IsWork(Applied(env, plan), demand, again)
    ensures IsWork(env, demand, again) && forall t :: t in tasks <==> t in again
  {
    hide HotScopes;
  }

  lemma WorkIsNested(env: Env, demand: seq<Signal>, tasks: seq<Task>, task: Task)
    requires IsWork(env, demand, tasks) && ConsistentGeography(env, demand) && task in tasks
    ensures Nested(env, task)
  {
    if task.Demand? {
      assert (task.region, task.continent) in HotScopes(env.policy, env.stream.id, demand);
    }
  }

  // ---------------------------------------------------------------- why both conditions are needed

  function TwoNodes(policy: Policy, a: Node, b: Node): Env {
    Env(policy, Stream(1, 1), [a, b], {}, (n, ids) => 0.0, (n, ids) => 0.0)
  }

  lemma FilterOfTwo(a: Node, b: Node, keep: Node -> bool)
    ensures Filter([a, b], keep) == (if keep(a) then [a] else []) + (if keep(b) then [b] else [])
  {
    assert [a, b][..1] == [a];
    assert Filter([a], keep) == if keep(a) then [a] else [];
  }

  lemma NotDone(env: Env, scope: Scope, target: nat, ids: set<Id>, n: Node)
    requires Count(env, scope, ids) < target && n in env.nodes && IsCandidate(env, scope, ids, n)
    ensures !Filled(env, scope, target, ids)
  {}

  /** A plan cut off by the cap leaves work for the next one. */
  lemma CapBreaksFixpoint(a: Node, b: Node, c: Id)
    requires a == Node(Id("a"), Id("r"), c, 1, 0, false) && b == Node(Id("b"), Id("r"), c, 1, 0, false)
    ensures
      var env := TwoNodes(Policy(0, 2, 1.0, 1, 0.0, 1), a, b);
      var tasks := [Baseline(Continent(c), 2)];
      var plan := PerformAll(env, tasks);
      && IsWork(env, [], tasks) && IsWork(Applied(env, plan), [], tasks)
      && PerformAll(Applied(env, plan), tasks) != []
  {
    var env := TwoNodes(Policy(0, 2, 1.0, 1, 0.0, 1), a, b);
    var tasks, scope := [Baseline(Continent(c), 2)], Continent(c);
    var plan := PerformAll(env, tasks);
    CapWork(env, a, b, c);
    SameWorkAfter(env, plan, [], tasks);
    hide PerformAll, Choose, IsWork;
    PlanIsSound(env, tasks);
    var ids := Targets(plan);
    var left := if ids == {Id("a")} then b else a;
    OneTarget(plan, left.id);
    FilterOfTwo(a, b, n => Matches(n, scope) && (n.id in env.existing || n.id in ids));
    assert left in env.nodes;
    NotDone(env, scope, 2, ids, left);
    AppliedDone(env, plan, tasks[0]);
    if PerformAll(Applied(env, plan), tasks) == [] {
      EmptyPlanDid(Applied(env, plan), tasks, 0);
    }
  }

  lemma CapWork(env: Env, a: Node, b: Node, c: Id)
    requires env == TwoNodes(Policy(0, 2, 1.0, 1, 0.0, 1), a, b) && a.continent == c && b.continent == c
    ensures IsWork(env, [], [Baseline(Continent(c), 2)])
  {
    assert a in env.nodes;
    assert Continents(env.nodes) == {c};
    assert HotScopes(env.policy, env.stream.id, []) == {};
  }

  lemma GeographyWork(env: Env, demand: seq<Signal>, r: Id, c: Id)
    requires env.policy.perRegion == 0 && env.policy.perContinent == 0 && env.policy.demandReads == 1.0
    requires demand == [Signal(env.stream.id, r, c, 1, 1.0)]
    ensures IsWork(env, demand, [Demand(r, c)])
  {
    var s := demand[0];
    assert demand[..0] == [];
    assert TotalReads(demand, env.stream.id, r, c) == TotalReads([], env.stream.id, r, c) + 1.0;
    assert s in demand;
    assert HotScopes(env.policy, env.stream.id, demand) == {(r, c)};
  }

  /** What is asked for does not depend on the replicas that exist. */
  lemma SameWorkAfter(env: Env, plan: seq<Placement>, demand: seq<Signal>, tasks: seq<Task>)
    requires IsWork(env, demand, tasks)
    ensures IsWork(Applied(env, plan), demand, tasks)
  {
    hide HotScopes;
  }

  lemma OneTarget(plan: seq<Placement>, id: Id)
    requires |plan| <= 1 && Targets(plan) != {id}
    ensures id !in Targets(plan)
  {
    assert plan == [] || plan == [plan[0]];
    assert plan != [] ==> Targets(plan) == {plan[0].target};
  }

  /** A demand whose region lies in another continent is first met in the region, then again in the continent. */
  lemma GeographyBreaksFixpoint(a: Node, b: Node)
    requires a == Node(Id("a"), Id("r"), Id("c1"), 1, 0, false) && b == Node(Id("b"), Id("s"), Id("c2"), 1, 0, false)
    ensures
      var env := TwoNodes(Policy(0, 0, 1.0, 1, 0.0, 9), a, b);
      var demand := [Signal(1, Id("r"), Id("c2"), 1, 1.0)];
      var tasks := [Demand(Id("r"), Id("c2"))];
      var plan := PerformAll(env, tasks);
      && IsWork(env, demand, tasks) && IsWork(Applied(env, plan), demand, tasks)
      && |plan| < env.policy.maxNewReplicas
      && PerformAll(Applied(env, plan), tasks) != []
  {
    var env := TwoNodes(Policy(0, 0, 1.0, 1, 0.0, 9), a, b);
    var tasks := [Demand(Id("r"), Id("c2"))];
    var placed := [Placement(a.id, DemandRegion(Id("r")))];
    RegionFirst(env, a, b);
    var plan := PerformAll(env, tasks);
    assert tasks[..0] == [] && plan == placed;
    var demand := [Signal(1, Id("r"), Id("c2"), 1, 1.0)];
    GeographyWork(env, demand, Id("r"), Id("c2"));
    SameWorkAfter(env, plan, demand, tasks);
    hide PerformAll, Choose, Perform, IsWork;
    var scope, ids := Continent(Id("c2")), Targets(plan);
    assert ids == {a.id};
    FilterOfTwo(a, b, n => Matches(n, scope) && (n.id in env.existing || n.id in ids));
    assert b in env.nodes;
    NotDone(env, scope, 1, ids, b);
    AppliedDone(env, plan, tasks[0]);
    if PerformAll(Applied(env, plan), tasks) == [] {
      EmptyPlanDid(Applied(env, plan), tasks, 0);
    }
  }

  /** The region's only node is taken, and the demand is left at that. */
  lemma RegionFirst(env: Env, a: Node, b: Node)
    requires a == Node(Id("a"), Id("r"), Id("c1"), 1, 0, false) && b == Node(Id("b"), Id("s"), Id("c2"), 1, 0, false)
    requires env == TwoNodes(Policy(0, 0, 1.0, 1, 0.0, 9), a, b)
    ensures Perform(env, Demand(Id("r"), Id("c2")), []) == [Placement(a.id, DemandRegion(Id("r")))]
  {
    var scope, reason := Region(Id("r")), DemandRegion(Id("r"));
    var placed, none := [Placement(a.id, reason)], {};
    assert Targets([]) == none && Targets(placed) == {a.id};
    FilterOfTwo(a, b, n => Matches(n, scope) && (n.id in env.existing || n.id in none));
    assert Count(env, scope, none) == 0;
    ChooseFinds(env, scope, none);
    assert a in env.nodes && IsCandidate(env, scope, none, a);
    assert !IsCandidate(env, scope, none, b);
    assert Choose(env, scope, none) == Some(a);
    CountsOne(env, scope, Targets(placed), a);
    hide Choose, Count, Filter;
    FillFills(env, scope, 1, reason, placed);
    FillOnce(env, scope, reason, a);
  }

  /** A fill of an empty selection whose first choice is enough. */
  lemma FillOnce(env: Env, scope: Scope, reason: Reason, n: Node)
    requires Count(env, scope, {}) == 0 && Choose(env, scope, {}) == Some(n) && env.policy.maxNewReplicas > 0
    requires Fill(env, scope, 1, reason, [Placement(n.id, reason)]) == [Placement(n.id, reason)]
    ensures Fill(env, scope, 1, reason, []) == [Placement(n.id, reason)]
  {
    hide Choose, Count;
    assert Targets([]) == {};
    assert [] + [Placement(n.id, reason)] == [Placement(n.id, reason)];
  }

  // ---------------------------------------------------------------- soundness

  /** Each placement was the best choice in the scope of its reason, given the replicas and placements before it;
      no node is chosen twice. */
  ghost predicate Sound(env: Env, selected: seq<Placement>) {
    && (forall i, j :: 0 <= i < j < |selected| ==> selected[i].target != selected[j].target)
    && (forall i :: 0 <= i < |selected| ==> WellPlaced(env, selected[..i], selected[i]))
  }

  ghost predicate WellPlaced(env: Env, before: seq<Placement>, p: Placement) {
    exists n <- env.nodes :: n.id == p.target && BestChoice(env, ReasonScope(p.reason), Targets(before), n)
  }

  function ReasonScope(reason: Reason): Scope {
    match reason
    case BaselineRegion(r) => Region(r)
    case BaselineContinent(c) => Continent(c)
    case DemandRegion(r) => Region(r)
    case DemandContinent(c) => Continent(c)
  }

  lemma SoundSnoc(env: Env, selected: seq<Placement>, n: Node, reason: Reason)
    requires Sound(env, selected) && n in env.nodes
    requires BestChoice(env, ReasonScope(reason), Targets(selected), n)
    ensures Sound(env, selected + [Placement(n.id, reason)])
  {
    hide CanStore, Matches;
    var longer := selected + [Placement(n.id, reason)];
    forall p <- selected
      ensures p.target != n.id
    {
      assert p.target in Targets(selected);
    }
    hide BestChoice, Targets, ReasonScope;
    assert WellPlaced(env, selected, Placement(n.id, reason));
    forall i | 0 <= i < |longer|
      ensures WellPlaced(env, longer[..i], longer[i])
    {
      assert longer[..i] == selected[..i];
      assert i == |selected| ==> selected[..i] == selected;
    }
  }

  lemma {:induction false} FillIsSound(
    env: Env, scope: Scope, target: nat, reason: Reason, selected: seq<Placement>)
    requires Sound(env, selected) && ReasonScope(reason) == scope
    ensures Sound(env, Fill(env, scope, target, reason, selected))
    decreases env.policy.maxNewReplicas - |selected|
  {
    hide Sound, Count, Choose, BestChoice, Targets;
    ChooseFinds(env, scope, Targets(selected));
    var next := Choose(env, scope, Targets(selected));
    if Count(env, scope, Targets(selected)) < target && |selected| < env.policy.maxNewReplicas && next.Some? {
      SoundSnoc(env, selected, next.value, reason);
      FillIsSound(env, scope, target, reason, selected + [Placement(next.value.id, reason)]);
    }
  }

  lemma PerformIsSound(env: Env, task: Task, selected: seq<Placement>)
    requires Sound(env, selected)
    ensures Sound(env, Perform(env, task, selected))
  {
    hide Sound, Count, Fill, Targets;
    match task
    case Baseline(scope, target) => FillIsSound(env, scope, target, BaselineReason(scope), selected);
    case Demand(region, continent) =>
      FillIsSound(env, Region(region), 1, DemandRegion(region), selected);
      var filled := if Count(env, Region(region), Targets(selected)) > 0 then selected
                    else Fill(env, Region(region), 1, DemandRegion(region), selected);
      FillIsSound(env, Continent(continent), 1, DemandContinent(continent), filled);
  }

  /** Every planned replica goes to a node not chosen before that was the best choice for its reason; the plan
      never exceeds the cap. */
  lemma {:induction false} PlanIsSound(env: Env, tasks: seq<Task>)
    ensures Sound(env, PerformAll(env, tasks)) && |PerformAll(env, tasks)| <= env.policy.maxNewReplicas
  {
    hide Perform;
    if tasks != [] {
      var front, last := tasks[..|tasks| - 1], tasks[|tasks| - 1];
      PlanIsSound(env, front);
      PerformIsSound(env, last, PerformAll(env, front));
      PerformDoes(env, last, PerformAll(env, front));
    }
  }
}
