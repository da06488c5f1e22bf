/** What one piece of planning work adds, told by the nodes themselves: which demand is hot, how replicas are
    counted, and where a baseline or a demand puts them. */
module ReplicationDemand {
  import opened Prelude
  import opened ReplicationPlan
  import opened ReplicationFixpoint

  // ---------------------------------------------------------------- counting

  function Indices(nodes: seq<Node>, keep: Node -> bool): set<nat> {
    set i: nat | i < |nodes| && keep(nodes[i])
  }

  lemma {:induction false} FilterCount(nodes: seq<Node>, keep: Node -> bool)
    ensures |Filter(nodes, keep)| == |Indices(nodes, keep)|
  {
    if nodes != [] {
      var front, last := nodes[..|nodes| - 1], |nodes| - 1;
      FilterCount(front, keep);
      assert Indices(nodes, keep) == Indices(front, keep) + (if keep(nodes[last]) then {last} else {});
    }
  }

  predicate InScope(n: Node, scope: Scope) {
    scope == Region(n.region) || scope == Continent(n.continent)
  }

  /** Replicas are counted node by node: those of the scope that hold one or are about to. */
  lemma CountsReplicas(env: Env, scope: Scope, ids: set<Id>)
    ensures Count(env, scope, ids)
         == |set i: nat | i < |env.nodes| && InScope(env.nodes[i], scope) && env.nodes[i].id in env.existing + ids|
  {
    var keep := n => Matches(n, scope) && (n.id in env.existing || n.id in ids);
    FilterCount(env.nodes, keep);
    assert Indices(env.nodes, keep)
        == set i: nat | i < |env.nodes| && InScope(env.nodes[i], scope) && env.nodes[i].id in env.existing + ids;
  }

  ghost predicate HasReplica(env: Env, scope: Scope, ids: set<Id>) {
    exists n <- env.nodes :: InScope(n, scope) && n.id in env.existing + ids
  }

  ghost predicate HasRoom(env: Env, scope: Scope, ids: set<Id>) {
    exists n <- env.nodes ::
      && InScope(n, scope) && n.id !in env.existing + ids && !n.draining
      && (n.usedStorage + env.stream.bytes <= n.totalStorage || env.stream.bytes == 0)
  }

  lemma CountedIsHeld(env: Env, scope: Scope, ids: set<Id>)
    ensures Count(env, scope, ids) > 0 <==> HasReplica(env, scope, ids)
  {
    var keep := n => Matches(n, scope) && (n.id in env.existing || n.id in ids);
    FilterMembers(env.nodes, keep);
    if Count(env, scope, ids) > 0 {
      assert Filter(env.nodes, keep)[0] in Filter(env.nodes, keep);
    }
  }

  lemma CandidateIsRoom(env: Env, scope: Scope, ids: set<Id>)
    ensures !NoCandidates(env, scope, ids) <==> HasRoom(env, scope, ids)
  {
    hide IsCandidate;
    forall n <- env.nodes
      ensures IsCandidate(env, scope, ids, n)
         <==> && InScope(n, scope) && n.id !in env.existing + ids && !n.draining
              && (n.usedStorage + env.stream.bytes <= n.totalStorage || env.stream.bytes == 0)
    {
      CandidateFields(env, scope, ids, n);
    }
  }

  // ---------------------------------------------------------------- hot demand

  /** A pair is planned for exactly when the stream's signals for it reach one of the two thresholds. */
  lemma HotExactly(policy: Policy, stream: nat, demand: seq<Signal>, region: Id, continent: Id)
    ensures (region, continent) in HotScopes(policy, stream, demand)
       <==> && (exists s <- demand :: s.stream == stream && s.region == region && s.continent == continent)
            && (|| TotalReads(demand, stream, region, continent) >= policy.demandReads
                || TotalReaders(demand, stream, region, continent) >= policy.demandReaders)
  {
    hide TotalReads, TotalReaders;
  }

  /** The work there is: the configured baseline of every continent and region that has a node, and hot demand. */
  lemma WorkExactly(env: Env, demand: seq<Signal>, tasks: seq<Task>, place: Id, other: Id, target: nat)
    requires IsWork(env, demand, tasks)
    ensures Baseline(Continent(place), target) in tasks
       <==> target == env.policy.perContinent > 0 && exists n <- env.nodes :: n.continent == place
    ensures Baseline(Region(place), target) in tasks
       <==> target == env.policy.perRegion > 0 && exists n <- env.nodes :: n.region == place
    ensures Demand(place, other) in tasks <==> (place, other) in HotScopes(env.policy, env.stream.id, demand)
  {
    hide HotScopes;
  }

  // ---------------------------------------------------------------- one turn

  /** Only placements with this reason are added. */
  ghost predicate AddsFor(reason: Reason, before: seq<Placement>, after: seq<Placement>) {
    && before <= after
    && forall i :: |before| <= i < |after| ==> after[i].reason == reason
  }

  lemma {:induction false} FillAddsFor(env: Env, scope: Scope, target: nat, reason: Reason, selected: seq<Placement>)
    ensures AddsFor(reason, selected, Fill(env, scope, target, reason, selected))
    decreases env.policy.maxNewReplicas - |selected|
  {
    hide Count, Choose, Targets;
    var next := Choose(env, scope, Targets(selected));
    if Count(env, scope, Targets(selected)) < target && |selected| < env.policy.maxNewReplicas && next.Some? {
      FillAddsFor(env, scope, target, reason, selected + [Placement(next.value.id, reason)]);
    }
  }

  /** A baseline adds placements for its own scope until the scope has its replicas, no node of it has room, or
      the cap is reached. */
  lemma BaselinePlaces(env: Env, scope: Scope, target: nat, selected: seq<Placement>)
    ensures
      var after := Perform(env, Baseline(scope, target), selected);
      var reason := match scope case Region(r) => BaselineRegion(r) case Continent(c) => BaselineContinent(c);
      && AddsFor(reason, selected, after)
      && (|after| < env.policy.maxNewReplicas ==>
            || |set i: nat | i < |env.nodes| && InScope(env.nodes[i], scope)
                             && env.nodes[i].id in env.existing + Targets(after)| >= target
            || !HasRoom(env, scope, Targets(after)))
  {
    var after := Perform(env, Baseline(scope, target), selected);
    FillAddsFor(env, scope, target, BaselineReason(scope), selected);
    FillFills(env, scope, target, BaselineReason(scope), selected);
    CountsReplicas(env, scope, Targets(after));
    CandidateIsRoom(env, scope, Targets(after));
  }

  /** A fill for one replica of a scope that has none adds exactly one if a node has room. */
  lemma FillOne(env: Env, scope: Scope, reason: Reason, selected: seq<Placement>)
    requires |selected| < env.policy.maxNewReplicas && !HasReplica(env, scope, Targets(selected))
    ensures
      var after := Fill(env, scope, 1, reason, selected);
      && AddsFor(reason, selected, after)
      && |after| == |selected| + (if HasRoom(env, scope, Targets(selected)) then 1 else 0)
  {
    hide Choose, Count, NoCandidates, HasReplica, HasRoom, Targets;
    FillAddsFor(env, scope, 1, reason, selected);
    CountedIsHeld(env, scope, Targets(selected));
    CandidateIsRoom(env, scope, Targets(selected));
    ChooseFinds(env, scope, Targets(selected));
    var next := Choose(env, scope, Targets(selected));
    if next.Some? {
      var p := Placement(next.value.id, reason);
      TargetsSnoc(selected, p);
      CandidateMatches(env, scope, Targets(selected), next.value);
      CountsOne(env, scope, Targets(selected + [p]), next.value);
      FillFills(env, scope, 1, reason, selected + [p]);
    }
  }

  lemma CandidateMatches(env: Env, scope: Scope, ids: set<Id>, n: Node)
    requires BestChoice(env, scope, ids, n)
    ensures Matches(n, scope)
  {}

  /** A hot demand adds at most one replica: in its region, if that has none and a node with room; otherwise in its
      continent, if that has none and a node with room. */
  lemma DemandPlaces(env: Env, region: Id, continent: Id, selected: seq<Placement>)
    requires |selected| < env.policy.maxNewReplicas
    ensures
      var after := Perform(env, Demand(region, continent), selected);
      var ids := Targets(selected);
      if !HasReplica(env, Region(region), ids) && HasRoom(env, Region(region), ids) then
        |after| == |selected| + 1 && AddsFor(DemandRegion(region), selected, after)
      else if !HasReplica(env, Continent(continent), ids) && HasRoom(env, Continent(continent), ids) then
        |after| == |selected| + 1 && AddsFor(DemandContinent(continent), selected, after)
      else
        after == selected
  {
    hide Fill, Count, HasReplica, HasRoom, Targets;
    var ids := Targets(selected);
    CountedIsHeld(env, Region(region), ids);
    CountedIsHeld(env, Continent(continent), ids);
    if !HasReplica(env, Region(region), ids) {
      FillOne(env, Region(region), DemandRegion(region), selected);
      if !HasRoom(env, Region(region), ids) {
        assert Fill(env, Region(region), 1, DemandRegion(region), selected) == selected;
      }
    }
    if !HasReplica(env, Continent(continent), ids) {
      FillOne(env, Continent(continent), DemandContinent(continent), selected);
      if !HasRoom(env, Continent(continent), ids) {
        assert Fill(env, Continent(continent), 1, DemandContinent(continent), selected) == selected;
      }
    }
  }
}
