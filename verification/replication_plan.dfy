/** The replica planner: a greedy fill over nested scopes.  Scores and distances are arbitrary functions of a
    node and the replica set. */
module ReplicationPlan {
  import opened Prelude

  datatype Id = Id(name: string)

  datatype Node = Node(id: Id, region: Id, continent: Id, totalStorage: nat, usedStorage: nat, draining: bool)

  datatype Stream = Stream(id: nat, bytes: nat)

  datatype Signal = Signal(stream: nat, region: Id, continent: Id, activeReaders: nat, readsPerSec: real)

  datatype Policy = Policy(
    perRegion: nat, perContinent: nat, demandReads: real, demandReaders: nat, minDistance: real, maxNewReplicas: nat)

  datatype Scope = Region(region: Id) | Continent(continent: Id)

  datatype Reason = BaselineRegion(region: Id) | BaselineContinent(continent: Id)
                  | DemandRegion(region: Id) | DemandContinent(continent: Id)

  datatype Placement = Placement(target: Id, reason: Reason)

  /** Everything a plan depends on; `existing` are the ids that already hold a replica. */
  datatype Env = Env(
    policy: Policy, stream: Stream, nodes: seq<Node>, existing: set<Id>,
    score: (Node, set<Id>) -> real, distance: (Node, set<Id>) -> real)

  /** One unit of planning work; `demand` asks for a replica in the region or else in the continent. */
  datatype Task = Baseline(scope: Scope, target: nat) | Demand(region: Id, continent: Id)

  predicate Matches(n: Node, scope: Scope) {
    match scope
    case Region(r) => n.region == r
    case Continent(c) => n.continent == c
  }

  predicate CanStore(n: Node, stream: Stream) {
    !n.draining && SatSub(n.totalStorage, n.usedStorage) >= stream.bytes
  }

  function Targets(selected: seq<Placement>): set<Id> {
    set p | p in selected :: p.target
  }

  // ---------------------------------------------------------------- choosing

  function Filter(nodes: seq<Node>, keep: Node -> bool): seq<Node> {
    if nodes == [] then []
    else
      var last := nodes[|nodes| - 1];
      Filter(nodes[..|nodes| - 1], keep) + (if keep(last) then [last] else [])
  }

  predicate IsCandidate(env: Env, scope: Scope, ids: set<Id>, n: Node) {
    Matches(n, scope) && n.id !in env.existing && n.id !in ids && CanStore(n, env.stream)
  }

  function Candidates(env: Env, scope: Scope, ids: set<Id>): seq<Node> {
    Filter(env.nodes, n => IsCandidate(env, scope, ids, n))
  }

  /** Nodes far enough from every replica are preferred, if there are any. */
  function Pool(env: Env, scope: Scope, ids: set<Id>): seq<Node> {
    var candidates := Candidates(env, scope, ids);
    var far := Filter(candidates, n => env.distance(n, env.existing + ids) >= env.policy.minDistance);
    if far == [] then candidates else far
  }

  /** The last of the nodes with the greatest score. */
  function Best(pool: seq<Node>, score: Node -> real): (n: Node)
    requires pool != []
  {
    var last := pool[|pool| - 1];
    if |pool| == 1 then last
    else
      var best := Best(pool[..|pool| - 1], score);
      if score(last) >= score(best) then last else best
  }

  function Choose(env: Env, scope: Scope, ids: set<Id>): Option<Node> {
    var pool := Pool(env, scope, ids);
    if pool == [] then None else Some(Best(pool, n => env.score(n, env.existing + ids)))
  }

  function Count(env: Env, scope: Scope, ids: set<Id>): nat {
    |Filter(env.nodes, n => Matches(n, scope) && (n.id in env.existing || n.id in ids))|
  }

  // ---------------------------------------------------------------- filling

  /** Adds nodes until the scope has enough replicas, the cap is reached or no candidate is left. */
  function Fill(env: Env, scope: Scope, target: nat, reason: Reason, selected: seq<Placement>): seq<Placement>
    decreases env.policy.maxNewReplicas - |selected|
  {
    if Count(env, scope, Targets(selected)) >= target || |selected| >= env.policy.maxNewReplicas then selected
    else
      match Choose(env, scope, Targets(selected))
      case None => selected
      case Some(n) => Fill(env, scope, target, reason, selected + [Placement(n.id, reason)])
  }

  function BaselineReason(scope: Scope): Reason {
    match scope
    case Region(r) => BaselineRegion(r)
    case Continent(c) => BaselineContinent(c)
  }

  function Perform(env: Env, task: Task, selected: seq<Placement>): seq<Placement> {
    match task
    case Baseline(scope, target) => Fill(env, scope, target, BaselineReason(scope), selected)
    case Demand(region, continent) =>
      var filled := if Count(env, Region(region), Targets(selected)) > 0 then selected
                    else Fill(env, Region(region), 1, DemandRegion(region), selected);
      if filled != selected || Count(env, Continent(continent), Targets(filled)) > 0 then filled
      else Fill(env, Continent(continent), 1, DemandContinent(continent), filled)
  }

  function PerformAll(env: Env, tasks: seq<Task>): seq<Placement> {
    if tasks == [] then [] else Perform(env, tasks[|tasks| - 1], PerformAll(env, tasks[..|tasks| - 1]))
  }

  // ---------------------------------------------------------------- which tasks

  function Regions(nodes: seq<Node>): set<Id> {
    set n | n in nodes :: n.region
  }

  function Continents(nodes: seq<Node>): set<Id> {
    set n | n in nodes :: n.continent
  }

  function TotalReads(demand: seq<Signal>, stream: nat, region: Id, continent: Id): real {
    if demand == [] then 0.0
    else
      var last := demand[|demand| - 1];
      TotalReads(demand[..|demand| - 1], stream, region, continent)
      + (if last.stream == stream && last.region == region && last.continent == continent then last.readsPerSec else 0.0)
  }

  function TotalReaders(demand: seq<Signal>, stream: nat, region: Id, continent: Id): nat {
    if demand == [] then 0
    else
      var last := demand[|demand| - 1];
      SatAdd(TotalReaders(demand[..|demand| - 1], stream, region, continent),
             if last.stream == stream && last.region == region && last.continent == continent then last.activeReaders
             else 0)
  }

  /** The region and continent pairs whose total demand for the stream is hot. */
  function HotScopes(policy: Policy, stream: nat, demand: seq<Signal>): set<(Id, Id)> {
    set s | s in demand && s.stream == stream
            && (TotalReads(demand, stream, s.region, s.continent) >= policy.demandReads
                || TotalReaders(demand, stream, s.region, s.continent) >= policy.demandReaders)
      :: (s.region, s.continent)
  }

  /** The work of one plan, in whatever order maps are visited. */
  ghost predicate IsWork(env: Env, demand: seq<Signal>, tasks: seq<Task>) {
    forall t :: t in tasks <==>
      match t
      case Baseline(Continent(c), target) =>
        target == env.policy.perContinent && target > 0 && c in Continents(env.nodes)
      case Baseline(Region(r), target) =>
        target == env.policy.perRegion && target > 0 && r in Regions(env.nodes)
      case Demand(r, c) => (r, c) in HotScopes(env.policy, env.stream.id, demand)
  }

  /** Every node of a demanded region lies in the demanded continent. */
  predicate ConsistentGeography(env: Env, demand: seq<Signal>) {
    forall s <- demand, n <- env.nodes :: s.stream == env.stream.id && n.region == s.region ==> n.continent == s.continent
  }

  // ---------------------------------------------------------------- filters and counts

  lemma {:induction false} FilterMembers(nodes: seq<Node>, keep: Node -> bool)
    ensures forall n :: n in Filter(nodes, keep) <==> n in nodes && keep(n)
  {
    if nodes != [] {
      var front, last := nodes[..|nodes| - 1], nodes[|nodes| - 1];
      FilterMembers(front, keep);
      assert nodes == front + [last];
      assert forall n :: n in nodes <==> n in front || n == last;
    }
  }

  lemma {:induction false} FilterGrows(nodes: seq<Node>, keep: Node -> bool, more: Node -> bool)
    requires forall n <- nodes :: keep(n) ==> more(n)
    ensures |Filter(nodes, keep)| <= |Filter(nodes, more)|
  {
    if nodes != [] {
      FilterGrows(nodes[..|nodes| - 1], keep, more);
    }
  }

  lemma {:induction false} FilterSame(nodes: seq<Node>, a: Node -> bool, b: Node -> bool)
    requires forall n <- nodes :: a(n) == b(n)
    ensures Filter(nodes, a) == Filter(nodes, b)
  {
    if nodes != [] {
      FilterSame(nodes[..|nodes| - 1], a, b);
    }
  }

  lemma {:induction false} BestIsBest(pool: seq<Node>, score: Node -> real)
    requires pool != []
    ensures Best(pool, score) in pool
    ensures forall n <- pool :: score(n) <= score(Best(pool, score))
  {
    if |pool| > 1 {
      BestIsBest(pool[..|pool| - 1], score);
    }
  }

  ghost predicate NoCandidates(env: Env, scope: Scope, ids: set<Id>) {
    forall n <- env.nodes :: !IsCandidate(env, scope, ids, n)
  }

  /** A candidate lies in the scope, holds no replica, is not draining and has room for the stream. */
  lemma CandidateFields(env: Env, scope: Scope, ids: set<Id>, n: Node)
    ensures IsCandidate(env, scope, ids, n)
       <==> && (scope == Region(n.region) || scope == Continent(n.continent))
            && n.id !in env.existing + ids
            && !n.draining
            && (n.usedStorage + env.stream.bytes <= n.totalStorage || env.stream.bytes == 0)
  {}

  /** The node is a candidate that no other one beats: if it is far enough from every replica, no other far one
      scores higher; if it is not, no candidate is far enough and none scores higher. */
  ghost predicate BestChoice(env: Env, scope: Scope, ids: set<Id>, n: Node) {
    var replicas := env.existing + ids;
    && IsCandidate(env, scope, ids, n)
    && forall m <- env.nodes :: IsCandidate(env, scope, ids, m) ==>
         if env.distance(n, replicas) >= env.policy.minDistance
         then env.distance(m, replicas) >= env.policy.minDistance ==> env.score(m, replicas) <= env.score(n, replicas)
         else env.distance(m, replicas) < env.policy.minDistance && env.score(m, replicas) <= env.score(n, replicas)
  }

  /** A candidate is chosen whenever there is one, and what is chosen is the best of them. */
  lemma ChooseFinds(env: Env, scope: Scope, ids: set<Id>)
    ensures Choose(env, scope, ids).None? <==> NoCandidates(env, scope, ids)
    ensures Choose(env, scope, ids).Some? ==>
              Choose(env, scope, ids).value in env.nodes && BestChoice(env, scope, ids, Choose(env, scope, ids).value)
  {
    hide IsCandidate;
    var keep := n => IsCandidate(env, scope, ids, n);
    FilterMembers(env.nodes, keep);
    var candidates := Candidates(env, scope, ids);
    FilterMembers(candidates, n => env.distance(n, env.existing + ids) >= env.policy.minDistance);
    var pool := Pool(env, scope, ids);
    if pool != [] {
      BestIsBest(pool, n => env.score(n, env.existing + ids));
    }
  }

  lemma CountGrows(env: Env, scope: Scope, ids: set<Id>, more: set<Id>)
    requires ids <= more
    ensures Count(env, scope, ids) <= Count(env, scope, more)
  {
    FilterGrows(env.nodes, n => Matches(n, scope) && (n.id in env.existing || n.id in ids),
                n => Matches(n, scope) && (n.id in env.existing || n.id in more));
  }
}
