/** The fleet lifecycle planner: provisions under sustained pressure, closes idle edges, and lets only the
    region's leader act. */
module EdgeLifecycle {
  import opened Prelude

  datatype Id = Id(name: string)

  /** Node names are numbered in string order, so that `<` on `id` is the comparison of names. */
  datatype Node = Node(
    id: nat, region: Id, updatedMs: nat, lastResponseMs: Option<nat>, activeReaders: nat, overloaded: bool, draining: bool)

  datatype Config = Config(
    enabled: bool, minEdges: nat, maxEdges: nat, scaleUpReaders: nat, idleSeconds: nat, cooldownSeconds: nat)

  datatype Action = Provision(region: Id) | Close(node: nat, region: Id)

  function Normalized(c: Config): (n: Config)
    ensures 1 <= n.minEdges <= n.maxEdges && 1 <= n.cooldownSeconds && n.enabled == c.enabled
  {
    var minEdges := Max(c.minEdges, 1);
    Config(c.enabled, minEdges, Max(c.maxEdges, minEdges), Max(c.scaleUpReaders, 1), Max(c.idleSeconds, 1),
           Max(c.cooldownSeconds, 1))
  }

  /** A configuration within its ranges is left as it is. */
  lemma NormalizedKeepsValid(c: Config)
    requires 1 <= c.minEdges <= c.maxEdges && 1 <= c.scaleUpReaders && 1 <= c.idleSeconds && 1 <= c.cooldownSeconds
    ensures Normalized(c) == c
  {}

  function Millis(seconds: nat): nat {
    Min(seconds * 1000, U64_MAX)
  }

  // ---------------------------------------------------------------- one region

  /** The live nodes of a region, in the order given. */
  function LiveNodes(nodes: seq<Node>, r: Id): seq<Node> {
    if nodes == [] then []
    else
      var last := nodes[|nodes| - 1];
      LiveNodes(nodes[..|nodes| - 1], r) + (if last.region == r && !last.draining then [last] else [])
  }

  function Readers(live: seq<Node>): nat {
    if live == [] then 0 else Readers(live[..|live| - 1]) + live[|live| - 1].activeReaders
  }

  /** The live node with the least name. */
  function Leader(live: seq<Node>): Option<nat> {
    if live == [] then None
    else
      var last := live[|live| - 1].id;
      match Leader(live[..|live| - 1])
      case None => Some(last)
      case Some(best) => Some(if last < best then last else best)
  }

  predicate Pressured(c: Config, live: seq<Node>) {
    (exists n <- live :: n.overloaded) || Readers(live) >= c.scaleUpReaders
  }

  function Activity(n: Node): nat {
    if n.lastResponseMs.Some? then n.lastResponseMs.value else n.updatedMs
  }

  predicate Idle(c: Config, n: Node, now: nat) {
    n.activeReaders == 0 && SatSub(now, Activity(n)) >= Millis(c.idleSeconds)
  }

  predicate Sooner(a: Node, b: Node) {
    Activity(a) < Activity(b) || (Activity(a) == Activity(b) && a.id < b.id)
  }

  /** The idle node inactive for longest, the first by name among equals. */
  function Candidate(c: Config, live: seq<Node>, now: nat): Option<Node> {
    if live == [] then None
    else
      var best, last := Candidate(c, live[..|live| - 1], now), live[|live| - 1];
      if !Idle(c, last, now) then best
      else if best.None? || Sooner(last, best.value) then Some(last)
      else best
  }

  /** What a planner remembers about one region; a missing sample count is zero. */
  datatype Memory = Memory(lastProvision: Option<nat>, samples: nat)

  function Sampled(c: Config, m: Memory, live: seq<Node>): nat {
    if Pressured(c, live) then m.samples + 1 else 0
  }

  /** Pressure has lasted, there is room, the controller leads the region and the cooldown is over. */
  predicate MayProvision(c: Config, m: Memory, live: seq<Node>, controller: nat, now: nat) {
    && |live| < c.maxEdges
    && Sampled(c, m, live) >= 2
    && Leader(live) == Some(controller)
    && SatSub(now, if m.lastProvision.Some? then m.lastProvision.value else 0) >= Millis(c.cooldownSeconds)
  }

  function Decide(c: Config, m: Memory, live: seq<Node>, r: Id, controller: nat, now: nat): Option<Action> {
    if MayProvision(c, m, live, controller, now) then Some(Provision(r))
    else if |live| <= c.minEdges || Leader(live) != Some(controller) then None
    else
      match Candidate(c, live, now)
      case None => None
      case Some(n) => Some(Close(n.id, r))
  }

  function Remember(c: Config, m: Memory, live: seq<Node>, controller: nat, now: nat): Memory {
    Memory(if MayProvision(c, m, live, controller, now) then Some(now) else m.lastProvision, Sampled(c, m, live))
  }

  // ---------------------------------------------------------------- one plan

  function Regions(nodes: seq<Node>): set<Id> {
    set n | n in nodes :: n.region
  }

  /** The whole memory of a planner. */
  datatype Planner = Planner(lastProvision: map<Id, nat>, samples: map<Id, nat>)

  function MemoryOf(p: Planner, r: Id): Memory {
    Memory(if r in p.lastProvision then Some(p.lastProvision[r]) else None, if r in p.samples then p.samples[r] else 0)
  }

  /** What happens to a region in one call: nothing unless the planner is enabled and the region has nodes. */
  function RegionAction(raw: Config, p: Planner, nodes: seq<Node>, r: Id, controller: nat, now: nat): Option<Action> {
    var c := Normalized(raw);
    if !c.enabled || r !in Regions(nodes) then None
    else Decide(c, MemoryOf(p, r), LiveNodes(nodes, r), r, controller, now)
  }

  function RegionMemory(raw: Config, m: Memory, nodes: seq<Node>, r: Id, controller: nat, now: nat): Memory {
    var c := Normalized(raw);
    if !c.enabled || r !in Regions(nodes) then m else Remember(c, m, LiveNodes(nodes, r), controller, now)
  }

  class EdgeLifecyclePlanner {
    var lastProvision: map<Id, nat>
    var samples: map<Id, nat>

    function State(): Planner
      reads this
    {
      Planner(lastProvision, samples)
    }

    constructor ()
      ensures State() == Planner(map[], map[])
    {
      lastProvision, samples := map[], map[];
    }

    /** Every region is planned on its own; the order of the actions is left open. */
    method Plan(raw: Config, nodes: seq<Node>, controller: nat, now: nat) returns (actions: seq<Action>)
      modifies this
      ensures forall r :: MemoryOf(State(), r) == RegionMemory(raw, MemoryOf(old(State()), r), nodes, r, controller, now)
      ensures forall a :: a in actions <==> RegionAction(raw, old(State()), nodes, a.region, controller, now) == Some(a)
      ensures forall i, j :: 0 <= i < j < |actions| ==> actions[i].region != actions[j].region
    {
      hide Decide, Remember, LiveNodes, MemoryOf, Regions, Normalized;
      var c := Normalized(raw);
      actions := [];
      if !c.enabled {
        return;
      }
      ghost var before := State();
      var remaining := Regions(nodes);
      while remaining != {}
        invariant remaining <= Regions(nodes)
        invariant forall r :: MemoryOf(State(), r)
                    == if r in remaining then MemoryOf(before, r)
                       else RegionMemory(raw, MemoryOf(before, r), nodes, r, controller, now)
        invariant forall a :: a in actions <==>
                    a.region !in remaining && RegionAction(raw, before, nodes, a.region, controller, now) == Some(a)
        invariant forall i, j :: 0 <= i < j < |actions| ==> actions[i].region != actions[j].region
        decreases remaining
      {
        var r :| r in remaining;
        remaining := remaining - {r};
        DecideNamesRegion(c, MemoryOf(before, r), LiveNodes(nodes, r), r, controller, now);
        var action := PlanRegion(c, LiveNodes(nodes, r), r, controller, now);
        if action.Some? {
          assert forall a <- actions :: a.region != r;
          actions := actions + [action.value];
        }
      }
    }

    method PlanRegion(c: Config, live: seq<Node>, r: Id, controller: nat, now: nat) returns (action: Option<Action>)
      modifies this
      ensures action == Decide(c, MemoryOf(old(State()), r), live, r, controller, now)
      ensures MemoryOf(State(), r) == Remember(c, MemoryOf(old(State()), r), live, controller, now)
      ensures forall other :: other != r ==> MemoryOf(State(), other) == MemoryOf(old(State()), other)
    {
      var pressure := Pressured(c, live);
      var count := 0;
      if pressure {
        count := (if r in samples then samples[r] else 0) + 1;
        samples := samples[r := count];
      } else {
        samples := samples - {r};
      }
      var leader := Leader(live);
      if |live| < c.maxEdges && count >= 2 && leader == Some(controller) {
        var last := if r in lastProvision then lastProvision[r] else 0;
        if SatSub(now, last) >= Millis(c.cooldownSeconds) {
          lastProvision := lastProvision[r := now];
          return Some(Provision(r));
        }
      }
      if |live| <= c.minEdges || leader != Some(controller) {
        return None;
      }
      var candidate := Candidate(c, live, now);
      return if candidate.Some? then Some(Close(candidate.value.id, r)) else None;
    }
  }

  lemma DecideNamesRegion(c: Config, m: Memory, live: seq<Node>, r: Id, controller: nat, now: nat)
    ensures Decide(c, m, live, r, controller, now).Some? ==> Decide(c, m, live, r, controller, now).value.region == r
  {}

  // ---------------------------------------------------------------- the fleet

  ghost predicate UniqueNames(nodes: seq<Node>) {
    forall i, j :: 0 <= i < j < |nodes| ==> nodes[i].id != nodes[j].id
  }

  function LiveIds(nodes: seq<Node>, r: Id): set<nat> {
    set n | n in nodes && n.region == r && !n.draining :: n.id
  }

  lemma {:induction false} LiveMembers(nodes: seq<Node>, r: Id)
    ensures forall n :: n in LiveNodes(nodes, r) <==> n in nodes && n.region == r && !n.draining
  {
    if nodes != [] {
      var front, last := nodes[..|nodes| - 1], nodes[|nodes| - 1];
      LiveMembers(front, r);
      MembersSnoc(nodes);
    }
  }

  lemma MembersSnoc(nodes: seq<Node>)
    requires nodes != []
    ensures forall n :: n in nodes <==> n in nodes[..|nodes| - 1] || n == nodes[|nodes| - 1]
  {
    assert nodes == nodes[..|nodes| - 1] + [nodes[|nodes| - 1]];
  }

  lemma LiveIdsSnoc(nodes: seq<Node>, r: Id)
    requires nodes != []
    ensures
      var front, last := nodes[..|nodes| - 1], nodes[|nodes| - 1];
      && LiveIds(nodes, r) == LiveIds(front, r) + (if last.region == r && !last.draining then {last.id} else {})
      && (UniqueNames(nodes) ==> last.id !in LiveIds(front, r) && UniqueNames(front))
  {
    MembersSnoc(nodes);
  }

  lemma {:induction false} LiveCount(nodes: seq<Node>, r: Id)
    requires UniqueNames(nodes)
    ensures |LiveNodes(nodes, r)| == |LiveIds(nodes, r)|
  {
    hide UniqueNames, LiveIds;
    if nodes == [] {
      NoLiveIds(r);
    } else {
      LiveIdsSnoc(nodes, r);
      LiveCount(nodes[..|nodes| - 1], r);
    }
  }

  lemma NoLiveIds(r: Id)
    ensures LiveIds([], r) == {}
  {}

  /** The last response of the edge, or when it was last updated if it never responded. */
  predicate LastActive(n: Node, at: nat) {
    at == match n.lastResponseMs case Some(response) => response case None => n.updatedMs
  }

  /** No readers, and nothing heard of it for the idle time. */
  ghost predicate Unused(c: Config, n: Node, now: nat) {
    n.activeReaders == 0 && exists at :: LastActive(n, at) && SatSub(now, at) >= Min(c.idleSeconds * 1000, U64_MAX)
  }

  lemma IdleIsUnused(c: Config, n: Node, now: nat)
    ensures Idle(c, n, now) <==> Unused(c, n, now)
    ensures LastActive(n, Activity(n))
  {
    assert LastActive(n, Activity(n));
  }

  /** The edge to close is live, has no readers and has been silent for the idle time; no other such edge was active
      earlier, and among those active at the same time it has the least name. */
  lemma CandidateIsLongestIdle(c: Config, live: seq<Node>, now: nat)
    ensures Candidate(c, live, now).None? <==> forall n <- live :: !Unused(c, n, now)
    ensures Candidate(c, live, now).Some? ==>
              var best := Candidate(c, live, now).value;
              && best in live && Unused(c, best, now)
              && forall n, at, since | n in live && Unused(c, n, now) && LastActive(n, at) && LastActive(best, since) ::
                   since < at || (since == at && best.id <= n.id)
  {
    forall n <- live
      ensures Idle(c, n, now) <==> Unused(c, n, now)
    {
      IdleIsUnused(c, n, now);
    }
    hide Idle, Unused;
    CandidateIsSoonest(c, live, now);
  }

  lemma {:induction false} CandidateIsSoonest(c: Config, live: seq<Node>, now: nat)
    ensures Candidate(c, live, now).None? <==> forall n <- live :: !Idle(c, n, now)
    ensures Candidate(c, live, now).Some? ==>
              var best := Candidate(c, live, now).value;
              best in live && Idle(c, best, now) && forall n <- live :: Idle(c, n, now) ==> !Sooner(n, best)
  {
    if live != [] {
      CandidateIsSoonest(c, live[..|live| - 1], now);
      MembersSnoc(live);
    }
  }

  /** The leader is the live node with the least name. */
  lemma {:induction false} LeaderIsLeast(live: seq<Node>)
    ensures Leader(live).None? <==> live == []
    ensures Leader(live).Some? ==>
              && (exists n <- live :: n.id == Leader(live).value)
              && forall n <- live :: Leader(live).value <= n.id
  {
    if live != [] {
      LeaderIsLeast(live[..|live| - 1]);
      MembersSnoc(live);
    }
  }

  /** One controller's planner and its own clock. */
  datatype Controller = Controller(planner: Planner, now: nat)

  /** All actions of a fleet whose controllers, each with its own memory, see the same nodes. */
  ghost predicate FleetAction(raw: Config, fleet: map<nat, Controller>, nodes: seq<Node>, a: Action) {
    exists id <- fleet :: RegionAction(raw, fleet[id].planner, nodes, a.region, id, fleet[id].now) == Some(a)
  }

  /** The live edges of a region once the fleet's actions are carried out. */
  ghost function LiveAfter(nodes: seq<Node>, actions: set<Action>, r: Id): nat {
    |LiveIds(nodes, r) - (set a | a in actions && a.Close? && a.region == r :: a.node)|
    + (if Provision(r) in actions then 1 else 0)
  }

  /** What an action for a region presupposes. */
  lemma ActionFacts(raw: Config, p: Planner, nodes: seq<Node>, r: Id, controller: nat, now: nat)
    requires RegionAction(raw, p, nodes, r, controller, now).Some?
    ensures
      var a := RegionAction(raw, p, nodes, r, controller, now).value;
      var c := Normalized(raw);
      && a.region == r
      && Leader(LiveNodes(nodes, r)) == Some(controller)
      && (a.Provision? ==> |LiveNodes(nodes, r)| < c.maxEdges)
      && (a.Close? ==> |LiveNodes(nodes, r)| > c.minEdges && a.node in LiveIds(nodes, r))
  {
    LiveMembers(nodes, r);
    CandidateIsLongestIdle(Normalized(raw), LiveNodes(nodes, r), now);
  }

  /** The controller is a live edge of the region and has the least name. */
  ghost predicate Leads(nodes: seq<Node>, r: Id, controller: nat) {
    && (exists n <- nodes :: n.region == r && !n.draining && n.id == controller)
    && forall n <- nodes :: n.region == r && !n.draining ==> controller <= n.id
  }

  lemma LeaderLeads(nodes: seq<Node>, r: Id, controller: nat)
    ensures Leader(LiveNodes(nodes, r)) == Some(controller) <==> Leads(nodes, r, controller)
  {
    LiveMembers(nodes, r);
    LeaderIsLeast(LiveNodes(nodes, r));
    hide LiveNodes, Leader;
  }

  /** Exactly when an edge is provisioned: the planner is enabled, the region is under pressure now and was at the last
      look, it has fewer live edges than it may, its leader asks, and the cooldown is over. */
  lemma ProvisionExactly(raw: Config, p: Planner, nodes: seq<Node>, r: Id, controller: nat, now: nat)
    ensures
      var (c, live, m) := (Normalized(raw), LiveNodes(nodes, r), MemoryOf(p, r));
      RegionAction(raw, p, nodes, r, controller, now) == Some(Provision(r))
      <==> && c.enabled && (exists n <- nodes :: n.region == r)
           && ((exists n <- nodes :: n.region == r && !n.draining && n.overloaded) || Readers(live) >= c.scaleUpReaders)
           && m.samples >= 1 && |live| < c.maxEdges && Leads(nodes, r, controller)
           && SatSub(now, if m.lastProvision.Some? then m.lastProvision.value else 0)
              >= Min(c.cooldownSeconds * 1000, U64_MAX)
  {
    LeaderLeads(nodes, r, controller);
    LiveMembers(nodes, r);
    hide Leads, Leader, LiveNodes, Normalized, Readers, MemoryOf;
  }

  /** Exactly when an edge is closed: nothing is provisioned, the region has more live edges than it needs, its leader
      asks, and the edge is the unused one that has been silent for longest. */
  lemma CloseExactly(raw: Config, p: Planner, nodes: seq<Node>, r: Id, controller: nat, now: nat)
    ensures
      var (c, live) := (Normalized(raw), LiveNodes(nodes, r));
      var action := RegionAction(raw, p, nodes, r, controller, now);
      && (action.Some? && action.value.Close? <==>
            && c.enabled && action != Some(Provision(r)) && |live| > c.minEdges && Leads(nodes, r, controller)
            && exists n <- live :: Unused(c, n, now))
      && (action.Some? && action.value.Close? ==>
            Candidate(c, live, now).Some? && action == Some(Close(Candidate(c, live, now).value.id, r)))
  {
    LeaderLeads(nodes, r, controller);
    LiveMembers(nodes, r);
    CandidateIsLongestIdle(Normalized(raw), LiveNodes(nodes, r), now);
    hide Leads, Leader, LiveNodes, Normalized, Unused, Candidate, MayProvision;
  }

  /** What one look at a region leaves in memory: how many looks in a row found pressure, and when an edge was last
      provisioned. */
  lemma MemoryExactly(raw: Config, p: Planner, nodes: seq<Node>, r: Id, controller: nat, now: nat)
    requires Normalized(raw).enabled && exists n <- nodes :: n.region == r
    ensures
      var (c, live, m) := (Normalized(raw), LiveNodes(nodes, r), MemoryOf(p, r));
      var pressure := (exists n <- nodes :: n.region == r && !n.draining && n.overloaded)
                      || Readers(live) >= c.scaleUpReaders;
      var provisions := RegionAction(raw, p, nodes, r, controller, now) == Some(Provision(r));
      RegionMemory(raw, m, nodes, r, controller, now)
      == Memory(if provisions then Some(now) else m.lastProvision, if pressure then m.samples + 1 else 0)
  {
    LiveMembers(nodes, r);
    hide Leader, LiveNodes, Normalized, Readers, MemoryOf, Candidate;
  }

  /** At most one action per region in the whole fleet: only the leader acts, and it acts once. */
  lemma OneActionPerRegion(raw: Config, fleet: map<nat, Controller>, nodes: seq<Node>, a: Action, b: Action)
    requires FleetAction(raw, fleet, nodes, a) && FleetAction(raw, fleet, nodes, b)
    requires a.region == b.region
    ensures a == b
  {
    hide Decide, LiveNodes, Leader;
    var i :| i in fleet && RegionAction(raw, fleet[i].planner, nodes, a.region, i, fleet[i].now) == Some(a);
    var j :| j in fleet && RegionAction(raw, fleet[j].planner, nodes, b.region, j, fleet[j].now) == Some(b);
    ActionFacts(raw, fleet[i].planner, nodes, a.region, i, fleet[i].now);
    ActionFacts(raw, fleet[j].planner, nodes, b.region, j, fleet[j].now);
  }

  /** Carrying out all the fleet's actions keeps every region within its bounds. */
  lemma FleetKeepsBounds(
    raw: Config, fleet: map<nat, Controller>, nodes: seq<Node>, actions: set<Action>, r: Id)
    requires UniqueNames(nodes) && forall a :: a in actions <==> FleetAction(raw, fleet, nodes, a)
    requires Normalized(raw).minEdges <= |LiveIds(nodes, r)| <= Normalized(raw).maxEdges
    ensures Normalized(raw).minEdges <= LiveAfter(nodes, actions, r) <= Normalized(raw).maxEdges
  {
    hide FleetAction, Normalized;
    var closed := set a | a in actions && a.Close? && a.region == r :: a.node;
    if a :| a in actions && a.region == r {
      OnlyAction(raw, fleet, nodes, actions, a);
      assert LiveAfter(nodes, actions, r) == |LiveIds(nodes, r) - closed| + (if a.Provision? then 1 else 0);
      if a.Provision? {
        assert closed == {};
      } else {
        assert closed == {a.node};
      }
    } else {
      assert closed == {};
    }
  }

  lemma OnlyAction(raw: Config, fleet: map<nat, Controller>, nodes: seq<Node>, actions: set<Action>, a: Action)
    requires UniqueNames(nodes) && forall b :: b in actions <==> FleetAction(raw, fleet, nodes, b)
    requires a in actions
    ensures forall b <- actions :: b.region == a.region ==> b == a
    ensures a.Provision? ==> |LiveIds(nodes, a.region)| < Normalized(raw).maxEdges
    ensures a.Close? ==> |LiveIds(nodes, a.region)| > Normalized(raw).minEdges && a.node in LiveIds(nodes, a.region)
  {
    forall b <- actions | b.region == a.region
      ensures b == a
    {
      OneActionPerRegion(raw, fleet, nodes, a, b);
    }
    hide Decide, Normalized, LiveNodes, LiveIds, UniqueNames;
    LiveCount(nodes, a.region);
    var i :| i in fleet && RegionAction(raw, fleet[i].planner, nodes, a.region, i, fleet[i].now) == Some(a);
    ActionFacts(raw, fleet[i].planner, nodes, a.region, i, fleet[i].now);
  }

  // ---------------------------------------------------------------- runs of one planner

  datatype Call = Call(config: Config, nodes: seq<Node>, controller: nat, now: nat)

  /** The planner's memory of a region after some calls. */
  function MemoryAfter(calls: seq<Call>, r: Id): Memory {
    if calls == [] then Memory(None, 0)
    else
      var call := calls[|calls| - 1];
      RegionMemory(call.config, MemoryAfter(calls[..|calls| - 1], r), call.nodes, r, call.controller, call.now)
  }

  /** The call looked at the region at all. */
  predicate Looks(call: Call, r: Id) {
    Normalized(call.config).enabled && r in Regions(call.nodes)
  }

  /** Some live edge of the region is overloaded, or together they have readers enough to scale up. */
  ghost predicate UnderPressure(call: Call, r: Id) {
    && Looks(call, r)
    && (|| (exists n <- call.nodes :: n.region == r && !n.draining && n.overloaded)
        || Readers(LiveNodes(call.nodes, r)) >= Normalized(call.config).scaleUpReaders)
  }

  lemma PressureIsOverloadOrReaders(call: Call, r: Id)
    ensures Looks(call, r) && Pressured(Normalized(call.config), LiveNodes(call.nodes, r)) <==> UnderPressure(call, r)
  {
    LiveMembers(call.nodes, r);
    hide Readers, Normalized;
  }

  /** Call `i` provisions an edge in the region. */
  predicate ProvisionsAt(calls: seq<Call>, i: nat, r: Id) {
    && i < |calls| && Looks(calls[i], r)
    && MayProvision(Normalized(calls[i].config), MemoryAfter(calls[..i], r), LiveNodes(calls[i].nodes, r),
                    calls[i].controller, calls[i].now)
  }

  lemma MemorySnoc(calls: seq<Call>, i: nat, r: Id)
    requires i < |calls|
    ensures MemoryAfter(calls[..i + 1], r)
         == RegionMemory(calls[i].config, MemoryAfter(calls[..i], r), calls[i].nodes, r, calls[i].controller, calls[i].now)
  {
    assert calls[..i + 1][..i] == calls[..i];
  }

  /** The remembered time is that of the latest provision, which no later call has moved back. */
  lemma {:induction false} LatestIsRemembered(calls: seq<Call>, i: nat, j: nat, r: Id)
    requires i < j <= |calls| && ProvisionsAt(calls, i, r)
    ensures MemoryAfter(calls[..j], r).lastProvision.Some?
    ensures MemoryAfter(calls[..j], r).lastProvision.value >= calls[i].now
  {
    MemorySnoc(calls, j - 1, r);
    hide MemoryAfter, LiveNodes, Leader, Sampled;
    if i < j - 1 {
      LatestIsRemembered(calls, i, j - 1, r);
    }
  }

  /** Two provisions of one region are at least the cooldown apart. */
  lemma ProvisionsAreSpaced(calls: seq<Call>, i: nat, j: nat, r: Id)
    requires i < j && ProvisionsAt(calls, i, r) && ProvisionsAt(calls, j, r)
    ensures calls[j].now >= calls[i].now + Millis(Normalized(calls[j].config).cooldownSeconds)
  {
    LatestIsRemembered(calls, i, j, r);
    hide MemoryAfter, LiveNodes, Leader, Sampled, Normalized;
  }

  /** A positive sample count means that the last call to look at the region found it under pressure. */
  lemma {:induction false} SamplesMeanPressure(calls: seq<Call>, n: nat, r: Id) returns (i: nat)
    requires n <= |calls| && MemoryAfter(calls[..n], r).samples > 0
    ensures i < n && UnderPressure(calls[i], r)
    ensures forall k :: i < k < n ==> !Looks(calls[k], r)
  {
    MemorySnoc(calls, n - 1, r);
    if Looks(calls[n - 1], r) {
      i := n - 1;
      PressureIsOverloadOrReaders(calls[n - 1], r);
    } else {
      i := SamplesMeanPressure(calls, n - 1, r);
    }
  }

  /** A provision follows two successive looks at the region that both found it under pressure. */
  lemma ProvisionNeedsTwoSamples(calls: seq<Call>, j: nat, r: Id) returns (i: nat)
    requires ProvisionsAt(calls, j, r)
    ensures i < j && UnderPressure(calls[i], r) && UnderPressure(calls[j], r)
    ensures forall k :: i < k < j ==> !Looks(calls[k], r)
  {
    i := SamplesMeanPressure(calls, j, r);
    PressureIsOverloadOrReaders(calls[j], r);
  }
}
