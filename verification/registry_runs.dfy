/** What the registry promises over whole runs: revisions fence leases for good, and no invalidation
    is ever lost. */
module RegistryRuns {
  import opened Prelude
  import opened SubscribeRegistry

  datatype RegistryOp =
    | Install(binding: Binding)
    | Invalidate(event: Invalidation)
    | Snapshot(boundary: nat, bindings: seq<Binding>)
    | Observe // resolve, revalidate, acknowledged_sequence: the state is only read

  ghost predicate Step(s: Registry, op: RegistryOp, s': Registry) {
    match op
    case Install(binding) => Installed(s, binding, s')
    case Invalidate(event) => Invalidated(s, event, s')
    case Snapshot(boundary, bindings) => SnapshotInstalled(s, boundary, bindings, s')
    case Observe => s' == s
  }

  ghost predicate IsRun(states: seq<Registry>, ops: seq<RegistryOp>) {
    && |states| == |ops| + 1
    && states[0].Valid()
    && forall i :: 0 <= i < |ops| ==> StepAt(states, ops, i)
  }

  ghost predicate StepAt(states: seq<Registry>, ops: seq<RegistryOp>, i: nat)
    requires |states| == |ops| + 1 && i < |ops|
  {
    Step(states[i], ops[i], states[i + 1])
  }

  // ---------------------------------------------------------------- how the bindings evolve

  predicate NewRevision(before: nat, revision: nat) {
    before < revision || revision == U64_MAX
  }

  /** Every entry of the later registry is either the very entry of the earlier one or carries a revision
      the earlier one had not handed out; after a gap has healed, only the latter. */
  ghost predicate Extends(s: Registry, s': Registry) {
    && s'.maxGeneration == s.maxGeneration
    && s.nextRevision <= s'.nextRevision
    && s.lastSequence <= s'.lastSequence
    && (forall k <- s'.bindings ::
          || NewRevision(s.nextRevision, s'.bindings[k].revision)
          || (k in s.bindings && s'.bindings[k] == s.bindings[k] && (s'.synchronized ==> s.synchronized)))
  }

  lemma StepExtends(s: Registry, op: RegistryOp, s': Registry)
    requires s.Valid() && Step(s, op, s')
    ensures s'.Valid() && Extends(s, s')
  {
    match op
    case Install(binding) =>
    case Invalidate(event) =>
      InvalidatedKeepsValid(s, event, s');
      forall k <- s'.bindings | !NewRevision(s.nextRevision, s'.bindings[k].revision)
        ensures k in s.bindings && s'.bindings[k] == s.bindings[k]
      {
      }
    case Snapshot(boundary, bindings) =>
      SnapshotKeepsValid(s, boundary, bindings, s');
    case Observe =>
  }

  lemma ExtendsTransitive(s: Registry, s': Registry, s'': Registry)
    requires Extends(s, s') && Extends(s', s'')
    ensures Extends(s, s'')
  {}

  lemma {:induction false} RunExtends(states: seq<Registry>, ops: seq<RegistryOp>, i: nat, j: nat)
    requires IsRun(states, ops) && i <= j < |states|
    ensures states[i].Valid() && states[j].Valid() && Extends(states[i], states[j])
    decreases j
  {
    if i < j {
      RunExtends(states, ops, i, j - 1);
      assert StepAt(states, ops, j - 1);
      StepExtends(states[j - 1], ops[j - 1], states[j]);
      ExtendsTransitive(states[i], states[j - 1], states[j]);
    } else if 0 < j {
      RunExtends(states, ops, j - 1, j - 1);
      assert StepAt(states, ops, j - 1);
      StepExtends(states[j - 1], ops[j - 1], states[j]);
    }
  }

  lemma StepSeparates(s: Registry, op: RegistryOp, s': Registry)
    requires s.Valid() && Step(s, op, s') && SeparateRevisions(s.bindings, s.bindings.Keys)
    ensures SeparateRevisions(s'.bindings, s'.bindings.Keys)
  {
    if op.Invalidate? && s'.bindings != s.bindings {
      InvalidationSeparates(s, op.event, s');
    }
  }

  lemma InvalidationSeparates(s: Registry, event: Invalidation, s': Registry)
    requires s.Valid() && SeparateRevisions(s.bindings, s.bindings.Keys)
    requires BindingsInvalidated(s.bindings, event, s'.bindings, s.nextRevision, s'.nextRevision)
    ensures SeparateRevisions(s'.bindings, s'.bindings.Keys)
  {
    hide Stale;
    var stale := StaleKeys(s.bindings, event);
    forall j <- s.bindings, k <- s.bindings | j != k && s'.bindings[j].revision == s'.bindings[k].revision
      ensures s'.bindings[j].revision == U64_MAX
    {
      assert EntryInvalidated(s.bindings[j], event, s'.bindings[j], s.nextRevision, s'.nextRevision);
      assert EntryInvalidated(s.bindings[k], event, s'.bindings[k], s.nextRevision, s'.nextRevision);
      assert j in stale <==> Affected(s.bindings[j], event);
      assert k in stale <==> Affected(s.bindings[k], event);
    }
  }

  /** A revision below the saturated one names one binding at a time, in every reachable state. */
  lemma {:induction false} RevisionsAreSeparate(states: seq<Registry>, ops: seq<RegistryOp>, n: nat)
    requires IsRun(states, ops) && n < |states| && SeparateRevisions(states[0].bindings, states[0].bindings.Keys)
    ensures SeparateRevisions(states[n].bindings, states[n].bindings.Keys)
  {
    hide Step, SeparateRevisions;
    if n > 0 {
      RevisionsAreSeparate(states, ops, n - 1);
      RunExtends(states, ops, n - 1, n - 1);
      assert StepAt(states, ops, n - 1);
      StepSeparates(states[n - 1], ops[n - 1], states[n]);
    }
  }

  // ---------------------------------------------------------------- fail-stop leases

  /** The lease was built from what `resolve` returned in state `s`. */
  predicate ResolvedFrom(s: Registry, lease: Lease) {
    s.Resolve(lease.binding.Key()) == Ok(Registered(lease.binding, lease.bindingRevision, true))
  }

  lemma FailStopStep(s: Registry, s': Registry, lease: Lease)
    requires s.Valid() && s'.Valid() && Extends(s, s')
    requires lease.bindingRevision <= s.nextRevision && lease.bindingRevision < U64_MAX
    requires s.Revalidate(lease).Err?
    ensures s'.Revalidate(lease).Err?
  {}

  /** Once revalidation of a lease has failed it fails for ever after. */
  lemma FailStop(states: seq<Registry>, ops: seq<RegistryOp>, i: nat, j: nat, k: nat, lease: Lease)
    requires IsRun(states, ops) && i <= j <= k < |states|
    requires ResolvedFrom(states[i], lease) && lease.bindingRevision < U64_MAX
    requires states[j].Revalidate(lease).Err?
    ensures states[k].Revalidate(lease).Err?
  {
    RunExtends(states, ops, i, i);
    RunExtends(states, ops, i, j);
    RunExtends(states, ops, j, k);
    FailStopStep(states[j], states[k], lease);
  }

  ghost predicate FailStopIn(states: seq<Registry>, lease: Lease) {
    forall j, k :: 0 <= j <= k < |states| && states[j].Revalidate(lease).Err? ==> states[k].Revalidate(lease).Err?
  }

  /** The exact condition: a lease is fail-stop in every run after its resolution if and only if its
      revision is not the saturated 64-bit value. */
  lemma FailStopExactly(s: Registry, lease: Lease)
    requires s.Valid() && ResolvedFrom(s, lease)
    ensures (forall states: seq<Registry>, ops: seq<RegistryOp> ::
               IsRun(states, ops) && states[0] == s ==> FailStopIn(states, lease))
            <==> lease.bindingRevision < U64_MAX
  {
    if lease.bindingRevision < U64_MAX {
      forall states: seq<Registry>, ops: seq<RegistryOp> | IsRun(states, ops) && states[0] == s
        ensures FailStopIn(states, lease)
      {
        forall j, k | 0 <= j <= k < |states| && states[j].Revalidate(lease).Err?
          ensures states[k].Revalidate(lease).Err?
        {
          FailStop(states, ops, 0, j, k, lease);
        }
      }
    } else {
      var states, ops := SaturatedRevival(s, lease);
      assert !FailStopIn(states, lease);
    }
  }

  /** With a saturated counter, a snapshot without the binding followed by one with it revives the lease. */
  lemma SaturatedRevival(s: Registry, lease: Lease) returns (states: seq<Registry>, ops: seq<RegistryOp>)
    requires s.Valid() && ResolvedFrom(s, lease) && lease.bindingRevision == U64_MAX
    ensures IsRun(states, ops) && states[0] == s && |states| == 3
    ensures states[1].Revalidate(lease).Err? && states[2].Revalidate(lease).Ok?
  {
    var key := lease.binding.Key();
    var boundary := Max(s.lastSequence, s.requiredBoundary);
    assert s.nextRevision == U64_MAX;
    var empty := Registry(s.maxGeneration, U64_MAX, boundary, 0, true, map[]);
    var revived := empty.(bindings := map[key := Registered(lease.binding, U64_MAX, true)]);
    states := [s, empty, revived];
    ops := [Snapshot(boundary, []), Snapshot(boundary, [lease.binding])];
    assert ReplacementFor([], empty.bindings, U64_MAX, U64_MAX);
    assert Step(s, ops[0], empty);
    assert ReplacementFor([lease.binding], revived.bindings, U64_MAX, U64_MAX);
    assert Step(empty, ops[1], revived);
  }

  // ---------------------------------------------------------------- invalidations reach leases

  /** A revision names at most one binding: the lease's own. */
  predicate OwnBinding(s: Registry, lease: Lease) {
    var key := lease.binding.Key();
    key in s.bindings && s.bindings[key].revision == lease.bindingRevision ==> s.bindings[key].binding == lease.binding
  }

  lemma OwnBindingStays(states: seq<Registry>, ops: seq<RegistryOp>, i: nat, j: nat, lease: Lease)
    requires IsRun(states, ops) && i <= j < |states|
    requires ResolvedFrom(states[i], lease) && lease.bindingRevision < U64_MAX
    ensures states[j].Valid() && OwnBinding(states[j], lease)
  {
    hide Step;
    RunExtends(states, ops, i, i);
    RunExtends(states, ops, i, j);
  }

  lemma NewerEventEnds(s: Registry, event: Invalidation, s': Registry, lease: Lease)
    requires Invalidated(s, event, s') && OwnBinding(s, lease)
    requires WellFormed(event, s.maxGeneration) && s.lastSequence < event.deliverySequence
    requires
      var binding := lease.binding;
      && binding.sessionId == event.sessionId
      && (|| binding.sessionEpoch < event.sessionEpoch
          || binding.mediaAuthorizationEpoch < event.mediaAuthorizationEpoch
          || binding.mediaPolicyVersion < event.mediaPolicyVersion
          || (event.endpointId == Some(binding.endpointId) && binding.subjectGrantEpoch < event.subjectGrantEpoch.value))
    ensures s'.Revalidate(lease).Err?
  {
    var key := lease.binding.Key();
    if ApplyOutcome(s, event).Ok? && key in s.bindings {
      assert EntryInvalidated(s.bindings[key], event, s'.bindings[key], s.nextRevision, s'.nextRevision);
    }
  }

  lemma AppliedEventSpares(s: Registry, event: Invalidation, s': Registry, lease: Lease)
    requires Invalidated(s, event, s') && OwnBinding(s, lease)
    requires ApplyOutcome(s, event).Ok? && ApplyOutcome(s, event).value.Applied?
    requires
      var binding := lease.binding;
      || binding.sessionId != event.sessionId
      || (&& binding.sessionEpoch >= event.sessionEpoch
          && binding.mediaAuthorizationEpoch >= event.mediaAuthorizationEpoch
          && binding.mediaPolicyVersion >= event.mediaPolicyVersion
          && (event.endpointId == Some(binding.endpointId) ==> binding.subjectGrantEpoch >= event.subjectGrantEpoch.value))
    ensures s'.Revalidate(lease) == s.Revalidate(lease)
  {
    var key := lease.binding.Key();
    if key in s.bindings {
      assert EntryInvalidated(s.bindings[key], event, s'.bindings[key], s.nextRevision, s'.nextRevision);
    }
  }

  /** A newer event of the binding's session ends a lease from that step on if the binding has an older session,
      media authorization or policy epoch, or if its endpoint is named with a newer subject grant epoch; whether
      the event was applied in order or refused as a gap, and whatever snapshots follow. */
  lemma StaleEventEndsLease(states: seq<Registry>, ops: seq<RegistryOp>, i: nat, j: nat, k: nat, lease: Lease)
    requires IsRun(states, ops) && i <= j < k < |states|
    requires ResolvedFrom(states[i], lease) && lease.bindingRevision < U64_MAX
    requires ops[j].Invalidate? && WellFormed(ops[j].event, states[j].maxGeneration)
    requires states[j].lastSequence < ops[j].event.deliverySequence
    requires
      var binding, event := lease.binding, ops[j].event;
      && binding.sessionId == event.sessionId
      && (|| binding.sessionEpoch < event.sessionEpoch
          || binding.mediaAuthorizationEpoch < event.mediaAuthorizationEpoch
          || binding.mediaPolicyVersion < event.mediaPolicyVersion
          || (event.endpointId == Some(binding.endpointId) && binding.subjectGrantEpoch < event.subjectGrantEpoch.value))
    ensures states[k].Revalidate(lease).Err?
  {
    hide Invalidated;
    OwnBindingStays(states, ops, i, j, lease);
    assert StepAt(states, ops, j);
    NewerEventEnds(states[j], ops[j].event, states[j + 1], lease);
    FailStop(states, ops, i, j + 1, k, lease);
  }

  /** An event applied in order leaves every other lease as it was: those of other sessions, and those whose
      binding has none of the older epochs. */
  lemma AppliedEventSparesOthers(states: seq<Registry>, ops: seq<RegistryOp>, i: nat, j: nat, lease: Lease)
    requires IsRun(states, ops) && i <= j < |ops| && ResolvedFrom(states[i], lease) && lease.bindingRevision < U64_MAX
    requires ops[j].Invalidate? && AppliedAt(states, ops, j, ops[j].event.deliverySequence)
    requires
      var binding, event := lease.binding, ops[j].event;
      || binding.sessionId != event.sessionId
      || (&& binding.sessionEpoch >= event.sessionEpoch
          && binding.mediaAuthorizationEpoch >= event.mediaAuthorizationEpoch
          && binding.mediaPolicyVersion >= event.mediaPolicyVersion
          && (event.endpointId == Some(binding.endpointId) ==> binding.subjectGrantEpoch >= event.subjectGrantEpoch.value))
    ensures states[j + 1].Revalidate(lease) == states[j].Revalidate(lease)
  {
    hide Invalidated;
    OwnBindingStays(states, ops, i, j, lease);
    assert StepAt(states, ops, j);
    AppliedEventSpares(states[j], ops[j].event, states[j + 1], lease);
  }

  /** Any accepted snapshot ends a lease, even one that contains the very same binding. */
  lemma SnapshotEndsLease(states: seq<Registry>, ops: seq<RegistryOp>, i: nat, j: nat, k: nat, lease: Lease)
    requires IsRun(states, ops) && i <= j < k < |states|
    requires ResolvedFrom(states[i], lease) && lease.bindingRevision < U64_MAX
    requires ops[j].Snapshot? && SnapshotOutcome(states[j], ops[j].boundary, ops[j].bindings).Ok?
    ensures states[k].Revalidate(lease).Err?
  {
    RunExtends(states, ops, i, j);
    assert StepAt(states, ops, j);
    assert lease.bindingRevision <= states[j].nextRevision;
    assert states[j + 1].Revalidate(lease).Err?;
    FailStop(states, ops, i, j + 1, k, lease);
  }

  // ---------------------------------------------------------------- what each call is for

  /** A binding that could be installed is what its key resolves to; nothing else is touched. */
  lemma InstalledResolves(s: Registry, binding: Binding, s': Registry, key: BindingKey)
    requires Installed(s, binding, s') && s.synchronized && |s.bindings| < MAX_ACTIVE_SUBSCRIPTIONS
    requires binding.Key() !in s.bindings
    ensures s'.Resolve(key)
         == if key == binding.Key() then Ok(Registered(binding, s'.nextRevision, true)) else s.Resolve(key)
    ensures s'.nextRevision == if s.nextRevision < U64_MAX then s.nextRevision + 1 else U64_MAX
  {}

  /** A snapshot with distinct keys, within the limits and at or above the position and the required boundary,
      closes any gap; then exactly its bindings resolve. */
  lemma SnapshotResolvesExactly(s: Registry, boundary: nat, bindings: seq<Binding>, s': Registry, key: BindingKey)
    requires SnapshotInstalled(s, boundary, bindings, s')
    requires boundary <= s.maxGeneration && |bindings| <= MAX_ACTIVE_SUBSCRIPTIONS
    requires forall i, j :: 0 <= i < j < |bindings| ==> bindings[i].Key() != bindings[j].Key()
    requires s.lastSequence <= boundary && s.requiredBoundary <= boundary
    ensures s'.synchronized && s'.lastSequence == boundary
    ensures s'.Resolve(key).Ok? ==> s'.Resolve(key).value.binding in bindings
    ensures forall i :: 0 <= i < |bindings| && bindings[i].Key() == key ==>
              s'.Resolve(key).Ok? && s'.Resolve(key).value.binding == bindings[i]
  {
    hide SeparateRevisions;
    forall i | 0 <= i < |bindings| && bindings[i].Key() == key
      ensures key in s'.bindings && s'.bindings[key].binding == bindings[i]
    {
      assert key in s'.bindings && ReissuedEntry(key, bindings, s'.bindings[key], s.nextRevision, s'.nextRevision);
    }
  }

  /** An event is malformed exactly if a number lies outside its range or the endpoint comes without its grant epoch
      or the other way round; it then changes nothing. */
  lemma MalformedIsRefused(s: Registry, event: Invalidation, s': Registry)
    requires Invalidated(s, event, s')
    ensures
      var malformed :=
        || event.deliverySequence == 0 || event.deliverySequence > s.maxGeneration
        || event.sessionEpoch == 0 || event.sessionEpoch > s.maxGeneration
        || event.mediaAuthorizationEpoch == 0 || event.mediaAuthorizationEpoch > s.maxGeneration
        || event.mediaPolicyVersion == 0 || event.mediaPolicyVersion > s.maxGeneration
        || event.endpointId.None? != event.subjectGrantEpoch.None?
        || (event.subjectGrantEpoch.Some?
            && (event.subjectGrantEpoch.value == 0 || event.subjectGrantEpoch.value > s.maxGeneration));
      && (ApplyOutcome(s, event) == Err(InvalidConfiguration) <==> malformed)
      && (malformed ==> s' == s)
  {}

  /** Receiving an event a second time changes nothing, whether it was applied or left a gap. */
  lemma RedeliveryChangesNothing(s: Registry, event: Invalidation, s': Registry, s'': Registry)
    requires s.Valid() && Invalidated(s, event, s') && Invalidated(s', event, s'')
    ensures s'' == s'
  {}

  /** The next event in order is applied; it reports how many bindings it ended. */
  lemma NextEventIsApplied(s: Registry, event: Invalidation, s': Registry)
    requires s.Valid() && Invalidated(s, event, s') && s.synchronized
    requires WellFormed(event, s.maxGeneration) && event.deliverySequence == s.lastSequence + 1
    ensures s'.synchronized && s'.lastSequence == event.deliverySequence
    ensures s'.bindings.Keys == s.bindings.Keys
    ensures ApplyOutcome(s, event)
         == Ok(Applied(|set k | k in s.bindings && s.bindings[k].active && s'.bindings[k] != s.bindings[k]|))
  {
    hide Stale;
    forall k <- s.bindings
      ensures k in StaleKeys(s.bindings, event) <==> s.bindings[k].active && s'.bindings[k] != s.bindings[k]
    {
      assert EntryInvalidated(s.bindings[k], event, s'.bindings[k], s.nextRevision, s'.nextRevision);
    }
    assert StaleKeys(s.bindings, event)
        == set k | k in s.bindings && s.bindings[k].active && s'.bindings[k] != s.bindings[k];
  }

  // ---------------------------------------------------------------- no event is lost

  ghost predicate Delivered(states: seq<Registry>, ops: seq<RegistryOp>, i: nat, sequence: nat)
    requires |states| == |ops| + 1 && i < |ops|
  {
    && ops[i].Invalidate? && ops[i].event.deliverySequence == sequence
    && WellFormed(ops[i].event, states[i].maxGeneration)
  }

  ghost predicate AppliedAt(states: seq<Registry>, ops: seq<RegistryOp>, i: nat, sequence: nat)
    requires |states| == |ops| + 1 && i < |ops|
  {
    && ops[i].Invalidate? && ops[i].event.deliverySequence == sequence
    && ApplyOutcome(states[i], ops[i].event).Ok? && ApplyOutcome(states[i], ops[i].event).value.Applied?
  }

  ghost predicate BoundaryAt(states: seq<Registry>, ops: seq<RegistryOp>, i: nat, boundary: nat)
    requires |states| == |ops| + 1 && i < |ops|
  {
    && ops[i].Snapshot? && ops[i].boundary == boundary
    && SnapshotOutcome(states[i], boundary, ops[i].bindings).Ok?
  }

  /** Step `i` is where number `n` was settled: applied as an event, or covered by a snapshot. */
  ghost predicate SettledAt(states: seq<Registry>, ops: seq<RegistryOp>, i: nat, n: nat)
    requires |states| == |ops| + 1 && i < |ops|
  {
    || AppliedAt(states, ops, i, n)
    || (ops[i].Snapshot? && n <= ops[i].boundary && BoundaryAt(states, ops, i, ops[i].boundary))
  }

  function Horizon(s: Registry): int {
    Max(s.lastSequence, s.requiredBoundary)
  }

  lemma StepHorizon(s: Registry, op: RegistryOp, s': Registry)
    requires s.Valid() && Step(s, op, s')
    ensures Horizon(s) <= Horizon(s')
    ensures op.Invalidate? && WellFormed(op.event, s.maxGeneration) ==> op.event.deliverySequence <= Horizon(s')
  {}

  /** Everything delivered so far lies at or below what is acknowledged or what a snapshot must cover. */
  lemma {:induction false} DeliveredIsBounded(
    states: seq<Registry>, ops: seq<RegistryOp>, i: nat, j: nat, sequence: nat)
    requires IsRun(states, ops) && i < j < |states| && Delivered(states, ops, i, sequence)
    ensures sequence <= Horizon(states[j])
    decreases j
  {
    RunExtends(states, ops, j - 1, j - 1);
    assert StepAt(states, ops, j - 1);
    StepHorizon(states[j - 1], ops[j - 1], states[j]);
    if i < j - 1 {
      DeliveredIsBounded(states, ops, i, j - 1, sequence);
    }
  }

  /** When a sequence is acknowledged, no event above it was ever delivered. */
  lemma AcknowledgedCoversDelivered(
    states: seq<Registry>, ops: seq<RegistryOp>, i: nat, j: nat, sequence: nat, n: nat)
    requires IsRun(states, ops) && i < j < |states| && Delivered(states, ops, i, sequence)
    requires states[j].AcknowledgedSequence() == Some(n)
    ensures sequence <= n
  {
    DeliveredIsBounded(states, ops, i, j, sequence);
    RunExtends(states, ops, j, j);
  }

  /** Every number up to the current position was applied by some step or lies under a boundary. */
  lemma {:induction false} EveryNumberIsAccountedFor(
    states: seq<Registry>, ops: seq<RegistryOp>, j: nat, n: nat)
    requires IsRun(states, ops) && j < |states| && states[0].lastSequence < n <= states[j].lastSequence
    ensures exists i :: 0 <= i < j && SettledAt(states, ops, i, n)
    decreases j
  {
    assert StepAt(states, ops, j - 1);
    if n <= states[j - 1].lastSequence {
      EveryNumberIsAccountedFor(states, ops, j - 1, n);
    } else {
      assert SettledAt(states, ops, j - 1, n);
    }
  }

  /** Applied events carry strictly increasing numbers, so none is applied twice. */
  lemma AppliedInOrder(
    states: seq<Registry>, ops: seq<RegistryOp>, i: nat, j: nat, first: nat, second: nat)
    requires IsRun(states, ops) && i < j < |ops|
    requires AppliedAt(states, ops, i, first) && AppliedAt(states, ops, j, second)
    ensures first < second
  {
    assert StepAt(states, ops, i);
    RunExtends(states, ops, i + 1, j);
  }

  /** Leaving a gap takes a snapshot whose boundary covers every event delivered before it. */
  lemma {:induction false} RecoveryCoversDelivered(states: seq<Registry>, ops: seq<RegistryOp>, i: nat, j: nat)
    requires IsRun(states, ops) && i < j < |states|
    requires !states[i].synchronized && states[j].synchronized
    ensures exists m, boundary :: i <= m < j && BoundaryAt(states, ops, m, boundary) && !states[m].synchronized
              && forall e, sequence :: 0 <= e < m && Delivered(states, ops, e, sequence) ==> sequence <= boundary
    decreases j
  {
    assert StepAt(states, ops, j - 1);
    if states[j - 1].synchronized {
      RecoveryCoversDelivered(states, ops, i, j - 1);
    } else {
      var boundary := ops[j - 1].boundary;
      assert BoundaryAt(states, ops, j - 1, boundary);
      forall e, sequence | 0 <= e < j - 1 && Delivered(states, ops, e, sequence)
        ensures sequence <= boundary
      {
        DeliveredIsBounded(states, ops, e, j - 1, sequence);
      }
    }
  }
}
