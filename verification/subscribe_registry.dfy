/** The registry of current subscribe bindings and its ordered invalidation lane.

    The class mirrors `CurrentSubscribeRegistry`: each method is one lock-held region.  Revisions are
    handed out in map order by the source, so an invalidation or a snapshot is specified as a relation
    between states.  What the registry promises is then proved of every run of those relations. */
module SubscribeRegistry {
  import opened Prelude

  const MAX_ACTIVE_SUBSCRIPTIONS: nat := 65_536

  datatype MediaClass = Program | Source | Screen | Metadata | Talkback | TakeChunk

  datatype ErrorCode =
    | InvalidConfiguration
    | UnknownBinding
    | RevokedBinding
    | InvalidationGap
    | InvalidCapability
    | CapabilityReplay
    | CapabilityExpired
    | ProofRequired
    | ProofMismatch
    | CatalogLaneMismatch
    | WrongScope
    | SourceNotAllowed
    | AudienceNotAllowed
    | ChannelLimit
    | BitrateLimit
    | ObjectExpired
    | Capacity
    | DeliveryPurged

  datatype BindingKey = BindingKey(endpointId: string, mediaClass: MediaClass, bindingGeneration: nat)

  datatype Binding = Binding(
    tenantId: string,
    sessionId: string,
    sessionEpoch: nat,
    mediaAuthorizationEpoch: nat,
    subjectGrantEpoch: nat,
    mediaPolicyVersion: nat,
    classAuthorizationEpoch: Option<nat>,
    bindingGeneration: nat,
    topologyGeneration: nat,
    participantId: string,
    endpointId: string,
    mediaClass: MediaClass,
    edgeId: string,
    clockSkewSeconds: nat)
  {
    function Key(): BindingKey {
      BindingKey(endpointId, mediaClass, bindingGeneration)
    }
  }

  datatype Registered = Registered(binding: Binding, revision: nat, active: bool)

  datatype Invalidation = Invalidation(
    deliverySequence: nat,
    sessionId: string,
    sessionEpoch: nat,
    mediaAuthorizationEpoch: nat,
    mediaPolicyVersion: nat,
    endpointId: Option<string>,
    subjectGrantEpoch: Option<nat>)

  datatype InvalidationOutcome = Applied(invalidatedBindings: nat) | Duplicate

  datatype Lease = Lease(
    binding: Binding,
    bindingRevision: nat,
    capabilityId: string,
    connectionId: string,
    sourceIds: seq<string>,
    audienceIds: seq<string>,
    maxChannels: nat,
    maxBitrate: nat,
    maxDatagramBytes: nat,
    expiresAt: int)

  /** Registry contents; `maxGeneration` is MEDIA_CONTROL_MAX_GENERATION of the media-object crate. */
  datatype Registry = Registry(
    maxGeneration: nat,
    nextRevision: nat,
    lastSequence: nat,
    requiredBoundary: nat,
    synchronized: bool,
    bindings: map<BindingKey, Registered>)
  {
    ghost predicate Valid() {
      && maxGeneration <= U64_MAX
      && nextRevision <= U64_MAX
      && lastSequence <= maxGeneration
      && requiredBoundary <= maxGeneration
      && (synchronized ==> requiredBoundary == 0)
      && (!synchronized ==> lastSequence < requiredBoundary)
      && |bindings| <= MAX_ACTIVE_SUBSCRIPTIONS
      && (forall k <- bindings :: bindings[k].binding.Key() == k && bindings[k].revision <= nextRevision)
    }

    function Resolve(key: BindingKey): Result<Registered, ErrorCode> {
      if !synchronized then Err(InvalidationGap)
      else if key !in bindings then Err(UnknownBinding)
      else if !bindings[key].active then Err(RevokedBinding)
      else Ok(bindings[key])
    }

    function Revalidate(lease: Lease): Result<(), ErrorCode> {
      match Resolve(lease.binding.Key())
      case Err(code) => Err(code)
      case Ok(current) => if current.revision != lease.bindingRevision then Err(RevokedBinding) else Ok(())
    }

    function AcknowledgedSequence(): Option<nat> {
      if synchronized then Some(lastSequence) else None
    }
  }

  function Initial(maxGeneration: nat, boundary: nat): Registry {
    Registry(maxGeneration, 0, boundary, 0, true, map[])
  }

  // ---------------------------------------------------------------- specification of the operations

  predicate WellFormed(event: Invalidation, maxGeneration: nat) {
    && 0 < event.deliverySequence <= maxGeneration
    && 0 < event.sessionEpoch <= maxGeneration
    && 0 < event.mediaAuthorizationEpoch <= maxGeneration
    && 0 < event.mediaPolicyVersion <= maxGeneration
    && event.endpointId.Some? == event.subjectGrantEpoch.Some?
    && (event.subjectGrantEpoch.Some? ==> 0 < event.subjectGrantEpoch.value <= maxGeneration)
  }

  /** The event names a newer authorization generation than the one this binding was issued under. */
  predicate Stale(binding: Binding, event: Invalidation) {
    && binding.sessionId == event.sessionId
    && (|| binding.sessionEpoch < event.sessionEpoch
        || binding.mediaAuthorizationEpoch < event.mediaAuthorizationEpoch
        || binding.mediaPolicyVersion < event.mediaPolicyVersion
        || (&& event.endpointId == Some(binding.endpointId)
            && event.subjectGrantEpoch.Some?
            && binding.subjectGrantEpoch < event.subjectGrantEpoch.value))
  }

  predicate Affected(registered: Registered, event: Invalidation) {
    registered.active && Stale(registered.binding, event)
  }

  function StaleKeys(bindings: map<BindingKey, Registered>, event: Invalidation): set<BindingKey> {
    set k | k in bindings && Affected(bindings[k], event)
  }

  /** A revision handed out while the counter stood at `before`: never one already in use, until the
      64-bit counter saturates. */
  predicate HandedOut(before: nat, revision: nat, after: nat) {
    (before < revision || revision == U64_MAX) && revision <= after
  }

  /** No two of these entries share a revision, unless it is the saturated one. */
  ghost predicate SeparateRevisions(bindings: map<BindingKey, Registered>, keys: set<BindingKey>)
    requires keys <= bindings.Keys
  {
    forall j <- keys, k <- keys ::
      j != k && bindings[j].revision == bindings[k].revision ==> bindings[j].revision == U64_MAX
  }

  predicate DistinctKeys(bindings: seq<Binding>) {
    forall i, j :: 0 <= i < j < |bindings| ==> bindings[i].Key() != bindings[j].Key()
  }

  function InstallOutcome(s: Registry, binding: Binding): Result<nat, ErrorCode> {
    if !s.synchronized then Err(InvalidationGap)
    else if binding.Key() in s.bindings then Err(InvalidConfiguration)
    else if |s.bindings| >= MAX_ACTIVE_SUBSCRIPTIONS then Err(Capacity)
    else Ok(SatAdd(s.nextRevision, 1))
  }

  ghost predicate Installed(s: Registry, binding: Binding, s': Registry) {
    match InstallOutcome(s, binding)
    case Err(_) => s' == s
    case Ok(revision) =>
      s' == s.(nextRevision := revision,
               bindings := s.bindings[binding.Key() := Registered(binding, revision, true)])
  }

  function ApplyOutcome(s: Registry, event: Invalidation): Result<InvalidationOutcome, ErrorCode> {
    if !WellFormed(event, s.maxGeneration) then Err(InvalidConfiguration)
    else if event.deliverySequence <= s.lastSequence then Ok(Duplicate)
    else if !s.synchronized || event.deliverySequence != s.lastSequence + 1 then Err(InvalidationGap)
    else Ok(Applied(|StaleKeys(s.bindings, event)|))
  }

  /** An active stale binding is deactivated under a new revision; any other entry is untouched. */
  predicate EntryInvalidated(before: Registered, event: Invalidation, after: Registered, lo: nat, hi: nat) {
    if Affected(before, event) then
      after == Registered(before.binding, after.revision, false) && HandedOut(lo, after.revision, hi)
    else
      after == before
  }

  ghost predicate BindingsInvalidated(
    before: map<BindingKey, Registered>, event: Invalidation, after: map<BindingKey, Registered>, lo: nat, hi: nat)
  {
    && after.Keys == before.Keys
    && (forall k <- before :: EntryInvalidated(before[k], event, after[k], lo, hi))
    && SeparateRevisions(after, StaleKeys(before, event))
    && hi == SatAdd(lo, |StaleKeys(before, event)|)
  }

  ghost predicate Invalidated(s: Registry, event: Invalidation, s': Registry) {
    match ApplyOutcome(s, event)
    case Ok(Duplicate) => s' == s
    case Ok(Applied(_)) =>
      && s' == s.(lastSequence := event.deliverySequence, nextRevision := s'.nextRevision, bindings := s'.bindings)
      && BindingsInvalidated(s.bindings, event, s'.bindings, s.nextRevision, s'.nextRevision)
    case Err(InvalidationGap) =>
      s' == s.(synchronized := false, requiredBoundary := Max(s.requiredBoundary, event.deliverySequence))
    case Err(_) => s' == s
  }

  function SnapshotOutcome(s: Registry, boundary: nat, bindings: seq<Binding>): Result<(), ErrorCode> {
    if boundary > s.maxGeneration then Err(InvalidConfiguration)
    else if |bindings| > MAX_ACTIVE_SUBSCRIPTIONS then Err(Capacity)
    else if !DistinctKeys(bindings) then Err(InvalidConfiguration)
    else if boundary < s.lastSequence || boundary < s.requiredBoundary then Err(InvalidConfiguration)
    else Ok(())
  }

  /** The new map holds exactly the snapshot's bindings, each active under a fresh revision. */
  ghost predicate SnapshotInstalled(s: Registry, boundary: nat, bindings: seq<Binding>, s': Registry) {
    match SnapshotOutcome(s, boundary, bindings)
    case Err(_) => s' == s
    case Ok(_) =>
      && s' == Registry(s.maxGeneration, SatAdd(s.nextRevision, |bindings|), boundary, 0, true, s'.bindings)
      && ReplacementFor(bindings, s'.bindings, s.nextRevision, s'.nextRevision)
  }

  ghost predicate ReplacementFor(bindings: seq<Binding>, after: map<BindingKey, Registered>, lo: nat, hi: nat) {
    && |after| == |bindings|
    && (forall i :: 0 <= i < |bindings| ==> bindings[i].Key() in after)
    && (forall k <- after :: ReissuedEntry(k, bindings, after[k], lo, hi))
    && SeparateRevisions(after, after.Keys)
  }

  predicate ReissuedEntry(key: BindingKey, bindings: seq<Binding>, after: Registered, lo: nat, hi: nat) {
    after.binding in bindings && after.binding.Key() == key && after.active && HandedOut(lo, after.revision, hi)
  }

  lemma InvalidatedKeepsValid(s: Registry, event: Invalidation, s': Registry)
    requires s.Valid() && Invalidated(s, event, s')
    ensures s'.Valid()
  {
    CardinalityOfKeys(s.bindings, s'.bindings);
    forall k <- s'.bindings
      ensures s'.bindings[k].binding.Key() == k && s'.bindings[k].revision <= s'.nextRevision
    {
      assert k in s.bindings;
    }
  }

  lemma SnapshotKeepsValid(s: Registry, boundary: nat, bindings: seq<Binding>, s': Registry)
    requires s.Valid() && SnapshotInstalled(s, boundary, bindings, s')
    ensures s'.Valid()
  {}

  // ---------------------------------------------------------------- the registry itself

  class CurrentSubscribeRegistry {
    const maxGeneration: nat
    var nextRevision: nat
    var lastInvalidationSequence: nat
    var requiredSnapshotBoundary: nat
    var synchronized: bool
    var bindings: map<BindingKey, Registered>

    function State(): Registry
      reads this
    {
      Registry(maxGeneration, nextRevision, lastInvalidationSequence, requiredSnapshotBoundary, synchronized, bindings)
    }

    constructor (maxGeneration: nat, boundary: nat)
      requires boundary <= maxGeneration <= U64_MAX
      ensures State() == Initial(maxGeneration, boundary) && State().Valid()
    {
      this.maxGeneration := maxGeneration;
      nextRevision, lastInvalidationSequence, requiredSnapshotBoundary := 0, boundary, 0;
      synchronized, bindings := true, map[];
    }

    method Install(binding: Binding) returns (r: Result<nat, ErrorCode>)
      requires State().Valid()
      modifies this
      ensures State().Valid()
      ensures r == InstallOutcome(old(State()), binding) && Installed(old(State()), binding, State())
    {
      if !synchronized {
        return Err(InvalidationGap);
      }
      var key := binding.Key();
      if key in bindings {
        return Err(InvalidConfiguration);
      }
      if |bindings| >= MAX_ACTIVE_SUBSCRIPTIONS {
        return Err(Capacity);
      }
      nextRevision := SatAdd(nextRevision, 1);
      bindings := bindings[key := Registered(binding, nextRevision, true)];
      return Ok(nextRevision);
    }

    method ApplyInvalidation(event: Invalidation) returns (r: Result<InvalidationOutcome, ErrorCode>)
      requires State().Valid()
      modifies this
      ensures State().Valid()
      ensures r == ApplyOutcome(old(State()), event) && Invalidated(old(State()), event, State())
    {
      if !WellFormed(event, maxGeneration) {
        return Err(InvalidConfiguration);
      }
      if event.deliverySequence <= lastInvalidationSequence {
        return Ok(Duplicate);
      }
      if !synchronized || event.deliverySequence != lastInvalidationSequence + 1 {
        synchronized := false;
        requiredSnapshotBoundary := Max(requiredSnapshotBoundary, event.deliverySequence);
        InvalidatedKeepsValid(old(State()), event, State());
        return Err(InvalidationGap);
      }
      lastInvalidationSequence := event.deliverySequence;
      var invalidated;
      bindings, nextRevision, invalidated := InvalidateBindings(bindings, event, nextRevision);
      InvalidatedKeepsValid(old(State()), event, State());
      return Ok(Applied(invalidated));
    }

    method InstallSnapshot(boundary: nat, snapshot: seq<Binding>) returns (r: Result<(), ErrorCode>)
      requires State().Valid()
      modifies this
      ensures State().Valid()
      ensures r == SnapshotOutcome(old(State()), boundary, snapshot)
      ensures SnapshotInstalled(old(State()), boundary, snapshot, State())
    {
      hide DistinctKeys, ReplacementFor;
      if boundary > maxGeneration {
        return Err(InvalidConfiguration);
      }
      if |snapshot| > MAX_ACTIVE_SUBSCRIPTIONS {
        return Err(Capacity);
      }
      var replacement, revision := BuildReplacement(snapshot, nextRevision);
      if replacement.None? {
        return Err(InvalidConfiguration);
      }
      if boundary < lastInvalidationSequence || boundary < requiredSnapshotBoundary {
        return Err(InvalidConfiguration);
      }
      nextRevision := revision;
      lastInvalidationSequence := boundary;
      requiredSnapshotBoundary := 0;
      synchronized := true;
      bindings := replacement.value;
      SnapshotKeepsValid(old(State()), boundary, snapshot, State());
      return Ok(());
    }
  }

  /** The loop of `apply_invalidation` over the registered bindings. */
  method InvalidateBindings(before: map<BindingKey, Registered>, event: Invalidation, nextRevision: nat)
    returns (bindings: map<BindingKey, Registered>, revision: nat, invalidated: nat)
    requires nextRevision <= U64_MAX
    ensures BindingsInvalidated(before, event, bindings, nextRevision, revision)
    ensures invalidated == |StaleKeys(before, event)|
  {
    hide Stale;
    bindings, revision, invalidated := before, nextRevision, 0;
    var remaining := before.Keys;
    ghost var hit: set<BindingKey> := {};
    while remaining != {}
      invariant remaining <= before.Keys == bindings.Keys
      invariant forall k <- remaining :: bindings[k] == before[k]
      invariant forall k <- before.Keys - remaining ::
                  EntryInvalidated(before[k], event, bindings[k], nextRevision, revision)
      invariant forall k :: k in hit <==> k in before && k !in remaining && Affected(before[k], event)
      invariant hit <= bindings.Keys && SeparateRevisions(bindings, hit)
      invariant invalidated == |hit| && revision == SatAdd(nextRevision, invalidated)
      decreases remaining
    {
      var key :| key in remaining;
      var registered := bindings[key];
      remaining := remaining - {key};
      if registered.active && Stale(registered.binding, event) {
        revision := SatAdd(revision, 1);
        bindings := bindings[key := registered.(revision := revision, active := false)];
        invalidated := invalidated + 1;
        hit := hit + {key};
      }
    }
    assert hit == StaleKeys(before, event);
  }

  /** The first loop of `install_snapshot`: index the bindings by key, or find a repeated key. */
  method UniqueByKey(snapshot: seq<Binding>) returns (unique: Option<map<BindingKey, Binding>>)
    ensures unique.Some? <==> DistinctKeys(snapshot)
    ensures unique.Some? ==> IndexedBy(unique.value, snapshot)
  {
    var byKey: map<BindingKey, Binding> := map[];
    for i := 0 to |snapshot|
      invariant DistinctKeys(snapshot[..i]) && IndexedBy(byKey, snapshot[..i])
    {
      var key := snapshot[i].Key();
      if key in byKey {
        var j :| 0 <= j < i && snapshot[j] == byKey[key];
        return None;
      }
      IndexedByNext(byKey, snapshot, i);
      byKey := byKey[key := snapshot[i]];
    }
    assert snapshot[..|snapshot|] == snapshot;
    return Some(byKey);
  }

  ghost predicate IndexedBy(m: map<BindingKey, Binding>, bindings: seq<Binding>) {
    && |m| == |bindings|
    && (forall i :: 0 <= i < |bindings| ==> bindings[i].Key() in m)
    && (forall k <- m :: m[k] in bindings && m[k].Key() == k)
  }

  lemma IndexedByNext(m: map<BindingKey, Binding>, bindings: seq<Binding>, i: nat)
    requires i < |bindings| && IndexedBy(m, bindings[..i]) && bindings[i].Key() !in m
    requires DistinctKeys(bindings[..i])
    ensures IndexedBy(m[bindings[i].Key() := bindings[i]], bindings[..i + 1]) && DistinctKeys(bindings[..i + 1])
  {
    assert bindings[..i + 1] == bindings[..i] + [bindings[i]];
    forall j | 0 <= j < i
      ensures bindings[j].Key() != bindings[i].Key()
    {
      assert bindings[..i][j].Key() in m;
    }
  }

  /** The second loop of `install_snapshot`: every replacement binding gets a new revision. */
  method Reissue(ghost snapshot: seq<Binding>, unique: map<BindingKey, Binding>, nextRevision: nat)
    returns (replacement: map<BindingKey, Registered>, revision: nat)
    requires nextRevision <= U64_MAX && IndexedBy(unique, snapshot)
    ensures replacement.Keys == unique.Keys && |replacement| == |unique|
    ensures revision == SatAdd(nextRevision, |unique|)
    ensures forall k <- replacement :: ReissuedEntry(k, snapshot, replacement[k], nextRevision, revision)
    ensures SeparateRevisions(replacement, replacement.Keys)
  {
    replacement, revision := map[], nextRevision;
    var remaining := unique.Keys;
    var issued := 0;
    while remaining != {}
      invariant forall k <- remaining :: k in unique && k !in replacement
      invariant forall k <- unique :: k in remaining || k in replacement
      invariant forall k <- replacement :: k in unique && ReissuedEntry(k, snapshot, replacement[k], nextRevision, revision)
      invariant SeparateRevisions(replacement, replacement.Keys)
      invariant issued + |remaining| == |unique| && revision == SatAdd(nextRevision, issued)
      decreases remaining
    {
      var key :| key in remaining;
      revision := SatAdd(revision, 1);
      replacement := replacement[key := Registered(unique[key], revision, true)];
      remaining := remaining - {key};
      issued := issued + 1;
    }
    assert replacement.Keys == unique.Keys;
    CardinalityOfKeys(replacement, unique);
  }

  method BuildReplacement(snapshot: seq<Binding>, nextRevision: nat)
    returns (replacement: Option<map<BindingKey, Registered>>, revision: nat)
    requires nextRevision <= U64_MAX
    ensures replacement.Some? <==> DistinctKeys(snapshot)
    ensures replacement.Some? ==> revision == SatAdd(nextRevision, |snapshot|)
    ensures replacement.Some? ==> ReplacementFor(snapshot, replacement.value, nextRevision, revision)
  {
    var unique := UniqueByKey(snapshot);
    if unique.None? {
      return None, nextRevision;
    }
    var bindings;
    bindings, revision := Reissue(snapshot, unique.value, nextRevision);
    return Some(bindings), revision;
  }

  lemma CardinalityOfKeys<K, A, B>(m: map<K, A>, m': map<K, B>)
    requires m.Keys == m'.Keys
    ensures |m| == |m'|
  {
    assert |m| == |m.Keys| && |m'| == |m'.Keys|;
  }
}
