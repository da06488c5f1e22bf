/** Per-object authorization and the per-subscriber delivery buffer with immediate purge. */
module DeliveryBuffer {
  import opened Prelude
  import opened SubscribeRegistry
  import opened RegistryRuns

  const I64_MIN: int := -0x8000_0000_0000_0000
  const I64_MAX: int := 0x7FFF_FFFF_FFFF_FFFF
  const NANOS_PER_SECOND: int := 1_000_000_000

  datatype Lane = ProgramLane | TalkbackLane

  /** A canonical catalog entry: the identity and the limits its frame configuration declares.
      `objectId` stands for the object itself. */
  datatype Entry = Entry(
    objectId: string,
    lane: Lane,
    tenantId: string,
    sessionId: string,
    sessionEpoch: nat,
    topologyGeneration: nat,
    mediaClass: MediaClass,
    sourceId: Option<string>,
    audienceId: Option<string>,
    channelCount: nat,
    payloadBytes: nat,
    captureTimebaseHz: nat,
    durationTicks: nat,
    deadlineUnixNs: Option<int>)

  /** `EdgeSubscribeGate::revalidate`: the lease is unexpired and the registry still stands by it. */
  function GateRevalidate(registry: Registry, lease: Lease, now: int): Result<(), ErrorCode> {
    if now >= lease.expiresAt then Err(CapabilityExpired) else registry.Revalidate(lease)
  }

  predicate InScope(entry: Entry, lease: Lease) {
    && entry.tenantId == lease.binding.tenantId
    && entry.sessionId == lease.binding.sessionId
    && entry.sessionEpoch == lease.binding.sessionEpoch
    && entry.topologyGeneration == lease.binding.topologyGeneration
    && entry.mediaClass == lease.binding.mediaClass
  }

  predicate SelectorAllowed(entry: Entry, lease: Lease) {
    match entry.lane
    case ProgramLane => entry.sourceId.Some? && entry.sourceId.value in lease.sourceIds
    case TalkbackLane => entry.audienceId.Some? && entry.audienceId.value in lease.audienceIds
  }

  predicate WithinBitrate(entry: Entry, lease: Lease) {
    entry.payloadBytes * 8 * entry.captureTimebaseHz <= lease.maxBitrate * entry.durationTicks
  }

  function Authorize(entry: Entry, registry: Registry, lease: Lease, lane: Lane, now: int): Result<(), ErrorCode> {
    var live := GateRevalidate(registry, lease, now);
    if live.Err? then live
    else if entry.lane != lane then Err(CatalogLaneMismatch)
    else if !InScope(entry, lease) then Err(WrongScope)
    else if !SelectorAllowed(entry, lease) then
      Err(if entry.lane == ProgramLane then SourceNotAllowed else AudienceNotAllowed)
    else if entry.channelCount > lease.maxChannels then Err(ChannelLimit)
    else if !WithinBitrate(entry, lease) then Err(BitrateLimit)
    else if !(I64_MIN <= now * NANOS_PER_SECOND <= I64_MAX) then Err(InvalidConfiguration)
    else if entry.deadlineUnixNs.None? || entry.deadlineUnixNs.value <= now * NANOS_PER_SECOND then Err(ObjectExpired)
    else Ok(())
  }

  /** What an authorized entry has in common with its lease, and why it is in time. */
  lemma AuthorizedExactly(entry: Entry, registry: Registry, lease: Lease, lane: Lane, now: int)
    ensures
      var key := BindingKey(lease.binding.endpointId, lease.binding.mediaClass, lease.binding.bindingGeneration);
      Authorize(entry, registry, lease, lane, now).Ok?
      <==> && now < lease.expiresAt
           && registry.synchronized && key in registry.bindings && registry.bindings[key].active
           && registry.bindings[key].revision == lease.bindingRevision
           && entry.lane == lane
           && entry.tenantId == lease.binding.tenantId && entry.sessionId == lease.binding.sessionId
           && entry.sessionEpoch == lease.binding.sessionEpoch
           && entry.topologyGeneration == lease.binding.topologyGeneration
           && entry.mediaClass == lease.binding.mediaClass
           && (lane == ProgramLane ==> entry.sourceId.Some? && entry.sourceId.value in lease.sourceIds)
           && (lane == TalkbackLane ==> entry.audienceId.Some? && entry.audienceId.value in lease.audienceIds)
           && entry.channelCount <= lease.maxChannels
           && 8 * entry.payloadBytes * entry.captureTimebaseHz <= lease.maxBitrate * entry.durationTicks
           && I64_MIN <= now * NANOS_PER_SECOND <= I64_MAX
           && entry.deadlineUnixNs.Some? && now * NANOS_PER_SECOND < entry.deadlineUnixNs.value
  {
    assert 8 * entry.payloadBytes * entry.captureTimebaseHz == entry.payloadBytes * 8 * entry.captureTimebaseHz;
  }

  function TotalBytes(entries: seq<Entry>): nat {
    if entries == [] then 0 else entries[0].payloadBytes + TotalBytes(entries[1..])
  }

  lemma {:induction false} TotalBytesAppend(entries: seq<Entry>, entry: Entry)
    ensures TotalBytes(entries + [entry]) == TotalBytes(entries) + entry.payloadBytes
  {
    if entries != [] {
      assert (entries + [entry])[1..] == entries[1..] + [entry];
      TotalBytesAppend(entries[1..], entry);
    }
  }

  // ---------------------------------------------------------------- specification of the buffer

  datatype BufferOp = PushEntry(entry: Entry) | PopEntry | Purge

  function PushOutcome(
    maxObjects: nat, maxBytes: nat, entries: seq<Entry>, entry: Entry, registry: Registry, lease: Lease, now: int)
    : Result<(), ErrorCode>
  {
    var allowed := Authorize(entry, registry, lease, entry.lane, now);
    if allowed.Err? then allowed
    else if |entries| >= maxObjects || TotalBytes(entries) + entry.payloadBytes > maxBytes then Err(Capacity)
    else Ok(())
  }

  /** A pop purges everything unless both the lease and the head of the queue are still authorized.  It reads
      the registry twice, and other threads may change it in between. */
  function PopOutcome(entries: seq<Entry>, first: Registry, second: Registry, lease: Lease, now: int)
    : Result<Option<Entry>, ErrorCode>
  {
    if GateRevalidate(first, lease, now).Err? then Err(DeliveryPurged)
    else if entries == [] then Ok(None)
    else if Authorize(entries[0], second, lease, entries[0].lane, now).Err? then Err(DeliveryPurged)
    else Ok(Some(entries[0]))
  }

  function EntriesAfter(
    maxObjects: nat, maxBytes: nat, entries: seq<Entry>, op: BufferOp, first: Registry, second: Registry, lease: Lease,
    now: int)
    : seq<Entry>
  {
    match op
    case PushEntry(entry) =>
      if PushOutcome(maxObjects, maxBytes, entries, entry, first, lease, now).Ok? then entries + [entry] else entries
    case PopEntry =>
      if PopOutcome(entries, first, second, lease, now).Err? || entries == [] then [] else entries[1..]
    case Purge =>
      if GateRevalidate(first, lease, now).Ok? then entries else []
  }

  class AuthorizedDeliveryBuffer {
    const maxObjects: nat
    const maxBytes: nat
    var bufferedBytes: nat
    var entries: seq<Entry>

    ghost predicate Valid()
      reads this
    {
      && bufferedBytes == TotalBytes(entries)
      && bufferedBytes <= maxBytes
      && |entries| <= maxObjects
    }

    constructor (maxObjects: nat, maxBytes: nat)
      requires 0 < maxObjects && 0 < maxBytes
      ensures Valid() && entries == [] && this.maxObjects == maxObjects && this.maxBytes == maxBytes
    {
      this.maxObjects, this.maxBytes := maxObjects, maxBytes;
      bufferedBytes, entries := 0, [];
    }

    method Push(registry: Registry, lease: Lease, entry: Entry, now: int) returns (r: Result<(), ErrorCode>)
      requires Valid() && bufferedBytes + entry.payloadBytes <= U64_MAX // both already fit in memory
      modifies this
      ensures Valid()
      ensures r == PushOutcome(maxObjects, maxBytes, old(entries), entry, registry, lease, now)
      ensures entries == EntriesAfter(maxObjects, maxBytes, old(entries), PushEntry(entry), registry, registry, lease, now)
    {
      var allowed := Authorize(entry, registry, lease, entry.lane, now);
      if allowed.Err? {
        return allowed;
      }
      var bytes := entry.payloadBytes;
      if |entries| >= maxObjects || SatAdd(bufferedBytes, bytes) > maxBytes {
        return Err(Capacity);
      }
      TotalBytesAppend(entries, entry);
      bufferedBytes := SatAdd(bufferedBytes, bytes);
      entries := entries + [entry];
      return Ok(());
    }

    /** `first` and `second` are what the two reads of the registry find. */
    method Pop(first: Registry, second: Registry, lease: Lease, now: int) returns (r: Result<Option<Entry>, ErrorCode>)
      requires Valid()
      modifies this
      ensures Valid()
      ensures r == PopOutcome(old(entries), first, second, lease, now)
      ensures entries == EntriesAfter(maxObjects, maxBytes, old(entries), PopEntry, first, second, lease, now)
    {
      if GateRevalidate(first, lease, now).Err? {
        Clear();
        return Err(DeliveryPurged);
      }
      if entries == [] {
        return Ok(None);
      }
      var front := entries[0];
      if Authorize(front, second, lease, front.lane, now).Err? {
        Clear();
        return Err(DeliveryPurged);
      }
      entries := entries[1..];
      bufferedBytes := SatSub(bufferedBytes, front.payloadBytes);
      return Ok(Some(front));
    }

    method PurgeIfInvalid(registry: Registry, lease: Lease, now: int) returns (purged: nat)
      requires Valid()
      modifies this
      ensures Valid()
      ensures purged == (if GateRevalidate(registry, lease, now).Ok? then 0 else |old(entries)|)
      ensures entries == EntriesAfter(maxObjects, maxBytes, old(entries), Purge, registry, registry, lease, now)
    {
      if GateRevalidate(registry, lease, now).Ok? {
        return 0;
      }
      purged := |entries|;
      Clear();
    }

    method Clear()
      modifies this
      ensures Valid() && entries == []
    {
      entries := [];
      bufferedBytes := 0;
    }
  }

  // ---------------------------------------------------------------- one subscriber's session

  /** One call: its clock, and the positions in the registry's run at which it reads the registry. */
  datatype Call = Call(op: BufferOp, now: int, first: nat, second: nat)
  {
    function LastRead(): nat {
      if op.PopEntry? then second else first
    }
  }

  /** Calls follow each other; the registry may change between the reads of a pop and between calls. */
  ghost predicate IsSession(calls: seq<Call>, states: seq<Registry>) {
    && (forall m :: 0 <= m < |calls| ==> calls[m].first <= calls[m].second < |states|)
    && (forall m, k :: 0 <= m < k < |calls| ==> calls[m].second <= calls[k].first && calls[m].now <= calls[k].now)
  }

  /** The buffer's contents before call `n`. */
  function Contents(
    maxObjects: nat, maxBytes: nat, calls: seq<Call>, states: seq<Registry>, lease: Lease, n: nat): seq<Entry>
    requires IsSession(calls, states) && n <= |calls|
  {
    if n == 0 then []
    else
      var call := calls[n - 1];
      EntriesAfter(maxObjects, maxBytes, Contents(maxObjects, maxBytes, calls, states, lease, n - 1), call.op,
                   states[call.first], states[call.second], lease, call.now)
  }

  /** Whatever is handed out was pushed by an earlier call and authorized both then and now. */
  lemma {:induction false} BufferedWasPushed(
    maxObjects: nat, maxBytes: nat, calls: seq<Call>, states: seq<Registry>, lease: Lease, n: nat, e: Entry)
    requires IsSession(calls, states) && n <= |calls| && e in Contents(maxObjects, maxBytes, calls, states, lease, n)
    ensures exists m :: 0 <= m < n && calls[m].op == PushEntry(e)
                        && Authorize(e, states[calls[m].first], lease, e.lane, calls[m].now).Ok?
  {
    hide Authorize, GateRevalidate;
    var before := Contents(maxObjects, maxBytes, calls, states, lease, n - 1);
    if e in before {
      BufferedWasPushed(maxObjects, maxBytes, calls, states, lease, n - 1, e);
    }
  }

  /** A push is accepted exactly if its entry is authorized and fits both bounds, and then goes last. */
  lemma PushedExactly(
    maxObjects: nat, maxBytes: nat, entries: seq<Entry>, entry: Entry, registry: Registry, lease: Lease, now: int)
    ensures
      var r := PushOutcome(maxObjects, maxBytes, entries, entry, registry, lease, now);
      var after := EntriesAfter(maxObjects, maxBytes, entries, PushEntry(entry), registry, registry, lease, now);
      && (r.Ok? <==> && Authorize(entry, registry, lease, entry.lane, now).Ok?
                     && |entries| + 1 <= maxObjects && TotalBytes(entries + [entry]) <= maxBytes)
      && after == (if r.Ok? then entries + [entry] else entries)
  {
    TotalBytesAppend(entries, entry);
    hide Authorize;
  }

  /** A pop that yields an entry yields the oldest one, which fits the lease at the second read of the registry. */
  lemma PoppedIsOldestAndFits(entries: seq<Entry>, first: Registry, second: Registry, lease: Lease, now: int, e: Entry)
    ensures PopOutcome(entries, first, second, lease, now) == Ok(Some(e))
       <==> && entries != [] && e == entries[0]
            && GateRevalidate(first, lease, now).Ok? && Authorize(e, second, lease, e.lane, now).Ok?
  {
    hide Authorize, GateRevalidate;
  }

  /** Once a lease has failed, by expiry or in the registry, it fails at every later call. */
  lemma FailedLeaseStaysFailed(
    states: seq<Registry>, ops: seq<RegistryOp>, i: nat, j: nat, k: nat, lease: Lease, now: int, later: int)
    requires IsRun(states, ops) && i <= j <= k < |states| && now <= later
    requires ResolvedFrom(states[i], lease) && lease.bindingRevision < U64_MAX
    requires GateRevalidate(states[j], lease, now).Err?
    ensures GateRevalidate(states[k], lease, later).Err?
  {
    if later < lease.expiresAt {
      FailStop(states, ops, i, j, k, lease);
    }
  }

  /** Once the lease has failed, even between the two reads of a pop, that pop and every later one hand out
      nothing, no later push is accepted, and one pop or purge empties the buffer for good. */
  lemma {:induction false} NothingDeliveredAfterFailure(
    maxObjects: nat, maxBytes: nat, calls: seq<Call>, states: seq<Registry>, ops: seq<RegistryOp>, lease: Lease,
    i: nat, j: nat, now: int, m: nat, k: nat)
    requires IsRun(states, ops) && IsSession(calls, states) && m < k < |calls|
    requires i <= j <= calls[m].LastRead() && ResolvedFrom(states[i], lease) && lease.bindingRevision < U64_MAX
    requires now <= calls[m].now && GateRevalidate(states[j], lease, now).Err?
    ensures HandsOutNothing(states[calls[m].first], states[calls[m].LastRead()], lease, calls[m].now)
    ensures forall entries ::
              PopOutcome(entries, states[calls[k].first], states[calls[k].second], lease, calls[k].now)
              == Err(DeliveryPurged)
    ensures forall entries, entry ::
              PushOutcome(maxObjects, maxBytes, entries, entry, states[calls[k].first], lease, calls[k].now).Err?
    ensures !calls[m].op.PushEntry? ==> Contents(maxObjects, maxBytes, calls, states, lease, k) == []
    decreases k
  {
    FailedLeaseStaysFailed(states, ops, i, j, calls[k].first, lease, now, calls[k].now);
    FailedLeaseStaysFailed(states, ops, i, j, calls[m].LastRead(), lease, now, calls[m].now);
    if m < k - 1 {
      NothingDeliveredAfterFailure(maxObjects, maxBytes, calls, states, ops, lease, i, j, now, m, k - 1);
    }
  }

  /** A pop with these reads yields no entry, whatever is queued. */
  ghost predicate HandsOutNothing(first: Registry, second: Registry, lease: Lease, now: int) {
    forall entries :: PopOutcome(entries, first, second, lease, now) in {Ok(None), Err(DeliveryPurged)}
  }
}
