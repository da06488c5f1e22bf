# Verification of av-mesh's bounded state machines

av-mesh relays live media over a mesh of edges.  Its core is a handful of bounded, step-driven state machines
that take their clock as an argument.  This project models them in Dafny 4.11 and proves properties of their
runs; `dafny verify dfyconfig.toml` verifies everything.

* **Subscribe authorization** (`subscribe_registry`, `registry_runs`, `admission_table`, `subscribe_gate`,
  `subscribe_exclusivity`, `exclusivity_runs`, `delivery_buffer`): an ordered invalidation log with gap fencing
  and snapshot recovery; a two-phase reservation run by interleaved authorizations, each lock-held region one
  step; when one capability can reach two carriers; the delivery buffer behind a lease.
* **Relay object receiver** (`relay_spec`, `relay_answers`, `relay_invariants`, `relay_runs`, `relay_senders`,
  `relay_receiver`): objects joined from up to two parents, FIFO tombstones, budgets, amortised expiry; whose
  symbols an object takes.  `relay_spec` works with exact sums and
  facts about keys; the class in `relay_receiver` keeps the cached index and budgets and is proved to refine it.
* **Talkback lane** (`talkback_window`, `talkback_spec`, `talkback_invariants`, `talkback_runs`,
  `talkback_drain`, `talkback_latest`, `talkback_lane`): the 128-bit replay window, per publisher-and-receiver
  queues that keep the newest frames, the merge of a receiver's queues, playout acknowledgements.
* **UDP-FEC receiver** (`udp_tracker`, `udp_spec`, `udp_invariants`, `udp_runs`, `udp_answers`, `udp_dedup`,
  `udp_receiver`): flows and objects under aggregate budgets, the blocks a flow remembers, and the gap tracker on
  wrapping 32-bit numbers.
* **Replica planner** (`replication_plan`, `replication_fixpoint`, `replication_demand`, `replication_planner`): a
  greedy fill over nested scopes.
* **Telemetry, edge admission, lifecycle** (`telemetry_envelope`, `telemetry_queue`, `egress_window`,
  `edge_admission`, `edge_lifecycle`).

Shared definitions are in `prelude`, `collections` and `totals`.

A class with the source's fields does what the source does in place; each method's postcondition gives the new
state by a specification function or relation, and the lemmas about runs are proved of that specification.
Beside the lemmas about runs, each main operation has lemmas that tell its answers and effects by the fields of the
state alone (`RelayAnswers`, `UdpAnswers`, `TalkbackLatest`, `ReplicationDemand` and the `...Exactly` lemmas), without
the functions that specify it.

External pieces are inputs or abstract functions: what the object assembler, FEC decoder, capability verifier and
header parsers answer is a parameter of the step; checksum, text validity, scores and distances are arbitrary
functions; every clock reading is a parameter.

Five properties turned out to need a condition.

* A lease stays failed in all runs exactly when its revision is below the largest 64-bit number, because revisions
  saturate (`RegistryRuns.FailStopExactly`).
* A capability can be leased to two carriers exactly when the log of check-and-admit regions reopens it: two regions
  could lease it, the second of them at or after a region whose clock has reached an expiry that the first carrier's
  entry could carry (`ExclusivityRuns.ExclusivityFailsExactly`).  A nondecreasing clock together with one expiry per
  capability id excludes such logs (`ExclusivityRuns.Exclusivity`); neither of the two suffices alone
  (`ExclusivityRuns.BackwardClockBreaksExclusivity`, `ExclusivityRuns.VaryingExpiryBreaksExclusivity`).
* Planning again adds nothing exactly when every demand is filled or has no candidate left
  (`ReplicationFixpoint.ReplanIsEmptyIffDone`).  This holds of a plan that stayed below the cap and whose demanded
  regions lie in the demanded continent (`ReplicationFixpoint.PlanIsFixpoint`); a plan that reached the cap and a demand
  with inconsistent geography show the two ways it fails.  Unique node ids turned out not to be needed.
* The expected sequence number follows the highest one except after a jump of exactly half the number space
  (`UdpTracker.ExpectedFollowsHighest`).
* No UDP object is inactive for the timeout plus a scan interval, exactly when the timeout is not zero
  (`UdpRuns.StalenessBoundExactly`).

## Model

| member | source | states |
|---|---|---|
| SubscribeRegistry.CurrentSubscribeRegistry.Install | src/subscribe_authorization.rs:327-362 | with a gap open, the key taken or the table full nothing changes; otherwise the binding is active under the next revision number |
| SubscribeRegistry.CurrentSubscribeRegistry.ApplyInvalidation | src/subscribe_authorization.rs:365-434 | an event is ignored, refused as a gap that fixes the boundary a snapshot must reach, or applied: exactly the stale active bindings of its session become inactive, each under a revision of its own not handed out before, below saturation |
| SubscribeRegistry.CurrentSubscribeRegistry.InstallSnapshot | src/subscribe_authorization.rs:437-494 | a snapshot at or above the position and the required boundary replaces all bindings, each under a revision of its own never used before, below saturation; anything else leaves the registry as it was |
| SubscribeRegistry.InvalidatedKeepsValid | src/subscribe_authorization.rs:406-433 | an applied event keeps every registered revision at most the next one and the table keyed by its bindings |
| SubscribeRegistry.SnapshotKeepsValid | src/subscribe_authorization.rs:476-494 | so does a snapshot |
| RegistryRuns.RunExtends | src/subscribe_authorization.rs:304-494 | over any run positions and revisions never go back, and each entry is either the very one of before or carries a revision not yet handed out then, up to saturation |
| RegistryRuns.RevisionsAreSeparate | src/subscribe_authorization.rs:346-494 | in every reachable state no two registered bindings share a revision below the saturated one |
| RegistryRuns.FailStop | src/subscribe_authorization.rs:327-362 | once revalidation of a lease fails it fails in every later state, for every lease resolved below the last revision number |
| RegistryRuns.FailStopExactly | src/subscribe_authorization.rs:541-554 | fail-stop holds of a lease in all runs if and only if its revision is below the largest 64-bit number |
| RegistryRuns.SaturatedRevival | src/subscribe_authorization.rs:346-350 | the run that revives a lease at the saturated revision |
| RegistryRuns.StaleEventEndsLease | src/subscribe_authorization.rs:406-433 | a newer event of the lease's session ends the lease for good if the binding has an older session, media authorization or policy epoch, or if its endpoint is named with a newer subject grant epoch |
| RegistryRuns.AppliedEventSparesOthers | src/subscribe_authorization.rs:406-433 | an event applied in order leaves a lease of another session, or one whose binding has none of these older epochs, exactly as valid as it was |
| RegistryRuns.InstalledResolves | src/subscribe_authorization.rs:327-362 | an installed binding is what its key resolves to at once, under the next revision; every other key resolves as before |
| RegistryRuns.SnapshotResolvesExactly | src/subscribe_authorization.rs:437-494 | an acceptable snapshot closes any gap, and then exactly its bindings resolve |
| RegistryRuns.NextEventIsApplied | src/subscribe_authorization.rs:396-434 | the next event in order is applied and reports how many active bindings it changed |
| RegistryRuns.RedeliveryChangesNothing | src/subscribe_authorization.rs:390-405 | receiving an event a second time changes nothing, whether it was applied or left a gap |
| RegistryRuns.MalformedIsRefused | src/subscribe_authorization.rs:369-388 | which events are malformed, number by number, and that they change nothing |
| RegistryRuns.SnapshotEndsLease | src/subscribe_authorization.rs:476-494 | any accepted snapshot ends every lease resolved before it |
| RegistryRuns.DeliveredIsBounded | src/subscribe_authorization.rs:390-405 | every well-formed event ever received lies at or below the position or the boundary a snapshot must reach |
| RegistryRuns.AcknowledgedCoversDelivered | src/subscribe_authorization.rs:496-505 | when a sequence is acknowledged, no event above it was ever received |
| RegistryRuns.EveryNumberIsAccountedFor | src/subscribe_authorization.rs:365-494 | every sequence number up to the position was applied as an event or lies under an accepted boundary |
| RegistryRuns.AppliedInOrder | src/subscribe_authorization.rs:390-406 | applied events carry strictly increasing numbers, so none is applied twice |
| RegistryRuns.RecoveryCoversDelivered | src/subscribe_authorization.rs:437-494 | leaving a gap takes a snapshot whose boundary covers every event received before it |
| AdmissionTable.SubscribeAdmissionGuard.CheckAndAdmit | src/subscribe_authorization.rs:738-778 | under the lock: expired entries leave; a vacant capability is reserved for this attempt, the same carrier's committed entry is renewed, its own reservation stands, anything else is a replay |
| AdmissionTable.AdmissionExactly | src/subscribe_authorization.rs:744-778 | a capability is admitted exactly when it is vacant and the table has room, or when its unexpired entry is the carrier's committed one or this very reservation; otherwise it is a replay or the table is full |
| AdmissionTable.AdmittedTableExactly | src/subscribe_authorization.rs:744-778 | what the table holds for every capability after a check |
| AdmissionTable.SubscribeAdmissionGuard.Commit | src/subscribe_authorization.rs:699-712 | only the attempt's own pending entry becomes committed |
| AdmissionTable.SubscribeAdmissionGuard.Rollback | src/subscribe_authorization.rs:714-729 | only the attempt's own pending entry leaves |
| AdmissionTable.RollbackRemovesOnlyOwnReservation | src/subscribe_authorization.rs:714-729 | no rollback removes a committed entry or another attempt's pending one |
| AdmissionTable.RollbackUndoesReservation | src/subscribe_authorization.rs:714-778 | rolling back a reservation leaves exactly the table as purged by its check |
| AdmissionTable.FailedAuthorizationGrantsNothing | src/subscribe_authorization.rs:909-1030 | whatever check was made, a rolled back attempt leaves no entry that was not there before |
| AdmissionTable.SuccessfulAuthorizationGrantsOne | src/subscribe_authorization.rs:909-1030 | a committed attempt leaves its capability committed to its own carrier and nothing else new |
| AdmissionTable.AuthorizeStrict | src/subscribe_authorization.rs:909-1030 | a lease is issued exactly when the binding resolves, the verifier's claims cover the request, the capability is admitted and the proof is the expected one; it carries the binding and revision resolved and the signed claims field by field; a refusal grants nothing |
| SubscribeExclusivity.RunKeepsInv | src/subscribe_authorization.rs:690-778 | in every interleaving each claim on a capability is backed by a table entry nobody else can take away, or the log of check-and-admit regions shows how that entry lapsed; all claims agree unless the log reopens the capability |
| SubscribeExclusivity.ExclusiveUnlessReopened | src/subscribe_authorization.rs:909-1030 | two carriers get leases of one capability only if the log reopens it |
| ExclusivityRuns.ExclusivityFailsExactly | src/subscribe_authorization.rs:738-778 | some run with a given log of regions (clock, capability, expiry) leases a capability to two carriers if and only if regions i and k of the log could lease it, some m from i on names it, and the clock of some j after m and up to k has reached the expiry of m |
| ExclusivityRuns.Exclusivity | src/subscribe_authorization.rs:909-1030 | any two leases ever issued for one capability have the same endpoint, class, generation and connection, for a nondecreasing clock and one expiry per capability |
| ExclusivityRuns.UnexpiredClaimsAreBacked | src/subscribe_authorization.rs:690-778 | under the same two conditions each claim not expired by any check's clock is backed by a table entry nobody else can take away |
| ExclusivityRuns.BackwardClockBreaksExclusivity | src/subscribe_authorization.rs:744-748 | with one expiry per capability but a clock that goes back, some run gives two carriers a lease |
| ExclusivityRuns.VaryingExpiryBreaksExclusivity | src/subscribe_authorization.rs:738-778 | with the clock in order but two expiries signed for one capability id, some run gives two carriers a lease |
| SubscribeGate.LeaseCarriesResolution | src/subscribe_authorization.rs:939-1030 | the lease an attempt ends with carries the binding and revision the attempt resolved, whatever ran in between |
| SubscribeGate.IssuedLeaseCarriesClaims | src/subscribe_authorization.rs:1018-1030 | the lease has the sources, audiences and limits of the signed claims, and the connection of the request |
| SubscribeGate.LeaseOrigin | src/subscribe_authorization.rs:947-1030 | every lease stems from a binding that was active when it was resolved, and its admission fingerprint is that binding's |
| SubscribeGate.FencedWhileInFlight | src/subscribe_authorization.rs:406-494 | an event with a newer epoch of the session, or a newer grant for the endpoint, or any snapshot, that runs between resolve and commit already ends the lease about to be issued |
| SubscribeGate.LeaseFailStop | src/subscribe_authorization.rs:541-554 | in the interleaved protocol, too, a lease that failed once fails for ever |
| DeliveryBuffer.AuthorizedDeliveryBuffer.Push | src/subscribe_authorization.rs:1475-1495 | an authorized entry within both bounds is queued, a refused one leaves the entries as they were; the byte count stays the sum of the payloads |
| DeliveryBuffer.AuthorizedDeliveryBuffer.Pop | src/subscribe_authorization.rs:1497-1528 | the oldest entry, checked by two reads of the registry between which it may change; a failure of either read clears the buffer |
| DeliveryBuffer.AuthorizedDeliveryBuffer.PurgeIfInvalid | src/subscribe_authorization.rs:1530-1543 | clears exactly when the lease fails and says how many entries went |
| DeliveryBuffer.AuthorizedExactly | src/subscribe_authorization.rs:1239-1320 | an entry is authorized exactly when the lease is live and agrees with it in tenant, session, epoch, topology, class and selector, its channels and bitrate are within the lease, and its deadline is ahead |
| DeliveryBuffer.PushedExactly | src/subscribe_authorization.rs:1475-1495 | a push is accepted exactly if its entry is authorized and fits both bounds, and then goes last |
| DeliveryBuffer.PoppedIsOldestAndFits | src/subscribe_authorization.rs:1497-1528 | a pop yields an entry exactly if it is the oldest one and authorized at the second read, the lease being live at the first |
| DeliveryBuffer.BufferedWasPushed | src/subscribe_authorization.rs:1475-1495 | whatever is buffered was pushed by an earlier call that found it authorized |
| DeliveryBuffer.FailedLeaseStaysFailed | src/subscribe_authorization.rs:1033-1043 | a lease the gate refused is refused at every later state and time |
| DeliveryBuffer.NothingDeliveredAfterFailure | src/subscribe_authorization.rs:1497-1543 | after one refusal, even between the two reads of a pop, no pop yields an entry and no push is accepted, and one pop or purge empties the buffer for good |
| RelayRuns.RunKeepsInv | src/relay_ingress.rs:603-1071 | in every reachable state: active and completed keys are disjoint, a logical identity names one key, the queue lists the completed keys once each, parents of an object are compatible, symbol counts match the distinct sequences, and all ceilings hold for the sums over active objects |
| RelayInvariants.AnnounceObjectKeepsInv | src/relay_ingress.rs:646-759 | announcements, accepted or not, keep that invariant |
| RelayInvariants.PushDatagramKeepsInv | src/relay_ingress.rs:792-965 | so do datagrams |
| RelayInvariants.PushControlledKeepsInv | src/relay_ingress.rs:761-789 | so does the derived announcement of a controlled session followed by its datagram |
| RelayInvariants.ExpireKeepsInv | src/relay_ingress.rs:968-996 | so does an expiry scan |
| RelayInvariants.CompletedKeepsInv | src/relay_ingress.rs:930-956 | so does a completion with its tombstone |
| RelayAnswers.PushSymbolAnswers | src/relay_ingress.rs:806-967 | every answer to a symbol with its condition on sessions, announcements and objects: who is heard, what is a duplicate, a replay conflict, late, unannounced, unauthorized or in conflict |
| RelayAnswers.AdmissionExactly | src/relay_ingress.rs:811-901 | which check refuses a symbol, for each error, and when the assembler sees it |
| RelayAnswers.AnnouncedParentIsHeard | src/relay_ingress.rs:856-967 | a new symbol of an active, unexpired object from a session that announced it, with room left, is buffered as exactly one more symbol, or completes the object |
| RelayAnswers.BufferedExactly | src/relay_ingress.rs:902-924 | a buffered symbol changes its own object by one symbol and nothing else |
| RelayAnswers.DecodedExactly | src/relay_ingress.rs:925-967 | a decoded object leaves the active ones for the completed ones with its announcement and parents, and the counters say how much repair it took |
| RelayAnswers.OthersTouchNothing | src/relay_ingress.rs:811-902 | a duplicate or refused symbol touches no object; a late one only lets overdue objects go |
| RelayAnswers.CompatibleKinds | src/relay_ingress.rs:1148-1171 | which kind each decoded object may have been announced as |
| RelayAnswers.AnnouncementExactly | src/relay_ingress.rs:659-759 | when an announcement starts an object, joins one or comes after it was completed |
| RelayAnswers.AnnouncementRefusals | src/relay_ingress.rs:659-740 | why an announcement is refused |
| RelayAnswers.AnnouncedExactly | src/relay_ingress.rs:683-759 | what an accepted announcement leaves, and that a refused one changes nothing |
| RelayAnswers.JoinExactly | src/relay_ingress.rs:1074-1103 | a session may join an object's parents exactly if there is room and it shares neither role nor, unless both are controlled, peer with any of them |
| RelayAnswers.ControlledExactly | src/relay_ingress.rs:761-790 | when a controlled session's symbol announces its object, and as what |
| RelayAnswers.RegisterExactly | src/relay_ingress.rs:621-641 | a session is registered once, unchanged, and up to the limit |
| RelayAnswers.ExpireExactly | src/relay_ingress.rs:968-997 | an expiry scan removes exactly the objects past their deadline or inactive for the timeout |
| RelayAnswers.RejectionCounts | src/relay_ingress.rs:1009-1031 | which counters each refusal moves |
| RelaySenders.SymbolsComeFromParents | src/relay_ingress.rs:856-917 | over any run, every symbol an active object holds was sent, with that sequence and fingerprint, by a session that is one of its parents |
| RelaySenders.ParentsAnnounced | src/relay_ingress.rs:659-790 | over any run, every parent of an active object announced it exactly as the object has it |
| RelayRuns.TombstonesAreRecentDecodes | src/relay_ingress.rs:1059-1071 | the tombstone queue is always the last keys of the decode log, as many as configured |
| RelayRuns.RedecodeNeedsFullWindow | src/relay_ingress.rs:685-696 | between two decodes of one key at least the configured number of other keys were decoded |
| RelayRuns.DatagramLedger | src/relay_ingress.rs:792-925 | received plus kind mismatches equals rejected plus source plus repair, over any run |
| RelayRuns.BoundedStaleness | src/relay_ingress.rs:968-1007 | with a nondecreasing clock, after any call that reaches the due-check no active object is overdue, by deadline or inactivity, by a whole scan interval |
| RelayReceiver.IndexFindsConflicts | src/relay_ingress.rs:690-696 | looking a key up in the logical-identity index finds a conflict exactly when some known key has the same identity and another digest |
| RelayReceiver.AddParentToSet | src/relay_ingress.rs:1074-1103 | a second parent joins exactly when the limit, peers and roles allow it, with the error the scan meets |
| RelayReceiver.RelayObjectReceiver.RegisterParentSession | src/relay_ingress.rs:621-643 | registration is idempotent, bounded and never replaces a session |
| RelayReceiver.RelayObjectReceiver.RemoveActiveObject | src/relay_ingress.rs:1043-1057 | removal releases exactly the object's bytes and datagrams: neither subtraction clips |
| RelayReceiver.RelayObjectReceiver.ExpireObjects | src/relay_ingress.rs:968-996 | the scan removes exactly the overdue objects and reports what it released; index and budgets stay exact |
| RelayReceiver.RelayObjectReceiver.AnnounceReliable | src/relay_ingress.rs:646-759 | with the cached index and budgets, an announcement does what the state machine over exact sums does |
| RelayReceiver.RelayObjectReceiver.PushWireDatagram | src/relay_ingress.rs:792-965 | so does a datagram |
| RelayReceiver.RelayObjectReceiver.EnsureControlledAnnouncement | src/relay_ingress.rs:761-789 | a controlled session's first symbol announces its object or is refused before the receiver sees it |
| RelayReceiver.RelayObjectReceiver.InsertCompleted | src/relay_ingress.rs:1059-1071 | the eviction loop leaves the last keys with their tombstones and drops exactly the evicted identities from the index |
| RelayReceiver.RelayUdpDispatch.Push | src/relay_ingress.rs:1258-1288 | legacy framing is left alone, an unbound peer is counted and refused, a controlled session announces first |
| RelayReceiver.RelayUdpDispatch.Bind | src/relay_ingress.rs:1209-1255 | a peer is bound exactly when no other session holds it and the session registers |
| TalkbackWindow.Admit | src/talkback_lane.rs:285-306 | the in-place update of one window is its specification, bit for bit |
| TalkbackWindow.AdmitRemembers | src/talkback_lane.rs:285-306 | admitting adds exactly the sequence to the remembered set and forgets exactly what slides out |
| TalkbackWindow.WindowRefinesSet | src/talkback_lane.rs:271-306 | after any calls the 128-bit map is the set of admitted sequences seen through the last 128 numbers |
| TalkbackWindow.AdmitExactly | src/talkback_lane.rs:285-306 | after any calls a sequence is admitted iff it exceeds the highest admitted or is within 128 of it and not yet admitted |
| TalkbackWindow.AdmittedOnce | src/talkback_lane.rs:285-306 | no number is admitted twice |
| TalkbackRuns.RouteSafety | src/talkback_lane.rs:420-498 | in every reachable state each queued frame carries the installed route's epochs, comes from one of its publishers, goes to one of its subscribers and never to the publisher's own participant; queues are bounded |
| TalkbackRuns.EndedSessionIsGone | src/talkback_lane.rs:367-379 | after a session ended no route, window, queue or playout mark mentions it |
| TalkbackRuns.PulledOncePerSnapshot | src/talkback_lane.rs:459-540 | a delivery key pulls a given sequence at most once per installed snapshot |
| TalkbackRuns.ReceivingWasAcknowledged | src/talkback_lane.rs:563-606 | a receiver counts as receiving a sequence only after a call that accepted the acknowledgement of it, with the audience not replaced or ended since |
| TalkbackRuns.AcknowledgedIsReceiving | src/talkback_lane.rs:563-606 | right after an accepted acknowledgement the receiver counts as receiving that sequence, and no other, exactly while it is fresh |
| TalkbackDrain.DrainYieldsLiveFrames | src/talkback_lane.rs:501-540 | draining a receiver at a fixed clock hands out exactly the unexpired frames of each queue, once each, in queue order |
| TalkbackDrain.DrainedFramesWereQueued | src/talkback_lane.rs:501-540 | and nothing else |
| TalkbackDrain.DrainIsOrdered | src/talkback_lane.rs:518-529 | when each queue is ordered by accepted time and sequence, so is the whole drain |
| TalkbackDrain.DrainExists | src/talkback_lane.rs:501-540 | every state can be drained |
| TalkbackDrain.FramesConserved | src/talkback_lane.rs:349-540 | in every reachable state the frames waiting, pulled, evicted, purged and expired in their queues are exactly the deliveries queued |
| TalkbackLatest.PublishAnswers | src/talkback_lane.rs:420-470 | every answer of a publish with its condition on deadline, route, epochs, publisher and replay window |
| TalkbackLatest.PublishKeepsTheLatest | src/talkback_lane.rs:472-498 | after an accepted publish each receiver's queue is the newest of its unexpired frames and the new one, as many as it may hold, in order; other queues are untouched; the answer names exactly who got a copy |
| TalkbackLatest.EvictedWasOldest | src/talkback_lane.rs:485-492 | over any run, a frame evicted before its deadline was queued before every frame waiting in that queue then or later |
| TalkbackLatest.RefusedPublishChangesNothing | src/talkback_lane.rs:420-470 | a refused frame moves counters only |
| TalkbackLatest.PublishCounts | src/talkback_lane.rs:381-414 | which counters each answer moves |
| TalkbackLatest.PurgeSparesOthers | src/talkback_lane.rs:349-379 | installing, removing or ending touches no audience but those it names |
| TalkbackLatest.PulledIsOldest | src/talkback_lane.rs:516-527 | the frame pulled was accepted no later than any other unexpired front of the receiver, and has the least sequence among those accepted at the same time |
| TalkbackLatest.PullMarksDelivered | src/talkback_lane.rs:527-540 | a pull raises the delivered mark of its queue and keeps the acknowledgement |
| TalkbackLatest.AcknowledgeAnswers | src/talkback_lane.rs:543-594 | every answer to an acknowledgement with its condition, and what an accepted one records |
| TalkbackLanes.TalkbackLane.InstallSnapshot | src/talkback_lane.rs:349-354 | the route is replaced and all live state of its audience purged and counted |
| TalkbackLanes.TalkbackLane.RemoveAudience | src/talkback_lane.rs:356-365 | one audience leaves with all its live state |
| TalkbackLanes.TalkbackLane.EndSession | src/talkback_lane.rs:367-379 | the loop over a session's audiences removes all of them at once |
| TalkbackLanes.TalkbackLane.PublishFrame | src/talkback_lane.rs:381-498 | an authorized fresh frame moves the replay window and joins the queue of every subscriber of another participant; a refused one changes only a counter |
| TalkbackLanes.TalkbackLane.FanOutFrame | src/talkback_lane.rs:474-497 | the loop over the subscribers queues one copy per receiver, evicts from full queues and reports both endpoint sets |
| TalkbackLanes.TalkbackLane.PullNext | src/talkback_lane.rs:501-540 | expired fronts go, and the oldest remaining front is pulled and marked delivered |
| TalkbackLanes.TalkbackLane.OldestQueue | src/talkback_lane.rs:516-530 | the search finds a nonempty queue with the oldest front, or that there is none |
| TalkbackLanes.TalkbackLane.AcknowledgePlayout | src/talkback_lane.rs:543-593 | an acknowledgement is accepted only for a delivered sequence newer than the last one acknowledged |
| TalkbackLanes.TalkbackLane.IsReceiving | src/talkback_lane.rs:596-606 | the read-only check behind the two lemmas on acknowledgements |
| UdpTracker.ObserveInPlace | src/udp_fec.rs:269-302 | the in-place update with its loop over the gap is the specification |
| UdpTracker.ObserveExactly | src/udp_fec.rs:269-302 | what one packet does to the missing set, number by number, and to the expected and highest numbers, counted around the 32-bit space |
| UdpTracker.MissingIsBounded | src/udp_fec.rs:269-302 | whatever arrives, at most the configured number of gaps is tracked |
| UdpTracker.MissingIsExact | src/udp_fec.rs:281-300 | until another gap opens, and while the numbers have not gone round, the missing set is exactly the last numbers of the gap not observed since |
| UdpTracker.NewGapForgetsOld | src/udp_fec.rs:285-293 | a forward jump forgets every older gap |
| UdpTracker.ExpectedFollowsHighest | src/udp_fec.rs:271-296 | the expected number stays one past the highest if and only if the jump is not exactly half the number space |
| UdpInvariants.PushKeepsInv | src/udp_fec.rs:409-610 | every datagram, accepted or rejected, keeps flows, objects, completed blocks and budgets in agreement |
| UdpInvariants.RemoveIsRelease | src/udp_fec.rs:722-734 | dropping an object leaves exact counts and budgets: no saturating subtraction clips |
| UdpInvariants.ScanKeepsInv | src/udp_fec.rs:662-711 | a scan keeps the agreement |
| UdpRuns.StateAt | src/udp_fec.rs:409-711 | the state after any calls satisfies the invariant that makes the next call defined |
| UdpRuns.RunKeepsInv | src/udp_fec.rs:409-750 | in every reachable state flows count their objects, every object has a live flow and is not among its completed blocks, totals are sums, and every limit holds |
| UdpRuns.EveryLookupSucceeds | src/udp_fec.rs:442-445 | every active object's flow is found, counts it, and the totals cover it |
| UdpRuns.DatagramLedger | src/udp_fec.rs:415-609 | received is accepted plus rejected; accepted is buffered plus duplicate plus decoded, over any run |
| UdpRuns.RejectionLeavesNothing | src/udp_fec.rs:597-608 | a rejected datagram leaves no new flow or object, touches no other one, and unless its object was dropped or its decoder broke changes nothing |
| UdpRuns.BoundedStaleness | src/udp_fec.rs:649-720 | with a nondecreasing clock no object stays inactive for the timeout plus a scan interval; with a zero timeout none stays inactive at all |
| UdpRuns.StalenessBoundExactly | src/udp_fec.rs:649-720 | the timeout plus a scan interval bounds inactivity in all runs if and only if the timeout is not zero |
| UdpDedup.RemembersRecentDecodes | src/udp_fec.rs:329-342 | while a flow stays, its completed queue is the last configured number of blocks it reported as decoded, and no block is decoded twice within that window |
| UdpDedup.RedecodeNeedsFullWindow | src/udp_fec.rs:455-470 | between two decodes of one block in one life of a flow, at least that many other blocks were decoded |
| UdpDedup.RecentBlockIsDuplicate | src/udp_fec.rs:455-470 | a datagram of acceptable length and size is answered as a duplicate if and only if its flow outlives the expiry of the call and its block is among the last ones decoded there |
| UdpAnswers.PushAnswers | src/udp_fec.rs:409-610 | every answer to a datagram with its condition on lengths, remembered blocks, sums and limits |
| UdpAnswers.DecisionExactly | src/udp_fec.rs:441-545 | the limits are checked in the source's order against exact counts and sums, and the first that fails is the answer |
| UdpAnswers.BufferedExactly | src/udp_fec.rs:545-602 | a datagram for an incomplete object adds one to it, is seen by its flow, and moves nothing else |
| UdpAnswers.DecodedExactly | src/udp_fec.rs:575-591 | a completed object leaves, its flow stays and has seen the packet, and nothing else moves |
| UdpAnswers.RejectedExactly | src/udp_fec.rs:486-608 | a rejection removes the object of a broken datagram, or one that used up its datagrams, and no other |
| UdpAnswers.DuplicateExactly | src/udp_fec.rs:455-470 | a repeated datagram is only seen by its flow |
| UdpAnswers.ScanExactly | src/udp_fec.rs:662-711 | a scan removes exactly the objects inactive for the timeout and the flows then without objects and inactive for theirs |
| UdpAnswers.ScansWhenDue | src/udp_fec.rs:649-720 | a call scans exactly when no scan is scheduled or the scheduled one is due |
| UdpReceiver.MarkBlockCompleted | src/udp_fec.rs:329-342 | the push-and-pop loop keeps the newest blocks and the set of exactly them |
| UdpReceiver.UdpFecReceiver.TryPushPayload | src/udp_fec.rs:409-610 | the receiver, with its counters and totals updated in place, takes the specified step; a rejection is remembered |
| UdpReceiver.UdpFecReceiver.ScanInactive | src/udp_fec.rs:662-711 | stale objects removed one by one, then idle flows, is the scan of the state machine; it reports what it released |
| UdpReceiver.UdpFecReceiver.RemoveObjectState | src/udp_fec.rs:722-734 | removal of one object with its budgets and its flow's count |
| ReplicationPlan.ChooseFinds | src/replication.rs:256-300 | a node is chosen exactly when the scope has a candidate; the choice is far enough from every replica if any candidate is, and no candidate of that kind has a greater score |
| ReplicationPlan.CandidateFields | src/replication.rs:32-34 | a candidate lies in the scope, holds no replica, is not draining and has room for the stream |
| ReplicationPlan.BestIsBest | src/replication.rs:294-299 | the choice has the greatest score of its pool |
| ReplicationFixpoint.FillFills | src/replication.rs:218-253 | a fill extends the plan within the cap, and below the cap the scope ends up filled or without candidates; a filled scope adds nothing |
| ReplicationFixpoint.PerformDoes | src/replication.rs:168-212 | a demand is done after its turn when its region lies in its continent, and adds nothing when it was done before |
| ReplicationFixpoint.PlanIsFixpoint | src/replication.rs:102-215 | with consistent geography and the cap not reached, carrying out a plan and planning again gives the empty plan, whatever the visiting orders |
| ReplicationFixpoint.ReplanIsEmptyIffDone | src/replication.rs:102-215 | planning again adds nothing if and only if every baseline and hot demand is filled or has no candidate left |
| ReplicationFixpoint.CapBreaksFixpoint | src/replication.rs:232-234 | with two nodes, no demand signal and a cap of one, the plan for all there is to do leaves work for the next one |
| ReplicationFixpoint.GeographyBreaksFixpoint | src/replication.rs:171-211 | one hot signal whose region lies in another continent, the whole work of its plan, is met again by the next plan |
| ReplicationFixpoint.PlanIsSound | src/replication.rs:102-253 | each placement was the best choice for its reason, given the replicas and placements before it; no node is chosen twice; the cap is kept |
| ReplicationDemand.HotExactly | src/replication.rs:156-174 | a region and continent are planned for exactly when the stream's signals for them reach one of the two thresholds |
| ReplicationDemand.WorkExactly | src/replication.rs:106-174 | the work of a plan: the configured baseline of every continent and region that has a node, and the hot demand |
| ReplicationDemand.CountsReplicas | src/replication.rs:322-335 | replicas are counted node by node: those of the scope that hold one or are about to |
| ReplicationDemand.BaselinePlaces | src/replication.rs:106-154 | a baseline adds placements for its own scope until it has its replicas, no node has room or the cap is reached |
| ReplicationDemand.DemandPlaces | src/replication.rs:168-211 | a hot demand adds at most one replica: in its region if that has none and room, else in its continent if that has none and room |
| ReplicationPlanner.FillScope | src/replication.rs:218-253 | the loop computes the fill and says whether it added anything |
| ReplicationPlanner.GroupDemand | src/replication.rs:156-166 | demand is summed per region and continent, readers with saturation |
| ReplicationPlanner.PlanReplicas | src/replication.rs:102-215 | the loops compute a sound plan within the cap for exactly the work there is, continents before regions before demand |
| TelemetryEnvelopes.EncodeInto | src/telemetry_fec.rs:60-97 | appending field after field gives the encoding, with the errors in their order |
| TelemetryEnvelopes.DecodeOfEncode | src/telemetry_fec.rs:60-154 | decoding what was encoded gives the envelope back |
| TelemetryEnvelopes.EncodeOfDecode | src/telemetry_fec.rs:99-154 | for every accepted byte string, encoding what was decoded gives it back with the four reserved bytes zeroed |
| TelemetryEnvelopes.EncodeIsInjective | src/telemetry_fec.rs:60-97 | no two envelopes share an encoding |
| TelemetryEnvelopes.AcceptsExactlyEncodings | src/telemetry_fec.rs:99-154 | exactly the encodings are accepted, up to the reserved bytes |
| TelemetryEnvelopes.EncodedFields | src/telemetry_fec.rs:79-93 | where every field of an encoding lies |
| TelemetryEnvelopes.EncodedBytes | src/telemetry_fec.rs:79-93 | byte i of every number in the header is its digit of weight 256 to the i |
| TelemetryEnvelopes.EncodeAnswers | src/telemetry_fec.rs:60-78 | which envelopes are encoded, and why others are refused |
| TelemetryQueue.LatestTelemetryQueue.Push | src/telemetry_fec.rs:183-207 | a block replaces the oldest exactly when two are waiting; the byte budget never evicts by itself |
| TelemetryQueue.LatestTelemetryQueue.TryPop | src/telemetry_fec.rs:209-214 | the oldest block leaves with its bytes |
| TelemetryQueue.PushedIsLatest | src/telemetry_fec.rs:183-207 | a push leaves the newest two of the waiting blocks and the new one |
| TelemetryQueue.HoldsTheLatest | src/telemetry_fec.rs:183-214 | what waits is always the newest end of everything pushed, at most two blocks |
| TelemetryQueue.DeliveredInOrder | src/telemetry_fec.rs:183-214 | blocks come out in the order they went in, none twice |
| EdgeAdmission.EdgeAdmissionControl.RecordBytes | src/edge_admission.rs:123-131 | no bytes leave the window alone, others are recorded in their second |
| EgressWindow.RollingEgressWindow.Record | src/edge_admission.rs:273-282 | the bucket of the second grows or a new one is added, after pruning |
| EgressWindow.RollingEgressWindow.Rate | src/edge_admission.rs:284-302 | the rate of the buckets left after pruning |
| EgressWindow.WindowRefinesLog | src/edge_admission.rs:272-314 | for nondecreasing seconds the deque is strictly increasing, has at most one entry per second of the window, and gives the rate of filtering the full event log |
| EgressWindow.RateMeasuresTheLog | src/edge_admission.rs:284-302 | the rate is eight times the bytes sent within the window, divided by the seconds since the first of them, the present one included |
| EgressWindow.PrunedIsRecent | src/edge_admission.rs:304-313 | pruning buckets is grouping the recent events only |
| EdgeAdmission.NormalizedIsOrdered | src/edge_admission.rs:42-61 | whatever is configured, recovery is at most admission, the window is nonempty, and normalising twice changes nothing |
| EdgeAdmission.NormalizedKeepsValid | src/edge_admission.rs:42-53 | a configuration within its ranges is left as it is |
| EdgeAdmission.LimitsArePercentages | src/edge_admission.rs:55-61 | both limits are whole percentages of the capacity |
| EdgeAdmission.ActiveExactly | src/edge_admission.rs:320-323 | a session stays exactly while it was seen within the idle time |
| EdgeAdmission.OverloadedIff | src/edge_admission.rs:160-169 | overloaded holds iff some snapshot crossed the sustained admission limit and none since fell below recovery |
| EdgeAdmission.EdgeAdmissionControl.Snapshot | src/edge_admission.rs:153-191 | one snapshot prunes the window, reads its rate, takes one hysteresis step and drops idle sessions |
| EdgeAdmission.EdgeAdmissionControl.AdmitPlayback | src/edge_admission.rs:193-235 | an active session is never refused; a new one is refused under overload, and in a full table replaces a least recently seen one |
| EdgeLifecycle.EdgeLifecyclePlanner.Plan | src/edge_lifecycle.rs:62-155 | every region with nodes is planned on its own memory, at most one action each |
| EdgeLifecycle.CandidateIsLongestIdle | src/edge_lifecycle.rs:130-146 | the edge to close is live, has no readers and has been silent for the idle time; no other such edge was active earlier, and among equals it has the least name |
| EdgeLifecycle.ProvisionExactly | src/edge_lifecycle.rs:97-126 | exactly when an edge is provisioned: enabled, pressure now and at the last look, room, the leader asking, the cooldown over |
| EdgeLifecycle.CloseExactly | src/edge_lifecycle.rs:125-153 | exactly when an edge is closed, and which one |
| EdgeLifecycle.MemoryExactly | src/edge_lifecycle.rs:97-121 | what one look at a region leaves in memory |
| EdgeLifecycle.NormalizedKeepsValid | src/edge_lifecycle.rs:28-36 | a configuration within its ranges is left as it is |
| EdgeLifecycle.LeaderIsLeast | src/edge_lifecycle.rs:92-95 | the leader is the live node with the least name |
| EdgeLifecycle.OneActionPerRegion | src/edge_lifecycle.rs:107-153 | in a fleet that sees the same nodes at most one action is emitted per region, whatever each controller remembers and whatever its clock says |
| EdgeLifecycle.FleetKeepsBounds | src/edge_lifecycle.rs:105-153 | carrying out all the fleet's actions keeps the live edges of every region within the configured bounds |
| EdgeLifecycle.ProvisionsAreSpaced | src/edge_lifecycle.rs:109-123 | one planner's provisions of a region are at least the cooldown apart, in any run |
| EdgeLifecycle.ProvisionNeedsTwoSamples | src/edge_lifecycle.rs:97-108 | each follows two successive looks at the region that both found it under pressure |

## Left out

- Coding, parsing and cryptography (RaptorQ, datagram headers, path permits, digests, signatures, JSON): only their
  answers enter the model, as parameters.
- Cumulative counters are unbounded numbers: the source saturates them at 64 bits.  Registry revisions, expiry
  times of the relay receiver, demand sums and egress byte sums do saturate in the model.
- Monotonic instants are unbounded: the end of the platform's instant range, where the UDP receiver stops
  scheduling scans, is not reached.
- The order of map iteration: where the source visits a hash map the model allows any order.
- TalkbackLanes.TalkbackLane.PullNext: which queue wins when accepted time and sequence are equal is left open;
  the source takes the first in key order.
- TalkbackLanes.TalkbackLane.FanOutFrame: the two endpoint lists are sets; their order is not modelled.
- TalkbackWindow.Admit: the left shift by a distance is written as repeated shifts by one place; the window is a value
  kept in its map, so the update returns the new window instead of changing an entry through a reference.
- UdpTracker.ObserveInPlace: the tracker, too, is a value inside its flow.
- UdpReceiver.MarkBlockCompleted: the flow is a value inside the flow map.
- EdgeLifecycle.EdgeLifecyclePlanner.Plan: the final sort of the actions by their printed form is not modelled;
  node names are numbers in string order.
- AdmissionTable.AuthorizeStrict: the syntactic request checks before the resolve, the metrics and the
  propagation of a new lease to the relay are not modelled.
- ReplicationPlanner.PlanReplicas: the recorded score of a placement is not modelled; scores and distances are
  real-valued functions of a node and the replica set; continents and regions are visited in any order, where the
  source takes them by name.
- DeliveryBuffer.NothingDeliveredAfterFailure: one lease per buffer; the source lets each call name its lease.
- RegistryRuns.FailStop: stated for revisions below the largest 64-bit number, which FailStopExactly shows to be
  exact.
- Racing snapshots of the overload flag: snapshots are taken one after the other.
- The snapshot and configuration constructors' field checks (identifier syntax, membership limits), the
  partitioned catalog, the telemetry block decoder, link probing, the control wrapper and the synchronized stem
  subscriber: bounded tables and comparisons that would add easy members only.
- Formatting, metrics text, notification and real clocks.
