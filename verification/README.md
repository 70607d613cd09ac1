# Replication, registry and streaming models

Dafny models of the state machines behind the A2X registry and of the streaming
types of IntelliRouter, with proofs of what they promise. `dafny verify dfyconfig.toml`
checks everything.

The main part is the A2X cluster: a full mesh of registries in which every record is
written by its origin only and replicated by last-writer-wins versions. Around it are
five smaller models: streaming chunk accumulation, the etcd table repository, the lease
state machine, the image registry and the credential store.

| file | models |
|---|---|
| `Order`, `Decimal`, `Separators` | Python's string order, `str(int)`, joining and splitting at a separator, composite state keys |
| `Envelope`, `NodeState` | the LWW version order; one node's state and every operation on it |
| `StepEffects` | what each operation of a node comes to, told by what can be observed afterwards |
| `ClusterSystem` | any number of nodes, messages that are lost, duplicated and reordered; safety over all runs; the version clock |
| `Delivery` | the overlay after any deliveries at any instants |
| `Merkle`, `Reconcile` | bucketed digests against the plain index diff; what one anti-entropy exchange achieves |
| `ExchangeSteps`, `Mesh` | the exchange key by key, and as messages of the replication system; a round of exchanges over the whole mesh |
| `TimedWorld` | runs in real time, with checks and message delays |
| `CrashBound`, `CollectBound` | how long the records of a crashed node survive, and whether collecting tombstones can bring a deleted record back: both bounds with their exact conditions |
| `ClusterStore` | the store as a class: each method proved against the functions of `NodeState` and `Reconcile` |
| `Membership`, `MembershipRun`, `MembershipStore` | the roster: merging, removal tombstones over all runs with crashes and restarts; the store as a class |
| `Chunks` | `AssistantMessageChunk.__add__` and its in-place merge loop |
| `EtcdStore`, `EtcdQuery` | reads, compare-and-swap patches and blind writes of many clients; prefix scans, sorts and pages |
| `Lease` | `LeaseTable` on values and as a class over shared lease objects |
| `VersionKey`, `ImageService` | the sort key of versions; default versions and web ports |
| `AuthStore` | the hash index of API keys, with reloads |

How to read it: each file first states the behaviour as functions on values, in the source's
branches; the lemmas prove properties of those functions and of runs of them; where the
source is an object that updates its fields there is a class whose methods are proved to do
what the functions say, so the lemmas speak about the methods.

Assumptions that run through the models:

- The hash is a parameter. The digest results ask of it a fixed width of 32 and no collision
  among the strings that are actually hashed for the two indices at hand (`Merkle.Sound`);
  dataset, origin and service ids do not contain the separator 0x1f.
- Wall-clock readings are arbitrary integers and may go back. Liveness clocks do not go back;
  every node has its own. Times are exact numbers; floating-point rounding is not modelled.
- A registry write and its `on_local_mutation` hook are one step. Nodes are honest, the
  cluster is open (no auth store), and ephemeral entries, which the local index skips, are
  not part of a node's registry.
- Image row ids (a digest of name and version) do not collide. Token hashes and random ids
  of the credential store are distinct.

## Findings

Places where a promise or an expectation does not hold as written; each is a lemma that
names the input, next to the exact condition where there is one.

- The crash bound needs `hold + keepalive >= 2d + e` when `d <= hold`, and `keepalive > d + e`
  otherwise, where `d` is the interval between HOLD checks and the age of the last contact and
  `e` the time a message may be under way. `CrashBound.BoundFailsOtherwise` builds a run of two
  survivors for every configuration that misses it: the evicted records come back and no
  session is left to evict them.
- "GC can't cause a resurrection" (store.py:659-661) holds if and only if the cooldown and the
  tombstone both outlast the last older copy that can arrive: `grace + d + e < keepalive`, and the same in
  whole milliseconds with the skew of the wall clocks, where `grace` is how long after the deletion
  a node that has not received it may still be in contact with the origin (`DeletionSticks`).
  For every configuration that misses it there is a run that ends with the deleted record live again
  at a node without a session to evict it (`DeletionUndoneOtherwise`). The defaults miss it for every
  grace and delay, because hold timers are checked once per keepalive interval, so `d` is not below `keepalive`.
- A serving side that has lost its session, as after a restart, gives an initiator only the datasets
  it hosts itself, so such an exchange can leave the initiator behind (`HalfPairedExchangeAt`).
- An empty negotiated namespace list means "all" to the side that starts an exchange and
  "none" to the side that serves it, so everything is pushed (`EmptyNegotiationPushesEverything`).
- A node that removes itself with `set_remove` calls `evict` at its own address before the save. If that
  call arrives, the node ends up in no cluster; if it does not, a restart makes the node a live member
  again: after a restart it is live if and only if no such call came back to it (`OwnAfterRemovals`).
  `OwnRecordRestoredIff` says exactly when a restart restores the own record.
- A membership version is minted without a save; a crash before the caller saves lets it be
  minted again, and no other operation has this gap (`UnsavedVersionRepeats`, `ReissueAtRestart`).
- `set_remove` notifies the removed node between writing its tombstone and saving it; a crash there
  undoes the removal at the remover (`RemovalLostIffUnsaved`). `SavedRemovalSurvivesIff` and
  `ActShieldedIff` say exactly when a restart keeps a removal.
- A mismatch of `merkle_buckets` between two nodes costs transfer only: the pull and push sets
  are exact for any two counts, which is more than the comment in config.py says (`PullExact`).
- For a bound n on the components, the keys of all versions below the bound are in version order if
  and only if n is at most 100000 (`WidthExact`).
- Registries share etcd keys and key prefixes when one name goes on with a slash after the other:
  a query of "a" returns rows of "a/b", a query of "a/b" returns the row "b/c" of "a", and that row
  and the row "c" of "a/b" have one key, so one registration overwrites the other (`SlashedRegistryLeaks`).
  Over all ids two registries are isolated if and only if neither name followed by a slash starts the
  other (`IsolatedIff`, `KeysCollideIff`); names without a slash always are (`ApartBySlash`).
- Removing a service of the reserved name `_meta` forgets a registry's kind (`DeregisterCanForgetKind`).
- Registering an existing image again can rename its framework where `update_image` would refuse;
  this is the only operation that breaks an instance's reference (`ReferenceKeptIff`).
- Loading the credential files indexes revoked keys again; this changes the reason of a refusal and
  no decision (`ReloadInvisible`).

## Model

| member | source | states |
|---|---|---|
| `Envelopes.VersionTotal` | AgentRegistry/a2x_registry/cluster/envelope.py:48-58 | any two different versions are ordered one way |
| `Envelopes.VersionTransitive` | AgentRegistry/a2x_registry/cluster/envelope.py:48-58 | the LWW order is transitive |
| `Envelopes.VersionAsymmetric` | AgentRegistry/a2x_registry/cluster/envelope.py:48-58 | of two versions at most one is newer, so two nodes cannot each believe theirs wins |
| `StateKeys.SplitUndoesMake` | AgentRegistry/a2x_registry/cluster/state.py:54-60 | splitting a composite key gives the parts back if and only if the dataset contains no separator |
| `StateKeys.MakeKeyInjective` | AgentRegistry/a2x_registry/cluster/state.py:54-60 | two records with separator-free datasets never share a state key |
| `ClusterSystem.RunInv` | AgentRegistry/a2x_registry/cluster/store.py:155-217 | in every state of every run: live and deleted records of a node are disjoint, their stamps are its own and at most its saved clock, every message and replica was minted, key and version determine the envelope, suppressed origins are absent |
| `ClusterSystem.NextInv` | AgentRegistry/a2x_registry/cluster/store.py:759-782 | every event (operation, send, clock tick) keeps that invariant |
| `ClusterSystem.ReplicationSafety` | AgentRegistry/a2x_registry/cluster/store.py:291-313 | under loss, duplication and reordering everything held or in flight was stamped by its origin, equal key and version mean equal envelopes, no node replicates its own records, and nothing is newer than what the origin still tracks |
| `ClusterSystem.ReplicaNotAhead` | AgentRegistry/a2x_registry/cluster/store.py:464-482 | a replica is never newer than the origin's record for a key the origin tracks, and at equal version it is the same record |
| `ClusterSystem.StampsIncrease` | AgentRegistry/a2x_registry/cluster/store.py:759-782 | every stamp is new and strictly newer than all earlier stamps of that node, through restarts and wall-clock step-backs |
| `ClusterSystem.StampBuild` | AgentRegistry/a2x_registry/cluster/store.py:260-287 | after a stamp the node serves exactly the stamped envelope for that key and what it served before for every other own key |
| `ClusterSystem.NoStampBuild` | AgentRegistry/a2x_registry/cluster/store.py:654-678 | operations that stamp nothing change what a node serves of its own only by forgetting it |
| `ClusterSystem.IssuedIncrease` | AgentRegistry/a2x_registry/cluster/store.py:155-198 | every version a node issues, for records or membership, is strictly newer than those issued before, unless an unsaved clock was lost in a restart |
| `ClusterSystem.SavedClockFloor` | AgentRegistry/a2x_registry/cluster/state.py:139-160 | the saved clock never falls over a run |
| `ClusterSystem.RunningClockFloor` | AgentRegistry/a2x_registry/cluster/store.py:162-198 | without a restart the running clock never falls |
| `ClusterSystem.ReissueIff` | AgentRegistry/a2x_registry/cluster/store.py:162-198 | for every node: after a restart a version no newer than t can be issued if and only if the saved clock was below t |
| `ClusterSystem.UnsavedVersionRepeats` | AgentRegistry/a2x_registry/cluster/store.py:162-189 | for every operation that issues a version: a crash right after it lets the version be issued again if and only if the operation is a membership mint, the one kind that does not save |
| `ClusterSystem.ReissueAtRestart` | AgentRegistry/a2x_registry/cluster/state.py:139-160 | the same at every restart of every run |
| `ClusterSystem.SuppressedMeansAbsent` | AgentRegistry/a2x_registry/cluster/store.py:301-307 | in every reachable state, while an origin's cooldown runs the overlay holds no record of it |
| `ClusterSystem.SuppressionLifted` | AgentRegistry/a2x_registry/cluster/store.py:559-592 | a cooldown ends only by its deadline, a new session with that node or a restart (or by a later eviction when the retention is not positive) |
| `StepEffects.OpenLifts` | AgentRegistry/a2x_registry/cluster/store.py:333-344 | a new session lifts that peer's cooldown at once and for good: every record of it newer than the one held is stored whenever it arrives; the session holds the namespaces and the time; other sessions, cooldowns and all records stay |
| `StepEffects.DisconnectCuts` | AgentRegistry/a2x_registry/cluster/store.py:680-700 | after an eviction there is no session and no record of the peer, and its records are refused for exactly hold plus keepalive; everybody else stays as it was |
| `StepEffects.HoldCheckCuts` | AgentRegistry/a2x_registry/cluster/store.py:544-557 | a hold check does that to exactly the peers silent for longer than the hold time |
| `StepEffects.TouchRestartsTimer` | AgentRegistry/a2x_registry/cluster/store.py:351-356 | hearing from a known peer restarts its timer and changes nothing else |
| `StepEffects.PruneInvisible` | AgentRegistry/a2x_registry/cluster/store.py:559-568 | pruning changes no refusal at any later time and leaves no ended cooldown |
| `StepEffects.ExpiredMeans` | AgentRegistry/a2x_registry/cluster/store.py:666-677 | a tombstone expires once more than the retention, cut to whole milliseconds, has passed on the wall clock |
| `StepEffects.CollectForgetsExpired` | AgentRegistry/a2x_registry/cluster/store.py:654-678 | a collection makes a node serve nothing for exactly the expired deletions, own and replicated, and every other record as before |
| `StepEffects.RestartKeepsOwn` | AgentRegistry/a2x_registry/cluster/state.py:101-124 | after a crash a node serves the same own records, nothing of anybody else, has no session and refuses nobody |
| `StepEffects.MutationServed` | AgentRegistry/a2x_registry/cluster/store.py:767-782 | a write serves the new payload and a deletion a tombstone, under the least stamp above the clock and not behind the wall clock, and a crash right after it changes neither |
| `Delivery.OverlayIsLatest` | AgentRegistry/a2x_registry/cluster/store.py:291-313 | after any deliveries, each at its own instant, the overlay holds per key the newest of what was there and what was admitted, and a key is present exactly if it was or was admitted |
| `Delivery.BlockedUntouched` | AgentRegistry/a2x_registry/cluster/store.py:299-307 | own records and records of origins suppressed whenever theirs arrive are untouched |
| `Delivery.DeliveryOrderIrrelevant` | AgentRegistry/a2x_registry/cluster/store.py:464-482 | two deliveries that admit the same envelopes, in any order, at any instants and with any repetition, leave the same node |
| `Delivery.SameEnvelopesSameResult` | AgentRegistry/a2x_registry/cluster/store.py:464-482 | in particular the same envelopes in any order at any instants that do not cross the end of a cooldown |
| `Delivery.DeliverAppend` | AgentRegistry/a2x_registry/cluster/store.py:464-482 | splitting a batch does not matter |
| `Delivery.HeldSurvivesOlder` | AgentRegistry/a2x_registry/cluster/store.py:308-312 | an accepted record, a deletion in particular, is never undone by admitted records that are not newer |
| `Delivery.AdmittedIsHeld` | AgentRegistry/a2x_registry/cluster/store.py:291-313 | whatever is admitted leaves a record under its key that is at least as new |
| `Merkle.RawInjective` | AgentRegistry/a2x_registry/cluster/merkle.py:36-38 | different entries give different strings to hash |
| `Merkle.BucketByFirstBytes` | AgentRegistry/a2x_registry/cluster/merkle.py:30-33 | the bucket is the first four bytes of the hash, most significant first, modulo the count |
| `Merkle.AscendingUnique` | AgentRegistry/a2x_registry/cluster/merkle.py:50 | a bucket has one sorted arrangement, so its hash does not depend on insertion order |
| `Merkle.MatchingBucketsIdentical` | AgentRegistry/a2x_registry/cluster/merkle.py:41-64 | buckets that do not differ hold the same keys at the same versions, whatever the two bucket counts |
| `Merkle.PullExact` | AgentRegistry/a2x_registry/cluster/store.py:607-628 | the pull set computed from differing buckets is the pull set of the full index diff, for any two bucket counts |
| `Merkle.PushExact` | AgentRegistry/a2x_registry/cluster/store.py:635-640 | the same for the push set |
| `Merkle.FastPathExact` | AgentRegistry/a2x_registry/cluster/store.py:607-612 | no differing bucket means equal indices; with equal counts also the other way round |
| `Merkle.Partitioned` | AgentRegistry/a2x_registry/cluster/merkle.py:45-47 | the loop that fills the buckets puts every key into exactly its bucket, once |
| `Merkle.FoldDigests` | AgentRegistry/a2x_registry/cluster/merkle.py:49-54 | the update loop consumes the digests of the sorted entries in order |
| `Merkle.ComputeBucketHashes` | AgentRegistry/a2x_registry/cluster/merkle.py:41-55 | the loops compute, for every non-empty bucket and no other, the hash of its sorted entries |
| `Merkle.ComputeDiffering` | AgentRegistry/a2x_registry/cluster/merkle.py:58-64 | the loop returns exactly the buckets missing on one side or with different hashes |
| `Reconciliation.ExchangeAt` | AgentRegistry/a2x_registry/cluster/store.py:597-648 | the exact effect of one exchange on every key of both sides: a side takes what the other has newer unless it owns or suppresses the origin |
| `Reconciliation.ExchangeConverges` | AgentRegistry/a2x_registry/cluster/store.py:597-648 | after one exchange both sides hold the same version of a shared key if and only if they did before or the side behind does not refuse the origin, and then it is the LWW maximum |
| `Reconciliation.ReachableExchangeConverges` | AgentRegistry/a2x_registry/cluster/store.py:597-648 | in any reachable state one exchange makes both sides hold the same envelope, the newest, for every shared key whose origin is not suppressed, ghosts excepted |
| `Reconciliation.OwnerBehindOnlyOnGhosts` | AgentRegistry/a2x_registry/cluster/store.py:260-287 | the owner of a key is behind a replica only when it tracks nothing for the key any more |
| `ClusterSystem.LostByCollect` | AgentRegistry/a2x_registry/cluster/store.py:654-673 | in every run an own key that was stamped and is no longer tracked was deleted by its origin, and the deletion collected there: no other operation loses one, restarts included |
| `Reconciliation.OwnerBehindCollected` | AgentRegistry/a2x_registry/cluster/store.py:654-673 | so in every run an owner is behind a replica only on a key whose deletion it has collected at some earlier step |
| `Reconciliation.HalfPairedExchangeAt` | AgentRegistry/a2x_registry/cluster/store.py:380-393 | the exact effect of an exchange when the serving side has no session: it gives only what lies in shared datasets it hosts itself, and takes everything it is behind on |
| `Mesh.MeshConverges` | AgentRegistry/a2x_registry/cluster/sweepers.py:28-40 | in any reachable state without suppression one exchange of every pair, in any order and direction, leaves the same envelope, the newest anybody held, at all nodes for every shared key that is no ghost |
| `Reconciliation.SecondExchangeAt` | AgentRegistry/a2x_registry/cluster/store.py:597-648 | what a second exchange moves, at any readings of the two clocks: exactly the keys a side was behind on whose origin it suppressed at the first and does not at the second |
| `Reconciliation.SecondExchangeIdle` | AgentRegistry/a2x_registry/cluster/store.py:597-648 | so at any later instants it transfers nothing and changes nothing but the time of contact, as long as no cooldown that ran at the first has ended |
| `Reconciliation.ExchangeKeepsInv` | AgentRegistry/a2x_registry/cluster/store.py:597-648 | an exchange keeps the invariant of the replication system |
| `ExchangeSteps.ExchangeIsRun` | AgentRegistry/a2x_registry/cluster/store.py:597-648 | an exchange is a sequence of messages: every run goes on to the state after it, so what holds in all runs holds with exchanges in them |
| `Reconciliation.EmptyNegotiationPushesEverything` | AgentRegistry/a2x_registry/cluster/store.py:234-255 | with an empty negotiated set everything the starting side holds is pushed and stored |
| `CrashBound.CrashedRecordsDisappear` | AgentRegistry/a2x_registry/cluster/store.py:544-557 | later than `hold + d` after a crash no survivor holds a record of the crashed node and none ever will, however checks, local operations and messages interleave that may be under way for `e` |
| `CrashBound.BoundFailsOtherwise` | AgentRegistry/a2x_registry/cluster/config.py:49-56 | for every configuration that misses the condition there is a run that breaks the bound, after `hold + d + e` and with no session left to evict |
| `CollectBound.DeleteDeletes` | AgentRegistry/a2x_registry/cluster/store.py:767-782 | deleting a record puts its origin into the state the next result starts from |
| `CollectBound.DeletionSticks` | AgentRegistry/a2x_registry/cluster/store.py:654-678 | when everybody has the deletion, waits for it in session with the origin, or has evicted the origin, then later than `grace + hold + d` after the deletion no node holds an older copy and none ever will, whatever is collected, restarted or opened afterwards; the origin serves nothing older at any time |
| `CollectBound.DeletionUndoneOtherwise` | AgentRegistry/a2x_registry/cluster/config.py:49-56 | for every configuration, grace and skew that miss the condition there is a run after which a node holds the deleted record, live, with no message under way and no session left to evict it |
| `ClusterStores.StampAllEffect` | AgentRegistry/a2x_registry/cluster/store.py:200-217 | the stamping pass leaves every listed record stamped and replaces no stamp |
| `ClusterStores.ClusterStore.NextTimestamp` | AgentRegistry/a2x_registry/cluster/store.py:193-198 | returns the specified next stamp and moves only the clock, to it |
| `ClusterStores.ClusterStore.NextVersionAfter` | AgentRegistry/a2x_registry/cluster/store.py:162-173 | mints above clock and floor, as the run model's mint step |
| `ClusterStores.ClusterStore.ObserveVersion` | AgentRegistry/a2x_registry/cluster/store.py:175-181 | refines the run model's observe step |
| `ClusterStores.ClusterStore.SaveState` | AgentRegistry/a2x_registry/cluster/store.py:183-189 | the disk holds clock, versions and tombstones of this moment |
| `ClusterStores.ClusterStore.ApplyInbound` | AgentRegistry/a2x_registry/cluster/store.py:291-313 | refines the run model's receive step; the answer says whether the envelope was stored |
| `ClusterStores.ClusterStore.TouchPeer` | AgentRegistry/a2x_registry/cluster/store.py:351-356 | refines the touch step; unknown peers change nothing |
| `ClusterStores.ClusterStore.ServeUpdates` | AgentRegistry/a2x_registry/cluster/store.py:464-482 | the loop delivers the whole batch in order, reading the clock for each envelope, and counts exactly the admitted envelopes that were newer than what was held when they came |
| `ClusterStores.ClusterStore.OpenSession` | AgentRegistry/a2x_registry/cluster/store.py:339-344 | refines the open step: the session holds the namespaces and the time, that peer's cooldown is gone, the others stay |
| `ClusterStores.ClusterStore.EvictRecords` | AgentRegistry/a2x_registry/cluster/store.py:680-700 | the loop removes exactly the records of one origin |
| `ClusterStores.ClusterStore.DisconnectPeer` | AgentRegistry/a2x_registry/cluster/store.py:680-700 | refines the disconnect step: session and records gone, cooldown started; answers whether a session existed |
| `ClusterStores.ClusterStore.CheckHoldTimers` | AgentRegistry/a2x_registry/cluster/store.py:544-557 | drops exactly the sessions silent for longer than the hold time, each cooldown from its own clock reading, in any order of the loop |
| `ClusterStores.ClusterStore.PruneSuppression` | AgentRegistry/a2x_registry/cluster/store.py:559-568 | removes exactly the expired cooldowns |
| `ClusterStores.ClusterStore.GcTombstones` | AgentRegistry/a2x_registry/cluster/store.py:654-678 | collects exactly the expired deletions of both kinds, saves when a local one went, and counts them |
| `ClusterStores.ClusterStore.GcLocal` | AgentRegistry/a2x_registry/cluster/store.py:667-673 | the first loop of the collection, with its save |
| `ClusterStores.ClusterStore.GcOverlay` | AgentRegistry/a2x_registry/cluster/store.py:674-677 | the second loop of the collection |
| `ClusterStores.ClusterStore.Mutate` | AgentRegistry/a2x_registry/cluster/store.py:767-782 | refines the write and delete steps; what is broadcast is the new stamp and is what the node then serves |
| `ClusterStores.ClusterStore.StampLocal` | AgentRegistry/a2x_registry/cluster/store.py:212-215 | the loop body stamps a record exactly if it has neither a version nor a tombstone |
| `ClusterStores.ClusterStore.EnsureLocalVersions` | AgentRegistry/a2x_registry/cluster/store.py:200-217 | stamps every unstamped record, with one save, and does nothing when there is none |
| `ClusterStores.ClusterStore.LiveIndex` | AgentRegistry/a2x_registry/cluster/store.py:236-242 | lists exactly the stamped live records in scope |
| `ClusterStores.ClusterStore.LocalIndex` | AgentRegistry/a2x_registry/cluster/store.py:226-248 | lists exactly the own records the node can serve, at the versions it serves |
| `ClusterStores.ClusterStore.ComputeFullIndex` | AgentRegistry/a2x_registry/cluster/store.py:250-258 | the loops compute the version of exactly the records the node can serve |
| `ClusterStores.ClusterStore.ServedIndex` | AgentRegistry/a2x_registry/cluster/store.py:415-425 | what a peer sees is the full index restricted to what it is allowed |
| `ClusterStores.ClusterStore.Take` | AgentRegistry/a2x_registry/cluster/store.py:629-633 | fetching and applying key by key, with a clock reading for each envelope, transfers exactly what the specification transfers, and counts it |
| `ClusterStores.ClusterStore.Reconcile` | AgentRegistry/a2x_registry/cluster/store.py:597-648 | the bucketed exchange, with any two bucket counts, leaves both nodes as the plain index diff would, each side reading its clock for every envelope, and reports what each side stored |
| `ClusterStores.ClusterStore.StampAndReconcile` | AgentRegistry/a2x_registry/cluster/store.py:226-248 | with the stamping that `_local_index` does first on either side: whatever order the stamps come in, the result is the exchange of the stamped nodes |
| `Membership.MergedVersions` | AgentRegistry/a2x_registry/cluster/membership.py:157-183 | after any batch the version map is the pointwise LWW maximum |
| `Membership.OwnRecordKept` | AgentRegistry/a2x_registry/cluster/membership.py:172-175 | merging never changes a node's own record |
| `Membership.SelfEvictionIff` | AgentRegistry/a2x_registry/cluster/membership.py:157-183 | a merge takes a clustered node out of its cluster if and only if the batch holds a removal of it newer than its own record, and then its roster is empty on disk too |
| `Membership.MergeSaves` | AgentRegistry/a2x_registry/cluster/membership.py:176-183 | what a merge changed is on disk when it returns |
| `Membership.MergeOrderIrrelevant` | AgentRegistry/a2x_registry/cluster/membership.py:157-183 | version maps do not depend on order or repetition |
| `Membership.MergeGroupingIrrelevant` | AgentRegistry/a2x_registry/cluster/membership.py:157-183 | nor on grouping into batches, unless a batch removes the merging node |
| `Membership.TombstoneBeatsSeen` | AgentRegistry/a2x_registry/cluster/store.py:162-173 | a removal is strictly newer than every record no newer than the one its minter saw, whatever the clocks |
| `Membership.RestartRestores` | AgentRegistry/a2x_registry/cluster/membership.py:123-153 | persist, crash, reload gives exactly this cluster's records minus expired removals, the own version and the same wanted peers |
| `Membership.OwnRecordRestoredIff` | AgentRegistry/a2x_registry/cluster/membership.py:530-545 | the own record comes back if and only if it is live and at the advertised address |
| `MembershipRun.RemovalBounds` | AgentRegistry/a2x_registry/cluster/membership.py:306-336 | a removal by a node that saw the newest live record is newer than every live record anywhere, on the wire, in rosters and on disks, and shields its minter |
| `MembershipRun.MergingShields` | AgentRegistry/a2x_registry/cluster/membership.py:157-183 | every node that merges the removal is shielded too |
| `MembershipRun.RunBound` | AgentRegistry/a2x_registry/cluster/membership.py:123-183 | over any run, crashes and restarts included, without a re-add the removal stays newer than every live record |
| `MembershipRun.RemovalSticks` | AgentRegistry/a2x_registry/cluster/membership.py:407-451 | over any run, at every shielded node the removed one stays out of `desired_peers` until that node forgets |
| `MembershipRun.ActShieldedIff` | AgentRegistry/a2x_registry/cluster/membership.py:123-183 | a shielded node stays shielded through an event if and only if the event is not its exclusion, its leaving, the collection of the expired removal, or a restart from a disk without an unexpired removal |
| `MembershipRun.SavedRemovalSurvivesIff` | AgentRegistry/a2x_registry/cluster/membership.py:530-545 | saving puts a removal on disk if and only if it belongs to the own cluster, and a restart then keeps it if and only if it has not expired |
| `MembershipRun.SavedRemovalSticks` | AgentRegistry/a2x_registry/cluster/membership.py:123-183 | once saved, a removal keeps the removed node out of `desired_peers` through any number of crashes and restarts, under conditions told from the events and the roster alone |
| `MembershipRun.RemovalLostIffUnsaved` | AgentRegistry/a2x_registry/cluster/membership.py:316-333 | for every node: a crash between burying a wanted member and the save puts it back among the peers, a crash after the save does not |
| `MembershipStores.MembershipStore.RestoredVersion` | AgentRegistry/a2x_registry/cluster/membership.py:130-135 | the saved version comes back, or a new one; the clock ends at or above it |
| `MembershipStores.MembershipStore.InitFromState` | AgentRegistry/a2x_registry/cluster/membership.py:123-153 | refines the reload step, the clock at or above the restored version |
| `MembershipStores.MembershipStore.PersistState` | AgentRegistry/a2x_registry/cluster/membership.py:530-545 | refines the persist step and saves the version clock with it |
| `MembershipStores.MembershipStore.BecomeStandalone` | AgentRegistry/a2x_registry/cluster/membership.py:486-492 | empties the roster, evicts every member through the one eviction path, saves |
| `MembershipStores.MembershipStore.DropMembers` | AgentRegistry/a2x_registry/cluster/membership.py:490-491 | the eviction loop drops exactly the given nodes |
| `MembershipStores.MembershipStore.MergeRecords` | AgentRegistry/a2x_registry/cluster/membership.py:157-183 | the loop refines the merge step, evicts itself exactly on a newer own removal, saves exactly on change, and answers whether anything changed |
| `MembershipStores.MembershipStore.BuryMember` | AgentRegistry/a2x_registry/cluster/membership.py:316-331 | buries one member under a version above its record and the clock, becomes standalone if the `evict` call comes back to this node, and disconnects the member, before the final save |
| `MembershipStores.MembershipStore.SetRemove` | AgentRegistry/a2x_registry/cluster/membership.py:306-336 | buries the listed members in turn, each with the outcome of its `evict` call, skips entries without an id, and saves after all of them |
| `MembershipStores.ListedAreOut` | AgentRegistry/a2x_registry/cluster/membership.py:306-336 | after it no listed member has a session or records; unless an `evict` call came back to this node, exactly the listed members are removed in the roster besides those that were, and if one did the node is in no cluster |
| `MembershipStores.OwnAfterRemovals` | AgentRegistry/a2x_registry/cluster/membership.py:306-336 | after `set_remove` and a restart a clustered node, whether it listed itself or not, is a live member if and only if no `evict` call came back to it, and in no cluster otherwise |
| `MembershipStores.MembershipStore.HandleEvictSelf` | AgentRegistry/a2x_registry/cluster/membership.py:407-426 | the same for a member that announces it leaves |
| `MembershipStores.MembershipStore.GcMembership` | AgentRegistry/a2x_registry/cluster/membership.py:512-528 | forgets exactly the expired removals and counts them |
| `MembershipStores.MembershipStore.ConnectPeer` | AgentRegistry/a2x_registry/cluster/store.py:572-595 | opens the session, lifts the cooldown and takes what the first reconcile pulls, each envelope at its own clock reading: every pulled record of the peer is held afterwards, or a newer one |
| `MembershipStores.MembershipStore.ConnectMissing` | AgentRegistry/a2x_registry/cluster/membership.py:470-477 | the connecting loop gives every wanted member that answers a session and drops none |
| `MembershipStores.MembershipStore.ReconcileConnections` | AgentRegistry/a2x_registry/cluster/membership.py:461-482 | after a tick every wanted member that answers has a session, and an old session is gone, with all records of its node, exactly if the roster says its node is gone |
| `Chunks.MergeCallsAssociative` | intelli_router/intelli_router/types.py:110-154 | merging tool calls is associative, absent lists included |
| `Chunks.ArgumentsConcatenate` | intelli_router/intelli_router/types.py:137-152 | for each index the merged arguments are those before followed by the incoming fragments in order |
| `Chunks.IndicesStayUnique` | intelli_router/intelli_router/types.py:128-154 | merging never makes two calls with one index |
| `Chunks.MergeUsageAssociative` | intelli_router/intelli_router/types.py:156-218 | field-wise merging of usage reports is associative, derived total included |
| `Chunks.AddAssociative` | intelli_router/intelli_router/types.py:91-108 | chunk addition is associative on all fields |
| `Chunks.GroupingIrrelevant` | intelli_router/intelli_router/types.py:91-108 | any grouping of a stream gives the same message |
| `Chunks.StreamArguments` | intelli_router/intelli_router/types.py:91-154 | over a whole stream the arguments of an index are the concatenation of its fragments in arrival order |
| `Chunks.StreamTexts` | intelli_router/intelli_router/types.py:91-97 | over every stream content, reasoning and completion ids are those of the chunks in arrival order |
| `Chunks.StreamPresence` | intelli_router/intelli_router/types.py:96-102 | reasoning is absent exactly when no chunk has any, and completion ids when they are empty |
| `Chunks.StreamReports` | intelli_router/intelli_router/types.py:99-107 | finish reason, parser content, logprobs and provider content are the last reported, response id and model the last non-empty, prompt ids the first non-empty ones |
| `Chunks.StreamMetadata` | intelli_router/intelli_router/types.py:106 | per key the provider's metadata is the last that came |
| `Chunks.StreamUsage` | intelli_router/intelli_router/types.py:156-218 | every usage field is the last one reported, zero counting as not reported; the total is input plus output once two reports were merged |
| `Chunks.StreamCalls` | intelli_router/intelli_router/types.py:110-154 | under each index one call with the last non-empty id and name and all argument texts in arrival order, the kind of the first; calls without an index are appended, each once |
| `Chunks.LastOfMeans` | intelli_router/intelli_router/types.py:99-107 | "the last": nothing but blanks comes after it, and it is blank only if all are |
| `Chunks.FirstOfMeans` | intelli_router/intelli_router/types.py:101 | "the first": nothing but blanks comes before it, and it is blank only if all are |
| `Chunks.CopyAll` | intelli_router/intelli_router/types.py:123-126 | copies are fresh, distinct and equal in value |
| `Chunks.IndexAll` | intelli_router/intelli_router/types.py:128-135 | the dictionary leads from each index to the last copy that has it |
| `Chunks.MergeToolCalls` | intelli_router/intelli_router/types.py:110-154 | the in-place loop computes the specified merge, returns only fresh calls and leaves every operand as it was |
| `Chunks.MergeInto` | intelli_router/intelli_router/types.py:137-152 | the loop over the incoming calls merges all of them into the copies |
| `Chunks.MergeCall` | intelli_router/intelli_router/types.py:138-152 | one turn of it: continue the indexed call or append a new one |
| `Chunks.ContinueInPlace` | intelli_router/intelli_router/types.py:141-146 | continuing changes one call, and its position is that of the last with its index |
| `EtcdStore.StepKeepsInv` | AgentRegistry/a2x_registry/register/etcd_client.py:181-244 | every step of every client keeps: revisions bounded by the counter, a pending patch holds the value of the revision it read, row writes stay clear of the metadata |
| `EtcdStore.InitialInv` | AgentRegistry/a2x_registry/register/etcd_client.py:181-244 | the empty store with no client under way meets that invariant, so it holds in every run from there |
| `EtcdStore.CommitIsAtomic` | AgentRegistry/a2x_registry/register/etcd_repo.py:192-221 | in every reachable state a commit is an atomic patch of that moment or changes nothing; a patch gives each column it names its value, keeps the other columns, replaces the data if given, and touches no other key |
| `EtcdStore.AtomicPatchWrites` | AgentRegistry/a2x_registry/register/etcd_repo.py:208-216 | the atomic patch in these terms: named fields replaced, the others and all other keys kept |
| `EtcdStore.InterleavingsSerialize` | AgentRegistry/a2x_registry/register/etcd_repo.py:174-224 | every interleaving of reads, commits, registrations and removals leaves the store that a sequence of atomic operations leaves, one per successful commit and none per aborted one |
| `EtcdStore.CommitsIffUndisturbed` | AgentRegistry/a2x_registry/register/etcd_client.py:215-238 | a patch commits if and only if nobody wrote or removed the row since it was read, same value or re-creation included |
| `EtcdStore.UndisturbedPatch` | AgentRegistry/a2x_registry/register/etcd_repo.py:192-221 | from call to end: a patch whose row nobody else touches leaves exactly the patched row |
| `EtcdStore.PatchTakenIff` | AgentRegistry/a2x_registry/register/etcd_repo.py:192-207 | a patch is taken up if and only if the registry is declared, the row exists, some field is given and every column is one of that kind |
| `EtcdStore.RevisionTells` | AgentRegistry/a2x_registry/register/etcd_client.py:181-191 | over any run a key has an old revision if and only if it was not touched |
| `EtcdStore.UndisturbedRegistration` | AgentRegistry/a2x_registry/register/etcd_repo.py:174-186 | a registration whose row nobody touches between its two calls keeps the creation time of the row it replaces, renews its update time and takes the rest from the entry, whatever other clients do meanwhile |
| `EtcdStore.RegistrationWrites` | AgentRegistry/a2x_registry/register/etcd_repo.py:174-186 | without a row the entry is stored as it is, over a row without creation time with the entry's, and no other key changes |
| `EtcdStore.KindStable` | AgentRegistry/a2x_registry/register/etcd_repo.py:146-160 | a declared kind survives every step except removing a row under the reserved key |
| `EtcdStore.FirstDeclarationStands` | AgentRegistry/a2x_registry/register/etcd_repo.py:146-160 | a declaration takes effect exactly for a known kind and an unreserved name that is not declared yet |
| `EtcdStore.RemovesOneRow` | AgentRegistry/a2x_registry/register/etcd_repo.py:223-224 | a removal removes that row and no other |
| `EtcdStore.DeregisterCanForgetKind` | AgentRegistry/a2x_registry/register/etcd_repo.py:223-224 | that exception exists (witness) |
| `EtcdQuery.PrefixRangeExact` | AgentRegistry/a2x_registry/register/etcd_client.py:47-58 | a key lies in the byte interval if and only if it extends the prefix |
| `EtcdQuery.RowUnderPrefix` | AgentRegistry/a2x_registry/register/etcd_repo.py:116-118 | for all names and ids: a row lies under a registry's prefix if and only if it belongs to it, its registry's name continues the prefix, or the name queried goes on beyond that registry's name into the row's id |
| `EtcdQuery.IsolatedIff` | AgentRegistry/a2x_registry/register/etcd_repo.py:116-118 | over all ids the prefix of one registry separates its rows from another's if and only if they are the same or neither name followed by a slash starts the other |
| `EtcdQuery.KeysCollideIff` | AgentRegistry/a2x_registry/register/etcd_repo.py:116-118 | two registries can write one and the same row key if and only if they are not apart in that sense |
| `EtcdQuery.ApartBySlash` | AgentRegistry/a2x_registry/register/etcd_repo.py:116-118 | different names without a slash are apart |
| `EtcdQuery.SelectedExactly` | AgentRegistry/a2x_registry/register/etcd_repo.py:230-264 | the byte interval selects exactly the matching rows under the prefix, each once, in key order |
| `EtcdQuery.QueryIsolated` | AgentRegistry/a2x_registry/register/etcd_repo.py:230-264 | when the registry is apart from the others, whatever the ids, these are exactly the matching rows of that registry, each once, in key order |
| `EtcdQuery.SlashedRegistryLeaks` | AgentRegistry/a2x_registry/register/etcd_repo.py:130-134 | otherwise they are not: rows of "a/b" under "a", a row of "a" under "a/b", and one key for two registries (witnesses) |
| `EtcdQuery.RepeatedSortsAreOneSort` | AgentRegistry/a2x_registry/register/etcd_repo.py:268-274 | the least-to-most-significant stable sorts equal one stable lexicographic sort, and where two rows first differ the values go up, or down for a descending item, missing ones first going up and last going down |
| `EtcdQuery.SortSorted` | AgentRegistry/a2x_registry/register/etcd_repo.py:268-274 | the one sort leaves them so, in terms of the values in the rows and the direction of each item |
| `EtcdQuery.SortRows` | AgentRegistry/a2x_registry/register/etcd_repo.py:268-274 | the loop of sorts does, and loses no row |
| `EtcdQuery.KeepsIsKept` | AgentRegistry/a2x_registry/register/etcd_repo.py:63-88 | a row is kept if and only if every field the filter names has the filter's value and the status, missing or empty meaning running, is the one asked for |
| `EtcdQuery.SortStable` | AgentRegistry/a2x_registry/register/etcd_repo.py:268-274 | rows that tie keep their order, descending fields included |
| `EtcdQuery.SortElements` | AgentRegistry/a2x_registry/register/etcd_repo.py:268-274 | sorting neither loses nor repeats a row |
| `EtcdQuery.LexWeakOrder` | AgentRegistry/a2x_registry/register/etcd_repo.py:70-79 | the comparison is a strict weak order, None below every value |
| `EtcdQuery.PagesTile` | AgentRegistry/a2x_registry/register/etcd_repo.py:276-279 | successive pages tile the result without gap or repetition |
| `EtcdQuery.QueryPaginated` | AgentRegistry/a2x_registry/register/etcd_repo.py:240-279 | the answer is the page of the one lexicographic sort: its rows are kept rows in the order asked for, all of them without a limit, as many as the page has otherwise, and the total counts all kept rows; unknown registries and fields outside the kind handled |
| `Leases.TableHoldsGrants` | AgentRegistry/a2x_registry/common/lease.py:67-207 | after every history the table holds a key exactly while the last install, renewal or revocation still grants it time, an account without health states |
| `Leases.DeletesExactlyExpired` | AgentRegistry/a2x_registry/common/lease.py:180-207 | a sweep deletes a key exactly when the clock reached last install or renewal plus ttl plus grace, or last soft revocation or recovery plus grace; no assumption on clock, ttl or grace (a negative grace counts as none after a ttl) |
| `Leases.RenewedInTimeStaysHealthy` | AgentRegistry/a2x_registry/common/lease.py:107-123 | wherever in whatever history a key was installed: renewed since then with gaps below its ttl it is in the table and healthy, no sweep since has flagged it, and none would before a ttl has passed since the last grant |
| `Leases.SweepTwice` | AgentRegistry/a2x_registry/common/lease.py:180-207 | sweeping at t1 then t2 gives the table, the deletions and the flags of one sweep at t2, none twice |
| `Leases.SweepsCollapse` | AgentRegistry/a2x_registry/common/lease.py:180-207 | any number of sweeps equals the last one |
| `Leases.RenewalRecovers` | AgentRegistry/a2x_registry/common/lease.py:107-152 | after any history a renewal leaves the table as if a soft revocation before it had never been, and a key as if a sweep that did not delete it had never run |
| `Leases.LeaseTable.InstallLease` | AgentRegistry/a2x_registry/common/lease.py:67-105 | refines the install event with a fresh lease object |
| `Leases.LeaseTable.RenewLease` | AgentRegistry/a2x_registry/common/lease.py:107-123 | renews that lease in place and no other; missing keys raise |
| `Leases.LeaseTable.RevokeLease` | AgentRegistry/a2x_registry/common/lease.py:125-152 | refines the soft and the permanent revoke event |
| `Leases.LeaseTable.DropLease` | AgentRegistry/a2x_registry/common/lease.py:154-157 | refines the drop event |
| `Leases.LeaseTable.MarkExpired` | AgentRegistry/a2x_registry/common/lease.py:199-204 | the pass flags in place exactly what ran out and lists each flagged and each expired key once |
| `Leases.LeaseTable.SweepTick` | AgentRegistry/a2x_registry/common/lease.py:180-207 | refines the sweep event and returns both lists exactly |
| `VersionKeys.KeyOrder` | AgentRegistry/a2x_registry/image/version_key.py:23-44 | string order of keys is numeric order of the components, pre-releases below their release |
| `VersionKeys.WidthExact` | AgentRegistry/a2x_registry/image/version_key.py:43 | keys order all versions below a bound if and only if the bound is at most 100000 |
| `VersionKeys.SixDigitsMisordered` | AgentRegistry/a2x_registry/image/version_key.py:43 | 100000.0.0 sorts below 99999.0.0 (witness) |
| `VersionKeys.NoVersionFirst` | AgentRegistry/a2x_registry/image/version_key.py:36-41 | texts that are no version sort below every version, however long its components |
| `VersionKeys.ParseUndoesFormat` | AgentRegistry/a2x_registry/image/version_key.py:20-42 | every version is read back from the way it is written |
| `VersionKeys.OnlyVersionsParse` | AgentRegistry/a2x_registry/image/version_key.py:20-38 | nothing else is a version: an optional "v", three numbers, an optional suffix without line break |
| `VersionKeys.DocumentedKeys` | AgentRegistry/a2x_registry/image/version_key.py:23-44 | the four documented keys come out as documented |
| `Images.RunKeepsInv` | AgentRegistry/a2x_registry/image/service.py:99-383 | in every run from an empty table each name with rows has exactly one default, names share no web port, keys belong to versions |
| `Images.StepKeepsInv` | AgentRegistry/a2x_registry/image/service.py:99-383 | every operation keeps that |
| `Images.PromotedIsGreatest` | AgentRegistry/a2x_registry/image/service.py:542-560 | the version promoted after a removal is no older than any remaining one |
| `Images.RegisterIdempotent` | AgentRegistry/a2x_registry/image/service.py:131-172 | registering the same version again at any time is accepted and changes nothing |
| `Images.UpdateTouchesOnlyNamed` | AgentRegistry/a2x_registry/image/service.py:258-296 | an update sets the framework, the access mode and the mutable data fields it names, and nothing else; twice is once |
| `Images.UpdateMeans` | AgentRegistry/a2x_registry/image/service.py:240-296 | an accepted update asks for no port of another name and renames no image an instance refers to by framework |
| `Images.PortCheckMeans` | AgentRegistry/a2x_registry/image/service.py:450-477 | a port check passes only if no image of another name asks for one of the ports, and reports a conflict only if one does |
| `Images.ReferenceKeptIff` | AgentRegistry/a2x_registry/image/service.py:99-383 | for every operation: an instance keeps its reference to an image if and only if it names the image by key or the operation is not a registration that shows the image under another framework |
| `Images.ReregistrationSkipsGuard` | AgentRegistry/a2x_registry/image/service.py:162-172 | what an update refuses as in use, such a registration does |
| `Images.ImageService.ValidateWebPorts` | AgentRegistry/a2x_registry/image/service.py:418-448 | raises exactly if some web entry has no integer port in the window, else returns exactly the normalised ports |
| `Images.ImageService.PortsFree` | AgentRegistry/a2x_registry/image/service.py:450-477 | free exactly if no image of another name uses one of the ports |
| `Images.ImageService.CheckPorts` | AgentRegistry/a2x_registry/image/service.py:127-129 | comparing rendered ports decides the same as comparing numbers |
| `Images.ImageService.RegisterImage` | AgentRegistry/a2x_registry/image/service.py:99-182 | refines the register step with its errors: the row holds exactly what was uploaded, a known version keeps flag and creation time, a new one is default if its name has none, and no port is shared |
| `Images.ImageService.UpdateImage` | AgentRegistry/a2x_registry/image/service.py:223-296 | refines the update step with its errors: exactly the named fields change, default flag untouched |
| `Images.ImageService.DeregisterImage` | AgentRegistry/a2x_registry/image/service.py:302-343 | refines the removal with its errors: refused if and only if an instance uses the image, other rows keep all but the flag; never two defaults after any single write |
| `Images.ImageService.LatestOf` | AgentRegistry/a2x_registry/image/service.py:542-551 | picks a version of the name with a greatest key |
| `Images.ImageService.PromoteLatestDefault` | AgentRegistry/a2x_registry/image/service.py:553-560 | hands the default to a latest remaining version, if there is one |
| `Images.ImageService.ClearDefaults` | AgentRegistry/a2x_registry/image/service.py:359-364 | the loop leaves no default of the name, never two on the way, and other rows alone |
| `Images.ImageService.SetDefault` | AgentRegistry/a2x_registry/image/service.py:349-372 | the target is the only default of its name afterwards; unknown versions change nothing |
| `Images.ImageService.GetDefaultVersion` | AgentRegistry/a2x_registry/image/service.py:374-383 | returns the one default of the name; its fallback is never reached |
| `AuthStores.IndexAgreesWithScan` | AgentRegistry/a2x_registry/auth/store.py:248-304 | the index accepts a hash if and only if a scan finds an unrevoked key with it whose principal exists and is enabled, and then with that principal's id and role and exactly its namespaces, all of them if it is an admin |
| `AuthStores.ReachableAuthentication` | AgentRegistry/a2x_registry/auth/store.py:248-482 | so in every reachable state, reloads included; every key's principal exists and the admins are those without a namespace list |
| `AuthStores.OpKeepsInv` | AgentRegistry/a2x_registry/auth/store.py:308-482 | every operation keeps the index, the files, distinct handles and the admin rule consistent |
| `AuthStores.ReloadInvisible` | AgentRegistry/a2x_registry/auth/store.py:193-219 | reloading changes no decision, only the reason a revoked key is refused |
| `AuthStores.RevokedForGood` | AgentRegistry/a2x_registry/auth/store.py:468-482 | no later operation makes a revoked key's token acceptable again |
| `AuthStores.UpdateTakesEffect` | AgentRegistry/a2x_registry/auth/store.py:381-428 | an update changes exactly what it gives, field by field; after it no key of a disabled principal is accepted, every accepted one carries the new role and namespaces, and other principals and their keys are as before |
| `AuthStores.LoadedIndex` | AgentRegistry/a2x_registry/auth/store.py:213-216 | what the loading loop builds from the file is the index of all keys |
| `AuthStores.AuthStore.Bootstrap` | AgentRegistry/a2x_registry/auth/store.py:125-189 | one admin, one key, index and files consistent |
| `AuthStores.AuthStore.PersistKeys` | AgentRegistry/a2x_registry/auth/store.py:225-227 | the file lists every key once and loads back to the same keys |
| `AuthStores.AuthStore.PersistPrincipals` | AgentRegistry/a2x_registry/auth/store.py:221-223 | the file loads back to the same principals |
| `AuthStores.AuthStore.LoadFromDisk` | AgentRegistry/a2x_registry/auth/store.py:193-219 | refines the reload operation |
| `AuthStores.AuthStore.Authenticate` | AgentRegistry/a2x_registry/auth/store.py:248-304 | accepts exactly the tokens of an unrevoked key with an enabled principal, with that principal's role and exactly its namespaces; every refusal has its reason; only the time of last use changes, in memory |
| `AuthStores.AuthStore.CreatePrincipal` | AgentRegistry/a2x_registry/auth/store.py:308-371 | refines the operation: refused exactly for an unknown role, a list that does not fit it or a taken handle, else both records are stored |
| `AuthStores.AuthStore.UpdatePrincipal` | AgentRegistry/a2x_registry/auth/store.py:381-428 | refines the operation; succeeds exactly if the principal exists and the changed role fits the namespaces, and changes exactly the given fields |
| `AuthStores.AuthStore.CreateKey` | AgentRegistry/a2x_registry/auth/store.py:432-458 | refines the operation; refuses unknown principals |
| `AuthStores.AuthStore.RevokeKey` | AgentRegistry/a2x_registry/auth/store.py:468-482 | refines the operation; revoking again returns the record unchanged |

## Left out

- HTTP transport, JSON, FastAPI routers, thread pools, daemon loops, start-up wiring, audit logging: plumbing; a peer call is a message or one atomic step, a save is a copy of the state.
- Session tokens, per-namespace authorisation and the ephemeral half of the handshake: the cluster model is the open cluster.
- SHA-256, JSON, base64 and random tokens: parameters, or values given to the operation that uses them.
- A4P, IntelliRouter's strategies and providers, the instance service, etcd's `more`/`next_key` paging, the SQLite back end: not part of this model.
- The hold check of the replication runs reads the clock once; its disconnects at later readings are disconnect steps there. `CheckHoldTimers` and the crash bound let every disconnect read its own time.
- CrashedRecordsDisappear: survivors share one time line, and no survivor restarts, joins, or disconnects or meets the crashed node by hand; "from T + hold + d on" holds strictly after that instant, because the HOLD test is strict.
- DeletionSticks: nodes share one time line; until the last older copy can have arrived no node but the origin restarts, and a session with the origin that starts after the grace counts only at nodes that have the deletion.
- MeshConverges: the round takes place at one reading of each clock, and between its exchanges nothing else happens.
- ConnectPeer: what the first reconcile pushes to the peer is not a state of this node; `Reconcile` has both sides.
- Reconcile: runs without interruption; an interrupted exchange is a prefix of the messages `ExchangeIsRun` lists, which the runs of the replication system cover. `ExchangeIsRun` and `ExchangeKeepsInv` read each clock once.
- StampAndReconcile: asks for a collision-free hash on the indices that any stamping order would give.
- ReachableExchangeConverges: needs a non-empty set of shared namespaces (see the finding on empty ones) and leaves out ghosts, records whose origin has collected the deletion; the origin ignores them for ever.
- RemovalSticks: assumes nobody adds the removed node again and it does not remove itself (`OwnAfterRemovals` is about that case); `set_add` and `adopt` write records without comparing versions and are events of the run, their network orchestration is not modelled.
- StampsIncrease: a stamping pass saves once, at its end, under the lock that every reader of its stamps needs; in runs each stamp is saved with it, so a crash inside a pass appears as one before it.
- InitFromState: the saved roster is a map, so the duplicate and the legacy entries that the source skips or completes do not occur.
- MergeUsageAssociative: when one operand is absent the source returns the other object itself; usage reports are values here, so this sharing does not show.
- QueryPaginated: parsing of order items is left out; numbers and texts in one column, which raise in the source, are ordered numbers first.
- The etcd repository is a client of a remote store; it is modelled by steps on that store's value and has no object of its own.
- CommitIsAtomic: a `patch` reads its registry's kind and its row in one step here; kinds do not change in between (`KindStable`) except through the reserved name.
- ParseUndoesFormat: digits and white space are ASCII; the source's pattern also accepts other Unicode digits.
- KeyOrder: two pre-releases of one version compare as texts, which is not the precedence of section 11 of Semantic Versioning 2.0.0.
- RegisterImage: the in-use checks take the instance rows as a parameter; the repository image deletion stub does nothing in the source and is left out.
- AuthStore keys are values in a dictionary; that a returned key object is shared with the store does not show. Display prefixes, expiry (not enforced by the source) and the admin reset are left out.
- Simple getters, summaries and listings: they would only add easy members.
