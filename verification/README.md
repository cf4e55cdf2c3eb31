# A verified model of the distributed KV cache

The repository is a sharded, replicated, multi-tenant cache for the key/value blocks of language-model
prompts. This project models its logic in Dafny and proves, for all inputs and all runs, what the code is
meant to guarantee: that a read never returns another block's bytes, that eviction always picks the right
block and always wakes up, that clients agree on placement, and that every wire and storage format reads
back what was written.

`dafny verify dfyconfig.toml` checks everything.

## How it is laid out

| file | what it holds |
|---|---|
| `Bytes.dfy`, `Sums.dfy`, `Lists.dfy` | bytes, fixed-width integers, little-endian encodings; sums over finite maps; lists without repetitions |
| `Chains.dfy`, `BlockHash.dfy` | the chained block hash, in Go and in Python |
| `ColdTier.dfy` | object keys and the cold-object frame |
| `Streams.dfy` | chunked Fetch and BatchFetch streams with the Python client, and the Write/Replicate stream |
| `GdsfSpec.dfy`, `GdsfHeap.dfy`, `Gdsf.dfy` | GDSF eviction: by scanning every block, the indexed heap, and the policy object that peeks heap roots |
| `Lru.dfy` | LRU against its call history, and the list object |
| `StoreSpec.dfy`, `PlainStore.dfy`, `Replicas.dfy`, `Store.dfy` | a shard as a value, that value against one plain map, replica convergence over its runs, and the striped object against that value |
| `Evictor.dfy`, `Wakeup.dfy`, `Admission.dfy` | the drain and the TTL sweep; writers and evictor interleaved; the admission race |
| `Ring.dfy`, `Router.dfy`, `Membership.dfy` | the consistent-hash ring, the client's router, the membership log |
| `ServerSpec.dfy`, `Server.dfy`, `Cluster.dfy` | the request handlers as functions, as objects with the replication queue, and the whole system as a step protocol |
| `Refinements.dfy` | the store's critical sections and the handlers as runs of those machines |

Each object (`GdsfPolicy`, `LruPolicy`, `Store`, `Evictor`, `Ring`, `Router`, `Watch`, `Server`,
`Replicator`, `Memory`) is a class whose methods are proved equal to a function on a plain value; the laws
are lemmas about that function. Concurrency is a machine over atomic actions, and the theorems are about
every run of the machine. The store's critical sections and the handlers are shown to be runs of these machines.

Lemmas whose name ends in `Means` or `Leaves` say what a function answers without the helpers it is computed with,
so that each answer is fixed twice.

Hash functions are parameters. Collision freedom is always a premise about the finite set of inputs that a
run or a pair of inputs actually hashes, because a hash onto 32 bytes cannot be injective on everything.

## What turned out to be conditional

- A wakeup can be lost when the two watermarks coincide, which rounding brings about for small ceilings
  (a ceiling of 4 bytes gives 3 and 3): `Wakeup.NoLostWakeupExactly` gives the exact condition,
  `Wakeup.SmallCeilingSleeps` that case.
- While a delete has left the map but not yet the counter, the evictor can find nothing to evict and go to
  sleep with the counter at high water: `Wakeup.DeleteHidesPressure`. What the delete still owes is all that
  can be missed (`Wakeup.NoLostWakeup`), and without deletes nothing is (`Wakeup.WatchedExactly`).
- The aging floor can pass a block's priority as soon as a positive quota or a positive fairness weight is
  configured: `GdsfSpec.FloorBelowExactly`.
- A cold object cut inside its payload is accepted, although the comment on `decode` says that a truncated
  object is an error: `ColdTier.DecodeOfPrefix`, `ColdTier.TruncationCanPass`.
- The cold frame loses token lists of 2^32 or more: `ColdTier.DecodeEncode` holds if and only if the list is
  shorter.
- Equal members do not mean equal owners if two members share a ring position: `Rings.PlacementAgreesExactly`.
- `SetMembers` does not leave exactly the listed ids when an address is malformed, and a known id whose
  address changes keeps its old connection; clients can then disagree on the member set, and
  `Membership.PoolsAgreeExactly` says exactly when.
- A Write or Replicate stream that ends cleanly but early is stored with the bytes that came, since the
  declared size is never compared: `Streams.AssembleSent`, `Streams.EarlyEndIsStored`.
- The TTL sweep's count leaves out empty payloads: `Evictors.SweepIdle`.
- Replicate is not bound by the byte ceiling: `Admission.ReplicateHasNoCeiling`.
- A version wraps to 0 after the last uint64: `StoreSpec.VersionNeverFalls`.

## Model

| member | source | states |
|---|---|---|
| Clusters.NeverServesAnotherBlock | internal/server/server.go:134-197 | in every run of writes, lossy/duplicating/reordering replication, deletes, evictions with spill, uploads, hot and cold reads with re-admission, crashes, joins and view changes, each successful read returns bytes that an earlier write stored for the same model and hash, and for the tokens and at the version the reader names, if it names any |
| Clusters.RunTraced | internal/server/server.go:338-415 | without any premise on the hash: every resident entry, queued or travelling copy, spill, object and pending re-admission goes back to a write that minted its version, and every read to a write under the same store key |
| Clusters.CollisionServesAnotherBlock | internal/cache/store.go:21-28 | collision freedom is needed: some run of three steps serves one block's bytes for another when two hashes share a store key |
| Clusters.HandlerFetchIsARun | internal/server/server.go:134-197 | the whole Fetch handler is a run of the protocol's steps, and logs a read exactly when it serves one |
| Clusters.PromotionKeepsData | internal/server/replicator.go:123-150 | in one run: p's write mints a version, p's forward step under a view that gives the root (the write's routing key, or the block's hash without one) owners p, q puts the copy on its way to q, q's delivery follows; then in every later state up to which q's copy is spared q holds the block at the version p stored or later, and after any removals from that view that include p but not q the root's first owner is q |
| Clusters.RunHolds | internal/cache/store.go:321-365 | over whole runs a spared copy stays resident and its version never falls |
| Clusters.ForwardReachesSecondOwner | internal/server/replicator.go:123-150 | with two copies wanted, the primary's forward step addresses the second owner of the routing key, or of the block's hash when there is none |
| Wakeup.NoLostWakeup | internal/cache/store.go:176-204 | in every interleaving of writers, deleters, readers, drain and sweep, a tenant over quota, or bytes at high water beyond what deletes in flight have yet to take off the counter, mean: a nudge is pending, the evictor is draining, or a writer is between update and signal |
| Wakeup.WatchedWithoutDeletes | internal/cache/store.go:176-204 | in every interleaving without deletes the same holds of all bytes at high water, TTL sweep included |
| Wakeup.DeleteHidesPressure | internal/cache/store.go:369-383 | with any LRU or GDSF policy and marks apart, a run with one delete in flight leaves the counter at high water with the evictor asleep, no nudge and no writer |
| Wakeup.WatchedExactly | internal/cache/evictor.go:56-68 | the claim without allowance for deletes is kept in all runs if and only if the store is unbounded, or low water is below high water and nobody deletes |
| Wakeup.QuietMeansNudged | internal/cache/evictor.go:52-76 | with nothing in flight and the evictor at its channel, pressure means a nudge is waiting, the counter is exactly the resident bytes and the policy tracks exactly the resident keys |
| Wakeup.NoLostWakeupExactly | internal/cache/store.go:113-145 | for every LRU or GDSF policy, whatever its quotas, every run keeps the wakeup guarantee if and only if the store is unbounded or low water is below high water |
| Wakeup.SmallCeilingSleeps | internal/cache/store.go:113-145 | with the default fractions a ceiling of four bytes puts both marks at three, and under every LRU or GDSF policy some run then sleeps on pressure |
| Wakeup.NextKeeps | internal/cache/store.go:268-418 | each atomic action of Put, Delete, Get, evict, drain and sweep keeps the five invariants behind the guarantee |
| Refinements.PutIsARun | internal/cache/store.go:268-308 | a Put, with other stripes and the evictor anywhere, is a run of one writer of the wakeup machine from taking its stripe to leaving it, ending in the same entries, policy, counter and nudge |
| Refinements.PutWithVersionIsARun | internal/cache/store.go:321-365 | likewise for a delivered copy; a refused one is no action at all |
| Refinements.StoredNudges | internal/cache/store.go:176-188 | after a store a nudge is pending exactly if one was, or bytes are at high water, or a tenant is over quota |
| Refinements.DeleteIsARun | internal/cache/store.go:369-383 | a Delete is a removal followed by its subtraction |
| Refinements.GetIsARun | internal/cache/store.go:227-240 | a Get is one read, or nothing on a miss |
| Refinements.TestIsARun | internal/cache/store.go:196-204 | the drain's test sends the evictor on exactly when eviction is needed |
| Refinements.EvictOneIsARun | internal/cache/store.go:395-436 | one pass of the drain is choose, lock, free, forget, ending in the shard without the victim |
| Admission.OvershootBound | internal/server/server.go:353-364 | with check and store as separate steps, at most c handlers and payloads of at most S bytes, every run without Replicate stays within maxBytes + (c-1)*S, hence within maxBytes when writes are serial; overwrites, evictions and cold re-admissions included |
| Admission.BoundIsAttained | internal/server/server.go:353-364 | for every c and S some run reaches that bound exactly |
| Admission.ReplicateHasNoCeiling | internal/server/server.go:389-415 | one delivery through Replicate can pass any bound |
| Refinements.WriteIsAdmission | internal/server/server.go:353-364 | the write handler answers "cache full" exactly when the admission check is disabled, and otherwise its check and store are the machine's two steps |
| GdsfPolicies.GdsfPolicy.RecordWrite | internal/cache/gdsf.go:151-182 | new block, overwrite or tenant change: heaps stay ordered with correct indices, tenant totals stay exact, and the policy moves as the scan-everything state does |
| GdsfPolicies.GdsfPolicy.RecordAccess | internal/cache/gdsf.go:186-197 | a hit raises the block's frequency and priority and repairs its heap |
| GdsfPolicies.GdsfPolicy.RecordEvict | internal/cache/gdsf.go:201-208 | exactly the named block is dropped |
| GdsfPolicies.GdsfPolicy.RemoveItem | internal/cache/gdsf.go:212-219 | removal at the stored index keeps every heap, index and total right |
| GdsfPolicies.GdsfPolicy.NextVictim | internal/cache/gdsf.go:250-344 | peeking roots gives a block that scanning every block would give; there is none only when nothing is tracked; the aging floor rises to its priority |
| GdsfPolicies.GdsfPolicy.OverQuotaNow | internal/cache/gdsf.go:224-239 | the running totals answer what summing every block of every quota tenant would |
| GdsfPolicies.PeekStatic | internal/cache/gdsf.go:312-344 | whatever order tenants come in, the least root among over-quota tenants if there are any, else the least root of all |
| GdsfPolicies.PeekElastic | internal/cache/gdsf.go:270-290 | whatever order tenants come in, a root with the least discounted score |
| GdsfPolicies.LeastRootIsVictim | internal/cache/gdsf.go:312-344 | that root is a least-priority block among all blocks of over-quota tenants, or of all blocks |
| GdsfPolicies.LeastScoreIsVictim | internal/cache/gdsf.go:270-308 | that root minimises H/(1+w*overage) over all blocks |
| GdsfHeap.Push | internal/cache/gdsf.go:350-368 | the heap gains exactly the new block, stays ordered, and every stored index is right |
| GdsfHeap.Fix | internal/cache/gdsf.go:350-368 | after one priority changed anywhere, order and indices are restored and the members are the same |
| GdsfHeap.Remove | internal/cache/gdsf.go:350-368 | exactly the block at the index is gone; order and indices are restored |
| GdsfHeap.HeapRoot | internal/cache/gdsf.go:350-368 | the root of an ordered heap is a least block of the tenant |
| GdsfSpec.FloorNeverFalls | internal/cache/gdsf.go:270-344 | over every run the aging floor never decreases |
| GdsfSpec.AccessRaises | internal/cache/gdsf.go:128-136 | in a sound state each access strictly raises the block's priority |
| GdsfSpec.FloorBelowExactly | internal/cache/gdsf.go:312-344 | the floor stays at or below every tracked priority in all runs if and only if no quota is positive (static) or the weight is zero (elastic) |
| GdsfSpec.FairnessMonotone | internal/cache/gdsf.go:270-308 | if a weight selects from a tenant above its floor (more bytes than its floor, or any bytes without one), every larger weight does |
| GdsfSpec.OverageMeans | internal/cache/gdsf.go:296-308 | overage is positive exactly above the floor, where floor times one plus overage is the bytes held; without a floor it is 1e9 as soon as any byte is held |
| GdsfSpec.WithinFloorsIsGlobal | internal/cache/gdsf.go:270-308 | while every tenant holding blocks is within its floor, the victims are exactly the least-priority blocks, whatever the weight |
| GdsfSpec.ElasticVictimMeans | internal/cache/gdsf.go:270-290 | the elastic victims, as a cross-multiplied comparison of priorities and overages |
| GdsfSpec.StaticVictimMeans | internal/cache/gdsf.go:312-344 | the static victims, in terms of quotas, bytes and priorities |
| GdsfSpec.ItemsFollowCalls | internal/cache/gdsf.go:151-197 | over every run, a block's frequency counts its uses since it came in or changed tenant, and its priority is the floor at its latest use plus frequency * cost / size |
| GdsfSpec.ValueMeans | internal/cache/gdsf.go:128-136 | worth times size is frequency times cost; a cost or size that is not positive counts as one |
| GdsfSpec.ChoosingAges | internal/cache/gdsf.go:270-344 | naming a victim lifts the floor exactly to its priority if that is higher |
| GdsfSpec.ZeroWeightIsGlobal | internal/cache/gdsf.go:270-290 | at weight zero the victims are exactly the blocks of least priority |
| GdsfSpec.TotalsPartition | internal/cache/gdsf.go:151-219 | the tenants' totals add up to the sizes of all tracked blocks |
| Lru.HistoryExplains | internal/cache/lru.go:46-82 | after any calls the list holds exactly the live keys, once each, most recently used first |
| Lru.VictimIsOldest | internal/cache/lru.go:85-95 | the victim is the live key whose last write or access is oldest |
| Lru.LruPolicy.RecordAccess | internal/cache/lru.go:46-54 | a tracked key moves to the front, an untracked one is ignored |
| Lru.LruPolicy.RecordWrite | internal/cache/lru.go:58-68 | the key moves or is added to the front, never twice |
| Lru.LruPolicy.RecordEvict | internal/cache/lru.go:72-80 | list and map lose the key together |
| PlainStore.ShardIsAPlainMap | internal/cache/store.go:227-436 | any run of Put, PutWithVersion, Get, Delete, naming a victim and evicting gives the same answers and contents as one map keyed by (model, hash), if the run's own names do not collide |
| PlainStore.AccountsAgree | internal/cache/store.go:268-418 | over every run the policy tracks exactly the resident keys and the atomic counter, the resident bytes and the sum of the tenants' totals are one number |
| StoreSpec.StoreKeyInjective | internal/cache/store.go:21-28 | two (model, hash) pairs share a store key only if they are the same pair |
| StoreSpec.BytesAgree | internal/cache/store.go:268-308 | counter, resident bytes and GDSF totals are equal in a sound shard |
| StoreSpec.VictimWhileResident | internal/cache/store.go:430-436 | with LRU or GDSF there is a victim exactly while something is resident |
| StoreSpec.PutIsUpdate | internal/cache/store.go:268-308 | Put gives version 1 or the next one, reads back, and touches no other pair |
| StoreSpec.PutLeaves | internal/cache/store.go:268-308 | the entry a Put leaves, field by field, its version modulo 2^64, the counter, and the tenant, size and cost the policy is told |
| StoreSpec.PutWithVersionLeaves | internal/cache/store.go:321-365 | likewise for a delivered copy; stale, duplicate and unversioned ones leave the shard alone |
| StoreSpec.GetLeaves | internal/cache/store.go:227-240 | a hit counts one access at this time and changes nothing else about any entry |
| StoreSpec.NewLimitsMeans | internal/cache/store.go:113-145 | each watermark is the ceiling times its fraction, rounded down; an unusable pair of fractions counts as 0.90 and 0.75 |
| StoreSpec.StripeMeans | internal/cache/store.go:218-221 | the stripe is the low four bits of the key's first byte |
| Replicas.NewestSurvives | internal/cache/store.go:321-365 | from any shard and through any run that neither Puts nor removes the block (deliveries late, repeated and out of order, reads, victims, other blocks), it ends with the newest content it started with or was delivered, and is absent only if there was none |
| Replicas.ReplicasConverge | internal/server/server.go:389-415 | two replicas offered the same contents in any such runs hold the same version, tokens and bytes |
| StoreSpec.VersionNeverFalls | internal/cache/store.go:268-365 | neither kind of Put lowers a resident version, unless Put wraps around the last uint64 |
| Stores.Store.Put | internal/cache/store.go:268-308 | stripes, policy object, counter and nudge move exactly as the shard value does |
| Stores.Store.PutWithVersion | internal/cache/store.go:321-365 | likewise, with stale and duplicate deliveries and version 0 refused |
| Stores.Store.Get | internal/cache/store.go:227-240 | a hit is recorded in entry and policy; a model mismatch is a miss |
| Stores.Store.Peek | internal/cache/store.go:246-257 | presence without recording a use |
| Stores.Store.Delete | internal/cache/store.go:369-383 | map, policy and counter lose the block; a model mismatch is a miss |
| Stores.Store.Evict | internal/cache/store.go:395-418 | the entry is handed to the cold tier and dropped; a key that is gone frees nothing |
| Stores.Store.EvictOne | internal/cache/store.go:430-436 | the policy's victim goes and its bytes are reported; none is offered only when nothing is tracked |
| Stores.Store.SignalEvict | internal/cache/store.go:176-188 | a nudge is pending afterwards if one was before or there is pressure |
| Stores.Store.NeedsEvictionNow | internal/cache/store.go:196-204 | true exactly above low water or with a tenant over quota |
| Evictors.Evictor.OnSignal | internal/cache/evictor.go:56-68 | the drain terminates, counting resident entries so that empty blocks are covered; every eviction was needed when made, the last one included, and took a named victim; with LRU or GDSF nothing more is needed at the end |
| Evictors.QuietMeans | internal/cache/store.go:196-204 | what a finished drain leaves: bytes at or below low water, and no tenant above a static quota |
| Evictors.QuotaRespected | internal/cache/gdsf.go:312-344 | in static mode a block of a tenant within its quota goes only at a step where no tenant is over and bytes are above low water |
| Evictors.LruDrainLeavesLongestRun | internal/cache/evictor.go:56-68 | a finished drain of a bounded LRU store leaves exactly the longest most-recently-used run of blocks that fits under low water |
| Evictors.SweepIdle | internal/cache/store.go:447-480 | exactly the idle entries go; the count is of those that freed bytes |
| Evictors.ReadSurvives | internal/cache/store.go:447-480 | a block read at or after the cutoff survives the sweep |
| Evictors.NeverReadGoesByAge | internal/cache/store.go:447-480 | a block not read since it was written goes exactly when it was created before the cutoff |
| Evictors.ReadGoesByLastRead | internal/cache/store.go:447-480 | a block that was read goes exactly when it was last read before the cutoff |
| Evictors.CountingMeans | internal/cache/store.go:470-479 | the count is of the swept blocks that held bytes |
| Rings.RemovalLaw | internal/ring/ring.go:76-152 | for every ring, key and n, the n owners after a removal are the first n of the earlier n+1 without the removed node |
| Rings.PromotionLaw | internal/ring/ring.go:76-152 | however many nodes leave, the first survivor of the owner list becomes the owner |
| Rings.AddRemoveInverse | internal/ring/ring.go:59-94 | with distinct positions, removing an added node gives the very same points back |
| Rings.PlacementUnique | internal/ring/ring.go:59-94 | with distinct positions the points depend only on the member set, not on the order of joins and leaves |
| Rings.PlacementAgreesExactly | internal/ring/ring.go:59-118 | all rings of one member set give the same owners if and only if no two members share a position |
| Rings.LookupShape | internal/ring/ring.go:101-152 | LookupN gives min(n, members) different members, headed by Lookup |
| Rings.LookupMeans | internal/ring/ring.go:101-118 | the owner is the node of the first point at or after the key, wrapping around |
| Rings.OwnersAreNearest | internal/ring/ring.go:126-152 | owner number m is the node of the first point clockwise from the key that is not an earlier owner |
| Rings.KeyHashMeans | internal/ring/ring.go:157-164 | exactly the first eight bytes of a key count, missing ones as zero, the first one most |
| Rings.LeaveMovesOnlyItsKeys | internal/ring/ring.go:76-118 | a leave changes no owner but the leaver's |
| Rings.JoinMovesOnlyToJoiner | internal/ring/ring.go:59-118 | a join changes an owner only to the joiner |
| Rings.VnodeLabelInjective | internal/ring/ring.go:189-192 | two virtual nodes never hash the same label, whatever node names hold, so shared positions come only from the hash and its truncation |
| Rings.VnodeHashMeans | internal/ring/ring.go:189-192 | a virtual node sits where the first eight bytes of the digest of "node#i" say, big endian |
| Rings.Ring.Add | internal/ring/ring.go:59-72 | the points are again a sorted ring of exactly the members; a second Add changes nothing |
| Rings.Ring.Remove | internal/ring/ring.go:76-94 | the other points keep their order |
| Rings.Ring.Owner | internal/ring/ring.go:101-118 | binary search with wrap-around finds the first point at or after the key |
| Rings.Ring.OwnersFor | internal/ring/ring.go:126-152 | the clockwise walk collects the first n different nodes |
| Routers.Router.SetMembers | internal/cluster/router.go:80-123 | ring members and pool keys stay equal; exactly the listed ids that were pooled or have a usable address remain; a known id keeps its connection |
| Routers.FirstMeans | internal/cluster/router.go:92-110 | of several addresses listed for a new id the first usable one is dialled |
| Routers.Router.OwnerConns | internal/cluster/router.go:152-166 | one connection per owner, in owner order, none missing |
| Membership.Drive | internal/coord/membership.go:151-225 | from any first read and in any batches, no event is lost or applied twice, and the router's pool is the specified one |
| Membership.LiveMeans | internal/coord/membership.go:151-190 | a node is live at an address exactly when the last event about it says it joined there |
| Membership.PoolsAgreeExactly | internal/coord/membership.go:151-225 | clients that followed the same prefix pool the same members, however they were batched, if and only if no live member moved from a usable to a malformed address |
| Membership.PlacementAgreement | internal/cluster/router.go:80-123 | with usable addresses and distinct positions, any two clients on the same prefix give the same owners for every key and count |
| ServerSpec.BatchRefinesFetches | internal/server/server.go:205-247 | a batch leaves the shard as the same requests fetched one by one, re-admissions threaded through, and finds exactly what they find, malformed hashes included |
| ServerSpec.BatchDelivers | connector/src/kvcache_connector/client.py:103-164 | any order-keeping merge of the batch's frames, cut anywhere, gives the client for each block its Fetch's answer or None, and the answer whenever all its frames arrived |
| ServerSpec.HotFetchMeans | internal/server/server.go:134-158 | a resident block is served exactly when the version asked for is none or its own and the tokens asked for are none or its own; a wrong version is reported before wrong tokens |
| ServerSpec.ColdFetchMeans | internal/server/server.go:178-197 | a block that is not resident is served from the cold tier under the same conditions, and re-admitted at its own version exactly when it is served and fits |
| ServerSpec.BadHashFetch | internal/server/server.go:134-138 | a hash that is not 32 bytes is an error, exactly then, and touches nothing |
| ServerSpec.FetchSound | internal/server/server.go:134-197 | reading keeps the shard's accounting, whatever the cold tier answers |
| ServerSpec.ForwardedCopyIsStored | internal/server/replicator.go:155-189 | a forwarded block is stored under the primary's version with the primary's bytes and never lowers the replica's version; a stream that breaks after any number of messages changes nothing |
| ServerSpec.SecondOwnerIsTarget | internal/server/replicator.go:123-150 | the second owner is a target and the sender never is |
| ServerSpec.TargetsExactly | internal/server/replicator.go:123-134 | a copy goes to exactly the first rf owners of its routing key, or of its hash without one, apart from the sender |
| ServerSpec.TransfersReach | internal/server/replicator.go:131-149 | exactly the targets still connected get a stream |
| Servers.Server.HandleFetch | internal/server/server.go:134-197 | hot hit, cold hit with re-admission, or the right error; frames only for a hit |
| Servers.Server.HandleBatch | internal/server/server.go:205-270 | the frames of every block in request order, on the state earlier blocks left |
| Servers.Server.HandleWrite | internal/server/server.go:338-383 | broken stream, bad hash and full cache store nothing; otherwise the block is stored and queued with its version |
| Refinements.HandlerWriteIsAStep | internal/server/server.go:338-383 | an accepted write is one write step of the cluster: same shard, same log, and the job handed to the replicator carries the header's draft and routing key and the version in the reply |
| Refinements.WriteRefuses | internal/server/server.go:338-358 | exactly which streams are refused and why; a refusal changes nothing and queues nothing |
| Servers.Server.HandleReplicate | internal/server/server.go:389-415 | version 0 is refused; the copy is stored at its version and never forwarded |
| Refinements.HandlerReplicateIsAStep | internal/server/server.go:389-415 | exactly which copies are refused; an accepted one is one delivery step of the cluster, and the reply names the version now resident |
| Servers.Replicator.Enqueue | internal/server/replicator.go:96-105 | a full queue drops the new job and nothing else |
| Servers.Replicator.ForwardNext | internal/server/replicator.go:123-150 | the oldest job goes once to every other owner of its root whose connection is still there when asked for, broken streams not stopping the others; nobody is skipped while the pool is unchanged |
| Streams.FetchAllOrNothing | connector/src/kvcache_connector/client.py:72-101 | a Fetch stream cut anywhere gives the client all bytes or None |
| Streams.OnlyFinalFrameIsLast | internal/server/server.go:274-288 | exactly the final frame is marked and none exceeds the chunk size |
| Streams.FramesAreFull | internal/server/server.go:274-288 | every frame but the final one carries exactly one mebibyte |
| Streams.StreamKV | internal/server/server.go:274-288 | the chunk loop sends the specified frames, one empty one for an empty payload |
| Streams.StreamBatchKV | internal/server/server.go:256-270 | likewise, tagged with the block's index |
| Streams.ClientFetch | connector/src/kvcache_connector/client.py:72-101 | the client loop returns the specified result |
| Streams.ClientBatchFetch | connector/src/kvcache_connector/client.py:103-164 | the demultiplexing loop gives for each block a function of its own frames only |
| Streams.BatchAllOrNothing | connector/src/kvcache_connector/client.py:103-164 | any merge, cut anywhere: each block whole or None |
| Streams.BatchRoundTrip | internal/server/server.go:205-270 | what the server sends demultiplexes to exactly its answers |
| Streams.AssembleSent | internal/server/server.go:301-331 | the block arrives byte for byte if and only if all its messages came and the stream ended cleanly; a broken stream stores nothing, an early clean end is accepted with what came |
| Streams.EarlyEndIsStored | internal/server/server.go:301-331 | a header announcing two bytes followed by a clean end is stored as an empty block |
| Streams.AssembleBlock | internal/server/server.go:301-331 | the receive loop with its header errors |
| Streams.AssembleMeans | internal/server/server.go:301-331 | what every stream assembles to: missing and second headers, broken and clean ends, and the chunks' bytes in order |
| BlockHash.ChainMeansPrefix | internal/blockhash/blockhash.go:34-71 | two chains agree at block i if and only if the models and the first (i+1)*blockTokens tokens are equal |
| BlockHash.SharedBlocks | internal/blockhash/blockhash.go:34-71 | the number of shared leading hashes is the common token prefix divided by the block size |
| BlockHash.ChainHashes | internal/blockhash/blockhash.go:48-71 | each block hash is the digest of the one before it, or of the seed, followed by the block's tokens |
| BlockHash.ChainBlocksGo | internal/blockhash/blockhash.go:48-71 | the loop over one reused buffer computes the chain |
| BlockHash.ChainBlocksPy | connector/src/kvcache_connector/hashing.py:24-45 | the Python loop computes its chain or raises |
| BlockHash.PyChainIsGoChain | connector/src/kvcache_connector/hashing.py:24-45 | on int32 tokens the Python chain is the Go chain |
| BlockHash.PyChainRaises | connector/src/kvcache_connector/hashing.py:24-45 | packing raises if and only if a token of a full block is outside int32 |
| ColdTier.ObjectKeyInjective | internal/coldtier/coldtier.go:45-47 | two blocks never share an object, whatever characters the model name holds |
| ColdTier.ObjectKeyMeans | internal/coldtier/coldtier.go:45-47 | the key is "blocks/", the model, a slash and the hash in hexadecimal |
| ColdTier.HexMeans | internal/coldtier/coldtier.go:45-47 | two lower-case hexadecimal digits per byte, the high half first |
| ColdTier.EncodeParts | internal/coldtier/coldtier.go:61-73 | where magic, version, count, tokens and payload are in the frame |
| Bytes.EncodeTokensAt | internal/coldtier/coldtier.go:67-70 | token j is the four bytes at 4j, two's complement |
| Bytes.Le64At | internal/coldtier/coldtier.go:64-65 | byte i of a written number counts 256^i |
| ColdTier.DecodeEncode | internal/coldtier/coldtier.go:61-94 | decoding undoes encoding if and only if the token list is shorter than 2^32 |
| ColdTier.EncodeDecode | internal/coldtier/coldtier.go:77-94 | every accepted blob re-encodes to itself |
| ColdTier.DecodeOfPrefix | internal/coldtier/coldtier.go:77-94 | what every truncation of a frame decodes to |
| ColdTier.TruncationCanPass | internal/coldtier/coldtier.go:75-94 | a concrete truncated object that is accepted |
| ColdTier.EncodeBlob | internal/coldtier/coldtier.go:61-73 | the fill loop writes the frame |
| ColdTier.DecodeBlob | internal/coldtier/coldtier.go:77-94 | the read loop decodes it and never reads out of bounds |
| ColdTier.Memory.Spill | internal/coldtier/coldtier.go:109-114 | the block reads back and no other block's answer changes |
| ColdTier.Memory.Get | internal/coldtier/coldtier.go:116-128 | a miss, an error or the decoded object |

## Left out

- Numbers: sizes, frequencies and times are unbounded integers and float64 priorities, costs, weights and
  watermark fractions are reals; uint64 versions (with wrap-around), uint32 counts and int32 tokens are exact.
- Aliasing: GDSF items and tenants, LRU list elements and connections are values in maps keyed by block,
  tenant and node; sharing of one item between heap and map is an index field kept in the item. A nil entry
  argument is not modelled.
- GdsfHeap.Push: container/heap and sort.Slice are library code; their sift and sort loops are written out on
  sequences rather than in place.
- Stores.Store.Put: one call stands for one stripe-locked critical section; the finer interleaving of its
  counter, policy and signal steps is in `Wakeup`. Lock-level deadlock freedom is not modelled.
- Wakeup.NoLostWakeup: Put and PutWithVersion are one action with an arbitrary entry; the no-op policy, which
  never offers a victim, is excluded.
- Clusters.NeverServesAnotherBlock: messages, spills and pending re-admissions are sets nothing is taken from,
  which allows every loss, repetition and order; admission refusals, which change nothing, are not steps;
  token lists are shorter than 2^32.
- Membership.Drive: the registry is an event log; leases, keepalive, watch errors (which stop the client where
  it is) and key prefixes are not modelled.
- Routers.Router.SetMembers: connections are the addresses they were dialled with; `Close` and in-flight calls
  are not modelled.
- Streams.BatchRoundTrip: batches of at most 2^32 blocks, since the index is a uint32.
- Lookup, Evict and Health handlers, `Nodes`, `Owner` and `ConnFor`: thin readers over members that are modelled.
- gRPC, etcd and AWS clients, metrics, logging, flags, Spot handling and deployment files.
- The vLLM connector glue, `blockio.py`, `codec.py`, `shard_model_id`, the load generator and the chaos driver.
