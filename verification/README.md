# A verified model of the mesh registry, its gossip protocol and its edge services

The mesh keeps a registry of backends and edge nodes that every node holds a copy of. Copies are
last-writer-wins maps with version vectors, spread by signed gossip announcements and by pulling
whole snapshots from peers. Around the registry run an edge proxy (response cache, circuit breaker,
per-client rate limits, sticky backend selection) and a DNS server (rate limits, SOA serial). This
project models the parts that keep state over long runs or carry real arithmetic, and proves laws
of every run of them.

How the files are arranged:

- `Lww.dfy`, `VersionVector.dfy`, `Store.dfy`: the replicated map, the version vector and the store,
  as classes proved against functions of their state.
- `Gossip.dfy`: sync entries, and the network as a state machine. Its steps are: an announcement
  reaches a replica (late, twice, out of order, or never), a key is deleted, a replica answers
  another's sync request, the other merges the response (however late, and once) or loses it, and a
  replica prunes. Each replica has at most one pull under way.
- `Convergence.dfy`, `Finality.dfy`, `NetworkInvariants.dfy`: theorems over all runs of the network. The
  reference for "what a replica should hold" is the set of updates that have reached it, read off the
  run.
- `Breaker.dfy`, `BreakerRuns.dfy`, `BreakerAnswers.dfy`: the circuit breaker and every interleaving of overlapping calls,
  with the multiset of outstanding calls beside it. The reference counts are read off the run.
- `Cache.dfy`, `CacheRuns.dfy`, `Recency.dfy`: the byte-budgeted LRU cache, its bytes, its contents and
  its order.
- `CacheKey.dfy`, `Hosts.dfy`, `Proxy.dfy`, `KeySharing.dfy`: the cache key, what is read from a host,
  the proxy's use of the cache over runs of requests and responses, and when cacheable requests share
  a key.
- `Limiter.dfy`, `LimiterRuns.dfy`: the two limiters that forget idle clients, against one that
  remembers every client.
- `SipHash.dfy`, `Sticky.dfy`: SipHash-2-4 and the share each candidate gets of the hash residues.
- `ZoneSerial.dfy`: the SOA serial, and what it does while the network runs on.
- `Text.dfy`, `Options.dfy`: string order, sorting, joining and decimal numerals; optional values.

What the code does that its documentation does not say, all kept as it is in the model:

- A tie of clocks is won by the entry that arrives, so two replicas can stay different for ever.
  `LatestIsUniqueIff` and `MergeCommutesIffAgree` give the exact conditions, `TiesDiverge` the failing
  family.
- A merge reports a change for a tie, so version vectors go on being joined after all entries agree.
  `SettledIff` says exactly when that is over; on runs of the store as it stands, which never deletes,
  it always is (`WholeReplicasAgree`).
- Pruning a tombstone does not wait for the peers. `ReturnsIffLiveSomewhere` says exactly when a
  deleted key can come back by pulls, and `ReturnsIffLiveOrNews` when old announcements are on their
  way too: even a duplicate from before the deletion brings it back once the tombstone is pruned.
- The LRU evicts on its own when it is full, and the cache's byte count never hears of it. The count
  is then too high until the next purge (`ByteLaw`); live and lost bytes together always stay within
  the budget (`BudgetLaw`), but the loss can grow to the whole budget (`LeakCanTakeEverything`).
- A cache key leaves out the X-Mesh-Chain header, so it fixes the chain exactly when the chain is read
  from the host (`KeyFixesChainIffFromHost`).
- A bracketed IPv6 literal without a port is read without its last group (`BareLiteralLosesGroup`).
- A path can spell query pairs, and a value can spell further ones, so different requests can share a
  key and be served each other's responses (`ServedAcross`). `OwnKeyIff` says exactly which cacheable
  requests have their key to themselves.

## Model

| member | source | states |
|---|---|---|
| `Lww.LWWMap.constructor` | pkg/crdt/lwwmap.go:31-35 | A new map is empty. |
| `Lww.LWWMap.Upsert` | pkg/crdt/lwwmap.go:38-49 | The entry is written exactly when the key is free or the clock wins or ties, and the answer says which; every other key is untouched. |
| `Lww.LWWMap.Delete` | pkg/crdt/lwwmap.go:52-63 | Under the same guard the key holds a tombstone with the zero value and reads as absent. |
| `Lww.LWWMap.Get` | pkg/crdt/lwwmap.go:66-76 | A value comes back exactly for a live entry, otherwise the zero value. |
| `Lww.LWWMap.Merge` | pkg/crdt/lwwmap.go:91-104 | In any order of visiting, each key ends with the winner of the two sides; true is returned exactly when some incoming entry was accepted, and false implies nothing changed. |
| `Lww.LWWMap.Cleanup` | pkg/crdt/lwwmap.go:107-125 | Exactly the tombstones at or past the threshold go, and their number is returned. |
| `Lww.OrderIsLexicographic` | pkg/crdt/lwwmap.go:128-136 | The order written out: the greater counter wins, and between equal counters the later time or the arriving entry. |
| `Lww.PutExactly` | pkg/crdt/lwwmap.go:38-63 | What a write leaves under its key, case by case on counter and time, and that the other keys stay. |
| `Lww.MergedExactly` | pkg/crdt/lwwmap.go:91-104 | What a merge leaves under each key, in the same cases. |
| `Lww.EqualCountersByTime` | pkg/crdt/lwwmap.go:128-136 | Of two writes with one counter the later in time stays, in whichever order they come. |
| `Lww.CleanupKeepsReads` | pkg/crdt/lwwmap.go:66-125 | Cleaning never changes any read. |
| `Lww.PutIsLatest` | pkg/crdt/lwwmap.go:38-63 | A write keeps "the map holds a maximum-clock update per key" for one more update. |
| `Lww.MergedIsLatest` | pkg/crdt/lwwmap.go:91-104 | A merge of maps that are latest for two sets of updates is latest for their union. |
| `Lww.LatestOfMore` | pkg/crdt/lwwmap.go:128-136 | A map that is latest for some updates is latest for all those they beat as well. |
| `Lww.LatestIsUnique` | pkg/crdt/lwwmap.go:128-136 | When updates of maximum clock for a key coincide, only one map is latest for a set of updates; ties below the maximum are harmless. |
| `Lww.LatestExists` | pkg/crdt/lwwmap.go:38-49 | Every set of updates has a latest map. |
| `Lww.LatestIsUniqueIff` | pkg/crdt/lwwmap.go:128-136 | A set of updates determines the map if and only if no key has two updates of maximum clock. |
| `Lww.MergeCommutesIffAgree` | pkg/crdt/lwwmap.go:91-136 | Merging two maps commutes if and only if no key has one clock and two entries. |
| `Lww.MergeAssociative` | pkg/crdt/lwwmap.go:91-136 | Merging is associative on all maps, ties included. |
| `Lww.MergeIdempotent` | pkg/crdt/lwwmap.go:91-136 | Merging a map into itself changes nothing. |
| `VersionVectors.VersionVector.Bump` | pkg/crdt/lwwmap.go:153-160 | A counter is raised, never lowered, and the others stay. |
| `VersionVectors.VersionVector.BumpAll` | pkg/registry/store.go:142-157 | In any order the vector becomes the pointwise maximum and has only grown. |
| `VersionVectors.VersionVector.Compare` | pkg/crdt/lwwmap.go:189-224 | In any order of keys and despite the early exit, the answer is the pointwise order with absent read as 0. |
| `VersionVectors.VersionVector.Digest` | pkg/crdt/lwwmap.go:227-238 | The digest holds each rendered component once, in order. |
| `VersionVectors.RelationLaws` | pkg/crdt/lwwmap.go:189-224 | Swapping the sides swaps Descendant and Ancestor; Equal if and only if all counters agree. |
| `VersionVectors.RenderInjective` | pkg/crdt/lwwmap.go:227-238 | The last '=' splits a component in one way, even for node names that hold '='. |
| `VersionVectors.DigestIdentifiesVector` | pkg/crdt/lwwmap.go:227-238 | Two digests are equal if and only if the vectors are. |
| `VersionVectors.DigestsAndRelation` | pkg/crdt/lwwmap.go:189-238 | Equal digests imply Equal; the converse holds exactly when both keep the same nodes, so always without zero counters. |
| `Registry.WrapInt64` | pkg/registry/store.go:69-69 | The nanosecond product keeps its low 64 bits as a signed number. |
| `Registry.RefusalExactly` | pkg/registry/store.go:55-67 | Which error is returned: exactly that of the first check to fail among key length, encoding and signature. |
| `Registry.ApplyExactly` | pkg/registry/store.go:55-98 | Nothing changes unless the key has 32 bytes, the announcement encodes, the signature verifies and the clock is not smaller; then the entry and the vector are written from the announcement's own counter and second. |
| `Registry.Store.constructor` | pkg/registry/store.go:38-52 | Empty tables, and ten seconds for a TTL that is not positive. |
| `Registry.Store.ApplyBackendMeta` | pkg/registry/store.go:55-75 | Refused with the first failing check and then unchanged, accepted exactly when the 32-byte key verifies the signature of the encoding, and written under the clock guard with the version vector bumped exactly when it changed. |
| `Registry.Store.ApplyNodeAdvert` | pkg/registry/store.go:78-98 | The same for node adverts. |
| `Registry.Store.MergeBackendDelta` | pkg/registry/store.go:142-148 | The table is merged, and the vector joined exactly when some entry was accepted. |
| `Registry.Store.MergeNodeDelta` | pkg/registry/store.go:151-157 | The same for nodes. |
| `Registry.Store.Prune` | pkg/registry/store.go:108-119 | Exactly the expired metrics and tombstones go; the version vectors stay. |
| `Gossip.ToSyncEntries` | pkg/gossip/service.go:669-705 | Each key appears once, in some order, with the zero value for a tombstone. |
| `Gossip.FromSyncEntries` | pkg/gossip/service.go:707-741 | The entries are folded into a map, later ones over earlier ones. |
| `Gossip.SyncCarries` | pkg/gossip/service.go:669-741 | What arrives after both conversions, key by key, for any order and any subset of the keys. |
| `Gossip.SyncRoundTrip` | pkg/gossip/service.go:669-741 | There and back is the identity if and only if every tombstone holds the zero value. |
| `Gossip.MergeSyncResponse` | pkg/gossip/service.go:553-566 | Each half that has entries is merged into its own table; an empty half changes nothing. |
| `Gossip.AnswerSync` | pkg/gossip/service.go:519-551 | The answer lists every entry of both tables once, and both vectors. |
| `Gossip.ArrivesZeroed` | pkg/gossip/service.go:707-741 | Whatever was sent, every tombstone that arrives holds the zero value. |
| `Gossip.ReceiveIsMerge` | pkg/gossip/service.go:553-566 | Receiving a response is merging its map, also when it is empty. |
| `Gossip.OnePull` | pkg/gossip/service.go:482-566 | One pull leaves the puller with exactly the join of both states, its vector joined with the other side's exactly when some entry was accepted, ties included, and everyone else untouched. |
| `Convergence.TombsStayZero` | pkg/crdt/lwwmap.go:52-63 | On every run, at every replica, tombstones hold the zero value. |
| `Convergence.LatestWins` | pkg/gossip/service.go:245-282 | On every run without pruning, each replica holds for each key a maximum-clock update among exactly those that reached it directly or through other replicas' responses, stale ones included. |
| `Convergence.LatestInOrder` | pkg/crdt/lwwmap.go:128-136 | Written out: the pair of counter and time that a replica holds is lexicographically at least that of every update of the key that has reached it, and is one of theirs. |
| `Convergence.Converges` | pkg/crdt/lwwmap.go:91-136 | Replicas reached by the same updates are equal when no key has two of them with its maximum clock. |
| `Convergence.TiesDiverge` | pkg/crdt/lwwmap.go:128-136 | The hypothesis is needed: any two genuine announcements that tie and differ drive two replicas apart. |
| `Convergence.TiesHappen` | cmd/meshproxy/main.go:266-274 | Such announcements exist: two adverts of one node, same counter and same second, that leave two replicas different. |
| `Convergence.ReachedFromSources` | pkg/gossip/service.go:467-517 | Without new writes, what has reached a replica is exactly what was held by the replicas, and carried by the responses under way at the start, that are linked to it by a time-ordered chain of pulls. |
| `Convergence.JoinIsLatest` | pkg/crdt/lwwmap.go:91-104 | The merge of all the tables is latest for all their updates together. |
| `Convergence.AntiEntropyComplete` | pkg/gossip/service.go:467-566 | Once chains of pulls link every replica to one, its entries are the join of all the initial ones, whatever became of the pulls under way at the start. |
| `Convergence.AntiEntropyIsFinal` | pkg/gossip/service.go:467-566 | Once all are linked to all, every replica's entries are the join and no later exchange changes any entry. |
| `Finality.JoinUnchangedIff` | pkg/registry/store.go:142-157 | Joining a vector changes nothing if and only if the other side has nothing greater. |
| `Finality.ResponsesCovered` | pkg/gossip/service.go:519-551 | On every run, the vector of every waiting response is covered by some replica's. |
| `Finality.NothingNewEverWaits` | pkg/gossip/service.go:519-551 | On every run without deletions, some replica holds each entry of a waiting response, or a newer one. |
| `Finality.SettledIff` | pkg/gossip/service.go:467-566 | Once all are linked to all, no later exchange changes any replica, vector included, if and only if the join is empty or all vectors are equal already. |
| `Finality.WholeReplicasAgree` | pkg/gossip/service.go:467-566 | After any run of the store, once pulls (those under way at that moment among them) have linked all replicas, each holds exactly the join and its Lamport counters, and nothing changes any more. |
| `NetworkInvariants.NetworkWellFormed` | pkg/registry/store.go:55-98 | On every run, every live entry at any replica or in a response still to be merged has its value's ID as key, a clock computed from its own fields, and a signature-checked Apply at some replica in its past. |
| `NetworkInvariants.LiveEntriesAreSigned` | pkg/registry/store.go:55-98 | On every run, every live entry at a replica or in a waiting response was delivered as it stands with a 32-byte key whose signature of its encoding verifies, and carries its own counter and second as clock. |
| `NetworkInvariants.SignedIsHeld` | pkg/registry/store.go:55-98 | A signed announcement whose clock is not smaller than the one held is held after its delivery, and any other delivery changes nothing. |
| `NetworkInvariants.ReachableRoundTrip` | pkg/gossip/service.go:669-741 | On every reachable map, in any order, sync entries there and back are the identity. |
| `NetworkInvariants.VersionVectorsSound` | pkg/registry/store.go:69-157 | On every run each component is at least the Lamport clock of the live entry, and is a counter that some replica accepted for that ID. |
| `NetworkInvariants.VersionVectorsGrow` | pkg/crdt/lwwmap.go:153-160 | Between any two moments of a run no component of any replica shrinks or disappears. |
| `NetworkInvariants.VectorsAreLamports` | pkg/registry/store.go:69-157 | On every run without deletions, pruning included, each version vector is exactly the Lamport counters of its entries, at every replica and in every waiting response. |
| `NetworkInvariants.DeadStaysDead` | pkg/crdt/lwwmap.go:52-125 | Once no replica and no response still to be merged holds a live copy, no interleaving of pulls, prunes, deletions, deliveries of other keys and refused deliveries of this one brings the key back. |
| `NetworkInvariants.TombstonesHold` | pkg/crdt/lwwmap.go:52-63 | While everything live elsewhere and everything delivered is older than the deletion, the key never returns at the replicas that keep their tombstones, whatever is pulled and whatever the others prune; the deletion need not have reached everyone. |
| `NetworkInvariants.AllTombstonesHold` | pkg/crdt/lwwmap.go:52-63 | If every replica keeps its tombstone and no live copy is left, the key never returns anywhere. |
| `NetworkInvariants.Resurrection` | pkg/registry/store.go:108-119 | From any state with a live copy at a replica or in a response still to be merged, pruning and pulling bring the key back at any chosen replica. |
| `NetworkInvariants.ReturnsIffLiveSomewhere` | pkg/crdt/lwwmap.go:107-125 | A key can return at a replica without an applied announcement if and only if a live copy remains at some replica or in a response still to be merged. |
| `NetworkInvariants.ReturnsIffLiveOrNews` | pkg/registry/store.go:55-119 | With any given announcements still on their way, it can return if and only if a live copy remains or one of them is genuine, however old. |
| `CircuitBreakers.CircuitBreaker.constructor` | pkg/circuitbreaker/circuitbreaker.go:117-130 | Closed, generation 0, no counts, the first interval running. |
| `CircuitBreakers.CircuitBreaker.SetStateTo` | pkg/circuitbreaker/circuitbreaker.go:242-264 | A real change starts a generation with no counts, the state's own expiry and one notification; none otherwise. |
| `CircuitBreakers.CircuitBreaker.CurrentState` | pkg/circuitbreaker/circuitbreaker.go:227-240 | A closed interval rolls over by clearing only its own counter; an open timeout that has passed half-opens. |
| `CircuitBreakers.CircuitBreaker.BeforeRequest` | pkg/circuitbreaker/circuitbreaker.go:168-183 | Admission, or the refusal that applies, with the count of requests. |
| `CircuitBreakers.CircuitBreaker.AfterRequest` | pkg/circuitbreaker/circuitbreaker.go:185-225 | A result of the current generation is counted and may move the state; an older one is dropped. |
| `CircuitBreakers.CircuitBreaker.Call` | pkg/circuitbreaker/circuitbreaker.go:133-149 | A refused call reports nothing; an admitted one reports exactly once, a panic as a failure. |
| `BreakerRuns.HistoryLaw` | pkg/circuitbreaker/circuitbreaker.go:185-264 | Under every interleaving the notified transitions form one legal path from Closed, the generation counts them, and no outstanding call belongs to an Open generation. |
| `BreakerRuns.AllAccounted` | pkg/circuitbreaker/circuitbreaker.go:133-149 | In each generation, calls admitted are calls succeeded, failed or outstanding. |
| `BreakerRuns.CountersTrackRun` | pkg/circuitbreaker/circuitbreaker.go:83-102 | The totals equal the run's own counts for the current generation modulo 2^32, whatever intervals rolled over and whatever older generations reported. |
| `BreakerRuns.BreakerConservation` | pkg/circuitbreaker/circuitbreaker.go:83-225 | Requests minus successes minus failures is the number of outstanding calls of the current generation, modulo 2^32. |
| `BreakerRuns.HalfOpenExactness` | pkg/circuitbreaker/circuitbreaker.go:168-259 | Each half-open generation admits at most MaxRequests calls; it has closed exactly when that many succeeded and none failed, and has reopened exactly when one failed. |
| `BreakerRuns.NoProbesNoRecovery` | pkg/circuitbreaker/circuitbreaker.go:168-225 | With MaxRequests 0 a half-open breaker never changes again. |
| `BreakerRuns.TripsExactly` | pkg/circuitbreaker/circuitbreaker.go:214-225 | A closed breaker opens at a step if and only if a call of its generation fails there and the rule holds. |
| `BreakerRuns.FifthFailed` | pkg/circuitbreaker/circuitbreaker.go:57-71 | The default rule in whole numbers: at least 50 requests and five times the failures exceed them. |
| `BreakerRuns.DefaultTrip` | pkg/circuitbreaker/circuitbreaker.go:57-71 | Under the default rule, the exact condition for a trip on the run's own counts since the generation began. |
| `BreakerRuns.DefaultTripEvidence` | pkg/circuitbreaker/circuitbreaker.go:57-71 | Every default trip has at least 50 admitted calls behind it and, below 2^32 of them, over 20% failed. |
| `BreakerRuns.OpeningsWaitedOut` | pkg/circuitbreaker/circuitbreaker.go:227-264 | With a clock that does not go back, every opening but the one in force was waited out. |
| `BreakerRuns.AdmittedOnlyAfterTimeout` | pkg/circuitbreaker/circuitbreaker.go:168-240 | No call is admitted until strictly more than Timeout after every opening so far. |
| `BreakerAnswers.OpenUntilTimeout` | pkg/circuitbreaker/circuitbreaker.go:227-264 | An open generation expires exactly Timeout after the step that began it. |
| `BreakerAnswers.AnswerExactly` | pkg/circuitbreaker/circuitbreaker.go:168-183 | The answer to every call: closed, admitted; open, refused through Timeout and then the first probe; half-open, admitted while fewer than MaxRequests of the generation were, and otherwise too many. |
| `BreakerAnswers.RequestsCountInterval` | pkg/circuitbreaker/circuitbreaker.go:83-102 | Requests counts, modulo 2^32, the calls admitted in the current interval, which rolls over at the first step strictly after it. |
| `BreakerAnswers.StreaksCounted` | pkg/circuitbreaker/circuitbreaker.go:88-102 | ConsecSucc and ConsecFail are, modulo 2^32, the lengths of the last streaks of results of the current generation. |
| `ResponseCaches.NewResponseCache` | pkg/cache/cache.go:60-69 | Refused exactly for a capacity that is not positive; otherwise empty. |
| `ResponseCaches.ResponseCache.constructor` | pkg/cache/cache.go:60-69 | An empty cache over the given list and budget. |
| `ResponseCaches.ResponseCache.Store` | pkg/cache/cache.go:72-100 | The whole new list and byte count, a silent eviction at capacity included; no entry, no change. |
| `ResponseCaches.ResponseCache.EvictOldest` | pkg/cache/cache.go:86-99 | The loop ends on every state, negative sizes included, and stops at the budget, at an empty list or after the key itself. |
| `ResponseCaches.ResponseCache.Lookup` | pkg/cache/cache.go:103-115 | A hit is present and not expired and becomes the most recent; an expired entry is removed. |
| `ResponseCaches.ResponseCache.Delete` | pkg/cache/cache.go:118-126 | The key and its bytes go, the rest keeps its order. |
| `ResponseCaches.ResponseCache.Purge` | pkg/cache/cache.go:129-135 | Nothing is left and the count is zero. |
| `CacheRuns.FitIsLongest` | pkg/cache/cache.go:86-99 | The reference for eviction is the longest recent part that fits. |
| `CacheRuns.EvictFits` | pkg/cache/cache.go:86-99 | The loop keeps exactly that part. |
| `CacheRuns.StoreKeepsLongestFit` | pkg/cache/cache.go:72-100 | A store keeps the longest recent part that fits beside the leaked bytes. |
| `CacheRuns.ByteLaw` | pkg/cache/cache.go:72-135 | On every run with non-negative sizes, the byte count is the live bytes plus the bytes silently evicted since the last purge, and no key is held twice. |
| `CacheRuns.BudgetLaw` | pkg/cache/cache.go:72-100 | With a positive budget, live and leaked bytes together never exceed it. |
| `CacheRuns.LeakIsPaidFor` | pkg/cache/cache.go:83-84 | A silent eviction happens exactly for a new key at full capacity, takes the oldest, and costs no more than the live bytes. |
| `CacheRuns.StoreUnderBudget` | pkg/cache/cache.go:72-100 | A just-stored entry survives if and only if leaked bytes plus its size fit the budget. |
| `CacheRuns.LeakNeverHeals` | pkg/cache/cache.go:72-135 | Without a purge the leak never shrinks, and an entry too large for what it leaves is gone again after every later store of it. |
| `CacheRuns.LeakCanTakeEverything` | pkg/cache/cache.go:83-84 | For every capacity and budget there is a run whose leak is the whole budget. |
| `CacheRuns.ContentsBacked` | pkg/cache/cache.go:72-135 | Every slot holds the last entry stored under its key since that key was last removed. |
| `CacheRuns.HitsAreIdeal` | pkg/cache/cache.go:103-115 | Every hit is what an unbounded TTL map would have answered, with the delete of an expired entry as a step of its own. |
| `Recency.OldestIsLeastRecent` | pkg/cache/cache.go:72-115 | On every run, with or without a budget, the slots are in the order of their last store or read, so every eviction takes the least recently used. |
| `Recency.CapacityHolds` | pkg/cache/cache.go:60-100 | Without a budget at most `capacity` entries are held. |
| `Recency.RecentSurvives` | pkg/cache/cache.go:72-115 | Without a budget a key is still held as long as fewer than `capacity` other keys were stored or read since its last use. |
| `Recency.LruByStamps` | pkg/cache/cache.go:72-115 | Without a budget the keys held are exactly those of an LRU defined by time stamps and no order. |
| `CacheKeys.LastIndex` | pkg/proxy/helpers.go:58-61 | The last position of a character, or -1 when it does not occur. |
| `CacheKeys.Split` | pkg/proxy/helpers.go:40-41 | The labels hold no dot and join back to the host, and there are two or more exactly when it holds a dot. |
| `Hosts.PortStripped` | pkg/proxy/helpers.go:54-67 | For every host and port without colons and brackets, the port goes and the host stays. |
| `Hosts.NoPortKept` | pkg/proxy/helpers.go:54-67 | A host without a colon is kept as it is. |
| `Hosts.BracketsStripped` | pkg/proxy/helpers.go:58-61 | A bracketed IPv6 literal with a port gives the literal without brackets. |
| `Hosts.TwoColonsKept` | pkg/proxy/helpers.go:63-66 | An unbracketed host with two colons is kept whole. |
| `Hosts.BareLiteralLosesGroup` | pkg/proxy/helpers.go:58-61 | A bracketed IPv6 literal without a port loses its last group. |
| `Hosts.PortChangesNothing` | pkg/proxy/helpers.go:35-67 | Requests that differ only in the port share key and chain. |
| `Hosts.ChainIsSecondLabel` | pkg/proxy/helpers.go:35-52 | A host of two labels or more, with or without a trailing dot and a port, is on the chain of its second label. |
| `Hosts.OneLabelUsesHeader` | pkg/proxy/helpers.go:42-48 | A host of one label leaves the chain to the header, and without one there is none. |
| `CacheKeys.SortedNames` | pkg/proxy/helpers.go:247-252 | The query names, each once and sorted, whatever order the map yields. |
| `Text.OrderIsByFirstDifference` | pkg/proxy/helpers.go:252-255 | The order of the names and values, written out: by the first place where two texts differ, a prefix first. |
| `CacheKeys.WriteValues` | pkg/proxy/helpers.go:253-262 | The builder's text is the join of the parts written so far. |
| `CacheKeys.CacheKey` | pkg/proxy/helpers.go:239-268 | The key is the join of method, stripped host, path, the canonical query pairs and the suffix. |
| `CacheKeys.PairsCanonical` | pkg/proxy/helpers.go:246-262 | The pair lists of two queries are equal if and only if their multisets of pairs are. |
| `CacheKeys.KeysIdentifyRequests` | pkg/proxy/helpers.go:239-268 | Without '\|' in components and '=' in names, keys are equal if and only if method, host, path, the multiset of query pairs and the suffix agree. |
| `CacheKeys.SameComponentsSameKey` | pkg/proxy/helpers.go:239-268 | Agreement always gives the same key, separators or not. |
| `CacheKeys.KeysFixFrame` | pkg/proxy/helpers.go:239-268 | For all paths and queries, two requests whose method and host hold no '\|' share a key if and only if method, host and the text between host and suffix agree. |
| `CacheKeys.KeyUnsharedIff` | pkg/proxy/helpers.go:239-268 | For the key function alone, over requests that need not be cacheable: a request's key is its own if and only if it has no query pair and no '\|' of its path is followed by a '='. |
| `CacheKeys.PathCanForgeQuery` | pkg/proxy/helpers.go:239-268 | Every request without the query name "" shares a key, once extended by a pair with that name, with the one that spells the pair in its path. |
| `CacheKeys.PositiveAndNegativeKeysDiffer` | pkg/proxy/helpers.go:239-272 | No "height" key equals a "404" key, whatever the requests. |
| `CacheKeys.KeyFixesChainIffFromHost` | pkg/proxy/helpers.go:35-67 | Whatever the paths and queries, equal keys imply equal chains if and only if the chain is read from the request's host. |
| `Proxies.Capacity` | pkg/proxy/proxy.go:95-103 | The number of largest items that fit the budget, or 1024 without such a number; always positive, so making the cache never fails. |
| `Proxies.HeightIsNumeral` | pkg/proxy/helpers.go:112-125 | A height is read exactly as the positive int64 whose numeral it is, after an optional plus sign and zeros. |
| `Proxies.CacheableExactly` | pkg/proxy/proxy.go:335-346 | A request is cacheable exactly with caching enabled, as a GET whose first height is such a numeral. |
| `Proxies.StoredExactly` | pkg/proxy/proxy.go:304-332 | Which 200 and which 404 responses are stored, under which key and until when, and that no other is. |
| `Proxies.Proxy.constructor` | pkg/proxy/proxy.go:94-110 | With caching enabled, an empty cache with that capacity and the configured budget; otherwise none. |
| `Proxies.Proxy.ServeFromCache` | pkg/proxy/proxy.go:180-186 | Only a cacheable request is looked up, under its height key; the answer and the new cache state. |
| `Proxies.Proxy.WriteUpstreamResponse` | pkg/proxy/proxy.go:304-332 | What is stored, under which key and for how long, or that nothing is. |
| `Proxies.CacheableKeysCollide` | pkg/proxy/proxy.go:335-346 | The two requests of PathCanForgeQuery are both cacheable whenever the one they extend is, for every value. |
| `Proxies.MethodsMakeTraffic` | pkg/proxy/proxy.go:180-332 | What the two methods do to the cache are the steps of the runs below. |
| `Proxies.IdealIsOrigin` | pkg/proxy/proxy.go:304-332 | On every run of requests, an unbounded cache holds under a key exactly the response of the last exchange stored there and not removed since. |
| `Proxies.HitHasOrigin` | pkg/proxy/proxy.go:180-332 | Every hit is the stored response of that exchange, its origin. |
| `Proxies.ServedIffFresh` | pkg/proxy/proxy.go:180-332 | What is held for a request is served exactly through the TTL after its origin, and for ever with an infinite or no TTL; nothing else is served. |
| `Proxies.ServedWasStored` | pkg/proxy/proxy.go:180-332 | What is served for a request is the body and header of the 200 that the upstream gave to the origin, a cacheable request with the same key. |
| `Proxies.ServedIsOk` | pkg/proxy/proxy.go:180-332 | On every run, every response served from the cache has status 200. |
| `Proxies.ServedFromSameHost` | pkg/proxy/proxy.go:180-346 | Whatever the paths and queries, the origin had the same method and host, and was on the same chain when that is read from the host. |
| `Proxies.ServedAnswersSameRequest` | pkg/proxy/proxy.go:180-346 | When neither holds a separator, the origin had the same path and query pairs too. |
| `Proxies.ServedAcross` | pkg/proxy/proxy.go:180-346 | The separators matter: for every cacheable request without the query name "", the response to one of its colliding extensions is served to the other. |
| `KeySharing.ReadsOwn` | pkg/proxy/helpers.go:239-268 | A cacheable request's key reads as its path, its sorted pairs and a valid height among them. |
| `KeySharing.RewrittenReads` | pkg/proxy/helpers.go:239-268 | For every such reading of the key's text there is a cacheable request with that path, those pairs and the same key. |
| `KeySharing.OwnKeyIsOnly` | pkg/proxy/helpers.go:239-268 | A cacheable request has its key to itself if and only if the key has no second reading. |
| `KeySharing.OwnKeyIff` | pkg/proxy/proxy.go:335-346 | That is so if and only if its sorted pairs are a valid height and at most one more, its path does not end in the text of a pair that may come first, and there is one place only where its key's text can be cut into a valid height and at most one pair after it. |
| `KeySharing.ManyPairsShare` | pkg/proxy/proxy.go:335-346 | With three query pairs or more, another cacheable request has the same key. |
| `KeySharing.LoneHeightIsOwn` | pkg/proxy/proxy.go:335-346 | With the height as its only pair and a path that spells none, a request has its key to itself. |
| `KeySharing.OneMorePairIff` | pkg/proxy/proxy.go:335-346 | With one more pair that holds no '=' of its own, and such a path, the key is shared if and only if the text ends in a second valid height. |
| `Proxies.ProxyBytes` | pkg/proxy/proxy.go:95-103 | Under the proxy's own stores the byte count is honest up to the leak and never over a positive budget. |
| `Limiters.RequestLimiter.constructor` | pkg/dnsplugin/plugin.go:350-365 | No clients, and a cleanup period of half the TTL. |
| `Limiters.RequestLimiter.Allow` | pkg/dnsplugin/plugin.go:367-394 | The answer and the new state, with the sweep before the check once a period, and no limit without an address. |
| `Limiters.Sweep` | pkg/proxy/rate_limiter.go:50-57 | In any order, exactly the clients last seen before the cutoff go. |
| `Limiters.ClientRateLimiter.constructor` | pkg/proxy/rate_limiter.go:23-30 | No clients. |
| `Limiters.ClientRateLimiter.Allow` | pkg/proxy/rate_limiter.go:32-48 | The answer and the new state, with the sweep after the check above 2048 clients. |
| `LimiterRuns.DnsRefines` | pkg/dnsplugin/plugin.go:367-394 | When window times rate reaches the burst, each answer equals that of a limiter that never forgets, and every forgotten bucket is full again. |
| `LimiterRuns.EdgeRefines` | pkg/proxy/rate_limiter.go:32-57 | The same for the edge limiter, an empty client name included. |
| `LimiterRuns.TokensConserved` | pkg/dnsplugin/plugin.go:387-394 | Tokens spent in an interval and tokens left never exceed a full bucket and the refill. |
| `LimiterRuns.ForeverBound` | pkg/dnsplugin/plugin.go:387-394 | The remembering limiter admits at most burst + rate times length in any interval. |
| `LimiterRuns.RateBound` | pkg/proxy/rate_limiter.go:32-57 | So do both real limiters, per client, across every cleanup. |
| `LimiterRuns.TokensAccounted` | pkg/dnsplugin/plugin.go:387-394 | The bound on tokens is reached over some interval that ends now. |
| `LimiterRuns.AdmittedIffRoom` | pkg/dnsplugin/plugin.go:367-394 | Both limiters admit a call if and only if that keeps the client within burst + rate times length over every interval up to now. |
| `LimiterRuns.DnsForgetsIdle` | pkg/dnsplugin/plugin.go:376-384 | After each call from a named client the DNS limiter remembers only clients seen within one and a half windows. |
| `LimiterRuns.DnsKeepsRecent` | pkg/dnsplugin/plugin.go:376-384 | It forgets nobody seen within the window. |
| `LimiterRuns.EdgeForgetsIdle` | pkg/proxy/rate_limiter.go:32-57 | The edge limiter remembers everyone up to 2048 clients, and above that exactly those seen within the window. |
| `LimiterRuns.ShortWindowForgives` | pkg/proxy/rate_limiter.go:50-57 | With a shorter window there is a run of two bursts that each limiter lets through and a remembering one would not. |
| `LimiterRuns.ForgettingIsInvisibleIff` | pkg/dnsplugin/plugin.go:367-394 | For each limiter, its answers equal the remembering one's on every run if and only if window times rate is at least the burst. |
| `LimiterRuns.DefaultWindows` | pkg/dnsplugin/plugin.go:72-86 | The default settings meet that condition: always at the edge, and at the DNS server exactly from one query in five minutes up. |
| `SipHash.DoSipRound` | pkg/selector/selector.go:406-421 | The fourteen assignments are one SipRound. |
| `SipHash.TailWord` | pkg/selector/selector.go:369-391 | The fall-through switch builds the last padded little-endian word, with the length modulo 256 on top. |
| `SipHash.Mix` | pkg/selector/selector.go:362-366 | A loop turn is the compression of one word. |
| `SipHash.Finalize` | pkg/selector/selector.go:397-403 | The last four rounds and the fold of the words. |
| `SipHash.Hash` | pkg/selector/selector.go:339-404 | For every byte string the in-place loop and tail equal SipHash-2-4 as a fold over the padded 64-bit words (section 2 of "SipHash: a fast short-input PRF"). |
| `SipHash.RoundBijective` | pkg/selector/selector.go:406-425 | The round has a two-sided inverse on all states of four words. |
| `SipHash.PublishedVector` | pkg/selector/selector.go:339-404 | The definition gives the value published in Appendix A of "SipHash: a fast short-input PRF". |
| `SipHash.KeysAreText` | pkg/selector/selector.go:348-349 | The two key words are the bytes of "selector" and "stickeys". |
| `StickySelection.StickyChoice` | pkg/selector/selector.go:303-322 | The two loops return the first candidate whose cumulative share reaches the residue, the last as a fallback, and 0 for a zero total. |
| `StickySelection.EarlierCount` | pkg/selector/selector.go:313-321 | How many residues below any bound go to the candidates before one, in closed form. |
| `StickySelection.ShareBound` | pkg/selector/selector.go:303-322 | For non-negative weights with a positive total, each candidate gets within 1 of a million times its weight share. |
| `StickySelection.SharesPartition` | pkg/selector/selector.go:303-322 | The million residues are partitioned among the candidates. |
| `StickyKeys.ChooseFor` | pkg/selector/selector.go:303-322 | The choice for a key is the one its SipHash-2-4 falls to. |
| `ZoneSerials.RegistryZoneView.constructor` | pkg/dnsplugin/provider.go:28-28 | No serial has been handed out yet. |
| `ZoneSerials.RegistryZoneView.ZoneSerial` | pkg/dnsplugin/provider.go:326-348 | In any order of the vector, the serial follows from the 64-bit sum, the clock and the last serial, and is remembered. |
| `ZoneSerials.SumFrom` | pkg/dnsplugin/provider.go:327-331 | The sum of the counters does not depend on the order. |
| `ZoneSerials.SumGrows` | pkg/dnsplugin/provider.go:327-331 | It never shrinks while the vector only grows. |
| `ZoneSerials.StepGoesBackIff` | pkg/dnsplugin/provider.go:332-347 | A query goes back if and only if the wrapped sum is 0 and the clock's stamp is behind the last serial; otherwise it moves on exactly below 2^32 - 1. |
| `ZoneSerials.SerialReadsSum` | pkg/dnsplugin/provider.go:337-345 | A query that finds a positive counter returns at least the sum modulo 2^32 - 1, and exactly that whenever it exceeds the serial before. |
| `ZoneSerials.SerialIsFurthest` | pkg/dnsplugin/provider.go:327-347 | In closed form: the serial is the greatest, over the queries so far, of the number each read (the clock, or the sum modulo 2^32 - 1) plus one for each later query with a positive counter, capped at 2^32 - 1. |
| `ZoneSerials.SerialBeforeCounters` | pkg/dnsplugin/provider.go:332-336 | While every counter is 0 the serial is the clock. |
| `ZoneSerials.NeverDecreases` | pkg/dnsplugin/provider.go:326-348 | Over every run of queries with growing vectors and a clock that does not go back, neither wrapping, serials never decrease (SERIAL of section 3.3.13 of RFC 1035). |
| `ZoneSerials.StrictOnceCounted` | pkg/dnsplugin/provider.go:337-347 | Once any counter is positive every query adds at least one until 2^32 - 1, where the serial stays. |
| `ZoneSerials.NetworkSerials` | pkg/dnsplugin/provider.go:326-348 | Both hold for the serials a replica hands out while the whole network runs on in between. |
| `ZoneSerials.WrappedSumGoesBack` | pkg/dnsplugin/provider.go:327-336 | The bound on sums is needed: a growing vector whose 64-bit sum wraps makes the serial fall. |
| `ZoneSerials.WrappedClockGoesBack` | pkg/dnsplugin/provider.go:332-336 | The bound on the clock is needed: without counters the stamp wraps to 0 in 2106. |

## Left out

- libp2p, pubsub, streams, CBOR bytes and Ed25519: canonical encoding and signature verification are parameters that may be any functions, and a message dropped by the envelope checks of pkg/gossip/service.go:208-243 is one that is never delivered.
- Locks: Apply, a snapshot and a merge are each one atomic step, although entries and version vector are locked separately; an Allow of a limiter and a store of the cache are atomic in the code too.
- The network carries one table per replica, because the backend half and the node half run the same code on separate state.
- Deletions: the store never calls Delete, so a deletion is a step on the map of a replica, with the zero value and no bump.
- Lamport counters and the breaker's generation are unbounded naturals, and clocks and times unbounded integers, not 64-bit ones; the product that turns seconds into nanoseconds wraps as in the code, and so do the breaker's uint32 counters and the serial's sums.
- CircuitBreakers.DefaultReadyToTrip: the 20% rule is a division of real numbers, where the code divides float64 values.
- Breaker callbacks: ReadyToTrip is any total function of the counts and OnStateChange is recorded as a notification; neither panics or calls back into the breaker.
- Cache byte counts are unbounded integers; the LRU library is modelled as a recency list with a capacity, and entries are values, so that Clone and sharing of headers or bodies are not modelled.
- Proxies.Proxy.WriteUpstreamResponse: the upstream's header is taken after hop-by-hop headers and cookies were removed, and the response written to the client, the retry loop and the choice of backend are not modelled.
- Proxies.NegativelyCacheable: lower-casing of the path is that of ASCII letters only.
- CacheKeys.CacheKey: the query is the parsed one; net.SplitHostPort is modelled for the hosts that reach it, which do not both begin with '[' and hold a ':'. The service label of extractChain is not modelled.
- Limiters.RequestLimiter.Allow and Limiters.ClientRateLimiter.Allow: the token bucket of golang.org/x/time/rate is modelled over real numbers, without floating-point or nanosecond rounding, for a positive rate, burst and window, and the two clock reads of one call are one.
- StickySelection.StickyChoice: weights are real numbers; floating-point rounding is not modelled.
- SipHash.TailWord: takes the length modulo 256 before the shift by 56 bits that would drop its higher bits.
- ZoneSerials.RegistryZoneView.ZoneSerial: calls are sequential; two at once may hand out the same serial.
- Publishing, the metrics messages, LatestMetrics, and the ordering of edge records (its comparator with a tolerance is not a strict weak order).
- Softmax weights, geographic scores and random choice: transcendental floating point and randomness.
- Agents, collectors, health probes, the websocket relay, TLS, PKI, authentication, tracing, configuration and the commands: input and output, or one-branch facts.
