# Savannah node: storage, cross-chain memory, serialization, genesis and connections

A Dafny 4.11 model of the parts of the Savannah node where state, branching and arithmetic are, and
proofs about it. `dafny verify dfyconfig.toml` checks everything.

- **Cross-chain shared memory** (`chains/atomic`). `Locks` is the step machine of the reference-counted
  locks, `Serializability`, `SerializabilityProof` and `SerializabilityProgress` the machine of
  concurrent Apply, Get and Indexed calls on top of it, for any operations. `Mailbox` is one direction
  of a shared database as a value, `Pagination` its lookup by trait, `ElementCodec` its element format,
  `AtomicState` the class over the two databases. `SharedMemory` has prefixes, shared IDs and Apply;
  `SharedMemoryTheorems` puts it all together.
- **linkeddb**. `LinkedList` says how a sequence is laid out in a key-value store, `LinkedDB` is the
  class with its node cache, head-key cache and pending batch over a database that may fail, and
  `NodeCodec` its node format.
- **Codec**. `Codec` is the wire format as functions, `CodecRoundTrip` and `CodecCanonical` the two
  directions, `ReflectCodec` and `Packer` the loops over a mutable packer, `LinearCodec` the type
  registry, `CodecManager` versions and size bounds.
- **Genesis**. `Genesis` splits allocations, `GenesisAccounting` follows every unit of the supply.
- **Network**. `Network` is the step machine of tracked, connecting and connected peers.
- **Indexer, databases, caches, votes**. `Indexer`, `MemoryDB`, `PrefixDB`, `RpcBatch`, `Lru`,
  `UniqueCache`, `Bits`, `Bag`.

Modelling decisions:

- Databases are maps. Where a class has a `flaky` constant its database accesses may report an error at
  any time; a failed write has no effect. A versiondb is an overlay with an atomic commit.
- Hashes are parameters or opaque names; where it matters, no two names in use collide. Keys in
  `getKeys` are compared themselves and not by their hashes.
- Amounts and counters are unbounded integers where the source cannot overflow, and the places where
  64-bit or 32-bit arithmetic matters are written out: the initial supply, slice lengths, type IDs, the
  end of a container range and the required stake offset.
- A nil slice and an empty one are the same value.
- Clocks, signatures, random delays, the other end of a connection and the order of iterating over a map
  are arbitrary.

What turned out not to hold of the code, with the exact condition under which it does:

- A slice that marshals comes back unless it is longer than MaxInt32, which a slice bound above that
  permits (`OverlongSlice`, `RoundTrip`).
- A value that unmarshals re-marshals unless it has an array above the slice bound, which only marshal
  checks (`UnmarshalledArrayIsRefused`, `Canonical`).
- Type IDs and types stay in bijection unless an ID is handed out twice (`MovedBackLoses`,
  `InverseExactlyWhenFresh`).
- Trait pagination returns every key unless the key stands before the empty key in each requested list
  (`HiddenKeyExample`, `CompleteExactly`), and never advances with a limit of one (`LimitOneIsStuck`).
- Outbound and inbound databases mirror each other unless a chain is its own peer (`Mirrored`).
- A successful Accept is durable unless an earlier commit of the same container failed
  (`FailedCommitIsNotRetried`, `Index.Accept`).
- A container range is the slice asked for unless it passes 2^64; then blank containers are returned
  without an error (`WrappingRange`, `GetContainerRange`).
- Genesis building panics for a valid config exactly if there are several stakers and nothing to stake
  (`ValidConfigMayPanic`, `FromConfig`).

## Model

| member | source | states |
|---|---|---|
| `Locks.LockInvKept` | chains/atomic/memory.go:53-102 | Every step of a thread through makeLock, Lock, releaseLock and Unlock, with lock objects deleted and recreated, keeps: an entry's count is the number of threads between makeLock and releaseLock, and a lock is held by the thread that says so. |
| `Locks.MutualExclusion` | chains/atomic/memory.go:53-102 | At most one thread is between acquiring the lock of a shared ID and calling releaseLock on it. |
| `Locks.OnlyLockBlocks` | chains/atomic/memory.go:53-102 | A thread that cannot step waits for a lock that another thread holds; in particular releaseLock never finds its entry missing, so it never panics. |
| `Locks.HolderWantsMore` | chains/atomic/shared_memory.go:115-135 | The holder a blocked thread waits for can step or itself waits for a larger shared ID. |
| `Locks.NoDeadlock` | chains/atomic/shared_memory.go:115-135 | With locks taken in sorted order, some thread can step until all have finished. |
| `SerializabilityProof.OneMoreOp` | chains/atomic/shared_memory.go:128-154 | One more operation on the overlay is one more operation on the space itself. |
| `SerializabilityProof.PartsRun` | chains/atomic/shared_memory.go:131-163 | Committing overlays computed per shared ID on the base equals running the parts one after the other. |
| `SerializabilityProof.PartsStuck` | chains/atomic/shared_memory.go:131-154 | If one operation is refused the whole call run alone is refused. |
| `SerializabilityProof.OthersSpacesKept` | chains/atomic/shared_memory.go:64-164 | A step of one call leaves the spaces alone that another undecided call has started on. |
| `SerializabilityProof.InvKept` | chains/atomic/shared_memory.go:64-164 | Every step keeps the invariant that overlays, replies and the record of decided calls agree with running them one at a time. |
| `SerializabilityProof.Serializable` | chains/atomic/shared_memory.go:64-164 | After any interleaving of Apply, Get and Indexed the store, and each decided call's reply, are as if the decided calls had run one at a time in the recorded order. |
| `SerializabilityProof.HistoryGrows` | chains/atomic/shared_memory.go:64-164 | The recorded order only grows. |
| `SerializabilityProof.RealTimeOrder` | chains/atomic/shared_memory.go:64-164 | In every run a call decided before another one is made stands before it in the recorded order, so the one-at-a-time order respects real time. |
| `SerializabilityProof.ExclusiveAlongRuns` | chains/atomic/memory.go:53-102 | Mutual exclusion at every moment of every run of calls. |
| `SerializabilityProof.ReadsAlongRun` | chains/atomic/shared_memory.go:64-112 | A call that only reads never fails with a write error. |
| `SerializabilityProgress.PendingShrinks` | chains/atomic/shared_memory.go:64-164 | Every step of a call reduces the steps that remain. |
| `SerializabilityProgress.SomeoneCanStep` | chains/atomic/shared_memory.go:114-164 | Unless all calls are finished one can step. |
| `SerializabilityProgress.RunsEnd` | chains/atomic/shared_memory.go:64-164 | A run without new calls is no longer than the steps that remained at its start. |
| `SerializabilityProgress.CanAlwaysFinish` | chains/atomic/shared_memory.go:64-164 | From every state that keeps the invariant all calls can run to completion. |
| `SerializabilityProgress.CountsAlongRuns` | chains/atomic/memory.go:70-102 | In every reachable state an entry's count is the number of threads between makeLock and releaseLock on it, and positive. |
| `SerializabilityProgress.NeverStuck` | chains/atomic/shared_memory.go:114-164 | In every reachable state all calls have finished or one can step. |
| `SerializabilityProgress.AlwaysFinishable` | chains/atomic/shared_memory.go:64-164 | Every run can be continued until all its calls have finished. |
| `Mailbox.SetKeepsIndex` | chains/atomic/state.go:76-114 | A successful SetValue keeps the trait index exact: a key is listed under a trait if and only if it is present with that trait, and tombstones are bare. |
| `Mailbox.RemoveKeepsIndex` | chains/atomic/state.go:143-174 | A successful RemoveValue keeps the trait index exact. |
| `Mailbox.RunKeepsIndex` | chains/atomic/state.go:76-174 | The index is exact after every run of successful operations. |
| `Mailbox.RunOutcome` | chains/atomic/state.go:76-174 | A run succeeds exactly when no key is put or removed twice in a row and elements fit; then a key is present with its last put, absent or tombstoned as puts minus removes is +1, 0 or -1. |
| `Mailbox.OrderIndependence` | chains/atomic/state.go:76-174 | If each key is put at most once and removed at most once, all orders succeed and end with the same values, tombstones and trait sets. |
| `ElementCodec.MarshalsExactly` | chains/atomic/codec.go:14-22 | A dbElement marshals if and only if its encoding is within 256 KiB. |
| `ElementCodec.ElementRoundTrips` | chains/atomic/state.go:178-188 | A marshalled dbElement is loaded back unchanged. |
| `AtomicState.State.LoadValue` | chains/atomic/state.go:178-188 | Returns the stored element, not-found exactly for absent keys, or a database error. |
| `AtomicState.State.Value` | chains/atomic/state.go:51-68 | The value of a present key; removed keys read as not found. |
| `AtomicState.State.Index` | chains/atomic/state.go:95-101 | Adding a key to a trait's linked list under the trait's prefix. |
| `AtomicState.State.Unindex` | chains/atomic/state.go:166-172 | Removing a key from a trait's linked list. |
| `AtomicState.State.SetValue` | chains/atomic/state.go:76-114 | Over the two databases SetValue does what the mailbox operation does; on an error some traits may be indexed but no value has changed; without database errors it succeeds exactly when the mailbox operation does. |
| `AtomicState.State.RemoveValue` | chains/atomic/state.go:143-174 | The same for RemoveValue, including the tombstone written for an absent key. |
| `AtomicState.State.AppendTraitKeys` | chains/atomic/state.go:238-265 | Collects a trait's keys from the start key while there is room, skipping those already collected; from the head of the list if the lookup of the start key failed. |
| `AtomicState.State.GetKeys` | chains/atomic/state.go:194-232 | Computes the page and cursor of the pagination functions; with failing lookups, those of a scan in which some traits start at the head. |
| `AtomicState.State.Values` | chains/atomic/shared_memory.go:73-81 | One value per key, or the error of the first missing one. |
| `AtomicState.State.Indexed` | chains/atomic/shared_memory.go:98-111 | The values of exactly the page's keys and the cursor, also of a page scanned with failing lookups; in every state reached by puts and removes it fails only with a database error. |
| `Pagination.ScannedListed` | chains/atomic/state.go:194-265 | Whatever lookups fail, every key collected has one of the requested traits. |
| `Pagination.ReturnedPresent` | chains/atomic/state.go:194-265 | Whatever lookups fail, over an exact index every key collected has a value, and it is the one read. |
| `Pagination.RepeatedTraitsHarmless` | chains/atomic/state.go:194-232 | Requesting a trait twice changes neither keys nor cursor. |
| `Pagination.TailAt` | chains/atomic/state.go:194-265 | Resuming at the trait and key of a visit gives exactly the visits from there on. |
| `Pagination.GetKeysMeaning` | chains/atomic/state.go:194-265 | A page repeats no key; a short page holds all keys that remained; a full one stops at the visit that filled it and its cursor resumes there. |
| `Pagination.FullPageAdvances` | chains/atomic/state.go:194-265 | With a limit of at least two every full page leaves fewer visits, so paging ends. |
| `Pagination.PagesCover` | chains/atomic/state.go:194-265 | Following the cursor covers exactly the visits that remained, whatever the start, and no page repeats a key. |
| `Pagination.PagesExactly` | chains/atomic/state.go:194-265 | From the beginning, the pages hold exactly the keys that a requested trait lists and that do not stand before the empty key in that list. |
| `Pagination.CompleteExactly` | chains/atomic/state.go:194-265 | The union of the pages is exactly the keys with a requested trait if and only if no such key stands before the empty key in every requested list that has it. |
| `Pagination.CompleteWithoutEmptyKey` | chains/atomic/state.go:194-265 | With non-empty keys the union of the pages is exactly the keys with a requested trait. |
| `Pagination.HiddenKeyExample` | chains/atomic/state.go:194-265 | A reachable state in which a key put after the empty key is never returned, as a nil start key is the empty key. |
| `Pagination.LimitOneIsStuck` | chains/atomic/state.go:194-265 | With a limit of one the cursor never gets past the first visit. |
| `Pagination.NeverDangling` | chains/atomic/shared_memory.go:98-111 | Every key a page returns is present and its value can be read. |
| `SharedMemory.Mirrored` | chains/atomic/prefixes.go:14-65 | The outbound databases of a for b are the inbound databases of b for a if and only if a and b differ. |
| `SharedMemory.DirectionsApart` | chains/atomic/prefixes.go:14-65 | A chain's inbound and outbound databases never share a prefix. |
| `SharedMemory.SharedIDSymmetric` | chains/atomic/memory.go:105-116 | Both chains compute the same shared ID. |
| `SharedMemory.ApplyLocksInOrder` | chains/atomic/shared_memory.go:115-126 | The shared IDs of an Apply are strictly increasing. |
| `SharedMemory.OneOrder` | chains/atomic/shared_memory.go:115-126 | That order is determined by the requests. |
| `SharedMemory.BatchesInOrder` | chains/atomic/writer.go:12-24 | Replaying batches in order is writing the last operation on each key. |
| `SharedMemory.Memory.ApplyRequests` | chains/atomic/shared_memory.go:137-153 | Removes on the inbox, then puts on the outbox, stopping at the first error. |
| `SharedMemory.Memory.LockOrder` | chains/atomic/shared_memory.go:115-126 | The collected and sorted shared IDs visit each peer once in increasing order. |
| `SharedMemory.Memory.Apply` | chains/atomic/shared_memory.go:114-164 | Either the store is unchanged, or every remove, put and batch write has taken effect, as in the sequential meaning of the call. |
| `SharedMemory.Memory.WriteAll` | chains/atomic/writer.go:12-24 | The batches are replayed one after the other. |
| `SharedMemoryTheorems.RequestsMeaning` | chains/atomic/shared_memory.go:137-153 | Removes act on the inbox alone and puts on the outbox alone; together they succeed exactly when both do. |
| `SharedMemoryTheorems.AppliedTogether` | chains/atomic/shared_memory.go:114-164 | Apply succeeds if and only if every peer's removes and puts would succeed on their own. |
| `SharedMemoryTheorems.Delivered` | chains/atomic/shared_memory.go:114-164 | After a successful Apply each peer's inbox has received exactly the puts for it, the caller's inboxes have lost exactly its removes, and every database the call does not name is untouched. |
| `SharedMemoryTheorems.GetMeaning` | chains/atomic/shared_memory.go:64-82 | Get succeeds exactly when all keys are there, with one value per key in order. |
| `SharedMemoryTheorems.PutThenGet` | chains/atomic/shared_memory.go:64-164 | Whatever else a successful Apply does, an element it puts for a peer under a key without value or tombstone is what the peer gets. |
| `SharedMemoryTheorems.OnePutThenGet` | chains/atomic/shared_memory.go:64-164 | An Apply of one such element that can be marshalled succeeds, and the peer gets it. |
| `SharedMemoryTheorems.OwnInboxUnchanged` | chains/atomic/prefixes.go:14-65 | Whatever is put for whichever peers, the sender's own inboxes from which nothing is removed stay as they are. |
| `SharedMemoryTheorems.IndexesAlwaysExact` | chains/atomic/shared_memory.go:64-164 | In every reachable state of every concurrent run all trait indexes are exact. |
| `SharedMemoryTheorems.IndexedAlwaysSucceeds` | chains/atomic/shared_memory.go:84-112 | In every concurrent run every Indexed call that returns has succeeded. |
| `LinkedList.OneList` | database/linkeddb/linkeddb.go:37-61 | A store holds at most one list. |
| `LinkedList.ListPutMeaning` | database/linkeddb/linkeddb.go:89-134 | A put sets one key's value and keeps the others. |
| `LinkedList.PutInPlace` | database/linkeddb/linkeddb.go:94-103 | Rewriting a node updates its entry where it is. |
| `LinkedList.PutAtFront` | database/linkeddb/linkeddb.go:105-134 | The writes of a put on an absent key represent the list with the entry in front. |
| `LinkedList.RemoveFromStore` | database/linkeddb/linkeddb.go:136-200 | The writes of a delete represent the list without the entry, whether it was the head, in the middle or last. |
| `LinkedDB.LinkedDB.GetHeadKey` | database/linkeddb/linkeddb.go:250-275 | The head key or its absence, from the cache or the database, keeping the caches coherent. |
| `LinkedDB.LinkedDB.GetNode` | database/linkeddb/linkeddb.go:290-321 | The node or its absence, from the cache or the database, keeping the caches coherent. |
| `LinkedDB.LinkedDB.PutHeadKey` | database/linkeddb/linkeddb.go:277-282 | The pending head key describes the pending batch. |
| `LinkedDB.LinkedDB.DeleteHeadKey` | database/linkeddb/linkeddb.go:284-288 | The pending absence of a head describes the pending batch. |
| `LinkedDB.LinkedDB.PutNode` | database/linkeddb/linkeddb.go:323-330 | The pending node describes the pending batch; fails exactly if the node cannot be marshalled. |
| `LinkedDB.LinkedDB.DeleteNode` | database/linkeddb/linkeddb.go:332-335 | The pending removal describes the pending batch. |
| `LinkedDB.LinkedDB.ResetBatch` | database/linkeddb/linkeddb.go:337-343 | Nothing is pending. |
| `LinkedDB.LinkedDB.WriteBatch` | database/linkeddb/linkeddb.go:345-358 | A successful write moves what was pending into coherent caches; a failed one changes nothing. |
| `LinkedDB.LinkedDB.Put` | database/linkeddb/linkeddb.go:89-134 | The list becomes the one with the entry updated in place or prepended; on failure nothing changes and the caches still agree with the database; it fails only if the database does or a node cannot be marshalled. |
| `LinkedDB.LinkedDB.Delete` | database/linkeddb/linkeddb.go:136-200 | The list becomes the one without the key; on failure nothing changes; fails only if the database does or a node cannot be marshalled. |
| `LinkedDB.LinkedDB.HasKey` | database/linkeddb/linkeddb.go:74-79 | Whether the key is in the list. |
| `LinkedDB.LinkedDB.Get` | database/linkeddb/linkeddb.go:81-87 | The key's value in the list, through the cache. |
| `LinkedDB.LinkedDB.Head` | database/linkeddb/linkeddb.go:217-227 | The first entry of the list. |
| `LinkedDB.Iterator.WithStart` | database/linkeddb/linkeddb.go:237-248 | Iteration begins at the start key, or at the head if it is absent or its lookup fails. |
| `LinkedDB.Iterator.Next` | database/linkeddb/linkeddb.go:367-417 | Yields the first remaining entry; ends early only on an error. |
| `LinkedDB.ListFrom` | database/linkeddb/linkeddb.go:237-248 | An iteration without errors gives the suffix from the start key, or the whole list, each key once. |
| `NodeCodec.FormatRoundTrips` | database/linkeddb/codec.go:22-29 | Every node that can be marshalled is read back unchanged. |
| `NodeCodec.SmallNodesEncode` | database/linkeddb/codec.go:22-29 | Nodes with parts up to half a gigabyte can be marshalled. |
| `CodecRoundTrip.RoundTrip` | codec/reflectcodec/type_codec.go:86-372 | For every type, value and trailing bytes, what marshal produces unmarshals to the value with the trailing bytes left over if and only if all slices are at most MaxInt32 long and all type IDs lead back to their types. |
| `CodecRoundTrip.OverlongSlice` | codec/reflectcodec/type_codec.go:138-160 | With a bound above MaxInt32 there is a slice that marshals and does not come back. |
| `CodecCanonical.Canonical` | codec/reflectcodec/type_codec.go:86-372 | Bytes that unmarshal to a value are the bytes it marshals to; it is refused by marshal if and only if one of its arrays exceeds the slice bound. |
| `CodecCanonical.UnmarshalledArrayIsRefused` | codec/reflectcodec/type_codec.go:161-315 | One byte unmarshals to an array of one byte that marshal refuses under a slice bound of 0. |
| `Bytes.BigEndianRoundTrip` | utils/wrappers/packing.go:110-176 | Reading back a packed integer gives the integer. |
| `Bytes.BigEndianCanonical` | utils/wrappers/packing.go:110-176 | Packing a read integer gives the bytes. |
| `ReflectCodec.Marshal` | codec/reflectcodec/type_codec.go:86-191 | Appends to the packer exactly the encoding, if there is one and it fits, for every kind of type including the fast path for bytes. |
| `ReflectCodec.MarshalElements` | codec/reflectcodec/type_codec.go:155-176 | The loop over elements appends the encoding of all of them. |
| `ReflectCodec.MarshalFields` | codec/reflectcodec/type_codec.go:177-187 | The loop over fields appends the encoding of all of them. |
| `ReflectCodec.Unmarshal` | codec/reflectcodec/type_codec.go:218-372 | Reads from the packer exactly the value the bytes decode to, and leaves the rest. |
| `ReflectCodec.UnmarshalElements` | codec/reflectcodec/type_codec.go:274-323 | The loop over elements reads all of them. |
| `ReflectCodec.UnmarshalFields` | codec/reflectcodec/type_codec.go:342-354 | The loop over fields reads all of them. |
| `Packing.Packer.PackFixedBytes` | utils/wrappers/packing.go:203-211 | Appends the bytes if they fit in the size bound. |
| `Packing.Packer.UnpackFixedBytes` | utils/wrappers/packing.go:215-224 | Reads the next bytes or fails. |
| `LinearCodec.TypeCodec.RegisterType` | codec/linearcodec/codec.go:74-87 | Registers an unregistered type under the next ID. |
| `LinearCodec.TypeCodec.SkipRegistrations` | codec/linearcodec/codec.go:66-70 | Moves the 32-bit counter, wrapping around. |
| `LinearCodec.IdsAlwaysLeadToTypes` | codec/linearcodec/codec.go:66-119 | After any run every registered ID is the ID of its type. |
| `LinearCodec.InverseExactlyWhenFresh` | codec/linearcodec/codec.go:66-119 | After any run the two maps are inverse to each other if and only if no registration took an ID in use. |
| `LinearCodec.ForwardRunsAreFresh` | codec/linearcodec/codec.go:66-87 | Runs that only skip forward and hand out at most 2^32 IDs never reuse one. |
| `LinearCodec.MovedBackLoses` | codec/linearcodec/codec.go:66-87 | Skipping back hands out an ID twice and loses a type. |
| `CodecManager.Manager.RegisterCodec` | codec/manager.go:74-83 | A version is registered once. |
| `CodecManager.Manager.Marshal` | codec/manager.go:93-115 | The version and the encoding, within the size bound, or the error that applies. |
| `CodecManager.Manager.Unmarshal` | codec/manager.go:119-146 | The version and the value, all bytes consumed, or the error that applies. |
| `CodecManager.MessageRoundTrip` | codec/manager.go:93-146 | A marshalled faithful value unmarshals to itself and its version. |
| `CodecManager.MessageCanonical` | codec/manager.go:93-146 | Bytes that unmarshal re-marshal to themselves, or marshal refuses an oversized array. |
| `CodecManager.RegisteredCodecs` | codec/linearcodec/codec.go:74-119 | Codecs built by any run of registrations meet what canonicity needs, and all their types come back exactly when no ID was reused. |
| `Genesis.InitialSupply` | genesis/config.go:126-142 | The sum of all amounts, or an error exactly if it does not fit in 64 bits. |
| `Genesis.DealBalanced` | genesis/genesis.go:478-511 | Dealing out an unlock keeps all finished groups at the node weight and loses no amount. |
| `Genesis.DealAmount` | genesis/genesis.go:478-511 | Dealing out an unlock gives each amount to the same addresses and lock time. |
| `Genesis.DealAllAmount` | genesis/genesis.go:471-516 | No unit is lost, made up or given to somebody else. |
| `Genesis.GroupCount` | genesis/genesis.go:466-518 | Full groups and a remainder determine the number of groups. |
| `Genesis.DealUnlock` | genesis/genesis.go:478-511 | The inner loop computes the recursive specification. |
| `Genesis.SplitAllocations` | genesis/genesis.go:458-519 | N groups (one if there is nothing to split), the first N-1 of weight floor(T/N), the last with the remainder, amounts per addresses and lock time preserved, initial amounts zeroed; no groups requested divides by zero. |
| `GenesisAccounting.XHolders` | genesis/genesis.go:271-291 | The X-chain holders have exactly the initial amounts, in total and per address. |
| `GenesisAccounting.PlatformUtxos` | genesis/genesis.go:338-364 | Unstaked allocations become UTXOs for positive unlocks; staked ones are put aside. |
| `GenesisAccounting.StakedUtxos` | genesis/genesis.go:379-398 | A group's unlocks become its validator's UTXOs. |
| `GenesisAccounting.FromConfig` | genesis/genesis.go:253-456 | X-chain holders, unstaked and staked UTXOs together are the initial supply, per address and lock time; validators get equal shares and the last one the remainder; panics exactly with no stakers or with several and nothing to stake. |
| `GenesisAccounting.ValidConfigMayPanic` | genesis/genesis.go:50-165 | A validated config that panics: two stakers and staked funds without a schedule. |
| `Network.PeersKept` | network/network.go:343-371 | Every step keeps the connecting and connected sets disjoint and equal to the live peer objects by their stage. |
| `Network.TrackersKept` | network/network.go:383-447 | Every step keeps the unstopped trackers exactly those in trackedIPs. |
| `Network.TrackedApartKept` | network/network.go:757-797 | Every step keeps connected nodes untracked. |
| `Network.RouterKept` | network/network.go:343-371 | Every step keeps what the router was told in sessions: the primary network, then each of the peer's subnets once, then disconnected; in line with what the connected peers have told. |
| `Network.InvKept` | network/network.go:757-1084 | Every step of callbacks, tracking, dialers, upgrades and closing keeps the invariant. |
| `Network.ConnectionSafety` | network/network.go:343-1084 | In every reachable state connecting and connected are disjoint and without this node, no connected node is tracked, and every tracker outside trackedIPs is stopped. |
| `Network.RouterAlternates` | network/network.go:343-466 | Per node the router hears exactly the primary network and the subnets its peer has told so far, in sessions ended by a disconnect; on the primary network connect and disconnect alternate. |
| `Network.ConnectedIsExpected` | network/network.go:344-353 | Connected never takes its error branch. |
| `Network.NothingStartsAfterClose` | network/network.go:987-1084 | Once closing, no peer starts connecting for the rest of the run. |
| `Network.TimestampsGrow` | network/network.go:421-434 | While a node stays tracked its address only gets more recent. |
| `Indexer.NewIndex` | indexer/index.go:77-114 | Opening a base database resumes exactly the containers it holds, or fails with a database error. |
| `Indexer.Index.Accept` | indexer/index.go:131-181 | Whatever access fails, the base holds inverse maps of an initial part of the accepted containers in order; a success is durable unless an earlier commit of the same container had failed. |
| `Indexer.Index.GetContainerByIndex` | indexer/index.go:187-219 | The container at the index, and not found exactly beyond the last one. |
| `Indexer.Index.GetContainerRange` | indexer/index.go:225-259 | The contiguous slice clipped at the last accepted index if and only if the range does not pass 2^64; otherwise as many blank containers as were asked for and no error; and the error cases. |
| `Indexer.WrappingRange` | indexer/index.go:243-258 | A range of four containers that passes 2^64: four blank containers are returned while the list has one. |
| `Indexer.Index.GetIndex` | indexer/index.go:262-267 | The index under which the container is found. |
| `Indexer.Index.GetContainerByID` | indexer/index.go:269-279 | The container with the ID. |
| `Indexer.Index.GetLastAccepted` | indexer/index.go:283-292 | The last accepted container. |
| `Indexer.InverseIsOneToOne` | indexer/index.go:131-181 | No container is indexed twice. |
| `Indexer.Restart` | indexer/index.go:77-114 | A restart after a crash resumes with what was durable, or fails with a database error. |
| `Indexer.AcceptedIsListed` | indexer/index.go:131-181 | An acceptance without a fault lists its container, and it is durable if and only if it was not waiting in the overlay. |
| `Indexer.FailedCommitIsNotRetried` | indexer/index.go:131-181 | A container whose commit failed stays out of the base when it is accepted again, successfully. |
| `Indexer.DurableGrows` | indexer/index.go:131-181 | Over any run of acceptances, failures and crashes the durable list only grows at its end. |
| `Indexer.IndexedOnce` | indexer/index.go:131-181 | Over any run each ID is indexed once, with a container it was offered with. |
| `MemoryDB.MemDB.KeysFrom` | database/memdb/db.go:130-138 | The keys with the prefix not before the start, sorted. |
| `MemoryDB.MemDB.NewIterator` | database/memdb/db.go:122-148 | A snapshot of exactly those keys with their values. |
| `MemoryDB.OneVisit` | database/memdb/db.go:122-148 | There is one such sequence of keys. |
| `MemoryDB.Batch.Write` | database/memdb/db.go:193-210 | Writing a batch is applying its operations in order. |
| `MemoryDB.Batch.Replay` | database/memdb/db.go:221-232 | Replaying appends the operations to the other batch. |
| `MemoryDB.Iterator.Next` | database/memdb/db.go:245-267 | Moves to the first remaining entry unless the database is closed. |
| `PrefixDB.WriteInView` | database/prefixdb/db.go:101-128 | A write through a prefix is a write to its view. |
| `PrefixDB.WriteOutsideView` | database/prefixdb/db.go:210-226 | It changes no view under another prefix of the same length. |
| `PrefixDB.WritesInView` | database/prefixdb/db.go:249-274 | The same for whole batches. |
| `PrefixDB.ViewVisits` | database/prefixdb/db.go:151-167 | The underlying iteration without the prefix is the view's own sorted start and prefix iteration. |
| `PrefixDB.ChildrenDiffer` | database/prefixdb/db.go:41-49 | Children of prefix databases have the same name only if parents and prefixes are the same. |
| `PrefixDB.Isolated` | database/prefixdb/db.go:41-63 | Under collision-free hashing of the names in use, each name is a store of its own. |
| `PrefixDB.PrefixDB.Get` | database/prefixdb/db.go:84-95 | Reads the view. |
| `PrefixDB.PrefixDB.Put` | database/prefixdb/db.go:101-112 | Changes the view at one key and no other prefix. |
| `PrefixDB.PrefixDB.Delete` | database/prefixdb/db.go:117-128 | Removes one key from the view and changes no other prefix. |
| `PrefixDB.PrefixDB.NewIterator` | database/prefixdb/db.go:151-167 | Iterates exactly the view's keys with the prefix not before the start, in order, with their values. |
| `PrefixDB.PrefixBatch.Flush` | database/prefixdb/db.go:266-274 | Applies the batch's operations in order to the view and to no other. |
| `PrefixDB.PrefixBatch.Replay` | database/prefixdb/db.go:298-312 | Gives the operations without the prefix. |
| `PrefixDB.PrefixIterator.Next` | database/prefixdb/db.go:323-345 | Moves to the first remaining entry of the view. |
| `RpcBatch.AnyOrder` | database/rpcdb/db_client.go:181-229 | The last writes to each key, each once and in whatever order, have the effect of replaying all writes. |
| `RpcBatch.Permuted` | database/rpcdb/db_client.go:181-229 | A reordering of the last writes is the last writes again. |
| `RpcBatch.AnyReordering` | database/rpcdb/db_client.go:181-229 | Any reordering of the puts and deletes sent has the effect of replaying all writes. |
| `RpcBatch.Server.WriteBatch` | database/rpcdb/db_server.go:112-149 | Collects the requests of a batch and writes them atomically when the last one arrives; a put, delete or write that fails frees the batch and changes nothing; other batches are untouched. |
| `RpcBatch.WriteBatch` | database/rpcdb/db_client.go:181-229 | Every request sent is within the size limit or has one element; a success has sent the last write to each key once and nothing else, in an order that does not matter, and leaves the remote database as if all writes had been replayed; a failure leaves it so or unchanged. |
| `Lru.HoldsMostRecent` | cache/lru_cache.go:58-136 | After any run of puts, gets, evictions and flushes the cache holds the newest of the last touches of keys not evicted since, in order and with their values, no more than fit; and a key is held if and only if since its last put it has always been among the most recent ones that fit. |
| `Lru.FullWithoutEvictions` | cache/lru_cache.go:58-136 | Without evictions it holds as many of them as fit. |
| `Lru.PutCases` | cache/lru_cache.go:80-106 | The three branches of put are one operation. |
| `Lru.Cache.Put` | cache/lru_cache.go:80-106 | Map and list stay in bijection and the contents are those of the operation. |
| `Lru.Cache.Get` | cache/lru_cache.go:108-119 | The stored value of a kept key, which becomes the most recent. |
| `Lru.Cache.Evict` | cache/lru_cache.go:121-129 | Removes the key. |
| `Lru.Cache.Flush` | cache/lru_cache.go:131-136 | Empties map and list. |
| `Lru.Cache.Resize` | cache/lru_cache.go:70-78 | Keeps the newest entries. |
| `UniqueCache.EvictableLRU.Resize` | cache/unique_cache.go:47-56 | The oldest objects over the size leave, each told once and in order. |
| `UniqueCache.EvictableLRU.Deduplicate` | cache/unique_cache.go:58-84 | Returns the live object of the key or the new one, as the most recent; exactly the objects that leave are told, once each. |
| `UniqueCache.EvictableLRU.Flush` | cache/unique_cache.go:86-93 | All objects leave and are told once. |
| `Bits.EqualSubset` | ids/bits.go:21-62 | Holds if and only if all bits of the range agree; a range beyond the last bit never does. |
| `Bits.FirstDifferenceSubset` | ids/bits.go:67-128 | The least bit of the range on which the IDs differ, or none. |
| `Bits.MaskedEqual` | ids/bits.go:38-61 | Masked bytes are equal exactly when the bytes agree on the bits kept. |
| `Bits.MaskedFirst` | ids/bits.go:76-105 | The lowest bit in which masked bytes differ is the first differing bit in range. |
| `Bag.Bag.SetThreshold` | ids/bag.go:38-50 | The threshold set is exactly the votes seen at least that often. |
| `Bag.Bag.AddCount` | ids/bag.go:62-80 | Size, mode and threshold set stay exact; the mode changes only when passed. |
| `Bag.Bag.Add` | ids/bag.go:53-57 | Adds the votes, each once. |
| `Bag.Bag.Equals` | ids/bag.go:102-112 | The one-sided comparison decides equality of the bags. |
| `Bag.Filter` | ids/bag.go:125-133 | The votes that agree with the ID on the range, with their counts. |
| `Bag.Split` | ids/bag.go:138-145 | Two bags that together are all votes, by the bit. |

## Left out

- Lru.HoldsMostRecent: is about a cache whose Size field is not reassigned during the run; the contracts of the class hold for any size at each call.
- Indexer.Index.Accept: does not model the wrap of the counter after 2^64 - 1 containers, which no node reaches.
- PrefixDB.PrefixBatch.Flush: is the batch's Write, renamed; pooled key buffers are not modelled, so neither is their reuse.
- LinkedDB.LinkedDB.Head: IsEmpty and HeadKey would only repeat it; the list's own mutexes are not modelled.
- GenesisAccounting.XHolders: the memo bytes and the order of holders with equal amount and address.
- SharedMemory.Memory.Apply: is one chain's call; how calls of several chains interleave is in the step machine, where a mailbox is one cell of the overlay.
- Network: is modelled as a step machine on values and not as a class, because its properties are about interleavings of goroutines; delays and back-off of dialers are not modelled.
- Locks: sync.Mutex is modelled as a holder field; fairness and the Go memory model are not.
- Codec: reflection, struct tags and nil checks are modelled by a universe of types and values; error texts by their absence. Types are finite trees, so a struct that contains pointers to or slices of itself is outside of the universe.
- api/server/router.go: route aliases and the HTTP server.
- database/leveldb, versiondb internals, meterdb, corruptabledb and encdb: foreign code or wrappers.
- message/codec.go and the message builders: they would repeat the codec's results for other types.
- network: peer handshakes, throttling, metrics, health checks, uptime and peer sampling.
- Formatting of addresses, certificates, hashing and signatures.
- Node start-up, configuration, API services, RPC clients, consensus and virtual machines.
