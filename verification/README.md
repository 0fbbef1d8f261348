# A Dafny model of bgmchain's stateful cores

bgmchain is a DPoS fork of an Ethereum node. This project models the parts of it that keep state
incrementally and proves that the incremental state is what it should be after every operation, every run
or every interleaving:

- the **transaction pool** (`TxSortedMap.dfy`, `TxList.dfy`, `TxPricedList.dfy`, `PoolAccounts.dfy`,
  `PoolReorg.dfy`, `PoolState.dfy`, `PoolPromotion.dfy`, `PoolTruncation.dfy`, `PoolQueueLimit.dfy`,
  `PoolOperations.dfy`, `PoolReset.dfy`, `TxPool.dfy`, with `BinaryHeap.dfy`, `NonceMaps.dfy`,
  `WaterLevel.dfy` and `MapSums.dfy` underneath);
- **canonical chain selection** (`Chains.dfy`, `ChainWalks.dfy`, `HeaderChain.dfy`, `BlockChain.dfy`);
- the **parallel Merkle hasher** against its sequential reference (`Bmt.dfy`, `BmtHasher.dfy`,
  `BmtChunk.dfy`);
- **weighted random selection** (`RandSelect.dfy`, `WeightedSelect.dfy`);
- **feed delivery** (`Feed.dfy`) and **section indexing** (`IndexerStore.dfy`, `IndexerRace.dfy`,
  `ChainIndexer.dfy`, `IndexerChain.dfy`) under any interleaving;
- **gas accounting** of transactions and blocks and the **nonces** they leave (`Gas.dfy`, `GasBlocks.dfy`,
  `ChainNonces.dfy`, `BlockNonces.dfy`);
- the **light pool** over its whole life (`LightPool.dfy`);
- **message-code multiplexing** (`PeerProtocols.dfy`) and **frame encoding** (`Rlpx.dfy`,
  `RlpxFrames.dfy`) of the RLPx specification, sections "Capability Messaging" and "Framing".

`Traces.dfy` says what a run of a state machine is; `Numbers.dfy` and `Transactions.dfy` hold what several
models share. `dafny verify dfyconfig.toml` checks the whole project.

How the model is set up:

- Hashes are collision-free: a transaction or block stands for its own hash, and a block carries its parent.
- Loops over mutable state are methods on values with loop invariants; the objects of the source are classes
  whose methods assign the result. A specification function or predicate says what each operation does to an
  account, a tree, a table or a list, and lemmas prove what the source promises about it.
- Map iteration order, random numbers, coin tosses, heartbeats and goroutine schedules are arbitrary choices
  (`:|`, parameters, or lists of events), so results hold for all of them. An event list covers every
  interleaving: an event that is not possible at its turn is one that does not happen. A run returns the
  states between its events; each event leads from one to the next as its relation says, and the invariant
  holds at every one of them.
- Each operation under a lock is one step. Where the source lets go of the lock or works concurrently (the
  indexer's section processing and its cuts, a Send in progress, the hasher's goroutines and its finalise)
  the steps in between are separate, down to single accesses where they can meet. Taken as one step are the
  decrement of the stored sections, the removal of a section head with the read of its number, the toggle of a
  node with the test of its balance, the reads of both children, and the two writes of finalise at one node.

Places where the code does not do what its surroundings suggest; the model follows the code and gives the
exact condition:

- The pool's tests expect the pending and queued transactions to make up `all` (core/tx_pool_test.go:92-119).
  `removeTx` works by nonce and forgets the rest of a pending list without queueing it when the list becomes
  empty (core/tx_pool.go:878-886). `PoolStates.RemovalForgets` says for every pool when another transaction
  leaves the lists, `PoolStates.RemovalKeepsAllHeld` when the tests' equality survives, and
  `PoolStates.RemovalForgetsTwice` shows both ways to lose one. The pool invariant states inclusion.
- A reset that reinjects transactions can leave a pending list with a gap, or expect a nonce below the state
  nonce. `PoolReorgs.ResetIsExecutable` says for every account without a gap before whether it has one when the
  reset is through, `PoolResets.Reset` carries this over to the pool, and `PoolReorgs.ReinjectionLeavesGap` shows
  a gap. Without reinjection there is none.
- A transaction that fails after buying gas does not give the gas back to the block's pool
  (core/state_transition.go:221-246, core/state_processor.go:108-112). `GasBlocks.ApplyTransaction` says what
  is taken in each case and when pool and used gas keep their sum, `GasBlocks.FailureLosesGas` shows a loss.
- A failing reset of an index backend cuts the index back without the lock (core/chain_indexer.go:343-346), so
  its writes can fall between those of a reorg. `IndexerRaces.BadInterleaving` shows a record without heads,
  `IndexerRaces.MeetingExactly` and `ChainIndexers.FirstMeeting` say exactly when every interleaving is harmless.
- The index records a section if the section before still ends where the processing started
  (core/chain_indexer.go:301), so a reorg that is announced after a section was read and before it is recorded can
  leave it a head that is not on the chain. `IndexedChains.StaleSection` shows such a run and
  `IndexedChains.NoSectionAfterStale` what becomes of the next section. `IndexedChains.LawfulExactly` says that the
  recorded heads are on the way to a head of the chain up to a state exactly if no such section was recorded, and
  `IndexedChains.NotOvertaken` that this takes a reorg from below the last block read.
- The light pool looks at the chain's head when it checks a nonce (light/txpool.go:353-356) and at its own when it
  keeps its books, so it can take a transaction that it has recorded as mined. `LightPools.OfferedAgain` shows it;
  `LightPools.OffersKeepExactly` says that no offer to any pool does so if and only if in no account the state nonce
  of the chain's head is below that of the pool's head, as it never is if the chain's head descends from it.
- A frame size that wraps around 32 bits passes the check and is announced wrapped (p2p/rlpx.go:610-614).
  `RlpxFrames.ReadBackExactly` says that an accepted message is read back if and only if it fits into one frame,
  `RlpxFrames.WrappedIsLost` shows one that does not.
- For an odd number of segments the Merkle hasher can take more than the chunk holds (bmt/bmt.go:342-366).
  `BmtChunk.Write` says how much it takes and exactly when that stays within the chunk, `BmtChunk.Overfilled` shows
  a case where it does not.

## Model

| member | source | states |
|---|---|---|
| BinaryHeap.Push | core/tx_list.go:38-40 | the pushed slice is still a heap and holds the old elements and the new one |
| BinaryHeap.Pop | core/tx_list.go:42-48 | a least element comes out, the rest is a heap of exactly the other elements |
| BinaryHeap.Init | core/tx_list.go:113-118 | re-heapifying any slice gives a heap of the same elements |
| BinaryHeap.Remaining | core/tx_list.go:159-164 | removing at an index takes out that element and leaves a heap of the others |
| Sorting.Sort | core/tx_list.go:205-211 | a sorted permutation of the input |
| SortedMaps.TxSortedMap.constructor | core/tx_list.go:59-64 | an empty map with empty index and no cache |
| SortedMaps.TxSortedMap.Put | core/tx_list.go:73-79 | the nonce map with the entry set; the index stays a duplicate-free min-heap of the keys, the cache is dropped |
| SortedMaps.TxSortedMap.Forward | core/tx_list.go:84-98 | exactly the nonces below the threshold leave, in ascending order; a cache stays the sorted contents |
| SortedMaps.TxSortedMap.Filter | core/tx_list.go:102-123 | exactly the selected transactions leave, each once; index and cache stay exact |
| SortedMaps.TxSortedMap.Cap | core/tx_list.go:127-147 | the lowest nonces stay, the others come out, each once and highest nonce first; a cache keeps its prefix |
| SortedMaps.TxSortedMap.Remove | core/tx_list.go:152-169 | that nonce alone leaves, wherever it is in the heap; false exactly if it was absent |
| SortedMaps.TxSortedMap.Ready | core/tx_list.go:178-193 | the maximal consecutive run from the least nonce, if that is at most the start, and nothing else |
| SortedMaps.TxSortedMap.Flatten | core/tx_list.go:203-216 | the contents sorted by nonce, from the cache or freshly sorted, and the same either way |
| SortedMaps.PopRun | core/tx_list.go:178-193 | popping while nonces follow each other gives the run as a function of the map |
| SortedMaps.PopAbove | core/tx_list.go:127-147 | sorting the index and dropping from its end is the map cut to its lowest nonces |
| NonceMaps.SortedIsFlat | core/tx_list.go:203-216 | any sorted permutation of the contents is the one ascending listing |
| NonceMaps.FlatSplit | core/tx_list.go:84-98 | the listing is the listing below a nonce followed by the listing from it on |
| TxLists.TxListObject.Add | core/tx_list.go:252-273 | accepted exactly if the nonce is new or the price beats the old one by the bump; the caps rise to cover it; a replaced transaction was strictly cheaper |
| TxLists.TxListObject.Filter | core/tx_list.go:291-315 | with or without the early exit, exactly the unpayable ones leave, and in strict mode everything above the lowest of them is returned as invalid |
| TxLists.TxListObject.Remove | core/tx_list.go:326-337 | the transaction leaves; in strict mode all higher nonces leave too and are returned |
| TxLists.TxListObject.Forward | core/tx_list.go:278-280 | the nonces below the threshold leave in ascending order |
| TxLists.TxListObject.Cap | core/tx_list.go:319-321 | the lowest nonces stay, the others come out highest first |
| TxLists.TxListObject.Ready | core/tx_list.go:346-348 | the ready run of the underlying map |
| TxLists.TxListObject.Flatten | core/tx_list.go:363-365 | the sorted contents |
| TxLists.AddedIsValid | core/tx_list.go:264-272 | costcap and gascap bound every stored transaction after an addition |
| TxLists.ReplacementsRaise | core/tx_list.go:252-273 | over any run of replacements at one nonce each raises the price by the bump, up to rounding |
| TxLists.EarlyExitIsFullScan | core/tx_list.go:293-295 | when both caps are within the limits a full scan would remove nothing |
| TxLists.StrictFilterCuts | core/tx_list.go:299-314 | strict filtering leaves exactly the nonces below the lowest unpayable one |
| TxLists.FilterItems | core/tx_list.go:291-315 | the two filter passes of the source compute the strict cut |
| PricedLists.PushOne | core/tx_list.go:404-406 | the heap covers the new transaction as well |
| PricedLists.CountRemoved | core/tx_list.go:411-425 | below a quarter of stale entries only the counter moves, else the heap is rebuilt to exactly the known transactions |
| PricedLists.CapPrices | core/tx_list.go:429-456 | exactly the known non-local transactions below the threshold come out and everything else stays covered |
| PricedLists.IsUnderpriced | core/tx_list.go:460-482 | equals the minimum-price scan over all known transactions for a non-local one, and is false for a local one |
| PricedLists.DiscardCheapest | core/tx_list.go:486-509 | at most the wanted number of known non-local transactions; none that stays is cheaper, and fewer only if all go |
| PricedLists.HeadIsCheapest | core/tx_list.go:460-482 | the heap head that is known is a cheapest known transaction |
| PoolAccounts.PromotedIsSound | core/tx_pool.go:906-956 | promotion leaves no nonce in both lists and holds nothing new |
| PoolAccounts.PromotedIsExecutable | core/tx_pool.go:906-956 | promotion extends the interval from the state nonce to the next expected nonce |
| PoolAccounts.PromotedIsClean | core/tx_pool.go:906-956 | afterwards nothing that is queued could be executed next, is below the state nonce or too dear, and the queue is within its limit |
| PoolAccounts.PromotedKeeps | core/tx_pool.go:906-956 | whatever is queued and can be included and paid for is pending afterwards, or still queued, or beyond the limit |
| PoolAccounts.NextIsPromoted | core/tx_pool.go:906-956 | a payable transaction at the next nonce of a gap-free account is promoted |
| PoolAccounts.RemovedIsExecutable | core/tx_pool.go:862-901 | removal shortens the executable interval to the removed nonce |
| PoolAccounts.DemotedIsSound | core/tx_pool.go:1073-1113 | demotion leaves no nonce in both lists and holds nothing new |
| PoolAccounts.DemotedIsClean | core/tx_pool.go:1073-1113 | afterwards what is pending can be included and paid for and starts at the state nonce |
| PoolAccounts.DemotedKeeps | core/tx_pool.go:1073-1113 | whatever is pending and can be included and paid for stays pending or is queued again |
| PoolAccounts.TruncatedIsSound | core/tx_pool.go:958-1027 | cutting a pending list keeps the lists disjoint |
| PoolAccounts.TruncatedIsExecutable | core/tx_pool.go:958-1027 | cutting to the lowest nonces leaves an interval that ends at the lowest cut nonce |
| PoolAccounts.RemovedForgets | core/tx_pool.go:862-901 | for any account and transaction: another transaction leaves the lists if and only if the removed nonce is the lowest of several pending ones or is listed with another transaction |
| PoolReorgs.ResetIsExecutable | core/tx_pool.go:353-432 | for any account after a change of head, before anything is promoted, and whatever the queue limit drops on the way: executable when the reset is through if and only if it was so after demotion and renumbering, or the last pending limit takes something from below its gap |
| PoolReorgs.SettledIsExecutable | core/tx_pool.go:353-428 | executable after demotion and renumbering if and only if no usable run from the state nonce ends below older pending nonces that the limit keeps and the sender can pay, and, where the state nonce went forward, nothing below it was discarded or cut before demotion |
| PoolReorgs.EndedGap | core/tx_pool.go:906-1027 | promotion never fills the first nonce of a gap, and the pending limit closes the gap if and only if it takes something from below it |
| PoolReorgs.SettledBack | core/tx_pool.go:353-432 | the case in which the state nonce went back: executable, or two pending runs with a gap at the end of the moved run |
| PoolReorgs.SettledPast | core/tx_pool.go:353-432 | the case in which the state nonce went forward: executable, or the next nonce is below the state nonce |
| PoolReorgs.RemovedIsReloaded | core/tx_pool.go:862-901 | removals while the discarded branch is offered keep the pending run where the old state nonce put it |
| PoolReorgs.LowestOfRuns | core/tx_pool.go:958-1027 | the lowest nonces of two runs are the first run and then the start of the second |
| PoolReorgs.ReinjectionLeavesGap | core/tx_pool.go:353-432 | an executable account with nonce 5 pending, a head that goes back to nonce 3 and only nonce 3 reinjected: 3 and 5 are pending when the reset is through |
| WaterLevel.FairLevelUnique | core/tx_pool.go:958-1027 | the fair shares depend on the lengths and limits alone, not on the order of treatment |
| WaterLevel.FilledMonotone | core/tx_pool.go:958-1027 | a higher level never gives a smaller total |
| PoolStates.EnqueueTx | core/tx_pool.go:677-698 | accepted exactly if the queue list accepts it; the replaced one leaves `all`, the new one enters it and the price heap |
| PoolStates.PromoteTx | core/tx_pool.go:715-748 | moves a transaction to the pending list with its outcome for `all` and the next nonce |
| PoolStates.PromoteFresh | core/tx_pool.go:715-748 | as no nonce is in both lists, a promoted transaction never meets an existing entry |
| PoolStates.RemoveTx | core/tx_pool.go:862-901 | an unknown transaction changes nothing; a known one leaves `all` and its account becomes the removed account, other accounts are untouched |
| PoolStates.RemovalForgets | core/tx_pool.go:862-901 | for any pool: removing a known transaction takes another one off the lists if and only if its nonce is the lowest of several pending ones or is listed with another transaction |
| PoolStates.RemovalKeepsAllHeld | core/tx_pool_test.go:92-119 | where `all` is exactly what the lists hold, as the tests expect, removal keeps it so if and only if the nonce is not the lowest of several pending ones |
| PoolStates.RemovalForgetsTwice | core/tx_pool.go:862-901 | nonces 5 and 6 pending: removing 5 leaves 6 known and unlisted, and removing that one later takes its queued replacement off the lists as well |
| PoolStates.AccountChange | core/tx_pool.go:862-901 | a sound change of one account keeps all pool invariants |
| PoolPromotion.PromoteAccount | core/tx_pool.go:915-956 | old and unpayable queued transactions go, the ready run moves to pending, a non-local queue is capped: exactly the promoted account |
| PoolPromotion.PromoteRun | core/tx_pool.go:937-941 | promoting the ready run one by one moves exactly the run |
| PoolPromotion.DemoteAccount | core/tx_pool.go:1073-1113 | mined, unpayable and invalidated transactions are forgotten or queued again: exactly the demoted account |
| PoolTruncation.TruncatePending | core/tx_pool.go:958-1027 | over the limit, every non-local account keeps exactly its lowest nonces up to one fair level, local accounts are untouched |
| PoolTruncation.CapByOne | core/tx_pool.go:986-999 | capping a list by one drops its highest nonce and lowers the next nonce to it at most |
| PoolTruncation.CapRound | core/tx_pool.go:985-1001 | one round lowers each leading account by one and the counter by as many |
| PoolTruncation.Equalize | core/tx_pool.go:974-1003 | the leaders are lowered together until they reach the threshold or the total fits |
| PoolTruncation.PopLongest | core/tx_pool.go:974-977 | the next offender is a longest remaining list |
| PoolTruncation.CountLens | core/tx_pool.go:958-961 | the counter is the true sum of the list lengths |
| PoolTruncation.CutToSlots | core/tx_pool.go:1005-1025 | the second loop lowers the offenders to the guaranteed slots or until the total fits |
| PoolTruncation.FairAfter | core/tx_pool.go:958-1027 | where the loops stop is the fair level |
| PoolQueueLimit.LimitQueues | core/tx_pool.go:1043-1066 | excess is taken from the last accounts of the order, whole queues first, then from the top of one queue: where a queue has lost something all later ones are empty |
| PoolQueueLimit.KeptTotal | core/tx_pool.go:1043-1066 | what is kept is what there was less the excess, or nothing |
| PoolQueueLimit.DropHighest | core/tx_pool.go:1060-1065 | removing from the top one by one leaves the lowest nonces |
| PoolOperations.PromoteExecutables | core/tx_pool.go:906-1068 | promotion of the accounts, then the fair pending limit, then the queue limit, each exact; the invariants and gap-freedom are kept |
| PoolOperations.TruncateQueue | core/tx_pool.go:1028-1067 | local queues are untouched, the others lose exactly the excess |
| PoolOperations.SetGasPrice | core/tx_pool.go:465-474 | afterwards exactly the local transactions and those at or above the floor are known |
| PoolOperations.RemoveAll | core/tx_pool.go:465-474 | removing a list one by one, account by account; nothing else changes |
| PoolOperations.MakeRoom | core/tx_pool.go:617-632 | a full pool refuses exactly what is not worth it, else drops the cheapest non-local transactions |
| PoolOperations.ReplacePending | core/tx_pool.go:634-658 | replaces the pending transaction of that nonce exactly if it outbids it |
| PoolOperations.QueueNew | core/tx_pool.go:659-671 | queues the transaction and notes a local sender |
| PoolOperations.Add | core/tx_pool.go:604-672 | every outcome of an offer, in the order of the checks, with its effect on the lists, `all` and the locals |
| PoolOperations.AddedIsHeld | core/tx_pool.go:604-672 | a transaction that is reported as taken is known and listed under its sender |
| PoolOperations.ValidExactly | core/tx_pool.go:556-595 | the checks pass exactly what is well-formed, can be included and paid for at the head and is local or at the price floor; an error names what is wrong |
| PoolOperations.AddedIsSane | core/tx_pool.go:604-672 | whatever is taken has a nonce at or above the state nonce, a cost within the balance and gas within the limit |
| PoolOperations.AddKeepsWithin | core/tx_pool.go:617-632 | a pool below its limit gives up nothing for a newcomer, one at the limit does not grow while it has something that is not local |
| PoolOperations.PlacedFloored | core/tx_pool.go:634-671 | a replacement costs more than what it replaces and a cheap newcomer is local, so everything known stays local or at the price floor |
| PoolOperations.AddTxs | core/tx_pool.go:806-829 | one step for each transaction; then for each sender of a new one nothing that is queued could be executed next, and one at the next nonce of a gap-free account is pending, before the limits; every other account is as the last step left it |
| PoolOperations.Evict | core/tx_pool.go:313-326 | a non-local account loses exactly its queue, from the lists and from `all`; a local one nothing |
| PoolResets.DemoteUnexecutables | core/tx_pool.go:1073-1113 | every account with pending transactions is demoted, the others are untouched, and exactly what leaves the lists leaves `all` |
| PoolResets.Reindex | core/tx_pool.go:422-428 | demotion and renumbering turn every account into the reindexed account |
| PoolResets.BatchReloaded | core/tx_pool.go:410-416 | while transactions are offered again an account stays as the change of head left it, whatever is refused, replaced or discarded |
| PoolResets.NothingReinjected | core/tx_pool.go:410-432 | if nothing is reinjected no pending list gets a gap, wherever the head goes |
| PoolResets.Reset | core/tx_pool.go:353-432 | every stage of a reset; for every account that had no gap, whether it has one when the reset is through is decided exactly by its state after the reinjection and by how far the two pending limits cut; no new gap if nothing was reinjected |
| TxPools.EmptyIsStable | core/tx_pool.go:218-258 | a new pool meets the invariants |
| TxPools.TxPool.AddTxs | core/tx_pool.go:797-829 | the pool object after a batch, with the senders of new transactions promoted and nobody else |
| TxPools.TxPool.SetGasPrice | core/tx_pool.go:465-474 | the pool object after a new floor |
| TxPools.TxPool.Reset | core/tx_pool.go:344-432 | the pool object after a new head, with the exact outcome for every account that had no gap |
| TxPools.TxPool.NewBlock | core/tx_pool.go:353-432 | exactly the transactions that only the old branch has are reinjected; a head that descends from the old one reinjects nothing and leaves no gap |
| TxPools.TxPool.Evict | core/tx_pool.go:313-326 | the pool object after an eviction |
| TxPools.TxPool.Do | core/tx_pool.go:263-340 | each operation does what its relation says and keeps the invariants |
| TxPools.TxPool.Run | core/tx_pool.go:263-340 | the operations follow each other, and at every point no nonce is in both lists of an account, every listed transaction is known, every known one is in the price heap and local or at the price floor, and pending lists are gap-free until a reset reinjects transactions |
| Chains.FindCommonAncestor | core/database_util.go:625-649 | in any store: the highest block both sides can reach, or nothing exactly if there is none |
| Chains.FoundIsCommon | core/database_util.go:625-649 | in a rooted store that is always found and is the highest common ancestor |
| ChainWalks.WalksMeet | core/blockchain.go:1116-1156 | the four walks of the chain, the pool, the light pool and the database all end at the same block with the same branches above it |
| ChainWalks.ReorgWalk | core/blockchain.go:1116-1156 | stops at the highest common ancestor; the two lists are the branches above it |
| ChainWalks.LightWalk | light/txpool.go:219-238 | stops at the same block with the same branches |
| ChainWalks.ResetWalk | core/tx_pool.go:366-398 | stops at the same block and has collected the transactions of both branches |
| ChainWalks.TxDifference | core/types/transaction.go:375-391 | the transactions of the first list that are not in the second, in order |
| ChainWalks.Reinjected | core/tx_pool.go:353-401 | within the depth limit exactly the transactions that only the old branch has; none if the new head descends from the old one |
| HeaderChains.HeaderChain.WriteHeader | core/headerchain.go:131-195 | total difficulty is the path sum, the head is a heaviest header, the canonical table is its ancestor path and empty above; an unknown parent changes nothing |
| HeaderChains.HeaderChain.Run | core/headerchain.go:131-195 | the headers are written one after the other, the same holds at every point, with ties decided either way, and the head never gets lighter |
| HeaderChains.DeleteAbove | core/headerchain.go:157-163 | deletes exactly the entries above the new head |
| HeaderChains.RewriteAncestors | core/headerchain.go:165-177 | rewriting until an ancestor is in place fills in the whole ancestor path |
| BlockChains.BlockChain.WriteBlockAndState | core/blockchain.go:787-859 | canonical numbers up to the head are its ancestors and the lookup table is exact; the head is a heaviest block and a lowest one of these; which block wins a tie |
| BlockChains.BlockChain.Run | core/blockchain.go:787-859 | the blocks are written one after the other and the same holds at every point, with reorganisations of any depth |
| BlockChains.BlockChain.GetTxLookupEntry | core/database_util.go:273-286 | an answer names the canonical block and index of the transaction, no answer means no canonical block has it |
| BlockChains.Reorg | core/blockchain.go:1093-1192 | turns the tables of the old head into those of the new one |
| BlockChains.ReorgLookup | core/blockchain.go:1160-1186 | writing the new branch and deleting the difference leaves exactly the entries of the new branch |
| BlockChains.InsertBranch | core/blockchain.go:1170-1180 | inserting newest first still puts every block of the branch at its number |
| BlockChains.WriteTxLookupEntries | core/database_util.go:481-498 | every transaction of the block gets its place, other entries stay |
| BlockChains.WriteNext | core/blockchain.go:836-851 | extending the head by one block keeps the lookup table exact |
| Bmt.RefHash | bmt/bmt_r.go:67-85 | the recursive reference with its halving loop |
| Bmt.RefSpan | bmt/bmt_r.go:39-48 | for two to the power k segments the span is half of them |
| Bmt.RefIsPerfect | bmt/bmt_r.go:59-85 | on a full chunk the reference is the root of the perfect Merkle tree |
| BmtHasher.StepKeeps | bmt/bmt.go:442-494 | every step of every goroutine keeps the invariant: values where they belong, toggles counted, one of two arrivals goes on |
| BmtHasher.KeepsWrote | bmt/bmt.go:509-511 | the first to toggle a node leaves, the second stays |
| BmtHasher.KeepsSecond | bmt/bmt.go:463-494 | the second has both values and nobody has gone on before it |
| BmtHasher.KeepsWalk | bmt/bmt.go:530-547 | each unsynchronised step of finalise loses nothing, whatever the goroutines did between its steps: no right value has arrived where it clears, and it marks no node |
| BmtHasher.DeliveredIsClean | bmt/bmt.go:293-319 | when the result is out it is the root hash, every node was toggled twice and is unmarked, and every goroutine has finished |
| BmtHasher.NeverStuck | bmt/bmt.go:442-494 | a goroutine that has not finished can always move |
| BmtHasher.FinishedDelivers | bmt/bmt.go:442-494 | when every goroutine has finished the result has been delivered |
| BmtChunk.RunToEnd | bmt/bmt.go:293-319 | every schedule of the goroutines and of finalise ends, with the root hash |
| BmtChunk.Write | bmt/bmt.go:334-371 | cuts the data into sections in order, however it is split over calls; how much of the data it takes, when that stays within the capacity, and that it then is all that fits |
| BmtChunk.Overfilled | bmt/bmt.go:342-366 | three segments of one byte, one byte written and three more given: all four are taken |
| BmtChunk.Depth | bmt/bmt.go:521-526 | two to the power k segments give depth k minus one |
| BmtChunk.SectionsFit | bmt/bmt.go:334-371 | the i-th section is the i-th leaf's part of the chunk |
| BmtChunk.HashChunk | bmt/bmt.go:293-319 | for a full chunk of two to the power k segments, k at least two, the sum under any schedule is the reference hash, and all toggles are even again |
| RandSelect.Insert | les/randselect.go:107-132 | puts the item at a free index and changes no other; never runs out of branches below capacity; sums and counts stay exact |
| RandSelect.FreeBranch | les/randselect.go:108-114 | below capacity some branch has room |
| RandSelect.SetWeight | les/randselect.go:136-157 | changes the entry at an index, frees it at zero, and reports the difference |
| RandSelect.Choose | les/randselect.go:160-173 | finds the entry whose share contains the value |
| RandSelect.SharesApart | les/randselect.go:160-173 | shares of different entries do not overlap |
| RandSelect.ChosenExactly | les/randselect.go:160-173 | an entry is chosen by the values of its share and by no other |
| WeightedSelect.AddLevel | les/randselect.go:62-68 | a new root leaves every index leading to the same entry |
| WeightedSelect.SetItem | les/randselect.go:54-73 | the tree refines the item-to-weight map under update and removal, and its sum is the map's |
| WeightedSelect.ShareIsWeight | les/randselect.go:79-86 | of the values below the total exactly as many choose an item as it weighs |
| WeightedSelect.Draw | les/randselect.go:79-86 | a value below the total chooses the item whose share it is in, and no other |
| WeightedSelect.Round | les/randselect.go:84-93 | the item whose share the first value is in is brought up to date, and returned exactly if its weight has not fallen or the second value is below it |
| WeightedSelect.PassingSize | les/randselect.go:90-92 | of the second values as many let an item pass as its new weight, or all if the weight has not fallen |
| WeightedSelect.ReturningSize | les/randselect.go:84-93 | of the pairs of values of a round as many return an item as its stored weight times its new one, or times itself if the weight has not fallen |
| WeightedSelect.ReturnedBy | les/randselect.go:84-93 | a round returns an item exactly by one of these pairs |
| WeightedSelect.ChooseItem | les/randselect.go:79-97 | with weights that change between draws and any random numbers: the rounds follow each other, only the last one returns its item, and there is one unless the set is empty; only drawn items are refreshed, to a weight they reported |
| WeightedSelect.WeightedRandomSelect.Update | les/randselect.go:44-52 | the object stands for the updated map |
| WeightedSelect.WeightedRandomSelect.Pick | les/randselect.go:79-97 | the object after a choice, with its rounds |
| Feeds.Find | event/feed.go:210-217 | the first index of a channel, or minus one exactly if it is absent |
| Feeds.Subscribe | event/feed.go:73-93 | adds one live subscription in the inbox |
| Feeds.Unsubscribe | event/feed.go:104-115 | leaves the inbox at once or gets in line for removal |
| Feeds.TakeOut | event/feed.go:117-124 | the channel that is to be removed is always found |
| Feeds.RemoveIdle | event/feed.go:117-124 | takes out one case when nobody sends |
| Feeds.BeginSend | event/feed.go:129-152 | a Send starts with every live or leaving subscription once |
| Feeds.Deliver | event/feed.go:157-178 | a receive moves one case to the served part and counts it |
| Feeds.RemoveSending | event/feed.go:168-175 | a removal during a Send drops an unserved case or forgets a served one |
| Feeds.DeactivateCounts | event/feed.go:225-229 | the swap keeps the cases and moves one out of the active part |
| Feeds.EndSend | event/feed.go:164-187 | every channel was served once or taken out by a cancellation, and the count is that of the deliveries |
| Feeds.FeedObject.Happen | event/feed.go:104-187 | each event changes the feed as its relation says, and a Send that returns adds its report |
| Feeds.FeedObject.Run | event/feed.go:104-187 | for every interleaving of subscriptions, cancellations, receives and Sends the events follow each other, and at every point each completed Send was exactly once |
| Gas.IntrinsicGas | core/state_transition.go:83-105 | the base cost plus the cost of each data byte |
| Gas.KnownCosts | params/protocol_params.go:27-29 | the costs of empty, creating and one-byte messages |
| Gas.GasPool.SubGas | core/gaspool.go:35-42 | takes gas out or refuses, exactly by what is there |
| Gas.GasPool.AddGas | core/gaspool.go:27-31 | puts gas back |
| Gas.BuyGas | core/state_transition.go:168-207 | passes exactly if the nonce is the one of the state, the balance covers all gas and the block has it; which error for which nonce; what is paid and taken |
| Gas.SettlementTotal | core/state_transition.go:263-280 | the charge is between half of the consumption rounded up and all of it, and refund and fee restore the balance sum |
| Gas.RefundGas | core/state_transition.go:263-280 | unused gas and at most half of the used gas are paid back and returned to the pool |
| Gas.TransitionDb | core/state_transition.go:212-260 | settled exactly if no check fails; then the nonce was the one of the state, the balance covered the gas and the machine is handed a call with the next nonce, the balance sum is kept, the pool falls by the charge, all within 64 bits; otherwise which error, and the pool is unchanged before buying and less the gas after it |
| Gas.Spend | core/state_transition.go:221-260 | from the bought gas on: intrinsic cost, execution, refund and fee |
| GasBlocks.ApplyTransaction | core/state_processor.go:91-141 | goes in exactly if no check fails, and otherwise which error; what the pool loses in each case; pool and used gas keep their sum if and only if it goes in or nothing was taken |
| GasBlocks.FailureLosesGas | core/state_transition.go:221-246 | a message with less than the intrinsic gas takes all of its gas from the pool and uses none |
| GasBlocks.ChargeIsWithin | core/state_transition.go:212-260 | a charge is at most the gas bought and at least half of the intrinsic cost |
| GasBlocks.Process | core/state_processor.go:58-82 | succeeds exactly if every message applies in its turn, on the state and the pool that the ones before leave; each then has the nonce of that state, a covered price and an admissible type; each effect is in place, the totals are cumulative and pool and total make up the limit |
| BlockNonces.AppliedCounts | core/state_transition.go:236-245 | a message that goes in raises its sender's nonce by one and no other sender's |
| BlockNonces.InOrder | core/state_transition.go:193-207 | in a processed block each message has the nonce that its sender had before, plus its messages before |
| BlockNonces.NeverTwice | core/state_transition.go:193-207 | so no message goes in twice |
| BlockNonces.ExecutedIsNonced | core/state_processor.go:58-82 | a chain of processed blocks includes every sender's transactions in their turn, and its states hold the senders' nonces |
| GasBlocks.CommitTransaction | miner/worker.go:587-600 | a failed transaction leaves the block as it was, and the pool less what it took |
| GasBlocks.CommitTransactions | miner/worker.go:508-566 | each try is decided on the state and the pool of its moment; every account is tried to its end or dropped; the gas left, used and lost by failures makes up the limit |
| GasBlocks.NextIsTried | miner/worker.go:528-562 | behind a transaction that went in, or failed otherwise than for want of gas in the block or a nonce that is too high, the account's next one is tried; after these two none is |
| GasBlocks.SetGasUsed | core/blockchain.go:664-683 | the step of the running totals |
| GasBlocks.GasUsedRecovered | core/blockchain.go:664-683 | gives every receipt its own gas back |
| IndexerStores.SetValidSections | core/chain_indexer.go:402-414 | the count is set and exactly the heads from the given section on are forgotten |
| IndexerStores.MidwayStep | core/chain_indexer.go:402-414 | each single write of a cut keeps the record exact but for the writes still to come |
| IndexerStores.WholeChain | core/chain_indexer.go:338-367 | the head of section s is reached from the start of the chain by exactly the blocks of s plus one sections |
| IndexerRaces.Undisturbed | core/chain_indexer.go:402-414 | the single writes of a cut with nothing in between are setValidSections |
| IndexerRaces.BadInterleaving | core/chain_indexer.go:402-414 | with two sections, a reorg of the second and a failing reset: one section stored and no head recorded |
| IndexerRaces.MeetingExactly | core/chain_indexer.go:402-414 | for any meeting of the two cuts: every interleaving of their writes ends with an exact record if and only if the reorg forgets every section and no second head is recorded |
| ChainIndexers.FinishedKeeps | core/chain_indexer.go:298-318 | a head is recorded exactly if the section before still ends where the processing started |
| ChainIndexers.AfterKeeps | core/chain_indexer.go:261-330 | every event keeps the record unless it makes the two cuts meet |
| ChainIndexers.FirstMeeting | core/chain_indexer.go:343-346 | where an event makes them meet, the exact condition under which every way on is harmless |
| ChainIndexers.MeetingKeeps | core/chain_indexer.go:343-346 | a harmless meeting stays harmless through every event, also if another reorg that forgets everything comes in, and ends with an exact record |
| ChainIndexers.WritesInterleave | core/chain_indexer.go:402-414 | every interleaving of the two cuts is a run of the index |
| ChainIndexers.NoSectionAfterLostHead | core/chain_indexer.go:348-361 | once the last stored head is missing, every next section fails at its first block |
| ChainIndexers.ReorgForgets | core/chain_indexer.go:223-233 | for every section: still known, and still there when the cut is over, if and only if it was before and ends before the fork block |
| ChainIndexers.HeadMakesKnown | core/chain_indexer.go:246-250 | for every section: known if and only if it was before or is confirmed |
| ChainIndexers.FailureWaits | core/chain_indexer.go:313-317 | after a failure nothing is started before another head comes in |
| ChainIndexers.ChainIndexer.NewHead | core/chain_indexer.go:218-257 | after a reorg exactly the sections are known and kept that were so and end before the fork block; a plain head makes exactly the sections known that end so many blocks before it |
| ChainIndexers.ChainIndexer.Begin | core/chain_indexer.go:287-294 | starts from the recorded head of the section before |
| ChainIndexers.ChainIndexer.Read | core/chain_indexer.go:348-361 | a block that is missing or does not follow ends the section |
| ChainIndexers.ChainIndexer.Finish | core/chain_indexer.go:298-318 | records the head and cuts the record to the section, or gives up |
| ChainIndexers.ChainIndexer.Happen | core/chain_indexer.go:261-330 | each event changes the index as its relation says |
| ChainIndexers.ChainIndexer.Run | core/chain_indexer.go:261-330 | in every interleaving, at every state up to which no meeting of the two cuts does harm, heads are recorded exactly for the stored sections when no cut is under way, each section size links after the one before |
| IndexedChains.StepKeeps | core/chain_indexer.go:175-366 | with the chain in the state: every event leaves the recorded heads on the way to a head of the chain, except for the recording of a section whose last block is not |
| IndexedChains.LawfulExactly | core/chain_indexer.go:175-366 | in every run without a harmful meeting of the two cuts this holds up to a state if and only if no such section was recorded up to it |
| IndexedChains.NotOvertaken | core/chain_indexer.go:298-318 | none is recorded if no reorg is heard of that takes the last block read off the chain |
| IndexedChains.OvertakenBelow | core/chain_indexer.go:202-206 | such a reorg forks below the last block read |
| IndexedChains.QuietIsCanonical | core/chain_indexer.go:372-376 | when everything is heard of and no cut is under way the recorded heads are the last blocks of the chain's sections |
| IndexedChains.SectionRead | core/chain_indexer.go:338-366 | reading a section of two blocks |
| IndexedChains.StaleSection | core/chain_indexer.go:298-303 | its second block is replaced and announced before the section is recorded: a head that is not on the chain |
| IndexedChains.NoSectionAfterStale | core/chain_indexer.go:356-358 | then the next section fails at its first block |
| IndexedChains.IndexedChain.TakeNext | core/chain_indexer.go:196-213 | the event loop on a head that does not follow the last one: the highest common ancestor decides what is forgotten |
| IndexedChains.IndexedChain.Happen | core/chain_indexer.go:175-366 | each event does what its relation says |
| IndexedChains.IndexedChain.Run | core/chain_indexer.go:175-366 | every run: the exact condition for the recorded heads, and which blocks they are when it is quiet |
| LightPools.RollbackTxs | light/txpool.go:201-211 | the block's mined transactions are pending again and each change is recorded |
| LightPools.CheckMinedTxs | light/txpool.go:164-197 | exactly the pending transactions of the block are mined, unless data is missing |
| LightPools.BackKeeps | light/txpool.go:201-211 | a rollback keeps the books: tracked set, disjointness, exact net changes |
| LightPools.ForthKeeps | light/txpool.go:164-197 | so does mining a block |
| LightPools.GetLists | light/txpool.go:150-159 | the two lists are the recorded changes |
| LightPools.ReorgOnNewHead | light/txpool.go:219-257 | pending afterwards is what was pending or mined above the fork and no block up to the new head includes, each of these blocks has mined what it includes of what was pending when it came, below the fork nothing changes; it stops exactly before the first block that is needed and not available; tracked set and disjointness are kept and the changes are the net difference |
| LightPools.LightTxPool.SetNewHead | light/txpool.go:300-312 | the pool as above, and the relay hears exactly the net changes; rolled back and mined again is in neither list |
| LightPools.OfferKeeps | light/txpool.go:340-418 | an offer leaves the transaction in one place if and only if it is refused or the transaction is not recorded as mined |
| LightPools.OffersKeepExactly | light/txpool.go:340-418 | every offer to every pool at a head leaves each transaction in one place if and only if no account's state nonce at the chain's head is below the one at the pool's head |
| LightPools.DescendantNotBehind | light/txpool.go:112-114 | that holds if the chain's head descends from the pool's |
| LightPools.OfferedAgain | light/txpool.go:340-418 | a block includes a pending transaction, a sibling without it becomes the head of the chain, and the transaction is offered again: it is pending and mined |
| ChainNonces.IncludedIsBelow | core/state_transition.go:193-207 | a transaction that a branch includes has a nonce below that of its sender at the end of the branch |
| ChainNonces.NoncedDistinct | core/state_transition.go:193-207 | no block includes a transaction twice |
| ChainNonces.LastSent | core/state_transition.go:193-207 | the last of a sender's transactions on a branch has the nonce before the state's |
| LightPools.RemovalKeeps | light/txpool.go:501-514 | removing transactions keeps the books |
| LightPools.LightTxPool.Add | light/txpool.go:340-418 | a new transaction that passes the nonce check on the state of the chain's head and the other checks is pending, any other changes nothing |
| LightPools.LightTxPool.RemoveTransactions | light/txpool.go:501-514 | exactly these are no longer pending |
| LightPools.LightTxPool.Run | light/txpool.go:284-312 | over every run of offers, removals and new heads each transaction is pending or mined in one block of the head branch, never both; the run goes on until a mined transaction is offered on a chain whose head does not descend from the pool's and on which its sender is behind |
| LightPools.LightTxPool.Happen | light/txpool.go:284-312 | each event does what its relation says and keeps the books, unless it is such an offer |
| PeerProtocols.SortCaps | p2p/protocol.go:75-81 | a permutation in order of name and version |
| PeerProtocols.LessTotal | p2p/protocol.go:75-81 | names are totally ordered |
| PeerProtocols.MatchProtocols | p2p/peer.go:307-329 | the highest shared version of each name, in contiguous code ranges from 16 on in name order |
| PeerProtocols.PeersAgree | p2p/peer.go:307-329 | both sides come to the same names, versions, lengths and offsets |
| PeerProtocols.RangesApart | p2p/peer.go:359-366 | a code belongs to at most one protocol and never to the base protocol |
| PeerProtocols.GetProto | p2p/peer.go:359-366 | the protocol whose range holds the code, or none |
| PeerProtocols.WriteMsg | p2p/peer.go:377-395 | refuses a code beyond the length, shifts any other into the range |
| PeerProtocols.ReadMsg | p2p/peer.go:397-405 | shifts it back |
| PeerProtocols.Exchange | p2p/peer.go:359-405 | what one side writes, the other side's protocol of that name reads with the same code |
| PeerProtocols.Connect | p2p/peer.go:307-329 | two nodes that match each other's announcements have one layout |
| Rlpx.Int24RoundTrip | p2p/rlpx.go:728-736 | the size survives its three bytes |
| Rlpx.UintRoundTrip | p2p/rlpx.go:594-596 | the message code survives its encoding in front of any payload |
| Rlpx.KnownEncodings | p2p/rlpx.go:594-596 | the RLP encodings of 0, 15 and 1024 |
| RlpxFrames.UpdateMac | p2p/rlpx.go:718-726 | absorbs the masked seed and gives the first sixteen digest bytes |
| RlpxFrames.MacAbsorbs | p2p/rlpx.go:718-726 | two states are equal after an update if and only if they were before and the seeds agree |
| RlpxFrames.FrameLayout | p2p/rlpx.go:608-645 | a frame is a multiple of sixteen bytes: header, tag, content with less than sixteen zeros, tag; the key stream goes on by what was encrypted |
| RlpxFrames.HeaderBytes | p2p/rlpx.go:613-616 | the sixteen bytes of a header |
| RlpxFrames.WriteMsg | p2p/rlpx.go:594-645 | refuses exactly by the 32-bit size sum, for a payload of any length; else the frame, whose header announces that sum, also where it has wrapped |
| RlpxFrames.ReadMsg | p2p/rlpx.go:647-713 | which error for which input; a message only if both tags are right |
| RlpxFrames.Tampered | p2p/rlpx.go:647-682 | a reader in the writer's state refuses a frame in which the header, a tag or the body was replaced, with the error of that tag, unless two states of the MAC collide |
| RlpxFrames.OutOfTurn | p2p/rlpx.go:652-657 | so it does for a frame that was written in another state, as when it is repeated |
| RlpxFrames.CutShort | p2p/rlpx.go:649-651 | a frame that is cut short anywhere is reported as short |
| RlpxFrames.FrameRoundTrip | p2p/rlpx.go:594-713 | a reader in the writer's state accepts the frame, recovers the content and ends in the writer's state |
| RlpxFrames.ReadBackExactly | p2p/rlpx.go:594-713 | an accepted message is what a reader in the writer's state gets if and only if it fits into one frame |
| RlpxFrames.ReceivedWithin | p2p/rlpx.go:647-713 | no payload is longer than the size that the header announces |
| RlpxFrames.WrappedIsLost | p2p/rlpx.go:610-614 | code 0 with one byte less than 2^32: accepted with size zero, and the reader fails |
| RlpxFrames.WriteAll | p2p/rlpx.go:594-645 | messages go out as consecutive frames |
| RlpxFrames.ReadAll | p2p/rlpx.go:647-713 | any sequence of messages within the size limit is read back, with equal states after every frame |

## Left out

- The virtual machine, the state trie, the DPoS engine, RLP beyond unsigned numbers, signatures, AES, ECIES and
  Keccak: functions or parameters with the laws stated at their use.
- I/O, databases and their write errors, batches, caches, journals, logs, metrics, events to subscribers of the
  pool and the chain, RPC, node lifecycle.
- Machine integers other than where a size or limit is checked: nonces, numbers, weights and offsets are
  unbounded, so a wrap of nonce + 1 or of a sum of weights is not modelled.
- Updates in place of shared memory: the pool, its price list, the selection tree, the feed, the indexer and the
  light pool are values that a class field holds, so aliasing between their parts is not modelled. The sorted
  map, the transaction list and the gas pool are objects of their own.
- Pool: what `validateTx` finds out without the pool (size, sign of the value, signature, intrinsic gas) is a
  parameter; heartbeats and the eviction timer are left to the caller; list lengths are ranked exactly
  although the source ranks them as 32-bit floats; the exact value of the stale counter has no claim.
- Pool reset: the early return when a block or the state of the new head is missing.
- `BlockChain`: future blocks, uncles, receipts, the header head and the fast-sync head after a reorg, canonical
  entries above the head after a reorg to a shorter branch, SetHead.
- `HeaderChain`: SetHead, header validation, GetBlockHashesFromHash.
- Merkle hasher: the sum of a partial chunk or of an odd number of segments with its rule for unbalanced nodes,
  ReadFrom, the length prefix of Sum, the pool of trees, slice aliasing between caller and buffer.
- Feed: type checks and the panics they cause; the stored value in the cases.
- Indexer: known section heads, child indexers, throttling; what a later reorg does that
  keeps sections and meets the same failing reset.
- Light pool: pruning of old blocks, the nonce cache, the branch taken when a header of the new chain is missing.
- Peer: the read and write loops, closing, and back-pressure.
- RLPx: handshake, snappy compression, partial writes.
- PoolOperations.Evict: one account at a time; which accounts are due is the caller's choice.
- PoolResets.Reset: the outcome is exact for accounts that had no gap before the reset; for the others only the stages are stated.
- PoolQueueLimit.LimitQueues: the order of the accounts is arbitrary, the source orders them by heartbeat.
- GasBlocks.CommitTransactions: which account is tried next is arbitrary, the source takes the best price.
- BlockChains.BlockChain.WriteBlockAndState: requires that no transaction is included twice on the way to the block, which block validation ensures by nonces.
- BmtChunk.Write: a call after the last segment was overfilled is not covered; the source panics there.
- WeightedSelect.ChooseItem: the probability of a result is the count of values in `WeightedSelect.Draw`, repeated draws are not turned into a distribution.
- LightPools.ReorgOnNewHead: requires that no block of the new branch includes a transaction twice; `LightPools.LightTxPool.Run` derives it from the nonces, and `BlockNonces.ExecutedIsNonced` these from the processing of the blocks.
- LightPools.LightTxPool.Add: the checks of gas, value, balance and signature are one flag, the nonce check is modelled.
