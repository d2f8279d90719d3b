# Verified model of a node's chain, pool and light-client logic

This project models the parts of a Go Ethereum node that keep its state consistent, and proves what they promise.

* **Canonical chain** (`Chain`, `HeaderChain`, `Fork`, `Reorg`, `BlockChain`): headers form a content-addressed tree. The
  number index, the total difficulties, the caches and the transaction lookup index follow the heaviest branch through
  imports, reorganisations and rewinds.
* **Transaction pool** (`Transactions`, `SortedMap`, `TxList`, `PricedList`, `Book`, `WaterLevel`, `QueueLimit`, `Reset`,
  `Tidy`, `TxPool`, `Effect`): nonce-sorted lists with a heap and a cache, a price heap with stale entries, and the pool that
  promotes, demotes, evicts, equalises and resets.
* **Execution accounting** (`StateTransition`, `StateProcessor`, `GasLimit`): gas and wei through one transaction, one
  block and its receipts, after section 6.2 of the Ethereum Yellow Paper, and the proposed gas limit against section 4.3.4.
* **Light client** (`WeightTree`, `WeightedSelect`, `Distributor`, `LightPool`), **event feed** (`Feed`), **chain indexer**
  (`ChainIndexer`) and **byte conversion** (`ByteConversion`).

`Sum` and `Options` hold sums over finite maps and optional values. Classes model what the source updates in place; their methods are specified by
functions and predicates on values, and the lemmas are about those. Hashes are symbolic, so hashing is injective and never
zero. Caches are arbitrary parts of what they cache. The virtual machine, interrupts, requests to unsubscribe, peers' offers
and what can be retrieved from the network are inputs. Coins, random draws, readiness of channels and the interleaving of
goroutines are arbitrary choices.

The code and its comments disagree in these places, and the model follows the code. `ToByteArray` promises the shortest
string but yields one byte more at -128 * 256^k. Removing the first of several pending transactions of an account drops the
others from its lists while they stay known, and removing such an unlisted one can take another off its list. A block chain reorganisation to a shorter, heavier branch leaves numbers above
the head. The proposed gas limit can leave the consensus bound for parent limits below 5120. After a missing header the
light pool can keep entries of an abandoned branch and later report a transaction as mined that did not leave the pending
set. A transaction with two price entries can be evicted twice, so that an eviction falls short. For each of these the exact
condition is proved.

## Model

| member | source | states |
|---|---|---|
| `HeaderChains.HeaderChain.WriteHeader` | go-ethereum/core/headerchain.go:131-195 | Writing keeps every index exact: canonical[n] is the height-n ancestor of the head for n up to its height and absent above, each stored total difficulty is the sum along its path, and the caches agree with the database. The header becomes head if it is heavier, never if it is lighter. A head that was heaviest among all stored headers stays so. All ancestors must be stored only of a header that may become the head. |
| `HeaderChains.HeaderChain.Reroute` | go-ethereum/core/headerchain.go:153-186 | Deleting the numbers above and overwriting stale ones downwards turns the number index of one branch into exactly that of another |
| `HeaderChains.HeaderChain.OverwriteStale` | go-ethereum/core/headerchain.go:164-176 | The downward walk stops at the first agreeing number, and stopping there is enough: the index becomes the old one with the whole path laid over it |
| `HeaderChains.OverwriteDone` | go-ethereum/core/headerchain.go:164-176 | An index that agrees with a path at one height agrees below it, so the early stop loses nothing |
| `HeaderChains.WalkNeedsAncestors` | go-ethereum/core/headerchain.go:164-176 | The headers that the overwriting walk follows are all stored if and only if all ancestors are; with one missing the code would follow an absent header |
| `HeaderChains.HeaderChain.DeleteCanonicalAbove` | go-ethereum/core/headerchain.go:154-162 | Deleting consecutive numbers until one is missing removes all numbers above the height |
| `HeaderChains.HeaderChain.Adopt` | go-ethereum/core/headerchain.go:144-192 | Recording a header and deciding on the head by total difficulty, a coin deciding ties |
| `HeaderChains.HeaderChain.InsertHeaderChain` | go-ethereum/core/headerchain.go:259-285 | Importing any contiguous run keeps all indexes, the maximality of the head and the closure of the store under parents. It stops with an unknown ancestor exactly when neither the first header nor its parent is stored; otherwise exactly the headers before the interrupt are stored, and it is aborted exactly if the interrupt comes before the end |
| `HeaderChains.HeaderChain.GetTd` | go-ethereum/core/headerchain.go:312-325 | A total difficulty read through the cache is the one in the database, whatever was evicted and whenever |
| `HeaderChains.HeaderChain.GetHeader` | go-ethereum/core/headerchain.go:344-357 | A header read through the cache is the one in the database, whatever was evicted and whenever |
| `HeaderChains.HeaderChain.GetHeaderByNumber` | go-ethereum/core/headerchain.go:372-378 | Looking up a number yields the ancestor of the head at that height, and nothing above the head |
| `HeaderChains.HeaderChain.SetHead` | go-ethereum/core/headerchain.go:401-434 | Rewinding makes the ancestor at that height the head, deletes exactly the headers of the branch above it, and keeps the numbering exact. A store closed under parents stays so if and only if no other branch leaves the deleted part |
| `HeaderChains.RewoundHead` | go-ethereum/core/headerchain.go:401-434 | After the branch above a height is deleted, all ancestors of the block at that height are still stored and its path is the truncated index |
| `HeaderChains.RewoundClosed` | go-ethereum/core/headerchain.go:401-434 | The exact condition for the closure under parents to survive a rewind |
| `HeaderChains.RewindOrphans` | go-ethereum/core/headerchain.go:401-434 | A store of four headers in which a rewind leaves a header without its parent |
| `HeaderChains.StoringKeepsClosed` | go-ethereum/core/headerchain.go:131-195 | Storing a child of a stored header keeps the store closed under parents, so that later writes find all ancestors |
| `Forks.FindFork` | go-ethereum/core/blockchain.go:1098-1163 | For any two stored blocks of one tree the walk terminates without either error at the highest common ancestor, and collects exactly the two segments above it |
| `Forks.FindCommonAncestor` | go-ethereum/core/database_util.go:615-639 | The header found is the highest common ancestor: the branches agree there and differ at every greater common height |
| `Reorgs.ReorgedNumbering` | go-ethereum/core/blockchain.go:1175-1177 | Assigning the numbers of the new segment gives the path of the new head up to its height and leaves the numbers above as they were |
| `Reorgs.ReorgedLookup` | go-ethereum/core/blockchain.go:1175-1196 | Writing the entries of the new segment and deleting those only on the old one turns a scan of the old branch into a scan of the new one |
| `Reorgs.ScanHolds` | go-ethereum/core/database_util.go:436-459 | The scan of a branch without repeated transactions holds for every transaction the hash and number of its block and its position in it |
| `Reorgs.ScanHoldsOnly` | go-ethereum/core/database_util.go:436-459 | Every entry of the scan comes from a transaction of the branch |
| `Reorgs.ReorgExact` | go-ethereum/core/blockchain.go:1098-1177 | Switching branches turns the path of the old head into the path of the new head if and only if the new branch is no shorter; otherwise stale numbers stay above the head |
| `Reorgs.StaleNumberRemains` | go-ethereum/core/blockchain.go:457-479 | A heavier but shorter branch for which a stale number remains above the head |
| `BlockChains.BlockChain.Reorg` | go-ethereum/core/blockchain.go:1098-1196 | A reorganisation between any two stored blocks succeeds; the number index up to the new head is its path and above it as before. If the lookup index was a scan of the old branch and no transaction repeats on either branch, it is a scan of the new one |
| `BlockChains.BlockChain.Advance` | go-ethereum/core/blockchain.go:849-863 | A stored block becomes the head, whether it extends the current head or not, with the numbers up to it in place, and the lookup index too if it was before |
| `BlockChains.BlockChain.WriteBlock` | go-ethereum/core/blockchain.go:824-872 | From any valid state: the block is refused exactly when its parent is unknown; the head changes if it is heavier and never if it is lighter; no stored block outweighs the head; numbers up to the head are the path to it, and the whole index is that path if and only if nothing was assigned above the new head's height before |
| `BlockChains.BlockChain.Run` | go-ethereum/core/blockchain.go:824-872 | In every run of block writes the head stays heaviest and the numbers up to it its path; it only ever changes to a block that is no lighter. An index that started exact is exact at the end if and only if no head during the run was higher than the last |
| `BlockChains.BlockChain.InsertBlock` | go-ethereum/core/blockchain.go:1003-1020 | After every step of an import, canonical or not, a lookup index that was a scan of the branch to the head is one again |
| `BlockChains.BlockChain.InsertChain` | go-ethereum/core/blockchain.go:876-1056 | A broken run is rejected before anything changes, and so is one with an unknown first parent; otherwise exactly the blocks before the interrupt are stored and no error is returned. Every step keeps the indexes, and the head never gets lighter |
| `BlockChains.TxDifference` | go-ethereum/core/types/transaction.go:334-349 | The set difference of transactions by hash |
| `BlockChains.BlockChain.WriteTxLookupEntries` | go-ethereum/core/database_util.go:436-459 | Every transaction of a block without repeats gets the block's hash and number and its own position; no other entry changes |
| `BlockChains.BlockChain.FindsAll` | go-ethereum/core/database_util.go:436-459 | With the lookup index in order every transaction of the branch to the head is found at its block's canonical hash, its number and its position, and no other is found |
| `BlockChains.BlockChain.DeleteTxLookupEntries` | go-ethereum/core/database_util.go:496-498 | Deletes the entries of the given transactions and no others |
| `SortedMaps.TxSortedMap.Put` | go-ethereum/core/tx_list.go:73-80 | The heap holds exactly the nonces of the map; the cache is dropped |
| `SortedMaps.TxSortedMap.Forward` | go-ethereum/core/tx_list.go:84-98 | Removes and returns, in order, exactly the transactions below a threshold; a cached listing stays the sorted contents |
| `SortedMaps.TxSortedMap.Filter` | go-ethereum/core/tx_list.go:102-123 | Removes exactly the selected transactions and rebuilds the heap over the rest |
| `SortedMaps.TxSortedMap.Cap` | go-ethereum/core/tx_list.go:127-148 | Keeps the given number of lowest nonces; kept list and drops together are the sorted contents, and a cached prefix stays valid |
| `SortedMaps.TxSortedMap.Remove` | go-ethereum/core/tx_list.go:152-169 | Removes one nonce from map and heap |
| `SortedMaps.TxSortedMap.Ready` | go-ethereum/core/tx_list.go:178-193 | Removes the maximal consecutive run from the lowest nonce if that nonce is not above the start, and nothing otherwise |
| `SortedMaps.TxSortedMap.Flatten` | go-ethereum/core/tx_list.go:203-216 | The contents sorted by nonce, with or without a cache |
| `SortedMaps.RunTaken` | go-ethereum/core/tx_list.go:178-193 | Taking consecutive nonces one by one from the heap takes exactly the maximal run |
| `Transactions.ListingIncreases` | go-ethereum/core/tx_list.go:203-216 | A listing is strictly increasing in nonce |
| `Transactions.ListingMember` | go-ethereum/core/tx_list.go:203-216 | A listing holds exactly the transactions of the map |
| `TxLists.TxList.Add` | go-ethereum/core/tx_list.go:252-270 | A transaction is accepted if and only if it outbids the one with its nonce, if any, by the price bump; both caps stay upper bounds |
| `TxLists.TxList.Forward` | go-ethereum/core/tx_list.go:275-277 | Drops exactly the transactions below a nonce |
| `TxLists.TxList.Filter` | go-ethereum/core/tx_list.go:288-311 | Despite the short-circuit on the caps it keeps, removes and invalidates exactly what an unconditional filter would |
| `TxLists.SkipIsHarmless` | go-ethereum/core/tx_list.go:289-292 | When both caps are within the limits an unconditional filter would remove nothing |
| `TxLists.FilterPartitions` | go-ethereum/core/tx_list.go:294-310 | Kept, removed and invalidated transactions partition the list |
| `TxLists.FilterKeepsPrefix` | go-ethereum/core/tx_list.go:299-310 | In strict mode a contiguous list keeps a contiguous prefix that ends at the lowest unpayable nonce |
| `TxLists.TxList.Cap` | go-ethereum/core/tx_list.go:315-317 | Keeps the lowest nonces up to a number |
| `TxLists.TxList.Remove` | go-ethereum/core/tx_list.go:322-333 | Removes a nonce and, in strict mode, invalidates exactly the later ones |
| `TxLists.TxList.Ready` | go-ethereum/core/tx_list.go:342-344 | Removes the run that is ready to be executed |
| `PricedLists.PricedList.Removed` | go-ethereum/core/tx_list.go:407-421 | The heap still covers the pool after any number of stale entries; it is rebuilt exactly when these exceed a quarter of it |
| `PricedLists.PricedList.Underpriced` | go-ethereum/core/tx_list.go:455-477 | True exactly for a remote transaction that is no dearer than every transaction of a non-empty pool, however many stale entries the heap holds; only stale entries go, and each is counted off |
| `PricedLists.PricedList.Discard` | go-ethereum/core/tx_list.go:481-504 | Drops only remote transactions, cheapest entries first, as many as asked unless no remote entries are left; local ones are put back. Entries count with multiplicity: a transaction is dropped at most as often as it has entries |
| `PricedLists.DiscardRepeats` | go-ethereum/core/tx_list.go:481-504 | No discard of a given number of entries names a transaction twice if and only if every remote pool transaction with two entries has so many cheaper entries before it that only one of its own can be reached |
| `PricedLists.DroppedTwice` | go-ethereum/core/tx_list.go:481-504 | With two entries of one transaction, as re-queueing leaves them, and one of a dearer one, every discard of two drops the first twice |
| `Books.EnqueueKeepsInv` | go-ethereum/core/tx_pool.go:612-632 | Queueing keeps the invariant: for every account the pending nonces are exactly the interval from the chain nonce at the last reset to the pending nonce, queued nonces lie beyond, everything listed is known, and no list is empty |
| `Books.ReplacePendingKeepsInv` | go-ethereum/core/tx_pool.go:573-594 | Replacing a pending transaction keeps the invariant |
| `Books.RemoveTxKeepsInv` | go-ethereum/core/tx_pool.go:793-831 | Removing any transaction keeps the invariant |
| `Books.PromoteRun` | go-ethereum/core/tx_pool.go:872-877 | The promoted transactions continue the pending interval without a gap |
| `Books.PromoteAccountOk` | go-ethereum/core/tx_pool.go:851-888 | Promotion puts an account in order even if its queue was stale, and leaves every other account as it was |
| `Books.DemoteAcctOk` | go-ethereum/core/tx_pool.go:1013-1033 | What stays pending after a demotion is an interval that starts at the new chain nonce |
| `Books.CapOneKeepsInv` | go-ethereum/core/tx_pool.go:919-931 | Dropping the highest pending nonce and lowering the pending nonce keeps the invariant |
| `TxPools.TxPool.constructor` | go-ethereum/core/tx_pool.go:205-248 | An empty pool is in order |
| `TxPools.TxPool.EnqueueTx` | go-ethereum/core/tx_pool.go:612-632 | Queues a transaction if it outbids the one it would replace; the price heap keeps covering the pool |
| `TxPools.TxPool.RemoveTx` | go-ethereum/core/tx_pool.go:793-831 | Forgets a transaction and sends the later pending ones back to the queue, unless nothing stays pending |
| `Effects.RemovedMeans` | go-ethereum/core/tx_pool.go:793-832 | A removal on the lists before and after. From the pending list: lower nonces stay pending, higher ones go to the queue unless no lower one is left, and the nonce is handed out next. From the queue: that one alone goes. No other account changes |
| `TxPools.TxPool.Add` | go-ethereum/core/tx_pool.go:543-609 | Each error is returned exactly under its condition. A full pool discards the cheapest remote entries. It ends with room for exactly one, or without remote transactions, unless it names a transaction twice; by the price entries before the call, it names none twice if no pair of entries is due among those discarded, and always makes room if the pool is exactly full. The new transaction is listed; the one it outbids is forgotten and nobody else, so the pool grows by one or not at all |
| `TxPools.EvictionMakesRoom` | go-ethereum/core/tx_pool.go:564-570 | An eviction makes room if and only if it names no transaction twice or leaves no remote one |
| `TxPools.FallsShort` | go-ethereum/core/tx_pool.go:564-570 | A valid pool with two price entries for one transaction: an addition evicts that one twice, and the pool ends over its limit |
| `TxPools.TxPool.Place` | go-ethereum/core/tx_pool.go:573-607 | The transaction replaces a pending one or joins the queue exactly if it outbids; a local sender becomes local only in the second case. It is then listed, the one that held its nonce is forgotten, every other known one stays, and the pool grows by one exactly if nobody held the nonce |
| `TxPools.PlacedKnown` | go-ethereum/core/tx_pool.go:573-633 | What is known after a placement: the new transaction and all others but the one that held its nonce, so the pool grows by one or not at all |
| `TxPools.PlacedTidy` | go-ethereum/core/tx_pool.go:573-633 | A placement lists the new transaction and leaves no known one off the lists that was on them |
| `Effects.PlaceableMeans` | go-ethereum/core/tx_list.go:252-270 | A transaction can be placed if and only if its price exceeds that of the one that holds its nonce, if any, by the price bump |
| `Effects.OutbidsMeans` | go-ethereum/core/tx_list.go:252-270 | The price bump test with its rounding, as a comparison without division; an accepted replacement is always dearer |
| `Effects.AdmissibleMeans` | go-ethereum/core/tx_pool.go:491-533 | A transaction passes validation if and only if it is well-formed and not behind the chain, its sender can pay the value and all the gas, its gas fits a block, and it is dear enough or local |
| `Effects.PayableMeans` | go-ethereum/core/tx_list.go:288-297 | A transaction stays if and only if the balance covers its value and all its gas, and its gas fits a block |
| `TxPools.TxPool.PromoteTx` | go-ethereum/core/tx_pool.go:650-682 | Puts a transaction on the pending list of its account, raising the pending nonce, or drops it if it does not outbid |
| `TxPools.TxPool.PromoteOne` | go-ethereum/core/tx_pool.go:851-888 | One account: stale and unpayable transactions are forgotten, the executable run is promoted, and the rest is cut to the account limit; `Effects.PromotedMeans` states what this leaves |
| `TxPools.TxPool.PromoteAccounts` | go-ethereum/core/tx_pool.go:849-889 | Visiting accounts in any order amounts to promoting each on its own; the invariant holds afterwards and everything taken off a list is forgotten |
| `Effects.PromotedMeans` | go-ethereum/core/tx_pool.go:848-889 | After a promotion the pending list has grown by the longest run of payable queued transactions from the pending nonce. The other payable ones stay queued: all of a local account, and the lowest nonces up to the limit of a remote one |
| `TxPools.TxPool.EqualizePending` | go-ethereum/core/tx_pool.go:890-960 | For every order of accounts the pending lists end at the water level: terminates, total within the limit or level at the guaranteed allowance, one level higher would not fit |
| `WaterLevels.WaterLevelMeans` | go-ethereum/core/tx_pool.go:890-960 | Local lists are untouched; remote lists that lost transactions share one length, lose their highest nonces, and none exceeds it; the total fits or all remote lists are within their allowance; the shortfall is less than the number of lists cut |
| `WaterLevels.WaterLevelUnique` | go-ethereum/core/tx_pool.go:890-960 | The outcome of the equalisation does not depend on the order of the accounts |
| `WaterLevels.RoundLowersLevel` | go-ethereum/core/tx_pool.go:915-933 | One round over exactly the lists at the level lowers the level by one |
| `WaterLevels.PopLargest` | go-ethereum/core/tx_pool.go:907-908 | The queue of spammers yields an account with the longest list |
| `TxPools.TxPool.LowerTo` | go-ethereum/core/tx_pool.go:915-933 | Rounds end when the total fits or the offenders are down to the threshold, and no round is one too many |
| `TxPools.TxPool.LimitQueue` | go-ethereum/core/tx_pool.go:961-1000 | Exactly the overflow is dropped, or every remote queue is empty; each queue keeps its lowest nonces; local queues and all pending lists are untouched |
| `QueueLimits.TrimDrops` | go-ethereum/core/tx_pool.go:980-999 | Emptying accounts from the end of the order and cutting the last one drops exactly the asked number, or empties every account |
| `QueueLimits.TrimInOrder` | go-ethereum/core/tx_pool.go:976-999 | Accounts lose their queues from the end of the order: if one loses anything, all behind it have lost everything |
| `Effects.QueueLimited` | go-ethereum/core/tx_pool.go:961-1000 | After the limits the queues fit unless no remote one is left, nothing was dropped beyond the overflow, local queues are whole, and remote ones keep their lowest nonces |
| `TxPools.TxPool.PromoteExecutables` | go-ethereum/core/tx_pool.go:837-1001 | Promotion of each account followed by the two global limits, with the invariant kept |
| `TxPools.TxPool.DemoteOne` | go-ethereum/core/tx_pool.go:1010-1039 | One account: mined and unpayable transactions are forgotten, a contiguous prefix stays pending, later ones are queued again |
| `TxPools.TxPool.DemoteUnexecutables` | go-ethereum/core/tx_pool.go:1006-1040 | Demoting accounts in any order amounts to demoting each on its own |
| `TxPools.TxPool.SetNonces` | go-ethereum/core/tx_pool.go:359-362 | Each pending nonce is set behind the last pending transaction |
| `TxPools.TxPool.Reset` | go-ethereum/core/tx_pool.go:345-367 | Restores the invariant for a new chain state whose nonces have not fallen; the result is each account reset on its own, cut to the global limits; nothing changes if the state is unavailable |
| `Resets.ResetEach` | go-ethereum/core/tx_pool.go:345-367 | The three passes of a reset over all accounts amount to resetting each account on its own |
| `Resets.ResetSettles` | go-ethereum/core/tx_pool.go:345-367 | After a reset an account has a gapless run of pending nonces from the chain nonce, the next nonce is not queued, and every transaction left can be paid for |
| `Effects.ResetMeans` | go-ethereum/core/tx_pool.go:345-367 | After a reset the pending list is the longest run, from the chain nonce, of the payable transactions that were pending or queued. The other payable ones are queued: all of a local account, and the lowest nonces up to the limit of a remote one |
| `Resets.DemoteExact` | go-ethereum/core/tx_pool.go:1010-1033 | An account starts at the chain nonce after a reset if and only if that nonce has not fallen behind its pending list, or the list was empty or began with an unpayable transaction |
| `Resets.FellBehind` | go-ethereum/core/tx_pool.go:1010-1033 | A chain nonce that fell back leaves a gap before the pending list |
| `Tidiness.RemoveTidy` | go-ethereum/core/tx_pool.go:793-823 | Removing a known transaction leaves no other one known but unlisted if and only if no other one is listed under its nonce and, if it is pending, it is not the first of several |
| `Tidiness.SecondOrphaned` | go-ethereum/core/tx_pool.go:793-823 | Two pending transactions of one account: removing the first leaves the second known but unlisted |
| `Tidiness.OrphanMakesOrphan` | go-ethereum/core/tx_pool.go:793-823 | A known but unlisted transaction whose nonce another one has taken: removing it takes the other off its list |
| `Tidiness.PromoteTidy` | go-ethereum/core/tx_pool.go:851-888 | Promotion forgets whatever it takes off the lists |
| `Tidiness.DemoteTidy` | go-ethereum/core/tx_pool.go:1013-1033 | Demotion forgets whatever it takes off the lists |
| `TxPools.TxPool.AddTx` | go-ethereum/core/tx_pool.go:713-730 | One addition as above; then, only if it filled a new slot and the state is available, the sender is promoted and the limits are applied |
| `TxPools.TxPool.AddTxs` | go-ethereum/core/tx_pool.go:735-762 | A batch is one addition after another, each as above on the books the previous one left; then one promotion over exactly the accounts with a new transaction |
| `TxPools.TxPool.RemoveBatch` | go-ethereum/core/tx_pool.go:782-789 | Removes a batch one by one |
| `TxPools.TxPool.Run` | go-ethereum/core/tx_pool.go:268-290 | In every run of batches, removals and resets in which chain nonces never fall, each event has the effect stated for the single operation, and the invariant and the coverage of the price heap hold throughout |
| `WeightTrees.Insert` | go-ethereum/les/randselect.go:107-132 | Never runs out of branches below capacity; puts the item into the first free cell of the row the tree stands for and changes no other |
| `WeightTrees.SetWeight` | go-ethereum/les/randselect.go:136-157 | Changes exactly the one cell of the index, returning the difference of the weights |
| `WeightTrees.Choose` | go-ethereum/les/randselect.go:160-173 | The tree walk yields the item that a linear walk over all cells would stop at |
| `WeightTrees.PickExact` | go-ethereum/les/randselect.go:160-173 | Exactly weight(i) of the values below the sum lead to cell i |
| `WeightTrees.GrownKeeps` | go-ethereum/les/randselect.go:63-69 | A new root level keeps every index and only adds free cells |
| `WeightTrees.FlatFacts` | go-ethereum/les/randselect.go:98-104 | The stored sums and counts of a well-formed tree agree with its cells |
| `WeightedSelects.WeightedRandomSelect.constructor` | go-ethereum/les/randselect.go:38-40 | A new set is empty |
| `WeightedSelects.WeightedRandomSelect.SetWeight` | go-ethereum/les/randselect.go:54-73 | The structure behaves as a map from items to weights, with zero meaning removal; stored indices always locate their item |
| `WeightedSelects.WeightedRandomSelect.ChooseOnce` | go-ethereum/les/randselect.go:84-92 | One attempt: the item whose share the value falls into gets its current weight, and is accepted for exactly the proportional part of the draws if that weight has fallen |
| `WeightedSelects.WeightedRandomSelect.Choose` | go-ethereum/les/randselect.go:79-94 | Terminates because each retry lowers the sum; yields an item with positive current weight, or nothing exactly when every item weighs nothing; only gives items their current weight |
| `Feeds.Feed.Send` | go-ethereum/event/feed.go:129-185 | For every schedule of ready receivers, and with any subscriptions ended meanwhile: a channel for which no request to unsubscribe comes in is handed the value exactly once per subscription and stays subscribed. Each request that comes in time takes one subscription away, before or after its turn; every other starting subscription is served and kept; the count is exact. The inbox holds exactly what other subscribers put there meanwhile |
| `Feeds.InboxMeans` | go-ethereum/event/feed.go:90-114 | Only channels that subscribed meanwhile are in the inbox, and all of them in order if none left |
| `Feeds.StayersServed` | go-ethereum/event/feed.go:129-185 | What a channel gets and keeps in terms of the requests alone: all of it without a request, and at most one delivery less per request |
| `Feeds.Feed.TryAll` | go-ethereum/event/feed.go:156-162 | The fast path serves some of the waiting cases, each once, keeping the waiting ones in front |
| `Feeds.Feed.Interrupt` | go-ethereum/event/feed.go:168-173 | A removal request takes one case out, waiting or served, and keeps the division between them |
| `Feeds.DeactivateMoves` | go-ethereum/event/feed.go:223-227 | Swapping a case with the last active one moves exactly it behind the division |
| `Feeds.Find` | go-ethereum/event/feed.go:208-215 | The first case of a channel, or -1 |
| `Feeds.Feed.Subscribe` | go-ethereum/event/feed.go:73-93 | Adds one subscription, to be taken over by the next send |
| `Feeds.Feed.Remove` | go-ethereum/event/feed.go:104-125 | Ends one subscription of a channel, wherever it is kept |
| `ChainIndexers.ChainIndexer.Run` | go-ethereum/core/chain_indexer.go:228-286 | Under every interleaving of new heads, reorganisations, crashes and the steps of the update loop each event moves the indexer as stated for it, and after each one every stored section has a head and successive heads are one section of parent steps apart |
| `ChainIndexers.ChainIndexer.NewHead` | go-ethereum/core/chain_indexer.go:185-224 | A reorganisation rolls counters and section heads back to the whole sections left; a head makes sections known once confirmed |
| `ChainIndexers.ChainIndexer.SetValidSections` | go-ethereum/core/chain_indexer.go:353-365 | Removes exactly the heads rolled back; the database is in order after every write |
| `ChainIndexers.ChainIndexer.PutSectionHead` | go-ethereum/core/chain_indexer.go:382-387 | A head written at or above the count leaves the stored sections in order |
| `ChainIndexers.ChainIndexer.RemoveSectionHead` | go-ethereum/core/chain_indexer.go:391-396 | A head removed at or above the count leaves the stored sections in order |
| `ChainIndexers.ChainIndexer.Begin` | go-ethereum/core/chain_indexer.go:238-254 | Takes up the next section on top of its predecessor's head, if one is known |
| `ChainIndexers.ChainIndexer.ProcessHeader` | go-ethereum/core/chain_indexer.go:302-314 | Goes on exactly if the header names the one before as its parent, and else gives the section up |
| `ChainIndexers.ChainIndexer.Finish` | go-ethereum/core/chain_indexer.go:258-275 | The section is stored exactly if it was committed and no reorganisation rolled the index back meanwhile, and then the known sections stay; otherwise it is given up and they fall to the stored ones |
| `ChainIndexers.NoRollback` | go-ethereum/core/chain_indexer.go:261 | An unchanged predecessor head means that nothing was rolled back |
| `ChainIndexers.ChainIndexer.Restart` | go-ethereum/core/chain_indexer.go:345-350 | Only the database survives: the stored sections and heads are kept, and nothing is known beyond them or in progress |
| `ChainIndexers.HeadDepth` | go-ethereum/core/chain_indexer.go:294-318 | The head of section s is (s+1) sections of parent steps away from the zero hash |
| `ChainIndexers.HeadNumber` | go-ethereum/core/chain_indexer.go:294-318 | With properly numbered headers the head of a section is its last block |
| `LightPools.LightTxPool.ReorgOnNewHead` | go-ethereum/light/txpool.go:219-276 | From any orderly books, whatever headers are missing and whatever cannot be retrieved: the blocks are checked up to the first that fails, and which fails is determined by the books and what can be retrieved. Pending is exactly what was known, less the entries kept and less the transactions of the blocks checked. The report is the net change of the pending set if and only if no block that already had an entry was checked while something was pending, which holds whenever all entries belonged to the old head's branch. Unless something failed the head is the new head, and no entry is left that is canonical between the clearing index and 500 below it. If besides no header is missing, the entries were on the old head's branch and above the clearing index, and the canonical hashes are those of the new branch, no entry is more than 500 deep. Nothing is lost except from canonical blocks more than 500 deep that had an entry or are on the new branch. The entries all belong to the new head's branch if and only if none was kept between the fork and the block taken for it, or no new block was checked |
| `LightPools.LightTxPool.Run` | go-ethereum/light/txpool.go:219-305 | In every run of sent transactions and new heads, with headers missing and blocks failing anywhere, pending and mined stay disjoint; what was known or sent is known at the end or lost, and lost only with a canonical block more than 500 deep that had an entry at the start or is on the branch of a head of the run. If no header is missing, entries that belonged to the head's branch do so at the end. If in addition everything can be retrieved, the canonical hashes are those of each new branch and no entry was more than 500 deep at the start, the head is the last new head and no entry is more than 500 below it |
| `LightPools.EntryLeftBehind` | go-ethereum/light/txpool.go:234-237 | A missing header after which an entry is kept that is not on the new head's branch |
| `LightPools.FalseReport` | go-ethereum/light/txpool.go:164-197 | From such an entry, with another transaction pending and every header at hand, the report of a later reorganisation is not the net change |
| `LightPools.StaysOnChain` | go-ethereum/light/txpool.go:219-256 | The exact condition for all entries to belong to the new head's branch |
| `LightPools.NothingAgain` | go-ethereum/light/txpool.go:164-256 | If all entries belong to the old head's branch, no block with an entry is checked, with or without missing headers |
| `LightPools.LightTxPool.MoveTo` | go-ethereum/light/txpool.go:219-256 | Rolling back and checking blocks keeps all transactions, moves the head to the last block before the first failure, and gives the pending set and the report as functions of the state before |
| `LightPools.UnminedMeans` | go-ethereum/light/txpool.go:164-197 | What checking a stretch of blocks leaves pending: exactly the transactions that occur in none of them |
| `LightPools.WalkToFork` | go-ethereum/light/txpool.go:225-240 | The walk collects exactly the new branch above the height where it stops and the old branch above that height or the old head, whichever is lower |
| `LightPools.StopsShort` | go-ethereum/light/txpool.go:225-240 | The walk stops at the fork unless a header strictly between the fork and the new head is missing, and then at the highest missing one |
| `LightPools.LightTxPool.RollBackToFork` | go-ethereum/light/txpool.go:225-248 | Rolls back exactly the old branch above the block taken for the fork, and makes that block the head |
| `LightPools.LightTxPool.RollbackTxs` | go-ethereum/light/txpool.go:201-211 | The transactions of the block are pending again, and the changes stay net |
| `LightPools.LightTxPool.CheckMinedTxs` | go-ethereum/light/txpool.go:164-197 | Exactly the local transactions of the block become mined; any failure changes nothing; an entry the block already has is extended, and its transactions are reported once more. A net report stays net if and only if the check failed, nothing was pending, or the block had no entry |
| `LightPools.LightTxPool.ClearOld` | go-ethereum/light/txpool.go:258-274 | Drops exactly the entries of canonical blocks from the clearing index up to 500 below the head, and discards exactly their transactions |
| `LightPools.MarkMined` | go-ethereum/light/txpool.go:140-147 | Marking a pending transaction as mined keeps the report net, cancelling an earlier roll-back |
| `LightPools.MarkRolledBack` | go-ethereum/light/txpool.go:140-147 | Marking a mined transaction as rolled back keeps the report net, cancelling an earlier mining |
| `LightPools.MarkAgain` | go-ethereum/light/txpool.go:140-147 | Marking as mined what was not pending adds a mark beyond the net change |
| `LightPools.LightTxPool.Add` | go-ethereum/light/txpool.go:388-418 | Adding a transaction keeps the books in order if and only if it is not recorded as mined |
| `Distributors.Distributor.NextRequest` | go-ethereum/les/distributor.go:178-227 | Yields a peer without wait for the first request it can serve, if there is one; otherwise the shortest wait; drops exactly the leading requests no peer can serve |
| `Distributors.Distributor.Queue` | go-ethereum/les/distributor.go:233-260 | Inserts at the place of the creation order, also on re-queueing; the queue stays strictly sorted if and only if the request was not in it, and otherwise a twin stands right in front of it |
| `Distributors.Distributor.Cancel` | go-ethereum/les/distributor.go:265-276 | Removes the request if and only if it is still queued, and leaves the others in order |
| `Distributors.Distributor.Serve` | go-ethereum/les/distributor.go:126-160 | For any offers of the peers, look by look: each look drops exactly the leading requests no peer can serve and sends one to a peer that need not wait and could serve no earlier one; serving ends when no peer is ready, with the shortest wait or nothing |
| `Distributors.SeriesLoses` | go-ethereum/les/distributor.go:126-160 | A series of sendings loses no request but those sent and those no peer could serve |
| `Distributors.Distributor.Run` | go-ethereum/les/distributor.go:126-285 | In every run of queueing, cancelling, sending and changes of the peers each event does what the single operations promise, and the queue is strictly sorted by creation order after every one |
| `Distributors.WaitRightly` | go-ethereum/les/distributor.go:205-210 | Without a peer that is ready the recorded best wait is the shortest over all peers |
| `StateTransitions.IntrinsicGas` | go-ethereum/core/state_transition.go:84-106 | The base price plus the price of every data byte |
| `StateTransitions.IntrinsicMeans` | go-ethereum/core/state_transition.go:84-106 | Each byte of data costs 4 or 68 gas; without data a creation costs 53000 gas from Homestead on, and anything else 21000 |
| `StateTransitions.GasPool.SubGas` | go-ethereum/core/gaspool.go:35-42 | Deducts the amount, or reports that the limit is reached and changes nothing |
| `StateTransitions.StateTransition.BuyGas` | go-ethereum/core/state_transition.go:169-192 | Each refusal leaves pool and balances as they were; otherwise the gas moves from the pool to the message and its price is charged to the sender |
| `StateTransitions.StateTransition.RefundGas` | go-ethereum/core/state_transition.go:261-278 | The refund is capped at half of the gas used; sender and pool get exactly the gas left |
| `StateTransitions.StateTransition.TransitionDb` | go-ethereum/core/state_transition.go:210-259 | The order of refusals and what each leaves behind. Otherwise the virtual machine, an arbitrary function, runs on the world with the gas prepaid and the nonce moved on; the pool loses exactly the gas used, which is what the machine required less a refund of at most half; the world is the machine's with the spare gas paid back to the sender and the rest paid to the coinbase |
| `StateTransitions.EnteredMeans` | go-ethereum/core/state_transition.go:169-243 | When the machine starts the sender has paid for the gas, a call has moved its nonce on by one and a creation has not, and nothing else has changed |
| `StateTransitions.SettledMeans` | go-ethereum/core/state_transition.go:253-278 | Afterwards the sender has the unused gas paid back and the coinbase the used gas paid, and nothing else changes |
| `StateTransitions.RefundMeans` | go-ethereum/core/state_transition.go:268-271 | The refund is as large as it can be without exceeding the counter or half of the gas used |
| `StateTransitions.UsedGasMeans` | go-ethereum/core/state_transition.go:253-282 | The gas charged is what the machine required less the largest refund within the counter and half of it |
| `StateTransitions.Conserves` | go-ethereum/core/state_transition.go:210-278 | The total balance changes only by what the virtual machine did |
| `StateProcessors.Process` | go-ethereum/core/state_processor.go:58-84 | Succeeds if and only if every transaction is accepted in the world and with the gas its predecessors left, and otherwise returns the first refusal; the world, the total gas and every receipt are then those of applying the transactions one after another, and gas left and gas used make up the block limit |
| `StateProcessors.ApplyTransaction` | go-ethereum/core/state_processor.go:90-130 | The refusal, the world, the gas and the whole receipt of one transaction as functions of the machine's outcome |
| `StateProcessors.RefusalMeans` | go-ethereum/core/state_transition.go:169-228 | When each refusal occurs, in terms of the sender's nonce and balance, the gas left in the block and the message |
| `StateProcessors.NonceRises` | go-ethereum/core/state_transition.go:237-243 | If the machine never lowers a nonce, no transaction does, and a call that runs raises its sender's |
| `StateProcessors.NotTwice` | go-ethereum/core/state_transition.go:194-243 | If the machine never lowers a nonce, a call whose nonce is checked, once accepted, is refused for its nonce anywhere later in the block |
| `StateProcessors.ReceiptMeans` | go-ethereum/core/state_processor.go:115-129 | A receipt's status, gas, contract address and logs in terms of the transaction and the machine's outcome |
| `StateProcessors.BlockConserves` | go-ethereum/core/state_processor.go:58-84 | Over a whole block fees neither create nor destroy wei: the total balance changes only by what the machine did |
| `StateProcessors.GasBounds` | go-ethereum/core/state_processor.go:90-130 | Every transaction that runs pays for some gas, at most what it bought |
| `StateProcessors.SetReceiptsData` | go-ethereum/core/blockchain.go:662-694 | Sets every derived field in place: transaction hash, contract address, gas used, and the block, transaction and position of each log |
| `StateProcessors.ReceiptsRecovered` | go-ethereum/core/blockchain.go:662-694 | Storing only the outcome, the cumulative gas and the log payloads of a processed block and deriving the rest again yields exactly the receipts of processing |
| `StateProcessors.LogsNumbered` | go-ethereum/core/blockchain.go:684-691 | Logs are numbered through the block without a gap, and each names its block and transaction |
| `ByteConversions.FromByteArray` | go-ethereum/byteconversion/conversion.go:30-61 | An empty string is an error; any other is read as its two's-complement value, both negative branches agreeing |
| `ByteConversions.ToByteArray` | go-ethereum/byteconversion/conversion.go:69-106 | Writes a string that reads back as the number |
| `ByteConversions.RoundTrip` | go-ethereum/byteconversion/conversion.go:69-106 | Writing and reading gives the number again, for every integer |
| `ByteConversions.Minimal` | go-ethereum/byteconversion/conversion.go:63-68 | No shorter string stands for the number, except at -128 * 256^k, where one byte less would do |
| `ByteConversions.ShorterAtEdge` | go-ethereum/byteconversion/conversion.go:63-68 | At -128 * 256^k the string written is one byte longer than needed, against the comment that promises the minimum |
| `ByteConversions.FlipBytes` | go-ethereum/byteconversion/conversion.go:113-122 | Flips every byte |
| `ByteConversions.BitOperations` | go-ethereum/byteconversion/conversion.go:40-118 | The sign-bit test and the bit flip on bytes are comparison with 128 and subtraction from 255 |
| `GasLimits.CalcGasLimit` | go-ethereum/core/block_validator.go:106-134 | The proposed limit meets the consensus bound if and only if the parent limit is at least 5120, or less than 4779 gas was used, or the target is above the raised limit; it is never below the minimum. Below the target it rises as far as the bound and the target allow, and otherwise drifts with the parent's use |
| `GasLimits.BoundMissed` | go-ethereum/core/block_validator.go:106-134 | A used-up parent limit of 5000 leads out of the bound |

## Left out

- Hash functions, RLP, signatures, the trie and LevelDB: hashes are symbolic, transactions are identified by their content, database tables are maps.
- 64-bit and 256-bit wrap-around of numbers, difficulties, balances and weights, except where the code tests for it.
- Consensus validation of headers, blocks, uncles and states: a block offered for import is taken as valid.
- HeaderChains.HeaderChain.WriteHeader: a header that may become the head must have all its ancestors stored, as a rewind can leave side branches without theirs and the source would then follow a missing header; `InsertHeaderChain` needs no such condition on a store closed under parents.
- BlockChains.BlockChain.WriteBlock: blocks are kept by hash alone, and the fast-sync and header heads, receipts, bloom filters and state are not modelled.
- BlockChains.BlockChain.InsertChain: the future-block queue and bad-block reports are not modelled; the lookup index is claimed only if no transaction occurs twice on one branch.
- GetBlockNumber and its cache, ValidateHeaderChain, Rollback, InsertReceiptChain, fast sync, export and genesis set-up.
- SetGasPrice and the price heap's Cap, which drops the threshold entry from the heap.
- TxPools.TxPool.Add: size, signature and intrinsic gas of a transaction are one given condition.
- TxPools.TxPool.EqualizePending: needs a guaranteed allowance of at least one, as an allowance of zero would leave empty lists behind; the priority queue of spammers compares exact lengths, not rounded ones.
- The pool keeps its per-account lists as values, as specified by `TxLists.TxList`; sharing of list objects is not modelled. Journal, events, metrics, heartbeat timers and the eviction of old queues are left out.
- The heap and sort libraries are modelled by their contracts, keeping a multiset of entries with the least one at the root.
- The nodes of the weighted selection tree are values, so updates inside the tree are not modelled as writes to shared nodes; weights are not negative.
- Feeds.Feed.Send: element types, panics on a wrong type and blocking forever are not modelled; as in the source, a request to unsubscribe is for a live subscription.
- ChainIndexers.ChainIndexer.NewHead: child indexers, throttling and the back end's index data are not modelled; linkage of stored sections is claimed, not that they are canonical.
- LightPools.LightTxPool.ReorgOnNewHead: nonces, relaying and validation are left out; headers of the old branch are at hand, and no block lists a transaction twice.
- LightPools.LightTxPool.Run: a transaction that is still recorded as mined is not sent again; validation by nonce refuses it while its block is on the head's branch.
- Distributors.Distributor.Run: shutdown, channels and the timing of the loop are left out; a request that is still queued is not queued again.
- StateTransitions.StateTransition.TransitionDb: the virtual machine is an arbitrary function of the message, the world and the gas that returns no more gas than it got; return data are left out.
- StateProcessors.Process: the DAO fork, block rewards and state roots are left out.
- `les/fetcher.go`, `les/retrieve.go`, `les/serverpool.go`, peer-to-peer handling, RPC, console and command-line tools.
