# Verified models of a Bitcoin-derived node

This Dafny project models the core data structures and protocols of the hcscoin node (a
Bitcoin Core derived C++ program) and proves what they are for, over every input, every
operation sequence or every interleaving. `dafny verify dfyconfig.toml` checks everything.

| part | modules | main results |
|---|---|---|
| parallel check queue | `CheckQueue*` | over every interleaving of workers and master, `Complete` reports success only if every check of its session ran and passed; it is never stuck and returns within a bounded number of steps; no wake-up of a worker is lost |
| address manager | `AddrMan*` | every operation sequence keeps all indices, reference counts and per-network counters exact; a tried entry that connected within four hours is never displaced; `CheckAddrman` passes on every reachable state; when exactly addresses are inserted, moved, replaced and returned; writing to disk and reading back restores the state up to renaming of ids, and under another asmap loses only entries whose slot is taken; any file is refused or leaves a consistent manager |
| coins cache | `Coins*` | a stack of caches of any depth refines one plain map per layer; the "misapplied FRESH flag" error is unreachable; the exact caller contract of `AddCoin`; which entries a cache keeps |
| block index and active chain | `Chain*` | the skip list finds the true ancestor; `LastCommonAncestor`, `FindFork` and `SetTip` meet reference definitions; the skip heights in binary; shape and length of locators |
| Bech32 and Bech32m | `Bech32*`, `Iteration`, `Counting`, `Folding`, `Horner` | the checksum is a remainder of polynomials over GF(32) whose generator has e^997, e^998, e^999 as roots; any one to three wrong symbols are detected within 1023 symbols; a single wrong symbol is located exactly; decode and encode are inverse, and the accepted strings are known exactly |
| 256-bit arithmetic | `Limbs`, `Arith*` | every in-place operator computes on the value of the limbs modulo 2^(32 n); compact targets; the proof of work of a target is the floor of 2^256 / (target + 1) |
| compact blocks | `CompactBlock*` | short ids and free slots correspond one to one; what every slot ends up with; exactly what is at hand is found, and a block that was announced is rebuilt; the exact condition for the extra counter; differential indexes |
| Base 58 | `Digits`, `Base58*` | the buffer sizes always suffice; encoding and decoding are inverse both ways; the size limit is exact |
| block filters | `Bits`, `BitStream`, `GolombRice`, `CompactSize`, `BlockFilter*` | bit streams over bytes, Golomb-Rice codes and sizes are read back exactly; a filter has no false negatives, and `MatchAny` is the disjunction of single matches |

Objects that the program updates in place are classes (`AddrMan`, `CoinsCache`, `CoinsStore`,
`BlockIndex`, `ActiveChain`, `PartiallyDownloadedBlock`, `BitStreamWriter`, `BitStreamReader`,
`DifferenceFormatter`), limb and digit buffers are arrays, loops are loops with invariants.
The check queue is a transition system with one step per critical section, per call of a check,
per notification and per spurious wake-up. Hash functions, clocks, random numbers, the order of
hash containers and the contents of the mempool are parameters, so that every result holds for
all of them.

## Where code and expectation differ

- `SpendCoin` reports success for a cached entry that is already spent; the view is still right. `CoinsRuns.SpendTwice` spends one coin twice.
- `AddCoin` with `possible_overwrite` false, for a coin that the base still has and the cache has never seen, makes a later spend resurrect the base coin: `CoinsRuns.AddCoinResurrects`. `CoinsLemmas.AddCoinOk` and `CoinsRuns.AddThenSpend` give the exact condition.
- `CheckAddrman` passes on some broken states, `AddrManCheck.CheckMisses` for one. `AddrManCheck.CheckIsAlmostComplete` names exactly what it does not look at. No run reaches such a state (`AddrManRuns.RunConsistent`), and no file read from disk leaves one (`AddrManAnyFile.AnyFile`).
- The counter of extra transactions of a compact block counts wrongly, and can wrap below zero, exactly when an extra transaction displaces one from the mempool: `CompactBlockExtra.ExtraCountRight`, and `CompactBlockExtra.ExtraCountWraps` for one call. Neither counter is reset when the object is used again, so the model starts them from any value.
- A block filter of more than 0x02000000 elements can be built but neither matched nor read back, because the size is read with a limit (`BlockFilterMatch.MatchAnyIs`, `BlockFilterMatch.DecodeBuilt`).
- A comment in src/bech32.cpp gives 0x31edd3c4 for the powers e^999, e^998, e^997 in groups of ten bits. They are 0x3d0195bd (`Bech32Register.CommentedPowers`). The code does not use the number.

## Model

| member | source | states |
|---|---|---|
| `CheckQueue.BatchCount` | src/checkqueue.h:118-127 | a batch has at least one check and never more than are queued |
| `CheckQueueSafety.StepInv` | src/checkqueue.h:73-138 | every step of every thread keeps the whole invariant: exact counters, accounted checks, results of this session only |
| `CheckQueueSafety.RunInv` | src/checkqueue.h:73-207 | the invariant holds in every state of every run, for any number of workers and sessions |
| `CheckQueueSafety.CompleteIsSound` | src/checkqueue.h:167-171 | Complete returns nullopt if and only if every check added in its session ran exactly once and none reported an error; a value it returns was reported by a check of that session |
| `CheckQueueSafety.CountersAreExact` | src/checkqueue.h:52-66 | nTodo is queued plus in flight, nIdle and nTotal count sleeping and registered threads, in every reachable state |
| `CheckQueueSafety.MasterSleepsSafely` | src/checkqueue.h:98-116 | the master sleeps only while some worker still has checks in flight, so its wake-up is sure to come |
| `CheckQueueProgress.CompleteCanGoOn` | src/checkqueue.h:73-138 | while Complete runs some thread always has a step to take: no deadlock and no lost wake-up |
| `CheckQueueProgress.StopReachesEveryWorker` | src/checkqueue.h:192-199 | once a stop is requested and notified every worker has exited or can go on |
| `CheckQueueProgress.LoopStepWork` | src/checkqueue.h:73-138 | each step of the loop strictly decreases a work measure, except the step by which Complete returns |
| `CheckQueueProgress.CompleteReturns` | src/checkqueue.h:167-171 | under every schedule Complete returns within the work present at its start plus twice the spurious wake-ups |
| `CheckQueueWake.QueueIsAttended` | src/checkqueue.h:73-190 | in every reachable state with checks queued, no notification owed and no stop, some worker can go on by itself: no wake-up of a worker is lost |
| `CheckQueueWake.StepAttended` | src/checkqueue.h:73-199 | every step keeps this, because a worker sleeps only on an empty queue and every addition notifies |
| `CheckQueueWake.AddWakes` | src/checkqueue.h:174-190 | one added check wakes one sleeping worker, more wake them all, and nothing else of any thread changes |
| `CheckQueueWake.BatchCountIs` | src/checkqueue.h:118-123 | a batch is the largest number within the batch size and the share of the queue among all threads with the idle ones counted twice, but at least one |
| `CheckQueueWake.TakesNewest` | src/checkqueue.h:118-138 | a thread takes the newest checks in their order and calls them exactly if no error is known |
| `AddrManInvariant.CreateInv` | src/addrman.cpp:397-411 | a new entry is indexed both ways and in the random order; all other tables stay exact |
| `AddrManInvariant.SwapRandomInv` | src/addrman.cpp:413-435 | swapping two positions keeps the random order a permutation with right back pointers |
| `AddrManInvariant.DeleteInv` | src/addrman.cpp:437-452 | deleting an unreferenced entry leaves every index and counter exact |
| `AddrManInvariant.ClearNewInv` | src/addrman.cpp:454-470 | clearing a slot drops one reference and deletes the entry with its last one |
| `AddrManScan.ScanEnd` | src/addrman.cpp:472-497 | the scan over the buckets from the entry's own start, stopped at reference count zero, has removed exactly the slots of the entry |
| `AddrManOps.RemoveRefsInv` | src/addrman.cpp:472-497 | after the scan the entry is in no new bucket and uncounted, and all else is as before |
| `AddrManOps.EvictInv` | src/addrman.cpp:500-520 | the entry evicted from tried is back in one new bucket, whatever stood there is cleared, and counters follow |
| `AddrManOps.MakeTriedInv` | src/addrman.cpp:472-529 | MakeTried keeps every structure consistent, puts exactly this entry into its tried slot, keeps the one it evicts and loses at most one entry |
| `AddrManOps.AddSingleInv` | src/addrman.cpp:531-605 | AddSingle keeps every structure consistent on all its branches |
| `AddrManOps.GoodInv` | src/addrman.cpp:607-660 | Good keeps every structure consistent, with and without test before evict |
| `AddrManOps.AttemptInv` | src/addrman.cpp:674-692 | Attempt keeps every structure consistent |
| `AddrManOps.ResolveAllInv` | src/addrman.cpp:893-954 | resolving all pending collisions in any order keeps every structure consistent |
| `AddrManOps.SelectInv` | src/addrman.cpp:956-982 | selecting a collision keeps every structure consistent |
| `AddrManOps.GetAddrInv` | src/addrman.cpp:793-832 | the partial shuffle of GetAddr keeps every structure consistent |
| `AddrManRuns.RunConsistent` | src/addrman.cpp:397-982 | every sequence of operations from the empty manager keeps indices, reference counts, the permutation and the per-network counters exact |
| `AddrManRuns.RunLater` | src/addrman.cpp:397-982 | from any state of a run to any later one: an id never comes to stand for another address, and a tried slot once taken stays taken |
| `AddrManRuns.AddSingleKept` | src/addrman.cpp:531-605 | AddSingle leaves the tried table, the tried entries and the pending collisions alone, and no id comes to stand for another address |
| `AddrManRuns.RunCollisions` | src/addrman.cpp:607-660 | every pending collision that still has an entry is a new entry whose tried slot is taken, so the branch of ResolveCollisions for a vanished collision is unreachable |
| `AddrManRuns.CollisionIsReal` | src/addrman.cpp:956-982 | in every reachable state selecting a pending collision returns the entry that holds its tried slot and changes nothing |
| `AddrManRuns.RunRoutable` | src/addrman.cpp:531-540 | only routable addresses are ever in a reachable manager |
| `AddrManEffects.AddSingleOutcome` | src/addrman.cpp:531-605 | an insertion is reported exactly when the address takes over the one slot of its bucket, and no other slot changes; otherwise tables and known addresses stay as they were |
| `AddrManEffects.AddSingleHistory` | src/addrman.cpp:531-605 | no other address has its times, services or attempts changed |
| `AddrManEffects.GoodMoves` | src/addrman.cpp:607-660 | a reported move puts a new entry into its tried slot, which was free when the occupant has to be tested first |
| `AddrManEffects.GoodStays` | src/addrman.cpp:607-660 | otherwise both tables stay, and the address is unknown, tried already or waiting for a test |
| `AddrManEffects.GoodHistory` | src/addrman.cpp:607-660 | of the own entry only last success, last try and attempts change, to the time given and zero; of no other entry anything |
| `AddrManEffects.MakeTriedHistory` | src/addrman.cpp:472-529 | moving and evicting change no entry's times, services or attempts |
| `AddrManEffects.ResolveAllSpares` | src/addrman.cpp:893-954 | resolving collisions displaces a tried entry only if its last success was at least four hours ago |
| `AddrManEffects.DoSpares` | src/addrman.cpp:397-982 | no other operation ever displaces a tried entry |
| `AddrManExact.TerribleIs` | src/addrman.cpp:50-73 | an entry is terrible exactly if it was not tried in the last minute and one of four reasons with their limits in seconds and attempts holds |
| `AddrManExact.AddUnknownExact` | src/addrman.cpp:531-605 | an unknown address is inserted if and only if its slot is free or its occupant is terrible or has other slots; all fields of the new entry, with the time penalty |
| `AddrManExact.AddKnownExact` | src/addrman.cpp:531-605 | a known address gets another slot if and only if the news is newer, it is not tried, has fewer than eight slots, wins the draw, and its slot is free or its occupant terrible; its time and services are refreshed in any case and nothing else of it changes |
| `AddrManExact.AddUnroutable` | src/addrman.cpp:535-536 | an address without a route changes nothing |
| `AddrManExact.MakeTriedTables` | src/addrman.cpp:472-529 | the entry leaves all its new slots, and the evicted one goes to the new slot that its own source gives it, with one reference |
| `AddrManExact.GoodExact` | src/addrman.cpp:607-660 | an entry moves to tried if and only if it is new and its slot is free or need not be tested; the success is recorded in any case, and a collision becomes pending exactly if the slot is taken, to be tested, and fewer than ten are pending |
| `AddrManExact.AttemptExact` | src/addrman.cpp:674-692 | sets the last try, counts a failure at most once since the last success of anyone, and changes nothing else |
| `AddrManExact.ConnectedExact` | src/addrman.cpp:858-875 | moves the time of the entry exactly if it is more than twenty minutes old, and changes nothing else |
| `AddrManExact.SetServicesExact` | src/addrman.cpp:877-891 | replaces the services of the entry and nothing else |
| `AddrManExact.ResolveExact` | src/addrman.cpp:893-954 | the candidate takes the slot if and only if the occupant had no success for four hours and either was tried in these more than a minute ago or the candidate waits for more than forty minutes; the candidate stays pending exactly while this is undecided |
| `AddrManExact.ResolveGone` | src/addrman.cpp:897-914 | a candidate that is gone or no longer valid is forgotten and nothing else happens |
| `AddrManExact.ResolveEach` | src/addrman.cpp:893-954 | all pending candidates are resolved one after the other |
| `AddrManExact.SelectGone` | src/addrman.cpp:956-982 | a drawn candidate without an entry is forgotten |
| `AddrManGetAddr.GetAddrIs` | src/addrman.cpp:793-832 | whatever is drawn, the answer lists only entries of the asked network that are not terrible when filtered, none twice, at most the limit, and all of them if it stays below the limit |
| `AddrManGetAddr.AddrLimitIs` | src/addrman.cpp:798-805 | the limit is the largest number that neither the percentage nor the maximum forbids |
| `AddrManGetAddr.FirstDrawn` | src/addrman.cpp:813-818 | the place reached next goes to the entry that is drawn among the rest |
| `AddrManGetAddr.EarlierStay` | src/addrman.cpp:813-818 | places already drawn are not touched again |
| `AddrManBuckets.FewTriedBuckets` | src/addrman.cpp:29-34 | all addresses of a network group share eight tried buckets |
| `AddrManBuckets.FewNewBuckets` | src/addrman.cpp:36-42 | all that the sources of a group tell share 64 new buckets, and each network group among it one |
| `AddrManBuckets.Positions` | src/addrman.cpp:44-48 | within a bucket an address has one position, by a hash of its own for each table |
| `AddrManCheck.ConsistentPasses` | src/addrman.cpp:1044-1147 | every consistent state passes all tests of CheckAddrman |
| `AddrManCheck.RunPasses` | src/addrman.cpp:1044-1147 | every reachable state passes CheckAddrman |
| `AddrManCheck.CheckIsAlmostComplete` | src/addrman.cpp:1044-1147 | for tables that are tables, consistency is exactly what CheckAddrman tests together with three named things it does not look at |
| `AddrManCheck.CheckMisses` | src/addrman.cpp:1044-1147 | a broken state that passes the check, and that no run reaches |
| `AddrManCheckLoop.CheckAddrman` | src/addrman.cpp:1044-1147 | the looping check returns 0 exactly when all tests hold; with the three things it does not look at, exactly when the object is consistent |
| `AddrManRoundTrip.RoundTrip` | src/addrman.cpp:114-380 | reading back what was written succeeds, passes the check and restores every entry, every slot of both tables and all counts, up to renaming of ids |
| `AddrManRoundTrip.RunRoundTrip` | src/addrman.cpp:114-380 | the round trip holds for every reachable manager |
| `AddrManRoundTrip.NewFits` | src/addrman.cpp:248-256 | each new entry has a slot of its own, so the count passes the range test of reading |
| `AddrManRoundTrip.TriedFits` | src/addrman.cpp:258-266 | likewise for tried entries |
| `AddrManAnyFile.AnyFile` | src/addrman.cpp:212-380 | for a file of any content and any order of pruning, the final check passes exactly when the manager is consistent, so a file is refused or leaves a consistent manager |
| `AddrManReload.Reload` | src/addrman.cpp:212-380 | the file of a consistent manager, read under any hashes and any asmap, is accepted and gives a consistent manager; a tried entry is back if and only if no earlier one of the file has its slot; a valid new entry is missing only if another entry holds the slot its source gives it; under another asmap every new entry is in that slot |
| `AddrManReload.RunReload` | src/addrman.cpp:212-380 | the same for every reachable manager |
| `AddrManReload.RestoreServes` | src/addrman.cpp:329-357 | one bucket entry of the file leaves its entry with a reference, or with its own slot taken, with and without restored buckets |
| `AddrManReload.TriedComesBack` | src/addrman.cpp:281-304 | a tried record comes back unchanged if and only if it is valid and no earlier valid one has its slot |
| `AddrManReload.NothingElse` | src/addrman.cpp:268-370 | nothing is in the manager that was not in the file |
| `AddrManReload.HeaderWritten` | src/addrman.cpp:158-172 | the header says format 4, lowest compatible format 4 and 1024 buckets with bit 30 flipped |
| `AddrManReload.HeaderRefused` | src/addrman.cpp:220-266 | a file is refused before its records exactly for its version, its counts or a stream that does not hold them |
| `AddrMan.AddrMan.Find` | src/addrman.cpp:382-395 | finds the id and entry that the model has for an address |
| `AddrMan.AddrMan.Create` | src/addrman.cpp:397-411 | the object's new state is the model's Create |
| `AddrMan.AddrMan.SwapRandom` | src/addrman.cpp:413-435 | the in-place swap is the model's |
| `AddrMan.AddrMan.Delete` | src/addrman.cpp:437-452 | the object's new state is the model's Delete |
| `AddrMan.AddrMan.ClearNew` | src/addrman.cpp:454-470 | the object's new state is the model's ClearNew |
| `AddrMan.AddrMan.RemoveRefs` | src/addrman.cpp:472-497 | the early-stopping scan removes all references of the entry |
| `AddrMan.AddrMan.MakeTried` | src/addrman.cpp:472-529 | the object's new state is the model's MakeTried |
| `AddrMan.AddrMan.AddSingle` | src/addrman.cpp:531-605 | the object's new state and answer are those of the model that `AddrManExact` describes exactly, and it stays consistent |
| `AddrMan.AddrMan.Good` | src/addrman.cpp:607-660 | the object's new state and answer are those of the model that `AddrManExact.GoodExact` describes exactly, and it stays consistent |
| `AddrMan.AddrMan.Attempt` | src/addrman.cpp:674-692 | the object's new state is the model's, and it stays consistent |
| `AddrMan.AddrMan.Connected` | src/addrman.cpp:858-875 | the object's new state is the model's, and it stays consistent |
| `AddrMan.AddrMan.SetServices` | src/addrman.cpp:877-891 | the object's new state is the model's, and it stays consistent |
| `AddrMan.AddrMan.ResolveCollisions` | src/addrman.cpp:893-954 | pending ids are resolved in ascending order as the model does, and the object stays consistent |
| `AddrMan.AscendingIs` | src/addrman.cpp:897-898 | the order in which pending ids are resolved lists each once, ascending |
| `AddrMan.AddrMan.SelectTriedCollision` | src/addrman.cpp:956-982 | the object's answer and new state are the model's |
| `AddrMan.AddrMan.GetAddr` | src/addrman.cpp:793-832 | the object's answer and new order are those of the shuffle that `AddrManGetAddr.GetAddrIs` describes |
| `CoinsLemmas.AddCoinOk` | src/coins.cpp:73-114 | AddCoin keeps the meaning of FRESH if and only if overwrite is allowed, the entry is cached or the base has no such coin |
| `CoinsLemmas.SpendOk` | src/coins.cpp:137-159 | spending removes the coin from what the cache shows and keeps the flags meaningful |
| `CoinsLemmas.ReceiveOk` | src/coins.cpp:194-263 | an entry flagged in a valid child is always accepted by its parent and acts as put or remove on what the parent shows |
| `CoinsLemmas.UncacheOk` | src/coins.cpp:296-309 | uncaching changes nothing that is shown |
| `CoinsFlags.UncacheExact` | src/coins.cpp:296-309 | drops exactly a clean entry |
| `CoinsFlags.SpendExact` | src/coins.cpp:137-159 | a coin new to the layer below disappears from the cache, any other stays as spent and unwritten |
| `CoinsFlags.AddCoinExact` | src/coins.cpp:73-114 | which coins are ignored or refused, and exactly when an entry is marked as new to the layer below |
| `CoinsFlags.ReceiveExact` | src/coins.cpp:194-263 | the received entry keeps the mark of the receiver, or of the sender if the receiver has none; a spent coin so marked is dropped; the error exactly for a marked coin over an unspent one |
| `CoinsFlags.AddThenSpendUndone` | src/coins.cpp:73-159 | a coin added and spent between two writes leaves the cache exactly as it was |
| `CoinsFlags.FetchThenUncacheUndone` | src/coins.cpp:52-65 | fetching a coin and uncaching it leaves the cache exactly as it was |
| `CoinsWrite.DeliveredAll` | src/coins.cpp:194-263 | when all flagged entries are delivered the parent shows what the child shows |
| `CoinsWrite.SyncedOk` | src/coins.h:290-305 | after the cursor has visited all flagged entries the kept ones are clean and agree with the parent |
| `Coins.CoinsStore.BatchWrite` | src/txdb.cpp:122-180 | the bottom store ends up as the map the child showed |
| `Coins.CoinsCache.PeekCoin` | src/coins.cpp:28-34 | answers from the view without changing any layer |
| `Coins.CoinsCache.FetchCoin` | src/coins.cpp:52-65 | pulls an entry up through all layers without changing what any layer shows |
| `Coins.CoinsCache.GetCoin` | src/coins.cpp:67-71 | answers from the view |
| `Coins.CoinsCache.AccessCoin` | src/coins.cpp:163-170 | answers from the view |
| `Coins.CoinsCache.HaveCoin` | src/coins.cpp:172-176 | says exactly whether the view has the coin |
| `Coins.CoinsCache.HaveCoinInCache` | src/coins.cpp:178-181 | true only for coins of the view; false for a coin of the view only if the base has it |
| `Coins.CoinsCache.AddCoin` | src/coins.cpp:73-114 | puts the coin into the view, or fails with nothing changed exactly when it would overwrite an unspent coin without permission |
| `Coins.CoinsCache.SpendCoin` | src/coins.cpp:137-159 | removes the coin from the view of this layer alone; succeeds for every cached entry, spent or not, and leaves exactly the flags of the model |
| `Coins.CoinsCache.Uncache` | src/coins.cpp:296-309 | no layer shows anything different, and the entry is gone exactly if it was clean |
| `Coins.CoinsCache.Reset` | src/coins.cpp:288-294 | the cache shows its base again |
| `Coins.CoinsCache.GetBestBlock` | src/coins.cpp:183-187 | the hash of the nearest layer that has one |
| `Coins.CoinsCache.ReceiveEntry` | src/coins.cpp:194-263 | one step of BatchWrite with its error exactly as the model has it |
| `Coins.CoinsCache.BatchWrite` | src/coins.cpp:194-263 | never fails on a valid child; this layer then shows what the child shows and no other layer changes |
| `Coins.CoinsCache.Flush` | src/coins.cpp:265-275 | never fails; the layer below shows what this cache shows, and the cache is empty |
| `Coins.CoinsCache.Sync` | src/coins.cpp:277-286 | as Flush, with unspent entries kept clean in the cache |
| `CoinsRuns.RunStack` | src/coins.cpp:28-309 | any mix of operations at any level of a stack acts as put, remove and copy on plain maps, and every answer is the maps' answer |
| `CoinsRuns.AddThenSpend` | src/coins.cpp:73-159 | after AddCoin and a spend the coin is gone for the next layer if and only if the caller kept the contract of AddCoin |
| `CoinsRuns.AddCoinResurrects` | src/coins.cpp:73-159 | the failing case: adding over a hidden coin of the base and spending brings the coin of the base back |
| `CoinsRuns.SpendTwice` | src/coins.cpp:137-159 | a coin of the base is spent twice with success, the second time with nothing to move |
| `CoinsCheck.ValidIsSane` | src/coins.cpp:337-367 | every valid cache satisfies all equalities of SanityCheck |
| `CoinsCheck.SanityCheck` | src/coins.cpp:337-367 | the scanning check accepts exactly the sane caches |
| `ChainIndex.GetSkipHeight` | src/chain.cpp:69-80 | the skip height is below the height |
| `ChainSkip.ClearsLowestOne` | src/chain.cpp:69-70 | the bitwise and of a number and its predecessor turns off its lowest one bit and nothing else |
| `ChainSkip.HasForm` | src/chain.cpp:69-81 | every positive height is an odd number shifted to the left, odd heights by nothing |
| `ChainSkip.SkipFromEven` | src/chain.cpp:72-81 | from an even height the lowest one bit is turned off |
| `ChainSkip.SkipFromOdd` | src/chain.cpp:72-81 | from an odd height the lowest two ones above the last bit are turned off, if there are two |
| `ChainIndex.BlockIndex.GetAncestor` | src/chain.cpp:82-107 | the mixed walk over skip and parent pointers ends at the block that parents alone reach, for every height |
| `ChainIndex.BlockIndex.BuildSkip` | src/chain.cpp:114-118 | the skip pointer set from the parent is the ancestor at the skip height, along the whole branch |
| `ChainIndex.BlockIndex.AncestorTwice` | src/chain.cpp:82-107 | the ancestor of an ancestor is an ancestor |
| `ChainIndex.BlockIndex.EqualSkips` | src/chain.cpp:163-170 | blocks of equal height on any branches have skip pointers of equal, lower height |
| `Chain.LastCommonAncestor` | src/chain.cpp:154-177 | the highest block that both branches contain, or null if there is none |
| `Chain.SkipTogether` | src/chain.cpp:163-170 | following skip pointers in step keeps both walks level and never passes the fork |
| `Chain.ForkUnique` | src/chain.cpp:152-154 | there is only one last common ancestor |
| `Chain.ChainIsBranch` | src/chain.h:379-415 | a chain is the branch of its tip |
| `Chain.ActiveChain.SetTip` | src/chain.cpp:16-24 | after the early-stopping loop the chain is exactly the branch of the new tip |
| `Chain.ActiveChain.FindFork` | src/chain.cpp:50-58 | the last common ancestor of the block and the tip |
| `Chain.ActiveChain.ContainsIsAncestor` | src/chain.h:410-413 | the chain contains a block exactly when it is an ancestor of the tip |
| `Chain.LocatorEntries` | src/chain.cpp:26-43 | starts at the block, ends at height 0, and entry k is the ancestor at the k-th locator height |
| `Chain.StepsBackGrow` | src/chain.cpp:26-43 | eleven steps of one, then steps that double |
| `Chain.LocatorIsShort` | src/chain.cpp:26-43 | n entries reach back more than 2^(n - 12) blocks, so a locator is logarithmic in the height |
| `Bech32Order.OrderExact` | src/bech32.cpp:30-45 | the powers of e first return to 1 at 1023 |
| `Bech32Order.PowEqual` | src/bech32.cpp:30-45 | two powers of e are equal exactly when the exponents agree modulo 1023 |
| `Bech32Order.PowOnto` | src/bech32.cpp:30-45 | every non-zero element of GF(1024) is a power of e |
| `Bech32Order.ScalarLog` | src/bech32.cpp:480-486 | a power of e that lies in GF(32) has an exponent divisible by 33 |
| `Bech32Tables.GF32Tables` | src/bech32.cpp:46-77 | the loop fills tables of the powers and logarithms of x in GF(32) |
| `Bech32Tables.GenerateGFTables` | src/bech32.cpp:79-115 | the loop fills tables of the powers and logarithms of e in GF(1024) |
| `Bech32Tables.ProductIs` | src/bech32.cpp:104-107 | looking up a sum of logarithms is multiplication in GF(32) |
| `Bech32Tables.TableLog` | src/bech32.cpp:39-45 | the logarithm table inverts the powers on every non-zero element |
| `Bech32Poly.PolyMod` | src/bech32.cpp:130-216 | the loop over shifts and exclusive ors folds the division step over all symbols |
| `Bech32Poly.StepDivides` | src/bech32.cpp:158-212 | one step with its five constants is multiplication by x, addition of the symbol and reduction by the generator |
| `Bech32Poly.PolyLinear` | src/bech32.cpp:130-216 | the remainder is linear in register and symbols |
| `Bech32Register.XorPacked` | src/bech32.cpp:130-216 | exclusive or of 30-bit registers is addition symbol by symbol |
| `Bech32Register.RegisterIs` | src/bech32.cpp:192-212 | the shift, mask and five conditional exclusive ors on the integer are the division step on symbols |
| `Bech32Register.PolyModRegister` | src/bech32.cpp:130-216 | PolyMod on the 30-bit integer computes the packed remainder |
| `Bech32Register.PackedInjective` | src/bech32.cpp:127-130 | different remainders are different integers |
| `Bech32Roots.EvalStep` | src/bech32.cpp:218-239 | at a root of the generator a step of the division is a step of evaluating the word |
| `Bech32Roots.Root997` | src/bech32.cpp:218-239 | e^997 is a root of the generator |
| `Bech32Roots.Root998` | src/bech32.cpp:218-239 | e^998 is a root of the generator |
| `Bech32Roots.Root999` | src/bech32.cpp:218-239 | e^999 is a root of the generator |
| `Bech32Errors.ErrorSyndrome` | src/bech32.cpp:470-473 | an error x at distance p from the end has syndrome x e^(jp) |
| `Bech32Detect.Vandermonde` | src/bech32.cpp:218-239 | three error terms at distinct positions with vanishing syndromes are zero |
| `Bech32Detect.DetectsThreeErrors` | src/bech32.cpp:130-216 | words of at most 1023 symbols that differ in one to three places have different remainders |
| `Bech32.CheckCharacters` | src/bech32.cpp:287-308 | flags exactly the unprintable characters and the letters of the second case, and accepts exactly strings without any |
| `Bech32.CharsetIs` | src/bech32.cpp:22-35 | the 32 characters in their order; a character reads as n exactly if it is the n-th of the set in either case |
| `Bech32RoundTrip.CharactersOkIs` | src/bech32.cpp:287-309 | a string passes exactly if all its bytes are from 33 to 126 and it has no letters of both cases |
| `Bech32.PreparePolynomialCoefficients` | src/bech32.cpp:311-324 | index by index: each character divided by 32, a zero, each character modulo 32, then the values |
| `Bech32.CreateChecksum` | src/bech32.cpp:342-353 | the six symbols are the checksum of the word |
| `Bech32.VerifyChecksum` | src/bech32.cpp:327-339 | tells the encoding whose constant the remainder is, if any |
| `Bech32.Constants` | src/bech32.cpp:122-125 | the constants of both encodings as the integers of the source |
| `Bech32.ChecksumUnique` | src/bech32.cpp:327-353 | six symbols complete a word to the constant of an encoding exactly when they are its checksum |
| `Bech32.Encode` | src/bech32.cpp:358-371 | the prefix, a 1, one character of the set per value and six more, the checksum |
| `Bech32.Decode` | src/bech32.cpp:374-400 | the text is cut at its last separator, and every rejection of the source is one here |
| `Bech32RoundTrip.DecodeEncode` | src/bech32.cpp:358-400 | whatever was encoded within the limit is decoded to the same encoding, prefix and data |
| `Bech32RoundTrip.EncodeDecode` | src/bech32.cpp:358-400 | every accepted string is, in lower case, the encoding of what it decodes to |
| `Bech32RoundTrip.DecodedExactly` | src/bech32.cpp:374-400 | a string decodes to an encoding, prefix and payload if and only if it is within the limit, passes the characters test and is in lower case their encoding, for a prefix that BIP 173 allows |
| `Bech32RoundTrip.DecodeInjective` | src/bech32.cpp:374-400 | strings that decode alike differ at most in case |
| `Bech32Syndrome.GenerateSyndromeConstants` | src/bech32.cpp:240-253 | the 25 constants are the values of single bits at the three roots |
| `Bech32Syndrome.Syndrome` | src/bech32.cpp:261-278 | the bit-by-bit sum is the value of the remainder at e^997, e^998 and e^999 |
| `Bech32Syndrome.PartIsEval` | src/bech32.cpp:240-278 | the weighted bits of a remainder add up to its value at a root |
| `Bech32Register.CommentedPowers` | src/bech32.cpp:269-273 | e^999, e^998 and e^997 in groups of ten bits are 0x3d0195bd and not the number in the comment |
| `Bech32Locate.AttemptFor` | src/bech32.cpp:447-489 | one attempt for an encoding finds no error, one position or none, from logarithms as in the source |
| `Bech32Locate.OneErrorFound` | src/bech32.cpp:470-489 | a valid word with exactly one wrong symbol is located at exactly that symbol |
| `Bech32Locate.SingleLocated` | src/bech32.cpp:470-489 | the remainder of a single error gives its position for every error value |
| `Limbs.CarriedMod` | src/arith_uint256.h:117-127 | carrying from limb to limb and dropping the last carry is reduction modulo 2^(32 n) |
| `ArithUint.Add` | src/arith_uint256.h:117-127 | addition in place modulo 2^(32 n) |
| `ArithUint.Increment` | src/arith_uint256.h:155-162 | plus one modulo 2^(32 n), with early stop |
| `ArithUint.Decrement` | src/arith_uint256.h:172-179 | minus one modulo 2^(32 n), with early stop |
| `ArithUint.Complement` | src/arith_uint256.h:51-57 | 2^(32 n) - 1 minus the value |
| `ArithUint.Negate` | src/arith_uint256.h:59-67 | the negative modulo 2^(32 n) |
| `ArithUint.Subtract` | src/arith_uint256.h:129-133 | subtraction in place modulo 2^(32 n) |
| `ArithMul.MulSmall` | src/arith_uint256.cpp:48-58 | multiplication by a 32-bit number modulo 2^(32 n) |
| `ArithMul.Multiply` | src/arith_uint256.cpp:60-74 | the cut-off schoolbook product is the product modulo 2^(32 n) |
| `ArithMul.ProductMod` | src/arith_uint256.cpp:60-74 | the sum of all cut-off rows is the product modulo 2^(32 n) |
| `ArithShift.ShiftLeft` | src/arith_uint256.cpp:14-28 | multiplication by 2^shift modulo 2^(32 n), for every shift |
| `ArithShiftRight.ShiftRight` | src/arith_uint256.cpp:31-45 | floor division by 2^shift, for every shift |
| `ArithDiv.CompareTo` | src/arith_uint256.cpp:102-112 | orders two numbers by their values |
| `ArithDiv.Bits` | src/arith_uint256.cpp:156-169 | the position of the highest bit set |
| `ArithDiv.Divide` | src/arith_uint256.cpp:76-100 | floor division, and an error exactly for divisor zero |
| `ArithCompact.OverflowExact` | src/arith_uint256.cpp:188-191 | the overflow flag says exactly that the target does not fit into 256 bits |
| `ArithCompact.CompactCuts` | src/arith_uint256.cpp:176-217 | packing and unpacking clears low bytes and nothing else |
| `ArithCompact.CompactTwice` | src/arith_uint256.cpp:176-217 | a second round trip changes nothing |
| `ArithCompact.CompactRoundTrip` | src/arith_uint256.cpp:176-217 | a packed 256-bit number unpacks without overflow or sign to the largest multiple of the dropped unit below it |
| `ArithCompact.UnpackPack` | src/arith_uint256.cpp:196-217 | the fields of a compact number survive packing into 32 bits |
| `ArithCompact.PackUnpack` | src/arith_uint256.cpp:176-182 | the three fields of a compact number: size byte, sign bit, mantissa of 23 bits |
| `ArithCompact.TargetFloor` | src/arith_uint256.cpp:176-187 | the target is the floor of the mantissa times 256^(size - 3), for every size |
| `ArithCompact.CompactPrecise` | src/arith_uint256.cpp:196-217 | a form that drops bytes has a mantissa from 0x8000 to 0x7fffff, so no form shows more of the number |
| `Arith256.SetCompact` | src/arith_uint256.cpp:176-194 | value, sign and overflow are those of mantissa times 256^(size - 3) |
| `Arith256.GetCompact` | src/arith_uint256.cpp:196-217 | the 32-bit number is the normal compact form of the value |
| `Arith256.NotAllOnes` | src/chain.cpp:127-132 | no compact form stands for 2^256 - 1, so adding one to a target never wraps |
| `Arith256.GetBitsProof` | src/chain.cpp:120-133 | the floor of 2^256 / (target + 1), and 0 for a zero, negative or overflowing target |
| `CompactBlockIds.MapShortIds` | src/blockencodings.cpp:95-117 | short ids are mapped in order to the free slots; accepted if and only if they are distinct and no bucket is crowded |
| `CompactBlockIds.OneToOne` | src/blockencodings.cpp:95-117 | the accepted map is one to one between short ids and free slots |
| `CompactBlockFill.MatchAll` | src/blockencodings.cpp:119-176 | the loop with its early exit is the fold of single matches; it changes no prefilled slot, fills slots only with known transactions of the right short id and keeps the mempool counter exact |
| `CompactBlockFill.MatchOk` | src/blockencodings.cpp:119-176 | one match, duplicate or displacement keeps every slot and the mempool counter right |
| `CompactBlockOutcome.SlotOutcome` | src/blockencodings.cpp:116-176 | what every free slot holds at the end, told by the transactions with its short id that the loops look at: the only one of the mempool if the extra ones only repeat it, an extra one if the mempool has none and the extra ones agree, and nothing otherwise |
| `CompactBlockOutcome.StopsAtFirst` | src/blockencodings.cpp:137-142 | a loop stops after the first transaction that accounts for every short id, and only there |
| `CompactBlockOutcome.PrefilledFit` | src/blockencodings.cpp:72-87 | the tests of the single prefilled transactions hold exactly if none is null and the last has its place inside the block and 16 bits |
| `CompactBlockOutcome.SkippedSlots` | src/blockencodings.cpp:72-87 | the index of a prefilled transaction is the number of free slots between it and the one before |
| `CompactBlockBuild.PartiallyDownloadedBlock.PlacePrefilled` | src/blockencodings.cpp:72-90 | accepts exactly messages whose prefilled transactions fit, and puts each at its place |
| `CompactBlockBuild.PartiallyDownloadedBlock.InitData` | src/blockencodings.cpp:59-179 | rejects exactly the malformed messages and used objects, fails only for repeated short ids or a crowded bucket, and otherwise lays out prefilled, known and free slots as the two loops of matches leave them |
| `CompactBlockBuild.PartiallyDownloadedBlock.IsTxAvailable` | src/blockencodings.cpp:181-187 | says exactly whether the slot is filled |
| `CompactBlockBuild.PartiallyDownloadedBlock.FillBlock` | src/blockencodings.cpp:189-214 | interleaves slots and missing transactions, with each failure exactly as in the source; succeeds at most once |
| `CompactBlockBuild.AssembleShape` | src/blockencodings.cpp:189-214 | there are enough missing transactions exactly when there is one per free slot |
| `CompactBlockRebuild.MakeMessage` | src/blockencodings.cpp:20-33 | the first transaction is prefilled and the rest are short ids in order |
| `CompactBlockRebuild.MessageAccepted` | src/blockencodings.cpp:20-90 | the announcement of a block is malformed exactly for a null header, a null first transaction or too many transactions |
| `CompactBlockRebuild.SlotIsRight` | src/blockencodings.cpp:59-179 | without colliding short ids every filled slot holds the block's own transaction |
| `CompactBlockRebuild.Reconstruction` | src/blockencodings.cpp:20-214 | whatever was found in the mempool, adding the transactions of the free slots rebuilds exactly the block |
| `CompactBlockRelay.FoundIfAtHand` | src/blockencodings.cpp:119-176 | without colliding short ids a slot is filled if and only if its transaction is in the mempool or among the extra ones, despite the early exits |
| `CompactBlockRelay.Relay` | src/blockencodings.cpp:20-214 | announcing, filling and completing a block asks for exactly the transactions not at hand and gives the block back |
| `CompactBlockExtra.ExtraCounted` | src/blockencodings.cpp:148-176 | after the loop the extra counter is its start plus the slots filled by extra transactions less the displaced ones of the mempool, modulo 2^64 |
| `CompactBlockExtra.ExtraCountExact` | src/blockencodings.cpp:119-176 | after both loops on a fresh object the extra counter is exact if and only if nothing of the mempool was displaced |
| `CompactBlockExtra.DisplacedIs` | src/blockencodings.cpp:148-176 | a transaction of the mempool is displaced exactly when the loop looks at an extra one with its short id and another witness hash |
| `CompactBlockExtra.ExtraCountRight` | src/blockencodings.cpp:119-176 | the counter is exact if and only if the loop looks at no such transaction |
| `CompactBlockExtra.ExtraCountWraps` | src/blockencodings.cpp:59-179 | one call of InitData after which the counter is 2^64 - 1 |
| `CompactBlockIndexes.DifferenceFormatter.Ser` | src/blockencodings.h:28-34 | writes the distance to the previous index, and fails exactly for an index that does not ascend or is too large |
| `CompactBlockIndexes.DifferenceFormatter.Unser` | src/blockencodings.h:35-42 | adds the distance, and fails exactly when the sum overflows or passes the limit |
| `CompactBlockIndexes.Write` | src/blockencodings.h:23-43 | writing a list with one formatter gives its differences, or fails where they fail |
| `CompactBlockIndexes.ReadBack` | src/blockencodings.h:23-43 | reading with one formatter gives the running sums, or fails where they fail |
| `CompactBlockIndexes.WritableIsAscending` | src/blockencodings.h:23-43 | exactly the strictly ascending lists can be written |
| `CompactBlockIndexes.SumsOfDifferences` | src/blockencodings.h:23-43 | what was written is read back, or refused exactly when an index passes the limit |
| `CompactBlockIndexes.DifferencesOfSums` | src/blockencodings.h:23-43 | writing what was read gives the same numbers |
| `Base58.EncodeSize` | src/base58.cpp:98-100 | n bytes always fit into n * 138 / 100 + 1 base 58 digits |
| `Base58.DecodeSize` | src/base58.cpp:53-55 | n base 58 digits always fit into n * 733 / 1000 + 1 bytes |
| `Base58.MulAddCanon` | src/base58.cpp:105-113 | the digit loop turns the digits of v into the digits of f v + c, without leading zeros |
| `Base58.MulAdd` | src/base58.cpp:103-113 | the loop over the buffer leaves the digits of the new number and no carry |
| `Base58Codec.EncodeBase58` | src/base58.cpp:89-127 | the text is a '1' per leading zero byte and then the number in base 58 |
| `Base58Codec.AlphabetIs` | src/base58.cpp:20 | the 58 characters in their order |
| `Base58Codec.RevIs` | src/base58.cpp:21-38 | a character reads as n exactly if it is the n-th of the alphabet, and there are six spaces |
| `Base58Decode.DecodeBase58` | src/base58.cpp:40-87 | accepts exactly spaces, alphabet characters, spaces within the size limit, and gives the bytes they stand for |
| `Base58Decode.LimitIs` | src/base58.cpp:48-73 | the limits checked while reading are one limit on the final length |
| `Base58Decode.DecodeEncode` | src/base58.cpp:40-127 | every byte string comes back between any spaces, exactly when it is within the limit |
| `Base58Decode.EncodeDecode` | src/base58.cpp:40-127 | every accepted text is the encoding of its bytes between spaces |
| `BitStream.BitStreamWriter.Write` | src/streams.h:351-366 | the low bits of the data follow the bits written so far; fails exactly for bit counts outside 0 to 64 |
| `BitStream.BitStreamWriter.Flush` | src/streams.h:371-379 | the last byte is filled with zeros and the bytes then hold exactly the bits written |
| `BitStream.BitStreamReader.Read` | src/streams.h:303-322 | returns the next bits as a number and consumes exactly those, or fails exactly when there are too few |
| `BitStream.ChunkIs` | src/streams.h:356-360 | the two shifts pick the next bits and put them right behind those held |
| `BitStream.TakenIs` | src/streams.h:315-319 | the two shifts pick the next unread bits of the byte |
| `GolombRice.GolombRiceEncode` | src/util/golombrice.h:14-29 | writes the quotient in unary, a zero and the remainder |
| `GolombRice.GolombRiceDecode` | src/util/golombrice.h:31-43 | reads the number that the remaining bits begin with, or fails exactly when they end too early |
| `GolombRice.GolombRoundTrip` | src/util/golombrice.h:14-43 | every 64-bit number is read back, whatever follows its code |
| `GolombRice.GolombShape` | src/util/golombrice.h:14-29 | the code of x is as many ones as 2^P goes into x, a zero, and the remainder in P bits |
| `Bits.BitAt` | src/streams.h:351-366 | bit i of n bits counts from the most significant one |
| `CompactSize.SizeRoundTrip` | src/serialize.h:301-363 | a size is read back exactly when it is within the limit |
| `CompactSize.SizeBytes` | src/serialize.h:301-326 | the bytes of a size: itself below 253, else 253, 254 or 255 and two, four or eight bytes, the lowest first |
| `CompactSize.SizeCanonical` | src/serialize.h:332-363 | only the bytes that would be written are accepted |
| `BlockFilter.FastRangeSame` | src/util/fastrange.h:24-49 | the product in four 32-bit parts has the same upper word as the full product |
| `BlockFilter.FastRangeBound` | src/util/fastrange.h:24-49 | the reduced hash lies in the range |
| `BlockFilter.SortSorts` | src/blockfilter.cpp:34-43 | the hashes are put in ascending order and none is lost or added |
| `BlockFilter.BuildHashedSet` | src/blockfilter.cpp:26-43 | the sorted hashes of all elements; its members are the products of hash and range divided by 2^64 |
| `BlockFilter.FilterNext` | src/blockfilter.cpp:74-102 | each further value adds the code of its distance to the value before |
| `BlockFilter.BuildFilter` | src/blockfilter.cpp:74-102 | the encoding is the size and then the codes of the differences of the sorted hashes, packed into bytes; fails exactly for 2^32 elements or more |
| `BlockFilterMatch.MatchInternal` | src/blockfilter.cpp:104-134 | the early-stopping merge over codes and queries, on well-formed and malformed encodings |
| `BlockFilterMatch.Match` | src/blockfilter.cpp:136-140 | matches the hash of one element |
| `BlockFilterMatch.MatchAny` | src/blockfilter.cpp:142-146 | matches the sorted hashes of all elements |
| `BlockFilterMatch.MergeIsCommon` | src/blockfilter.cpp:104-134 | over the codes of a sorted list and sorted queries the merge is true exactly when the two share a member |
| `BlockFilterMatch.MatchAnyIs` | src/blockfilter.cpp:74-146 | on a built filter MatchAny is true exactly when some element and some query have the same hash, and fails exactly for filters above the size limit |
| `BlockFilterMatch.NoFalseNegatives` | src/blockfilter.cpp:74-146 | every element that went in matches, alone and among any others |
| `BlockFilterMatch.MatchAnyIsSome` | src/blockfilter.cpp:136-146 | MatchAny is the disjunction of single matches |
| `BlockFilterMatch.DecodeFilter` | src/blockfilter.cpp:49-72 | accepts exactly encodings with the stated number of codes and no byte to spare, or any when the test is skipped |
| `BlockFilterMatch.DecodeBuilt` | src/blockfilter.cpp:49-102 | a built filter is accepted and comes back as it was, exactly when its size is within the limit |

## Left out

- Select_ and GetChance of the address manager: a loop that ends with probability one, with no bound to prove.
- AddrManRoundTrip.RunRoundTrip: works on the same structured records as RoundTrip.
- AddrManRoundTrip.RoundTrip: writing and reading work on structured records, so the byte stream, its checksum and truncated streams are not modelled, nor are the loops of Unserialize in place.
- AddrMan.AddrMan.ResolveCollisions: takes the clock as a function of the id, so time may pass between two entries but is not tied to real time.
- Time stamps before the epoch and 32-bit overflow of reference counts in the address manager.
- CheckQueueSafety.CountersAreExact: counts with unbounded integers; the 32-bit wrap of nTodo after 2^32 queued checks is not modelled.
- Fairness of the thread scheduler: `CheckQueueProgress.CompleteReturns` bounds the number of steps, not the time between them.
- Coins.CoinsCache: the doubly linked list of flagged entries is a sequence; previous and next pointers are not modelled.
- Coins.CoinsStore.BatchWrite: one atomic write; partial batches, crashes and recovery of the database are not modelled.
- CoinsViewOverlay, AddCoins, HaveInputs, EmplaceCoinInternalDANGER and cache reallocation: wrappers that would only add easy members.
- ChainIndex.BlockIndex: parent and height never change after creation, so they are constants.
- ChainIndex.BlockIndex.GetAncestor: the number of steps of the skip list is not bounded; the source only reports it from simulations.
- Chain.LocatorEntries: the step is an unbounded integer; it would overflow 32 bits only beyond 2^31 blocks.
- FindEarliestAtLeast and GetBlockProofEquivalentTime: a binary search and a quotient on top of what is proved.
- Bech32.PreparePolynomialCoefficients: the high bits of prefix characters beyond ASCII, which are negative in the source, are not modelled; such prefixes are never accepted by Decode.
- Bech32Detect.DetectsThreeErrors: four errors within 89 symbols, which the code is also designed to detect, are not covered; that follows from a search and not from the roots.
- Bech32Locate.AttemptFor: the search for two errors and the choice between the two encodings are not modelled.
- Bech32Poly.PolyMod: works on groups of bits; `Bech32Register.PolyModRegister` does the same on the 30-bit integer of the source. The 30-bit packing of the three syndromes is not modelled.
- Bitwise and, or and exclusive or, hexadecimal text and conversion to floating point of large integers.
- CompactBlockBuild.PartiallyDownloadedBlock.InitData: messages of 65536 to 100000 transactions are outside the model, since a message read from the network has at most 65535 and slot numbers have 16 bits.
- CompactBlockIds.MapShortIds: whether a bucket of the hash map is overfull is an input.
- CompactBlockBuild.PartiallyDownloadedBlock.FillBlock: the test for mutated blocks is an input; hashing of headers and short ids is a parameter.
- Base58Check: the four checksum bytes and the hash behind them are not modelled.
- BlockFilter.BuildHashedSet: the library sort is a function with the contract of sorting; the keyed hash of an element is a parameter.
- BlockFilterMatch.MatchInternal: on a foreign encoding whose differences add up beyond 2^64 only the loop itself is described, not which values it finds.
- Collecting the elements of a block, filter headers and the filter index.
- Script, signatures, consensus rules, the mempool, networking, wallets and storage other than the parts above.
