# Verified models of the Lithium node

A Dafny 4.11 project that models the algorithmic cores of the Lithium node (a Bitcoin Core fork)
and proves what they promise. `dafny verify dfyconfig.toml` checks everything.

| files | component | main results |
|---|---|---|
| Coins, CoinsRun, CoinsView | stack of UTXO caches with DIRTY and FRESH flags | every run on any stack of caches shows exactly what plain maps would, and exactly when each answer is theirs too; a bulk write from a sound child never throws; a coin added and spent between two flushes leaves no trace |
| AddrMan, AddrManOps, AddrManObject, AddrManBook, AddrManRules, AddrManCheck, AddrManFile, AddrManLoad, AddrManTables, AddrManRoundTrip | address manager: six indexes, its self-check and its file | every run acts as a plain book of two tables does, and the self-check passes in every reachable state; an entry reached in the last four hours never loses its tried slot to a collision; exactly which files are accepted and which entry ends up in which slot; reading a saved file gives the same manager back |
| CheckQueue | parallel check queue | Wait answers exactly for the checks of its own round, for any number of workers and any interleaving, and always comes back; no wake-up of the workers is lost |
| HeadersSync, HeadersSyncRun, HeadersSyncExact, HeadersSyncObject | headers presync and redownload | exactly which messages are accepted and what is released; what is released is a linked prefix backed by enough commitments, after a linked first chain with the minimum work; an honest peer completes both phases, also when its chain has grown meanwhile |
| Bech32, Bech32Codec, Bech32Field, Bech32Roots, Bech32Distance, Bech32Known | Bech32 and Bech32m (BIP 173, BIP 350) | exactly which strings decode, and to what; any three wrong symbols within a window of 1023 are detected, from the roots of the generator in GF(1024), and bursts of up to six at any length |
| Radix, Base58, Base58Codec | Base58 | exactly which strings decode, and to what; the value is preserved; the buffer sizes are enough for every length |
| Limbs, ArithShift, ArithUint, ArithDivide, Compact | 256-bit arithmetic, compact targets, block work | limb loops compute modulo 2^256; division is exact; the overflow flag is exact; rounding laws |
| SkipList, BlockIndex | block tree, active chain, locators | the skip list finds what the plain walk finds, in a number of steps quadratic in the logarithm of the height; forks, common ancestors and locators |
| CuckooCache | cuckoo cache | lookup is membership; the exact course of an insertion, which conserves the entries but one; the newest epoch never grows far beyond its size |
| CompactBlock | compact block reconstruction (BIP 152) | exactly what fills each slot; an honest announcement is rebuilt exactly, whatever the mempool holds, and without asking if it holds enough |
| AuxPow, AuxPowProof, Merkle | merged-mining proof, merkle trees | exactly which proofs are accepted; an accepted one shows the parent's coinbase and the block in their trees, or contains a hash collision; two trees of one height without equal neighbours have one root only if they are equal, or contain a collision |
| Options, Arithmetic | shared helpers | |

Objects that the node updates in place are classes whose methods are proved equal to functions on
values (`Abs()` gives the value); the theorems are about those functions. Hashes, randomness,
clocks, mempool contents and consensus checks that are not part of the model are function-valued
parameters, so every theorem holds for all of them. Bucket counts, bucket sizes, the commitment
period, the buffer size, limb counts and the cuckoo depth are parameters too. Integers are
unbounded; where a width matters (limbs, work, expected index, signed indexes,
the epoch size) it is written out.
The bitwise or of limb parts is a function that demands operands without a common bit, so that it
is their sum; `n & (n - 1)` is written out over binary digits.

Where the code and its comments differ the model follows the code:

- `SpendCoin` also answers true for an entry that is cached as already spent. `Coins.SpendAnswer`
  gives the exact condition, `Coins.SpendsTwice` a stack on which one coin is spent twice with
  success, and `CoinsRun.RunRefines` says exactly which runs answer as plain maps do.
- `Flush` hands its best block down even if it was never looked up; the parent's own record is then
  lost. `Coins.FlushKeepsBest` gives the exact condition, `Coins.FlushLosesBest` a stack that fails.
- The cuckoo cache's first displacement goes to location 1, not 0 as its comment says, because the
  index after "not found" is 9 modulo 8. `CuckooCache.FirstDisplacement` says so, and that the comment
  holds exactly when the element's locations 0 and 1 coincide.
- The count of extra transactions in a compact block is that of the slots they fill less that of the
  slots of the mempool they empty, so it can fall below zero: `CompactBlock.ExtraBelowZero`.
- A proof made by `InitAuxPow` is rejected for some block hashes; `AuxPow.InitAccepted` gives the
  exact condition.

## Model

| member | source | states |
|---|---|---|
| CoinsRun.RunRefines | src/coins.cpp:44-294 | over every run of adds and spends at the top and reads, uncaches, flushes, syncs at any level of a stack that may grow and shrink, nothing throws, every level stays sound and shows what a plain map run shows; the answers as returned are the plain ones if and only if no spend of the run met an entry with nothing to spend, and with spent coins counted as none they always are |
| CoinsRun.CarefulRunExact | src/coins.cpp:129-149 | a run that spends only coins the top view holds gets exactly the answers of plain maps |
| CoinsRun.StepRefines | src/coins.cpp:44-294 | one operation at one level acts on the views of all levels as the plain operation does; its answer is the plain one unless it is a spend with nothing to spend, which answers a spent coin where the plain one answers none |
| CoinsRun.LocalStepRefines | src/coins.cpp:44-294 | a read, uncache, Flush or Sync leaves the level's own view as it was; Flush and Sync copy it to the parent, the others leave the parent alone |
| CoinsRun.AddRefines | src/coins.cpp:70-108 | AddCoin at the top, where its promise holds, acts as the plain insertion |
| CoinsRun.SpendRefines | src/coins.cpp:129-149 | SpendCoin at the top acts as the plain removal; its answer is the plain coin if and only if it does not meet an entry with nothing to spend |
| CoinsRun.PushRefines | src/coins.cpp:35-38 | a new empty cache on top shows what the level below shows, and no other level changes |
| Coins.GetCoinCorrect | src/coins.cpp:44-68 | reading fills caches on the way down, changes no level's view, and answers what the view holds |
| Coins.FetchCoinCorrect | src/coins.cpp:44-59 | the fetched entry is cached and agrees with the view; a spent answer means the view has no coin |
| Coins.AddCoinCorrect | src/coins.cpp:70-108 | the view gains exactly the coin; it throws exactly on a cached unspent coin without permission; the cache stays sound if and only if the caller's promise of no overwrite is true |
| Coins.WrongAddLosesSpend | src/coins.cpp:84-108 | breaking that promise makes a later spend uncover the old coin |
| Coins.UnspendableIgnored | src/coins.cpp:70-108 | adding an output that begins with OP_RETURN or is longer than 10000 bytes does nothing; any other coin is shown unless AddCoin throws |
| Coins.SpentLeavesNoTrace | src/coins.cpp:84-149 | a coin added to a cache and spent in it leaves the cache exactly as it was |
| Coins.FlushedLeavesNoTrace | src/coins.cpp:182-262 | nor is there a trace in the parent if the coin was flushed to it and spent there |
| Coins.FlushedSpendForgets | src/coins.cpp:224-229 | spending a coin the parent holds FRESH makes the parent forget it at the flush |
| Coins.SpendCoinCorrect | src/coins.cpp:129-149 | the view loses exactly this outpoint, a coin it held is the answer, success is reported exactly for such a coin or with nothing to spend, and lower levels keep their views |
| Coins.SpendAnswer | src/coins.cpp:129-149 | success is reported exactly when the view holds the coin, the outpoint is cached, or the store below answers with an empty coin; the answer is the plain one exactly when the last two do not happen without the first |
| Coins.SpendsTwice | src/coins.cpp:129-149 | a cached coin that is not FRESH can be spent twice, each time with success |
| Coins.UncacheCorrect | src/coins.cpp:281-294 | exactly a clean entry is dropped, which changes no view and keeps the cache sound |
| Coins.MergedIsOverlay | src/coins.cpp:182-250 | merging a sound child never misapplies FRESH, keeps every entry in a legal state, and equals laying the child over the parent's view |
| Coins.WrittenIsOverlay | src/coins.cpp:182-250 | writing a sound child to a plain store gives the child's view |
| Coins.BatchWriteCorrect | src/coins.cpp:182-252 | a bulk write from a sound child never throws, re-establishes the parent's soundness and usage sum, and gives it the child's view |
| Coins.FlushCorrect | src/coins.cpp:254-262 | Flush succeeds, keeps the view, empties the cache and makes the parent show it |
| Coins.SyncCorrect | src/coins.cpp:264-279 | Sync succeeds, keeps the view and makes the parent show it, nothing below the parent moves, and exactly the unspent entries stay, clean |
| Coins.FlushKeepsBest | src/coins.cpp:254-262 | the best block survives a flush if and only if the cache holds one, or the parent's own record adds nothing to what is below it |
| Coins.FlushLosesBest | src/coins.cpp:254-262 | a cache that looked no best block up, over a parent that recorded one, over a store at another: the flush turns the best block into the store's |
| Coins.ResolvedSame | src/coins.cpp:172-176 | a best block that was looked up is remembered, and that changes no view and no best block at any level |
| CoinsView.CoinsViewCache.FetchCoin | src/coins.cpp:44-59 | the object does what the function on the stack does, through its base pointer |
| CoinsView.CoinsViewCache.GetCoin | src/coins.cpp:61-68 | same answer and same new stack as the function |
| CoinsView.CoinsViewCache.HaveCoin | src/coins.cpp:162-165 | true exactly when the lookup of the same outpoint finds an unspent coin, with the same new stack |
| CoinsView.CoinsViewCache.AddCoin | src/coins.cpp:70-108 | same new stack as the function, exception included |
| CoinsView.CoinsViewCache.SpendCoin | src/coins.cpp:129-149 | same answer and new stack as the function |
| CoinsView.CoinsViewCache.Uncache | src/coins.cpp:281-294 | same new stack as the function |
| CoinsView.CoinsViewCache.BatchWrite | src/coins.cpp:182-252 | the loop over the child's entries, erasing as it goes, gives the merged map or the misuse exception |
| CoinsView.CoinsViewCache.Flush | src/coins.cpp:254-262 | same new stack as the function, all the way to the store |
| CoinsView.CoinsViewCache.Sync | src/coins.cpp:264-279 | same new stack as the function, flags cleared and spent entries dropped |
| CoinsView.CoinsViewCache.GetBestBlock | src/coins.cpp:172-176 | looks the hash up through the bases and remembers it at every level, which keeps every level sound and changes no view and no best block |
| CoinsView.CoinsViewCache.SanityCheck | src/coins.cpp:320-335 | passes exactly when every entry is in a legal flag state and the usage is the sum over the entries |
| CoinsView.AddCoins | src/coins.cpp:118-127 | afterwards the view holds at every outpoint of a spendable output that output with its height and whether the transaction is a coinbase, and elsewhere what it held |
| AddrManOps.RunKeeps | src/addrman.cpp:421-948 | after any run of Add, Good, Attempt, Connected, SetServices, ResolveCollisions, SelectTriedCollision and GetAddr all six indexes and counters agree, ids are never reused, an id keeps its address and an occupied tried slot stays occupied |
| AddrManRules.RunRefines | src/addrman.cpp:421-948 | over every run the six indexes show exactly what a plain book of records and two tables shows, in which an entry is known as long as a slot holds it |
| AddrManBook.GoodRefines | src/addrman.cpp:631-683 | Good acts on the book as the plain operation does and answers the same |
| AddrManBook.AddRefines | src/addrman.cpp:555-629 | AddSingle acts on the book as the plain operation does and answers the same: which news counts, which slot is taken over and whose it was |
| AddrManBook.ResolveOneRefines | src/addrman.cpp:866-918 | settling one collision acts on the book as the plain rule does |
| AddrManBook.SmallUpdatesRefine | src/addrman.cpp:697-857 | Attempt, Connected and SetServices change the one record as the plain operations do |
| AddrManBook.SelectRefines | src/addrman.cpp:922-948 | SelectTriedCollision answers and forgets as the plain operation does |
| AddrManBook.GetAddrBook | src/addrman.cpp:786-822 | GetAddr leaves the book alone |
| AddrManCheck.RunConsistent | src/addrman.cpp:1010-1113 | in every state reached from the empty manager the self-check's condition holds |
| AddrManCheck.CheckAddrman | src/addrman.cpp:1010-1113 | the check, loop by loop over maps and tables, answers 0 if and only if its declarative condition holds |
| AddrManCheck.CheckEntry | src/addrman.cpp:1025-1054 | no error code exactly when the entry's counters, times, lookup and random position are right |
| AddrManCheck.CheckTried | src/addrman.cpp:1062-1095 | the table scan and the leftover set find exactly the tables in which every tried entry is in its slot and nowhere else |
| AddrManCheck.CheckNew | src/addrman.cpp:1079-1097 | the table scan with running counts finds exactly the tables whose references match the counts |
| AddrManCheck.CheckCounts | src/addrman.cpp:1103-1110 | no error code exactly when every recorded network count is right and the recorded networks are at least as many as those with entries |
| AddrManCheck.InvConsistent | src/addrman.cpp:1010-1113 | the invariant implies the check's condition, network counts and order length included |
| AddrManCheck.ConsistentTables | src/addrman.cpp:1010-1113 | conversely a state that passes has a random order that is a bijection and sound tables, by pigeonhole |
| AddrMan.CreateKeeps | src/addrman.cpp:421-435 | a new entry keeps all indexes in step; it alone holds no slot yet |
| AddrMan.SwapRandomKeeps | src/addrman.cpp:437-459 | swapping two places of the random order keeps all indexes in step |
| AddrMan.DeleteKeeps | src/addrman.cpp:461-476 | deleting an entry without slots meets the code's assertions and keeps all indexes in step |
| AddrMan.ClearNewKeeps | src/addrman.cpp:478-494 | clearing a slot drops one reference, deletes an entry that lost its last one, and keeps all indexes in step |
| AddrMan.EvictKeeps | src/addrman.cpp:520-546 | moving a tried entry back to the new table keeps all indexes in step |
| AddrMan.MakeTriedKeeps | src/addrman.cpp:496-553 | no assertion fires and all indexes stay in step when an entry moves to the tried table |
| AddrMan.MakeTriedFrame | src/addrman.cpp:496-553 | the tried table changes in the entry's own slot only, and no entry changes its address |
| AddrManBook.MakeTriedIsPromote | src/addrman.cpp:496-553 | on the book MakeTried is: the entry leaves the new table for its tried slot, the occupant goes back to the new slot of its source, and whoever holds no slot then is forgotten |
| AddrManRules.PromoteForgets | src/addrman.cpp:496-553 | at most one entry is forgotten, one whose only slot the displaced occupant takes; the occupant stays and no record changes |
| AddrManOps.AddSingleKeeps | src/addrman.cpp:555-629 | adding an address, with any two clock readings and any random draw, keeps the invariant and everything runs must keep |
| AddrManOps.AddSingleInserts | src/addrman.cpp:603-628 | it answers true exactly when the address took one more slot of the new table; otherwise the table is as it was |
| AddrManOps.GoodKeeps | src/addrman.cpp:631-683 | confirming an address keeps the invariant and everything runs must keep |
| AddrManOps.GoodMoves | src/addrman.cpp:631-683 | it answers true exactly for a known address that is not tried yet and, if occupants are to be tested, whose slot is free; then it has its tried slot, and otherwise the tried table is as it was |
| AddrManRules.GoodRecords | src/addrman.cpp:631-683 | the entry has the time as its last success and last try and no failures, a newcomer that may not move is pending if fewer than ten are, and no other entry that is left has changed |
| AddrManOps.SmallUpdatesKeep | src/addrman.cpp:697-857 | Attempt, Connected and SetServices keep the invariant |
| AddrManRules.FailuresCountOnce | src/addrman.cpp:697-715 | between two successes of any peer a failure of an address counts once |
| AddrManRules.ConfirmedQuality | src/addrman.cpp:67-90 | a confirmed entry is terrible exactly if it was confirmed more than a minute ago and its time is in the future or a month old |
| AddrManRules.FailedQuality | src/addrman.cpp:67-90 | an entry with a current time is terrible exactly after three failures without any success, or ten without one for a week, unless it was tried in the last minute |
| AddrManOps.ResolveAllKeeps | src/addrman.cpp:859-920 | settling collisions in ascending order, with a clock reading of its own for each, keeps the invariant, and tried slots never empty |
| AddrManRules.ResolveSettles | src/addrman.cpp:866-918 | rule by rule: a newcomer that is gone or invalid, or whose slot's occupant was reached in the last four hours, is dropped; it has the slot if the occupant was tried since more than a minute ago, or was not tried and the newcomer has waited for forty minutes; otherwise nothing changes |
| AddrManRules.FreshStays | src/addrman.cpp:859-920 | settling all collisions leaves every tried slot alone whose occupant was reached less than four hours before every reading of the clock |
| AddrManOps.CollisionFindsOccupant | src/addrman.cpp:922-948 | a pending collision whose id still exists finds a real tried entry in its slot |
| AddrManRules.SelectAnswers | src/addrman.cpp:922-948 | the occupant of the slot is answered exactly for a pending newcomer that is still known, and a newcomer that is not is forgotten |
| AddrManOps.GetAddrKeeps | src/addrman.cpp:786-822 | the shuffle keeps the invariant and returns distinct wanted entries of good quality within the limit |
| AddrManOps.GetAddrComplete | src/addrman.cpp:786-822 | it stops short of the limit only when it has returned every fit entry |
| AddrManRules.LimitIsGreatest | src/addrman.cpp:790-796 | the limit is the greatest number within the percentage, the maximum and the size |
| AddrManObject.AddrManager.constructor | src/addrman.cpp:107-123 | a new manager is the empty state with both bucket arrays empty |
| AddrManObject.AddrManager.Create | src/addrman.cpp:421-435 | the fields and arrays afterwards are the function's state |
| AddrManObject.AddrManager.SwapRandom | src/addrman.cpp:437-459 | the fields afterwards are the function's state |
| AddrManObject.AddrManager.Delete | src/addrman.cpp:461-476 | the fields afterwards are the function's state |
| AddrManObject.AddrManager.ClearNew | src/addrman.cpp:478-494 | fields and bucket array afterwards are the function's state |
| AddrManObject.AddrManager.RemoveRefs | src/addrman.cpp:500-510 | the bucket scan from the home bucket, stopped at count zero, has emptied every slot of the entry |
| AddrManObject.AddrManager.Evict | src/addrman.cpp:520-546 | fields and arrays afterwards are the function's state |
| AddrManObject.AddrManager.MakeTried | src/addrman.cpp:496-553 | the code's order of counter updates gives the function's state |
| AddrManObject.AddrManager.AddSingle | src/addrman.cpp:555-629 | state and answer are the function's for both clock readings and the draw of the stochastic test |
| AddrManObject.AddrManager.Add | src/addrman.cpp:685-695 | the addresses are added one by one, each with its own clock readings and draw, as the function says; true exactly when at least one was inserted |
| AddrManObject.AddrManager.Good | src/addrman.cpp:631-683 | state and answer are the function's |
| AddrManObject.AddrManager.Attempt | src/addrman.cpp:697-715 | the fields afterwards are the function's state |
| AddrManObject.AddrManager.Connected | src/addrman.cpp:824-841 | the fields afterwards are the function's state |
| AddrManObject.AddrManager.SetServices | src/addrman.cpp:843-857 | the fields afterwards are the function's state |
| AddrManObject.AddrManager.ResolveCollisions | src/addrman.cpp:859-920 | the loop over the collision set, reading the clock for each, gives the function's state |
| AddrManObject.AddrManager.SelectTriedCollision | src/addrman.cpp:922-948 | the lookup never reads an empty tried slot; state and answer are the function's |
| AddrManObject.AddrManager.GetAddr | src/addrman.cpp:786-822 | the loop's shuffle and selection are the function's, and the addresses returned are those of the selected entries in order |
| AddrManLoad.Unserialize | src/addrman.cpp:230-404 | whatever a file contains and whatever the asmap, if it is accepted all indexes of the manager agree |
| AddrManLoad.AcceptedExactly | src/addrman.cpp:273-403 | a file is accepted if and only if its counts are in range, the key is not null, and every entry that found a slot has an address no other entry has and times that fit its table |
| AddrManLoad.CheckDecides | src/addrman.cpp:398-403 | after reading any file the self-check at the end depends only on the key, the times and whether each lookup finds its entry |
| AddrManLoad.RunFromFile | src/addrman.cpp:230-1113 | from every accepted file on, every run leads to states that pass the self-check |
| AddrManFile.LoadedKeeps | src/addrman.cpp:288-381 | every file, re-bucketed or not, gives order, tables, reference counts and counters that agree, and lookups that never lead nowhere |
| AddrManTables.FileTables | src/addrman.cpp:288-393 | every tried slot holds the first tried entry of the file that asks for it; with other buckets or another asmap every new slot holds the first entry whose primary slot it is; in both cases a valid listed entry is lost only if its primary slot is taken |
| AddrManFile.Prune | src/addrman.cpp:383-393 | pruning deletes exactly the entries without a slot, with their addresses, meets the assertions of Delete, and keeps the rest |
| AddrManRoundTrip.RoundTrip | src/addrman.cpp:131-404 | a saved file is accepted unless the key is null, its lists have the lengths nNew and nTried, and reading it with the same bucketing loses nothing: up to a renaming of ids every slot of both tables holds the same address with the same reference count, although positions, tried slots, lookups and order are not written |
| AddrManRoundTrip.NewComesBack | src/addrman.cpp:338-381 | each saved bucket entry goes back into the slot it came from |
| AddrManRoundTrip.SavedCounts | src/addrman.cpp:182-285 | as many new and tried entries are written as nNew and nTried say, so the serializer's assertions hold, and never more than the reader accepts, because every entry holds a slot of its own |
| AddrManRoundTrip.TriedComesBack | src/addrman.cpp:298-319 | each saved tried entry finds its slot free and takes it |
| CheckQueue.RunCorrect | src/checkqueue.h:70-182 | for any workers, batch size and interleaving no counter goes wrong, each finished Wait returned true exactly when all checks of its round pass, and no check is dropped, repeated or moved to another round |
| CheckQueue.StepInv | src/checkqueue.h:70-182 | every step keeps: outstanding work is queued plus in flight, the verdict is right for what was run or skipped, and a sleeping master has work outstanding or a wake-up signalled |
| CheckQueue.InitInv | src/checkqueue.h:134-156 | a new queue with any number of workers satisfies that invariant |
| CheckQueue.NoDeadlock | src/checkqueue.h:92-104 | while the master waits somebody can take a step that is not a spurious wake-up |
| CheckQueue.StepRank | src/checkqueue.h:70-127 | every such step lowers a bound on the steps left |
| CheckQueue.WaitReturns | src/checkqueue.h:70-127 | no schedule keeps the master in Wait for more steps than that bound |
| CheckQueue.WorkIsAttended | src/checkqueue.h:165-182 | over every run, while checks are queued and the master is not about to notify, some worker is awake or has been signalled |
| CheckQueue.StepAttended | src/checkqueue.h:70-182 | every step keeps that |
| CheckQueue.BatchIsGreatest | src/checkqueue.h:109-114 | a batch is the greatest within the batch size and a fair share for every thread, and at least one check |
| HeadersSyncRun.RunSafe | src/headerssync.cpp:69-295 | over every run released headers are a prefix of the linked, permitted headers received again; below the minimum work each has at least bufferSize / period later headers matching commitments of the same heights; memory stays bounded |
| HeadersSyncExact.RunSeen | src/headerssync.cpp:69-176 | over every run of continuous messages the headers of the first phase are one chain, linked from the start with permitted steps, and nothing is taken again or released before it has the minimum work |
| HeadersSyncExact.PresyncExactly | src/headerssync.cpp:69-214 | a message of the first phase is accepted exactly if it connects, every step is permitted and the commitments stay within their maximum; the second phase starts exactly on enough work, and more is requested exactly then or after a full message |
| HeadersSyncExact.RedownloadExactly | src/headerssync.cpp:100-138 | a message of the second phase is accepted exactly if it continues the chain with permitted steps and matches the commitments of its heights until the work is enough; everything is released then, and before that all but the lookahead |
| HeadersSyncRun.HonestPeerCompletes | src/headerssync.cpp:69-295 | a peer that sends its continuous chain again, possibly extended since by linked and permitted headers, in any batching with full non-final messages, never fails and ends with a released chain of the minimum work |
| HeadersSyncRun.FirstPhase | src/headerssync.cpp:69-176 | a linked chain of permitted headers with enough work, sent in full non-final messages and within the commitment maximum, brings the first phase to its end: some message makes the node ask for the chain again |
| HeadersSyncRun.HonestPeerSyncs | src/headerssync.cpp:69-295 | end to end: such a peer, sending its chain twice and the second time possibly extended, never fails and gets a chain of the minimum work released |
| HeadersSyncRun.ReleasedAreBacked | src/headerssync.cpp:281-295 | a header leaves the buffer only with enough matching commitments after it |
| HeadersSyncRun.RebuildRight | src/headerssync.h:22-57 | rebuilding compressed headers restores the previous hash of each and so the original headers |
| HeadersSyncRun.PopReadyKeeps | src/headerssync.cpp:281-295 | what is handed out continues what was handed out before |
| HeadersSyncRun.PreviousBitsRight | src/headerssync.cpp:231-236 | the difficulty used for the transition check is that of the true predecessor |
| HeadersSyncRun.StoreCommitmentsKeeps | src/headerssync.cpp:140-176 | an accepted presync message connects to the last header received and extends the recorded chain, work and commitments |
| HeadersSyncRun.RedownloadHeaderKeeps | src/headerssync.cpp:216-279 | an accepted redownloaded header links, is permitted and matches the next commitment |
| HeadersSyncObject.HeadersSyncState.ProcessNextHeaders | src/headerssync.cpp:69-138 | the object's new state and answer are the function's |
| HeadersSyncObject.HeadersSyncState.ValidateAndStoreHeadersCommitments | src/headerssync.cpp:140-176 | the object's new state and answer are the function's |
| HeadersSyncObject.HeadersSyncState.ValidateAndProcessSingleHeader | src/headerssync.cpp:178-214 | the object's new state and answer are the function's |
| HeadersSyncObject.HeadersSyncState.ValidateAndStoreRedownloadedHeader | src/headerssync.cpp:216-279 | the object's new state and answer are the function's |
| HeadersSyncObject.HeadersSyncState.PopHeadersReadyForAcceptance | src/headerssync.cpp:281-295 | the object's new state and the headers handed out are the function's |
| Bech32.StepXor | src/bech32.cpp:178-214 | one PolyMod round is linear over XOR in state and symbol |
| Bech32.StepInjective | src/bech32.cpp:178-214 | for a fixed symbol one round is injective on 30-bit states |
| Bech32.PolyXor | src/bech32.cpp:130-216 | PolyMod of the symbolwise XOR is the XOR of the PolyMods |
| Bech32.PolyInjective | src/bech32.cpp:130-216 | two states that a common tail brings together were equal |
| Bech32.PolyOfGroups | src/bech32.cpp:346-351 | the six groups of a word, fed into the zero state, give the word back |
| Bech32.WindowInjective | src/bech32.cpp:130-216 | from one state, two windows of at most six five-bit symbols reach the same state only if they agree |
| Bech32.PolyMod | src/bech32.cpp:177-216 | the loop computes the fold |
| Bech32Codec.ExpandHRP | src/bech32.cpp:312-324 | high bits, a zero, low bits |
| Bech32Codec.VerifyChecksum | src/bech32.cpp:327-338 | answers an encoding exactly when PolyMod of the expanded string is its constant |
| Bech32Codec.CreateChecksum | src/bech32.cpp:341-353 | the six values it makes verify when appended |
| Bech32Codec.ChecksumUnique | src/bech32.cpp:341-353 | no other six five-bit values verify |
| Bech32Codec.BurstDetected | src/bech32.cpp:327-338 | two value lists of any length that differ only inside six neighbouring symbols never both verify |
| Bech32Codec.SingleErrorDetected | src/bech32.cpp:327-338 | changing one symbol of a list that verifies gives one that does not |
| Bech32Field.TimesE | src/bech32.cpp:87-109 | the table for multiplication by e is the one for a root of x^2 + {9}x + {23}, computed with GF(32) arithmetic modulo b^5 + b^3 + 1 |
| Bech32Field.OrderOfE | src/bech32.cpp:37-41 | multiplying by e 1023 times changes nothing |
| Bech32Field.PowerMoves | src/bech32.cpp:167-168 | no smaller power of e fixes any element but zero, so e has order 1023 |
| Bech32Roots.RootsVanish | src/bech32.cpp:157-175 | at e^997, e^998 and e^999 the generator without its leading term has the value of x^6, so the generator vanishes there |
| Bech32Roots.StepFollows | src/bech32.cpp:178-213 | at each of these points one PolyMod round on any state multiplies the value of the state's polynomial by the point and adds the symbol |
| Bech32Roots.RemainderValue | src/bech32.cpp:130-216 | the remainder PolyMod computes has at these points the value of the whole polynomial |
| Bech32Distance.ThreeErrorsDetected | src/bech32.cpp:136-142 | two value lists of any length that differ in at most three symbols within a window of 1023 never both verify |
| Bech32Distance.StringsFourApart | src/bech32.cpp:373-397 | two strings that decode with one checksum constant and one separator and differ in at most three characters after it differ only in case |
| Bech32Distance.PrefixErrorDetected | src/bech32.cpp:312-338 | one wrong character of the prefix and one wrong symbol after it are detected |
| Bech32Distance.ExpandedInjective | src/bech32.cpp:312-324 | the expansion tells the prefix |
| Bech32Codec.CheckCharacters | src/bech32.cpp:287-309 | lists in order exactly the characters that are not printable or differ in case from the first letter; none exactly when all are printable and not both cases occur |
| Bech32Codec.Encode | src/bech32.cpp:357-370 | the loop builds the encoded string |
| Bech32Codec.Decode | src/bech32.cpp:373-397 | the loops and early exits give the decoding or nothing |
| Bech32Codec.DecodeEncode | src/bech32.cpp:357-397 | decoding an encoding gives encoding, prefix and values back if and only if the prefix is non-empty and printable and the string has at most 90 characters, and nothing otherwise |
| Bech32Codec.EncodeDecode | src/bech32.cpp:357-397 | encoding what a string decodes to gives the string in lower case |
| Bech32Codec.DecodedExactly | src/bech32.cpp:373-397 | a string decodes to a prefix and values exactly if it is their encoding but for the case, does not mix the cases and keeps to the limits of the format |
| Bech32Codec.CaseIgnored | src/bech32.cpp:287-397 | decoding does not depend on the case |
| Bech32Known.CharsetIs | src/bech32.cpp:23 | value v is written as character v of the alphabet |
| Bech32Known.KnownBech32 | src/test/bech32_tests.cpp:15-32 | A12UEL5L decodes with the Bech32 constant to the prefix a and nothing |
| Bech32Known.KnownBech32m | src/test/bech32_tests.cpp:35-52 | A1LQFN3A decodes with the Bech32m constant to the prefix a and nothing |
| Base58.EncodeRoom | src/base58.cpp:97-98 | 256^n is below 58^(138n/100+1) for every n |
| Base58.DecodeRoom | src/base58.cpp:52-53 | 58^n is below 256^(733n/1000+1) for every n |
| Base58.MulAdd | src/base58.cpp:104-111 | the in-place carry loop multiplies and adds, its carry ends at zero, and the length it reports is the exact number of digits |
| Base58Codec.Encode | src/base58.cpp:87-125 | leading zeros become ones and the rest is the base-58 numeral |
| Base58Codec.DecodeWord | src/base58.cpp:56-71 | the character loop with its early length exit gives the base-256 numeral, or nothing exactly when the result is nothing |
| Base58Codec.Decode | src/base58.cpp:38-85 | spaces, ones, digits, trailing spaces and the length limit are handled as declared |
| Base58Codec.DecodeEncode | src/base58.cpp:38-125 | decoding an encoding gives back every byte string, leading zeros included, if and only if it is within the caller's length limit |
| Base58Codec.EncodeDecode | src/base58.cpp:38-125 | encoding what a string decodes to gives the string back without the spaces around it |
| Base58Codec.DecodedExactly | src/base58.cpp:38-85 | a string decodes to some bytes exactly if it is their encoding with spaces around it and they are within the caller's limit |
| Base58Codec.EncodedValue | src/base58.cpp:87-125 | bytes and encoding have the same value and as many leading zeros |
| Base58Codec.AlphabetIs | src/base58.cpp:18 | digit d is written as character d of the alphabet |
| ArithUint.BaseUint.Add | src/arith_uint256.h:127-137 | the carry loop adds modulo the width, also when both operands are the same object |
| ArithUint.BaseUint.Negate | src/arith_uint256.h:69-76 | complement and increment give the negation modulo the width |
| ArithUint.BaseUint.Subtract | src/arith_uint256.h:139-143 | subtraction modulo the width |
| ArithUint.BaseUint.Increment | src/arith_uint256.h:165-172 | the ripple adds one modulo the width |
| ArithUint.BaseUint.Decrement | src/arith_uint256.h:182-189 | the ripple subtracts one modulo the width |
| ArithUint.BaseUint.ShiftLeft | src/arith_uint256.cpp:21-35 | for every shift the value is multiplied by the power of two modulo the width |
| ArithUint.BaseUint.ShiftRight | src/arith_uint256.cpp:38-52 | for every shift the value is the floor of the quotient by the power of two |
| ArithUint.BaseUint.Multiply | src/arith_uint256.cpp:67-80 | the schoolbook rows multiply modulo the width |
| ArithUint.RowStep | src/arith_uint256.cpp:72-76 | each partial sum fits in 64 bits and the carry balances the row |
| ArithUint.BaseUint.CompareTo | src/arith_uint256.cpp:109-118 | the sign of the difference of the values |
| ArithUint.BaseUint.Bits | src/arith_uint256.cpp:179-192 | the position of the highest set bit plus one, or zero |
| ArithDivide.Divide | src/arith_uint256.cpp:83-106 | throws exactly on a zero divisor; otherwise leaves the floor quotient in the object and the remainder in num |
| ArithDivide.Aligned | src/arith_uint256.cpp:94-95 | aligning the divisor loses none of its bits |
| Compact.SetCompact | src/arith_uint256.cpp:198-216 | the value is the number denoted, mantissa times 256^(size-3), modulo 2^256; the sign flag is exact, and the overflow flag is set exactly when the number does not fit |
| Compact.OverflowExact | src/arith_uint256.cpp:212-214 | the three comparisons say exactly that mantissa times 256^(size-3) is at least 2^256 |
| Compact.GetCompact | src/arith_uint256.cpp:218-239 | the leading three bytes, moved down a byte when they reach the sign bit, with size and sign |
| Compact.RoundsDown | src/arith_uint256.cpp:198-239 | decoding an encoded number never exceeds it and is short by less than its own value over 2^15 |
| Compact.RoundsOnce | src/arith_uint256.cpp:198-239 | an already rounded number encodes to the same compact value and is returned exactly |
| Compact.CompactOfFits | src/arith_uint256.cpp:198-239 | encoding a 256-bit number never gives a negative or overflowing compact value |
| Compact.GetBlockProof | src/chain.cpp:150-163 | 2^256 / (target + 1) rounded down for every valid target, computed without holding 2^256, and 0 for a negative, overflowing or zero one |
| SkipList.InvertsLowestOne | src/chain.cpp:98-99 | the lowest one bit is cleared and nothing else changes |
| SkipList.GetSkipHeight | src/chain.cpp:102-110 | always strictly below the height |
| SkipList.WalkShort | src/chain.cpp:102-137 | from a height below 2^b the walk to any lower height takes at most 2(b+1)(b+2) steps |
| BlockIndex.Block.GetAncestor | src/chain.cpp:112-137 | terminates and returns what the walk along pprev returns, or null outside the range; where all skip pointers are built its number of steps is the one SkipList bounds |
| BlockIndex.Block.BuildSkip | src/chain.cpp:144-148 | the skip pointer is the ancestor at the skip height |
| BlockIndex.AddBlock | src/chain.cpp:144-148 | adding a block anywhere keeps every skip pointer of the tree built and right |
| BlockIndex.Chain.SetTip | src/chain.cpp:40-48 | stopping at the first common block still leaves the tip's ancestor at every height |
| BlockIndex.Chain.FindFork | src/chain.cpp:79-88 | the highest ancestor of the block that is in the chain, null exactly when there is none |
| BlockIndex.LastCommonAncestor | src/chain.cpp:184-199 | the highest common ancestor of two blocks, null exactly when there is none |
| BlockIndex.LocatorEntries | src/chain.cpp:50-67 | entry i is the hash of the ancestor at its exact height: single steps, then doubling steps, down to genesis |
| BlockIndex.LocatorDescends | src/chain.cpp:50-67 | heights fall strictly from the block to the genesis block |
| BlockIndex.LocatorShort | src/chain.cpp:50-67 | with n entries, 12 or more, the height is at least 2^(n-12) + 10 |
| BlockIndex.LocatorStepFits | src/chain.cpp:50-67 | for heights up to 2^30 the doubling step never leaves the range of a signed 32-bit number |
| CuckooCache.Cache.constructor | src/cuckoocache.h:337-350 | at least two slots, all empty and discardable, and a whole epoch to wait, of 45 percent of the size in 32-bit arithmetic but at least one |
| CuckooCache.Cache.Contains | src/cuckoocache.h:476-486 | true exactly when the element is in the table; erasing only marks its own slot |
| CuckooCache.Cache.EpochCheck | src/cuckoocache.h:287-319 | counter, flags and epoch bits after aging: old entries become discardable, living ones become old, or only the counter moves |
| CuckooCache.Cache.InsertNow | src/cuckoocache.h:402-447 | the exact course: each carried element takes its first discardable slot or else the slot after the one it came from, up to the depth limit, and the entry lost is the one found in the last slot written; elements stay in one of their eight slots and distinct, and entries with their epoch bits are conserved but for that one |
| CuckooCache.Cache.Insert | src/cuckoocache.h:399-447 | the same over a whole insertion, with the flags and epoch bits as aged first: the table plus the new element less exactly one; and the bound on the newest epoch is kept |
| CuckooCache.AgedRoom | src/cuckoocache.h:287-319 | the counter is set so that the living entries of the newest epoch and the insertions until the next count stay within the epoch size and a sixteenth of it |
| CuckooCache.InsertLiving | src/cuckoocache.h:399-447 | an insertion makes at most one entry more living |
| CuckooCache.AgingMovesOn | src/cuckoocache.h:300-311 | aging moves every entry one stage on, young to old to dead, exactly when the counter has run out and enough are living |
| CuckooCache.SwapKeepsTable | src/cuckoocache.h:437-438 | exchanging the carried element with one of its slots keeps placement and distinctness |
| CuckooCache.FirstDisplacement | src/cuckoocache.h:423-437 | the first displacement of an insertion goes to location 1, and to location 0 exactly when the two coincide |
| CuckooCache.DisplacementMovesOn | src/cuckoocache.h:423-437 | a displaced element goes to the location after the one it came from, and so elsewhere unless the two coincide |
| CompactBlock.PartialBlock.InitData | src/blockencodings.cpp:49-169 | invalid exactly on a bad message or a used object, failed exactly when a good message on a fresh object has equal short ids or meets a crowded bucket; otherwise the slot of a short id holds the transaction t exactly if those scanned with that id are all t and the mempool lists one at most, the scans end early only when every slot is filled, and the extra count is the slots extra transactions filled less those they emptied |
| CompactBlock.PartialBlock.PlacePrefilled | src/blockencodings.cpp:58-76 | differential indexes are accepted exactly when they stay in range, and each transaction is in its slot |
| CompactBlock.MapShortIds | src/blockencodings.cpp:82-104 | the slot search stays in range, fails exactly on equal short ids or a crowded bucket, and gives the i-th short id the i-th empty slot; distinctness is decided by the map's size |
| CompactBlock.SlotPerShortId | src/blockencodings.cpp:57-88 | a message that passes the checks leaves exactly one empty slot per short id |
| CompactBlock.PoolSound | src/blockencodings.cpp:106-133 | whatever the mempool holds, only wanted slots are filled, with the right short id, and the counter counts them |
| CompactBlock.ExtraSound | src/blockencodings.cpp:135-164 | the same for the extra transactions |
| CompactBlock.PoolSettles | src/blockencodings.cpp:106-133 | after the mempool each slot is settled by exactly the transactions scanned |
| CompactBlock.ExtraSettles | src/blockencodings.cpp:135-164 | the same after the extra transactions, with the exact extra count |
| CompactBlock.OnlyOneFills | src/blockencodings.cpp:106-164 | a transaction of the mempool or an extra one fills the slot of its short id if no other one has it |
| CompactBlock.TwoLeaveEmpty | src/blockencodings.cpp:118-154 | two different transactions with one short id, both scanned, leave the slot empty |
| CompactBlock.ExtraBelowZero | src/blockencodings.cpp:146-155 | an extra transaction that differs from the mempool's takes the extra count to -1 |
| CompactBlock.PartialBlock.FillBlock | src/blockencodings.cpp:179-214 | invalid exactly when unused or the number of missing transactions is wrong; otherwise available and missing transactions are merged in order |
| CompactBlock.AnnounceHonest | src/blockencodings.cpp:19-29 | the sender's message is an honest announcement of its block |
| CompactBlock.HonestRebuilt | src/blockencodings.cpp:19-202 | for an honest message, when no offered transaction shares a short id without being it, the slots and the requested transactions give exactly the block |
| CompactBlock.NothingMissing | src/blockencodings.cpp:19-202 | if the mempool and the extra transactions have all that an honest message leaves out and no other ones have its short ids, nothing is missing and the slots are the block |
| AuxPow.CheckMerkleBranch | src/auxpow.cpp:98-114 | the loop climbs to the root, and index -1 gives the null hash |
| AuxPow.ClimbInjective | src/auxpow.cpp:98-114 | two climbs of one height and index to one root have the same leaf and branch, or the search along them finds two different pairs with the same hash |
| AuxPow.CommitmentUnique | src/auxpow.cpp:19-114 | two accepted proofs over one parent coinbase with the merged-mining header agree in root, height and index, and in branch and block hash unless their branches contain a collision, which is exhibited |
| AuxPowProof.CheckExactly | src/auxpow.cpp:19-86 | accepted exactly if the chain ids may meet, the chain branch has at most 30 hashes, the coinbase climbs to the parent's root, and the script is some bytes, the reversed root not found earlier, the size 2^height, a nonce that gives the index, and more bytes, with the header once just before the root, or nowhere and the root at 20 or before |
| AuxPowProof.CoinbaseProven | src/auxpow.cpp:37-39 | if the parent's transactions have the root, the coinbase of an accepted proof is the first of them, or the two branches contain a collision; for a branch of another length than the tree's, which the code lets pass, the exact hash it starts from |
| AuxPowProof.ChainProven | src/auxpow.cpp:28-30 | if the root in the coinbase is that of a tree of blocks, the block of an accepted proof is the one at the index, or there is a collision |
| AuxPowProof.HonestAccepted | src/auxpow.cpp:19-86 | the proof built from the two trees is accepted for the block at the expected index |
| AuxPowProof.IndexDistinct | src/auxpow.cpp:88-96 | one nonce gives two chain ids the same index exactly if they agree modulo the size of the tree |
| Merkle.ComputeMerkleRoot | src/consensus/merkle.cpp:45-62 | the loop computes the root and finds exactly whether two neighbours that are hashed together are equal |
| Merkle.BranchClimbs | src/auxpow.cpp:98-114 | climbing the branch of a leaf leads to the root of its tree |
| Merkle.BranchProves | src/auxpow.cpp:98-114 | a branch of the tree's height that leads to the root is the leaf's own, or there is a collision |
| Merkle.RootUnique | src/consensus/merkle.cpp:29-42 | two lists of one height without equal neighbours have one root only if they are equal, or their trees contain a collision |
| Merkle.RepeatedLast | src/consensus/merkle.cpp:8-27 | repeating the last hash of an odd list keeps the root, and is noticed as mutated |
| AuxPow.InitAccepted | src/auxpow.cpp:116-142 | the self-made proof is accepted if and only if chain ids may meet, the script lacks the merged-mining header and the hash is not all push opcodes |
| AuxPow.InitRejected | src/auxpow.cpp:116-142 | there is a block hash for which it is rejected |

## Left out

- Check queue as objects: Loop, Add and Wait are atomic steps on values, so memory ordering inside a critical section and lock fairness are not captured; counters are unbounded.
- StopWorkerThreads and stop requests: Wait may then return without finishing.
- Failed Flush and Sync, EmplaceCoinInternalDANGER and use after AddCoin's exception: the code leaves the state unspecified.
- Coin serialization, the database below the caches and memory accounting of scripts beyond their size.
- Select_ and GetChance: floating point and termination with probability one only.
- AddrManLoad.Unserialize: the file is its parsed content; byte formats, versions and the checksum over the file are not modelled, and the entry counts are the lengths of the lists.
- AddrManRoundTrip.RoundTrip: last-try times, last-count times, collisions and the last-good time are not in the file, so they are not claimed to come back.
- HeadersSync: the difficulty transition rule, block work and header hash are parameters; request locators are not modelled.
- Bech32 LocateErrors and the field tables it uses: a heuristic without a total guarantee.
- Detection of four wrong symbols within 89 characters: the choice among the BCH codes rests on an exhaustive search, not on the structure that gives three.
- Base58Check checksums and the multi-word helpers around them.
- Multiplication by a single word, bitwise and, or, xor on whole numbers, hex conversion and conversion to double.
- FindEarliestAtLeast, GetBlockProofEquivalentTime and Next: easy members.
- CuckooCache.Cache.constructor: the depth limit is a parameter instead of a floating-point logarithm; flags are booleans, not packed atomics, so concurrent erasure is not captured.
- CompactBlock.PartialBlock.InitData: a transaction is identified with its witness hash; bucket crowding of the hash map is an arbitrary predicate; byte formats of the messages are not modelled.
- Merkle roots of witness hashes and merkle branches of wallets: easy members beside the ones here.
- Key handling, scripts, networking, storage, RPC, wallet and start-up code.
