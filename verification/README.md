# FACT0RN core data structures and codecs in Dafny

A model of the state machines, in-place structures and codecs at the centre of the FACT0RN node,
a descendant of Bitcoin Core, with proofs of what they are for. Each module follows one source file or
one component. Code that changes fields or buffers step by step is modelled by classes and loops, and
each such method is proved against a function on values; what the program promises is then proved of
those functions and of all runs.

| module | models |
|---|---|
| Coins | the stack of coin caches over the database (`src/coins.cpp`, `src/txdb.cpp`) |
| Replay | disconnecting blocks, and recovery after an interrupted flush (`src/validation.cpp`) |
| CheckQueue | the script-check thread pool as a state machine over all interleavings (`src/checkqueue.h`) |
| AddrBook, AddrMan | the address manager: on values, and with all its redundant indexes (`src/addrman.cpp`) |
| AddrFile, AddrLoad | saving and loading it (`src/addrman.h`) |
| AddrCheck | its check of itself (`src/addrman.cpp`) |
| RollingBloom | the rolling bloom filter (`src/bloom.cpp`) |
| Cuckoo | the cuckoo cache with its packed flags (`src/cuckoocache.h`) |
| Bech32 | Bech32 (BIP 173) and Bech32m (BIP 350) (`src/bech32.cpp`) |
| ArithUint, Compact | wide integers on 32-bit limbs and the compact form (`src/arith_uint256.cpp`) |
| Chain, SkipHeights | the block index with skip pointers, and the active chain (`src/chain.cpp`) |
| Base58 | Base58 (`src/base58.cpp`) |
| BlockEncodings | compact block relay (BIP 152) (`src/blockencodings.cpp`) |
| BlockFilter | Golomb-coded block filters (BIP 158) (`src/blockfilter.cpp`) |
| Compressor | amount compression (`src/compressor.cpp`) |
| Numbers, Common | facts about division, products and powers; optional values, machine words, lists without repetition |

`dafny verify dfyconfig.toml` checks the whole project.

## Conventions

- Hash functions, random numbers, clocks and the calls into code outside the model are parameters, so
  every statement holds for all of them. Errors that the source throws are results or flags.
- Integers are unbounded; where a width matters (limbs, 64-bit amounts, 32-bit scaled hashes, 64-bit
  differences, the 30-bit Bech32 remainder) the reduction is written out.
- A key that is absent from a table map stands for the source's `-1`. Service flags are sets of bit numbers.
- Products and powers in long proofs are wrapped in functions (`Times`, `Weight`, `Two`) that the proofs hide.

## Where the code and its documentation differ

- `SpendCoin` reports success for an entry that is present but already spent (`src/coins.cpp:119-135`); the
  state "spent, FRESH, not DIRTY" that `src/coins.h` lists as possible is never reached.
- A coin added without the overwrite flag over an unspent coin that is only in a lower layer comes back
  when the new one is spent (`AddThenSpend` and `AddCoin` give the exact condition). When `AddCoin` throws, the usage
  counter has already been lowered.
- A flush of a cache that names no best block takes the name from the layer below
  (`FlushKeepsBestBlock` gives the exact condition).
- The comment on the first displacement in the cuckoo cache names the first place; the index arithmetic
  gives the second (`FirstVictim`). That the element just put in is never moved at once holds if no element has
  a place that is repeated right after it first comes (`ChainMoves`), and only then for every hasher that has, for
  each slot, elements enough that strike it first (`ChainIff`, `ZeroHasherReturns`).
- `CompressAmount` is documented for amounts up to MAX_MONEY, which this fork has raised; the packed form
  can now exceed 64 bits. `RoundTripWord` gives the exact condition and `RangeExceeded` an amount that fails.
- The bail-out in `Good_` for an entry that is in no new bucket is unreachable. `Add_` returns true for an
  unknown address even when it finds no place for it.
- An error burst never turns a valid Bech32 string into another valid string of the same encoding
  (`BurstRejected`), but in every window of six symbols exactly one error turns it into a valid string of the
  other one (`OneBurstCrosses`, and `ErrorPasses` for any error).
- `extra_count` of a partially downloaded block falls exactly when the extra transactions contradict more ids that
  the pool had filled than they fill themselves (`InitData`, `FilledMore`), never if they agree with the pool on the
  announced ids (`NeverFalls`), and can end below zero (`ExtraCountNegative`); the source's unsigned counter wraps,
  and it is only logged.
- A peers.dat that the reader accepts can load to a manager that fails its own check; `LoadedSound` says exactly
  when, and `RepeatedFails`, `NoSuccessFails` and `NegativeTimeFails` give such files. The check looks an address up
  with an operator that inserts zero where there is none. It therefore passes a manager in which the address of entry
  zero leads nowhere (`FirstOverlooked`), and mends that index; `LoadedIff` says exactly when all indexes agree.
- Differences of index lists are written up to 64 bits but read back only up to `MAX_SIZE` (`UnserAll`); 16-bit
  indexes stay below that (`SmallReadable`).
- That disconnecting part of a block's effects is harmless rests on undo records with a height. A record without
  one, as old versions wrote them, serves only while another coin of its transaction is there (`CompletedIff`).
- The comment on skip heights reports at most 110 steps for 2^18 blocks from simulations; `StepsBound` proves 207
  for that size.

## Model

| member | source | states |
|---|---|---|
| Coins.CoinsViewCache.RunAll | src/coins.cpp:40-236 | any run of adds, spends, lookups, uncachings, renamings and flushes of any layer, on a stack of any height with or without names, gives the answers one flat map with the list of names gives, and ends showing them |
| Coins.CoinsViewCache.Perform | src/coins.cpp:40-236 | each single operation keeps the invariant of every layer, answers as the flat map does and changes it the same way; only a flush into the database needs a name |
| Coins.CoinsViewCache.FetchCoin | src/coins.cpp:40-55 | caching a coin from below changes nothing any layer shows; an entry exists afterwards exactly when it did before or the coin is visible |
| Coins.CoinsViewCache.GetCoin | src/coins.cpp:57-64 | the coin is the one in the flat view, spent entries being invisible |
| Coins.CoinsViewCache.HaveCoin | src/coins.cpp:146-149 | true exactly for the coins in the view |
| Coins.CoinsViewCache.AddCoin | src/coins.cpp:66-98 | the coin is seen afterwards, unspendable outputs are ignored, the overwrite error is raised exactly when this cache holds an unspent coin (the usage counter is then left short), and the cache stays valid if and only if no coin was seen before or an overwrite was announced |
| Coins.CoinsViewCache.SpendCoin | src/coins.cpp:119-135 | the view loses the coin and the moved-out value is the visible coin; it also reports success for an entry that is present but already spent |
| Coins.CoinsViewCache.BatchWrite | src/coins.cpp:166-220 | for every order of visiting the child entries the parent shows the child view afterwards, its own FRESH and DIRTY promises and its usage counter hold, and the FRESH error is never raised |
| Coins.CoinsViewCache.MergeEntry | src/coins.cpp:168-218 | one child entry merged into the parent writes exactly that coin through and keeps the usage counter equal to the sum over the entries |
| Coins.CoinsViewCache.Flush | src/coins.cpp:222-227 | the layer below shows what this layer showed, this cache is empty and shows the same |
| Coins.CoinsViewCache.FlushAll | src/coins.cpp:222-227 | flushing all layers in turn leaves the flat map and the name of the top cache in the database, whatever the layers between are named |
| Coins.CoinsViewCache.Uncache | src/coins.cpp:229-236 | only an unmodified entry is dropped and no view changes |
| Coins.CoinsViewCache.GetBestBlock | src/coins.cpp:156-160 | the first name found going down, remembered on the way |
| Coins.CoinsViewCache.AddCoins | src/coins.cpp:108-117 | exactly the spendable outputs are seen in addition; the error is raised if and only if one of them is held unspent by this cache, unchecked and in no coinbase; the cache stays valid if and only if the outputs were checked, or are a coinbase, or none was seen before |
| Coins.CoinsViewCache.ValidImpliesUnspent | src/coins.h:103-131 | no view ever shows a spent coin |
| Coins.CoinsViewDB.BatchWrite | src/txdb.cpp:83-142 | however the changes are cut into batches, the database ends as the overlay with the modified entries; a process that dies after a batch leaves each coin old or new and the record of both heads |
| Replay.ReplayRestores | src/validation.cpp:4246-4311 | from any mixture of old and new coins, going back to the fork and forward along the new branch leads to exactly the new coins |
| Replay.ForkReached | src/validation.cpp:4278-4296 | a branch that was connected with its undo data is taken back to the fork, so that the new coins are those of the new branch connected there |
| Replay.ReplayBlocks | src/validation.cpp:4246-4311 | the database ends with the old branch taken back and the new one applied; after a flush, forward or over a fork, was cut short any number of times this is what the flush was to write, and dying during the replay leaves a database from which it can be repeated; it fails exactly when a block cannot be disconnected, and then changes nothing |
| Replay.Rollback | src/validation.cpp:4278-4296 | the coins of the branch taken back block by block, failing exactly when one of them cannot be |
| Replay.DisconnectBlock | src/validation.cpp:1688-1755 | the coins with the block taken back; it fails exactly when the undo data do not fit or lack a height that no coin tells, and reports a clean result exactly when every output was there as made and every input was gone |
| Replay.ApplyTxInUndo | src/validation.cpp:1658-1684 | the coin is seen afterwards, with its height from another coin where the record has none; clean exactly when none was there |
| Replay.CompletedIff | src/validation.cpp:1664-1675 | a record without a height can be used if and only if some coin of the same transaction is there |
| Replay.CleanInverse | src/validation.cpp:1688-1755 | after a clean disconnection, connecting the block gives back what was found |
| Replay.DisconnectInverse | src/validation.cpp:1688-1755 | disconnecting a block with its own undo data gives back, cleanly, the coins it was connected to |
| Replay.UndoneAlike | src/validation.cpp:4290-4293 | taking a block back either leaves a coin alone or sets it to the same, whatever coins it starts from |
| Replay.RollforwardBlock | src/validation.cpp:4226-4244 | the cache shows the effect of the block, on any coins at all |
| Coins.AddOk | src/coins.cpp:66-98 | the new entry is right if and only if nothing was seen before or an overwrite was announced |
| Coins.FetchStep | src/coins.cpp:40-55 | a clean entry equal to the layer below keeps the entry invariant |
| Coins.AddStep | src/coins.cpp:66-98 | the FRESH flag AddCoin chooses is right: the entry invariant towards the layer below holds and the view gains the coin |
| Coins.SpendStep | src/coins.cpp:119-135 | erasing a FRESH entry and blanking any other both remove exactly that coin |
| Coins.AddThenSpend | src/coins.cpp:66-98 | without the overwrite flag, adding over an uncached coin and spending it again is right if and only if the layer below has no such coin |
| Coins.MergeStep | src/coins.cpp:168-218 | all four merge cases keep the entry invariant towards the grandparent and write the coin; a FRESH child entry meets only a spent parent entry |
| Coins.WriteStep | src/coins.cpp:166-220 | after any part of the child entries has been written the rest is still valid towards what is shown |
| Coins.FlushKeepsBestBlock | src/coins.cpp:156-227 | a flush keeps the best block if and only if the flushed cache names one or the name it erases is found further down |
| Coins.OutputsSeen | src/coins.cpp:108-117 | each spendable output is seen as its coin, and every other outpoint exactly as before |
| CheckQueue.WaitIsExact | src/checkqueue.h:68-129 | in every interleaving each Wait returns true if and only if all checks of its round succeed, and every check was evaluated or skipped exactly once |
| CheckQueue.NothingLost | src/checkqueue.h:68-129 | nTodo is the queue plus the batches in progress, and each single check is queued, held or committed as often as it was added |
| CheckQueue.NoLostWakeup | src/checkqueue.h:68-129 | a sleeping master without a pending notification always waits for a worker that holds work |
| CheckQueue.WaitMovesOn | src/checkqueue.h:68-129 | while the master waits some thread can make a move that is not a spurious wakeup: no deadlock |
| CheckQueue.WaitIsBounded | src/checkqueue.h:68-129 | once nothing is added, at most 6 * nTodo + number of threads moves remain besides spurious wakeups |
| CheckQueue.RunInv | src/checkqueue.h:68-178 | the invariant over counters, batches, verdict and idle threads holds in every reachable state |
| CheckQueue.StepInv | src/checkqueue.h:68-178 | every step of any thread keeps that invariant |
| CheckQueue.RoundDone | src/checkqueue.h:84-96 | with nothing queued and nTodo at zero no thread holds work and the verdict covers every check added |
| CheckQueue.EffectiveBound | src/checkqueue.h:68-129 | every move that is not a spurious wakeup lowers a rank |
| AddrBook.RunOk | src/addrman.cpp:196-677 | from any consistent state every run of the public operations keeps every condition of the self-check, and no slot of the tried table is ever emptied |
| AddrBook.StepOk | src/addrman.cpp:196-677 | each public operation keeps it |
| AddrBook.CollisionHasRival | src/addrman.cpp:618-706 | in every run each live pending collision stands before an occupied tried slot, and there are at most ten |
| AddrBook.MadeTriedOk | src/addrman.cpp:196-244 | moving an entry to the tried table, with the eviction it may cause, keeps the self-check |
| AddrBook.MadeTriedEffect | src/addrman.cpp:196-244 | exactly the wanted slot changes hands, the evicted entry returns to the new table, and no entry is lost but the one whose new-table slot it takes |
| AddrBook.EvictedEffect | src/addrman.cpp:213-236 | the evicted entry is back in the new table with one reference, at the slot its own source gives |
| AddrBook.MadeTriedAdvances | src/addrman.cpp:196-244 | no tried slot is emptied |
| AddrBook.GoodOk | src/addrman.cpp:246-312 | marking an address good keeps the self-check, the collision bound included |
| AddrBook.AddOk | src/addrman.cpp:314-387 | adding an address, known or not, keeps the self-check and empties no tried slot |
| AddrBook.AddUnknownPlaced | src/addrman.cpp:359-384 | an unknown address takes the slot its source gives when that is free, its holder terrible or held more than once; the holder loses one reference, or is forgotten with its last, and no other entry changes |
| AddrBook.AddUnknownDropped | src/addrman.cpp:359-384 | otherwise the manager is as before, but for the next id |
| AddrBook.AddKnownEffect | src/addrman.cpp:341-384 | a known address gains one slot exactly when the news is fresh, the draw lucky, the maximum not reached and the slot free or its holder terrible; otherwise only its own entry is refreshed |
| AddrBook.InsertedOk | src/addrman.cpp:365-384 | an entry that is left without a reference is deleted, so none survives uncounted |
| AddrBook.ClearedNewOk | src/addrman.cpp:179-194 | clearing a slot drops the reference, and the entry with its last one |
| AddrBook.AttemptOk | src/addrman.cpp:389-411 | counting an attempt keeps the self-check |
| AddrBook.StatsOk | src/addrman.cpp:576-616 | updates of time and services keep the self-check |
| AddrBook.ResolvedOk | src/addrman.cpp:618-677 | resolving all pending collisions keeps the self-check and never adds one |
| AddrBook.EmptyOk | src/addrman.h:464-490 | the cleared manager is consistent |
| AddrMan.AddrMan.SwapRandom | src/addrman.cpp:141-161 | the two positions are exchanged and the inverse index stays an inverse |
| AddrMan.AddrMan.Delete | src/addrman.cpp:163-177 | the entry leaves the map, the address index, the random list and the counter |
| AddrMan.AddrMan.ClearNew | src/addrman.cpp:179-194 | does what the specification of clearing a slot says, with all indexes and counters |
| AddrMan.AddrMan.MakeTried | src/addrman.cpp:196-244 | does what the specification of the move says, with all indexes and counters |
| AddrMan.AddrMan.FindNewBucket | src/addrman.cpp:275-290 | the search from a random bucket fails if and only if the entry has no reference |
| AddrMan.AddrMan.Promote | src/addrman.cpp:264-312 | the bail-out for an entry in no bucket is unreachable |
| AddrMan.AddrMan.Good_ | src/addrman.cpp:246-312 | valid before implies valid after, and the effect is that of the specification |
| AddrMan.AddrMan.Create | src/addrman.cpp:127-139 | a new id, in all indexes |
| AddrMan.AddrMan.Add_ | src/addrman.cpp:314-387 | valid before implies valid after, and the effect is that of the specification; true for an unknown address even when it is dropped again |
| AddrMan.AddrMan.Attempt_ | src/addrman.cpp:389-411 | the effect is that of the specification |
| AddrMan.AddrMan.Connected_ | src/addrman.cpp:576-596 | the effect is that of the specification |
| AddrMan.AddrMan.SetServices_ | src/addrman.cpp:598-616 | the effect is that of the specification |
| AddrMan.AddrMan.ResolveCollisions_ | src/addrman.cpp:618-677 | the effect is that of resolving the pending ids in order |
| AddrMan.AddrMan.SelectTriedCollision_ | src/addrman.cpp:679-706 | it returns an existing tried entry that blocks a live collision, or nothing, if there is no collision or after forgetting a dead one |
| AddrMan.AddrMan.GetAddr_ | src/addrman.cpp:542-574 | no entry twice, none that is terrible, never more than the limit, and all presentable ones when fewer are found |
| AddrMan.AddrMan.RandomListsAll | src/addrman.cpp:463-539 | the random list has as many members as the two counters together and as the map |
| AddrMan.AddrMan.RemoveInvalid | src/addrman.cpp:80-110 | the result is the part of the manager with valid addresses: entries, reference counts, both tables, address index and pending collisions |
| AddrMan.AddrMan.Serialize | src/addrman.h:233-296 | the file is the specified one and its two counts are the numbers of entries that follow |
| AddrMan.AddrMan.Unserialize | src/addrman.h:299-462 | for every file the loaded manager is the specified one with right random list and counters; all its indexes agree if and only if the entries that found a place have proper times and addresses of their own, and it passes Check_ if and only if they do apart from what Check_ overlooks of the first entry; counts out of range are the only refusal |
| AddrMan.AddrMan.Check_ | src/addrman.cpp:463-539 | it returns zero if and only if random list, counters, entries and both tables are as specified and the key is not null; it inserts missing addresses, after which every entry is found, and changes nothing in a valid manager |
| AddrMan.AddrMan.CheckEntries | src/addrman.cpp:473-497 | the loop over the entries passes if and only if each of them does, although look-ups insert addresses on the way |
| AddrMan.AddrMan.CheckTried | src/addrman.cpp:504-516 | the loop over the tried table passes if and only if each slot holds a tried entry that belongs there |
| AddrMan.AddrMan.CheckNew | src/addrman.cpp:518-529 | the loop over the new table passes if and only if each slot holds a new entry that may be there and none is held more often than it counts |
| AddrMan.AddrMan.ValidChecks | src/addrman.cpp:463-539 | a valid manager passes Check_ |
| AddrCheck.SoundIff | src/addrman.cpp:473-534 | the tests of the three loops together are the statement about entries, places, counts and tried slots |
| AddrCheck.LoadedSound | src/addrman.h:299-462 | for every file: the loaded manager passes Check_ if and only if each entry that finds a place, with a valid address, has proper times and shares its address with no other entry read; of the entry numbered zero only with none that found a place |
| AddrCheck.FirstOverlooked | src/addrman.cpp:489-490 | a file that loads to a manager which passes Check_ although the address of its first entry leads nowhere |
| AddrMan.RandomBack | src/addrman.cpp:470-492 | as many places as entries and each entry at its own place: the random list is the exact inverse |
| AddrMan.AddrMan.ReadReference | src/addrman.h:418-442 | one bucket reference is restored at its place or at the place of the entry source |
| AddrFile.RoundTrip | src/addrman.h:233-462 | loading what a consistent manager saved, with the same bucketing and only valid addresses, gives the same manager with renumbered entries |
| AddrLoad.LoadSaved | src/addrman.h:233-462 | without the condition on addresses: the part with valid addresses comes back, with its data, reference counts and slots |
| AddrLoad.FilteredIs | src/addrman.cpp:80-110 | the two loops drop exactly the entries with an invalid address and leave all others with all their references |
| AddrLoad.LoadedIff | src/addrman.h:299-462 | for every file: the indexes of the loaded manager agree if and only if each entry that finds a place, with a valid address, has proper times and shares its address with no other entry read |
| AddrLoad.HousedOk | src/addrman.h:299-462 | tables, reference counts and tried slots are in order whatever the file says |
| AddrCheck.RepeatedFails | src/addrman.h:359-380 | a file with one valid address in two tried slots loads to a manager that fails Check_ |
| AddrCheck.NoSuccessFails | src/addrman.h:359-380 | so does one with a tried entry that was never reached |
| AddrCheck.NegativeTimeFails | src/addrman.h:350-358 | so does one with a new entry whose time is negative |
| AddrLoad.RepeatedLost | src/addrman.h:359-380 | a repeated entry that loses its slot to the first does no harm |
| AddrFile.RenamedKeeps | src/addrman.h:233-462 | renumbering keeps every address with its saved data and reference count, and every slot of both tables |
| AddrFile.Rebuilt | src/addrman.h:351-442 | no tried entry is lost to a slot collision and every reference finds its old place free |
| AddrFile.NewFits | src/addrman.h:336-341 | the number of new entries written never exceeds what the reader accepts |
| AddrFile.TriedFits | src/addrman.h:343-348 | the number of tried entries written never exceeds what the reader accepts |
| AddrLoad.LoadedOk | src/addrman.h:299-462 | any file without repeated addresses and with proper times, of whatever bucketing, loads to a consistent manager |
| AddrLoad.SavedFileOk | src/addrman.h:233-296 | what a consistent manager writes is such a file |
| AddrLoad.Rebucketed | src/addrman.h:404-442 | a manager saved under one bucketing loads, consistent, under any other |
| AddrLoad.CollectRefs | src/addrman.h:382-398 | the first pass collects exactly the references with an index in range |
| AddrLoad.RefsSame | src/addrman.h:382-442 | collecting references first and applying them afterwards is the same as applying them while reading |
| RollingBloom.RollingBloomFilter.Insert | src/bloom.cpp:213-242 | after every insertion each cell holds the generation of its last write if that is one of the last three, and zero otherwise |
| RollingBloom.RollingBloomFilter.Contains | src/bloom.cpp:250-262 | true if and only if every cell of the key was written by one of the remembered insertions |
| RollingBloom.RecentReported | src/bloom.cpp:213-262 | every key among the last 2G insertions is reported, for every hash function and whatever came after |
| RollingBloom.WindowSize | src/bloom.cpp:213-242 | between two and three full generations are remembered |
| RollingBloom.RollingBloomFilter.Wipe | src/bloom.cpp:221-229 | the masked wipe clears the cells with the reused generation number and no other |
| RollingBloom.WipeValue | src/bloom.cpp:221-229 | the same for one pair of 64-bit words, bit by bit |
| RollingBloom.RollingBloomFilter.Write | src/bloom.cpp:233-241 | one cell takes the current generation and no other changes |
| RollingBloom.WriteValue | src/bloom.cpp:239-240 | the two masked stores set one two-bit cell |
| RollingBloom.ExpectedNext | src/bloom.cpp:213-242 | how one insertion changes what a cell should hold |
| RollingBloom.ExpectedWritten | src/bloom.cpp:250-262 | a cell is nonzero if and only if a remembered insertion wrote it |
| RollingBloom.RollingBloomFilter.Reset | src/bloom.cpp:270-276 | nothing is remembered |
| RollingBloom.FastMod | src/bloom.cpp:209-211 | the scaled hash is a position in the table |
| Cuckoo.Cache.Insert | src/cuckoocache.h:392-442 | after the epoch check at most one live element, the new one included, is lost, none when a place of the new element is erasable; elements stay unique and at places of their own |
| Cuckoo.Cache.InsertAbsent | src/cuckoocache.h:407-442 | the displacement chain strikes the specified slots, loses at most the last displaced element, exactly when the depth runs out, and moves epochs with elements |
| Cuckoo.Cache.Contains | src/cuckoocache.h:469-479 | true for exactly the elements in the table, so for every live one; erasing only flags |
| Cuckoo.Cache.EpochCheck | src/cuckoocache.h:288-320 | scan, aging and the new counter are the specified ones |
| Cuckoo.CheckedOk | src/cuckoocache.h:288-320 | the live elements of an epoch never exceed its size plus a sixteenth, and aging flags none of the epoch that ends |
| Cuckoo.PutFree | src/cuckoocache.h:411-418 | storing at an erasable slot loses nothing live |
| Cuckoo.PutSwap | src/cuckoocache.h:434-438 | a displacement exchanges the element inside for the one outside |
| Cuckoo.Place | src/cuckoocache.h:242-252 | the scaled hash is a slot of the table |
| Cuckoo.FirstVictim | src/cuckoocache.h:419-434 | the first displacement strikes the second place, not the first as the comment says |
| Cuckoo.ChainIff | src/cuckoocache.h:419-438 | no insertion into any consistent table strikes the slot it has just written, if and only if no element has a place that is repeated right after it first comes, for every hasher with elements enough for each slot: more than fill the table and one |
| Cuckoo.ChainMoves | src/cuckoocache.h:419-438 | without such a place no chain of any length does, for every hasher |
| Cuckoo.ChainReturns | src/cuckoocache.h:419-438 | with such a place and such a hasher there is a full consistent table and an element whose insertion does |
| Cuckoo.ZeroHasherReturns | src/cuckoocache.h:419-438 | two elements with all their places at one slot do |
| Cuckoo.BitPackedFlags.BitSet | src/cuckoocache.h:90-93 | one flag is set and no other changes |
| Cuckoo.BitPackedFlags.BitUnset | src/cuckoocache.h:101-104 | one flag is cleared and no other changes |
| Cuckoo.BitPackedFlags.BitIsSet | src/cuckoocache.h:111-114 | the flag last written |
| Bech32.BurstDetected | src/bech32.cpp:42-99 | any nonzero error within six consecutive symbols changes the remainder, at any length |
| Bech32.BurstRejected | src/bech32.cpp:123-133 | such an error never verifies under the same encoding |
| Bech32.BothEncodings | src/bech32.cpp:123-147 | every payload has a checksum under each encoding, and the two differ |
| Bech32.ErrorPasses | src/bech32.cpp:123-133 | a valid string with any error passes, as the same or the other encoding, if and only if the remainder of the error alone is the difference of the two constants |
| Bech32.OneBurstCrosses | src/bech32.cpp:123-133 | in every window of six symbols exactly one error turns a valid string into a valid one of the other encoding, the same error for all strings of that length |
| Bech32.UndoRun | src/bech32.cpp:71-97 | multiplying by powers of x modulo the generator reaches every remainder |
| Bech32.ChecksumUnique | src/bech32.cpp:136-147 | for every payload and constant exactly one six-symbol checksum verifies, the computed one |
| Bech32.RunXor | src/bech32.cpp:71-97 | the remainder is linear over exclusive or |
| Bech32.StepInjective | src/bech32.cpp:71-97 | multiplying by x modulo the generator loses nothing |
| Bech32.DecodeEncoded | src/bech32.cpp:152-197 | decoding inverts encoding if and only if the prefix is printable and not empty and the length is at most 90; prefixes may contain 1 |
| Bech32.EncodeDecoded | src/bech32.cpp:152-197 | what decodes is what encoding produces, up to the case of letters |
| Bech32.PolyMod | src/bech32.cpp:42-99 | the loop computes the remainder, always below 2^30 |
| Bech32.ExpandHRP | src/bech32.cpp:108-120 | the expanded prefix |
| Bech32.VerifyChecksum | src/bech32.cpp:123-133 | the encoding whose constant the remainder equals |
| Bech32.CreateChecksum | src/bech32.cpp:136-147 | the six symbols that verify |
| Bech32.Encode | src/bech32.cpp:152-165 | the specified string |
| Bech32.Decode | src/bech32.cpp:168-197 | the specified result, for every string |
| Bech32.CharIs | src/bech32.cpp:19-31 | the reverse table inverts the alphabet, which has no 1 and no upper-case letter |
| Bech32.SymbolChar | src/bech32.cpp:19-31 | the alphabet inverts the reverse table |
| ArithUint.BaseUint.Add | src/arith_uint256.h:132-142 | addition modulo the width |
| ArithUint.BaseUint.Increment | src/arith_uint256.h:170-177 | plus one modulo the width |
| ArithUint.BaseUint.Decrement | src/arith_uint256.h:187-194 | minus one modulo the width |
| ArithUint.BaseUint.Negated | src/arith_uint256.h:74-81 | the negative modulo the width |
| ArithUint.BaseUint.Subtract | src/arith_uint256.h:144-148 | the difference modulo the width |
| ArithUint.BaseUint.MulSmall | src/arith_uint256.cpp:55-64 | product with a limb modulo the width |
| ArithUint.BaseUint.Multiply | src/arith_uint256.cpp:67-80 | long multiplication is the product modulo the width |
| ArithUint.BaseUint.AddProduct | src/arith_uint256.cpp:71-77 | one row of it adds the shifted multiple, exactly, with the carry out |
| ArithUint.BaseUint.ShiftLeft | src/arith_uint256.cpp:21-35 | multiplication by a power of two modulo the width |
| ArithUint.BaseUint.ShiftRight | src/arith_uint256.cpp:38-52 | division by a power of two |
| ArithUint.BaseUint.Divide | src/arith_uint256.cpp:83-106 | shift-and-subtract division is the floor quotient for every nonzero divisor, and fails only for zero |
| ArithUint.BaseUint.DivideStep | src/arith_uint256.cpp:97-104 | one round keeps dividend = quotient * divisor + rest and the bounds of the rest |
| ArithUint.BaseUint.CompareTo | src/arith_uint256.cpp:109-118 | the order of the numbers |
| ArithUint.BaseUint.Bits | src/arith_uint256.cpp:171-183 | the bit length |
| ArithUint.LimbShift | src/arith_uint256.cpp:28-33 | the two parts of a shifted limb add up and do not overlap |
| ArithUint.OrAdds | src/arith_uint256.cpp:29-33 | bitwise or of bits that do not overlap is addition |
| Compact.SetCompact | src/arith_uint256.cpp:203-221 | the magnitude modulo 2^256, the sign, and overflow if and only if the magnitude does not fit |
| Compact.GetCompact | src/arith_uint256.cpp:223-244 | the specified compact form; both asserts hold |
| Compact.OverflowIff | src/arith_uint256.cpp:216-219 | the overflow test means exactly that 256 bits do not suffice |
| Compact.ExpandCompact | src/arith_uint256.cpp:203-244 | compacting and expanding clears exactly the bytes below the mantissa and never overflows |
| Compact.CompactStable | src/arith_uint256.cpp:203-244 | repeating that trip changes nothing |
| Compact.Parts | src/arith_uint256.cpp:236-243 | size, mantissa and sign are read back as they were packed |
| Compact.GetLow64 | src/arith_uint256.h:242-246 | the number modulo 2^64 |
| Chain.BlockIndex.GetAncestor | src/chain.cpp:84-110 | with skip pointers, the same block as walking back one by one, and null out of range; with all pointers in place the number of steps depends on the two heights only |
| Chain.BlockIndex.BuildSkip | src/chain.cpp:117-121 | the skip pointer is the right ancestor and every other walk stays right |
| SkipHeights.GetSkipHeight | src/chain.cpp:72-82 | always a lower height |
| SkipHeights.StepsBound | src/chain.cpp:72-110 | from a height of k bits every ancestor is reached in at most k(k + 5)/2 steps |
| SkipHeights.DownTo | src/chain.cpp:90-107 | from above a round height the walk comes down to it in at most two steps more than there are ones in the difference |
| Chain.CChain.SetTip | src/chain.cpp:12-22 | in spite of stopping early, every entry is the ancestor of the new tip at its height |
| Chain.CChain.FindFork | src/chain.cpp:52-61 | the highest block shared with the chain, or null if there is none |
| Chain.LastCommonAncestor | src/chain.cpp:204-219 | the highest common ancestor, or null exactly when the two branches have no block in common; the assert holds in either case |
| Chain.CChain.GetLocator | src/chain.cpp:24-50 | the blocks at the specified distances from the start down to the genesis block |
| Chain.LocatorFalls | src/chain.cpp:24-50 | heights fall strictly from the start to the genesis block |
| Chain.LocatorBound | src/chain.cpp:24-50 | at most 12 + L entries whenever 2^L exceeds the height |
| Chain.CChain.NextIsChild | src/chain.h:438-443 | the successor is the child on this chain, absent exactly for the tip and for blocks elsewhere |
| Base58.DecodeEncoded | src/base58.cpp:38-125 | decoding inverts encoding for every byte string and rejects exactly what is longer than the limit |
| Base58.EncodeDecoded | src/base58.cpp:38-125 | encoding inverts decoding, up to the spaces around the word |
| Base58.EncodeFits | src/base58.cpp:96-98 | the buffer of 138/100 + 1 digits is always large enough |
| Base58.DecodeFits | src/base58.cpp:51-53 | the buffer of 733/1000 + 1 bytes is always large enough |
| Base58.Accumulate | src/base58.cpp:61-71 | one round multiplies and adds, leaves no carry and keeps the length exact |
| Base58.EncodeBase58 | src/base58.cpp:87-125 | the specified string |
| Base58.DecodeBase58 | src/base58.cpp:38-85 | the specified result, for every string and limit |
| Base58.DecodeDigits | src/base58.cpp:51-73 | early refusals happen only for strings that are refused anyway |
| Base58.DigitsNum | src/base58.cpp:38-125 | digits without a leading zero are determined by their number |
| Base58.CharIs | src/base58.cpp:18-36 | the reverse table inverts the alphabet |
| Base58.DigitIs | src/base58.cpp:18-36 | the alphabet inverts the reverse table |
| Compressor.DecompressCompressed | src/compressor.cpp:149-192 | decompression inverts compression on all natural numbers |
| Compressor.CompressDecompressed | src/compressor.cpp:149-192 | compression inverts decompression on all natural numbers |
| Compressor.RoundTripWord | src/compressor.cpp:149-192 | in 64-bit words, for every amount in the documented range, the trip is exact if and only if the amount is a multiple of ten or its packed form fits |
| Compressor.RangeExceeded | src/compressor.h:37-39 | an amount in the documented range that does not survive the trip |
| Compressor.FitsIff | src/compressor.cpp:149-166 | when the packed form fits in a word |
| Compressor.FitsWhen | src/compressor.cpp:149-166 | all amounts up to a ninth of the word range fit, and all multiples of ten |
| Compressor.CompressAmount | src/compressor.cpp:149-166 | the packed form modulo 2^64 |
| Compressor.DecompressAmount | src/compressor.cpp:168-192 | the amount modulo 2^64 |
| BlockFilter.MapIntoRange | src/blockfilter.cpp:32-57 | the piecewise product is the upper word of x * n, with no overflow on the way |
| BlockFilter.Range | src/blockfilter.cpp:26-36 | below n for every positive n |
| BlockFilter.GCSFilter.MatchInternal | src/blockfilter.cpp:136-164 | with sorted queries, true if and only if one of them is a hash in the filter |
| BlockFilter.GCSFilter.Match | src/blockfilter.cpp:166-170 | true if and only if the hash of the element is in the filter |
| BlockFilter.GCSFilter.MatchAny | src/blockfilter.cpp:172-176 | true if and only if the two sets of hashes meet |
| BlockFilter.SharedElementMeets | src/blockfilter.cpp:136-176 | no false negatives |
| BlockFilter.GCSFilter.constructor | src/blockfilter.cpp:104-134 | the stream holds the differences of the sorted hashes in the range n * m, with the given parameters |
| BlockFilter.BuildHashedSet | src/blockfilter.cpp:66-75 | the sorted hashes of the elements |
| BlockFilter.RiceBack | src/util/golombrice.h:13-41 | what is written is read back, wherever in the stream it is |
| BlockFilter.BitStreamReader.GolombRiceDecode | src/util/golombrice.h:30-41 | the specified value and position, failing exactly where the stream ends early or the remainder is wider than a word |
| BlockFilter.BitStreamReader.Read | src/streams.h:477-496 | the next bits as a number; refusal exactly for more than 64 bits or past the end |
| BlockFilter.NextDelta | src/blockfilter.cpp:136-164 | after i values the reader finds the next difference |
| BlockEncodings.PartiallyDownloadedBlock.InitData | src/blockencodings.cpp:49-169 | each slot holds exactly what was offered under its short id comes to, early ends included; the first counter grows by the ids filled, the second by the ids the extra transactions gained less those they contradicted, both in terms of the pool and the extra list; invalid, failed and accepted messages are told apart exactly |
| BlockEncodings.PartiallyDownloadedBlock.FillBlock | src/blockencodings.cpp:179-223 | the missing transactions go to the free positions in order; with too many or too few it is refused, and with too few the slots before the first one left open have been emptied |
| BlockEncodings.PartiallyDownloadedBlock.Request | src/net_processing.cpp:3555-3559 | the positions that are still free, in order |
| BlockEncodings.Relay | src/blockencodings.cpp:19-223 | announce, fill in, ask over the differential coding, answer and fill: with no repeated short id and no foreign transaction under one, the receiver checks exactly the block of the sender; otherwise it fails |
| BlockEncodings.Answer | src/net_processing.cpp:2022-2031 | the transactions asked for, or refusal exactly for an index outside the block |
| BlockEncodings.ScanExact | src/blockencodings.cpp:106-166 | the two loops with their early ends: contents of every slot and both counters, in terms of what was offered |
| BlockEncodings.LookedAtIs | src/blockencodings.cpp:106-166 | the loops look at a prefix of each list, and at all of it unless every id was filled before |
| BlockEncodings.FilledIff | src/blockencodings.cpp:106-166 | if the pool offers at most one candidate under its short id, a position is filled if and only if its transaction is offered |
| BlockEncodings.FilledMore | src/blockencodings.cpp:133-166 | what the extra transactions add to the ids filled is the ids they gain less the ids they contradict, so extra_count falls exactly when the latter are more |
| BlockEncodings.NeverFalls | src/blockencodings.cpp:133-166 | if no pool transaction and extra transaction under one announced short id differ in witness hash, extra_count never falls |
| BlockEncodings.ExtraCountNegative | src/blockencodings.cpp:49-169 | InitData on a block of one announced transaction, found in the pool and contradicted by an extra transaction, leaves extra_count at minus one |
| BlockEncodings.Reconstructs | src/blockencodings.cpp:49-223 | without a foreign transaction under the short id of a position that is not prefilled, filling in the block own missing transactions gives the block |
| BlockEncodings.AnnounceRepresents | src/blockencodings.cpp:19-29 | the sender message is acceptable and announces exactly the block |
| BlockEncodings.Announce | src/blockencodings.cpp:19-29 | first transaction prefilled, short ids for the others in order |
| BlockEncodings.PlaceAll | src/blockencodings.cpp:58-78 | no prefilled transaction is put outside the block, and acceptance is decided as specified |
| BlockEncodings.PlacedFree | src/blockencodings.cpp:60-78 | exactly as many positions stay free as there are short ids |
| BlockEncodings.MapShortIds | src/blockencodings.cpp:84-106 | the i-th short id is mapped to the i-th free position, the search never leaves the block, and it fails if and only if an id is repeated or a bucket is crowded |
| BlockEncodings.SerAll | src/blockencodings.h:23-28 | a list is written if and only if it is strictly rising |
| BlockEncodings.UnserAll | src/blockencodings.h:30-36 | reading gives the list that is written so, if its size and differences are not above what is read back, and fails otherwise |
| BlockEncodings.SmallReadable | src/serialize.h:308-310 | 16-bit indexes are never above it |
| BlockEncodings.DifferenceFormatter.Ser | src/blockencodings.h:23-28 | the difference to the next possible index |
| BlockEncodings.DifferenceFormatter.Unser | src/blockencodings.h:30-36 | refused are exactly differences above MAX_SIZE and sums that overflow or exceed the type |

## Left out

- AddrMan.AddrMan.Unserialize: the file has as many bucket lists as it announces, as reading them from the stream ensures. Old format versions and the format bytes are not modelled; the key is fixed, with the hashes that depend on it.
- AddrMan.AddrMan.Check_: the iteration order of the unordered map is a parameter; that the check runs only in debug builds is not modelled.
- AddrMan.AddrMan.Serialize: the iteration order of the unordered map is a parameter; the byte encoding of an entry is not modelled.
- BlockEncodings.PartiallyDownloadedBlock.InitData: assumes the count limit of 16 bits that reading the message enforces; the size of a hash bucket is a parameter.
- BlockEncodings.PartiallyDownloadedBlock.FillBlock: the block check is a parameter.
- BlockFilter.GCSFilter.constructor: sets of 2^32 or more elements, where the source throws, and remainders of 64 bits or more, where its shift is undefined, are excluded; parsing a foreign encoded filter is not modelled.
- RollingBloom.RollingBloomFilter.Insert: the number of hash functions and the table size, which the source gets from floating-point formulas, are parameters; at least one element is required, as the source has no table otherwise.
- Cuckoo.Cache.Insert: concurrent erasing by readers is not modelled; the depth limit, a floating-point logarithm, is a parameter of at least one.
- Coins.CoinsViewDB.BatchWrite: when a batch is full is a parameter; each batch reaches the disk whole or not at all.
- Replay.ReplayBlocks: the two branches are given as lists of blocks with their undo data; unreadable blocks and undo files are not modelled. That the goal is reached from a mixture of old and new coins is stated for undo records with a height.
- Replay.DisconnectBlock: the removal of announcements from their own database is not modelled.
- CheckQueue.WaitIsExact: the stop request, restarting of workers and the control object's scope guard are not modelled; counters do not wrap.
- ArithUint.BaseUint.Add: a right-hand side that is the same object is covered only as an equal value.
- Base58.DecodeBase58: the four-byte check sums of Base58Check, which rest on a hash function, are not modelled.
- Bech32.BurstDetected: detection of four scattered errors in 89 symbols, a property of the particular generator, is not modelled.
- The plain bloom filter, GetBlockProof, median times and FindEarliestAtLeast: easy or floating-point members.
- Select_, GetChance and all statements about probabilities: not properties of every run.
- Script compression, the mempool, validation beyond the replay, networking, storage, wallet, RPC and the mining code.
- Cuckoo.ChainIff: that every element with a repeated place makes some insertion return needs, for each slot, more elements that strike it first than fill the table and one; RichExample is such a hasher. The other direction, ChainMoves, needs nothing.
