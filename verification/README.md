# Chain, coins, slots and stores of the full node, verified

This project models the consensus core of the full node in Dafny and proves what it is for. The reference
for everything about coins is simple: replay the blocks of a block's own ancestry from genesis. The node never
does that. It keeps one coin table for the heaviest chain, an LRU cache beside it, a height index that is only
ever overwritten, and it validates blocks on any branch with the peak's table and a diff since the fork. The
first part shows that all of this refines the reference. The second part takes the header rules as a step
relation on chains and derives where sub-epoch summaries fall, that the epoch scan is safe and measures what it
should, that rates stay usable over all epochs, and that the search for VDF starting points follows one rule.
The third part covers the stores that keep redundant indexes: the mempool and the store of finished sub-slots.

Modules, in the order in which they build on each other:

- `Primitives`, `Coins`: hashes, coins named by their contents, rewards as a function of height.
- `Ledger`, `LedgerTheorems`: valid chains, replay, freshness of coins, rollback, conservation of supply.
- `Lru`, `CoinStores`: the coin table with its cache.
- `Chains`, `ForkLookup`: ancestries, fork points, looking a coin up across a fork.
- `BlockOutputs`, `TimeLocks`, `BodyValidation`, `BlockCreation`: what spends create, when their locks open, the body checks as coded,
  and the reward claims a farmer creates.
- `BlockStores`, `Blockchains`: restart, extensions, orphans and reorganisations.
- `Generators`, `GeneratedSpends`, `StaleIndex`, `BlockFetch`: generator references and block ranges by height, what they mean for the spends
  of a block, and a run that leaves stale entries in the index.
- `PotIterations`, `HeaderChains`, `SlotIters`, `SubEpochs`, `ChallengeBlocks`: signage and infusion points, header rules, deficits,
  sub-epoch summaries, challenge blocks.
- `EpochScan`, `SignificantBits`, `Retarget`: measuring an epoch and retargeting at its end.
- `VdfInfo`, `BlockChallenge`, `PeakSlots`: VDF starting points, challenges, the half-slot test, the sub-slots of a peak.
- `Mempools`, `SlotStores`: the two stores.
- `SampleLedger`, `SampleChain`, `LateSummary`: concrete chains that satisfy the rules, so none of the statements about valid chains is empty.
  The blocks of `StaleIndex` have headers of the two chains in `SampleChain`.

A hash is an injective constructor where the code relies on what it commits to (coin names, challenge-chain
hashes) and an opaque number otherwise; blocks are filed under their own hash. SQL tables are maps. The CLVM run
of a block is the list of its spends with their conditions; `GeneratedSpends` makes it a function of the generator and the generators it
refers to. Signatures, proofs of space, VDF proofs, Merkle roots and filters are boolean inputs.

`ConstantsOk` collects what the proofs need of the constants: 2 ≤ MIN_BLOCKS_PER_CHALLENGE_BLOCK,
2·MIN + 1 < MAX_SUB_SLOT_BLOCKS, 1 ≤ NUM_SP_INTERVALS_EXTRA, 2·EXTRA ≤ NUM_SPS_SUB_SLOT,
2·MAX + MIN < SUB_EPOCH_BLOCKS, 4·MAX + 2·MIN + 1 < EPOCH_BLOCKS and EPOCH_BLOCKS a multiple of SUB_EPOCH_BLOCKS. The bound on
EPOCH_BLOCKS is what the code's own computation of the epoch boundary needs (`EpochLengthIsTight`). The default constants and all
those by which the tests replace them qualify (`RepositoryConstantsOk`).
`RatesOk` adds that NUM_SPS_SUB_SLOT is a power of two, that the factor and the number of bits are at least one, and that the starting
rates are usable.

Properties that turned out false of the code as written, each with its exact condition:

- Generator references and block ranges found through the height index are the block's own ancestors exactly
  when the starting block is not above the peak or the index does not name it. After a reorganisation to a heavier, shorter chain,
  entries above the peak are stale (`RefsResolveExactly`, `FetchIsOwnExactly`; `StaleReference`).
- Validating a block and switching to its branch run the generators of its ancestors again, which the comments expect to give what
  they gave before. All references of the block and of its ancestors resolve on their own ancestry exactly when no ancestor
  above the peak is a stale entry of the index or missing from it (`BranchRefsResolveExactly`). Otherwise validation and the switch
  of chains can work with spends other than those of the replay, even for a valid block whose own references are in order
  (`StaleRerun`), and the coin table need no longer be the replay of the heaviest chain.
- The six-case VDF search fails with an index error exactly when an overflow block follows in the sub-slot of a
  genesis block that finished one sub-slot, none having been finished since (`GetSignagePointVdfInfo`; `LookupCanFail`).
- The list of sub-slots rebuilt for a new peak is linked exactly when the peak is not an overflow block in that same sub-slot, where
  one bundle is handed over twice (`RebuiltIsLinked`; `RebuiltUnlinked`).
- The sub-slot of an overflow peak's signage point is handed over exactly when it is not that case and genesis is not passed
  over: with finished sub-slots, and a single one finished since by a block above height 1 (`SpSlotIsFound`; `SpSlotIsLost`).
- The records that a rollback returns are all modified records exactly when no surviving coin was spent above the
  rollback height; the docstring promises all of them (`RollbackReportIsComplete`; `ReportMissesCoin`).
- The walk in `new_signage_point` finds the block a signage point builds on exactly when the signage point lies in
  the peak's own sub-slot or no block of its sub-slot precedes it (`WalkIsRight`; `WalkCanMiss`).
- Items leave the mempool in order of increasing fee per cost exactly if that holds among items whose rates round to the same float; of two
  such items the one inserted first goes, even if it pays more (`EvictionIsFair`; `BetterIsEvicted`).

Where comments and code disagree, the code is followed. The comments on how late a sub-epoch summary can come give 128 and
2·MAX + MIN − 3 blocks past the boundary; what the checks allow is 2·MAX + MIN − 2 (`SesAppears`), which a valid chain attains (`SummaryAtTheLatest`), and every bound the epoch scan relies on
still holds. The pool reward is always 0 and the last farmer tier goes back up, so no monotonicity of rewards is claimed.

## Model

| member | source | states |
|---|---|---|
| `LedgerTheorems.NoDuplicateCoins` | tad/consensus/block_body_validation.py:266-276 | No coin a valid block creates is in the table its ancestors leave, so the INSERT never meets its primary key; the checks only compare outputs within the block |
| `LedgerTheorems.CreatedIsFresh` | tad/consensus/coinbase.py:13-28 | The induction behind it, on coin parentage: a created coin is new because its parent is spent here and nowhere before, or is a reward parent of an unclaimed height |
| `LedgerTheorems.CreatedOnce` | tad/full_node/coin_store.py:390-413 | On a whole valid chain every coin id is created by at most one block |
| `LedgerTheorems.SpentOnce` | tad/consensus/block_body_validation.py:272-276 | On a whole valid chain every coin is spent by at most one block, ephemeral spends included |
| `LedgerTheorems.SpentAfterCreated` | tad/consensus/block_body_validation.py:349-393 | On a whole valid chain no block spends a coin before the block that creates it |
| `LedgerTheorems.EphemeralIsRooted` | tad/consensus/block_body_validation.py:349-362 | Following ephemeral spends back through the block ends at a reward of the block or at a coin that was unspent before it |
| `LedgerTheorems.GenesisIsEmpty` | tad/full_node/coin_store.py:96-99 | A valid genesis block creates and spends nothing |
| `LedgerTheorems.ChainTable` | tad/full_node/coin_store.py:85-113 | Invariant of every replayed table: records carry heights of the chain, spent heights are not before creation, and parents are spent or claimed |
| `LedgerTheorems.RollbackUndoes` | tad/full_node/coin_store.py:332-387 | Deleting rows above h and unspending rows spent above h turns the table of a chain into that of its first h + 1 blocks, for every h from -1, coins created and spent above h included |
| `LedgerTheorems.ExpectedRewardsAre` | tad/consensus/block_body_validation.py:106-149 | The rewards a block must claim are exactly those of the heights not claimed before, up to the last transaction block, each with the fees of its own block |
| `LedgerTheorems.RewardClaimedOnce` | tad/consensus/block_body_validation.py:106-155 | No reward is claimed by two blocks of a chain |
| `LedgerTheorems.RewardIsPaid` | tad/consensus/block_body_validation.py:106-155 | Every claimed height has, in some later block, its pool coin of nothing and its farmer coin of the base reward and that block's fees, named by that height |
| `LedgerTheorems.StepValue` | tad/consensus/block_body_validation.py:395-430 | One transaction block: unspent value after it plus its fees is unspent value before it plus the rewards it claims |
| `LedgerTheorems.SupplyIsConserved` | tad/consensus/block_body_validation.py:395-430 | On every valid chain total unspent value plus the fees of the last transaction block is the sum of base rewards of all claimed heights |
| `LedgerTheorems.RewardsAreIssued` | tad/consensus/block_rewards.py:9-51 | Closed form of the base rewards of all heights below n: prefarm, then two, one, a half, a quarter and again one coin a block, by three-year periods |
| `LedgerTheorems.RewardCoinsFit` | tad/consensus/block_body_validation.py:117-126 | Every reward to be claimed on top of a valid chain is within the maximum amount, thanks to check 18 on the block that pays the fees, so building the farmer coin never overflows |
| `SampleLedger.SpendingIsPossible` | tad/consensus/block_body_validation.py:349-387 | The rules admit a chain that claims rewards, spends one in the block that claims it, pays a fee and later spends a coin of an earlier block |
| `SampleLedger.ReportMissesCoin` | tad/full_node/coin_store.py:368-380 | A valid chain and a rollback whose report lacks a coin that survives and is unspent by it |
| `Lru.LruCache.Get` | tad/util/lru_cache.py:10-15 | A hit returns the value and makes the key the most recent; contents do not change |
| `Lru.LruCache.Put` | tad/util/lru_cache.py:17-21 | The value is stored as the most recent one; beyond capacity exactly the least recent entry goes |
| `Lru.TouchIs` | tad/util/lru_cache.py:10-21 | A key in use moves to the end and the others keep their order; a new key goes to the end and, without room, the one unused for longest goes |
| `Lru.LruCache.Remove` | tad/util/lru_cache.py:23-24 | Exactly that key goes |
| `CoinStores.CoinStore.GetCoinRecord` | tad/full_node/coin_store.py:126-138 | The answer is the table row, from cache or table, whatever was evicted; cache and table stay coherent |
| `CoinStores.CoinStore.AddCoinRecords` | tad/full_node/coin_store.py:390-413 | Table and cache gain the records and stay coherent |
| `CoinStores.CoinStore.SetSpent` | tad/full_node/coin_store.py:416-430 | The rows become spent at this height, in the table and wherever they are cached |
| `CoinStores.CoinStore.NewBlock` | tad/full_node/coin_store.py:68-123 | The table becomes that of the replay step for the block, the returned records are exactly the coins created, the cache stays coherent |
| `CoinStores.InsertIsCreation` | tad/full_node/coin_store.py:112-113 | Inserting all new records and then marking removals spent is the replay step, ephemeral coins included |
| `CoinStores.CoinStore.RollbackToBlock` | tad/full_node/coin_store.py:332-387 | The table is rolled back exactly and the cache stays coherent; returned are exactly the deleted rows, with confirmation height and time set to 0 |
| `CoinStores.CoinStore.RollbackCache` | tad/full_node/coin_store.py:337-354 | The cached records become those of the rolled-back table and those created above the height go |
| `CoinStores.RollbackReportIsComplete` | tad/full_node/coin_store.py:356-387 | The returned list holds every modified record exactly when no surviving coin was spent above the height |
| `Chains.AncestryPrefix` | tad/consensus/blockchain.py:388-399 | Following previous hashes from an ancestor gives the initial part of the ancestry |
| `Chains.CommonPrefix` | tad/consensus/find_fork_point.py:8-17 | Two ancestries that share a block share everything below it |
| `Chains.FindForkPointInChain` | tad/consensus/find_fork_point.py:18-33 | The walk ends and returns the greatest height at which both ancestries agree, or -1 if they agree nowhere |
| `ForkLookup.ReplaySince` | tad/consensus/block_body_validation.py:309-347 | A coin is in the table of a branch, and spent there, exactly as its state at the fork and the blocks since the fork say |
| `ForkLookup.TableBelowFork` | tad/consensus/block_body_validation.py:364-371 | The peak's table, read only up to the fork height, is the table at the fork, whatever the peak's chain did afterwards |
| `ForkLookup.ForkLookupIsExact` | tad/consensus/block_body_validation.py:278-393 | Looking a coin up in the peak's table and in the diff since the fork finds it spendable exactly when replaying the block's own ancestors leaves it present and unspent |
| `ForkLookup.ForkRecordIsExact` | tad/consensus/block_body_validation.py:364-371 | The record found below the fork has the confirmation height and time that the block's own chain gives it |
| `ForkLookup.BirthRecord` | tad/consensus/block_body_validation.py:378-387 | A coin created on the branch has the height and time of the block that created it |
| `BlockOutputs.TxRemovalsAndAdditions` | tad/util/generator_tools.py:40-66 | Spend by spend and output by output the loops collect the names removed and the coins added |
| `BlockOutputs.AdditionsAre` | tad/util/generator_tools.py:40-47 | A coin is created by the spends of a block if and only if it is output j of spend i for some i and j |
| `BlockOutputs.AdditionsAt` | tad/util/generator_tools.py:40-47 | Output j of spend i comes behind all outputs of the spends before it, in order |
| `BlockOutputs.AdditionsCount` | tad/util/generator_tools.py:40-47 | There are as many created coins as outputs |
| `BlockOutputs.AdditionsSum` | tad/util/generator_tools.py:40-47 | The value created is the sum of all output amounts |
| `TimeLocks.LocksOpen` | tad/full_node/mempool_check_conditions.py:26-88 | The locks of a spend hold if and only if one height and one time are reached, the latest of its absolute locks and of its ages counted from confirmation |
| `TimeLocks.MempoolCheckConditions` | tad/full_node/mempool_check_conditions.py:138-158 | The four tests as coded decide all locks |
| `BodyValidation.ExpectedRewardCoins` | tad/consensus/block_body_validation.py:106-149 | The walk over block records collects exactly the rewards the ledger rule demands |
| `BodyValidation.HasDuplicates` | tad/consensus/block_body_validation.py:266-276 | Counting decides whether a list has duplicates |
| `BodyValidation.CollectReorgBlocks` | tad/consensus/block_body_validation.py:294-307 | The dictionary holds the branch's own blocks between fork and parent, by height |
| `BodyValidation.CollectSinceFork` | tad/consensus/block_body_validation.py:287-347 | The two collections are exactly the coins created with their height and time, and the coins removed, in the branch's own blocks after the fork; the asserts on repeats hold |
| `BodyValidation.FindRemoval` | tad/consensus/block_body_validation.py:349-393 | A removal is accepted exactly when the coin is made by this block or replay leaves it unspent, and the record used agrees with the branch |
| `BodyValidation.CheckAmounts` | tad/consensus/block_body_validation.py:229-239 | Decides check 10 and builds the dictionary of all coins the block creates |
| `BodyValidation.ReserveFeeSum` | tad/consensus/block_body_validation.py:409-418 | The sum of all reserved fees, refused if one is negative |
| `BodyValidation.CheckFees` | tad/consensus/block_body_validation.py:395-430 | Decides checks 16 to 19 together as the ledger rule on amounts |
| `BodyValidation.CheckPuzzles` | tad/consensus/block_body_validation.py:432-435 | Decides check 20 |
| `BodyValidation.CheckConditions` | tad/consensus/block_body_validation.py:437-457 | Decides the time locks of check 21 for the heights and times at which coins were confirmed |
| `BodyValidation.ValidateBlockBody` | tad/consensus/block_body_validation.py:69-457 | On any branch, with only the peak's coin table, accepts a block exactly when it is valid over the replay of its own ancestors |
| `BlockCreation.CreateRewardClaims` | tad/consensus/block_creation.py:147-186 | The claims a farmer creates are distinct and exactly the expected ones, so they always pass check 5 |
| `BlockStores.StoreOkExtend` | tad/full_node/block_store.py:67-96 | Storing a valid block under a new hash keeps every stored block valid over its own ancestors |
| `BlockStores.WeightGrows` | tad/consensus/block_header_validation.py:886-890 | Every ancestor is strictly lighter |
| `BlockStores.GetPeakHeightDicts` | tad/full_node/block_store.py:284-323 | The rebuilt dictionaries are the hashes and the summaries of the peak's ancestry |
| `Blockchains.CollectBlocksToAdd` | tad/consensus/blockchain.py:386-399 | The blocks collected are those of the new branch above the fork, also for a full reorganisation |
| `Blockchains.ApplyBlocks` | tad/consensus/blockchain.py:401-421 | Replaying the branch in height order turns the table at the fork into the table of the new chain; the asserts on reward counts hold |
| `Blockchains.UpdateIndex` | tad/consensus/blockchain.py:282-287 | The index gains the branch and the summaries become those of the new chain |
| `Blockchains.PeakForkHeight` | tad/consensus/blockchain.py:363-370 | The fork height used is one at which old and new chain agree with everything below; if computed it is the greatest, and for an extension it is the peak |
| `Blockchains.ValidateHeader` | tad/consensus/block_header_validation.py:788-898 | Decides weight, the genesis rules and the link to the previous transaction block of the block's own ancestry |
| `Blockchains.WeighedExtend` | tad/consensus/block_header_validation.py:886-890 | Accepting a block keeps: every stored block adds the difficulty it was received with to its parent's weight |
| `Blockchains.WeightIsSum` | tad/consensus/block_header_validation.py:886-890 | So the weight of a stored block is the sum of the difficulties received along its ancestry |
| `Blockchains.OrphanOk` | tad/consensus/blockchain.py:455-456 | Storing a block that is not heavier keeps every invariant of the node |
| `Blockchains.NewPeakOk` | tad/consensus/blockchain.py:446-453 | A heavier block with index, summaries and table of its own chain gives a state that meets every invariant |
| `Blockchains.Blockchain.GetPeak` | tad/consensus/blockchain.py:152-158 | Height and index name the heaviest block's record |
| `Blockchains.Blockchain.SwitchPeak` | tad/consensus/blockchain.py:361-453 | From the old chain's table, index and summaries to the new chain's, for any fork height that is a common ancestor, -1 included |
| `Blockchains.Blockchain.AddBlock` | tad/consensus/blockchain.py:268-300 | Decides new peak or orphan by weight and keeps every invariant |
| `Blockchains.Blockchain.ReceiveBlock` | tad/consensus/blockchain.py:171-300 | With the spends given, accepts a block exactly when header and body are valid over its own ancestors; in every run afterwards the table is the replay of the heaviest chain, the index on 0..peak its ancestry, the summaries exactly its own, the cache coherent, and no stored block heavier than the peak |
| `Blockchains.Blockchain.LoadChainFromStore` | tad/consensus/blockchain.py:130-150 | A restart gives the same summaries and records and the same index on 0..peak; stale entries above the peak are gone |
| `Generators.RefsResolveExactly` | tad/consensus/blockchain.py:863-932 | Every reference below a block resolves to its own ancestor if and only if the parent is not above the peak or the index has another block at the parent's height |
| `Generators.StaleParent` | tad/consensus/blockchain.py:282-289 | Otherwise the reference to the peak's height reaches the peak, which is not an ancestor |
| `Generators.BranchRefsResolveExactly` | tad/consensus/block_body_validation.py:309-326 | All references of a block and of all its ancestors resolve on their own ancestry if and only if every ancestor above the peak has another block at its height in the index |
| `StaleIndex.StaleReference` | tad/consensus/blockchain.py:872-883 | After the run below a block on the abandoned branch with a reference to height 1 gets the generator of the other branch, hence other spends than its own ancestry gives |
| `StaleIndex.Run` | tad/consensus/blockchain.py:282-289 | A run of accepted blocks on two branches and an orphan, every block a transaction block that claims its parent's rewards: the heavier branch is two blocks shorter, and the two entries above its tip are stale |
| `StaleIndex.HeadersAreRated` | tad/consensus/difficulty_adjustment.py:271-352 | The blocks of that run have weights, times and summaries of two valid header chains with the rates the rules give, whose difficulties part at the second epoch |
| `StaleIndex.StaleRerun` | tad/consensus/block_body_validation.py:311-326 | After that run a block on top of the orphan is valid and its own references resolve, but running the orphan's generator again takes the generator of the other branch and gives other spends than the stored ones |
| `Generators.GetBlockGenerator` | tad/consensus/blockchain.py:858-932 | Resolves all references in order with the coded outcome for missing keys and blocks without generator |
| `Generators.ResolvedListIsOwn` | tad/consensus/blockchain.py:863-932 | Under the condition of `RefsResolveExactly` the resolved list, or the missing generator, is that of the block's own ancestry |
| `GeneratedSpends.NodeSpendsAreOwn` | tad/consensus/blockchain.py:209-222 | Under that condition the spends computed by the node are those of the block's own ancestry |
| `GeneratedSpends.RerunsAreOwn` | tad/consensus/block_body_validation.py:311-326 | Where the references of a block and of its ancestors resolve on their own ancestry, running the generators of all its ancestors again, as body validation and the switch of chains do, gives the stored spends |
| `GeneratedSpends.NoStaleIsOwn` | tad/consensus/blockchain.py:863-932 | The condition of `BranchRefsResolveExactly` is enough for that, whatever the references are |
| `GeneratedSpends.RerunBranch` | tad/consensus/block_body_validation.py:309-345 | The walk back to the fork runs every generator again; it finds a difference only if there is one on the branch, and misses none above the peak |
| `GeneratedSpends.StoreGeneratedExtend` | tad/consensus/blockchain.py:268-274 | Storing a block with the spends of its own ancestry keeps that true of every stored block |
| `GeneratedSpends.ReceiveGenerated` | tad/consensus/blockchain.py:189-300 | Receiving a block together with running its generator and, since the fork, those of its ancestors: if stored blocks have the spends of their own ancestry and the references of the block and of its ancestors resolve on theirs, no exception is raised, the block is accepted exactly when it is valid with the spends of its own ancestry, and it is stored with them, so stored blocks still have theirs; no transaction block and no new peak is accepted over a rerun that differs above the old peak |
| `BlockFetch.GetBlocksAtHeight` | tad/consensus/difficulty_adjustment.py:29-49 | Index branch and walk as coded; the walk returns the block's own ancestors of the range |
| `BlockFetch.FetchIsOwnExactly` | tad/consensus/difficulty_adjustment.py:29-49 | Every range ending at or below the block gives its own ancestors if and only if the block is not above the peak or the index does not name it |
| `PotIterations.RepositoryConstantsOk` | tests/simulation/test_simulation.py:11-24 | The default constants and the three sets by which the tests replace them meet the assumptions |
| `PotIterations.IpItersAre` | tad/consensus/pot_iterations.py:25-43 | Closed form of the infusion point; none of the ValueErrors is raised for valid parameters |
| `PotIterations.ErrorsAre` | tad/consensus/pot_iterations.py:8-43 | Exact conditions for the ValueErrors: an index that is too high, or required iterations that are zero or no less than an interval |
| `PotIterations.OverflowTestsAgree` | tad/consensus/block_creation.py:340-340 | The index test for overflow is the comparison of signage and infusion point that block creation makes |
| `PotIterations.InfusionDistance` | tad/consensus/block_record.py:68-89 | In total iterations a block comes strictly between EXTRA and EXTRA + 1 intervals after its signage point, across sub-slots too |
| `PotIterations.NoInfusionAtSignagePoint` | tad/consensus/pot_iterations.py:19-43 | No infusion point coincides with a signage point of its sub-slot |
| `SlotIters.IterOrder` | tad/consensus/block_header_validation.py:543-599 | Sub-slot starts and infusion points never go backwards and a new sub-slot starts a full length later |
| `SlotIters.BeyondSlot` | tad/consensus/block_header_validation.py:543-599 | Blocks after a new sub-slot lie entirely beyond the sub-slots of the blocks before it |
| `SlotIters.OverflowComesFirst` | tad/consensus/pot_iterations.py:8-11 | Within a sub-slot overflow blocks precede the others |
| `SlotIters.OverflowSlotLength` | tad/consensus/block_header_validation.py:537-541 | Check 9 looks only at the first block, yet no block of an epoch's first sub-slot overflows, so an overflow block and the sub-slot before it agree on its length |
| `SubEpochs.DeficitRange` | tad/consensus/deficit.py:25-53 | Deficits stay between 0 and MIN_BLOCKS_PER_CHALLENGE_BLOCK |
| `ChallengeBlocks.ChallengeBlockExactly` | tad/consensus/deficit.py:25-53 | A block above genesis is a challenge block if and only if, of the blocks from a new sub-slot after a paid-off deficit on, it is the first whose signage point lies in that sub-slot or a later one |
| `ChallengeBlocks.WaitOrAnswer` | tad/consensus/deficit.py:33-51 | Until then all blocks overflow into the same sub-slot and the deficit stays at its maximum |
| `ChallengeBlocks.MaximumMeansWaiting` | tad/consensus/deficit.py:33-51 | The deficit is at its maximum if and only if blocks wait in this way |
| `ChallengeBlocks.DeficitIs` | tad/consensus/deficit.py:25-53 | Every deficit: the maximum while blocks wait, else what the blocks since the last challenge block leave of it |
| `SubEpochs.ChallengeBlocksApart` | tad/consensus/block_record.py:65-66 | Two challenge blocks are at least MIN_BLOCKS_PER_CHALLENGE_BLOCK heights apart, however sub-slots and overflow blocks interleave |
| `SubEpochs.SlotStartsWithin` | tad/consensus/block_header_validation.py:444-453 | Check 4 makes every run of MAX_SUB_SLOT_BLOCKS blocks above genesis contain the start of a sub-slot |
| `SubEpochs.AtMostOneSes` | tad/consensus/difficulty_adjustment.py:163-189 | A window of SUB_EPOCH_BLOCKS heights has at most one summary |
| `SubEpochs.SesAppears` | tad/consensus/block_header_validation.py:388-453 | Every window but the first has a summary at most 2·MAX + MIN − 2 past its start, if the chain is that long |
| `LateSummary.SummaryAtTheLatest` | tad/consensus/difficulty_adjustment.py:100-101 | The bound is attained: a valid chain whose first summary comes 2·MAX + MIN − 2 past the boundary |
| `SubEpochs.OneSesPerWindow` | tad/consensus/difficulty_adjustment.py:163-189 | Exactly one summary per window, fewer than 2·MAX + MIN blocks past its start and within the window |
| `SubEpochs.CanFinishSubAndFullEpoch` | tad/consensus/difficulty_adjustment.py:163-189 | The walk decides whether sub-epoch and epoch may finish |
| `EpochScan.TxWithin` | tad/consensus/block_header_validation.py:689-711 | Check 15 makes every run of 2·MAX_SUB_SLOT_BLOCKS blocks above genesis contain a transaction block |
| `EpochScan.TimestampsGrow` | tad/consensus/block_header_validation.py:819-824 | Timestamps of transaction blocks strictly increase along a chain |
| `EpochScan.EpochEndsSoon` | tad/consensus/difficulty_adjustment.py:71-85 | When an epoch may finish the next height is at most 2·MAX + MIN − 2 past an epoch boundary |
| `EpochScan.SecondToLastTxInPreviousEpoch` | tad/consensus/difficulty_adjustment.py:75-132 | On every valid chain both sanity asserts hold, the index stays within the fetched list, the loop stops just before the epoch's first block and the result is the last transaction block but one before it, or genesis |
| `EpochScan.EpochLengthIsTight` | tad/consensus/difficulty_adjustment.py:71-85 | For the latest height at which an epoch may finish, the boundary the code computes is the right one if and only if 4·MAX + 2·MIN + 1 < EPOCH_BLOCKS |
| `EpochScan.EpochStartIsTx` | tad/consensus/block_header_validation.py:537-541 | The first block of an epoch is always a transaction block, also if it overflows |
| `EpochScan.LastTxBeforeSignagePoint` | tad/consensus/difficulty_adjustment.py:240-247 | The comment's claim: the last transaction block before the last block's signage point is the last transaction block but one, whether or not the last block is one |
| `EpochScan.LastTxBeforeSp` | tad/consensus/difficulty_adjustment.py:245-247 | The walk back ends and finds that block |
| `EpochScan.MeasuredTimeIsPositive` | tad/consensus/difficulty_adjustment.py:248-255 | The two measuring blocks are in order and their timestamps differ, so there is no division by zero |
| `EpochScan.EpochsTile` | tad/consensus/difficulty_adjustment.py:65-72 | The block an epoch is measured from is the block the previous epoch was measured to |
| `EpochScan.MeasuredWithinEpoch` | tad/consensus/difficulty_adjustment.py:257-263 | The block whose sub-slot iterations serve as the base of the clamp has those of the last block of the epoch |
| `SignificantBits.TruncateIsGreatest` | tad/util/significant_bits.py:1-15 | Truncation by mask gives the greatest number not above the input with at most that many significant bits |
| `SignificantBits.TruncationError` | tad/util/significant_bits.py:1-15 | What truncation loses is less than one unit in the last kept place |
| `SignificantBits.CountSignificantBits` | tad/util/significant_bits.py:18-28 | The count is the least length into which the number fits |
| `Retarget.GreatestSsi` | tad/consensus/difficulty_adjustment.py:265-267 | Truncating and rounding to signage points gives the greatest usable sub-slot length not above the input |
| `Retarget.SsiAdjusted` | tad/consensus/difficulty_adjustment.py:257-268 | New sub-slot iterations are usable and the best value, up to truncation, nearest to the measured ones between the change factor's bounds and not below NUM_SPS_SUB_SLOT |
| `Retarget.DifficultyAdjusted` | tad/consensus/difficulty_adjustment.py:342-352 | The same for difficulty, not below 1 |
| `Retarget.NextRatesOk` | tad/consensus/difficulty_adjustment.py:355-410 | Whatever the rules give after a valid chain is usable again |
| `Retarget.RatesStayOk` | tad/consensus/pot_iterations.py:14-16 | Over all epochs sub-slot iterations are a positive multiple of NUM_SPS_SUB_SLOT and difficulty is at least 1, both with at most SIGNIFICANT_BITS bits |
| `Retarget.SsiFollowsMeasurement` | tad/consensus/difficulty_adjustment.py:250-268 | At the end of an epoch sub-slot iterations never move against the measured rate, seen from the epoch that ends, and stay within the change factor on both sides up to truncation |
| `Retarget.DifficultyFollowsMeasurement` | tad/consensus/difficulty_adjustment.py:333-352 | The same for difficulty |
| `Retarget.MeasuredSsiIs` | tad/consensus/difficulty_adjustment.py:250-255 | The measured sub-slot length is the greatest number of whole iterations done in SUB_SLOT_TIME_TARGET seconds at the epoch's pace |
| `Retarget.MeasuredDifficultyIs` | tad/consensus/difficulty_adjustment.py:335-340 | The measured difficulty is the greatest m for which m times SLOT_BLOCKS_TARGET times the seconds does not exceed the weight times SUB_SLOT_TIME_TARGET |
| `Retarget.SsiOnTarget` | tad/consensus/difficulty_adjustment.py:250-268 | After an epoch exactly on target, sub-slot iterations stay |
| `Retarget.DifficultyOnTarget` | tad/consensus/difficulty_adjustment.py:335-352 | After an epoch exactly on target, the difficulty stays |
| `Retarget.GetNextSubSlotIters` | tad/consensus/difficulty_adjustment.py:192-268 | As coded it gives the epoch's retargeted value or the current one; the bit-count assert holds |
| `Retarget.GetNextDifficulty` | tad/consensus/difficulty_adjustment.py:271-352 | As coded it gives the epoch's retargeted value or the current one; the bit-count assert holds |
| `Retarget.GetNextSubSlotItersAndDifficulty` | tad/consensus/difficulty_adjustment.py:355-410 | Both rates follow the rule and are usable |
| `SampleChain.EpochIsReached` | tad/consensus/difficulty_adjustment.py:163-189 | The header and rate rules admit a chain at whose end an epoch may finish |
| `SampleChain.SampleIsRated` | tad/consensus/difficulty_adjustment.py:192-352 | They admit a slow and a fast chain that go on into the second epoch, where the fast one has three times the rates of the slow one |
| `VdfInfo.StartWithinSlot` | tad/consensus/vdf_info_computation.py:51-70 | Cases 4 and 6: the walk finds the latest block before the signage point in its sub-slot, else the sub-slot's start, and its challenge |
| `VdfInfo.StartInPreviousSlot` | tad/consensus/vdf_info_computation.py:71-120 | Case 5: the same through the previous sub-slot, or failure when only one sub-slot exists |
| `VdfInfo.GetSignagePointVdfInfo` | tad/consensus/vdf_info_computation.py:28-154 | All six cases follow one rule: start at the latest ancestor infused in the signage point's sub-slot before it, else at the start of the sub-slot; iterations are the distance; the challenge is that sub-slot's; exact condition for the index error |
| `VdfInfo.RuleIsExact` | tad/consensus/vdf_info_computation.py:21-26 | The rule determines challenges, input and iterations |
| `VdfInfo.LookupCanFail` | tad/consensus/vdf_info_computation.py:110-120 | A valid chain on which the second sub-slot does not exist |
| `BlockChallenge.HalfSlot` | tad/consensus/get_block_challenge.py:37-41 | An overflow block is less than half a sub-slot after an earlier overflow block exactly when they share their sub-slot |
| `BlockChallenge.FinalEosIsAlreadyIncluded` | tad/consensus/get_block_challenge.py:32-51 | For an overflow block the test is true exactly when no sub-slot is listed and the parent, infused no later, is in the same sub-slot and not any number of sub-slots before |
| `BlockChallenge.LastChallengeIs` | tad/consensus/block_header_validation.py:115-125 | The walk to the latest start of a sub-slot ends at the last challenge of the chain |
| `BlockChallenge.GetBlockChallenge` | tad/consensus/get_block_challenge.py:54-102 | The challenge is that of the signage point's sub-slot in every case, the link of the last bundle following from checks 2a to 2c; exact condition for the failed lookup |
| `Mempools.EvictedIsShortest` | tad/full_node/mempool.py:66-70 | The evicted prefix makes room and no shorter prefix does |
| `Mempools.InsertKeepsOrder` | tad/full_node/mempool.py:74-78 | A new item goes behind all items of its own or a lower rate and before the others, which keep their order |
| `Mempools.InsertBucketOrder` | tad/full_node/mempool.py:74-78 | The sorted dictionary of dictionaries, read in order, is the list by rate and insertion |
| `Mempools.RemoveBucketOrder` | tad/full_node/mempool.py:51-54 | Deleting from it deletes exactly that item from the list |
| `Mempools.RemoveBucketOk` | tad/full_node/mempool.py:51-54 | Deleting leaves increasing rates and no empty bucket |
| `Mempools.Mempool.RemoveFromPool` | tad/full_node/mempool.py:40-56 | All four indexes and the total lose exactly that item; no key is missing and the total stays non-negative |
| `Mempools.Mempool.AddToPool` | tad/full_node/mempool.py:58-84 | Evicts the shortest sufficient prefix, no item of it with a higher fee per cost than a kept one, files the item in order of fee per cost and insertion, keeps all indexes in agreement and the total within capacity |
| `Mempools.Mempool.GetMinFeeRate` | tad/full_node/mempool.py:19-38 | Zero if there is room, else the fee per cost of the last item that adding would evict; the error exactly when it can never fit |
| `Mempools.DisplacesOnlyCheaper` | tad/full_node/mempool_manager.py:351-355 | Beating the minimum rate means displacing only items of a strictly lower rate |
| `Mempools.DisplacesLowerPaying` | tad/full_node/mempool_manager.py:348-355 | Under rounding in order, they also pay strictly less when fee / cost is compared exactly |
| `Mempools.EvictionIsFair` | tad/types/mempool_item.py:28-30 | No evicted item pays more, compared exactly, than a kept one if and only if that holds among items of the same float |
| `Mempools.BetterIsEvicted` | tad/full_node/mempool.py:66-70 | Two items of the same float of which the better one is evicted |
| `PeakSlots.GetSpAndIpSubSlots` | tad/consensus/blockchain.py:494-545 | The two walks find the sub-slots described by `SpAndIp` |
| `PeakSlots.IpSlotIsLast` | tad/consensus/blockchain.py:514-522 | For every peak of a valid chain the infusion's sub-slot is the last one finished on the chain, and a peak that does not overflow gets no other |
| `PeakSlots.PeakSpStart` | tad/consensus/block_record.py:68-72 | On every valid chain the sub-slot of the peak's signage point starts at 0 or later |
| `PeakSlots.PeakSlotsLink` | tad/consensus/blockchain.py:514-545 | On every valid chain the two sub-slots handed over continue each other if and only if the peak does not overflow in the sub-slot of a genesis block that finished one sub-slot |
| `PeakSlots.SpSlotIsFound` | tad/consensus/blockchain.py:524-545 | The sub-slot of an overflow peak's signage point is found if and only if there is more than one sub-slot and genesis is not passed over by the second walk |
| `PeakSlots.SameBundleTwice` | tad/consensus/blockchain.py:528-545 | A valid genesis block for which one bundle is handed over twice |
| `PeakSlots.SpSlotIsLost` | tad/consensus/blockchain.py:536-544 | A valid chain without overflow below its peak on which the signage point's sub-slot is left out |
| `SlotStores.ChallengesDistinct` | tad/full_node/full_node_store.py:234-236 | Slots of a linked list have different challenges |
| `SlotStores.FindInfusion` | tad/full_node/full_node_store.py:495-509 | Where the walk from the peak stops |
| `SlotStores.WalkIsRight` | tad/full_node/full_node_store.py:495-536 | That is the block the signage point builds on if and only if it lies in the peak's sub-slot or no block of its sub-slot precedes it |
| `SlotStores.WalkCanMiss` | tad/full_node/full_node_store.py:500-509 | A valid chain on which the walk misses the block that the peak's own signage point builds on |
| `SlotStores.PathIsUnique` | tad/full_node/full_node_store.py:781-789 | Two linked paths between the same challenges pass through the same challenges |
| `SlotStores.RebuiltIsLinked` | tad/full_node/full_node_store.py:707-715 | For every peak of a valid chain the rebuilt list has matching signage points, and it is linked if and only if the peak does not overflow in the sub-slot of a genesis block that finished one sub-slot |
| `SlotStores.RebuiltUnlinked` | tad/full_node/full_node_store.py:707-715 | A valid genesis block for which the rebuilt list is not linked |
| `SlotStores.OnlyOneFits` | tad/full_node/full_node_store.py:473-481 | In a linked list a signage point fits into one slot at most |
| `SlotStores.FullNodeStore.GetSubSlot` | tad/full_node/full_node_store.py:232-237 | Finds the bundle with that challenge if there is one |
| `SlotStores.FullNodeStore.NewFinishedSubSlot` | tad/full_node/full_node_store.py:243-443 | Appends exactly the bundles that extend the list, caches exactly those that wait for an infusion, leaves the list linked exactly if it was |
| `SlotStores.FullNodeStore.AddToFutureSp` | tad/full_node/full_node_store.py:196-211 | The signage point waits under its reward-chain challenge; in every run no list of waiting points holds one twice or under another key |
| `SlotStores.FullNodeStore.NewSignagePoint` | tad/full_node/full_node_store.py:457-582 | Stores the signage point at its index in the first slot with its challenge, exactly when it fits there, and changes nothing else; otherwise it is cached |
| `SlotStores.SpPosition` | tad/full_node/full_node_store.py:482-494 | The position computed for the peak's own index is that of its signage point; after the peak the next sub-slot length counts |
| `SlotStores.FullNodeStore.ResetForPeak` | tad/full_node/full_node_store.py:664-715 | The list becomes the peak's one or two sub-slots with exactly the signage points before the fork; linked if and only if the peak is not of that one kind |
| `SlotStores.FullNodeStore.AddCachedSubSlot` | tad/full_node/full_node_store.py:721-725 | The new bundle is the first one waiting for the peak's infusion that is in the list or extends it, None exactly if there is none; the list grows by it unless it is there |
| `SlotStores.FullNodeStore.AddCachedSps` | tad/full_node/full_node_store.py:727-733 | The new signage points are, in order, exactly the waiting ones that fit, and all of them are stored |
| `SlotStores.StoredAt` | tad/full_node/full_node_store.py:578-580 | After storing them every place holds the last signage point that belongs there, or what it held before |
| `SlotStores.FullNodeStore.NewPeak` | tad/full_node/full_node_store.py:647-746 | The list is the rebuilt one, grown by what waited for the peak as the rows above say, and exactly that leaves the caches; in every run the list stays non-empty, only its first slot can be the genesis slot, arrays have NUM_SPS_SUB_SLOT entries matching their sub-slots, and the list is linked if and only if the latest peak is not of that one kind |
| `SlotStores.FullNodeStore.GetFinishedSubSlots` | tad/full_node/full_node_store.py:762-793 | A non-empty result is a contiguous part of the list and, if that is linked, the path between the two challenges; exact conditions for the failed assertion and for no result |

## Left out

- Block-record cache: `clean_block_record`, `warmup` and the limited load at restart; the records of all stored blocks are taken as loaded.
- Aborted transactions and exceptions inside `receive_block`: each call is one committed step.
- Results of `receive_block` for wallets (coin changes, hints) and the hint store.
- The pre-validation path and multiprocess validation, which run the same header checks in batches.
- CLVM execution, signatures, proofs of space, VDF proofs, Merkle roots, transaction filter, cost: inputs that are given as results.
- Header checks other than those that govern heights, weights, deficits, summaries, iterations, transaction blocks and timestamps. Chains of the first part and header chains of the second part are separate models, joined only in `StaleIndex`; the difficulty passed to `ReceiveBlock` is at least 1 because of `RatesStayOk`.
- Generators.GetBlockGenerator: `additional_blocks` is not modelled, nor are references at or above the block's own height, which check 8c refuses.
- BodyValidation.CollectSinceFork: takes the stored spends of the ancestors where the source runs their generators again; `RerunsAreOwn` and `BranchRefsResolveExactly` say when these are the same, `StaleRerun` that they can differ.
- BodyValidation.ValidateBlockBody: takes the stored spends of the ancestors, as above.
- Blockchains.ApplyBlocks: takes the stored spends of the branch, as above.
- Blockchains.Blockchain.ReceiveBlock: takes the spends with the block and those of its ancestors from the store; `ReceiveGenerated` says when these are what running the generators gives.
- GeneratedSpends.ReceiveGenerated: where running the generator of an ancestor again gives other spends than the stored ones it ends with the outcome `Astray`; what the source then does with them is not followed, nor whether an earlier check refuses the block first.
- Blockchains.Blockchain.LoadChainFromStore: loads the records of all stored blocks where the source loads those near the peak.
- Integer widths: conversions that would raise are not modelled; amounts are bounded where the checks bound them.
- Mempools.Mempool.AddToPool: names and coins of a new item are taken as new, as the mempool manager ensures; the float fee rate is a field of the item, so the results hold however fee / cost is rounded; those about exact rates take the rounding to keep their order.
- Retarget.GetNextSubSlotItersAndDifficulty: the option to skip the epoch check, used for timelord hints, is not modelled.
- SlotStores.FullNodeStore.NewPeak: infusion-point caches, cache expiry and the recent-object caches are not modelled.
- Contents of sub-epoch summaries and `next_sub_epoch_summary` with its early hints.
- Weight proofs, sync, network protocol, farmer, harvester, timelord, wallet, RPC and user interface.
