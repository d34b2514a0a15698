/** Validation of a block body on top of its own ancestors, using only the coin table of the current
    peak and the blocks since a common ancestor of the two chains. */
module BodyValidation {
  import opened Primitives
  import opened Coins
  import opened Ledger
  import opened BlockOutputs
  import opened TimeLocks
  import opened LedgerTheorems
  import opened Chains
  import opened CoinStores
  import opened ForkLookup

  datatype Err =
    | InvalidRewardCoins | OtherCheckFailed | CoinAmountExceedsMaximum | DuplicateOutput
    | DoubleSpend | UnknownUnspent | DoubleSpendInFork | MintingCoin | ReserveFeeConditionFailed
    | InvalidBlockFeeAmount | WrongPuzzleHash | ConditionFailed

  // ----- Check 5: reward claims -----

  lemma {:induction false} PlainRewardsFront(chain: seq<FullBlock>, lo: nat, hi: nat)
    requires lo < hi <= |chain|
    ensures PlainRewards(chain, lo, hi) == RewardPair(chain[lo], 0) + PlainRewards(chain, lo + 1, hi)
    decreases hi
  {
    if lo < hi - 1 {
      PlainRewardsFront(chain, lo, hi - 1);
    }
  }

  lemma NoPlainRewards(chain: seq<FullBlock>, n: nat)
    requires n <= |chain|
    ensures PlainRewards(chain, n, n) == {}
  {
  }

  lemma LastTxIs(chain: seq<FullBlock>, q: nat)
    requires q < |chain| && chain[q].tx.Some? && forall i :: q < i < |chain| ==> chain[i].tx.None?
    ensures LastTx(chain) == q
  {
  }

  function PairOf(r: BlockRecord, fees: nat): set<Coin> {
    {CreatePoolCoin(r.height, r.poolPuzzleHash, CalculatePoolReward(r.height)),
     CreateFarmerCoin(r.height, r.farmerPuzzleHash, CalculateBaseFarmerReward(r.height) + fees)}
  }

  /** Walks back from the previous transaction block to the one before it, collecting rewards. */
  method ExpectedRewardCoins(records: Records, prevTxHash: Hash, height: nat, ghost chain: seq<FullBlock>)
    returns (coins: set<Coin>)
    requires height == |chain|
    requires height > 0 ==> IsPath(records, chain) && chain[0].tx.Some?
    requires height > 0 ==> prevTxHash in records && records[prevTxHash] == ToRecord(chain[LastTx(chain)])
    ensures coins == ExpectedRewards(chain)
  {
    hide PlainRewards;
    coins := {};
    if height > 0 {
      ghost var p := LastTx(chain);
      var prevTx := records[prevTxHash];
      coins := PairOf(prevTx, prevTx.fees);
      if prevTx.height > 0 {
        assert PathLink(records, chain, p);
        var curr := records[prevTx.prevHash];
        NoPlainRewards(chain, p);
        while !curr.isTx
          invariant 0 <= curr.height < p && curr == ToRecord(chain[curr.height])
          invariant forall i :: curr.height < i < p ==> chain[i].tx.None?
          invariant coins == PlainRewards(chain, curr.height + 1, p) + RewardPair(chain[p], chain[p].tx.value.fees)
          decreases curr.height
        {
          PlainRewardsFront(chain, curr.height, p);
          coins := coins + PairOf(curr, 0);
          assert PathLink(records, chain, curr.height);
          curr := records[curr.prevHash];
        }
        LastTxIs(chain[..p], curr.height);
      } else {
        NoPlainRewards(chain, 0);
      }
    }
  }

  // ----- Checks 13 and 14: duplicates -----

  /** Counts every name and reports whether some count exceeds one. */
  method HasDuplicates(names: seq<CoinId>) returns (dup: bool)
    ensures dup <==> !Distinct(names)
  {
    var counter: map<CoinId, nat> := map[];
    for i := 0 to |names|
      invariant forall id :: id in counter <==> id in names[..i]
      invariant Distinct(names[..i]) ==> forall id :: id in counter ==> counter[id] == 1
      invariant !Distinct(names[..i]) ==> exists id :: id in counter && counter[id] > 1
    {
      ghost var before := names[..i];
      assert names[..i + 1] == before + [names[i]];
      SnocDistinct(before, names[i]);
      ghost var previous := counter;
      counter := counter[names[i] := if names[i] in counter then counter[names[i]] + 1 else 1];
      if !Distinct(before) {
        ghost var id :| id in previous && previous[id] > 1;
        assert id in counter && counter[id] > 1;
      } else if names[i] in before {
        assert counter[names[i]] > 1;
      }
    }
    assert names[..|names|] == names;
    dup := exists id :: id in counter && counter[id] > 1;
  }

  lemma SnocDistinct(s: seq<CoinId>, x: CoinId)
    ensures Distinct(s + [x]) <==> Distinct(s) && x !in s
  {
    if Distinct(s + [x]) {
      forall i, j | 0 <= i < j < |s| ensures s[i] != s[j] {
        assert (s + [x])[i] != (s + [x])[j];
      }
      forall i | 0 <= i < |s| ensures s[i] != x {
        assert (s + [x])[i] != (s + [x])[|s|];
      }
    }
  }

  lemma NamesDistinct(coins: seq<Coin>)
    ensures Distinct(Names(coins)) <==> Distinct(coins)
  {
    if Distinct(Names(coins)) {
      forall i, j | 0 <= i < j < |coins| ensures coins[i] != coins[j] {
        assert Names(coins)[i] != Names(coins)[j];
      }
    }
  }

  // ----- Changes since the fork -----

  datatype Since = Since(coin: Coin, height: nat, timestamp: nat)

  ghost predicate StoreLink(store: BlockStore, chain: seq<FullBlock>, i: int)
    requires 0 < i < |chain|
  {
    chain[i].prevHash in store && store[chain[i].prevHash] == chain[i - 1]
  }

  /** `chain` is the ancestry that ends in the block filed under `tip`. */
  ghost predicate StorePath(store: BlockStore, chain: seq<FullBlock>, tip: Hash) {
    && (chain != [] ==> tip in store && store[tip] == chain[|chain| - 1])
    && (forall i :: 0 < i < |chain| ==> StoreLink(store, chain, i))
  }

  /** The additions and removals of the blocks of `chain` from height `lo` on. */
  ghost predicate Collected(chain: seq<FullBlock>, lo: nat, adds: map<CoinId, Since>, rems: set<CoinId>) {
    && (forall id :: id in adds <==> CreatedIn(chain, lo, id))
    && (forall id, i :: lo <= i < |chain| && IsCreated(chain[i], id) && id in adds ==>
          adds[id] == Since(id.coin, i, Timestamp(chain[i])))
    && (forall id :: id in rems <==> RemovedIn(chain, lo, id))
  }

  lemma CreatedInStep(chain: seq<FullBlock>, lo: nat, id: CoinId)
    requires lo < |chain|
    ensures CreatedIn(chain, lo, id) <==> CreatedIn(chain, lo + 1, id) || IsCreated(chain[lo], id)
    ensures RemovedIn(chain, lo, id) <==> RemovedIn(chain, lo + 1, id) || IsRemoved(chain[lo], id)
  {
  }

  lemma NotAgain(chain: seq<FullBlock>, j: nat, id: CoinId)
    requires ChainOk(chain) && j < |chain|
    ensures IsCreated(chain[j], id) ==> !CreatedIn(chain, j + 1, id)
    ensures IsRemoved(chain[j], id) ==> !RemovedIn(chain, j + 1, id)
  {
    if IsCreated(chain[j], id) && CreatedIn(chain, j + 1, id) {
      var i :| j + 1 <= i < |chain| && IsCreated(chain[i], id);
      CreatedOnce(chain, j, i, id);
    }
    if IsRemoved(chain[j], id) && RemovedIn(chain, j + 1, id) {
      var i :| j + 1 <= i < |chain| && IsRemoved(chain[i], id);
      SpentOnce(chain, j, i, id);
    }
  }

  /** Adds the removals of one block, all of them new. */
  method AddRemovals(curr: FullBlock, rems: set<CoinId>) returns (rems': set<CoinId>)
    requires Distinct(Removals(curr)) && rems !! IdSet(Removals(curr))
    ensures rems' == rems + IdSet(Removals(curr))
  {
    var names, _ := TxRemovalsAndAdditions(Npcs(curr));
    rems' := rems;
    for i := 0 to |names|
      invariant rems' == rems + IdSet(names[..i])
    {
      assert names[i] in IdSet(names);
      assert names[i] !in rems';
      rems' := rems' + {names[i]};
      assert names[..i + 1] == names[..i] + [names[i]];
    }
    assert names[..|names|] == names;
  }

  ghost function BlockSince(b: FullBlock): map<CoinId, Since> {
    map id | id in Created(b) :: Since(id.coin, b.height, Timestamp(b))
  }

  lemma SinceMapIsBlockSince(b: FullBlock)
    ensures SinceMap(Additions(b) + Claims(b), b.height, Timestamp(b)) == BlockSince(b)
  {
    assert (set c | c in Additions(b) + Claims(b) :: CoinName(c)) == Created(b);
  }

  /** Adds the coins made by one block, ordinary outputs first, all of them new. */
  method AddAdditions(curr: FullBlock, adds: map<CoinId, Since>) returns (adds': map<CoinId, Since>)
    requires Distinct(Additions(curr) + Claims(curr)) && adds.Keys !! Created(curr)
    ensures adds' == adds + BlockSince(curr)
  {
    SinceMapIsBlockSince(curr);
    forall c | c in Additions(curr) + Claims(curr) ensures CoinName(c) !in adds {
      assert CoinName(c) in Created(curr);
    }
    var _, additions := TxRemovalsAndAdditions(Npcs(curr));
    adds' := AddCoins(additions + Claims(curr), curr.height, Timestamp(curr), adds);
  }

  lemma MapPlusUpdate(a: map<CoinId, Since>, m: map<CoinId, Since>, k: CoinId, v: Since)
    ensures (a + m)[k := v] == a + m[k := v]
  {
  }

  method AddCoins(coins: seq<Coin>, height: nat, timestamp: nat, adds: map<CoinId, Since>)
    returns (adds': map<CoinId, Since>)
    requires Distinct(coins) && forall c :: c in coins ==> CoinName(c) !in adds
    ensures adds' == adds + SinceMap(coins, height, timestamp)
  {
    adds' := adds;
    for i := 0 to |coins|
      invariant adds' == adds + SinceMap(coins[..i], height, timestamp)
    {
      assert coins[..i + 1] == coins[..i] + [coins[i]];
      SinceMapSnoc(coins[..i], coins[i], height, timestamp);
      MapPlusUpdate(adds, SinceMap(coins[..i], height, timestamp), CoinName(coins[i]), Since(coins[i], height, timestamp));
      assert coins[i] !in coins[..i];
      assert CoinName(coins[i]) !in adds';
      adds' := adds'[CoinName(coins[i]) := Since(coins[i], height, timestamp)];
    }
    assert coins[..|coins|] == coins;
  }

  lemma SinceMapSnoc(coins: seq<Coin>, c: Coin, height: nat, timestamp: nat)
    ensures SinceMap(coins + [c], height, timestamp)
         == SinceMap(coins, height, timestamp)[CoinName(c) := Since(c, height, timestamp)]
  {
  }

  ghost function SinceMap(coins: seq<Coin>, height: nat, timestamp: nat): map<CoinId, Since> {
    map id | id in (set c | c in coins :: CoinName(c)) :: Since(id.coin, height, timestamp)
  }

  /** What block `j` makes and removes does not occur later in a valid chain. */
  lemma BlockIsNew(chain: seq<FullBlock>, j: nat, adds: map<CoinId, Since>, rems: set<CoinId>)
    requires ChainOk(chain) && j < |chain| && Collected(chain, j + 1, adds, rems)
    ensures Distinct(Additions(chain[j]) + Claims(chain[j])) && adds.Keys !! Created(chain[j])
    ensures Distinct(Removals(chain[j])) && rems !! IdSet(Removals(chain[j]))
  {
    ChainPrefix(chain, j);
    forall id | id in Created(chain[j]) ensures id !in adds {
      NotAgain(chain, j, id);
    }
    forall id | id in Removals(chain[j]) ensures id !in rems {
      NotAgain(chain, j, id);
    }
  }

  lemma CollectedStep(chain: seq<FullBlock>, j: nat, adds: map<CoinId, Since>, rems: set<CoinId>)
    requires j < |chain| && chain[j].height == j
    requires Collected(chain, j + 1, adds, rems) && adds.Keys !! Created(chain[j])
    ensures Collected(chain, j, adds + BlockSince(chain[j]), rems + IdSet(Removals(chain[j])))
  {
    hide Created;
    hide Removals;
    var adds', rems' := adds + BlockSince(chain[j]), rems + IdSet(Removals(chain[j]));
    forall id ensures (id in adds' <==> CreatedIn(chain, j, id)) && (id in rems' <==> RemovedIn(chain, j, id)) {
      CreatedInStep(chain, j, id);
    }
    forall id, i | j <= i < |chain| && IsCreated(chain[i], id) && id in adds'
      ensures adds'[id] == Since(id.coin, i, Timestamp(chain[i]))
    {
      CollectedValue(chain, j, adds, rems, id, i);
    }
  }

  lemma CollectedValue(chain: seq<FullBlock>, j: nat, adds: map<CoinId, Since>, rems: set<CoinId>, id: CoinId, i: nat)
    requires j < |chain| && chain[j].height == j
    requires Collected(chain, j + 1, adds, rems) && adds.Keys !! Created(chain[j])
    requires j <= i < |chain| && IsCreated(chain[i], id)
    ensures id in adds + BlockSince(chain[j]) && (adds + BlockSince(chain[j]))[id] == Since(id.coin, i, Timestamp(chain[i]))
  {
    if i > j {
      assert CreatedIn(chain, j + 1, id);
      assert id in adds;
    }
  }

  method AddBlock(curr: FullBlock, adds: map<CoinId, Since>, rems: set<CoinId>, ghost chain: seq<FullBlock>)
    returns (adds': map<CoinId, Since>, rems': set<CoinId>)
    requires curr.height < |chain| && curr == chain[curr.height]
    requires Collected(chain, curr.height + 1, adds, rems)
    requires Distinct(Additions(curr) + Claims(curr)) && adds.Keys !! Created(curr)
    requires Distinct(Removals(curr)) && rems !! IdSet(Removals(curr))
    ensures Collected(chain, curr.height, adds', rems')
  {
    adds' := AddAdditions(curr, adds);
    rems' := AddRemovals(curr, rems);
    CollectedStep(chain, curr.height, adds, rems);
  }

  lemma CollectedNothing(chain: seq<FullBlock>)
    ensures Collected(chain, |chain|, map[], {})
  {
  }

  /** The blocks of `chain` at heights `lo` to `hi - 1`, by height. */
  ghost function Slice(chain: seq<FullBlock>, lo: nat, hi: nat): map<nat, FullBlock>
    requires hi <= |chain|
    decreases hi - lo
  {
    if lo >= hi then map[] else Slice(chain, lo + 1, hi)[lo := chain[lo]]
  }

  lemma {:induction false} SliceIs(chain: seq<FullBlock>, lo: nat, hi: nat)
    requires lo <= hi <= |chain|
    ensures forall h :: h in Slice(chain, lo, hi) <==> lo <= h < hi
    ensures forall h :: lo <= h < hi ==> Slice(chain, lo, hi)[h] == chain[h]
    ensures |Slice(chain, lo, hi)| == hi - lo
    decreases hi - lo
  {
    if lo < hi {
      SliceIs(chain, lo + 1, hi);
    }
  }

  lemma SliceDown(chain: seq<FullBlock>, lo: nat, hi: nat)
    requires 0 < lo <= hi <= |chain|
    ensures Slice(chain, lo - 1, hi) == Slice(chain, lo, hi)[lo - 1 := chain[lo - 1]]
  {
  }

  lemma EmptySlice(chain: seq<FullBlock>, n: nat)
    requires n <= |chain|
    ensures Slice(chain, n, n) == map[]
  {
  }

  /** The blocks between the fork and the parent of the new block, by height. */
  method CollectReorgBlocks(store: BlockStore, prev: FullBlock, forkH: int, ghost chain: seq<FullBlock>)
    returns (reorg: map<nat, FullBlock>)
    requires chain != [] && StorePath(store, chain, prev.headerHash) && prev == chain[|chain| - 1]
    requires forall i :: 0 <= i < |chain| ==> chain[i].height == i
    requires -1 <= forkH < |chain|
    ensures reorg == Slice(chain, if forkH < 0 then 0 else forkH, |chain| - 1)
    ensures forkH != -1 ==> |reorg| == |chain| - forkH - 1
  {
    hide Slice;
    reorg := map[];
    EmptySlice(chain, |chain| - 1);
    var curr := prev;
    while curr.height > forkH
      invariant forkH <= curr.height < |chain| && curr == chain[curr.height]
      invariant reorg == Slice(chain, curr.height, |chain| - 1)
      decreases curr.height
    {
      if curr.height == 0 {
        break;
      }
      assert StoreLink(store, chain, curr.height);
      ghost var h := curr.height;
      curr := store[curr.prevHash];
      assert curr == chain[h - 1] && curr.height == h - 1;
      SliceDown(chain, h, |chain| - 1);
      reorg := reorg[curr.height := curr];
      assert reorg == Slice(chain, h - 1, |chain| - 1);
    }
    SliceIs(chain, curr.height, |chain| - 1);
  }

  method CollectBackwards(prev: FullBlock, reorg: map<nat, FullBlock>, forkH: int, ghost chain: seq<FullBlock>)
    returns (adds: map<CoinId, Since>, rems: set<CoinId>)
    requires ChainOk(chain) && -1 <= forkH < |chain|
    requires prev.height == |chain| - 1 && prev == chain[prev.height]
    requires forall h :: forkH <= h < prev.height && 0 <= h ==> h in reorg && reorg[h] == chain[h] && chain[h].height == h
    ensures Collected(chain, forkH + 1, adds, rems)
  {
    hide ChainOk;
    hide Collected;
    adds, rems := map[], {};
    CollectedNothing(chain);
    var curr := prev;
    while curr.height > forkH
      invariant forkH <= curr.height < |chain| && curr == chain[curr.height]
      invariant Collected(chain, curr.height + 1, adds, rems)
      decreases curr.height
    {
      BlockIsNew(chain, curr.height, adds, rems);
      adds, rems := AddBlock(curr, adds, rems, chain);
      if curr.height == 0 {
        assert forkH + 1 == curr.height;
        return;
      }
      curr := reorg[curr.height - 1];
    }
    assert forkH == curr.height;
  }

  /** Everything added and removed on the branch after the fork and before the new block. */
  method CollectSinceFork(store: BlockStore, prevHash: Hash, height: nat, forkH: int, ghost chain: seq<FullBlock>)
    returns (adds: map<CoinId, Since>, rems: set<CoinId>)
    requires ChainOk(chain) && height == |chain| && StorePath(store, chain, prevHash)
    requires height > 0 ==> chain[height - 1].headerHash == prevHash
    requires -1 <= forkH < |chain|
    ensures Collected(chain, forkH + 1, adds, rems)
  {
    ChainHeights(chain);
    if height > 0 {
      var prev := store[prevHash];
      var reorg := CollectReorgBlocks(store, prev, forkH, chain);
      SliceIs(chain, if forkH < 0 then 0 else forkH, |chain| - 1);
      adds, rems := CollectBackwards(prev, reorg, forkH, chain);
    } else {
      CollectedNothing(chain);
      adds, rems := map[], {};
    }
  }

  // ----- Check 15: the spent coins -----

  /** Coin, confirmation height and confirmation time as replaying the branch gives them. */
  ghost predicate FoundOk(chain: seq<FullBlock>, block: FullBlock, id: CoinId, r: CoinRecord) {
    && id.CoinName? && r.coin == id.coin
    && (if IsCreated(block, id)
        then r.confirmed == block.height && r.timestamp == Timestamp(block)
        else id in Replay(chain) && r.confirmed == Replay(chain)[id].confirmed && r.timestamp == Replay(chain)[id].timestamp)
  }

  /** The peak's chain and the branch agree up to the fork height. */
  ghost predicate ForkOk(peakChain: seq<FullBlock>, chain: seq<FullBlock>, forkH: int) {
    -1 <= forkH < |chain| && forkH < |peakChain| && peakChain[..forkH + 1] == chain[..forkH + 1]
  }

  lemma TableRecordFound(peakChain: seq<FullBlock>, chain: seq<FullBlock>, forkH: int, block: FullBlock, id: CoinId)
    requires ChainOk(peakChain) && ChainOk(chain) && ForkOk(peakChain, chain, forkH)
    requires id in Replay(peakChain) && Replay(peakChain)[id].confirmed <= forkH && !IsCreated(block, id)
    ensures FoundOk(chain, block, id, Replay(peakChain)[id])
  {
    ChainTable(peakChain);
    ForkRecordIsExact(peakChain, chain, forkH, id);
  }

  lemma SinceRecordFound(chain: seq<FullBlock>, lo: nat, block: FullBlock, id: CoinId,
                         adds: map<CoinId, Since>, rems: set<CoinId>)
    requires ChainOk(chain) && Collected(chain, lo, adds, rems) && id in adds && !IsCreated(block, id)
    ensures FoundOk(chain, block, id, CoinRecord(adds[id].coin, adds[id].height, 0, false, false, adds[id].timestamp))
  {
    var i :| lo <= i < |chain| && IsCreated(chain[i], id);
    BirthRecord(chain, i, id);
  }

  lemma EphemeralFound(chain: seq<FullBlock>, block: FullBlock, id: CoinId)
    requires IsCreated(block, id)
    ensures FoundOk(chain, block, id, CoinRecord(id.coin, block.height, block.height, true, false, Timestamp(block)))
  {
  }

  /** One removal: made by this block, or looked up in the peak's table and the branch's changes. */
  method FindRemoval(coinStore: CoinStore, block: FullBlock, rem: CoinId, additionsDic: map<CoinId, Coin>, forkH: int,
                     adds: map<CoinId, Since>, rems: set<CoinId>,
                     ghost peakChain: seq<FullBlock>, ghost chain: seq<FullBlock>)
    returns (err: Option<Err>, r: CoinRecord)
    requires coinStore.Valid() && coinStore.table == Replay(peakChain)
    requires ChainOk(peakChain) && ChainOk(chain) && ForkOk(peakChain, chain, forkH)
    requires Collected(chain, forkH + 1, adds, rems)
    requires additionsDic == map id | id in Created(block) :: id.coin
    modifies coinStore.cache
    ensures coinStore.Valid() && coinStore.table == old(coinStore.table)
    ensures err.None? <==> Spendable(Replay(chain), block, rem)
    ensures err.None? ==> FoundOk(chain, block, rem, r)
  {
    hide ChainOk;
    hide Replay;
    hide FoundOk;
    r := CoinRecord(Coin(OtherId(0), 0, 0), 0, 0, false, false, 0);
    if rem in additionsDic {
      r := CoinRecord(additionsDic[rem], block.height, block.height, true, false, Timestamp(block));
      EphemeralFound(chain, block, rem);
      return None, r;
    }
    ForkLookupIsExact(peakChain, chain, forkH, rem);
    assert SeesSpendable(coinStore.table, chain, forkH, rem) <==> Spendable(Replay(chain), block, rem);
    var unspent := coinStore.GetCoinRecord(rem);
    if unspent.Some? && unspent.value.confirmed <= forkH {
      if unspent.value.spent && unspent.value.spentIndex <= forkH {
        return Some(DoubleSpend), r;
      }
      TableRecordFound(peakChain, chain, forkH, block, rem);
      r := unspent.value;
    } else {
      if rem !in adds {
        return Some(UnknownUnspent), r;
      }
      SinceRecordFound(chain, forkH + 1, block, rem, adds, rems);
      r := CoinRecord(adds[rem].coin, adds[rem].height, 0, false, false, adds[rem].timestamp);
    }
    if rem in rems {
      return Some(DoubleSpendInFork), r;
    }
    err := None;
  }

  method FindRemovals(coinStore: CoinStore, block: FullBlock, additionsDic: map<CoinId, Coin>, forkH: int,
                      adds: map<CoinId, Since>, rems: set<CoinId>,
                      ghost peakChain: seq<FullBlock>, ghost chain: seq<FullBlock>)
    returns (err: Option<Err>, found: map<CoinId, CoinRecord>)
    requires coinStore.Valid() && coinStore.table == Replay(peakChain)
    requires ChainOk(peakChain) && ChainOk(chain) && ForkOk(peakChain, chain, forkH)
    requires Collected(chain, forkH + 1, adds, rems)
    requires additionsDic == map id | id in Created(block) :: id.coin
    modifies coinStore.cache
    ensures coinStore.Valid() && coinStore.table == old(coinStore.table)
    ensures err.None? <==> AllSpendable(Replay(chain), block, Removals(block))
    ensures err.None? ==> AllFound(chain, block, Removals(block), found)
  {
    hide ChainOk;
    hide Replay;
    found := map[];
    var removals, _ := TxRemovalsAndAdditions(Npcs(block));
    for i := 0 to |removals|
      invariant coinStore.Valid() && coinStore.table == old(coinStore.table)
      invariant AllSpendable(Replay(chain), block, removals[..i])
      invariant AllFound(chain, block, removals[..i], found)
    {
      assert removals[..i + 1] == removals[..i] + [removals[i]];
      var r;
      err, r := FindRemoval(coinStore, block, removals[i], additionsDic, forkH, adds, rems, peakChain, chain);
      if err.Some? {
        return;
      }
      AllFoundSnoc(chain, block, removals[..i], found, removals[i], r);
      found := found[removals[i] := r];
    }
    assert removals[..|removals|] == removals;
    err := None;
  }

  ghost predicate AllSpendable(t: Table, block: FullBlock, removals: seq<CoinId>) {
    forall i :: 0 <= i < |removals| ==> Spendable(t, block, removals[i])
  }

  ghost predicate AllFound(chain: seq<FullBlock>, block: FullBlock, removals: seq<CoinId>, found: map<CoinId, CoinRecord>) {
    forall i :: 0 <= i < |removals| ==> removals[i] in found && FoundOk(chain, block, removals[i], found[removals[i]])
  }

  lemma AllFoundSnoc(chain: seq<FullBlock>, block: FullBlock, removals: seq<CoinId>, found: map<CoinId, CoinRecord>,
                     rem: CoinId, r: CoinRecord)
    requires AllFound(chain, block, removals, found) && FoundOk(chain, block, rem, r)
    ensures AllFound(chain, block, removals + [rem], found[rem := r])
  {
  }

  // ----- Checks 10 and 16 to 21: amounts, fees, puzzles and time locks -----

  method CheckAmounts(coins: seq<Coin>) returns (ok: bool, dic: map<CoinId, Coin>)
    ensures ok <==> forall c :: c in coins ==> c.amount <= MAX_COIN_AMOUNT
    ensures ok ==> dic.Keys == IdSet(Names(coins)) && forall id :: id in dic ==> id.CoinName? && dic[id] == id.coin
  {
    dic := map[];
    for i := 0 to |coins|
      invariant forall c :: c in coins[..i] ==> c.amount <= MAX_COIN_AMOUNT
      invariant forall id :: id in dic <==> id.CoinName? && id.coin in coins[..i]
      invariant forall id :: id in dic ==> dic[id] == id.coin
    {
      assert coins[..i + 1] == coins[..i] + [coins[i]];
      dic := dic[CoinName(coins[i]) := coins[i]];
      if coins[i].amount > MAX_COIN_AMOUNT {
        assert coins[i] in coins;
        return false, dic;
      }
    }
    assert coins[..|coins|] == coins;
    forall id | id in dic ensures id in IdSet(Names(coins)) {
      var j :| 0 <= j < |coins| && coins[j] == id.coin;
      assert Names(coins)[j] == id;
    }
    ok := true;
  }

  method SumFound(removals: seq<CoinId>, found: map<CoinId, CoinRecord>) returns (total: nat)
    requires forall i :: 0 <= i < |removals| ==>
      removals[i] in found && removals[i].CoinName? && found[removals[i]].coin == removals[i].coin
    ensures total == SumIds(removals)
  {
    total := 0;
    for i := 0 to |removals|
      invariant total == SumIds(removals[..i])
    {
      assert removals[..i + 1][..i] == removals[..i];
      total := total + found[removals[i]].coin.amount;
    }
    assert removals[..|removals|] == removals;
  }

  method SumAmounts(coins: seq<Coin>) returns (total: nat)
    ensures total == SumCoins(coins)
  {
    total := 0;
    for i := 0 to |coins|
      invariant total == SumCoins(coins[..i])
    {
      assert coins[..i + 1][..i] == coins[..i];
      total := total + coins[i].amount;
    }
    assert coins[..|coins|] == coins;
  }

  lemma {:induction false} SumIntsConcat(a: seq<int>, b: seq<int>)
    ensures SumInts(a + b) == SumInts(a) + SumInts(b)
  {
    if b == [] {
      assert a + b == a;
    } else {
      assert (a + b)[..|a + b| - 1] == a + b[..|b| - 1];
      SumIntsConcat(a, b[..|b| - 1]);
    }
  }

  method ReserveFeeSum(npcs: seq<Npc>) returns (ok: bool, total: int)
    ensures ok <==> forall f :: f in ReserveFees(npcs) ==> f >= 0
    ensures ok ==> total == SumInts(ReserveFees(npcs))
  {
    total := 0;
    for i := 0 to |npcs|
      invariant total == SumInts(ReserveFees(npcs[..i]))
      invariant forall f :: f in ReserveFees(npcs[..i]) ==> f >= 0
    {
      var fees := npcs[i].reserveFees;
      ghost var before := ReserveFees(npcs[..i]);
      assert npcs[..i + 1][..i] == npcs[..i];
      assert ReserveFees(npcs[..i + 1]) == before + fees;
      for j := 0 to |fees|
        invariant total == SumInts(before) + SumInts(fees[..j])
        invariant forall f :: f in fees[..j] ==> f >= 0
      {
        assert fees[..j + 1][..j] == fees[..j];
        assert fees[..j + 1] == fees[..j] + [fees[j]];
        if fees[j] < 0 {
          FeeIsReserved(npcs, i, j);
          return false, total;
        }
        total := total + fees[j];
      }
      assert fees[..|fees|] == fees;
      SumIntsConcat(before, fees);
    }
    assert npcs[..|npcs|] == npcs;
    ok := true;
  }

  lemma {:induction false} FeeIsReserved(npcs: seq<Npc>, i: nat, j: nat)
    requires i < |npcs| && j < |npcs[i].reserveFees|
    ensures npcs[i].reserveFees[j] in ReserveFees(npcs)
  {
    if i < |npcs| - 1 {
      FeeIsReserved(npcs[..|npcs| - 1], i, j);
    }
  }

  predicate PuzzleMatches(npc: Npc, found: map<CoinId, CoinRecord>)
    requires npc.coinName in found
  {
    found[npc.coinName].coin.puzzleHash == npc.puzzleHash
  }

  predicate LocksHold(npc: Npc, found: map<CoinId, CoinRecord>, prevTxHeight: nat, now: nat)
    requires npc.coinName in found
  {
    ConditionsHold(npc, found[npc.coinName].confirmed, found[npc.coinName].timestamp, prevTxHeight, now)
  }

  method CheckPuzzles(npcs: seq<Npc>, found: map<CoinId, CoinRecord>) returns (ok: bool)
    requires forall i :: 0 <= i < |npcs| ==> npcs[i].coinName in found
    ensures ok <==> forall i :: 0 <= i < |npcs| ==> PuzzleMatches(npcs[i], found)
  {
    for i := 0 to |npcs|
      invariant forall j :: 0 <= j < i ==> PuzzleMatches(npcs[j], found)
    {
      if found[npcs[i].coinName].coin.puzzleHash != npcs[i].puzzleHash {
        return false;
      }
    }
    ok := true;
  }

  method CheckConditions(npcs: seq<Npc>, found: map<CoinId, CoinRecord>, prevTxHeight: nat, now: nat) returns (ok: bool)
    requires forall i :: 0 <= i < |npcs| ==> npcs[i].coinName in found
    ensures ok <==> forall i :: 0 <= i < |npcs| ==> LocksHold(npcs[i], found, prevTxHeight, now)
  {
    for i := 0 to |npcs|
      invariant forall k :: 0 <= k < i ==> LocksHold(npcs[k], found, prevTxHeight, now)
    {
      var r := found[npcs[i].coinName];
      ok := MempoolCheckConditions(npcs[i].conditions, r, prevTxHeight, now);
      if !ok {
        return;
      }
    }
    ok := true;
  }

  /** Checks 16 to 19. */
  method CheckFees(block: FullBlock, found: map<CoinId, CoinRecord>) returns (err: Option<Err>)
    requires block.tx.Some?
    requires forall i :: 0 <= i < |Removals(block)| ==>
      Removals(block)[i] in found && Removals(block)[i].CoinName? && found[Removals(block)[i]].coin == Removals(block)[i].coin
    requires forall c :: c in Additions(block) + Claims(block) ==> c.amount <= MAX_COIN_AMOUNT
    ensures err.None? <==> AmountsOk(block)
  {
    var removals, additions := TxRemovalsAndAdditions(Npcs(block));
    assert removals == Removals(block);
    var removed := SumFound(removals, found);
    var added := SumAmounts(additions);
    if removed < added {
      return Some(MintingCoin);
    }
    var fees := removed - added;
    var ok, assertFeeSum := ReserveFeeSum(Npcs(block));
    if !ok {
      return Some(ReserveFeeConditionFailed);
    }
    if fees < assertFeeSum {
      return Some(ReserveFeeConditionFailed);
    }
    if fees + CalculateBaseFarmerReward(block.height) > MAX_COIN_AMOUNT {
      return Some(CoinAmountExceedsMaximum);
    }
    if block.tx.value.fees != fees {
      return Some(InvalidBlockFeeAmount);
    }
    err := None;
  }

  // ----- The whole body -----

  /** The chains as the node sees them: `chain` is the ancestry of the new block's parent, `peakChain`
      that of the peak, and sharing a block means sharing everything below it. */
  ghost predicate View(store: BlockStore, records: Records, block: FullBlock, peak: Option<BlockRecord>,
                       chain: seq<FullBlock>, peakChain: seq<FullBlock>) {
    && block.height == |chain| && StorePath(store, chain, block.prevHash)
    && (chain != [] ==> IsPath(records, chain) && chain[|chain| - 1].headerHash == block.prevHash)
    && (chain != [] ==> block.prevHash in records && records[block.prevHash] == ToRecord(chain[|chain| - 1]))
    && (peak.None? <==> peakChain == [])
    && (peak.Some? ==> IsPath(records, peakChain) && peak.value == ToRecord(peakChain[|peakChain| - 1]))
    && HashesIdentify(peakChain, chain)
    && (forall i :: 0 <= i < |chain| && i < |peakChain| && peakChain[i] == chain[i] ==>
          peakChain[..i + 1] == chain[..i + 1])
  }

  /** What header validation has established about a transaction block: check 24b. */
  ghost predicate PrevTxOk(records: Records, block: FullBlock, chain: seq<FullBlock>) {
    block.tx.Some? && chain != [] ==>
      && LastTx(chain) >= 0
      && block.tx.value.prevTxHash in records
      && records[block.tx.value.prevTxHash] == ToRecord(chain[LastTx(chain)])
  }

  method ForkHeight(records: Records, peak: Option<BlockRecord>, block: FullBlock, forkPoint: Option<nat>,
                    ghost store: BlockStore, ghost chain: seq<FullBlock>, ghost peakChain: seq<FullBlock>)
    returns (forkH: int)
    requires View(store, records, block, peak, chain, peakChain)
    requires forkPoint.Some? && chain != [] && peakChain != [] ==> ForkOk(peakChain, chain, forkPoint.value)
    ensures ForkOk(peakChain, chain, forkH)
  {
    if peak.None? || block.height == 0 {
      return -1;
    }
    if forkPoint.Some? {
      return forkPoint.value;
    }
    forkH := FindForkPointInChain(records, peak.value, records[block.prevHash], peakChain, chain);
  }

  /** Validation accepts a block exactly when the reference accepts it on top of its own ancestors,
      although the coin set consulted is that of the peak. */
  method ValidateBlockBody(store: BlockStore, records: Records, coinStore: CoinStore, peak: Option<BlockRecord>,
                           block: FullBlock, forkPoint: Option<nat>,
                           ghost chain: seq<FullBlock>, ghost peakChain: seq<FullBlock>)
    returns (err: Option<Err>)
    requires coinStore.Valid() && coinStore.table == Replay(peakChain)
    requires ChainOk(chain) && ChainOk(peakChain)
    requires View(store, records, block, peak, chain, peakChain) && PrevTxOk(records, block, chain)
    requires forkPoint.Some? && chain != [] && peakChain != [] ==> ForkOk(peakChain, chain, forkPoint.value)
    modifies coinStore.cache
    ensures coinStore.Valid() && coinStore.table == old(coinStore.table)
    ensures err.None? <==> BodyOk(chain, block)
  {
    hide ChainOk;
    hide Replay;
    hide SpendOk;
    hide AmountsOk;
    if block.tx.None? {
      return None;
    }
    var claims := Claims(block);
    if chain != [] {
      GenesisIsTx(chain);
    }
    var expected := ExpectedRewardCoins(records, block.tx.value.prevTxHash, block.height, chain);
    if (set c | c in claims) != expected {
      return Some(InvalidRewardCoins);
    }
    if |claims| != |expected| {
      return Some(InvalidRewardCoins);
    }
    if !block.tx.value.otherChecks {
      return Some(OtherCheckFailed);
    }
    err := ValidateSpends(store, records, coinStore, peak, block, forkPoint, chain, peakChain);
  }

  /** The part of `BodyOk` that concerns spends and amounts: checks 10 and 13 to 21. */
  ghost predicate SpendsOk(chain: seq<FullBlock>, block: FullBlock) {
    && AmountsOk(block)
    && Distinct(Additions(block) + Claims(block))
    && Distinct(Removals(block))
    && forall i :: 0 <= i < |Npcs(block)| ==> SpendOk(Replay(chain), block, PrevTxHeight(chain), Npcs(block)[i])
  }

  method ValidateSpends(store: BlockStore, records: Records, coinStore: CoinStore, peak: Option<BlockRecord>,
                        block: FullBlock, forkPoint: Option<nat>,
                        ghost chain: seq<FullBlock>, ghost peakChain: seq<FullBlock>)
    returns (err: Option<Err>)
    requires block.tx.Some?
    requires coinStore.Valid() && coinStore.table == Replay(peakChain)
    requires ChainOk(chain) && ChainOk(peakChain)
    requires View(store, records, block, peak, chain, peakChain) && PrevTxOk(records, block, chain)
    requires forkPoint.Some? && chain != [] && peakChain != [] ==> ForkOk(peakChain, chain, forkPoint.value)
    modifies coinStore.cache
    ensures coinStore.Valid() && coinStore.table == old(coinStore.table)
    ensures err.None? <==> SpendsOk(chain, block)
  {
    hide ChainOk;
    hide Replay;
    hide SpendOk;
    hide AmountsOk;
    hide Distinct;
    var removals, additions := TxRemovalsAndAdditions(Npcs(block));
    var outputs := additions + Claims(block);
    var ok, additionsDic := CheckAmounts(outputs);
    if !ok {
      TooLarge(block);
      return Some(CoinAmountExceedsMaximum);
    }
    NamesDistinct(outputs);
    var dup := HasDuplicates(Names(outputs));
    if dup {
      return Some(DuplicateOutput);
    }
    dup := HasDuplicates(removals);
    if dup {
      return Some(DoubleSpend);
    }
    var forkH := ForkHeight(records, peak, block, forkPoint, store, chain, peakChain);
    var adds, rems := CollectSinceFork(store, block.prevHash, block.height, forkH, chain);
    DicIsCreated(block, additionsDic);
    var found;
    err, found := FindRemovals(coinStore, block, additionsDic, forkH, adds, rems, peakChain, chain);
    if err.Some? {
      NotSpendable(chain, block);
      return;
    }
    FoundCoins(chain, block, found);
    err := CheckFees(block, found);
    if err.Some? {
      return;
    }
    ok := CheckPuzzles(Npcs(block), found);
    if !ok {
      SpendsSplit(chain, block, found);
      return Some(WrongPuzzleHash);
    }
    var prevTxHeight := if block.height == 0 then 0 else records[block.tx.value.prevTxHash].height;
    ok := CheckConditions(Npcs(block), found, prevTxHeight, Timestamp(block));
    PrevTxHeightIs(records, block, chain);
    SpendsSplit(chain, block, found);
    if !ok {
      return Some(ConditionFailed);
    }
    err := None;
  }

  lemma TooLarge(block: FullBlock)
    requires !forall c :: c in Additions(block) + Claims(block) ==> c.amount <= MAX_COIN_AMOUNT
    ensures !AmountsOk(block)
  {
  }

  lemma DicIsCreated(block: FullBlock, dic: map<CoinId, Coin>)
    requires dic.Keys == IdSet(Names(Additions(block) + Claims(block)))
    requires forall id :: id in dic ==> id.CoinName? && dic[id] == id.coin
    ensures dic == map id | id in Created(block) :: id.coin
  {
    var coins := Additions(block) + Claims(block);
    forall id | id in Created(block) ensures id in IdSet(Names(coins)) {
      var i :| 0 <= i < |coins| && coins[i] == id.coin;
      assert Names(coins)[i] == id;
    }
    forall id | id in IdSet(Names(coins)) ensures id in Created(block) {
      var i :| 0 <= i < |coins| && Names(coins)[i] == id;
      assert coins[i] in coins;
    }
    assert dic.Keys == Created(block);
  }

  lemma NotSpendable(chain: seq<FullBlock>, block: FullBlock)
    requires !AllSpendable(Replay(chain), block, Removals(block))
    ensures !SpendsOk(chain, block)
  {
    var i :| 0 <= i < |Removals(block)| && !Spendable(Replay(chain), block, Removals(block)[i]);
    assert !SpendOk(Replay(chain), block, PrevTxHeight(chain), Npcs(block)[i]);
  }

  lemma FoundCoins(chain: seq<FullBlock>, block: FullBlock, found: map<CoinId, CoinRecord>)
    requires AllFound(chain, block, Removals(block), found)
    ensures forall i :: 0 <= i < |Removals(block)| ==>
      Removals(block)[i] in found && Removals(block)[i].CoinName? && found[Removals(block)[i]].coin == Removals(block)[i].coin
    ensures forall i :: 0 <= i < |Npcs(block)| ==> Npcs(block)[i].coinName in found
  {
    forall i | 0 <= i < |Npcs(block)| ensures Npcs(block)[i].coinName in found {
      assert Removals(block)[i] in found;
    }
  }

  lemma PrevTxHeightIs(records: Records, block: FullBlock, chain: seq<FullBlock>)
    requires block.tx.Some? && block.height == |chain| && PrevTxOk(records, block, chain)
    requires forall i :: 0 <= i < |chain| ==> chain[i].height == i
    ensures PrevTxHeight(chain) == if block.height == 0 then 0 else records[block.tx.value.prevTxHash].height
  {
  }

  /** With all removals found, a spend is in order exactly when its puzzle matches and its time locks
      hold for the record that was found. */
  lemma SpendsSplit(chain: seq<FullBlock>, block: FullBlock, found: map<CoinId, CoinRecord>)
    requires AllSpendable(Replay(chain), block, Removals(block)) && AllFound(chain, block, Removals(block), found)
    ensures forall i :: 0 <= i < |Npcs(block)| ==> Npcs(block)[i].coinName in found
    ensures (forall i :: 0 <= i < |Npcs(block)| ==> SpendOk(Replay(chain), block, PrevTxHeight(chain), Npcs(block)[i]))
       <==> (forall i :: 0 <= i < |Npcs(block)| ==> PuzzleMatches(Npcs(block)[i], found)) &&
            (forall i :: 0 <= i < |Npcs(block)| ==> LocksHold(Npcs(block)[i], found, PrevTxHeight(chain), Timestamp(block)))
  {
    FoundCoins(chain, block, found);
    forall i | 0 <= i < |Npcs(block)|
      ensures SpendOk(Replay(chain), block, PrevTxHeight(chain), Npcs(block)[i])
         <==> PuzzleMatches(Npcs(block)[i], found) && LocksHold(Npcs(block)[i], found, PrevTxHeight(chain), Timestamp(block))
    {
      assert Spendable(Replay(chain), block, Removals(block)[i]);
      assert FoundOk(chain, block, Removals(block)[i], found[Removals(block)[i]]);
    }
  }
}
