/** What every valid chain keeps: coins are created once and spent once, rolling a table back undoes
    exactly the blocks above the target, and value is conserved. */
module LedgerTheorems {
  import opened Primitives
  import opened Coins
  import opened Ledger

  // ----- Reward claims: each height is claimed once -----

  lemma LastTxExtend(chain: seq<FullBlock>, b: FullBlock)
    ensures LastTx(chain + [b]) == if b.tx.Some? then |chain| else LastTx(chain)
    ensures Claimed(chain + [b]) == if b.tx.Some? then LastTx(chain) + 1 else Claimed(chain)
  {
    var c := chain + [b];
    assert c[..|chain|] == chain;
    if b.tx.None? && LastTx(chain) >= 0 {
      assert c[..LastTx(chain)] == chain[..LastTx(chain)];
    }
  }

  lemma {:induction false} GenesisIsTx(chain: seq<FullBlock>)
    requires ChainOk(chain) && chain != []
    ensures chain[0].tx.Some? && LastTx(chain) >= 0
  {
    ChainPrefix(chain, 0);
    assert chain[0].tx.Some?;
  }

  predicate IsRewardOf(c: Coin, lo: int, hi: int) {
    (c.parent.PoolParent? || c.parent.FarmerParent?) && lo <= c.parent.height < hi
  }

  lemma {:induction false} PlainRewardsHeights(chain: seq<FullBlock>, lo: nat, hi: nat, c: Coin)
    requires lo <= hi <= |chain| && c in PlainRewards(chain, lo, hi)
    requires forall i :: 0 <= i < |chain| ==> chain[i].height == i
    ensures IsRewardOf(c, lo, hi)
    decreases hi
  {
    if c in PlainRewards(chain, lo, hi - 1) {
      PlainRewardsHeights(chain, lo, hi - 1, c);
    }
  }

  lemma {:induction false} ChainHeights(chain: seq<FullBlock>)
    requires ChainOk(chain)
    ensures forall i :: 0 <= i < |chain| ==> chain[i].height == i
  {
    hide BodyOk;
    if chain != [] {
      ChainHeights(chain[..|chain| - 1]);
    }
  }

  /** The rewards claimed on top of `anc` belong to heights that no block of `anc` has claimed. */
  lemma ExpectedRewardsHeights(anc: seq<FullBlock>, c: Coin)
    requires ChainOk(anc) && c in ExpectedRewards(anc)
    ensures IsRewardOf(c, Claimed(anc), LastTx(anc) + 1)
  {
    ChainHeights(anc);
    var p := LastTx(anc);
    if c in PlainRewards(anc, Claimed(anc), p) {
      PlainRewardsHeights(anc, Claimed(anc), p, c);
    }
  }

  // ----- Creation is unique -----

  /** Bookkeeping of a table produced by a chain of `n` blocks: records are filed under their own
      coin, and the confirmation and spend heights belong to the chain. */
  ghost predicate RecordsOk(t: Table, n: nat) {
    forall id :: id in t ==>
      && id.CoinName? && t[id].coin == id.coin
      && t[id].confirmed < n && t[id].spentIndex < n
      && (!t[id].spent ==> t[id].spentIndex == 0)
      && (t[id].spent ==> t[id].confirmed <= t[id].spentIndex)
  }

  /** Every coin of the table is either a reward of a claimed height or the child of a coin that is
      in the table and spent. */
  ghost predicate ParentsOk(t: Table, claimed: nat) {
    forall id :: id in t ==>
      && id.CoinName?
      && (IsRewardOf(id.coin, 0, claimed) || (id.coin.parent in t && t[id.coin.parent].spent))
  }

  lemma AdditionParent(b: FullBlock, id: CoinId)
    requires IsAddition(b, id)
    ensures IsRemoved(b, id.coin.parent)
  {
  }

  lemma RemovedIsSpendable(anc: seq<FullBlock>, b: FullBlock, id: CoinId)
    requires BodyOk(anc, b) && IsRemoved(b, id)
    ensures b.tx.Some? && Spendable(Replay(anc), b, id)
  {
    var i :| 0 <= i < |Npcs(b)| && Removals(b)[i] == id;
    assert SpendOk(Replay(anc), b, PrevTxHeight(anc), Npcs(b)[i]);
  }

  /** The heart of the argument, by induction on coin parentage: a coin made by a valid block is not
      in the table yet.  A reward is new because its height was unclaimed.  An ordinary coin found in
      the table would have a spent parent there, but this block spends the same parent; so the parent
      would have to be made by this block too, and the induction hypothesis rules that out. */
  lemma {:induction false} CreatedIsFresh(anc: seq<FullBlock>, b: FullBlock, id: CoinId)
    requires ChainOk(anc) && BodyOk(anc, b) && IsCreated(b, id)
    requires ParentsOk(Replay(anc), Claimed(anc))
    ensures id !in Replay(anc)
    decreases id
  {
    var t := Replay(anc);
    if id in t {
      if IsReward(b, id) {
        assert id.coin in (set c | c in Claims(b));
        ExpectedRewardsHeights(anc, id.coin);
      } else {
        var parent := id.coin.parent;
        AdditionParent(b, id);
        RemovedIsSpendable(anc, b, parent);
        if IsCreated(b, parent) {
          CreatedIsFresh(anc, b, parent);
        }
      }
    }
  }

  lemma CreatedAreFresh(anc: seq<FullBlock>, b: FullBlock)
    requires ChainOk(anc) && BodyOk(anc, b)
    requires ParentsOk(Replay(anc), Claimed(anc))
    ensures Created(b) !! Replay(anc).Keys
  {
    forall id | id in Created(b) ensures id !in Replay(anc) {
      CreatedIsFresh(anc, b, id);
    }
  }

  lemma StepKeepsRecords(anc: seq<FullBlock>, b: FullBlock)
    requires StepOk(anc, b) && RecordsOk(Replay(anc), |anc|)
    ensures RecordsOk(ApplyBlock(Replay(anc), b), |anc| + 1)
  {
  }

  lemma StepKeepsParents(anc: seq<FullBlock>, b: FullBlock)
    requires ChainOk(anc) && StepOk(anc, b) && ParentsOk(Replay(anc), Claimed(anc))
    ensures ParentsOk(ApplyBlock(Replay(anc), b), Claimed(anc + [b]))
  {
    var t := Replay(anc);
    var t' := ApplyBlock(t, b);
    CreatedAreFresh(anc, b);
    LastTxExtend(anc, b);
    ClaimedBound(anc);
    forall id | id in t'
      ensures id.CoinName?
      ensures IsRewardOf(id.coin, 0, Claimed(anc + [b])) || (id.coin.parent in t' && t'[id.coin.parent].spent)
    {
      if IsReward(b, id) {
        assert id.coin in (set c | c in Claims(b));
        ExpectedRewardsHeights(anc, id.coin);
      } else if IsAddition(b, id) {
        AdditionParent(b, id);
        RemovedIsSpendable(anc, b, id.coin.parent);
      } else {
        assert id in t;
      }
    }
  }

  lemma ClaimedBound(chain: seq<FullBlock>)
    ensures Claimed(chain) <= LastTx(chain) + 1
  {
  }

  /** What replaying a valid chain keeps. */
  lemma {:induction false} ChainTable(chain: seq<FullBlock>)
    requires ChainOk(chain)
    ensures RecordsOk(Replay(chain), |chain|)
    ensures ParentsOk(Replay(chain), Claimed(chain))
  {
    if chain != [] {
      var init, last := chain[..|chain| - 1], chain[|chain| - 1];
      ChainTable(init);
      StepKeepsRecords(init, last);
      StepKeepsParents(init, last);
      assert chain == init + [last];
    }
  }

  /** No valid block creates a coin that its ancestors created: the table insert never meets an
      existing key. */
  lemma NoDuplicateCoins(anc: seq<FullBlock>, b: FullBlock)
    requires ChainOk(anc) && BodyOk(anc, b)
    ensures Created(b) !! Replay(anc).Keys
  {
    ChainTable(anc);
    CreatedAreFresh(anc, b);
  }

  lemma InReplay(chain: seq<FullBlock>, id: CoinId)
    requires chain != []
    ensures id in Replay(chain) <==> id in Replay(chain[..|chain| - 1]) || IsCreated(chain[|chain| - 1], id)
  {
  }

  lemma {:induction false} CreatedStays(chain: seq<FullBlock>, i: nat, id: CoinId)
    requires i < |chain| && IsCreated(chain[i], id)
    ensures id in Replay(chain)
  {
    hide Replay;
    hide IsCreated;
    InReplay(chain, id);
    if i < |chain| - 1 {
      CreatedStays(chain[..|chain| - 1], i, id);
    }
  }

  lemma {:induction false} CreatedSomewhere(chain: seq<FullBlock>, id: CoinId)
    requires id in Replay(chain)
    ensures exists i :: 0 <= i < |chain| && IsCreated(chain[i], id)
  {
    var init, last := chain[..|chain| - 1], chain[|chain| - 1];
    if IsCreated(last, id) {
      assert IsCreated(chain[|chain| - 1], id);
    } else {
      CreatedSomewhere(init, id);
      var i :| 0 <= i < |init| && IsCreated(init[i], id);
      assert IsCreated(chain[i], id);
    }
  }

  /** Across a whole valid chain a coin id is created in at most one block. */
  lemma CreatedOnce(chain: seq<FullBlock>, i: nat, j: nat, id: CoinId)
    requires ChainOk(chain) && i < |chain| && j < |chain|
    requires IsCreated(chain[i], id) && IsCreated(chain[j], id)
    ensures i == j
  {
    var lo, hi := if i < j then i else j, if i < j then j else i;
    if lo < hi {
      ChainPrefix(chain, hi);
      CreatedStays(chain[..hi], lo, id);
      NoDuplicateCoins(chain[..hi], chain[hi]);
    }
  }

  // ----- Spending is unique -----

  lemma {:induction false} SpentStays(chain: seq<FullBlock>, i: nat, id: CoinId)
    requires ChainOk(chain) && i < |chain| && IsRemoved(chain[i], id)
    ensures id in Replay(chain) && Replay(chain)[id].spent
  {
    var init, last := chain[..|chain| - 1], chain[|chain| - 1];
    if i == |chain| - 1 {
      RemovedIsSpendable(init, last, id);
    } else {
      SpentStays(init, i, id);
      NoDuplicateCoins(init, last);
    }
  }

  /** No block spends a coin before the block that creates it. */
  lemma SpentAfterCreated(chain: seq<FullBlock>, i: nat, j: nat, id: CoinId)
    requires ChainOk(chain) && i < |chain| && j < |chain|
    requires IsCreated(chain[i], id) && IsRemoved(chain[j], id)
    ensures i <= j
  {
    hide ChainOk;
    hide Replay;
    hide SpendOk;
    hide ClaimsOk;
    hide AmountsOk;
    hide IsCreated;
    ChainPrefix(chain, j);
    if !IsCreated(chain[j], id) {
      RemovedIsSpendable(chain[..j], chain[j], id);
      CreatedSomewhere(chain[..j], id);
      var k :| 0 <= k < j && IsCreated(chain[..j][k], id);
      CreatedOnce(chain, i, k, id);
    } else {
      CreatedOnce(chain, i, j, id);
    }
  }

  /** Across a whole valid chain a coin is spent in at most one block. */
  lemma SpentOnce(chain: seq<FullBlock>, i: nat, j: nat, id: CoinId)
    requires ChainOk(chain) && i < |chain| && j < |chain|
    requires IsRemoved(chain[i], id) && IsRemoved(chain[j], id)
    ensures i == j
  {
    var lo, hi := if i < j then i else j, if i < j then j else i;
    if lo < hi {
      ChainPrefix(chain, hi);
      SpentStays(chain[..hi], lo, id);
      RemovedIsSpendable(chain[..hi], chain[hi], id);
      NoDuplicateCoins(chain[..hi], chain[hi]);
    }
  }

  // ----- Ephemeral coins -----

  /** Follows the parents of a coin through the coins made by the same block. */
  function Root(b: FullBlock, id: CoinId): CoinId
    decreases id
  {
    if IsAddition(b, id) && !IsReward(b, id) then Root(b, id.coin.parent) else id
  }

  /** Every coin made or spent by a valid block descends, within the block, from a coin that was
      unspent before the block or from a reward of the block. */
  lemma {:induction false} EphemeralIsRooted(anc: seq<FullBlock>, b: FullBlock, id: CoinId)
    requires BodyOk(anc, b) && (IsCreated(b, id) || IsRemoved(b, id))
    ensures var root := Root(b, id);
      IsReward(b, root) || (!IsCreated(b, root) && root in Replay(anc) && !Replay(anc)[root].spent)
    decreases id
  {
    if IsAddition(b, id) && !IsReward(b, id) {
      AdditionParent(b, id);
      EphemeralIsRooted(anc, b, id.coin.parent);
    } else if !IsReward(b, id) {
      RemovedIsSpendable(anc, b, id);
    }
  }

  /** Consequently a genesis block makes and spends nothing at all. */
  lemma GenesisIsEmpty(b: FullBlock)
    requires BodyOk([], b)
    ensures Created(b) == {} && Removals(b) == [] && Additions(b) == []
  {
    if b.tx.Some? {
      assert ExpectedRewards([]) == {};
      assert Claims(b) == [];
      forall id | IsCreated(b, id) || IsRemoved(b, id) ensures false {
        EphemeralIsRooted([], b, id);
      }
      if Removals(b) != [] {
        assert IsRemoved(b, Removals(b)[0]);
      }
      assert Npcs(b) == [];
    }
  }

  // ----- Rolling back -----

  function RollbackRecord(r: CoinRecord, h: int): CoinRecord {
    if r.spentIndex > h then r.(spentIndex := 0, spent := false) else r
  }

  /** Forget what was confirmed above `h` and unspend what was spent above `h`. */
  function RollbackTable(t: Table, h: int): Table {
    map id | id in t && t[id].confirmed <= h :: RollbackRecord(t[id], h)
  }

  /** A block above `h` that makes only new coins and spends only unspent ones leaves no trace in the
      table rolled back to `h`. */
  lemma RollbackIgnoresBlock(t: Table, b: FullBlock, h: int)
    requires Created(b) !! t.Keys && h < b.height
    requires forall id :: id in t && IsRemoved(b, id) ==> !t[id].spent && t[id].spentIndex == 0
    ensures RollbackTable(ApplyBlock(t, b), h) == RollbackTable(t, h)
  {
    var t' := ApplyBlock(t, b);
    forall id | id in t ensures t'[id].confirmed == t[id].confirmed {
      assert !IsCreated(b, id);
    }
    forall id | id in t && t[id].confirmed <= h ensures RollbackRecord(t'[id], h) == RollbackRecord(t[id], h) {
      assert !IsCreated(b, id);
    }
    forall id | id in t' && id !in t ensures t'[id].confirmed > h {
      assert IsCreated(b, id);
    }
    assert RollbackTable(t', h).Keys == RollbackTable(t, h).Keys;
  }

  lemma RollbackUndoesBlock(anc: seq<FullBlock>, b: FullBlock, h: int)
    requires ChainOk(anc) && StepOk(anc, b) && -1 <= h < |anc|
    ensures RollbackTable(ApplyBlock(Replay(anc), b), h) == RollbackTable(Replay(anc), h)
  {
    var t := Replay(anc);
    ChainTable(anc);
    NoDuplicateCoins(anc, b);
    forall id | id in t && IsRemoved(b, id) ensures !t[id].spent && t[id].spentIndex == 0 {
      RemovedIsSpendable(anc, b, id);
    }
    RollbackIgnoresBlock(t, b, h);
  }

  lemma RollbackToTop(t: Table, n: nat)
    requires RecordsOk(t, n)
    ensures RollbackTable(t, n - 1) == t
  {
  }

  /** Rolling the table of a valid chain back to height `h` gives exactly the table of its first
      `h + 1` blocks, for every `h` from -1 upwards, whatever was created and spent above `h`. */
  lemma {:induction false} RollbackUndoes(chain: seq<FullBlock>, h: int)
    requires ChainOk(chain) && -1 <= h < |chain|
    ensures RollbackTable(Replay(chain), h) == Replay(chain[..h + 1])
  {
    hide ChainOk;
    hide Replay;
    hide RollbackTable;
    hide StepOk;
    hide ApplyBlock;
    if h == |chain| - 1 {
      ChainTable(chain);
      RollbackToTop(Replay(chain), |chain|);
      assert chain[..h + 1] == chain;
    } else {
      var init, last := chain[..|chain| - 1], chain[|chain| - 1];
      ChainPrefix(chain, |chain| - 1);
      ChainExtend(init, last);
      assert init + [last] == chain;
      RollbackUndoes(init, h);
      RollbackUndoesBlock(init, last, h);
      assert init[..h + 1] == chain[..h + 1];
    }
  }

  // ----- Conservation of value -----

  function BlockReward(h: nat): nat {
    CalculatePoolReward(h) + CalculateBaseFarmerReward(h)
  }

  /** Rewards of heights 0 to `n - 1`. */
  function RewardsUpTo(n: nat): nat {
    if n == 0 then 0 else RewardsUpTo(n - 1) + BlockReward(n - 1)
  }

  /** The whole issue up to a height: the prefarm, then two coins a block, one from the fourth year on, half a coin
      from the seventh, a quarter from the tenth, and one again from the thirteenth. */
  function Issued(n: nat): nat {
    var year, coin := BLOCKS_PER_YEAR, MTAD_PER_TAD;
    if n == 0 then 0
    else if n <= 3 * year then 300_000 * coin + 2 * coin * (n - 1)
    else if n <= 6 * year then Issued(3 * year) + coin * (n - 3 * year)
    else if n <= 9 * year then Issued(6 * year) + coin / 2 * (n - 6 * year)
    else if n <= 12 * year then Issued(9 * year) + coin / 4 * (n - 9 * year)
    else Issued(12 * year) + coin * (n - 12 * year)
  }

  lemma {:induction false} RewardsAreIssued(n: nat)
    ensures RewardsUpTo(n) == Issued(n)
  {
    if n > 0 {
      RewardsAreIssued(n - 1);
    }
  }

  ghost function UnspentIds(t: Table): set<CoinId> {
    set id | id in t && !t[id].spent
  }

  /** Total value of the unspent coins. */
  ghost function TotalUnspent(t: Table): nat {
    SumSet(UnspentIds(t))
  }

  ghost function CoinIds(coins: set<Coin>): (ids: set<CoinId>)
    ensures forall id :: id in ids <==> id.CoinName? && id.coin in coins
  {
    set c | c in coins :: CoinName(c)
  }

  lemma RewardPairSum(b: FullBlock, fees: nat)
    ensures SumSet(CoinIds(RewardPair(b, fees))) == BlockReward(b.height) + fees
  {
    var pool := CoinName(CreatePoolCoin(b.height, b.poolPuzzleHash, CalculatePoolReward(b.height)));
    var farmer := CoinName(CreateFarmerCoin(b.height, b.farmerPuzzleHash, CalculateBaseFarmerReward(b.height) + fees));
    var ids := CoinIds(RewardPair(b, fees));
    assert ids == {pool, farmer};
    SumSetRemove(ids, pool);
    assert ids - {pool} == {farmer};
    SumSetRemove({farmer}, farmer);
    assert {farmer} - {farmer} == {};
  }

  lemma {:induction false} PlainRewardsSum(chain: seq<FullBlock>, lo: nat, hi: nat)
    requires lo <= hi <= |chain|
    requires forall i :: 0 <= i < |chain| ==> chain[i].height == i
    ensures SumSet(CoinIds(PlainRewards(chain, lo, hi))) == RewardsUpTo(hi) - RewardsUpTo(lo)
    decreases hi
  {
    if lo < hi {
      var rest, pair := PlainRewards(chain, lo, hi - 1), RewardPair(chain[hi - 1], 0);
      PlainRewardsSum(chain, lo, hi - 1);
      RewardPairSum(chain[hi - 1], 0);
      forall c | c in rest ensures c !in pair {
        PlainRewardsHeights(chain, lo, hi - 1, c);
      }
      assert CoinIds(rest + pair) == CoinIds(rest) + CoinIds(pair);
      SumSetUnion(CoinIds(rest), CoinIds(pair));
    } else {
      assert CoinIds(PlainRewards(chain, lo, hi)) == {};
    }
  }

  lemma ExpectedRewardsSum(anc: seq<FullBlock>)
    requires ChainOk(anc) && anc != []
    ensures LastTx(anc) >= 0
    ensures SumSet(CoinIds(ExpectedRewards(anc)))
         == RewardsUpTo(LastTx(anc) + 1) - RewardsUpTo(Claimed(anc)) + anc[LastTx(anc)].tx.value.fees
  {
    hide ChainOk;
    hide SumSet;
    hide PlainRewards;
    GenesisIsTx(anc);
    ChainHeights(anc);
    var p := LastTx(anc);
    var rest, pair := PlainRewards(anc, Claimed(anc), p), RewardPair(anc[p], anc[p].tx.value.fees);
    PlainRewardsSum(anc, Claimed(anc), p);
    RewardPairSum(anc[p], anc[p].tx.value.fees);
    forall c | c in rest ensures c !in pair {
      PlainRewardsHeights(anc, Claimed(anc), p, c);
    }
    assert CoinIds(rest + pair) == CoinIds(rest) + CoinIds(pair);
    SumSetUnion(CoinIds(rest), CoinIds(pair));
  }

  lemma SplitDistinct(a: seq<Coin>, b: seq<Coin>)
    requires Distinct(a + b)
    ensures Distinct(Names(a)) && Distinct(Names(b))
    ensures IdSet(Names(a)) !! IdSet(Names(b))
    ensures IdSet(Names(a + b)) == IdSet(Names(a)) + IdSet(Names(b))
  {
    assert forall i :: 0 <= i < |a| ==> (a + b)[i] == a[i];
    assert forall j :: 0 <= j < |b| ==> (a + b)[|a| + j] == b[j];
    assert Names(a + b) == Names(a) + Names(b);
  }

  /** What a block creates is worth its ordinary outputs plus its reward claims. */
  lemma CreatedSum(anc: seq<FullBlock>, b: FullBlock)
    requires BodyOk(anc, b) && b.tx.Some?
    ensures SumSet(Created(b)) == SumCoins(Additions(b)) + SumSet(CoinIds(ExpectedRewards(anc)))
  {
    var adds, claims := Additions(b), Claims(b);
    SplitDistinct(adds, claims);
    SumDistinctIds(Names(adds));
    SumNames(adds);
    forall id | id in Created(b) ensures id in IdSet(Names(adds + claims)) {
      var i :| 0 <= i < |adds + claims| && (adds + claims)[i] == id.coin;
      assert Names(adds + claims)[i] == id;
    }
    assert Created(b) == IdSet(Names(adds)) + IdSet(Names(claims));
    SumSetUnion(IdSet(Names(adds)), IdSet(Names(claims)));
    ClaimIds(anc, b);
  }

  lemma ClaimIds(anc: seq<FullBlock>, b: FullBlock)
    requires BodyOk(anc, b) && b.tx.Some?
    ensures IdSet(Names(Claims(b))) == CoinIds(ExpectedRewards(anc))
  {
    var claims := Claims(b);
    forall id | id in CoinIds(ExpectedRewards(anc)) ensures id in IdSet(Names(claims)) {
      assert id.coin in (set c | c in claims);
      var i :| 0 <= i < |claims| && claims[i] == id.coin;
      assert Names(claims)[i] == id;
    }
    forall id | id in IdSet(Names(claims)) ensures id in CoinIds(ExpectedRewards(anc)) {
      var i :| 0 <= i < |claims| && Names(claims)[i] == id;
      assert claims[i] in (set c | c in claims);
    }
  }

  lemma UnspentAfter(t: Table, b: FullBlock)
    requires Created(b) !! t.Keys
    ensures UnspentIds(ApplyBlock(t, b)) == UnspentIds(t) + Created(b) - IdSet(Removals(b))
  {
    var t' := ApplyBlock(t, b);
    forall id | id in t' ensures id in UnspentIds(t') <==> id in UnspentIds(t) + Created(b) - IdSet(Removals(b)) {
    }
  }

  lemma SumMoved(before: set<CoinId>, made: set<CoinId>, gone: set<CoinId>)
    requires before !! made && gone <= before + made
    ensures SumSet(before + made - gone) + SumSet(gone) == SumSet(before) + SumSet(made)
  {
    assert before + made == (before + made - gone) + gone;
    SumSetUnion(before, made);
    SumSetUnion(before + made - gone, gone);
  }

  /** One block: the unspent total grows by the rewards it claims and shrinks by its fees. */
  lemma StepValue(anc: seq<FullBlock>, b: FullBlock)
    requires ChainOk(anc) && StepOk(anc, b) && b.tx.Some?
    ensures TotalUnspent(ApplyBlock(Replay(anc), b)) + b.tx.value.fees
         == TotalUnspent(Replay(anc)) + SumSet(CoinIds(ExpectedRewards(anc)))
  {
    var before, gone := UnspentIds(Replay(anc)), IdSet(Removals(b));
    NoDuplicateCoins(anc, b);
    forall id | id in gone ensures id in before + Created(b) {
      RemovedIsSpendable(anc, b, id);
    }
    UnspentAfter(Replay(anc), b);
    SumMoved(before, Created(b), gone);
    SumDistinctIds(Removals(b));
    CreatedSum(anc, b);
  }

  lemma PlainStepValue(t: Table, b: FullBlock)
    requires b.tx.None?
    ensures ApplyBlock(t, b) == t
  {
    assert Created(b) == {};
  }

  /** Supply: at every point of a valid chain the unspent value plus the fees still waiting in the
      last transaction block is the sum of the rewards of all claimed heights, 0 up to the
      transaction block before the last one. */
  lemma {:induction false} SupplyIsConserved(chain: seq<FullBlock>)
    requires ChainOk(chain) && chain != []
    ensures LastTx(chain) >= 0
    ensures TotalUnspent(Replay(chain)) + chain[LastTx(chain)].tx.value.fees == RewardsUpTo(Claimed(chain))
  {
    var init, b := chain[..|chain| - 1], chain[|chain| - 1];
    assert chain == init + [b];
    LastTxExtend(init, b);
    if init == [] {
      GenesisIsEmpty(b);
      assert Replay(chain) == map[];
      assert UnspentIds(Replay(chain)) == {};
    } else {
      SupplyIsConserved(init);
      if b.tx.Some? {
        StepValue(init, b);
        ExpectedRewardsSum(init);
      } else {
        PlainStepValue(Replay(init), b);
      }
    }
  }

  /** Every reward that a block on top of a valid chain has to claim is within the maximum amount, so
      that creating the farmer coin from reward and fees never overflows. */
  lemma RewardCoinsFit(anc: seq<FullBlock>, c: Coin)
    requires ChainOk(anc) && c in ExpectedRewards(anc)
    ensures c.amount <= MAX_COIN_AMOUNT
  {
    hide ChainOk;
    hide ExpectedRewards;
    var h := ExpectedFrom(anc, c);
    if anc[h].tx.Some? && anc[h].tx.value.fees > 0 {
      ChainHeights(anc);
      ChainPrefix(anc, h);
    }
  }

  /** Each height has its farmer reward claimed in at most one block, with one coin. */
  lemma RewardClaimedOnce(chain: seq<FullBlock>, i: nat, j: nat, id: CoinId, id': CoinId)
    requires ChainOk(chain) && i <= j < |chain|
    requires IsReward(chain[i], id) && IsReward(chain[j], id') && id.coin.parent == id'.coin.parent
    ensures i == j && id == id'
  {
    ChainPrefix(chain, i);
    ChainPrefix(chain, j);
    var ci, cj := chain[..i], chain[..j];
    assert id.coin in (set c | c in Claims(chain[i])) && id'.coin in (set c | c in Claims(chain[j]));
    ExpectedRewardsHeights(ci, id.coin);
    ExpectedRewardsHeights(cj, id'.coin);
    if i < j {
      ClaimedGrows(chain, i, j);
    } else {
      RewardsAreFunctional(ci, id.coin, id'.coin);
    }
  }

  lemma {:induction false} ClaimedGrows(chain: seq<FullBlock>, i: nat, j: nat)
    requires i < j <= |chain| && chain[i].tx.Some?
    ensures LastTx(chain[..i]) + 1 <= Claimed(chain[..j])
    decreases j
  {
    var b := chain[j - 1];
    assert chain[..j] == chain[..j - 1] + [b];
    LastTxExtend(chain[..j - 1], b);
    if i < j - 1 {
      ClaimedGrows(chain, i, j - 1);
      ClaimedBound(chain[..j - 1]);
    }
  }

  lemma {:induction false} PlainRewardsFunctional(chain: seq<FullBlock>, lo: nat, hi: nat, c: Coin, d: Coin)
    requires lo <= hi <= |chain| && c in PlainRewards(chain, lo, hi) && d in PlainRewards(chain, lo, hi)
    requires c.parent == d.parent
    requires forall i :: 0 <= i < |chain| ==> chain[i].height == i
    ensures c == d
    decreases hi
  {
    PlainRewardsHeights(chain, lo, hi, c);
    if c in PlainRewards(chain, lo, hi - 1) {
      PlainRewardsHeights(chain, lo, hi - 1, c);
      assert d in PlainRewards(chain, lo, hi - 1);
      PlainRewardsFunctional(chain, lo, hi - 1, c, d);
    } else if d in PlainRewards(chain, lo, hi - 1) {
      PlainRewardsHeights(chain, lo, hi - 1, d);
    }
  }

  lemma RewardsAreFunctional(anc: seq<FullBlock>, c: Coin, d: Coin)
    requires ChainOk(anc) && c in ExpectedRewards(anc) && d in ExpectedRewards(anc) && c.parent == d.parent
    ensures c == d
  {
    ChainHeights(anc);
    var p := LastTx(anc);
    var plain := PlainRewards(anc, Claimed(anc), p);
    if c in plain {
      PlainRewardsHeights(anc, Claimed(anc), p, c);
      PlainRewardsFunctional(anc, Claimed(anc), p, c, d);
    } else if d in plain {
      PlainRewardsHeights(anc, Claimed(anc), p, d);
    }
  }

  lemma {:induction false} PlainRewardsComplete(chain: seq<FullBlock>, lo: nat, hi: nat, h: nat)
    requires lo <= h < hi <= |chain|
    requires forall i :: 0 <= i < |chain| ==> chain[i].height == i
    ensures RewardPair(chain[h], 0) <= PlainRewards(chain, lo, hi)
    decreases hi
  {
    if h < hi - 1 {
      PlainRewardsComplete(chain, lo, hi - 1, h);
    }
  }

  lemma {:induction false} PairIsPaid(chain: seq<FullBlock>, h: nat) returns (i: nat)
    requires ChainOk(chain) && h < Claimed(chain)
    ensures h < i < |chain|
    ensures forall c :: c in RewardPair(chain[h], FeesOf(chain[h])) ==> IsReward(chain[i], CoinName(c))
  {
    var init, b := chain[..|chain| - 1], chain[|chain| - 1];
    assert chain == init + [b];
    LastTxExtend(init, b);
    if h < Claimed(init) {
      i := PairIsPaid(init, h);
    } else {
      i := |chain| - 1;
      RewardsAreExpected(init, h);
      forall c | c in RewardPair(chain[h], FeesOf(chain[h])) ensures IsReward(b, CoinName(c)) {
        assert c in (set c | c in Claims(b));
      }
    }
  }

  /** The two rewards of a block: nothing for the pool, the base reward and the fees for the farmer. */
  lemma PairIs(b: FullBlock, fees: nat)
    ensures Coin(PoolParent(b.height), b.poolPuzzleHash, 0) in RewardPair(b, fees)
    ensures Coin(FarmerParent(b.height), b.farmerPuzzleHash, CalculateBaseFarmerReward(b.height) + fees) in RewardPair(b, fees)
  {
  }

  /** Each claimed height has both its rewards paid by some block of the chain, and the value paid to
      the farmer includes exactly the fees of that height's block. */
  lemma RewardIsPaid(chain: seq<FullBlock>, h: nat) returns (i: nat)
    requires ChainOk(chain) && h < Claimed(chain)
    ensures h < i < |chain|
    ensures IsReward(chain[i], CoinName(Coin(PoolParent(h), chain[h].poolPuzzleHash, 0)))
    ensures IsReward(chain[i], CoinName(
      Coin(FarmerParent(h), chain[h].farmerPuzzleHash, CalculateBaseFarmerReward(h) + FeesOf(chain[h]))))
  {
    hide ChainOk;
    hide RewardPair;
    hide IsReward;
    hide Claimed;
    ChainHeights(chain);
    i := PairIsPaid(chain, h);
    PairIs(chain[h], FeesOf(chain[h]));
  }

  lemma RewardsAreExpected(anc: seq<FullBlock>, h: nat)
    requires ChainOk(anc) && Claimed(anc) <= h <= LastTx(anc)
    ensures RewardPair(anc[h], FeesOf(anc[h])) <= ExpectedRewards(anc)
  {
    ChainHeights(anc);
    if h < LastTx(anc) {
      PlainRewardsComplete(anc, Claimed(anc), LastTx(anc), h);
      PlainBetween(anc, h);
    }
  }

  lemma {:induction false} PlainRewardsFrom(chain: seq<FullBlock>, lo: nat, hi: nat, c: Coin) returns (h: nat)
    requires lo <= hi <= |chain| && c in PlainRewards(chain, lo, hi)
    ensures lo <= h < hi && c in RewardPair(chain[h], 0)
    decreases hi
  {
    if c in PlainRewards(chain, lo, hi - 1) {
      h := PlainRewardsFrom(chain, lo, hi - 1, c);
    } else {
      h := hi - 1;
    }
  }

  lemma ExpectedFrom(anc: seq<FullBlock>, c: Coin) returns (h: nat)
    requires ChainOk(anc) && c in ExpectedRewards(anc)
    ensures Claimed(anc) <= h <= LastTx(anc) && c in RewardPair(anc[h], FeesOf(anc[h]))
  {
    hide ChainOk;
    var p := LastTx(anc);
    if c in PlainRewards(anc, Claimed(anc), p) {
      h := PlainRewardsFrom(anc, Claimed(anc), p, c);
      PlainBetween(anc, h);
    } else {
      h := p;
      ClaimedBound(anc);
    }
  }

  /** The rewards to claim on top of a valid chain are exactly those of the heights not claimed before, up
      to the last transaction block, each with the fees of its own block. */
  lemma ExpectedRewardsAre(anc: seq<FullBlock>, c: Coin)
    requires ChainOk(anc)
    ensures c in ExpectedRewards(anc) <==>
      exists h: nat :: Claimed(anc) <= h <= LastTx(anc) && c in RewardPair(anc[h], FeesOf(anc[h]))
  {
    hide ChainOk;
    hide ExpectedRewards;
    if c in ExpectedRewards(anc) {
      var h := ExpectedFrom(anc, c);
    }
    forall h: nat | Claimed(anc) <= h <= LastTx(anc) && c in RewardPair(anc[h], FeesOf(anc[h]))
      ensures c in ExpectedRewards(anc)
    {
      RewardsAreExpected(anc, h);
    }
  }

  function FeesOf(b: FullBlock): nat {
    if b.tx.Some? then b.tx.value.fees else 0
  }

  /** Between the claimed heights and the last transaction block there are only plain blocks. */
  lemma PlainBetween(chain: seq<FullBlock>, h: nat)
    requires Claimed(chain) <= h < LastTx(chain)
    ensures chain[h].tx.None?
  {
    assert chain[..LastTx(chain)][h].tx.None?;
  }
}
