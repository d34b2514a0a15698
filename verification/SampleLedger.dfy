/** A valid chain with rewards, an ephemeral spend and a spend of an earlier coin. */
module SampleLedger {
  import opened Primitives
  import opened Coins
  import opened Ledger
  import opened LedgerTheorems
  import opened CoinStores

  const PREFARM: nat := CalculateBaseFarmerReward(0)
  const FEE: nat := 5

  function TxBlock(height: nat, fees: nat, claims: seq<Coin>, npcs: seq<Npc>): FullBlock {
    FullBlock(height + 1, height, height, height + 2, 0, 0, Some(TxData(height, height, fees, claims, npcs, true)), None, None, [])
  }

  function Pool(height: nat): Coin {
    CreatePoolCoin(height, 0, CalculatePoolReward(height))
  }

  function Farmer(height: nat, fees: nat): Coin {
    CreateFarmerCoin(height, 0, CalculateBaseFarmerReward(height) + fees)
  }

  /** The coin made from the reward of genesis in the block that claims it. */
  function Kept(): Coin {
    Coin(CoinName(Farmer(0, 0)), 7, PREFARM - FEE)
  }

  function Genesis(): FullBlock {
    TxBlock(0, 0, [], [])
  }

  /** Claims the rewards of genesis and spends one of them at once, leaving a fee. */
  function First(): FullBlock {
    TxBlock(1, FEE, [Pool(0), Farmer(0, 0)], [Npc(CoinName(Farmer(0, 0)), 0, [Output(7, PREFARM - FEE)], [], [])])
  }

  /** Spends the coin made in the block before, under a relative time lock. */
  function Second(): FullBlock {
    TxBlock(2, 0, [Pool(1), Farmer(1, FEE)], [Npc(CoinName(Kept()), 7, [Output(8, PREFARM - FEE)], [], [HeightRelative(0)])])
  }

  lemma OneAddition(npc: Npc, o: Output)
    requires npc.outputs == [o]
    ensures AdditionsForNpc([npc]) == [Coin(npc.coinName, o.puzzleHash, o.amount)]
    ensures RemovalNames([npc]) == [npc.coinName]
  {
    assert [npc][..0] == [];
    assert Outputs(npc) == [Coin(npc.coinName, o.puzzleHash, o.amount)];
    assert AdditionsForNpc([]) == [];
  }

  lemma OneSum(id: CoinId, coin: Coin)
    ensures SumIds([id]) == Amount(id) && SumCoins([coin]) == coin.amount
  {
    assert [id][..0] == [] && [coin][..0] == [];
    assert SumIds([]) == 0 && SumCoins([]) == 0;
  }

  lemma NoReserve(npc: Npc)
    requires npc.reserveFees == []
    ensures ReserveFees([npc]) == [] && SumInts([]) == 0
  {
    assert [npc][..0] == [];
    assert ReserveFees([]) == [];
  }

  lemma OneNpc(b: FullBlock, npc: Npc, o: Output)
    requires Npcs(b) == [npc] && npc.outputs == [o] && npc.reserveFees == []
    ensures Removals(b) == [npc.coinName] && Additions(b) == [Coin(npc.coinName, o.puzzleHash, o.amount)]
    ensures SumIds(Removals(b)) == Amount(npc.coinName) && SumCoins(Additions(b)) == o.amount
    ensures ReserveFees(Npcs(b)) == [] && SumInts([]) == 0
  {
    hide AdditionsForNpc;
    hide RemovalNames;
    hide SumIds;
    hide SumCoins;
    hide ReserveFees;
    OneAddition(npc, o);
    OneSum(npc.coinName, Coin(npc.coinName, o.puzzleHash, o.amount));
    NoReserve(npc);
  }

  lemma GenesisOk()
    ensures ChainOk([Genesis()]) && Replay([Genesis()]) == map[] && LastTx([Genesis()]) == 0
  {
    var g := Genesis();
    assert Additions(g) == [] && Removals(g) == [];
    assert (set c | c in Claims(g)) == {} == ExpectedRewards([]);
    assert [g][..0] == [];
    assert Created(g) == {} && Replay([]) == map[];
    assert StepOk([], g);
  }

  lemma FirstOk()
    ensures StepOk([Genesis()], First())
  {
    hide Replay;
    hide AdditionsForNpc;
    hide RemovalNames;
    hide SumIds;
    hide SumCoins;
    hide ReserveFees;
    hide ChainOk;
    var anc, b := [Genesis()], First();
    GenesisOk();
    OneNpc(b, Npcs(b)[0], Output(7, PREFARM - FEE));
    assert anc[..0] == [] && Claimed(anc) == 0;
    assert PlainRewards(anc, 0, 0) == {};
    var pair := {Pool(0), Farmer(0, 0)};
    assert RewardPair(Genesis(), 0) == pair && (set c | c in Claims(b)) == pair && |pair| == 2;
    assert ExpectedRewards(anc) == pair;
    assert IsCreated(b, CoinName(Farmer(0, 0)));
  }

  lemma AfterFirst()
    ensures var anc := [Genesis(), First()];
      && ChainOk(anc) && LastTx(anc) == 1 && Claimed(anc) == 1
      && CoinName(Kept()) in Replay(anc) && !Replay(anc)[CoinName(Kept())].spent && Replay(anc)[CoinName(Kept())].confirmed == 1
  {
    hide AdditionsForNpc;
    hide RemovalNames;
    hide SumIds;
    hide SumCoins;
    hide ReserveFees;
    hide Replay;
    hide ChainOk;
    hide StepOk;
    var g, b := Genesis(), First();
    GenesisOk();
    FirstOk();
    ChainExtend([g], b);
    var anc := [g, b];
    assert [g] + [b] == anc && anc[..1] == [g];
    OneNpc(b, Npcs(b)[0], Output(7, PREFARM - FEE));
    assert IsCreated(b, CoinName(Kept())) && !IsRemoved(b, CoinName(Kept()));
  }

  lemma SecondOk()
    ensures StepOk([Genesis(), First()], Second())
  {
    hide Replay;
    hide ChainOk;
    hide AdditionsForNpc;
    hide RemovalNames;
    hide SumIds;
    hide SumCoins;
    hide ReserveFees;
    var anc, b := [Genesis(), First()], Second();
    AfterFirst();
    OneNpc(b, Npcs(b)[0], Output(8, PREFARM - FEE));
    assert PlainRewards(anc, 1, 1) == {};
    var pair := {Pool(1), Farmer(1, FEE)};
    assert RewardPair(First(), FEE) == pair && (set c | c in Claims(b)) == pair && |pair| == 2;
    assert ExpectedRewards(anc) == pair;
    assert !IsCreated(b, CoinName(Kept()));
  }

  /** The ledger rules admit chains on which coins are claimed, made and spent. */
  lemma SpendingIsPossible() returns (chain: seq<FullBlock>)
    ensures ChainOk(chain) && |chain| == 3
    ensures Removals(chain[1]) != [] && Removals(chain[2]) != [] && chain[1].tx.Some? && chain[1].tx.value.fees > 0
    ensures IsReward(chain[1], Removals(chain[1])[0]) && IsAddition(chain[1], Removals(chain[2])[0])
  {
    hide ChainOk;
    hide Replay;
    hide StepOk;
    hide AdditionsForNpc;
    hide RemovalNames;
    hide SumIds;
    hide SumCoins;
    hide ReserveFees;
    AfterFirst();
    SecondOk();
    ChainExtend([Genesis(), First()], Second());
    chain := [Genesis(), First()] + [Second()];
    OneNpc(First(), Npcs(First())[0], Output(7, PREFARM - FEE));
    OneNpc(Second(), Npcs(Second())[0], Output(8, PREFARM - FEE));
  }

  /** A rollback report that is not complete: rolling that chain back to height 1 unspends a coin which
      survives, and the report does not have it. */
  lemma ReportMissesCoin() returns (chain: seq<FullBlock>, id: CoinId)
    ensures ChainOk(chain)
    ensures id in ModifiedIds(Replay(chain), 1) && id in RollbackTable(Replay(chain), 1)
    ensures id !in ForgetTimes(RowsAbove(Replay(chain), 1))
  {
    hide ChainOk;
    hide Replay;
    hide StepOk;
    hide AdditionsForNpc;
    hide RemovalNames;
    AfterFirst();
    SecondOk();
    var anc, b := [Genesis(), First()], Second();
    ChainExtend(anc, b);
    chain, id := anc + [b], CoinName(Kept());
    OneNpc(b, Npcs(b)[0], Output(8, PREFARM - FEE));
    assert !IsCreated(b, id) && IsRemoved(b, id);
    var t := Replay(chain);
    assert t[id].confirmed == 1 && t[id].spentIndex == 2;
  }
}
