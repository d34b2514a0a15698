/** The reference semantics of the coin set: what a chain of blocks, replayed from genesis, does to
    an initially empty coin table, and which blocks may extend a chain.  Everything the node does
    with forks, caches and rollbacks is measured against these definitions. */
module Ledger {
  import opened Primitives
  import opened Coins

  /** The time locks that depend on the record of the coin being spent. */
  datatype Condition =
    | HeightAbsolute(n: int)
    | HeightRelative(n: int)
    | SecondsAbsolute(n: int)
    | SecondsRelative(n: int)

  datatype Output = Output(puzzleHash: Hash, amount: nat)

  /** One spend produced by running the block generator. */
  datatype Npc = Npc(
    coinName: CoinId, puzzleHash: Hash, outputs: seq<Output>, reserveFees: seq<int>, conditions: seq<Condition>)

  /** The body of a transaction block.  `otherChecks` is the verdict of the checks that read nothing
      but the block itself: hashes, roots, filter, cost and aggregate signature. */
  datatype TxData = TxData(
    timestamp: nat, prevTxHash: Hash, fees: nat, rewardClaims: seq<Coin>, npcs: seq<Npc>, otherChecks: bool)

  datatype FullBlock = FullBlock(
    headerHash: Hash, prevHash: Hash, height: nat, weight: nat,
    poolPuzzleHash: Hash, farmerPuzzleHash: Hash,
    tx: Option<TxData>, ses: Option<Hash>,
    generator: Option<Hash>, generatorRefs: seq<nat>)

  type Table = map<CoinId, CoinRecord>

  // ----- What a block creates and removes -----

  function Outputs(npc: Npc): (coins: seq<Coin>)
    ensures forall c :: c in coins ==> c.parent == npc.coinName
  {
    seq(|npc.outputs|, i requires 0 <= i < |npc.outputs| =>
      Coin(npc.coinName, npc.outputs[i].puzzleHash, npc.outputs[i].amount))
  }

  function RemovalNames(npcs: seq<Npc>): (ids: seq<CoinId>)
    ensures |ids| == |npcs|
    ensures forall i :: 0 <= i < |npcs| ==> ids[i] == npcs[i].coinName
  {
    seq(|npcs|, i requires 0 <= i < |npcs| => npcs[i].coinName)
  }

  /** Every created coin is a child of a coin spent in the same block. */
  function AdditionsForNpc(npcs: seq<Npc>): (coins: seq<Coin>)
    ensures forall c :: c in coins ==> c.parent in RemovalNames(npcs)
  {
    if npcs == [] then [] else
      var init, last := npcs[..|npcs| - 1], npcs[|npcs| - 1];
      assert RemovalNames(npcs)[|npcs| - 1] == last.coinName;
      assert forall i :: 0 <= i < |init| ==> RemovalNames(npcs)[i] == RemovalNames(init)[i];
      AdditionsForNpc(init) + Outputs(last)
  }

  function Npcs(b: FullBlock): seq<Npc> {
    if b.tx.Some? then b.tx.value.npcs else []
  }

  function Claims(b: FullBlock): seq<Coin> {
    if b.tx.Some? then b.tx.value.rewardClaims else []
  }

  function Timestamp(b: FullBlock): nat {
    if b.tx.Some? then b.tx.value.timestamp else 0
  }

  function Additions(b: FullBlock): seq<Coin> {
    AdditionsForNpc(Npcs(b))
  }

  function Removals(b: FullBlock): seq<CoinId> {
    RemovalNames(Npcs(b))
  }

  predicate IsReward(b: FullBlock, id: CoinId) {
    id.CoinName? && id.coin in Claims(b)
  }

  predicate IsAddition(b: FullBlock, id: CoinId) {
    id.CoinName? && id.coin in Additions(b)
  }

  predicate IsCreated(b: FullBlock, id: CoinId) {
    IsAddition(b, id) || IsReward(b, id)
  }

  predicate IsRemoved(b: FullBlock, id: CoinId) {
    id in Removals(b)
  }

  function Created(b: FullBlock): (ids: set<CoinId>)
    ensures forall id :: id in ids <==> IsCreated(b, id)
  {
    set c | c in Additions(b) + Claims(b) :: CoinName(c)
  }

  // ----- Replay -----

  function NewRecord(b: FullBlock, id: CoinId): CoinRecord
    requires IsCreated(b, id)
  {
    CoinRecord(id.coin, b.height, 0, false, IsReward(b, id), Timestamp(b))
  }

  function Spend(r: CoinRecord, height: nat): CoinRecord {
    r.(spentIndex := height, spent := true)
  }

  function EntryAfter(t: Table, b: FullBlock, id: CoinId): CoinRecord
    requires id in t || IsCreated(b, id)
  {
    var r := if IsCreated(b, id) then NewRecord(b, id) else t[id];
    if IsRemoved(b, id) then Spend(r, b.height) else r
  }

  function ApplyBlock(t: Table, b: FullBlock): Table {
    map id | id in t.Keys + Created(b) :: EntryAfter(t, b, id)
  }

  function Replay(chain: seq<FullBlock>): Table {
    if chain == [] then map[] else ApplyBlock(Replay(chain[..|chain| - 1]), chain[|chain| - 1])
  }

  // ----- Reward claims -----

  /** Height of the last transaction block of the chain, or -1. */
  function LastTx(chain: seq<FullBlock>): (h: int)
    ensures -1 <= h < |chain|
    ensures h >= 0 ==> chain[h].tx.Some?
    ensures forall i :: h < i < |chain| ==> chain[i].tx.None?
  {
    if chain == [] then -1
    else if chain[|chain| - 1].tx.Some? then |chain| - 1
    else LastTx(chain[..|chain| - 1])
  }

  /** How many heights have had their rewards claimed: everything up to and including the
      transaction block before the last one. */
  function Claimed(chain: seq<FullBlock>): nat {
    var p := LastTx(chain);
    if p < 0 then 0 else LastTx(chain[..p]) + 1
  }

  function RewardPair(b: FullBlock, fees: nat): set<Coin> {
    {CreatePoolCoin(b.height, b.poolPuzzleHash, CalculatePoolReward(b.height)),
     CreateFarmerCoin(b.height, b.farmerPuzzleHash, CalculateBaseFarmerReward(b.height) + fees)}
  }

  /** Rewards of the blocks at heights `lo` to `hi - 1`, none of which carries fees. */
  function PlainRewards(chain: seq<FullBlock>, lo: nat, hi: nat): set<Coin>
    requires lo <= hi <= |chain|
    decreases hi
  {
    if lo == hi then {} else PlainRewards(chain, lo, hi - 1) + RewardPair(chain[hi - 1], 0)
  }

  /** What a transaction block on top of `anc` has to claim: the last transaction block with its
      fees, and the plain blocks between it and the transaction block before it. */
  function ExpectedRewards(anc: seq<FullBlock>): set<Coin> {
    var p := LastTx(anc);
    if p < 0 then {} else PlainRewards(anc, Claimed(anc), p) + RewardPair(anc[p], anc[p].tx.value.fees)
  }

  // ----- Which blocks may extend a chain -----

  /** A removal is acceptable when the coin is made by this very block, or when replaying the
      block's own ancestors leaves it present and unspent. */
  predicate Spendable(t: Table, b: FullBlock, id: CoinId) {
    IsCreated(b, id) || (id in t && !t[id].spent)
  }

  function ReserveFees(npcs: seq<Npc>): seq<int> {
    if npcs == [] then [] else ReserveFees(npcs[..|npcs| - 1]) + npcs[|npcs| - 1].reserveFees
  }

  function SumInts(s: seq<int>): int {
    if s == [] then 0 else SumInts(s[..|s| - 1]) + s[|s| - 1]
  }

  /** A time lock, against the height and time at which the spent coin was confirmed. */
  predicate ConditionHolds(c: Condition, confirmed: nat, confirmedTime: nat, prevTxHeight: nat, now: nat) {
    match c
    case HeightAbsolute(n) => prevTxHeight >= n
    case HeightRelative(n) => prevTxHeight >= n + confirmed
    case SecondsAbsolute(n) => now >= n
    case SecondsRelative(n) => now >= n + confirmedTime
  }

  predicate ConditionsHold(npc: Npc, confirmed: nat, confirmedTime: nat, prevTxHeight: nat, now: nat) {
    forall i :: 0 <= i < |npc.conditions| ==>
      ConditionHolds(npc.conditions[i], confirmed, confirmedTime, prevTxHeight, now)
  }

  /** A spend is in order when the coin is spendable, its puzzle is the one revealed and its time
      locks hold for the height and time at which this chain confirmed it. */
  predicate SpendOk(t: Table, b: FullBlock, prevTxHeight: nat, npc: Npc) {
    && Spendable(t, b, npc.coinName)
    && npc.coinName.CoinName? && npc.coinName.coin.puzzleHash == npc.puzzleHash
    && (if IsCreated(b, npc.coinName)
        then ConditionsHold(npc, b.height, Timestamp(b), prevTxHeight, Timestamp(b))
        else ConditionsHold(npc, t[npc.coinName].confirmed, t[npc.coinName].timestamp, prevTxHeight, Timestamp(b)))
  }

  function PrevTxHeight(anc: seq<FullBlock>): nat {
    if LastTx(anc) < 0 then 0 else LastTx(anc)
  }

  ghost predicate ClaimsOk(anc: seq<FullBlock>, claims: seq<Coin>) {
    (set c | c in claims) == ExpectedRewards(anc) && |claims| == |ExpectedRewards(anc)|
  }

  /** The rules for the amounts of a transaction block. */
  ghost predicate AmountsOk(b: FullBlock) {
    var adds, rems := SumCoins(Additions(b)), SumIds(Removals(b));
    && (forall c :: c in Additions(b) + Claims(b) ==> c.amount <= MAX_COIN_AMOUNT)
    && adds <= rems
    && (forall f :: f in ReserveFees(Npcs(b)) ==> f >= 0)
    && SumInts(ReserveFees(Npcs(b))) <= rems - adds
    && rems - adds + CalculateBaseFarmerReward(b.height) <= MAX_COIN_AMOUNT
    && (b.tx.Some? ==> b.tx.value.fees == rems - adds)
  }

  /** The body of `b` is valid on top of the chain `anc`. */
  ghost predicate BodyOk(anc: seq<FullBlock>, b: FullBlock) {
    b.tx.Some? ==>
      && b.tx.value.otherChecks
      && ClaimsOk(anc, Claims(b))
      && AmountsOk(b)
      && Distinct(Additions(b) + Claims(b))
      && Distinct(Removals(b))
      && forall i :: 0 <= i < |Npcs(b)| ==> SpendOk(Replay(anc), b, PrevTxHeight(anc), Npcs(b)[i])
  }

  ghost predicate StepOk(anc: seq<FullBlock>, b: FullBlock) {
    b.height == |anc| && (anc == [] ==> b.tx.Some?) && BodyOk(anc, b)
  }

  /** Every block of the chain is valid on top of the blocks before it. */
  ghost predicate ChainOk(chain: seq<FullBlock>) {
    chain == [] || (ChainOk(chain[..|chain| - 1]) && StepOk(chain[..|chain| - 1], chain[|chain| - 1]))
  }

  lemma {:induction false} ChainPrefix(chain: seq<FullBlock>, n: nat)
    requires ChainOk(chain) && n <= |chain|
    ensures ChainOk(chain[..n])
    ensures n < |chain| ==> StepOk(chain[..n], chain[n])
  {
    if n == |chain| {
      assert chain[..n] == chain;
    } else {
      var init := chain[..|chain| - 1];
      if n < |chain| - 1 {
        ChainPrefix(init, n);
      }
      assert init[..n] == chain[..n];
    }
  }

  lemma ChainExtend(chain: seq<FullBlock>, b: FullBlock)
    requires ChainOk(chain) && StepOk(chain, b)
    ensures ChainOk(chain + [b])
    ensures Replay(chain + [b]) == ApplyBlock(Replay(chain), b)
  {
    assert (chain + [b])[..|chain|] == chain;
  }
}
