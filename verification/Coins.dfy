/** Shared definitions. */
module Primitives {
  datatype Option<+T> = None | Some(value: T)

  /** Header hashes and puzzle hashes.  Only equality of hashes is ever used. */
  type Hash = nat

  ghost predicate Distinct<T(!new)>(s: seq<T>) {
    forall i, j :: 0 <= i < j < |s| ==> s[i] != s[j]
  }

  function Reverse<T>(s: seq<T>): seq<T> {
    seq(|s|, i requires 0 <= i < |s| => s[|s| - 1 - i])
  }
}

/** Coins, coin records and block rewards. */
module Coins {
  import opened Primitives

  const MTAD_PER_TAD: nat := 1_000_000_000_000
  const BLOCKS_PER_YEAR: nat := 1_681_920
  const MAX_COIN_AMOUNT: nat := 0xFFFF_FFFF_FFFF_FFFF

  /** A coin id is the hash of the coin it names, so it is modelled as an injective constructor
      applied to that coin.  The two reward parents are built from a height and one half of the
      genesis challenge each; `OtherId` stands for every byte string that is neither. */
  datatype CoinId =
    | PoolParent(height: nat)
    | FarmerParent(height: nat)
    | OtherId(tag: nat)
    | CoinName(coin: Coin)

  datatype Coin = Coin(parent: CoinId, puzzleHash: Hash, amount: nat)

  datatype CoinRecord = CoinRecord(
    coin: Coin, confirmed: nat, spentIndex: nat, spent: bool, coinbase: bool, timestamp: nat)

  function CalculatePoolReward(height: nat): nat {
    0
  }

  function CalculateBaseFarmerReward(height: nat): nat {
    if height == 0 then 300_000 * MTAD_PER_TAD
    else if height < 3 * BLOCKS_PER_YEAR then 2 * MTAD_PER_TAD
    else if height < 6 * BLOCKS_PER_YEAR then MTAD_PER_TAD
    else if height < 9 * BLOCKS_PER_YEAR then MTAD_PER_TAD / 2
    else if height < 12 * BLOCKS_PER_YEAR then MTAD_PER_TAD / 4
    else MTAD_PER_TAD
  }

  function CreatePoolCoin(height: nat, puzzleHash: Hash, reward: nat): Coin {
    Coin(PoolParent(height), puzzleHash, reward)
  }

  function CreateFarmerCoin(height: nat, puzzleHash: Hash, reward: nat): Coin {
    Coin(FarmerParent(height), puzzleHash, reward)
  }

  /** The value named by an id; ids that name no coin are worth nothing. */
  function Amount(id: CoinId): nat {
    if id.CoinName? then id.coin.amount else 0
  }

  function SumCoins(coins: seq<Coin>): nat {
    if coins == [] then 0 else SumCoins(coins[..|coins| - 1]) + coins[|coins| - 1].amount
  }

  function SumIds(ids: seq<CoinId>): nat {
    if ids == [] then 0 else SumIds(ids[..|ids| - 1]) + Amount(ids[|ids| - 1])
  }

  /** Total value of a set of ids; the order in which elements are picked does not matter,
      which `SumSetRemove` proves. */
  ghost function SumSet(ids: set<CoinId>): nat {
    if ids == {} then 0 else
      var x :| x in ids;
      Amount(x) + SumSet(ids - {x})
  }

  lemma {:induction false} SumSetRemove(ids: set<CoinId>, y: CoinId)
    requires y in ids
    ensures SumSet(ids) == Amount(y) + SumSet(ids - {y})
    decreases ids
  {
    var x :| x in ids && SumSet(ids) == Amount(x) + SumSet(ids - {x});
    if x != y {
      SumSetRemove(ids - {x}, y);
      SumSetRemove(ids - {y}, x);
      assert ids - {x} - {y} == ids - {y} - {x};
    }
  }

  lemma {:induction false} SumSetUnion(a: set<CoinId>, b: set<CoinId>)
    requires a !! b
    ensures SumSet(a + b) == SumSet(a) + SumSet(b)
    decreases b
  {
    if b == {} {
      assert a + b == a;
    } else {
      var y :| y in b;
      SumSetRemove(b, y);
      SumSetRemove(a + b, y);
      assert a + b - {y} == a + (b - {y});
      SumSetUnion(a, b - {y});
    }
  }

  ghost function IdSet(ids: seq<CoinId>): set<CoinId> {
    set id | id in ids
  }

  /** Summing a duplicate-free list is summing the set of its elements. */
  lemma {:induction false} SumDistinctIds(ids: seq<CoinId>)
    requires Distinct(ids)
    ensures SumIds(ids) == SumSet(IdSet(ids))
  {
    if ids != [] {
      var init, last := ids[..|ids| - 1], ids[|ids| - 1];
      SumDistinctIds(init);
      assert ids == init + [last];
      SumSetRemove(IdSet(ids), last);
      assert IdSet(ids) - {last} == IdSet(init);
    }
  }

  function Names(coins: seq<Coin>): (ids: seq<CoinId>)
    ensures |ids| == |coins|
    ensures forall i :: 0 <= i < |coins| ==> ids[i] == CoinName(coins[i])
  {
    seq(|coins|, i requires 0 <= i < |coins| => CoinName(coins[i]))
  }

  lemma {:induction false} SumNames(coins: seq<Coin>)
    ensures SumIds(Names(coins)) == SumCoins(coins)
  {
    if coins != [] {
      var init := coins[..|coins| - 1];
      SumNames(init);
      assert Names(coins)[..|coins| - 1] == Names(init);
    }
  }
}
