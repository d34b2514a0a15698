/** Why the peak's coin table and the difference since the fork determine the coin set of any branch. */
module ForkLookup {
  import opened Coins
  import opened Ledger
  import opened LedgerTheorems

  ghost predicate CreatedIn(chain: seq<FullBlock>, lo: nat, id: CoinId) {
    exists i :: lo <= i < |chain| && IsCreated(chain[i], id)
  }

  ghost predicate RemovedIn(chain: seq<FullBlock>, lo: nat, id: CoinId) {
    exists i :: lo <= i < |chain| && IsRemoved(chain[i], id)
  }

  lemma CreatedInSplit(chain: seq<FullBlock>, lo: nat, id: CoinId)
    requires lo < |chain|
    ensures var init, last := chain[..|chain| - 1], chain[|chain| - 1];
      && (CreatedIn(chain, lo, id) <==> CreatedIn(init, lo, id) || IsCreated(last, id))
      && (RemovedIn(chain, lo, id) <==> RemovedIn(init, lo, id) || IsRemoved(last, id))
  {
    hide IsCreated;
    hide IsRemoved;
    var init, last := chain[..|chain| - 1], chain[|chain| - 1];
    if CreatedIn(init, lo, id) {
      var i :| lo <= i < |init| && IsCreated(init[i], id);
      assert IsCreated(chain[i], id);
    }
    if RemovedIn(init, lo, id) {
      var i :| lo <= i < |init| && IsRemoved(init[i], id);
      assert IsRemoved(chain[i], id);
    }
    if CreatedIn(chain, lo, id) && !IsCreated(last, id) {
      var i :| lo <= i < |chain| && IsCreated(chain[i], id);
      assert IsCreated(init[i], id);
    }
    if RemovedIn(chain, lo, id) && !IsRemoved(last, id) {
      var i :| lo <= i < |chain| && IsRemoved(chain[i], id);
      assert IsRemoved(init[i], id);
    }
  }

  /** A chain's coins are those of its first `lo` blocks and those made since, and a coin is spent if
      it was spent there or has been removed since. */
  lemma {:induction false} ReplaySince(chain: seq<FullBlock>, lo: nat, id: CoinId)
    requires ChainOk(chain) && lo <= |chain|
    ensures id in Replay(chain) <==> id in Replay(chain[..lo]) || CreatedIn(chain, lo, id)
    ensures id in Replay(chain) ==>
      (Replay(chain)[id].spent <==> (id in Replay(chain[..lo]) && Replay(chain[..lo])[id].spent) || RemovedIn(chain, lo, id))
  {
    if lo == |chain| {
      assert chain[..lo] == chain;
    } else {
      var init, last := chain[..|chain| - 1], chain[|chain| - 1];
      assert init[..lo] == chain[..lo];
      ReplaySince(init, lo, id);
      CreatedInSplit(chain, lo, id);
      NoDuplicateCoins(init, last);
      if RemovedIn(init, lo, id) {
        var i :| lo <= i < |init| && IsRemoved(init[i], id);
        SpentStays(init, i, id);
      }
    }
  }

  /** Confirmation height and time of a record are those of the block that made the coin. */
  lemma {:induction false} BirthRecord(chain: seq<FullBlock>, i: nat, id: CoinId)
    requires ChainOk(chain) && i < |chain| && IsCreated(chain[i], id)
    ensures id in Replay(chain)
    ensures Replay(chain)[id].confirmed == i && Replay(chain)[id].timestamp == Timestamp(chain[i])
  {
    ChainHeights(chain);
    if i < |chain| - 1 {
      var init, last := chain[..|chain| - 1], chain[|chain| - 1];
      BirthRecord(init, i, id);
      NoDuplicateCoins(init, last);
    }
  }

  lemma {:induction false} RecordStays(chain: seq<FullBlock>, lo: nat, id: CoinId)
    requires ChainOk(chain) && lo <= |chain| && id in Replay(chain[..lo])
    ensures id in Replay(chain)
    ensures Replay(chain)[id].confirmed == Replay(chain[..lo])[id].confirmed
    ensures Replay(chain)[id].timestamp == Replay(chain[..lo])[id].timestamp
  {
    CreatedSomewhere(chain[..lo], id);
    var i :| 0 <= i < lo && IsCreated(chain[..lo][i], id);
    ChainPrefix(chain, lo);
    BirthRecord(chain[..lo], i, id);
    BirthRecord(chain, i, id);
  }

  /** What the node can see: the table of the peak's chain and the changes since the fork. */
  ghost predicate SeesSpendable(t: Table, chain: seq<FullBlock>, fork: int, id: CoinId)
    requires -1 <= fork < |chain|
  {
    && (if id in t && t[id].confirmed <= fork
        then !(t[id].spent && t[id].spentIndex <= fork)
        else CreatedIn(chain, fork + 1, id))
    && !RemovedIn(chain, fork + 1, id)
  }

  /** Below the fork the peak's table, read through the fork height, is the branch's own table. */
  lemma TableBelowFork(peakChain: seq<FullBlock>, chain: seq<FullBlock>, fork: int, id: CoinId)
    requires ChainOk(peakChain) && -1 <= fork < |chain| && fork < |peakChain|
    requires peakChain[..fork + 1] == chain[..fork + 1]
    ensures var t, p := Replay(peakChain), Replay(chain[..fork + 1]);
      && (id in p <==> id in t && t[id].confirmed <= fork)
      && (id in p ==> p[id].spent == (t[id].spent && t[id].spentIndex <= fork))
      && (id in p ==> p[id].confirmed == t[id].confirmed && p[id].timestamp == t[id].timestamp)
  {
    ChainTable(peakChain);
    RollbackUndoes(peakChain, fork);
  }

  /** Fork-aware spend checking is exact: looking only at the peak's table and at the branch since any
      common ancestor decides whether the coin is present and unspent after replaying the branch. */
  lemma ForkLookupIsExact(peakChain: seq<FullBlock>, chain: seq<FullBlock>, fork: int, id: CoinId)
    requires ChainOk(peakChain) && ChainOk(chain) && -1 <= fork < |chain| && fork < |peakChain|
    requires peakChain[..fork + 1] == chain[..fork + 1]
    ensures SeesSpendable(Replay(peakChain), chain, fork, id) <==> id in Replay(chain) && !Replay(chain)[id].spent
  {
    hide Replay;
    hide ChainOk;
    TableBelowFork(peakChain, chain, fork, id);
    ReplaySince(chain, fork + 1, id);
  }

  /** The record the node uses for a spend has the confirmation height and time of the branch. */
  lemma ForkRecordIsExact(peakChain: seq<FullBlock>, chain: seq<FullBlock>, fork: int, id: CoinId)
    requires ChainOk(peakChain) && ChainOk(chain) && -1 <= fork < |chain| && fork < |peakChain|
    requires peakChain[..fork + 1] == chain[..fork + 1]
    requires id in Replay(peakChain) && Replay(peakChain)[id].confirmed <= fork
    ensures id in Replay(chain)
    ensures Replay(chain)[id].confirmed == Replay(peakChain)[id].confirmed
    ensures Replay(chain)[id].timestamp == Replay(peakChain)[id].timestamp
  {
    hide Replay;
    hide ChainOk;
    var n: nat := fork + 1;
    assert id in Replay(chain[..n]) && Replay(chain[..n])[id].confirmed == Replay(peakChain)[id].confirmed
        && Replay(chain[..n])[id].timestamp == Replay(peakChain)[id].timestamp by {
      TableBelowFork(peakChain, chain, fork, id);
    }
    RecordStays(chain, n, id);
  }
}
