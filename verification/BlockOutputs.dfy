/** What the spends of a block create: every output of every spend, once and in order. */
module BlockOutputs {
  import opened Primitives
  import opened Coins
  import opened Ledger

  /** The coin that output `j` of spend `i` makes. */
  function OutputCoin(npcs: seq<Npc>, i: nat, j: nat): Coin
    requires i < |npcs| && j < |npcs[i].outputs|
  {
    Coin(npcs[i].coinName, npcs[i].outputs[j].puzzleHash, npcs[i].outputs[j].amount)
  }

  ghost predicate IsOutput(npcs: seq<Npc>, i: nat, j: nat, c: Coin) {
    i < |npcs| && j < |npcs[i].outputs| && c == OutputCoin(npcs, i, j)
  }

  /** Number of outputs of all spends. */
  function OutputCount(npcs: seq<Npc>): nat {
    if npcs == [] then 0 else |npcs[0].outputs| + OutputCount(npcs[1..])
  }

  /** Sum of the amounts of outputs. */
  function OutputAmounts(outputs: seq<Output>): nat {
    if outputs == [] then 0 else outputs[0].amount + OutputAmounts(outputs[1..])
  }

  function OutputTotal(npcs: seq<Npc>): nat {
    if npcs == [] then 0 else OutputAmounts(npcs[0].outputs) + OutputTotal(npcs[1..])
  }

  lemma {:induction false} CountAppend(npcs: seq<Npc>, npc: Npc)
    ensures OutputCount(npcs + [npc]) == OutputCount(npcs) + |npc.outputs|
  {
    if npcs == [] {
      assert (npcs + [npc])[1..] == [];
    } else {
      CountAppend(npcs[1..], npc);
      assert (npcs + [npc])[1..] == npcs[1..] + [npc];
    }
  }

  lemma {:induction false} TotalAppend(npcs: seq<Npc>, npc: Npc)
    ensures OutputTotal(npcs + [npc]) == OutputTotal(npcs) + OutputAmounts(npc.outputs)
  {
    if npcs == [] {
      assert (npcs + [npc])[1..] == [];
    } else {
      TotalAppend(npcs[1..], npc);
      assert (npcs + [npc])[1..] == npcs[1..] + [npc];
    }
  }

  /** As many coins are made as there are outputs. */
  lemma {:induction false} AdditionsCount(npcs: seq<Npc>)
    ensures |AdditionsForNpc(npcs)| == OutputCount(npcs)
  {
    if npcs != [] {
      var init, last := npcs[..|npcs| - 1], npcs[|npcs| - 1];
      AdditionsCount(init);
      CountAppend(init, last);
      assert npcs == init + [last];
    }
  }

  lemma LastOutputs(npc: Npc)
    ensures |Outputs(npc)| == |npc.outputs|
    ensures forall j: nat :: j < |npc.outputs| ==> Outputs(npc)[j] == OutputCoin([npc], 0, j)
  {
  }

  /** The coins of spend `i` come behind those of the spends before it, in the order of its outputs. */
  lemma {:induction false} AdditionsAt(npcs: seq<Npc>, i: nat, j: nat)
    requires i < |npcs| && j < |npcs[i].outputs|
    ensures OutputCount(npcs[..i]) + j < |AdditionsForNpc(npcs)|
    ensures AdditionsForNpc(npcs)[OutputCount(npcs[..i]) + j] == OutputCoin(npcs, i, j)
  {
    hide OutputCount;
    hide Outputs;
    var init, last := npcs[..|npcs| - 1], npcs[|npcs| - 1];
    AdditionsCount(init);
    LastOutputs(last);
    if i < |init| {
      AdditionsAt(init, i, j);
      assert init[..i] == npcs[..i];
    }
  }

  /** And there are no others. */
  lemma {:induction false} AdditionIsOutput(npcs: seq<Npc>, k: nat) returns (i: nat, j: nat)
    requires k < |AdditionsForNpc(npcs)|
    ensures IsOutput(npcs, i, j, AdditionsForNpc(npcs)[k]) && k == OutputCount(npcs[..i]) + j
  {
    var init := npcs[..|npcs| - 1];
    AdditionsCount(init);
    if k < |AdditionsForNpc(init)| {
      i, j := AdditionIsOutput(init, k);
      assert init[..i] == npcs[..i];
    } else {
      i, j := |init|, k - |AdditionsForNpc(init)|;
    }
  }

  /** A block creates exactly the outputs of its spends. */
  lemma AdditionsAre(b: FullBlock, c: Coin)
    ensures c in Additions(b) <==> exists i: nat, j: nat :: IsOutput(Npcs(b), i, j, c)
  {
    var npcs := Npcs(b);
    if c in Additions(b) {
      var k :| 0 <= k < |Additions(b)| && Additions(b)[k] == c;
      var i, j := AdditionIsOutput(npcs, k);
    }
    if i: nat, j: nat :| IsOutput(npcs, i, j, c) {
      AdditionsAt(npcs, i, j);
    }
  }

  lemma {:induction false} SumCoinsAppend(a: seq<Coin>, b: seq<Coin>)
    ensures SumCoins(a + b) == SumCoins(a) + SumCoins(b)
  {
    if b == [] {
      assert a + b == a;
    } else {
      SumCoinsAppend(a, b[..|b| - 1]);
      assert (a + b)[..|a + b| - 1] == a + b[..|b| - 1];
    }
  }

  lemma {:induction false} SumOutputs(npc: Npc)
    ensures SumCoins(Outputs(npc)) == OutputAmounts(npc.outputs)
    decreases |npc.outputs|
  {
    if npc.outputs != [] {
      var head, tail := Coin(npc.coinName, npc.outputs[0].puzzleHash, npc.outputs[0].amount), npc.(outputs := npc.outputs[1..]);
      SumOutputs(tail);
      SumCoinsAppend([head], Outputs(tail));
      assert SumCoins([head]) == head.amount by { assert [head][..0] == []; }
      assert Outputs(npc) == [head] + Outputs(tail);
    }
  }

  lemma NoCoins()
    ensures SumCoins([]) == 0
  {
  }

  /** The value a block creates is the sum of the amounts of all outputs. */
  lemma {:induction false} AdditionsSum(npcs: seq<Npc>)
    ensures SumCoins(AdditionsForNpc(npcs)) == OutputTotal(npcs)
  {
    hide SumCoins;
    hide Outputs;
    if npcs == [] {
      NoCoins();
    } else {
      var init, last := npcs[..|npcs| - 1], npcs[|npcs| - 1];
      AdditionsSum(init);
      SumCoinsAppend(AdditionsForNpc(init), Outputs(last));
      SumOutputs(last);
      TotalAppend(init, last);
      assert npcs == init + [last];
    }
  }

  /** The names removed and the coins added by the spends, as collected spend by spend and output by output. */
  method TxRemovalsAndAdditions(npcs: seq<Npc>) returns (removals: seq<CoinId>, additions: seq<Coin>)
    ensures removals == RemovalNames(npcs) && additions == AdditionsForNpc(npcs)
  {
    removals, additions := [], [];
    for i := 0 to |npcs|
      invariant |removals| == i && forall k :: 0 <= k < i ==> removals[k] == npcs[k].coinName
    {
      removals := removals + [npcs[i].coinName];
    }
    for i := 0 to |npcs|
      invariant additions == AdditionsForNpc(npcs[..i])
    {
      ghost var before := additions;
      for j := 0 to |npcs[i].outputs|
        invariant additions == before + Outputs(npcs[i])[..j]
      {
        additions := additions + [OutputCoin(npcs, i, j)];
      }
      assert npcs[..i + 1][..i] == npcs[..i];
    }
    assert npcs[..|npcs|] == npcs;
  }
}
