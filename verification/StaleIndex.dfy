/** A run of the node after which generator references go to the wrong chain.  Two branches part above genesis.
    Their blocks are those of the two header chains of `SampleChain`: from height 46 on a block of the new
    branch counts three times as much as one of the old branch, so a shorter new branch outweighs the old one. */
module StaleIndex {
  import opened Primitives
  import opened Coins
  import opened Ledger
  import opened Chains
  import opened BlockStores
  import opened Blockchains
  import opened Generators
  import opened GeneratedSpends
  import opened SampleChain

  const OLD_GENERATOR: Hash := 101
  const NEW_GENERATOR: Hash := 202
  const CHILD_GENERATOR: Hash := 303
  const ORPHAN_GENERATOR: Hash := 404

  const GENESIS_HASH: Hash := 1
  const OLD_TOP: nat := 49  // height of the old branch
  const NEW_TOP: nat := 47  // height of the new branch
  const ORPHAN_HASH: Hash := 104
  const NEW_FIRST: Hash := 3  // first block of the new branch

  function Genesis(): FullBlock {
    FullBlock(GENESIS_HASH, 0, 0, WeightAt(false, 0), 0, 0, Some(TxData(0, 0, 0, [], [], true)), None, None, [])
  }

  /** Claims the two rewards of the parent. */
  function RewardTx(h: nat, prev: Hash, time: nat): TxData
    requires h > 0
  {
    TxData(time, prev, 0,
           [CreatePoolCoin(h - 1, 0, CalculatePoolReward(h - 1)),
            CreateFarmerCoin(h - 1, 0, CalculateBaseFarmerReward(h - 1))], [], true)
  }

  /** A transaction block with weight, time and summary of a header chain. */
  function BranchBlock(fast: bool, hash: Hash, prev: Hash, h: nat): FullBlock
    requires h > 0
  {
    FullBlock(hash, prev, h, WeightAt(fast, h), 0, 0, Some(RewardTx(h, prev, TimeAt(fast, h))),
              if Summarizes(h) then Some(h) else None, None, [])
  }

  function OldBlock(h: nat): FullBlock
    requires h > 0
  {
    BranchBlock(false, 2 * h, if h == 1 then GENESIS_HASH else 2 * (h - 1), h)
      .(generator := if h == 1 then Some(OLD_GENERATOR) else None)
  }

  function NewBlock(h: nat): FullBlock
    requires h > 0
  {
    BranchBlock(true, 2 * h + 1, 2 * (h - 1) + 1, h).(generator := if h == 1 then Some(NEW_GENERATOR) else None)
  }

  /** A second block at the height of the old branch, with a reference to height 1. */
  function Orphan(): FullBlock {
    BranchBlock(false, ORPHAN_HASH, 2 * (OLD_TOP - 1), OLD_TOP).(generator := Some(ORPHAN_GENERATOR), generatorRefs := [1])
  }

  /** On top of the old branch, with a reference to height 1. */
  function Child(): FullBlock {
    BranchBlock(false, 2 * (OLD_TOP + 1), 2 * OLD_TOP, OLD_TOP + 1)
      .(generator := Some(CHILD_GENERATOR), generatorRefs := [1])
  }

  /** On top of the orphan, without a generator. */
  function OrphanChild(): FullBlock {
    BranchBlock(false, ORPHAN_HASH + 2, ORPHAN_HASH, OLD_TOP + 1)
  }

  // ----- The headers -----

  /** The block has weight, time and summary of the header, and both are transaction blocks. */
  predicate HasHeader(b: FullBlock, r: HeaderChains.HeaderRec) {
    && b.weight == r.weight && (b.tx.Some? <==> r.isTx) && Timestamp(b) == r.timestamp && (b.ses.Some? <==> r.ses)
  }

  /** All these blocks have the headers of two valid chains with the rates that the rules give. */
  lemma HeadersAreRated(k: Retarget.RateConstants, slow: seq<HeaderChains.HeaderRec>, fast: seq<HeaderChains.HeaderRec>)
    requires k == SmallRates() && slow == Sample(false, OLD_TOP + 2) && fast == Sample(true, NEW_TOP + 1)
    ensures Retarget.RatesOk(k) && Retarget.RatedChain(k, slow) && Retarget.RatedChain(k, fast)
    ensures HasHeader(Genesis(), slow[0]) && HasHeader(Genesis(), fast[0]) && slow[0] == fast[0]
    ensures forall h: nat :: 0 < h <= OLD_TOP ==> HasHeader(OldBlock(h), slow[h])
    ensures forall h: nat :: 0 < h <= NEW_TOP ==> HasHeader(NewBlock(h), fast[h])
    ensures HasHeader(Orphan(), slow[OLD_TOP])
    ensures HasHeader(Child(), slow[OLD_TOP + 1]) && HasHeader(OrphanChild(), slow[OLD_TOP + 1])
  {
    hide Retarget.RatedChain;
    hide Retarget.RatesOk;
    hide Sample;
    SampleIsRated(false, OLD_TOP + 2);
    SampleIsRated(true, NEW_TOP + 1);
  }

  // ----- The store along the run -----

  /** The store holds genesis, `a` blocks of the old branch, `b` of the new one, and perhaps the orphan. */
  ghost predicate Holds(s: BlockStore, a: nat, b: nat) {
    && GENESIS_HASH in s && s[GENESIS_HASH] == Genesis()
    && (forall i: nat :: 1 <= i <= a ==> HasOld(s, i))
    && (forall i: nat :: 1 <= i <= b ==> HasNew(s, i))
    && (forall h :: h in s && h != ORPHAN_HASH && h != GENESIS_HASH ==>
          if h % 2 == 0 then 2 <= h <= 2 * a else h <= 2 * b + 1)
  }

  ghost predicate HasOld(s: BlockStore, i: nat)
    requires i > 0
  {
    2 * i in s && s[2 * i] == OldBlock(i)
  }

  ghost predicate HasNew(s: BlockStore, i: nat)
    requires i > 0
  {
    2 * i + 1 in s && s[2 * i + 1] == NewBlock(i)
  }

  ghost predicate HasOrphan(s: BlockStore) {
    ORPHAN_HASH in s && s[ORPHAN_HASH] == Orphan()
  }

  lemma OldHash(i: nat)
    requires i > 0
    ensures OldBlock(i).headerHash == 2 * i && OldBlock(i).height == i
    ensures OldBlock(i).prevHash == if i == 1 then GENESIS_HASH else 2 * (i - 1)
  {
  }

  lemma NewHash(i: nat)
    requires i > 0
    ensures NewBlock(i).headerHash == 2 * i + 1 && NewBlock(i).height == i && NewBlock(i).prevHash == 2 * (i - 1) + 1
  {
  }

  lemma OldHeld(s: BlockStore, a: nat, b: nat)
    requires Holds(s, a, b) && a < OLD_TOP
    ensures var block := OldBlock(a + 1);
      block.headerHash !in s && block.headerHash != ORPHAN_HASH && Holds(s[block.headerHash := block], a + 1, b)
  {
    hide OldBlock;
    hide NewBlock;
    hide Genesis;
    OldHash(a + 1);
    var s' := s[2 * (a + 1) := OldBlock(a + 1)];
    forall i: nat | 1 <= i <= a + 1 ensures HasOld(s', i) {
      assert i <= a ==> HasOld(s, i);
    }
    forall i: nat | 1 <= i <= b ensures HasNew(s', i) {
      assert HasNew(s, i);
    }
  }

  lemma NewHeld(s: BlockStore, a: nat, b: nat)
    requires Holds(s, a, b)
    ensures var block := NewBlock(b + 1); block.headerHash !in s && Holds(s[block.headerHash := block], a, b + 1)
    ensures HasOrphan(s) ==> HasOrphan(s[NewBlock(b + 1).headerHash := NewBlock(b + 1)])
  {
    hide OldBlock;
    hide NewBlock;
    hide Genesis;
    NewHash(b + 1);
    var s' := s[2 * (b + 1) + 1 := NewBlock(b + 1)];
    forall i: nat | 1 <= i <= a ensures HasOld(s', i) {
      assert HasOld(s, i);
    }
    forall i: nat | 1 <= i <= b + 1 ensures HasNew(s', i) {
      assert i <= b ==> HasNew(s, i);
    }
  }

  lemma OrphanHeld(s: BlockStore)
    requires Holds(s, OLD_TOP, 0)
    ensures var s' := s[ORPHAN_HASH := Orphan()]; Holds(s', OLD_TOP, 0) && HasOrphan(s')
  {
    hide OldBlock;
    hide NewBlock;
    hide Genesis;
    var s' := s[ORPHAN_HASH := Orphan()];
    forall i: nat | 1 <= i <= OLD_TOP ensures HasOld(s', i) {
      assert HasOld(s, i);
    }
  }

  // ----- Ancestries -----

  lemma {:induction false} OldAncestry(s: BlockStore, a: nat, b: nat, i: nat)
    requires Linked(s) && Holds(s, a, b) && 1 <= i <= a + 1
    ensures Attached(s, OldBlock(i)) && |Ancestry(s, OldBlock(i))| == i + 1 && Ancestry(s, OldBlock(i))[0] == Genesis()
    ensures forall k: nat :: 1 <= k <= i ==> Ancestry(s, OldBlock(i))[k] == OldBlock(k)
    decreases i
  {
    hide Holds;
    hide OldBlock;
    hide Genesis;
    OldHash(i);
    if i > 1 {
      HeldAt(s, a, b, i - 1);
      OldAncestry(s, a, b, i - 1);
      assert Ancestry(s, OldBlock(i)) == Ancestry(s, OldBlock(i - 1)) + [OldBlock(i)];
    } else {
      GenesisHeld(s, a, b);
      assert Ancestry(s, OldBlock(1)) == Ancestry(s, Genesis()) + [OldBlock(1)];
    }
  }

  lemma {:induction false} NewAncestry(s: BlockStore, a: nat, b: nat, i: nat)
    requires Linked(s) && Holds(s, a, b) && 1 <= i <= b + 1
    ensures Attached(s, NewBlock(i)) && |Ancestry(s, NewBlock(i))| == i + 1 && Ancestry(s, NewBlock(i))[0] == Genesis()
    ensures forall k: nat :: 1 <= k <= i ==> Ancestry(s, NewBlock(i))[k] == NewBlock(k)
    decreases i
  {
    hide Holds;
    hide NewBlock;
    hide Genesis;
    NewHash(i);
    if i > 1 {
      HeldAt(s, a, b, i - 1);
      NewAncestry(s, a, b, i - 1);
      assert Ancestry(s, NewBlock(i)) == Ancestry(s, NewBlock(i - 1)) + [NewBlock(i)];
    } else {
      GenesisHeld(s, a, b);
      assert Ancestry(s, NewBlock(1)) == Ancestry(s, Genesis()) + [NewBlock(1)];
    }
  }

  /** A block on top of height `i` of the old branch. */
  lemma OnOldBranch(s: BlockStore, a: nat, b: nat, block: FullBlock, i: nat)
    requires Linked(s) && Holds(s, a, b) && 1 <= i <= a && block.height == i + 1 && block.prevHash == 2 * i
    ensures Attached(s, block) && s[block.prevHash] == OldBlock(i)
    ensures |Parents(s, block)| == i + 1 && Parents(s, block)[0] == Genesis()
    ensures forall k: nat :: 1 <= k <= i ==> Parents(s, block)[k] == OldBlock(k)
  {
    hide OldBlock;
    hide Holds;
    OldHash(i);
    assert HasOld(s, i) by { HeldAt(s, a, b, i); }
    OldAncestry(s, a, b, i);
  }

  lemma HeldAt(s: BlockStore, a: nat, b: nat, i: nat)
    requires Holds(s, a, b) && 1 <= i
    ensures i <= a ==> HasOld(s, i)
    ensures i <= b ==> HasNew(s, i)
  {
  }

  lemma GenesisHeld(s: BlockStore, a: nat, b: nat)
    requires Holds(s, a, b)
    ensures GENESIS_HASH in s && s[GENESIS_HASH] == Genesis() && Genesis().height == 0
    ensures Linked(s) ==> Ancestry(s, Genesis()) == [Genesis()]
  {
  }

  // ----- The blocks are valid -----

  lemma GenesisBody()
    ensures BodyOk([], Genesis())
  {
    var g := Genesis();
    assert Additions(g) == [] && Removals(g) == [];
    assert (set c | c in Claims(g)) == {} == ExpectedRewards([]);
  }

  /** A transaction block without fees, rewarding the puzzle hash 0. */
  predicate Rewarding(b: FullBlock, h: nat) {
    b.height == h && b.poolPuzzleHash == 0 && b.farmerPuzzleHash == 0 && b.tx.Some? && b.tx.value.fees == 0
  }

  /** On top of such blocks only the last rewards are due. */
  lemma LastRewardsDue(anc: seq<FullBlock>)
    requires anc != [] && forall k: nat :: k < |anc| ==> Rewarding(anc[k], k)
    ensures LastTx(anc) == |anc| - 1 && ExpectedRewards(anc) == RewardPair(anc[|anc| - 1], 0)
  {
    var p := |anc| - 1;
    assert Rewarding(anc[p], p);
    assert p > 0 ==> anc[..p][p - 1].tx.Some? && LastTx(anc[..p]) == p - 1 by {
      assert p > 0 ==> Rewarding(anc[p - 1], p - 1);
    }
  }

  lemma RewardBody(anc: seq<FullBlock>, b: FullBlock, time: nat)
    requires anc != [] && forall k: nat :: k < |anc| ==> Rewarding(anc[k], k)
    requires b.height == |anc| && b.tx == Some(RewardTx(|anc|, b.prevHash, time))
    ensures BodyOk(anc, b) && LastTx(anc) == |anc| - 1
  {
    hide Replay;
    hide ExpectedRewards;
    hide LastTx;
    LastRewardsDue(anc);
    assert Rewarding(anc[|anc| - 1], |anc| - 1);
    assert Additions(b) == [] && Removals(b) == [];
    var claims := Claims(b);
    assert (set c | c in claims) == {claims[0], claims[1]} == RewardPair(anc[|anc| - 1], 0);
    assert |{claims[0], claims[1]}| == 2;
  }

  lemma RewardAccepted(s: BlockStore, b: FullBlock, time: nat, difficulty: nat)
    requires Linked(s) && Attached(s, b) && b.height > 0 && b.tx == Some(RewardTx(b.height, b.prevHash, time))
    requires forall k: nat :: k < b.height ==> Rewarding(Parents(s, b)[k], k)
    requires b.weight == s[b.prevHash].weight + difficulty
    ensures HeaderOk(s, b, difficulty, true) && BodyOk(Parents(s, b), b)
  {
    hide BodyOk;
    hide RewardTx;
    hide LastTx;
    RewardBody(Parents(s, b), b, time);
    AncestryStep(s, b, b.height);
    assert RewardTx(b.height, b.prevHash, time).prevTxHash == b.prevHash by { PrevIsTx(b.height, b.prevHash, time); }
  }

  lemma PrevIsTx(h: nat, prev: Hash, time: nat)
    requires h > 0
    ensures RewardTx(h, prev, time).prevTxHash == prev
  {
  }

  function Difficulty(fast: bool, h: nat): nat {
    if fast && h >= FIRST then 6 else 2
  }

  /** Any block with a header of the old chain, on top of the old branch. */
  lemma OldAccepted(s: BlockStore, a: nat, b: nat, block: FullBlock, i: nat)
    requires Linked(s) && Holds(s, a, b) && 1 <= i <= a && block.height == i + 1 && block.prevHash == 2 * i
    requires block.weight == WeightAt(false, i + 1) && block.tx == Some(RewardTx(i + 1, 2 * i, TimeAt(false, i + 1)))
    ensures Attached(s, block) && HeaderOk(s, block, 2, true) && BodyOk(Parents(s, block), block)
  {
    hide HeaderOk;
    hide BodyOk;
    hide Parents;
    hide Holds;
    OnOldBranch(s, a, b, block, i);
    forall k: nat | k <= i ensures Rewarding(Parents(s, block)[k], k) {
    }
    RewardAccepted(s, block, TimeAt(false, i + 1), 2);
  }

  /** The first block of either branch. */
  lemma FirstAccepted(s: BlockStore, a: nat, b: nat, block: FullBlock, fast: bool)
    requires Linked(s) && Holds(s, a, b) && block.height == 1 && block.prevHash == GENESIS_HASH
    requires block.weight == WeightAt(fast, 1) && block.tx == Some(RewardTx(1, GENESIS_HASH, TimeAt(fast, 1)))
    ensures Attached(s, block) && HeaderOk(s, block, 2, true) && BodyOk(Parents(s, block), block)
  {
    hide HeaderOk;
    hide BodyOk;
    assert Parents(s, block) == [Genesis()];
    RewardAccepted(s, block, TimeAt(fast, 1), 2);
  }

  lemma NextOld(s: BlockStore, a: nat, b: nat)
    requires Linked(s) && Holds(s, a, b) && a < OLD_TOP
    ensures var block := OldBlock(a + 1); Attached(s, block) && HeaderOk(s, block, 2, true) && BodyOk(Parents(s, block), block)
  {
    hide HeaderOk;
    hide BodyOk;
    hide Parents;
    hide Holds;
    if a == 0 {
      FirstAccepted(s, a, b, OldBlock(a + 1), false);
    } else {
      OldAccepted(s, a, b, OldBlock(a + 1), a);
    }
  }

  lemma NextNew(s: BlockStore, a: nat, b: nat)
    requires Linked(s) && Holds(s, a, b)
    ensures var block := NewBlock(b + 1);
      Attached(s, block) && HeaderOk(s, block, Difficulty(true, b + 1), true) && BodyOk(Parents(s, block), block)
  {
    hide HeaderOk;
    hide BodyOk;
    hide Holds;
    hide Ancestry;
    var block := NewBlock(b + 1);
    if b == 0 {
      FirstAccepted(s, a, b, block, true);
    } else {
      HeldAt(s, a, b, b);
      NewAncestry(s, a, b, b);
      forall k: nat | k <= b ensures Rewarding(Parents(s, block)[k], k) {
      }
      RewardAccepted(s, block, TimeAt(true, b + 1), Difficulty(true, b + 1));
    }
  }

  // ----- The run -----

  /** One block of a branch: nothing but the store, the peak and the index is of interest here. */
  method Receive(node: Blockchain, block: FullBlock, difficulty: nat) returns (result: ReceiveBlockResult)
    requires node.Valid() && difficulty >= 1
    requires block.headerHash !in node.store && Attached(node.store, block) && Linked(node.store)
    requires HeaderOk(node.store, block, difficulty, true) && BodyOk(Parents(node.store, block), block)
    modifies node, node.coinStore, node.coinStore.cache
    ensures node.Valid() && Linked(node.store) && node.store == old(node.store)[block.headerHash := block]
    ensures old(node.dbPeak).Some? ==> old(node.dbPeak).value in old(node.store)
    ensures if old(node.dbPeak).None? || block.weight > old(node.store)[old(node.dbPeak).value].weight
      then node.dbPeak == Some(block.headerHash)
        && node.heightToHash == old(node.heightToHash) + HashesOf(Ancestry(old(node.store), block))
      else node.dbPeak == old(node.dbPeak) && node.heightToHash == old(node.heightToHash)
  {
    hide NodeOk;
    hide HeaderOk;
    hide BodyOk;
    hide Ancestry;
    hide HashesOf;
    hide Linked;
    hide Attached;
    hide Parents;
    StateLinked(node.State());
    result := node.ReceiveBlock(block, difficulty, true, None);
    StateLinked(node.State());
  }

  lemma EmptyStore()
    ensures Linked(map[]) && Attached(map[], Genesis()) && Parents(map[], Genesis()) == []
    ensures HeaderOk(map[], Genesis(), 1, true) && BodyOk(Parents(map[], Genesis()), Genesis())
    ensures Holds(map[GENESIS_HASH := Genesis()], 0, 0) && Genesis().headerHash == GENESIS_HASH
  {
    GenesisBody();
  }

  /** The index names the block of the old branch at this height. */
  predicate NamesOld(heightToHash: map<nat, Hash>, h: nat) {
    h in heightToHash && heightToHash[h] == 2 * h
  }

  lemma Indexed(index: map<nat, Hash>, c: seq<FullBlock>, h: nat)
    ensures var index' := index + HashesOf(c);
      if h < |c| then h in index' && index'[h] == c[h].headerHash
      else (h in index' <==> h in index) && (h in index ==> index'[h] == index[h])
  {
  }

  /** The next block of the old branch becomes the peak, and the index follows. */
  lemma OldOvertakes(s: BlockStore, index: map<nat, Hash>, a: nat, peak: Hash)
    requires Linked(s) && Holds(s, a, 0) && a < OLD_TOP && peak == (if a == 0 then GENESIS_HASH else 2 * a)
    ensures peak in s && OldBlock(a + 1).weight > s[peak].weight && OldBlock(a + 1).headerHash == 2 * (a + 1)
    ensures Attached(s, OldBlock(a + 1))
    ensures var index' := index + HashesOf(Ancestry(s, OldBlock(a + 1))); forall h: nat :: 0 < h <= a + 1 ==> NamesOld(index', h)
  {
    hide Ancestry;
    hide Holds;
    hide HashesOf;
    OldAncestry(s, a, 0, a + 1);
    GenesisHeld(s, a, 0);
    if a > 0 {
      HeldAt(s, a, 0, a);
    }
    var c := Ancestry(s, OldBlock(a + 1));
    var index' := index + HashesOf(c);
    forall h: nat | 0 < h <= a + 1 ensures NamesOld(index', h) {
      Indexed(index, c, h);
    }
  }

  /** Receives genesis and the old branch. */
  method OldBranch() returns (node: Blockchain)
    ensures fresh(node) && fresh(node.coinStore) && fresh(node.coinStore.cache)
    ensures node.Valid() && Linked(node.store) && Holds(node.store, OLD_TOP, 0) && node.dbPeak == Some(2 * OLD_TOP)
    ensures ORPHAN_HASH !in node.store
    ensures forall h: nat :: 0 < h <= OLD_TOP ==> NamesOld(node.heightToHash, h)
  {
    hide NodeOk;
    hide HeaderOk;
    hide BodyOk;
    hide Ancestry;
    hide HashesOf;
    hide Linked;
    hide Attached;
    hide Parents;
    hide Holds;
    hide OldBlock;
    hide Genesis;
    hide NamesOld;
    node := new Blockchain(0);
    EmptyStore();
    StateLinked(node.State());
    var first := Receive(node, Genesis(), 1);
    for a := 0 to OLD_TOP
      invariant node.Valid() && Linked(node.store) && Holds(node.store, a, 0) && ORPHAN_HASH !in node.store
      invariant fresh(node) && fresh(node.coinStore) && fresh(node.coinStore.cache)
      invariant node.dbPeak == Some(if a == 0 then GENESIS_HASH else 2 * a)
      invariant forall h: nat :: 0 < h <= a ==> NamesOld(node.heightToHash, h)
    {
      NextOld(node.store, a, 0);
      OldHeld(node.store, a, 0);
      OldOvertakes(node.store, node.heightToHash, a, if a == 0 then GENESIS_HASH else 2 * a);
      var r := Receive(node, OldBlock(a + 1), 2);
    }
  }

  /** The orphan is as heavy as the peak, and no heavier. */
  lemma OrphanAccepted(s: BlockStore)
    requires Linked(s) && Holds(s, OLD_TOP, 0)
    ensures var block := Orphan();
      && block.headerHash == ORPHAN_HASH && Attached(s, block)
      && HeaderOk(s, block, 2, true) && BodyOk(Parents(s, block), block)
    ensures 2 * OLD_TOP in s && Orphan().weight <= s[2 * OLD_TOP].weight
  {
    hide HeaderOk;
    hide BodyOk;
    hide Parents;
    hide Holds;
    hide Linked;
    OldAccepted(s, OLD_TOP, 0, Orphan(), OLD_TOP - 1);
    HeldAt(s, OLD_TOP, 0, OLD_TOP);
  }

  /** Only the last block of the new branch outweighs the old one; the index keeps its entries above. */
  lemma NewOvertakes(s: BlockStore, index: map<nat, Hash>, b: nat)
    requires Linked(s) && Holds(s, OLD_TOP, b) && b < NEW_TOP
    ensures 2 * OLD_TOP in s && NewBlock(b + 1).headerHash == 2 * (b + 1) + 1
    ensures NewBlock(b + 1).weight > s[2 * OLD_TOP].weight <==> b + 1 == NEW_TOP
    ensures Attached(s, NewBlock(b + 1))
    ensures var index' := index + HashesOf(Ancestry(s, NewBlock(b + 1)));
      && 1 in index' && index'[1] == NEW_FIRST
      && forall h: nat :: h > NEW_TOP && NamesOld(index, h) ==> NamesOld(index', h)
  {
    hide Ancestry;
    hide Holds;
    hide HashesOf;
    NewAncestry(s, OLD_TOP, b, b + 1);
    HeldAt(s, OLD_TOP, b, OLD_TOP);
    var c := Ancestry(s, NewBlock(b + 1));
    var index' := index + HashesOf(c);
    Indexed(index, c, 1);
    forall h: nat | h > NEW_TOP && NamesOld(index, h) ensures NamesOld(index', h) {
      Indexed(index, c, h);
    }
  }

  /** The state after the run: the new branch has overtaken the old one, whose two highest entries are stale. */
  ghost predicate AfterRun(n: NodeState) {
    && Linked(n.store) && Holds(n.store, OLD_TOP, NEW_TOP) && HasOrphan(n.store)
    && n.peak == Some(2 * NEW_TOP + 1)
    && 1 in n.heightToHash && n.heightToHash[1] == NEW_FIRST
    && NamesOld(n.heightToHash, OLD_TOP - 1) && NamesOld(n.heightToHash, OLD_TOP)
  }

  /** Receives the old branch, the orphan and the new branch. */
  method Run() returns (node: Blockchain)
    ensures fresh(node) && fresh(node.coinStore) && fresh(node.coinStore.cache)
    ensures node.Valid() && AfterRun(node.State())
  {
    hide NodeOk;
    hide HeaderOk;
    hide BodyOk;
    hide Ancestry;
    hide HashesOf;
    hide Linked;
    hide Attached;
    hide Parents;
    hide Holds;
    hide HasOrphan;
    hide OldBlock;
    hide NewBlock;
    hide Orphan;
    hide NamesOld;
    node := OldBranch();
    OrphanAccepted(node.store);
    OrphanHeld(node.store);
    var orphaned := Receive(node, Orphan(), 2);
    for b := 0 to NEW_TOP
      invariant node.Valid() && Linked(node.store) && Holds(node.store, OLD_TOP, b) && HasOrphan(node.store)
      invariant fresh(node) && fresh(node.coinStore) && fresh(node.coinStore.cache)
      invariant node.dbPeak == Some(if b < NEW_TOP then 2 * OLD_TOP else 2 * b + 1)
      invariant forall h: nat :: NEW_TOP < h <= OLD_TOP ==> NamesOld(node.heightToHash, h)
      invariant b == NEW_TOP ==> 1 in node.heightToHash && node.heightToHash[1] == NEW_FIRST
    {
      NextNew(node.store, OLD_TOP, b);
      NewHeld(node.store, OLD_TOP, b);
      NewOvertakes(node.store, node.heightToHash, b);
      var r := Receive(node, NewBlock(b + 1), Difficulty(true, b + 1));
    }
  }

  // ----- References that go astray -----

  /** The single reference of the block means one generator on its own ancestry and another one to the node. */
  ghost predicate GoesAstray(n: NodeState, run: GeneratedSpends.Run, block: FullBlock, own: Hash, taken: Hash) {
    && Linked(n.store) && Attached(n.store, block) && RefsBelow(block) && block.tx.Some? && block.generator.Some?
    && OwnResolution(n.store, block, block.generatorRefs) == Args([own])
    && ResolveAll(n, block, block.generatorRefs) == Args([taken])
    && OwnSpends(run, n.store, block) == Some(run(block.generator.value, [own]))
    && NodeSpends(run, n, block) == Some(run(block.generator.value, [taken]))
  }

  lemma OneRef(n: NodeState, run: GeneratedSpends.Run, block: FullBlock, i: nat)
    requires AfterRun(n) && OLD_TOP - 1 <= i <= OLD_TOP && block.height == i + 1 && block.prevHash == 2 * i
    requires block.tx.Some? && block.generator.Some? && block.generatorRefs == [1]
    ensures GoesAstray(n, run, block, OLD_GENERATOR, NEW_GENERATOR)
  {
    hide NodeOk;
    hide Holds;
    hide Parents;
    hide Ancestry;
    hide HasOrphan;
    OnOldBranch(n.store, OLD_TOP, NEW_TOP, block, i);
    HeldAt(n.store, OLD_TOP, NEW_TOP, 1);
    var refs := block.generatorRefs;
    assert refs[..0] == [] && refs[..|refs| - 1] == [] && refs[|refs| - 1] == 1;
    assert Parents(n.store, block)[1] == OldBlock(1);
    assert OwnResolution(n.store, block, refs) == Args([OLD_GENERATOR]);
    assert RefBlock(n, block, 1) == Some(NewBlock(1));
    assert ResolveAll(n, block, refs) == Args([NEW_GENERATOR]);
  }

  /** A child of the old branch refers to height 1.  Its own ancestor there has the old generator; the node
      takes the one of the new branch, and with it other spends wherever the two runs differ. */
  method StaleReference(run: GeneratedSpends.Run) returns (node: Blockchain, r: Resolution)
    ensures fresh(node) && node.Valid() && AfterRun(node.State()) && r == Args([NEW_GENERATOR])
    ensures GoesAstray(node.State(), run, Child(), OLD_GENERATOR, NEW_GENERATOR)
  {
    hide NodeOk;
    hide Holds;
    hide Linked;
    hide Attached;
    hide ResolveAll;
    hide OwnResolution;
    hide AfterRun;
    node := Run();
    ghost var state := node.State();
    OneRef(state, run, Child(), OLD_TOP);
    RecordsMirror(state);
    PeakIsKnown(state, Child());
    var peak := node.GetPeak();
    var n := NodeState(node.store, node.dbPeak, node.records, node.peakHeight, node.heightToHash, node.summaries,
                       node.coinStore.table);
    r := GetBlockGenerator(n, Child(), peak.value);
  }

  // ----- Reruns that go astray -----

  /** Run with the generators of their own ancestry, the three generators of the run give no spends. */
  predicate GivesNothing(run: GeneratedSpends.Run) {
    run(OLD_GENERATOR, []) == [] && run(NEW_GENERATOR, []) == [] && run(ORPHAN_GENERATOR, [OLD_GENERATOR]) == []
  }

  lemma OrphanGoesAstray(n: NodeState, run: GeneratedSpends.Run)
    requires AfterRun(n)
    ensures GoesAstray(n, run, Orphan(), OLD_GENERATOR, NEW_GENERATOR)
  {
    hide AfterRun;
    hide GoesAstray;
    OneRef(n, run, Orphan(), OLD_TOP - 1);
  }

  /** Every block of the run is stored with the spends of its own ancestry. */
  lemma RunIsGenerated(n: NodeState, run: GeneratedSpends.Run)
    requires AfterRun(n) && GivesNothing(run)
    ensures StoreGenerated(run, n.store)
  {
    hide Linked;
    hide Holds;
    hide OwnResolution;
    OrphanGoesAstray(n, run);
    forall h | h in n.store ensures Attached(n.store, n.store[h]) && Generated(run, n.store, n.store[h]) {
      StoredBlock(n.store, h);
      var b := n.store[h];
      if h != ORPHAN_HASH {
        NoRefs(n.store, b);
      }
    }
  }

  lemma NoRefs(s: BlockStore, b: FullBlock)
    requires Linked(s) && Attached(s, b) && b.generatorRefs == []
    ensures OwnResolution(s, b, b.generatorRefs) == Args([])
  {
  }

  lemma BranchBlocks(i: nat)
    requires i > 0
    ensures OldBlock(i).tx.Some? && OldBlock(i).tx.value.npcs == [] && OldBlock(i).generatorRefs == []
    ensures NewBlock(i).tx.Some? && NewBlock(i).tx.value.npcs == [] && NewBlock(i).generatorRefs == []
    ensures OldBlock(i).generator == None || OldBlock(i).generator == Some(OLD_GENERATOR)
    ensures NewBlock(i).generator == None || NewBlock(i).generator == Some(NEW_GENERATOR)
  {
  }

  lemma StoredBlock(s: BlockStore, h: Hash)
    requires Linked(s) && Holds(s, OLD_TOP, NEW_TOP) && HasOrphan(s) && h in s
    ensures Attached(s, s[h]) && s[h].tx.Some? && s[h].tx.value.npcs == []
    ensures h == ORPHAN_HASH ==> s[h] == Orphan()
    ensures h != ORPHAN_HASH ==>
      && s[h].generatorRefs == []
      && (s[h].generator == None || s[h].generator == Some(OLD_GENERATOR) || s[h].generator == Some(NEW_GENERATOR))
  {
    hide OldBlock;
    hide NewBlock;
    hide Holds;
    GenesisHeld(s, OLD_TOP, NEW_TOP);
    if h != ORPHAN_HASH && h != GENESIS_HASH {
      OnBranch(s, OLD_TOP, NEW_TOP, h);
      BranchBlocks(h / 2);
    }
  }

  lemma OnBranch(s: BlockStore, a: nat, b: nat, h: Hash)
    requires Holds(s, a, b) && h in s && h != ORPHAN_HASH && h != GENESIS_HASH
    ensures h / 2 > 0 && (s[h] == OldBlock(h / 2) || s[h] == NewBlock(h / 2))
  {
    hide OldBlock;
    hide NewBlock;
    var i := h / 2;
    assert h == 2 * i || h == 2 * i + 1;
    HeldAt(s, a, b, i);
  }

  lemma OrphanParents(n: NodeState)
    requires AfterRun(n)
    ensures var s, d := n.store, OrphanChild();
      && Attached(s, d) && s[d.prevHash] == Orphan() && |Parents(s, d)| == OLD_TOP + 1 && Parents(s, d)[OLD_TOP] == Orphan()
      && Ancestry(s, d)[OLD_TOP] == Orphan() && Ancestry(s, d)[OLD_TOP - 1].headerHash == 2 * (OLD_TOP - 1)
      && forall k: nat :: k <= OLD_TOP ==> Rewarding(Parents(s, d)[k], k)
  {
    hide Holds;
    hide Linked;
    hide Ancestry;
    var s, d := n.store, OrphanChild();
    OnOldBranch(s, OLD_TOP, NEW_TOP, Orphan(), OLD_TOP - 1);
    assert Parents(s, d) == Parents(s, Orphan()) + [Orphan()];
    forall k: nat | k <= OLD_TOP ensures Rewarding(Parents(s, d)[k], k) {
      assert k < OLD_TOP ==> Parents(s, d)[k] == Parents(s, Orphan())[k];
    }
  }

  lemma OrphanChildIsValid(n: NodeState, run: GeneratedSpends.Run)
    requires AfterRun(n) && Attached(n.store, OrphanChild())
    ensures RefsBelow(OrphanChild()) && ValidWithOwnSpends(run, n.store, OrphanChild(), 2, true)
  {
    hide Holds;
    hide Linked;
    hide Ancestry;
    hide Parents;
    hide HeaderOk;
    hide BodyOk;
    hide OwnResolution;
    var d := OrphanChild();
    OrphanParents(n);
    RewardAccepted(n.store, d, TimeAt(false, OLD_TOP + 1), 2);
    assert WithSpends(d, []) == d;
  }

  /** The block is valid and its own references resolve, but running the generator of an ancestor above the peak again
      does not give the spends that ancestor is stored with. */
  ghost predicate ValidButAstray(n: NodeState, run: GeneratedSpends.Run, d: FullBlock, difficulty: nat) {
    && PeakIn(n.store, n.peak) && n.peak.Some? && Attached(n.store, d) && RefsBelow(d)
    && RefsOk(n.store) && StoreGenerated(run, n.store)
    && ResolvesOwn(n, d) && ValidWithOwnSpends(run, n.store, d, difficulty, true)
    && !NoStaleAncestor(n, d) && !BranchAgrees(run, n, d, n.store[n.peak.value].height)
  }

  /** One stale ancestor whose rerun differs is enough. */
  lemma OneStale(n: NodeState, run: GeneratedSpends.Run, d: FullBlock, difficulty: nat, i: nat)
    requires PeakIn(n.store, n.peak) && n.peak.Some? && Attached(n.store, d) && RefsBelow(d) && d.generatorRefs == []
    requires StoreGenerated(run, n.store) && ValidWithOwnSpends(run, n.store, d, difficulty, true)
    requires n.store[n.peak.value].height < i && i + 1 < d.height
    requires i in n.heightToHash && n.heightToHash[i] == Ancestry(n.store, d)[i].headerHash
    requires var b := Ancestry(n.store, d)[i + 1]; RefsBelow(b) && !RerunAgrees(run, n, b)
    ensures ValidButAstray(n, run, d, difficulty)
  {
    hide Linked;
    hide Ancestry;
    hide ValidWithOwnSpends;
    hide RerunAgrees;
    assert !NotNamed(n, d, i);
    GeneratedRefsOk(run, n.store);
  }

  /** A block on top of the orphan is valid, and its own references resolve.  Yet to validate it the node runs the
      orphan's generator again, and now takes the generator of the new branch for it. */
  lemma RerunGoesAstray(n: NodeState, run: GeneratedSpends.Run)
    requires AfterRun(n) && GivesNothing(run) && run(ORPHAN_GENERATOR, [NEW_GENERATOR]) != []
    ensures ValidButAstray(n, run, OrphanChild(), 2)
  {
    hide Holds;
    hide Linked;
    hide Ancestry;
    hide Parents;
    hide StoreGenerated;
    hide ValidWithOwnSpends;
    hide ValidButAstray;
    hide OwnResolution;
    hide ResolveAll;
    hide OwnSpends;
    hide NodeSpends;
    OrphanParents(n);
    RunIsGenerated(n, run);
    OrphanGoesAstray(n, run);
    OrphanChildIsValid(n, run);
    HeldAt(n.store, OLD_TOP, NEW_TOP, NEW_TOP);
    OneStale(n, run, OrphanChild(), 2, OLD_TOP - 1);
  }

  /** Such a state is reached by the run above. */
  method StaleRerun(run: GeneratedSpends.Run) returns (node: Blockchain)
    requires GivesNothing(run) && run(ORPHAN_GENERATOR, [NEW_GENERATOR]) != []
    ensures fresh(node) && node.Valid() && AfterRun(node.State())
    ensures ValidButAstray(node.State(), run, OrphanChild(), 2)
  {
    hide NodeOk;
    hide AfterRun;
    hide ValidButAstray;
    node := Run();
    RerunGoesAstray(node.State(), run);
  }
}
