/** The node's chain state and the reception of blocks: extensions, orphans and reorganisations. */
module Blockchains {
  import opened Primitives
  import opened Coins
  import opened Ledger
  import opened BlockOutputs
  import opened LedgerTheorems
  import opened Chains
  import opened CoinStores
  import opened BlockStores
  import opened BodyValidation

  datatype ReceiveBlockResult = NewPeak | AddedAsOrphan | InvalidBlock | AlreadyHaveBlock | DisconnectedBlock

  // ----- What the state means -----

  ghost predicate PeakIn(s: BlockStore, peak: Option<Hash>) {
    Linked(s) && (peak.Some? ==> peak.value in s)
  }

  ghost function PeakChain(s: BlockStore, peak: Option<Hash>): seq<FullBlock>
    requires PeakIn(s, peak)
  {
    if peak.None? then [] else Ancestry(s, s[peak.value])
  }

  /** On heights 0 to the peak the index is the ancestry of the peak; entries above are not constrained. */
  ghost predicate IndexOk(heightToHash: map<nat, Hash>, chain: seq<FullBlock>) {
    forall i :: 0 <= i < |chain| ==> i in heightToHash && heightToHash[i] == chain[i].headerHash
  }

  ghost predicate Heaviest(s: BlockStore, peak: Option<Hash>)
    requires PeakIn(s, peak)
  {
    peak.Some? ==> forall h :: h in s ==> s[h].weight <= s[peak.value].weight
  }

  /** The block store with its peak row, the dictionaries in memory and the coin table. */
  datatype NodeState = NodeState(
    store: BlockStore, peak: Option<Hash>, records: Records, peakHeight: Option<nat>,
    heightToHash: map<nat, Hash>, summaries: map<nat, Hash>, table: Table)

  /** Everything in memory and on disk agrees with replaying the heaviest chain. */
  ghost predicate NodeOk(n: NodeState) {
    && StoreOk(n.store) && Mirrors(n.records, n.store)
    && PeakIn(n.store, n.peak) && (n.peak.None? ==> n.store == map[])
    && n.peakHeight == (if n.peak.None? then None else Some(n.store[n.peak.value].height))
    && IndexOk(n.heightToHash, PeakChain(n.store, n.peak))
    && n.summaries == SesOf(PeakChain(n.store, n.peak))
    && n.table == Replay(PeakChain(n.store, n.peak))
    && Heaviest(n.store, n.peak)
  }

  lemma PeakChainOk(s: BlockStore, peak: Option<Hash>)
    requires StoreOk(s) && PeakIn(s, peak)
    ensures ChainOk(PeakChain(s, peak))
  {
    if peak.Some? {
      assert BlockOk(s, s[peak.value]);
      AncestryOk(s, s[peak.value]);
    }
  }

  // ----- Collecting and applying the blocks of the new branch -----

  /** `blocks` are the blocks of `chain` above height `forkH`, the newest first. */
  ghost predicate Above(chain: seq<FullBlock>, forkH: int, blocks: seq<FullBlock>) {
    && -1 <= forkH < |chain| && |blocks| == |chain| - 1 - forkH
    && forall i :: 0 <= i < |blocks| ==> blocks[i] == chain[|chain| - 1 - i]
  }

  method CollectBlocksToAdd(s: BlockStore, heightToHash: map<nat, Hash>, tip: Hash, forkH: int,
                            ghost chain: seq<FullBlock>)
    returns (blocks: seq<FullBlock>)
    requires chain != [] && StorePath(s, chain, tip)
    requires forall i :: 0 <= i < |chain| ==> chain[i].height == i
    requires -1 <= forkH < |chain|
    requires forkH >= 0 ==> forkH in heightToHash && heightToHash[forkH] in s && s[heightToHash[forkH]] == chain[forkH]
    requires forall h :: h in s ==> s[h].headerHash == h
    ensures Above(chain, forkH, blocks)
  {
    blocks := [];
    var curr := tip;
    ghost var k: nat := |chain| - 1;
    while forkH < 0 || curr != heightToHash[forkH]
      invariant k < |chain| && forkH <= k
      invariant curr in s && s[curr] == chain[k]
      invariant |blocks| == |chain| - 1 - k
      invariant forall i :: 0 <= i < |blocks| ==> blocks[i] == chain[|chain| - 1 - i]
      decreases k
    {
      var fetched := s[curr];
      blocks := blocks + [fetched];
      if fetched.height == 0 {
        return;
      }
      assert StoreLink(s, chain, k);
      curr := fetched.prevHash;
      k := k - 1;
    }
  }

  lemma RewardsArePaired(anc: seq<FullBlock>, b: FullBlock)
    requires ChainOk(anc) && StepOk(anc, b) && b.tx.Some?
    ensures var rewards := set c | c in Claims(b);
      if b.height == 0 then |rewards| == 0 else |rewards| >= 2
  {
    hide ChainOk;
    hide Replay;
    hide SpendOk;
    hide AmountsOk;
    hide PlainRewards;
    var rewards := set c | c in Claims(b);
    assert rewards == ExpectedRewards(anc);
    if anc != [] {
      GenesisIsTx(anc);
      var p := anc[LastTx(anc)];
      var pool := CreatePoolCoin(p.height, p.poolPuzzleHash, CalculatePoolReward(p.height));
      var farmer := CreateFarmerCoin(p.height, p.farmerPuzzleHash, CalculateBaseFarmerReward(p.height) + p.tx.value.fees);
      assert {pool, farmer} <= rewards && |{pool, farmer}| == 2;
      SubsetSize({pool, farmer}, rewards);
    }
  }

  lemma {:induction false} SubsetSize(a: set<Coin>, b: set<Coin>)
    requires a <= b
    ensures |a| <= |b|
    decreases a
  {
    if a != {} {
      var x :| x in a;
      SubsetSize(a - {x}, b - {x});
    }
  }

  /** Applies one block of a valid chain to the store and looks its removals up again, as the caller
      does for notifications: none of them is missing. */
  method ApplyOne(coinStore: CoinStore, b: FullBlock, ghost anc: seq<FullBlock>)
    requires coinStore.Valid() && coinStore.table == Replay(anc) && ChainOk(anc) && StepOk(anc, b)
    modifies coinStore, coinStore.cache
    ensures coinStore.Valid() && coinStore.table == ApplyBlock(Replay(anc), b)
  {
    hide ChainOk;
    hide Replay;
    if b.tx.Some? {
      RewardsArePaired(anc, b);
      NoDuplicateCoins(anc, b);
      var removals, additions := TxRemovalsAndAdditions(Npcs(b));
      var rewards := set c | c in Claims(b);
      var added := coinStore.NewBlock(b.height, Timestamp(b), rewards, additions, removals, b);
      ghost var t := coinStore.table;
      for i := 0 to |removals|
        invariant coinStore.Valid() && coinStore.table == t
      {
        RemovedIsSpendable(anc, b, removals[i]);
        var r := coinStore.GetCoinRecord(removals[i]);
        assert r.Some? && r.value.spent;
      }
    } else {
      PlainStepValue(Replay(anc), b);
    }
  }

  method ApplyBlocks(coinStore: CoinStore, blocks: seq<FullBlock>, forkH: int, ghost chain: seq<FullBlock>)
    requires ChainOk(chain) && Above(chain, forkH, blocks)
    requires coinStore.Valid() && coinStore.table == Replay(chain[..forkH + 1])
    modifies coinStore, coinStore.cache
    ensures coinStore.Valid() && coinStore.table == Replay(chain)
  {
    hide ChainOk;
    hide Replay;
    for i := |blocks| downto 0
      invariant coinStore.Valid() && coinStore.table == Replay(chain[..|chain| - i])
    {
      ghost var n := |chain| - 1 - i;
      ChainPrefix(chain, n);
      ApplyOne(coinStore, blocks[i], chain[..n]);
      ReplayStep(chain, n);
    }
    assert chain[..|chain|] == chain;
  }

  lemma ReplayStep(chain: seq<FullBlock>, n: nat)
    requires n < |chain|
    ensures Replay(chain[..n + 1]) == ApplyBlock(Replay(chain[..n]), chain[n])
  {
    assert chain[..n + 1][..n] == chain[..n];
  }

  // ----- The two height dictionaries -----

  lemma SesStep(chain: seq<FullBlock>, n: nat)
    requires n < |chain|
    ensures SesOf(chain[..n + 1]) ==
      if chain[n].ses.Some? then SesOf(chain[..n])[n := chain[n].ses.value] else SesOf(chain[..n])
  {
  }

  lemma HashesStep(m: map<nat, Hash>, chain: seq<FullBlock>, n: nat)
    requires n < |chain|
    ensures m + HashesOf(chain[..n + 1]) == (m + HashesOf(chain[..n]))[n := chain[n].headerHash]
  {
  }

  lemma IndexPlus(m: map<nat, Hash>, chain: seq<FullBlock>)
    requires IndexOk(m, chain)
    ensures m + HashesOf(chain) == m
  {
  }

  lemma PlusIsIndex(m: map<nat, Hash>, chain: seq<FullBlock>)
    ensures IndexOk(m + HashesOf(chain), chain)
  {
  }

  /** Writes the new branch into the height index and the summaries. */
  method UpdateIndex(heightToHash: map<nat, Hash>, summaries: map<nat, Hash>, blocks: seq<FullBlock>, forkH: int,
                     ghost chain: seq<FullBlock>)
    returns (heightToHash': map<nat, Hash>, summaries': map<nat, Hash>)
    requires Above(chain, forkH, blocks) && forall i :: 0 <= i < |chain| ==> chain[i].height == i
    requires IndexOk(heightToHash, chain[..forkH + 1]) && summaries == SesOf(chain[..forkH + 1])
    ensures heightToHash' == heightToHash + HashesOf(chain) && summaries' == SesOf(chain)
  {
    hide SesOf;
    hide HashesOf;
    IndexPlus(heightToHash, chain[..forkH + 1]);
    heightToHash', summaries' := heightToHash, summaries;
    for i := |blocks| downto 0
      invariant heightToHash' == heightToHash + HashesOf(chain[..|chain| - i])
      invariant summaries' == SesOf(chain[..|chain| - i])
    {
      ghost var n := |chain| - 1 - i;
      SesStep(chain, n);
      HashesStep(heightToHash, chain, n);
      heightToHash' := heightToHash'[blocks[i].height := blocks[i].headerHash];
      if blocks[i].ses.Some? {
        summaries' := summaries'[blocks[i].height := blocks[i].ses.value];
      }
    }
    assert chain[..|chain|] == chain;
  }

  function DeleteAboveHeight(summaries: map<nat, Hash>, forkH: int): map<nat, Hash> {
    map h | h in summaries && h <= forkH :: summaries[h]
  }

  lemma SesBelow(chain: seq<FullBlock>, forkH: int)
    requires -1 <= forkH < |chain|
    ensures DeleteAboveHeight(SesOf(chain), forkH) == SesOf(chain[..forkH + 1])
  {
  }

  // ----- Header rules used here -----

  /** The verdict of header validation: `otherChecks` stands for proofs, signatures and timestamps. */
  ghost predicate HeaderOk(s: BlockStore, b: FullBlock, difficulty: nat, otherChecks: bool)
    requires Linked(s) && Attached(s, b)
  {
    && otherChecks
    && (if b.height == 0
        then b.weight == DIFFICULTY_STARTING && b.tx.Some?
        else b.weight == s[b.prevHash].weight + difficulty)
    && (b.height > 0 && b.tx.Some? && LastTx(Parents(s, b)) >= 0 ==>
          b.tx.value.prevTxHash == Parents(s, b)[LastTx(Parents(s, b))].headerHash)
  }

  /** Every stored block adds the difficulty it was received with to the weight of its parent. */
  ghost predicate Weighed(s: BlockStore, difficulties: map<Hash, nat>)
    requires Linked(s)
  {
    && s.Keys <= difficulties.Keys
    && forall h :: h in s ==>
         s[h].weight == if s[h].height == 0 then DIFFICULTY_STARTING else s[s[h].prevHash].weight + difficulties[h]
  }

  /** The starting difficulty and those of the blocks above genesis. */
  ghost function DifficultySum(chain: seq<FullBlock>, difficulties: map<Hash, nat>): nat
    requires forall i :: 0 < i < |chain| ==> chain[i].headerHash in difficulties
  {
    if |chain| <= 1 then DIFFICULTY_STARTING
    else DifficultySum(chain[..|chain| - 1], difficulties) + difficulties[chain[|chain| - 1].headerHash]
  }

  /** Acceptance keeps that. */
  lemma WeighedExtend(s: BlockStore, difficulties: map<Hash, nat>, b: FullBlock, difficulty: nat, otherChecks: bool)
    requires Linked(s) && Weighed(s, difficulties) && Attached(s, b) && b.headerHash !in s
    requires HeaderOk(s, b, difficulty, otherChecks)
    ensures Linked(s[b.headerHash := b]) && Weighed(s[b.headerHash := b], difficulties[b.headerHash := difficulty])
  {
    LinkedExtend(s, b);
  }

  /** So a block weighs the sum of the difficulties received along its ancestry. */
  lemma {:induction false} WeightIsSum(s: BlockStore, difficulties: map<Hash, nat>, h: Hash)
    requires Linked(s) && Weighed(s, difficulties) && h in s
    ensures forall i :: 0 < i < |Ancestry(s, s[h])| ==> Ancestry(s, s[h])[i].headerHash in difficulties
    ensures s[h].weight == DifficultySum(Ancestry(s, s[h]), difficulties)
    decreases s[h].height
  {
    var b := s[h];
    if b.height > 0 {
      WeightIsSum(s, difficulties, b.prevHash);
      var chain := Ancestry(s, b);
      assert chain[..|chain| - 1] == Ancestry(s, s[b.prevHash]);
    }
  }

  method PreviousTransactionBlock(records: Records, prev: BlockRecord, ghost chain: seq<FullBlock>)
    returns (tx: BlockRecord)
    requires IsPath(records, chain) && prev == ToRecord(chain[|chain| - 1]) && chain[0].tx.Some?
    ensures LastTx(chain) >= 0 && tx == ToRecord(chain[LastTx(chain)])
  {
    tx := prev;
    while !tx.isTx
      invariant tx.height < |chain| && tx == ToRecord(chain[tx.height])
      invariant forall i :: tx.height < i < |chain| ==> chain[i].tx.None?
      decreases tx.height
    {
      assert PathLink(records, chain, tx.height);
      tx := records[tx.prevHash];
    }
    LastTxIs(chain, tx.height);
  }

  method ValidateHeader(records: Records, block: FullBlock, difficulty: nat, otherChecks: bool, ghost s: BlockStore)
    returns (ok: bool)
    requires StoreOk(s) && Mirrors(records, s) && Attached(s, block)
    ensures ok <==> HeaderOk(s, block, difficulty, otherChecks)
    ensures block.height > 0 ==> LastTx(Parents(s, block)) >= 0
  {
    if block.height == 0 {
      return otherChecks && block.weight == DIFFICULTY_STARTING && block.tx.Some?;
    }
    ghost var chain := Parents(s, block);
    var prev := records[block.prevHash];
    assert BlockOk(s, s[block.prevHash]);
    AncestryOk(s, s[block.prevHash]);
    GenesisIsTx(chain);
    AncestryIsPath(records, s, s[block.prevHash]);
    ok := otherChecks && block.weight == prev.weight + difficulty;
    if block.tx.Some? {
      var tx := PreviousTransactionBlock(records, prev, chain);
      ok := ok && block.tx.value.prevTxHash == tx.headerHash;
    }
  }

  // ----- The view that body validation needs -----

  lemma AncestryStorePath(s: BlockStore, b: FullBlock)
    requires Linked(s) && b.headerHash in s && s[b.headerHash] == b
    ensures StorePath(s, Ancestry(s, b), b.headerHash)
  {
    var chain := Ancestry(s, b);
    forall i | 0 < i < |chain| ensures StoreLink(s, chain, i) {
      AncestryStep(s, b, i);
    }
  }

  function PeakRecord(records: Records, peak: Option<Hash>): Option<BlockRecord>
    requires peak.Some? ==> peak.value in records
  {
    if peak.None? then None else Some(records[peak.value])
  }

  lemma ParentView(s: BlockStore, records: Records, block: FullBlock)
    requires Linked(s) && Mirrors(records, s) && Attached(s, block)
    ensures var chain := Parents(s, block);
      && StorePath(s, chain, block.prevHash)
      && (chain != [] ==> IsPath(records, chain) && chain[|chain| - 1].headerHash == block.prevHash)
      && (chain != [] ==> block.prevHash in records && records[block.prevHash] == ToRecord(chain[|chain| - 1]))
  {
    if block.height > 0 {
      AncestryStorePath(s, s[block.prevHash]);
      AncestryIsPath(records, s, s[block.prevHash]);
    }
  }

  lemma SharedPrefix(s: BlockStore, peak: Option<Hash>, block: FullBlock)
    requires PeakIn(s, peak) && Attached(s, block)
    ensures var chain, peakChain := Parents(s, block), PeakChain(s, peak);
      && HashesIdentify(peakChain, chain)
      && (forall i :: 0 <= i < |chain| && i < |peakChain| && peakChain[i] == chain[i] ==>
            peakChain[..i + 1] == chain[..i + 1])
  {
    if peak.Some? && block.height > 0 {
      var p, q := s[peak.value], s[block.prevHash];
      AncestryHashesIdentify(s, p, q);
      forall i | 0 <= i <= q.height && i <= p.height && Ancestry(s, p)[i] == Ancestry(s, q)[i]
        ensures Ancestry(s, p)[..i + 1] == Ancestry(s, q)[..i + 1]
      {
        CommonPrefix(s, p, q, i);
      }
    }
  }

  lemma NodeView(s: BlockStore, records: Records, peak: Option<Hash>, block: FullBlock)
    requires Linked(s) && Mirrors(records, s) && PeakIn(s, peak) && Attached(s, block)
    ensures View(s, records, block, PeakRecord(records, peak), Parents(s, block), PeakChain(s, peak))
  {
    ParentView(s, records, block);
    SharedPrefix(s, peak, block);
    if peak.Some? {
      AncestryIsPath(records, s, s[peak.value]);
    }
  }

  // ----- The chain state -----

  /** A fork height that may be handed in: a height at which the parent and the peak share a block. */
  ghost predicate ForkPointOk(s: BlockStore, peak: Option<Hash>, block: FullBlock, forkPoint: Option<nat>)
    requires PeakIn(s, peak)
  {
    forkPoint.Some? && peak.Some? && block.height > 0 && block.prevHash in s ==>
      CommonAncestor(s, s[block.prevHash], s[peak.value], forkPoint.value)
  }

  lemma ForkPointIsFork(s: BlockStore, peak: Option<Hash>, block: FullBlock, forkPoint: Option<nat>)
    requires PeakIn(s, peak) && Attached(s, block) && ForkPointOk(s, peak, block, forkPoint)
    requires forkPoint.Some? && peak.Some? && block.height > 0
    ensures ForkOk(PeakChain(s, peak), Parents(s, block), forkPoint.value)
    ensures ForkOk(PeakChain(s, peak), Ancestry(s, block), forkPoint.value)
  {
    CommonPrefix(s, s[block.prevHash], s[peak.value], forkPoint.value);
    assert Ancestry(s, block)[..forkPoint.value + 1] == Parents(s, block)[..forkPoint.value + 1];
  }

  lemma ExtensionFork(s: BlockStore, peak: Hash, block: FullBlock)
    requires Linked(s) && peak in s && Attached(s, block) && block.height > 0 && block.prevHash == peak
    ensures ForkOk(PeakChain(s, Some(peak)), Ancestry(s, block), s[peak].height)
    ensures s[peak].height == |PeakChain(s, Some(peak))| - 1
  {
    var up := Ancestry(s, s[peak]);
    assert Ancestry(s, block) == up + [block];
    assert (up + [block])[..|up|] == up[..|up|];
  }

  /** Sharing a height means sharing all heights below. */
  ghost predicate SharedBelow(peakChain: seq<FullBlock>, chain: seq<FullBlock>) {
    forall h :: -1 <= h < |chain| && h < |peakChain| && (h >= 0 ==> chain[h] == peakChain[h]) ==>
      ForkOk(peakChain, chain, h)
  }

  lemma WalkPreconditions(s: BlockStore, records: Records, peak: Hash, block: FullBlock, forkPoint: Option<nat>)
    requires Linked(s) && Mirrors(records, s) && peak in s && Attached(s, block) && block.headerHash !in s
    requires block.height > 0 && ForkPointOk(s, Some(peak), block, forkPoint)
    ensures var chain, peakChain := Ancestry(s, block), PeakChain(s, Some(peak));
      && IsPath(records, chain) && IsPath(records, peakChain) && HashesIdentify(chain, peakChain)
      && chain[|chain| - 1] == block && peakChain[|peakChain| - 1] == s[peak]
      && SharedBelow(peakChain, chain)
      && (forkPoint.Some? ==> ForkOk(peakChain, chain, forkPoint.value))
      && (block.prevHash == peak ==> ForkOk(peakChain, chain, |peakChain| - 1))
  {
    var p := s[peak];
    AncestryIsPath(records, s, block);
    AncestryIsPath(records, s, p);
    AncestryHashesIdentify(s, block, p);
    var chain, peakChain := Ancestry(s, block), Ancestry(s, p);
    forall h | -1 <= h < |chain| && h < |peakChain| && (h >= 0 ==> chain[h] == peakChain[h])
      ensures ForkOk(peakChain, chain, h)
    {
      CommonPrefix(s, block, p, h);
    }
    hide HashesIdentify;
    if forkPoint.Some? {
      ForkPointIsFork(s, Some(peak), block, forkPoint);
    }
    if block.prevHash == peak {
      ExtensionFork(s, peak, block);
    }
  }

  /** The fork height used when `block` overtakes the peak: a height at which both chains agree, the
      greatest one unless a height was supplied. */
  method PeakForkHeight(records: Records, block: BlockRecord, peak: BlockRecord, forkPoint: Option<nat>,
                        ghost chain: seq<FullBlock>, ghost peakChain: seq<FullBlock>)
    returns (forkH: int)
    requires IsPath(records, chain) && IsPath(records, peakChain) && HashesIdentify(chain, peakChain)
    requires block == ToRecord(chain[|chain| - 1]) && peak == ToRecord(peakChain[|peakChain| - 1])
    requires SharedBelow(peakChain, chain)
    requires forkPoint.Some? ==> ForkOk(peakChain, chain, forkPoint.value)
    requires block.prevHash == peak.headerHash ==> ForkOk(peakChain, chain, |peakChain| - 1)
    ensures ForkOk(peakChain, chain, forkH)
    ensures block.prevHash == peak.headerHash ==> forkH == |peakChain| - 1
    ensures block.prevHash != peak.headerHash && forkPoint.None? ==>
      forall h :: forkH < h < |chain| && h < |peakChain| ==> chain[h] != peakChain[h]
  {
    if block.prevHash == peak.headerHash {
      return peak.height;
    }
    if forkPoint.Some? {
      return forkPoint.value;
    }
    hide IsPath;
    hide HashesIdentify;
    forkH := FindForkPointInChain(records, block, peak, chain, peakChain);
  }

  function RecordsOf(s: BlockStore): Records {
    map h | h in s :: ToRecord(s[h])
  }

  lemma MirrorIsUnique(s: BlockStore, records: Records)
    requires Mirrors(records, s)
    ensures records == RecordsOf(s)
    ensures s == map[] ==> records == map[]
  {
  }

  lemma HashesAreIndex(chain: seq<FullBlock>, heightToHash: map<nat, Hash>)
    requires IndexOk(heightToHash, chain)
    ensures IndexOk(HashesOf(chain), chain)
    ensures forall i :: i in HashesOf(chain) ==> i in heightToHash && HashesOf(chain)[i] == heightToHash[i]
    ensures chain == [] ==> HashesOf(chain) == map[] && SesOf(chain) == map[]
  {
  }

  class Blockchain {
    const coinStore: CoinStore
    var store: BlockStore
    var dbPeak: Option<Hash>
    var records: Records
    var peakHeight: Option<nat>
    var heightToHash: map<nat, Hash>
    var summaries: map<nat, Hash>

    ghost function State(): NodeState
      reads this, coinStore
    {
      NodeState(store, dbPeak, records, peakHeight, heightToHash, summaries, coinStore.table)
    }

    ghost predicate Valid()
      reads this, coinStore, coinStore.cache
    {
      coinStore.Valid() && NodeOk(State())
    }

    constructor (cacheSize: nat)
      ensures Valid() && store == map[] && fresh(coinStore) && fresh(coinStore.cache)
    {
      coinStore := new CoinStore(cacheSize);
      store, dbPeak, records := map[], None, map[];
      peakHeight, heightToHash, summaries := None, map[], map[];
    }

    /** The peak as memory knows it is the peak row of the database. */
    method GetPeak() returns (peak: Option<BlockRecord>)
      requires Valid()
      ensures dbPeak.Some? ==> dbPeak.value in records
      ensures peak == PeakRecord(records, dbPeak)
    {
      if peakHeight.None? {
        return None;
      }
      ghost var chain := PeakChain(store, dbPeak);
      assert heightToHash[|chain| - 1] == chain[|chain| - 1].headerHash;
      peak := Some(records[heightToHash[peakHeight.value]]);
    }

    /** A restart rebuilds both dictionaries from disk: the summaries are the same, and the index is
        the old one without entries above the peak. */
    method LoadChainFromStore()
      requires Valid()
      modifies this`heightToHash, this`summaries, this`peakHeight, this`records
      ensures Valid() && summaries == old(summaries) && peakHeight == old(peakHeight) && records == old(records)
      ensures heightToHash == HashesOf(PeakChain(store, dbPeak))
      ensures forall i :: i in heightToHash ==> i in old(heightToHash) && heightToHash[i] == old(heightToHash)[i]
    {
      hide StoreOk;
      hide Replay;
      hide SesOf;
      hide HashesOf;
      hide Ancestry;
      ghost var chain := PeakChain(store, dbPeak);
      MirrorIsUnique(store, records);
      HashesAreIndex(chain, heightToHash);
      if dbPeak.None? {
        heightToHash, summaries, records, peakHeight := map[], map[], map[], None;
      } else {
        heightToHash, summaries := GetPeakHeightDicts(store, dbPeak.value);
        records := RecordsOf(store);
        peakHeight := Some(records[dbPeak.value].height);
      }
    }

    /** The fork of the block's chain from the peak's. */
    method FindFork(block: FullBlock, peak: BlockRecord, forkPoint: Option<nat>) returns (forkH: int)
      requires Linked(store) && Mirrors(records, store) && dbPeak.Some? && dbPeak.value in store
      requires block.headerHash !in store && block.height > 0 && Attached(store, block)
      requires ForkPointOk(store, dbPeak, block, forkPoint)
      requires peak == ToRecord(store[dbPeak.value])
      ensures ForkOk(PeakChain(store, dbPeak), Ancestry(store, block), forkH)
      ensures block.prevHash == peak.headerHash ==> forkH == |PeakChain(store, dbPeak)| - 1
    {
      hide Mirrors;
      hide Ancestry;
      hide Attached;
      hide ForkOk;
      hide PeakChain;
      hide IsPath;
      hide HashesIdentify;
      hide SharedBelow;
      ghost var chain, peakChain := Ancestry(store, block), PeakChain(store, dbPeak);
      WalkPreconditions(store, records, dbPeak.value, block, forkPoint);
      forkH := PeakForkHeight(records, ToRecord(block), peak, forkPoint, chain, peakChain);
    }

    /** Moves the coin table and both dictionaries from the peak's chain to `chain`. */
    method SwitchPeak(tip: Hash, forkH: int, extendsPeak: bool,
                      ghost peakChain: seq<FullBlock>, ghost chain: seq<FullBlock>)
      requires coinStore.Valid() && coinStore.table == Replay(peakChain)
      requires IndexOk(heightToHash, peakChain) && summaries == SesOf(peakChain)
      requires ChainOk(peakChain) && ChainOk(chain) && ForkOk(peakChain, chain, forkH)
      requires extendsPeak ==> forkH == |peakChain| - 1
      requires chain != [] && StorePath(store, chain, tip) && forall h :: h in store ==> store[h].headerHash == h
      requires forkH >= 0 ==> chain[forkH].headerHash in store && store[chain[forkH].headerHash] == chain[forkH]
      modifies this`heightToHash, this`summaries, coinStore, coinStore.cache
      ensures coinStore.Valid() && coinStore.table == Replay(chain)
      ensures heightToHash == old(heightToHash) + HashesOf(chain) && summaries == SesOf(chain)
    {
      hide ChainOk;
      hide Replay;
      hide SesOf;
      hide HashesOf;
      RollbackUndoes(peakChain, forkH);
      if !extendsPeak {
        var changes := coinStore.RollbackToBlock(forkH);
      } else {
        assert peakChain[..forkH + 1] == peakChain;
      }
      SesBelow(peakChain, forkH);
      summaries := DeleteAboveHeight(summaries, forkH);
      ChainHeights(chain);
      assert forkH >= 0 ==> peakChain[..forkH + 1][forkH] == chain[..forkH + 1][forkH];
      var blocks := CollectBlocksToAdd(store, heightToHash, tip, forkH, chain);
      ApplyBlocks(coinStore, blocks, forkH, chain);
      IndexPrefix(heightToHash, peakChain, chain, forkH);
      heightToHash, summaries := UpdateIndex(heightToHash, summaries, blocks, forkH, chain);
    }

    /** Stores a validated block and makes it the peak if it is heavier than every block so far. */
    method AddBlock(block: FullBlock, forkPoint: Option<nat>) returns (result: ReceiveBlockResult)
      requires Valid() && block.headerHash !in store
      requires Attached(store, block) && BlockOk(store, block) && ForkPointOk(store, dbPeak, block, forkPoint)
      modifies this, coinStore, coinStore.cache
      ensures Valid() && store == old(store)[block.headerHash := block]
      ensures result == if old(dbPeak).None? || block.weight > old(store)[old(dbPeak).value].weight
                        then NewPeak else AddedAsOrphan
      ensures dbPeak == if result == NewPeak then Some(block.headerHash) else old(dbPeak)
      ensures result == NewPeak ==> heightToHash == old(heightToHash) + HashesOf(Ancestry(old(store), block))
      ensures result != NewPeak ==>
        heightToHash == old(heightToHash) && summaries == old(summaries) && coinStore.table == old(coinStore.table)
    {
      hide ChainOk;
      hide Replay;
      hide SesOf;
      hide HashesOf;
      hide StoreOk;
      hide BlockOk;
      hide Linked;
      hide Attached;
      hide Mirrors;
      hide Ancestry;
      hide PeakChain;
      hide IndexOk;
      hide ForkPointOk;
      hide StorePath;
      hide Heaviest;
      hide Coherent;
      hide Filed;
      hide IsPath;
      hide HashesIdentify;
      hide SharedBelow;
      ghost var n := State();
      ghost var s1, chain, peakChain := store[block.headerHash := block], Ancestry(store, block), PeakChain(store, dbPeak);
      ReadyToAdd(n, block, chain, peakChain);
      ReadyToSwitch(n, block, s1, chain);
      var peak := GetPeak();
      var overtakes: bool;
      if block.height == 0 {
        overtakes := peak.None?;
      } else {
        overtakes := block.weight > peak.value.weight;
      }
      if !overtakes {
        OrphanOk(n, block);
        store := store[block.headerHash := block];
        records := records[block.headerHash := ToRecord(block)];
        return AddedAsOrphan;
      }
      var forkH, extendsPeak := -1, true;
      if block.height > 0 {
        forkH := FindFork(block, peak.value, forkPoint);
        extendsPeak := block.prevHash == peak.value.headerHash;
      }
      store, dbPeak := store[block.headerHash := block], Some(block.headerHash);
      SwitchPeak(block.headerHash, forkH, extendsPeak, peakChain, chain);
      records, peakHeight := records[block.headerHash := ToRecord(block)], Some(block.height);
      PlusIsIndex(n.heightToHash, chain);
      NewPeakOk(n, block, heightToHash, summaries, coinStore.table);
      return NewPeak;
    }

    /** Receives a block with the expected difficulty, the verdict of the header checks that are not
        modelled and possibly a known fork height.  The block is accepted exactly when its header and
        its body are valid on top of its own ancestors, and in every case the state afterwards is
        again the replay of the heaviest chain. */
    method ReceiveBlock(block: FullBlock, difficulty: nat, otherChecks: bool, forkPoint: Option<nat>)
      returns (result: ReceiveBlockResult)
      requires Valid() && difficulty >= 1 && ForkPointOk(store, dbPeak, block, forkPoint)
      modifies this, coinStore, coinStore.cache
      ensures Valid()
      ensures result == AlreadyHaveBlock <==> block.headerHash in old(store)
      ensures result == DisconnectedBlock <==>
        block.headerHash !in old(store) && block.height > 0 && block.prevHash !in old(store)
      ensures result == NewPeak || result == AddedAsOrphan <==>
        && block.headerHash !in old(store) && Attached(old(store), block)
        && HeaderOk(old(store), block, difficulty, otherChecks) && BodyOk(Parents(old(store), block), block)
      ensures result == NewPeak || result == AddedAsOrphan ==> store == old(store)[block.headerHash := block]
      ensures result == NewPeak ==>
        && dbPeak == Some(block.headerHash)
        && (old(dbPeak).Some? ==> block.weight > old(store)[old(dbPeak).value].weight)
        && heightToHash == old(heightToHash) + HashesOf(Ancestry(old(store), block))
      ensures result == AddedAsOrphan ==> old(dbPeak).Some? && block.weight <= old(store)[old(dbPeak).value].weight
      ensures result != NewPeak ==>
        && dbPeak == old(dbPeak) && heightToHash == old(heightToHash)
        && summaries == old(summaries) && coinStore.table == old(coinStore.table)
      ensures result != NewPeak && result != AddedAsOrphan ==> store == old(store) && records == old(records)
    {
      hide ChainOk;
      hide Replay;
      hide SesOf;
      hide HashesOf;
      hide IndexOk;
      hide BodyOk;
      hide Ancestry;
      hide PeakChain;
      hide Parents;
      hide ForkPointOk;
      hide View;
      hide StoreOk;
      hide Linked;
      hide Mirrors;
      hide Attached;
      hide HeaderOk;
      hide PrevTxOk;
      RecordsTell(store, records, block);
      if block.headerHash in records {
        return AlreadyHaveBlock;
      }
      if block.prevHash !in records && block.height != 0 {
        return DisconnectedBlock;
      }
      if block.height != 0 && records[block.prevHash].height + 1 != block.height {
        return InvalidBlock;
      }
      var ok := ValidateHeader(records, block, difficulty, otherChecks, store);
      if !ok {
        return InvalidBlock;
      }
      var peak := GetPeak();
      ValidationContext(store, records, dbPeak, block, forkPoint);
      HeaderContext(store, records, block, difficulty, otherChecks);
      var err := ValidateBlockBody(store, records, coinStore, peak, block, forkPoint,
                                   Parents(store, block), PeakChain(store, dbPeak));
      if err.Some? {
        return InvalidBlock;
      }
      result := AddBlock(block, forkPoint);
    }
  }

  lemma RecordsTell(s: BlockStore, records: Records, block: FullBlock)
    requires Mirrors(records, s)
    ensures records.Keys == s.Keys
    ensures Attached(s, block) <==>
      (block.height != 0 ==> block.prevHash in records && records[block.prevHash].height + 1 == block.height)
  {
  }

  lemma HeaderContext(s: BlockStore, records: Records, block: FullBlock, difficulty: nat, otherChecks: bool)
    requires StoreOk(s) && Mirrors(records, s) && Attached(s, block) && difficulty >= 1
    requires HeaderOk(s, block, difficulty, otherChecks)
    requires block.height > 0 ==> LastTx(Parents(s, block)) >= 0
    ensures PrevTxOk(records, block, Parents(s, block))
    ensures BodyOk(Parents(s, block), block) ==> BlockOk(s, block)
  {
    hide BodyOk;
    hide Ancestry;
  }

  lemma IndexPrefix(heightToHash: map<nat, Hash>, peakChain: seq<FullBlock>, chain: seq<FullBlock>, forkH: int)
    requires IndexOk(heightToHash, peakChain) && ForkOk(peakChain, chain, forkH)
    ensures IndexOk(heightToHash, chain[..forkH + 1])
  {
    forall i | 0 <= i < forkH + 1 ensures i in heightToHash && heightToHash[i] == chain[..forkH + 1][i].headerHash {
      assert peakChain[..forkH + 1][i] == peakChain[i];
    }
  }

  ghost predicate Addable(n: NodeState, block: FullBlock) {
    && NodeOk(n) && block.headerHash !in n.store
    && Attached(n.store, block) && BlockOk(n.store, block)
  }

  lemma StoredOk(s: BlockStore, h: Hash)
    requires StoreOk(s) && h in s
    ensures s[h].headerHash == h && Attached(s, s[h]) && BlockOk(s, s[h]) && s[h].weight >= DIFFICULTY_STARTING
  {
    AncestryOk(s, s[h]);
  }

  lemma GenesisWeight(s: BlockStore, block: FullBlock)
    requires Linked(s) && Attached(s, block) && BlockOk(s, block) && block.height == 0
    ensures block.weight == DIFFICULTY_STARTING
  {
  }

  /** What a state and a validated block provide for switching the peak. */
  lemma ReadyToAdd(n: NodeState, block: FullBlock, chain: seq<FullBlock>, peakChain: seq<FullBlock>)
    requires Addable(n, block) && chain == Ancestry(n.store, block) && peakChain == PeakChain(n.store, n.peak)
    ensures n.peak.None? ==> peakChain == [] && block.height == 0
    ensures n.peak.Some? ==>
      && n.store[n.peak.value].headerHash == n.peak.value
      && n.peak.value in n.records && n.records[n.peak.value] == ToRecord(n.store[n.peak.value])
    ensures n.peak.Some? && block.height == 0 ==> block.weight <= n.store[n.peak.value].weight
    ensures ChainOk(peakChain) && ChainOk(chain) && |chain| == block.height + 1
  {
    hide ChainOk;
    hide Replay;
    hide SesOf;
    hide IndexOk;
    hide BlockOk;
    hide StoreOk;
    hide Linked;
    AncestryOk(n.store, block);
    PeakChainOk(n.store, n.peak);
    if n.peak.Some? {
      StoredOk(n.store, n.peak.value);
    }
    if block.height == 0 {
      GenesisWeight(n.store, block);
    }
  }

  lemma ReadyToSwitch(n: NodeState, block: FullBlock, s1: BlockStore, chain: seq<FullBlock>)
    requires Addable(n, block) && s1 == n.store[block.headerHash := block] && chain == Ancestry(n.store, block)
    ensures StorePath(s1, chain, block.headerHash)
    ensures forall h :: h in s1 ==> s1[h].headerHash == h
    ensures forall i :: 0 <= i < |chain| ==> chain[i].headerHash in s1 && s1[chain[i].headerHash] == chain[i]
  {
    hide ChainOk;
    hide Replay;
    hide SesOf;
    hide IndexOk;
    hide StorePath;
    hide BlockOk;
    ExtendedView(n.store, n.records, n.peak, block);
  }

  /** Storing a block that does not overtake the peak keeps the state in agreement. */
  lemma OrphanOk(n: NodeState, block: FullBlock)
    requires Addable(n, block) && n.peak.Some? && block.weight <= n.store[n.peak.value].weight
    ensures NodeOk(n.(store := n.store[block.headerHash := block],
                      records := n.records[block.headerHash := ToRecord(block)]))
  {
    hide ChainOk;
    hide Replay;
    hide SesOf;
    hide IndexOk;
    hide StorePath;
    hide BlockOk;
    hide Mirrors;
    hide Ancestry;
    hide PeakChain;
    ExtendedView(n.store, n.records, n.peak, block);
    StoreOkExtend(n.store, block);
  }

  /** Making a heavier block the peak, with table and dictionaries those of its ancestry. */
  lemma NewPeakOk(n: NodeState, block: FullBlock, heightToHash: map<nat, Hash>, summaries: map<nat, Hash>, table: Table)
    requires Addable(n, block)
    requires n.peak.Some? ==> block.weight > n.store[n.peak.value].weight
    requires var chain := Ancestry(n.store, block);
      IndexOk(heightToHash, chain) && summaries == SesOf(chain) && table == Replay(chain)
    ensures NodeOk(NodeState(n.store[block.headerHash := block], Some(block.headerHash),
                             n.records[block.headerHash := ToRecord(block)], Some(block.height),
                             heightToHash, summaries, table))
  {
    hide ChainOk;
    hide Replay;
    hide SesOf;
    hide IndexOk;
    hide StorePath;
    hide BlockOk;
    hide Mirrors;
    hide Ancestry;
    hide PeakChain;
    ExtendedView(n.store, n.records, n.peak, block);
    StoreOkExtend(n.store, block);
  }

  /** What storing `block` leaves unchanged and what it adds. */
  lemma ExtendedView(s: BlockStore, records: Records, peak: Option<Hash>, block: FullBlock)
    requires Linked(s) && Mirrors(records, s) && PeakIn(s, peak) && Attached(s, block) && block.headerHash !in s
    ensures var s1 := s[block.headerHash := block];
      && PeakIn(s1, peak) && PeakIn(s1, Some(block.headerHash))
      && Mirrors(records[block.headerHash := ToRecord(block)], s1)
      && PeakChain(s1, peak) == PeakChain(s, peak)
      && PeakChain(s1, Some(block.headerHash)) == Ancestry(s, block)
      && StorePath(s1, Ancestry(s, block), block.headerHash)
      && (forall i :: 0 <= i <= block.height ==>
            Ancestry(s, block)[i].headerHash in s1 && s1[Ancestry(s, block)[i].headerHash] == Ancestry(s, block)[i])
  {
    var s1 := s[block.headerHash := block];
    LinkedExtend(s, block);
    AncestryStable(s, s1, block);
    if peak.Some? {
      AncestryStable(s, s1, s[peak.value]);
    }
    AncestryStorePath(s1, block);
  }

  lemma ValidationContext(s: BlockStore, records: Records, peak: Option<Hash>, block: FullBlock, forkPoint: Option<nat>)
    requires StoreOk(s) && Mirrors(records, s) && PeakIn(s, peak) && Attached(s, block)
    requires ForkPointOk(s, peak, block, forkPoint)
    ensures ChainOk(Parents(s, block)) && ChainOk(PeakChain(s, peak))
    ensures View(s, records, block, PeakRecord(records, peak), Parents(s, block), PeakChain(s, peak))
    ensures forkPoint.Some? && Parents(s, block) != [] && PeakChain(s, peak) != [] ==>
      ForkOk(PeakChain(s, peak), Parents(s, block), forkPoint.value)
  {
    PeakChainOk(s, peak);
    NodeView(s, records, peak, block);
    if block.height > 0 {
      assert BlockOk(s, s[block.prevHash]);
      AncestryOk(s, s[block.prevHash]);
      if forkPoint.Some? && peak.Some? {
        ForkPointIsFork(s, peak, block, forkPoint);
      }
    }
  }
}
