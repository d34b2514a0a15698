/** The spends of a block are what its generator makes of the generators it refers to.  This module puts
    the resolution of references and the reception of blocks together. */
module GeneratedSpends {
  import opened Primitives
  import opened Ledger
  import opened Chains
  import opened BlockStores
  import opened BodyValidation
  import opened Blockchains
  import opened Generators

  /** Running a generator with the generators it refers to. */
  type Run = (Hash, seq<Hash>) -> seq<Npc>

  predicate RefsBelow(b: FullBlock) {
    && (forall i :: 0 <= i < |b.generatorRefs| ==> b.generatorRefs[i] < b.height)
    && (b.generator.None? ==> b.generatorRefs == [])
  }

  function SpendsFrom(run: Run, b: FullBlock, r: Resolution): Option<seq<Npc>> {
    if b.tx.None? || b.generator.None? then Some([])
    else if r.Args? then Some(run(b.generator.value, r.generators))
    else None
  }

  /** The spends of a block, all references taken on its own ancestry. */
  ghost function OwnSpends(run: Run, s: BlockStore, b: FullBlock): Option<seq<Npc>>
    requires Linked(s) && Attached(s, b) && RefsBelow(b)
  {
    SpendsFrom(run, b, OwnResolution(s, b, b.generatorRefs))
  }

  /** The spends that the node computes in its current state. */
  ghost function NodeSpends(run: Run, n: NodeState, b: FullBlock): Option<seq<Npc>>
    requires Linked(n.store) && Attached(n.store, b) && RefsBelow(b)
  {
    SpendsFrom(run, b, ResolveAll(n, b, b.generatorRefs))
  }

  function WithSpends(b: FullBlock, npcs: seq<Npc>): FullBlock {
    if b.tx.Some? then b.(tx := Some(b.tx.value.(npcs := npcs))) else b
  }

  /** The block carries the spends of its own ancestry. */
  ghost predicate Generated(run: Run, s: BlockStore, b: FullBlock)
    requires Linked(s) && Attached(s, b)
  {
    RefsBelow(b) && (b.tx.Some? ==> OwnSpends(run, s, b) == Some(b.tx.value.npcs))
  }

  ghost predicate StoreGenerated(run: Run, s: BlockStore)
    requires Linked(s)
  {
    forall h :: h in s ==> Generated(run, s, s[h])
  }

  // ----- When the node computes the spends of the block's own ancestry -----

  lemma {:induction false} NodeSpendsAreOwn(run: Run, n: NodeState, b: FullBlock)
    requires NodeOk(n) && Attached(n.store, b) && RefsBelow(b) && ResolvesOwn(n, b)
    requires n.peak.Some? || b.height == 0
    ensures NodeSpends(run, n, b) == OwnSpends(run, n.store, b)
  {
    hide NodeOk;
    hide Linked;
    StateLinked(n);
    if b.generatorRefs != [] {
      assert b.generatorRefs[0] < b.height;
      ResolvedListIsOwn(n, b, b.generatorRefs);
    }
  }

  lemma {:induction false} StateLinked(n: NodeState)
    requires NodeOk(n)
    ensures Linked(n.store) && (n.peak.Some? ==> n.peak.value in n.store)
  {
  }

  // ----- Running the generators of ancestors again -----

  /** References of stored blocks point below the block; check 8c refuses others. */
  ghost predicate RefsOk(s: BlockStore) {
    forall h :: h in s ==> RefsBelow(s[h])
  }

  lemma GeneratedRefsOk(run: Run, s: BlockStore)
    requires Linked(s) && StoreGenerated(run, s)
    ensures RefsOk(s)
  {
    forall h | h in s ensures RefsBelow(s[h]) {
      assert Generated(run, s, s[h]);
    }
  }

  /** Run again in this state, the generator gives the spends that the block is stored with. */
  ghost predicate RerunAgrees(run: Run, n: NodeState, b: FullBlock)
    requires Linked(n.store) && Attached(n.store, b) && RefsBelow(b)
  {
    b.tx.Some? ==> NodeSpends(run, n, b) == Some(b.tx.value.npcs)
  }

  /** So do those of all ancestors of `block` above height `lo`. */
  ghost predicate BranchAgrees(run: Run, n: NodeState, block: FullBlock, lo: int)
    requires Linked(n.store) && Attached(n.store, block) && RefsOk(n.store)
  {
    forall i: nat :: lo < i < block.height ==> RerunAgrees(run, n, Ancestry(n.store, block)[i])
  }

  /** The references of the block and of all its ancestors resolve on their own ancestry. */
  ghost predicate BranchResolvesOwn(n: NodeState, block: FullBlock)
    requires Linked(n.store) && Attached(n.store, block)
  {
    forall i: nat :: i <= block.height ==> ResolvesOwn(n, Ancestry(n.store, block)[i])
  }

  /** It is enough that no ancestor above the peak is a stale entry or missing from the index. */
  lemma {:induction false} NoStaleIsOwn(n: NodeState, block: FullBlock)
    requires PeakIn(n.store, n.peak) && n.peak.Some? && Attached(n.store, block) && NoStaleAncestor(n, block)
    ensures BranchResolvesOwn(n, block)
  {
    hide Linked;
    hide Ancestry;
    forall i: nat | i <= block.height ensures ResolvesOwn(n, Ancestry(n.store, block)[i]) {
      if i > 0 {
        AncestryStep(n.store, block, i);
        assert n.store[n.peak.value].height < i - 1 ==> NotNamed(n, block, i - 1);
      }
    }
  }

  /** While a block is validated and while its branch is replayed, the generators of its ancestors are run
      again.  Where the references of the branch resolve on their own ancestry, all these runs give the
      stored spends; `BranchRefsResolveExactly` says when that is. */
  lemma {:induction false} RerunsAreOwn(run: Run, n: NodeState, block: FullBlock)
    requires NodeOk(n) && Attached(n.store, block) && StoreGenerated(run, n.store) && BranchResolvesOwn(n, block)
    ensures RefsOk(n.store) && BranchAgrees(run, n, block, -1)
  {
    hide NodeOk;
    hide Ancestry;
    hide ResolvesOwn;
    StateLinked(n);
    GeneratedRefsOk(run, n.store);
    forall i: nat | i < block.height ensures RerunAgrees(run, n, Ancestry(n.store, block)[i]) {
      var b := Ancestry(n.store, block)[i];
      assert Generated(run, n.store, n.store[b.headerHash]);
      PeakIsKnown(n, block);
      NodeSpendsAreOwn(run, n, b);
    }
  }

  // ----- Stores keep the spends of their blocks -----

  lemma {:induction false} ResolutionStable(s: BlockStore, s': BlockStore, b: FullBlock, refs: seq<nat>)
    requires Linked(s) && Linked(s') && Chains.Extends(s, s') && Attached(s, b)
    requires forall i :: 0 <= i < |refs| ==> refs[i] < b.height
    ensures Attached(s', b) && OwnResolution(s', b, refs) == OwnResolution(s, b, refs)
    decreases |refs|
  {
    ParentsStable(s, s', b);
    hide Linked;
    hide Parents;
    if refs != [] {
      ResolutionStable(s, s', b, refs[..|refs| - 1]);
    }
  }

  lemma {:induction false} ResolutionIgnoresSpends(s: BlockStore, b: FullBlock, npcs: seq<Npc>, refs: seq<nat>)
    requires Linked(s) && Attached(s, b) && forall i :: 0 <= i < |refs| ==> refs[i] < b.height
    ensures Attached(s, WithSpends(b, npcs)) && Parents(s, WithSpends(b, npcs)) == Parents(s, b)
    ensures OwnResolution(s, WithSpends(b, npcs), refs) == OwnResolution(s, b, refs)
    decreases |refs|
  {
    if refs != [] {
      ResolutionIgnoresSpends(s, b, npcs, refs[..|refs| - 1]);
    }
  }

  lemma {:induction false} GeneratedStable(run: Run, s: BlockStore, s': BlockStore, b: FullBlock)
    requires Linked(s) && Linked(s') && Chains.Extends(s, s') && Attached(s, b) && Generated(run, s, b)
    ensures Attached(s', b) && Generated(run, s', b)
  {
    hide Linked;
    hide OwnResolution;
    hide Extends;
    hide Attached;
    ResolutionStable(s, s', b, b.generatorRefs);
  }

  lemma {:induction false} OwnIsGenerated(run: Run, s: BlockStore, b: FullBlock, npcs: seq<Npc>)
    requires Linked(s) && Attached(s, b) && RefsBelow(b) && OwnSpends(run, s, b) == Some(npcs)
    ensures Attached(s, WithSpends(b, npcs)) && Generated(run, s, WithSpends(b, npcs))
  {
    hide Linked;
    hide OwnResolution;
    hide Parents;
    hide Attached;
    ResolutionIgnoresSpends(s, b, npcs, b.generatorRefs);
  }

  /** Storing a block with the spends of its own ancestry keeps that true of all stored blocks. */
  lemma {:induction false} StoreGeneratedExtend(run: Run, s: BlockStore, b: FullBlock, npcs: seq<Npc>)
    requires Linked(s) && StoreGenerated(run, s) && Attached(s, b) && RefsBelow(b) && b.headerHash !in s
    requires OwnSpends(run, s, b) == Some(npcs)
    ensures var s' := s[b.headerHash := WithSpends(b, npcs)]; Linked(s') && StoreGenerated(run, s')
  {
    hide Generated;
    hide OwnSpends;
    var own := WithSpends(b, npcs);
    var s' := s[b.headerHash := own];
    OwnIsGenerated(run, s, b, npcs);
    LinkedExtend(s, own);
    forall h | h in s' ensures Generated(run, s', s'[h]) {
      assert h in s ==> Generated(run, s, s[h]);
      GeneratedStable(run, s, s', s'[h]);
    }
  }

  // ----- Receiving a block as it comes from the wire -----

  /** The block, with the spends of its own ancestry, is valid on top of its own ancestors. */
  ghost predicate ValidWithOwnSpends(run: Run, s: BlockStore, block: FullBlock, difficulty: nat, otherChecks: bool)
    requires Linked(s) && Attached(s, block) && RefsBelow(block)
  {
    && OwnSpends(run, s, block).Some?
    && var own := WithSpends(block, OwnSpends(run, s, block).value);
       HeaderOk(s, own, difficulty, otherChecks) && BodyOk(Parents(s, block), own)
  }

  /** The generators that a block refers to; only a transaction block has a generator to run. */
  method ResolveRefs(n: NodeState, block: FullBlock, peak: Option<BlockRecord>) returns (r: Resolution)
    requires NodeOk(n) && Attached(n.store, block) && RefsBelow(block)
    requires peak == PeakRecord(n.records, n.peak) && (n.peak.Some? ==> n.peak.value in n.records)
    ensures r == if block.tx.None? || block.generator.None? then Args([]) else ResolveAll(n, block, block.generatorRefs)
  {
    hide NodeOk;
    if block.tx.None? || block.generator.None? || |block.generatorRefs| == 0 {
      return Args([]);
    }
    assert block.generatorRefs[0] < block.height;
    PeakIsKnown(n, block);
    r := GetBlockGenerator(n, block, peak.value);
  }

  lemma {:induction false} PeakIsKnown(n: NodeState, block: FullBlock)
    requires NodeOk(n) && Attached(n.store, block) && block.height > 0
    ensures n.peak.Some? && n.peak.value in n.store && n.peak.value in n.records
    ensures n.records[n.peak.value] == ToRecord(n.store[n.peak.value])
  {
  }

  /** Runs the generator of a stored block again and compares. */
  method Rerun(n: NodeState, run: Run, b: FullBlock, peak: Option<BlockRecord>) returns (same: bool)
    requires NodeOk(n) && Attached(n.store, b) && RefsBelow(b)
    requires peak == PeakRecord(n.records, n.peak) && (n.peak.Some? ==> n.peak.value in n.records)
    ensures same <==> RerunAgrees(run, n, b)
  {
    hide NodeOk;
    hide ResolveAll;
    StateLinked(n);
    var r := ResolveRefs(n, b, peak);
    same := b.tx.Some? ==> SpendsFrom(run, b, r) == Some(b.tx.value.npcs);
  }

  /** Walks back from the parent to the fork and runs every generator on the way again. */
  method RerunBranch(n: NodeState, run: Run, block: FullBlock, peak: Option<BlockRecord>, forkPoint: Option<nat>)
    returns (same: bool)
    requires NodeOk(n) && Attached(n.store, block) && RefsOk(n.store) && block.height > 0
    requires n.peak.Some? && n.peak.value in n.records && peak == PeakRecord(n.records, n.peak)
    requires ForkPointOk(n.store, n.peak, block, forkPoint)
    ensures same ==> BranchAgrees(run, n, block, n.store[n.peak.value].height)
    ensures !same ==> !BranchAgrees(run, n, block, -1)
  {
    hide NodeOk;
    hide Ancestry;
    hide Linked;
    hide RerunAgrees;
    hide RefsBelow;
    hide View;
    hide ForkPointOk;
    hide ChainOk;
    WalkContext(n, block, forkPoint);
    var forkH := ForkHeight(n.records, peak, block, forkPoint, n.store, Parents(n.store, block),
                            PeakChain(n.store, n.peak));
    var curr := n.store[block.prevHash];
    AncestryStep(n.store, block, block.height);
    while curr.height > forkH
      invariant curr.height < block.height && curr == Ancestry(n.store, block)[curr.height]
      invariant BranchAgrees(run, n, block, curr.height)
      decreases curr.height
    {
      same := Rerun(n, run, curr, peak);
      if !same {
        return;
      }
      assert BranchAgrees(run, n, block, curr.height - 1);
      if curr.height == 0 {
        break;
      }
      AncestryStep(n.store, block, curr.height);
      curr := n.store[curr.prevHash];
    }
    same := true;
  }

  lemma {:induction false} WalkContext(n: NodeState, block: FullBlock, forkPoint: Option<nat>)
    requires NodeOk(n) && Attached(n.store, block) && ForkPointOk(n.store, n.peak, block, forkPoint)
    requires n.peak.Some? && n.peak.value in n.records
    ensures PeakIn(n.store, n.peak) && |PeakChain(n.store, n.peak)| == n.store[n.peak.value].height + 1
    ensures View(n.store, n.records, block, PeakRecord(n.records, n.peak), Parents(n.store, block), PeakChain(n.store, n.peak))
    ensures forkPoint.Some? && Parents(n.store, block) != [] && PeakChain(n.store, n.peak) != [] ==>
      ForkOk(PeakChain(n.store, n.peak), Parents(n.store, block), forkPoint.value)
  {
    hide View;
    hide StoreOk;
    hide ForkOk;
    hide Parents;
    hide Ancestry;
    hide ForkPointOk;
    hide ChainOk;
    ValidationContext(n.store, n.records, n.peak, block, forkPoint);
  }

  /** Raised is the exception for a missing key.  Astray means that running the generator of an ancestor again
      did not give the spends it is stored with; what the node makes of them is not followed further. */
  datatype Outcome = Raised | Astray | Done(result: ReceiveBlockResult)

  predicate Accepted(o: Outcome) {
    o == Done(NewPeak) || o == Done(AddedAsOrphan)
  }

  /** Receives a block together with running its generator, and again those of its ancestors since the fork
      whenever its body is validated or it overtakes the peak.  If the references of the block and of its
      ancestors resolve on their own ancestry, the block is accepted exactly when it is
      valid with the spends of that ancestry, and it is stored with them. */
  method ReceiveGenerated(
    node: Blockchain, run: Run, block: FullBlock, difficulty: nat, otherChecks: bool, forkPoint: Option<nat>)
    returns (outcome: Outcome)
    requires node.Valid() && difficulty >= 1 && ForkPointOk(node.store, node.dbPeak, block, forkPoint)
    requires RefsBelow(block) && RefsOk(node.store)
    modifies node, node.coinStore, node.coinStore.cache
    ensures node.Valid() && RefsOk(node.store)
    ensures block.headerHash in old(node.store) ==> outcome == Done(AlreadyHaveBlock)
    ensures Linked(old(node.store)) && Linked(node.store)
    ensures block.headerHash !in old(node.store) && Attached(old(node.store), block)
            && StoreGenerated(run, old(node.store)) && BranchResolvesOwn(old(node.State()), block) ==>
      && outcome.Done? && StoreGenerated(run, node.store)
      && (Accepted(outcome) <==> ValidWithOwnSpends(run, old(node.store), block, difficulty, otherChecks))
      && (Accepted(outcome) ==>
            node.store == old(node.store)[block.headerHash := WithSpends(block, OwnSpends(run, old(node.store), block).value)])
    ensures outcome.Astray? ==> Attached(old(node.store), block) && !BranchAgrees(run, old(node.State()), block, -1)
    ensures Accepted(outcome) && (block.tx.Some? || outcome == Done(NewPeak)) && old(node.dbPeak).Some? ==>
      && Attached(old(node.store), block) && old(node.dbPeak).value in old(node.store)
      && BranchAgrees(run, old(node.State()), block, old(node.store)[old(node.dbPeak).value].height)
    ensures !Accepted(outcome) ==> node.State() == old(node.State())
  {
    hide NodeOk;
    hide HeaderOk;
    hide BodyOk;
    hide OwnResolution;
    hide ResolveAll;
    hide Linked;
    hide HashesOf;
    hide Ancestry;
    hide Parents;
    hide BranchResolvesOwn;
    hide ResolvesOwn;
    hide StoreGenerated;
    hide Mirrors;
    hide BranchAgrees;
    hide RefsBelow;
    hide ForkPointOk;
    hide RefsOk;
    var n := NodeState(node.store, node.dbPeak, node.records, node.peakHeight, node.heightToHash, node.summaries,
                       node.coinStore.table);
    RecordsMirror(n);
    if block.headerHash in node.records {
      return Done(AlreadyHaveBlock);
    }
    if block.height > 0 && block.prevHash !in node.records {
      return Done(DisconnectedBlock);
    }
    if block.height > 0 && node.records[block.prevHash].height + 1 != block.height {
      return Done(InvalidBlock);
    }
    BranchIsOwn(run, n, block);
    var peak := node.GetPeak();
    var r := ResolveRefs(n, block, peak);
    if r.KeyMissing? {
      return Raised;
    }
    if !r.Args? {
      return Done(InvalidBlock);
    }
    var npcs := SpendsFrom(run, block, r).value;
    if peak.Some? && block.height > 0 && (block.tx.Some? || block.weight > peak.value.weight) {
      var same := RerunBranch(n, run, block, peak, forkPoint);
      if !same {
        return Astray;
      }
    }
    SeenBlock(n.store, node.dbPeak, block, npcs, forkPoint);
    var received := node.ReceiveBlock(WithSpends(block, npcs), difficulty, otherChecks, forkPoint);
    outcome := Done(received);
    StoredWithOwn(run, n.store, block, npcs);
    RecordsMirror(node.State());
  }

  lemma {:induction false} RecordsMirror(n: NodeState)
    requires NodeOk(n)
    ensures PeakIn(n.store, n.peak) && n.records.Keys == n.store.Keys
    ensures forall h :: h in n.store ==> n.records[h].height == n.store[h].height && n.records[h].weight == n.store[h].weight
    ensures n.peakHeight == if n.peak.None? then None else Some(n.store[n.peak.value].height)
    ensures n.peak.None? ==> n.store == map[]
  {
  }

  /** What the condition on references gives: the block's own spends, and reruns that agree. */
  lemma {:induction false} BranchIsOwn(run: Run, n: NodeState, block: FullBlock)
    requires NodeOk(n) && Attached(n.store, block) && RefsBelow(block) && RefsOk(n.store)
    ensures Linked(n.store)
    ensures BranchResolvesOwn(n, block) ==>
      ResolveAll(n, block, block.generatorRefs) == OwnResolution(n.store, block, block.generatorRefs)
    ensures BranchResolvesOwn(n, block) && StoreGenerated(run, n.store) ==> BranchAgrees(run, n, block, -1)
    ensures !OwnResolution(n.store, block, block.generatorRefs).KeyMissing?
    ensures block.height == 0 ==> forall lo: int :: BranchAgrees(run, n, block, lo)
  {
    hide NodeOk;
    hide ResolvesOwn;
    StateLinked(n);
    hide Linked;
    hide StoreGenerated;
    NeverMissing(n.store, block, block.generatorRefs);
    if BranchResolvesOwn(n, block) {
      assert ResolvesOwn(n, Ancestry(n.store, block)[block.height]);
      if block.generatorRefs != [] {
        assert block.generatorRefs[0] < block.height;
        PeakIsKnown(n, block);
        ResolvedListIsOwn(n, block, block.generatorRefs);
      }
      if StoreGenerated(run, n.store) {
        RerunsAreOwn(run, n, block);
      }
    }
  }

  lemma {:induction false} StoredWithOwn(run: Run, s: BlockStore, block: FullBlock, npcs: seq<Npc>)
    requires Linked(s) && Attached(s, block) && RefsBelow(block) && RefsOk(s) && block.headerHash !in s
    ensures RefsOk(s[block.headerHash := WithSpends(block, npcs)])
    ensures StoreGenerated(run, s) && OwnSpends(run, s, block) == Some(npcs) ==>
      var s' := s[block.headerHash := WithSpends(block, npcs)]; Linked(s') && StoreGenerated(run, s')
  {
    hide Linked;
    hide StoreGenerated;
    hide OwnSpends;
    if StoreGenerated(run, s) && OwnSpends(run, s, block) == Some(npcs) {
      StoreGeneratedExtend(run, s, block, npcs);
    }
  }

  lemma {:induction false} NeverMissing(s: BlockStore, b: FullBlock, refs: seq<nat>)
    requires Linked(s) && Attached(s, b) && forall i :: 0 <= i < |refs| ==> refs[i] < b.height
    ensures !OwnResolution(s, b, refs).KeyMissing?
    decreases |refs|
  {
    if refs != [] {
      NeverMissing(s, b, refs[..|refs| - 1]);
    }
  }

  lemma {:induction false} SeenBlock(s: BlockStore, peak: Option<Hash>, b: FullBlock, npcs: seq<Npc>, forkPoint: Option<nat>)
    requires PeakIn(s, peak) && Attached(s, b) && ForkPointOk(s, peak, b, forkPoint)
    ensures var seen := WithSpends(b, npcs);
      && seen.headerHash == b.headerHash && Attached(s, seen) && Parents(s, seen) == Parents(s, b)
      && ForkPointOk(s, peak, seen, forkPoint)
  {
  }
}
