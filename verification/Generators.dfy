/** Block generators may refer to generators of earlier blocks by height.  A height must mean the
    block's own ancestor, whatever chain the peak is on. */
module Generators {
  import opened Primitives
  import opened Ledger
  import opened Chains
  import opened BlockStores
  import opened BodyValidation
  import opened Blockchains

  datatype Resolution = NoGenerator | Args(generators: seq<Hash>) | RefHasNoGenerator | KeyMissing

  /** The parent is the block the height index names at its height. */
  predicate IndexNamesParent(heightToHash: map<nat, Hash>, parent: FullBlock) {
    parent.height in heightToHash && heightToHash[parent.height] == parent.headerHash
  }

  /** The block that the lookup of reference height `ref` reaches, or None if a dictionary key is
      missing: the height index when it names the parent, otherwise the branch itself. */
  ghost function RefBlock(n: NodeState, block: FullBlock, ref: nat): Option<FullBlock>
    requires Linked(n.store) && Attached(n.store, block) && ref < block.height
  {
    var parent := n.store[block.prevHash];
    if parent.height !in n.heightToHash then None
    else if IndexNamesParent(n.heightToHash, parent) then
      if ref in n.heightToHash && n.heightToHash[ref] in n.store then Some(n.store[n.heightToHash[ref]]) else None
    else Some(Parents(n.store, block)[ref])
  }

  // ----- When the answer is the block's own ancestor -----

  lemma IndexedParent(n: NodeState, block: FullBlock, ref: nat)
    requires NodeOk(n) && Attached(n.store, block) && ref < block.height
    requires n.peak.Some? && block.height - 1 <= n.store[n.peak.value].height
    ensures block.height - 1 in n.heightToHash
    ensures IndexNamesParent(n.heightToHash, n.store[block.prevHash]) ==>
      RefBlock(n, block, ref) == Some(Parents(n.store, block)[ref])
  {
    hide ChainOk;
    hide Replay;
    hide SesOf;
    hide StoreOk;
    var p, peak := n.store[block.prevHash], n.store[n.peak.value];
    var c, pc := Ancestry(n.store, p), Ancestry(n.store, peak);
    assert n.heightToHash[p.height] == pc[p.height].headerHash;
    if IndexNamesParent(n.heightToHash, p) {
      SameBlockSameAncestor(n.store, p, peak, ref);
      assert n.heightToHash[ref] == pc[ref].headerHash;
    }
  }

  /** If the peak's chain has `p` at its height, the two ancestries agree at every lower height. */
  lemma SameBlockSameAncestor(s: BlockStore, p: FullBlock, peak: FullBlock, ref: nat)
    requires Linked(s) && p.headerHash in s && s[p.headerHash] == p && Attached(s, p)
    requires peak.headerHash in s && s[peak.headerHash] == peak && Attached(s, peak)
    requires ref <= p.height <= peak.height
    requires Ancestry(s, peak)[p.height].headerHash == p.headerHash
    ensures Ancestry(s, peak)[ref] == Ancestry(s, p)[ref] && s[Ancestry(s, p)[ref].headerHash] == Ancestry(s, p)[ref]
    ensures Ancestry(s, p)[ref].headerHash in s
  {
    var pc := Ancestry(s, peak);
    assert pc[p.height] == p;
    AncestryPrefix(s, peak, p.height);
    assert pc[..p.height + 1][ref] == pc[ref];
  }

  /** A stale entry that names the parent above the peak leads to the peak itself, which is not an
      ancestor of the block: it would be heavier than the heaviest block. */
  lemma StaleParent(n: NodeState, block: FullBlock)
    requires NodeOk(n) && Attached(n.store, block) && n.peak.Some? && block.height > 0
    requires n.store[n.peak.value].height < block.height - 1
    requires IndexNamesParent(n.heightToHash, n.store[block.prevHash])
    ensures var ref := n.store[n.peak.value].height;
      RefBlock(n, block, ref) == Some(n.store[n.peak.value]) && Parents(n.store, block)[ref] != n.store[n.peak.value]
  {
    hide ChainOk;
    hide Replay;
    hide SesOf;
    var p, peak := n.store[block.prevHash], n.store[n.peak.value];
    var pc := Ancestry(n.store, peak);
    assert n.heightToHash[peak.height] == pc[peak.height].headerHash;
    WeightGrows(n.store, p, peak.height);
  }

  /** Every reference below the block resolves to its own ancestor exactly when the parent is not
      above the peak, or the index holds another block at the parent's height.  The index is never
      trimmed, so after a reorganisation to a heavier but shorter chain the condition can fail. */
  lemma RefsResolveExactly(n: NodeState, block: FullBlock)
    requires NodeOk(n) && Attached(n.store, block) && n.peak.Some? && block.height > 0
    ensures var parent := n.store[block.prevHash];
      (forall ref: nat :: ref < block.height ==> RefBlock(n, block, ref) == Some(Parents(n.store, block)[ref]))
      <==> (parent.height <= n.store[n.peak.value].height
            || (parent.height in n.heightToHash && n.heightToHash[parent.height] != parent.headerHash))
  {
    hide ChainOk;
    hide Replay;
    hide SesOf;
    hide StoreOk;
    hide IndexOk;
    var parent := n.store[block.prevHash];
    if parent.height <= n.store[n.peak.value].height {
      forall ref: nat | ref < block.height ensures RefBlock(n, block, ref) == Some(Parents(n.store, block)[ref]) {
        IndexedParent(n, block, ref);
      }
    } else if IndexNamesParent(n.heightToHash, parent) {
      StaleParent(n, block);
    } else if parent.height !in n.heightToHash {
      assert RefBlock(n, block, 0) == None;
    }
  }

  // ----- The lookup as coded -----

  /** Looks the references up in order and stops at the first that fails. */
  ghost function ResolveAll(n: NodeState, block: FullBlock, refs: seq<nat>): Resolution
    requires Linked(n.store) && Attached(n.store, block) && forall i :: 0 <= i < |refs| ==> refs[i] < block.height
  {
    if refs == [] then Args([]) else
      var before := ResolveAll(n, block, refs[..|refs| - 1]);
      if !before.Args? then before else
        match RefBlock(n, block, refs[|refs| - 1])
        case None => KeyMissing
        case Some(b) => if b.generator.None? then RefHasNoGenerator else Args(before.generators + [b.generator.value])
  }

  lemma {:induction false} ResolutionStops(n: NodeState, block: FullBlock, refs: seq<nat>, k: nat)
    requires Linked(n.store) && Attached(n.store, block) && forall i :: 0 <= i < |refs| ==> refs[i] < block.height
    requires k <= |refs| && !ResolveAll(n, block, refs[..k]).Args?
    ensures ResolveAll(n, block, refs) == ResolveAll(n, block, refs[..k])
  {
    if k < |refs| {
      assert refs[..|refs| - 1][..k] == refs[..k];
      ResolutionStops(n, block, refs[..|refs| - 1], k);
    } else {
      assert refs[..k] == refs;
    }
  }

  /** The part of the branch between the parent and the fork, by height. */
  method ReorgChain(s: BlockStore, parent: FullBlock, fork: int, ghost chain: seq<FullBlock>)
    returns (reorg: map<nat, FullBlock>)
    requires StorePath(s, chain, parent.headerHash) && parent.height + 1 == |chain| && parent == chain[parent.height]
    requires forall i :: 0 <= i < |chain| ==> chain[i].height == i
    requires -1 <= fork < |chain|
    ensures reorg == Slice(chain, if fork < 0 then 0 else fork, |chain|)
  {
    hide Slice;
    var curr := parent;
    reorg := map[curr.height := curr];
    EmptySlice(chain, |chain|);
    SliceDown(chain, |chain|, |chain|);
    while curr.height > fork && curr.height > 0
      invariant fork <= curr.height < |chain| && curr == chain[curr.height]
      invariant reorg == Slice(chain, curr.height, |chain|)
      decreases curr.height
    {
      assert StoreLink(s, chain, curr.height);
      ghost var h := curr.height;
      curr := s[curr.prevHash];
      assert curr == chain[h - 1] && curr.height == h - 1;
      SliceDown(chain, h, |chain|);
      reorg := reorg[curr.height := curr];
      assert reorg == Slice(chain, h - 1, |chain|);
    }
  }

  /** One reference on a branch: from the collected blocks, or below the fork from the index. */
  lemma BranchRef(n: NodeState, block: FullBlock, fork: int, ref: nat)
    requires NodeOk(n) && Attached(n.store, block) && n.peak.Some? && ref < block.height
    requires CommonAncestor(n.store, n.store[n.peak.value], n.store[block.prevHash], fork) && ref < fork
    ensures ref in n.heightToHash && n.heightToHash[ref] in n.store
    ensures n.store[n.heightToHash[ref]] == Parents(n.store, block)[ref]
  {
    hide ChainOk;
    hide Replay;
    hide SesOf;
    hide StoreOk;
    var p, peak := n.store[block.prevHash], n.store[n.peak.value];
    CommonPrefix(n.store, peak, p, fork);
    assert Ancestry(n.store, peak)[..fork + 1][ref] == Ancestry(n.store, p)[..fork + 1][ref];
    assert n.heightToHash[ref] == Ancestry(n.store, peak)[ref].headerHash;
  }

  /** The lookup tables: either the index is used, or the branch down to the fork is at hand. */
  ghost predicate Prepared(n: NodeState, block: FullBlock, fast: bool, reorg: map<nat, FullBlock>, fork: int) {
    && NodeOk(n) && Attached(n.store, block) && block.height > 0 && n.peak.Some?
    && n.store[block.prevHash].height in n.heightToHash
    && (fast <==> IndexNamesParent(n.heightToHash, n.store[block.prevHash]))
    && (!fast ==>
          && CommonAncestor(n.store, n.store[n.peak.value], n.store[block.prevHash], fork)
          && (forall h :: h in reorg <==> fork <= h < block.height && 0 <= h)
          && (forall h :: h in reorg ==> reorg[h] == Parents(n.store, block)[h]))
  }

  method Prepare(n: NodeState, block: FullBlock, peak: BlockRecord)
    returns (fast: bool, reorg: map<nat, FullBlock>, ghost fork: int)
    requires NodeOk(n) && Attached(n.store, block) && block.height > 0
    requires n.peak.Some? && peak == ToRecord(n.store[n.peak.value])
    requires n.store[block.prevHash].height in n.heightToHash
    ensures Prepared(n, block, fast, reorg, fork)
  {
    hide ChainOk;
    hide Replay;
    hide SesOf;
    hide StoreOk;
    hide Ancestry;
    hide IndexOk;
    hide IsPath;
    hide HashesIdentify;
    hide Mirrors;
    hide Heaviest;
    hide Prepared;
    hide Slice;
    hide StorePath;
    NodeParts(n, block);
    var parent := n.records[block.prevHash];
    fast, reorg, fork := n.heightToHash[parent.height] == block.prevHash, map[], -1;
    if !fast {
      var f := FindForkPointInChain(n.records, peak, parent, Ancestry(n.store, n.store[n.peak.value]),
                                    Ancestry(n.store, n.store[block.prevHash]));
      ghost var chain := Ancestry(n.store, n.store[block.prevHash]);
      AncestryStorePath(n.store, n.store[block.prevHash]);
      reorg := ReorgChain(n.store, n.store[block.prevHash], f, chain);
      fork := f;
      SlowPrepared(n, block, reorg, fork);
    } else {
      FastPrepared(n, block);
    }
  }

  lemma FastPrepared(n: NodeState, block: FullBlock)
    requires NodeOk(n) && Attached(n.store, block) && block.height > 0 && n.peak.Some?
    requires n.store[block.prevHash].height in n.heightToHash
    requires n.heightToHash[n.store[block.prevHash].height] == block.prevHash
    ensures Prepared(n, block, true, map[], -1)
  {
    hide ChainOk;
    hide Replay;
    hide SesOf;
    hide BlockOk;
    hide Ancestry;
    hide IndexOk;
  }

  lemma SlowPrepared(n: NodeState, block: FullBlock, reorg: map<nat, FullBlock>, fork: int)
    requires NodeOk(n) && Attached(n.store, block) && block.height > 0 && n.peak.Some?
    requires n.store[block.prevHash].height in n.heightToHash
    requires n.heightToHash[n.store[block.prevHash].height] != block.prevHash
    requires CommonAncestor(n.store, n.store[n.peak.value], n.store[block.prevHash], fork)
    requires reorg == Slice(Ancestry(n.store, n.store[block.prevHash]), if fork < 0 then 0 else fork, block.height)
    ensures Prepared(n, block, false, reorg, fork)
  {
    hide ChainOk;
    hide Replay;
    hide SesOf;
    hide BlockOk;
    hide IndexOk;
    hide Slice;
    hide Ancestry;
    hide Mirrors;
    hide Heaviest;
    hide PeakChain;
    SliceIs(Ancestry(n.store, n.store[block.prevHash]), if fork < 0 then 0 else fork, block.height);
  }

  method FetchRef(n: NodeState, block: FullBlock, ref: nat, fast: bool, reorg: map<nat, FullBlock>, ghost fork: int)
    returns (b: Option<FullBlock>)
    requires Prepared(n, block, fast, reorg, fork) && ref < block.height
    ensures b == RefBlock(n, block, ref)
  {
    hide ChainOk;
    hide Replay;
    hide SesOf;
    hide StoreOk;
    hide Ancestry;
    hide IndexOk;
    if !fast && ref in reorg {
      return Some(reorg[ref]);
    }
    if !fast {
      BranchRef(n, block, fork, ref);
    }
    if ref !in n.heightToHash || n.heightToHash[ref] !in n.store {
      return None;
    }
    b := Some(n.store[n.heightToHash[ref]]);
  }

  /** Resolves the generator references of a block: the outcome is that of `RefBlock` for every
      reference, so `RefsResolveExactly` says when each is the block's own ancestor. */
  method GetBlockGenerator(n: NodeState, block: FullBlock, peak: BlockRecord) returns (r: Resolution)
    requires NodeOk(n) && Attached(n.store, block) && block.height > 0
    requires n.peak.Some? && peak == ToRecord(n.store[n.peak.value])
    requires block.generator.None? ==> block.generatorRefs == []
    requires forall i :: 0 <= i < |block.generatorRefs| ==> block.generatorRefs[i] < block.height
    ensures r == if block.generator.None? then NoGenerator else ResolveAll(n, block, block.generatorRefs)
  {
    hide NodeOk;
    hide Prepared;
    hide RefBlock;
    hide Linked;
    hide Ancestry;
    hide Parents;
    hide IsPath;
    hide HashesIdentify;
    NodeParts(n, block);
    if block.generator.None? {
      return NoGenerator;
    }
    var refs := block.generatorRefs;
    if |refs| == 0 {
      return Args([]);
    }
    if n.records[block.prevHash].height !in n.heightToHash {
      MissingParent(n, block);
      return KeyMissing;
    }
    var fast, reorg;
    ghost var fork;
    fast, reorg, fork := Prepare(n, block, peak);
    var generators: seq<Hash> := [];
    for i := 0 to |refs|
      invariant ResolveAll(n, block, refs[..i]) == Args(generators)
    {
      assert refs[..i + 1][..i] == refs[..i];
      var b := FetchRef(n, block, refs[i], fast, reorg, fork);
      if b.None? {
        ResolutionStops(n, block, refs, i + 1);
        return KeyMissing;
      }
      if b.value.generator.None? {
        ResolutionStops(n, block, refs, i + 1);
        return RefHasNoGenerator;
      }
      generators := generators + [b.value.generator.value];
    }
    assert refs[..|refs|] == refs;
    r := Args(generators);
  }

  lemma NodeParts(n: NodeState, block: FullBlock)
    requires NodeOk(n) && Attached(n.store, block) && block.height > 0 && n.peak.Some?
    ensures Linked(n.store) && block.prevHash in n.store && n.peak.value in n.store
    ensures block.prevHash in n.records && n.records[block.prevHash] == ToRecord(n.store[block.prevHash])
    ensures n.store[block.prevHash].headerHash == block.prevHash
    ensures Attached(n.store, n.store[block.prevHash]) && Attached(n.store, n.store[n.peak.value])
    ensures var c1, c2 := Ancestry(n.store, n.store[n.peak.value]), Ancestry(n.store, n.store[block.prevHash]);
      && IsPath(n.records, c1) && IsPath(n.records, c2) && HashesIdentify(c1, c2)
      && c1[|c1| - 1] == n.store[n.peak.value] && c2[|c2| - 1] == n.store[block.prevHash]
      && |c1| == n.store[n.peak.value].height + 1 && |c2| == block.height
      && Parents(n.store, block) == c2
  {
    hide ChainOk;
    hide Replay;
    hide SesOf;
    hide BlockOk;
    hide IndexOk;
    AncestryIsPath(n.records, n.store, n.store[n.peak.value]);
    AncestryIsPath(n.records, n.store, n.store[block.prevHash]);
    AncestryHashesIdentify(n.store, n.store[n.peak.value], n.store[block.prevHash]);
  }

  lemma MissingParent(n: NodeState, block: FullBlock)
    requires Linked(n.store) && Attached(n.store, block) && block.height > 0
    requires n.store[block.prevHash].height !in n.heightToHash
    requires block.generatorRefs != [] && forall i :: 0 <= i < |block.generatorRefs| ==> block.generatorRefs[i] < block.height
    ensures ResolveAll(n, block, block.generatorRefs) == KeyMissing
  {
    var refs := block.generatorRefs;
    assert refs[..1][..0] == [];
    assert RefBlock(n, block, refs[..1][0]) == None;
    ResolutionStops(n, block, refs, 1);
  }

  // ----- The resolved list -----

  /** The references looked up on the block's own ancestry. */
  ghost function OwnResolution(s: BlockStore, block: FullBlock, refs: seq<nat>): Resolution
    requires Linked(s) && Attached(s, block) && forall i :: 0 <= i < |refs| ==> refs[i] < block.height
  {
    if refs == [] then Args([]) else
      var before := OwnResolution(s, block, refs[..|refs| - 1]);
      if !before.Args? then before else
        var b := Parents(s, block)[refs[|refs| - 1]];
        if b.generator.None? then RefHasNoGenerator else Args(before.generators + [b.generator.value])
  }

  /** The condition of `RefsResolveExactly`, or no reference at all. */
  ghost predicate ResolvesOwn(n: NodeState, block: FullBlock)
    requires Linked(n.store) && Attached(n.store, block)
  {
    block.generatorRefs != [] && block.height > 0 && n.peak.Some? && n.peak.value in n.store ==>
      var parent := n.store[block.prevHash];
      || parent.height <= n.store[n.peak.value].height
      || (parent.height in n.heightToHash && n.heightToHash[parent.height] != parent.headerHash)
  }

  lemma {:induction false} SameResolution(n: NodeState, block: FullBlock, refs: seq<nat>)
    requires Linked(n.store) && Attached(n.store, block)
    requires forall ref: nat :: ref < block.height ==> RefBlock(n, block, ref) == Some(Parents(n.store, block)[ref])
    requires forall i :: 0 <= i < |refs| ==> refs[i] < block.height
    ensures ResolveAll(n, block, refs) == OwnResolution(n.store, block, refs)
    decreases |refs|
  {
    hide Linked;
    hide RefBlock;
    hide Parents;
    hide Attached;
    if refs != [] {
      SameResolution(n, block, refs[..|refs| - 1]);
    }
  }

  /** Under that condition the whole list is that of the block's own ancestry. */
  lemma ResolvedListIsOwn(n: NodeState, block: FullBlock, refs: seq<nat>)
    requires NodeOk(n) && Attached(n.store, block) && n.peak.Some? && block.height > 0 && ResolvesOwn(n, block)
    requires refs == block.generatorRefs && forall i :: 0 <= i < |refs| ==> refs[i] < block.height
    ensures ResolveAll(n, block, refs) == OwnResolution(n.store, block, refs)
  {
    hide ChainOk;
    hide Replay;
    hide SesOf;
    hide IndexOk;
    hide Mirrors;
    hide Heaviest;
    hide RefBlock;
    hide Parents;
    hide BlockOk;
    if refs != [] {
      RefsResolveExactly(n, block);
      SameResolution(n, block, refs);
    }
  }

  // ----- All blocks of a branch -----

  ghost predicate EveryRefOwn(n: NodeState, block: FullBlock)
    requires Linked(n.store) && Attached(n.store, block)
  {
    forall ref: nat :: ref < block.height ==> RefBlock(n, block, ref) == Some(Parents(n.store, block)[ref])
  }

  /** No ancestor above the peak is a stale entry of the index, and the index has an entry at its height. */
  ghost predicate NoStaleAncestor(n: NodeState, block: FullBlock)
    requires Linked(n.store) && Attached(n.store, block) && n.peak.Some? && n.peak.value in n.store
  {
    forall h: nat :: n.store[n.peak.value].height < h < block.height ==> NotNamed(n, block, h)
  }

  ghost predicate NotNamed(n: NodeState, block: FullBlock, h: nat)
    requires Linked(n.store) && Attached(n.store, block) && h < block.height
  {
    h in n.heightToHash && n.heightToHash[h] != Ancestry(n.store, block)[h].headerHash
  }

  /** One block of the branch. */
  lemma {:induction false} AncestorRefs(n: NodeState, block: FullBlock, i: nat)
    requires NodeOk(n) && Attached(n.store, block) && n.peak.Some? && 0 < i <= block.height
    ensures Attached(n.store, Ancestry(n.store, block)[i])
    ensures EveryRefOwn(n, Ancestry(n.store, block)[i]) <==>
      i - 1 <= n.store[n.peak.value].height || NotNamed(n, block, i - 1)
  {
    hide ChainOk;
    hide Replay;
    hide SesOf;
    hide IndexOk;
    hide Mirrors;
    hide Heaviest;
    hide RefBlock;
    hide Parents;
    hide BlockOk;
    hide Ancestry;
    AncestryStep(n.store, block, i);
    RefsResolveExactly(n, Ancestry(n.store, block)[i]);
  }

  /** Receiving a block, the node runs the generators of its ancestors above the fork again.  All references
      of the block and of its ancestors resolve on their own ancestry if and only if no ancestor
      above the peak is a stale entry of the index, or missing from it. */
  lemma {:induction false} BranchRefsResolveExactly(n: NodeState, block: FullBlock)
    requires NodeOk(n) && Attached(n.store, block) && n.peak.Some?
    ensures (forall i: nat :: i <= block.height ==> EveryRefOwn(n, Ancestry(n.store, block)[i])) <==> NoStaleAncestor(n, block)
  {
    hide ChainOk;
    hide Replay;
    hide SesOf;
    hide StoreOk;
    hide IndexOk;
    hide Mirrors;
    hide Heaviest;
    hide RefBlock;
    hide Parents;
    hide Ancestry;
    var peakHeight := n.store[n.peak.value].height;
    forall i: nat | 0 < i <= block.height
      ensures EveryRefOwn(n, Ancestry(n.store, block)[i]) <==> i - 1 <= peakHeight || NotNamed(n, block, i - 1)
    {
      AncestorRefs(n, block, i);
    }
    if forall i: nat :: i <= block.height ==> EveryRefOwn(n, Ancestry(n.store, block)[i]) {
      forall h: nat | peakHeight < h < block.height ensures NotNamed(n, block, h) {
        assert EveryRefOwn(n, Ancestry(n.store, block)[h + 1]);
      }
    }
    if NoStaleAncestor(n, block) {
      forall i: nat | i <= block.height ensures EveryRefOwn(n, Ancestry(n.store, block)[i]) {
        assert 0 < i && peakHeight < i - 1 ==> NotNamed(n, block, i - 1);
      }
    }
  }

  function PlainBlock(headerHash: Hash, prevHash: Hash, height: nat, weight: nat): FullBlock {
    FullBlock(headerHash, prevHash, height, weight, 0, 0, None, None, None, [])
  }
}
