/** Fetching a range of ancestors by height, through the height index or by walking back. */
module BlockFetch {
  import opened Primitives
  import opened Ledger
  import opened Chains
  import opened BlockStores
  import opened Blockchains
  import opened Generators

  function Min(a: nat, b: nat): nat {
    if a <= b then a else b
  }

  function RecordsFor(blocks: seq<FullBlock>): (r: seq<BlockRecord>)
    ensures |r| == |blocks| && forall i :: 0 <= i < |r| ==> r[i] == ToRecord(blocks[i])
  {
    seq(|blocks|, i requires 0 <= i < |blocks| => ToRecord(blocks[i]))
  }

  /** At most `max` records of a chain, from height `target` on. */
  function Window(c: seq<FullBlock>, target: nat, max: nat): seq<BlockRecord> {
    RecordsFor(c[Min(target, |c|)..Min(target + max, |c|)])
  }

  /** At most `max` ancestors of `prev`, itself included, from height `target` on. */
  ghost function OwnBlocks(n: NodeState, prev: FullBlock, target: nat, max: nat): seq<BlockRecord>
    requires Linked(n.store) && Attached(n.store, prev)
  {
    Window(Ancestry(n.store, prev), target, max)
  }

  predicate InIndex(n: NodeState, h: nat) {
    h in n.heightToHash && n.heightToHash[h] in n.records
  }

  /** What the height index holds for the range; None if an entry or its record is missing. */
  function IndexBlocks(n: NodeState, target: nat, max: nat): Option<seq<BlockRecord>> {
    if max == 0 then Some([])
    else
      var before := IndexBlocks(n, target, max - 1);
      var h := target + max - 1;
      if before.None? || !InIndex(n, h) then None
      else Some(before.value + [n.records[n.heightToHash[h]]])
  }

  /** The outcome of the fetch. */
  ghost function Fetched(n: NodeState, prev: FullBlock, target: nat, max: nat): Option<seq<BlockRecord>>
    requires Linked(n.store) && Attached(n.store, prev)
  {
    if IndexNamesParent(n.heightToHash, prev) then IndexBlocks(n, target, max)
    else Some(OwnBlocks(n, prev, target, max))
  }

  // ----- When the two branches agree -----

  ghost predicate IndexMatches(n: NodeState, c: seq<FullBlock>, h: nat)
    requires h < |c|
  {
    InIndex(n, h) && n.records[n.heightToHash[h]] == ToRecord(c[h])
  }

  lemma {:induction false} IndexWindow(n: NodeState, c: seq<FullBlock>, target: nat, max: nat)
    requires target + max <= |c| && forall h: nat :: h < |c| ==> IndexMatches(n, c, h)
    ensures IndexBlocks(n, target, max) == Some(Window(c, target, max))
  {
    if max > 0 {
      IndexWindow(n, c, target, max - 1);
      var h := target + max - 1;
      assert IndexMatches(n, c, h);
      assert c[target..h + 1] == c[target..h] + [c[h]];
      RecordsAppend(c[target..h], c[h]);
    }
  }

  lemma RecordsAppend(blocks: seq<FullBlock>, b: FullBlock)
    ensures RecordsFor(blocks + [b]) == RecordsFor(blocks) + [ToRecord(b)]
  {
  }

  lemma IndexIsOwn(n: NodeState, prev: FullBlock, target: nat, max: nat)
    requires NodeOk(n) && Attached(n.store, prev) && n.peak.Some? && prev.headerHash in n.store
    requires n.store[prev.headerHash] == prev && IndexNamesParent(n.heightToHash, prev)
    requires prev.height <= n.store[n.peak.value].height && target + max <= prev.height + 1
    ensures IndexBlocks(n, target, max) == Some(OwnBlocks(n, prev, target, max))
  {
    hide NodeOk;
    hide Ancestry;
    hide Linked;
    NodeLinked(n);
    var c := Ancestry(n.store, prev);
    forall h: nat | h < |c| ensures IndexMatches(n, c, h) {
      IndexedAncestor(n, prev, h);
    }
    IndexWindow(n, c, target, max);
  }

  lemma IndexedAncestor(n: NodeState, prev: FullBlock, h: nat)
    requires NodeOk(n) && Attached(n.store, prev) && n.peak.Some? && prev.headerHash in n.store
    requires n.store[prev.headerHash] == prev && IndexNamesParent(n.heightToHash, prev)
    requires h <= prev.height <= n.store[n.peak.value].height
    ensures InIndex(n, h) && n.records[n.heightToHash[h]] == ToRecord(Ancestry(n.store, prev)[h])
  {
    hide ChainOk;
    hide Replay;
    hide SesOf;
    hide StoreOk;
    hide Ancestry;
    var peak := n.store[n.peak.value];
    assert n.heightToHash[prev.height] == Ancestry(n.store, peak)[prev.height].headerHash;
    SameBlockSameAncestor(n.store, prev, peak, h);
    assert n.heightToHash[h] == Ancestry(n.store, peak)[h].headerHash;
  }

  /** Every range ending at or below `prev` gives its own ancestors exactly when `prev` is not above the
      peak or the index does not name it.  Entries above the peak can be stale. */
  lemma FetchIsOwnExactly(n: NodeState, prev: FullBlock)
    requires NodeOk(n) && Attached(n.store, prev) && n.peak.Some? && prev.headerHash in n.store
    requires n.store[prev.headerHash] == prev
    ensures (forall target: nat, max: nat :: target + max <= prev.height + 1 ==>
        Fetched(n, prev, target, max) == Some(OwnBlocks(n, prev, target, max)))
      <==> prev.height <= n.store[n.peak.value].height || !IndexNamesParent(n.heightToHash, prev)
  {
    hide ChainOk;
    hide Replay;
    hide SesOf;
    hide StoreOk;
    hide Ancestry;
    hide IndexOk;
    if IndexNamesParent(n.heightToHash, prev) {
      if prev.height <= n.store[n.peak.value].height {
        forall target: nat, max: nat | target + max <= prev.height + 1
          ensures Fetched(n, prev, target, max) == Some(OwnBlocks(n, prev, target, max))
        {
          IndexIsOwn(n, prev, target, max);
        }
      } else {
        StaleFetch(n, prev);
      }
    }
  }

  lemma StaleFetch(n: NodeState, prev: FullBlock)
    requires NodeOk(n) && Attached(n.store, prev) && n.peak.Some? && prev.headerHash in n.store
    requires n.store[prev.headerHash] == prev && IndexNamesParent(n.heightToHash, prev)
    requires prev.height > n.store[n.peak.value].height
    ensures Fetched(n, prev, n.store[n.peak.value].height, 1) != Some(OwnBlocks(n, prev, n.store[n.peak.value].height, 1))
  {
    hide ChainOk;
    hide Replay;
    hide SesOf;
    hide StoreOk;
    hide Ancestry;
    hide IndexOk;
    var child := PlainBlock(0, prev.headerHash, prev.height + 1, 0);
    StaleParent(n, child);
    var peak := n.store[n.peak.value];
    var own := Ancestry(n.store, prev)[peak.height];
    assert Parents(n.store, child) == Ancestry(n.store, prev);
    assert Window(Ancestry(n.store, prev), peak.height, 1) == [ToRecord(own)];
    assert own.headerHash in n.store && n.store[own.headerHash] == own;
    assert n.heightToHash[peak.height] in n.store && n.store[n.heightToHash[peak.height]] == peak;
    assert InIndex(n, peak.height) && n.records[n.heightToHash[peak.height]] == ToRecord(peak);
    IndexBlock(n, peak.height);
  }

  lemma IndexBlock(n: NodeState, h: nat)
    requires InIndex(n, h)
    ensures IndexBlocks(n, h, 1) == Some([n.records[n.heightToHash[h]]])
  {
    var record, one: nat := n.records[n.heightToHash[h]], 1;
    assert IndexBlocks(n, h, one - 1) == Some([]);
    assert [] + [record] == [record];
    assert IndexBlocks(n, h, one) == Some([record]);
  }

  // ----- As coded -----

  method GetBlocksAtHeight(n: NodeState, prevB: BlockRecord, target: nat, max: nat, ghost prev: FullBlock)
    returns (r: Option<seq<BlockRecord>>)
    requires NodeOk(n) && Attached(n.store, prev) && prevB == ToRecord(prev)
    ensures r == Fetched(n, prev, target, max)
  {
    hide ChainOk;
    hide Replay;
    hide SesOf;
    hide StoreOk;
    hide Ancestry;
    hide IndexOk;
    if prevB.height in n.heightToHash {
      if n.heightToHash[prevB.height] == prevB.headerHash {
        var list := [];
        for i := 0 to max
          invariant IndexBlocks(n, target, i) == Some(list)
        {
          if target + i !in n.heightToHash || n.heightToHash[target + i] !in n.records {
            MissingEntry(n, target, i + 1, max);
            return None;
          }
          list := list + [n.records[n.heightToHash[target + i]]];
        }
        return Some(list);
      }
    }
    AncestryIsPath(n.records, n.store, prev);
    var blocks := WalkBack(n.records, prevB, target, max, Ancestry(n.store, prev));
    r := Some(blocks);
  }

  lemma {:induction false} MissingEntry(n: NodeState, target: nat, k: nat, max: nat)
    requires k <= max && IndexBlocks(n, target, k).None?
    ensures IndexBlocks(n, target, max).None?
  {
    if k < max {
      MissingEntry(n, target, k, max - 1);
    }
  }

  /** The slow branch, one parent at a time. */
  method WalkBack(records: Records, prevB: BlockRecord, target: nat, max: nat, ghost c: seq<FullBlock>)
    returns (r: seq<BlockRecord>)
    requires IsPath(records, c) && prevB == ToRecord(c[|c| - 1])
    ensures r == Window(c, target, max)
  {
    hide Backwards;
    hide RecordsFor;
    var curr := prevB;
    var found: seq<BlockRecord> := [];
    ghost var hi := Min(target + max, |c|);
    ghost var lo := |c|;
    BackwardsStart(c, hi);
    while curr.height >= target
      invariant curr.height < |c| && curr == ToRecord(c[curr.height])
      invariant (target <= lo || lo == |c|) && lo == curr.height + 1
      invariant Backwards(c, found, Min(lo, hi), hi)
      decreases curr.height
    {
      if curr.height < target + max {
        BackwardsStep(c, found, lo, hi);
        found := found + [curr];
      }
      lo := curr.height;
      if curr.height == 0 {
        break;
      }
      assert PathLink(records, c, curr.height);
      curr := records[curr.prevHash];
    }
    r := Reverse(found);
    ReversedIsSlice(c, found, Min(lo, hi), hi);
    assert Min(target, |c|) == Min(lo, hi);
  }

  /** `found` are the records of heights `lo` to `hi`, the highest first. */
  ghost predicate Backwards(c: seq<FullBlock>, found: seq<BlockRecord>, lo: nat, hi: nat) {
    && lo <= hi <= |c| && |found| == hi - lo
    && forall i :: 0 <= i < |found| ==> found[i] == ToRecord(c[hi - 1 - i])
  }

  lemma BackwardsStart(c: seq<FullBlock>, hi: nat)
    requires hi <= |c|
    ensures Backwards(c, [], hi, hi)
  {
  }

  lemma BackwardsStep(c: seq<FullBlock>, found: seq<BlockRecord>, lo: nat, hi: nat)
    requires 0 < lo <= hi && Backwards(c, found, lo, hi)
    ensures Backwards(c, found + [ToRecord(c[lo - 1])], lo - 1, hi)
  {
  }

  lemma ReversedIsSlice(c: seq<FullBlock>, found: seq<BlockRecord>, lo: nat, hi: nat)
    requires Backwards(c, found, lo, hi)
    ensures lo <= hi <= |c| && Reverse(found) == RecordsFor(c[lo..hi])
  {
  }

  lemma NodeLinked(n: NodeState)
    requires NodeOk(n)
    ensures Linked(n.store) && Mirrors(n.records, n.store)
  {
  }
}
