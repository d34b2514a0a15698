/** Blocks linked by previous-hash pointers, their ancestries, and the fork point of two of them. */
module Chains {
  import opened Primitives
  import opened Ledger

  /** What the node keeps in memory about a block. */
  datatype BlockRecord = BlockRecord(
    headerHash: Hash, prevHash: Hash, height: nat, weight: nat,
    poolPuzzleHash: Hash, farmerPuzzleHash: Hash,
    isTx: bool, fees: nat, ses: Option<Hash>)

  function ToRecord(b: FullBlock): BlockRecord {
    BlockRecord(b.headerHash, b.prevHash, b.height, b.weight, b.poolPuzzleHash, b.farmerPuzzleHash,
                b.tx.Some?, if b.tx.Some? then b.tx.value.fees else 0, b.ses)
  }

  type BlockStore = map<Hash, FullBlock>
  type Records = map<Hash, BlockRecord>

  predicate Attached(s: BlockStore, b: FullBlock) {
    b.height > 0 ==> b.prevHash in s && s[b.prevHash].height + 1 == b.height
  }

  /** Blocks are filed under their own hash and the parent of every block above height 0 is present. */
  ghost predicate Linked(s: BlockStore) {
    forall h :: h in s ==> s[h].headerHash == h && Attached(s, s[h])
  }

  ghost predicate Mirrors(records: Records, s: BlockStore) {
    records.Keys == s.Keys && forall h :: h in s ==> records[h] == ToRecord(s[h])
  }

  /** The chain from genesis to `b`, which need not be in the store itself. */
  ghost function Ancestry(s: BlockStore, b: FullBlock): (chain: seq<FullBlock>)
    requires Linked(s) && Attached(s, b)
    ensures |chain| == b.height + 1 && chain[b.height] == b
    ensures forall i :: 0 <= i < |chain| ==> chain[i].height == i && Attached(s, chain[i])
    ensures forall i :: 0 <= i < b.height ==> chain[i].headerHash in s && s[chain[i].headerHash] == chain[i]
    decreases b.height
  {
    if b.height == 0 then [b] else Ancestry(s, s[b.prevHash]) + [b]
  }

  /** The ancestry of the parent of `b`. */
  ghost function Parents(s: BlockStore, b: FullBlock): (chain: seq<FullBlock>)
    requires Linked(s) && Attached(s, b)
    ensures |chain| == b.height && Ancestry(s, b) == chain + [b]
  {
    if b.height == 0 then [] else Ancestry(s, s[b.prevHash])
  }

  lemma {:induction false} AncestryPrefix(s: BlockStore, b: FullBlock, i: nat)
    requires Linked(s) && Attached(s, b) && i <= b.height
    ensures Ancestry(s, Ancestry(s, b)[i]) == Ancestry(s, b)[..i + 1]
    decreases b.height
  {
    var chain := Ancestry(s, b);
    if i == b.height {
      assert chain[..i + 1] == chain;
    } else {
      AncestryPrefix(s, s[b.prevHash], i);
      assert chain[..i + 1] == Ancestry(s, s[b.prevHash])[..i + 1];
    }
  }

  /** The parent of the block at height `i` of an ancestry is the block at height `i - 1`. */
  lemma AncestryStep(s: BlockStore, b: FullBlock, i: nat)
    requires Linked(s) && Attached(s, b) && 0 < i <= b.height
    ensures var chain := Ancestry(s, b);
      chain[i].prevHash in s && s[chain[i].prevHash] == chain[i - 1] && chain[i].prevHash == chain[i - 1].headerHash
  {
    AncestryPrefix(s, b, i);
    var chain := Ancestry(s, b);
    var c := chain[i];
    var up := Ancestry(s, s[c.prevHash]);
    assert Ancestry(s, c) == up + [c];
    assert chain[..i + 1][i - 1] == (up + [c])[i - 1];
  }

  ghost predicate Extends(s: BlockStore, s': BlockStore) {
    forall h :: h in s ==> h in s' && s'[h] == s[h]
  }

  /** Storing more blocks does not change an ancestry. */
  lemma {:induction false} AncestryStable(s: BlockStore, s': BlockStore, b: FullBlock)
    requires Linked(s) && Linked(s') && Extends(s, s') && Attached(s, b)
    ensures Attached(s', b) && Ancestry(s', b) == Ancestry(s, b)
    decreases b.height
  {
    if b.height > 0 {
      AncestryStable(s, s', s[b.prevHash]);
    }
  }

  /** `f1` and `f2` have the same block at height `h`, or `h` is -1. */
  ghost predicate CommonAncestor(s: BlockStore, f1: FullBlock, f2: FullBlock, h: int)
    requires Linked(s) && Attached(s, f1) && Attached(s, f2)
  {
    -1 <= h <= f1.height && h <= f2.height && (h >= 0 ==> Ancestry(s, f1)[h] == Ancestry(s, f2)[h])
  }

  /** Sharing a block means sharing everything below it. */
  lemma CommonPrefix(s: BlockStore, f1: FullBlock, f2: FullBlock, h: int)
    requires Linked(s) && Attached(s, f1) && Attached(s, f2) && CommonAncestor(s, f1, f2, h)
    ensures Ancestry(s, f1)[..h + 1] == Ancestry(s, f2)[..h + 1]
  {
    if h >= 0 {
      AncestryPrefix(s, f1, h);
      AncestryPrefix(s, f2, h);
    }
  }

  /** The hash of `f` is not in use for another block. */
  ghost predicate HashIsOwn(s: BlockStore, f: FullBlock) {
    f.headerHash in s ==> s[f.headerHash] == f
  }

  lemma AncestorHashIsOwn(s: BlockStore, f: FullBlock, i: nat)
    requires Linked(s) && Attached(s, f) && HashIsOwn(s, f) && i <= f.height
    ensures HashIsOwn(s, Ancestry(s, f)[i])
  {
  }

  ghost predicate PathLink(records: Records, c: seq<FullBlock>, i: int)
    requires 0 < i < |c|
  {
    c[i].prevHash in records && records[c[i].prevHash] == ToRecord(c[i - 1])
  }

  /** `c` is the ancestry of its last block, as the record dictionary sees it. */
  ghost predicate IsPath(records: Records, c: seq<FullBlock>) {
    && c != []
    && (forall i :: 0 <= i < |c| ==> c[i].height == i)
    && (forall i :: 0 < i < |c| ==> PathLink(records, c, i))
  }

  ghost predicate HashesIdentify(c1: seq<FullBlock>, c2: seq<FullBlock>) {
    forall i :: 0 <= i < |c1| && i < |c2| && c1[i].headerHash == c2[i].headerHash ==> c1[i] == c2[i]
  }

  lemma AncestryIsPath(records: Records, s: BlockStore, f: FullBlock)
    requires Linked(s) && Mirrors(records, s) && Attached(s, f)
    ensures IsPath(records, Ancestry(s, f))
  {
    var c := Ancestry(s, f);
    forall i | 0 < i < |c| ensures PathLink(records, c, i) {
      AncestryStep(s, f, i);
    }
  }

  lemma AncestryHashesIdentify(s: BlockStore, f1: FullBlock, f2: FullBlock)
    requires Linked(s) && Attached(s, f1) && Attached(s, f2) && HashIsOwn(s, f1) && HashIsOwn(s, f2)
    requires f1.headerHash == f2.headerHash ==> f1 == f2
    ensures HashesIdentify(Ancestry(s, f1), Ancestry(s, f2))
  {
    var c1, c2 := Ancestry(s, f1), Ancestry(s, f2);
    forall i | 0 <= i < |c1| && i < |c2| && c1[i].headerHash == c2[i].headerHash ensures c1[i] == c2[i] {
      AncestorHashIsOwn(s, f1, i);
      AncestorHashIsOwn(s, f2, i);
    }
  }

  /** Walks both blocks back until they meet.  The result is the greatest height at which the two
      ancestries agree, or -1 if they agree nowhere. */
  method FindForkPointInChain(records: Records, block1: BlockRecord, block2: BlockRecord,
                              ghost c1: seq<FullBlock>, ghost c2: seq<FullBlock>)
    returns (fork: int)
    requires IsPath(records, c1) && IsPath(records, c2) && HashesIdentify(c1, c2)
    requires block1 == ToRecord(c1[|c1| - 1]) && block2 == ToRecord(c2[|c2| - 1])
    ensures -1 <= fork < |c1| && fork < |c2|
    ensures fork >= 0 ==> c1[fork] == c2[fork]
    ensures forall h :: fork < h < |c1| && h < |c2| ==> c1[h] != c2[h]
  {
    var b1, b2 := block1, block2;
    while b2.height > 0 || b1.height > 0
      invariant b1.height < |c1| && b2.height < |c2|
      invariant b1 == ToRecord(c1[b1.height]) && b2 == ToRecord(c2[b2.height])
      invariant forall h :: 0 <= h < |c1| && h < |c2| && (h > b1.height || h > b2.height) ==> c1[h] != c2[h]
      decreases b1.height + b2.height
    {
      assert b2.height > 0 ==> PathLink(records, c2, b2.height);
      assert b1.height > 0 ==> PathLink(records, c1, b1.height);
      if b2.height > b1.height {
        b2 := records[b2.prevHash];
      } else if b1.height > b2.height {
        b1 := records[b1.prevHash];
      } else {
        if b2.headerHash == b1.headerHash {
          return b2.height;
        }
        b2 := records[b2.prevHash];
        b1 := records[b1.prevHash];
      }
    }
    if b2 != b1 {
      return -1;
    }
    return 0;
  }
}
