/** The block store: every block in it is valid on top of its own ancestors. */
module BlockStores {
  import opened Primitives
  import opened Ledger
  import opened Chains

  const DIFFICULTY_STARTING: nat := 2

  /** Weight and body rules that a stored block satisfies. */
  ghost predicate BlockOk(s: BlockStore, b: FullBlock)
    requires Linked(s) && Attached(s, b)
  {
    && StepOk(Parents(s, b), b)
    && (if b.height == 0 then b.weight == DIFFICULTY_STARTING else b.weight > s[b.prevHash].weight)
  }

  ghost predicate StoreOk(s: BlockStore) {
    Linked(s) && forall h :: h in s ==> BlockOk(s, s[h])
  }

  lemma {:induction false} AncestryOk(s: BlockStore, b: FullBlock)
    requires StoreOk(s) && Attached(s, b) && BlockOk(s, b)
    ensures ChainOk(Ancestry(s, b)) && ChainOk(Parents(s, b))
    ensures b.weight >= DIFFICULTY_STARTING
    decreases b.height
  {
    if b.height > 0 {
      AncestryOk(s, s[b.prevHash]);
    }
    ChainExtend(Parents(s, b), b);
  }

  lemma ParentsStable(s: BlockStore, s': BlockStore, b: FullBlock)
    requires Linked(s) && Linked(s') && Extends(s, s') && Attached(s, b)
    ensures Attached(s', b) && Parents(s', b) == Parents(s, b)
  {
    if b.height > 0 {
      AncestryStable(s, s', s[b.prevHash]);
    }
  }

  lemma BlockOkStable(s: BlockStore, s': BlockStore, b: FullBlock)
    requires Linked(s) && Linked(s') && Extends(s, s') && Attached(s, b) && BlockOk(s, b)
    ensures Attached(s', b) && BlockOk(s', b)
  {
    ParentsStable(s, s', b);
  }

  lemma LinkedExtend(s: BlockStore, b: FullBlock)
    requires Linked(s) && Attached(s, b) && b.headerHash !in s
    ensures Linked(s[b.headerHash := b]) && Extends(s, s[b.headerHash := b])
  {
  }

  /** Adding a valid block under a new hash keeps the store valid. */
  lemma StoreOkExtend(s: BlockStore, b: FullBlock)
    requires StoreOk(s) && Attached(s, b) && b.headerHash !in s && BlockOk(s, b)
    ensures StoreOk(s[b.headerHash := b])
  {
    var s' := s[b.headerHash := b];
    LinkedExtend(s, b);
    forall h | h in s' ensures BlockOk(s', s'[h]) {
      BlockOkStable(s, s', s'[h]);
    }
  }

  /** Height index of a chain. */
  function HashesOf(chain: seq<FullBlock>): map<nat, Hash> {
    map i: nat | i < |chain| :: chain[i].headerHash
  }

  /** The summaries of a chain by the height of the block that carries them. */
  function SesOf(chain: seq<FullBlock>): map<nat, Hash> {
    map i: nat | i < |chain| && chain[i].ses.Some? :: chain[i].ses.value
  }

  /** The same two maps, restricted to heights from `lo` on and built from the top. */
  function HashesFrom(chain: seq<FullBlock>, lo: nat): map<nat, Hash>
    decreases |chain| - lo
  {
    if lo >= |chain| then map[] else HashesFrom(chain, lo + 1)[lo := chain[lo].headerHash]
  }

  function SesFrom(chain: seq<FullBlock>, lo: nat): map<nat, Hash>
    decreases |chain| - lo
  {
    if lo >= |chain| then map[]
    else if chain[lo].ses.Some? then SesFrom(chain, lo + 1)[lo := chain[lo].ses.value]
    else SesFrom(chain, lo + 1)
  }

  lemma {:induction false} FromIs(chain: seq<FullBlock>, lo: nat)
    requires lo <= |chain|
    ensures forall i :: i in HashesFrom(chain, lo) <==> lo <= i < |chain|
    ensures forall i :: lo <= i < |chain| ==> HashesFrom(chain, lo)[i] == chain[i].headerHash
    ensures forall i :: i in SesFrom(chain, lo) <==> lo <= i < |chain| && chain[i].ses.Some?
    ensures forall i :: i in SesFrom(chain, lo) ==> SesFrom(chain, lo)[i] == chain[i].ses.value
    decreases |chain| - lo
  {
    if lo < |chain| {
      FromIs(chain, lo + 1);
    }
  }

  lemma FromZero(chain: seq<FullBlock>)
    ensures HashesFrom(chain, 0) == HashesOf(chain) && SesFrom(chain, 0) == SesOf(chain)
  {
    FromIs(chain, 0);
  }

  lemma {:induction false} WeightGrows(s: BlockStore, b: FullBlock, i: nat)
    requires StoreOk(s) && Attached(s, b) && BlockOk(s, b) && i < b.height
    ensures Ancestry(s, b)[i].weight < b.weight
    decreases b.height
  {
    if i < b.height - 1 {
      WeightGrows(s, s[b.prevHash], i);
    }
  }

  // ----- Rebuilding the height index -----

  /** Walks back from the stored peak and rebuilds the two dictionaries: they are exactly the hashes
      and the summaries of the peak's ancestry. */
  method GetPeakHeightDicts(s: BlockStore, peak: Hash)
    returns (heightToHash: map<nat, Hash>, summaries: map<nat, Hash>)
    requires Linked(s) && peak in s
    ensures heightToHash == HashesOf(Ancestry(s, s[peak]))
    ensures summaries == SesOf(Ancestry(s, s[peak]))
  {
    ghost var chain := Ancestry(s, s[peak]);
    heightToHash, summaries := map[], map[];
    var currHash: Hash, currHeight: nat := peak, s[peak].height;
    while true
      invariant currHeight < |chain| && currHash in s && s[currHash] == chain[currHeight]
      invariant heightToHash == HashesFrom(chain, currHeight + 1)
      invariant summaries == SesFrom(chain, currHeight + 1)
      decreases currHeight
    {
      heightToHash := heightToHash[currHeight := currHash];
      if s[currHash].ses.Some? {
        summaries := summaries[currHeight := s[currHash].ses.value];
      }
      if currHeight == 0 {
        break;
      }
      AncestryStep(s, s[peak], currHeight);
      currHash := s[currHash].prevHash;
      currHeight := s[currHash].height;
    }
    FromZero(chain);
  }
}
