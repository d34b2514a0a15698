/** The header rules that govern sub-slots, deficits, sub-epochs and iterations, as a step relation
    on chains indexed by height. */
module HeaderChains {
  import opened Primitives
  import opened PotIterations

  /** A challenge-chain hash: what it commits to, first of all the challenge of the sub-slot before. */
  datatype Challenge = GenesisChallenge | SlotChallenge(prev: Challenge, iters: nat, rest: Hash)

  /** An end-of-sub-slot bundle: challenge chain (challenge, iterations, other contents) and reward chain. */
  datatype Eos = Eos(challenge: Challenge, iters: nat, rest: Hash, rcHash: Hash, rcChallenge: Hash)

  function CcHash(e: Eos): Challenge {
    SlotChallenge(e.challenge, e.iters, e.rest)
  }

  /** The challenge-chain and reward-chain hashes of a finished sub-slot. */
  datatype SlotEnd = SlotEnd(cc: Challenge, rc: Hash)

  function SlotEnds(bundles: seq<Eos>): (r: seq<SlotEnd>)
    ensures |r| == |bundles|
    ensures forall i :: 0 <= i < |r| ==> r[i] == SlotEnd(CcHash(bundles[i]), bundles[i].rcHash)
  {
    seq(|bundles|, i requires 0 <= i < |bundles| => SlotEnd(CcHash(bundles[i]), bundles[i].rcHash))
  }

  /** A block and what its record keeps for these rules.  `bundles` are the sub-slots finished since the
      previous block and `numFinished` their number; `finished` are their hashes, or the genesis challenge for a genesis
      block without any, so it is empty exactly when the block is not the first in its sub-slot. */
  datatype HeaderRec = HeaderRec(
    totalIters: nat, ssi: nat, spIndex: nat, requiredIters: nat, overflow: bool, deficit: nat,
    numFinished: nat, bundles: seq<Eos>, finished: seq<SlotEnd>, ses: bool, isTx: bool, timestamp: nat, weight: nat,
    ccOutput: Hash, rcInfusion: Hash)

  const GENESIS_CHALLENGE: Hash := 0

  predicate FirstInSubSlot(b: HeaderRec) {
    b.finished != []
  }

  predicate IsChallengeBlock(c: Constants, b: HeaderRec) {
    b.deficit == c.minBlocks - 1
  }

  /** Deficit of a block from that of its parent, as coded. */
  function CalculateDeficit(c: Constants, height: nat, prevDeficit: nat, overflow: bool, numFinished: nat): int {
    if height == 0 then c.minBlocks - 1
    else if prevDeficit == c.minBlocks then
      if overflow then (if numFinished > 0 then prevDeficit - 1 else prevDeficit) else prevDeficit - 1
    else if prevDeficit == 0 then
      if numFinished == 0 then 0
      else if numFinished == 1 then (if overflow then c.minBlocks else c.minBlocks - 1)
      else c.minBlocks - 1
    else prevDeficit - 1
  }

  // ----- Sub-epochs and epochs -----

  function WindowStart(c: Constants, height: nat): nat
    requires c.subEpochBlocks > 0
  {
    height - height % c.subEpochBlocks
  }

  predicate HeightCanBeFirstInEpoch(c: Constants, height: nat)
    requires c.subEpochBlocks > 0 && c.epochBlocks > 0
  {
    (height - height % c.subEpochBlocks) % c.epochBlocks == 0
  }

  ghost predicate NoSes(chain: seq<HeaderRec>, lo: nat, hi: nat) {
    forall i :: lo <= i < hi && i < |chain| ==> !chain[i].ses
  }

  /** A block after `chain` in a new sub-slot starts a new sub-epoch: the boundary is passed, the
      deficit is paid off and this window has no summary yet. */
  ghost predicate CanFinishSubEpoch(c: Constants, chain: seq<HeaderRec>)
    requires ConstantsOk(c) && chain != []
  {
    && |chain| >= c.subEpochBlocks
    && chain[|chain| - 1].deficit == 0
    && !chain[|chain| - 1].ses
    && (|chain| % c.subEpochBlocks > 1 ==> NoSes(chain, WindowStart(c, |chain|), |chain| - 1))
  }

  ghost predicate CanFinishEpoch(c: Constants, chain: seq<HeaderRec>)
    requires ConstantsOk(c) && chain != []
  {
    CanFinishSubEpoch(c, chain) && HeightCanBeFirstInEpoch(c, |chain|)
  }

  // ----- The step relation -----

  /** Blocks of the chain since the last block that is first in its sub-slot, including that one. */
  function BlocksInSlot(chain: seq<HeaderRec>): nat {
    if chain == [] then 0
    else if FirstInSubSlot(chain[|chain| - 1]) then 1
    else 1 + BlocksInSlot(chain[..|chain| - 1])
  }

  /** Checks 2r to 4: deficit, sub-epoch summary and the size of a sub-slot. */
  ghost predicate SlotStep(c: Constants, chain: seq<HeaderRec>, b: HeaderRec)
    requires ConstantsOk(c) && chain != []
  {
    && b.numFinished == |b.finished|
    && b.deficit == CalculateDeficit(c, |chain|, chain[|chain| - 1].deficit, b.overflow, b.numFinished)
    && (b.ses <==> b.numFinished > 0 && CanFinishSubEpoch(c, chain))
    && (b.numFinished == 0 ==> BlocksInSlot(chain) + 1 <= c.maxBlocks)
  }

  ghost predicate BlockParamsOk(c: Constants, b: HeaderRec) {
    ParamsOk(c, b.ssi, b.spIndex, b.requiredIters) && (b.overflow <==> Overflows(c, b.spIndex))
  }

  function Ip(c: Constants, b: HeaderRec): nat
    requires c.numSps > 0 && b.ssi > 0
  {
    IpIters(c, b.ssi, b.spIndex, b.requiredIters)
  }

  /** Total iterations at the start of the sub-slot in which the block is infused. */
  function SlotStart(c: Constants, b: HeaderRec): int
    requires c.numSps > 0 && b.ssi > 0
  {
    b.totalIters - Ip(c, b)
  }

  /** Total iterations at the start of the sub-slot of the block's signage point. */
  function SpSlotStart(c: Constants, b: HeaderRec): int
    requires c.numSps > 0 && b.ssi > 0
  {
    if b.overflow then SlotStart(c, b) - b.ssi else SlotStart(c, b)
  }

  function SpTotalIters(c: Constants, b: HeaderRec): int
    requires c.numSps > 0 && b.ssi > 0
  {
    SpSlotStart(c, b) + SpIters(c, b.ssi, b.spIndex)
  }

  /** Checks 7, 9 and 10, the epoch rule for sub-slot iterations, and the conversion to an unsigned
      difference that keeps infusion points in order. */
  ghost predicate IterStep(c: Constants, chain: seq<HeaderRec>, b: HeaderRec)
    requires ConstantsOk(c) && chain != [] && chain[|chain| - 1].ssi > 0
  {
    var prev := chain[|chain| - 1];
    && BlockParamsOk(c, b)
    && (!(b.numFinished > 0 && CanFinishEpoch(c, chain)) ==> b.ssi == prev.ssi)
    && (b.overflow && b.numFinished > 0 && CanFinishEpoch(c, chain) ==> b.numFinished >= 2)
    && (b.numFinished == 0 ==> SlotStart(c, b) == SlotStart(c, prev) && b.totalIters >= prev.totalIters)
    && (b.numFinished > 0 ==> SlotStart(c, b) == SlotStart(c, prev) + prev.ssi + (b.numFinished - 1) * b.ssi)
  }

  /** The latest challenge on the chain, as the walk to the latest start of a sub-slot finds it. */
  function LastChallenge(chain: seq<HeaderRec>): Challenge {
    if chain == [] then GenesisChallenge
    else
      var b := chain[|chain| - 1];
      if FirstInSubSlot(b) then b.finished[|b.finished| - 1].cc else LastChallenge(chain[..|chain| - 1])
  }

  /** Each bundle continues the challenge before it, the first one `from`. */
  predicate BundlesLinked(from: Challenge, bundles: seq<Eos>) {
    forall i :: 0 <= i < |bundles| ==> LinkedAt(from, bundles, i)
  }

  predicate LinkedAt(from: Challenge, bundles: seq<Eos>, i: int)
    requires 0 <= i < |bundles|
  {
    bundles[i].challenge == if i == 0 then from else CcHash(bundles[i - 1])
  }

  /** Checks 2a to 2c and 2q: challenges and lengths of the finished sub-slots, the first of which has
      the length of the parent's; and how their hashes enter the record. */
  ghost predicate BundleStep(from: Challenge, prevSsi: nat, b: HeaderRec) {
    && |b.bundles| == b.numFinished && BundlesLinked(from, b.bundles)
    && (forall i :: 0 <= i < |b.bundles| ==> b.bundles[i].iters == if i == 0 then prevSsi else b.ssi)
    && (b.numFinished > 0 ==> b.finished == SlotEnds(b.bundles))
  }

  /** Height of the last transaction block. */
  function LastTxHeight(chain: seq<HeaderRec>): int {
    if chain == [] then -1
    else if chain[|chain| - 1].isTx then |chain| - 1
    else LastTxHeight(chain[..|chain| - 1])
  }

  /** Checks 15 and 26b. */
  ghost predicate TxStep(c: Constants, chain: seq<HeaderRec>, b: HeaderRec)
    requires ConstantsOk(c) && b.ssi > 0
  {
    var t := LastTxHeight(chain);
    && 0 <= t < |chain|
    && (b.isTx <==> SpTotalIters(c, b) > chain[t].totalIters)
    && (b.isTx ==> b.timestamp > chain[t].timestamp)
  }

  ghost predicate GenesisOk(c: Constants, b: HeaderRec)
    requires ConstantsOk(c)
  {
    && BlockParamsOk(c, b)
    && b.deficit == c.minBlocks - 1 && !b.ses && b.isTx
    && BundleStep(GenesisChallenge, b.ssi, b)
    && (b.numFinished == 0 ==> b.finished == [SlotEnd(GenesisChallenge, GENESIS_CHALLENGE)])
    && SlotStart(c, b) == b.numFinished * b.ssi
    && SpSlotStart(c, b) >= 0
  }

  ghost predicate HeaderChainOk(c: Constants, chain: seq<HeaderRec>)
    requires ConstantsOk(c)
  {
    if |chain| == 0 then true
    else if |chain| == 1 then GenesisOk(c, chain[0])
    else
      var init, b := chain[..|chain| - 1], chain[|chain| - 1];
      && HeaderChainOk(c, init) && init[|init| - 1].ssi > 0
      && SlotStep(c, init, b) && IterStep(c, init, b) && TxStep(c, init, b)
      && BundleStep(LastChallenge(init), init[|init| - 1].ssi, b)
  }

  lemma {:induction false} HeaderPrefix(c: Constants, chain: seq<HeaderRec>, n: nat)
    requires ConstantsOk(c) && HeaderChainOk(c, chain) && n <= |chain|
    ensures HeaderChainOk(c, chain[..n])
  {
    if n == |chain| {
      assert chain[..n] == chain;
    } else {
      assert chain[..|chain| - 1][..n] == chain[..n];
      if |chain| > 1 {
        HeaderPrefix(c, chain[..|chain| - 1], n);
      }
    }
  }

  /** Every block above genesis satisfies the step rules on top of the blocks below it. */
  lemma StepAt(c: Constants, chain: seq<HeaderRec>, h: nat)
    requires ConstantsOk(c) && HeaderChainOk(c, chain) && 0 < h < |chain|
    ensures chain[..h][h - 1] == chain[h - 1] && chain[h - 1].ssi > 0 && chain[h].ssi > 0
    ensures SlotStep(c, chain[..h], chain[h]) && IterStep(c, chain[..h], chain[h]) && TxStep(c, chain[..h], chain[h])
    ensures BundleStep(LastChallenge(chain[..h]), chain[h - 1].ssi, chain[h])
  {
    hide SlotStep;
    hide TxStep;
    hide GenesisOk;
    hide BundleStep;
    HeaderPrefix(c, chain, h + 1);
    assert chain[..h + 1][..h] == chain[..h];
  }

  lemma GenesisAt(c: Constants, chain: seq<HeaderRec>)
    requires ConstantsOk(c) && HeaderChainOk(c, chain) && chain != []
    ensures GenesisOk(c, chain[0])
  {
    HeaderPrefix(c, chain, 1);
    assert chain[..1][0] == chain[0];
  }

  /** A genesis block alone is a chain. */
  lemma StartChain(c: Constants, b: HeaderRec)
    requires ConstantsOk(c) && GenesisOk(c, b)
    ensures HeaderChainOk(c, [b])
  {
    hide GenesisOk;
  }

  /** A block that satisfies them extends the chain. */
  lemma ExtendChain(c: Constants, chain: seq<HeaderRec>, b: HeaderRec)
    requires ConstantsOk(c) && chain != [] && HeaderChainOk(c, chain) && chain[|chain| - 1].ssi > 0 && b.ssi > 0
    requires SlotStep(c, chain, b) && IterStep(c, chain, b) && TxStep(c, chain, b)
    requires BundleStep(LastChallenge(chain), chain[|chain| - 1].ssi, b)
    ensures HeaderChainOk(c, chain + [b])
  {
    hide SlotStep;
    hide IterStep;
    hide TxStep;
    hide BundleStep;
    hide GenesisOk;
    assert (chain + [b])[..|chain|] == chain;
  }
}
