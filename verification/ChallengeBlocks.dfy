/** Where challenge blocks fall, told from signage points: a new challenge is answered by the first block whose
    signage point lies in a sub-slot that started after the last challenge was paid off. */
module ChallengeBlocks {
  import opened PotIterations
  import opened HeaderChains
  import opened SlotIters
  import opened SubEpochs

  /** Block `f` starts a sub-slot and the deficit before it is paid off. */
  ghost predicate PaidOff(chain: seq<HeaderRec>, f: nat) {
    0 < f < |chain| && chain[f - 1].deficit == 0 && chain[f].numFinished > 0
  }

  /** Where the sub-slot of the block before `f` ends. */
  function SlotEndBefore(c: Constants, chain: seq<HeaderRec>, f: nat): int
    requires ConstantsOk(c) && 0 < f < |chain| && chain[f - 1].ssi > 0
  {
    SlotStart(c, chain[f - 1]) + chain[f - 1].ssi
  }

  /** The signage point of block `h` lies in a sub-slot from then on. */
  ghost predicate SignedSince(c: Constants, chain: seq<HeaderRec>, f: nat, h: nat) {
    && ConstantsOk(c) && 0 < f < |chain| && chain[f - 1].ssi > 0 && h < |chain| && chain[h].ssi > 0
    && SpSlotStart(c, chain[h]) >= SlotEndBefore(c, chain, f)
  }

  /** Block `h` is infused in the sub-slot that starts there. */
  ghost predicate InFirst(c: Constants, chain: seq<HeaderRec>, f: nat, h: nat) {
    && ConstantsOk(c) && 0 < f < |chain| && chain[f - 1].ssi > 0 && h < |chain| && chain[h].ssi > 0
    && SlotStart(c, chain[h]) == SlotEndBefore(c, chain, f)
  }

  /** Blocks `f` to `h` were all signed before. */
  ghost predicate Waiting(c: Constants, chain: seq<HeaderRec>, f: nat, h: nat) {
    PaidOff(chain, f) && f <= h < |chain| && forall i: nat :: f <= i <= h ==> !SignedSince(c, chain, f, i)
  }

  /** Block `h` is the first one signed since. */
  ghost predicate Answers(c: Constants, chain: seq<HeaderRec>, f: nat, h: nat) {
    && PaidOff(chain, f) && f <= h < |chain| && SignedSince(c, chain, f, h)
    && forall i: nat :: f <= i < h ==> !SignedSince(c, chain, f, i)
  }

  /** The block that starts the sub-slot. */
  lemma AtStart(c: Constants, chain: seq<HeaderRec>, f: nat)
    requires ConstantsOk(c) && HeaderChainOk(c, chain) && PaidOff(chain, f)
    ensures SignedSince(c, chain, f, f) ==> IsChallengeBlock(c, chain[f])
    ensures !SignedSince(c, chain, f, f) ==>
      chain[f].deficit == c.minBlocks && chain[f].overflow && InFirst(c, chain, f, f)
  {
    hide HeaderChainOk;
    hide CanFinishEpoch;
    hide TxStep;
    hide BundleStep;
    hide SlotStep;
    hide Ip;
    DeficitStep(c, chain, f);
    IterOrder(c, chain, f);
    StepAt(c, chain, f);
    if chain[f].numFinished > 1 {
      MulMono(1, chain[f].numFinished - 1, chain[f].ssi);
    }
  }

  /** While blocks wait they all overflow into the same sub-slot, and the deficit stays at its maximum; the first
      block signed since is a challenge block. */
  lemma {:induction false} WaitOrAnswer(c: Constants, chain: seq<HeaderRec>, f: nat, h: nat)
    requires ConstantsOk(c) && HeaderChainOk(c, chain) && PaidOff(chain, f) && f <= h < |chain|
    requires forall i: nat :: f <= i < h ==> !SignedSince(c, chain, f, i)
    ensures SignedSince(c, chain, f, h) ==> IsChallengeBlock(c, chain[h])
    ensures !SignedSince(c, chain, f, h) ==>
      chain[h].deficit == c.minBlocks && chain[h].overflow && InFirst(c, chain, f, h)
    decreases h
  {
    hide HeaderChainOk;
    hide SignedSince;
    hide InFirst;
    if h == f {
      AtStart(c, chain, f);
    } else {
      WaitOrAnswer(c, chain, f, h - 1);
      NextWaiting(c, chain, f, h);
    }
  }

  lemma NextWaiting(c: Constants, chain: seq<HeaderRec>, f: nat, h: nat)
    requires ConstantsOk(c) && HeaderChainOk(c, chain) && PaidOff(chain, f) && f < h < |chain|
    requires chain[h - 1].deficit == c.minBlocks && InFirst(c, chain, f, h - 1)
    ensures SignedSince(c, chain, f, h) ==> IsChallengeBlock(c, chain[h])
    ensures !SignedSince(c, chain, f, h) ==>
      chain[h].deficit == c.minBlocks && chain[h].overflow && InFirst(c, chain, f, h)
  {
    hide HeaderChainOk;
    hide CanFinishEpoch;
    hide TxStep;
    hide BundleStep;
    hide SlotStep;
    hide Ip;
    DeficitStep(c, chain, h);
    IterOrder(c, chain, h);
    StepAt(c, chain, h);
    if chain[h].numFinished > 1 {
      MulMono(1, chain[h].numFinished - 1, chain[h].ssi);
    }
  }

  /** The deficit is at its maximum exactly while blocks wait. */
  lemma {:induction false} MaximumMeansWaiting(c: Constants, chain: seq<HeaderRec>, h: nat)
    requires ConstantsOk(c) && HeaderChainOk(c, chain) && h < |chain|
    ensures chain[h].deficit == c.minBlocks <==> exists f: nat :: Waiting(c, chain, f, h)
  {
    hide HeaderChainOk;
    hide SignedSince;
    if f: nat :| Waiting(c, chain, f, h) {
      WaitOrAnswer(c, chain, f, h);
    }
    if chain[h].deficit == c.minBlocks {
      var f := WaitsSince(c, chain, h);
    }
  }

  lemma {:induction false} WaitsSince(c: Constants, chain: seq<HeaderRec>, h: nat) returns (f: nat)
    requires ConstantsOk(c) && HeaderChainOk(c, chain) && h < |chain| && chain[h].deficit == c.minBlocks
    ensures Waiting(c, chain, f, h)
    decreases h
  {
    hide HeaderChainOk;
    hide SignedSince;
    if h == 0 {
      GenesisAt(c, chain);
    } else {
      DeficitRange(c, chain, h - 1);
      DeficitStep(c, chain, h);
      f := h;
      if chain[h - 1].deficit == c.minBlocks {
        f := WaitsSince(c, chain, h - 1);
      }
      WaitOrAnswer(c, chain, f, h);
    }
  }

  /** A block above genesis is a challenge block exactly if it is the first one signed in a sub-slot that started
      after the last challenge was paid off. */
  lemma ChallengeBlockExactly(c: Constants, chain: seq<HeaderRec>, h: nat)
    requires ConstantsOk(c) && HeaderChainOk(c, chain) && 0 < h < |chain|
    ensures IsChallengeBlock(c, chain[h]) <==> exists f: nat :: Answers(c, chain, f, h)
  {
    hide HeaderChainOk;
    hide SignedSince;
    if f: nat :| Answers(c, chain, f, h) {
      WaitOrAnswer(c, chain, f, h);
    }
    if IsChallengeBlock(c, chain[h]) {
      DeficitRange(c, chain, h - 1);
      DeficitStep(c, chain, h);
      var f := h;
      if chain[h - 1].deficit == c.minBlocks {
        f := WaitsSince(c, chain, h - 1);
      }
      WaitOrAnswer(c, chain, f, h);
      assert Answers(c, chain, f, h);
    }
  }

  /** Block `q` is the last challenge block up to height `h`. */
  ghost predicate LastChallengeBlock(c: Constants, chain: seq<HeaderRec>, q: nat, h: nat) {
    && q <= h < |chain| && IsChallengeBlock(c, chain[q])
    && forall i :: q < i <= h ==> !IsChallengeBlock(c, chain[i])
  }

  /** Every deficit: the maximum while blocks wait, else what the blocks since the last challenge block leave of it. */
  lemma {:induction false} DeficitIs(c: Constants, chain: seq<HeaderRec>, h: nat) returns (q: nat)
    requires ConstantsOk(c) && HeaderChainOk(c, chain) && h < |chain|
    ensures LastChallengeBlock(c, chain, q, h)
    ensures chain[h].deficit ==
      if exists f: nat :: Waiting(c, chain, f, h) then c.minBlocks
      else if h - q < c.minBlocks then c.minBlocks - 1 - (h - q) else 0
    decreases h
  {
    hide HeaderChainOk;
    hide Waiting;
    MaximumMeansWaiting(c, chain, h);
    q := h;
    if h == 0 {
      GenesisAt(c, chain);
    } else if !IsChallengeBlock(c, chain[h]) {
      q := DeficitIs(c, chain, h - 1);
      MaximumMeansWaiting(c, chain, h - 1);
      DeficitRange(c, chain, h);
      DeficitStep(c, chain, h);
    }
  }
}
