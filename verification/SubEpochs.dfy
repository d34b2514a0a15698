/** Deficits, challenge blocks and the placement of sub-epoch summaries on valid chains. */
module SubEpochs {
  import opened PotIterations
  import opened HeaderChains

  // ----- Deficits -----

  lemma DeficitStep(c: Constants, chain: seq<HeaderRec>, h: nat)
    requires ConstantsOk(c) && HeaderChainOk(c, chain) && 0 < h < |chain|
    ensures chain[h].deficit ==
      CalculateDeficit(c, h, chain[h - 1].deficit, chain[h].overflow, chain[h].numFinished)
  {
    StepAt(c, chain, h);
  }

  /** The deficit of every block lies between 0 and MIN_BLOCKS_PER_CHALLENGE_BLOCK. */
  lemma {:induction false} DeficitRange(c: Constants, chain: seq<HeaderRec>, h: nat)
    requires ConstantsOk(c) && HeaderChainOk(c, chain) && h < |chain|
    ensures chain[h].deficit <= c.minBlocks
  {
    if h == 0 {
      GenesisAt(c, chain);
    } else {
      DeficitRange(c, chain, h - 1);
      DeficitStep(c, chain, h);
    }
  }

  /** From a deficit strictly between 0 and the maximum the deficit falls by one per block, however
      sub-slots and overflow blocks interleave. */
  lemma {:induction false} DeficitFalls(c: Constants, chain: seq<HeaderRec>, h: nat, k: nat)
    requires ConstantsOk(c) && HeaderChainOk(c, chain)
    requires h + k < |chain| && k <= chain[h].deficit < c.minBlocks
    ensures chain[h + k].deficit == chain[h].deficit - k
  {
    if k > 0 {
      DeficitFalls(c, chain, h, k - 1);
      DeficitStep(c, chain, h + k);
    }
  }

  /** Any two challenge blocks are at least MIN_BLOCKS_PER_CHALLENGE_BLOCK heights apart. */
  lemma ChallengeBlocksApart(c: Constants, chain: seq<HeaderRec>, i: nat, j: nat)
    requires ConstantsOk(c) && HeaderChainOk(c, chain) && i < j < |chain|
    requires IsChallengeBlock(c, chain[i]) && IsChallengeBlock(c, chain[j])
    ensures j - i >= c.minBlocks
  {
    if j - i < c.minBlocks {
      DeficitFalls(c, chain, i, j - i);
    }
  }

  /** A paid-off deficit stays paid off until a new sub-slot starts. */
  lemma {:induction false} DeficitStaysZero(c: Constants, chain: seq<HeaderRec>, z: nat, h: nat)
    requires ConstantsOk(c) && HeaderChainOk(c, chain) && z <= h < |chain|
    requires chain[z].deficit == 0 && forall i :: z < i <= h ==> chain[i].numFinished == 0
    ensures chain[h].deficit == 0
  {
    if z < h {
      DeficitStaysZero(c, chain, z, h - 1);
      DeficitStep(c, chain, h);
    }
  }

  // ----- Sub-slots are short -----

  lemma {:induction false} SlotCount(c: Constants, chain: seq<HeaderRec>, a: nat, h: nat)
    requires ConstantsOk(c) && HeaderChainOk(c, chain) && a < h <= |chain|
    requires forall i :: a < i < h ==> chain[i].numFinished == 0
    ensures BlocksInSlot(chain[..h]) >= h - a
    decreases h
  {
    assert chain[..h][..h - 1] == chain[..h - 1];
    if a < h - 1 {
      SlotCount(c, chain, a, h - 1);
      StepAt(c, chain, h - 1);
    }
  }

  /** Among any MAX_SUB_SLOT_BLOCKS consecutive blocks above genesis one starts a sub-slot. */
  lemma SlotStartsWithin(c: Constants, chain: seq<HeaderRec>, a: nat) returns (s: nat)
    requires ConstantsOk(c) && HeaderChainOk(c, chain) && a + c.maxBlocks < |chain|
    ensures a < s <= a + c.maxBlocks && chain[s].numFinished > 0
    ensures forall i :: a < i < s ==> chain[i].numFinished == 0
  {
    s := a + 1;
    while chain[s].numFinished == 0
      invariant a < s <= a + c.maxBlocks
      invariant forall i :: a < i < s ==> chain[i].numFinished == 0
      decreases a + c.maxBlocks - s
    {
      if s == a + c.maxBlocks {
        SlotCount(c, chain, a, s);
        StepAt(c, chain, s);
        assert false;
      }
      s := s + 1;
    }
  }

  // ----- Sub-epoch summaries -----

  lemma SesRule(c: Constants, chain: seq<HeaderRec>, h: nat)
    requires ConstantsOk(c) && HeaderChainOk(c, chain) && 0 < h < |chain|
    ensures chain[h].ses <==> chain[h].numFinished > 0 && CanFinishSubEpoch(c, chain[..h])
  {
    StepAt(c, chain, h);
  }

  lemma NoEarlySummary(c: Constants, chain: seq<HeaderRec>)
    requires ConstantsOk(c) && chain != [] && |chain| < c.subEpochBlocks
    ensures !CanFinishSubEpoch(c, chain) && !CanFinishEpoch(c, chain)
  {
  }

  lemma WindowOf(n: nat, k: nat, h: nat)
    requires n > 0 && k * n <= h < (k + 1) * n
    ensures h - h % n == k * n && h % n == h - k * n
  {
    var q, r := h / n, h % n;
    assert h == q * n + r;
    if q < k {
      MulMono(q + 1, k, n);
    } else if q > k {
      MulMono(k + 1, q, n);
    }
  }

  /** A block with a summary is the first such block of its window. */
  lemma SesIsFirst(c: Constants, chain: seq<HeaderRec>, k: nat, i: nat, h: nat)
    requires ConstantsOk(c) && HeaderChainOk(c, chain) && i < h < |chain| && chain[h].ses
    requires k * c.subEpochBlocks <= i && h < (k + 1) * c.subEpochBlocks
    ensures !chain[i].ses
  {
    SesRule(c, chain, h);
    WindowOf(c.subEpochBlocks, k, h);
    assert chain[..h][i] == chain[i];
  }

  /** A window of SUB_EPOCH_BLOCKS heights holds at most one block with a summary. */
  lemma AtMostOneSes(c: Constants, chain: seq<HeaderRec>, k: nat, i: nat, j: nat)
    requires ConstantsOk(c) && HeaderChainOk(c, chain) && i < |chain| && j < |chain|
    requires k * c.subEpochBlocks <= i < (k + 1) * c.subEpochBlocks
    requires k * c.subEpochBlocks <= j < (k + 1) * c.subEpochBlocks
    requires chain[i].ses && chain[j].ses
    ensures i == j
  {
    hide HeaderChainOk;
    if i < j {
      SesIsFirst(c, chain, k, i, j);
    } else if j < i {
      SesIsFirst(c, chain, k, j, i);
    }
  }

  /** After a summary the deficit is positive, so the next block cannot carry one. */
  lemma SesResetsDeficit(c: Constants, chain: seq<HeaderRec>, h: nat)
    requires ConstantsOk(c) && HeaderChainOk(c, chain) && 0 < h < |chain|
    ensures chain[h].ses ==> chain[h].deficit >= c.minBlocks - 1
  {
    SesRule(c, chain, h);
    assert chain[..h][h - 1] == chain[h - 1];
    DeficitStep(c, chain, h);
  }

  /** A block that starts a sub-slot after a paid-off deficit carries the window's summary, unless an
      earlier block of the window already does. */
  lemma SesIsDue(c: Constants, chain: seq<HeaderRec>, k: nat, h: nat)
    requires ConstantsOk(c) && HeaderChainOk(c, chain) && 1 <= k && h < |chain|
    requires k * c.subEpochBlocks <= h < (k + 1) * c.subEpochBlocks
    requires chain[h].numFinished > 0 && chain[h - 1].deficit == 0
    requires NoSes(chain, k * c.subEpochBlocks, h)
    ensures chain[h].ses
  {
    hide HeaderChainOk;
    SesRule(c, chain, h);
    MulMono(1, k, c.subEpochBlocks);
    WindowOf(c.subEpochBlocks, k, h);
    var init := chain[..h];
    assert init[h - 1] == chain[h - 1];
    SesResetsDeficit(c, chain, h - 1);
    assert forall i :: k * c.subEpochBlocks <= i < h ==> init[i] == chain[i];
  }

  /** By the first sub-slot that starts after a paid-off deficit the window has its summary. */
  lemma SesByThen(c: Constants, chain: seq<HeaderRec>, k: nat, s: nat) returns (h: nat)
    requires ConstantsOk(c) && HeaderChainOk(c, chain) && 1 <= k && s < |chain|
    requires k * c.subEpochBlocks <= s < (k + 1) * c.subEpochBlocks
    requires chain[s].numFinished > 0 && s > 0 && chain[s - 1].deficit == 0
    ensures k * c.subEpochBlocks <= h <= s && chain[h].ses
  {
    hide HeaderChainOk;
    if NoSes(chain, k * c.subEpochBlocks, s) {
      SesIsDue(c, chain, k, s);
      h := s;
    } else {
      h :| k * c.subEpochBlocks <= h < s && h < |chain| && chain[h].ses;
    }
  }

  /** How late a window's summary can come: the last position allowed by the rules. */
  function LatestSes(c: Constants, k: nat): int {
    k * c.subEpochBlocks + 2 * c.maxBlocks + c.minBlocks - 2
  }

  /** The window of every sub-epoch but the first holds a summary, at most
      2 * MAX_SUB_SLOT_BLOCKS + MIN_BLOCKS_PER_CHALLENGE_BLOCK - 2 blocks past its start, provided the
      chain is that long. */
  lemma SesAppears(c: Constants, chain: seq<HeaderRec>, k: nat) returns (h: nat)
    requires ConstantsOk(c) && HeaderChainOk(c, chain) && 1 <= k && LatestSes(c, k) < |chain|
    ensures k * c.subEpochBlocks <= h <= LatestSes(c, k) && chain[h].ses
  {
    hide HeaderChainOk;
    MulMono(1, k, c.subEpochBlocks);
    Distribute(k, 1, c.subEpochBlocks);
    var s1 := SlotStartsWithin(c, chain, k * c.subEpochBlocks - 1);
    if chain[s1 - 1].deficit == 0 {
      h := SesByThen(c, chain, k, s1);
    } else {
      DeficitRange(c, chain, s1 - 1);
      DeficitStep(c, chain, s1);
      var z := s1 + chain[s1].deficit;
      DeficitFalls(c, chain, s1, chain[s1].deficit);
      var s2 := SlotStartsWithin(c, chain, z);
      DeficitStaysZero(c, chain, z, s2 - 1);
      h := SesByThen(c, chain, k, s2);
    }
  }

  ghost predicate OnlySes(c: Constants, chain: seq<HeaderRec>, k: nat, h: nat) {
    && h < |chain| && chain[h].ses
    && forall i :: k * c.subEpochBlocks <= i < (k + 1) * c.subEpochBlocks && i < |chain| && chain[i].ses ==> i == h
  }

  /** Exactly one summary per window. */
  lemma OneSesPerWindow(c: Constants, chain: seq<HeaderRec>, k: nat)
    requires ConstantsOk(c) && HeaderChainOk(c, chain) && 1 <= k && LatestSes(c, k) < |chain|
    ensures exists h :: k * c.subEpochBlocks <= h <= LatestSes(c, k) && OnlySes(c, chain, k, h)
    ensures LatestSes(c, k) < k * c.subEpochBlocks + 2 * c.maxBlocks + c.minBlocks < (k + 1) * c.subEpochBlocks
  {
    hide HeaderChainOk;
    Distribute(k, 1, c.subEpochBlocks);
    var h := SesAppears(c, chain, k);
    forall i | k * c.subEpochBlocks <= i < (k + 1) * c.subEpochBlocks && i < |chain| && chain[i].ses ensures i == h {
      AtMostOneSes(c, chain, k, i, h);
    }
    assert OnlySes(c, chain, k, h);
  }

  // ----- The walk as coded -----

  /** Walks back through the window looking for a summary; decides the two predicates above. */
  method CanFinishSubAndFullEpoch(c: Constants, chain: seq<HeaderRec>, height: nat, deficit: nat, includedSes: bool)
    returns (subEpoch: bool, epoch: bool)
    requires ConstantsOk(c) && height + 1 == |chain|
    requires deficit == chain[height].deficit && includedSes == chain[height].ses
    ensures subEpoch <==> CanFinishSubEpoch(c, chain)
    ensures epoch <==> CanFinishEpoch(c, chain)
  {
    if height < c.subEpochBlocks - 1 {
      return false, false;
    }
    if deficit > 0 {
      return false, false;
    }
    if includedSes {
      return false, false;
    }
    if (height + 1) % c.subEpochBlocks > 1 {
      ghost var ws := WindowStart(c, height + 1);
      var curr := height - 1;
      WindowSteps(c, height + 1, curr);
      while curr % c.subEpochBlocks > 0
        invariant ws <= curr <= height - 1 && curr - curr % c.subEpochBlocks == ws
        invariant forall i :: curr < i < height ==> !chain[i].ses
        decreases curr
      {
        if chain[curr].ses {
          return false, false;
        }
        WindowSteps(c, curr, curr - 1);
        curr := curr - 1;
      }
      if chain[curr].ses {
        return false, false;
      }
    }
    return true, HeightCanBeFirstInEpoch(c, height + 1);
  }

  /** Going down within a window keeps its start. */
  lemma WindowSteps(c: Constants, h: nat, lower: nat)
    requires c.subEpochBlocks > 0 && lower <= h && h - lower <= h % c.subEpochBlocks
    ensures WindowStart(c, lower) == WindowStart(c, h)
  {
    var n := c.subEpochBlocks;
    var k := h / n;
    assert h == k * n + h % n;
    Distribute(k, 1, n);
    WindowOf(n, k, lower);
    WindowOf(n, k, h);
  }
}
