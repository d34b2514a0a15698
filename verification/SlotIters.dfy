/** Order of infusion points, sub-slot starts and overflow blocks along a valid chain. */
module SlotIters {
  import opened PotIterations
  import opened HeaderChains

  lemma {:induction false} ParamsAt(c: Constants, chain: seq<HeaderRec>, h: nat)
    requires ConstantsOk(c) && HeaderChainOk(c, chain) && h < |chain|
    ensures BlockParamsOk(c, chain[h])
    ensures FirstInSubSlot(chain[h]) <==> h == 0 || chain[h].numFinished > 0
    ensures h > 0 ==> |chain[h].finished| == chain[h].numFinished
  {
    if h == 0 {
      GenesisAt(c, chain);
    } else {
      StepAt(c, chain, h);
    }
  }

  /** The infusion point lies strictly inside its sub-slot, before the EXTRA-th interval exactly for
      overflow blocks. */
  lemma IpBounds(c: Constants, b: HeaderRec)
    requires BlockParamsOk(c, b)
    ensures 0 < Ip(c, b) < b.ssi
    ensures b.overflow <==> Ip(c, b) < c.extra * Interval(c, b.ssi)
    ensures c.extra * Interval(c, b.ssi) * 2 <= b.ssi
    ensures Ip(c, b) % Interval(c, b.ssi) != 0
  {
    hide IpIters;
    var i := Interval(c, b.ssi);
    IpItersAre(c, b.ssi, b.spIndex, b.requiredIters);
    SlotIsIntervals(c, b.ssi);
    var k := IpInterval(c, b.spIndex);
    MulMono(2 * c.extra, c.numSps, i);
    Distribute(c.extra, c.extra, i);
    if b.overflow {
      MulStrict(k, c.extra, i);
    } else {
      MulMono(c.extra, k, i);
    }
    RemainderIs(k, i, b.requiredIters);
  }

  lemma RemainderIs(k: nat, i: nat, r: nat)
    requires r < i
    ensures (k * i + r) % i == r
  {
    var x := k * i + r;
    var q, m := x / i, x % i;
    assert x == q * i + m;
    assert (k - q) * i == m - r;
    if k - q >= 1 {
      MulMono(1, k - q, i);
    } else if k - q <= -1 {
      MulMono(k - q, -1, i);
    }
  }

  /** Sub-slot starts and infusion points never go backwards; a new sub-slot starts at least one
      sub-slot length later. */
  lemma IterOrder(c: Constants, chain: seq<HeaderRec>, h: nat)
    requires ConstantsOk(c) && HeaderChainOk(c, chain) && 0 < h < |chain|
    ensures BlockParamsOk(c, chain[h - 1]) && BlockParamsOk(c, chain[h])
    ensures SlotStart(c, chain[h - 1]) <= SlotStart(c, chain[h])
    ensures chain[h].numFinished > 0 ==> SlotStart(c, chain[h - 1]) + chain[h - 1].ssi <= SlotStart(c, chain[h])
    ensures chain[h].numFinished == 0 ==>
      SlotStart(c, chain[h - 1]) == SlotStart(c, chain[h]) && chain[h - 1].ssi == chain[h].ssi
    ensures chain[h - 1].totalIters <= chain[h].totalIters
  {
    hide HeaderChainOk;
    hide IpIters;
    StepAt(c, chain, h);
    ParamsAt(c, chain, h - 1);
    ParamsAt(c, chain, h);
    IpBounds(c, chain[h - 1]);
    IpBounds(c, chain[h]);
    if chain[h].numFinished > 0 {
      MulMono(0, chain[h].numFinished - 1, chain[h].ssi);
    }
  }

  lemma {:induction false} IterOrderFar(c: Constants, chain: seq<HeaderRec>, i: nat, j: nat)
    requires ConstantsOk(c) && HeaderChainOk(c, chain) && i <= j < |chain|
    ensures BlockParamsOk(c, chain[i]) && BlockParamsOk(c, chain[j])
    ensures SlotStart(c, chain[i]) <= SlotStart(c, chain[j])
    ensures chain[i].totalIters <= chain[j].totalIters
    decreases j
  {
    ParamsAt(c, chain, i);
    if i < j {
      IterOrderFar(c, chain, i, j - 1);
      IterOrder(c, chain, j);
    }
  }

  /** If a sub-slot starts after block `i`, everything from then on lies beyond the sub-slot of `i`. */
  lemma BeyondSlot(c: Constants, chain: seq<HeaderRec>, i: nat, s: nat, j: nat)
    requires ConstantsOk(c) && HeaderChainOk(c, chain) && i < s <= j < |chain| && chain[s].numFinished > 0
    ensures BlockParamsOk(c, chain[i]) && BlockParamsOk(c, chain[j])
    ensures SlotStart(c, chain[i]) + chain[i].ssi <= SlotStart(c, chain[j])
    ensures chain[i].totalIters < SlotStart(c, chain[j])
  {
    hide HeaderChainOk;
    hide SlotStart;
    if forall x :: i < x < s ==> chain[x].numFinished == 0 {
      SameSlot(c, chain, i, s - 1);
      IterOrder(c, chain, s);
      IterOrderFar(c, chain, s, j);
    } else {
      var x :| i < x < s && chain[x].numFinished > 0;
      BeyondSlot(c, chain, i, x, j);
    }
    InsideSlot(c, chain[i]);
  }

  lemma InsideSlot(c: Constants, b: HeaderRec)
    requires BlockParamsOk(c, b)
    ensures SlotStart(c, b) < b.totalIters < SlotStart(c, b) + b.ssi
  {
    IpBounds(c, b);
  }

  /** Without a new sub-slot in between, two blocks share their sub-slot. */
  lemma {:induction false} SameSlot(c: Constants, chain: seq<HeaderRec>, i: nat, j: nat)
    requires ConstantsOk(c) && HeaderChainOk(c, chain) && i <= j < |chain|
    requires forall x :: i < x <= j ==> chain[x].numFinished == 0
    ensures BlockParamsOk(c, chain[i]) && BlockParamsOk(c, chain[j])
    ensures SlotStart(c, chain[i]) == SlotStart(c, chain[j]) && chain[i].ssi == chain[j].ssi
    decreases j
  {
    ParamsAt(c, chain, i);
    if i < j {
      SameSlot(c, chain, i, j - 1);
      IterOrder(c, chain, j);
    }
  }

  // ----- Overflow blocks -----

  /** Within a sub-slot the overflow blocks come first. */
  lemma OverflowComesFirst(c: Constants, chain: seq<HeaderRec>, i: nat, j: nat)
    requires ConstantsOk(c) && HeaderChainOk(c, chain) && i <= j < |chain|
    requires forall x :: i < x <= j ==> chain[x].numFinished == 0
    requires chain[j].overflow
    ensures chain[i].overflow
  {
    SameSlot(c, chain, i, j);
    IterOrderFar(c, chain, i, j);
    IpBounds(c, chain[i]);
    IpBounds(c, chain[j]);
  }

  /** Only the first block of an epoch's first sub-slot is tested for overflow, yet the whole sub-slot
      holds no overflow block: so the sub-slot before that of an overflow block has its length. */
  lemma OverflowSlotLength(c: Constants, chain: seq<HeaderRec>, f: nat, h: nat)
    requires ConstantsOk(c) && HeaderChainOk(c, chain) && 0 < f <= h < |chain|
    requires chain[f].numFinished == 1 && forall x :: f < x <= h ==> chain[x].numFinished == 0
    requires chain[h].overflow
    ensures !CanFinishEpoch(c, chain[..f]) && chain[f - 1].ssi == chain[h].ssi
    ensures BlockParamsOk(c, chain[f - 1]) && BlockParamsOk(c, chain[h])
    ensures SpSlotStart(c, chain[h]) == SlotStart(c, chain[f - 1])
  {
    hide HeaderChainOk;
    hide CanFinishEpoch;
    hide BundleStep;
    hide TxStep;
    hide SlotStep;
    hide IpIters;
    OverflowComesFirst(c, chain, f, h);
    SameSlot(c, chain, f, h);
    StepAt(c, chain, f);
    ParamsAt(c, chain, f - 1);
  }
}
