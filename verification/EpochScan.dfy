/** Which blocks an epoch's rate is measured between: the scan through the previous epoch and the walk
    back from the last block of the current one. */
module EpochScan {
  import opened PotIterations
  import opened HeaderChains
  import opened SubEpochs
  import opened SlotIters

  // ----- Signage points along a chain -----

  /** In total iterations a block comes between EXTRA and EXTRA + 1 intervals after its signage point. */
  lemma SpDistance(c: Constants, b: HeaderRec)
    requires BlockParamsOk(c, b)
    ensures c.extra * Interval(c, b.ssi) < b.totalIters - SpTotalIters(c, b) < (c.extra + 1) * Interval(c, b.ssi)
  {
    InfusionDistance(c, b.ssi, b.spIndex, b.requiredIters, 0);
    hide IpIters;
  }

  lemma LatestSlotStart(chain: seq<HeaderRec>, s: nat, h: nat) returns (f: nat)
    requires 0 < s <= h < |chain| && chain[s].numFinished > 0
    ensures s <= f <= h && chain[f].numFinished > 0
    ensures forall x :: f < x <= h ==> chain[x].numFinished == 0
  {
    f := h;
    while chain[f].numFinished == 0
      invariant s <= f <= h
      invariant forall x :: f < x <= h ==> chain[x].numFinished == 0
      decreases f
    {
      f := f - 1;
    }
  }

  /** The signage point of an overflow block lies no earlier than the sub-slot before its own. */
  lemma OverflowSpSlot(c: Constants, chain: seq<HeaderRec>, f: nat, h: nat)
    requires ConstantsOk(c) && HeaderChainOk(c, chain) && 0 < f <= h < |chain|
    requires chain[f].numFinished > 0 && forall x :: f < x <= h ==> chain[x].numFinished == 0
    requires chain[h].overflow
    ensures BlockParamsOk(c, chain[f - 1]) && BlockParamsOk(c, chain[h])
    ensures chain[f].numFinished == 1 ==> SpSlotStart(c, chain[h]) == SlotStart(c, chain[f - 1]) && chain[f - 1].ssi == chain[h].ssi
    ensures chain[f].numFinished > 1 ==> SpSlotStart(c, chain[h]) >= SlotStart(c, chain[f - 1]) + chain[f - 1].ssi
  {
    hide HeaderChainOk;
    hide IpIters;
    hide BlockParamsOk;
    hide SlotStep;
    hide TxStep;
    hide BundleStep;
    if chain[f].numFinished == 1 {
      OverflowSlotLength(c, chain, f, h);
    } else {
      StepAt(c, chain, f);
      ParamsAt(c, chain, f - 1);
      SameSlot(c, chain, f, h);
      MulMono(1, chain[f].numFinished - 1, chain[f].ssi);
    }
  }

  /** Once a sub-slot has started after block `i`, signage points lie no earlier than the sub-slot of `i`. */
  lemma SpSlotAfter(c: Constants, chain: seq<HeaderRec>, i: nat, s: nat, h: nat)
    requires ConstantsOk(c) && HeaderChainOk(c, chain) && i < s <= h < |chain| && chain[s].numFinished > 0
    ensures BlockParamsOk(c, chain[i]) && BlockParamsOk(c, chain[h])
    ensures SlotStart(c, chain[i]) <= SpSlotStart(c, chain[h]) <= SpTotalIters(c, chain[h])
  {
    hide HeaderChainOk;
    IterOrderFar(c, chain, i, h);
    hide SlotStart;
    if chain[h].overflow {
      var f := LatestSlotStart(chain, s, h);
      OverflowSpSlot(c, chain, f, h);
      IterOrderFar(c, chain, i, f - 1);
    }
    MulMono(0, chain[h].spIndex, Interval(c, chain[h].ssi));
  }

  // ----- Transaction blocks are frequent -----

  lemma {:induction false} LastTxIs(chain: seq<HeaderRec>)
    ensures -1 <= LastTxHeight(chain) < |chain|
    ensures LastTxHeight(chain) >= 0 ==> chain[LastTxHeight(chain)].isTx
    ensures forall i :: LastTxHeight(chain) < i < |chain| ==> !chain[i].isTx
  {
    if chain != [] && !chain[|chain| - 1].isTx {
      LastTxIs(chain[..|chain| - 1]);
    }
  }

  lemma {:induction false} LastTxUnique(chain: seq<HeaderRec>, n: nat, t: int)
    requires n <= |chain| && -1 <= t < n && (t >= 0 ==> chain[t].isTx)
    requires forall i :: t < i < n ==> !chain[i].isTx
    ensures LastTxHeight(chain[..n]) == t
  {
    LastTxIs(chain[..n]);
  }

  lemma TxRule(c: Constants, chain: seq<HeaderRec>, h: nat, t: int)
    requires ConstantsOk(c) && HeaderChainOk(c, chain) && 0 < h < |chain| && t == LastTxHeight(chain[..h])
    ensures 0 <= t < h && chain[h].ssi > 0 && chain[t].isTx
    ensures chain[h].isTx <==> SpTotalIters(c, chain[h]) > chain[t].totalIters
    ensures chain[h].isTx ==> chain[h].timestamp > chain[t].timestamp
  {
    StepAt(c, chain, h);
    LastTxIs(chain[..h]);
  }

  /** Among 2 * MAX_SUB_SLOT_BLOCKS consecutive blocks above genesis one is a transaction block. */
  lemma TxWithin(c: Constants, chain: seq<HeaderRec>, a: nat) returns (t: nat)
    requires ConstantsOk(c) && HeaderChainOk(c, chain) && a + 2 * c.maxBlocks < |chain|
    ensures a < t <= a + 2 * c.maxBlocks && chain[t].isTx
  {
    hide HeaderChainOk;
    var s1 := SlotStartsWithin(c, chain, a);
    var s2 := SlotStartsWithin(c, chain, s1);
    var l := LastTxHeight(chain[..s2]);
    TxRule(c, chain, s2, l);
    if l > a {
      t := l;
    } else {
      t := s2;
      BeyondSlot(c, chain, l, s1, s1);
      SpSlotAfter(c, chain, s1, s2, s2);
    }
  }

  /** Timestamps of transaction blocks strictly increase. */
  lemma {:induction false} TimestampsGrow(c: Constants, chain: seq<HeaderRec>, i: nat, j: nat)
    requires ConstantsOk(c) && HeaderChainOk(c, chain) && i < j < |chain| && chain[i].isTx && chain[j].isTx
    ensures chain[i].timestamp < chain[j].timestamp
    decreases j
  {
    var t := LastTxHeight(chain[..j]);
    TxRule(c, chain, j, t);
    LastTxIs(chain[..j]);
    assert chain[..j][i].isTx;
    if i < t {
      TimestampsGrow(c, chain, i, t);
    }
  }

  // ----- The epoch boundary -----

  /** When an epoch may finish, the block after `chain` lies at most
      2 * MAX_SUB_SLOT_BLOCKS + MIN_BLOCKS_PER_CHALLENGE_BLOCK - 2 past an epoch boundary. */
  lemma EpochEndsSoon(c: Constants, chain: seq<HeaderRec>) returns (ws: nat)
    requires ConstantsOk(c) && HeaderChainOk(c, chain) && chain != [] && CanFinishEpoch(c, chain)
    ensures ws == WindowStart(c, |chain|) && ws % c.epochBlocks == 0 && ws >= c.epochBlocks
    ensures ws <= |chain| <= ws + 2 * c.maxBlocks + c.minBlocks - 2
  {
    hide HeaderChainOk;
    var n := c.subEpochBlocks;
    ws := WindowStart(c, |chain|);
    var k := |chain| / n;
    assert |chain| == k * n + |chain| % n;
    MulMono(1, k, n);
    if LatestSes(c, k) < |chain| {
      var h := SesAppears(c, chain, k);
    }
    BoundaryAtLeast(ws, c.epochBlocks);
  }

  lemma BoundaryAtLeast(ws: nat, e: nat)
    requires e > 0 && ws > 0 && ws % e == 0
    ensures ws >= e
  {
    if ws < e {
      ModSmall(ws, e);
    }
  }

  /** The last transaction block but one of a chain. */
  function SecondToLastTx(chain: seq<HeaderRec>): int {
    var t := LastTxHeight(chain);
    if 0 <= t < |chain| then LastTxHeight(chain[..t]) else -1
  }

  /** Block `s` starts the sub-epoch whose boundary is `ps`. */
  ghost predicate StartsAt(c: Constants, chain: seq<HeaderRec>, ps: nat, s: nat) {
    && ps <= s < |chain| && s <= ps + 2 * c.maxBlocks + c.minBlocks - 2
    && chain[s].ses && NoSes(chain, ps, s)
  }

  /** Where the rate of the epoch ending after `chain` is measured from: genesis for the first epoch,
      else the last transaction block but one before the epoch's first block. */
  ghost predicate MeasuredFrom(c: Constants, chain: seq<HeaderRec>, ps: nat, r: nat) {
    if ps == 0 then r == 0
    else exists s: nat :: StartsAt(c, chain, ps, s) && r == SecondToLastTx(chain[..s])
  }

  lemma EpochStart(c: Constants, chain: seq<HeaderRec>, ps: nat) returns (s: nat)
    requires ConstantsOk(c) && HeaderChainOk(c, chain)
    requires 0 < ps && ps % c.epochBlocks == 0 && ps + c.epochBlocks <= |chain|
    ensures StartsAt(c, chain, ps, s)
  {
    hide HeaderChainOk;
    var n := c.subEpochBlocks;
    MultipleOfMultiple(ps, c.epochBlocks, n);
    var k := ps / n;
    assert ps == k * n;
    BoundaryAtLeast(ps, n);
    Distribute(k, 1, n);
    s := SesAppears(c, chain, k);
    forall i | ps <= i < s && i < |chain| ensures !chain[i].ses {
      SesIsFirst(c, chain, k, i, s);
    }
  }

  lemma MultipleOfMultiple(x: nat, e: nat, n: nat)
    requires n > 0 && e > 0 && e % n == 0 && x % e == 0
    ensures x % n == 0
  {
    var q, p := x / e, e / n;
    assert x == q * e && e == p * n;
    assert x == n * (q * p) by { assert q * (p * n) == n * (q * p); }
    MultipleMod(q * p, n);
  }

  /** Two transaction blocks precede every block above 2 * MAX_SUB_SLOT_BLOCKS. */
  lemma SecondToLastExists(c: Constants, chain: seq<HeaderRec>, s: nat)
    requires ConstantsOk(c) && HeaderChainOk(c, chain) && 2 * c.maxBlocks < s <= |chain|
    ensures 0 <= SecondToLastTx(chain[..s]) < LastTxHeight(chain[..s]) < s
    ensures chain[SecondToLastTx(chain[..s])].isTx
  {
    hide HeaderChainOk;
    hide LastTxHeight;
    GenesisAt(c, chain);
    hide GenesisOk;
    HeaderPrefix(c, chain, s);
    var t := TxWithin(c, chain[..s], 0);
    LastTxIs(chain[..s]);
    var l := LastTxHeight(chain[..s]);
    assert chain[..s][..l] == chain[..l];
    assert chain[..l][0].isTx;
    LastTxIs(chain[..l]);
  }

  /** The scan as coded.  The block under consideration is the last of `chain`; the scan is given its
      parent and names blocks by height.  Both sanity checks hold, no index leaves the fetched list,
      and neither walk runs past genesis. */
  method SecondToLastTxInPreviousEpoch(c: Constants, chain: seq<HeaderRec>) returns (r: nat)
    requires ConstantsOk(c) && HeaderChainOk(c, chain) && chain != [] && CanFinishEpoch(c, chain)
    ensures WindowStart(c, |chain|) >= c.epochBlocks
    ensures r < |chain| && MeasuredFrom(c, chain, WindowStart(c, |chain|) - c.epochBlocks, r)
  {
    hide HeaderChainOk;
    ghost var ws := EpochEndsSoon(c, chain);
    var lastHeight := |chain| - 2;
    var heightInNextEpoch := lastHeight + 2 * c.maxBlocks + c.minBlocks + 5;
    var surpass := heightInNextEpoch - heightInNextEpoch % c.epochBlocks;
    assert surpass == ws by { BoundaryBelow(ws, c.epochBlocks, heightInNextEpoch); }
    var ps := surpass - c.epochBlocks;
    assert ps % c.epochBlocks == 0 by { BoundaryBefore(ws, c.epochBlocks); }
    assert heightInNextEpoch - surpass < 5 * c.maxBlocks;
    if ps == 0 {
      return 0;
    }
    BoundaryAtLeast(ps, c.epochBlocks);
    ghost var s := EpochStart(c, chain, ps);
    var lo: nat := ps - c.maxBlocks - 1;
    var fetched: seq<nat> := seq(3 * c.maxBlocks + c.minBlocks + 3, i => lo + i);
    assert lo + |fetched| <= lastHeight + 1;
    var index := c.maxBlocks;
    var curr := fetched[index];
    index := index + 1;
    assert curr == ps - 1;
    var next := fetched[index];
    assert next == ps;
    while !chain[next].ses
      invariant ps - 1 <= curr <= next <= s && c.maxBlocks + 1 <= index
      invariant (next == ps && index == c.maxBlocks + 1 && curr == ps - 1) || (curr == ps == next < s && index == c.maxBlocks + 2)
        || (ps < next && curr == next - 1 && index == next - lo + 1)
      decreases c.maxBlocks + 3 + s - lo - index
    {
      curr := next;
      next := fetched[index];
      index := index + 1;
    }
    assert next == s && curr == s - 1;
    SecondToLastExists(c, chain, s);
    r := Backtrack(chain, curr);
    assert curr + 1 == s;
  }

  /** The assumption on the length of an epoch is what the scan needs: for the latest end of an epoch the
      boundary it computes is the right one exactly under that assumption. */
  lemma EpochLengthIsTight(c: Constants, ws: nat, e: nat)
    requires 2 <= c.minBlocks && 2 <= c.maxBlocks && e > 0 && ws % e == 0
    ensures var last := ws + 2 * c.maxBlocks + c.minBlocks - 4;
      var h := last + 2 * c.maxBlocks + c.minBlocks + 5;
      h - h % e == ws <==> 4 * c.maxBlocks + 2 * c.minBlocks + 1 < e
  {
    var h := ws + 4 * c.maxBlocks + 2 * c.minBlocks + 1;
    if h < ws + e {
      BoundaryBelow(ws, e, h);
    } else {
      assert ws == (ws / e) * e;
      Distribute(ws / e, 1, e);
      BoundaryReached(h, e, ws + e, ws / e + 1);
    }
  }

  lemma BoundaryReached(h: nat, e: nat, m: nat, k: nat)
    requires e > 0 && m <= h && m == k * e
    ensures m <= h - h % e
  {
    assert h == (h / e) * e + h % e;
    if h / e < k {
      MulMono(h / e + 1, k, e);
    } else {
      MulMono(k, h / e, e);
    }
  }

  lemma BoundaryBelow(ws: nat, e: nat, h: nat)
    requires e > 0 && ws % e == 0 && ws <= h < ws + e
    ensures h - h % e == ws
  {
    var k := ws / e;
    assert ws == k * e;
    Distribute(k, 1, e);
    WindowOf(e, k, h);
  }

  lemma BoundaryBefore(ws: nat, e: nat)
    requires e > 0 && ws % e == 0 && ws >= e
    ensures (ws - e) % e == 0
  {
    var k := ws / e;
    assert ws == k * e;
    Distribute(k, -1, e);
    MultipleMod(k - 1, e);
  }

  /** Walks back to the last transaction block but one. */
  method Backtrack(chain: seq<HeaderRec>, start: nat) returns (curr: nat)
    requires start < |chain| && SecondToLastTx(chain[..start + 1]) >= 0
    ensures curr <= start && curr == SecondToLastTx(chain[..start + 1])
  {
    ghost var all := chain[..start + 1];
    LastTxIs(all);
    ghost var t := LastTxHeight(all);
    assert all[..t] == chain[..t];
    LastTxIs(chain[..t]);
    curr := start;
    var found := if chain[curr].isTx then 1 else 0;
    while found < 2
      invariant 0 <= found <= 2 && curr <= start
      invariant found == 0 ==> t < curr
      invariant found == 1 ==> SecondToLastTx(all) < curr <= t
      invariant found == 2 ==> curr == SecondToLastTx(all)
      decreases curr
    {
      curr := curr - 1;
      assert curr < t ==> chain[..t][curr] == chain[curr];
      if chain[curr].isTx {
        found := found + 1;
      }
    }
  }

  // ----- The walk back from the end of the epoch -----

  /** A block infused after the signage point of a later block shares the sub-slot of that block or of
      its signage point, and their length. */
  lemma LateBlockSlot(c: Constants, chain: seq<HeaderRec>, t: nat, h: nat)
    requires ConstantsOk(c) && HeaderChainOk(c, chain) && t < h < |chain|
    requires chain[h].ssi > 0 && chain[t].totalIters >= SpTotalIters(c, chain[h])
    ensures BlockParamsOk(c, chain[t]) && BlockParamsOk(c, chain[h]) && chain[t].ssi == chain[h].ssi
    ensures SlotStart(c, chain[t]) == SlotStart(c, chain[h])
         || SlotStart(c, chain[t]) == SlotStart(c, chain[h]) - chain[h].ssi
  {
    hide HeaderChainOk;
    hide SlotStart;
    ParamsAt(c, chain, h);
    if forall x :: t < x <= h ==> chain[x].numFinished == 0 {
      SameSlot(c, chain, t, h);
    } else {
      var s :| t < s <= h && chain[s].numFinished > 0;
      var f := LatestSlotStart(chain, s, h);
      BeyondSlot(c, chain, t, f, h);
      MulMono(0, chain[h].spIndex, Interval(c, chain[h].ssi));
      OverflowSpSlot(c, chain, f, h);
      InsideSlot(c, chain[f - 1]);
      IterOrderFar(c, chain, t, f - 1);
      if forall x :: t < x <= f - 1 ==> chain[x].numFinished == 0 {
        SameSlot(c, chain, t, f - 1);
      } else {
        var x :| t < x <= f - 1 && chain[x].numFinished > 0;
        BeyondSlot(c, chain, t, x, f - 1);
      }
    }
  }

  /** Position of the signage point in intervals from the start of the block's own sub-slot. */
  function SpPosition(c: Constants, b: HeaderRec): int {
    if b.overflow then b.spIndex - c.numSps else b.spIndex
  }

  lemma SpAtPosition(c: Constants, b: HeaderRec)
    requires BlockParamsOk(c, b)
    ensures SpTotalIters(c, b) == SlotStart(c, b) + SpPosition(c, b) * Interval(c, b.ssi)
  {
    SlotIsIntervals(c, b.ssi);
    hide SlotStart;
    var n: int := c.numSps;
    Distribute(b.spIndex, -n, Interval(c, b.ssi));
  }

  /** Signage points of such blocks lie a whole number of intervals apart. */
  lemma SpGrid(c: Constants, a: HeaderRec, b: HeaderRec) returns (m: int)
    requires BlockParamsOk(c, a) && BlockParamsOk(c, b) && a.ssi == b.ssi
    requires SlotStart(c, a) == SlotStart(c, b) || SlotStart(c, a) == SlotStart(c, b) - b.ssi
    ensures SpTotalIters(c, a) == SpTotalIters(c, b) + m * Interval(c, b.ssi)
  {
    SlotIsIntervals(c, b.ssi);
    SpAtPosition(c, a);
    SpAtPosition(c, b);
    hide *;
    var n := if SlotStart(c, a) == SlotStart(c, b) then 0 else c.numSps;
    m := SpPosition(c, a) - SpPosition(c, b) - n;
    Difference(SpPosition(c, a), SpPosition(c, b), n, Interval(c, b.ssi));
  }

  lemma Difference(a: int, b: int, n: int, k: int)
    ensures a * k - n * k == b * k + (a - b - n) * k
  {
  }

  lemma GridOrder(m: int, i: nat, e: nat, ta: int, sa: int, tb: int, sb: int)
    requires sa == sb + m * i && ta <= tb
    requires e * i < ta - sa < (e + 1) * i && e * i < tb - sb < (e + 1) * i
    ensures sa <= sb && ta != sb
  {
    Distribute(e, 1, i);
    if m >= 1 {
      MulMono(1, m, i);
    } else {
      MulMono(m, 0, i);
    }
    if -m <= e {
      MulMono(-m, e, i);
    } else {
      MulMono(e + 1, -m, i);
    }
    Distribute(m, -m, i);
  }

  /** Of two blocks so related, the one infused first has the earlier signage point or the same one,
      and is not infused exactly at the signage point of the other. */
  lemma SpOrder(c: Constants, a: HeaderRec, b: HeaderRec)
    requires BlockParamsOk(c, a) && BlockParamsOk(c, b) && a.ssi == b.ssi && a.totalIters <= b.totalIters
    requires SlotStart(c, a) == SlotStart(c, b) || SlotStart(c, a) == SlotStart(c, b) - b.ssi
    ensures SpTotalIters(c, a) <= SpTotalIters(c, b)
    ensures a.totalIters != SpTotalIters(c, b)
  {
    var m := SpGrid(c, a, b);
    SpDistance(c, a);
    SpDistance(c, b);
    GridOrder(m, Interval(c, b.ssi), c.extra, a.totalIters, SpTotalIters(c, a), b.totalIters, SpTotalIters(c, b));
  }

  /** The last transaction block infused before the signage point of the last block is the last
      transaction block but one, whether or not the last block is itself a transaction block. */
  lemma LastTxBeforeSignagePoint(c: Constants, chain: seq<HeaderRec>, h: nat, r: nat)
    requires ConstantsOk(c) && HeaderChainOk(c, chain) && 2 * c.maxBlocks <= h && h + 1 == |chain|
    requires r == SecondToLastTx(chain)
    ensures r < h && chain[r].isTx && chain[h].ssi > 0 && chain[r].totalIters <= SpTotalIters(c, chain[h])
    ensures forall i :: r < i < h && chain[i].isTx ==> chain[i].totalIters > SpTotalIters(c, chain[h])
  {
    hide HeaderChainOk;
    hide SpTotalIters;
    assert chain[..|chain|] == chain;
    SecondToLastExists(c, chain, |chain|);
    LastTxIs(chain);
    var t := LastTxHeight(chain);
    LastTxIs(chain[..t]);
    assert forall i :: r < i < t ==> chain[..t][i] == chain[i];
    if t == h {
      TxRule(c, chain, h, r);
    } else {
      LastTxUnique(chain, h, t);
      TxRule(c, chain, h, t);
      TxRule(c, chain, t, r);
      LateBlockSlot(c, chain, t, h);
      IterOrderFar(c, chain, t, h);
      SpOrder(c, chain[t], chain[h]);
    }
  }

  /** The walk as coded, from the parent of the last block. */
  method LastTxBeforeSp(c: Constants, chain: seq<HeaderRec>, spTotal: int) returns (r: nat)
    requires ConstantsOk(c) && HeaderChainOk(c, chain) && 2 * c.maxBlocks < |chain|
    requires chain[|chain| - 1].ssi > 0 && spTotal == SpTotalIters(c, chain[|chain| - 1])
    ensures r < |chain| && r == SecondToLastTx(chain)
  {
    hide HeaderChainOk;
    hide SpTotalIters;
    assert chain[..|chain|] == chain;
    SecondToLastExists(c, chain, |chain|);
    ghost var m := SecondToLastTx(chain);
    LastTxBeforeSignagePoint(c, chain, |chain| - 1, m);
    r := |chain| - 2;
    while chain[r].totalIters > spTotal || !chain[r].isTx
      invariant m <= r < |chain| - 1
      decreases r
    {
      r := r - 1;
    }
  }

  // ----- Both ends together -----

  /** The two measuring blocks are transaction blocks in order, so the measured time is positive. */
  lemma MeasuredTimeIsPositive(c: Constants, chain: seq<HeaderRec>, r: nat, ws: nat)
    requires ConstantsOk(c) && HeaderChainOk(c, chain) && chain != [] && CanFinishEpoch(c, chain)
    requires ws == WindowStart(c, |chain|) && ws >= c.epochBlocks
    requires MeasuredFrom(c, chain, ws - c.epochBlocks, r)
    ensures r < SecondToLastTx(chain) < |chain|
    ensures chain[r].timestamp < chain[SecondToLastTx(chain)].timestamp
    ensures chain[r].totalIters <= chain[SecondToLastTx(chain)].totalIters
  {
    hide HeaderChainOk;
    hide CanFinishEpoch;
    hide MeasuredFrom;
    var w := EpochEndsSoon(c, chain);
    MeasuredEarlier(c, chain, r, ws);
    TimestampsGrow(c, chain, r, SecondToLastTx(chain));
    IterOrderFar(c, chain, r, SecondToLastTx(chain));
  }

  lemma GenesisTx(c: Constants, chain: seq<HeaderRec>)
    requires ConstantsOk(c) && HeaderChainOk(c, chain) && chain != []
    ensures chain[0].isTx
  {
    GenesisAt(c, chain);
  }

  /** The first block of an epoch is a transaction block: its signage point lies beyond the sub-slot of its
      parent, which check 9 ensures if it overflows. */
  lemma EpochStartIsTx(c: Constants, chain: seq<HeaderRec>, s: nat)
    requires ConstantsOk(c) && HeaderChainOk(c, chain) && 0 < s < |chain|
    requires chain[s].numFinished > 0 && CanFinishEpoch(c, chain[..s])
    ensures chain[s].isTx
  {
    hide HeaderChainOk;
    hide CanFinishEpoch;
    hide SlotStart;
    hide SlotStep;
    hide TxStep;
    hide BundleStep;
    var t := LastTxHeight(chain[..s]);
    TxRule(c, chain, s, t);
    StepAt(c, chain, s);
    IterOrder(c, chain, s);
    IterOrderFar(c, chain, t, s - 1);
    InsideSlot(c, chain[s - 1]);
    MulMono(0, chain[s].spIndex, Interval(c, chain[s].ssi));
    if chain[s].overflow {
      OverflowSpSlot(c, chain, s, s);
    }
  }

  /** The block that starts the window of an epoch boundary starts an epoch. */
  lemma StartsEpochAt(c: Constants, chain: seq<HeaderRec>, ps: nat, s: nat)
    requires ConstantsOk(c) && HeaderChainOk(c, chain) && 0 < ps && ps % c.epochBlocks == 0 && StartsAt(c, chain, ps, s)
    ensures chain[s].numFinished > 0 && CanFinishEpoch(c, chain[..s])
  {
    hide HeaderChainOk;
    hide CanFinishSubEpoch;
    SesRule(c, chain, s);
    MultipleOfMultiple(ps, c.epochBlocks, c.subEpochBlocks);
    BoundaryBelow(ps, c.subEpochBlocks, s);
  }

  /** Two transaction blocks lie at or after the first block of an epoch, if the chain goes on. */
  lemma TwoTxSince(c: Constants, chain: seq<HeaderRec>, ps: nat, s: nat)
    requires ConstantsOk(c) && HeaderChainOk(c, chain) && s + 2 * c.maxBlocks < |chain|
    requires if ps == 0 then s == 0 else ps % c.epochBlocks == 0 && StartsAt(c, chain, ps, s)
    ensures s <= SecondToLastTx(chain) < |chain| && chain[SecondToLastTx(chain)].isTx
  {
    hide HeaderChainOk;
    hide CanFinishEpoch;
    hide SecondToLastTx;
    if ps == 0 {
      GenesisTx(c, chain);
    } else {
      StartsEpochAt(c, chain, ps, s);
      EpochStartIsTx(c, chain, s);
    }
    var t := TxWithin(c, chain, s);
    SecondToLastIsLate(chain, s, t);
  }

  lemma MeasuredEarlier(c: Constants, chain: seq<HeaderRec>, r: nat, ws: nat)
    requires ConstantsOk(c) && HeaderChainOk(c, chain)
    requires c.epochBlocks <= ws <= |chain| && ws % c.epochBlocks == 0
    requires MeasuredFrom(c, chain, ws - c.epochBlocks, r)
    ensures r < SecondToLastTx(chain) < |chain| && chain[r].isTx && chain[SecondToLastTx(chain)].isTx
  {
    hide HeaderChainOk;
    hide SecondToLastTx;
    hide NoSes;
    var ps := ws - c.epochBlocks;
    if ps == 0 {
      GenesisTx(c, chain);
      var t1 := TxWithin(c, chain, 0);
      var t2 := TxWithin(c, chain, t1);
      SecondToLastIsLate(chain, t1, t2);
    } else {
      var s: nat :| StartsAt(c, chain, ps, s) && r == SecondToLastTx(chain[..s]);
      BoundaryBefore(ws, c.epochBlocks);
      BoundaryAtLeast(ps, c.epochBlocks);
      SecondToLastExists(c, chain, s);
      TwoTxSince(c, chain, ps, s);
    }
  }

  lemma SecondToLastIsLate(chain: seq<HeaderRec>, t1: nat, t2: nat)
    requires t1 < t2 < |chain| && chain[t1].isTx && chain[t2].isTx
    ensures t1 <= SecondToLastTx(chain) < |chain| && chain[SecondToLastTx(chain)].isTx
  {
    LastTxIs(chain);
    var l := LastTxHeight(chain);
    LastTxIs(chain[..l]);
    assert chain[..l][t1].isTx;
  }

  /** Epochs tile: the block from which the next epoch is measured is the block up to which this one
      was measured when it ended before height `h`. */
  lemma EpochsTile(c: Constants, chain: seq<HeaderRec>, h: nat, ps: nat, r: nat)
    requires ConstantsOk(c) && HeaderChainOk(c, chain) && 0 < h < |chain|
    requires chain[h].ses && CanFinishEpoch(c, chain[..h])
    requires ps == WindowStart(c, h) && ps > 0 && MeasuredFrom(c, chain, ps, r)
    ensures r == SecondToLastTx(chain[..h])
  {
    hide HeaderChainOk;
    hide CanFinishEpoch;
    var s: nat :| StartsAt(c, chain, ps, s) && r == SecondToLastTx(chain[..s]);
    hide MeasuredFrom;
    hide SecondToLastTx;
    var k := InWindow(c.subEpochBlocks, h);
    AtMostOneSes(c, chain, k, s, h);
  }

  lemma InWindow(n: nat, h: nat) returns (k: nat)
    requires n > 0
    ensures k * n <= h < (k + 1) * n && h - h % n == k * n && (k + 1) * n == k * n + n
  {
    k := h / n;
    assert h == k * n + h % n;
    Distribute(k, 1, n);
  }

  // ----- One sub-slot length per epoch -----

  ghost predicate StartsEpoch(c: Constants, chain: seq<HeaderRec>, x: nat)
    requires ConstantsOk(c) && 0 < x < |chain|
  {
    chain[x].numFinished > 0 && CanFinishEpoch(c, chain[..x])
  }

  lemma {:induction false} SsiSteady(c: Constants, chain: seq<HeaderRec>, i: nat, j: nat)
    requires ConstantsOk(c) && HeaderChainOk(c, chain) && i <= j < |chain|
    requires forall x :: i < x <= j ==> !StartsEpoch(c, chain, x)
    ensures chain[i].ssi == chain[j].ssi
    decreases j
  {
    if i < j {
      SsiSteady(c, chain, i, j - 1);
      StepAt(c, chain, j);
      assert !StartsEpoch(c, chain, j);
    }
  }

  lemma MultiplesApart(a: nat, b: nat, e: nat)
    requires e > 0 && a % e == 0 && b % e == 0 && a < b
    ensures a + e <= b
  {
    assert a == (a / e) * e && b == (b / e) * e;
    if b / e <= a / e {
      MulMono(b / e, a / e, e);
    } else {
      MulStrict(a / e, b / e, e);
    }
  }

  /** Block `s` is the first of the epoch that may finish after `chain`. */
  ghost predicate CurrentEpochFrom(c: Constants, chain: seq<HeaderRec>, ws: nat, s: nat)
    requires ws >= c.epochBlocks
  {
    if ws == c.epochBlocks then s == 0 else StartsAt(c, chain, ws - c.epochBlocks, s)
  }

  lemma NoSesYet(c: Constants, chain: seq<HeaderRec>, ws: nat, x: nat)
    requires ConstantsOk(c) && chain != [] && CanFinishSubEpoch(c, chain)
    requires ws == WindowStart(c, |chain|) && ws <= x < |chain|
    ensures !chain[x].ses
  {
  }

  /** No block after it starts another epoch. */
  lemma NoOtherEpoch(c: Constants, chain: seq<HeaderRec>, ws: nat, s: nat, x: nat)
    requires ConstantsOk(c) && HeaderChainOk(c, chain) && chain != [] && CanFinishEpoch(c, chain)
    requires ws == WindowStart(c, |chain|) && ws >= c.epochBlocks && CurrentEpochFrom(c, chain, ws, s)
    requires s < x < |chain|
    ensures !StartsEpoch(c, chain, x)
  {
    if StartsEpoch(c, chain, x) {
      HeaderPrefix(c, chain, x);
      SesRule(c, chain, x);
      hide HeaderChainOk;
      hide CanFinishSubEpoch;
      var _ := EpochEndsSoon(c, chain);
      var w := EpochEndsSoon(c, chain[..x]);
      hide WindowStart;
      WhichBoundary(w, ws, c.epochBlocks);
      hide *;
      if w == ws {
        NoSesYet(c, chain, ws, x);
      } else if w == ws - c.epochBlocks {
        SameWindow(c, chain, w, s, x);
      }
    }
  }

  lemma WhichBoundary(w: nat, ws: nat, e: nat)
    requires e > 0 && w % e == 0 && ws % e == 0 && e <= ws && w < ws + e
    ensures w == ws || w == ws - e || w + 2 * e <= ws
  {
    BoundaryBefore(ws, e);
    if w > ws {
      MultiplesApart(ws, w, e);
    } else if w < ws {
      MultiplesApart(w, ws, e);
      if w < ws - e {
        MultiplesApart(w, ws - e, e);
      }
    }
  }

  lemma SameWindow(c: Constants, chain: seq<HeaderRec>, ps: nat, s: nat, x: nat)
    requires ConstantsOk(c) && HeaderChainOk(c, chain) && x < |chain| && s < |chain|
    requires chain[s].ses && chain[x].ses && ps == WindowStart(c, x)
    requires ps <= s < ps + c.subEpochBlocks
    ensures s == x
  {
    hide HeaderChainOk;
    var k := InWindow(c.subEpochBlocks, x);
    AtMostOneSes(c, chain, k, s, x);
  }

  /** The last transaction block but one lies in the epoch that may finish, so it has the sub-slot
      iterations of the last block. */
  lemma MeasuredWithinEpoch(c: Constants, chain: seq<HeaderRec>, b: nat)
    requires ConstantsOk(c) && HeaderChainOk(c, chain) && chain != [] && CanFinishEpoch(c, chain)
    requires b == SecondToLastTx(chain)
    ensures b < |chain| && chain[b].ssi == chain[|chain| - 1].ssi
  {
    hide HeaderChainOk;
    var ws := EpochEndsSoon(c, chain);
    hide CanFinishEpoch;
    var s := CurrentEpoch(c, chain, ws);
    BoundaryBefore(ws, c.epochBlocks);
    TwoTxSince(c, chain, ws - c.epochBlocks, s);
    forall x | b < x <= |chain| - 1 ensures !StartsEpoch(c, chain, x) {
      NoOtherEpoch(c, chain, ws, s, x);
    }
    SsiSteady(c, chain, b, |chain| - 1);
  }

  lemma CurrentEpoch(c: Constants, chain: seq<HeaderRec>, ws: nat) returns (s: nat)
    requires ConstantsOk(c) && HeaderChainOk(c, chain)
    requires ws >= c.epochBlocks && ws % c.epochBlocks == 0 && ws <= |chain|
    ensures CurrentEpochFrom(c, chain, ws, s) && s + 2 * c.maxBlocks < |chain|
  {
    hide HeaderChainOk;
    if ws == c.epochBlocks {
      s := 0;
    } else {
      BoundaryBefore(ws, c.epochBlocks);
      s := EpochStart(c, chain, ws - c.epochBlocks);
    }
  }
}
