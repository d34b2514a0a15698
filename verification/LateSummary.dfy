/** A valid chain whose first sub-epoch summary comes as late as the rules allow. */
module LateSummary {
  import opened PotIterations
  import opened HeaderChains
  import opened SubEpochs
  import opened EpochScan
  import opened PeakSlots
  import opened SampleChain

  const LENGTH: nat := 28

  /** Height of the block that starts the sub-slot of block `h`: single blocks up to 13, then six overflow
      blocks, a single block, six blocks, and the block that carries the summary. */
  function Starter(h: nat): nat {
    if h <= 14 then h else if h < 20 then 14 else if h == 20 then 20 else if h < 27 then 21 else h
  }

  function SlotOf(h: nat): nat {
    if h <= 14 then h else if h < 20 then 14 else if h == 20 then 15 else if h < 27 then 16 else 17
  }

  predicate Overflowing(h: nat) {
    14 <= h < 20
  }

  predicate Starts(h: nat) {
    h > 0 && Starter(h) == h
  }

  function Required(h: nat): nat {
    if Overflowing(h) then h - 13 else if 21 <= h < 27 then (if h < 25 then h - 16 else 9) else 5
  }

  function Deficit(h: nat): nat {
    if h < 14 then (if h % 2 == 0 then 1 else 0)
    else if h < 20 then 2 else if h == 20 then 1 else if h < 27 then 0 else 1
  }

  function IpOf(h: nat): nat {
    if Overflowing(h) then Required(h) else 10 + Required(h)
  }

  function LateBlock(h: nat, ses: bool): HeaderRec {
    HeaderRec(SlotOf(h) * 40 + IpOf(h), 40, if Overflowing(h) then 3 else 0, Required(h), Overflowing(h), Deficit(h),
              if Starts(h) then 1 else 0,
              if Starts(h) then [Bundle(false, SlotOf(h))] else [],
              if h == 0 then [SlotEnd(GenesisChallenge, GENESIS_CHALLENGE)]
              else if Starts(h) then SlotEnds([Bundle(false, SlotOf(h))]) else [],
              ses, Starter(h) == h, h, h + 1, h, h)
  }

  /** The summary flag follows the rule. */
  ghost function SesAt(h: nat, before: seq<HeaderRec>): bool {
    before != [] && Starts(h) && CanFinishSubEpoch(SmallConstants(), before)
  }

  ghost function Late(n: nat): (chain: seq<HeaderRec>)
    ensures |chain| == n
  {
    if n == 0 then [] else Late(n - 1) + [LateBlock(n - 1, SesAt(n - 1, Late(n - 1)))]
  }

  lemma {:induction false} LateAt(n: nat, h: nat)
    requires h < n
    ensures Late(n)[..h] == Late(h) && Late(n)[h] == LateBlock(h, SesAt(h, Late(h)))
  {
    hide LateBlock;
    hide SesAt;
    assert Late(n)[..n - 1] == Late(n - 1);
    if h < n - 1 {
      LateAt(n - 1, h);
      assert Late(n)[..h] == Late(n - 1)[..h];
    }
  }

  lemma LateIters(h: nat, ses: bool)
    requires h < LENGTH
    ensures var c, b := SmallConstants(), LateBlock(h, ses);
      && BlockParamsOk(c, b) && SlotStart(c, b) == SlotOf(h) * 40
      && SpTotalIters(c, b) == SlotOf(h) * 40 - (if Overflowing(h) then 10 else 0)
  {
    var c, b := SmallConstants(), LateBlock(h, ses);
    assert Interval(c, 40) == 10;
    assert SpIters(c, 40, b.spIndex) == b.spIndex * 10;
    assert Ip(c, b) == IpOf(h);
  }

  ghost predicate IsLate(chain: seq<HeaderRec>) {
    forall x: nat :: x < |chain| ==> IsLateAt(chain, x)
  }

  ghost predicate IsLateAt(chain: seq<HeaderRec>, x: nat)
    requires x < |chain|
  {
    chain[x] == LateBlock(x, chain[x].ses)
  }

  /** The sub-slot of the last block: its start, its size, its transaction block, its challenge. */
  lemma LateSlot(chain: seq<HeaderRec>, n: nat)
    requires 0 < n <= LENGTH && |chain| == n && IsLate(chain)
    ensures LastTxHeight(chain) == Starter(n - 1) && BlocksInSlot(chain) == n - Starter(n - 1)
    ensures LastChallenge(chain) == ChallengeAt(false, SlotOf(n - 1))
  {
    hide LastTxHeight;
    hide BlocksInSlot;
    hide LastChallenge;
    var f := Starter(n - 1);
    forall x: nat | f <= x < n ensures (chain[x].isTx <==> x == f) && (FirstInSubSlot(chain[x]) <==> x == f) {
      assert IsLateAt(chain, x);
    }
    assert IsLateAt(chain, f);
    assert chain[..n] == chain;
    LastTxUnique(chain, n, f);
    BlocksSince(chain, f);
    LastChallengeAt(chain, f);
    assert chain[f].finished[0].cc == ChallengeAt(false, SlotOf(f));
  }

  lemma {:induction false} BlocksSince(chain: seq<HeaderRec>, f: nat)
    requires f < |chain| && FirstInSubSlot(chain[f]) && forall x :: f < x < |chain| ==> !FirstInSubSlot(chain[x])
    ensures BlocksInSlot(chain) == |chain| - f
  {
    if f < |chain| - 1 {
      BlocksSince(chain[..|chain| - 1], f);
    }
  }

  lemma LateIsLate(n: nat)
    ensures IsLate(Late(n))
  {
    hide LateBlock;
    hide SesAt;
    forall x: nat | x < n ensures IsLateAt(Late(n), x) {
      LateAt(n, x);
      SesOfBlock(x, SesAt(x, Late(x)));
    }
  }

  lemma SesOfBlock(h: nat, ses: bool)
    ensures LateBlock(h, ses).ses == ses
  {
  }

  /** Every block satisfies the step rules. */
  lemma LateStep(init: seq<HeaderRec>, h: nat, b: HeaderRec)
    requires 0 < h < LENGTH && |init| == h && IsLate(init) && b == LateBlock(h, SesAt(h, init))
    ensures init[h - 1].ssi == 40 && SlotStep(SmallConstants(), init, b) && IterStep(SmallConstants(), init, b)
    ensures TxStep(SmallConstants(), init, b) && BundleStep(LastChallenge(init), 40, b)
  {
    hide IsLate;
    hide SlotStep;
    hide IterStep;
    hide SesAt;
    hide SlotStart;
    hide SpTotalIters;
    hide BlockParamsOk;
    hide LastTxHeight;
    hide LastChallenge;
    LateSlot(init, h);
    LastTwo(init, h, Starter(h - 1));
    LateIters(h, b.ses);
    LateSlotStep(init, h, b);
    LateIterStep(init, h, b);
  }

  lemma LateSlotStep(init: seq<HeaderRec>, h: nat, b: HeaderRec)
    requires 0 < h < LENGTH && |init| == h && IsLate(init) && b == LateBlock(h, SesAt(h, init))
    ensures SlotStep(SmallConstants(), init, b)
  {
    hide IsLate;
    hide CanFinishSubEpoch;
    hide BlocksInSlot;
    LateSlot(init, h);
    LastTwo(init, h, 0);
  }

  lemma LateIterStep(init: seq<HeaderRec>, h: nat, b: HeaderRec)
    requires 0 < h < LENGTH && |init| == h && IsLate(init) && b == LateBlock(h, SesAt(h, init))
    ensures init[h - 1].ssi > 0 && IterStep(SmallConstants(), init, b)
  {
    hide IsLate;
    hide CanFinishSubEpoch;
    hide SlotStart;
    hide BlockParamsOk;
    LastTwo(init, h, 0);
    LateIters(h - 1, init[h - 1].ses);
    LateIters(h, b.ses);
    if h < 15 {
      NoEarlySummary(SmallConstants(), init);
    }
  }

  lemma LastTwo(chain: seq<HeaderRec>, n: nat, f: nat)
    requires 0 < n == |chain| && f < n && IsLate(chain)
    ensures chain[n - 1] == LateBlock(n - 1, chain[n - 1].ses) && chain[f] == LateBlock(f, chain[f].ses)
  {
    assert IsLateAt(chain, n - 1) && IsLateAt(chain, f);
  }

  lemma {:induction false} LateOk(n: nat)
    requires n <= LENGTH
    ensures HeaderChainOk(SmallConstants(), Late(n))
  {
    hide SlotStep;
    hide IterStep;
    hide TxStep;
    hide Late;
    if n == 1 {
      LateAt(n, 0);
      LateIters(0, false);
    } else if n > 1 {
      LateOk(n - 1);
      hide HeaderChainOk;
      LateAt(n, n - 1);
      LateIsLate(n - 1);
      var init, b := Late(n - 1), Late(n)[n - 1];
      LateStep(init, n - 1, b);
      ExtendChain(SmallConstants(), init, b);
      assert init + [b] == Late(n);
    }
  }

  /** No block of the first window above the boundary carries a summary before the latest one allowed. */
  lemma NotBefore(n: nat, h: nat)
    requires 15 <= h < 27 && h < n <= LENGTH
    ensures !Late(n)[h].ses
  {
    hide Late;
    LateAt(n, h);
    LateIsLate(h);
    LastTwo(Late(h), h, 0);
    SesOfBlock(h, SesAt(h, Late(h)));
  }

  /** The bound of `SesAppears` is attained. */
  lemma SummaryAtTheLatest() returns (c: Constants, chain: seq<HeaderRec>)
    ensures ConstantsOk(c) && HeaderChainOk(c, chain) && LatestSes(c, 1) + 1 == |chain|
    ensures chain[LatestSes(c, 1)].ses && NoSes(chain, c.subEpochBlocks, LatestSes(c, 1))
  {
    hide HeaderChainOk;
    c, chain := SummaryAt(LENGTH);
  }

  lemma SummaryAt(n: nat) returns (c: Constants, chain: seq<HeaderRec>)
    requires n == LENGTH
    ensures ConstantsOk(c) && HeaderChainOk(c, chain) && LatestSes(c, 1) + 1 == |chain|
    ensures chain[LatestSes(c, 1)].ses && NoSes(chain, c.subEpochBlocks, LatestSes(c, 1))
  {
    hide HeaderChainOk;
    hide Late;
    c, chain := SmallConstants(), Late(n);
    LateOk(n);
    var h := SesAppears(c, chain, 1);
    forall i: nat | 15 <= i < 27 ensures !chain[i].ses {
      NotBefore(n, i);
    }
  }
}
