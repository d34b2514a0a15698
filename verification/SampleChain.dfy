/** The header rules admit chains that pass the end of an epoch: two with a block in every sub-slot, of which the
    fast one has three times the rates of the slow one from the second epoch on. */
module SampleChain {
  import opened PotIterations
  import opened SignificantBits
  import opened HeaderChains
  import opened Retarget

  function SmallRates(): RateConstants {
    RateConstants(SmallConstants(), 2, 40, 2, 600, 1, 3, 8)
  }

  /** Height of the first block of the second epoch. */
  const FIRST: nat := 46

  function SsiAt(fast: bool, h: nat): nat {
    if fast && h >= FIRST then 120 else 40
  }

  /** Total iterations at the start of sub-slot `h`. */
  function StartAt(fast: bool, h: nat): nat {
    if fast && h > FIRST then 40 * h + 80 * (h - FIRST) else 40 * h
  }

  function WeightAt(fast: bool, h: nat): nat {
    if fast && h >= FIRST then 2 * FIRST + 6 * (h + 1 - FIRST) else 2 * (h + 1)
  }

  function TimeAt(fast: bool, h: nat): nat {
    if fast then 200 * h else 600 * h
  }

  /** The challenge of sub-slot `h`, and the bundle that ends the sub-slot before it. */
  function ChallengeAt(fast: bool, h: nat): Challenge {
    if h == 0 then GenesisChallenge else SlotChallenge(ChallengeAt(fast, h - 1), SsiAt(fast, h - 1), h)
  }

  function Bundle(fast: bool, h: nat): Eos
    requires h > 0
  {
    Eos(ChallengeAt(fast, h - 1), SsiAt(fast, h - 1), h, h, 0)
  }

  /** Heights of the blocks that carry a sub-epoch summary. */
  predicate Summarizes(h: nat) {
    h == 16 || h == 30 || h == FIRST
  }

  /** The block at height `h`: alone in its sub-slot, not overflowing, a transaction block. */
  function Block(fast: bool, h: nat): HeaderRec {
    HeaderRec(StartAt(fast, h) + SsiAt(fast, h) / 4 + 5, SsiAt(fast, h), 0, 5, false, if h % 2 == 0 then 1 else 0,
              if h == 0 then 0 else 1,
              if h == 0 then [] else [Bundle(fast, h)],
              if h == 0 then [SlotEnd(GenesisChallenge, GENESIS_CHALLENGE)] else SlotEnds([Bundle(fast, h)]),
              Summarizes(h), true, TimeAt(fast, h), WeightAt(fast, h), h, h)
  }

  function Sample(fast: bool, n: nat): (chain: seq<HeaderRec>)
    ensures |chain| == n && forall h :: 0 <= h < n ==> chain[h] == Block(fast, h)
  {
    seq(n, h requires 0 <= h < n => Block(fast, h))
  }

  lemma SamplePrefix(fast: bool, n: nat, h: nat)
    requires h <= n
    ensures Sample(fast, n)[..h] == Sample(fast, h)
  {
    hide Block;
  }

  lemma BlockIters(fast: bool, h: nat)
    ensures var c, b := SmallConstants(), Block(fast, h);
      && BlockParamsOk(c, b) && SlotStart(c, b) == StartAt(fast, h) == SpSlotStart(c, b)
      && SpTotalIters(c, b) == StartAt(fast, h)
  {
    hide StartAt;
    hide Bundle;
  }

  // ----- Where sub-epochs and the epoch end -----

  /** Deficits alternate, so a sub-epoch finishes before the first even height of its window. */
  lemma SampleSubEpochs(fast: bool, n: nat)
    requires 0 < n <= 50
    ensures CanFinishSubEpoch(SmallConstants(), Sample(fast, n)) <==> Summarizes(n)
  {
    var chain := Sample(fast, n);
    hide Sample;
    if n % 2 == 0 && n > 16 && !Summarizes(n) {
      var last := if n > FIRST then FIRST else if n > 30 then 30 else 16;
      assert chain[last].ses;
    }
  }

  lemma SampleEpoch(fast: bool, n: nat)
    requires 0 < n <= 50
    ensures CanFinishEpoch(SmallConstants(), Sample(fast, n)) <==> n == FIRST
  {
    hide CanFinishSubEpoch;
    hide Sample;
    SampleSubEpochs(fast, n);
  }

  // ----- The chain is valid -----

  lemma {:induction false} SampleOk(fast: bool, n: nat)
    requires n <= 51
    ensures HeaderChainOk(SmallConstants(), Sample(fast, n))
  {
    hide SlotStep;
    hide IterStep;
    hide TxStep;
    hide BundleStep;
    hide Sample;
    hide Block;
    if n == 1 {
      SampleGenesis(fast);
    } else if n > 1 {
      SampleOk(fast, n - 1);
      SamplePrefix(fast, n, n - 1);
      StepOk(fast, n - 1);
    }
  }

  lemma SampleGenesis(fast: bool)
    ensures GenesisOk(SmallConstants(), Block(fast, 0))
  {
    BlockIters(fast, 0);
  }

  lemma StepOk(fast: bool, h: nat)
    requires 0 < h <= 50
    ensures var c, init, b := SmallConstants(), Sample(fast, h), Block(fast, h);
      && init[h - 1].ssi > 0 && SlotStep(c, init, b) && IterStep(c, init, b) && TxStep(c, init, b)
      && BundleStep(LastChallenge(init), init[h - 1].ssi, b)
  {
    hide Sample;
    hide CanFinishSubEpoch;
    hide CanFinishEpoch;
    hide SlotStart;
    hide SpSlotStart;
    hide SpTotalIters;
    hide BlockParamsOk;
    hide BlocksInSlot;
    SampleSubEpochs(fast, h);
    SampleEpoch(fast, h);
    BlockIters(fast, h - 1);
    BlockIters(fast, h);
    LastIsTx(Sample(fast, h));
    hide LastTxHeight;
  }

  lemma LastIsTx(chain: seq<HeaderRec>)
    requires chain != [] && chain[|chain| - 1].isTx
    ensures LastTxHeight(chain) == |chain| - 1
  {
  }

  // ----- Its rates are those the rules give -----

  lemma SmallRatesOk()
    ensures RatesOk(SmallRates())
  {
    assert Pow2(2) == 4 && Pow2(8) == 256 && Pow2(0) == 1;
    assert Shifted(40, 8, 40, 0) && Shifted(2, 8, 2, 0);
  }

  lemma SampleDifficulty(fast: bool, n: nat, h: nat)
    requires h < n
    ensures DifficultyAt(Sample(fast, n), h) == if fast && h >= FIRST then 6 else 2
  {
    hide Sample;
  }

  /** The first epoch is measured from genesis to height 44. */
  lemma SampleMeasured(fast: bool, n: nat)
    requires n == FIRST && RatesOk(SmallRates())
    ensures Measured(SmallRates(), Sample(fast, n), 0, n - 2)
  {
    hide Sample;
    hide RatesOk;
    var chain := Sample(fast, n);
    LastIsTx(chain);
    LastIsTx(chain[..n - 1]);
    assert n - n % 15 == 45;
  }

  lemma MeasuredRates(fast: bool, n: nat)
    requires n == FIRST
    ensures var k, a, b := SmallRates(), Block(fast, 0), Block(fast, n - 2);
      && a.timestamp < b.timestamp && a.totalIters <= b.totalIters && a.weight <= b.weight && b.ssi == 40
      && MeasuredSsi(k, a, b) == SsiAt(fast, n) && MeasuredDifficulty(k, a, b) == if fast then 6 else 2
  {
  }

  lemma SmallIsKept(x: nat)
    requires x < 128
    ensures TruncateToSignificantBits(x, 8) == x
  {
    hide BitLength;
    hide TruncateToSignificantBits;
    BitLengthBounds(x);
    ShortIsKept(x, 8);
    assert Pow2(7) == 128;
    if BitLength(x) >= 8 {
      Pow2Mono(7, BitLength(x) - 1);
    }
  }

  lemma AdjustedRates(fast: bool)
    ensures AdjustSsi(SmallRates(), 40, SsiAt(fast, FIRST)) == SsiAt(fast, FIRST)
    ensures var d := if fast then 6 else 2; AdjustDifficulty(SmallRates(), 2, d) == d
  {
    hide TruncateToSignificantBits;
    SmallIsKept(SsiAt(fast, FIRST));
    SmallIsKept(if fast then 6 else 2);
  }

  lemma RetargetStep(fast: bool, n: nat)
    requires n == FIRST && RatesOk(SmallRates())
    ensures NextSsi(SmallRates(), Sample(fast, n), true, SsiAt(fast, n))
    ensures NextDifficulty(SmallRates(), Sample(fast, n), true, if fast then 6 else 2)
  {
    hide Sample;
    hide Block;
    hide CanFinishEpoch;
    hide RatesOk;
    hide Measured;
    hide AdjustSsi;
    hide AdjustDifficulty;
    hide MeasuredSsi;
    hide MeasuredDifficulty;
    var k, chain := SmallRates(), Sample(fast, n);
    SampleMeasured(fast, n);
    MeasuredRates(fast, n);
    AdjustedRates(fast);
    SampleDifficulty(fast, n, n - 2);
    SampleEpoch(fast, n);
    assert EpochSsi(k, chain, 0, n - 2, SsiAt(fast, n));
    assert EpochDifficulty(k, chain, 0, n - 2, if fast then 6 else 2);
  }

  lemma SampleRates(fast: bool, n: nat, h: nat)
    requires h < n <= 51 && RatesOk(SmallRates())
    ensures RateStep(SmallRates(), Sample(fast, n), h)
  {
    hide Sample;
    hide CanFinishEpoch;
    hide RatesOk;
    SamplePrefix(fast, n, h);
    SampleDifficulty(fast, n, h);
    if h == FIRST {
      RetargetStep(fast, h);
    } else if h > 0 {
      SampleDifficulty(fast, h, h - 1);
      SampleEpoch(fast, h);
    }
  }

  /** Both chains, up to height 50, are valid and carry the rates that the rules give. */
  lemma SampleIsRated(fast: bool, n: nat)
    requires n <= 51
    ensures RatesOk(SmallRates()) && RatedChain(SmallRates(), Sample(fast, n))
  {
    hide RateStep;
    hide Sample;
    hide RatesOk;
    hide HeaderChainOk;
    SmallRatesOk();
    SampleOk(fast, n);
    forall h: nat | h < n ensures RateStep(SmallRates(), Sample(fast, n), h) {
      SampleRates(fast, n, h);
    }
  }

  /** A valid chain with the rates the rules give, at whose end an epoch may finish. */
  lemma EpochIsReached() returns (k: RateConstants, chain: seq<HeaderRec>)
    ensures RatesOk(k) && RatedChain(k, chain) && chain != [] && CanFinishEpoch(k.base, chain)
  {
    hide RatedChain;
    hide CanFinishEpoch;
    hide RatesOk;
    k, chain := EpochReachedAt(FIRST);
  }

  lemma EpochReachedAt(n: nat) returns (k: RateConstants, chain: seq<HeaderRec>)
    requires n == FIRST
    ensures RatesOk(k) && RatedChain(k, chain) && |chain| == n && CanFinishEpoch(k.base, chain)
  {
    hide RatedChain;
    hide CanFinishEpoch;
    hide Sample;
    hide RatesOk;
    k, chain := SmallRates(), Sample(false, n);
    SampleIsRated(false, n);
    SampleEpoch(false, n);
  }
}
