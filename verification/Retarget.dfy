/** Retargeting of sub-slot iterations and difficulty at the end of an epoch. */
module Retarget {
  import opened PotIterations
  import opened SignificantBits
  import opened HeaderChains
  import opened SubEpochs
  import opened EpochScan

  datatype RateConstants = RateConstants(
    base: Constants,
    spBits: nat,              // NUM_SPS_SUB_SLOT is this power of two
    ssiStarting: nat,         // SUB_SLOT_ITERS_STARTING
    difficultyStarting: nat,  // DIFFICULTY_STARTING
    timeTarget: nat,          // SUB_SLOT_TIME_TARGET
    slotBlocksTarget: nat,    // SLOT_BLOCKS_TARGET
    factor: nat,              // DIFFICULTY_CHANGE_MAX_FACTOR
    bits: nat)                // SIGNIFICANT_BITS

  /** A usable sub-slot length: a positive multiple of the number of signage points, with few
      significant bits. */
  ghost predicate SsiOk(k: RateConstants, v: int)
    requires k.base.numSps > 0
  {
    v > 0 && v % k.base.numSps == 0 && Fits(v, k.bits)
  }

  ghost predicate DifficultyOk(k: RateConstants, d: int) {
    d > 0 && Fits(d, k.bits)
  }

  ghost predicate RatesOk(k: RateConstants) {
    && ConstantsOk(k.base) && k.base.numSps == Pow2(k.spBits)
    && 1 <= k.bits && 1 <= k.factor && 1 <= k.slotBlocksTarget
    && SsiOk(k, k.ssiStarting) && DifficultyOk(k, k.difficultyStarting)
  }

  function Min(a: int, b: int): int {
    if a <= b then a else b
  }

  function Max(a: int, b: int): int {
    if a >= b then a else b
  }

  /** Clamping of the measured sub-slot iterations around the current ones. */
  function ClampSsi(k: RateConstants, current: nat, measured: nat): int
    requires k.factor > 0
  {
    if measured >= current then Min(measured, k.factor * current)
    else Max(Max(k.base.numSps, measured), current / k.factor)
  }

  function ClampDifficulty(k: RateConstants, current: nat, measured: nat): int
    requires k.factor > 0
  {
    if measured >= current then Min(measured, k.factor * current)
    else Max(Max(1, measured), current / k.factor)
  }

  function AdjustSsi(k: RateConstants, current: nat, measured: nat): int
    requires k.factor > 0 && k.base.numSps > 0
  {
    var t := TruncateToSignificantBits(ClampSsi(k, current, measured), k.bits);
    t - t % k.base.numSps
  }

  function AdjustDifficulty(k: RateConstants, current: nat, measured: nat): int
    requires k.factor > 0
  {
    TruncateToSignificantBits(ClampDifficulty(k, current, measured), k.bits)
  }

  // ----- One retarget -----

  /** `x` is the number between `lo` and `hi` nearest to `m`. */
  predicate Nearest(x: int, m: int, lo: int, hi: int) {
    lo <= x <= hi && (m < lo ==> x == lo) && (m > hi ==> x == hi) && (lo <= m <= hi ==> x == m)
  }

  /** A power of two fits into one bit. */
  lemma PowerFits(n: nat, bits: nat)
    requires bits >= 1
    ensures Fits(Pow2(n), bits)
  {
    Pow2Mono(1, bits);
    ShiftedFits(bits, 1, n);
    assert 1 * Pow2(n) == Pow2(n);
  }

  lemma OneFits(bits: nat)
    requires bits >= 1
    ensures Fits(1, bits)
  {
    PowerFits(0, bits);
  }

  /** Truncating and then rounding to signage points gives the greatest usable length not above `x`. */
  lemma GreatestSsi(k: RateConstants, x: nat)
    requires RatesOk(k) && x >= k.base.numSps
    ensures var t := TruncateToSignificantBits(x, k.bits);
      var r := t - t % k.base.numSps;
      r <= x && SsiOk(k, r) && forall v :: SsiOk(k, v) && v <= x ==> v <= r
  {
    hide TruncateToSignificantBits;
    hide Fits;
    TruncateIsGreatest(x, k.bits);
    var t := TruncateToSignificantBits(x, k.bits);
    RoundDownFits(t, k.bits, k.spBits);
    PowerFits(k.spBits, k.bits);
    var r := RoundDown(t, k.base.numSps);
    assert k.base.numSps <= t;
    Residue(1, k.base.numSps, 0);
    forall v | SsiOk(k, v) && v <= x ensures v <= r {
      MultipleBelow(t, k.base.numSps, v);
    }
    SelfMultiple(k.base.numSps);
    MultipleBelow(t, k.base.numSps, k.base.numSps);
  }

  lemma SelfMultiple(p: nat)
    requires p > 0
    ensures RoundDown(p, p) == p
  {
    Residue(1, p, 0);
  }

  /** What truncation and rounding lose together is less than one unit of the coarser of the two. */
  lemma SsiError(k: RateConstants, x: nat, r: nat)
    requires RatesOk(k) && r > 0 && forall v :: SsiOk(k, v) && v <= x ==> v <= r
    ensures x - r < Pow2(if BitLength(x) - k.bits > k.spBits then BitLength(x) - k.bits else k.spBits)
  {
    hide Pow2;
    hide BitLength;
    hide Fits;
    var j: nat := if BitLength(x) - k.bits > k.spBits then BitLength(x) - k.bits else k.spBits;
    BitLengthBounds(x);
    Pow2Mono(BitLength(x), k.bits + j);
    Pow2Add(k.bits, j);
    var q := QuotientFits(x, Pow2(k.bits), Pow2(j));
    var y := RoundDown(x, Pow2(j));
    ShiftedFits(k.bits, q, j);
    RoundHigh(q, j, k.spBits);
    assert y > 0 ==> SsiOk(k, y);
  }

  /** Sub-slot iterations after a retarget: usable, on the measured side of the current ones, at most
      the change factor away, and the best such value up to truncation. */
  lemma SsiAdjusted(k: RateConstants, current: nat, measured: nat, x: int, r: int)
    requires RatesOk(k) && SsiOk(k, current)
    requires x == ClampSsi(k, current, measured) && r == AdjustSsi(k, current, measured)
    ensures 0 < x && Nearest(x, measured, Max(k.base.numSps, current / k.factor), k.factor * current)
    ensures SsiOk(k, r) && r <= x
    ensures x - r < Pow2(if BitLength(x) - k.bits > k.spBits then BitLength(x) - k.bits else k.spBits)
    ensures measured >= current ==> current <= r <= measured
    ensures measured < current ==> r <= current
  {
    hide TruncateToSignificantBits;
    hide Fits;
    hide Pow2;
    hide BitLength;
    MultipleAtLeast(current, k.base.numSps);
    FactorBounds(current, k.factor);
    hide ConstantsOk;
    GreatestSsi(k, x);
    SsiError(k, x, r);
  }

  lemma MultipleAtLeast(x: nat, p: nat)
    requires p > 0 && x > 0 && x % p == 0
    ensures x >= p
  {
    if x < p {
      ModSmall(x, p);
    }
  }

  lemma FactorBounds(x: nat, f: nat)
    requires f > 0
    ensures x / f <= x <= f * x
  {
    QuotientBelow(x, f);
    MulMono(1, f, x);
  }

  /** Difficulty after a retarget. */
  lemma DifficultyAdjusted(k: RateConstants, current: nat, measured: nat, x: int, r: int)
    requires RatesOk(k) && DifficultyOk(k, current)
    requires x == ClampDifficulty(k, current, measured) && r == AdjustDifficulty(k, current, measured)
    ensures 0 < x && Nearest(x, measured, Max(1, current / k.factor), k.factor * current)
    ensures DifficultyOk(k, r) && r <= x
    ensures if k.bits > BitLength(x) then r == x else x - r < Pow2(BitLength(x) - k.bits)
    ensures measured >= current ==> current <= r <= measured
    ensures measured < current ==> r <= current
  {
    hide TruncateToSignificantBits;
    hide Fits;
    hide Pow2;
    hide BitLength;
    hide ConstantsOk;
    FactorBounds(current, k.factor);
    ShortIsKept(x, k.bits);
    TruncateIsGreatest(x, k.bits);
    OneFits(k.bits);
    if k.bits <= BitLength(x) {
      TruncationError(x, k.bits);
    }
  }

  // ----- The rates of a chain -----

  function DifficultyAt(chain: seq<HeaderRec>, h: nat): int
    requires h < |chain|
  {
    if h == 0 then chain[0].weight else chain[h].weight - chain[h - 1].weight
  }

  function Times(a: nat, b: nat): nat {
    MulMono(0, a, b);
    a * b
  }

  function Quotient(a: nat, b: nat): nat {
    if b == 0 then 0 else a / b
  }

  /** Iterations per sub-slot time target between two blocks. */
  function MeasuredSsi(k: RateConstants, a: HeaderRec, b: HeaderRec): nat
    requires a.timestamp < b.timestamp && a.totalIters <= b.totalIters
  {
    Quotient(Times(k.timeTarget, b.totalIters - a.totalIters), b.timestamp - a.timestamp)
  }

  function MeasuredDifficulty(k: RateConstants, a: HeaderRec, b: HeaderRec): nat
    requires a.timestamp < b.timestamp && a.weight <= b.weight
  {
    Quotient(Times(b.weight - a.weight, k.timeTarget), Times(k.slotBlocksTarget, b.timestamp - a.timestamp))
  }

  /** The epoch after `chain` is measured from block `a` to block `b`. */
  ghost predicate Measured(k: RateConstants, chain: seq<HeaderRec>, a: nat, b: nat)
    requires RatesOk(k) && chain != []
  {
    && WindowStart(k.base, |chain|) >= k.base.epochBlocks
    && MeasuredFrom(k.base, chain, WindowStart(k.base, |chain|) - k.base.epochBlocks, a)
    && b == SecondToLastTx(chain) && a < b < |chain| - 1
    && chain[a].timestamp < chain[b].timestamp
    && chain[a].totalIters <= chain[b].totalIters && chain[a].weight <= chain[b].weight
  }

  ghost predicate EpochSsi(k: RateConstants, chain: seq<HeaderRec>, a: nat, b: nat, ssi: int)
    requires RatesOk(k) && chain != []
  {
    Measured(k, chain, a, b) && ssi == AdjustSsi(k, chain[b].ssi, MeasuredSsi(k, chain[a], chain[b]))
  }

  ghost predicate EpochDifficulty(k: RateConstants, chain: seq<HeaderRec>, a: nat, b: nat, difficulty: int)
    requires RatesOk(k) && chain != []
  {
    && Measured(k, chain, a, b) && DifficultyAt(chain, |chain| - 2) >= 0
    && difficulty == AdjustDifficulty(k, DifficultyAt(chain, |chain| - 2), MeasuredDifficulty(k, chain[a], chain[b]))
  }

  /** Sub-slot iterations of the block after `chain`: retargeted for the first block of an epoch, else
      unchanged. */
  ghost predicate NextSsi(k: RateConstants, chain: seq<HeaderRec>, newSlot: bool, ssi: int)
    requires RatesOk(k)
  {
    if chain == [] then ssi == k.ssiStarting
    else if newSlot && CanFinishEpoch(k.base, chain) then exists a: nat, b: nat :: EpochSsi(k, chain, a, b, ssi)
    else ssi == chain[|chain| - 1].ssi
  }

  ghost predicate NextDifficulty(k: RateConstants, chain: seq<HeaderRec>, newSlot: bool, difficulty: int)
    requires RatesOk(k)
  {
    if chain == [] then difficulty == k.difficultyStarting
    else if newSlot && CanFinishEpoch(k.base, chain) then
      exists a: nat, b: nat :: EpochDifficulty(k, chain, a, b, difficulty)
    else difficulty == DifficultyAt(chain, |chain| - 1)
  }

  ghost predicate RateStep(k: RateConstants, chain: seq<HeaderRec>, h: nat)
    requires RatesOk(k) && h < |chain|
  {
    && NextSsi(k, chain[..h], chain[h].numFinished > 0, chain[h].ssi)
    && NextDifficulty(k, chain[..h], chain[h].numFinished > 0, DifficultyAt(chain, h))
  }

  /** A valid chain whose blocks all carry the rates the rules give. */
  ghost predicate RatedChain(k: RateConstants, chain: seq<HeaderRec>)
    requires RatesOk(k)
  {
    HeaderChainOk(k.base, chain) && forall h: nat :: h < |chain| ==> RateStep(k, chain, h)
  }

  lemma RatedPrefix(k: RateConstants, chain: seq<HeaderRec>, n: nat)
    requires RatesOk(k) && RatedChain(k, chain) && n <= |chain|
    ensures RatedChain(k, chain[..n])
  {
    hide NextSsi;
    hide NextDifficulty;
    HeaderPrefix(k.base, chain, n);
    forall h: nat | h < n ensures RateStep(k, chain[..n], h) {
      assert RateStep(k, chain, h);
      assert chain[..n][..h] == chain[..h];
    }
  }

  /** Whatever the rules allow after a valid chain is usable again. */
  lemma {:induction false} NextRatesOk(k: RateConstants, chain: seq<HeaderRec>, newSlot: bool, ssi: int, difficulty: int)
    requires RatesOk(k) && RatedChain(k, chain)
    requires NextSsi(k, chain, newSlot, ssi) && NextDifficulty(k, chain, newSlot, difficulty)
    ensures SsiOk(k, ssi) && DifficultyOk(k, difficulty)
    decreases |chain|, 0
  {
    hide RatedChain;
    hide CanFinishEpoch;
    hide SsiOk;
    hide DifficultyOk;
    hide EpochSsi;
    hide EpochDifficulty;
    if chain == [] {
      StartingRatesOk(k);
    } else {
      var h := |chain| - 1;
      RatesStayOk(k, chain, h);
      if newSlot && CanFinishEpoch(k.base, chain) {
        var a: nat, b: nat :| EpochSsi(k, chain, a, b, ssi);
        EpochSsiBounds(k, chain, a, b, ssi);
        RatesStayOk(k, chain, b);
        EpochSsiOk(k, chain, a, b, ssi);
        var a': nat, b': nat :| EpochDifficulty(k, chain, a', b', difficulty);
        RatesStayOk(k, chain, h - 1);
        EpochDifficultyOk(k, chain, a', b', difficulty);
      }
    }
  }

  lemma StartingRatesOk(k: RateConstants)
    requires RatesOk(k)
    ensures SsiOk(k, k.ssiStarting) && DifficultyOk(k, k.difficultyStarting)
  {
  }

  lemma EpochSsiBounds(k: RateConstants, chain: seq<HeaderRec>, a: nat, b: nat, ssi: int)
    requires RatesOk(k) && chain != [] && EpochSsi(k, chain, a, b, ssi)
    ensures a < b < |chain| - 1
  {
  }

  lemma EpochSsiOk(k: RateConstants, chain: seq<HeaderRec>, a: nat, b: nat, ssi: int)
    requires RatesOk(k) && chain != [] && b < |chain| && EpochSsi(k, chain, a, b, ssi) && SsiOk(k, chain[b].ssi)
    ensures SsiOk(k, ssi)
  {
    var m := MeasuredSsi(k, chain[a], chain[b]);
    assert ssi == AdjustSsi(k, chain[b].ssi, m);
    hide *;
    SsiAdjusted(k, chain[b].ssi, m, ClampSsi(k, chain[b].ssi, m), ssi);
  }

  lemma EpochDifficultyOk(k: RateConstants, chain: seq<HeaderRec>, a: nat, b: nat, difficulty: int)
    requires RatesOk(k) && |chain| >= 2 && EpochDifficulty(k, chain, a, b, difficulty)
    requires DifficultyOk(k, DifficultyAt(chain, |chain| - 2))
    ensures DifficultyOk(k, difficulty)
  {
    var m, d := MeasuredDifficulty(k, chain[a], chain[b]), DifficultyAt(chain, |chain| - 2);
    assert difficulty == AdjustDifficulty(k, d, m);
    hide *;
    DifficultyAdjusted(k, d, m, ClampDifficulty(k, d, m), difficulty);
  }

  /** On every chain, over all epochs, sub-slot iterations stay a positive multiple of the number of
      signage points and difficulty stays positive, both with few significant bits. */
  lemma {:induction false} RatesStayOk(k: RateConstants, chain: seq<HeaderRec>, h: nat)
    requires RatesOk(k) && RatedChain(k, chain) && h < |chain|
    ensures SsiOk(k, chain[h].ssi) && DifficultyOk(k, DifficultyAt(chain, h))
    decreases h, 1
  {
    assert RateStep(k, chain, h);
    hide NextSsi;
    hide NextDifficulty;
    RatedPrefix(k, chain, h);
    NextRatesOk(k, chain[..h], chain[h].numFinished > 0, chain[h].ssi, DifficultyAt(chain, h));
  }

  // ----- Direction of change -----

  /** A difficulty other than its parent's belongs to the first block of an epoch, which carries a
      summary. */
  lemma DifficultySteady(k: RateConstants, chain: seq<HeaderRec>)
    requires RatesOk(k) && RatedChain(k, chain) && |chain| >= 2 && !chain[|chain| - 1].ses
    ensures DifficultyAt(chain, |chain| - 1) == DifficultyAt(chain, |chain| - 2)
  {
    var h := |chain| - 1;
    assert RateStep(k, chain, h);
    SesRule(k.base, chain, h);
    hide HeaderChainOk;
    hide EpochDifficulty;
    hide NextSsi;
    hide CanFinishSubEpoch;
    DifficultyInPrefix(chain, h, h - 1);
  }

  lemma DifficultyInPrefix(chain: seq<HeaderRec>, n: nat, h: nat)
    requires h < n <= |chain|
    ensures DifficultyAt(chain[..n], h) == DifficultyAt(chain, h)
  {
  }

  /** At the end of an epoch the new sub-slot iterations never move against the measured ones, seen
      from the sub-slot iterations of the epoch that ends, and stay within the change factor. */
  lemma SsiFollowsMeasurement(
    k: RateConstants, chain: seq<HeaderRec>, a: nat, b: nat, ssi: int, m: nat, current: nat, x: int)
    requires RatesOk(k) && RatedChain(k, chain) && chain != [] && CanFinishEpoch(k.base, chain)
    requires EpochSsi(k, chain, a, b, ssi) && b < |chain| && a < |chain|
    requires chain[a].timestamp < chain[b].timestamp && chain[a].totalIters <= chain[b].totalIters
    requires m == MeasuredSsi(k, chain[a], chain[b]) && current == chain[|chain| - 1].ssi
    requires x == ClampSsi(k, current, m)
    ensures 0 < x && Nearest(x, m, Max(k.base.numSps, current / k.factor), k.factor * current)
    ensures ssi <= x && x - ssi < Pow2(if BitLength(x) - k.bits > k.spBits then BitLength(x) - k.bits else k.spBits)
    ensures m >= current ==> current <= ssi <= m
    ensures m < current ==> ssi <= current
  {
    RatesStayOk(k, chain, b);
    assert HeaderChainOk(k.base, chain) && b == SecondToLastTx(chain) && ssi == AdjustSsi(k, chain[b].ssi, m);
    hide *;
    MeasuredWithinEpoch(k.base, chain, b);
    SsiAdjusted(k, current, m, x, ssi);
  }

  lemma DifficultyFollowsMeasurement(
    k: RateConstants, chain: seq<HeaderRec>, a: nat, b: nat, difficulty: int, m: nat, current: nat, x: int)
    requires RatesOk(k) && RatedChain(k, chain) && |chain| >= 2 && CanFinishEpoch(k.base, chain)
    requires EpochDifficulty(k, chain, a, b, difficulty) && b < |chain| && a < |chain|
    requires chain[a].timestamp < chain[b].timestamp && chain[a].weight <= chain[b].weight
    requires m == MeasuredDifficulty(k, chain[a], chain[b]) && current == DifficultyAt(chain, |chain| - 1)
    requires x == ClampDifficulty(k, current, m)
    ensures 0 < x && Nearest(x, m, Max(1, current / k.factor), k.factor * current) && difficulty <= x
    ensures if k.bits > BitLength(x) then difficulty == x else x - difficulty < Pow2(BitLength(x) - k.bits)
    ensures m >= current ==> current <= difficulty <= m
    ensures m < current ==> difficulty <= current
  {
    RatesStayOk(k, chain, |chain| - 1);
    DifficultySteady(k, chain);
    assert difficulty == AdjustDifficulty(k, current, m) && DifficultyOk(k, current);
    hide *;
    DifficultyAdjusted(k, current, m, x, difficulty);
  }

  // ----- What is measured -----

  lemma QuotientIs(x: nat, d: nat, m: nat)
    requires d > 0
    ensures m == x / d <==> m * d <= x < (m + 1) * d
  {
    var q, r := x / d, x % d;
    assert x == q * d + r;
    Distribute(q, 1, d);
    if m < q {
      MulMono(m + 1, q, d);
    } else if q < m {
      MulMono(q + 1, m, d);
    }
  }

  /** The measured difficulty is the greatest at which the weight added over the time would not have come
      faster than SLOT_BLOCKS_TARGET blocks in SUB_SLOT_TIME_TARGET seconds. */
  lemma MeasuredDifficultyIs(k: RateConstants, a: HeaderRec, b: HeaderRec, m: nat)
    requires k.slotBlocksTarget >= 1 && a.timestamp < b.timestamp && a.weight <= b.weight
    ensures m == MeasuredDifficulty(k, a, b) <==>
      var seconds, weight := b.timestamp - a.timestamp, b.weight - a.weight;
      m * (k.slotBlocksTarget * seconds) <= weight * k.timeTarget < (m + 1) * (k.slotBlocksTarget * seconds)
  {
    var seconds := b.timestamp - a.timestamp;
    MulMono(1, k.slotBlocksTarget, seconds);
    QuotientIs(Times(b.weight - a.weight, k.timeTarget), Times(k.slotBlocksTarget, seconds), m);
  }

  /** The measured sub-slot length is the number of whole iterations done in SUB_SLOT_TIME_TARGET seconds. */
  lemma MeasuredSsiIs(k: RateConstants, a: HeaderRec, b: HeaderRec, m: nat)
    requires a.timestamp < b.timestamp && a.totalIters <= b.totalIters
    ensures m == MeasuredSsi(k, a, b) <==>
      var seconds, iters := b.timestamp - a.timestamp, b.totalIters - a.totalIters;
      m * seconds <= k.timeTarget * iters < (m + 1) * seconds
  {
    QuotientIs(Times(k.timeTarget, b.totalIters - a.totalIters), b.timestamp - a.timestamp, m);
  }

  /** The two measuring blocks are determined by the chain. */
  lemma MeasuredOnce(k: RateConstants, chain: seq<HeaderRec>, a: nat, b: nat, a': nat, b': nat)
    requires RatesOk(k) && chain != [] && Measured(k, chain, a, b) && Measured(k, chain, a', b')
    ensures a == a' && b == b'
  {
    hide Fits;
    hide SecondToLastTx;
    var ps := WindowStart(k.base, |chain|) - k.base.epochBlocks;
    if ps != 0 {
      var s: nat :| StartsAt(k.base, chain, ps, s) && a == SecondToLastTx(chain[..s]);
      var s': nat :| StartsAt(k.base, chain, ps, s') && a' == SecondToLastTx(chain[..s']);
    }
  }

  /** An epoch exactly on target: `n` blocks' worth of the current difficulty in the time planned for `n` blocks.
      Then the difficulty stays. */
  lemma DifficultyOnTarget(k: RateConstants, chain: seq<HeaderRec>, a: nat, b: nat, n: nat, current: nat, difficulty: int)
    requires RatesOk(k) && RatedChain(k, chain) && chain != [] && CanFinishEpoch(k.base, chain) && Measured(k, chain, a, b)
    requires current == DifficultyAt(chain, |chain| - 1) && chain[b].weight - chain[a].weight == current * n
    requires k.slotBlocksTarget * (chain[b].timestamp - chain[a].timestamp) == n * k.timeTarget
    requires NextDifficulty(k, chain, true, difficulty)
    ensures difficulty == current
  {
    hide RatedChain;
    hide CanFinishEpoch;
    hide RatesOk;
    hide Measured;
    var a': nat, b': nat :| EpochDifficulty(k, chain, a', b', difficulty);
    MeasuredOnce(k, chain, a, b, a', b');
    MeasuredShape(k, chain, a, b);
    var planned := k.slotBlocksTarget * (chain[b].timestamp - chain[a].timestamp);
    assert (current * n) * k.timeTarget == current * planned by { Regroup(current, n, k.timeTarget); }
    MulMono(1, k.slotBlocksTarget, chain[b].timestamp - chain[a].timestamp);
    Distribute(current, 1, planned);
    MeasuredDifficultyIs(k, chain[a], chain[b], current);
    DifficultyFollowsMeasurement(k, chain, a, b, difficulty, current, current, ClampDifficulty(k, current, current));
  }

  /** The same for sub-slot iterations: `n` sub-slots' worth of iterations in the time planned for `n` sub-slots. */
  lemma SsiOnTarget(k: RateConstants, chain: seq<HeaderRec>, a: nat, b: nat, n: nat, current: nat, ssi: int)
    requires RatesOk(k) && RatedChain(k, chain) && chain != [] && CanFinishEpoch(k.base, chain) && Measured(k, chain, a, b)
    requires current == chain[|chain| - 1].ssi && chain[b].totalIters - chain[a].totalIters == current * n
    requires chain[b].timestamp - chain[a].timestamp == n * k.timeTarget
    requires NextSsi(k, chain, true, ssi)
    ensures ssi == current
  {
    hide RatedChain;
    hide CanFinishEpoch;
    hide RatesOk;
    hide Measured;
    var a': nat, b': nat :| EpochSsi(k, chain, a', b', ssi);
    MeasuredOnce(k, chain, a, b, a', b');
    MeasuredShape(k, chain, a, b);
    var planned := chain[b].timestamp - chain[a].timestamp;
    assert k.timeTarget * (current * n) == current * planned by { Regroup(current, n, k.timeTarget); }
    Distribute(current, 1, planned);
    MeasuredSsiIs(k, chain[a], chain[b], current);
    SsiFollowsMeasurement(k, chain, a, b, ssi, current, current, ClampSsi(k, current, current));
  }

  lemma Regroup(a: nat, b: nat, c: nat)
    ensures (a * b) * c == a * (b * c) == c * (a * b)
  {
  }

  lemma MeasuredShape(k: RateConstants, chain: seq<HeaderRec>, a: nat, b: nat)
    requires RatesOk(k) && chain != [] && Measured(k, chain, a, b)
    ensures a < b < |chain| - 1 && chain[a].timestamp < chain[b].timestamp
    ensures chain[a].totalIters <= chain[b].totalIters && chain[a].weight <= chain[b].weight
    ensures k.slotBlocksTarget >= 1 && k.factor >= 1
  {
  }

  // ----- As coded -----

  /** Before the first epoch ends the starting values are in force. */
  lemma {:induction false} FirstEpochRates(k: RateConstants, chain: seq<HeaderRec>, h: nat)
    requires RatesOk(k) && RatedChain(k, chain) && h < |chain| && h < k.base.epochBlocks
    ensures chain[h].ssi == k.ssiStarting && DifficultyAt(chain, h) == k.difficultyStarting
  {
    assert RateStep(k, chain, h);
    if h > 0 {
      FirstEpochRates(k, chain, h - 1);
      HeaderPrefix(k.base, chain, h);
      NoEarlyEpoch(k, chain[..h]);
      hide HeaderChainOk;
      hide CanFinishEpoch;
      DifficultyInPrefix(chain, h, h - 1);
    }
  }

  lemma NoEarlyEpoch(k: RateConstants, chain: seq<HeaderRec>)
    requires RatesOk(k) && HeaderChainOk(k.base, chain) && chain != [] && |chain| < k.base.epochBlocks
    ensures !CanFinishEpoch(k.base, chain)
  {
    if CanFinishEpoch(k.base, chain) {
      var ws := EpochEndsSoon(k.base, chain);
    }
  }

  lemma {:induction false} WeightsGrow(k: RateConstants, chain: seq<HeaderRec>, i: nat, j: nat)
    requires RatesOk(k) && RatedChain(k, chain) && i <= j < |chain|
    ensures chain[i].weight <= chain[j].weight
    decreases j
  {
    if i < j {
      WeightsGrow(k, chain, i, j - 1);
      RatesStayOk(k, chain, j);
    }
  }

  /** The two ends of the measurement, as the code finds them. */
  method FindMeasured(k: RateConstants, chain: seq<HeaderRec>, spTotal: int) returns (a: nat, b: nat)
    requires RatesOk(k) && RatedChain(k, chain) && chain != [] && CanFinishEpoch(k.base, chain)
    requires chain[|chain| - 1].ssi > 0 && spTotal == SpTotalIters(k.base, chain[|chain| - 1])
    ensures Measured(k, chain, a, b)
  {
    ghost var ws := EpochEndsSoon(k.base, chain);
    a := SecondToLastTxInPreviousEpoch(k.base, chain);
    b := LastTxBeforeSp(k.base, chain, spTotal);
    MeasuredTimeIsPositive(k.base, chain, a, ws);
    WeightsGrow(k, chain, a, b);
    LastTxBeforeSignagePoint(k.base, chain, |chain| - 1, b);
  }

  method GetNextSubSlotIters(k: RateConstants, chain: seq<HeaderRec>, newSlot: bool, spTotal: int) returns (ssi: int)
    requires RatesOk(k) && RatedChain(k, chain) && chain != [] && !chain[|chain| - 1].ses
    requires chain[|chain| - 1].ssi > 0 && spTotal == SpTotalIters(k.base, chain[|chain| - 1])
    ensures NextSsi(k, chain, newSlot, ssi)
  {
    var h := |chain| - 1;
    if h + 1 < k.base.epochBlocks {
      NoEarlyEpoch(k, chain);
      FirstEpochRates(k, chain, h);
      return k.ssiStarting;
    }
    var _, canFinish := CanFinishSubAndFullEpoch(k.base, chain, h, chain[h].deficit, false);
    if !newSlot || !canFinish {
      return chain[h].ssi;
    }
    var a, b := FindMeasured(k, chain, spTotal);
    var current: nat := chain[b].ssi;
    var precise: nat := MeasuredSsi(k, chain[a], chain[b]);
    var maxSsi := k.factor * current;
    var minSsi := current / k.factor;
    var clamped := if precise >= current then Min(precise, maxSsi) else Max(Max(k.base.numSps, precise), minSsi);
    assert clamped == ClampSsi(k, current, precise);
    ssi := TruncateToSignificantBits(clamped, k.bits);
    ssi := ssi - ssi % k.base.numSps;
    assert EpochSsi(k, chain, a, b, ssi);
    RatesStayOk(k, chain, b);
    EpochSsiOk(k, chain, a, b, ssi);
    var count := CountSignificantBits(ssi);
    assert count <= k.bits;
  }

  method GetNextDifficulty(k: RateConstants, chain: seq<HeaderRec>, newSlot: bool, currentDifficulty: int, spTotal: int)
    returns (difficulty: int)
    requires RatesOk(k) && RatedChain(k, chain) && chain != [] && !chain[|chain| - 1].ses
    requires currentDifficulty == DifficultyAt(chain, |chain| - 1)
    requires chain[|chain| - 1].ssi > 0 && spTotal == SpTotalIters(k.base, chain[|chain| - 1])
    ensures NextDifficulty(k, chain, newSlot, difficulty)
  {
    var h := |chain| - 1;
    if h + 1 < k.base.epochBlocks - 3 * k.base.maxBlocks {
      NoEarlyEpoch(k, chain);
      FirstEpochRates(k, chain, h);
      return k.difficultyStarting;
    }
    var _, canFinish := CanFinishSubAndFullEpoch(k.base, chain, h, chain[h].deficit, false);
    if !newSlot || !canFinish {
      return currentDifficulty;
    }
    var a, b := FindMeasured(k, chain, spTotal);
    RatesStayOk(k, chain, h - 1);
    var previous: nat := DifficultyAt(chain, h - 1);
    var precise: nat := MeasuredDifficulty(k, chain[a], chain[b]);
    var maxDiff := k.factor * previous;
    var minDiff := previous / k.factor;
    var clamped := if precise >= previous then Min(precise, maxDiff) else Max(Max(1, precise), minDiff);
    assert clamped == ClampDifficulty(k, previous, precise);
    difficulty := TruncateToSignificantBits(clamped, k.bits);
    assert EpochDifficulty(k, chain, a, b, difficulty);
    EpochDifficultyOk(k, chain, a, b, difficulty);
    var count := CountSignificantBits(difficulty);
    assert count <= k.bits;
  }

  /** Rates of the block after `chain`; the asserts on divisibility and bit count never fail. */
  method GetNextSubSlotItersAndDifficulty(k: RateConstants, newSlot: bool, chain: seq<HeaderRec>)
    returns (ssi: int, difficulty: int)
    requires RatesOk(k) && RatedChain(k, chain)
    ensures NextSsi(k, chain, newSlot, ssi) && NextDifficulty(k, chain, newSlot, difficulty)
    ensures SsiOk(k, ssi) && DifficultyOk(k, difficulty)
  {
    if chain == [] {
      return k.ssiStarting, k.difficultyStarting;
    }
    var h := |chain| - 1;
    RatesStayOk(k, chain, h);
    var prevDifficulty := if h != 0 then chain[h].weight - chain[h - 1].weight else chain[h].weight;
    if chain[h].ses {
      return chain[h].ssi, prevDifficulty;
    }
    var spTotal := SpTotalIters(k.base, chain[h]);
    difficulty := GetNextDifficulty(k, chain, newSlot, prevDifficulty, spTotal);
    ssi := GetNextSubSlotIters(k, chain, newSlot, spTotal);
    NextRatesOk(k, chain, newSlot, ssi, difficulty);
  }
}
