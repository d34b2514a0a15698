/** Consensus constants, and where signage points and infusion points lie within a sub-slot. */
module PotIterations {
  import opened Primitives

  datatype Constants = Constants(
    minBlocks: nat,       // MIN_BLOCKS_PER_CHALLENGE_BLOCK
    maxBlocks: nat,       // MAX_SUB_SLOT_BLOCKS
    numSps: nat,          // NUM_SPS_SUB_SLOT
    extra: nat,           // NUM_SP_INTERVALS_EXTRA
    subEpochBlocks: nat,  // SUB_EPOCH_BLOCKS
    epochBlocks: nat)     // EPOCH_BLOCKS

  ghost predicate ConstantsOk(c: Constants) {
    && 2 <= c.minBlocks && 2 * c.minBlocks + 1 < c.maxBlocks
    && 1 <= c.extra && 2 * c.extra <= c.numSps
    && 2 * c.maxBlocks + c.minBlocks < c.subEpochBlocks
    && 4 * c.maxBlocks + 2 * c.minBlocks + 1 < c.epochBlocks && c.epochBlocks % c.subEpochBlocks == 0
  }

  /** The default constants and those by which the tests replace them. */
  lemma RepositoryConstantsOk()
    ensures ConstantsOk(Constants(16, 128, 64, 3, 384, 4608)) && ConstantsOk(Constants(16, 128, 32, 3, 384, 4608))
    ensures ConstantsOk(Constants(12, 50, 16, 3, 170, 340)) && ConstantsOk(Constants(12, 50, 32, 3, 140, 280))
  {
  }

  /** Small constants for concrete chains. */
  function SmallConstants(): Constants {
    Constants(2, 6, 4, 1, 15, 45)
  }

  /** None stands for the ValueError raised on an index that is too high. */
  function IsOverflowBlock(c: Constants, index: nat): Option<bool> {
    if index >= c.numSps then None else Some(index >= c.numSps - c.extra)
  }

  function CalculateSpIntervalIters(c: Constants, subSlotIters: nat): nat
    requires c.numSps > 0 && subSlotIters % c.numSps == 0
  {
    subSlotIters / c.numSps
  }

  function CalculateSpIters(c: Constants, subSlotIters: nat, index: nat): Option<nat>
    requires c.numSps > 0 && subSlotIters % c.numSps == 0
  {
    if index >= c.numSps then None else Some(CalculateSpIntervalIters(c, subSlotIters) * index)
  }

  function CalculateIpIters(c: Constants, subSlotIters: nat, index: nat, requiredIters: nat): Option<nat>
    requires c.numSps > 0 && subSlotIters > 0 && subSlotIters % c.numSps == 0
  {
    var sp := CalculateSpIters(c, subSlotIters, index);
    var interval := CalculateSpIntervalIters(c, subSlotIters);
    if sp.None? || interval == 0 then None
    else if sp.value % interval != 0 || sp.value >= subSlotIters then None
    else if requiredIters >= interval || requiredIters == 0 then None
    else Some((sp.value + c.extra * interval + requiredIters) % subSlotIters)
  }

  /** Parameters for which the infusion point is defined. */
  ghost predicate ParamsOk(c: Constants, ssi: nat, index: nat, requiredIters: nat) {
    && ConstantsOk(c) && ssi > 0 && ssi % c.numSps == 0
    && index < c.numSps && 0 < requiredIters < ssi / c.numSps
  }

  function Interval(c: Constants, ssi: nat): nat
    requires c.numSps > 0
  {
    ssi / c.numSps
  }

  predicate Overflows(c: Constants, index: nat) {
    index + c.extra >= c.numSps
  }

  /** Which interval of its sub-slot the infusion point of a signage point falls into. */
  function IpInterval(c: Constants, index: nat): int {
    if Overflows(c, index) then index + c.extra - c.numSps else index + c.extra
  }

  lemma MulMono(a: int, b: int, k: int)
    requires a <= b && 0 <= k
    ensures a * k <= b * k
  {
  }

  lemma MulStrict(a: int, b: int, k: int)
    requires a < b && 0 < k
    ensures a * k < b * k && (a + 1) * k <= b * k && (a + 1) * k == a * k + k
  {
  }

  lemma Distribute(a: int, b: int, k: int)
    ensures (a + b) * k == a * k + b * k
  {
  }

  lemma SlotIsIntervals(c: Constants, ssi: nat)
    requires c.numSps > 0 && ssi % c.numSps == 0
    ensures ssi == c.numSps * Interval(c, ssi)
  {
  }

  lemma ModSmall(x: nat, m: nat)
    requires x < m
    ensures x % m == x
  {
  }

  lemma ModOnce(x: nat, m: nat)
    requires 0 < m <= x < 2 * m
    ensures x % m == x - m
  {
    assert x == m + (x - m);
  }

  function SpIters(c: Constants, ssi: nat, index: nat): nat
    requires c.numSps > 0
  {
    index * Interval(c, ssi)
  }

  function IpIters(c: Constants, ssi: nat, index: nat, requiredIters: nat): nat
    requires c.numSps > 0 && ssi > 0
  {
    (SpIters(c, ssi, index) + c.extra * Interval(c, ssi) + requiredIters) % ssi
  }

  /** Closed form of the infusion point: its interval, plus the required iterations. */
  lemma IpItersAre(c: Constants, ssi: nat, index: nat, requiredIters: nat)
    requires ParamsOk(c, ssi, index, requiredIters)
    ensures 0 <= IpInterval(c, index) < c.numSps
    ensures CalculateIpIters(c, ssi, index, requiredIters) == Some(IpIters(c, ssi, index, requiredIters))
    ensures IpIters(c, ssi, index, requiredIters) == IpInterval(c, index) * Interval(c, ssi) + requiredIters
    ensures 0 < IpIters(c, ssi, index, requiredIters) < ssi
  {
    var i := Interval(c, ssi);
    SlotIsIntervals(c, ssi);
    var q := index + c.extra;
    assert i * index + c.extra * i + requiredIters == q * i + requiredIters;
    assert (i * index) % i == 0 by { MultipleMod(index, i); }
    MulStrict(index, c.numSps, i);
    if Overflows(c, index) {
      MulMono(c.numSps, q, i);
      MulStrict(q - c.numSps, c.numSps, i);
      assert q * i == (q - c.numSps) * i + c.numSps * i;
      MulMono(0, q - c.numSps, i);
      ModOnce(q * i + requiredIters, ssi);
    } else {
      MulStrict(q, c.numSps, i);
      MulMono(0, q, i);
      ModSmall(q * i + requiredIters, ssi);
    }
  }

  lemma MultipleMod(k: nat, m: nat)
    requires m > 0
    ensures (m * k) % m == 0
  {
    var x := m * k;
    var q, r := x / m, x % m;
    assert x == m * q + r;
    assert m * (k - q) == r;
    if k - q >= 1 {
      MulMono(1, k - q, m);
    } else if k - q <= -1 {
      MulMono(k - q, -1, m);
    }
  }

  /** When the three functions raise: exactly on an index that is too high, and for the infusion point also on
      required iterations that are zero or no less than an interval. */
  lemma ErrorsAre(c: Constants, ssi: nat, index: nat, requiredIters: nat)
    requires c.numSps > 0 && ssi > 0 && ssi % c.numSps == 0
    ensures IsOverflowBlock(c, index).None? <==> index >= c.numSps
    ensures CalculateSpIters(c, ssi, index).None? <==> index >= c.numSps
    ensures CalculateIpIters(c, ssi, index, requiredIters).None? <==>
      index >= c.numSps || requiredIters == 0 || requiredIters >= Interval(c, ssi)
  {
    var i := Interval(c, ssi);
    SlotIsIntervals(c, ssi);
    if index < c.numSps {
      if i == 0 {
        MulMono(0, 0, c.numSps);
      } else {
        MultipleMod(index, i);
        MulStrict(index, c.numSps, i);
      }
    }
  }

  /** Testing the index for overflow, as validation does, is the same as finding the infusion point
      before the signage point within the sub-slot, as block creation does. */
  lemma OverflowTestsAgree(c: Constants, ssi: nat, index: nat, requiredIters: nat)
    requires ParamsOk(c, ssi, index, requiredIters)
    ensures IsOverflowBlock(c, index) == Some(SpIters(c, ssi, index) > IpIters(c, ssi, index, requiredIters))
  {
    IpItersAre(c, ssi, index, requiredIters);
    var i := Interval(c, ssi);
    if Overflows(c, index) {
      MulStrict(IpInterval(c, index), index, i);
    } else {
      MulMono(index, IpInterval(c, index), i);
    }
  }

  /** In absolute iterations the infusion point comes between EXTRA and EXTRA + 1 intervals after the
      signage point, also across the end of a sub-slot. */
  lemma InfusionDistance(c: Constants, ssi: nat, index: nat, requiredIters: nat, slotStart: nat)
    requires ParamsOk(c, ssi, index, requiredIters)
    ensures var ip := IpIters(c, ssi, index, requiredIters);
      var total := slotStart + ip + (if IsOverflowBlock(c, index) == Some(true) then ssi else 0);
      var sp := slotStart + SpIters(c, ssi, index);
      c.extra * Interval(c, ssi) < total - sp < (c.extra + 1) * Interval(c, ssi)
  {
    hide IpIters;
    IpItersAre(c, ssi, index, requiredIters);
    SlotIsIntervals(c, ssi);
    var i := Interval(c, ssi);
    hide Interval;
    Distribute(index, c.extra, i);
    Distribute(c.extra, 1, i);
    var n: int := c.numSps;
    Distribute(index + c.extra, -n, i);
  }

  /** An infusion point never coincides with a signage point of its sub-slot. */
  lemma NoInfusionAtSignagePoint(c: Constants, ssi: nat, index: nat, requiredIters: nat, other: nat)
    requires ParamsOk(c, ssi, index, requiredIters)
    ensures IpIters(c, ssi, index, requiredIters) != SpIters(c, ssi, other)
  {
    IpItersAre(c, ssi, index, requiredIters);
    var i, k := Interval(c, ssi), IpInterval(c, index);
    if other <= k {
      MulMono(other, k, i);
    } else {
      MulStrict(k, other, i);
    }
  }
}
