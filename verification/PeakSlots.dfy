/** The sub-slots that the node hands to its slot store for a new peak. */
module PeakSlots {
  import opened Primitives
  import opened PotIterations
  import opened HeaderChains
  import opened SlotIters
  import opened EpochScan
  import opened VdfInfo

  /** Height of the latest block that starts a sub-slot; 0 if there is none above genesis. */
  function LatestFirst(chain: seq<HeaderRec>): (f: nat)
    requires chain != []
    ensures f < |chain|
    ensures f > 0 ==> FirstInSubSlot(chain[f])
    ensures forall x :: f < x < |chain| ==> !FirstInSubSlot(chain[x])
  {
    var h := |chain| - 1;
    if h == 0 || FirstInSubSlot(chain[h]) then h else LatestFirst(chain[..h])
  }

  lemma {:induction false} LatestFirstIs(chain: seq<HeaderRec>, f: nat)
    requires f < |chain| && (f > 0 ==> FirstInSubSlot(chain[f]))
    requires forall x :: f < x < |chain| ==> !FirstInSubSlot(chain[x])
    ensures LatestFirst(chain) == f
  {
  }

  /** Where the second walk looks for the previous sub-slot, from the block that starts the peak's: the
      latest start of a sub-slot above genesis, else the parent, else genesis itself. */
  function BundlesBefore(chain: seq<HeaderRec>, f: nat): seq<Eos>
    requires f < |chain|
  {
    if f == 0 then chain[0].bundles
    else
      var g := LatestFirst(chain[..f]);
      if g > 0 then chain[g].bundles else chain[f - 1].bundles
  }

  function LastOf(bundles: seq<Eos>): Option<Eos> {
    if bundles == [] then None else Some(bundles[|bundles| - 1])
  }

  /** The sub-slots of the signage point and of the infusion, as coded; the first is left out unless the
      peak overflows. */
  function SpAndIp(chain: seq<HeaderRec>): (Option<Eos>, Option<Eos>)
    requires chain != []
  {
    var f := LatestFirst(chain);
    var own := chain[f].bundles;
    if own == [] then (None, None)
    else if !chain[|chain| - 1].overflow then (None, LastOf(own))
    else if |own| > 1 then (Some(own[|own| - 2]), LastOf(own))
    else (LastOf(BundlesBefore(chain, f)), LastOf(own))
  }

  method GetSpAndIpSubSlots(chain: seq<HeaderRec>) returns (sp: Option<Eos>, ip: Option<Eos>)
    requires chain != []
    ensures (sp, ip) == SpAndIp(chain)
  {
    var curr := |chain| - 1;
    while true
      invariant 0 <= curr < |chain| && forall x :: curr < x < |chain| ==> !FirstInSubSlot(chain[x])
      decreases curr
    {
      if FirstInSubSlot(chain[curr]) {
        break;
      }
      if curr == 0 {
        break;
      }
      curr := curr - 1;
    }
    LatestFirstIs(chain, curr);
    var own := chain[curr].bundles;
    if |own| == 0 {
      return None, None;
    }
    ip := Some(own[|own| - 1]);
    if !chain[|chain| - 1].overflow {
      return None, ip;
    }
    if |own| > 1 {
      return Some(own[|own| - 2]), ip;
    }
    var found := if curr == 0 then curr else curr - 1;
    var walk := found;
    ghost var g := if curr == 0 then 0 else LatestFirst(chain[..curr]);
    while walk > 0
      invariant 0 <= walk <= found < |chain| && (curr == 0 ==> walk == found == 0)
      invariant curr > 0 ==> found == curr - 1 && g <= walk
      decreases walk
    {
      assert chain[..curr][walk] == chain[walk];
      if FirstInSubSlot(chain[walk]) {
        found := walk;
        break;
      }
      walk := walk - 1;
    }
    if |chain[found].bundles| == 0 {
      return None, ip;
    }
    return Some(chain[found].bundles[|chain[found].bundles| - 1]), ip;
  }

  // ----- What the two sub-slots are -----

  /** The latest start of a sub-slot and its kind of record. */
  lemma FirstIsAt(c: Constants, chain: seq<HeaderRec>, f: nat)
    requires ConstantsOk(c) && HeaderChainOk(c, chain) && chain != [] && f == LatestFirst(chain)
    ensures FirstInSubSlot(chain[f]) && |chain[f].bundles| == chain[f].numFinished && (f > 0 ==> chain[f].numFinished > 0)
    ensures forall x :: f < x < |chain| ==> chain[x].numFinished == 0 && chain[x].bundles == []
    ensures chain[f].numFinished > 0 ==> chain[f].finished == SlotEnds(chain[f].bundles)
    ensures f == 0 && chain[0].numFinished == 0 ==> chain[0].finished == [SlotEnd(GenesisChallenge, GENESIS_CHALLENGE)]
  {
    GenesisAt(c, chain);
    hide HeaderChainOk;
    ParamsAt(c, chain, f);
    if f > 0 {
      StepAt(c, chain, f);
    }
    forall x | f < x < |chain| ensures chain[x].numFinished == 0 && chain[x].bundles == [] {
      ParamsAt(c, chain, x);
      StepAt(c, chain, x);
    }
  }

  lemma {:induction false} LastChallengeAt(chain: seq<HeaderRec>, f: nat)
    requires f < |chain| && FirstInSubSlot(chain[f])
    requires forall x :: f < x < |chain| ==> !FirstInSubSlot(chain[x])
    ensures LastChallenge(chain) == chain[f].finished[|chain[f].finished| - 1].cc
  {
    if f < |chain| - 1 {
      LastChallengeAt(chain[..|chain| - 1], f);
    }
  }

  lemma PeakStart(c: Constants, chain: seq<HeaderRec>, f: nat)
    requires ConstantsOk(c) && HeaderChainOk(c, chain) && chain != [] && f == LatestFirst(chain)
    ensures BlockParamsOk(c, chain[|chain| - 1]) && BlockParamsOk(c, chain[f]) && chain[f].ssi == chain[|chain| - 1].ssi
    ensures SlotStart(c, chain[|chain| - 1]) == SlotStart(c, chain[f]) >= 0
    ensures chain[f].bundles == [] <==> SlotStart(c, chain[f]) == 0
    ensures f == 0 ==> SlotStart(c, chain[f]) == chain[f].numFinished * chain[f].ssi
  {
    GenesisAt(c, chain);
    hide HeaderChainOk;
    FirstIsAt(c, chain, f);
    SameSlot(c, chain, f, |chain| - 1);
    ParamsAt(c, chain, 0);
    hide SlotStart;
    MulMono(0, chain[0].numFinished, chain[0].ssi);
    if f == 0 {
      if chain[0].numFinished > 0 {
        MulMono(1, chain[0].numFinished, chain[0].ssi);
      }
    } else {
      IterOrderFar(c, chain, 0, f - 1);
      IterOrder(c, chain, f);
    }
  }

  /** The signage point of the peak lies in a sub-slot that starts at or after 0. */
  lemma PeakSpStart(c: Constants, chain: seq<HeaderRec>)
    requires ConstantsOk(c) && HeaderChainOk(c, chain) && chain != []
    ensures BlockParamsOk(c, chain[|chain| - 1]) && SpSlotStart(c, chain[|chain| - 1]) >= 0
  {
    GenesisAt(c, chain);
    hide HeaderChainOk;
    var h := |chain| - 1;
    var f := LatestFirst(chain);
    FirstIsAt(c, chain, f);
    PeakStart(c, chain, f);
    hide SlotStart;
    if f > 0 {
      ParamsAt(c, chain, 0);
      SpSlotAfter(c, chain, 0, f, h);
      MulMono(0, chain[0].numFinished, chain[0].ssi);
    } else if chain[h].overflow {
      OverflowComesFirst(c, chain, 0, h);
    }
  }

  /** The two sub-slots continue each other, where the slot store puts both into its list. */
  ghost predicate LinksUp(c: Constants, peak: HeaderRec, sp: Option<Eos>, ip: Eos)
    requires c.numSps > 0 && peak.ssi > 0
  {
    sp.Some? || SpSlotStart(c, peak) == 0 ==>
      && ip.challenge == (if sp.Some? then CcHash(sp.value) else GenesisChallenge)
      && SlotStart(c, peak) == SpSlotStart(c, peak) + ip.iters
  }

  /** Challenges and lengths of the bundles of one block. */
  lemma BundlesAt(c: Constants, chain: seq<HeaderRec>, f: nat)
    requires ConstantsOk(c) && HeaderChainOk(c, chain) && f < |chain|
    ensures BundleStep(LastChallenge(chain[..f]), if f == 0 then chain[0].ssi else chain[f - 1].ssi, chain[f])
  {
    hide BundleStep;
    if f == 0 {
      GenesisAt(c, chain);
    } else {
      StepAt(c, chain, f);
    }
  }

  /** What the second walk finds is the challenge the next bundle continues; if it finds nothing, that
      is the genesis challenge or genesis has finished sub-slots. */
  lemma ChallengeBefore(c: Constants, chain: seq<HeaderRec>, f: nat)
    requires ConstantsOk(c) && HeaderChainOk(c, chain) && 0 < f < |chain|
    ensures BlockParamsOk(c, chain[f - 1])
    ensures var p, last := LastOf(BundlesBefore(chain, f)), LastChallenge(chain[..f]);
      if p.Some? then last == CcHash(p.value) else last == GenesisChallenge || SlotStart(c, chain[f - 1]) > 0
  {
    hide HeaderChainOk;
    hide SlotStart;
    hide LastChallenge;
    hide LatestFirst;
    hide BlockParamsOk;
    HeaderPrefix(c, chain, f);
    var init := chain[..f];
    var g := LatestFirst(init);
    FirstIsAt(c, init, g);
    PeakStart(c, init, g);
    LastChallengeAt(init, g);
    assert init[g] == chain[g] && init[f - 1] == chain[f - 1];
    assert g < f - 1 ==> chain[f - 1].bundles == [];
  }

  /** One finished sub-slot above genesis: it continues what the second walk finds. */
  lemma SingleLink(c: Constants, chain: seq<HeaderRec>, f: nat)
    requires ConstantsOk(c) && HeaderChainOk(c, chain) && chain != [] && f == LatestFirst(chain)
    requires 0 < f && |chain[f].bundles| == 1 && chain[|chain| - 1].overflow
    ensures BlockParamsOk(c, chain[|chain| - 1])
    ensures LinksUp(c, chain[|chain| - 1], LastOf(BundlesBefore(chain, f)), chain[f].bundles[0])
  {
    hide HeaderChainOk;
    hide SlotStart;
    hide LastChallenge;
    hide BundlesBefore;
    hide LatestFirst;
    FirstIsAt(c, chain, f);
    BundlesAt(c, chain, f);
    ChallengeBefore(c, chain, f);
    assert LinkedAt(LastChallenge(chain[..f]), chain[f].bundles, 0);
    OverflowSlotLength(c, chain, f, |chain| - 1);
  }

  /** The sub-slots handed over continue each other exactly when the peak does not overflow in the
      sub-slot of a genesis block that finished one sub-slot. */
  lemma PeakSlotsLink(c: Constants, chain: seq<HeaderRec>, sp: Option<Eos>, ip: Option<Eos>)
    requires ConstantsOk(c) && HeaderChainOk(c, chain) && chain != []
    requires (sp, ip) == SpAndIp(chain) && ip.Some?
    ensures BlockParamsOk(c, chain[|chain| - 1])
    ensures SlotStart(c, chain[|chain| - 1]) > 0 && (sp.Some? ==> chain[|chain| - 1].overflow)
    ensures LinksUp(c, chain[|chain| - 1], sp, ip.value) <==> !(chain[|chain| - 1].overflow && OneSlotOnly(chain))
  {
    hide HeaderChainOk;
    hide SlotStart;
    hide BundlesBefore;
    hide LatestFirst;
    hide LastChallenge;
    var h, f := |chain| - 1, LatestFirst(chain);
    FirstIsAt(c, chain, f);
    PeakStart(c, chain, f);
    BundlesAt(c, chain, f);
    var own := chain[f].bundles;
    if chain[h].overflow {
      if |own| > 1 {
        assert LinkedAt(LastChallenge(chain[..f]), own, |own| - 1);
      } else if f > 0 {
        SingleLink(c, chain, f);
      } else {
        GenesisTwice(chain);
        assert LinkedAt(LastChallenge(chain[..f]), own, 0);
      }
    }
  }

  /** In the sub-slot of such a genesis block both are the same bundle. */
  lemma GenesisTwice(chain: seq<HeaderRec>)
    requires chain != [] && LatestFirst(chain) == 0 && |chain[0].bundles| == 1 && chain[|chain| - 1].overflow
    ensures SpAndIp(chain) == (Some(chain[0].bundles[0]), Some(chain[0].bundles[0]))
    ensures LastChallenge(chain[..0]) == GenesisChallenge
  {
  }

  // ----- Whether the signage point's sub-slot is found -----

  /** All sub-slots finished on the chain. */
  function AllBundles(chain: seq<HeaderRec>): seq<Eos> {
    if chain == [] then [] else AllBundles(chain[..|chain| - 1]) + chain[|chain| - 1].bundles
  }

  lemma {:induction false} BundlesUpTo(chain: seq<HeaderRec>, f: nat)
    requires f < |chain| && forall x :: f < x < |chain| ==> chain[x].bundles == []
    ensures AllBundles(chain) == AllBundles(chain[..f]) + chain[f].bundles
  {
    if f < |chain| - 1 {
      var init := chain[..|chain| - 1];
      BundlesUpTo(init, f);
      assert init[..f] == chain[..f];
    }
  }

  /** For every peak the sub-slot of the infusion is the last one finished on the chain, and a peak that does
      not overflow has no other. */
  lemma IpSlotIsLast(c: Constants, chain: seq<HeaderRec>)
    requires ConstantsOk(c) && HeaderChainOk(c, chain) && chain != []
    ensures SpAndIp(chain).1 == LastOf(AllBundles(chain))
    ensures !chain[|chain| - 1].overflow || AllBundles(chain) == [] ==> SpAndIp(chain).0 == None
  {
    hide HeaderChainOk;
    hide LatestFirst;
    hide BundlesBefore;
    hide AllBundles;
    hide SlotEnds;
    var f := LatestFirst(chain);
    FirstIsAt(c, chain, f);
    BundlesUpTo(chain, f);
    if f == 0 {
      NothingFinished();
      assert chain[..f] == [];
    }
  }

  lemma NothingFinished()
    ensures AllBundles([]) == []
  {
  }

  /** The sub-slot of the signage point of an overflow block: the last but one, if there is one. */
  function SpBundle(chain: seq<HeaderRec>): Option<Eos> {
    var all := AllBundles(chain);
    if |all| >= 2 then Some(all[|all| - 2]) else None
  }

  /** Genesis finished sub-slots, and one single sub-slot was finished since, by a block above height 1. */
  ghost predicate GenesisPassedOver(chain: seq<HeaderRec>) {
    && chain != [] && chain[0].numFinished > 0
    && exists f :: 2 <= f < |chain| && OnlyFinishedAt(chain, f)
  }

  ghost predicate OnlyFinishedAt(chain: seq<HeaderRec>, f: int)
    requires 0 < f < |chain|
  {
    chain[f].numFinished == 1 && forall x :: 0 < x < |chain| && x != f ==> chain[x].numFinished == 0
  }

  lemma BeforeIs(c: Constants, chain: seq<HeaderRec>, f: nat, g: nat)
    requires ConstantsOk(c) && HeaderChainOk(c, chain) && 0 < f < |chain| && g == LatestFirst(chain[..f])
    ensures g > 0 ==> chain[g].numFinished > 0
    ensures forall x :: g < x < f ==> chain[x].numFinished == 0
    ensures |chain[0].bundles| == chain[0].numFinished
    ensures LastOf(AllBundles(chain[..f])) == LastOf(BundlesBefore(chain, f)) <==>
      !(g == 0 && f >= 2 && chain[0].numFinished > 0)
  {
    hide HeaderChainOk;
    hide LatestFirst;
    HeaderPrefix(c, chain, f);
    BundlesAt(c, chain, 0);
    var init := chain[..f];
    FirstIsAt(c, init, g);
    assert forall x :: 0 <= x < f ==> init[x] == chain[x];
    BundlesUpTo(init, g);
    assert g == 0 ==> init[..g] == [] && AllBundles(init[..g]) == [];
    assert g < f - 1 ==> chain[f - 1].bundles == [];
  }

  /** The sub-slot of an overflow peak's signage point is found exactly when neither of two things
      happened near genesis: only one sub-slot exists, or genesis is passed over. */
  lemma SpSlotIsFound(c: Constants, chain: seq<HeaderRec>, sp: Option<Eos>, ip: Option<Eos>)
    requires ConstantsOk(c) && HeaderChainOk(c, chain) && chain != [] && chain[|chain| - 1].overflow
    requires (sp, ip) == SpAndIp(chain)
    ensures ip == LastOf(AllBundles(chain))
    ensures ip.Some? ==> (sp == SpBundle(chain) <==> !OneSlotOnly(chain) && !GenesisPassedOver(chain))
  {
    hide HeaderChainOk;
    hide LatestFirst;
    hide BundlesBefore;
    var f := LatestFirst(chain);
    FirstIsAt(c, chain, f);
    BundlesUpTo(chain, f);
    var own := chain[f].bundles;
    if f == 0 {
      assert chain[..0] == [] && AllBundles(chain[..0]) == [];
      hide AllBundles;
      if |own| == 1 {
        GenesisTwice(chain);
      }
    } else {
      hide AllBundles;
      var g := LatestFirst(chain[..f]);
      BeforeIs(c, chain, f, g);
      PassedOver(chain, f, g);
    }
  }

  lemma PassedOver(chain: seq<HeaderRec>, f: nat, g: nat)
    requires 0 < f < |chain| && g < f && chain[f].numFinished > 0 && (g > 0 ==> chain[g].numFinished > 0)
    requires forall x :: g < x < |chain| && x != f ==> chain[x].numFinished == 0
    ensures !OneSlotOnly(chain)
    ensures GenesisPassedOver(chain) <==> g == 0 && f >= 2 && chain[0].numFinished > 0 && chain[f].numFinished == 1
  {
    if g == 0 && f >= 2 && chain[0].numFinished > 0 && chain[f].numFinished == 1 {
      assert OnlyFinishedAt(chain, f);
    }
  }

  // ----- Inputs on which they go wrong -----

  /** A genesis block that overflows after one sub-slot is handed over with the same bundle twice. */
  lemma SameBundleTwice() returns (c: Constants, chain: seq<HeaderRec>)
    ensures ConstantsOk(c) && HeaderChainOk(c, chain) && chain != [] && chain[|chain| - 1].overflow && OneSlotOnly(chain)
    ensures SpAndIp(chain).0.Some? && SpAndIp(chain).0 == SpAndIp(chain).1
  {
    c, chain := SmallConstants(), [OverflowGenesis()];
    OverflowGenesisOk();
    hide HeaderChainOk;
    GenesisTwice(chain);
  }

  /** A genesis block after one sub-slot, a second block in the same sub-slot, and an overflow block in the
      next one whose signage point lies in theirs. */
  function LateGenesis(): HeaderRec {
    var bundle := Eos(GenesisChallenge, 40, 1, 1, 0);
    HeaderRec(55, 40, 0, 5, false, 1, 1, [bundle], SlotEnds([bundle]), false, true, 1, 1, 1, 1)
  }

  function SecondBlock(): HeaderRec {
    HeaderRec(65, 40, 1, 5, false, 0, 0, [], [], false, false, 0, 2, 2, 2)
  }

  function LateOverflow(): HeaderRec {
    var bundle := Eos(CcHash(LateGenesis().bundles[0]), 40, 2, 2, 2);
    HeaderRec(85, 40, 3, 5, true, 2, 1, [bundle], SlotEnds([bundle]), false, true, 2, 3, 3, 3)
  }

  /** With a second block in the sub-slot of genesis, the signage point's sub-slot is left out. */
  lemma SpSlotIsLost() returns (c: Constants, chain: seq<HeaderRec>)
    ensures ConstantsOk(c) && HeaderChainOk(c, chain) && chain != [] && chain[|chain| - 1].overflow
    ensures forall i :: 0 <= i < |chain| - 1 ==> !chain[i].overflow
    ensures GenesisPassedOver(chain) && SpAndIp(chain).0.None? && SpBundle(chain).Some?
  {
    c := SmallConstants();
    var init := [LateGenesis(), SecondBlock()];
    hide HeaderChainOk;
    PairOk(c);
    LateOverflowOk(c, init);
    ExtendChain(c, init, LateOverflow());
    chain := init + [LateOverflow()];
    assert OnlyFinishedAt(chain, 2);
    assert chain[..2] == init;
    assert LatestFirst(chain[..2]) == 0;
    BundlesUpTo(chain, 2);
    BundlesUpTo(chain[..2], 0);
  }

  lemma PairOk(c: Constants)
    requires c == SmallConstants()
    ensures HeaderChainOk(c, [LateGenesis(), SecondBlock()])
  {
    hide HeaderChainOk;
    var g, b := LateGenesis(), SecondBlock();
    assert Ip(c, g) == 15 && Ip(c, b) == 25;
    StartChain(c, g);
    SecondBlockOk(c);
    ExtendChain(c, [g], b);
    assert [g] + [b] == [g, b];
  }

  lemma SecondBlockOk(c: Constants)
    requires c == SmallConstants()
    ensures var g, b := LateGenesis(), SecondBlock();
      && SlotStep(c, [g], b) && IterStep(c, [g], b) && TxStep(c, [g], b) && BundleStep(LastChallenge([g]), 40, b)
  {
    var g, b := LateGenesis(), SecondBlock();
    assert Ip(c, g) == 15 && Ip(c, b) == 25;
    assert LastTxHeight([g]) == 0 && BlocksInSlot([g]) == 1;
  }

  lemma LateOverflowOk(c: Constants, init: seq<HeaderRec>)
    requires c == SmallConstants() && init == [LateGenesis(), SecondBlock()]
    ensures SlotStep(c, init, LateOverflow()) && IterStep(c, init, LateOverflow()) && TxStep(c, init, LateOverflow())
    ensures BundleStep(LastChallenge(init), 40, LateOverflow())
  {
    assert Ip(c, SecondBlock()) == 25 && Ip(c, LateOverflow()) == 5;
    assert init[..1] == [LateGenesis()];
    assert LastTxHeight(init[..1]) == 0 && LastTxHeight(init) == 0;
    assert LastChallenge(init) == LastChallenge(init[..1]) == CcHash(LateGenesis().bundles[0]);
  }
}
