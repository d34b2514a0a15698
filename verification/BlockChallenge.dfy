/** Which sub-slot's challenge a block answers, and whether its sub-slot is already on the chain. */
module BlockChallenge {
  import opened Primitives
  import opened PotIterations
  import opened HeaderChains
  import opened SlotIters
  import opened VdfInfo

  // ----- final_eos_is_already_included -----

  /** An overflow block whose own sub-slot may not be on the chain yet.  If it lists no finished sub-slot,
      it is infused in the sub-slot of its parent or in a later one. */
  ghost predicate PendingOverflow(c: Constants, chain: seq<HeaderRec>, b: HeaderRec, numFinished: nat) {
    && chain != [] && ConstantsOk(c) && HeaderChainOk(c, chain)
    && BlockParamsOk(c, b) && b.overflow && BlockParamsOk(c, chain[|chain| - 1])
    && (numFinished == 0 ==>
          var parent := chain[|chain| - 1];
          && b.ssi == parent.ssi && parent.totalIters <= b.totalIters
          && (SlotStart(c, b) == SlotStart(c, parent) || SlotStart(c, b) >= SlotStart(c, parent) + parent.ssi))
  }

  /** An overflow block lies less than half a sub-slot after an earlier overflow block exactly when they
      share their sub-slot; in its own sub-slot every earlier block overflows. */
  lemma HalfSlot(c: Constants, a: HeaderRec, b: HeaderRec)
    requires BlockParamsOk(c, a) && BlockParamsOk(c, b) && b.overflow && a.ssi == b.ssi
    ensures SlotStart(c, b) == SlotStart(c, a) && a.totalIters <= b.totalIters ==>
      a.overflow && b.totalIters - a.totalIters < b.ssi / 2
    ensures SlotStart(c, b) >= SlotStart(c, a) + a.ssi && a.overflow ==> b.totalIters - a.totalIters >= b.ssi / 2
  {
    hide IpIters;
    IpBounds(c, a);
    IpBounds(c, b);
  }

  /** The half-slot test is exact: it tells whether the parent is in the block's own sub-slot. */
  method FinalEosIsAlreadyIncluded(c: Constants, chain: seq<HeaderRec>, b: HeaderRec, numFinished: nat, ssi: nat)
    returns (r: bool)
    requires PendingOverflow(c, chain, b, numFinished) && ssi == b.ssi
    ensures r <==> numFinished == 0 && SlotStart(c, b) == SlotStart(c, chain[|chain| - 1])
  {
    hide HeaderChainOk;
    if numFinished > 0 {
      return false;
    }
    var curr := |chain| - 1;
    ghost var parent := chain[curr];
    HalfSlot(c, parent, b);
    hide SlotStart;
    var seen := chain[curr].overflow && b.totalIters - chain[curr].totalIters < ssi / 2;
    ParamsAt(c, chain, curr);
    while !FirstInSubSlot(chain[curr]) && curr != 0
      invariant 0 <= curr < |chain|
      invariant forall x :: curr < x < |chain| ==> chain[x].numFinished == 0
      invariant FirstInSubSlot(chain[curr]) <==> curr == 0 || chain[curr].numFinished > 0
      invariant seen <==> SlotStart(c, b) == SlotStart(c, parent)
      decreases curr
    {
      SameSlot(c, chain, curr, |chain| - 1);
      HalfSlot(c, chain[curr], b);
      if chain[curr].overflow && b.totalIters - chain[curr].totalIters < ssi / 2 {
        seen := true;
      }
      curr := curr - 1;
      ParamsAt(c, chain, curr);
    }
    return FirstInSubSlot(chain[curr]) && seen;
  }

  // ----- get_block_challenge -----

  /** The walk back for the last challenge or the last but one; None is the failed lookup. */
  method FindChallenge(chain: seq<HeaderRec>, count: nat) returns (r: Option<Challenge>)
    requires chain != [] && SlotsOk(chain) && 1 <= count <= 2
    ensures r.Some? ==>
      count <= |Challenges(chain)| && r.value == Challenges(chain)[|Challenges(chain)| - count].cc
    ensures r.None? <==> |Collected(chain, 0)| < count
  {
    var found: seq<SlotEnd> := [];
    var curr := |chain| - 1;
    hide Collected;
    hide Challenges;
    ghost var lo := |chain|;
    NothingCollected(chain);
    while |found| < count
      invariant 0 <= curr < |chain| && lo == curr + 1 && found == Collected(chain, lo)
      invariant |Collected(chain, lo)| <= |Collected(chain, 0)|
      decreases curr
    {
      CollectedStep(chain, curr);
      CollectedGrows(chain, curr);
      if FirstInSubSlot(chain[curr]) {
        found := found + Reverse(chain[curr].finished);
      }
      lo := curr;
      if curr == 0 {
        break;
      }
      curr := curr - 1;
    }
    if |found| < count {
      return None;
    }
    NthChallenge(chain, lo, found, count);
    return Some(found[count - 1].cc);
  }

  lemma NothingCollected(chain: seq<HeaderRec>)
    ensures Collected(chain, |chain|) == []
    ensures |Collected(chain, |chain|)| <= |Collected(chain, 0)|
  {
  }

  lemma {:induction false} CollectedGrows(chain: seq<HeaderRec>, lo: nat)
    requires lo <= |chain|
    ensures |Collected(chain, lo)| <= |Collected(chain, 0)|
  {
    if lo > 0 {
      CollectedStep(chain, lo - 1);
      CollectedGrows(chain, lo - 1);
    }
  }

  lemma {:induction false} NoneCollected(chain: seq<HeaderRec>, lo: nat)
    requires SlotsOk(chain) && 1 <= lo <= |chain|
    ensures Collected(chain, lo) == [] <==> forall x :: lo <= x < |chain| ==> chain[x].numFinished == 0
    decreases |chain| - lo
  {
    if lo < |chain| {
      NoneCollected(chain, lo + 1);
      CollectedStep(chain, lo);
      assert |chain[lo].finished| == chain[lo].numFinished;
    }
  }

  /** At most one sub-slot has been finished on the whole chain. */
  ghost predicate FewSlots(chain: seq<HeaderRec>) {
    && chain != [] && chain[0].numFinished <= 1
    && forall x :: 1 <= x < |chain| ==> chain[x].numFinished == 0
  }

  lemma FewCollected(chain: seq<HeaderRec>)
    requires SlotsOk(chain) && chain != []
    ensures |Collected(chain, 0)| >= 1 && (|Collected(chain, 0)| < 2 <==> FewSlots(chain))
  {
    NoneCollected(chain, 1);
    CollectedStep(chain, 0);
    hide Collected;
    hide Reverse;
    assert chain[0].numFinished > 0 ==> |chain[0].finished| == chain[0].numFinished;
  }

  /** The walk to the latest start of a sub-slot ends at the last challenge. */
  lemma {:induction false} LastChallengeIs(chain: seq<HeaderRec>)
    requires SlotsOk(chain)
    ensures LastChallenge(chain) == Challenges(chain)[|Challenges(chain)| - 1].cc
  {
    NoChallenges();
    if chain != [] {
      var h := |chain| - 1;
      var init, b := chain[..h], chain[h];
      assert init + [b] == chain;
      ChallengesStep(init, b);
      assert h > 0 ==> |b.finished| == b.numFinished;
      if !FirstInSubSlot(b) {
        LastChallengeIs(init);
      }
    }
  }

  /** The VDF challenge of the last bundle is the challenge before its own. */
  lemma LastLink(before: seq<SlotEnd>, bundles: seq<Eos>)
    requires before != [] && bundles != [] && BundlesLinked(before[|before| - 1].cc, bundles)
    ensures var all := before + SlotEnds(bundles);
      all[|all| - 2].cc == bundles[|bundles| - 1].challenge
  {
    assert LinkedAt(before[|before| - 1].cc, bundles, |bundles| - 1);
  }

  /** The challenge a block answers: that of its signage point's sub-slot.  With `skipLast` the sub-slot
      of an overflow block is not on the chain yet; otherwise checks 2a to 2c have passed. */
  method GetBlockChallenge(chain: seq<HeaderRec>, bundles: seq<Eos>, overflow: bool, skipLast: bool)
    returns (r: Option<Challenge>)
    requires SlotsOk(chain) && (!skipLast ==> BundlesLinked(LastChallenge(chain), bundles))
    ensures r.None? <==> bundles == [] && overflow && !skipLast && FewSlots(chain)
    ensures r.Some? ==>
      var all := Challenges(chain) + SlotEnds(bundles);
      var back := if overflow && !skipLast && |all| >= 2 then 2 else 1;
      r.value == all[|all| - back].cc
  {
    hide Challenges;
    hide SlotsOk;
    var n := |bundles|;
    if n > 0 {
      LastChallengeIs(chain);
      if overflow {
        if skipLast {
          return Some(CcHash(bundles[n - 1]));
        }
        LastLink(Challenges(chain), bundles);
        return Some(bundles[n - 1].challenge);
      }
      return Some(CcHash(bundles[n - 1]));
    }
    assert Challenges(chain) + SlotEnds(bundles) == Challenges(chain);
    if chain == [] {
      NoChallenges();
      return Some(GenesisChallenge);
    }
    FewCollected(chain);
    var count := if overflow then (if skipLast then 1 else 2) else 1;
    r := FindChallenge(chain, count);
  }
}
