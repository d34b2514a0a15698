/** Where the VDF to a block's signage point starts: the six-case search and the one rule it follows. */
module VdfInfo {
  import opened Primitives
  import opened PotIterations
  import opened HeaderChains
  import opened SlotIters
  import opened EpochScan

  /** Challenges, VDF input (None is the default element) and number of iterations. */
  datatype VdfStart = VdfStart(cc: Challenge, rc: Hash, input: Option<Hash>, iters: int)

  // ----- The rule -----

  /** Challenges of all sub-slots up to the last block, the genesis challenge first. */
  function Challenges(chain: seq<HeaderRec>): (r: seq<SlotEnd>)
    ensures |r| >= 1
  {
    if chain == [] then [SlotEnd(GenesisChallenge, GENESIS_CHALLENGE)]
    else
      var b := chain[|chain| - 1];
      Challenges(chain[..|chain| - 1]) + (if b.numFinished > 0 then b.finished else [])
  }

  /** Block `i` is the latest block infused in the sub-slot of the signage point of `b` and before
      that signage point; -1 if there is none. */
  ghost predicate StartsFrom(c: Constants, chain: seq<HeaderRec>, b: HeaderRec, i: int)
    requires c.numSps > 0 && b.ssi > 0
  {
    && -1 <= i < |chain|
    && (i >= 0 ==> BeforeSp(c, b, chain[i]))
    && forall j :: i < j < |chain| ==> !BeforeSp(c, b, chain[j])
  }

  ghost predicate BeforeSp(c: Constants, b: HeaderRec, a: HeaderRec)
    requires c.numSps > 0 && b.ssi > 0
  {
    SpSlotStart(c, b) <= a.totalIters < SpTotalIters(c, b)
  }

  /** The VDF starts at that block, or at the start of the sub-slot; it runs up to the signage point
      under the challenge of the signage point's sub-slot. */
  ghost predicate FollowsRule(c: Constants, chain: seq<HeaderRec>, b: HeaderRec, v: VdfStart)
    requires c.numSps > 0 && b.ssi > 0
  {
    exists i: int :: StartsFrom(c, chain, b, i) && v == StartAt(c, chain, b, i)
  }

  /** The sub-slot of the signage point. */
  function SpSlot(chain: seq<HeaderRec>, b: HeaderRec): SlotEnd {
    var all := Challenges(chain + [b]);
    if b.overflow && |all| >= 2 then all[|all| - 2] else all[|all| - 1]
  }

  function StartAt(c: Constants, chain: seq<HeaderRec>, b: HeaderRec, i: int): VdfStart
    requires c.numSps > 0 && b.ssi > 0
  {
    var slot := SpSlot(chain, b);
    if 0 <= i < |chain| then
      VdfStart(slot.cc, chain[i].rcInfusion, Some(chain[i].ccOutput), SpTotalIters(c, b) - chain[i].totalIters)
    else VdfStart(slot.cc, slot.rc, None, SpTotalIters(c, b) - SpSlotStart(c, b))
  }

  // ----- Sub-slots without a candidate -----

  lemma OverflowSpIsEarlier(c: Constants, b: HeaderRec)
    requires BlockParamsOk(c, b)
    ensures b.overflow ==> SpTotalIters(c, b) < SlotStart(c, b)
    ensures SpSlotStart(c, b) <= SpTotalIters(c, b)
  {
    hide IpIters;
    SlotIsIntervals(c, b.ssi);
    MulStrict(b.spIndex, c.numSps, Interval(c, b.ssi));
    MulMono(0, b.spIndex, Interval(c, b.ssi));
  }

  /** A block in a new sub-slot has no candidate, unless it overflows into the sub-slot of its parent. */
  lemma NewSlotStarts(c: Constants, chain: seq<HeaderRec>, b: HeaderRec)
    requires ConstantsOk(c) && HeaderChainOk(c, chain + [b])
    requires b.numFinished > 0 && (!b.overflow || b.numFinished > 1)
    ensures b.ssi > 0 && StartsFrom(c, chain, b, -1)
  {
    hide HeaderChainOk;
    var full, h := chain + [b], |chain|;
    ParamsAt(c, full, h);
    forall j | 0 <= j < h ensures !BeforeSp(c, b, chain[j]) {
      assert full[j] == chain[j] && full[h] == b;
      BeyondSlot(c, full, j, h, h);
      if b.overflow {
        OverflowSpSlot(c, full, h, h);
        IterOrderFar(c, full, j, h - 1);
        InsideSlot(c, full[h - 1]);
      }
    }
  }

  // ----- The walk within one sub-slot -----

  /** The parent of `b` lies in the sub-slot of the signage point of `b`. */
  ghost predicate SharesSpSlot(c: Constants, a: HeaderRec, b: HeaderRec) {
    && BlockParamsOk(c, a) && BlockParamsOk(c, b)
    && a.ssi == b.ssi && SlotStart(c, a) == SpSlotStart(c, b)
  }

  lemma ParentShares(c: Constants, chain: seq<HeaderRec>, b: HeaderRec)
    requires ConstantsOk(c) && HeaderChainOk(c, chain + [b]) && chain != []
    requires if b.overflow then b.numFinished == 1 else b.numFinished == 0
    ensures SharesSpSlot(c, chain[|chain| - 1], b)
  {
    hide HeaderChainOk;
    var full, h := chain + [b], |chain|;
    assert full[h - 1] == chain[h - 1] && full[h] == b;
    IterOrder(c, full, h);
    if b.overflow {
      OverflowSpSlot(c, full, h, h);
    }
  }

  /** In the sub-slot of the signage point blocks are infused before it or after it, never at it. */
  lemma NotAtSp(c: Constants, chain: seq<HeaderRec>, b: HeaderRec, i: nat)
    requires ConstantsOk(c) && HeaderChainOk(c, chain + [b]) && i < |chain| && SharesSpSlot(c, chain[i], b)
    ensures chain[i].totalIters != SpTotalIters(c, b)
  {
    hide HeaderChainOk;
    var full, h := chain + [b], |chain|;
    assert full[i] == chain[i] && full[h] == b;
    IterOrderFar(c, full, i, h);
    SpOrder(c, chain[i], b);
  }

  lemma SharedAlong(c: Constants, chain: seq<HeaderRec>, b: HeaderRec, i: nat)
    requires ConstantsOk(c) && HeaderChainOk(c, chain + [b]) && i < |chain|
    requires SharesSpSlot(c, chain[|chain| - 1], b)
    requires forall x :: i < x < |chain| ==> chain[x].numFinished == 0
    ensures SharesSpSlot(c, chain[i], b) && SpSlotStart(c, b) < chain[i].totalIters
  {
    var full, h := chain + [b], |chain|;
    hide HeaderChainOk;
    assert full[i] == chain[i] && full[h - 1] == chain[h - 1];
    SameSlot(c, full, i, h - 1);
    InsideSlot(c, chain[i]);
  }

  lemma EarlierSlots(c: Constants, chain: seq<HeaderRec>, b: HeaderRec, s: nat, i: nat, j: nat)
    requires ConstantsOk(c) && HeaderChainOk(c, chain + [b]) && j < s <= i < |chain|
    requires chain[s].numFinished > 0 && SharesSpSlot(c, chain[i], b)
    ensures !BeforeSp(c, b, chain[j])
  {
    hide HeaderChainOk;
    var full := chain + [b];
    assert full[j] == chain[j] && full[s] == chain[s] && full[i] == chain[i];
    BeyondSlot(c, full, j, s, i);
  }

  lemma FirstIs(c: Constants, chain: seq<HeaderRec>, b: HeaderRec, i: nat)
    requires ConstantsOk(c) && HeaderChainOk(c, chain + [b]) && i < |chain|
    ensures FirstInSubSlot(chain[i]) <==> i == 0 || chain[i].numFinished > 0
    ensures i > 0 ==> |chain[i].finished| == chain[i].numFinished
  {
    assert (chain + [b])[i] == chain[i];
    ParamsAt(c, chain + [b], i);
  }

  // ----- Challenges -----

  lemma ChallengesStep(chain: seq<HeaderRec>, b: HeaderRec)
    ensures Challenges(chain + [b]) == Challenges(chain) + (if b.numFinished > 0 then b.finished else [])
  {
    assert (chain + [b])[..|chain|] == chain;
  }

  /** What the records say about finished sub-slots. */
  ghost predicate SlotsOk(chain: seq<HeaderRec>) {
    && (chain != [] && chain[0].numFinished == 0 ==>
          chain[0].finished == [SlotEnd(GenesisChallenge, GENESIS_CHALLENGE)])
    && forall i {:trigger chain[i]} :: 0 <= i < |chain| && (i > 0 || chain[i].numFinished > 0) ==>
         |chain[i].finished| == chain[i].numFinished
  }

  lemma SlotsOkAt(c: Constants, chain: seq<HeaderRec>, b: HeaderRec)
    requires ConstantsOk(c) && HeaderChainOk(c, chain + [b])
    ensures SlotsOk(chain) && SlotsOk(chain + [b])
  {
    var full := chain + [b];
    GenesisAt(c, full);
    hide HeaderChainOk;
    forall i | 0 <= i < |full| && (i > 0 || full[i].numFinished > 0) ensures |full[i].finished| == full[i].numFinished {
      ParamsAt(c, full, i);
    }
    assert chain == full[..|chain|];
  }

  lemma NoChallenges()
    ensures Challenges([]) == [SlotEnd(GenesisChallenge, GENESIS_CHALLENGE)]
  {
  }

  lemma {:induction false} NoNewChallenges(chain: seq<HeaderRec>, n: nat)
    requires n <= |chain| && forall x :: n <= x < |chain| ==> chain[x].numFinished == 0
    ensures Challenges(chain) == Challenges(chain[..n])
  {
    if n == |chain| {
      assert chain[..n] == chain;
    } else {
      var init := chain[..|chain| - 1];
      NoNewChallenges(init, n);
      assert init[..n] == chain[..n];
    }
  }

  /** The latest challenge is the last one finished at the latest block that starts a sub-slot. */
  lemma LatestChallenge(chain: seq<HeaderRec>, f: nat)
    requires SlotsOk(chain) && f < |chain| && FirstInSubSlot(chain[f])
    requires forall x :: f < x < |chain| ==> chain[x].numFinished == 0
    ensures Challenges(chain)[|Challenges(chain)| - 1] == chain[f].finished[|chain[f].finished| - 1]
  {
    hide Challenges;
    var finished := chain[f].finished;
    assert chain[f].numFinished > 0 || (f == 0 && finished == [SlotEnd(GenesisChallenge, GENESIS_CHALLENGE)]);
    hide SlotsOk;
    NoNewChallenges(chain, f + 1);
    var before := chain[..f];
    ChallengesStep(before, chain[f]);
    assert chain[..f + 1] == before + [chain[f]];
    NoChallenges();
    assert f == 0 ==> before == [];
    if chain[f].numFinished > 0 {
      var all := Challenges(before) + finished;
      assert all[|all| - 1] == finished[|finished| - 1];
    }
  }

  /** The sub-slots found on the way back to height `lo`, the latest first. */
  function Collected(chain: seq<HeaderRec>, lo: nat): seq<SlotEnd>
    decreases |chain| - lo
  {
    if lo >= |chain| then []
    else Collected(chain, lo + 1) + (if FirstInSubSlot(chain[lo]) then Reverse(chain[lo].finished) else [])
  }

  lemma ReverseAppend<T>(a: seq<T>, b: seq<T>)
    ensures Reverse(a + Reverse(b)) == b + Reverse(a)
  {
  }

  lemma {:induction false} CollectedIs(chain: seq<HeaderRec>, lo: nat)
    requires SlotsOk(chain) && 1 <= lo <= |chain|
    ensures Challenges(chain) == Challenges(chain[..lo]) + Reverse(Collected(chain, lo))
    decreases |chain| - lo
  {
    hide Challenges;
    hide Collected;
    hide Reverse;
    if lo == |chain| {
      assert chain[..lo] == chain;
      CollectedNothing(chain);
      ReverseEmpty<SlotEnd>();
    } else {
      CollectedIs(chain, lo + 1);
      var finished := if FirstInSubSlot(chain[lo]) then chain[lo].finished else [];
      assert chain[lo].numFinished == |chain[lo].finished|;
      hide SlotsOk;
      ChallengesStep(chain[..lo], chain[lo]);
      assert chain[..lo] + [chain[lo]] == chain[..lo + 1];
      CollectedStep(chain, lo);
      ReverseEmpty<SlotEnd>();
      AppendReversed(Challenges(chain), Challenges(chain[..lo]), finished, Collected(chain, lo + 1));
    }
  }

  lemma CollectedNothing(chain: seq<HeaderRec>)
    ensures Collected(chain, |chain|) == []
  {
  }

  lemma ReverseEmpty<T>()
    ensures Reverse<T>([]) == []
  {
  }

  lemma AppendReversed<T>(all: seq<T>, before: seq<T>, middle: seq<T>, after: seq<T>)
    requires all == (before + middle) + Reverse(after)
    ensures all == before + Reverse(after + Reverse(middle))
  {
    ReverseAppend(after, middle);
  }

  lemma CollectedAll(chain: seq<HeaderRec>) returns (rest: seq<SlotEnd>)
    requires SlotsOk(chain) && chain != []
    ensures Challenges(chain) == rest + Reverse(Collected(chain, 0))
  {
    CollectedIs(chain, 1);
    ChallengesStep([], chain[0]);
    assert [] + [chain[0]] == chain[..1];
    rest := if chain[0].numFinished == 0 then [] else Challenges([]);
    assert Challenges(chain[..1]) == rest + chain[0].finished;
    assert Collected(chain, 0) == Collected(chain, 1) + Reverse(chain[0].finished);
    ReverseAppend(Collected(chain, 1), chain[0].finished);
    hide *;
  }

  /** The sub-slots found are the latest challenges, backwards. */
  lemma NthChallenge(chain: seq<HeaderRec>, lo: nat, found: seq<SlotEnd>, n: nat)
    requires SlotsOk(chain) && lo < |chain| && found == Collected(chain, lo) && 1 <= n <= |found|
    ensures n <= |Challenges(chain)| && Challenges(chain)[|Challenges(chain)| - n] == found[n - 1]
  {
    hide Challenges;
    hide Collected;
    hide SlotsOk;
    var rest := Challenges(chain[..lo]);
    if lo >= 1 {
      CollectedIs(chain, lo);
    } else {
      rest := CollectedAll(chain);
    }
    assert (rest + Reverse(found))[|rest| + |found| - n] == found[n - 1];
  }

  // ----- As coded -----

  /** Cases 4 and 6: walk back within the sub-slot of the signage point. */
  method StartWithinSlot(c: Constants, chain: seq<HeaderRec>, spTotal: int, spIters: int, ghost b: HeaderRec) returns (v: VdfStart)
    requires ConstantsOk(c) && HeaderChainOk(c, chain + [b]) && chain != []
    requires if b.overflow then b.numFinished == 1 else b.numFinished == 0
    requires b.ssi > 0 && spTotal == SpTotalIters(c, b) && spIters == spTotal - SpSlotStart(c, b)
    ensures FollowsRule(c, chain, b, v)
  {
    hide HeaderChainOk;
    hide SpTotalIters;
    hide SpSlotStart;
    ParentShares(c, chain, b);
    var curr := |chain| - 1;
    FirstIs(c, chain, b, curr);
    while !FirstInSubSlot(chain[curr]) && chain[curr].totalIters > spTotal
      invariant 0 <= curr < |chain|
      invariant forall j :: curr < j < |chain| ==> chain[j].totalIters > spTotal && chain[j].numFinished == 0
      invariant FirstInSubSlot(chain[curr]) <==> curr == 0 || chain[curr].numFinished > 0
      decreases curr
    {
      curr := curr - 1;
      FirstIs(c, chain, b, curr);
    }
    SharedAlong(c, chain, b, curr);
    NotAtSp(c, chain, b, curr);
    var rc, input, iters;
    ghost var i: int := -1;
    if chain[curr].totalIters < spTotal {
      iters := spTotal - chain[curr].totalIters;
      input := Some(chain[curr].ccOutput);
      rc := chain[curr].rcInfusion;
      i := curr;
    } else {
      iters := spIters;
      input := None;
      rc := chain[curr].finished[|chain[curr].finished| - 1].rc;
      forall j | 0 <= j < curr ensures !BeforeSp(c, b, chain[j]) {
        EarlierSlots(c, chain, b, curr, curr, j);
      }
    }
    ghost var stop := curr;
    while !FirstInSubSlot(chain[curr])
      invariant 0 <= curr <= stop
      invariant forall j :: curr < j < |chain| ==> chain[j].numFinished == 0
      invariant FirstInSubSlot(chain[curr]) <==> curr == 0 || chain[curr].numFinished > 0
      decreases curr
    {
      curr := curr - 1;
      FirstIs(c, chain, b, curr);
    }
    SlotOfParent(c, chain, b, curr);
    var cc := chain[curr].finished[|chain[curr].finished| - 1].cc;
    v := VdfStart(cc, rc, input, iters);
    assert StartsFrom(c, chain, b, i);
    assert v == StartAt(c, chain, b, i);
  }

  lemma SlotOfParent(c: Constants, chain: seq<HeaderRec>, b: HeaderRec, f: nat)
    requires ConstantsOk(c) && HeaderChainOk(c, chain + [b]) && f < |chain| && FirstInSubSlot(chain[f])
    requires forall x :: f < x < |chain| ==> chain[x].numFinished == 0
    requires if b.overflow then b.numFinished == 1 else b.numFinished == 0
    ensures SpSlot(chain, b) == chain[f].finished[|chain[f].finished| - 1]
  {
    hide HeaderChainOk;
    SlotsOkAt(c, chain, b);
    LatestChallenge(chain, f);
    ChallengesStep(chain, b);
    hide Challenges;
    assert (chain + [b])[|chain|] == b;
  }

  // ----- Case 5: back through the previous sub-slot -----

  /** The walk knows the sub-slots found so far: none yet; the one of `b`, started at `f` and finished
      alone; or two, the earlier of them started or finished at `curr`. */
  ghost predicate Walked(chain: seq<HeaderRec>, f: int, curr: nat, found: nat) {
    && curr < |chain|
    && (found == 0 ==> forall x :: curr <= x < |chain| ==> !FirstInSubSlot(chain[x]))
    && (found > 0 ==>
          && curr <= f < |chain| && FirstInSubSlot(chain[f])
          && (forall x :: f < x < |chain| ==> !FirstInSubSlot(chain[x]))
          && (forall x :: curr < x < f ==> !FirstInSubSlot(chain[x]))
          && (found == 1 ==> |chain[f].finished| == 1 && (curr < f ==> !FirstInSubSlot(chain[curr])))
          && (found > 1 && curr == f ==> |chain[f].finished| > 1)
          && (found > 1 && curr < f ==> |chain[f].finished| == 1 && FirstInSubSlot(chain[curr])))
  }

  /** Block `pre` is the latest one from `lo` on that is infused before the signage point. */
  ghost predicate LatestFrom(chain: seq<HeaderRec>, sp: int, lo: int, pre: int) {
    && (pre == -1 || lo <= pre < |chain|)
    && (pre >= 0 ==> chain[pre].totalIters < sp)
    && forall j :: (if pre >= 0 then pre < j else lo <= j) && 0 <= j < |chain| ==> chain[j].totalIters >= sp
  }

  lemma WalkedStarts(c: Constants, chain: seq<HeaderRec>, b: HeaderRec, f: nat, curr: nat, found: nat, pre: int, sp: int)
    requires ConstantsOk(c) && HeaderChainOk(c, chain + [b]) && b.overflow && b.numFinished == 0 && b.ssi > 0
    requires Walked(chain, f, curr, found) && (found >= 2 || curr == 0) && found >= 1
    requires sp == SpTotalIters(c, b) && LatestFrom(chain, sp, curr, pre)
    ensures StartsFrom(c, chain, b, pre) && -1 <= pre < |chain|
  {
    hide HeaderChainOk;
    hide IpIters;
    hide SpTotalIters;
    hide SpSlotStart;
    hide SlotStart;
    FirstInChain(c, chain, b);
    OwnSlotIsLate(c, chain, b, f, sp);
    if pre >= 0 {
      assert pre < f && chain[f].numFinished == 1;
      PreInSpSlot(c, chain, b, f, pre);
    } else if curr > 0 {
      forall j | 0 <= j < curr ensures !BeforeSp(c, b, chain[j]) {
        BeforeWalk(c, chain, b, f, curr, j);
      }
    }
  }

  lemma FirstInChain(c: Constants, chain: seq<HeaderRec>, b: HeaderRec)
    requires ConstantsOk(c) && HeaderChainOk(c, chain + [b])
    ensures forall x :: 0 <= x < |chain| ==> (FirstInSubSlot(chain[x]) <==> x == 0 || chain[x].numFinished > 0)
    ensures forall x :: 0 < x < |chain| ==> |chain[x].finished| == chain[x].numFinished
  {
    forall x | 0 <= x < |chain| ensures FirstInSubSlot(chain[x]) <==> x == 0 || chain[x].numFinished > 0
      ensures x > 0 ==> |chain[x].finished| == chain[x].numFinished
    {
      FirstIs(c, chain, b, x);
    }
  }

  /** Blocks in the sub-slot of an overflow block come after its signage point. */
  lemma OwnSlotIsLate(c: Constants, chain: seq<HeaderRec>, b: HeaderRec, f: nat, sp: int)
    requires ConstantsOk(c) && HeaderChainOk(c, chain + [b]) && b.overflow && b.numFinished == 0 && b.ssi > 0
    requires f < |chain| && sp == SpTotalIters(c, b) && forall x :: f < x < |chain| ==> chain[x].numFinished == 0
    ensures forall j :: f <= j < |chain| ==> chain[j].totalIters > sp
  {
    hide HeaderChainOk;
    var full, h := chain + [b], |chain|;
    ParamsAt(c, full, h);
    OverflowSpIsEarlier(c, b);
    forall j | f <= j < h ensures chain[j].totalIters > sp {
      assert full[j] == chain[j];
      SameSlot(c, full, j, h);
      InsideSlot(c, full[j]);
    }
  }

  lemma PreInSpSlot(c: Constants, chain: seq<HeaderRec>, b: HeaderRec, f: nat, pre: nat)
    requires ConstantsOk(c) && HeaderChainOk(c, chain + [b]) && b.overflow && b.numFinished == 0 && b.ssi > 0
    requires pre < f < |chain| && chain[f].numFinished == 1
    requires forall x :: pre < x < |chain| && x != f ==> chain[x].numFinished == 0
    ensures SpSlotStart(c, b) < chain[pre].totalIters
  {
    hide HeaderChainOk;
    var full, h := chain + [b], |chain|;
    assert full[pre] == chain[pre];
    OverflowSpSlot(c, full, f, h);
    SameSlot(c, full, pre, f - 1);
    InsideSlot(c, full[pre]);
  }

  lemma BeforeWalk(c: Constants, chain: seq<HeaderRec>, b: HeaderRec, f: nat, s: nat, j: nat)
    requires ConstantsOk(c) && HeaderChainOk(c, chain + [b]) && b.overflow && b.numFinished == 0 && b.ssi > 0
    requires j < s <= f < |chain| && chain[s].numFinished > 0 && chain[f].numFinished > 0
    requires s == f ==> chain[f].numFinished > 1
    requires forall x :: f < x < |chain| ==> chain[x].numFinished == 0
    ensures !BeforeSp(c, b, chain[j])
  {
    hide HeaderChainOk;
    hide SlotStart;
    var full, h := chain + [b], |chain|;
    assert full[j] == chain[j] && full[s] == chain[s];
    OverflowSpSlot(c, full, f, h);
    IterOrderFar(c, full, j, f - 1);
    InsideSlot(c, full[f - 1]);
    if s < f {
      BeyondSlot(c, full, j, s, f - 1);
    }
  }

  /** The search fails when only one sub-slot can be found: genesis finished exactly one and none was
      finished since. */
  ghost predicate OneSlotOnly(chain: seq<HeaderRec>) {
    && chain != [] && chain[0].numFinished == 1
    && forall x :: 0 < x < |chain| ==> chain[x].numFinished == 0
  }

  lemma WalkedStep(chain: seq<HeaderRec>, f: int, curr: nat, found: nat)
    requires Walked(chain, f, curr, found) && found < 2 && curr > 0
    requires found == 0 <==> f == -1
    ensures var first := FirstInSubSlot(chain[curr - 1]);
      Walked(chain, if f == -1 && first then curr - 1 else f, curr - 1,
        found + if first then |chain[curr - 1].finished| else 0)
  {
  }

  lemma LatestStep(chain: seq<HeaderRec>, sp: int, curr: nat, pre: int)
    requires curr < |chain| && LatestFrom(chain, sp, curr + 1, pre)
    ensures LatestFrom(chain, sp, curr, if pre == -1 && chain[curr].totalIters < sp then curr else pre)
  {
  }

  lemma CollectedStep(chain: seq<HeaderRec>, lo: nat)
    requires lo < |chain|
    ensures Collected(chain, lo) ==
      Collected(chain, lo + 1) + (if FirstInSubSlot(chain[lo]) then Reverse(chain[lo].finished) else [])
    ensures |Reverse(chain[lo].finished)| == |chain[lo].finished|
  {
  }

  lemma CollectedStarts(chain: seq<HeaderRec>)
    requires chain != []
    ensures var h := |chain| - 1;
      var found := if FirstInSubSlot(chain[h]) then Reverse(chain[h].finished) else [];
      && Collected(chain, h) == found
      && (found == [] <==> !FirstInSubSlot(chain[h]))
      && Walked(chain, if FirstInSubSlot(chain[h]) then h else -1, h, |found|)
    ensures forall sp :: LatestFrom(chain, sp, |chain|, -1)
  {
    assert Collected(chain, |chain|) == [];
  }

  lemma WalkEnds(c: Constants, chain: seq<HeaderRec>, b: HeaderRec, f: int, curr: nat, found: nat)
    requires ConstantsOk(c) && HeaderChainOk(c, chain + [b]) && b.overflow && b.numFinished == 0
    requires Walked(chain, f, curr, found) && (found >= 2 || curr == 0)
    ensures found >= 1 && f >= 0 && (found < 2 <==> OneSlotOnly(chain))
  {
    FirstInChain(c, chain, b);
    SlotsOkAt(c, chain, b);
    if forall x :: 0 < x < |chain| ==> chain[x].numFinished == 0 {
      GenesisFinishedOne(c, chain, b);
    }
    hide HeaderChainOk;
  }

  /** Collects sub-slots backwards until two are known, noting the first block infused before the
      signage point. */
  method CollectTwoSlots(chain: seq<HeaderRec>, spTotal: int) returns (curr: nat, found: seq<SlotEnd>, pre: int, ghost f: int)
    requires chain != []
    ensures Walked(chain, f, curr, |found|) && curr < |chain| && (|found| >= 2 || curr == 0)
    ensures found == Collected(chain, curr) && LatestFrom(chain, spTotal, curr, pre)
    ensures found == [] <==> f == -1
  {
    hide Walked;
    hide LatestFrom;
    hide Collected;
    hide Reverse;
    CollectedStarts(chain);
    curr := |chain| - 1;
    found := if FirstInSubSlot(chain[curr]) then Reverse(chain[curr].finished) else [];
    f := if FirstInSubSlot(chain[curr]) then curr else -1;
    pre := -1;
    while |found| < 2 && curr > 0
      invariant 0 <= curr < |chain| && (found == [] <==> f == -1)
      invariant Walked(chain, f, curr, |found|) && found == Collected(chain, curr)
      invariant LatestFrom(chain, spTotal, curr + 1, pre)
      decreases curr
    {
      WalkedStep(chain, f, curr, |found|);
      CollectedStep(chain, curr - 1);
      LatestStep(chain, spTotal, curr, pre);
      if pre == -1 && chain[curr].totalIters < spTotal {
        pre := curr;
      }
      curr := curr - 1;
      if FirstInSubSlot(chain[curr]) {
        found := found + Reverse(chain[curr].finished);
        f := if f == -1 then curr else f;
      } else {
        assert found + [] == found;
      }
    }
    LatestStep(chain, spTotal, curr, pre);
    if pre == -1 && chain[curr].totalIters < spTotal {
      pre := curr;
    }
  }

  /** Case 5: the previous sub-slot has to be found first. */
  method StartInPreviousSlot(c: Constants, chain: seq<HeaderRec>, spTotal: int, spIters: int, ghost b: HeaderRec)
    returns (v: Option<VdfStart>)
    requires ConstantsOk(c) && HeaderChainOk(c, chain + [b]) && chain != []
    requires b.overflow && b.numFinished == 0
    requires b.ssi > 0 && spTotal == SpTotalIters(c, b) && spIters == spTotal - SpSlotStart(c, b)
    ensures v.None? <==> OneSlotOnly(chain)
    ensures v.Some? ==> FollowsRule(c, chain, b, v.value)
  {
    hide HeaderChainOk;
    hide SpTotalIters;
    hide SpSlotStart;
    hide Walked;
    hide LatestFrom;
    hide OneSlotOnly;
    hide StartsFrom;
    hide SpSlot;
    hide Collected;
    var curr, found, pre, f := CollectTwoSlots(chain, spTotal);
    WalkEnds(c, chain, b, f, curr, |found|);
    WalkedStarts(c, chain, b, f, curr, |found|, pre, spTotal);
    if |found| < 2 {
      return None;
    }
    SlotFound(c, chain, b, curr, found);
    var rc, input, iters := found[1].rc, None, spIters;
    if pre >= 0 {
      iters := spTotal - chain[pre].totalIters;
      input := Some(chain[pre].ccOutput);
      rc := chain[pre].rcInfusion;
    }
    v := Some(VdfStart(found[1].cc, rc, input, iters));
    assert v.value == StartAt(c, chain, b, pre);
  }

  lemma SlotFound(c: Constants, chain: seq<HeaderRec>, b: HeaderRec, curr: nat, found: seq<SlotEnd>)
    requires ConstantsOk(c) && HeaderChainOk(c, chain + [b]) && b.overflow && b.numFinished == 0
    requires curr < |chain| && found == Collected(chain, curr) && |found| >= 2
    ensures SpSlot(chain, b) == found[1]
  {
    hide HeaderChainOk;
    hide Collected;
    SlotsOkAt(c, chain, b);
    NthChallenge(chain, curr, found, 2);
    ChallengesStep(chain, b);
    hide Challenges;
  }

  /** An overflow block cannot lie in the first sub-slot of all. */
  lemma GenesisFinishedOne(c: Constants, chain: seq<HeaderRec>, b: HeaderRec)
    requires ConstantsOk(c) && HeaderChainOk(c, chain + [b]) && chain != [] && b.overflow && b.numFinished == 0
    requires forall x :: 0 < x < |chain| ==> chain[x].numFinished == 0
    ensures chain[0].numFinished > 0
  {
    hide HeaderChainOk;
    hide IpIters;
    var full, h := chain + [b], |chain|;
    GenesisAt(c, full);
    OverflowComesFirst(c, full, 0, h);
    assert full[0] == chain[0];
    FirstSlotHasNoOverflow(c, chain[0]);
  }

  lemma FirstSlotHasNoOverflow(c: Constants, g: HeaderRec)
    requires ConstantsOk(c) && GenesisOk(c, g)
    ensures g.overflow ==> g.numFinished > 0
  {
    hide SlotStart;
  }

  /** The six cases.  `finished` are the sub-slots finished with the block itself.  None stands for the
      failed lookup of a second sub-slot. */
  method GetSignagePointVdfInfo(
    c: Constants, finished: seq<SlotEnd>, overflow: bool, chain: seq<HeaderRec>, spTotal: int, spIters: int,
    ghost b: HeaderRec)
    returns (v: Option<VdfStart>)
    requires ConstantsOk(c) && HeaderChainOk(c, chain + [b])
    requires overflow == b.overflow && finished == if b.numFinished > 0 then b.finished else []
    requires b.ssi > 0 && spTotal == SpTotalIters(c, b) && spIters == SpIters(c, b.ssi, b.spIndex)
    ensures v.None? <==> b.overflow && b.numFinished == 0 && OneSlotOnly(chain)
    ensures v.Some? ==> FollowsRule(c, chain, b, v.value)
  {
    assert spIters == spTotal - SpSlotStart(c, b);
    hide SpIters;
    hide SpTotalIters;
    hide SpSlotStart;
    hide HeaderChainOk;
    hide SpSlot;
    BlockSlots(c, chain, b);
    var newSubSlot, genesis := |finished| > 0, chain == [];
    if newSubSlot && !overflow {
      NewSlotStarts(c, chain, b);
      var slot := finished[|finished| - 1];
      v := Some(VdfStart(slot.cc, slot.rc, None, spIters));
      assert v.value == StartAt(c, chain, b, -1);
    } else if newSubSlot && overflow && |finished| > 1 {
      NewSlotStarts(c, chain, b);
      var slot := finished[|finished| - 2];
      v := Some(VdfStart(slot.cc, slot.rc, None, spIters));
      assert v.value == StartAt(c, chain, b, -1);
    } else if genesis {
      v := Some(VdfStart(GenesisChallenge, GENESIS_CHALLENGE, None, spIters));
      GenesisSlot(c, b);
      assert StartsFrom(c, chain, b, -1) && v.value == StartAt(c, chain, b, -1);
    } else if newSubSlot && overflow && |finished| == 1 {
      var w := StartWithinSlot(c, chain, spTotal, spIters, b);
      v := Some(w);
    } else if !newSubSlot && overflow {
      v := StartInPreviousSlot(c, chain, spTotal, spIters, b);
    } else {
      var w := StartWithinSlot(c, chain, spTotal, spIters, b);
      v := Some(w);
    }
  }

  lemma BlockSlots(c: Constants, chain: seq<HeaderRec>, b: HeaderRec)
    requires ConstantsOk(c) && HeaderChainOk(c, chain + [b])
    ensures b.numFinished > 0 ==> |b.finished| == b.numFinished
    ensures b.numFinished > 0 && !b.overflow ==> SpSlot(chain, b) == b.finished[|b.finished| - 1]
    ensures b.numFinished > 1 && b.overflow ==> SpSlot(chain, b) == b.finished[|b.finished| - 2]
  {
    hide HeaderChainOk;
    hide Challenges;
    SlotsOkAt(c, chain, b);
    assert (chain + [b])[|chain|] == b;
    ChallengesStep(chain, b);
  }

  lemma GenesisSlot(c: Constants, b: HeaderRec)
    requires ConstantsOk(c) && HeaderChainOk(c, [] + [b]) && (b.numFinished == 0 || (b.overflow && b.numFinished == 1))
    ensures SpSlot([], b) == SlotEnd(GenesisChallenge, GENESIS_CHALLENGE)
  {
    GenesisAt(c, [] + [b]);
    ChallengesStep([], b);
  }

  /** The rule determines the start. */
  lemma RuleIsExact(c: Constants, chain: seq<HeaderRec>, b: HeaderRec, v: VdfStart, w: VdfStart)
    requires c.numSps > 0 && b.ssi > 0 && FollowsRule(c, chain, b, v) && FollowsRule(c, chain, b, w)
    ensures v == w
  {
    hide BeforeSp;
    hide StartAt;
    var i: int :| StartsFrom(c, chain, b, i) && v == StartAt(c, chain, b, i);
    var j: int :| StartsFrom(c, chain, b, j) && w == StartAt(c, chain, b, j);
    assert i == j;
  }

  /** A genesis block that overflows after one sub-slot. */
  function OverflowGenesis(): HeaderRec {
    var bundle := Eos(GenesisChallenge, 40, 1, 1, 0);
    HeaderRec(45, 40, 3, 5, true, 1, 1, [bundle], SlotEnds([bundle]), false, true, 1, 1, 1, 1)
  }

  lemma OverflowGenesisOk()
    ensures ConstantsOk(SmallConstants()) && HeaderChainOk(SmallConstants(), [OverflowGenesis()])
  {
    hide HeaderChainOk;
    var c, g := SmallConstants(), OverflowGenesis();
    assert Ip(c, g) == 5;
    StartChain(c, g);
  }

  /** The lookup does fail on a valid chain: that genesis, followed by an overflow block in the same
      sub-slot. */
  lemma LookupCanFail() returns (c: Constants, chain: seq<HeaderRec>, b: HeaderRec)
    ensures ConstantsOk(c) && HeaderChainOk(c, chain + [b])
    ensures b.overflow && b.numFinished == 0 && OneSlotOnly(chain)
  {
    c := SmallConstants();
    b := HeaderRec(47, 40, 3, 7, true, 0, 0, [], [], false, false, 0, 2, 2, 2);
    chain := [OverflowGenesis()];
    OverflowGenesisOk();
    hide HeaderChainOk;
    FollowerOk(c, chain, b);
    ExtendChain(c, chain, b);
  }

  lemma FollowerOk(c: Constants, chain: seq<HeaderRec>, b: HeaderRec)
    requires c == SmallConstants() && chain == [OverflowGenesis()]
    requires b == HeaderRec(47, 40, 3, 7, true, 0, 0, [], [], false, false, 0, 2, 2, 2)
    ensures SlotStep(c, chain, b) && IterStep(c, chain, b) && TxStep(c, chain, b)
    ensures BundleStep(LastChallenge(chain), 40, b)
  {
    assert LastTxHeight(chain) == 0;
    assert BlocksInSlot(chain) == 1;
  }
}
