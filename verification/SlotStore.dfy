/** The store of finished sub-slots and signage points from the peak's sub-slot onwards. */
module SlotStores {
  import opened Primitives
  import opened PotIterations
  import opened HeaderChains
  import opened SubEpochs
  import opened SlotIters
  import opened VdfInfo
  import opened PeakSlots

  /** Challenge-chain VDF (challenge, iterations, other contents) and reward-chain VDF of a signage point. */
  datatype SignagePoint = SignagePoint(challenge: Challenge, iters: nat, ccRest: Hash, rcChallenge: Hash, rcRest: Hash)

  /** A sub-slot with its signage points; no bundle for the first sub-slot of all. */
  datatype Slot = Slot(eos: Option<Eos>, sps: seq<Option<SignagePoint>>, start: nat)

  function ChallengeOf(s: Slot): Challenge {
    if s.eos.None? then GenesisChallenge else CcHash(s.eos.value)
  }

  function RewardOf(s: Slot): Hash {
    if s.eos.None? then GENESIS_CHALLENGE else s.eos.value.rcHash
  }

  // ----- What every run keeps -----

  ghost predicate SlotOk(numSps: nat, s: Slot) {
    && (s.eos.None? ==> s.start == 0)
    && |s.sps| == numSps
    && forall i :: 0 <= i < |s.sps| && s.sps[i].Some? ==> i > 0 && s.sps[i].value.challenge == ChallengeOf(s)
  }

  /** The second slot continues the first, one sub-slot later. */
  ghost predicate Continues(a: Slot, b: Slot) {
    && b.eos.Some? && b.eos.value.challenge == ChallengeOf(a)
    && b.start == a.start + b.eos.value.iters
  }

  /** The list is not empty, only its first slot can be the genesis slot, and its signage points match
      their sub-slots. */
  ghost predicate ListOk(numSps: nat, slots: seq<Slot>) {
    && slots != []
    && (forall i :: 0 <= i < |slots| ==> SlotOk(numSps, slots[i]))
    && (forall i :: 0 < i < |slots| ==> slots[i].eos.Some?)
  }

  /** Every slot continues the one before it. */
  ghost predicate Linked(slots: seq<Slot>) {
    forall i :: 0 <= i < |slots| - 1 ==> Continues(slots[i], slots[i + 1])
  }

  function Depth(c: Challenge): nat {
    if c.GenesisChallenge? then 0 else 1 + Depth(c.prev)
  }

  lemma {:induction false} DepthGrows(slots: seq<Slot>, i: nat, j: nat)
    requires Linked(slots) && i <= j < |slots|
    ensures Depth(ChallengeOf(slots[j])) == Depth(ChallengeOf(slots[i])) + j - i
    decreases j
  {
    if i < j {
      DepthGrows(slots, i, j - 1);
      assert Continues(slots[j - 1], slots[j]);
    }
  }

  /** No challenge occurs twice in a linked list. */
  lemma ChallengesDistinct(slots: seq<Slot>, i: nat, j: nat)
    requires Linked(slots) && i < j < |slots|
    ensures ChallengeOf(slots[i]) != ChallengeOf(slots[j])
  {
    DepthGrows(slots, i, j);
  }

  function Nones(n: nat): (r: seq<Option<SignagePoint>>)
    ensures |r| == n && forall i :: 0 <= i < n ==> r[i].None?
  {
    seq(n, i => None)
  }

  lemma GenesisSlotsOk(numSps: nat)
    ensures ListOk(numSps, [Slot(None, Nones(numSps), 0)]) && Linked([Slot(None, Nones(numSps), 0)])
  {
  }

  lemma AppendOk(numSps: nat, slots: seq<Slot>, s: Slot)
    requires ListOk(numSps, slots) && SlotOk(numSps, s) && Continues(slots[|slots| - 1], s)
    ensures ListOk(numSps, slots + [s]) && (Linked(slots + [s]) <==> Linked(slots))
  {
    var r, n := slots + [s], |slots|;
    assert r[n - 1] == slots[n - 1] && r[n] == s;
    if Linked(r) {
      forall i | 0 <= i < n - 1 ensures Continues(slots[i], slots[i + 1]) {
        assert Continues(r[i], r[i + 1]);
      }
    }
  }

  /** Storing a signage point of the slot's own challenge. */
  lemma SpStored(numSps: nat, slots: seq<Slot>, i: nat, index: nat, sp: SignagePoint)
    requires ListOk(numSps, slots) && i < |slots| && 0 < index < numSps && sp.challenge == ChallengeOf(slots[i])
    ensures ListOk(numSps, WithSp(slots, i, index, sp)) && SameBundles(slots, WithSp(slots, i, index, sp))
  {
    hide CcHash;
    var r := WithSp(slots, i, index, sp);
    forall k | 0 <= k < |r| ensures SlotOk(numSps, r[k]) {
      assert SlotOk(numSps, slots[k]);
      assert ChallengeOf(r[k]) == ChallengeOf(slots[k]);
    }
  }

  ghost predicate SameBundles(a: seq<Slot>, b: seq<Slot>) {
    |a| == |b| && forall i :: 0 <= i < |a| ==> a[i].eos == b[i].eos && a[i].start == b[i].start
  }

  /** Whether a list is linked depends on its bundles only. */
  lemma SameBundlesLinked(a: seq<Slot>, b: seq<Slot>)
    requires SameBundles(a, b) && Linked(a)
    ensures Linked(b)
  {
    forall k | 0 <= k < |b| - 1 ensures Continues(b[k], b[k + 1]) {
      assert Continues(a[k], a[k + 1]);
    }
  }

  function WithSp(slots: seq<Slot>, i: nat, index: nat, sp: SignagePoint): seq<Slot>
    requires i < |slots|
  {
    if index < |slots[i].sps| then slots[i := slots[i].(sps := slots[i].sps[index := Some(sp)])] else slots
  }

  // ----- Paths between two challenges -----

  /** The bundles lead from challenge `a` to challenge `b`. */
  ghost predicate Leads(a: Challenge, path: seq<Eos>, b: Challenge)
  {
    && path != [] && path[0].challenge == a && CcHash(path[|path| - 1]) == b
    && forall i :: 0 <= i < |path| - 1 ==> path[i + 1].challenge == CcHash(path[i])
  }

  /** Two such paths pass through the same challenges. */
  lemma {:induction false} PathIsUnique(a: Challenge, p: seq<Eos>, q: seq<Eos>, b: Challenge)
    requires Leads(a, p, b) && Leads(a, q, b)
    ensures |p| == |q| && forall i :: 0 <= i < |p| ==> CcHash(p[i]) == CcHash(q[i])
    decreases |p|
  {
    PathDepth(a, p, b);
    PathDepth(a, q, b);
    var n := |p|;
    if n > 1 {
      PathIsUnique(a, p[..n - 1], q[..n - 1], p[n - 1].challenge);
      assert forall i :: 0 <= i < n - 1 ==> p[..n - 1][i] == p[i] && q[..n - 1][i] == q[i];
    }
  }

  lemma {:induction false} PathDepth(a: Challenge, p: seq<Eos>, b: Challenge)
    requires Leads(a, p, b)
    ensures Depth(b) == Depth(a) + |p|
    decreases |p|
  {
    if |p| > 1 {
      PathDepth(a, p[..|p| - 1], p[|p| - 1].challenge);
    }
  }

  /** The bundles of slots `i` to `j`. */
  ghost predicate IsSlice(slots: seq<Slot>, i: int, j: int, path: seq<Eos>) {
    && 0 <= i <= j <= |slots| && |path| == j - i
    && forall k :: 0 <= k < |path| ==> slots[i + k].eos == Some(path[k])
  }

  lemma SliceLeads(slots: seq<Slot>, i: nat, j: nat, path: seq<Eos>)
    requires Linked(slots) && i < j && IsSlice(slots, i, j, path)
    ensures Leads(path[0].challenge, path, ChallengeOf(slots[j - 1]))
  {
    assert slots[i + (|path| - 1)].eos == Some(path[|path| - 1]);
    forall k | 0 <= k < |path| - 1 ensures path[k + 1].challenge == CcHash(path[k]) {
      assert Continues(slots[i + k], slots[i + k + 1]);
      assert slots[i + (k + 1)].eos == Some(path[k + 1]);
    }
  }

  // ----- The infusion a signage point builds on -----

  /** Where the walk from the peak stops: at block `r`, or at the start of the sub-slot for -1. */
  ghost predicate WalkStops(chain: seq<HeaderRec>, start: int, sp: int, r: int) {
    && -1 <= r < |chain|
    && (r >= 0 ==> chain[r].totalIters <= start || chain[r].totalIters <= sp)
    && (r >= 0 ==> forall x :: r < x < |chain| ==> Passed(chain, start, sp, x) && !FirstInSubSlot(chain[x]))
    && (r == -1 ==> exists f: nat :: f < |chain| && StopsAtFirst(chain, start, sp, f))
  }

  ghost predicate Passed(chain: seq<HeaderRec>, start: int, sp: int, x: int)
    requires 0 <= x < |chain|
  {
    chain[x].totalIters > start && chain[x].totalIters > sp
  }

  ghost predicate StopsAtFirst(chain: seq<HeaderRec>, start: int, sp: int, f: nat)
    requires f < |chain|
  {
    && FirstInSubSlot(chain[f]) && Passed(chain, start, sp, f)
    && forall x :: f < x < |chain| ==> Passed(chain, start, sp, x) && !FirstInSubSlot(chain[x])
  }

  method FindInfusion(chain: seq<HeaderRec>, start: int, sp: int) returns (r: int)
    requires chain != [] && FirstInSubSlot(chain[0])
    ensures WalkStops(chain, start, sp, r)
  {
    var curr := |chain| - 1;
    while chain[curr].totalIters > start && chain[curr].totalIters > sp
      invariant 0 <= curr < |chain|
      invariant forall x :: curr < x < |chain| ==> Passed(chain, start, sp, x) && !FirstInSubSlot(chain[x])
      decreases curr
    {
      if FirstInSubSlot(chain[curr]) {
        assert StopsAtFirst(chain, start, sp, curr);
        return -1;
      }
      curr := curr - 1;
    }
    r := curr;
  }

  /** Block `i` is the latest one infused in the sub-slot up to the signage point; -1 if there is none. */
  ghost predicate LatestIn(chain: seq<HeaderRec>, start: int, sp: int, i: int) {
    && -1 <= i < |chain|
    && (i >= 0 ==> start < chain[i].totalIters <= sp)
    && forall j :: i < j < |chain| ==> !(start < chain[j].totalIters <= sp)
  }

  lemma PeakSlotFirst(c: Constants, chain: seq<HeaderRec>) returns (f: nat)
    requires ConstantsOk(c) && HeaderChainOk(c, chain) && chain != []
    ensures f < |chain| && FirstInSubSlot(chain[f]) && forall x :: f < x < |chain| ==> !FirstInSubSlot(chain[x])
    ensures BlockParamsOk(c, chain[|chain| - 1])
    ensures forall x :: f <= x < |chain| ==> chain[x].totalIters > SlotStart(c, chain[|chain| - 1])
    ensures forall x :: 0 <= x < f ==> chain[x].totalIters < SlotStart(c, chain[|chain| - 1])
  {
    hide HeaderChainOk;
    var h := |chain| - 1;
    ParamsAt(c, chain, h);
    f := h;
    while !FirstInSubSlot(chain[f])
      invariant 0 <= f <= h && (FirstInSubSlot(chain[f]) <==> f == 0 || chain[f].numFinished > 0)
      invariant forall x :: f < x < |chain| ==> !FirstInSubSlot(chain[x]) && chain[x].numFinished == 0
      decreases f
    {
      f := f - 1;
      ParamsAt(c, chain, f);
    }
    forall x | f <= x < |chain| ensures chain[x].totalIters > SlotStart(c, chain[h]) {
      SameSlot(c, chain, x, h);
      InsideSlot(c, chain[x]);
    }
    forall x | 0 <= x < f ensures chain[x].totalIters < SlotStart(c, chain[h]) {
      BeyondSlot(c, chain, x, f, h);
    }
  }

  /** For a signage point in the peak's sub-slot or an earlier one the walk finds the block it builds on
      exactly when it lies in the peak's sub-slot, or no block of its sub-slot precedes it: the walk
      never enters a sub-slot before the peak's. */
  lemma WalkIsRight(c: Constants, chain: seq<HeaderRec>, start: int, sp: int, r: int)
    requires ConstantsOk(c) && HeaderChainOk(c, chain) && chain != [] && chain[|chain| - 1].ssi > 0
    requires WalkStops(chain, start, sp, r)
    requires start == SlotStart(c, chain[|chain| - 1]) || (start < sp < SlotStart(c, chain[|chain| - 1]))
    ensures LatestIn(chain, start, sp, r) <==>
      start == SlotStart(c, chain[|chain| - 1]) || LatestIn(chain, start, sp, -1)
    ensures start != SlotStart(c, chain[|chain| - 1]) ==> r == -1
  {
    hide HeaderChainOk;
    hide SlotStart;
    var f := PeakSlotFirst(c, chain);
    if r == -1 {
      var g: nat :| g < |chain| && StopsAtFirst(chain, start, sp, g);
      assert g == f;
    }
  }

  /** A block in the first sub-slot, and an overflow block in the second whose signage point comes after it. */
  function EarlyBlock(): HeaderRec {
    HeaderRec(15, 40, 0, 5, false, 1, 0, [], [SlotEnd(GenesisChallenge, GENESIS_CHALLENGE)], false, true, 0, 1, 1, 1)
  }

  function OverflowPeak(): HeaderRec {
    var bundle := Eos(GenesisChallenge, 40, 1, 1, 1);
    HeaderRec(45, 40, 3, 5, true, 0, 1, [bundle], SlotEnds([bundle]), false, true, 1, 2, 2, 2)
  }

  /** The walk misses that block for the peak's own signage point, which does build on it. */
  lemma WalkCanMiss() returns (c: Constants, chain: seq<HeaderRec>, start: int, sp: int)
    ensures ConstantsOk(c) && HeaderChainOk(c, chain) && |chain| == 2 && chain[1].ssi > 0
    ensures start == SpSlotStart(c, chain[1]) && sp == SpTotalIters(c, chain[1]) && StartsFrom(c, chain[..1], chain[1], 0)
    ensures WalkStops(chain, start, sp, -1) && LatestIn(chain, start, sp, 0) && !LatestIn(chain, start, sp, -1)
  {
    c, start, sp := SmallConstants(), 0, 30;
    EarlyBlockOk(c);
    OverflowPeakOk(c);
    hide HeaderChainOk;
    ExtendChain(c, [EarlyBlock()], OverflowPeak());
    chain := [EarlyBlock()] + [OverflowPeak()];
    assert StopsAtFirst(chain, start, sp, 1);
    assert chain[..1][0] == EarlyBlock();
  }

  lemma EarlyBlockOk(c: Constants)
    requires c == SmallConstants()
    ensures HeaderChainOk(c, [EarlyBlock()])
  {
    hide HeaderChainOk;
    assert Ip(c, EarlyBlock()) == 15;
    StartChain(c, EarlyBlock());
  }

  lemma OverflowPeakOk(c: Constants)
    requires c == SmallConstants()
    ensures var g, b := EarlyBlock(), OverflowPeak();
      && SlotStep(c, [g], b) && IterStep(c, [g], b) && TxStep(c, [g], b) && BundleStep(LastChallenge([g]), 40, b)
      && SpSlotStart(c, b) == 0 && SpTotalIters(c, b) == 30
  {
    hide CanFinishEpoch;
    hide CanFinishSubEpoch;
    var g, b := EarlyBlock(), OverflowPeak();
    assert LastTxHeight([g]) == 0;
    assert Ip(c, g) == 15 && Ip(c, b) == 5;
    NoEarlySummary(c, [g]);
  }

  // ----- Retrieving sub-slots for a new block -----

  /** Slot `i`, not the first of the list, continues the challenge. */
  ghost predicate Begins(slots: seq<Slot>, from: Challenge, i: int) {
    1 <= i < |slots| && slots[i].eos.Some? && slots[i].eos.value.challenge == from
  }

  /** Slots up to `j` lead from one challenge to the other. */
  ghost predicate Reaches(slots: seq<Slot>, from: Challenge, to: Challenge, j: int) {
    1 <= j < |slots| && ChallengeOf(slots[j]) == to && exists i :: i <= j && Begins(slots, from, i)
  }

  /** The bundles are those of consecutive slots from one challenge to the other. */
  ghost predicate Contiguous(slots: seq<Slot>, from: Challenge, to: Challenge, path: seq<Eos>) {
    exists i, j :: Begins(slots, from, i) && Reaches(slots, from, to, j) && IsSlice(slots, i, j + 1, path)
  }

  /** The bundles between two challenges: a contiguous part of the list, and in a linked list the path
      from one to the other, if the list holds it. */
  method FindPath(slots: seq<Slot>, from: Challenge, to: Challenge) returns (r: Option<seq<Eos>>)
    requires slots != [] && forall i :: 0 < i < |slots| ==> slots[i].eos.Some?
    ensures r.Some? ==> Contiguous(slots, from, to, r.value)
    ensures r.Some? && Linked(slots) ==> Leads(from, r.value, to)
    ensures r.None? <==> forall j :: !Reaches(slots, from, to, j)
  {
    hide Leads;
    hide IsSlice;
    hide Reaches;
    hide CcHash;
    hide Contiguous;
    hide Linked;
    var collected: seq<Eos> := [];
    var connected := false;
    ghost var first := 0;
    NotReachedYet(slots, from, to);
    for k := 1 to |slots|
      invariant connected ==> 1 <= first < k && Begins(slots, from, first) && IsSlice(slots, first, k, collected)
      invariant !connected ==> collected == [] && forall i :: i < k ==> !Begins(slots, from, i)
      invariant forall j :: j < k ==> !Reaches(slots, from, to, j)
    {
      var e := slots[k].eos.value;
      if e.challenge == from {
        first := if connected then first else k;
        connected := true;
      }
      if connected {
        SliceGrows(slots, first, k, collected);
        collected := collected + [e];
      }
      ReachedNow(slots, from, to, k, connected, first);
      if connected && CcHash(e) == to {
        ContiguousBy(slots, from, to, first, k, collected);
        if Linked(slots) {
          SliceReaches(slots, first, k, from, to, collected);
        }
        return Some(collected);
      }
    }
    ReachesWithin(slots, from, to);
    r := None;
  }

  lemma ContiguousBy(slots: seq<Slot>, from: Challenge, to: Challenge, i: int, j: int, path: seq<Eos>)
    requires Begins(slots, from, i) && Reaches(slots, from, to, j) && IsSlice(slots, i, j + 1, path)
    ensures Contiguous(slots, from, to, path) && exists k :: Reaches(slots, from, to, k)
  {
    hide Begins;
    hide Reaches;
    hide IsSlice;
  }

  lemma NotReachedYet(slots: seq<Slot>, from: Challenge, to: Challenge)
    ensures forall j :: j < 1 ==> !Reaches(slots, from, to, j)
  {
  }

  lemma ReachesWithin(slots: seq<Slot>, from: Challenge, to: Challenge)
    ensures forall j :: j >= |slots| ==> !Reaches(slots, from, to, j)
  {
  }

  lemma SliceGrows(slots: seq<Slot>, first: nat, k: nat, collected: seq<Eos>)
    requires first <= k < |slots| && slots[k].eos.Some?
    requires if first == k then collected == [] else IsSlice(slots, first, k, collected)
    ensures IsSlice(slots, first, k + 1, collected + [slots[k].eos.value])
  {
  }

  lemma ReachedNow(slots: seq<Slot>, from: Challenge, to: Challenge, k: nat, connected: bool, first: int)
    requires 1 <= k < |slots| && slots[k].eos.Some?
    requires if connected then first <= k && Begins(slots, from, first) else forall i :: i <= k ==> !Begins(slots, from, i)
    ensures Reaches(slots, from, to, k) <==> connected && CcHash(slots[k].eos.value) == to
  {
  }

  lemma SliceReaches(slots: seq<Slot>, first: nat, k: nat, from: Challenge, to: Challenge, path: seq<Eos>)
    requires Linked(slots) && first <= k < |slots| && Begins(slots, from, first)
    requires IsSlice(slots, first, k + 1, path) && ChallengeOf(slots[k]) == to
    ensures Leads(from, path, to)
  {
    assert slots[first + 0].eos == Some(path[0]);
    SliceLeads(slots, first, k + 1, path);
  }

  // ----- Signage points kept across a change of peak -----

  /** Signage points that lie before the fork stay, the others are dropped. */
  function Kept(sps: seq<Option<SignagePoint>>, start: nat, interval: nat, forkTotal: nat): (r: seq<Option<SignagePoint>>)
    ensures |r| == |sps|
    ensures forall i :: 0 <= i < |sps| ==> r[i] == if start + i * interval < forkTotal then sps[i] else None
  {
    seq(|sps|, i requires 0 <= i < |sps| => if start + i * interval < forkTotal then sps[i] else None)
  }

  /** The signage points carried over for a sub-slot: those of the slot of the list with the same bundle. */
  ghost predicate CarriedOver(
    numSps: nat, slots: seq<Slot>, eos: Option<Eos>, interval: nat, forkTotal: nat, sps: seq<Option<SignagePoint>>)
  {
    if exists i :: 0 <= i < |slots| && SameBundle(slots[i], eos) then
      exists i :: 0 <= i < |slots| && SameBundle(slots[i], eos) && sps == Kept(slots[i].sps, slots[i].start, interval, forkTotal)
    else sps == Nones(numSps)
  }

  ghost predicate SameBundle(s: Slot, eos: Option<Eos>) {
    s.eos.Some? && s.eos == eos
  }

  method KeepSps(s: Slot, interval: nat, forkTotal: nat) returns (kept: seq<Option<SignagePoint>>)
    ensures kept == Kept(s.sps, s.start, interval, forkTotal)
  {
    kept := [];
    for i := 0 to |s.sps|
      invariant |kept| == i
      invariant forall k :: 0 <= k < i ==> kept[k] == if s.start + k * interval < forkTotal then s.sps[k] else None
    {
      if s.start + i * interval < forkTotal {
        kept := kept + [s.sps[i]];
      } else {
        kept := kept + [None];
      }
    }
  }

  method CarryOver(numSps: nat, slots: seq<Slot>, eos: Option<Eos>, interval: nat, forkTotal: nat)
    returns (sps: seq<Option<SignagePoint>>)
    ensures CarriedOver(numSps, slots, eos, interval, forkTotal, sps)
  {
    hide Kept;
    sps := Nones(numSps);
    ghost var found := -1;
    for k := 0 to |slots|
      invariant -1 <= found < k
      invariant found == -1 ==> sps == Nones(numSps) && forall i :: 0 <= i < k ==> !SameBundle(slots[i], eos)
      invariant found >= 0 ==>
        SameBundle(slots[found], eos) && sps == Kept(slots[found].sps, slots[found].start, interval, forkTotal)
    {
      if slots[k].eos.Some? {
        var kept := KeepSps(slots[k], interval, forkTotal);
        if slots[k].eos == eos {
          sps := kept;
          found := k;
        }
      }
    }
  }

  lemma CarriedOverOk(numSps: nat, slots: seq<Slot>, eos: Option<Eos>, interval: nat, forkTotal: nat,
                      sps: seq<Option<SignagePoint>>, start: nat)
    requires ListOk(numSps, slots) && CarriedOver(numSps, slots, eos, interval, forkTotal, sps)
    requires eos.None? ==> start == 0
    ensures SlotOk(numSps, Slot(eos, sps, start))
  {
    if exists i :: 0 <= i < |slots| && SameBundle(slots[i], eos) {
      var i :| 0 <= i < |slots| && SameBundle(slots[i], eos) && sps == Kept(slots[i].sps, slots[i].start, interval, forkTotal);
      assert SlotOk(numSps, slots[i]);
    }
  }

  // ----- Acceptance rules -----

  predicate Present(slots: seq<Slot>, eos: Eos) {
    exists i :: 0 <= i < |slots| && slots[i].eos == Some(eos)
  }

  /** The last sub-slot already holds the peak. */
  predicate PeakInLast(slots: seq<Slot>, chain: seq<HeaderRec>)
    requires slots != []
  {
    chain != [] && chain[|chain| - 1].totalIters > slots[|slots| - 1].start
  }

  function CurrentSsi(ssiStarting: nat, chain: seq<HeaderRec>): nat {
    if chain == [] then ssiStarting else chain[|chain| - 1].ssi
  }

  /** A bundle extends the list: it continues the last sub-slot in the challenge chain, and in the reward
      chain it continues the peak if that lies in the last sub-slot, else the last sub-slot itself.
      `checks` stands for the VDF proofs, the infused chain and the sub-epoch summary. */
  predicate Extends(ssiStarting: nat, slots: seq<Slot>, eos: Eos, chain: seq<HeaderRec>, checks: bool)
    requires slots != []
  {
    var last := slots[|slots| - 1];
    && eos.challenge == ChallengeOf(last) && eos.iters == CurrentSsi(ssiStarting, chain) && checks
    && eos.rcChallenge == if PeakInLast(slots, chain) then chain[|chain| - 1].rcInfusion else RewardOf(last)
  }

  /** A bundle that continues the list but builds on an infusion other than the peak's. */
  predicate Waits(slots: seq<Slot>, eos: Eos, chain: seq<HeaderRec>)
    requires slots != []
  {
    && eos.challenge == ChallengeOf(slots[|slots| - 1]) && PeakInLast(slots, chain)
    && chain[|chain| - 1].rcInfusion != eos.rcChallenge
  }

  function Cached<T>(cache: map<Hash, seq<T>>, key: Hash): seq<T> {
    if key in cache then cache[key] else []
  }

  predicate Holds(cached: seq<(nat, SignagePoint)>, sp: SignagePoint, index: nat) {
    exists k :: 0 <= k < |cached| && SameSp(cached[k], sp, index)
  }

  predicate SameSp(entry: (nat, SignagePoint), sp: SignagePoint, index: nat) {
    entry.0 == index && entry.1.rcChallenge == sp.rcChallenge && entry.1.rcRest == sp.rcRest
  }

  /** The signage point waits under its reward-chain challenge, behind what waited there, and only once. */
  ghost predicate SpCached(
    before: map<Hash, seq<(nat, SignagePoint)>>, sp: SignagePoint, index: nat, after: map<Hash, seq<(nat, SignagePoint)>>)
  {
    var was, now := Cached(before, sp.rcChallenge), Cached(after, sp.rcChallenge);
    && Holds(now, sp, index) && (if Holds(was, sp, index) then now == was else now == was + [(index, sp)])
    && after == before[sp.rcChallenge := now]
  }

  /** Every list of waiting signage points holds entries for its key only, and none twice. */
  ghost predicate CacheOk(cache: map<Hash, seq<(nat, SignagePoint)>>) {
    forall key :: key in cache ==> EntriesOk(cache[key], key)
  }

  ghost predicate EntriesOk(entries: seq<(nat, SignagePoint)>, key: Hash) {
    && (forall i :: 0 <= i < |entries| ==> entries[i].1.rcChallenge == key)
    && (forall i, j :: 0 <= i < j < |entries| ==> !SameSp(entries[i], entries[j].1, entries[j].0))
  }

  /** Every list of waiting bundles holds bundles for its key only. */
  ghost predicate EosCacheOk(cache: map<Hash, seq<Eos>>) {
    forall key, i :: key in cache && 0 <= i < |cache[key]| ==> cache[key][i].rcChallenge == key
  }

  lemma EosCacheGrows(cache: map<Hash, seq<Eos>>, eos: Eos)
    requires EosCacheOk(cache)
    ensures EosCacheOk(cache[eos.rcChallenge := Cached(cache, eos.rcChallenge) + [eos]])
  {
    var was := Cached(cache, eos.rcChallenge);
    assert forall i :: 0 <= i < |was| ==> was[i].rcChallenge == eos.rcChallenge;
  }

  lemma CacheGrows(before: map<Hash, seq<(nat, SignagePoint)>>, sp: SignagePoint, index: nat,
                   after: map<Hash, seq<(nat, SignagePoint)>>)
    requires CacheOk(before) && SpCached(before, sp, index, after)
    ensures CacheOk(after)
  {
    var was, now := Cached(before, sp.rcChallenge), Cached(after, sp.rcChallenge);
    assert EntriesOk(was, sp.rcChallenge);
    if !Holds(was, sp, index) {
      forall i | 0 <= i < |was| ensures !SameSp(now[i], sp, index) {
        assert now[i] == was[i];
      }
    }
    assert EntriesOk(now, sp.rcChallenge);
  }

  /** Iterations of a signage point within its sub-slot; a sub-slot after the peak's may have a new length. */
  function SpDelta(c: Constants, ssiStarting: nat, slot: Slot, index: nat, chain: seq<HeaderRec>, nextSsi: nat): nat
    requires c.numSps > 0
  {
    var ssi := if Future(slot, chain) then nextSsi
      else if |chain| < 3 then ssiStarting
      else chain[|chain| - 1].ssi;
    MulMono(0, ssi / c.numSps, index);
    ssi / c.numSps * index
  }

  lemma DeltaIs(c: Constants, ssiStarting: nat, slot: Slot, index: nat, chain: seq<HeaderRec>, nextSsi: nat, delta: int)
    requires c.numSps > 0
    requires var ssi := if |chain| < 3 then ssiStarting else chain[|chain| - 1].ssi;
      delta == (if Future(slot, chain) then nextSsi else ssi) / c.numSps * index
    ensures delta == SpDelta(c, ssiStarting, slot, index, chain, nextSsi)
  {
  }

  /** For the sub-slot of its own signage point the peak's index gives the signage point that its header names, and
      for a sub-slot after the peak the next length is divided evenly. */
  lemma SpPosition(c: Constants, ssiStarting: nat, slot: Slot, index: nat, chain: seq<HeaderRec>, nextSsi: nat)
    requires chain != [] && BlockParamsOk(c, chain[|chain| - 1]) && (|chain| < 3 ==> chain[|chain| - 1].ssi == ssiStarting)
    ensures slot.start == SpSlotStart(c, chain[|chain| - 1]) && index == chain[|chain| - 1].spIndex ==>
      slot.start + SpDelta(c, ssiStarting, slot, index, chain, nextSsi) == SpTotalIters(c, chain[|chain| - 1])
    ensures Future(slot, chain) ==> SpDelta(c, ssiStarting, slot, index, chain, nextSsi) == SpIters(c, nextSsi, index)
  {
    hide IpIters;
    var peak := chain[|chain| - 1];
    IpBounds(c, peak);
  }

  predicate Future(slot: Slot, chain: seq<HeaderRec>) {
    chain != [] && slot.start > chain[|chain| - 1].totalIters
  }

  /** A signage point belongs into the slot: its challenge and iterations fit, and its reward-chain
      challenge is the infusion found by the walk, or the start of the sub-slot. */
  ghost predicate Fits(
    c: Constants, ssiStarting: nat, slot: Slot, index: nat, chain: seq<HeaderRec>, nextSsi: nat, sp: SignagePoint)
    requires c.numSps > 0
  {
    var delta := SpDelta(c, ssiStarting, slot, index, chain, nextSsi);
    && sp.challenge == ChallengeOf(slot) && sp.iters == delta
    && exists r :: BuildsOn(slot, chain, slot.start + delta, r) && sp.rcChallenge == RcOf(slot, chain, r)
  }

  ghost predicate FitsSomewhere(
    c: Constants, ssiStarting: nat, slots: seq<Slot>, index: nat, chain: seq<HeaderRec>, nextSsi: nat, sp: SignagePoint)
    requires c.numSps > 0
  {
    exists i :: FirstWith(slots, sp.challenge, i) && Fits(c, ssiStarting, slots[i], index, chain, nextSsi, sp)
  }

  /** Slot `i` is the first one with the challenge. */
  ghost predicate FirstWith(slots: seq<Slot>, challenge: Challenge, i: int) {
    && 0 <= i < |slots| && ChallengeOf(slots[i]) == challenge
    && forall k :: 0 <= k < i ==> ChallengeOf(slots[k]) != challenge
  }

  /** In a linked list that is the only one. */
  lemma OnlyOneFits(
    c: Constants, ssiStarting: nat, slots: seq<Slot>, index: nat, chain: seq<HeaderRec>, nextSsi: nat, sp: SignagePoint, i: nat)
    requires c.numSps > 0 && Linked(slots) && i < |slots| && Fits(c, ssiStarting, slots[i], index, chain, nextSsi, sp)
    ensures FirstWith(slots, sp.challenge, i)
  {
    forall k: nat | k < i ensures ChallengeOf(slots[k]) != sp.challenge {
      ChallengesDistinct(slots, k, i);
    }
  }

  ghost predicate BuildsOn(slot: Slot, chain: seq<HeaderRec>, spTotal: nat, r: int) {
    if chain == [] || Future(slot, chain) then r == -1 else WalkStops(chain, slot.start, spTotal, r)
  }

  function RcOf(slot: Slot, chain: seq<HeaderRec>, r: int): Hash {
    if 0 <= r < |chain| then chain[r].rcInfusion else RewardOf(slot)
  }

  lemma WalkStopsOnce(chain: seq<HeaderRec>, start: int, sp: int, r: int, q: int)
    requires WalkStops(chain, start, sp, r) && WalkStops(chain, start, sp, q)
    ensures r == q
  {
  }

  // ----- The peak's own sub-slots -----

  ghost predicate SpsAfter(
    c: Constants, before: seq<Slot>, eos: Option<Eos>, peak: HeaderRec, fork: Option<HeaderRec>, sps: seq<Option<SignagePoint>>)
    requires c.numSps > 0
  {
    if fork.Some? && fork.value.ssi != peak.ssi then sps == Nones(c.numSps)
    else CarriedOver(c.numSps, before, eos, Interval(c, peak.ssi), (if fork.Some? then fork.value else peak).totalIters, sps)
  }

  /** The list after a new peak, before anything cached is added. */
  ghost predicate Rebuilt(
    c: Constants, before: seq<Slot>, peak: HeaderRec, spSlot: Option<Eos>, ipSlot: Option<Eos>, fork: Option<HeaderRec>,
    after: seq<Slot>)
    requires BlockParamsOk(c, peak) && SpSlotStart(c, peak) >= 0
  {
    if ipSlot.None? then after == [Slot(None, Nones(c.numSps), 0)]
    else exists a, b ::
      && SpsAfter(c, before, spSlot, peak, fork, a) && SpsAfter(c, before, ipSlot, peak, fork, b)
      && after == TwoSlots(c, peak, spSlot, ipSlot, a, b)
  }

  function TwoSlots(
    c: Constants, peak: HeaderRec, spSlot: Option<Eos>, ipSlot: Option<Eos>,
    a: seq<Option<SignagePoint>>, b: seq<Option<SignagePoint>>): seq<Slot>
    requires c.numSps > 0 && peak.ssi > 0 && SpSlotStart(c, peak) >= 0
  {
    (if spSlot.Some? || SpSlotStart(c, peak) == 0 then [Slot(spSlot, a, SpSlotStart(c, peak))] else [])
      + [Slot(ipSlot, b, SlotStart(c, peak))]
  }

  lemma SpsAfterOk(
    c: Constants, before: seq<Slot>, eos: Option<Eos>, peak: HeaderRec, fork: Option<HeaderRec>,
    sps: seq<Option<SignagePoint>>, start: nat)
    requires c.numSps > 0 && ListOk(c.numSps, before) && SpsAfter(c, before, eos, peak, fork, sps)
    requires eos.None? ==> start == 0
    ensures SlotOk(c.numSps, Slot(eos, sps, start))
  {
    if !(fork.Some? && fork.value.ssi != peak.ssi) {
      CarriedOverOk(c.numSps, before, eos, Interval(c, peak.ssi), (if fork.Some? then fork.value else peak).totalIters, sps, start);
    }
  }

  lemma TwoSlotsOk(
    c: Constants, before: seq<Slot>, peak: HeaderRec, spSlot: Option<Eos>, ipSlot: Option<Eos>, fork: Option<HeaderRec>,
    a: seq<Option<SignagePoint>>, b: seq<Option<SignagePoint>>)
    requires BlockParamsOk(c, peak) && SpSlotStart(c, peak) >= 0 && ListOk(c.numSps, before)
    requires ipSlot.Some? && SlotStart(c, peak) > 0
    requires SpsAfter(c, before, spSlot, peak, fork, a) && SpsAfter(c, before, ipSlot, peak, fork, b)
    ensures var slots := TwoSlots(c, peak, spSlot, ipSlot, a, b);
      ListOk(c.numSps, slots) && (Linked(slots) <==> LinksUp(c, peak, spSlot, ipSlot.value))
    ensures peak.overflow || SpSlotStart(c, peak) > 0
  {
    hide SlotStart;
    hide SpsAfter;
    hide SlotOk;
    var slots := TwoSlots(c, peak, spSlot, ipSlot, a, b);
    SpsAfterOk(c, before, ipSlot, peak, fork, b, SlotStart(c, peak));
    if spSlot.Some? || SpSlotStart(c, peak) == 0 {
      SpsAfterOk(c, before, spSlot, peak, fork, a, SpSlotStart(c, peak));
      assert Linked(slots) <==> Continues(slots[0], slots[1]);
    }
  }

  /** The peak overflows in the sub-slot of a genesis block that finished one sub-slot. */
  ghost predicate OverflowsAtGenesis(chain: seq<HeaderRec>) {
    chain != [] && chain[|chain| - 1].overflow && OneSlotOnly(chain)
  }

  /** The list rebuilt for a peak of a valid chain is linked, except for that one kind of peak. */
  lemma RebuiltIsLinked(
    c: Constants, before: seq<Slot>, chain: seq<HeaderRec>, spSlot: Option<Eos>, ipSlot: Option<Eos>,
    fork: Option<HeaderRec>, after: seq<Slot>)
    requires ConstantsOk(c) && HeaderChainOk(c, chain) && chain != [] && ListOk(c.numSps, before)
    requires (spSlot, ipSlot) == SpAndIp(chain)
    ensures BlockParamsOk(c, chain[|chain| - 1]) && SpSlotStart(c, chain[|chain| - 1]) >= 0
    ensures Rebuilt(c, before, chain[|chain| - 1], spSlot, ipSlot, fork, after) ==>
      ListOk(c.numSps, after) && (Linked(after) <==> !OverflowsAtGenesis(chain))
    ensures ipSlot.Some? ==> SlotStart(c, chain[|chain| - 1]) > 0
  {
    hide HeaderChainOk;
    hide SpAndIp;
    hide SlotStart;
    hide SpsAfter;
    hide TwoSlots;
    hide SlotOk;
    hide OneSlotOnly;
    hide BlockParamsOk;
    var peak := chain[|chain| - 1];
    PeakSpStart(c, chain);
    ParamsPositive(c, peak);
    if ipSlot.Some? {
      PeakSlotsLink(c, chain, spSlot, ipSlot);
      if Rebuilt(c, before, peak, spSlot, ipSlot, fork, after) {
        var a, b :| SpsAfter(c, before, spSlot, peak, fork, a) && SpsAfter(c, before, ipSlot, peak, fork, b)
          && after == TwoSlots(c, peak, spSlot, ipSlot, a, b);
        TwoSlotsOk(c, before, peak, spSlot, ipSlot, fork, a, b);
      }
    } else {
      GenesisSlotsOk(c.numSps);
      NoSlotsFinished(c, chain);
    }
  }

  lemma NoSlotsFinished(c: Constants, chain: seq<HeaderRec>)
    requires ConstantsOk(c) && HeaderChainOk(c, chain) && chain != [] && SpAndIp(chain).1.None?
    ensures !OneSlotOnly(chain)
  {
    hide HeaderChainOk;
    FirstIsAt(c, chain, LatestFirst(chain));
  }

  /** For a genesis block that overflows after one sub-slot the list holds one bundle twice. */
  lemma RebuiltUnlinked(a: seq<Option<SignagePoint>>, b: seq<Option<SignagePoint>>) returns (c: Constants, chain: seq<HeaderRec>)
    ensures ConstantsOk(c) && HeaderChainOk(c, chain) && OverflowsAtGenesis(chain)
    ensures BlockParamsOk(c, chain[|chain| - 1]) && SpSlotStart(c, chain[|chain| - 1]) >= 0
    ensures !Linked(TwoSlots(c, chain[|chain| - 1], SpAndIp(chain).0, SpAndIp(chain).1, a, b))
  {
    c, chain := SameBundleTwice();
    hide HeaderChainOk;
    PeakSpStart(c, chain);
    var twice := SpAndIp(chain).0;
    var slots := TwoSlots(c, chain[|chain| - 1], twice, twice, a, b);
    ChallengeIsNew(twice.value);
    assert slots[1].eos == slots[0].eos == twice;
    assert !Continues(slots[0], slots[1]);
  }

  lemma ChallengeIsNew(e: Eos)
    ensures e.challenge != CcHash(e)
  {
    assert Depth(CcHash(e)) == Depth(e.challenge) + 1;
  }

  // ----- What a new peak adds from the caches -----

  /** A waiting bundle is taken if it is in the list or extends it. */
  predicate Taken(ssiStarting: nat, slots: seq<Slot>, eos: Eos, chain: seq<HeaderRec>, checks: Eos -> bool)
    requires slots != []
  {
    Present(slots, eos) || Extends(ssiStarting, slots, eos, chain, checks(eos))
  }

  ghost predicate FirstTaken(
    ssiStarting: nat, slots: seq<Slot>, waiting: seq<Eos>, chain: seq<HeaderRec>, checks: Eos -> bool, i: int)
    requires slots != []
  {
    && 0 <= i < |waiting| && Taken(ssiStarting, slots, waiting[i], chain, checks)
    && forall k :: 0 <= k < i ==> !Taken(ssiStarting, slots, waiting[k], chain, checks)
  }

  /** The first waiting bundle that can be taken is the new one, and the list grows by it unless it is there already. */
  ghost predicate GrownBy(
    numSps: nat, ssiStarting: nat, slots: seq<Slot>, waiting: seq<Eos>, chain: seq<HeaderRec>, checks: Eos -> bool,
    newEos: Option<Eos>, grown: seq<Slot>)
    requires slots != []
  {
    if newEos.None? then
      grown == slots && forall k :: 0 <= k < |waiting| ==> !Taken(ssiStarting, slots, waiting[k], chain, checks)
    else
      && (exists i :: FirstTaken(ssiStarting, slots, waiting, chain, checks, i) && newEos.value == waiting[i])
      && grown == if Present(slots, newEos.value) then slots else Appended(numSps, slots, newEos.value)
  }

  function Appended(numSps: nat, slots: seq<Slot>, eos: Eos): seq<Slot>
    requires slots != []
  {
    slots + [Slot(Some(eos), Nones(numSps), slots[|slots| - 1].start + eos.iters)]
  }

  /** A waiting signage point that goes into the list. */
  ghost predicate Fitting(
    c: Constants, ssiStarting: nat, slots: seq<Slot>, chain: seq<HeaderRec>, nextSsi: nat,
    checks: (nat, SignagePoint) -> bool, entry: (nat, SignagePoint))
    requires c.numSps > 0
  {
    && 0 < entry.0 < c.numSps && checks(entry.0, entry.1)
    && FitsSomewhere(c, ssiStarting, slots, entry.0, chain, nextSsi, entry.1)
  }

  /** Those of the waiting ones, in order. */
  ghost function AllFitting(
    c: Constants, ssiStarting: nat, slots: seq<Slot>, chain: seq<HeaderRec>, nextSsi: nat,
    checks: (nat, SignagePoint) -> bool, waiting: seq<(nat, SignagePoint)>): seq<(nat, SignagePoint)>
    requires c.numSps > 0
  {
    if waiting == [] then [] else
      var before, last := AllFitting(c, ssiStarting, slots, chain, nextSsi, checks, waiting[..|waiting| - 1]), waiting[|waiting| - 1];
      if Fitting(c, ssiStarting, slots, chain, nextSsi, checks, last) then before + [last] else before
  }

  /** The position of the first slot with the challenge, or the length of the list. */
  function SlotWith(slots: seq<Slot>, challenge: Challenge): (i: nat)
    ensures i <= |slots| && (i < |slots| ==> ChallengeOf(slots[i]) == challenge)
    ensures forall k :: 0 <= k < i ==> ChallengeOf(slots[k]) != challenge
  {
    if slots == [] || ChallengeOf(slots[0]) == challenge then 0 else 1 + SlotWith(slots[1..], challenge)
  }

  /** Stores the signage points one after the other, each in the first slot with its challenge. */
  function StoreAll(slots: seq<Slot>, entries: seq<(nat, SignagePoint)>): seq<Slot> {
    if entries == [] then slots else
      var before, last := StoreAll(slots, entries[..|entries| - 1]), entries[|entries| - 1];
      var i := SlotWith(before, last.1.challenge);
      if i < |before| then WithSp(before, i, last.0, last.1) else before
  }

  lemma FirstIsSlotWith(slots: seq<Slot>, challenge: Challenge, i: nat)
    requires FirstWith(slots, challenge, i)
    ensures SlotWith(slots, challenge) == i
  {
  }

  /** Where a signage point goes depends on bundles and starts only. */
  lemma SameBundlesFirst(a: seq<Slot>, b: seq<Slot>, challenge: Challenge, i: int)
    requires SameBundles(a, b)
    ensures FirstWith(a, challenge, i) <==> FirstWith(b, challenge, i)
  {
    hide CcHash;
    assert forall k :: 0 <= k < |a| ==> ChallengeOf(a[k]) == ChallengeOf(b[k]);
  }

  lemma SameBundlesFit(
    c: Constants, ssiStarting: nat, a: seq<Slot>, b: seq<Slot>, index: nat, chain: seq<HeaderRec>, nextSsi: nat, sp: SignagePoint)
    requires c.numSps > 0 && SameBundles(a, b) && FitsSomewhere(c, ssiStarting, a, index, chain, nextSsi, sp)
    ensures FitsSomewhere(c, ssiStarting, b, index, chain, nextSsi, sp)
  {
    hide CcHash;
    hide Fits;
    var i :| FirstWith(a, sp.challenge, i) && Fits(c, ssiStarting, a[i], index, chain, nextSsi, sp);
    SameBundlesFirst(a, b, sp.challenge, i);
    SameBundleFits(c, ssiStarting, a[i], b[i], index, chain, nextSsi, sp);
  }

  lemma SameBundleFits(
    c: Constants, ssiStarting: nat, a: Slot, b: Slot, index: nat, chain: seq<HeaderRec>, nextSsi: nat, sp: SignagePoint)
    requires c.numSps > 0 && a.eos == b.eos && a.start == b.start && Fits(c, ssiStarting, a, index, chain, nextSsi, sp)
    ensures Fits(c, ssiStarting, b, index, chain, nextSsi, sp)
  {
    SameDelta(c, ssiStarting, a, b, index, chain, nextSsi);
    hide SpDelta;
    hide WalkStops;
    hide CcHash;
    var delta := SpDelta(c, ssiStarting, a, index, chain, nextSsi);
    var r :| BuildsOn(a, chain, a.start + delta, r) && sp.rcChallenge == RcOf(a, chain, r);
    assert BuildsOn(b, chain, b.start + delta, r);
    assert sp.rcChallenge == RcOf(b, chain, r);
    assert sp.challenge == ChallengeOf(b);
    assert sp.iters == SpDelta(c, ssiStarting, b, index, chain, nextSsi);
  }

  lemma SameDelta(c: Constants, ssiStarting: nat, a: Slot, b: Slot, index: nat, chain: seq<HeaderRec>, nextSsi: nat)
    requires c.numSps > 0 && a.start == b.start
    ensures SpDelta(c, ssiStarting, a, index, chain, nextSsi) == SpDelta(c, ssiStarting, b, index, chain, nextSsi)
  {
  }

  lemma {:induction false} StoreAllBundles(slots: seq<Slot>, entries: seq<(nat, SignagePoint)>)
    ensures SameBundles(slots, StoreAll(slots, entries))
    ensures forall k :: 0 <= k < |slots| ==> |StoreAll(slots, entries)[k].sps| == |slots[k].sps|
  {
    if entries != [] {
      StoreAllBundles(slots, entries[..|entries| - 1]);
    }
  }

  /** The entry belongs at index `j` of slot `k`. */
  ghost predicate GoesTo(slots: seq<Slot>, k: nat, j: nat, entry: (nat, SignagePoint)) {
    entry.0 == j && FirstWith(slots, entry.1.challenge, k)
  }

  lemma StoreAllSizes(slots: seq<Slot>, entries: seq<(nat, SignagePoint)>, k: nat)
    requires k < |slots|
    ensures |StoreAll(slots, entries)| == |slots| && |StoreAll(slots, entries)[k].sps| == |slots[k].sps|
  {
    hide StoreAll;
    StoreAllBundles(slots, entries);
  }

  /** One more signage point changes the place where it belongs and no other. */
  lemma StoredLast(slots: seq<Slot>, entries: seq<(nat, SignagePoint)>, k: nat, j: nat)
    requires entries != [] && k < |slots| && j < |slots[k].sps|
    ensures var init, last := entries[..|entries| - 1], entries[|entries| - 1];
      && |StoreAll(slots, entries)| == |StoreAll(slots, init)| == |slots|
      && |StoreAll(slots, entries)[k].sps| == |StoreAll(slots, init)[k].sps| == |slots[k].sps|
      && StoreAll(slots, entries)[k].sps[j] ==
         if GoesTo(slots, k, j, last) then Some(last.1) else StoreAll(slots, init)[k].sps[j]
  {
    hide CcHash;
    var init, last := entries[..|entries| - 1], entries[|entries| - 1];
    StoreAllSizes(slots, entries, k);
    StoreAllBundles(slots, init);
    var before := StoreAll(slots, init);
    var i := SlotWith(before, last.1.challenge);
    SameBundlesFirst(slots, before, last.1.challenge, k);
  }

  ghost predicate LastFor(slots: seq<Slot>, k: nat, j: nat, entries: seq<(nat, SignagePoint)>, n: int) {
    && 0 <= n < |entries| && GoesTo(slots, k, j, entries[n])
    && forall m :: n < m < |entries| ==> !GoesTo(slots, k, j, entries[m])
  }

  /** Afterwards every place holds the last signage point that belongs there, or what it held before. */
  lemma {:induction false} StoredAt(slots: seq<Slot>, entries: seq<(nat, SignagePoint)>, k: nat, j: nat)
    requires k < |slots| && j < |slots[k].sps|
    ensures SameBundles(slots, StoreAll(slots, entries)) && j < |StoreAll(slots, entries)[k].sps|
    ensures (forall n :: 0 <= n < |entries| ==> !GoesTo(slots, k, j, entries[n])) ==>
      StoreAll(slots, entries)[k].sps[j] == slots[k].sps[j]
    ensures forall n :: LastFor(slots, k, j, entries, n) ==> StoreAll(slots, entries)[k].sps[j] == Some(entries[n].1)
  {
    hide CcHash;
    hide GoesTo;
    hide SameBundles;
    hide WithSp;
    hide SlotWith;
    StoreAllBundles(slots, entries);
    StoreAllSizes(slots, entries, k);
    if entries != [] {
      var init, last := entries[..|entries| - 1], entries[|entries| - 1];
      StoredAt(slots, init, k, j);
      StoredLast(slots, entries, k, j);
      forall n | LastFor(slots, k, j, entries, n) ensures StoreAll(slots, entries)[k].sps[j] == Some(entries[n].1) {
        if n < |init| {
          assert LastFor(slots, k, j, init, n);
        }
      }
    }
  }

  /** What waited for the peak's infusion: a bundle, then signage points of the list that has grown by it. */
  ghost predicate AddedFromCaches(
    c: Constants, ssiStarting: nat, slots: seq<Slot>, chain: seq<HeaderRec>,
    waitingEos: seq<Eos>, waitingSps: seq<(nat, SignagePoint)>, eosChecks: Eos -> bool, spChecks: (nat, SignagePoint) -> bool,
    newEos: Option<Eos>, newSps: seq<(nat, SignagePoint)>, after: seq<Slot>)
  {
    && c.numSps > 0 && slots != [] && chain != []
    && exists grown: seq<Slot> ::
      && GrownBy(c.numSps, ssiStarting, slots, waitingEos, chain, eosChecks, newEos, grown)
      && newSps == AllFitting(c, ssiStarting, grown, chain, chain[|chain| - 1].ssi, spChecks, waitingSps)
      && after == StoreAll(grown, newSps)
  }

  /** The list is rebuilt for the peak and then grows by what waited for it. */
  ghost predicate FollowsPeak(
    c: Constants, ssiStarting: nat, before: seq<Slot>, chain: seq<HeaderRec>,
    spSlot: Option<Eos>, ipSlot: Option<Eos>, fork: Option<HeaderRec>,
    waitingEos: seq<Eos>, waitingSps: seq<(nat, SignagePoint)>, eosChecks: Eos -> bool, spChecks: (nat, SignagePoint) -> bool,
    newEos: Option<Eos>, newSps: seq<(nat, SignagePoint)>, after: seq<Slot>)
  {
    && chain != [] && BlockParamsOk(c, chain[|chain| - 1]) && SpSlotStart(c, chain[|chain| - 1]) >= 0
    && exists mid: seq<Slot> ::
      && Rebuilt(c, before, chain[|chain| - 1], spSlot, ipSlot, fork, mid)
      && AddedFromCaches(c, ssiStarting, mid, chain, waitingEos, waitingSps, eosChecks, spChecks, newEos, newSps, after)
  }

  class FullNodeStore {
    const c: Constants
    const ssiStarting: nat
    var slots: seq<Slot>
    var futureEos: map<Hash, seq<Eos>>
    var futureSps: map<Hash, seq<(nat, SignagePoint)>>

    ghost predicate Valid()
      reads this
    {
      ConstantsOk(c) && ListOk(c.numSps, slots) && CacheOk(futureSps) && EosCacheOk(futureEos)
    }

    constructor (c: Constants, ssiStarting: nat)
      requires ConstantsOk(c)
      ensures Valid() && this.c == c && this.ssiStarting == ssiStarting
      ensures slots == [Slot(None, Nones(c.numSps), 0)] && Linked(slots) && futureEos == map[] && futureSps == map[]
    {
      this.c, this.ssiStarting := c, ssiStarting;
      slots := [Slot(None, Nones(c.numSps), 0)];
      futureEos, futureSps := map[], map[];
      GenesisSlotsOk(c.numSps);
    }

    method InitializeGenesisSubSlot()
      requires Valid()
      modifies this`slots
      ensures Valid() && Linked(slots) && slots == [Slot(None, Nones(c.numSps), 0)]
    {
      slots := [Slot(None, Nones(c.numSps), 0)];
      GenesisSlotsOk(c.numSps);
    }

    /** The first sub-slot with that challenge, apart from the genesis slot. */
    method GetSubSlot(challenge: Challenge) returns (r: Option<(Eos, nat, nat)>)
      requires Valid()
      ensures r.None? <==> forall i :: 0 <= i < |slots| && slots[i].eos.Some? ==> CcHash(slots[i].eos.value) != challenge
      ensures r.Some? ==>
        && r.value.1 < |slots| && slots[r.value.1].eos == Some(r.value.0) && slots[r.value.1].start == r.value.2
        && CcHash(r.value.0) == challenge
    {
      for i := 0 to |slots|
        invariant forall k :: 0 <= k < i && slots[k].eos.Some? ==> CcHash(slots[k].eos.value) != challenge
      {
        if slots[i].eos.Some? && CcHash(slots[i].eos.value) == challenge {
          return Some((slots[i].eos.value, i, slots[i].start));
        }
      }
      return None;
    }

    /** Appends a bundle that extends the list.  A bundle that only lacks an infusion is cached. */
    method NewFinishedSubSlot(eos: Eos, chain: seq<HeaderRec>, checks: bool) returns (added: bool)
      requires Valid()
      modifies this`slots, this`futureEos
      ensures Valid() && (Linked(slots) <==> Linked(old(slots)))
      ensures added <==> Present(old(slots), eos) || Extends(ssiStarting, old(slots), eos, chain, checks)
      ensures slots == if added && !Present(old(slots), eos)
        then old(slots) + [Slot(Some(eos), Nones(c.numSps), old(slots)[|old(slots)| - 1].start + eos.iters)]
        else old(slots)
      ensures futureEos == if !Present(old(slots), eos) && Waits(old(slots), eos, chain)
        then old(futureEos)[eos.rcChallenge := Cached(old(futureEos), eos.rcChallenge) + [eos]]
        else old(futureEos)
    {
      var last := slots[|slots| - 1];
      var cc, rc := GenesisChallenge, GENESIS_CHALLENGE;
      if last.eos.Some? {
        cc, rc := CcHash(last.eos.value), last.eos.value.rcHash;
      }
      for i := 0 to |slots|
        invariant slots == old(slots) && futureEos == old(futureEos)
        invariant forall k :: 0 <= k < i ==> slots[k].eos != Some(eos)
      {
        if slots[i].eos == Some(eos) {
          return true;
        }
      }
      if eos.challenge != cc {
        return false;
      }
      var ssi := ssiStarting;
      if chain != [] {
        ssi := chain[|chain| - 1].ssi;
      }
      var total := last.start + ssi;
      if chain != [] && chain[|chain| - 1].totalIters > last.start {
        rc := eos.rcChallenge;
        if chain[|chain| - 1].rcInfusion != rc {
          EosCacheGrows(futureEos, eos);
          futureEos := futureEos[rc := Cached(futureEos, rc) + [eos]];
          return false;
        }
      }
      if eos.iters != ssi || eos.rcChallenge != rc || !checks {
        return false;
      }
      AppendOk(c.numSps, slots, Slot(Some(eos), Nones(c.numSps), total));
      slots := slots + [Slot(Some(eos), Nones(c.numSps), total)];
      return true;
    }

    method AddToFutureSp(sp: SignagePoint, index: nat)
      requires Valid()
      modifies this`futureSps
      ensures Valid() && SpCached(old(futureSps), sp, index, futureSps)
    {
      if sp.rcChallenge !in futureSps {
        futureSps := futureSps[sp.rcChallenge := []];
      }
      var cached := futureSps[sp.rcChallenge];
      assert cached == Cached(old(futureSps), sp.rcChallenge);
      for i := 0 to |cached|
        invariant futureSps == old(futureSps)[sp.rcChallenge := cached]
        invariant forall k :: 0 <= k < i ==> !SameSp(cached[k], sp, index)
      {
        if cached[i].0 == index && cached[i].1.rcChallenge == sp.rcChallenge && cached[i].1.rcRest == sp.rcRest {
          assert SameSp(cached[i], sp, index);
          CacheGrows(old(futureSps), sp, index, futureSps);
          return;
        }
      }
      var more := cached + [(index, sp)];
      assert SameSp(more[|cached|], sp, index);
      futureSps := futureSps[sp.rcChallenge := more];
      CacheGrows(old(futureSps), sp, index, futureSps);
    }

    /** Stores a signage point at its index in the first slot with its challenge, if it fits there; nothing
        else changes. */
    method NewSignagePoint(index: nat, chain: seq<HeaderRec>, nextSsi: nat, sp: SignagePoint, checks: bool)
      returns (added: bool)
      requires Valid() && (chain != [] ==> FirstInSubSlot(chain[0]))
      modifies this`slots, this`futureSps
      ensures Valid() && SameBundles(old(slots), slots) && (Linked(slots) <==> Linked(old(slots)))
      ensures added <==>
        0 < index < c.numSps && checks && FitsSomewhere(c, ssiStarting, old(slots), index, chain, nextSsi, sp)
      ensures added ==> exists i: nat :: FirstWith(old(slots), sp.challenge, i) && slots == WithSp(old(slots), i, index, sp)
      ensures !added ==> slots == old(slots)
      ensures if added || !(0 < index < c.numSps) then futureSps == old(futureSps)
        else SpCached(old(futureSps), sp, index, futureSps)
    {
      var ssi := ssiStarting;
      if |chain| >= 3 {
        ssi := chain[|chain| - 1].ssi;
      }
      if index == 0 || index >= c.numSps {
        return false;
      }
      for i := 0 to |slots|
        invariant Valid() && slots == old(slots) && futureSps == old(futureSps)
        invariant forall k :: 0 <= k < i ==> ChallengeOf(slots[k]) != sp.challenge
      {
        var slot := slots[i];
        var challenge, reward := GenesisChallenge, GENESIS_CHALLENGE;
        if slot.eos.Some? {
          challenge, reward := CcHash(slot.eos.value), slot.eos.value.rcHash;
        }
        if challenge == sp.challenge {
          var future := chain != [] && slot.start > chain[|chain| - 1].totalIters;
          var delta := (if future then nextSsi else ssi) / c.numSps * index;
          DeltaIs(c, ssiStarting, slot, index, chain, nextSsi, delta);
          var r := -1;
          if chain != [] && !future {
            r := FindInfusion(chain, slot.start, slot.start + delta);
          }
          var expected := reward;
          if r >= 0 {
            expected := chain[r].rcInfusion;
          }
          FitsFirst(c, ssiStarting, slots, i, index, chain, nextSsi, sp, delta, r);
          if sp.iters != delta || expected != sp.rcChallenge || !checks {
            AddToFutureSp(sp, index);
            return false;
          }
          SpStored(c.numSps, slots, i, index, sp);
          slots := WithSp(slots, i, index, sp);
          if Linked(old(slots)) {
            SameBundlesLinked(old(slots), slots);
          }
          if Linked(slots) {
            SameBundlesLinked(slots, old(slots));
          }
          return true;
        }
      }
      AddToFutureSp(sp, index);
      return false;
    }

    /** Replaces the list by the peak's one or two sub-slots, with the signage points before the fork. */
    method ResetForPeak(chain: seq<HeaderRec>, spSlot: Option<Eos>, ipSlot: Option<Eos>, fork: Option<HeaderRec>)
      requires Valid() && HeaderChainOk(c, chain) && chain != []
      requires (spSlot, ipSlot) == SpAndIp(chain)
      modifies this`slots
      ensures Valid() && (Linked(slots) <==> !OverflowsAtGenesis(chain))
      ensures BlockParamsOk(c, chain[|chain| - 1]) && SpSlotStart(c, chain[|chain| - 1]) >= 0
      ensures Rebuilt(c, old(slots), chain[|chain| - 1], spSlot, ipSlot, fork, slots)
    {
      hide HeaderChainOk;
      hide SpAndIp;
      hide CarriedOver;
      hide SlotStart;
      hide ListOk;
      hide Linked;
      hide Interval;
      hide OverflowsAtGenesis;
      hide BlockParamsOk;
      ghost var before := slots;
      RebuiltIsLinked(c, before, chain, spSlot, ipSlot, fork, [Slot(None, Nones(c.numSps), 0)]);
      if ipSlot.None? {
        InitializeGenesisSubSlot();
        return;
      }
      var peak := chain[|chain| - 1];
      ParamsPositive(c, peak);
      var spSps, ipSps := Nones(c.numSps), Nones(c.numSps);
      if fork.None? || fork.value.ssi == peak.ssi {
        var forkTotal := if fork.Some? then fork.value.totalIters else peak.totalIters;
        spSps := CarryOver(c.numSps, slots, spSlot, Interval(c, peak.ssi), forkTotal);
        ipSps := CarryOver(c.numSps, slots, ipSlot, Interval(c, peak.ssi), forkTotal);
      }
      var rebuilt: seq<Slot> := [];
      var prevStart := SpSlotStart(c, peak);
      TwoSlotsOk(c, slots, peak, spSlot, ipSlot, fork, spSps, ipSps);
      if spSlot.Some? || prevStart == 0 {
        assert peak.overflow || prevStart > 0;
        rebuilt := rebuilt + [Slot(spSlot, spSps, prevStart)];
      }
      rebuilt := rebuilt + [Slot(ipSlot, ipSps, SlotStart(c, peak))];
      assert rebuilt == TwoSlots(c, peak, spSlot, ipSlot, spSps, ipSps);
      slots := rebuilt;
      RebuiltIsLinked(c, before, chain, spSlot, ipSlot, fork, slots);
    }

    /** A new peak: rebuilds the list and then adds what was cached for the peak's infusion, at most one
        more sub-slot and any signage points. */
    method NewPeak(
      chain: seq<HeaderRec>, spSlot: Option<Eos>, ipSlot: Option<Eos>, fork: Option<HeaderRec>,
      eosChecks: Eos -> bool, spChecks: (nat, SignagePoint) -> bool)
      returns (newEos: Option<Eos>, newSps: seq<(nat, SignagePoint)>)
      requires Valid() && HeaderChainOk(c, chain) && chain != []
      requires (spSlot, ipSlot) == SpAndIp(chain)
      modifies this
      ensures Valid() && (Linked(slots) <==> !OverflowsAtGenesis(chain))
      ensures BlockParamsOk(c, chain[|chain| - 1]) && SpSlotStart(c, chain[|chain| - 1]) >= 0
      ensures FollowsPeak(c, ssiStarting, old(slots), chain, spSlot, ipSlot, fork,
                          Cached(old(futureEos), chain[|chain| - 1].rcInfusion),
                          Cached(old(futureSps), chain[|chain| - 1].rcInfusion), eosChecks, spChecks, newEos, newSps, slots)
      ensures futureEos == old(futureEos) - {chain[|chain| - 1].rcInfusion}
      ensures futureSps == old(futureSps) - {chain[|chain| - 1].rcInfusion}
    {
      hide HeaderChainOk;
      hide SpAndIp;
      hide Rebuilt;
      hide ListOk;
      hide CacheOk;
      hide Linked;
      hide Extends;
      hide FitsSomewhere;
      hide FirstWith;
      hide WithSp;
      hide SpCached;
      hide OverflowsAtGenesis;
      hide BlockParamsOk;
      hide EosCacheOk;
      hide GrownBy;
      hide AllFitting;
      hide StoreAll;
      hide SameBundles;
      GenesisIsFirst(c, chain);
      var peak := chain[|chain| - 1];
      var rc := peak.rcInfusion;
      ResetForPeak(chain, spSlot, ipSlot, fork);
      ghost var mid := slots;
      newEos := AddCachedSubSlot(chain, rc, eosChecks);
      ghost var grown := slots;
      newSps := AddCachedSps(chain, rc, spChecks);
      NotEmpty(c.numSps, mid);
      assert AddedFromCaches(c, ssiStarting, mid, chain, Cached(old(futureEos), rc), Cached(old(futureSps), rc),
                             eosChecks, spChecks, newEos, newSps, slots);
      hide AddedFromCaches;
      CacheShrinks(futureSps, futureEos, rc);
      futureEos := futureEos - {rc};
      futureSps := futureSps - {rc};
    }

    /** The first cached bundle that is in the list or extends it is taken. */
    method AddCachedSubSlot(chain: seq<HeaderRec>, rc: Hash, eosChecks: Eos -> bool) returns (newEos: Option<Eos>)
      requires Valid() && chain != [] && rc == chain[|chain| - 1].rcInfusion
      modifies this`slots, this`futureEos
      ensures Valid() && (Linked(slots) <==> Linked(old(slots))) && futureEos == old(futureEos)
      ensures GrownBy(c.numSps, ssiStarting, old(slots), Cached(futureEos, rc), chain, eosChecks, newEos, slots)
    {
      hide ListOk;
      hide CacheOk;
      hide Linked;
      hide Extends;
      hide Present;
      newEos := None;
      NotEmpty(c.numSps, slots);
      var eosList := Cached(futureEos, rc);
      for i := 0 to |eosList|
        invariant Valid() && slots == old(slots) && futureEos == old(futureEos) && newEos.None?
        invariant forall k :: 0 <= k < i ==> !Taken(ssiStarting, slots, eosList[k], chain, eosChecks)
      {
        assert eosList[i].rcChallenge == rc;
        var added := NewFinishedSubSlot(eosList[i], chain, eosChecks(eosList[i]));
        if added {
          newEos := Some(eosList[i]);
          assert FirstTaken(ssiStarting, old(slots), eosList, chain, eosChecks, i);
          return;
        }
      }
    }

    /** Every cached signage point that fits is stored. */
    method AddCachedSps(chain: seq<HeaderRec>, rc: Hash, spChecks: (nat, SignagePoint) -> bool)
      returns (newSps: seq<(nat, SignagePoint)>)
      requires Valid() && chain != [] && FirstInSubSlot(chain[0]) && rc == chain[|chain| - 1].rcInfusion
      modifies this`slots, this`futureSps
      ensures Valid() && (Linked(slots) <==> Linked(old(slots))) && futureSps == old(futureSps)
      ensures newSps == AllFitting(c, ssiStarting, old(slots), chain, chain[|chain| - 1].ssi, spChecks, Cached(futureSps, rc))
      ensures slots == StoreAll(old(slots), newSps)
    {
      hide ListOk;
      hide CacheOk;
      hide Linked;
      hide FitsSomewhere;
      hide WithSp;
      hide SameBundles;
      var peak := chain[|chain| - 1];
      newSps := [];
      var spList := Cached(futureSps, rc);
      StoreAllBundles(slots, []);
      for i := 0 to |spList|
        invariant Valid() && futureSps == old(futureSps) && (Linked(slots) <==> Linked(old(slots)))
        invariant newSps == AllFitting(c, ssiStarting, old(slots), chain, peak.ssi, spChecks, spList[..i])
        invariant slots == StoreAll(old(slots), newSps)
      {
        StoreAllBundles(old(slots), newSps);
        assert spList[..i + 1][..i] == spList[..i];
        FittingStays(c, ssiStarting, old(slots), slots, spList[i].0, chain, peak.ssi, spList[i].1);
        CachedAgain(futureSps, rc, i);
        ghost var before := slots;
        var added := NewSignagePoint(spList[i].0, chain, peak.ssi, spList[i].1, spChecks(spList[i].0, spList[i].1));
        if added {
          ghost var k: nat :| FirstWith(before, spList[i].1.challenge, k) && slots == WithSp(before, k, spList[i].0, spList[i].1);
          FirstIsSlotWith(before, spList[i].1.challenge, k);
          newSps := newSps + [spList[i]];
          assert newSps[..|newSps| - 1] + [spList[i]] == newSps;
        }
      }
      assert spList[..|spList|] == spList;
    }

    /** The sub-slots that a block on top of the chain must include to reach the challenge `last`. */
    method GetFinishedSubSlots(chain: seq<HeaderRec>, last: Challenge) returns (r: Retrieval)
      requires Valid() && (chain != [] ==> FirstInSubSlot(chain[0]))
      ensures r == StoreMismatch <==> chain == [] && slots[0].eos.Some?
      ensures r != StoreMismatch && last == LastChallenge(chain) ==> r == Retrieved([])
      ensures last != LastChallenge(chain) && r.Retrieved? ==>
        && Contiguous(slots, LastChallenge(chain), last, r.subSlots)
        && (Linked(slots) ==> Leads(LastChallenge(chain), r.subSlots, last))
      ensures last != LastChallenge(chain) && r != StoreMismatch ==>
        (r == NotConnected <==> forall j :: !Reaches(slots, LastChallenge(chain), last, j))
    {
      hide Contiguous;
      hide Reaches;
      hide Leads;
      hide LastChallenge;
      NoChainChallenge();
      var inChain := GenesisChallenge;
      if chain == [] {
        if slots[0].eos.Some? {
          return StoreMismatch;
        }
      } else {
        var curr := |chain| - 1;
        while !FirstInSubSlot(chain[curr])
          invariant 0 <= curr < |chain|
          invariant forall x :: curr < x < |chain| ==> !FirstInSubSlot(chain[x])
          decreases curr
        {
          curr := curr - 1;
        }
        LastChallengeAt(chain, curr);
        inChain := chain[curr].finished[|chain[curr].finished| - 1].cc;
      }
      if last == inChain {
        return Retrieved([]);
      }
      var path := FindPath(slots, inChain, last);
      r := if path.None? then NotConnected else Retrieved(path.value);
    }
  }

  /** The failed assertion on the first slot, no connection, or the bundles found. */
  datatype Retrieval = StoreMismatch | NotConnected | Retrieved(subSlots: seq<Eos>)

  lemma NoChainChallenge()
    ensures LastChallenge([]) == GenesisChallenge
  {
  }

  lemma ParamsPositive(c: Constants, b: HeaderRec)
    requires BlockParamsOk(c, b)
    ensures c.numSps > 0 && b.ssi > 0
  {
  }

  lemma GenesisIsFirst(c: Constants, chain: seq<HeaderRec>)
    requires ConstantsOk(c) && HeaderChainOk(c, chain) && chain != []
    ensures FirstInSubSlot(chain[0])
  {
    ParamsAt(c, chain, 0);
  }

  lemma CacheShrinks(cache: map<Hash, seq<(nat, SignagePoint)>>, bundles: map<Hash, seq<Eos>>, key: Hash)
    requires CacheOk(cache) && EosCacheOk(bundles)
    ensures CacheOk(cache - {key}) && EosCacheOk(bundles - {key})
  {
  }

  lemma NotEmpty(numSps: nat, slots: seq<Slot>)
    requires ListOk(numSps, slots)
    ensures slots != []
  {
  }

  lemma FittingStays(
    c: Constants, ssiStarting: nat, a: seq<Slot>, b: seq<Slot>, index: nat, chain: seq<HeaderRec>, nextSsi: nat, sp: SignagePoint)
    requires c.numSps > 0 && SameBundles(a, b)
    ensures FitsSomewhere(c, ssiStarting, a, index, chain, nextSsi, sp) <==> FitsSomewhere(c, ssiStarting, b, index, chain, nextSsi, sp)
  {
    hide FitsSomewhere;
    if FitsSomewhere(c, ssiStarting, a, index, chain, nextSsi, sp) {
      SameBundlesFit(c, ssiStarting, a, b, index, chain, nextSsi, sp);
    }
    if FitsSomewhere(c, ssiStarting, b, index, chain, nextSsi, sp) {
      SameBundlesFit(c, ssiStarting, b, a, index, chain, nextSsi, sp);
    }
  }

  /** Caching an entry that waits already changes nothing. */
  lemma CachedAgain(cache: map<Hash, seq<(nat, SignagePoint)>>, key: Hash, i: nat)
    requires CacheOk(cache) && i < |Cached(cache, key)|
    ensures var entry := Cached(cache, key)[i];
      forall after :: SpCached(cache, entry.1, entry.0, after) ==> after == cache
  {
    var entry := Cached(cache, key)[i];
    assert EntriesOk(cache[key], key);
    assert SameSp(cache[key][i], entry.1, entry.0);
  }

  /** The coded test decides whether the signage point fits into the first slot with its challenge. */
  lemma FitsFirst(
    c: Constants, ssiStarting: nat, slots: seq<Slot>, i: nat, index: nat, chain: seq<HeaderRec>, nextSsi: nat,
    sp: SignagePoint, delta: nat, r: int)
    requires c.numSps > 0 && FirstWith(slots, sp.challenge, i)
    requires delta == SpDelta(c, ssiStarting, slots[i], index, chain, nextSsi)
    requires BuildsOn(slots[i], chain, slots[i].start + delta, r)
    ensures FitsSomewhere(c, ssiStarting, slots, index, chain, nextSsi, sp)
      <==> sp.iters == delta && RcOf(slots[i], chain, r) == sp.rcChallenge
  {
    hide SpDelta;
    hide WalkStops;
    forall k | FirstWith(slots, sp.challenge, k) ensures k == i {
    }
    if Fits(c, ssiStarting, slots[i], index, chain, nextSsi, sp) {
      var q :| BuildsOn(slots[i], chain, slots[i].start + delta, q) && sp.rcChallenge == RcOf(slots[i], chain, q);
      if chain != [] && !Future(slots[i], chain) {
        WalkStopsOnce(chain, slots[i].start, slots[i].start + delta, r, q);
      }
    }
  }
}
