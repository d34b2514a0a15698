/** The reward claims a farmer puts into a new transaction block. */
module BlockCreation {
  import opened Primitives
  import opened Coins
  import opened Ledger
  import opened LedgerTheorems
  import opened Chains
  import opened BodyValidation

  lemma {:induction false} DistinctSize(s: seq<Coin>)
    requires Distinct(s)
    ensures |set c | c in s| == |s|
  {
    if s != [] {
      var n := |s| - 1;
      DistinctSize(s[..n]);
      assert (set c | c in s) == (set c | c in s[..n]) + {s[n]};
    }
  }

  /** The claims so far: distinct coins, those of the expected rewards from height `lo` on. */
  ghost predicate ClaimsFrom(chain: seq<FullBlock>, lo: nat, p: nat, claims: seq<Coin>)
    requires lo <= p < |chain| && chain[p].tx.Some?
  {
    && Distinct(claims) && (forall c :: c in claims ==> IsRewardOf(c, lo, p + 1))
    && (set c | c in claims) == PlainRewards(chain, lo, p) + RewardPair(chain[p], chain[p].tx.value.fees)
  }

  function PairList(r: BlockRecord, fees: nat): seq<Coin> {
    [CreatePoolCoin(r.height, r.poolPuzzleHash, CalculatePoolReward(r.height)),
     CreateFarmerCoin(r.height, r.farmerPuzzleHash, CalculateBaseFarmerReward(r.height) + fees)]
  }

  lemma ClaimsStart(chain: seq<FullBlock>, p: nat, r: BlockRecord)
    requires p < |chain| && chain[p].tx.Some? && chain[p].height == p && r == ToRecord(chain[p])
    ensures ClaimsFrom(chain, p, p, PairList(r, r.fees))
  {
    NoPlainRewards(chain, p);
    var claims := PairList(r, r.fees);
    assert (set c | c in claims) == {claims[0], claims[1]};
  }

  lemma ClaimsGrow(chain: seq<FullBlock>, lo: nat, p: nat, claims: seq<Coin>, r: BlockRecord)
    requires 0 < lo <= p < |chain| && chain[p].tx.Some? && ClaimsFrom(chain, lo, p, claims)
    requires chain[lo - 1].height == lo - 1 && r == ToRecord(chain[lo - 1])
    ensures ClaimsFrom(chain, lo - 1, p, claims + PairList(r, 0))
  {
    hide PlainRewards;
    PlainRewardsFront(chain, lo - 1, p);
    var pair := PairList(r, 0);
    assert (set c | c in claims + pair) == (set c | c in claims) + {pair[0], pair[1]};
    assert pair[0] !in claims && pair[1] !in claims;
  }

  /** Walks back from the parent to the last transaction block and on to the one before it.  What it
      collects always passes the check of reward claims in body validation. */
  method CreateRewardClaims(records: Records, prev: Option<BlockRecord>, ghost chain: seq<FullBlock>)
    returns (claims: seq<Coin>)
    requires prev.None? <==> chain == []
    requires prev.Some? ==> IsPath(records, chain) && chain[0].tx.Some? && prev.value == ToRecord(chain[|chain| - 1])
    ensures ClaimsOk(chain, claims)
  {
    hide PlainRewards;
    hide ClaimsFrom;
    hide RewardPair;
    hide LastTx;
    hide Claimed;
    hide ExpectedRewards;
    claims := [];
    NothingToClaim();
    if prev.Some? {
      var curr := prev.value;
      while !curr.isTx
        invariant curr.height < |chain| && curr == ToRecord(chain[curr.height])
        invariant forall i :: curr.height < i < |chain| ==> chain[i].tx.None?
        decreases curr.height
      {
        assert PathLink(records, chain, curr.height);
        curr := records[curr.prevHash];
      }
      ghost var p := curr.height;
      claims := PairList(curr, curr.fees);
      ClaimsStart(chain, p, curr);
      if curr.height > 0 {
        assert PathLink(records, chain, p);
        curr := records[curr.prevHash];
        while !curr.isTx
          invariant 0 <= curr.height < p && curr == ToRecord(chain[curr.height])
          invariant forall i :: curr.height < i < p ==> chain[i].tx.None?
          invariant ClaimsFrom(chain, curr.height + 1, p, claims)
          decreases curr.height
        {
          ClaimsGrow(chain, curr.height + 1, p, claims, curr);
          claims := claims + PairList(curr, 0);
          assert PathLink(records, chain, curr.height);
          curr := records[curr.prevHash];
        }
      }
      ClaimsDone(chain, p, if p == 0 then 0 else curr.height + 1, claims);
    }
  }

  lemma NothingToClaim()
    ensures ClaimsOk([], [])
  {
  }

  lemma ClaimsDone(chain: seq<FullBlock>, p: nat, lo: nat, claims: seq<Coin>)
    requires lo <= p < |chain| && chain[p].tx.Some? && forall i :: p < i < |chain| ==> chain[i].tx.None?
    requires lo > 0 ==> chain[lo - 1].tx.Some?
    requires lo == 0 ==> p == 0
    requires forall i :: lo <= i < p ==> chain[i].tx.None?
    requires ClaimsFrom(chain, lo, p, claims)
    ensures ClaimsOk(chain, claims)
  {
    hide PlainRewards;
    LastTxIs(chain, p);
    if lo > 0 {
      LastTxIs(chain[..p], lo - 1);
    }
    DistinctSize(claims);
  }
}
