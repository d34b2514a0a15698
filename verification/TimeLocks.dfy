/** Time locks of a spend: from which height and from which time on they are all open. */
module TimeLocks {
  import opened Primitives
  import opened Coins
  import opened Ledger

  function Later(a: int, b: int): int {
    if a >= b then a else b
  }

  /** The first height of a previous transaction block that opens all height locks of a coin confirmed at
      `confirmed`: ages count from there. */
  function OpensAtHeight(locks: seq<Condition>, confirmed: nat): int {
    if locks == [] then 0 else
      var rest := OpensAtHeight(locks[1..], confirmed);
      match locks[0]
      case HeightAbsolute(n) => Later(n, rest)
      case HeightRelative(n) => Later(confirmed + n, rest)
      case _ => rest
  }

  /** The first timestamp that opens all time locks of a coin confirmed at time `confirmedTime`. */
  function OpensAtTime(locks: seq<Condition>, confirmedTime: nat): int {
    if locks == [] then 0 else
      var rest := OpensAtTime(locks[1..], confirmedTime);
      match locks[0]
      case SecondsAbsolute(n) => Later(n, rest)
      case SecondsRelative(n) => Later(confirmedTime + n, rest)
      case _ => rest
  }

  /** All locks of a spend hold exactly from one height and one time on. */
  lemma {:induction false} LocksOpen(npc: Npc, confirmed: nat, confirmedTime: nat, prevTxHeight: nat, now: nat)
    ensures ConditionsHold(npc, confirmed, confirmedTime, prevTxHeight, now) <==>
      OpensAtHeight(npc.conditions, confirmed) <= prevTxHeight && OpensAtTime(npc.conditions, confirmedTime) <= now
    decreases |npc.conditions|
  {
    if npc.conditions != [] {
      var first, rest := npc.conditions[0], npc.(conditions := npc.conditions[1..]);
      LocksOpen(rest, confirmed, confirmedTime, prevTxHeight, now);
      assert forall i :: 0 < i < |npc.conditions| ==> npc.conditions[i] == rest.conditions[i - 1];
      assert ConditionsHold(npc, confirmed, confirmedTime, prevTxHeight, now) <==>
        ConditionHolds(first, confirmed, confirmedTime, prevTxHeight, now)
        && ConditionsHold(rest, confirmed, confirmedTime, prevTxHeight, now);
    }
  }

  /** The four tests as coded, each by a failing comparison. */
  method MempoolCheckConditions(locks: seq<Condition>, unspent: CoinRecord, prevTxHeight: nat, now: nat) returns (ok: bool)
    ensures ok <==> forall i :: 0 <= i < |locks| ==>
      ConditionHolds(locks[i], unspent.confirmed, unspent.timestamp, prevTxHeight, now)
  {
    for i := 0 to |locks|
      invariant forall k :: 0 <= k < i ==>
        ConditionHolds(locks[k], unspent.confirmed, unspent.timestamp, prevTxHeight, now)
    {
      var failed: bool;
      match locks[i] {
        case HeightAbsolute(n) => failed := prevTxHeight < n;
        case HeightRelative(n) => failed := prevTxHeight < n + unspent.confirmed;
        case SecondsAbsolute(n) => failed := now < n;
        case SecondsRelative(n) => failed := now < n + unspent.timestamp;
      }
      if failed {
        return false;
      }
    }
    ok := true;
  }
}
