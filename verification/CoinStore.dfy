/** An ordered dictionary with a capacity; reading or writing a key makes it the most recent. */
module Lru {
  import opened Primitives

  function Without<K(!new, ==)>(keys: seq<K>, k: K): (rest: seq<K>)
    ensures forall x :: x in rest <==> x in keys && x != k
    ensures |rest| <= |keys|
    ensures k in keys ==> |rest| < |keys|
  {
    if keys == [] then [] else
      var rest := Without(keys[..|keys| - 1], k);
      var last := keys[|keys| - 1];
      if last == k then rest else rest + [last]
  }

  lemma {:induction false} WithoutDistinct<K(!new)>(keys: seq<K>, k: K)
    requires Distinct(keys)
    ensures Distinct(Without(keys, k))
    ensures |Without(keys, k)| == if k in keys then |keys| - 1 else |keys|
  {
    if keys != [] {
      var init, last := keys[..|keys| - 1], keys[|keys| - 1];
      WithoutDistinct(init, k);
      assert keys == init + [last];
      assert last !in init;
      var rest := Without(init, k);
      assert last !in rest;
      DistinctSnoc(rest, last);
    }
  }

  /** The other keys keep their places. */
  lemma {:induction false} WithoutIs<K(!new)>(a: seq<K>, k: K, b: seq<K>)
    requires k !in a && k !in b
    ensures Without(a + [k] + b, k) == a + b
  {
    if b == [] {
      assert (a + [k] + b)[..|a|] == a;
      WithoutAbsent(a, k);
    } else {
      var init := b[..|b| - 1];
      WithoutIs(a, k, init);
      assert (a + [k] + b)[..|a| + |b|] == a + [k] + init;
      assert b == init + [b[|b| - 1]];
    }
  }

  lemma {:induction false} WithoutAbsent<K(!new)>(keys: seq<K>, k: K)
    requires k !in keys
    ensures Without(keys, k) == keys
  {
    if keys != [] {
      WithoutAbsent(keys[..|keys| - 1], k);
    }
  }

  lemma DistinctSnoc<K(!new)>(keys: seq<K>, k: K)
    requires Distinct(keys) && k !in keys
    ensures Distinct(keys + [k])
  {
  }

  lemma DistinctEmpty<K(!new)>()
    ensures Distinct<K>([])
  {
  }

  lemma NotRepeated<K(!new)>(keys: seq<K>, i: nat)
    requires Distinct(keys) && i < |keys|
    ensures keys[..i + 1] == keys[..i] + [keys[i]] && keys[i] !in keys[..i]
  {
  }

  lemma DistinctTail<K(!new)>(keys: seq<K>)
    requires Distinct(keys) && keys != []
    ensures Distinct(keys[1..])
    ensures forall x :: x in keys[1..] <==> x in keys && x != keys[0]
  {
    assert keys == [keys[0]] + keys[1..];
  }

  /** The order after using `k`: it moves to the end, and the oldest key goes if there is no room. */
  function Touch<K(!new, ==)>(keys: seq<K>, k: K, capacity: nat): seq<K> {
    var order := Without(keys, k) + [k];
    if |order| > capacity then order[1..] else order
  }

  /** A key in use moves to the end and nothing goes; a new key goes to the end, and without room for it the key
      that has not been used for longest goes. */
  lemma TouchIs<K(!new)>(keys: seq<K>, k: K, capacity: nat, i: nat)
    requires Distinct(keys) && |keys| <= capacity
    ensures i < |keys| && keys[i] == k ==> Touch(keys, k, capacity) == keys[..i] + keys[i + 1..] + [k]
    ensures k !in keys && |keys| < capacity ==> Touch(keys, k, capacity) == keys + [k]
    ensures k !in keys && 0 < |keys| == capacity ==> Touch(keys, k, capacity) == keys[1..] + [k]
  {
    if i < |keys| && keys[i] == k {
      WithoutIs(keys[..i], k, keys[i + 1..]);
      assert keys == keys[..i] + [k] + keys[i + 1..];
    }
    if k !in keys {
      WithoutAbsent(keys, k);
    }
  }

  class LruCache<K(!new, ==), V> {
    const capacity: nat
    var order: seq<K>
    var cache: map<K, V>

    ghost predicate Valid()
      reads this
    {
      Distinct(order) && |order| <= capacity && (forall k :: k in order <==> k in cache)
    }

    constructor (capacity: nat)
      ensures Valid() && this.capacity == capacity && cache == map[]
    {
      this.capacity := capacity;
      order := [];
      cache := map[];
    }

    method Get(k: K) returns (r: Option<V>)
      requires Valid()
      modifies this
      ensures Valid() && cache == old(cache)
      ensures r == if k in cache then Some(cache[k]) else None
      ensures order == if k in cache then Touch(old(order), k, capacity) else old(order)
    {
      if k !in cache {
        r := None;
      } else {
        WithoutDistinct(order, k);
        DistinctSnoc(Without(order, k), k);
        order := Without(order, k) + [k];
        r := Some(cache[k]);
      }
    }

    /** Writing a key that is present evicts nothing; writing a new key evicts at most the oldest. */
    method Put(k: K, v: V)
      requires Valid()
      modifies this
      ensures Valid()
      ensures order == Touch(old(order), k, capacity)
      ensures k in old(cache) ==> cache == old(cache)[k := v]
      ensures cache == map x | x in old(cache)[k := v] && x in order :: old(cache)[k := v][x]
    {
      WithoutDistinct(order, k);
      DistinctSnoc(Without(order, k), k);
      cache := cache[k := v];
      order := Without(order, k) + [k];
      if |order| > capacity {
        DistinctTail(order);
        var oldest := order[0];
        cache := map x | x in cache && x != oldest :: cache[x];
        order := order[1..];
      }
    }

    method Remove(k: K)
      requires Valid() && k in cache
      modifies this
      ensures Valid() && order == Without(old(order), k)
      ensures cache == map x | x in old(cache) && x != k :: old(cache)[x]
    {
      WithoutDistinct(order, k);
      order := Without(order, k);
      cache := map x | x in cache && x != k :: cache[x];
    }
  }
}

/** The table of coin records of the peak's chain, with a cache of recently used records beside it. */
module CoinStores {
  import opened Primitives
  import opened Coins
  import opened Ledger
  import opened LedgerTheorems
  import opened Lru

  // ----- What the table statements do -----

  function InsertAll(t: Table, records: seq<CoinRecord>): Table {
    if records == [] then t else
      var last := records[|records| - 1];
      InsertAll(t, records[..|records| - 1])[CoinName(last.coin) := last]
  }

  function SpendAll(t: Table, names: seq<CoinId>, height: nat): Table {
    map id | id in t :: if id in names then Spend(t[id], height) else t[id]
  }

  lemma SpendAllStep(t: Table, names: seq<CoinId>, i: nat, height: nat)
    requires i < |names|
    ensures var before := SpendAll(t, names[..i], height);
      SpendAll(t, names[..i + 1], height) ==
        if names[i] in t then before[names[i] := Spend(before[names[i]], height)] else before
  {
    assert names[..i + 1] == names[..i] + [names[i]];
  }

  function RowsAbove(t: Table, h: int): Table {
    map id | id in t && t[id].confirmed > h :: t[id]
  }

  function ForgetTimes(rows: Table): Table {
    map id | id in rows :: rows[id].(confirmed := 0, timestamp := 0)
  }

  function DeleteAbove(t: Table, h: int): Table {
    map id | id in t && t[id].confirmed <= h :: t[id]
  }

  function UnspendAbove(t: Table, h: int): Table {
    map id | id in t :: RollbackRecord(t[id], h)
  }

  lemma DeleteThenUnspend(t: Table, h: int)
    ensures UnspendAbove(DeleteAbove(t, h), h) == RollbackTable(t, h)
    ensures RowsAbove(DeleteAbove(t, h), h) == map[]
    ensures forall changes: Table :: MarkUnspent(map[]) + changes == changes
    ensures Filed(t) ==> Filed(RollbackTable(t, h))
  {
  }

  function MarkUnspent(rows: Table): Table {
    map id | id in rows :: rows[id].(spentIndex := 0, spent := false)
  }

  ghost predicate FreshRecords(t: Table, records: seq<CoinRecord>) {
    (forall i :: 0 <= i < |records| ==> CoinName(records[i].coin) !in t) &&
    (forall i, j :: 0 <= i < j < |records| ==> records[i].coin != records[j].coin)
  }

  lemma {:induction false} InsertAllAt(t: Table, records: seq<CoinRecord>)
    requires FreshRecords(t, records)
    ensures InsertAll(t, records).Keys == t.Keys + set r | r in records :: CoinName(r.coin)
    ensures forall id :: id in t ==> InsertAll(t, records)[id] == t[id]
    ensures forall i :: 0 <= i < |records| ==> InsertAll(t, records)[CoinName(records[i].coin)] == records[i]
  {
    if records != [] {
      var init, last := records[..|records| - 1], records[|records| - 1];
      InsertAllAt(t, init);
      assert records == init + [last];
    }
  }

  lemma InsertAllSnoc(t: Table, records: seq<CoinRecord>, i: nat)
    requires i < |records|
    ensures InsertAll(t, records[..i + 1]) == InsertAll(t, records[..i])[CoinName(records[i].coin) := records[i]]
  {
    assert records[..i + 1][..i] == records[..i];
  }

  lemma InsertNothing(t: Table)
    ensures InsertAll(t, []) == t
  {
  }

  // ----- Cache coherence -----

  ghost predicate Coherent(cache: map<CoinId, CoinRecord>, t: Table) {
    forall id :: id in cache ==> id in t && cache[id] == t[id]
  }

  ghost predicate Filed(t: Table) {
    forall id :: id in t ==> id == CoinName(t[id].coin)
  }

  ghost function ModifiedIds(t: Table, h: int): set<CoinId> {
    set id | id in t && (id !in RollbackTable(t, h) || RollbackTable(t, h)[id] != t[id])
  }

  ghost predicate ExactlyCreated(b: FullBlock, records: seq<CoinRecord>) {
    forall r :: r in records <==> CoinName(r.coin) in Created(b) && r == NewRecord(b, CoinName(r.coin))
  }

  class CoinStore {
    const cache: LruCache<CoinId, CoinRecord>
    var table: Table

    ghost predicate Valid()
      reads this, cache
    {
      cache.Valid() && Coherent(cache.cache, table) && Filed(table)
    }

    constructor (cacheSize: nat)
      ensures Valid() && fresh(cache) && table == map[]
    {
      cache := new LruCache<CoinId, CoinRecord>(cacheSize);
      table := map[];
    }

    /** Whatever the cache holds or evicts, a lookup answers what the table holds. */
    method GetCoinRecord(name: CoinId) returns (r: Option<CoinRecord>)
      requires Valid()
      modifies cache
      ensures Valid() && table == old(table)
      ensures r == if name in table then Some(table[name]) else None
    {
      r := cache.Get(name);
      if r.None? && name in table {
        r := Some(table[name]);
        cache.Put(CoinName(r.value.coin), r.value);
      }
    }

    /** The insert demands new, distinct primary keys; the cache is written first, as coded. */
    method AddCoinRecords(records: seq<CoinRecord>)
      requires Valid() && FreshRecords(table, records)
      modifies this, cache
      ensures Valid() && table == InsertAll(old(table), records)
    {
      hide InsertAll;
      hide Touch;
      ghost var t := InsertAll(table, records);
      InsertAllAt(table, records);
      InsertNothing(table);
      for i := 0 to |records|
        invariant cache.Valid() && table == old(table)
        invariant Coherent(cache.cache, t)
      {
        cache.Put(CoinName(records[i].coin), records[i]);
      }
      for i := 0 to |records|
        invariant cache.Valid() && Coherent(cache.cache, t)
        invariant Filed(table) && table == InsertAll(old(table), records[..i])
      {
        InsertAllSnoc(old(table), records, i);
        table := table[CoinName(records[i].coin) := records[i]];
      }
      assert records[..|records|] == records;
    }

    method SetSpent(names: seq<CoinId>, index: nat)
      requires Valid()
      modifies this, cache
      ensures Valid() && table == SpendAll(old(table), names, index)
    {
      SetSpentInCache(names, index);
      for i := 0 to |names|
        invariant cache.Valid() && Coherent(cache.cache, SpendAll(old(table), names, index))
        invariant table == SpendAll(old(table), names[..i], index)
      {
        SpendAllStep(old(table), names, i, index);
        if names[i] in table {
          table := table[names[i] := Spend(table[names[i]], index)];
        }
      }
      assert names[..|names|] == names;
    }

    method SetSpentInCache(names: seq<CoinId>, index: nat)
      requires Valid()
      modifies cache
      ensures cache.Valid() && Coherent(cache.cache, SpendAll(table, names, index))
    {
      for i := 0 to |names|
        invariant cache.Valid() && table == old(table)
        invariant Coherent(cache.cache, SpendAll(table, names[..i], index))
      {
        SpendAllStep(table, names, i, index);
        ghost var t := SpendAll(table, names[..i], index);
        var r := cache.Get(names[i]);
        if r.Some? {
          assert names[i] in t && t[names[i]] == r.value;
          cache.Put(CoinName(r.value.coin), Spend(r.value, index));
        }
      }
      assert names[..|names|] == names;
    }

    /** The records of a block's coins, ordinary outputs first. */
    static method NewRecords(height: nat, timestamp: nat, rewards: set<Coin>, additions: seq<Coin>)
      returns (added: seq<CoinRecord>)
      requires Distinct(additions) && forall c :: c in additions ==> c !in rewards
      ensures forall r :: r in added <==>
        || (r.coin in additions && r == CoinRecord(r.coin, height, 0, false, false, timestamp))
        || (r.coin in rewards && r == CoinRecord(r.coin, height, 0, false, true, timestamp))
      ensures forall i, j :: 0 <= i < j < |added| ==> added[i].coin != added[j].coin
    {
      added := seq(|additions|, i requires 0 <= i < |additions| =>
        CoinRecord(additions[i], height, 0, false, false, timestamp));
      forall c | c in additions ensures CoinRecord(c, height, 0, false, false, timestamp) in added {
        var j :| 0 <= j < |additions| && additions[j] == c;
        assert added[j] == CoinRecord(c, height, 0, false, false, timestamp);
      }
      var rest := rewards;
      while rest != {}
        invariant rest <= rewards
        invariant forall r :: r in added <==>
          || (r.coin in additions && r == CoinRecord(r.coin, height, 0, false, false, timestamp))
          || (r.coin in rewards - rest && r == CoinRecord(r.coin, height, 0, false, true, timestamp))
        invariant forall i, j :: 0 <= i < j < |added| ==> added[i].coin != added[j].coin
        decreases rest
      {
        var c :| c in rest;
        forall i | 0 <= i < |added| ensures added[i].coin != c {
          assert added[i] in added;
        }
        rest := rest - {c};
        added := added + [CoinRecord(c, height, 0, false, true, timestamp)];
      }
    }

    /** Applying a block to the store is the reference step, and the cache stays coherent. */
    method NewBlock(height: nat, timestamp: nat, rewards: set<Coin>, additions: seq<Coin>, removals: seq<CoinId>,
                    ghost b: FullBlock)
      returns (added: seq<CoinRecord>)
      requires Valid()
      requires height == b.height && timestamp == Timestamp(b)
      requires rewards == (set c | c in Claims(b)) && additions == Additions(b) && removals == Removals(b)
      requires Distinct(Additions(b) + Claims(b)) && Created(b) !! table.Keys
      requires if height == 0 then |rewards| == 0 else |rewards| >= 2
      modifies this, cache
      ensures Valid() && table == ApplyBlock(old(table), b)
      ensures ExactlyCreated(b, added)
    {
      SplitClaims(Additions(b), Claims(b));
      added := NewRecords(height, timestamp, rewards, additions);
      assert FreshRecords(table, added) by {
        forall i | 0 <= i < |added| ensures CoinName(added[i].coin) !in table {
          assert added[i] in added;
          assert CoinName(added[i].coin) in Created(b);
        }
      }
      AddCoinRecords(added);
      SetSpent(removals, height);
      InsertIsCreation(old(table), b, added);
    }

    /** Rolls the table and the cache back; the returned records are those of the deleted coins only,
        because the second query runs after the delete with the same condition. */
    method RollbackToBlock(blockIndex: int) returns (changes: map<CoinId, CoinRecord>)
      requires Valid()
      modifies this, cache
      ensures Valid() && table == RollbackTable(old(table), blockIndex)
      ensures forall id :: id in changes <==> id in old(table) && old(table)[id].confirmed > blockIndex
      ensures forall id :: id in changes ==> changes[id] == old(table)[id].(confirmed := 0, timestamp := 0)
    {
      RollbackCache(blockIndex);
      changes := ForgetTimes(RowsAbove(table, blockIndex));
      table := DeleteAbove(table, blockIndex);
      changes := MarkUnspent(RowsAbove(table, blockIndex)) + changes;
      table := UnspendAbove(table, blockIndex);
      DeleteThenUnspend(old(table), blockIndex);
    }

    /** The pass over the cached records: no write evicts, because every key is present. */
    method RollbackCache(blockIndex: int)
      requires Valid()
      modifies cache
      ensures cache.Valid() && Coherent(cache.cache, RollbackTable(table, blockIndex))
      ensures cache.cache.Keys == set id | id in old(cache.cache) && old(cache.cache)[id].confirmed <= blockIndex
    {
      var deleteQueue := UnspendCached(blockIndex);
      hide Distinct;
      hide Without;
      ghost var updated := cache.cache;
      for i := 0 to |deleteQueue|
        invariant cache.Valid()
        invariant cache.cache.Keys == set id | id in updated && id !in deleteQueue[..i]
        invariant forall id :: id in cache.cache ==> cache.cache[id] == updated[id]
      {
        NotRepeated(deleteQueue, i);
        cache.Remove(deleteQueue[i]);
      }
      assert deleteQueue[..|deleteQueue|] == deleteQueue;
    }

    method UnspendCached(blockIndex: int) returns (deleteQueue: seq<CoinId>)
      requires Valid()
      modifies cache
      ensures cache.Valid() && cache.cache.Keys == old(cache.cache).Keys
      ensures forall id :: id in cache.cache ==> cache.cache[id] == RollbackRecord(old(cache.cache)[id], blockIndex)
      ensures Distinct(deleteQueue)
      ensures forall id :: id in deleteQueue <==> id in cache.cache && old(cache.cache)[id].confirmed > blockIndex
    {
      hide Distinct;
      hide Touch;
      var names, records := cache.order, cache.cache;
      DistinctEmpty<CoinId>();
      deleteQueue := [];
      for i := 0 to |names|
        invariant cache.Valid() && cache.cache.Keys == records.Keys
        invariant forall id :: id in records ==>
          cache.cache[id] == if id in names[..i] then RollbackRecord(records[id], blockIndex) else records[id]
        invariant Distinct(deleteQueue)
        invariant forall id :: id in deleteQueue <==> id in names[..i] && records[id].confirmed > blockIndex
      {
        NotRepeated(names, i);
        var r := records[names[i]];
        if r.spentIndex > blockIndex {
          cache.Put(CoinName(r.coin), r.(spentIndex := 0, spent := false));
        }
        if r.confirmed > blockIndex {
          DistinctSnoc(deleteQueue, names[i]);
          deleteQueue := deleteQueue + [names[i]];
        }
      }
      assert names[..|names|] == names;
    }
  }

  lemma SplitClaims(adds: seq<Coin>, claims: seq<Coin>)
    requires Distinct(adds + claims)
    ensures Distinct(adds)
    ensures forall c :: c in adds ==> c !in claims
  {
    assert forall i :: 0 <= i < |adds| ==> (adds + claims)[i] == adds[i];
    assert forall j :: 0 <= j < |claims| ==> (adds + claims)[|adds| + j] == claims[j];
  }

  /** Inserting the new records and then marking the removals is the reference step. */
  lemma InsertIsCreation(t: Table, b: FullBlock, records: seq<CoinRecord>)
    requires FreshRecords(t, records) && ExactlyCreated(b, records)
    ensures SpendAll(InsertAll(t, records), Removals(b), b.height) == ApplyBlock(t, b)
  {
    var t1 := InsertAll(t, records);
    InsertAllAt(t, records);
    CreatedKeys(b, records);
    forall id | id in t1 ensures t1[id] == InsertedEntry(t, b, id) {
      EntryIsInserted(t, b, records, id);
    }
    SpendIsEntry(t, b, t1);
  }

  ghost function InsertedEntry(t: Table, b: FullBlock, id: CoinId): CoinRecord
    requires id in t || IsCreated(b, id)
  {
    if IsCreated(b, id) then NewRecord(b, id) else t[id]
  }

  lemma EntryIsInserted(t: Table, b: FullBlock, records: seq<CoinRecord>, id: CoinId)
    requires FreshRecords(t, records) && ExactlyCreated(b, records) && (id in t || IsCreated(b, id))
    ensures id in InsertAll(t, records) && InsertAll(t, records)[id] == InsertedEntry(t, b, id)
  {
    InsertAllAt(t, records);
    if IsCreated(b, id) {
      assert NewRecord(b, id) in records;
      var i :| 0 <= i < |records| && records[i] == NewRecord(b, id);
      assert InsertAll(t, records)[CoinName(records[i].coin)] == records[i];
    }
  }

  lemma SpendIsEntry(t: Table, b: FullBlock, t1: Table)
    requires t1.Keys == t.Keys + Created(b)
    requires forall id :: id in t1 ==> t1[id] == InsertedEntry(t, b, id)
    ensures SpendAll(t1, Removals(b), b.height) == ApplyBlock(t, b)
  {
    var t2 := SpendAll(t1, Removals(b), b.height);
    forall id | id in t2 ensures t2[id] == EntryAfter(t, b, id) {
      assert t1[id] == InsertedEntry(t, b, id);
    }
  }

  lemma CreatedKeys(b: FullBlock, records: seq<CoinRecord>)
    requires ExactlyCreated(b, records)
    ensures (set r | r in records :: CoinName(r.coin)) == Created(b)
  {
    forall id | id in Created(b) ensures id in (set r | r in records :: CoinName(r.coin)) {
      assert NewRecord(b, id) in records;
    }
  }

  /** The returned list is not the list of all modified records: it misses a coin that survives the
      rollback but is unspent by it.  It is complete exactly when there is no such coin. */
  lemma RollbackReportIsComplete(t: Table, h: int)
    ensures ForgetTimes(RowsAbove(t, h)).Keys <= ModifiedIds(t, h)
    ensures ForgetTimes(RowsAbove(t, h)).Keys == ModifiedIds(t, h)
       <==> forall id :: id in t && t[id].confirmed <= h ==> t[id].spentIndex <= h
  {
    forall id | id in t && t[id].confirmed <= h
      ensures id in ModifiedIds(t, h) <==> t[id].spentIndex > h
    {
      assert RollbackTable(t, h)[id] == RollbackRecord(t[id], h);
    }
  }
}
