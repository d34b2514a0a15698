/** The mempool: four indexes over the same items, a running cost, and eviction by fee rate. */
module Mempools {
  import opened Primitives

  /** A pending transaction; coins are given by name.  `feePerCost` is the float to which fee / cost is rounded. */
  datatype Item = Item(
    name: Hash, fee: nat, cost: nat, feePerCost: real, additions: seq<Hash>, removals: seq<Hash>)

  /** The items of one fee rate in order of insertion. */
  datatype Bucket = Bucket(rate: real, items: seq<Item>)

  // ----- The order in which items are evicted -----

  ghost predicate ItemsOk(order: seq<Item>) {
    forall i :: 0 <= i < |order| ==> order[i].cost > 0
  }

  /** All items: by fee rate, then by insertion. */
  function Flatten(buckets: seq<Bucket>): seq<Item> {
    if buckets == [] then [] else buckets[0].items + Flatten(buckets[1..])
  }

  function Cost(order: seq<Item>): nat {
    if order == [] then 0 else order[0].cost + Cost(order[1..])
  }

  /** How many items must go, cheapest rate first, before `cost` fits. */
  function Evicted(order: seq<Item>, cost: nat, max: nat): (k: nat)
    ensures k <= |order|
  {
    if order == [] || Cost(order) + cost <= max then 0 else 1 + Evicted(order[1..], cost, max)
  }

  /** How many items at the front have the same or a lower rate. */
  function RatePosition(order: seq<Item>, it: Item): (p: nat)
    requires ItemsOk(order) && it.cost > 0
    ensures p <= |order|
  {
    if order == [] || it.feePerCost < order[0].feePerCost then 0 else 1 + RatePosition(order[1..], it)
  }

  /** Places the item behind everything of the same or a lower rate. */
  function InsertByRate(order: seq<Item>, it: Item): (r: seq<Item>)
    requires ItemsOk(order) && it.cost > 0
    ensures ItemsOk(r)
  {
    var p := RatePosition(order, it);
    order[..p] + [it] + order[p..]
  }

  ghost predicate SortedByRate(order: seq<Item>)
    requires ItemsOk(order)
  {
    forall i, j :: 0 <= i < j < |order| ==> order[i].feePerCost <= order[j].feePerCost
  }

  function IndexOf(order: seq<Item>, it: Item): (p: nat)
    requires it in order
    ensures p < |order| && order[p] == it
  {
    if order[0] == it then 0 else 1 + IndexOf(order[1..], it)
  }

  function RemoveItem(order: seq<Item>, it: Item): seq<Item>
    requires it in order
  {
    var p := IndexOf(order, it);
    order[..p] + order[p + 1..]
  }

  ghost predicate DistinctNames(order: seq<Item>) {
    forall i, j :: 0 <= i < j < |order| ==> order[i].name != order[j].name
  }

  // ----- Eviction removes the shortest prefix that makes room -----

  lemma {:induction false} CostSplit(order: seq<Item>, k: nat)
    requires k <= |order|
    ensures Cost(order) == Cost(order[..k]) + Cost(order[k..])
  {
    if k > 0 {
      CostSplit(order[1..], k - 1);
      assert order[1..][..k - 1] == order[..k][1..] && order[1..][k - 1..] == order[k..];
    } else {
      assert order[k..] == order;
    }
  }

  /** The evicted prefix makes room, and no shorter one does. */
  lemma {:induction false} EvictedIsShortest(order: seq<Item>, cost: nat, max: nat)
    requires cost <= max
    ensures Cost(order[Evicted(order, cost, max)..]) + cost <= max
    ensures forall j :: 0 <= j < Evicted(order, cost, max) ==> Cost(order[j..]) + cost > max
  {
    var k := Evicted(order, cost, max);
    if k > 0 {
      EvictedIsShortest(order[1..], cost, max);
      assert order[1..][k - 1..] == order[k..];
      forall j | 0 <= j < k ensures Cost(order[j..]) + cost > max {
        if j == 0 {
          assert order[0..] == order;
        } else {
          assert order[1..][j - 1..] == order[j..];
        }
      }
    } else {
      assert order[0..] == order;
    }
  }

  // ----- Insertion and removal in order -----

  lemma {:induction false} PositionSplits(order: seq<Item>, it: Item)
    requires ItemsOk(order) && SortedByRate(order) && it.cost > 0
    ensures forall i :: 0 <= i < RatePosition(order, it) ==> order[i].feePerCost <= it.feePerCost
    ensures forall i :: RatePosition(order, it) <= i < |order| ==> it.feePerCost < order[i].feePerCost
  {
    if order != [] && order[0].feePerCost <= it.feePerCost {
      PositionSplits(order[1..], it);
      assert forall i :: 0 < i < |order| ==> order[i] == order[1..][i - 1];
    }
  }

  lemma {:induction false} CostAppend(a: seq<Item>, b: seq<Item>)
    ensures Cost(a + b) == Cost(a) + Cost(b)
  {
    CostSplit(a + b, |a|);
    assert (a + b)[..|a|] == a && (a + b)[|a|..] == b;
  }

  lemma CostOne(it: Item)
    ensures Cost([it]) == it.cost
  {
    assert Cost([it][1..]) == 0;
  }

  /** A new item goes behind every item of its own or a lower rate and before the others. */
  lemma InsertKeepsOrder(order: seq<Item>, it: Item)
    requires ItemsOk(order) && SortedByRate(order) && it.cost > 0
    ensures SortedByRate(InsertByRate(order, it)) && InsertByRate(order, it)[RatePosition(order, it)] == it
    ensures forall i :: 0 <= i < RatePosition(order, it) ==>
      InsertByRate(order, it)[i] == order[i] && order[i].feePerCost <= it.feePerCost
    ensures forall i :: RatePosition(order, it) <= i < |order| ==>
      InsertByRate(order, it)[i + 1] == order[i] && it.feePerCost < order[i].feePerCost
  {
    PositionSplits(order, it);
    var p := RatePosition(order, it);
    hide RatePosition;
    var r := order[..p] + [it] + order[p..];
    forall i, j | 0 <= i < j < |r| ensures r[i].feePerCost <= r[j].feePerCost {
      assert j < p ==> order[i].feePerCost <= order[j].feePerCost;
      assert i > p ==> order[i - 1].feePerCost <= order[j - 1].feePerCost;
    }
  }

  lemma InsertedMembers<T>(s: seq<T>, p: nat, x: T)
    requires p <= |s|
    ensures forall y :: y in s[..p] + [x] + s[p..] <==> y in s || y == x
  {
    assert s == s[..p] + s[p..];
  }

  lemma InsertedDistinct(order: seq<Item>, p: nat, it: Item)
    requires p <= |order| && DistinctNames(order) && forall x :: x in order ==> x.name != it.name
    ensures DistinctNames(order[..p] + [it] + order[p..])
  {
    var r := order[..p] + [it] + order[p..];
    assert forall i :: 0 <= i < p ==> r[i] == order[i];
    assert forall i :: p < i < |r| ==> r[i] == order[i - 1];
  }

  /** Inserting an item with a new name adds exactly that item and its cost. */
  lemma InsertContents(order: seq<Item>, it: Item)
    requires ItemsOk(order) && SortedByRate(order) && it.cost > 0
    requires DistinctNames(order) && forall x :: x in order ==> x.name != it.name
    ensures Cost(InsertByRate(order, it)) == Cost(order) + it.cost
    ensures forall x :: x in InsertByRate(order, it) <==> x in order || x == it
    ensures DistinctNames(InsertByRate(order, it))
  {
    var p := RatePosition(order, it);
    assert InsertByRate(order, it) == order[..p] + [it] + order[p..];
    hide *;
    InsertedMembers(order, p, it);
    InsertedDistinct(order, p, it);
    CostSplit(order, p);
    CostAppend(order[..p] + [it], order[p..]);
    CostAppend(order[..p], [it]);
    CostOne(it);
  }

  lemma RemovedMembers(order: seq<Item>, p: nat)
    requires p < |order| && DistinctNames(order)
    ensures forall x :: x in order[..p] + order[p + 1..] <==> x in order && x != order[p]
  {
    var a, b := order[..p], order[p + 1..];
    assert order == a + [order[p]] + b;
    assert forall i :: 0 <= i < |b| ==> b[i] == order[p + 1 + i];
    assert order[p] !in a && order[p] !in b;
  }

  lemma RemovedDistinct(order: seq<Item>, p: nat)
    requires p < |order| && DistinctNames(order)
    ensures DistinctNames(order[..p] + order[p + 1..])
  {
    var r := order[..p] + order[p + 1..];
    assert forall i :: 0 <= i < |r| ==> r[i] == order[if i < p then i else i + 1];
  }

  /** Removing an item removes exactly that item and its cost. */
  lemma RemovedContents(order: seq<Item>, it: Item)
    requires it in order && DistinctNames(order)
    ensures Cost(order) == Cost(RemoveItem(order, it)) + it.cost
    ensures forall x :: x in RemoveItem(order, it) <==> x in order && x != it
    ensures DistinctNames(RemoveItem(order, it))
  {
    var p := IndexOf(order, it);
    assert RemoveItem(order, it) == order[..p] + order[p + 1..];
    hide *;
    RemovedMembers(order, p);
    RemovedDistinct(order, p);
    CostSplit(order, p);
    CostAppend([it], order[p + 1..]);
    CostAppend(order[..p], order[p + 1..]);
    CostOne(it);
    assert order[p..] == [it] + order[p + 1..];
  }

  // ----- Buckets -----

  ghost predicate BucketOk(b: Bucket) {
    b.items != [] && forall it :: it in b.items ==> it.cost > 0 && it.feePerCost == b.rate
  }

  /** Rates increase from bucket to bucket and no bucket is empty. */
  ghost predicate BucketsOk(buckets: seq<Bucket>) {
    && (forall b :: b in buckets ==> BucketOk(b))
    && forall i, j :: 0 <= i < j < |buckets| ==> buckets[i].rate < buckets[j].rate
  }

  lemma {:induction false} FlattenIs(buckets: seq<Bucket>, rate: real)
    requires BucketsOk(buckets) && forall b :: b in buckets ==> rate <= b.rate
    ensures ItemsOk(Flatten(buckets)) && SortedByRate(Flatten(buckets))
    ensures forall it :: it in Flatten(buckets) ==> rate <= it.feePerCost
    ensures buckets == [] <==> Flatten(buckets) == []
  {
    if buckets != [] {
      FlattenIs(buckets[1..], buckets[0].rate);
      assert BucketOk(buckets[0]);
      SortedConcat(buckets[0].items, Flatten(buckets[1..]), buckets[0].rate);
    }
  }

  lemma SortedConcat(a: seq<Item>, b: seq<Item>, rate: real)
    requires ItemsOk(b) && SortedByRate(b) && forall it :: it in b ==> rate <= it.feePerCost
    requires forall it :: it in a ==> it.cost > 0 && it.feePerCost == rate
    ensures ItemsOk(a + b) && SortedByRate(a + b)
    ensures forall it :: it in a + b ==> rate <= it.feePerCost
  {
  }

  /** Setting an entry in the sorted dictionary of dictionaries, creating its bucket if need be. */
  function InsertBucket(buckets: seq<Bucket>, it: Item): seq<Bucket>
    requires it.cost > 0
  {
    if buckets == [] || it.feePerCost < buckets[0].rate then [Bucket(it.feePerCost, [it])] + buckets
    else if buckets[0].rate == it.feePerCost then [Bucket(it.feePerCost, buckets[0].items + [it])] + buckets[1..]
    else [buckets[0]] + InsertBucket(buckets[1..], it)
  }

  /** Deleting an entry, and its bucket if that leaves it empty. */
  function RemoveBucket(buckets: seq<Bucket>, it: Item): seq<Bucket>
    requires it.cost > 0
  {
    if buckets == [] then []
    else if buckets[0].rate == it.feePerCost then
      var items := if it in buckets[0].items then RemoveItem(buckets[0].items, it) else buckets[0].items;
      (if items == [] then [] else [Bucket(buckets[0].rate, items)]) + buckets[1..]
    else [buckets[0]] + RemoveBucket(buckets[1..], it)
  }

  lemma {:induction false} PositionAppend(a: seq<Item>, b: seq<Item>, it: Item)
    requires ItemsOk(a) && ItemsOk(b) && ItemsOk(a + b) && it.cost > 0
    requires forall x :: x in a ==> x.feePerCost <= it.feePerCost
    ensures RatePosition(a + b, it) == |a| + RatePosition(b, it)
  {
    if a == [] {
      assert a + b == b;
    } else {
      assert (a + b)[1..] == a[1..] + b;
      PositionAppend(a[1..], b, it);
    }
  }

  lemma SliceAppend(a: seq<Item>, b: seq<Item>, q: nat)
    requires q <= |b|
    ensures (a + b)[..|a| + q] == a + b[..q] && (a + b)[|a| + q..] == b[q..]
  {
  }

  lemma SliceWithin(a: seq<Item>, b: seq<Item>, q: nat)
    requires q <= |a|
    ensures (a + b)[..q] == a[..q] && (a + b)[q..] == a[q..] + b
  {
  }

  lemma InsertAppend(a: seq<Item>, b: seq<Item>, it: Item)
    requires ItemsOk(a) && ItemsOk(b) && ItemsOk(a + b) && it.cost > 0
    requires forall x :: x in a ==> x.feePerCost <= it.feePerCost
    ensures InsertByRate(a + b, it) == a + InsertByRate(b, it)
  {
    PositionAppend(a, b, it);
    hide RatePosition;
    InsertAtAppend(a, b, RatePosition(b, it), it);
  }

  lemma InsertAtAppend(a: seq<Item>, b: seq<Item>, q: nat, it: Item)
    requires q <= |b|
    ensures (a + b)[..|a| + q] + [it] + (a + b)[|a| + q..] == a + (b[..q] + [it] + b[q..])
  {
    SliceAppend(a, b, q);
    assert (a + b[..q]) + [it] + b[q..] == a + (b[..q] + [it] + b[q..]);
  }

  lemma InsertFront(order: seq<Item>, it: Item)
    requires ItemsOk(order) && it.cost > 0 && (order != [] ==> it.feePerCost < order[0].feePerCost)
    ensures InsertByRate(order, it) == [it] + order
  {
    assert order[..0] + [it] + order[0..] == [it] + order;
  }

  /** The buckets hold the items in eviction order. */
  lemma {:induction false} InsertBucketOrder(buckets: seq<Bucket>, it: Item)
    requires BucketsOk(buckets) && it.cost > 0 && ItemsOk(Flatten(buckets))
    ensures Flatten(InsertBucket(buckets, it)) == InsertByRate(Flatten(buckets), it)
  {
    hide InsertByRate;
    if buckets == [] {
      InsertFront([], it);
    } else {
      var items, tail := buckets[0].items, buckets[1..];
      assert BucketOk(buckets[0]);
      FlattenIs(tail, buckets[0].rate);
      hide SortedByRate;
      if it.feePerCost < buckets[0].rate {
        InsertFront(Flatten(buckets), it);
        assert Flatten([Bucket(it.feePerCost, [it])] + buckets) == [it] + Flatten(buckets);
      } else {
        InsertAppend(items, Flatten(tail), it);
        if buckets[0].rate == it.feePerCost {
          FirstRate(tail, it.feePerCost);
          InsertFront(Flatten(tail), it);
          assert Flatten([Bucket(it.feePerCost, items + [it])] + tail) == (items + [it]) + Flatten(tail);
        } else {
          InsertBucketOrder(tail, it);
          assert Flatten([buckets[0]] + InsertBucket(tail, it)) == items + Flatten(InsertBucket(tail, it));
        }
      }
    }
  }

  lemma FirstRate(buckets: seq<Bucket>, rate: real)
    requires BucketsOk(buckets) && forall b :: b in buckets ==> rate < b.rate
    ensures Flatten(buckets) != [] ==> Flatten(buckets)[0].cost > 0 && rate < Flatten(buckets)[0].feePerCost
  {
    if buckets != [] {
      assert BucketOk(buckets[0]);
      assert Flatten(buckets)[0] == buckets[0].items[0];
    }
  }

  lemma {:induction false} InsertBucketOk(buckets: seq<Bucket>, it: Item, low: real)
    requires BucketsOk(buckets) && it.cost > 0 && (forall b :: b in buckets ==> low < b.rate) && low < it.feePerCost
    ensures BucketsOk(InsertBucket(buckets, it)) && forall b :: b in InsertBucket(buckets, it) ==> low < b.rate
  {
    if buckets == [] || it.feePerCost < buckets[0].rate {
      BucketsCons(Bucket(it.feePerCost, [it]), buckets);
    } else if buckets[0].rate == it.feePerCost {
      assert BucketOk(buckets[0]);
      BucketsCons(Bucket(it.feePerCost, buckets[0].items + [it]), buckets[1..]);
    } else {
      InsertBucketOk(buckets[1..], it, buckets[0].rate);
      BucketsCons(buckets[0], InsertBucket(buckets[1..], it));
    }
  }

  lemma BucketsCons(b: Bucket, buckets: seq<Bucket>)
    requires BucketOk(b) && BucketsOk(buckets) && forall x :: x in buckets ==> b.rate < x.rate
    ensures BucketsOk([b] + buckets)
  {
    hide BucketOk;
  }

  lemma {:induction false} IndexAppend(a: seq<Item>, b: seq<Item>, it: Item)
    requires it in a || it in b
    ensures IndexOf(a + b, it) == if it in a then IndexOf(a, it) else |a| + IndexOf(b, it)
  {
    if a == [] {
      assert a + b == b;
    } else if a[0] != it {
      assert (a + b)[1..] == a[1..] + b;
      IndexAppend(a[1..], b, it);
    }
  }

  lemma RemoveAtWithin(a: seq<Item>, b: seq<Item>, p: nat)
    requires p < |a|
    ensures (a + b)[..p] + (a + b)[p + 1..] == (a[..p] + a[p + 1..]) + b
  {
    SliceWithin(a, b, p);
    SliceWithin(a, b, p + 1);
    assert a[..p] + (a[p + 1..] + b) == (a[..p] + a[p + 1..]) + b;
  }

  lemma RemoveAtAppend(a: seq<Item>, b: seq<Item>, p: nat)
    requires p < |b|
    ensures (a + b)[..|a| + p] + (a + b)[|a| + p + 1..] == a + (b[..p] + b[p + 1..])
  {
    SliceAppend(a, b, p);
    SliceAppend(a, b, p + 1);
    assert (a + b[..p]) + b[p + 1..] == a + (b[..p] + b[p + 1..]);
  }

  lemma RemoveItemAppend(a: seq<Item>, b: seq<Item>, it: Item)
    requires it in a || it in b
    ensures RemoveItem(a + b, it) == if it in a then RemoveItem(a, it) + b else a + RemoveItem(b, it)
  {
    IndexAppend(a, b, it);
    hide IndexOf;
    if it in a {
      RemoveAtWithin(a, b, IndexOf(a, it));
    } else {
      RemoveAtAppend(a, b, IndexOf(b, it));
    }
  }

  /** An item is found in the bucket of its rate. */
  lemma ItemBucket(buckets: seq<Bucket>, it: Item)
    requires BucketsOk(buckets) && it.cost > 0 && it in Flatten(buckets)
    ensures buckets != []
    ensures buckets[0].rate == it.feePerCost ==> it in buckets[0].items
    ensures buckets[0].rate != it.feePerCost ==> it !in buckets[0].items && it in Flatten(buckets[1..])
  {
    assert BucketOk(buckets[0]);
    var tail := buckets[1..];
    if it !in buckets[0].items && tail != [] {
      FlattenIs(tail, tail[0].rate);
    }
  }

  lemma {:induction false} RemoveBucketOrder(buckets: seq<Bucket>, it: Item)
    requires BucketsOk(buckets) && it.cost > 0 && it in Flatten(buckets)
    ensures Flatten(RemoveBucket(buckets, it)) == RemoveItem(Flatten(buckets), it)
  {
    hide RemoveItem;
    ItemBucket(buckets, it);
    var items, tail := buckets[0].items, buckets[1..];
    RemoveItemAppend(items, Flatten(tail), it);
    if buckets[0].rate == it.feePerCost {
      var rest := RemoveItem(items, it);
      if rest == [] {
        assert [] + tail == tail && rest + Flatten(tail) == Flatten(tail);
      } else {
        assert Flatten([Bucket(buckets[0].rate, rest)] + tail) == rest + Flatten(tail);
      }
    } else {
      RemoveBucketOrder(tail, it);
      assert Flatten([buckets[0]] + RemoveBucket(tail, it)) == items + Flatten(RemoveBucket(tail, it));
    }
  }

  lemma {:induction false} RemoveBucketOk(buckets: seq<Bucket>, it: Item, low: real)
    requires BucketsOk(buckets) && it.cost > 0 && forall b :: b in buckets ==> low < b.rate
    ensures BucketsOk(RemoveBucket(buckets, it)) && forall b :: b in RemoveBucket(buckets, it) ==> low < b.rate
  {
    if buckets != [] {
      assert BucketOk(buckets[0]);
      var tail := buckets[1..];
      if buckets[0].rate == it.feePerCost {
        var items := if it in buckets[0].items then RemoveItem(buckets[0].items, it) else buckets[0].items;
        if items == [] {
          assert [] + tail == tail;
        } else {
          BucketsCons(Bucket(buckets[0].rate, items), tail);
        }
      } else {
        RemoveBucketOk(tail, it, buckets[0].rate);
        BucketsCons(buckets[0], RemoveBucket(tail, it));
      }
    }
  }

  // ----- Indexes by name and by coin -----

  function CoinsOf(it: Item, created: bool): seq<Hash> {
    if created then it.additions else it.removals
  }

  ghost predicate ItemOk(it: Item) {
    it.cost > 0 && Distinct(it.additions) && Distinct(it.removals)
  }

  /** The index holds the items under their names and nothing else. */
  ghost predicate NameIndexOk(m: map<Hash, Item>, order: seq<Item>) {
    && (forall k :: k in m ==> m[k] in order && m[k].name == k)
    && (forall it :: it in order ==> it.name in m && m[it.name] == it)
  }

  /** The index holds each item under the coins it creates, or under those it spends, and nothing else. */
  ghost predicate CoinIndexOk(m: map<Hash, Item>, order: seq<Item>, created: bool) {
    && (forall k :: k in m ==> m[k] in order && k in CoinsOf(m[k], created))
    && (forall it, k :: it in order && k in CoinsOf(it, created) ==> k in m && m[k] == it)
  }

  /** Deletes keys one by one; a missing key would raise. */
  method DeleteAll(m: map<Hash, Item>, keys: seq<Hash>) returns (r: map<Hash, Item>)
    requires Distinct(keys) && forall k :: k in keys ==> k in m
    ensures Deleted(m, keys, r)
  {
    r := m;
    for i := 0 to |keys|
      invariant forall k :: k in r <==> k in m && k !in keys[..i]
      invariant forall k :: k in r ==> r[k] == m[k]
    {
      assert keys[i] in r;
      r := r - {keys[i]};
      assert keys[..i + 1] == keys[..i] + [keys[i]];
    }
    assert keys[..|keys|] == keys;
  }

  method AssignAll(m: map<Hash, Item>, keys: seq<Hash>, it: Item) returns (r: map<Hash, Item>)
    ensures Assigned(m, keys, it, r)
  {
    r := m;
    for i := 0 to |keys|
      invariant forall k :: k in r <==> k in m || k in keys[..i]
      invariant forall k :: k in r ==> r[k] == if k in keys[..i] then it else m[k]
    {
      r := r[keys[i] := it];
      assert keys[..i + 1] == keys[..i] + [keys[i]];
    }
    assert keys[..|keys|] == keys;
  }

  lemma CoinIndexRemove(m: map<Hash, Item>, r: map<Hash, Item>, order: seq<Item>, rest: seq<Item>, it: Item, created: bool)
    requires CoinIndexOk(m, order, created) && it in order
    requires forall x :: x in rest <==> x in order && x != it
    requires Deleted(m, CoinsOf(it, created), r)
    ensures CoinIndexOk(r, rest, created)
  {
    hide CoinsOf;
    forall x, k | x in rest && k in CoinsOf(x, created) ensures k in r && r[k] == x {
      assert k in m && m[k] == x;
    }
    forall k | k in r ensures r[k] in rest && k in CoinsOf(r[k], created) {
      assert k in m && r[k] == m[k];
    }
  }

  lemma CoinIndexAdd(m: map<Hash, Item>, r: map<Hash, Item>, order: seq<Item>, more: seq<Item>, it: Item, created: bool)
    requires CoinIndexOk(m, order, created) && forall k :: k in CoinsOf(it, created) ==> k !in m
    requires forall x :: x in more <==> x in order || x == it
    requires Assigned(m, CoinsOf(it, created), it, r)
    ensures CoinIndexOk(r, more, created)
  {
    hide CoinsOf;
    forall x, k | x in more && k in CoinsOf(x, created) ensures k in r && r[k] == x {
      if x != it {
        assert k in m && m[k] == x;
      }
    }
    forall k | k in r ensures r[k] in more && k in CoinsOf(r[k], created) {
      if k !in CoinsOf(it, created) {
        assert k in m && r[k] == m[k];
      }
    }
  }

  // ----- The pool -----

  /** The indexes and the running cost describe the same items. */
  ghost predicate Agree(
    spends: map<Hash, Item>, buckets: seq<Bucket>, additions: map<Hash, Item>, removals: map<Hash, Item>, total: int)
  {
    var order := Flatten(buckets);
    && BucketsOk(buckets) && DistinctNames(order)
    && (forall it :: it in order ==> ItemOk(it))
    && NameIndexOk(spends, order)
    && CoinIndexOk(additions, order, true) && CoinIndexOk(removals, order, false)
    && total == Cost(order)
  }

  ghost function Below(buckets: seq<Bucket>): real {
    if buckets == [] then 0.0 else buckets[0].rate - 1.0
  }

  lemma BucketsAbove(buckets: seq<Bucket>)
    requires BucketsOk(buckets)
    ensures forall b :: b in buckets ==> Below(buckets) < b.rate
  {
  }

  ghost predicate Deleted(m: map<Hash, Item>, keys: seq<Hash>, r: map<Hash, Item>) {
    && (forall k :: k in r <==> k in m && k !in keys)
    && (forall k :: k in r ==> r[k] == m[k])
  }

  ghost predicate Assigned(m: map<Hash, Item>, keys: seq<Hash>, it: Item, r: map<Hash, Item>) {
    && (forall k :: k in r <==> k in m || k in keys)
    && (forall k :: k in r ==> r[k] == if k in keys then it else m[k])
  }

  lemma AgreeAfterRemoval(
    spends: map<Hash, Item>, buckets: seq<Bucket>, additions: map<Hash, Item>, removals: map<Hash, Item>, total: int,
    it: Item, a: map<Hash, Item>, r: map<Hash, Item>)
    requires Agree(spends, buckets, additions, removals, total) && it in Flatten(buckets) && it.cost > 0
    requires Deleted(additions, it.additions, a) && Deleted(removals, it.removals, r)
    ensures Agree(spends - {it.name}, RemoveBucket(buckets, it), a, r, total - it.cost)
    ensures Flatten(RemoveBucket(buckets, it)) == RemoveItem(Flatten(buckets), it)
    ensures total - it.cost >= 0
  {
    hide RemoveItem;
    hide BucketsOk;
    hide RemoveBucket;
    hide Flatten;
    hide Cost;
    hide CoinIndexOk;
    hide ItemOk;
    var order := Flatten(buckets);
    RemovedContents(order, it);
    RemoveBucketOrder(buckets, it);
    BucketsAbove(buckets);
    RemoveBucketOk(buckets, it, Below(buckets));
    var rest := RemoveItem(order, it);
    CoinIndexRemove(removals, r, order, rest, it, false);
    CoinIndexRemove(additions, a, order, rest, it, true);
    NameIndexRemove(spends, order, rest, it);
    hide NameIndexOk;
    hide DistinctNames;
  }

  lemma NameIndexRemove(m: map<Hash, Item>, order: seq<Item>, rest: seq<Item>, it: Item)
    requires NameIndexOk(m, order) && it in order && forall x :: x in rest <==> x in order && x != it
    ensures NameIndexOk(m - {it.name}, rest)
  {
  }

  lemma RemovableKeys(m: map<Hash, Item>, order: seq<Item>, it: Item, created: bool)
    requires CoinIndexOk(m, order, created) && it in order
    ensures forall k :: k in CoinsOf(it, created) ==> k in m
  {
  }

  /** A new item: its name and its coins are not in the pool yet. */
  ghost predicate IsNew(spends: map<Hash, Item>, additions: map<Hash, Item>, removals: map<Hash, Item>, it: Item) {
    && ItemOk(it) && it.name !in spends
    && (forall k :: k in it.additions ==> k !in additions)
    && (forall k :: k in it.removals ==> k !in removals)
  }

  lemma AgreeAfterInsertion(
    spends: map<Hash, Item>, buckets: seq<Bucket>, additions: map<Hash, Item>, removals: map<Hash, Item>, total: int,
    it: Item, a: map<Hash, Item>, r: map<Hash, Item>)
    requires Agree(spends, buckets, additions, removals, total) && IsNew(spends, additions, removals, it)
    requires Assigned(additions, it.additions, it, a) && Assigned(removals, it.removals, it, r)
    ensures Agree(spends[it.name := it], InsertBucket(buckets, it), a, r, total + it.cost)
    ensures ItemsOk(Flatten(buckets)) && Flatten(InsertBucket(buckets, it)) == InsertByRate(Flatten(buckets), it)
  {
    hide InsertByRate;
    hide InsertBucket;
    hide Flatten;
    hide Cost;
    hide CoinIndexOk;
    var order := Flatten(buckets);
    BucketsAbove(buckets);
    var low := if Below(buckets) < it.feePerCost then Below(buckets) else it.feePerCost - 1.0;
    FlattenIs(buckets, low);
    InsertBucketOk(buckets, it, low);
    InsertBucketOrder(buckets, it);
    hide BucketsOk;
    hide SortedByRate;
    NameFresh(spends, order, it);
    InsertContents(order, it);
    var more := InsertByRate(order, it);
    CoinIndexAdd(removals, r, order, more, it, false);
    CoinIndexAdd(additions, a, order, more, it, true);
    NameIndexAdd(spends, order, more, it);
    hide NameIndexOk;
    hide DistinctNames;
  }

  lemma NameFresh(m: map<Hash, Item>, order: seq<Item>, it: Item)
    requires NameIndexOk(m, order) && it.name !in m
    ensures forall x :: x in order ==> x.name != it.name
  {
  }

  lemma NameIndexAdd(m: map<Hash, Item>, order: seq<Item>, more: seq<Item>, it: Item)
    requires NameIndexOk(m, order) && it.name !in m && forall x :: x in more <==> x in order || x == it
    ensures NameIndexOk(m[it.name := it], more)
  {
  }

  /** The rate of the last item that eviction for this cost removes. */
  ghost predicate LastEvictedRate(order: seq<Item>, cost: nat, max: nat, rate: real) {
    var k := Evicted(order, cost, max);
    k > 0 && order[k - 1].cost > 0 && rate == order[k - 1].feePerCost
  }

  class Mempool {
    var spends: map<Hash, Item>
    var sortedSpends: seq<Bucket>
    var additions: map<Hash, Item>
    var removals: map<Hash, Item>
    const maxCost: nat
    var totalCost: int

    ghost function Order(): seq<Item>
      reads this
    {
      Flatten(sortedSpends)
    }

    ghost predicate Valid()
      reads this
    {
      Agree(spends, sortedSpends, additions, removals, totalCost) && totalCost <= maxCost
    }

    constructor (maxCost: nat)
      ensures Valid() && Order() == [] && this.maxCost == maxCost
    {
      spends, sortedSpends, additions, removals := map[], [], map[], map[];
      this.maxCost := maxCost;
      totalCost := 0;
    }

    predicate AtFullCapacity(cost: nat)
      reads this
    {
      totalCost + cost > maxCost
    }

    method RemoveFromPool(it: Item)
      requires Valid() && it in Order()
      modifies this
      ensures Valid() && Order() == RemoveItem(old(Order()), it)
      ensures spends.Keys <= old(spends.Keys)
      ensures additions.Keys <= old(additions.Keys) && removals.Keys <= old(removals.Keys)
    {
        hide RemoveItem;
      hide Flatten;
      hide Agree;
      hide RemoveBucket;
      hide Distinct;
      RemovableItem(spends, sortedSpends, additions, removals, totalCost, it);
      var r := DeleteAll(removals, it.removals);
      var a := DeleteAll(additions, it.additions);
      AgreeAfterRemoval(spends, sortedSpends, additions, removals, totalCost, it, a, r);
      removals := r;
      additions := a;
      spends := spends - {it.name};
      sortedSpends := RemoveBucket(sortedSpends, it);
      totalCost := totalCost - it.cost;
      assert totalCost >= 0;
    }

    /** Makes room by evicting the shortest prefix in order of fee rate and insertion, then files the
        item behind all items of its own or a lower rate. */
    method AddToPool(it: Item)
      requires Valid() && IsNew(spends, additions, removals, it) && it.cost <= maxCost
      modifies this
      ensures Valid()
      ensures var kept := old(Order())[Evicted(old(Order()), it.cost, maxCost)..];
        ItemsOk(kept) && Order() == InsertByRate(kept, it)
      ensures var before, k := old(Order()), Evicted(old(Order()), it.cost, maxCost);
        forall i, j :: 0 <= i < k <= j < |before| ==> before[i].feePerCost <= before[j].feePerCost
      ensures forall i, j :: 0 <= i < j < |Order()| ==> Order()[i].feePerCost <= Order()[j].feePerCost
    {
        hide Flatten;
      hide InsertByRate;
      hide RemoveItem;
      hide Evicted;
      hide Agree;
      ghost var order, i := Order(), 0;
      PoolIsSorted(spends, sortedSpends, additions, removals, totalCost);
      assert order[0..] == order;
      while AtFullCapacity(it.cost)
        invariant Valid() && IsNew(spends, additions, removals, it)
        invariant 0 <= i <= |order| && Order() == order[i..]
        invariant Evicted(order, it.cost, maxCost) == i + Evicted(Order(), it.cost, maxCost)
        decreases |order| - i
      {
        PoolFirst(spends, sortedSpends, additions, removals, totalCost, it.cost, maxCost);
        var first := sortedSpends[0].items[0];
        RemoveFromPool(first);
        i := i + 1;
      }
      PoolFits(spends, sortedSpends, additions, removals, totalCost, it.cost, maxCost);
      var a := AssignAll(additions, it.additions, it);
      var r := AssignAll(removals, it.removals, it);
      AgreeAfterInsertion(spends, sortedSpends, additions, removals, totalCost, it, a, r);
      spends := spends[it.name := it];
      sortedSpends := InsertBucket(sortedSpends, it);
      additions := a;
      removals := r;
      totalCost := totalCost + it.cost;
      PoolIsSorted(spends, sortedSpends, additions, removals, totalCost);
    }

    /** The rate that must be beaten: that of the last item to be evicted for a transaction of this
        cost.  None stands for the ValueError raised when it cannot fit at all. */
    method GetMinFeeRate(cost: nat) returns (rate: Option<real>)
      requires Valid()
      ensures totalCost + cost <= maxCost ==> rate == Some(0.0)
      ensures totalCost + cost > maxCost ==> (rate.None? <==> cost > maxCost)
      ensures totalCost + cost > maxCost && rate.Some? ==> LastEvictedRate(Order(), cost, maxCost, rate.value)
    {
        hide Agree;
      hide Flatten;
      hide Evicted;
      hide Scanned;
      hide Cost;
      hide BucketsOk;
      hide LastEvictedRate;
      if !AtFullCapacity(cost) {
        return Some(0.0);
      }
      var current := totalCost;
      ghost var order, n := Order(), 0;
      PoolShape(spends, sortedSpends, additions, removals, totalCost);
      ScanStarts(order, totalCost, cost, maxCost);
      assert sortedSpends[0..] == sortedSpends;
      for b := 0 to |sortedSpends|
        invariant n <= |order| && Scanned(order, n, current, cost, maxCost) && order[n..] == Flatten(sortedSpends[b..])
      {
        FlattenStep(sortedSpends, b);
        var fits, left, k := ScanItems(sortedSpends[b].items, current, cost, maxCost, order, n, Flatten(sortedSpends[b + 1..]));
        if fits {
          BucketRate(sortedSpends, b, k - 1 - n);
          RateFound(order, k, cost, maxCost, sortedSpends[b].rate);
          return Some(sortedSpends[b].rate);
        }
        current, n := left, k;
      }
      NothingLeft(sortedSpends, order, n, current, cost, maxCost);
      return None;
    }
  }

  /** The first `n` items have been taken off and the transaction still does not fit. */
  ghost predicate Scanned(order: seq<Item>, n: nat, current: int, cost: nat, max: nat) {
    && n <= |order| && current == Cost(order[n..])
    && forall j :: 0 <= j <= n ==> Cost(order[j..]) + cost > max
  }

  /** One bucket of the scan: `k` items are off after it. */
  method ScanItems(items: seq<Item>, current: int, cost: nat, max: nat, ghost order: seq<Item>, ghost n: nat, ghost rest: seq<Item>)
    returns (fits: bool, left: int, ghost k: nat)
    requires n <= |order| && Scanned(order, n, current, cost, max) && order[n..] == items + rest
    ensures n <= k <= |order|
    ensures !fits ==> Scanned(order, k, left, cost, max) && order[k..] == rest
    ensures fits ==>
      && n < k <= n + |items| && order[k - 1] == items[k - 1 - n]
      && Cost(order[k..]) + cost <= max
      && forall j :: 0 <= j < k ==> Cost(order[j..]) + cost > max
  {
    left, k := current, n;
    assert n <= |order|;
    hide Cost;
    assert items[0..] == items;
    for i := 0 to |items|
      invariant k == n + i && Scanned(order, k, left, cost, max) && order[k..] == items[i..] + rest
    {
      NextItem(order, k, items, i, rest);
      ScanStep(order, k, left, cost, max, left - items[i].cost);
      left := left - items[i].cost;
      k := k + 1;
      if left + cost <= max {
        return true, left, k;
      }
    }
    assert items[|items|..] + rest == rest;
    fits := false;
  }

  lemma ScanStarts(order: seq<Item>, total: int, cost: nat, max: nat)
    requires total == Cost(order) && total + cost > max
    ensures Scanned(order, 0, total, cost, max) && order[0..] == order
  {
    assert order[0..] == order;
  }

  lemma ScanStep(order: seq<Item>, n: nat, current: int, cost: nat, max: nat, left: int)
    requires Scanned(order, n, current, cost, max) && n < |order| && left == Cost(order[n + 1..])
    ensures left + cost > max ==> Scanned(order, n + 1, left, cost, max)
    ensures forall j :: 0 <= j < n + 1 ==> Cost(order[j..]) + cost > max
  {
  }

  lemma NothingLeft(buckets: seq<Bucket>, order: seq<Item>, n: nat, current: int, cost: nat, max: nat)
    requires Scanned(order, n, current, cost, max) && order[n..] == Flatten(buckets[|buckets|..])
    ensures cost > max
  {
  }

  lemma RateFound(order: seq<Item>, k: nat, cost: nat, max: nat, rate: real)
    requires 0 < k <= |order| && Cost(order[k..]) + cost <= max
    requires forall j :: 0 <= j < k ==> Cost(order[j..]) + cost > max
    requires order[k - 1].cost > 0 && rate == order[k - 1].feePerCost
    ensures cost <= max && LastEvictedRate(order, cost, max, rate)
  {
    EvictedIs(order, cost, max, k);
  }

  lemma PoolShape(
    spends: map<Hash, Item>, buckets: seq<Bucket>, additions: map<Hash, Item>, removals: map<Hash, Item>, total: int)
    requires Agree(spends, buckets, additions, removals, total)
    ensures BucketsOk(buckets) && total == Cost(Flatten(buckets))
  {
  }

  lemma FlattenStep(buckets: seq<Bucket>, b: nat)
    requires b < |buckets|
    ensures Flatten(buckets[b..]) == buckets[b].items + Flatten(buckets[b + 1..])
  {
    assert buckets[b..][1..] == buckets[b + 1..];
  }

  lemma NextItem(order: seq<Item>, n: nat, items: seq<Item>, i: nat, rest: seq<Item>)
    requires n <= |order| && i < |items| && order[n..] == items[i..] + rest
    ensures n < |order| && order[n] == items[i] && order[n + 1..] == items[i + 1..] + rest
    ensures Cost(order[n..]) == items[i].cost + Cost(order[n + 1..])
  {
    assert order[n] == order[n..][0];
    assert order[n..][1..] == order[n + 1..];
    assert items[i..][1..] == items[i + 1..];
    assert (items[i..] + rest)[1..] == items[i..][1..] + rest;
  }

  lemma BucketRate(buckets: seq<Bucket>, b: nat, i: nat)
    requires BucketsOk(buckets) && b < |buckets| && i < |buckets[b].items|
    ensures buckets[b].items[i].cost > 0 && buckets[b].items[i].feePerCost == buckets[b].rate
  {
    assert BucketOk(buckets[b]);
  }

  lemma {:induction false} EvictedIs(order: seq<Item>, cost: nat, max: nat, n: nat)
    requires n <= |order| && Cost(order[n..]) + cost <= max
    requires forall j :: 0 <= j < n ==> Cost(order[j..]) + cost > max
    ensures Evicted(order, cost, max) == n
  {
    if n == 0 {
      assert order[0..] == order;
    } else {
      assert order[0..] == order && order[1..][n - 1..] == order[n..];
      forall j | 0 <= j < n - 1 ensures Cost(order[1..][j..]) + cost > max {
        assert order[1..][j..] == order[j + 1..];
      }
      EvictedIs(order[1..], cost, max, n - 1);
    }
  }

  lemma PoolFirst(
    spends: map<Hash, Item>, buckets: seq<Bucket>, additions: map<Hash, Item>, removals: map<Hash, Item>, total: int,
    cost: nat, max: nat)
    requires Agree(spends, buckets, additions, removals, total) && total + cost > max && cost <= max
    ensures buckets != [] && buckets[0].items != [] && Flatten(buckets) != []
    ensures Flatten(buckets)[0] == buckets[0].items[0] && Flatten(buckets)[0] in Flatten(buckets)
    ensures RemoveItem(Flatten(buckets), Flatten(buckets)[0]) == Flatten(buckets)[1..]
    ensures Evicted(Flatten(buckets), cost, max) == 1 + Evicted(Flatten(buckets)[1..], cost, max)
  {
    assert Cost([]) == 0;
    assert BucketOk(buckets[0]);
    var order := Flatten(buckets);
    assert order[..0] + order[1..] == order[1..];
  }

  lemma PoolFits(
    spends: map<Hash, Item>, buckets: seq<Bucket>, additions: map<Hash, Item>, removals: map<Hash, Item>, total: int,
    cost: nat, max: nat)
    requires Agree(spends, buckets, additions, removals, total) && total + cost <= max
    ensures Evicted(Flatten(buckets), cost, max) == 0
  {
  }

  /** Who beats the minimum rate only displaces items of a strictly lower rate. */
  lemma DisplacesOnlyCheaper(order: seq<Item>, it: Item, max: nat, i: nat)
    requires ItemsOk(order) && SortedByRate(order) && it.cost > 0
    requires i < Evicted(order, it.cost, max)
    requires it.feePerCost > order[Evicted(order, it.cost, max) - 1].feePerCost
    ensures order[i].feePerCost < it.feePerCost
  {
  }

  /** The pool is ordered by fee per cost, lowest first. */
  lemma PoolIsSorted(
    spends: map<Hash, Item>, buckets: seq<Bucket>, additions: map<Hash, Item>, removals: map<Hash, Item>, total: int)
    requires Agree(spends, buckets, additions, removals, total)
    ensures forall i, j :: 0 <= i < j < |Flatten(buckets)| ==> Flatten(buckets)[i].feePerCost <= Flatten(buckets)[j].feePerCost
  {
    BucketsAbove(buckets);
    FlattenIs(buckets, Below(buckets));
  }

  // ----- Exact rates and their rounding -----

  /** The first item offers the higher fee / cost, compared exactly. */
  predicate PaysMore(a: Item, b: Item) {
    a.fee * b.cost > b.fee * a.cost
  }

  /** Rounding fee / cost to a float keeps the order of rates, though different rates may become equal. */
  ghost predicate RoundedInOrder(order: seq<Item>) {
    forall x, y :: x in order && y in order && !PaysMore(x, y) ==> x.feePerCost <= y.feePerCost
  }

  /** An evicted item pays no more than any that is kept, exactly if that holds among items of one float: only items
      whose rates round to the same float can be evicted in the wrong order. */
  lemma EvictionIsFair(order: seq<Item>, cost: nat, max: nat)
    requires ItemsOk(order) && SortedByRate(order) && RoundedInOrder(order)
    ensures var k := Evicted(order, cost, max);
      (forall i, j :: 0 <= i < k <= j < |order| ==> !PaysMore(order[i], order[j])) <==>
      (forall i, j :: 0 <= i < k <= j < |order| && order[i].feePerCost == order[j].feePerCost ==> !PaysMore(order[i], order[j]))
  {
    hide Evicted;
    var k := Evicted(order, cost, max);
    forall i, j | 0 <= i < k <= j < |order| && PaysMore(order[i], order[j])
      ensures order[i].feePerCost == order[j].feePerCost
    {
      assert !PaysMore(order[j], order[i]);
    }
  }

  /** Two rates that differ in the sixteenth digit become the same float, 2^53. */
  function Better(): Item {
    Item(1, 9_007_199_254_740_993, 1, 9_007_199_254_740_992.0, [], [])
  }

  function Worse(): Item {
    Item(2, 9_007_199_254_740_992, 1, 9_007_199_254_740_992.0, [], [])
  }

  /** Added in this order to a pool with room for two, the better one is evicted for a third. */
  lemma BetterIsEvicted() returns (order: seq<Item>)
    ensures order == InsertByRate(InsertByRate([], Better()), Worse()) && ItemsOk(order) && RoundedInOrder(order)
    ensures Evicted(order, 1, 2) == 1 && order[0] == Better() && order[1] == Worse() && PaysMore(order[0], order[1])
  {
    var a, b := Better(), Worse();
    assert InsertByRate([], a) == [a];
    assert [a][1..] == [];
    assert RatePosition([a], b) == 1;
    order := [a, b];
    assert order == InsertByRate([a], b);
    assert order[1..] == [b] && [b][1..] == [];
    assert Cost([b]) == 1 && Cost(order) == 2;
  }

  /** Who beats the minimum rate displaces only items that pay strictly less, compared exactly. */
  lemma DisplacesLowerPaying(order: seq<Item>, it: Item, max: nat, i: nat)
    requires ItemsOk(order) && SortedByRate(order) && it.cost > 0 && RoundedInOrder(order + [it])
    requires i < Evicted(order, it.cost, max)
    requires it.feePerCost > order[Evicted(order, it.cost, max) - 1].feePerCost
    ensures PaysMore(it, order[i])
  {
    DisplacesOnlyCheaper(order, it, max, i);
    assert (order + [it])[i] == order[i] && (order + [it])[|order|] == it;
  }

  lemma RemovableItem(
    spends: map<Hash, Item>, buckets: seq<Bucket>, additions: map<Hash, Item>, removals: map<Hash, Item>, total: int, it: Item)
    requires Agree(spends, buckets, additions, removals, total) && it in Flatten(buckets)
    ensures ItemOk(it)
    ensures (forall k :: k in it.additions ==> k in additions) && (forall k :: k in it.removals ==> k in removals)
  {
    RemovableKeys(removals, Flatten(buckets), it, false);
    RemovableKeys(additions, Flatten(buckets), it, true);
  }
}
