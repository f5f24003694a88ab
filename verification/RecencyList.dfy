/** The bounded recency list that `LRUCache` refines, and what it holds over whole runs. */
module RecencyList {
  import opened Common

  datatype Entry<K, V> = Entry(key: K, value: V)

  function Find<K(==), V>(es: seq<Entry<K, V>>, k: K): (i: nat)
    ensures i <= |es|
    ensures i < |es| ==> es[i].key == k
    ensures forall j :: 0 <= j < i ==> es[j].key != k
  {
    if es == [] then 0 else if es[0].key == k then 0 else 1 + Find(es[1..], k)
  }

  predicate Has<K(==), V>(es: seq<Entry<K, V>>, k: K) {
    Find(es, k) < |es|
  }

  function Without<K(==), V>(es: seq<Entry<K, V>>, k: K): seq<Entry<K, V>> {
    var i := Find(es, k);
    if i < |es| then RemoveAt(es, i) else es
  }

  function Take<T>(s: seq<T>, n: nat): seq<T> {
    if |s| <= n then s else s[..n]
  }

  function RemoveAt<T>(s: seq<T>, i: nat): (r: seq<T>)
    requires i < |s|
    ensures |r| == |s| - 1
    ensures forall k :: 0 <= k < |r| ==> r[k] == if k < i then s[k] else s[k + 1]
  {
    s[..i] + s[i + 1..]
  }

  ghost predicate Distinct<T>(s: seq<T>) {
    forall i, j :: 0 <= i < j < |s| ==> s[i] != s[j]
  }

  lemma MovedElements<T>(s: seq<T>, i: nat)
    requires i < |s|
    ensures forall x :: x in [s[i]] + RemoveAt(s, i) ==> x in s
  {
  }

  lemma StillDistinct<T>(s: seq<T>, i: nat)
    requires i < |s| && Distinct(s)
    ensures Distinct(RemoveAt(s, i)) && s[i] !in RemoveAt(s, i)
  {
  }

  lemma AlreadyFirst<T>(s: seq<T>)
    requires s != []
    ensures [s[0]] + RemoveAt(s, 0) == s
  {
  }

  /** Looking a key up makes it the most recent; a missing key changes nothing. */
  function AfterGet<K(==), V>(es: seq<Entry<K, V>>, k: K): seq<Entry<K, V>> {
    if Has(es, k) then [es[Find(es, k)]] + Without(es, k) else es
  }

  /** Storing a key makes it the most recent; only the `capacity` most recent stay. */
  function AfterSet<K(==), V>(es: seq<Entry<K, V>>, capacity: nat, k: K, v: V): seq<Entry<K, V>> {
    Take([Entry(k, v)] + Without(es, k), capacity)
  }

  // ---- Whole runs --------------------------------------------------------------------

  datatype Op<K, V> = Get(key: K) | Set(key: K, value: V)

  function Apply<K(==), V>(es: seq<Entry<K, V>>, capacity: nat, op: Op<K, V>): seq<Entry<K, V>> {
    match op
    case Get(k) => AfterGet(es, k)
    case Set(k, v) => AfterSet(es, capacity, k, v)
  }

  /** The recency list after a run that starts from an empty cache. */
  function After<K(==), V>(ops: seq<Op<K, V>>, capacity: nat): seq<Entry<K, V>> {
    if ops == [] then []
    else
      var n := |ops| - 1;
      Apply(After(ops[..n], capacity), capacity, ops[n])
  }

  /** The last operation of a run that used `k`: a store, or a lookup that found it. */
  function LastUse<K(==), V>(ops: seq<Op<K, V>>, capacity: nat, k: K): (i: int)
    ensures -1 <= i < |ops|
  {
    if ops == [] then -1
    else
      var n := |ops| - 1;
      if ops[n].key == k && (ops[n].Set? || Has(After(ops[..n], capacity), k)) then n
      else LastUse(ops[..n], capacity, k)
  }

  /** The value most recently stored under `k`. */
  function LastStored<K(==), V>(ops: seq<Op<K, V>>, k: K): Option<V> {
    if ops == [] then None
    else
      var n := |ops| - 1;
      if ops[n].Set? && ops[n].key == k then Some(ops[n].value) else LastStored(ops[..n], k)
  }

  // The ranking of keys by last use, and what one use does to a ranked list.

  ghost predicate Ranked<K, V>(es: seq<Entry<K, V>>, rank: K -> int) {
    && (forall i, j :: 0 <= i < j < |es| ==> rank(es[j].key) < rank(es[i].key))
    && (forall i :: 0 <= i < |es| ==> 0 <= rank(es[i].key))
  }

  /** A used key that is gone was used before everything the full cache holds. */
  ghost predicate FairlyEvicted<K, V>(es: seq<Entry<K, V>>, rank: K -> int, capacity: nat, k: K) {
    0 <= rank(k) && !Has(es, k) ==> |es| == capacity && forall i :: 0 <= i < |es| ==> rank(k) < rank(es[i].key)
  }

  ghost predicate Stores<K, V>(es: seq<Entry<K, V>>, stored: K -> Option<V>) {
    forall i :: 0 <= i < |es| ==> stored(es[i].key) == Some(es[i].value)
  }

  /** Every entry but the used one keeps its place in the order. */
  lemma OthersInOrder<K, V>(es: seq<Entry<K, V>>, k: K, rank: K -> int)
    requires Ranked(es, rank)
    ensures var f, rest := Find(es, k), Without(es, k);
            && |rest| == (if f < |es| then |es| - 1 else |es|)
            && forall i :: 0 <= i < |rest| ==> rest[i] == es[if i < f then i else i + 1] && rest[i].key != k
  {
  }

  lemma PushRanked<K, V>(e: Entry<K, V>, rest: seq<Entry<K, V>>, capacity: nat, rank: K -> int, rank': K -> int)
    requires Ranked(rest, rank) && 0 <= rank'(e.key)
    requires forall i :: 0 <= i < |rest| ==> rank'(rest[i].key) == rank(rest[i].key) < rank'(e.key)
    ensures Ranked(Take([e] + rest, capacity), rank')
  {
  }

  lemma RestRanked<K, V>(es: seq<Entry<K, V>>, k: K, rank: K -> int)
    requires Ranked(es, rank)
    ensures Ranked(Without(es, k), rank)
  {
  }

  /** The entry pushed out is the last one, and only when the list is full and the used key is new. */
  lemma PushEvictsLast<K, V>(es: seq<Entry<K, V>>, e: Entry<K, V>, capacity: nat, rank: K -> int, k: K)
    requires Ranked(es, rank) && |es| <= capacity && k != e.key
    requires Has(es, k) && !Has(Take([e] + Without(es, e.key), capacity), k)
    ensures |es| == capacity && Find(es, k) == |es| - 1 && !Has(es, e.key)
  {
    OthersInOrder(es, e.key, rank);
    var all := [e] + Without(es, e.key);
    var g, f := Find(es, k), Find(es, e.key);
    var at := if g < f then g + 1 else g;
    assert all[at].key == k;
    assert at >= capacity by {
      var kept := Take(all, capacity);
      assert forall i :: 0 <= i < |kept| ==> kept[i] == all[i];
    }
  }

  lemma UseKeepsFairness<K, V>(es: seq<Entry<K, V>>, e: Entry<K, V>, capacity: nat,
                               rank: K -> int, rank': K -> int, k: K)
    requires Ranked(es, rank) && |es| <= capacity && FairlyEvicted(es, rank, capacity, k)
    requires forall i :: 0 <= i < |es| && es[i].key != e.key ==> rank'(es[i].key) == rank(es[i].key)
    requires k != e.key && rank'(k) == rank(k) < rank'(e.key)
    ensures FairlyEvicted(Take([e] + Without(es, e.key), capacity), rank', capacity, k)
  {
    OthersInOrder(es, e.key, rank);
    var rest := Without(es, e.key);
    var kept := Take([e] + rest, capacity);
    if 0 <= rank(k) && !Has(kept, k) {
      if Has(es, k) {
        PushEvictsLast(es, e, capacity, rank, k);
      }
      forall i | 0 <= i < |kept|
        ensures rank'(k) < rank'(kept[i].key)
      {
        if i > 0 {
          assert kept[i] == rest[i - 1];
        }
      }
    }
  }

  lemma UseKeepsValues<K, V>(es: seq<Entry<K, V>>, e: Entry<K, V>, capacity: nat,
                             rank: K -> int, stored: K -> Option<V>, stored': K -> Option<V>)
    requires Ranked(es, rank) && Stores(es, stored) && stored'(e.key) == Some(e.value)
    requires forall i :: 0 <= i < |es| && es[i].key != e.key ==> stored'(es[i].key) == stored(es[i].key)
    ensures Stores(Take([e] + Without(es, e.key), capacity), stored')
  {
  }

  ghost predicate MostRecent<K, V>(es: seq<Entry<K, V>>, ops: seq<Op<K, V>>, capacity: nat, k: K) {
    && |es| <= capacity
    && Ranked(es, x => LastUse(ops, capacity, x))
    && Stores(es, x => LastStored(ops, x))
    && FairlyEvicted(es, x => LastUse(ops, capacity, x), capacity, k)
  }

  /** A lookup that misses changes neither the list nor anybody's last use. */
  lemma MissStep<K, V>(ops: seq<Op<K, V>>, capacity: nat, k: K)
    requires ops != []
    requires var n := |ops| - 1;
             && MostRecent(After(ops[..n], capacity), ops[..n], capacity, k)
             && ops[n].Get? && !Has(After(ops[..n], capacity), ops[n].key)
    ensures MostRecent(After(ops, capacity), ops, capacity, k)
  {
    var n := |ops| - 1;
    var es := After(ops[..n], capacity);
    assert After(ops, capacity) == es;
    var rank, rank' := x => LastUse(ops[..n], capacity, x), x => LastUse(ops, capacity, x);
    assert forall i :: 0 <= i < |es| ==> rank'(es[i].key) == rank(es[i].key);
    assert rank'(k) == rank(k);
    assert Ranked(es, rank') && FairlyEvicted(es, rank', capacity, k);
  }

  /** The entry a use puts in front. */
  function Used<K(==), V>(es: seq<Entry<K, V>>, op: Op<K, V>): (e: Entry<K, V>)
    requires op.Set? || Has(es, op.key)
    ensures e.key == op.key
  {
    if op.Set? then Entry(op.key, op.value) else es[Find(es, op.key)]
  }

  lemma ListAfterUse<K, V>(es: seq<Entry<K, V>>, capacity: nat, op: Op<K, V>)
    requires |es| <= capacity && (op.Set? || Has(es, op.key))
    ensures Apply(es, capacity, op) == Take([Used(es, op)] + Without(es, op.key), capacity)
  {
  }

  /** When the used key becomes the last one used, the list stays ranked and fair. */
  lemma UseKeepsRanks<K, V>(es: seq<Entry<K, V>>, e: Entry<K, V>, capacity: nat,
                            rank: K -> int, rank': K -> int, k: K)
    requires Ranked(es, rank) && |es| <= capacity && FairlyEvicted(es, rank, capacity, k)
    requires forall i :: 0 <= i < |es| ==> rank(es[i].key) < rank'(e.key)
    requires forall i :: 0 <= i < |es| && es[i].key != e.key ==> rank'(es[i].key) == rank(es[i].key)
    requires 0 <= rank'(e.key) && (k != e.key ==> rank'(k) == rank(k) < rank'(e.key))
    ensures var kept := Take([e] + Without(es, e.key), capacity);
            |kept| <= capacity && Ranked(kept, rank') && FairlyEvicted(kept, rank', capacity, k)
  {
    OthersInOrder(es, e.key, rank);
    RestRanked(es, e.key, rank);
    PushRanked(e, Without(es, e.key), capacity, rank, rank');
    if k != e.key {
      UseKeepsFairness(es, e, capacity, rank, rank', k);
    } else {
      UsedIsPresent(es, e, capacity, rank', k);
    }
  }

  lemma UseStep<K, V>(ops: seq<Op<K, V>>, capacity: nat, k: K)
    requires ops != []
    requires var n := |ops| - 1;
             && MostRecent(After(ops[..n], capacity), ops[..n], capacity, k)
             && (ops[n].Set? || Has(After(ops[..n], capacity), ops[n].key))
    ensures MostRecent(After(ops, capacity), ops, capacity, k)
  {
    var n := |ops| - 1;
    var before, used := After(ops[..n], capacity), ops[n].key;
    var e := Used(before, ops[n]);
    ListAfterUse(before, capacity, ops[n]);
    var rank, rank' := x => LastUse(ops[..n], capacity, x), x => LastUse(ops, capacity, x);
    var stored, stored' := x => LastStored(ops[..n], x), x => LastStored(ops, x);
    UseKeepsValues(before, e, capacity, rank, stored, stored');
    UseKeepsRanks(before, e, capacity, rank, rank', k);
  }

  lemma UsedIsPresent<K, V>(es: seq<Entry<K, V>>, e: Entry<K, V>, capacity: nat, rank: K -> int, k: K)
    requires k == e.key
    ensures FairlyEvicted(Take([e] + Without(es, e.key), capacity), rank, capacity, k)
  {
  }

  /** Over every run the cache holds, most recent first and with their last stored values, exactly
      the most recently used keys, and never more than `capacity`. */
  lemma {:induction false} CacheHoldsMostRecent<K, V>(ops: seq<Op<K, V>>, capacity: nat, k: K)
    ensures MostRecent(After(ops, capacity), ops, capacity, k)
    decreases |ops|
  {
    if ops == [] {
    } else {
      var n := |ops| - 1;
      CacheHoldsMostRecent(ops[..n], capacity, k);
      if ops[n].Set? || Has(After(ops[..n], capacity), ops[n].key) {
        UseStep(ops, capacity, k);
      } else {
        MissStep(ops, capacity, k);
      }
    }
  }
}
