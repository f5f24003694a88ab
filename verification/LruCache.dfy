/** `LRUCache` of boto.utils: a dictionary whose items are also hand-linked into a list, most
    recently used first, with the last item evicted when the dictionary grows past its capacity. */
module LruCache {
  import opened Common
  import opened RecencyList

  class Item<K, V> {
    var previous: Item?<K, V>
    var next: Item?<K, V>
    const key: K
    var value: V

    constructor (key: K, value: V)
      ensures this.key == key && this.value == value && previous == null && next == null
    {
      this.key, this.value := key, value;
      previous, next := null, null;
    }
  }

  class LRUCache<K(==), V> {
    var dict: map<K, Item<K, V>>
    const capacity: nat
    var head: Item?<K, V>
    var tail: Item?<K, V>
    ghost var order: seq<Item<K, V>>  // the items, most recently used first

    /** `order` is the list spelled by `head` and `next`, mirrored by `previous` from `tail`. */
    ghost predicate Linked()
      reads `head, `tail, `order, order
    {
      && Distinct(order)
      && head == (if order == [] then null else order[0])
      && tail == (if order == [] then null else order[|order| - 1])
      && (forall i {:trigger order[i].previous} :: 0 <= i < |order| ==>
            order[i].previous == if i == 0 then null else order[i - 1])
      && (forall i {:trigger order[i].next} :: 0 <= i < |order| ==>
            order[i].next == if i == |order| - 1 then null else order[i + 1])
    }

    /** The dictionary holds exactly the listed items, each under its own key. */
    static ghost predicate IndexOf(dict: map<K, Item<K, V>>, order: seq<Item<K, V>>) {
      && |dict| == |order|
      && (forall i :: 0 <= i < |order| ==> order[i].key in dict && dict[order[i].key] == order[i])
      && (forall k <- dict :: dict[k] in order && dict[k].key == k)
    }

    ghost predicate Indexed()
      reads `dict, `order
    {
      IndexOf(dict, order)
    }

    static lemma IndexMoved(dict: map<K, Item<K, V>>, before: seq<Item<K, V>>, i: nat, after: seq<Item<K, V>>)
      requires IndexOf(dict, before) && i < |before| && after == [before[i]] + RemoveAt(before, i)
      ensures IndexOf(dict, after)
    {
    }

    static lemma IndexInserted(dict: map<K, Item<K, V>>, order: seq<Item<K, V>>, item: Item<K, V>)
      requires IndexOf(dict, order) && item.key !in dict
      ensures IndexOf(dict[item.key := item], [item] + order)
    {
    }

    static lemma IndexEvicted(dict: map<K, Item<K, V>>, order: seq<Item<K, V>>)
      requires IndexOf(dict, order) && order != []
      requires Distinct(order)
      ensures var n := |order| - 1; IndexOf(dict - {order[n].key}, order[..n])
    {
    }

    ghost predicate Valid()
      reads this, order
    {
      Linked() && Indexed() && |order| <= capacity
    }

    static ghost function Contents(items: seq<Item<K, V>>): (es: seq<Entry<K, V>>)
      reads items
      ensures |es| == |items|
    {
      seq(|items|, i requires 0 <= i < |items| reads items => Entry(items[i].key, items[i].value))
    }

    ghost function Entries(): seq<Entry<K, V>>
      reads `order, order
    {
      Contents(order)
    }

    constructor (capacity: nat)
      ensures Valid() && Entries() == [] && order == [] && this.capacity == capacity
    {
      dict := map[];
      this.capacity := capacity;
      head, tail := null, null;
      order := [];
    }

    lemma Position(k: K)
      requires Linked() && Indexed()
      ensures Has(Entries(), k) <==> k in dict
      ensures k in dict ==> order[Find(Entries(), k)] == dict[k]
    {
      var es := Entries();
      if k in dict {
        var i :| 0 <= i < |order| && order[i] == dict[k];
        assert es[i].key == k;
        assert Find(es, k) <= i;
        assert order[Find(es, k)].key == k;
      }
    }

    method Contains(key: K) returns (r: bool)
      requires Valid()
      ensures r <==> Has(Entries(), key)
    {
      Position(key);
      r := key in dict;
    }

    method Len() returns (n: nat)
      requires Valid()
      ensures n == |Entries()| <= capacity
    {
      n := |dict|;
    }

    /** `__iter__`: follow `next` from `head`. */
    method Iter() returns (keys: seq<K>)
      requires Valid()
      ensures |keys| == |Entries()|
      ensures forall i :: 0 <= i < |keys| ==> keys[i] == Entries()[i].key
    {
      keys := [];
      var cur := head;
      while cur != null
        invariant |keys| <= |order|
        invariant cur == (if |keys| == |order| then null else order[|keys|])
        invariant forall i :: 0 <= i < |keys| ==> keys[i] == order[i].key
        decreases |order| - |keys|
      {
        keys := keys + [cur.key];
        cur := cur.next;
      }
    }

    /** `__getitem__`; `None` stands for the KeyError of a missing key. */
    method GetItem(key: K) returns (r: Option<V>)
      requires Valid()
      modifies this, order
      ensures Valid()
      ensures r == (if Has(old(Entries()), key) then Some(old(Entries())[Find(old(Entries()), key)].value) else None)
      ensures Entries() == AfterGet(old(Entries()), key)
      ensures forall x <- order :: x in old(order)
    {
      Position(key);
      if key !in dict {
        return None;
      }
      var item := dict[key];
      ghost var i := Find(Entries(), key);
      assert Entries()[i].value == item.value;
      r := Some(item.value);
      MovedElements(order, i);
      UpdateItem(item, i);
    }

    /** `__setitem__`. */
    method SetItem(key: K, value: V)
      requires Valid()
      modifies this, order
      ensures Valid()
      ensures Entries() == AfterSet(old(Entries()), capacity, key, value)
      ensures forall x <- order :: x in old(order) || fresh(x)
    {
      Position(key);
      if key !in dict {
        ghost var es := Entries();
        var item := new Item(key, value);
        IndexInserted(dict, order, item);
        dict := dict[key := item];
        assert Entries() == es;
        InsertItem(item);
      } else {
        ReplaceItem(dict[key], value, Find(Entries(), key));
      }
    }

    /** The branch of `__setitem__` for a key that is present. */
    method ReplaceItem(item: Item<K, V>, value: V, ghost i: nat)
      requires Valid() && i < |order| && order[i] == item && Find(Entries(), item.key) == i
      modifies this, order
      ensures Valid()
      ensures Entries() == AfterSet(old(Entries()), capacity, item.key, value)
      ensures forall x <- order :: x in old(order)
    {
      ghost var es := Entries();
      item.value := value;
      assert Entries() == es[i := Entry(item.key, value)];
      ghost var es1 := Entries();
      MovedElements(order, i);
      UpdateItem(item, i);
      assert RemoveAt(es1, i) == RemoveAt(es, i);
      ManageSize();
    }

    /** `_insert_item`: link a new item in at the front, then evict. */
    method InsertItem(item: Item<K, V>)
      requires Linked() && item !in order && IndexOf(dict, [item] + order)
      modifies this, order, item
      ensures Valid()
      ensures Entries() == Take([Entry(item.key, old(item.value))] + old(Entries()), capacity)
      ensures forall x <- order :: x in old(order) || x == item
    {
      LinkFirst(item);
      ManageSize();
    }

    /** Links an item in at the front. */
    method LinkFirst(item: Item<K, V>)
      requires Linked() && item !in order
      modifies this`head, this`tail, this`order, order, item
      ensures Linked() && order == [item] + old(order)
      ensures Entries() == [Entry(item.key, old(item.value))] + old(Entries())
    {
      item.previous := null;
      item.next := head;
      if head != null {
        head.previous := item;
      } else {
        tail := item;
      }
      head := item;
      order := [item] + order;
    }

    /** `_manage_size`: drop items from the tail until the capacity is met. */
    method ManageSize()
      requires Linked() && Indexed()
      modifies this, order
      ensures Valid()
      ensures Entries() == Take(old(Entries()), capacity)
      ensures forall x <- order :: x in old(order)
    {
      ghost var es := Entries();
      while |dict| > capacity
        invariant Linked() && Indexed()
        invariant forall x <- order :: x in old(order)
        invariant |order| <= |es| && Entries() == es[..|order|]
        invariant |order| >= capacity || |order| == |es|
        decreases |dict|
      {
        ghost var n := |order| - 1;
        assert es[..n + 1][..n] == es[..n];
        EvictTail();
      }
    }

    /** One round of the eviction loop. */
    method EvictTail()
      requires Linked() && Indexed() && order != []
      modifies this, order
      ensures Linked() && Indexed()
      ensures order == old(order)[..|old(order)| - 1]
      ensures Entries() == old(Entries())[..|old(order)| - 1]
      ensures forall x <- order :: x in old(order)
    {
      IndexEvicted(dict, order);
      dict := dict - {tail.key};
      UnlinkLast();
    }

    /** Takes the tail out of the list. */
    method UnlinkLast()
      requires Linked() && order != []
      modifies this`head, this`tail, this`order, order
      ensures Linked()
      ensures order == old(order)[..|old(order)| - 1]
      ensures Entries() == old(Entries())[..|old(order)| - 1]
    {
      if tail != head {
        assert tail == order[|order| - 1];
        tail := tail.previous;
        tail.next := null;
      } else {
        head, tail := null, null;
      }
      order := order[..|order| - 1];
    }

    /** `_update_item`: unlink an item and link it in at the front, unless it is there already. */
    method UpdateItem(item: Item<K, V>, ghost i: nat)
      requires Linked() && Indexed() && i < |order| && order[i] == item
      modifies this, order
      ensures Linked() && Indexed()
      ensures order == [item] + RemoveAt(old(order), i)
      ensures Entries() == [old(Entries())[i]] + RemoveAt(old(Entries()), i)
    {
      ghost var before := order;
      MoveFirst(item, i);
      IndexMoved(dict, before, i, order);
    }

    /** The links of `_update_item`. */
    method MoveFirst(item: Item<K, V>, ghost i: nat)
      requires Linked() && i < |order| && order[i] == item
      modifies this`head, this`tail, this`order, order
      ensures Linked()
      ensures order == [item] + RemoveAt(old(order), i)
      ensures Entries() == [old(Entries())[i]] + RemoveAt(old(Entries()), i)
    {
      if head == item {
        AlreadyFirst(order);
        AlreadyFirst(Entries());
      } else {
        Unlink(item, i);
        LinkFirst(item);
      }
    }

    /** Takes an item that is not the head out of the list. */
    method Unlink(item: Item<K, V>, ghost i: nat)
      requires Linked() && 0 < i < |order| && order[i] == item
      modifies this`tail, this`order, order
      ensures Linked() && order == RemoveAt(old(order), i)
      ensures Entries() == RemoveAt(old(Entries()), i)
      ensures item !in order && item.value == old(item.value)
    {
      StillDistinct(order, i);
      assert order[i].previous == order[i - 1];
      var previous := item.previous;
      previous.next := item.next;
      if item.next != null {
        item.next.previous := previous;
      } else {
        tail := previous;
      }
      order := RemoveAt(order, i);
    }
  }

  /** A whole run on a new cache. */
  method Drive<K(==), V>(ops: seq<Op<K, V>>, capacity: nat) returns (cache: LRUCache<K, V>)
    ensures fresh(cache) && cache.Valid() && cache.capacity == capacity
    ensures cache.Entries() == After(ops, capacity)
  {
    cache := new LRUCache(capacity);
    for i := 0 to |ops|
      invariant fresh(cache) && cache.Valid() && cache.capacity == capacity
      invariant forall x <- cache.order :: fresh(x)
      invariant cache.Entries() == After(ops[..i], capacity)
    {
      assert ops[..i + 1][..i] == ops[..i];
      match ops[i]
      case Get(k) => var _ := cache.GetItem(k);
      case Set(k, v) => cache.SetItem(k, v);
    }
    assert ops[..|ops|] == ops;
  }
}
