/** The LRU cache as the server keeps it: a list of nodes whose identity is
    stable (an iterator of the C++ list) and an index from key to node. */
module LruCache {
  import opened Options
  import opened Recency

  class Node<K, V> {
    const key: K
    var value: V

    constructor (key: K, value: V)
      ensures this.key == key && this.value == value
    {
      this.key := key;
      this.value := value;
    }
  }

  ghost function Entries<K, V>(list: seq<Node<K, V>>): (r: seq<Entry<K, V>>)
    reads list
    ensures |r| == |list|
  {
    if list == [] then [] else [Entry(list[0].key, list[0].value)] + Entries(list[1..])
  }

  /** The list after erasing the element an iterator points at. */
  function Erase<K, V>(list: seq<Node<K, V>>, node: Node<K, V>): seq<Node<K, V>> {
    if list == [] then []
    else if list[0] == node then list[1..]
    else [list[0]] + Erase(list[1..], node)
  }

  /** The index that belongs to a list. */
  ghost function IndexOf<K, V>(list: seq<Node<K, V>>): map<K, Node<K, V>> {
    if list == [] then map[] else IndexOf(list[1..])[list[0].key := list[0]]
  }

  ghost predicate NoKeyTwice<K, V>(list: seq<Node<K, V>>) {
    list == [] || (list[0].key !in IndexOf(list[1..]) && NoKeyTwice(list[1..]))
  }

  /** List and index denote the same duplicate-free key set, within capacity. */
  ghost predicate Linked<K, V>(list: seq<Node<K, V>>, index: map<K, Node<K, V>>, capacity: nat) {
    1 <= capacity && |list| <= capacity && NoKeyTwice(list) && index == IndexOf(list)
  }

  lemma {:induction false} IndexHolds<K, V>(list: seq<Node<K, V>>, k: K)
    requires NoKeyTwice(list)
    ensures k in IndexOf(list) <==> k in Keys(Entries(list))
    ensures k in IndexOf(list) ==>
              var n := IndexOf(list)[k];
              n in list && n.key == k && Find(Entries(list), k) == Some(n.value)
  {
    if list != [] {
      IndexHolds(list[1..], k);
      assert list == [list[0]] + list[1..];
      assert Entries(list)[1..] == Entries(list[1..]);
      assert Keys(Entries(list)) == [list[0].key] + Keys(Entries(list[1..]));
    }
  }

  lemma {:induction false} EntriesDistinct<K, V>(list: seq<Node<K, V>>)
    requires NoKeyTwice(list)
    ensures Distinct(Entries(list))
  {
    if list != [] {
      EntriesDistinct(list[1..]);
      IndexHolds(list[1..], list[0].key);
      var es, rest := Entries(list), Entries(list[1..]);
      forall i, j | 0 <= i < j < |es| ensures es[i].key != es[j].key {
        assert es[j] == rest[j - 1] && Keys(rest)[j - 1] == rest[j - 1].key;
      }
    }
  }

  lemma EntriesIndexed<K, V>(list: seq<Node<K, V>>)
    requires NoKeyTwice(list)
    ensures forall e :: e in Entries(list) ==> e.key in IndexOf(list)
  {
    var es := Entries(list);
    forall e | e in es ensures e.key in IndexOf(list) {
      IndexHolds(list, e.key);
      var i :| 0 <= i < |es| && es[i] == e;
      assert Keys(es)[i] == e.key;
    }
  }

  lemma {:induction false} MemberIsIndexed<K, V>(list: seq<Node<K, V>>, n: Node<K, V>)
    requires NoKeyTwice(list) && n in list
    ensures n.key in IndexOf(list) && IndexOf(list)[n.key] == n
  {
    if list[0] != n {
      MemberIsIndexed(list[1..], n);
    }
  }

  /** What the first entry's key costs when it is dropped. */
  lemma DropHead<K, V>(list: seq<Node<K, V>>)
    requires NoKeyTwice(list) && list != []
    ensures Drop(Entries(list), list[0].key) == Entries(list[1..])
  {
    IndexHolds(list[1..], list[0].key);
    EntriesDistinct(list[1..]);
    DropLength(Entries(list[1..]), list[0].key);
    assert Entries(list)[1..] == Entries(list[1..]);
  }

  lemma {:induction false} ErasedEntries<K, V>(list: seq<Node<K, V>>, node: Node<K, V>)
    requires NoKeyTwice(list) && node in list
    ensures Entries(Erase(list, node)) == Drop(Entries(list), node.key)
  {
    if list[0] == node {
      DropHead(list);
    } else {
      MemberIsIndexed(list[1..], node);
      ErasedEntries(list[1..], node);
      assert Entries(list)[1..] == Entries(list[1..]);
      assert Erase(list, node)[1..] == Erase(list[1..], node);
    }
  }

  lemma {:induction false} ErasedMembers<K, V>(list: seq<Node<K, V>>, node: Node<K, V>)
    ensures forall n :: n in Erase(list, node) ==> n in list
  {
    if list != [] {
      ErasedMembers(list[1..], node);
      assert list == [list[0]] + list[1..];
    }
  }

  lemma {:induction false} ErasedIndex<K, V>(list: seq<Node<K, V>>, node: Node<K, V>)
    requires NoKeyTwice(list) && node in list
    ensures NoKeyTwice(Erase(list, node)) && |Erase(list, node)| == |list| - 1
    ensures IndexOf(Erase(list, node)) == IndexOf(list) - {node.key}
  {
    if list[0] != node {
      MemberIsIndexed(list[1..], node);
      ErasedIndex(list[1..], node);
      assert Erase(list, node)[1..] == Erase(list[1..], node);
    }
  }

  /** Erasing one node from list and index leaves them linked. */
  lemma Erased<K, V>(list: seq<Node<K, V>>, node: Node<K, V>)
    requires NoKeyTwice(list) && node in list
    ensures NoKeyTwice(Erase(list, node)) && |Erase(list, node)| == |list| - 1
    ensures IndexOf(Erase(list, node)) == IndexOf(list) - {node.key}
    ensures Entries(Erase(list, node)) == Drop(Entries(list), node.key)
    ensures forall n :: n in Erase(list, node) ==> n in list
  {
    ErasedIndex(list, node);
    ErasedEntries(list, node);
    ErasedMembers(list, node);
  }

  /** Pushing a node whose key is new leaves list and index linked. */
  lemma Pushed<K, V>(list: seq<Node<K, V>>, node: Node<K, V>)
    requires NoKeyTwice(list) && node.key !in IndexOf(list)
    ensures NoKeyTwice([node] + list)
    ensures IndexOf([node] + list) == IndexOf(list)[node.key := node]
    ensures Entries([node] + list) == [Entry(node.key, node.value)] + Entries(list)
  {
    assert ([node] + list)[1..] == list;
  }

  /** The splice: a node leaves its place and becomes the first, keeping its identity. */
  lemma Spliced<K, V>(list: seq<Node<K, V>>, node: Node<K, V>)
    requires NoKeyTwice(list) && node in list
    ensures NoKeyTwice([node] + Erase(list, node)) && |Erase(list, node)| == |list| - 1
    ensures IndexOf([node] + Erase(list, node)) == IndexOf(list)
    ensures Entries([node] + Erase(list, node)) == Promote(Entries(list), node.key, node.value)
    ensures forall n :: n in [node] + Erase(list, node) ==> n in list
  {
    Erased(list, node);
    Pushed(Erase(list, node), node);
    MemberIsIndexed(list, node);
    assert (IndexOf(list) - {node.key})[node.key := node] == IndexOf(list);
  }

  lemma {:induction false} EraseLast<K, V>(list: seq<Node<K, V>>)
    requires NoKeyTwice(list) && list != []
    ensures Erase(list, list[|list| - 1]) == list[..|list| - 1]
    ensures Entries(list[..|list| - 1]) == Entries(list)[..|list| - 1]
  {
    if |list| > 1 {
      var last, rest := list[|list| - 1], list[1..];
      assert last == rest[|rest| - 1];
      MemberIsIndexed(rest, last);
      EraseLast(rest);
      assert list[..|list| - 1][1..] == rest[..|rest| - 1];
      assert Entries(list)[1..] == Entries(rest);
    }
  }

  /** Dropping k gives the same list whatever value k had. */
  lemma {:induction false} DropIgnoresValues<K, V>(a: seq<Entry<K, V>>, b: seq<Entry<K, V>>, k: K)
    requires |a| == |b|
    requires forall i :: 0 <= i < |a| ==> a[i].key == b[i].key && (a[i].key != k ==> a[i] == b[i])
    ensures Drop(a, k) == Drop(b, k)
  {
    if a != [] {
      DropIgnoresValues(a[1..], b[1..], k);
    }
  }

  lemma {:induction false} EntryAt<K, V>(list: seq<Node<K, V>>, i: nat)
    requires i < |list|
    ensures Entries(list)[i] == Entry(list[i].key, list[i].value)
  {
    if i > 0 {
      EntryAt(list[1..], i - 1);
    }
  }

  lemma {:induction false} IndexSize<K, V>(list: seq<Node<K, V>>)
    requires NoKeyTwice(list)
    ensures |IndexOf(list)| == |list|
  {
    if list != [] {
      IndexSize(list[1..]);
      assert IndexOf(list).Keys == IndexOf(list[1..]).Keys + {list[0].key};
    }
  }

  class LRUCache<K(==), V> {
    const capacity: nat
    var list: seq<Node<K, V>>
    var index: map<K, Node<K, V>>
    var hits: nat
    var misses: nat
    var evictions: nat

    ghost predicate Valid()
      reads this
    {
      Linked(list, index, capacity)
    }

    ghost function Contents(): seq<Entry<K, V>>
      reads this, list
    {
      Entries(list)
    }

    constructor (capacity: nat)
      requires capacity >= 1
      ensures Valid() && Contents() == [] && this.capacity == capacity && list == []
    {
      this.capacity := capacity;
      list, index, hits, misses, evictions := [], map[], 0, 0, 0;
    }

    method Get(key: K) returns (r: Option<V>)
      requires Valid()
      modifies this
      ensures Valid() && (forall n :: n in list ==> n in old(list)) && (r.None? ==> list == old(list))
      ensures r == Find(old(Contents()), key)
      ensures Contents() == Step(old(Contents()), capacity, Op.Get(key))
      ensures hits == old(hits) + (if r.Some? then 1 else 0)
      ensures misses == old(misses) + (if r.None? then 1 else 0)
      ensures evictions == old(evictions)
    {
      IndexHolds(list, key);
      if key !in index {
        misses := misses + 1;
        return None;
      }
      hits := hits + 1;
      var node := index[key];
      Spliced(list, node);
      list := [node] + Erase(list, node);
      return Some(node.value);
    }

    method Put(key: K, value: V)
      requires Valid()
      modifies this, list
      ensures Valid() && forall n :: n in list && n !in old(list) ==> fresh(n)
      ensures Contents() == Step(old(Contents()), capacity, Op.Put(key, value))
      ensures hits == old(hits) && misses == old(misses)
      ensures evictions == old(evictions) + (if key !in old(index) && |old(list)| == capacity then 1 else 0)
    {
      IndexHolds(list, key);
      if key in index {
        Replace(key, value);
        return;
      }
      if |list| >= capacity {
        Evict();
      }
      PushFront(key, value);
    }

    /** The branch of Put that inserts. */
    method PushFront(key: K, value: V)
      requires Valid() && key !in index && |list| < capacity
      modifies this`list, this`index
      ensures Valid() && |list| > 0 && list[1..] == old(list) && fresh(list[0])
      ensures Contents() == [Entry(key, value)] + old(Contents())
    {
      ghost var rest := Contents();
      var node := new Node(key, value);
      assert Contents() == rest;
      Pushed(list, node);
      list := [node] + list;
      index := index[key := node];
    }

    /** The branch of Put that makes room. */
    method Evict()
      requires Valid() && list != []
      modifies this
      ensures Linked(list, index, capacity) && list == old(list)[..|old(list)| - 1]
      ensures index == old(index) - {old(list)[|old(list)| - 1].key}
      ensures Contents() == old(Contents())[..|old(list)| - 1]
      ensures hits == old(hits) && misses == old(misses) && evictions == old(evictions) + 1
    {
      var last := list[|list| - 1];
      EraseLast(list);
      Erased(list, last);
      index := index - {last.key};
      list := list[..|list| - 1];
      evictions := evictions + 1;
    }

    /** The branch of Put that finds the key: new value in the same node, then the splice. */
    method Replace(key: K, value: V)
      requires Valid() && key in index
      modifies this`list, list
      ensures Valid() && forall n :: n in list ==> n in old(list)
      ensures Contents() == Promote(old(Contents()), key, value)
    {
      IndexHolds(list, key);
      ghost var before := Contents();
      var node := index[key];
      forall i | 0 <= i < |list| ensures list[i].key == key ==> list[i] == node {
        MemberIsIndexed(list, list[i]);
      }
      forall i | 0 <= i < |list| ensures before[i] == Entry(list[i].key, list[i].value) {
        EntryAt(list, i);
      }
      node.value := value;
      forall i | 0 <= i < |list| ensures Contents()[i] == Entry(list[i].key, list[i].value) {
        EntryAt(list, i);
      }
      DropIgnoresValues(before, Contents(), key);
      Spliced(list, node);
      list := [node] + Erase(list, node);
    }

    method Invalidate(key: K)
      requires Valid()
      modifies this
      ensures Valid() && forall n :: n in list ==> n in old(list)
      ensures Contents() == Step(old(Contents()), capacity, Op.Invalidate(key))
      ensures hits == old(hits) && misses == old(misses) && evictions == old(evictions)
    {
      IndexHolds(list, key);
      EntriesDistinct(list);
      DropLength(Contents(), key);
      if key in index {
        EraseIndexed(key);
      }
    }

    /** Erases while iterating, in whatever order the hash table yields its keys. */
    method InvalidateIf(p: K -> bool) returns (removed: nat)
      requires Valid()
      modifies this
      ensures Valid() && forall n :: n in list ==> n in old(list)
      ensures Contents() == Step(old(Contents()), capacity, Op.InvalidateIf(p))
      ensures removed == |old(Contents())| - |Contents()|
      ensures hits == old(hits) && misses == old(misses) && evictions == old(evictions)
    {
      removed := 0;
      ghost var before := Contents();
      var todo := index.Keys;
      NoneDoomedYet(list, p);
      while todo != {}
        invariant Valid() && forall n :: n in list ==> n in old(list)
        invariant Contents() == Without(before, Doomed(p, todo))
        invariant |list| + removed == |before|
        invariant todo <= index.Keys
        invariant hits == old(hits) && misses == old(misses) && evictions == old(evictions)
        decreases |todo|
      {
        var k :| k in todo;
        DoomedNext(before, p, todo, k);
        var n := Visit(k, p);
        removed := removed + n;
        todo := todo - {k};
      }
      AllDoomed(before, p, todo, capacity);
    }

    method Visit(k: K, p: K -> bool) returns (n: nat)
      requires Valid() && k in index
      modifies this`list, this`index
      ensures Valid() && |list| == |old(list)| - n && forall n :: n in list ==> n in old(list)
      ensures index.Keys >= old(index).Keys - {k}
      ensures Contents() == if p(k) then Drop(old(Contents()), k) else old(Contents())
    {
      n := 0;
      if p(k) {
        EraseIndexed(k);
        n := 1;
      }
    }

    method EraseIndexed(k: K)
      requires Valid() && k in index
      modifies this`list, this`index
      ensures Valid() && |list| == |old(list)| - 1 && forall n :: n in list ==> n in old(list)
      ensures index.Keys == old(index).Keys - {k}
      ensures Contents() == Drop(old(Contents()), k)
    {
      var node := index[k];
      IndexHolds(list, k);
      Erased(list, node);
      list := Erase(list, node);
      index := index - {k};
    }

    method Clear()
      requires Valid()
      modifies this
      ensures Valid() && list == [] && Contents() == Step(old(Contents()), capacity, Op.Clear)
      ensures hits == old(hits) && misses == old(misses) && evictions == old(evictions)
    {
      list, index := [], map[];
    }

    method Size() returns (n: nat)
      requires Valid()
      ensures n == |Contents()| <= capacity
    {
      IndexSize(list);
      n := |index|;
    }
  }

  /** The keys the iteration has already met and found matching. */
  ghost function Doomed<K>(p: K -> bool, todo: set<K>): K -> bool {
    k => p(k) && k !in todo
  }

  lemma NoneDoomedYet<K, V>(list: seq<Node<K, V>>, p: K -> bool)
    requires NoKeyTwice(list)
    ensures Without(Entries(list), Doomed(p, IndexOf(list).Keys)) == Entries(list)
  {
    EntriesIndexed(list);
    WithoutNothing(Entries(list), Doomed(p, IndexOf(list).Keys));
  }

  lemma AllDoomed<K, V>(es: seq<Entry<K, V>>, p: K -> bool, todo: set<K>, capacity: nat)
    requires todo == {}
    ensures Without(es, Doomed(p, todo)) == Step(es, capacity, Op.InvalidateIf(p))
  {
    WithoutSame(es, Doomed(p, todo), p);
  }

  lemma DoomedNext<K, V>(es: seq<Entry<K, V>>, p: K -> bool, todo: set<K>, k: K)
    requires k in todo
    ensures Without(es, Doomed(p, todo - {k})) ==
            if p(k) then Drop(Without(es, Doomed(p, todo)), k) else Without(es, Doomed(p, todo))
  {
    if p(k) {
      WithoutTwice(es, Doomed(p, todo), x => x == k, Doomed(p, todo - {k}));
    } else {
      WithoutSame(es, Doomed(p, todo), Doomed(p, todo - {k}));
    }
  }

  lemma {:induction false} WithoutNothing<K, V>(es: seq<Entry<K, V>>, p: K -> bool)
    requires forall e :: e in es ==> !p(e.key)
    ensures Without(es, p) == es
  {
    if es != [] {
      WithoutNothing(es[1..], p);
    }
  }

  lemma {:induction false} WithoutSame<K, V>(es: seq<Entry<K, V>>, p: K -> bool, q: K -> bool)
    requires forall k :: p(k) <==> q(k)
    ensures Without(es, p) == Without(es, q)
  {
    if es != [] {
      WithoutSame(es[1..], p, q);
    }
  }

  lemma {:induction false} WithoutTwice<K, V>(es: seq<Entry<K, V>>, p: K -> bool, q: K -> bool, r: K -> bool)
    requires forall k :: r(k) <==> p(k) || q(k)
    ensures Without(Without(es, p), q) == Without(es, r)
  {
    if es != [] {
      WithoutTwice(es[1..], p, q, r);
    }
  }
}
