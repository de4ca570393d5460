/** What the LRU cache means: a recency list of entries, most recent first,
    and the laws every trace of operations obeys. */
module Recency {
  import opened Options

  datatype Entry<K, V> = Entry(key: K, value: V)

  datatype Op<!K, V> = Get(k: K) | Put(k: K, v: V) | Invalidate(k: K) | InvalidateIf(p: K -> bool) | Clear

  function Keys<K, V>(es: seq<Entry<K, V>>): (ks: seq<K>)
    ensures |ks| == |es| && forall i :: 0 <= i < |es| ==> ks[i] == es[i].key
  {
    seq(|es|, i requires 0 <= i < |es| => es[i].key)
  }

  ghost predicate Distinct<K, V>(es: seq<Entry<K, V>>) {
    forall i, j :: 0 <= i < j < |es| ==> es[i].key != es[j].key
  }

  /** The entries whose key p does not match, in their order. */
  function Without<K, V>(es: seq<Entry<K, V>>, p: K -> bool): (r: seq<Entry<K, V>>)
    ensures |r| <= |es|
  {
    if es == [] then []
    else if p(es[0].key) then Without(es[1..], p)
    else [es[0]] + Without(es[1..], p)
  }

  function Drop<K(==), V>(es: seq<Entry<K, V>>, k: K): seq<Entry<K, V>> {
    Without(es, x => x == k)
  }

  function Find<K(==), V>(es: seq<Entry<K, V>>, k: K): (r: Option<V>)
    ensures r.None? <==> k !in Keys(es)
    ensures r.Some? ==> Entry(k, r.value) in es
  {
    if es == [] then None
    else if es[0].key == k then Some(es[0].value)
    else
      assert es == [es[0]] + es[1..];
      assert forall i :: 1 <= i < |es| ==> Keys(es)[i] == Keys(es[1..])[i - 1];
      Find(es[1..], k)
  }

  /** Moves k to the front with value v. */
  function Promote<K(==), V>(es: seq<Entry<K, V>>, k: K, v: V): seq<Entry<K, V>> {
    [Entry(k, v)] + Drop(es, k)
  }

  /** The list after the least recent entry has made room, when it must. */
  function Evicted<K, V>(es: seq<Entry<K, V>>, capacity: nat): seq<Entry<K, V>> {
    if 0 < |es| && capacity <= |es| then es[..|es| - 1] else es
  }

  function Step<K(==), V>(es: seq<Entry<K, V>>, capacity: nat, op: Op<K, V>): seq<Entry<K, V>> {
    match op
    case Get(k) =>
      var hit := Find(es, k);
      if hit.Some? then Promote(es, k, hit.value) else es
    case Put(k, v) =>
      if k in Keys(es) then Promote(es, k, v) else [Entry(k, v)] + Evicted(es, capacity)
    case Invalidate(k) => Drop(es, k)
    case InvalidateIf(p) => Without(es, p)
    case Clear => []
  }

  function Run<K(==), V>(es: seq<Entry<K, V>>, capacity: nat, ops: seq<Op<K, V>>): seq<Entry<K, V>> {
    if ops == [] then es
    else Step(Run(es, capacity, ops[..|ops| - 1]), capacity, ops[|ops| - 1])
  }

  lemma {:induction false} WithoutMembers<K, V>(es: seq<Entry<K, V>>, p: K -> bool)
    ensures forall i :: 0 <= i < |Without(es, p)| ==> Without(es, p)[i] in es && !p(Without(es, p)[i].key)
  {
    if es != [] {
      WithoutMembers(es[1..], p);
      assert es == [es[0]] + es[1..];
    }
  }

  /** What is found after a removal: nothing under a key that p matches, the rest as before. */
  lemma {:induction false} FindWithout<K, V>(es: seq<Entry<K, V>>, p: K -> bool, k: K)
    ensures Find(Without(es, p), k) == if p(k) then None else Find(es, k)
  {
    if es != [] {
      FindWithout(es[1..], p, k);
      if !p(es[0].key) {
        assert Without(es, p)[1..] == Without(es[1..], p);
      }
    }
  }

  // ---- The list stays duplicate free and within capacity ----

  lemma {:induction false} WithoutDistinct<K, V>(es: seq<Entry<K, V>>, p: K -> bool)
    requires Distinct(es)
    ensures Distinct(Without(es, p))
  {
    if es != [] {
      WithoutDistinct(es[1..], p);
      WithoutMembers(es[1..], p);
      var rest := Without(es[1..], p);
      forall i | 0 <= i < |rest| ensures rest[i].key != es[0].key {
        assert rest[i] in es[1..];
      }
    }
  }

  /** Dropping a key that a duplicate-free list holds shortens it by one; else it changes nothing. */
  lemma {:induction false} DropLength<K, V>(es: seq<Entry<K, V>>, k: K)
    requires Distinct(es)
    ensures |Drop(es, k)| == if k in Keys(es) then |es| - 1 else |es|
    ensures k !in Keys(es) ==> Drop(es, k) == es
  {
    if es != [] {
      DropLength(es[1..], k);
      assert es == [es[0]] + es[1..];
      assert Keys(es) == [es[0].key] + Keys(es[1..]);
      if es[0].key == k {
        assert k !in Keys(es[1..]);
      }
    }
  }

  lemma StepSound<K, V>(es: seq<Entry<K, V>>, capacity: nat, op: Op<K, V>)
    requires capacity >= 1
    requires Distinct(es) && |es| <= capacity
    ensures Distinct(Step(es, capacity, op)) && |Step(es, capacity, op)| <= capacity
  {
    match op
    case Get(k) =>
      WithoutDistinct(es, x => x == k);
      WithoutMembers(es, x => x == k);
      DropLength(es, k);
    case Put(k, v) =>
      WithoutMembers(es, x => x == k);
      WithoutDistinct(es, x => x == k);
      DropLength(es, k);
      if k !in Keys(es) {
        forall i | 0 <= i < |Evicted(es, capacity)| ensures Evicted(es, capacity)[i].key != k {
          assert Keys(es)[i] == es[i].key;
        }
      }
    case Invalidate(k) => WithoutDistinct(es, x => x == k);
    case InvalidateIf(p) => WithoutDistinct(es, p);
    case Clear =>
  }

  lemma {:induction false} RunSound<K, V>(es: seq<Entry<K, V>>, capacity: nat, ops: seq<Op<K, V>>)
    requires capacity >= 1
    requires Distinct(es) && |es| <= capacity
    ensures Distinct(Run(es, capacity, ops)) && |Run(es, capacity, ops)| <= capacity
  {
    if ops != [] {
      RunSound(es, capacity, ops[..|ops| - 1]);
      StepSound(Run(es, capacity, ops[..|ops| - 1]), capacity, ops[|ops| - 1]);
    }
  }

  // ---- Inclusion: a smaller cache holds a subsequence of a larger one ----

  ghost predicate Subsequence<T>(a: seq<T>, b: seq<T>)
    decreases |b|
  {
    a == [] || (b != [] && ((a[0] == b[0] && Subsequence(a[1..], b[1..])) || Subsequence(a, b[1..])))
  }

  lemma {:induction false} SubsequenceFacts<T>(a: seq<T>, b: seq<T>)
    requires Subsequence(a, b)
    ensures |a| <= |b|
    ensures forall x :: x in a ==> x in b
    decreases |b|
  {
    if a != [] {
      if a[0] == b[0] && Subsequence(a[1..], b[1..]) {
        SubsequenceFacts(a[1..], b[1..]);
        assert a == [a[0]] + a[1..];
      } else {
        SubsequenceFacts(a, b[1..]);
      }
    }
  }

  /** The two lists lose their last elements together and stay nested. */
  lemma {:induction false} SubsequenceInit<T>(a: seq<T>, b: seq<T>)
    requires a != [] && Subsequence(a, b)
    ensures Subsequence(a[..|a| - 1], b[..|b| - 1])
    decreases |b|
  {
    SubsequenceFacts(a, b);
    if |a| > 1 {
      var a', b' := a[..|a| - 1], b[..|b| - 1];
      if a[0] == b[0] && Subsequence(a[1..], b[1..]) {
        SubsequenceFacts(a[1..], b[1..]);
        SubsequenceInit(a[1..], b[1..]);
        assert a'[1..] == a[1..][..|a| - 2] && b'[1..] == b[1..][..|b| - 2];
      } else {
        SubsequenceFacts(a, b[1..]);
        SubsequenceInit(a, b[1..]);
        assert b'[1..] == b[1..][..|b| - 2];
      }
    }
  }

  lemma {:induction false} SubsequenceOfInit<T>(a: seq<T>, b: seq<T>)
    requires a != [] && Subsequence(a, b)
    ensures Subsequence(a[..|a| - 1], b)
    decreases |b|
  {
    if |a| > 1 {
      if a[0] == b[0] && Subsequence(a[1..], b[1..]) {
        SubsequenceOfInit(a[1..], b[1..]);
        assert a[..|a| - 1][1..] == a[1..][..|a| - 2];
      } else {
        SubsequenceOfInit(a, b[1..]);
      }
    }
  }

  /** Filtering keeps the nesting, and never widens the gap in length. */
  lemma {:induction false} SubsequenceWithout<K, V>(a: seq<Entry<K, V>>, b: seq<Entry<K, V>>, p: K -> bool)
    requires Subsequence(a, b)
    ensures Subsequence(Without(a, p), Without(b, p))
    ensures |Without(b, p)| - |Without(a, p)| <= |b| - |a|
    decreases |b|
  {
    if b != [] {
      if a != [] && a[0] == b[0] && Subsequence(a[1..], b[1..]) {
        SubsequenceWithout(a[1..], b[1..], p);
      } else {
        assert Subsequence(a, b[1..]);
        SubsequenceWithout(a, b[1..], p);
        if !p(b[0].key) {
          assert Without(b, p)[1..] == Without(b[1..], p);
        }
      }
    }
  }

  ghost predicate Nested<K, V>(a: seq<Entry<K, V>>, c1: nat, b: seq<Entry<K, V>>, c2: nat) {
    && Distinct(a) && |a| <= c1
    && Distinct(b) && |b| <= c2
    && Subsequence(a, b)
    && |b| - |a| <= c2 - c1
  }

  /** Distinct keys give each key one entry, so nested lists agree on what they both find. */
  lemma {:induction false} FindIsTheEntry<K, V>(es: seq<Entry<K, V>>, e: Entry<K, V>)
    requires Distinct(es) && e in es
    ensures Find(es, e.key) == Some(e.value)
  {
    if es[0] != e {
      var i :| 0 <= i < |es| && es[i] == e;
      assert es[i].key != es[0].key;
      FindIsTheEntry(es[1..], e);
    }
  }

  lemma HitInSmallerIsHitInLarger<K, V>(a: seq<Entry<K, V>>, b: seq<Entry<K, V>>, k: K)
    requires Distinct(b) && Subsequence(a, b) && k in Keys(a)
    ensures Find(a, k).Some? && Find(b, k) == Find(a, k)
  {
    SubsequenceFacts(a, b);
    FindIsTheEntry(b, Entry(k, Find(a, k).value));
  }

  lemma NestedStep<K, V>(a: seq<Entry<K, V>>, c1: nat, b: seq<Entry<K, V>>, c2: nat, op: Op<K, V>)
    requires 1 <= c1 <= c2 && Nested(a, c1, b, c2)
    ensures Nested(Step(a, c1, op), c1, Step(b, c2, op), c2)
  {
    StepSound(a, c1, op);
    StepSound(b, c2, op);
    SubsequenceFacts(a, b);
    match op
    case Get(k) =>
      DropLength(a, k);
      DropLength(b, k);
      SubsequenceWithout(a, b, x => x == k);
      if k in Keys(a) {
        HitInSmallerIsHitInLarger(a, b, k);
      } else if k in Keys(b) {
        SubsequenceSkips(a, Step(b, c2, op));
      }
    case Put(k, v) => NestedPut(a, c1, b, c2, k, v);
    case Invalidate(k) => SubsequenceWithout(a, b, x => x == k);
    case InvalidateIf(p) => SubsequenceWithout(a, b, p);
    case Clear =>
  }

  lemma SubsequenceSkips<T>(a: seq<T>, b: seq<T>)
    requires b != [] && Subsequence(a, b[1..])
    ensures Subsequence(a, b)
  {
  }

  lemma NestedPut<K, V>(a: seq<Entry<K, V>>, c1: nat, b: seq<Entry<K, V>>, c2: nat, k: K, v: V)
    requires 1 <= c1 <= c2 && Nested(a, c1, b, c2)
    ensures
      var a', b' := Step(a, c1, Put(k, v)), Step(b, c2, Put(k, v));
      Subsequence(a', b') && |b'| - |a'| <= c2 - c1
  {
    var a', b' := Step(a, c1, Put(k, v)), Step(b, c2, Put(k, v));
    SubsequenceFacts(a, b);
    DropLength(a, k);
    DropLength(b, k);
    SubsequenceWithout(a, b, x => x == k);
    if k in Keys(a) {
      HitInSmallerIsHitInLarger(a, b, k);
    } else if k in Keys(b) {
      if |a| == c1 {
        SubsequenceOfInit(a, Drop(b, k));
      }
    } else if |a| == c1 {
      if |b| == c2 {
        SubsequenceInit(a, b);
      } else {
        SubsequenceOfInit(a, b);
      }
    }
    assert a'[0] == b'[0] && Subsequence(a'[1..], b'[1..]);
  }

  /** LRU inclusion: on every trace, started from nested lists such as two empty
      caches, the smaller cache stays a subsequence of the larger. */
  lemma {:induction false} Inclusion<K, V>(a: seq<Entry<K, V>>, c1: nat, b: seq<Entry<K, V>>, c2: nat,
      ops: seq<Op<K, V>>)
    requires 1 <= c1 <= c2 && Nested(a, c1, b, c2)
    ensures Nested(Run(a, c1, ops), c1, Run(b, c2, ops), c2)
  {
    if ops != [] {
      Inclusion(a, c1, b, c2, ops[..|ops| - 1]);
      NestedStep(Run(a, c1, ops[..|ops| - 1]), c1, Run(b, c2, ops[..|ops| - 1]), c2, ops[|ops| - 1]);
    }
  }

  lemma InclusionFromEmpty<K, V>(c1: nat, c2: nat, ops: seq<Op<K, V>>, k: K)
    requires 1 <= c1 <= c2
    ensures Nested(Run([], c1, ops), c1, Run([], c2, ops), c2)
    ensures k in Keys(Run([], c1, ops)) ==> Find(Run([], c2, ops), k) == Find(Run([], c1, ops), k)
  {
    Inclusion([], c1, [], c2, ops);
    if k in Keys(Run([], c1, ops)) {
      HitInSmallerIsHitInLarger(Run([], c1, ops), Run([], c2, ops), k);
    }
  }

  // ---- Freshness and retention ----

  predicate Removes<K(==), V>(op: Op<K, V>, k: K) {
    match op
    case Invalidate(x) => x == k
    case InvalidateIf(p) => p(k)
    case Clear => true
    case _ => false
  }

  /** The value most recently put under k and not invalidated since. */
  function LastPut<K(==), V>(ops: seq<Op<K, V>>, k: K): Option<V> {
    if ops == [] then None
    else
      var op := ops[|ops| - 1];
      if op.Put? && op.k == k then Some(op.v)
      else if Removes(op, k) then None
      else LastPut(ops[..|ops| - 1], k)
  }

  /** Whatever a cache holds is the last value put: a hit never returns an older one. */
  lemma {:induction false} HeldIsLastPut<K, V>(capacity: nat, ops: seq<Op<K, V>>, e: Entry<K, V>)
    requires capacity >= 1
    requires e in Run([], capacity, ops)
    ensures LastPut(ops, e.key) == Some(e.value)
  {
    if ops != [] {
      var before, op := Run([], capacity, ops[..|ops| - 1]), ops[|ops| - 1];
      if op.Put? && op.k == e.key {
        HeldAfterPut(before, capacity, op.k, op.v, e);
      } else {
        HeldBefore(before, capacity, op, e);
        HeldIsLastPut(capacity, ops[..|ops| - 1], e);
      }
    }
  }

  lemma HeldAfterPut<K, V>(es: seq<Entry<K, V>>, capacity: nat, k: K, v: V, e: Entry<K, V>)
    requires e in Step(es, capacity, Put(k, v)) && e.key == k
    ensures e.value == v
  {
    WithoutMembers(es, x => x == k);
    if k !in Keys(es) {
      forall x | x in es ensures x.key != k {
        var i :| 0 <= i < |es| && es[i] == x;
        assert Keys(es)[i] == x.key;
      }
    }
  }

  lemma HeldBefore<K, V>(es: seq<Entry<K, V>>, capacity: nat, op: Op<K, V>, e: Entry<K, V>)
    requires e in Step(es, capacity, op)
    requires !(op.Put? && op.k == e.key)
    ensures e in es && !Removes(op, e.key)
  {
    match op
    case Get(k) => WithoutMembers(es, x => x == k);
    case Put(k, v) => WithoutMembers(es, x => x == k);
    case Invalidate(k) => WithoutMembers(es, x => x == k);
    case InvalidateIf(p) => WithoutMembers(es, p);
    case Clear =>
  }

  /** The keys other than k that a trace puts or hits. */
  ghost function Touched<K, V>(es: seq<Entry<K, V>>, capacity: nat, ops: seq<Op<K, V>>, k: K): set<K> {
    if ops == [] then {}
    else
      var op := ops[|ops| - 1];
      var earlier := Touched(es, capacity, ops[..|ops| - 1], k);
      if op.Put? && op.k != k then earlier + {op.k}
      else if op.Get? && op.k != k && op.k in Keys(Run(es, capacity, ops[..|ops| - 1])) then earlier + {op.k}
      else earlier
  }

  /** k is listed, and only keys of t are ahead of it. */
  ghost predicate Shielded<K, V>(es: seq<Entry<K, V>>, k: K, t: set<K>) {
    exists i :: 0 <= i < |es| && es[i].key == k && forall j :: 0 <= j < i ==> es[j].key in t
  }

  lemma {:induction false} ShieldedWithout<K, V>(es: seq<Entry<K, V>>, k: K, t: set<K>, p: K -> bool)
    requires Shielded(es, k, t) && !p(k)
    ensures Shielded(Without(es, p), k, t)
  {
    if es[0].key == k {
      assert Without(es, p)[0] == es[0];
    } else {
      var i :| 0 <= i < |es| && es[i].key == k && forall j :: 0 <= j < i ==> es[j].key in t;
      assert es[1..][i - 1].key == k;
      ShieldedWithout(es[1..], k, t, p);
      if !p(es[0].key) {
        ShieldedCons(es[0], Without(es[1..], p), k, t);
      }
    }
  }

  lemma ShieldedCons<K, V>(e: Entry<K, V>, es: seq<Entry<K, V>>, k: K, t: set<K>)
    requires Shielded(es, k, t) && e.key in t
    ensures Shielded([e] + es, k, t)
  {
    var i :| 0 <= i < |es| && es[i].key == k && forall j :: 0 <= j < i ==> es[j].key in t;
    assert ([e] + es)[i + 1].key == k;
  }

  lemma {:induction false} DistinctKeysCount<K, V>(es: seq<Entry<K, V>>)
    requires Distinct(es)
    ensures |set e | e in es :: e.key| == |es|
  {
    if es != [] {
      DistinctKeysCount(es[1..]);
      var rest := set e | e in es[1..] :: e.key;
      assert es == [es[0]] + es[1..];
      assert (set e | e in es :: e.key) == rest + {es[0].key};
      assert es[0].key !in rest;
    }
  }

  /** An eviction cannot reach k while k and the newcomer leave room for what is ahead of k. */
  lemma ShieldedEvicted<K, V>(es: seq<Entry<K, V>>, capacity: nat, k: K, t: set<K>, x: K)
    requires Distinct(es) && 1 <= capacity && |es| <= capacity
    requires Shielded(es, k, t) && x !in Keys(es) && |t + {x}| < capacity
    ensures Shielded(Evicted(es, capacity), k, t)
  {
    var i :| 0 <= i < |es| && es[i].key == k && forall j :: 0 <= j < i ==> es[j].key in t;
    var ahead := es[..i];
    DistinctKeysCount(ahead);
    var ks := set e | e in ahead :: e.key;
    forall e | e in ahead ensures e.key != x {
      var j :| 0 <= j < i && es[j] == e;
      assert Keys(es)[j] == e.key;
    }
    assert ks + {x} <= t + {x};
    SubsetCount(ks + {x}, t + {x});
    assert i + 1 < capacity;
    assert Evicted(es, capacity)[i].key == k;
  }

  lemma {:induction false} SubsetCount<T>(a: set<T>, b: set<T>)
    requires a <= b
    ensures |a| <= |b|
  {
    assert b == a + (b - a);
  }

  lemma ShieldedStep<K, V>(es: seq<Entry<K, V>>, capacity: nat, op: Op<K, V>, k: K, t: set<K>)
    requires 1 <= capacity && Distinct(es) && |es| <= capacity && |t| < capacity
    requires Shielded(es, k, t) && !Removes(op, k)
    requires op.Put? || (op.Get? && op.k in Keys(es)) ==> op.k == k || op.k in t
    ensures Shielded(Step(es, capacity, op), k, t)
  {
    var next := Step(es, capacity, op);
    assert k in Keys(es) by {
      var i :| 0 <= i < |es| && es[i].key == k;
      assert Keys(es)[i] == k;
    }
    if (op.Get? || op.Put?) && op.k == k {
      assert next[0].key == k;
    } else {
      match op
      case Get(x) =>
        if x in Keys(es) {
          ShieldedWithout(es, k, t, y => y == x);
          ShieldedCons(Entry(x, Find(es, x).value), Drop(es, x), k, t);
        }
      case Put(x, v) =>
        if x in Keys(es) {
          ShieldedWithout(es, k, t, y => y == x);
          ShieldedCons(Entry(x, v), Drop(es, x), k, t);
        } else {
          assert t + {x} == t;
          ShieldedEvicted(es, capacity, k, t, x);
          ShieldedCons(Entry(x, v), Evicted(es, capacity), k, t);
        }
      case Invalidate(x) => ShieldedWithout(es, k, t, y => y == x);
      case InvalidateIf(p) => ShieldedWithout(es, k, t, p);
      case Clear =>
    }
  }

  lemma {:induction false} Shielding<K, V>(es: seq<Entry<K, V>>, capacity: nat, ops: seq<Op<K, V>>, k: K)
    requires 1 <= capacity && Distinct(es) && 0 < |es| <= capacity && es[0].key == k
    requires forall op :: op in ops ==> !Removes(op, k)
    requires |Touched(es, capacity, ops, k)| < capacity
    ensures Shielded(Run(es, capacity, ops), k, Touched(es, capacity, ops, k))
  {
    if ops != [] {
      var init, op := ops[..|ops| - 1], ops[|ops| - 1];
      var before, t, t' := Run(es, capacity, init), Touched(es, capacity, init, k), Touched(es, capacity, ops, k);
      SubsetCount(t, t');
      Shielding(es, capacity, init, k);
      RunSound(es, capacity, init);
      assert op in ops;
      ShieldedStep(before, capacity, op, k, t');
    }
  }

  /** Retention: once put or hit, a key stays while fewer than capacity distinct
      other keys are put or hit and nothing invalidates it. */
  lemma Retention<K, V>(es: seq<Entry<K, V>>, capacity: nat, touch: Op<K, V>, ops: seq<Op<K, V>>, k: K)
    requires 1 <= capacity && Distinct(es) && |es| <= capacity
    requires Touches(es, touch, k)
    requires forall op :: op in ops ==> !Removes(op, k)
    requires |Touched(Step(es, capacity, touch), capacity, ops, k)| < capacity
    ensures Find(Run(Step(es, capacity, touch), capacity, ops), k).Some?
  {
    StepSound(es, capacity, touch);
    Shielding(Step(es, capacity, touch), capacity, ops, k);
    var r := Run(Step(es, capacity, touch), capacity, ops);
    var i :| 0 <= i < |r| && r[i].key == k;
    assert Keys(r)[i] == k;
  }

  // ---- Least recently used ----

  /** A put of k, or a hit on it. */
  predicate Touches<K(==), V>(es: seq<Entry<K, V>>, op: Op<K, V>, k: K) {
    (op.Put? && op.k == k) || (op.Get? && op.k == k && k in Keys(es))
  }

  /** When a trace from the empty cache last put or hit k: after how many operations, 0 for never. */
  ghost function LastTouch<K, V>(capacity: nat, ops: seq<Op<K, V>>, k: K): nat {
    if ops == [] then 0
    else if Touches(Run([], capacity, ops[..|ops| - 1]), ops[|ops| - 1], k) then |ops|
    else LastTouch(capacity, ops[..|ops| - 1], k)
  }

  lemma {:induction false} LastTouchBound<K, V>(capacity: nat, ops: seq<Op<K, V>>, k: K)
    ensures LastTouch(capacity, ops, k) <= |ops|
  {
    if ops != [] {
      LastTouchBound(capacity, ops[..|ops| - 1], k);
    }
  }

  ghost predicate Descending<K, V>(es: seq<Entry<K, V>>, rank: K -> nat) {
    forall i, j :: 0 <= i < j < |es| ==> rank(es[i].key) > rank(es[j].key)
  }

  lemma {:induction false} WithoutDescending<K, V>(es: seq<Entry<K, V>>, p: K -> bool, rank: K -> nat)
    requires Descending(es, rank)
    ensures Descending(Without(es, p), rank)
  {
    if es != [] {
      WithoutDescending(es[1..], p, rank);
      WithoutMembers(es[1..], p);
      var rest := Without(es[1..], p);
      forall i | 0 <= i < |rest| ensures rank(es[0].key) > rank(rest[i].key) {
        assert rest[i] in es[1..];
      }
    }
  }

  /** A touched key goes before those that keep their rank. */
  lemma FrontDescending<K, V>(e: Entry<K, V>, rest: seq<Entry<K, V>>, rank: K -> nat, rank': K -> nat)
    requires Descending(rest, rank)
    requires forall x :: x in rest ==> rank'(x.key) == rank(x.key) < rank'(e.key)
    ensures Descending([e] + rest, rank')
  {
  }

  /** The list is in the order of last use: of two held keys the one listed first was put
      or hit more recently. */
  lemma {:induction false} ListedByLastUse<K, V>(capacity: nat, ops: seq<Op<K, V>>)
    ensures Descending(Run([], capacity, ops), k => LastTouch(capacity, ops, k))
  {
    if ops != [] {
      var init, op := ops[..|ops| - 1], ops[|ops| - 1];
      var es := Run([], capacity, init);
      var rank, rank' := k => LastTouch(capacity, init, k), k => LastTouch(capacity, ops, k);
      ListedByLastUse(capacity, init);
      forall x ensures rank(x) < |ops| {
        LastTouchBound(capacity, init, x);
      }
      match op
      case Get(k) =>
        if k in Keys(es) {
          PromotedDescending(es, k, Find(es, k).value, rank, rank');
        }
      case Put(k, v) =>
        if k in Keys(es) {
          PromotedDescending(es, k, v, rank, rank');
        } else {
          forall e | e in Evicted(es, capacity) ensures e.key != k {
            var i :| 0 <= i < |es| && es[i] == e;
            assert Keys(es)[i] == e.key;
          }
          FrontDescending(Entry(k, v), Evicted(es, capacity), rank, rank');
        }
      case Invalidate(k) => WithoutDescending(es, x => x == k, rank);
      case InvalidateIf(p) => WithoutDescending(es, p, rank);
      case Clear =>
    }
  }

  lemma PromotedDescending<K, V>(es: seq<Entry<K, V>>, k: K, v: V, rank: K -> nat, rank': K -> nat)
    requires Descending(es, rank)
    requires forall e :: e in es && e.key != k ==> rank'(e.key) == rank(e.key) < rank'(k)
    ensures Descending(Promote(es, k, v), rank')
  {
    WithoutDescending(es, x => x == k, rank);
    WithoutMembers(es, x => x == k);
    forall e | e in Drop(es, k) ensures rank'(e.key) == rank(e.key) < rank'(k) {
      var i :| 0 <= i < |Drop(es, k)| && Drop(es, k)[i] == e;
    }
    FrontDescending(Entry(k, v), Drop(es, k), rank, rank');
  }

  /** Least recently used: a put of a new key evicts only when the cache is full, and then
      exactly the key whose last use is longest ago. */
  lemma EvictsLeastRecent<K, V>(capacity: nat, ops: seq<Op<K, V>>, k: K, v: V) returns (gone: Option<K>)
    requires capacity >= 1 && k !in Keys(Run([], capacity, ops))
    ensures
      var held, held' := Keys(Run([], capacity, ops)), Keys(Run([], capacity, ops + [Put(k, v)]));
      && (gone.Some? <==> |held| == capacity)
      && (gone.Some? ==> gone.value in held && forall x :: x in held && x != gone.value ==>
            LastTouch(capacity, ops, gone.value) < LastTouch(capacity, ops, x))
      && forall x :: x in held' <==> x == k || (x in held && gone != Some(x))
  {
    var es := Run([], capacity, ops);
    assert (ops + [Put(k, v)])[..|ops|] == ops;
    ListedByLastUse(capacity, ops);
    RunSound([], capacity, ops);
    gone := if |es| == capacity then Some(es[|es| - 1].key) else None;
    EvictedKeys(es, capacity, k, v);
  }

  lemma EvictedKeys<K, V>(es: seq<Entry<K, V>>, capacity: nat, k: K, v: V)
    requires capacity >= 1 && Distinct(es) && |es| <= capacity && k !in Keys(es)
    ensures
      forall x :: x in Keys(Step(es, capacity, Put(k, v))) <==>
        x == k || (x in Keys(es) && !(|es| == capacity && es[|es| - 1].key == x))
  {
    var es' := Step(es, capacity, Put(k, v));
    assert Keys(es')[0] == k;
    assert forall i :: 0 <= i < |Evicted(es, capacity)| ==> Keys(es')[i + 1] == es[i].key == Keys(es)[i];
  }
}
