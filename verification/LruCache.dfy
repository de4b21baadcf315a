/** LRULinkedHashMap: an access-ordered map that evicts its eldest entry. */
module LruCache {
  import opened Wrappers

  datatype Entry<K, V> = Entry(key: K, value: V)

  // ----- lists of entries, most recently used first -----

  function Find<K(==), V>(es: seq<Entry<K, V>>, k: K): Option<V> {
    if es == [] then None else if es[0].key == k then Some(es[0].value) else Find(es[1..], k)
  }

  predicate Has<K(==), V>(es: seq<Entry<K, V>>, k: K) {
    Find(es, k).Some?
  }

  predicate DistinctKeys<K(==), V>(es: seq<Entry<K, V>>) {
    es == [] || (!Has(es[1..], es[0].key) && DistinctKeys(es[1..]))
  }

  function Without<K(==), V>(es: seq<Entry<K, V>>, k: K): (r: seq<Entry<K, V>>)
    ensures |r| <= |es|
  {
    if es == [] then [] else if es[0].key == k then Without(es[1..], k) else [es[0]] + Without(es[1..], k)
  }

  function Take<T>(s: seq<T>, n: nat): seq<T> {
    if n < |s| then s[..n] else s
  }

  /** `put`: a key that is there only moves; a new one may push the eldest out. */
  function Put<K(==), V>(capacity: nat, es: seq<Entry<K, V>>, k: K, v: V): seq<Entry<K, V>> {
    var moved := [Entry(k, v)] + Without(es, k);
    if !Has(es, k) && |moved| > capacity then moved[..|moved| - 1] else moved
  }

  /** `get` in access order: a hit becomes the most recent entry. */
  function Touch<K(==), V>(es: seq<Entry<K, V>>, k: K): seq<Entry<K, V>> {
    match Find(es, k)
    case None => es
    case Some(v) => [Entry(k, v)] + Without(es, k)
  }

  class LruMap<K(==), V> {
    const maxCapacity: nat
    var entries: seq<Entry<K, V>>

    constructor (maxCapacity: nat)
      ensures this.maxCapacity == maxCapacity && entries == []
    {
      this.maxCapacity := maxCapacity;
      entries := [];
    }

    method Get(k: K) returns (v: Option<V>)
      modifies this
      ensures v == Find(old(entries), k) && entries == Touch(old(entries), k)
    {
      v := Find(entries, k);
      if v.Some? {
        entries := [Entry(k, v.value)] + Without(entries, k);
      }
    }

    /** `put`: inserts, then asks `removeEldestEntry`; an update asks nothing. */
    method Insert(k: K, v: V) returns (previous: Option<V>)
      modifies this
      ensures previous == Find(old(entries), k)
      ensures entries == Put(maxCapacity, old(entries), k, v)
    {
      previous := Find(entries, k);
      entries := [Entry(k, v)] + Without(entries, k);
      if previous.None? {
        var evict := RemoveEldestEntry();
        if evict {
          entries := entries[..|entries| - 1];
        }
      }
    }

    method RemoveEldestEntry() returns (evict: bool)
      ensures evict == (|entries| > maxCapacity)
    {
      evict := |entries| > maxCapacity;
    }

    method Remove(k: K)
      modifies this
      ensures entries == Without(old(entries), k)
    {
      entries := Without(entries, k);
    }
  }

  // ----- runs -----

  datatype Op<K, V> = PutOp(key: K, value: V) | GetOp(key: K)

  function Apply<K(==), V>(capacity: nat, es: seq<Entry<K, V>>, op: Op<K, V>): seq<Entry<K, V>> {
    match op
    case PutOp(k, v) => Put(capacity, es, k, v)
    case GetOp(k) => Touch(es, k)
  }

  function Run<K(==), V>(capacity: nat, ops: seq<Op<K, V>>): seq<Entry<K, V>> {
    if ops == [] then [] else Apply(capacity, Run(capacity, ops[..|ops| - 1]), ops[|ops| - 1])
  }

  /** The use an operation makes: every put, and every get that finds its key. */
  function UseOf<K(==), V>(es: seq<Entry<K, V>>, op: Op<K, V>): Option<Entry<K, V>> {
    match op
    case PutOp(k, v) => Some(Entry(k, v))
    case GetOp(k) =>
      var hit := Find(es, k);
      if hit.Some? then Some(Entry(k, hit.value)) else None
  }

  /** The uses of a run, latest first. */
  function Uses<K(==), V>(capacity: nat, ops: seq<Op<K, V>>): seq<Entry<K, V>> {
    if ops == [] then []
    else
      var before := ops[..|ops| - 1];
      match UseOf(Run(capacity, before), ops[|ops| - 1])
      case None => Uses(capacity, before)
      case Some(e) => [e] + Uses(capacity, before)
  }

  /** The distinct keys of a list of uses, each at its latest use. */
  function Recent<K(==), V>(uses: seq<Entry<K, V>>): seq<Entry<K, V>> {
    if uses == [] then [] else [uses[0]] + Without(Recent(uses[1..]), uses[0].key)
  }

  lemma {:induction false} FindWithout<K, V>(es: seq<Entry<K, V>>, k: K, j: K)
    ensures Find(Without(es, k), j) == if j == k then None else Find(es, j)
    decreases |es|
  {
    if es != [] {
      FindWithout(es[1..], k, j);
      assert es[0].key != k ==> ([es[0]] + Without(es[1..], k))[1..] == Without(es[1..], k);
    }
  }

  lemma {:induction false} WithoutDistinct<K, V>(es: seq<Entry<K, V>>, k: K)
    requires DistinctKeys(es)
    ensures DistinctKeys(Without(es, k))
    decreases |es|
  {
    if es != [] {
      WithoutDistinct(es[1..], k);
      FindWithout(es[1..], k, es[0].key);
      assert es[0].key != k ==> ([es[0]] + Without(es[1..], k))[1..] == Without(es[1..], k);
    }
  }

  lemma {:induction false} WithoutAbsent<K, V>(es: seq<Entry<K, V>>, k: K)
    requires !Has(es, k)
    ensures Without(es, k) == es
    decreases |es|
  {
    if es != [] {
      WithoutAbsent(es[1..], k);
      assert es == [es[0]] + es[1..];
    }
  }

  lemma {:induction false} RecentDistinct<K, V>(uses: seq<Entry<K, V>>)
    ensures DistinctKeys(Recent(uses))
    decreases |uses|
  {
    if uses != [] {
      var rest := Recent(uses[1..]);
      RecentDistinct(uses[1..]);
      WithoutDistinct(rest, uses[0].key);
      FindWithout(rest, uses[0].key, uses[0].key);
      assert Recent(uses)[1..] == Without(rest, uses[0].key);
    }
  }

  lemma TakeHead<K, V>(es: seq<Entry<K, V>>, rest: seq<Entry<K, V>>, n: nat)
    requires es != [] && rest == es[1..] && n > 0
    ensures Take(es, n) == [es[0]] + Take(rest, n - 1) && Take(es, n)[1..] == Take(rest, n - 1)
  {
  }

  lemma {:induction false} WithoutHead<K, V>(es: seq<Entry<K, V>>, rest: seq<Entry<K, V>>, k: K)
    requires es != [] && rest == es[1..] && es[0].key != k
    ensures Without(es, k) == [es[0]] + Without(rest, k) && Without(es, k)[1..] == Without(rest, k)
  {
  }

  /** Taking a key out of the first n entries, or out of all of them. */
  lemma {:induction false} WithoutTake<K, V>(es: seq<Entry<K, V>>, k: K, n: nat)
    requires DistinctKeys(es)
    ensures Has(Take(es, n), k) ==> n > 0 && Take(Without(es, k), n - 1) == Without(Take(es, n), k)
    ensures !Has(Take(es, n), k) ==> Take(Without(es, k), n) == Take(es, n)
    decreases |es|
  {
    if es != [] && n > 0 {
      var rest := es[1..];
      TakeHead(es, rest, n);
      if es[0].key == k {
        WithoutAbsent(rest, k);
        PrefixAbsent(rest, k, n - 1);
        WithoutAbsent(Take(rest, n - 1), k);
      } else {
        WithoutTake(rest, k, n - 1);
        WithoutHead(es, rest, k);
        WithoutHead(Take(es, n), Take(rest, n - 1), k);
        TakeHead(Without(es, k), Without(rest, k), n);
        if n > 1 {
          TakeHead(Without(es, k), Without(rest, k), n - 1);
        }
      }
    }
  }

  lemma {:induction false} PrefixAbsent<K, V>(es: seq<Entry<K, V>>, k: K, n: nat)
    ensures Has(Take(es, n), k) ==> Find(Take(es, n), k) == Find(es, k)
    decreases |es|
  {
    if es != [] && n > 0 {
      assert Take(es, n) == [es[0]] + Take(es[1..], n - 1);
      assert ([es[0]] + Take(es[1..], n - 1))[1..] == Take(es[1..], n - 1);
      PrefixAbsent(es[1..], k, n - 1);
    }
  }

  lemma PutIsRecent<K, V>(capacity: nat, all: seq<Entry<K, V>>, k: K, v: V)
    requires DistinctKeys(all)
    ensures Put(capacity, Take(all, capacity), k, v) == Take([Entry(k, v)] + Without(all, k), capacity)
  {
    var es := Take(all, capacity);
    WithoutTake(all, k, capacity);
    if !Has(es, k) {
      WithoutAbsent(es, k);
      if |all| <= capacity {
        assert es == all;
      } else if capacity > 0 {
        var w := Without(all, k);
        assert Take(w, capacity) == es;
        assert ([Entry(k, v)] + w)[..capacity] == [Entry(k, v)] + w[..capacity - 1];
      }
    }
  }

  lemma TouchIsRecent<K, V>(capacity: nat, all: seq<Entry<K, V>>, k: K, v: V)
    requires DistinctKeys(all) && Find(Take(all, capacity), k) == Some(v)
    ensures Touch(Take(all, capacity), k) == Take([Entry(k, v)] + Without(all, k), capacity)
  {
    WithoutTake(all, k, capacity);
  }

  /** After every run the map holds exactly the `capacity` most recently used distinct keys, all of them if there are fewer. */
  lemma {:induction false} HoldsMostRecent<K, V>(capacity: nat, ops: seq<Op<K, V>>)
    ensures Run(capacity, ops) == Take(Recent(Uses(capacity, ops)), capacity)
    decreases |ops|
  {
    if ops != [] {
      var before, op := ops[..|ops| - 1], ops[|ops| - 1];
      HoldsMostRecent(capacity, before);
      var uses := Uses(capacity, before);
      RecentDistinct(uses);
      var es := Run(capacity, before);
      var u := UseOf(es, op);
      if u.Some? {
        assert ([u.value] + uses)[1..] == uses;
        match op
        case PutOp(k, v) => PutIsRecent(capacity, Recent(uses), k, v);
        case GetOp(k) => TouchIsRecent(capacity, Recent(uses), k, u.value.value);
      }
    }
  }

  function LastPut<K(==), V>(ops: seq<Op<K, V>>, k: K): Option<V> {
    if ops == [] then None
    else
      var op := ops[|ops| - 1];
      if op.PutOp? && op.key == k then Some(op.value) else LastPut(ops[..|ops| - 1], k)
  }

  /** A key that is found has the value of its last put. */
  lemma {:induction false} FindsLastPut<K, V>(capacity: nat, ops: seq<Op<K, V>>, k: K)
    ensures Find(Run(capacity, ops), k).Some? ==> Find(Run(capacity, ops), k) == LastPut(ops, k)
    decreases |ops|
  {
    if ops != [] {
      var before, op := ops[..|ops| - 1], ops[|ops| - 1];
      FindsLastPut(capacity, before, k);
      var es := Run(capacity, before);
      FindWithout(es, op.key, k);
      match op
      case PutOp(j, v) =>
        var moved := [Entry(j, v)] + Without(es, j);
        assert moved[1..] == Without(es, j);
        PrefixAbsent(moved, k, |moved| - 1);
      case GetOp(j) =>
        if Has(es, j) {
          FindsLastPut(capacity, before, j);
          assert Touch(es, j)[1..] == Without(es, j);
        }
    }
  }
}
