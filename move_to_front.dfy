/*
 * Move-to-front over a queue, and the Set and Map kept as a queue that use it:
 * the Set moves the first occurrence of an element to the front, the Map
 * moves the pairs with a given key to the front; both then read or dequeue
 * the front. Queues are sequences with the front at index 0.
 */
module MoveToFront {

  // ---------------------------------------------------------------------------
  // moveToFront(q, x) for a Set
  // ---------------------------------------------------------------------------

  /** The index of the first occurrence of x in q. */
  function FirstIndex<T(==)>(q: seq<T>, x: T): (i: nat)
    requires x in q
    ensures i < |q| && q[i] == x && x !in q[..i]
  {
    if q[0] == x then 0
    else
      var i := 1 + FirstIndex(q[1..], x);
      assert q[..i] == [q[0]] + q[1..][..i - 1];
      i
  }

  /** The queue with the first occurrence of x moved to the front and the rest in order. */
  function MovedToFront<T(==)>(q: seq<T>, x: T): seq<T>
  {
    if x in q then [x] + q[..FirstIndex(q, x)] + q[FirstIndex(q, x) + 1..] else q
  }

  /** Moving to the front permutes the queue, and puts x at the front when it occurs. */
  lemma MovedToFrontPermutes<T>(q: seq<T>, x: T)
    ensures multiset(MovedToFront(q, x)) == multiset(q)
    ensures x in q ==> MovedToFront(q, x)[0] == x
    ensures x !in q ==> MovedToFront(q, x) == q
  {
    if x in q {
      var i := FirstIndex(q, x);
      assert q == q[..i] + [x] + q[i + 1..];
    }
  }

  /** Only one occurrence of x can be the first. */
  lemma FirstIndexUnique<T>(q: seq<T>, x: T, k: nat)
    requires k < |q| && q[k] == x && x !in q[..k]
    ensures FirstIndex(q, x) == k
  {
    var i := FirstIndex(q, x);
    forall j | 0 <= j < k
      ensures q[j] != x
    {
      assert q[..k][j] == q[j];
    }
    forall j | 0 <= j < i
      ensures q[j] != x
    {
      assert q[..i][j] == q[j];
    }
  }

  /**
   * moveToFront: drains q; the first entry equal to x goes to a queue of its
   * own and every other entry to a second queue, which is then appended.
   */
  method MoveToFrontOfQueue<T(==)>(q: seq<T>, x: T) returns (r: seq<T>)
    ensures r == MovedToFront(q, x)
  {
    var left: seq<T> := [];
    var right: seq<T> := [];
    var found := false;
    var rest := q;
    ghost var k := 0;
    while |rest| != 0
      invariant 0 <= k <= |q| && rest == q[k..]
      invariant found <==> x in q[..k]
      invariant !found ==> left == [] && right == q[..k]
      invariant found ==> left == [x] && FirstIndex(q, x) < k
      invariant found ==> right == q[..FirstIndex(q, x)] + q[FirstIndex(q, x) + 1..k]
      decreases |rest|
    {
      var e := rest[0];
      assert e == q[k];
      rest := rest[1..];
      assert q[..k + 1] == q[..k] + [e];
      if e == x && !found {
        FirstIndexUnique(q, x, k);
        left := left + [e];
        found := true;
      } else {
        if found {
          assert q[FirstIndex(q, x) + 1..k + 1] == q[FirstIndex(q, x) + 1..k] + [e];
        }
        right := right + [e];
      }
      k := k + 1;
    }
    assert q[..k] == q;
    r := left + right;
  }

  // ---------------------------------------------------------------------------
  // moveToFront(q, key) for a Map
  // ---------------------------------------------------------------------------

  datatype Pair<K, V> = Pair(key: K, value: V)

  /** The pairs of q whose key is key, in queue order. */
  function WithKey<K(==), V>(q: seq<Pair<K, V>>, key: K): seq<Pair<K, V>>
  {
    if |q| == 0 then []
    else WithKey(q[..|q| - 1], key) + (if q[|q| - 1].key == key then [q[|q| - 1]] else [])
  }

  /** The pairs of q whose key is not key, in queue order. */
  function WithoutKey<K(==), V>(q: seq<Pair<K, V>>, key: K): seq<Pair<K, V>>
  {
    if |q| == 0 then []
    else WithoutKey(q[..|q| - 1], key) + (if q[|q| - 1].key == key then [] else [q[|q| - 1]])
  }

  /** No two pairs of q share a key. */
  ghost predicate KeysDistinct<K, V>(q: seq<Pair<K, V>>)
  {
    forall i, j :: 0 <= i < j < |q| ==> q[i].key != q[j].key
  }

  /** moveToFront for pairs: the pairs with the key first, then the others, each in queue order. */
  method MovePairToFront<K(==), V>(q: seq<Pair<K, V>>, key: K) returns (r: seq<Pair<K, V>>)
    ensures r == WithKey(q, key) + WithoutKey(q, key)
  {
    var left: seq<Pair<K, V>> := [];
    var right: seq<Pair<K, V>> := [];
    var rest := q;
    ghost var k := 0;
    while |rest| != 0
      invariant 0 <= k <= |q| && rest == q[k..]
      invariant left == WithKey(q[..k], key) && right == WithoutKey(q[..k], key)
      decreases |rest|
    {
      var p := rest[0];
      assert p == q[k];
      rest := rest[1..];
      assert q[..k + 1][..k] == q[..k];
      if p.key == key {
        left := left + [p];
      } else {
        right := right + [p];
      }
      k := k + 1;
    }
    assert q[..k] == q;
    r := left + right;
  }

  /** Splitting by key permutes the pairs. */
  lemma {:induction false} SplitByKeyPermutes<K, V>(q: seq<Pair<K, V>>, key: K)
    ensures multiset(WithKey(q, key) + WithoutKey(q, key)) == multiset(q)
  {
    if |q| > 0 {
      var front := q[..|q| - 1];
      SplitByKeyPermutes(front, key);
      assert q == front + [q[|q| - 1]];
    }
  }

  /** A pair lands on the side its key says. */
  lemma {:induction false} SplitByKeyMembers<K, V>(q: seq<Pair<K, V>>, key: K)
    ensures forall p :: p in WithKey(q, key) <==> p in q && p.key == key
    ensures forall p :: p in WithoutKey(q, key) <==> p in q && p.key != key
  {
    if |q| > 0 {
      var front := q[..|q| - 1];
      SplitByKeyMembers(front, key);
      assert q == front + [q[|q| - 1]];
    }
  }

  /** Without the key, distinct keys stay distinct. */
  lemma {:induction false} WithoutKeyDistinct<K, V>(q: seq<Pair<K, V>>, key: K)
    requires KeysDistinct(q)
    ensures KeysDistinct(WithoutKey(q, key))
  {
    if |q| > 0 {
      var front := q[..|q| - 1];
      WithoutKeyDistinct(front, key);
      WithoutKeyKeys(front, key);
      var last := q[|q| - 1];
      forall i | 0 <= i < |front|
        ensures front[i].key != last.key
      {
      }
    }
  }

  /** Every pair left without the key is a pair of q. */
  lemma {:induction false} WithoutKeyKeys<K, V>(q: seq<Pair<K, V>>, key: K)
    ensures forall i :: 0 <= i < |WithoutKey(q, key)| ==> WithoutKey(q, key)[i] in q
  {
    if |q| > 0 {
      var front := q[..|q| - 1];
      WithoutKeyKeys(front, key);
      forall i | 0 <= i < |WithoutKey(front, key)|
        ensures WithoutKey(front, key)[i] in q
      {
        assert WithoutKey(front, key)[i] in front;
      }
    }
  }

  /** No pair left without the key carries it. */
  lemma {:induction false} WithoutKeyLacksKey<K, V>(q: seq<Pair<K, V>>, key: K)
    ensures forall j :: 0 <= j < |WithoutKey(q, key)| ==> WithoutKey(q, key)[j].key != key
  {
    if |q| > 0 {
      WithoutKeyLacksKey(q[..|q| - 1], key);
    }
  }

  /** With distinct keys and the key present, exactly one pair carries it. */
  lemma {:induction false} WithKeySingle<K, V>(q: seq<Pair<K, V>>, key: K, i: nat)
    requires KeysDistinct(q) && i < |q| && q[i].key == key
    ensures WithKey(q, key) == [q[i]]
  {
    var front := q[..|q| - 1];
    if i == |q| - 1 {
      NoKey(front, key);
    } else {
      WithKeySingle(front, key, i);
    }
  }

  lemma {:induction false} NoKey<K, V>(q: seq<Pair<K, V>>, key: K)
    requires forall j :: 0 <= j < |q| ==> q[j].key != key
    ensures WithKey(q, key) == []
  {
    if |q| > 0 {
      NoKey(q[..|q| - 1], key);
    }
  }

  // ---------------------------------------------------------------------------
  // A Set kept as a queue
  // ---------------------------------------------------------------------------

  class SetOnQueue<T(==)> {
    var elements: seq<T>

    constructor ()
      ensures elements == []
    {
      elements := [];
    }

    /** remove: moves x to the front and dequeues it. */
    method Remove(x: T) returns (k: T)
      requires x in elements
      modifies this
      ensures k == x
      ensures elements == old(elements)[..FirstIndex(old(elements), x)] + old(elements)[FirstIndex(old(elements), x) + 1..]
      ensures multiset(elements) == multiset(old(elements)) - multiset{x}
    {
      MovedToFrontPermutes(elements, x);
      elements := MoveToFrontOfQueue(elements, x);
      k := elements[0];
      elements := elements[1..];
      assert old(elements) == old(elements)[..FirstIndex(old(elements), x)] + [x] + old(elements)[FirstIndex(old(elements), x) + 1..];
    }

    /** removeAny: dequeues the front. */
    method RemoveAny() returns (k: T)
      requires |elements| > 0
      modifies this
      ensures [k] + elements == old(elements)
    {
      k := elements[0];
      elements := elements[1..];
    }

    /** size: the length of the queue. */
    function Size(): (n: nat)
      reads this
      ensures n == |elements|
    {
      |elements|
    }
  }

  // ---------------------------------------------------------------------------
  // A Map kept as a queue of pairs
  // ---------------------------------------------------------------------------

  class MapOnQueue<K(==), V(==)> {
    var pairsQueue: seq<Pair<K, V>>

    /** The convention: no key occurs twice. */
    ghost predicate Valid()
      reads this
    {
      KeysDistinct(pairsQueue)
    }

    /** The keys of the map. */
    ghost function Domain(): set<K>
      reads this
    {
      set p | p in pairsQueue :: p.key
    }

    /** The pairs of the map. */
    ghost function Pairs(): set<Pair<K, V>>
      reads this
    {
      set p | p in pairsQueue
    }

    constructor ()
      ensures Valid() && pairsQueue == []
    {
      pairsQueue := [];
    }

    /** add: enqueues the new pair; the key must be new. */
    method Add(key: K, value: V)
      requires Valid() && key !in Domain()
      modifies this
      ensures Valid() && pairsQueue == old(pairsQueue) + [Pair(key, value)]
      ensures Pairs() == old(Pairs()) + {Pair(key, value)}
    {
      forall i | 0 <= i < |pairsQueue|
        ensures pairsQueue[i].key != key
      {
        assert pairsQueue[i] in pairsQueue;
      }
      pairsQueue := pairsQueue + [Pair(key, value)];
    }

    /** remove: moves the pair with the key to the front and dequeues it. */
    method Remove(key: K) returns (p: Pair<K, V>)
      requires Valid() && key in Domain()
      modifies this
      ensures Valid() && p.key == key && p in old(Pairs())
      ensures Pairs() == old(Pairs()) - {p}
      ensures Domain() == old(Domain()) - {key}
    {
      ghost var i := KeyIndex(pairsQueue, key);
      RemovedPair(pairsQueue, key, i);
      pairsQueue := MovePairToFront(pairsQueue, key);
      p := pairsQueue[0];
      pairsQueue := pairsQueue[1..];
    }

    /** value: moves the pair with the key to the front and reads its value. */
    method Value(key: K) returns (v: V)
      requires Valid() && key in Domain()
      modifies this
      ensures Valid() && Pairs() == old(Pairs())
      ensures Pair(key, v) in Pairs()
    {
      ghost var i := KeyIndex(pairsQueue, key);
      WithKeySingle(pairsQueue, key, i);
      MovedPairs(pairsQueue, key);
      pairsQueue := MovePairToFront(pairsQueue, key);
      v := pairsQueue[0].value;
    }

    /**
     * hasKey: moves any pair with the key to the front and checks the front.
     * The Java text reads the field-like `front.key()`, which does not compile
     * on a Queue; it is read here as the front pair's key, `front().key()`.
     */
    method HasKey(key: K) returns (found: bool)
      requires Valid()
      modifies this
      ensures Valid() && Pairs() == old(Pairs())
      ensures found <==> key in old(Domain())
    {
      found := false;
      MovedPairs(pairsQueue, key);
      FrontHasKey(pairsQueue, key);
      pairsQueue := MovePairToFront(pairsQueue, key);
      if |pairsQueue| != 0 && pairsQueue[0].key == key {
        found := true;
      }
    }
  }

  /** A key of the map is the key of some pair in the queue. */
  lemma KeyIndex<K, V>(q: seq<Pair<K, V>>, key: K) returns (i: nat)
    requires key in (set p | p in q :: p.key)
    ensures i < |q| && q[i].key == key
  {
    var p :| p in q && p.key == key;
    i :| 0 <= i < |q| && q[i] == p;
  }

  /** A key outside the map's domain carries no pair. */
  lemma NoKeyOutsideDomain<K, V>(q: seq<Pair<K, V>>, key: K)
    requires key !in (set p | p in q :: p.key)
    ensures WithKey(q, key) == []
  {
    forall j | 0 <= j < |q|
      ensures q[j].key != key
    {
      assert q[j] in q;
    }
    NoKey(q, key);
  }

  /** Two queues holding the same pairs represent the same pairs and the same keys. */
  lemma SamePairs<K, V>(a: seq<Pair<K, V>>, b: seq<Pair<K, V>>)
    requires forall e :: e in a <==> e in b
    ensures (set p | p in a) == (set p | p in b)
    ensures (set p | p in a :: p.key) == (set p | p in b :: p.key)
  {
  }

  /** A pair whose key no other pair carries can go in front of distinct keys. */
  lemma ConsDistinct<K, V>(x: Pair<K, V>, s: seq<Pair<K, V>>)
    requires KeysDistinct(s)
    requires forall j :: 0 <= j < |s| ==> s[j].key != x.key
    ensures KeysDistinct([x] + s)
  {
    var r := [x] + s;
    forall a, b | 0 <= a < b < |r|
      ensures r[a].key != r[b].key
    {
      assert r[b] == s[b - 1];
      if a > 0 {
        assert r[a] == s[a - 1];
      }
    }
  }

  /** The queue moveToFront leaves holds the same pairs and keeps keys distinct. */
  lemma MovedPairs<K, V>(q: seq<Pair<K, V>>, key: K)
    requires KeysDistinct(q)
    ensures KeysDistinct(WithKey(q, key) + WithoutKey(q, key))
    ensures (set p | p in WithKey(q, key) + WithoutKey(q, key)) == (set p | p in q)
  {
    SplitByKeyMembers(q, key);
    WithoutKeyDistinct(q, key);
    var others := WithoutKey(q, key);
    if i :| 0 <= i < |q| && q[i].key == key {
      WithKeySingle(q, key, i);
      WithoutKeyLacksKey(q, key);
      ConsDistinct(q[i], others);
    } else {
      NoKey(q, key);
      assert WithKey(q, key) + others == others;
    }
    SamePairs(WithKey(q, key) + WithoutKey(q, key), q);
  }

  /** After moveToFront, the front carries the key exactly when some pair does. */
  lemma FrontHasKey<K, V>(q: seq<Pair<K, V>>, key: K)
    requires KeysDistinct(q)
    ensures var r := WithKey(q, key) + WithoutKey(q, key);
      |r| != 0 && r[0].key == key <==> key in (set p | p in q :: p.key)
  {
    var r := WithKey(q, key) + WithoutKey(q, key);
    SplitByKeyMembers(q, key);
    if key in (set p | p in q :: p.key) {
      var i := KeyIndex(q, key);
      WithKeySingle(q, key, i);
    } else {
      NoKeyOutsideDomain(q, key);
      assert r == WithoutKey(q, key);
      if |r| != 0 {
        assert r[0] in WithoutKey(q, key);
      }
    }
  }

  /** Dequeuing the moved pair leaves the other pairs, and the key is gone. */
  lemma RemovedPair<K, V>(q: seq<Pair<K, V>>, key: K, i: nat)
    requires KeysDistinct(q) && i < |q| && q[i].key == key
    ensures WithKey(q, key) == [q[i]]
    ensures KeysDistinct(WithoutKey(q, key))
    ensures (set p | p in WithoutKey(q, key)) == (set p | p in q) - {q[i]}
    ensures (set p | p in WithoutKey(q, key) :: p.key) == (set p | p in q :: p.key) - {key}
  {
    WithKeySingle(q, key, i);
    WithoutKeyDistinct(q, key);
    OthersAreTheRest(q, key, i);
    RemovedSets(q, WithoutKey(q, key), q[i]);
  }

  /** Without the key, exactly the pairs other than the one carrying it remain. */
  lemma OthersAreTheRest<K, V>(q: seq<Pair<K, V>>, key: K, i: nat)
    requires KeysDistinct(q) && i < |q| && q[i].key == key
    ensures forall e :: e in WithoutKey(q, key) <==> e in q && e != q[i]
    ensures forall e :: e in q && e != q[i] ==> e.key != key
  {
    SplitByKeyMembers(q, key);
    WithKeySingle(q, key, i);
    forall e | e in q && e.key == key
      ensures e == q[i]
    {
      assert e in WithKey(q, key);
    }
  }

  /** Dropping the one pair with x's key drops exactly that pair and that key. */
  lemma RemovedSets<K, V>(q: seq<Pair<K, V>>, others: seq<Pair<K, V>>, x: Pair<K, V>)
    requires x in q
    requires forall e :: e in others <==> e in q && e != x
    requires forall e :: e in q && e != x ==> e.key != x.key
    ensures (set p | p in others) == (set p | p in q) - {x}
    ensures (set p | p in others :: p.key) == (set p | p in q :: p.key) - {x.key}
  {
    forall e | e in q && e.key != x.key
      ensures e.key in (set p | p in others :: p.key)
    {
      assert e in others;
    }
  }
}
