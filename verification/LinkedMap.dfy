/** A dictionary that remembers insertion order, as Python's dict and Kotlin's linkedMapOf do. */
module LinkedMap {
  import opened Wrappers

  /** Entries in the order in which their keys were first put. */
  type Entries<K, V> = seq<(K, V)>

  ghost predicate DistinctKeys<K, V>(es: Entries<K, V>) {
    forall i, j | 0 <= i < j < |es| :: es[i].0 != es[j].0
  }

  function Find<K(==), V>(es: Entries<K, V>, key: K): (found: Option<V>) {
    if es == [] then None
    else if es[0].0 == key then Some(es[0].1)
    else Find(es[1..], key)
  }

  /** A known key keeps its place; a new one goes last. */
  function Put<K(==), V>(es: Entries<K, V>, key: K, value: V): Entries<K, V> {
    if es == [] then [(key, value)]
    else if es[0].0 == key then [(key, value)] + es[1..]
    else [es[0]] + Put(es[1..], key, value)
  }

  function Keys<K, V>(es: Entries<K, V>): (keys: seq<K>)
    ensures |keys| == |es|
    ensures forall i | 0 <= i < |es| :: keys[i] == es[i].0
  {
    seq(|es|, i requires 0 <= i < |es| => es[i].0)
  }

  lemma {:induction false} FindIsMember<K, V>(es: Entries<K, V>, key: K)
    ensures Find(es, key).None? <==> key !in Keys(es)
  {
    if es != [] {
      FindIsMember(es[1..], key);
      assert Keys(es) == [es[0].0] + Keys(es[1..]);
    }
  }

  lemma {:induction false} FindFinds<K, V>(es: Entries<K, V>, i: nat)
    requires DistinctKeys(es) && i < |es|
    ensures Find(es, es[i].0) == Some(es[i].1)
  {
    if i > 0 {
      assert es[1..][i - 1] == es[i];
      FindFinds(es[1..], i - 1);
    }
  }

  lemma {:induction false} PutFinds<K, V>(es: Entries<K, V>, key: K, value: V, k: K)
    ensures Find(Put(es, key, value), k) == if k == key then Some(value) else Find(es, k)
  {
    if es != [] && es[0].0 != key {
      PutFinds(es[1..], key, value, k);
      assert Put(es, key, value)[1..] == Put(es[1..], key, value);
    }
  }

  lemma {:induction false} PutKeys<K, V>(es: Entries<K, V>, key: K, value: V)
    ensures Keys(Put(es, key, value)) == if Find(es, key).Some? then Keys(es) else Keys(es) + [key]
  {
    if es != [] {
      assert es == [es[0]] + es[1..];
      KeysOfCons(es[0], es[1..]);
      if es[0].0 == key {
        KeysOfCons((key, value), es[1..]);
      } else {
        PutKeys(es[1..], key, value);
        KeysOfCons(es[0], Put(es[1..], key, value));
      }
    }
  }

  lemma KeysOfCons<K, V>(e: (K, V), rest: Entries<K, V>)
    ensures Keys([e] + rest) == [e.0] + Keys(rest)
  {
  }

  /** Putting changes what one key finds and nothing else, keeps keys distinct, and leaves the
      order alone except to add a new key at the end. */
  lemma PutUpdates<K, V>(es: Entries<K, V>, key: K, value: V)
    requires DistinctKeys(es)
    ensures DistinctKeys(Put(es, key, value))
    ensures forall k :: Find(Put(es, key, value), k) == if k == key then Some(value) else Find(es, k)
    ensures Keys(Put(es, key, value)) == if Find(es, key).Some? then Keys(es) else Keys(es) + [key]
  {
    forall k ensures Find(Put(es, key, value), k) == if k == key then Some(value) else Find(es, k) {
      PutFinds(es, key, value, k);
    }
    PutKeys(es, key, value);
    FindIsMember(es, key);
    var after := Put(es, key, value);
    forall i, j | 0 <= i < j < |after| ensures after[i].0 != after[j].0 {
      assert Keys(after)[i] == after[i].0 && Keys(after)[j] == after[j].0;
      assert Keys(es)[i] == es[i].0;
    }
  }
}
