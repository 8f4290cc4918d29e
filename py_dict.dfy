/**
  An insertion-ordered dictionary, as Python's `dict` is: a sequence of
  key/value pairs.  Assigning to a key that is present replaces its value in
  place, assigning to a new key appends it, and `del`/`pop` drop the key.
  Iteration (`keys()`, `values()`, `items()`) follows the sequence.
*/
module PyDict {
  import opened Wrappers

  function Keys<K, V>(d: seq<(K, V)>): (ks: seq<K>)
    ensures |ks| == |d|
  {
    if d == [] then [] else [d[0].0] + Keys(d[1..])
  }

  function Values<K, V>(d: seq<(K, V)>): (vs: seq<V>)
    ensures |vs| == |d|
  {
    if d == [] then [] else [d[0].1] + Values(d[1..])
  }

  /** The invariant of every Python dict: no key occurs twice. */
  predicate DistinctKeys<K(==), V>(d: seq<(K, V)>)
  {
    d == [] || (d[0].0 !in Keys(d[1..]) && DistinctKeys(d[1..]))
  }

  /** `d.get(k)`: the value stored under `k`, if any. */
  function Get<K(==), V>(d: seq<(K, V)>, k: K): Option<V>
  {
    if d == [] then None
    else if d[0].0 == k then Some(d[0].1)
    else Get(d[1..], k)
  }

  /** `d[k] = v`. */
  function Put<K(==), V>(d: seq<(K, V)>, k: K, v: V): seq<(K, V)>
  {
    if d == [] then [(k, v)]
    else if d[0].0 == k then [(k, v)] + d[1..]
    else [d[0]] + Put(d[1..], k, v)
  }

  /** `del d[k]` / `d.pop(k)` when `k` is present; no change when it is absent. */
  function Remove<K(==), V>(d: seq<(K, V)>, k: K): seq<(K, V)>
  {
    if d == [] then []
    else if d[0].0 == k then d[1..]
    else [d[0]] + Remove(d[1..], k)
  }

  lemma {:induction false} KeysAt<K, V>(d: seq<(K, V)>, i: nat)
    requires i < |d|
    ensures Keys(d)[i] == d[i].0
  {
    if i > 0 {
      KeysAt(d[1..], i - 1);
    }
  }

  lemma {:induction false} ValuesAt<K, V>(d: seq<(K, V)>, i: nat)
    requires i < |d|
    ensures Values(d)[i] == d[i].1
  {
    if i > 0 {
      ValuesAt(d[1..], i - 1);
    }
  }

  /** A lookup finds a value exactly when the key is present, and what it finds is stored there. */
  lemma {:induction false} GetFinds<K, V>(d: seq<(K, V)>, k: K)
    ensures Get(d, k).None? <==> k !in Keys(d)
    ensures Get(d, k).Some? ==> (k, Get(d, k).value) in d
  {
    if d != [] && d[0].0 != k {
      GetFinds(d[1..], k);
    }
  }

  /** In a dict, every stored pair is what a lookup of its key returns. */
  lemma {:induction false} GetStored<K, V>(d: seq<(K, V)>, k: K, v: V)
    requires DistinctKeys(d)
    requires (k, v) in d
    ensures Get(d, k) == Some(v)
  {
    if d[0] != (k, v) {
      assert (k, v) in d[1..];
      if d[0].0 == k {
        KeyInKeys(d[1..], k, v);
      } else {
        GetStored(d[1..], k, v);
      }
    }
  }

  lemma {:induction false} KeyInKeys<K, V>(d: seq<(K, V)>, k: K, v: V)
    requires (k, v) in d
    ensures k in Keys(d)
  {
    if d[0] != (k, v) {
      assert (k, v) in d[1..];
      KeyInKeys(d[1..], k, v);
    }
  }

  /** After `d[k] = v`, `k` maps to `v` and every other key maps to what it did before. */
  lemma {:induction false} PutGet<K, V>(d: seq<(K, V)>, k: K, v: V, k': K)
    ensures Get(Put(d, k, v), k') == if k' == k then Some(v) else Get(d, k')
  {
    if d != [] && d[0].0 != k {
      PutGet(d[1..], k, v, k');
    }
  }

  /** Assignment keeps the position of a present key and appends a new one. */
  lemma {:induction false} PutKeys<K, V>(d: seq<(K, V)>, k: K, v: V)
    ensures Keys(Put(d, k, v)) == if k in Keys(d) then Keys(d) else Keys(d) + [k]
  {
    if d != [] && d[0].0 != k {
      PutKeys(d[1..], k, v);
      assert Keys(d) == [d[0].0] + Keys(d[1..]);
    }
  }

  lemma {:induction false} PutDistinct<K, V>(d: seq<(K, V)>, k: K, v: V)
    requires DistinctKeys(d)
    ensures DistinctKeys(Put(d, k, v))
  {
    if d != [] && d[0].0 != k {
      PutDistinct(d[1..], k, v);
      PutKeys(d[1..], k, v);
    }
  }

  /** After `del d[k]`, `k` is absent and every other key maps to what it did before. */
  lemma {:induction false} RemoveGet<K, V>(d: seq<(K, V)>, k: K, k': K)
    requires DistinctKeys(d)
    ensures Get(Remove(d, k), k') == if k' == k then None else Get(d, k')
  {
    if d != [] {
      if d[0].0 == k {
        if k' == k {
          GetFinds(d[1..], k);
        }
      } else {
        RemoveGet(d[1..], k, k');
      }
    }
  }

  /** Removing an absent key changes nothing (Python's `pop` with a default, or a guarded `del`). */
  lemma {:induction false} RemoveAbsent<K, V>(d: seq<(K, V)>, k: K)
    requires k !in Keys(d)
    ensures Remove(d, k) == d
  {
    if d != [] {
      RemoveAbsent(d[1..], k);
    }
  }

  /** Removal keeps the other keys in their order. */
  lemma {:induction false} RemoveKeys<K, V>(d: seq<(K, V)>, k: K)
    ensures forall x :: x in Keys(Remove(d, k)) ==> x in Keys(d)
    ensures DistinctKeys(d) ==> k !in Keys(Remove(d, k))
    ensures DistinctKeys(d) ==> DistinctKeys(Remove(d, k))
  {
    if d != [] && d[0].0 != k {
      RemoveKeys(d[1..], k);
    }
  }
}
