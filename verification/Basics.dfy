/** Small facts about numbers and finite collections. */
module Basics {
  import opened Wrappers

  function Min(a: nat, b: nat): nat {
    if a <= b then a else b
  }

  /** `max(0, n)` */
  function Max0(n: int): nat {
    if n > 0 then n else 0
  }

  /** `m.get(key)` */
  function Get<K, V>(m: map<K, V>, key: K): Option<V> {
    if key in m then Some(m[key]) else None
  }

  ghost predicate NoDuplicates<T>(xs: seq<T>) {
    forall i, j | 0 <= i < j < |xs| :: xs[i] != xs[j]
  }

  lemma SubsetSize<T>(s: set<T>, t: set<T>)
    requires s <= t
    ensures |s| <= |t| && (|s| == |t| <==> s == t)
  {
    assert t == s + (t - s);
    assert |t| == |s| + |t - s|;
  }
}
