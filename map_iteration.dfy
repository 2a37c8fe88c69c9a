/** Iterating over the values of a hash map keyed by id, as the in-memory
    stores do with `values().stream().filter(...)`. The order in which a
    HashMap yields its entries is unspecified, so the iteration picks the
    next key arbitrarily; what is promised is that every entry is visited
    exactly once. */
module MapIteration {

  /** The values of `m` that satisfy `p`, in some order. `keys` is the
      order the entries were visited in: each selected entry once, and
      every entry satisfying `p` among them. */
  method SelectValues<V>(m: map<int, V>, p: V -> bool) returns (keys: seq<int>, r: seq<V>)
    ensures |keys| == |r|
    ensures forall i :: 0 <= i < |keys| ==> keys[i] in m && r[i] == m[keys[i]] && p(r[i])
    ensures forall i, j :: 0 <= i < j < |keys| ==> keys[i] != keys[j]
    ensures forall k :: k in m && p(m[k]) ==> k in keys
    ensures (forall k :: k in m ==> p(m[k])) ==> |r| == |m.Keys|
  {
    var rest := m.Keys;
    keys, r := [], [];
    while rest != {}
      invariant rest <= m.Keys
      invariant |keys| == |r|
      invariant forall i :: 0 <= i < |keys| ==> keys[i] in m.Keys - rest && r[i] == m[keys[i]] && p(r[i])
      invariant forall i, j :: 0 <= i < j < |keys| ==> keys[i] != keys[j]
      invariant forall k :: k in m.Keys - rest && p(m[k]) ==> k in keys
      invariant (forall k :: k in m ==> p(m[k])) ==> |keys| + |rest| == |m.Keys|
      decreases |rest|
    {
      assert exists k :: k in rest by {
        if forall k :: k !in rest {
          assert false;
        }
      }
      var k :| k in rest;
      if p(m[k]) {
        keys, r := keys + [k], r + [m[k]];
      }
      rest := rest - {k};
    }
  }
}
