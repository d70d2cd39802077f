/** What several modules share. */
module Prelude {

  datatype Option<T> = None | Some(value: T)

  /** The map that gives every key the same value. */
  ghost function Constant<K, V>(keys: set<K>, v: V): (m: map<K, V>)
    ensures m.Keys == keys && forall k <- keys :: m[k] == v
  {
    if keys == {} then map[] else
    var k :| k in keys;
    Constant(keys - {k}, v)[k := v]
  }

  lemma SubsetSize<T>(a: set<T>, b: set<T>)
    requires a <= b
    ensures |a| <= |b| && (|a| == |b| ==> a == b)
  {
    assert b == a + (b - a);
    assert |b| == |a| + |b - a|;
  }
}
