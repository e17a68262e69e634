/** Insertion-ordered maps as association lists: the abstract value of a json-c object. */
module OrderedMap {
  datatype Option<+T> = None | Some(value: T)

  type OMap<K, V> = seq<(K, V)>

  /** The keys in order. */
  function Keys<K, V>(m: OMap<K, V>): (ks: seq<K>)
    ensures |ks| == |m| && forall i | 0 <= i < |m| :: ks[i] == m[i].0
  {
    seq(|m|, i requires 0 <= i < |m| => m[i].0)
  }

  /** Position of the first binding of `k`, or -1. */
  function IndexOf<K(==), V>(m: OMap<K, V>, k: K): (i: int)
    ensures -1 <= i < |m|
    ensures i == -1 ==> forall j | 0 <= j < |m| :: m[j].0 != k
    ensures 0 <= i ==> m[i].0 == k && forall j | 0 <= j < i :: m[j].0 != k
  {
    if m == [] then -1
    else if m[0].0 == k then 0
    else var i := IndexOf(m[1..], k); if i < 0 then -1 else i + 1
  }

  ghost predicate UniqueKeys<K, V>(m: OMap<K, V>) {
    forall i, j | 0 <= i < j < |m| :: m[i].0 != m[j].0
  }

  function Get<K(==), V>(m: OMap<K, V>, k: K): Option<V> {
    var i := IndexOf(m, k);
    if i < 0 then None else Some(m[i].1)
  }

  /** Binds `k` to `v`: in place when `k` is bound already, at the end otherwise. */
  function Put<K(==), V>(m: OMap<K, V>, k: K, v: V): OMap<K, V> {
    var i := IndexOf(m, k);
    if i < 0 then m + [(k, v)] else m[i := (k, v)]
  }

  /** Removes the first binding of `k`, if there is one. */
  function Remove<K(==), V>(m: OMap<K, V>, k: K): OMap<K, V> {
    var i := IndexOf(m, k);
    if i < 0 then m else m[..i] + m[i + 1..]
  }

  /** The first position that holds `k` is what IndexOf returns. */
  lemma IndexOfIs<K, V>(m: OMap<K, V>, k: K, i: int)
    requires -1 <= i < |m| && (0 <= i ==> m[i].0 == k)
    requires forall j | 0 <= j < (if i < 0 then |m| else i) :: m[j].0 != k
    ensures IndexOf(m, k) == i
  {}

  /** Put is a map update that never moves a key that is already there. */
  lemma PutLaws<K, V>(m: OMap<K, V>, k: K, v: V, q: K)
    ensures Get(Put(m, k, v), q) == (if q == k then Some(v) else Get(m, q))
    ensures Keys(Put(m, k, v)) == if k in Keys(m) then Keys(m) else Keys(m) + [k]
    ensures UniqueKeys(m) ==> UniqueKeys(Put(m, k, v))
  {
    var p, i := Put(m, k, v), IndexOf(m, k);
    assert forall x | 0 <= x < |m| :: p[x].0 == m[x].0;
    assert k in Keys(m) <==> 0 <= i by { assert 0 <= i ==> Keys(m)[i] == k; }
    IndexOfIs(p, q, if q != k then IndexOf(m, q) else if i < 0 then |m| else i);
  }

  /** Remove unbinds exactly `k` and keeps the order of the others. */
  lemma RemoveLaws<K, V>(m: OMap<K, V>, k: K, q: K)
    requires UniqueKeys(m)
    ensures Get(Remove(m, k), q) == (if q == k then None else Get(m, q))
    ensures UniqueKeys(Remove(m, k))
    ensures |Remove(m, k)| == if k in Keys(m) then |m| - 1 else |m|
    ensures k !in Keys(m) ==> Keys(Remove(m, k)) == Keys(m)
    ensures forall x | 0 <= x < |m| && m[x].0 == k :: Keys(Remove(m, k)) == Keys(m)[..x] + Keys(m)[x + 1..]
  {
    var p, i, j := Remove(m, k), IndexOf(m, k), IndexOf(m, q);
    assert k in Keys(m) <==> 0 <= i by { assert 0 <= i ==> Keys(m)[i] == k; }
    if 0 <= i {
      assert forall x | 0 <= x < |p| :: p[x] == m[if x < i then x else x + 1];
      IndexOfIs(p, q, if q == k then -1 else if j < i then j else j - 1);
    }
  }
}
