/**
 Objects of json_object.c on top of the hash table: an insertion-ordered map under every
 sequence of operations, across tombstones and resizes.
 */
module JsonObject {
  import opened OrderedMap
  import opened LinkHash

  datatype Op<K, V> = Add(k: K, v: V) | Del(k: K) | Find(k: K)

  function Apply<K(==), V>(m: OMap<K, V>, op: Op<K, V>): OMap<K, V> {
    match op
    case Add(k, v) => Put(m, k, v)
    case Del(k) => Remove(m, k)
    case Find(k) => m
  }

  function ApplyAll<K(==), V>(m: OMap<K, V>, ops: seq<Op<K, V>>): OMap<K, V> {
    if ops == [] then m else Apply(ApplyAll(m, ops[..|ops| - 1]), ops[|ops| - 1])
  }

  /** `json_object_object_get_ex` */
  method ObjectGet<K(==), V(==)>(t: LhTable<K, V>, k: K) returns (v: Option<V>)
    requires t.Valid() && UniqueKeys(t.Contents())
    ensures v == Get(t.Contents(), k)
  {
    var e := t.LookupEntry(k);
    ghost var m := t.Contents();
    if e == NIL {
      IndexOfIs(m, k, -1);
      v := None;
    } else {
      ghost var p := LhTable.PositionOf(t.table[..], t.order, e);
      LhTable.ContentsAre(t.table[..], t.order);
      IndexOfIs(m, k, p);
      v := Some(t.table[e].slot.v);
    }
  }

  /** `json_object_object_add`: replaces the value of an existing key in place, else appends. */
  method ObjectAdd<K(==), V(==)>(t: LhTable<K, V>, k: K, v: V)
    requires t.Valid() && UniqueKeys(t.Contents())
    modifies t, t.table
    ensures t.Valid() && (t.table == old(t.table) || fresh(t.table))
    ensures t.Contents() == Put(old(t.Contents()), k, v) && UniqueKeys(t.Contents())
  {
    var e := t.LookupEntry(k);
    ghost var m := t.Contents();
    PutLaws(m, k, v, k);
    if e == NIL {
      IndexOfIs(m, k, -1);
      t.Insert(k, v);
    } else {
      ghost var p := t.SetValue(e, v);
      IndexOfIs(m, k, p);
    }
  }

  /** `json_object_object_del` */
  method ObjectDel<K(==), V(==)>(t: LhTable<K, V>, k: K)
    requires t.Valid() && UniqueKeys(t.Contents())
    modifies t, t.table
    ensures t.Valid() && t.table == old(t.table)
    ensures t.Contents() == Remove(old(t.Contents()), k) && UniqueKeys(t.Contents())
  {
    RemoveLaws(t.Contents(), k, k);
    var r := t.Delete(k);
  }

  method RunOp<K(==), V(==)>(t: LhTable<K, V>, op: Op<K, V>) returns (answer: Option<V>)
    requires t.Valid() && UniqueKeys(t.Contents())
    modifies t, t.table
    ensures t.Valid() && (t.table == old(t.table) || fresh(t.table))
    ensures t.Contents() == Apply(old(t.Contents()), op) && UniqueKeys(t.Contents())
    ensures answer == Answer(old(t.Contents()), op)
  {
    answer := None;
    match op
    case Add(k, v) => ObjectAdd(t, k, v);
    case Del(k) => ObjectDel(t, k);
    case Find(k) => answer := ObjectGet(t, k);
  }

  /** What a lookup answers; nothing for an update. */
  function Answer<K(==), V>(m: OMap<K, V>, op: Op<K, V>): Option<V> {
    if op.Find? then Get(m, op.k) else None
  }

  function Answers<K(==), V>(m: OMap<K, V>, ops: seq<Op<K, V>>): seq<Option<V>> {
    if ops == [] then []
    else
      var rest := ops[..|ops| - 1];
      Answers(m, rest) + [Answer(ApplyAll(m, rest), ops[|ops| - 1])]
  }

  /**
   Any sequence of additions, replacements, deletions and lookups acts on the table exactly as
   it acts on an insertion-ordered map, and every lookup answers as that map does.
   */
  method RunOps<K(==), V(==)>(t: LhTable<K, V>, ops: seq<Op<K, V>>) returns (answers: seq<Option<V>>)
    requires t.Valid() && UniqueKeys(t.Contents())
    modifies t, t.table
    ensures t.Valid() && t.Contents() == ApplyAll(old(t.Contents()), ops) && t.count == |t.Contents()|
    ensures answers == Answers(old(t.Contents()), ops)
  {
    hide UniqueKeys, Apply;
    answers := [];
    ghost var m := t.Contents();
    for i := 0 to |ops|
      invariant t.Valid() && UniqueKeys(t.Contents()) && t.Contents() == ApplyAll(m, ops[..i])
      invariant t.table == old(t.table) || fresh(t.table)
      invariant answers == Answers(m, ops[..i])
    {
      assert ops[..i + 1][..i] == ops[..i];
      var answer := RunOp(t, ops[i]);
      answers := answers + [answer];
    }
    assert ops[..|ops|] == ops;
    t.ContentsCount();
  }
}
