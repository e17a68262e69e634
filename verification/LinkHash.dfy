/**
 The hash table of linkhash.c: open addressing with EMPTY and FREED slots and a doubly linked
 list through the slots. Links are slot numbers, -1 for NULL; the hash function is arbitrary.
 */
module LinkHash {
  import opened OrderedMap

  /** The key field of a slot, with the value that goes with a real key. */
  datatype Slot<K, V> = Empty | Freed | Live(k: K, v: V)

  datatype Entry<K, V> = Entry(slot: Slot<K, V>, next: int, prev: int)

  const NIL: int := -1

  /** The slot reached from `h` by `j` probes in a table of `size` slots. */
  function Probe(h: nat, j: nat, size: nat): nat
    requires h < size && j < size
  {
    if h + j < size then h + j else h + j - size
  }

  /** How many probes lead from `h` to slot `n`. */
  function Distance(h: nat, n: nat, size: nat): (d: nat)
    requires h < size && n < size
    ensures d < size && Probe(h, d, size) == n
    ensures forall j: nat | j < size && Probe(h, j, size) == n :: j == d
  {
    if h <= n then n - h else n + size - h
  }

  /** `count >= size * LH_LOAD_FACTOR`, with the factor 0.66 taken exactly. */
  predicate Full(count: nat, size: nat) {
    100 * count >= 66 * size
  }

  /** The 16 slots that an object starts with grow in front of the 12th key, and its 32 slots in front of the 23rd. */
  lemma DefaultLimits(count: nat)
    ensures Full(count, 16) <==> count >= 11
    ensures Full(count, 32) <==> count >= 22
  {}

  // ---------------------------------------------------------------- the invariant, on values

  /** Slot numbers in list order: each live slot occurs exactly once. */
  ghost predicate Lists<K, V>(t: seq<Entry<K, V>>, order: seq<nat>) {
    && (forall i | 0 <= i < |order| :: order[i] < |t| && t[order[i]].slot.Live?)
    && (forall i, j | 0 <= i < j < |order| :: order[i] != order[j])
    && (forall n | 0 <= n < |t| && t[n].slot.Live? :: n in order)
  }

  function At(order: seq<nat>, i: int): int {
    if 0 <= i < |order| then order[i] else NIL
  }

  /** The links of the `i`th listed slot lead to its neighbours. */
  predicate LinkedAt<K, V>(t: seq<Entry<K, V>>, order: seq<nat>, i: nat)
    requires i < |order| && order[i] < |t|
  {
    t[order[i]].next == At(order, i + 1) && t[order[i]].prev == At(order, i - 1)
  }

  /** `next` and `prev` mirror each other along the list. */
  ghost predicate Linked<K, V>(t: seq<Entry<K, V>>, order: seq<nat>)
    requires Lists(t, order)
  {
    forall i: nat | i < |order| :: LinkedAt(t, order, i)
  }

  /** No EMPTY slot lies between the hash slot of a live key and the slot that holds it. */
  ghost predicate Reachable<K, V>(t: seq<Entry<K, V>>, hash: K -> nat) {
    |t| > 0 &&
    forall n, j: nat | 0 <= n < |t| && t[n].slot.Live? && j < Distance(hash(t[n].slot.k) % |t|, n, |t|) ::
      t[Probe(hash(t[n].slot.k) % |t|, j, |t|)].slot != Empty
  }

  ghost function ListContents<K, V>(t: seq<Entry<K, V>>, order: seq<nat>): (m: OMap<K, V>)
    requires Lists(t, order)
    ensures |m| == |order| && forall i | 0 <= i < |m| :: m[i] == (t[order[i]].slot.k, t[order[i]].slot.v)
  {
    seq(|order|, i requires 0 <= i < |order| => (t[order[i]].slot.k, t[order[i]].slot.v))
  }

  /** As many live slots as slots leaves no room for a distinct list that is shorter. */
  lemma {:induction false} AllLive<K, V>(t: seq<Entry<K, V>>, order: seq<nat>, n: nat)
    requires Lists(t, order) && n <= |t| && forall k | 0 <= k < n :: t[k].slot.Live?
    ensures n <= |set i | i in order && i < n|
    ensures |set i | i in order && i < n| <= |order|
  {
    var s := set i | i in order && i < n;
    if n > 0 {
      AllLive(t, order, n - 1);
      var r := set i | i in order && i < n - 1;
      assert t[n - 1].slot.Live?;
      assert s == r + {n - 1};
    }
    SetOfSeq(order, s);
  }

  lemma {:induction false} SetOfSeq(q: seq<nat>, s: set<nat>)
    requires forall x | x in s :: x in q
    ensures |s| <= |q|
  {
    if q != [] {
      var last := q[|q| - 1];
      SetOfSeq(q[..|q| - 1], s - {last});
    } else {
      assert s == {};
    }
  }

  class LhTable<K(==), V(==)> {
    const hash: K -> nat
    var size: nat
    var count: nat
    var head: int
    var tail: int
    var table: array<Entry<K, V>>
    ghost var order: seq<nat>

    ghost predicate Valid()
      reads this, table
    {
      && size == table.Length > 0 && count == |order| <= size
      && Lists(table[..], order) && Linked(table[..], order) && Reachable(table[..], hash)
      && head == At(order, 0) && tail == At(order, |order| - 1)
    }

    /** Keys and values in the order of the list from `head` along `next`. */
    ghost function Contents(): OMap<K, V>
      reads this, table
      requires Valid()
    {
      ListContents(table[..], order)
    }

    /** `lh_table_new` */
    constructor (size: nat, hash: K -> nat)
      requires size > 0
      ensures Valid() && fresh(table) && Contents() == [] && this.size == size && this.hash == hash
    {
      this.hash := hash;
      this.size, count, head, tail, order := size, 0, NIL, NIL, [];
      this.table := new Entry<K, V>[size](_ => Entry(Empty, NIL, NIL));
    }

    /** `lh_table_lookup_entry`: some slot that holds `k`, or NIL when there is none. */
    method LookupEntry(k: K) returns (n: int)
      requires Valid()
      ensures n == NIL ==> forall i | 0 <= i < |Contents()| :: Contents()[i].0 != k
      ensures n != NIL ==> 0 <= n < size && table[n].slot.Live? && table[n].slot.k == k
    {
      hide Linked, Lists, Reachable;
      var h := hash(k) % size;
      var m, probes := h, 0;
      while probes < size
        invariant probes <= size && (probes < size ==> m == Probe(h, probes, size))
        invariant Missed(table[..], h, k, probes)
      {
        if table[m].slot == Empty {
          NotBehind(table[..], order, hash, k, probes);
          return NIL;
        }
        if table[m].slot != Freed && table[m].slot.k == k {
          return m;
        }
        m := m + 1;
        if m == size {
          m := 0;
        }
        probes := probes + 1;
      }
      NotBehind(table[..], order, hash, k, size);
      n := NIL;
    }

    /** The probe loop of `lh_table_insert`: it ends at the first slot that is not live. */
    method FindSlot(k: K) returns (n: nat)
      requires Valid() && count < size
      ensures n < size && !table[n].slot.Live?
      ensures Occupied(table[..], hash(k) % size, Distance(hash(k) % size, n, size))
    {
      hide Linked, Lists, Reachable;
      ghost var h, probes := hash(k) % size, 0;
      n := hash(k) % size;
      SomeSlotIsFree(table[..], order, h);
      while table[n].slot.Live?
        invariant probes < size && n == Probe(h, probes, size)
        invariant Occupied(table[..], h, probes)
        decreases size - probes
      {
        probes := probes + 1;
        n := n + 1;
        if n == size {
          n := 0;
        }
      }
    }

    /** The part of `lh_table_insert` behind the load test. */
    method Place(k: K, v: V)
      requires Valid() && count < size
      modifies this, table
      ensures Valid() && table == old(table) && size == old(size) && count == old(count) + 1
      ensures Contents() == old(Contents()) + [(k, v)]
    {
      hide Linked, Lists, Reachable, ListContents;
      var n := FindSlot(k);
      ghost var t, o := table[..], order;
      InsertKeepsList(t, o, n, k, v);
      InsertKeepsReachable(t, o, hash, n, k, v);
      LastIsListed(t, o);
      table[n] := table[n].(slot := Live(k, v));
      count := count + 1;
      if head == NIL {
        head, tail := n, n;
        table[n] := table[n].(next := NIL, prev := NIL);
      } else {
        table[tail] := table[tail].(next := n);
        table[n] := table[n].(prev := tail);
        table[n] := table[n].(next := NIL);
        tail := n;
      }
      order := order + [n];
      assert table[..] == Inserted(t, o, n, k, v);
    }

    static lemma LastIsListed(t: seq<Entry<K, V>>, order: seq<nat>)
      requires Lists(t, order)
      ensures forall i | 0 <= i < |order| :: order[i] < |t| && t[order[i]].slot.Live?
    {}

    /** `lh_table_insert`: appends, without a look at keys that are there already. */
    method Insert(k: K, v: V)
      requires Valid()
      modifies this, table
      ensures Valid() && Contents() == old(Contents()) + [(k, v)]
      ensures size == if Full(old(count), old(size)) then 2 * old(size) else old(size)
      ensures table == old(table) || fresh(table)
      decreases if Full(count, size) then 2 else 0
    {
      if Full(count, size) {
        Resize(2 * size);
      }
      Place(k, v);
    }

    /**
     `lh_table_resize`. Only the new table's slots and the requested size are taken over, so the
     table is sound afterwards exactly when none of the inserts made the new table grow again.
     */
    method Resize(newSize: nat)
      requires Valid() && newSize > 0
      modifies this
      ensures Valid() <==> old(count) == 0 || !Full(old(count) - 1, newSize)
      ensures Valid() ==> Contents() == old(Contents())
      ensures size == newSize && fresh(table) && count == old(count)
      decreases if count == 0 || !Full(count - 1, newSize) then 1 else 3
    {
      hide Linked, Lists, Reachable, ListContents, Full;
      var newT := new LhTable<K, V>(newSize, hash);
      CopyInto(newT);
      table := newT.table;
      size := newSize;
      head := newT.head;
      tail := newT.tail;
      order := newT.order;
    }

    /** Inserts every entry, in list order, into a new table. */
    method CopyInto(newT: LhTable<K, V>)
      requires Valid() && newT.Valid() && newT.Contents() == [] && newT.hash == hash
      requires newT != this && newT.table != table
      modifies newT, newT.table
      ensures newT.Valid() && newT.Contents() == Contents() && newT.count == count
      ensures newT.table == old(newT.table) || fresh(newT.table)
      ensures newT.size == old(newT.size) <==> count == 0 || !Full(count - 1, old(newT.size))
      ensures newT.size >= old(newT.size)
      decreases if count == 0 || !Full(count - 1, newT.size) then 1 else 3, 0
    {
      hide Linked, Lists, Reachable, ListContents;
      ghost var all, newSize := Contents(), newT.size;
      var ent := head;
      ghost var i := 0;
      LastIsListed(table[..], order);
      ContentsAre(table[..], order);
      newT.ContentsCount();
      while ent != NIL
        invariant newT.Valid() && newT.hash == hash && (newT.table == old(newT.table) || fresh(newT.table))
        invariant newT.size >= newSize && (newT.size == newSize <==> i == 0 || !Full(i - 1, newSize))
        invariant i <= |order| && ent == At(order, i) && newT.Contents() == all[..i] && newT.count == i
        decreases |order| - i
      {
        assert LinkedAt(table[..], order, i) by { LinksAre(table[..], order); }
        newT.Insert(table[ent].slot.k, table[ent].slot.v);
        newT.ContentsCount();
        ent := table[ent].next;
        i := i + 1;
        assert all[..i] == all[..i - 1] + [all[i - 1]];
      }
    }

    lemma ContentsCount()
      requires Valid()
      ensures |Contents()| == count
    {}

    static lemma ContentsAre(t: seq<Entry<K, V>>, order: seq<nat>)
      requires Lists(t, order)
      ensures var m := ListContents(t, order);
              |m| == |order| && forall i | 0 <= i < |m| :: m[i] == (t[order[i]].slot.k, t[order[i]].slot.v)
    {}

    static lemma LinksAre(t: seq<Entry<K, V>>, order: seq<nat>)
      requires Lists(t, order) && Linked(t, order)
      ensures forall i: nat | i < |order| :: LinkedAt(t, order, i)
    {}

    /** `lh_table_delete_entry`: -2 for a negative slot number, -1 for a slot without a key, 0 on success. */
    method DeleteEntry(n: int) returns (r: int, ghost p: nat)
      requires Valid() && n < size
      modifies this, table
      ensures Valid() && table == old(table) && size == old(size)
      ensures r == if n < 0 then -2 else if old(table[n].slot.Live?) then 0 else -1
      ensures r != 0 ==> Contents() == old(Contents())
      ensures r == 0 ==> p < |old(order)| && old(order)[p] == n && Contents() == Without(old(Contents()), p)
    {
      p := 0;
      if n < 0 {
        return -2, 0;
      }
      if table[n].slot == Empty || table[n].slot == Freed {
        return -1, 0;
      }
      p := PositionOf(table[..], order, n);
      RemoveListed(n, p);
      r := 0;
    }

    method RemoveListed(n: nat, ghost p: nat)
      requires Valid() && p < |order| && order[p] == n
      modifies this, table
      ensures Valid() && table == old(table) && size == old(size)
      ensures Contents() == Without(old(Contents()), p)
    {
      hide Linked, Lists, Reachable, ListContents, Deleted, Without, At;
      ghost var t, o := table[..], order;
      DeleteKeepsList(t, o, p);
      DeleteKeepsReachable(t, o, hash, p);
      EndsWithout(o, p);
      count := count - 1;
      order := Without(o, p);
      Unlink(n, o, p);
    }

    /** Marks slot `n` as freed and takes it out of the list. */
    method Unlink(n: nat, ghost o: seq<nat>, ghost p: nat)
      requires size == table.Length && Lists(table[..], o) && Linked(table[..], o)
      requires p < |o| && o[p] == n && head == At(o, 0) && tail == At(o, |o| - 1)
      modifies `head, `tail, table
      ensures table[..] == Deleted(old(table[..]), o, p)
      ensures head == At(o, if p == 0 then 1 else 0)
      ensures tail == At(o, if p == |o| - 1 then |o| - 2 else |o| - 1)
    {
      hide Linked, Lists;
      ghost var t := table[..];
      LastIsListed(t, o);
      assert LinkedAt(t, o, p) by { LinksAre(t, o); }
      if p > 0 { Distinct(t, o, 0, p); Distinct(t, o, p - 1, p); }
      if p + 1 < |o| { Distinct(t, o, p, |o| - 1); Distinct(t, o, p, p + 1); }
      if p > 0 && p + 1 < |o| { Distinct(t, o, p - 1, p + 1); }
      assert (head == n) == (p == 0) && (tail == n) == (p == |o| - 1);
      table[n] := table[n].(slot := Freed);
      if tail == n && head == n {
        head, tail := NIL, NIL;
      } else if head == n {
        table[table[head].next] := table[table[head].next].(prev := NIL);
        head := table[head].next;
      } else if tail == n {
        table[table[tail].prev] := table[table[tail].prev].(next := NIL);
        tail := table[tail].prev;
      } else {
        table[table[n].prev] := table[table[n].prev].(next := table[n].next);
        table[table[n].next] := table[table[n].next].(prev := table[n].prev);
      }
      table[n] := table[n].(next := NIL, prev := NIL);
    }

    /** `lh_table_delete`: with unique keys, exactly the binding of `k` goes. */
    method Delete(k: K) returns (r: int)
      requires Valid() && UniqueKeys(Contents())
      modifies this, table
      ensures Valid() && table == old(table) && size == old(size) && Contents() == Remove(old(Contents()), k)
      ensures r == if k in Keys(old(Contents())) then 0 else -1
    {
      hide Linked, Lists, Reachable, ListContents;
      var e := LookupEntry(k);
      ghost var m := Contents();
      if e == NIL {
        IndexOfIs(m, k, -1);
        assert k !in Keys(m);
        return -1;
      }
      ghost var p := PositionOf(table[..], order, e);
      ContentsAre(table[..], order);
      assert m[p].0 == k && Keys(m)[p] == k;
      IndexOfIs(m, k, p);
      RemoveListed(e, p);
      r := 0;
    }

    /** Overwrites the value of a live slot, as `json_object_object_add` does with an existing entry. */
    method SetValue(n: nat, v: V) returns (ghost p: nat)
      requires Valid() && n < size && table[n].slot.Live?
      modifies table
      ensures Valid() && p < |Contents()| && old(Contents())[p].0 == old(table[n].slot.k)
      ensures Contents() == old(Contents())[p := (old(table[n].slot.k), v)]
    {
      hide Linked, Lists, Reachable, ListContents;
      ghost var t, o := table[..], order;
      p := PositionOf(t, o, n);
      SetKeepsAll(t, o, hash, p, v);
      ContentsAre(t, o);
      table[n] := table[n].(slot := Live(table[n].slot.k, v));
      assert table[..] == t[n := t[n].(slot := Live(t[n].slot.k, v))];
    }

    /** `lh_table_free`: the free function sees every entry exactly once, in list order. */
    method Free() returns (freed: seq<(K, V)>)
      requires Valid()
      ensures freed == Contents()
    {
      freed := [];
      var c := head;
      ghost var i := 0;
      ContentsAre(table[..], order);
      while c != NIL
        invariant i <= |order| && c == At(order, i) && freed == Contents()[..i]
        decreases |order| - i
      {
        assert LinkedAt(table[..], order, i);
        freed := freed + [(table[c].slot.k, table[c].slot.v)];
        c := table[c].next;
        i := i + 1;
      }
    }

    static lemma PositionOf(t: seq<Entry<K, V>>, order: seq<nat>, n: nat) returns (p: nat)
      requires Lists(t, order) && n < |t| && t[n].slot.Live?
      ensures p < |order| && order[p] == n
    {
      p :| p < |order| && order[p] == n;
    }
  }

  /**
   Two entries in a table of four, resized to one slot: the copying inserts grow the new table, and its size is
   forgotten.
   */
  method ShrinkLosesTable() returns (t: LhTable<nat, nat>)
    ensures !t.Valid() && t.size == 1 && t.count == 2
  {
    t := new LhTable<nat, nat>(4, k => k);
    t.ContentsCount();
    t.Insert(0, 0);
    t.ContentsCount();
    t.Insert(1, 1);
    t.ContentsCount();
    t.Resize(1);
  }

  /** A sequence without its `p`th element. */
  function Without<T>(s: seq<T>, p: nat): seq<T>
    requires p < |s|
  {
    s[..p] + s[p + 1..]
  }

  // ---------------------------------------------------------------- deletion, on values

  /** The table after the `p`th listed slot has been unlinked and freed. */
  function Deleted<K, V>(t: seq<Entry<K, V>>, order: seq<nat>, p: nat): seq<Entry<K, V>>
    requires p < |order| && forall i | 0 <= i < |order| :: order[i] < |t|
  {
    var t1 := if p > 0 then t[order[p - 1] := t[order[p - 1]].(next := At(order, p + 1))] else t;
    var t2 := if p + 1 < |order| then t1[order[p + 1] := t1[order[p + 1]].(prev := At(order, p - 1))] else t1;
    t2[order[p] := Entry(Freed, NIL, NIL)]
  }

  lemma DeleteKeepsSlots<K, V>(t: seq<Entry<K, V>>, order: seq<nat>, p: nat)
    requires p < |order| && forall i | 0 <= i < |order| :: order[i] < |t|
    ensures var t' := Deleted(t, order, p);
            && |t'| == |t| && t'[order[p]].slot == Freed
            && forall i | 0 <= i < |t| && i != order[p] :: t'[i].slot == t[i].slot
  {}

  lemma DeleteKeepsLists<K, V>(t: seq<Entry<K, V>>, order: seq<nat>, p: nat)
    requires Lists(t, order) && p < |order|
    ensures Lists(Deleted(t, order, p), Without(order, p))
  {
    DeletedIsListed(t, order, p);
    StillDistinct(order, p);
    AllStillListed(t, order, p);
    hide Deleted, Without;
  }

  lemma DeletedIsListed<K, V>(t: seq<Entry<K, V>>, order: seq<nat>, p: nat)
    requires Lists(t, order) && p < |order|
    ensures var t', o := Deleted(t, order, p), Without(order, p);
      forall i | 0 <= i < |o| :: o[i] < |t'| && t'[o[i]].slot.Live?
  {
    DeleteKeepsSlots(t, order, p);
    WithoutIndex(order, p);
    hide Deleted, Without, Lists;
    ListedInside(t, order);
    forall i: nat | i < |order| - 1
      ensures Without(order, p)[i] < |t| && t[Without(order, p)[i]].slot.Live? && Without(order, p)[i] != order[p] {
      Distinct(t, order, Skip(i, p), p);
      ListedIsLive(t, order, Skip(i, p));
    }
  }

  lemma ListedIsLive<K, V>(t: seq<Entry<K, V>>, order: seq<nat>, i: nat)
    requires Lists(t, order) && i < |order|
    ensures order[i] < |t| && t[order[i]].slot.Live?
  {}

  lemma StillDistinct(order: seq<nat>, p: nat)
    requires p < |order| && forall i, j | 0 <= i < j < |order| :: order[i] != order[j]
    ensures var o := Without(order, p); forall i, j | 0 <= i < j < |o| :: o[i] != o[j]
  {
    WithoutIndex(order, p);
    hide Without;
  }

  lemma AllStillListed<K, V>(t: seq<Entry<K, V>>, order: seq<nat>, p: nat)
    requires Lists(t, order) && p < |order|
    ensures var t', o := Deleted(t, order, p), Without(order, p);
      forall m | 0 <= m < |t'| && t'[m].slot.Live? :: m in o
  {
    var t', o := Deleted(t, order, p), Without(order, p);
    DeleteKeepsSlots(t, order, p);
    WithoutIndex(order, p);
    hide Deleted, Without;
    forall m | 0 <= m < |t'| && t'[m].slot.Live? ensures m in o {
      assert m in order;
      var i :| 0 <= i < |order| && order[i] == m;
      assert o[if i < p then i else i - 1] == m;
    }
  }

  /** The position in `s` of the `i`th element of `Without(s, p)`. */
  function Skip(i: int, p: int): int {
    if i < p then i else i + 1
  }

  lemma WithoutAt(order: seq<nat>, p: nat, i: int)
    requires p < |order| && -1 <= i <= |order| - 1
    ensures |Without(order, p)| == |order| - 1
    ensures At(Without(order, p), i) == At(order, if i == -1 then -1 else Skip(i, p))
  {}

  lemma EndsWithout(order: seq<nat>, p: nat)
    requires p < |order|
    ensures var o := Without(order, p);
            && |o| == |order| - 1
            && At(o, 0) == At(order, if p == 0 then 1 else 0)
            && At(o, |o| - 1) == At(order, if p == |order| - 1 then |order| - 2 else |order| - 1)
  {}

  lemma Distinct<K, V>(t: seq<Entry<K, V>>, order: seq<nat>, i: nat, j: nat)
    requires Lists(t, order) && i < |order| && j < |order| && i != j
    ensures order[i] != order[j]
  {}

  lemma DeleteKeepsLinks<K, V>(t: seq<Entry<K, V>>, order: seq<nat>, p: nat)
    requires Lists(t, order) && Linked(t, order) && p < |order|
    requires Lists(Deleted(t, order, p), Without(order, p))
    ensures Linked(Deleted(t, order, p), Without(order, p))
  {
    var t', o := Deleted(t, order, p), Without(order, p);
    forall i: nat | i < |o| ensures LinkedAt(t', o, i) {
      DeleteKeepsLink(t, order, p, i);
    }
  }

  lemma DeleteKeepsLink<K, V>(t: seq<Entry<K, V>>, order: seq<nat>, p: nat, i: nat)
    requires Lists(t, order) && Linked(t, order) && p < |order| && i + 1 < |order|
    requires Lists(Deleted(t, order, p), Without(order, p))
    ensures LinkedAt(Deleted(t, order, p), Without(order, p), i)
  {
    hide Lists, Linked, Deleted, Without;
    WithoutAt(order, p, i - 1);
    WithoutAt(order, p, i);
    WithoutAt(order, p, i + 1);
    ListedInside(t, order);
    ListedInside(Deleted(t, order, p), Without(order, p));
    LinkSurvives(t, order, p, Skip(i, p));
  }

  lemma ListedInside<K, V>(t: seq<Entry<K, V>>, order: seq<nat>)
    requires Lists(t, order)
    ensures forall i | 0 <= i < |order| :: order[i] < |t|
  {}

  /** What unlinking position `p` does to the links of another listed slot. */
  lemma LinkSurvives<K, V>(t: seq<Entry<K, V>>, order: seq<nat>, p: nat, j: nat)
    requires Lists(t, order) && Linked(t, order) && p < |order| && j < |order| && j != p
    ensures var e := Deleted(t, order, p)[order[j]];
            && e.next == At(order, if j + 1 == p then j + 2 else j + 1)
            && e.prev == At(order, if j == p + 1 then p - 1 else j - 1)
  {
    assert LinkedAt(t, order, j);
    Distinct(t, order, j, p);
    if p > 0 && j != p - 1 { Distinct(t, order, j, p - 1); }
    if p + 1 < |order| && j != p + 1 { Distinct(t, order, j, p + 1); }
    hide Lists, Linked;
  }

  lemma DeleteKeepsList<K, V>(t: seq<Entry<K, V>>, order: seq<nat>, p: nat)
    requires Lists(t, order) && Linked(t, order) && p < |order|
    ensures var t', o := Deleted(t, order, p), Without(order, p);
            Lists(t', o) && Linked(t', o) && ListContents(t', o) == Without(ListContents(t, order), p)
  {
    DeleteKeepsLists(t, order, p);
    DeleteKeepsLinks(t, order, p);
    DeleteKeepsContents(t, order, p);
  }

  lemma WithoutIndex<T>(s: seq<T>, p: nat)
    requires p < |s|
    ensures |Without(s, p)| == |s| - 1
    ensures forall i | 0 <= i < |s| - 1 :: Without(s, p)[i] == s[Skip(i, p)]
  {}

  lemma SameSlotSameBinding<K, V>(t: seq<Entry<K, V>>, order: seq<nat>, t': seq<Entry<K, V>>, o: seq<nat>, i: nat,
                                  j: nat)
    requires Lists(t, order) && Lists(t', o) && i < |o| && j < |order| && o[i] == order[j]
    requires order[j] < |t| == |t'| && t'[o[i]].slot == t[order[j]].slot
    ensures ListContents(t', o)[i] == ListContents(t, order)[j]
  {}

  lemma DeleteKeepsContents<K, V>(t: seq<Entry<K, V>>, order: seq<nat>, p: nat)
    requires Lists(t, order) && p < |order| && Lists(Deleted(t, order, p), Without(order, p))
    ensures ListContents(Deleted(t, order, p), Without(order, p)) == Without(ListContents(t, order), p)
  {
    hide Deleted, Lists, Without, ListContents;
    ListedInside(t, order);
    var t', o := Deleted(t, order, p), Without(order, p);
    DeleteKeepsSlots(t, order, p);
    WithoutIndex(order, p);
    WithoutIndex(ListContents(t, order), p);
    forall i: nat | i < |o| ensures ListContents(t', o)[i] == Without(ListContents(t, order), p)[i] {
      var j := Skip(i, p);
      Distinct(t, order, j, p);
      SameSlotSameBinding(t, order, t', o, i, j);
    }
  }

  lemma DeleteKeepsReachable<K, V>(t: seq<Entry<K, V>>, order: seq<nat>, hash: K -> nat, p: nat)
    requires Lists(t, order) && Reachable(t, hash) && p < |order|
    ensures Reachable(Deleted(t, order, p), hash)
  {
    var t' := Deleted(t, order, p);
    DeleteKeepsSlots(t, order, p);
    hide Deleted;
    forall m, j: nat | 0 <= m < |t'| && t'[m].slot.Live? && j < Distance(hash(t'[m].slot.k) % |t|, m, |t|)
      ensures t'[Probe(hash(t'[m].slot.k) % |t|, j, |t|)].slot != Empty
    {
      assert t[Probe(hash(t[m].slot.k) % |t|, j, |t|)].slot != Empty;
    }
  }

  /** The first probes have all found live slots. */
  ghost predicate Occupied<K, V>(t: seq<Entry<K, V>>, h: nat, probes: nat)
    requires h < |t| && probes <= |t|
  {
    forall j: nat | j < probes :: t[Probe(h, j, |t|)].slot.Live?
  }

  /** Some slot is free when the list is shorter than the table, so probing for one terminates. */
  lemma SomeSlotIsFree<K, V>(t: seq<Entry<K, V>>, order: seq<nat>, h: nat)
    requires Lists(t, order) && |order| < |t| && h < |t|
    ensures !Occupied(t, h, |t|)
  {
    if Occupied(t, h, |t|) {
      forall k | 0 <= k < |t| ensures t[k].slot.Live? {
        assert Probe(h, Distance(h, k, |t|), |t|) == k;
      }
      AllLive(t, order, |t|);
      assert false;
    }
  }

  // ---------------------------------------------------------------- insertion, on values

  /** The table after `(k, v)` has been put into slot `n` and linked behind the tail. */
  function Inserted<K, V>(t: seq<Entry<K, V>>, order: seq<nat>, n: nat, k: K, v: V): seq<Entry<K, V>>
    requires n < |t| && forall i | 0 <= i < |order| :: order[i] < |t|
  {
    if order == [] then t[n := Entry(Live(k, v), NIL, NIL)]
    else
      var last := order[|order| - 1];
      t[last := t[last].(next := n)][n := Entry(Live(k, v), NIL, last)]
  }

  lemma InsertKeepsList<K, V>(t: seq<Entry<K, V>>, order: seq<nat>, n: nat, k: K, v: V)
    requires Lists(t, order) && Linked(t, order) && n < |t| && !t[n].slot.Live?
    ensures var t' := Inserted(t, order, n, k, v);
            && Lists(t', order + [n]) && Linked(t', order + [n])
            && ListContents(t', order + [n]) == ListContents(t, order) + [(k, v)]
  {
    var t', o := Inserted(t, order, n, k, v), order + [n];
    InsertKeepsSlots(t, order, n, k, v);
    InsertKeepsLists(t, order, n, k, v);
    InsertKeepsLinks(t, order, n, k, v);
    assert forall i | 0 <= i < |order| :: o[i] == order[i];
  }

  lemma InsertKeepsSlots<K, V>(t: seq<Entry<K, V>>, order: seq<nat>, n: nat, k: K, v: V)
    requires n < |t| && forall i | 0 <= i < |order| :: order[i] < |t|
    ensures var t' := Inserted(t, order, n, k, v);
            |t'| == |t| && t'[n].slot == Live(k, v) && forall i | 0 <= i < |t| && i != n :: t'[i].slot == t[i].slot
  {}

  lemma InsertKeepsLists<K, V>(t: seq<Entry<K, V>>, order: seq<nat>, n: nat, k: K, v: V)
    requires Lists(t, order) && n < |t| && !t[n].slot.Live?
    ensures Lists(Inserted(t, order, n, k, v), order + [n])
  {
    var t', o := Inserted(t, order, n, k, v), order + [n];
    InsertKeepsSlots(t, order, n, k, v);
    hide Inserted;
    forall i, j | 0 <= i < j < |o| ensures o[i] != o[j] {
      if j == |order| { assert t[order[i]].slot.Live?; }
    }
    forall m | 0 <= m < |t'| && t'[m].slot.Live? ensures m in o {
      if m != n { assert m in order; } else { assert o[|order|] == n; }
    }
  }

  lemma InsertKeepsLinks<K, V>(t: seq<Entry<K, V>>, order: seq<nat>, n: nat, k: K, v: V)
    requires Lists(t, order) && Linked(t, order) && n < |t| && !t[n].slot.Live?
    requires Lists(Inserted(t, order, n, k, v), order + [n])
    ensures Linked(Inserted(t, order, n, k, v), order + [n])
  {
    var t', o := Inserted(t, order, n, k, v), order + [n];
    forall i: nat | i < |o| ensures LinkedAt(t', o, i) {
      if i < |order| {
        assert LinkedAt(t, order, i) && order[i] != n;
        if i < |order| - 1 { assert order[i] != order[|order| - 1]; }
      }
    }
  }

  lemma InsertKeepsReachable<K, V>(t: seq<Entry<K, V>>, order: seq<nat>, hash: K -> nat, n: nat, k: K, v: V)
    requires Lists(t, order) && Reachable(t, hash) && n < |t| && !t[n].slot.Live?
    requires Occupied(t, hash(k) % |t|, Distance(hash(k) % |t|, n, |t|))
    ensures Reachable(Inserted(t, order, n, k, v), hash)
  {
    var t' := Inserted(t, order, n, k, v);
    assert forall i | 0 <= i < |t| && i != n :: t'[i].slot == t[i].slot;
    assert t'[n].slot == Live(k, v);
    forall m, j: nat | 0 <= m < |t'| && t'[m].slot.Live? && j < Distance(hash(t'[m].slot.k) % |t|, m, |t|)
      ensures t'[Probe(hash(t'[m].slot.k) % |t|, j, |t|)].slot != Empty
    {
      var p := Probe(hash(t'[m].slot.k) % |t|, j, |t|);
      if m == n {
        assert t[p].slot.Live?;
      } else {
        assert t[p].slot != Empty;
      }
    }
  }

  lemma SetKeepsAll<K, V>(t: seq<Entry<K, V>>, order: seq<nat>, hash: K -> nat, p: nat, v: V)
    requires Lists(t, order) && Linked(t, order) && Reachable(t, hash) && p < |order|
    ensures var n := order[p]; var t' := t[n := t[n].(slot := Live(t[n].slot.k, v))];
            && Lists(t', order) && Linked(t', order) && Reachable(t', hash)
            && ListContents(t', order) == ListContents(t, order)[p := (t[n].slot.k, v)]
  {
    var n := order[p];
    var t' := t[n := t[n].(slot := Live(t[n].slot.k, v))];
    assert forall i | 0 <= i < |t| ::
      t'[i].slot.Live? == t[i].slot.Live? && (t[i].slot == Empty) == (t'[i].slot == Empty);
    assert Lists(t', order);
    forall i: nat | i < |order| ensures LinkedAt(t', order, i) {
      assert LinkedAt(t, order, i);
    }
    forall m, j: nat | 0 <= m < |t'| && t'[m].slot.Live? && j < Distance(hash(t'[m].slot.k) % |t|, m, |t|)
      ensures t'[Probe(hash(t'[m].slot.k) % |t|, j, |t|)].slot != Empty
    {
      assert t'[m].slot.k == t[m].slot.k;
      assert t[Probe(hash(t[m].slot.k) % |t|, j, |t|)].slot != Empty;
    }
  }

  /** None of the first probes has found `k`. */
  ghost predicate Missed<K, V>(t: seq<Entry<K, V>>, h: nat, k: K, probes: nat)
    requires h < |t| && probes <= |t|
  {
    forall j: nat | j < probes :: t[Probe(h, j, |t|)].slot.Live? ==> t[Probe(h, j, |t|)].slot.k != k
  }

  /** A live slot is probed before the first EMPTY one on the way from its hash slot. */
  lemma ProbedInTime<K, V>(t: seq<Entry<K, V>>, hash: K -> nat, n: nat, probes: nat)
    requires Reachable(t, hash) && n < |t| && t[n].slot.Live? && probes <= |t|
    requires var h := hash(t[n].slot.k) % |t|; probes < |t| ==> t[Probe(h, probes, |t|)].slot == Empty
    ensures Distance(hash(t[n].slot.k) % |t|, n, |t|) < probes
  {
    var h := hash(t[n].slot.k) % |t|;
    var d := Distance(h, n, |t|);
    assert Probe(h, d, |t|) == n;
  }

  /** After misses up to an EMPTY slot, or all around the table, the key is in no live slot. */
  lemma NotBehind<K, V>(t: seq<Entry<K, V>>, order: seq<nat>, hash: K -> nat, k: K, probes: nat)
    requires Reachable(t, hash) && Lists(t, order) && probes <= |t| && Missed(t, hash(k) % |t|, k, probes)
    requires probes < |t| ==> t[Probe(hash(k) % |t|, probes, |t|)].slot == Empty
    ensures forall i | 0 <= i < |order| :: t[order[i]].slot.k != k
  {
    forall i | 0 <= i < |order| ensures t[order[i]].slot.k != k {
      var n := order[i];
      if t[n].slot.k == k {
        ProbedInTime(t, hash, n, probes);
      }
    }
  }
}
