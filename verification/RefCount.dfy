/**
 Reference counts of JSON nodes (json_object.c): a heap of nodes that own their children, and the recursive
 release of `json_object_put`.
 */
module RefCount {
  import opened Bytes
  import opened JsonValue

  /** A `json_object *`. */
  datatype Ref = Null | To(id: nat)

  datatype Shape =
    | Leaf(v: Json)
    | Arr(items: seq<Ref>)
    | Obj(members: seq<(bytes, Ref)>)

  datatype Node = Node(rc: nat, shape: Shape)

  type Heap = map<nat, Node>

  function Values(ms: seq<(bytes, Ref)>): (r: seq<Ref>)
    ensures |r| == |ms|
  {
    seq(|ms|, i requires 0 <= i < |ms| => ms[i].1)
  }

  /** The references that a node owns. */
  function Kids(s: Shape): seq<Ref> {
    match s
    case Leaf(_) => []
    case Arr(items) => items
    case Obj(members) => Values(members)
  }

  /** `json_object_get` */
  function Get(h: Heap, r: Ref): Heap {
    if r.To? && r.id in h then h[r.id := h[r.id].(rc := h[r.id].rc + 1)] else h
  }

  /** `json_object_put` on each reference in turn; a node that loses its last owner puts its own children first. */
  function PutAll(h: Heap, refs: seq<Ref>): Heap
    decreases |h|, |refs|
  {
    if refs == [] then h
    else
      var r := refs[0];
      if r.Null? || r.id !in h then PutAll(h, refs[1..])
      else if h[r.id].rc > 1 then PutAll(h[r.id := h[r.id].(rc := h[r.id].rc - 1)], refs[1..])
      else
        SmallerWithout(h, r.id);
        PutAll(h - {r.id}, Kids(h[r.id].shape) + refs[1..])
  }

  lemma SmallerWithout(h: Heap, k: nat)
    requires k in h
    ensures |h - {k}| < |h|
  {
    assert (h - {k}).Keys == h.Keys - {k};
    assert |h.Keys - {k}| < |h.Keys|;
  }

  // ---------------------------------------------------------------- counting owners

  function Count(refs: seq<Ref>, n: nat): nat {
    if refs == [] then 0 else (if refs[0] == To(n) then 1 else 0) + Count(refs[1..], n)
  }

  lemma {:induction false} CountAppend(a: seq<Ref>, b: seq<Ref>, n: nat)
    ensures Count(a + b, n) == Count(a, n) + Count(b, n)
  {
    if a == [] {
      assert a + b == b;
    } else {
      CountAppend(a[1..], b, n);
      assert (a + b)[1..] == a[1..] + b;
    }
  }

  lemma {:induction false} CountMember(refs: seq<Ref>, i: nat)
    requires i < |refs| && refs[i].To?
    ensures Count(refs, refs[i].id) > 0
  {
    if i > 0 { CountMember(refs[1..], i - 1); }
  }

  function KidCountAt(h: Heap, k: nat, n: nat): nat {
    if k in h then Count(Kids(h[k].shape), n) else 0
  }

  /** How many times the nodes below `b` own `n`. */
  function KidCount(h: Heap, b: nat, n: nat): nat {
    if b == 0 then 0 else KidCount(h, b - 1, n) + KidCountAt(h, b - 1, n)
  }

  lemma {:induction false} KidCountSame(h: Heap, h': Heap, b: nat, n: nat)
    requires forall k: nat | k < b :: KidCountAt(h, k, n) == KidCountAt(h', k, n)
    ensures KidCount(h, b, n) == KidCount(h', b, n)
  {
    if b > 0 { KidCountSame(h, h', b - 1, n); }
  }

  /** Only what node `k` owns makes a difference. */
  lemma {:induction false} KidCountChange(h: Heap, h': Heap, b: nat, k: nat, n: nat)
    requires k < b && forall j: nat | j < b && j != k :: KidCountAt(h, j, n) == KidCountAt(h', j, n)
    ensures KidCount(h', b, n) == KidCount(h, b, n) - KidCountAt(h, k, n) + KidCountAt(h', k, n)
  {
    if k == b - 1 {
      KidCountSame(h, h', b - 1, n);
    } else {
      KidCountChange(h, h', b - 1, k, n);
    }
  }

  lemma {:induction false} KidCountHas(h: Heap, b: nat, k: nat, n: nat)
    requires k < b
    ensures KidCount(h, b, n) >= KidCountAt(h, k, n)
  {
    if k < b - 1 { KidCountHas(h, b - 1, k, n); }
  }

  function Rc(h: Heap, n: nat): nat {
    if n in h then h[n].rc else 0
  }

  /** Children are younger than their parent, and a leaf holds a scalar. */
  predicate NodeOk(h: Heap, k: nat)
    requires k in h
  {
    h[k].rc > 0 && (h[k].shape.Leaf? ==> !h[k].shape.v.JNull? && !h[k].shape.v.JArray? && !h[k].shape.v.JObject?) &&
    forall i | 0 <= i < |Kids(h[k].shape)| :: Kids(h[k].shape)[i].To? ==> Kids(h[k].shape)[i].id > k
  }

  /**
   Every reference count is the number of owners, among the roots and the nodes; `b` is above all nodes.
   */
  ghost predicate Counted(h: Heap, b: nat, roots: seq<Ref>) {
    (forall k | k in h :: k < b && NodeOk(h, k)) &&
    (forall n: nat :: Rc(h, n) == Count(roots, n) + KidCount(h, b, n))
  }

  /** No reference dangles. */
  lemma RootIsLive(h: Heap, b: nat, roots: seq<Ref>, i: nat)
    requires Counted(h, b, roots) && i < |roots| && roots[i].To?
    ensures roots[i].id in h
  {
    CountMember(roots, i);
  }

  lemma KidIsLive(h: Heap, b: nat, roots: seq<Ref>, k: nat, i: nat)
    requires Counted(h, b, roots) && k in h && i < |Kids(h[k].shape)| && Kids(h[k].shape)[i].To?
    ensures Kids(h[k].shape)[i].id in h && Kids(h[k].shape)[i].id > k
  {
    var id := Kids(h[k].shape)[i].id;
    CountMember(Kids(h[k].shape), i);
    KidCountHas(h, b, k, id);
    assert NodeOk(h, k);
  }

  lemma CountedBy(h: Heap, b: nat, roots: seq<Ref>, roots': seq<Ref>)
    requires Counted(h, b, roots) && forall n: nat :: Count(roots, n) == Count(roots', n)
    ensures Counted(h, b, roots')
  {}

  // ---------------------------------------------------------------- release

  /** `h'` has lost nodes and owners, but no node has changed its shape. */
  predicate Within(h': Heap, h: Heap) {
    forall k | k in h' :: k in h && h'[k].shape == h[k].shape && h'[k].rc <= h[k].rc
  }

  lemma DropOne(h: Heap, b: nat, k: nat, refs: seq<Ref>)
    requires Counted(h, b, [To(k)] + refs) && k in h && h[k].rc > 1
    ensures Counted(h[k := h[k].(rc := h[k].rc - 1)], b, refs)
  {
    var h' := h[k := h[k].(rc := h[k].rc - 1)];
    forall n: nat ensures Rc(h', n) == Count(refs, n) + KidCount(h', b, n) {
      CountAppend([To(k)], refs, n);
      KidCountSame(h, h', b, n);
    }
    assert forall j | j in h' :: NodeOk(h, j) ==> NodeOk(h', j);
  }

  lemma DropLast(h: Heap, b: nat, k: nat, refs: seq<Ref>)
    requires Counted(h, b, [To(k)] + refs) && k in h && h[k].rc == 1
    ensures Counted(h - {k}, b, Kids(h[k].shape) + refs)
  {
    var h', kids := h - {k}, Kids(h[k].shape);
    forall n: nat ensures Rc(h', n) == Count(kids + refs, n) + KidCount(h', b, n) {
      CountAppend([To(k)], refs, n);
      CountAppend(kids, refs, n);
      KidCountChange(h, h', b, k, n);
    }
    assert forall j | j in h' :: NodeOk(h, j) ==> NodeOk(h', j);
  }

  /** Releasing references takes exactly these owners away; nothing that still has an owner is lost or changed. */
  lemma {:induction false} PutAllCounts(h: Heap, b: nat, refs: seq<Ref>, roots: seq<Ref>)
    requires Counted(h, b, refs + roots)
    ensures Counted(PutAll(h, refs), b, roots) && Within(PutAll(h, refs), h)
    decreases |h|, |refs|
  {
    hide Counted, NodeOk;
    if refs == [] {
      assert refs + roots == roots;
    } else {
      var r, rest := refs[0], refs[1..];
      assert refs + roots == [r] + (rest + roots);
      if r.Null? {
        SkipNull(h, b, rest + roots);
        PutAllCounts(h, b, rest, roots);
      } else {
        RootIsLive(h, b, refs + roots, 0);
        RcPositive(h, b, refs + roots, r.id);
        if h[r.id].rc > 1 {
          DropOne(h, b, r.id, rest + roots);
          PutAllCounts(h[r.id := h[r.id].(rc := h[r.id].rc - 1)], b, rest, roots);
        } else {
          DropLast(h, b, r.id, rest + roots);
          var kids := Kids(h[r.id].shape);
          assert kids + (rest + roots) == (kids + rest) + roots;
          SmallerWithout(h, r.id);
          PutAllCounts(h - {r.id}, b, kids + rest, roots);
        }
      }
    }
  }

  lemma SkipNull(h: Heap, b: nat, refs: seq<Ref>)
    requires Counted(h, b, [Null] + refs)
    ensures Counted(h, b, refs)
  {
    forall n: nat ensures Count([Null] + refs, n) == Count(refs, n) { CountAppend([Null], refs, n); }
  }

  lemma RcPositive(h: Heap, b: nat, roots: seq<Ref>, k: nat)
    requires Counted(h, b, roots) && k in h
    ensures h[k].rc > 0 && k < b
  {
    assert NodeOk(h, k);
  }

  // ---------------------------------------------------------------- what is alive, and what it means

  /** A root, or owned by a reachable node; parents are older than their children. */
  ghost predicate Reached(h: Heap, roots: seq<Ref>, k: nat)
    decreases k
  {
    k in h && (To(k) in roots || exists j: nat | j < k :: Owns(h, j, k) && Reached(h, roots, j))
  }

  predicate Owns(h: Heap, j: nat, k: nat) {
    j in h && To(k) in Kids(h[j].shape)
  }

  lemma {:induction false} CountIsMembership(refs: seq<Ref>, n: nat)
    ensures Count(refs, n) > 0 <==> To(n) in refs
  {
    if refs != [] { CountIsMembership(refs[1..], n); }
  }

  lemma {:induction false} KidCountHasOwner(h: Heap, b: nat, n: nat) returns (j: nat)
    requires KidCount(h, b, n) > 0
    ensures j < b && Owns(h, j, n)
  {
    if KidCountAt(h, b - 1, n) > 0 {
      j := b - 1;
      CountIsMembership(Kids(h[j].shape), n);
    } else {
      j := KidCountHasOwner(h, b - 1, n);
    }
  }

  /** Nothing leaks: every live node is reached from the roots. */
  lemma {:induction false} LiveIsReached(h: Heap, b: nat, roots: seq<Ref>, k: nat)
    requires Counted(h, b, roots) && k in h
    ensures Reached(h, roots, k)
    decreases k
  {
    CountIsMembership(roots, k);
    RcPositive(h, b, roots, k);
    if To(k) !in roots {
      var j := KidCountHasOwner(h, b, k);
      var i :| 0 <= i < |Kids(h[j].shape)| && Kids(h[j].shape)[i] == To(k);
      KidIsLive(h, b, roots, j, i);
      LiveIsReached(h, b, roots, j);
    }
  }

  lemma {:induction false} NothingIsReached(h: Heap, k: nat)
    ensures !Reached(h, [], k)
    decreases k
  {
    forall j: nat | j < k ensures !Reached(h, [], j) { NothingIsReached(h, j); }
  }

  /** With no roots left, nothing is left at all. */
  lemma NoRootsNoNodes(h: Heap, b: nat)
    requires Counted(h, b, [])
    ensures h == map[]
  {
    hide Counted;
    forall k ensures k !in h {
      if k in h {
        LiveIsReached(h, b, [], k);
        NothingIsReached(h, k);
      }
    }
  }

  /** Every child is live and younger than its parent. */
  predicate Closed(h: Heap, b: nat) {
    forall k | k in h :: k < b && KidsOk(h, k)
  }

  predicate KidsOk(h: Heap, k: nat)
    requires k in h
  {
    forall i | 0 <= i < |Kids(h[k].shape)| :: LiveAbove(h, k, Kids(h[k].shape)[i])
  }

  predicate LiveAbove(h: Heap, k: nat, r: Ref) {
    r.Null? || (r.id in h && r.id > k)
  }

  predicate Live(h: Heap, r: Ref) {
    r.Null? || r.id in h
  }

  lemma CountedIsClosed(h: Heap, b: nat, roots: seq<Ref>)
    requires Counted(h, b, roots)
    ensures Closed(h, b) && forall i | 0 <= i < |roots| :: Live(h, roots[i])
  {
    forall k | k in h ensures k < b && KidsOk(h, k) {
      RcPositive(h, b, roots, k);
      forall i | 0 <= i < |Kids(h[k].shape)| && Kids(h[k].shape)[i].To? ensures LiveAbove(h, k, Kids(h[k].shape)[i]) {
        KidIsLive(h, b, roots, k, i);
      }
    }
    forall i | 0 <= i < |roots| && roots[i].To? ensures Live(h, roots[i]) { RootIsLive(h, b, roots, i); }
  }

  /** The value that a reference stands for. */
  function Value(h: Heap, b: nat, r: Ref): Json
    requires Closed(h, b) && Live(h, r)
    decreases if r.To? && r.id < b then b - r.id else 0
  {
    if r.Null? then JNull
    else
      assert KidsOk(h, r.id);
      match h[r.id].shape
      case Leaf(v) => v
      case Arr(items) =>
        assert Kids(h[r.id].shape) == items;
        JArray(seq(|items|, i requires 0 <= i < |items| => assert LiveAbove(h, r.id, items[i]); Value(h, b, items[i])))
      case Obj(members) =>
        assert Kids(h[r.id].shape) == Values(members);
        JObject(seq(|members|, i requires 0 <= i < |members| =>
          assert LiveAbove(h, r.id, Values(members)[i]);
          (members[i].0, Value(h, b, members[i].1))))
  }

  /** Nodes keep their meaning in any heap that has them and what is below them with the same shapes. */
  predicate Preserves(h: Heap, h': Heap, except: Ref) {
    forall k | k in h && except != To(k) :: k in h' && h'[k].shape == h[k].shape
  }

  predicate Unowned(h: Heap, except: Ref) {
    except.Null? || forall k | k in h :: except !in Kids(h[k].shape)
  }

  lemma {:induction false} ValueKept(h: Heap, b: nat, h': Heap, b': nat, r: Ref, except: Ref)
    requires Closed(h, b) && Closed(h', b') && Live(h, r) && Preserves(h, h', except) && Unowned(h, except) &&
      (r == except ==> r.Null?)
    ensures Live(h', r) && Value(h', b', r) == Value(h, b, r)
    decreases if r.To? && r.id < b then b - r.id else 0
  {
    if r.To? {
      var kids := Kids(h[r.id].shape);
      assert KidsOk(h, r.id) && KidsOk(h', r.id);
      forall i | 0 <= i < |kids|
        ensures Live(h, kids[i]) && Live(h', kids[i]) && Value(h', b', kids[i]) == Value(h, b, kids[i]) {
        assert LiveAbove(h, r.id, kids[i]);
        if kids[i] == except { assert except in kids; }
        ValueKept(h, b, h', b', kids[i], except);
      }
      SameKidsSameValue(h, b, h', b', r);
    }
  }

  lemma SameKidsSameValue(h: Heap, b: nat, h': Heap, b': nat, r: Ref)
    requires Closed(h, b) && Closed(h', b') && r.To? && r.id in h && r.id in h' && h'[r.id].shape == h[r.id].shape
    requires forall i | 0 <= i < |Kids(h[r.id].shape)| ::
      var kid := Kids(h[r.id].shape)[i];
      Live(h, kid) && Live(h', kid) && Value(h', b', kid) == Value(h, b, kid)
    ensures Value(h', b', r) == Value(h, b, r)
  {
    assert KidsOk(h, r.id) && KidsOk(h', r.id);
    match h[r.id].shape
    case Leaf(v) =>
    case Arr(items) =>
      assert forall i | 0 <= i < |items| :: Value(h', b', items[i]) == Value(h, b, items[i]) by {
        assert Kids(h[r.id].shape) == items;
      }
    case Obj(members) =>
      assert forall i | 0 <= i < |members| :: Value(h', b', members[i].1) == Value(h, b, members[i].1) by {
        assert forall i | 0 <= i < |members| :: Kids(h[r.id].shape)[i] == members[i].1;
      }
  }
}
