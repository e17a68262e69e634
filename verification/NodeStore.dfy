/** `json_object_get` and `json_object_put` on the nodes in memory. */
module NodeStore {
  import opened RefCount

  lemma {:induction false} PutAllShrinks(h: Heap, refs: seq<Ref>)
    ensures |PutAll(h, refs)| <= |h|
    decreases |h|, |refs|
  {
    if refs != [] {
      var r, rest := refs[0], refs[1..];
      if r.Null? || r.id !in h {
        PutAllShrinks(h, rest);
      } else if h[r.id].rc > 1 {
        var h1 := h[r.id := h[r.id].(rc := h[r.id].rc - 1)];
        assert h1.Keys == h.Keys;
        assert |h1| == |h1.Keys| == |h.Keys| == |h|;
        PutAllShrinks(h1, rest);
      } else {
        SmallerWithout(h, r.id);
        PutAllShrinks(h - {r.id}, Kids(h[r.id].shape) + rest);
      }
    }
  }

  /** Releasing a list is releasing its parts one after the other. */
  lemma {:induction false} PutAllAppend(h: Heap, a: seq<Ref>, b: seq<Ref>)
    ensures PutAll(h, a + b) == PutAll(PutAll(h, a), b)
    decreases |h|, |a|
  {
    if a == [] {
      assert a + b == b;
    } else {
      var r, rest := a[0], a[1..];
      assert (a + b)[1..] == rest + b;
      if r.Null? || r.id !in h {
        PutAllAppend(h, rest, b);
      } else if h[r.id].rc > 1 {
        var h1 := h[r.id := h[r.id].(rc := h[r.id].rc - 1)];
        assert h1.Keys == h.Keys;
        assert |h1| == |h1.Keys| == |h.Keys| == |h|;
        PutAllAppend(h1, rest, b);
      } else {
        SmallerWithout(h, r.id);
        var kids := Kids(h[r.id].shape);
        assert kids + (rest + b) == (kids + rest) + b;
        PutAllAppend(h - {r.id}, kids + rest, b);
      }
    }
  }

  class Store {
    var nodes: Heap

    constructor ()
      ensures nodes == map[]
    {
      nodes := map[];
    }

    method Retain(r: Ref)
      requires Live(nodes, r)
      modifies this
      ensures nodes == RefCount.Get(old(nodes), r)
    {
      if r.To? { nodes := nodes[r.id := nodes[r.id].(rc := nodes[r.id].rc + 1)]; }
    }

    /** One owner less; the last one takes the node with it, and then its children in order. */
    method Release(r: Ref) returns (freed: bool)
      modifies this
      ensures nodes == PutAll(old(nodes), [r])
      ensures freed <==> r.To? && r.id in old(nodes) && old(nodes)[r.id].rc <= 1
      decreases |nodes|
    {
      ghost var h := nodes;
      assert [r][1..] == [];
      if r.Null? || r.id !in nodes { return false; }
      if nodes[r.id].rc > 1 {
        nodes := nodes[r.id := nodes[r.id].(rc := nodes[r.id].rc - 1)];
        return false;
      }
      SmallerWithout(nodes, r.id);
      var kids := Kids(nodes[r.id].shape);
      nodes := nodes - {r.id};
      ghost var rest := nodes;
      assert kids + [] == kids;
      for i := 0 to |kids|
        invariant |nodes| <= |rest| < |h|
        invariant PutAll(nodes, kids[i..]) == PutAll(rest, kids)
      {
        PutAllShrinks(nodes, [kids[i]]);
        PutAllAppend(nodes, [kids[i]], kids[i + 1..]);
        assert kids[i..] == [kids[i]] + kids[i + 1..];
        var _ := Release(kids[i]);
      }
      return true;
    }
  }
}
