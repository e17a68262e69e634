/** Each thing that a pass does to nodes keeps the ownership invariant and does to the values what the machine does. */
module OwnershipActs {
  import opened Bytes
  import opened JsonValue
  import opened OrderedMap
  import opened TokenerMachine
  import opened RefCount
  import opened Ownership

  function One(r: Ref, n: nat): nat {
    if r == To(n) then 1 else 0
  }

  function Tally(o: Owned, n: nat): nat {
    Count(o.below, n) + One(o.top, n) + One(o.obj, n) + Count(o.held, n)
  }

  lemma CountOne(r: Ref, n: nat)
    ensures Count([r], n) == One(r, n)
  {
    assert [r][1..] == [];
  }

  lemma RootsTally(o: Owned, n: nat)
    ensures Count(Roots(o), n) == Tally(o, n)
  {
    CountAppend(Stack(o), o.held, n);
    CountAppend(o.below, [o.top, o.obj], n);
    CountOne(o.top, n);
    CountOne(o.obj, n);
    CountAppend([o.top], [o.obj], n);
    assert [o.top] + [o.obj] == [o.top, o.obj];
  }

  /** The invariant, with the owners counted by where they are. */
  ghost predicate Tallied(o: Owned) {
    (forall k | k in o.heap :: k < o.next && NodeOk(o.heap, k) && o.heap[k].rc == 1) &&
    (forall n: nat :: Rc(o.heap, n) == Tally(o, n) + KidCount(o.heap, o.next, n)) &&
    Rising(Stack(o))
  }

  lemma SoundIsTallied(o: Owned)
    ensures Sound(o) <==> Tallied(o)
  {
    hide NodeOk, Rising;
    forall n: nat ensures Count(Roots(o), n) == Tally(o, n) { RootsTally(o, n); }
  }

  /** The container at the top of the stack is owned by the stack alone. */
  lemma TopIsAlone(o: Owned)
    requires Sound(o) && o.top.To?
    ensures o.top.id in o.heap && o.top.id < o.next && Unowned(o.heap, o.top) && KidCount(o.heap, o.next, o.top.id) == 0
    ensures o.obj != o.top && o.top !in o.below && o.top !in o.held
  {
    var n := o.top.id;
    RootsTally(o, n);
    CountIsMembership(o.below, n);
    CountIsMembership(o.held, n);
    forall k | k in o.heap ensures o.top !in Kids(o.heap[k].shape) {
      assert k < o.next;
      KidCountHas(o.heap, o.next, k, n);
      CountIsMembership(Kids(o.heap[k].shape), n);
    }
  }

  /** What the caller holds is as it was, and may have grown. */
  ghost predicate HeldKept(o: Owned, o': Owned)
    requires Closed(o.heap, o.next) && Closed(o'.heap, o'.next)
  {
    |o.held| <= |o'.held| &&
    forall i | 0 <= i < |o.held| :: o'.held[i] == o.held[i] && Live(o.heap, o.held[i]) && Live(o'.heap, o.held[i]) &&
      Value(o'.heap, o'.next, o.held[i]) == Value(o.heap, o.next, o.held[i])
  }

  // ---------------------------------------------------------------- a new node

  lemma MakeIsSound(o: Owned, v: Json)
    requires Sound(o) && o.top.Null? && o.obj.Null? && Fresh(v)
    ensures Sound(Make(o, v))
  {
    hide Sound;
    var o' := Make(o, v);
    var k := o.next;
    SoundIsTallied(o);
    SoundIsTallied(o');
    assert Kids(ShapeOf(v)) == [];
    forall n: nat ensures Rc(o'.heap, n) == Tally(o', n) + KidCount(o'.heap, o'.next, n) {
      KidCountSame(o.heap, o'.heap, o.next, n);
      assert Rc(o.heap, n) == Tally(o, n) + KidCount(o.heap, o.next, n);
    }
    forall j | j in o'.heap ensures j < o'.next && NodeOk(o'.heap, j) && o'.heap[j].rc == 1 {
      if j != k { assert NodeOk(o.heap, j); }
    }
    YoungerThanAll(o);
    assert Rising(Stack(o')) by {
      assert forall i | 0 <= i < |o.below| :: Stack(o')[i] == Stack(o)[i] == o.below[i];
    }
  }

  lemma YoungerThanAll(o: Owned)
    requires Tallied(o)
    ensures forall i | 0 <= i < |o.below| :: o.below[i].To? ==> o.below[i].id < o.next
  {
    forall i | 0 <= i < |o.below| && o.below[i].To? ensures o.below[i].id < o.next {
      CountMember(o.below, i);
      assert Rc(o.heap, o.below[i].id) > 0;
    }
  }

  lemma MadeValues(o: Owned, t: Tok, v: Json)
    requires Sound(o) && o.top.Null? && o.obj.Null? && Fresh(v) && Closed(o.heap, o.next) && Mirrors(o, t)
    ensures var o' := Make(o, v);
      Sound(o') && Closed(o'.heap, o'.next) && Mirrors(o', t.(top := t.top.(current := v))) && HeldKept(o, o')
  {
    var o' := Make(o, v);
    MakeIsSound(o, v);
    SoundIsClosed(o);
    SoundIsClosed(o');
    hide Sound, Closed, Value;
    forall i | 0 <= i < |o.below| ensures Means(o', o.below[i], t.below[i].current) {
      assert Means(o, o.below[i], t.below[i].current);
      GrownValue(o, v, o.below[i]);
    }
    forall i | 0 <= i < |o.held|
      ensures Live(o'.heap, o.held[i]) && Value(o'.heap, o'.next, o.held[i]) == Value(o.heap, o.next, o.held[i]) {
      GrownValue(o, v, o.held[i]);
    }
    GrownValue(o, v, o.obj);
    FreshValue(o', v);
  }

  lemma GrownValue(o: Owned, v: Json, r: Ref)
    requires Closed(o.heap, o.next) && Live(o.heap, r) && Closed(Make(o, v).heap, o.next + 1)
    ensures Live(Make(o, v).heap, r) && Value(Make(o, v).heap, o.next + 1, r) == Value(o.heap, o.next, r)
  {
    ValueKept(o.heap, o.next, Make(o, v).heap, o.next + 1, r, Null);
  }

  lemma FreshValue(o: Owned, v: Json)
    requires Closed(o.heap, o.next) && Fresh(v) && o.top.To? && o.top.id in o.heap &&
      o.heap[o.top.id].shape == ShapeOf(v)
    ensures Value(o.heap, o.next, o.top) == v
  {}

  // ---------------------------------------------------------------- a level more, a level less

  lemma PushIsSound(o: Owned, t: Tok, t': Tok)
    requires Sound(o) && o.obj.Null? && Closed(o.heap, o.next) && Mirrors(o, t)
    requires |t'.below| == |t.below| + 1 && t'.below[..|t.below|] == t.below &&
      t'.below[|t.below|].current == t.top.current
    requires t'.top.current == JNull && t'.obj == t.obj
    ensures var o' := PushLevel(o);
      Sound(o') && Closed(o'.heap, o'.next) && Mirrors(o', t') && HeldKept(o, o')
  {
    var o' := PushLevel(o);
    hide Value, Closed, Sound;
    SoundIsTallied(o);
    SoundIsTallied(o');
    SoundIsClosed(o);
    forall n: nat ensures Tally(o', n) == Tally(o, n) {
      CountAppend(o.below, [o.top], n);
      CountOne(o.top, n);
    }
    assert Rising(Stack(o')) by {
      assert Stack(o') == Stack(o)[..|o.below| + 1] + [Null, Null];
    }
    forall i | 0 <= i < |o'.below| ensures Means(o', o'.below[i], t'.below[i].current) {
      if i < |o.below| {
        assert Means(o, o.below[i], t.below[i].current);
        assert t'.below[i] == t'.below[..|t.below|][i];
      }
    }
    NullMeans(o');
  }

  lemma NullMeans(o: Owned)
    requires Closed(o.heap, o.next)
    ensures Means(o, Null, JNull)
  {}

  lemma GetThenPut(h: Heap, r: Ref)
    requires r.To? ==> r.id in h && h[r.id].rc == 1
    ensures PutAll(RefCount.Get(h, r), [r]) == h
  {
    if r.To? {
      var g := RefCount.Get(h, r);
      assert g[r.id := g[r.id].(rc := g[r.id].rc - 1)] == h;
    }
    assert [r][1..] == [];
  }

  lemma TakeIsSound(o: Owned, t: Tok, t': Tok)
    requires Sound(o) && o.obj.Null? && Closed(o.heap, o.next) && Mirrors(o, t) && t.below != []
    requires t'.below == t.below[..|t.below| - 1] && t'.top == t.below[|t.below| - 1] && t'.obj == t.top.current
    ensures var o' := Take(o);
      Sound(o') && Closed(o'.heap, o'.next) && Mirrors(o', t') && HeldKept(o, o')
  {
    var o', n := Take(o), |o.below| - 1;
    hide Value, Closed, Sound, PutAll;
    SoundIsTallied(o);
    SoundIsClosed(o);
    GetThenPut(o.heap, o.top);
    SoundIsTallied(o');
    forall m: nat ensures Tally(o', m) == Tally(o, m) {
      CountAppend(o.below[..n], [o.below[n]], m);
      CountOne(o.below[n], m);
      assert o.below == o.below[..n] + [o.below[n]];
    }
    assert Stack(o') == Stack(o)[..n + 2];
    assert Means(o, o.below[n], t.below[n].current);
    forall i | 0 <= i < n ensures Means(o', o'.below[i], t'.below[i].current) {
      assert Means(o, o.below[i], t.below[i].current);
    }
  }

  // ---------------------------------------------------------------- a child for the top container

  /** The kids of the top node change; what they lose and what they gain shows in the other counts. */
  lemma ReshapeCounts(o: Owned, s: Shape, n: nat)
    requires Tallied(o) && o.top.To? && o.top.id in o.heap
    ensures var h' := Reshaped(o.heap, o.top, s);
      Rc(h', n) == Rc(o.heap, n) &&
      KidCount(h', o.next, n) == KidCount(o.heap, o.next, n) - Count(Kids(o.heap[o.top.id].shape), n) +
        Count(Kids(s), n)
  {
    KidCountChange(o.heap, Reshaped(o.heap, o.top, s), o.next, o.top.id, n);
  }

  predicate KidsAbove(s: Shape, k: nat) {
    !s.Leaf? && forall i | 0 <= i < |Kids(s)| :: Kids(s)[i].To? ==> Kids(s)[i].id > k
  }

  lemma ReshapedNodes(o: Owned, s: Shape)
    requires Tallied(o) && o.top.To? && o.top.id in o.heap && KidsAbove(s, o.top.id)
    ensures var h' := Reshaped(o.heap, o.top, s);
      forall k | k in h' :: k < o.next && NodeOk(h', k) && h'[k].rc == 1
  {
    var h' := Reshaped(o.heap, o.top, s);
    forall k | k in h' ensures k < o.next && NodeOk(h', k) && h'[k].rc == 1 {
      assert k in o.heap && NodeOk(o.heap, k);
    }
  }

  lemma ObjIsYounger(o: Owned)
    requires Tallied(o) && o.top.To? && o.obj.To?
    ensures o.obj.id > o.top.id
  {
    assert Stack(o)[|o.below|] == o.top && Stack(o)[|o.below| + 1] == o.obj;
  }

  lemma ObjDropped(o: Owned, o': Owned)
    requires Rising(Stack(o)) && o'.below == o.below && o'.top == o.top && o'.obj == Null
    ensures Rising(Stack(o'))
  {
    assert Stack(o') == Stack(o)[..|o.below| + 1] + [Null];
  }

  lemma OneMoreAbove(items: seq<Ref>, r: Ref, k: nat)
    requires KidsAbove(Arr(items), k) && (r.To? ==> r.id > k)
    ensures KidsAbove(Arr(items + [r]), k)
  {
    assert forall i | 0 <= i < |items| :: (items + [r])[i] == Kids(Arr(items))[i];
  }

  lemma AddItemIsSound(o: Owned)
    requires Sound(o) && o.top.To? && o.top.id in o.heap && o.heap[o.top.id].shape.Arr?
    ensures Sound(AddItem(o))
  {
    hide Sound, NodeOk, Rising;
    var o' := AddItem(o);
    var items := o.heap[o.top.id].shape.items;
    SoundIsTallied(o);
    SoundIsTallied(o');
    if o.obj.To? { ObjIsYounger(o); }
    KidsWereAbove(o);
    OneMoreAbove(items, o.obj, o.top.id);
    ReshapedNodes(o, Arr(items + [o.obj]));
    forall n: nat ensures Rc(o'.heap, n) == Tally(o', n) + KidCount(o'.heap, o'.next, n) {
      ReshapeCounts(o, Arr(items + [o.obj]), n);
      CountAppend(items, [o.obj], n);
      CountOne(o.obj, n);
    }
    ObjDropped(o, o');
  }

  lemma KidsWereAbove(o: Owned)
    requires Tallied(o) && o.top.To? && o.top.id in o.heap && !o.heap[o.top.id].shape.Leaf?
    ensures KidsAbove(o.heap[o.top.id].shape, o.top.id)
  {
    assert NodeOk(o.heap, o.top.id);
  }

  /** Nothing but the top container itself is seen to change when its node does. */
  lemma ReshapedValue(o: Owned, h': Heap, s: Shape, r: Ref)
    requires Sound(o) && o.top.To? && h' == Reshaped(o.heap, o.top, s)
    requires Closed(o.heap, o.next) && Closed(h', o.next) && Live(o.heap, r) && r != o.top
    ensures Live(h', r) && Value(h', o.next, r) == Value(o.heap, o.next, r)
  {
    TopIsAlone(o);
    ValueKept(o.heap, o.next, h', o.next, r, o.top);
  }

  lemma AddItemValues(o: Owned, t: Tok, t': Tok)
    requires Sound(o) && Closed(o.heap, o.next) && Mirrors(o, t) && t.top.current.JArray?
    requires t'.below == t.below && t'.top.current == JArray(t.top.current.items + [t.obj]) && t'.obj == JNull
    ensures var o' := AddItem(o);
      Sound(o') && Closed(o'.heap, o'.next) && Mirrors(o', t') && HeldKept(o, o')
  {
    var o' := AddItem(o);
    TopIsArray(o, t);
    AddItemIsSound(o);
    SoundIsClosed(o);
    SoundIsClosed(o');
    TopIsAlone(o);
    var k, items := o.top.id, o.heap[o.top.id].shape.items;
    var s := Arr(items + [o.obj]);
    hide Sound, Closed, Value, Unowned;
    OthersKept(o, o', s, t);
    ArrayValue(o, items, t.top.current);
    forall i | 0 <= i < |items|
      ensures Live(o'.heap, items[i]) && Value(o'.heap, o.next, items[i]) == t.top.current.items[i] {
      ReshapedValue(o, o'.heap, s, items[i]);
    }
    ReshapedValue(o, o'.heap, s, o.obj);
    ArrayMeans(o', items + [o.obj], t'.top.current);
    NullMeans(o');
  }

  lemma TopIsArray(o: Owned, t: Tok)
    requires Sound(o) && Closed(o.heap, o.next) && Mirrors(o, t) && t.top.current.JArray?
    ensures o.top.To? && o.top.id in o.heap && o.heap[o.top.id].shape.Arr?
  {
    assert NodeOk(o.heap, o.top.id);
  }

  /** Every reference but the top one means what it meant. */
  lemma OthersKept(o: Owned, o': Owned, s: Shape, t: Tok)
    requires Sound(o) && o.top.To? && Closed(o.heap, o.next) && Mirrors(o, t)
    requires o'.heap == Reshaped(o.heap, o.top, s) && o'.next == o.next && o'.below == o.below && o'.held == o.held
    requires Closed(o'.heap, o'.next)
    ensures HeldKept(o, o') && forall i | 0 <= i < |o.below| :: Means(o', o.below[i], t.below[i].current)
  {
    SoundIsClosed(o);
    TopIsAlone(o);
    hide Sound, Closed, Value, Unowned;
    forall i | 0 <= i < |o.below| ensures Means(o', o.below[i], t.below[i].current) {
      assert o.below[i] in o.below;
      assert Means(o, o.below[i], t.below[i].current);
      ReshapedValue(o, o'.heap, s, o.below[i]);
    }
    forall i | 0 <= i < |o.held|
      ensures Live(o'.heap, o.held[i]) && Value(o'.heap, o'.next, o.held[i]) == Value(o.heap, o.next, o.held[i]) {
      assert o.held[i] in o.held;
      ReshapedValue(o, o'.heap, s, o.held[i]);
    }
  }

  lemma ArrayValue(o: Owned, items: seq<Ref>, v: Json)
    requires Closed(o.heap, o.next) && o.top.To? && o.top.id in o.heap && o.heap[o.top.id].shape == Arr(items)
    requires Value(o.heap, o.next, o.top) == v
    ensures v.JArray? && |v.items| == |items|
    ensures forall i | 0 <= i < |items| ::
      Live(o.heap, items[i]) && Value(o.heap, o.next, items[i]) == v.items[i] && items[i] != o.top
  {
    assert KidsOk(o.heap, o.top.id) && Kids(o.heap[o.top.id].shape) == items;
    forall i | 0 <= i < |items|
      ensures Live(o.heap, items[i]) && items[i] != o.top { assert LiveAbove(o.heap, o.top.id, items[i]); }
  }

  lemma ArrayMeans(o: Owned, items: seq<Ref>, v: Json)
    requires Closed(o.heap, o.next) && o.top.To? && o.top.id in o.heap && o.heap[o.top.id].shape == Arr(items)
    requires v.JArray? && |v.items| == |items|
    requires forall i | 0 <= i < |items| :: Live(o.heap, items[i]) && Value(o.heap, o.next, items[i]) == v.items[i]
    ensures Means(o, o.top, v)
  {
    assert KidsOk(o.heap, o.top.id) && Kids(o.heap[o.top.id].shape) == items;
    var w := Value(o.heap, o.next, o.top);
    assert w.JArray? && w.items == v.items;
  }

  // ---------------------------------------------------------------- a member for the top object

  /** The members after the new value is in place, before the old one is released. */
  function NewMembers(o: Owned, key: bytes): seq<(bytes, Ref)>
    requires o.top.To? && o.top.id in o.heap && o.heap[o.top.id].shape.Obj?
  {
    OrderedMap.Put(o.heap[o.top.id].shape.members, key, o.obj)
  }

  /** The reference that the key had before, or none. */
  function OldMember(o: Owned, key: bytes): Ref
    requires o.top.To? && o.top.id in o.heap && o.heap[o.top.id].shape.Obj?
  {
    var members := o.heap[o.top.id].shape.members;
    var i := IndexOf(members, key);
    if i < 0 then Null else members[i].1
  }

  lemma {:induction false} CountUpdate(refs: seq<Ref>, i: nat, r: Ref, n: nat)
    requires i < |refs|
    ensures Count(refs[i := r], n) + One(refs[i], n) == Count(refs, n) + One(r, n)
  {
    assert refs == refs[..i] + [refs[i]] + refs[i + 1..];
    assert refs[i := r] == refs[..i] + [r] + refs[i + 1..];
    CountAppend(refs[..i] + [refs[i]], refs[i + 1..], n);
    CountAppend(refs[..i] + [r], refs[i + 1..], n);
    CountAppend(refs[..i], [refs[i]], n);
    CountAppend(refs[..i], [r], n);
    CountOne(refs[i], n);
    CountOne(r, n);
  }

  lemma MemberCounts(members: seq<(bytes, Ref)>, key: bytes, r: Ref, n: nat)
    ensures var i := IndexOf(members, key);
      Count(Values(OrderedMap.Put(members, key, r)), n) + One(if i < 0 then Null else members[i].1, n) ==
      Count(Values(members), n) + One(r, n)
  {
    var i := IndexOf(members, key);
    var was, now := Values(members), Values(OrderedMap.Put(members, key, r));
    if i < 0 {
      assert now == was + [r];
      CountAppend(was, [r], n);
      CountOne(r, n);
    } else {
      assert now == was[i := r];
      CountUpdate(was, i, r, n);
    }
  }

  lemma MembersAbove(members: seq<(bytes, Ref)>, key: bytes, r: Ref, k: nat)
    requires KidsAbove(Obj(members), k) && (r.To? ==> r.id > k)
    ensures KidsAbove(Obj(OrderedMap.Put(members, key, r)), k)
  {
    assert forall i | 0 <= i < |members| :: Values(members)[i] == members[i].1;
    var now := OrderedMap.Put(members, key, r);
    forall i | 0 <= i < |now| && Values(now)[i].To? ensures Values(now)[i].id > k {
      if i < |members| { assert Kids(Obj(members))[i] == members[i].1; }
    }
  }

  /** The state between the two halves: the old value is nobody's child any more, but not yet released. */
  lemma MemberInPlace(o: Owned, key: bytes)
    requires Sound(o) && o.top.To? && o.top.id in o.heap && o.heap[o.top.id].shape.Obj?
    ensures var h := Reshaped(o.heap, o.top, Obj(NewMembers(o, key)));
      var o' := o.(heap := h, obj := Null);
      Counted(h, o.next, [OldMember(o, key)] + Roots(o')) && (forall k | k in h :: h[k].rc == 1) && Rising(Stack(o'))
  {
    hide Sound, NodeOk, Rising, OrderedMap.Put, IndexOf;
    var members := o.heap[o.top.id].shape.members;
    var s := Obj(NewMembers(o, key));
    var h := Reshaped(o.heap, o.top, s);
    var o' := o.(heap := h, obj := Null);
    SoundIsTallied(o);
    if o.obj.To? { ObjIsYounger(o); }
    KidsWereAbove(o);
    MembersAbove(members, key, o.obj, o.top.id);
    ReshapedNodes(o, s);
    forall n: nat ensures Rc(h, n) == Count([OldMember(o, key)] + Roots(o'), n) + KidCount(h, o.next, n) {
      ReshapeCounts(o, s, n);
      MemberCounts(members, key, o.obj, n);
      CountAppend([OldMember(o, key)], Roots(o'), n);
      CountOne(OldMember(o, key), n);
      RootsTally(o', n);
    }
    ObjDropped(o, o');
  }

  lemma AddMemberIsSound(o: Owned, key: bytes)
    requires Sound(o) && o.top.To? && o.top.id in o.heap && o.heap[o.top.id].shape.Obj?
    ensures var h := Reshaped(o.heap, o.top, Obj(NewMembers(o, key)));
      Sound(AddMember(o, key)) && Within(AddMember(o, key).heap, h) && Closed(h, o.next)
  {
    hide NodeOk, Rising, KidCount;
    var h := Reshaped(o.heap, o.top, Obj(NewMembers(o, key)));
    var o' := AddMember(o, key);
    var was := OldMember(o, key);
    MemberInPlace(o, key);
    CountedIsClosed(h, o.next, [was] + Roots(o'));
    if IndexOf(o.heap[o.top.id].shape.members, key) < 0 {
      SkipNull(h, o.next, Roots(o'));
    } else {
      PutAllCounts(h, o.next, [was], Roots(o'));
      forall k | k in o'.heap ensures o'.heap[k].rc == 1 { RcPositive(o'.heap, o.next, Roots(o'), k); }
    }
  }

  /** Releasing the old value changes no other one. */
  lemma WithinValue(h: Heap, h': Heap, b: nat, r: Ref)
    requires Closed(h, b) && Closed(h', b) && Within(h', h) && Live(h', r)
    ensures Live(h, r) && Value(h', b, r) == Value(h, b, r)
  {
    ValueKept(h', b, h, b, r, Null);
  }

  lemma AddMemberValues(o: Owned, t: Tok, t': Tok)
    requires Sound(o) && Closed(o.heap, o.next) && Mirrors(o, t) && t.top.current.JObject? && t.top.key.Some?
    requires t'.below == t.below && t'.obj == JNull
    requires t'.top.current == JObject(OrderedMap.Put(t.top.current.members, t.top.key.value, t.obj))
    ensures var o' := AddMember(o, t.top.key.value);
      Sound(o') && Closed(o'.heap, o'.next) && Mirrors(o', t') && HeldKept(o, o')
  {
    var key := t.top.key.value;
    TopIsObject(o, t);
    AddMemberIsSound(o, key);
    var s := Obj(NewMembers(o, key));
    var h := Reshaped(o.heap, o.top, s);
    var mid, o' := o.(heap := h, obj := Null), AddMember(o, key);
    SoundIsClosed(o);
    SoundIsClosed(o');
    hide Sound, Value, AddMember, OrderedMap.Put;
    AddMemberKeeps(o, key);
    OthersKept(o, mid, s, t);
    NewObjectMeans(o, t, mid, t'.top.current);
    forall i | 0 <= i < |o.below| ensures Means(o', o.below[i], t.below[i].current) {
      assert Means(mid, o.below[i], t.below[i].current);
      WithinValue(h, o'.heap, o.next, o.below[i]);
    }
    forall i | 0 <= i < |o.held|
      ensures Live(o'.heap, o.held[i]) && Value(o'.heap, o'.next, o.held[i]) == Value(o.heap, o.next, o.held[i]) {
      WithinValue(h, o'.heap, o.next, o.held[i]);
    }
    WithinValue(h, o'.heap, o.next, o.top);
    NullMeans(o');
  }

  lemma AddMemberKeeps(o: Owned, key: bytes)
    ensures var o' := AddMember(o, key);
      o'.below == o.below && o'.top == o.top && o'.held == o.held && o'.next == o.next &&
        (o.top.To? && o.top.id in o.heap && o.heap[o.top.id].shape.Obj? ==> o'.obj == Null)
  {}

  lemma TopIsObject(o: Owned, t: Tok)
    requires Sound(o) && Closed(o.heap, o.next) && Mirrors(o, t) && t.top.current.JObject?
    ensures o.top.To? && o.top.id in o.heap && o.heap[o.top.id].shape.Obj?
  {
    assert NodeOk(o.heap, o.top.id);
  }

  lemma ObjectValue(o: Owned, members: seq<(bytes, Ref)>, v: Json)
    requires Closed(o.heap, o.next) && o.top.To? && o.top.id in o.heap && o.heap[o.top.id].shape == Obj(members)
    requires Value(o.heap, o.next, o.top) == v
    ensures v.JObject? && |v.members| == |members|
    ensures forall i | 0 <= i < |members| :: Live(o.heap, members[i].1) && members[i].1 != o.top
    ensures forall i | 0 <= i < |members| :: v.members[i] == (members[i].0, Value(o.heap, o.next, members[i].1))
  {
    assert KidsOk(o.heap, o.top.id) && Kids(o.heap[o.top.id].shape) == Values(members);
    forall i | 0 <= i < |members| ensures Live(o.heap, members[i].1) && members[i].1 != o.top {
      assert LiveAbove(o.heap, o.top.id, Values(members)[i]);
    }
  }

  lemma ObjectMeans(o: Owned, members: seq<(bytes, Ref)>, v: Json)
    requires Closed(o.heap, o.next) && o.top.To? && o.top.id in o.heap && o.heap[o.top.id].shape == Obj(members)
    requires v.JObject? && |v.members| == |members|
    requires forall i | 0 <= i < |members| :: Live(o.heap, members[i].1)
    requires forall i | 0 <= i < |members| :: v.members[i] == (members[i].0, Value(o.heap, o.next, members[i].1))
    ensures Means(o, o.top, v)
  {
    assert KidsOk(o.heap, o.top.id) && Kids(o.heap[o.top.id].shape) == Values(members);
    var w := Value(o.heap, o.next, o.top);
    assert w.JObject? && w.members == v.members;
  }

  lemma NewObjectMeans(o: Owned, t: Tok, mid: Owned, v: Json)
    requires Sound(o) && Closed(o.heap, o.next) && Mirrors(o, t) && t.top.current.JObject? && t.top.key.Some?
    requires o.top.To? && o.top.id in o.heap && o.heap[o.top.id].shape.Obj?
    requires mid == o.(heap := Reshaped(o.heap, o.top, Obj(NewMembers(o, t.top.key.value))), obj := Null) &&
      Closed(mid.heap, mid.next)
    requires v == JObject(OrderedMap.Put(t.top.current.members, t.top.key.value, t.obj))
    ensures Means(mid, mid.top, v)
  {
    var key, members := t.top.key.value, o.heap[o.top.id].shape.members;
    var now := NewMembers(o, key);
    TopIsAlone(o);
    hide Sound, Value, Closed, Unowned;
    ObjectValue(o, members, t.top.current);
    SameIndex(members, t.top.current.members, key);
    ReshapedValue(o, mid.heap, Obj(now), o.obj);
    forall i | 0 <= i < |now|
      ensures Live(mid.heap, now[i].1) && v.members[i] == (now[i].0, Value(mid.heap, mid.next, now[i].1))
    {
      if i < |members| && now[i] == members[i] { ReshapedValue(o, mid.heap, Obj(now), members[i].1); }
    }
    ObjectMeans(mid, now, v);
  }

  lemma {:induction false} SameIndex(a: seq<(bytes, Ref)>, b: seq<(bytes, Json)>, key: bytes)
    requires |a| == |b| && forall i | 0 <= i < |a| :: a[i].0 == b[i].0
    ensures IndexOf(a, key) == IndexOf(b, key)
  {
    var i := IndexOf(a, key);
    IndexOfIs(b, key, i);
  }
}
