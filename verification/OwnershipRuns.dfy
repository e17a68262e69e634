/**
 Ownership over whole calls: every count is the number of owners after every pass, a returned value stays what it is,
 and a value that a call drops is one that nothing owns any more.
 */
module OwnershipRuns {
  import opened Bytes
  import opened JsonValue
  import opened TokenerMachine
  import opened ReusedTokener
  import opened RefCount
  import opened Ownership
  import opened OwnershipActs

  lemma PassIsSound(g: Config, o: Owned, t: Tok, t': Tok)
    requires Sound(o) && Closed(o.heap, o.next) && Mirrors(o, t) && Moves(t, t')
    requires t.obj != JNull ==> t.top.state == ArrayAdd || t.top.state == ObjectValueAdd
    ensures var o' := Follow(o, t, t');
      Sound(o') && Closed(o'.heap, o'.next) && Mirrors(o', t') && HeldKept(o, o') && |o'.held| == |o.held|
  {
    hide Sound, Closed, Make, Take, AddItem, AddMember, PushLevel, Value, Fresh;
    SoundIsClosed(o);
    NullOnly(o, t);
    HeldCount(o, t, t');
    match t.top.state
    case Start | Inf | NullLit | Boolean | Number | Str =>
      if t'.top.current != JNull { MadeValues(o, t, t'.top.current); }
    case Finish => if t.below != [] { TakeIsSound(o, t, t'); } else { TakeNothing(o); }
    case ArrayAdd => AddItemValues(o, t, t');
    case ObjectValueAdd => AddMemberValues(o, t, t');
    case Array | ArrayAfterSep | ObjectValue => if |t'.below| > |t.below| { PushIsSound(o, t, t'); }
    case _ =>
  }

  /** Only NULL stands for the value null. */
  lemma NullOnly(o: Owned, t: Tok)
    requires Sound(o) && Closed(o.heap, o.next) && Mirrors(o, t)
    ensures t.top.current == JNull ==> o.top.Null?
    ensures t.obj == JNull ==> o.obj.Null?
  {
    SoundIsTallied(o);
    hide Sound;
    if o.top.To? { assert NodeOk(o.heap, o.top.id); }
    if o.obj.To? { assert NodeOk(o.heap, o.obj.id); }
  }

  lemma HeldCount(o: Owned, t: Tok, t': Tok)
    ensures Follow(o, t, t').held == o.held
  {}

  lemma TakeNothing(o: Owned)
    requires o.below == []
    ensures Take(o) == o
  {}

  // ---------------------------------------------------------------- the end of a call

  function Nulls(n: nat): (r: seq<Ref>)
    ensures |r| == n && forall i | 0 <= i < n :: r[i] == Null
  {
    seq(n, i => Null)
  }

  function Reversed(refs: seq<Ref>): (r: seq<Ref>)
    ensures |r| == |refs|
  {
    if refs == [] then [] else Reversed(refs[1..]) + [refs[0]]
  }

  /** `json_tokener_reset_level` on every level, the top one first. */
  function ReleaseLevels(o: Owned): Owned {
    o.(heap := PutAll(o.heap, [o.top] + Reversed(o.below)), below := Nulls(|o.below|), top := Null)
  }

  /** A call that succeeds hands out a reference of its own before it resets the levels. */
  function HandOut(o: Owned): Owned {
    ReleaseLevels(o.(heap := RefCount.Get(o.heap, o.top), held := o.held + [o.top]))
  }

  lemma {:induction false} CountReversed(refs: seq<Ref>, n: nat)
    ensures Count(Reversed(refs), n) == Count(refs, n)
  {
    if refs != [] {
      CountReversed(refs[1..], n);
      CountAppend(Reversed(refs[1..]), [refs[0]], n);
      CountOne(refs[0], n);
    }
  }

  lemma {:induction false} CountNulls(n: nat, k: nat)
    ensures Count(Nulls(n), k) == 0
  {
    if n > 0 {
      CountNulls(n - 1, k);
      assert Nulls(n)[1..] == Nulls(n - 1);
    }
  }

  /** The levels give up what they own, and nothing else changes. */
  lemma ReleaseCounts(o: Owned)
    requires Counted(o.heap, o.next, Roots(o))
    ensures Counted(ReleaseLevels(o).heap, o.next, Roots(ReleaseLevels(o))) && Within(ReleaseLevels(o).heap, o.heap)
  {
    var o' := ReleaseLevels(o);
    var gone := [o.top] + Reversed(o.below);
    hide Counted;
    forall n: nat ensures Count(Roots(o), n) == Count(gone + Roots(o'), n) {
      CountAppend(gone, Roots(o'), n);
      CountAppend([o.top], Reversed(o.below), n);
      CountReversed(o.below, n);
      CountOne(o.top, n);
      RootsTally(o, n);
      RootsTally(o', n);
      CountNulls(|o.below|, n);
    }
    CountedBy(o.heap, o.next, Roots(o), gone + Roots(o'));
    PutAllCounts(o.heap, o.next, gone, Roots(o'));
  }

  lemma StackOfNulls(o: Owned)
    requires (forall i | 0 <= i < |o.below| :: o.below[i].Null?) && o.top.Null?
    ensures Rising(Stack(o))
  {}

  /** All counts are 1 again when each live node is owned once. */
  lemma ReleaseIsSound(o: Owned)
    requires Sound(o)
    ensures Sound(ReleaseLevels(o)) && Within(ReleaseLevels(o).heap, o.heap)
  {
    var o' := ReleaseLevels(o);
    ReleaseCounts(o);
    StackOfNulls(o');
    forall k | k in o'.heap ensures o'.heap[k].rc == 1 {
      RcPositive(o'.heap, o'.next, Roots(o'), k);
    }
  }

  lemma GetCounts(o: Owned)
    requires Sound(o)
    ensures var o1 := o.(heap := RefCount.Get(o.heap, o.top), held := o.held + [o.top]);
      Counted(o1.heap, o1.next, Roots(o1))
  {
    var o1 := o.(heap := RefCount.Get(o.heap, o.top), held := o.held + [o.top]);
    hide Sound;
    SoundIsTallied(o);
    if o.top.To? { TopIsAlone(o); }
    forall n: nat ensures Rc(o1.heap, n) == Count(Roots(o1), n) + KidCount(o1.heap, o1.next, n) {
      RootsTally(o1, n);
      CountAppend(o.held, [o.top], n);
      CountOne(o.top, n);
      KidCountSame(o.heap, o1.heap, o.next, n);
    }
    forall k | k in o1.heap ensures k < o1.next && NodeOk(o1.heap, k) { assert NodeOk(o.heap, k); }
  }

  /** The value goes to the caller, with one owner again. */
  lemma HandOutIsSound(o: Owned, t: Tok)
    requires Sound(o) && Closed(o.heap, o.next) && Mirrors(o, t) && t.obj == JNull
    ensures var o' := HandOut(o);
      Sound(o') && Closed(o'.heap, o'.next) && HeldKept(o, o') && o'.held == o.held + [o.top] &&
      Means(o', o.top, t.top.current) && o'.obj == Null && (forall i | 0 <= i < |o'.below| :: o'.below[i] == Null) &&
        o'.top == Null &&
      |o'.below| == |o.below|
  {
    hide Sound, Value, Closed, NodeOk, KidCount, PutAll, Rising;
    var o1 := o.(heap := RefCount.Get(o.heap, o.top), held := o.held + [o.top]);
    var o' := HandOut(o);
    NullOnly(o, t);
    GetCounts(o);
    ReleaseCounts(o1);
    StackOfNulls(o');
    HandedOutOnce(o);
    SoundIsClosed(o);
    SoundIsClosed(o');
    forall i | 0 <= i < |o.held|
      ensures Live(o'.heap, o.held[i]) && Value(o'.heap, o'.next, o.held[i]) == Value(o.heap, o.next, o.held[i]) {
      assert o'.held[i] == o.held[i];
      SameShapesValue(o', o, o.held[i]);
    }
    assert o'.held[|o.held|] == o.top;
    SameShapesValue(o', o, o.top);
  }

  lemma SameShapesValue(o': Owned, o: Owned, r: Ref)
    requires Closed(o.heap, o.next) && Closed(o'.heap, o'.next) && Live(o'.heap, r)
    requires forall k | k in o'.heap :: k in o.heap && o.heap[k].shape == o'.heap[k].shape
    ensures Live(o.heap, r) && Value(o'.heap, o'.next, r) == Value(o.heap, o.next, r)
  {
    ValueKept(o'.heap, o'.next, o.heap, o.next, r, Null);
  }

  /** After the hand-out every node that is left has one owner. */
  lemma HandedOutOnce(o: Owned)
    requires Sound(o)
    ensures Sound(HandOut(o)) && forall k | k in HandOut(o).heap ::
      k in o.heap && o.heap[k].shape == HandOut(o).heap[k].shape
  {
    var o1 := o.(heap := RefCount.Get(o.heap, o.top), held := o.held + [o.top]);
    var o' := HandOut(o);
    GetCounts(o);
    ReleaseCounts(o1);
    StackOfNulls(o');
    forall k | k in o'.heap ensures o'.heap[k].rc == 1 {
      RcPositive(o'.heap, o'.next, Roots(o'), k);
      if o.top == To(k) {
        TopCounted(o, o', k);
      }
    }
  }

  /** The handed-out node is in `held` once, and nowhere else. */
  lemma TopCounted(o: Owned, o': Owned, k: nat)
    requires Sound(o) && o.top == To(k) && o' == HandOut(o) && k in o'.heap
    requires Counted(o'.heap, o'.next, Roots(o')) && Within(o'.heap, RefCount.Get(o.heap, o.top))
    ensures o'.heap[k].rc == 1
  {
    hide Sound;
    SoundIsTallied(o);
    TopIsAlone(o);
    RootsTally(o', k);
    CountNulls(|o.below|, k);
    CountAppend(o.held, [o.top], k);
    CountOne(o.top, k);
    CountIsMembership(o.held, k);
    WithinKids(o'.heap, RefCount.Get(o.heap, o.top), o.next, k);
    KidCountSame(o.heap, RefCount.Get(o.heap, o.top), o.next, k);
  }

  lemma {:induction false} WithinKids(h': Heap, h: Heap, b: nat, n: nat)
    requires Within(h', h)
    ensures KidCount(h', b, n) <= KidCount(h, b, n)
  {
    if b > 0 { WithinKids(h', h, b - 1, n); }
  }

  // ---------------------------------------------------------------- a value that is dropped

  /**
   The finished value that a pop onto a clean level leaves in `obj` loses its last reference without a release: it
   joins what has left the tokener, though nobody was given it.
   */
  function Drop(o: Owned): Owned {
    o.(obj := Null, held := o.held + [o.obj])
  }

  lemma DropIsSound(o: Owned, t: Tok)
    requires Sound(o) && Closed(o.heap, o.next) && Mirrors(o, t)
    ensures var o' := Drop(o);
      Sound(o') && Closed(o'.heap, o'.next) && Mirrors(o', t.(obj := JNull)) && HeldKept(o, o') &&
      |o'.held| == |o.held| + 1 && Means(o', o'.held[|o.held|], t.obj)
  {
    hide Sound, Closed, Value;
    var o' := Drop(o);
    SoundIsTallied(o);
    SoundIsTallied(o');
    SoundIsClosed(o);
    forall n: nat ensures Tally(o', n) == Tally(o, n) {
      CountAppend(o.held, [o.obj], n);
      CountOne(o.obj, n);
    }
    NullMeans(o');
    StackWithoutObj(o);
  }

  lemma StackWithoutObj(o: Owned)
    requires Rising(Stack(o))
    ensures Rising(Stack(Drop(o)))
  {
    assert forall k | 0 <= k <= |o.below| :: Stack(Drop(o))[k] == Stack(o)[k];
  }

  // ---------------------------------------------------------------- a whole call

  function Finished(o: Owned, err: Error): Owned {
    if err == Success then HandOut(o) else o
  }

  /** The references while `RunOn` runs. */
  function RunOwned(g: Config, o: Owned, t: Tok, m: nat, input: bytes, i: nat): Owned
    requires Open(g, t, m) && i <= |input|
    decreases |input| - i, m, Rank(t)
  {
    if i == |input| then Finished(o, AtEnd(g, t, i).err)
    else
      StepKeepsOpen(g, t, m, input, i);
      match Step(g, t, input, i)
      case Advance(t', n) =>
        var o' := Follow(o, t, t');
        if input[i] == NUL then Finished(o', Out(g, Flush(t'), NUL, Success, i + n).err)
        else RunOwned(g, o', t', m, input, i + n)
      case Redo(t') =>
        var o' := Follow(o, t, t');
        if Drops(t, m) then RunOwned(g, Drop(o'), t'.(obj := JNull), m - 1, input, i)
        else RunOwned(g, o', t', m, input, i)
      case Halt(t', e, n) => Finished(Follow(o, t, t'), Out(g, t', input[i], e, i + n).err)
  }

  /** The values that the call drops, in order. */
  function Dropped(g: Config, t: Tok, m: nat, input: bytes, i: nat): seq<Json>
    requires Open(g, t, m) && i <= |input|
    decreases |input| - i, m, Rank(t)
  {
    if i == |input| then []
    else
      StepKeepsOpen(g, t, m, input, i);
      match Step(g, t, input, i)
      case Advance(t', n) => if input[i] == NUL then [] else Dropped(g, t', m, input, i + n)
      case Redo(t') =>
        if Drops(t, m) then [t'.obj] + Dropped(g, t'.(obj := JNull), m - 1, input, i) else Dropped(g, t', m, input, i)
      case Halt(t', e, n) => []
  }

  /** Above levels that wait for values in order, nothing is dropped. */
  lemma {:induction false} NothingDropped(g: Config, t: Tok, input: bytes, i: nat)
    requires Open(g, t, 0) && i <= |input|
    ensures Dropped(g, t, 0, input, i) == []
    decreases |input| - i, Rank(t)
  {
    hide Step, TokenerMachine.Shape, Rank;
    if i < |input| {
      StepKeepsOpen(g, t, 0, input, i);
      match Step(g, t, input, i)
      case Advance(t', n) => if input[i] != NUL { NothingDropped(g, t', input, i + n); }
      case Redo(t') => NothingDropped(g, t', input, i);
      case Halt(t', e, n) =>
    }
  }

  lemma LiftMoves(u: Tok, u': Tok, base: seq<Level>)
    requires Moves(u, u') && (u.top.state == Finish && u.below == [] ==> base == [])
    ensures Moves(LiftTok(u, base), LiftTok(u', base))
  {
    var t, t' := LiftTok(u, base), LiftTok(u', base);
    if u.top.state == Finish && u.below != [] {
      var n := |t.below| - 1;
      assert t.below[..n] == base + u.below[..|u.below| - 1] && t.below[n] == u.below[|u.below| - 1];
    } else if |u'.below| == |u.below| + 1 {
      assert base + (u.below + [u'.below[|u.below|]]) == t.below + [u'.below[|u.below|]];
    }
  }

  lemma OpenMoves(g: Config, t: Tok, m: nat, input: bytes, i: nat)
    requires Open(g, t, m) && i < |input|
    ensures Moves(t, Step(g, t, input, i).t)
    ensures t.obj != JNull ==> t.top.state == ArrayAdd || t.top.state == ObjectValueAdd
  {
    var h, u, base := Above(g, m), Upper(t, m), t.below[..m];
    assert LiftTok(u, base) == t;
    if Drops(t, m) {
      hide Step;
      PopIsOpen(g, t, m, input, i);
    } else {
      hide Step, Moves;
      StepLifts(g, t, m, input, i);
      StepMoves(h, u, input, i);
      LiftMoves(u, Step(h, u, input, i).t, base);
    }
  }

  /**
   The end of a call: all owners are counted, and what has left the tokener are the dropped values and the returned
   one.
   */
  ghost predicate Settled(o: Owned, o': Owned, r: Result, dropped: seq<Json>)
    requires Closed(o.heap, o.next)
  {
    Sound(o') && Closed(o'.heap, o'.next) && Mirrors(o', r.tok) && HeldKept(o, o') &&
    |o'.held| == |o.held| + |dropped| + (if r.err == Success then 1 else 0) &&
    (forall j | 0 <= j < |dropped| :: Means(o', o'.held[|o.held| + j], dropped[j])) &&
    (r.err == Success ==> Means(o', o'.held[|o.held| + |dropped|], r.value))
  }

  lemma OutSettles(g: Config, o: Owned, t: Tok, c: byte, err: Error, offset: nat)
    requires Sound(o) && Closed(o.heap, o.next) && Mirrors(o, t) && t.obj == JNull
    ensures var r := Out(g, t, c, err, offset); Settled(o, Finished(o, r.err), r, [])
  {
    hide Sound, Closed, HandOut, Value;
    var r := Out(g, t, c, err, offset);
    SoundIsClosed(o);
    if r.err == Success {
      HandOutIsSound(o, t);
      var o' := HandOut(o);
      NullMeans(o');
      assert forall k | 0 <= k < |r.tok.below| :: r.tok.below[k] in r.tok.below;
    } else {
      assert Mirrors(o, r.tok);
    }
  }

  lemma HeldTransitive(o: Owned, o': Owned, o'': Owned, r: Result, dropped: seq<Json>)
    requires Closed(o.heap, o.next) && Closed(o'.heap, o'.next) && HeldKept(o, o') && |o'.held| == |o.held|
    requires Settled(o', o'', r, dropped)
    ensures Settled(o, o'', r, dropped)
  {
    hide Sound, Closed, Value, Mirrors;
  }

  lemma DropTransitive(o: Owned, o': Owned, o'': Owned, r: Result, v: Json, dropped: seq<Json>)
    requires Closed(o.heap, o.next) && Closed(o'.heap, o'.next) && HeldKept(o, o') && |o'.held| == |o.held| + 1
    requires Means(o', o'.held[|o.held|], v) && Settled(o', o'', r, dropped)
    ensures Settled(o, o'', r, [v] + dropped)
  {
    hide Sound, Closed, Value, Mirrors;
    var all, n := [v] + dropped, |o.held|;
    forall j | 0 <= j < |all| ensures Means(o'', o''.held[n + j], all[j]) {
      if j > 0 { assert Means(o'', o''.held[n + 1 + (j - 1)], dropped[j - 1]); }
    }
  }

  lemma HeldKeptTwice(o: Owned, o': Owned, o'': Owned)
    requires Closed(o.heap, o.next) && Closed(o'.heap, o'.next) && Closed(o''.heap, o''.next) && HeldKept(o, o') &&
      HeldKept(o', o'')
    ensures HeldKept(o, o'')
  {
    hide Closed, Value;
  }

  lemma FlushMirrors(o: Owned, t: Tok)
    requires Closed(o.heap, o.next) && Mirrors(o, t)
    ensures Mirrors(o, Flush(t)) && Flush(t).obj == t.obj
  {}

  /**
   Over a whole call, errors anywhere included, every count stays the number of owners, dropped values counted as
   owned.
   */
  lemma {:induction false} RunIsSound(g: Config, o: Owned, t: Tok, m: nat, input: bytes, i: nat)
    requires Open(g, t, m) && i <= |input| && (i == |input| ==> t.obj == JNull)
    requires Sound(o) && Closed(o.heap, o.next) && Mirrors(o, t)
    ensures Settled(o, RunOwned(g, o, t, m, input, i), RunOn(g, t, m, input, i), Dropped(g, t, m, input, i))
    decreases |input| - i, m, Rank(t)
  {
    hide Step, TokenerMachine.Shape, Sound, Closed, Mirrors, Follow, Finished, Out, HeldKept, Settled, Moves;
    if i == |input| {
      FlushMirrors(o, t);
      OutSettles(g, o, Flush(t), 1, AtEndError(t), i);
    } else {
      var out := Step(g, t, input, i);
      StepKeepsOpen(g, t, m, input, i);
      OpenMoves(g, t, m, input, i);
      PassIsSound(g, o, t, out.t);
      if Drops(t, m) {
        DropSettles(g, o, t, m, input, i, out.t);
      } else {
        PassSettles(g, o, t, m, input, i, out);
      }
    }
  }

  function AtEndError(t: Tok): Error {
    if t.below == [] && t.top.state == EatWs && t.top.saved == Finish then Success else Continue
  }

  lemma {:induction false} DropSettles(g: Config, o: Owned, t: Tok, m: nat, input: bytes, i: nat, t': Tok)
    requires Open(g, t, m) && i < |input| && Drops(t, m) && Step(g, t, input, i) == Redo(t')
    requires KeepsOpen(g, t, m, input, i, Redo(t'))
    requires var o' := Follow(o, t, t');
      Closed(o.heap, o.next) && Sound(o') && Closed(o'.heap, o'.next) && Mirrors(o', t') && HeldKept(o, o') &&
        |o'.held| == |o.held|
    ensures Settled(o, RunOwned(g, o, t, m, input, i), RunOn(g, t, m, input, i), Dropped(g, t, m, input, i))
    decreases |input| - i, m, 0
  {
    hide Step, TokenerMachine.Shape, Sound, Closed, Mirrors, Follow, Finished, Out, HeldKept, Settled, Rank;
    var o', t'' := Follow(o, t, t'), t'.(obj := JNull);
    DropIsSound(o', t');
    HeldKeptTwice(o, o', Drop(o'));
    RunIsSound(g, Drop(o'), t'', m - 1, input, i);
    DropTransitive(o, Drop(o'), RunOwned(g, Drop(o'), t'', m - 1, input, i), RunOn(g, t'', m - 1, input, i), t'.obj,
                   Dropped(g, t'', m - 1, input, i));
  }

  lemma {:induction false} PassSettles(g: Config, o: Owned, t: Tok, m: nat, input: bytes, i: nat, out: Outcome)
    requires Open(g, t, m) && i < |input| && out == Step(g, t, input, i) && KeepsOpen(g, t, m, input, i, out) &&
      !Drops(t, m)
    requires var o' := Follow(o, t, out.t);
      Closed(o.heap, o.next) && Sound(o') && Closed(o'.heap, o'.next) && Mirrors(o', out.t) && HeldKept(o, o') &&
      |o'.held| == |o.held|
    ensures Settled(o, RunOwned(g, o, t, m, input, i), RunOn(g, t, m, input, i), Dropped(g, t, m, input, i))
    decreases |input| - i, m, Rank(t), 0
  {
    hide Step, TokenerMachine.Shape, Sound, Closed, Mirrors, Follow, Finished, Out, HeldKept, Settled, Rank;
    var o' := Follow(o, t, out.t);
    match out
    case Redo(t') =>
      RunIsSound(g, o', t', m, input, i);
      HeldTransitive(o, o', RunOwned(g, o', t', m, input, i), RunOn(g, t', m, input, i), Dropped(g, t', m, input, i));
    case Halt(t', e, n) =>
      OutSettles(g, o', t', input[i], e, i + n);
      var r := Out(g, t', input[i], e, i + n);
      HeldTransitive(o, o', Finished(o', r.err), r, []);
    case Advance(t', n) =>
      if input[i] == NUL {
        FlushMirrors(o', t');
        OutSettles(g, o', Flush(t'), NUL, Success, i + n);
        var r := Out(g, Flush(t'), NUL, Success, i + n);
        HeldTransitive(o, o', Finished(o', r.err), r, []);
      } else {
        RunIsSound(g, o', t', m, input, i + n);
        HeldTransitive(o, o', RunOwned(g, o', t', m, input, i + n), RunOn(g, t', m, input, i + n),
                       Dropped(g, t', m, input, i + n));
      }
  }
}
