/**
 Who owns the nodes that the tokener makes: the references of its stack, the local `obj` and the values it has returned,
 followed pass by pass alongside the machine.
 */
module Ownership {
  import opened Bytes
  import opened JsonValue
  import opened OrderedMap
  import opened TokenerMachine
  import opened RefCount

  /** The references of the tokener and of its caller (`held`); `next` is above every node ever made. */
  datatype Owned = Owned(heap: Heap, next: nat, below: seq<Ref>, top: Ref, obj: Ref, held: seq<Ref>)

  function Stack(o: Owned): seq<Ref> {
    o.below + [o.top, o.obj]
  }

  function Roots(o: Owned): seq<Ref> {
    Stack(o) + o.held
  }

  /** Inner levels are younger. */
  predicate Rising(refs: seq<Ref>) {
    forall i, j | 0 <= i < j < |refs| :: refs[i].To? && refs[j].To? ==> refs[i].id < refs[j].id
  }

  /** Between two passes every node has exactly one owner, and its count says so. */
  ghost predicate Sound(o: Owned) {
    Counted(o.heap, o.next, Roots(o)) && (forall k | k in o.heap :: o.heap[k].rc == 1) && Rising(Stack(o))
  }

  lemma SoundIsClosed(o: Owned)
    requires Sound(o)
    ensures Closed(o.heap, o.next) && (forall i | 0 <= i < |Roots(o)| :: Live(o.heap, Roots(o)[i]))
    ensures Live(o.heap, o.top) && Live(o.heap, o.obj) && (forall i | 0 <= i < |o.below| :: Live(o.heap, o.below[i])) &&
      (forall i | 0 <= i < |o.held| :: Live(o.heap, o.held[i]))
  {
    hide Closed, Live, Counted;
    CountedIsClosed(o.heap, o.next, Roots(o));
    var n := |o.below|;
    assert Roots(o)[n] == o.top && Roots(o)[n + 1] == o.obj;
    assert forall i | 0 <= i < n :: Roots(o)[i] == o.below[i];
    forall i | 0 <= i < |o.held| ensures Live(o.heap, o.held[i]) { assert Roots(o)[n + 2 + i] == o.held[i]; }
  }

  /** The references stand for the values of the machine. */
  ghost predicate Mirrors(o: Owned, t: Tok)
    requires Closed(o.heap, o.next)
  {
    |o.below| == |t.below| &&
    (forall i | 0 <= i < |o.below| :: Means(o, o.below[i], t.below[i].current)) &&
    Means(o, o.top, t.top.current) && Means(o, o.obj, t.obj)
  }

  predicate Means(o: Owned, r: Ref, v: Json)
    requires Closed(o.heap, o.next)
  {
    Live(o.heap, r) && Value(o.heap, o.next, r) == v
  }

  // ---------------------------------------------------------------- what a pass does

  /** The node that is made for a fresh value. */
  function ShapeOf(v: Json): Shape {
    match v
    case JArray(_) => Arr([])
    case JObject(_) => Obj([])
    case _ => Leaf(v)
  }

  predicate Fresh(v: Json) {
    v == JArray([]) || v == JObject([]) || !(v.JNull? || v.JArray? || v.JObject?)
  }

  /** `current = json_object_new_...` */
  function Make(o: Owned, v: Json): Owned {
    o.(heap := o.heap[o.next := Node(1, ShapeOf(v))], next := o.next + 1, top := To(o.next))
  }

  /** `obj = json_object_get(current)`, and the level is reset and left. */
  function Take(o: Owned): Owned {
    if o.below == [] then o
    else
      var n := |o.below| - 1;
      o.(heap := PutAll(RefCount.Get(o.heap, o.top), [o.top]), below := o.below[..n], top := o.below[n], obj := o.top)
  }

  function Reshaped(h: Heap, r: Ref, s: Shape): Heap {
    if r.To? && r.id in h then h[r.id := h[r.id].(shape := s)] else h
  }

  /** `json_object_array_add(current, obj)`: the array takes over the reference. */
  function AddItem(o: Owned): Owned {
    if o.top.To? && o.top.id in o.heap && o.heap[o.top.id].shape.Arr? then
      o.(heap := Reshaped(o.heap, o.top, Arr(o.heap[o.top.id].shape.items + [o.obj])), obj := Null)
    else o
  }

  /** `json_object_object_add(current, key, obj)`: a value that the key had before is released. */
  function AddMember(o: Owned, key: bytes): Owned {
    if o.top.To? && o.top.id in o.heap && o.heap[o.top.id].shape.Obj? then
      var members := o.heap[o.top.id].shape.members;
      var i := IndexOf(members, key);
      var h := Reshaped(o.heap, o.top, Obj(Put(members, key, o.obj)));
      o.(heap := if i >= 0 then PutAll(h, [members[i].1]) else h, obj := Null)
    else o
  }

  function PushLevel(o: Owned): Owned {
    o.(below := o.below + [o.top], top := Null)
  }

  /** What the pass from `t` to `t'` does to nodes and references. */
  function Follow(o: Owned, t: Tok, t': Tok): Owned {
    match t.top.state
    case Start | Inf | NullLit | Boolean | Number | Str =>
      if t'.top.current == JNull then o else Make(o, t'.top.current)
    case Finish => Take(o)
    case ArrayAdd => AddItem(o)
    case ObjectValueAdd => if t.top.key.Some? then AddMember(o, t.top.key.value) else o
    case Array | ArrayAfterSep | ObjectValue => if |t'.below| > |t.below| then PushLevel(o) else o
    case _ => o
  }

  /** What the pass does to the values. */
  predicate Moves(t: Tok, t': Tok) {
    match t.top.state
    case Start | Inf | NullLit | Boolean | Number | Str =>
      t'.below == t.below && t'.obj == t.obj && t.top.current == JNull &&
        (t'.top.current == JNull || Fresh(t'.top.current))
    case Finish =>
      t.obj == JNull &&
      if t.below == [] then t' == t
      else t'.below == t.below[..|t.below| - 1] && t'.top == t.below[|t.below| - 1] && t'.obj == t.top.current
    case ArrayAdd =>
      t'.below == t.below && t.top.current.JArray? && t'.top.current == JArray(t.top.current.items + [t.obj]) &&
        t'.obj == JNull
    case ObjectValueAdd =>
      t'.below == t.below && t.top.current.JObject? && t.top.key.Some? && t'.obj == JNull &&
      t'.top.current == JObject(OrderedMap.Put(t.top.current.members, t.top.key.value, t.obj))
    case Array | ArrayAfterSep | ObjectValue =>
      t'.obj == t.obj &&
      ((t'.below == t.below && t'.top.current == t.top.current) ||
       (|t'.below| == |t.below| + 1 && t'.below == t.below + [t'.below[|t.below|]] &&
         t'.below[|t.below|].current == t.top.current && t'.top.current == JNull))
    case _ => t'.below == t.below && t'.top.current == t.top.current && t'.obj == t.obj
  }

  lemma StepMoves(g: Config, t: Tok, input: bytes, i: nat)
    requires WellFormed(g, t) && i < |input|
    ensures Moves(t, Step(g, t, input, i).t)
  {
    hide Matches, CString, Numbers.ParseInt64, Emission, Utf8.DecodePair, AddDigit;
    match t.top.state
    case Start => StartMoves(g, t, input[i]);
    case Inf | NullLit | Boolean => LiteralMoves(g, t, input, i);
    case Number => NumberMoves(g, t, input[i]);
    case EscapeUnicode => UnicodeMoves(t, input, i);
    case Finish | ArrayAdd | ObjectValueAdd =>
    case _ =>
  }

  lemma StartMoves(g: Config, t: Tok, c: byte)
    requires WellFormed(g, t) && t.top.state == Start
    ensures Moves(t, StepStart(g, t, c).t)
  {}

  lemma LiteralMoves(g: Config, t: Tok, input: bytes, i: nat)
    requires WellFormed(g, t) && i < |input| && (t.top.state == Inf || t.top.state == NullLit || t.top.state == Boolean)
    ensures Moves(t, Step(g, t, input, i).t)
  {
    hide Matches;
    if t.top.state == Inf {} else if t.top.state == NullLit {} else {}
  }

  lemma NumberMoves(g: Config, t: Tok, c: byte)
    requires WellFormed(g, t) && t.top.state == Number
    ensures Moves(t, StepNumber(g, t, c).t)
  {
    hide Numbers.ParseInt64;
  }

  lemma UnicodeMoves(t: Tok, input: bytes, i: nat)
    requires t.top.state == EscapeUnicode && t.stPos < 4 && i < |input|
    ensures Moves(t, StepUnicode(t, input, i).t)
  {
    hide Emission, Utf8.DecodePair, AddDigit, EscapeFollows, Utf8.IsHighSurrogate, Utf8.IsLowSurrogate;
  }
}
