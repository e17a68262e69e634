/** Any sequence of calls, resets and releases by the caller, and the end of the tokener. */
module OwnershipSessions {
  import opened Bytes
  import opened JsonValue
  import opened TokenerMachine
  import opened TokenerInvariant
  import opened TokenerLimits
  import opened ReusedTokener
  import opened RefCount
  import opened Ownership
  import opened OwnershipActs
  import opened OwnershipRuns

  /** A chunk, `json_tokener_reset`, or `json_object_put` by the caller on the value at position `i`. */
  datatype Event = Chunk(chunk: bytes) | Reset | Release(i: nat)

  /** What has left the tokener (`o.held`) was returned, or was dropped by a later call: no one can release it then. */
  datatype State = State(t: Tok, o: Owned, dropped: seq<bool>)

  predicate CanParse(g: Config, t: Tok) {
    Reusable(g, t) && Idle(t)
  }

  function Without<T>(refs: seq<T>, i: nat): seq<T>
    requires i < |refs|
  {
    refs[..i] + refs[i + 1..]
  }

  /** The caller holds the value at position `i`. */
  predicate Holds(s: State, i: nat) {
    i < |s.o.held| && i < |s.dropped| && !s.dropped[i]
  }

  function Marks(n: nat, more: bool): seq<bool> {
    seq(n, _ => true) + (if more then [false] else [])
  }

  function After(g: Config, s: State, ev: Event): State
    requires (ev.Chunk? ==> CanParse(g, s.t)) && (ev.Release? ==> Holds(s, ev.i))
  {
    match ev
    case Chunk(chunk) =>
      var m, r := CleanBelow(s.t.below), ParseOn(g, s.t, chunk);
      State(r.tok, RunOwned(g, s.o, s.t, m, chunk, 0),
        s.dropped + Marks(|Dropped(g, s.t, m, chunk, 0)|, r.err == Success))
    case Reset => State(s.t.(below := [], top := CLEAN), ReleaseLevels(s.o).(below := []), s.dropped)
    case Release(i) =>
      State(s.t, s.o.(heap := PutAll(s.o.heap, [s.o.held[i]]), held := Without(s.o.held, i)), Without(s.dropped, i))
  }

  /** Calls are made unless the last one was cut behind an escape, and the caller releases what it holds. */
  predicate Legal(g: Config, s: State, events: seq<Event>)
    decreases |events|
  {
    events == [] ||
    ((events[0].Chunk? ==> CanParse(g, s.t)) && (events[0].Release? ==> Holds(s, events[0].i)) &&
     Legal(g, After(g, s, events[0]), events[1..]))
  }

  function Session(g: Config, s: State, events: seq<Event>): State
    requires Legal(g, s, events)
    decreases |events|
  {
    if events == [] then s else Session(g, After(g, s, events[0]), events[1..])
  }

  /** All owners are counted, and the references stand for what the machine holds. */
  ghost predicate Good(s: State) {
    Sound(s.o) && Closed(s.o.heap, s.o.next) && Mirrors(s.o, s.t) && s.t.obj == JNull && |s.dropped| == |s.o.held|
  }

  const FIRST: State := State(NEW, Owned(map[], 0, [], Null, Null, []), [])

  lemma FirstIsGood()
    ensures Good(FIRST)
  {
    var o := FIRST.o;
    hide NodeOk;
    SoundIsTallied(o);
  }

  lemma ResetIsGood(g: Config, s: State)
    requires Good(s)
    ensures Good(After(g, s, Reset)) && Within(After(g, s, Reset).o.heap, s.o.heap)
  {
    hide Sound, PutAll;
    var o1 := ReleaseLevels(s.o);
    var o' := o1.(below := []);
    ReleaseIsSound(s.o);
    SoundIsTallied(o1);
    SoundIsTallied(o');
    forall n: nat ensures Tally(o', n) == Tally(o1, n) { CountNulls(|s.o.below|, n); }
    assert Rising(Stack(o'));
    NullOnly(s.o, s.t);
    SoundIsClosed(o');
    NullMeans(o');
  }

  lemma ReleaseIsGood(g: Config, s: State, i: nat)
    requires Good(s) && Holds(s, i)
    ensures Good(After(g, s, Release(i))) && Within(After(g, s, Release(i)).o.heap, s.o.heap)
  {
    hide Value, Closed, PutAll, KidCount, NodeOk, Rising;
    var o := s.o;
    var o' := After(g, s, Release(i)).o;
    forall n: nat ensures Count(Roots(o), n) == Count([o.held[i]] + Roots(o'), n) {
      assert o.held == o.held[..i] + [o.held[i]] + o.held[i + 1..];
      CountAppend(o.held[..i] + [o.held[i]], o.held[i + 1..], n);
      CountAppend(o.held[..i], [o.held[i]], n);
      CountAppend(o.held[..i], o.held[i + 1..], n);
      CountAppend([o.held[i]], Roots(o'), n);
      RootsTally(o, n);
      RootsTally(o', n);
    }
    CountedBy(o.heap, o.next, Roots(o), [o.held[i]] + Roots(o'));
    PutAllCounts(o.heap, o.next, [o.held[i]], Roots(o'));
    forall k | k in o'.heap ensures o'.heap[k].rc == 1 { RcPositive(o'.heap, o'.next, Roots(o'), k); }
    assert Stack(o') == Stack(o);
    SoundIsClosed(o');
    assert Sound(o');
    hide Sound;
    forall j | 0 <= j < |o.below| ensures Means(o', o.below[j], s.t.below[j].current) {
      assert Means(o, o.below[j], s.t.below[j].current);
      WithinValue(o.heap, o'.heap, o.next, o.below[j]);
    }
    WithinValue(o.heap, o'.heap, o.next, o.top);
    WithinValue(o.heap, o'.heap, o.next, o.obj);
  }

  lemma EventIsGood(g: Config, s: State, ev: Event)
    requires Good(s) && (ev.Chunk? ==> CanParse(g, s.t)) && (ev.Release? ==> Holds(s, ev.i))
    ensures Good(After(g, s, ev))
  {
    hide Sound, Closed, Mirrors, RunOwned, RunOn, HeldKept, Dropped;
    match ev
    case Chunk(chunk) =>
      RunIsSound(g, s.o, s.t, CleanBelow(s.t.below), chunk, 0);
      NextCallExactlyWhen(g, s.t, chunk);
    case Reset => ResetIsGood(g, s);
    case Release(i) => ReleaseIsGood(g, s, i);
  }

  lemma {:induction false} SessionIsGood(g: Config, s: State, events: seq<Event>)
    requires Good(s) && Legal(g, s, events)
    ensures Good(Session(g, s, events))
    decreases |events|
  {
    hide Good, After;
    if events != [] {
      EventIsGood(g, s, events[0]);
      SessionIsGood(g, After(g, s, events[0]), events[1..]);
    }
  }

  /** `json_tokener_free`: a reset, and the tokener is gone. */
  function Freed(o: Owned): Heap {
    ReleaseLevels(o).heap
  }

  /** The reference at position `i` of what has left the tokener is the only one to its node. */
  ghost predicate OwnedOnce(h: Heap, held: seq<Ref>, i: nat) {
    i < |held| && held[i].To? &&
    (forall j | 0 <= j < |held| && j != i :: held[j] != held[i]) && (forall k | k in h :: held[i] !in Kids(h[k].shape))
  }

  /**
   Whatever was parsed, with errors anywhere: once the tokener is freed, every node that is left has the count 1 and
   is reached from what has left the tokener, which was returned or dropped.
   */
  lemma OnlyReturnedValuesRemain(g: Config, events: seq<Event>)
    requires Legal(g, FIRST, events)
    ensures var s := Session(g, FIRST, events);
      && |s.dropped| == |s.o.held|
      && (forall k | k in Freed(s.o) :: Freed(s.o)[k].rc == 1 && Reached(Freed(s.o), s.o.held, k))
      && ((forall i: nat | i < |s.o.held| :: s.o.held[i].Null?) ==> Freed(s.o) == map[])
  {
    hide PutAll, Reached, NodeOk;
    var s := Session(g, FIRST, events);
    FirstIsGood();
    SessionIsGood(g, FIRST, events);
    ReleaseIsSound(s.o);
    var o := ReleaseLevels(s.o);
    FreedRoots(s);
    CountedBy(o.heap, o.next, Roots(o), o.held);
    hide Counted;
    forall k | k in o.heap ensures Reached(o.heap, o.held, k) { LiveIsReached(o.heap, o.next, o.held, k); }
    if forall i: nat | i < |s.o.held| :: s.o.held[i].Null? {
      NullsCountNothing(o.held);
      CountedBy(o.heap, o.next, o.held, []);
      NoRootsNoNodes(o.heap, o.next);
    }
  }

  lemma FreedRoots(s: State)
    requires Good(s)
    ensures var o := ReleaseLevels(s.o); forall n: nat :: Count(Roots(o), n) == Count(o.held, n)
  {
    var o := ReleaseLevels(s.o);
    NullOnly(s.o, s.t);
    forall n: nat ensures Count(Roots(o), n) == Count(o.held, n) {
      RootsTally(o, n);
      CountNulls(|s.o.below|, n);
    }
  }

  /**
   A dropped value other than null is lost: its node is alive after the tokener is freed, and nothing that anyone
   could release leads to it.
   */
  lemma DroppedIsLost(g: Config, events: seq<Event>, i: nat)
    requires Legal(g, FIRST, events)
    requires var s := Session(g, FIRST, events); i < |s.o.held| && s.o.held[i].To?
    ensures var s := Session(g, FIRST, events);
      s.o.held[i].id in Freed(s.o) && Freed(s.o)[s.o.held[i].id].rc == 1 && OwnedOnce(Freed(s.o), s.o.held, i)
  {
    hide PutAll, NodeOk;
    var s := Session(g, FIRST, events);
    FirstIsGood();
    SessionIsGood(g, FIRST, events);
    ReleaseIsSound(s.o);
    var o := ReleaseLevels(s.o);
    FreedRoots(s);
    CountedBy(o.heap, o.next, Roots(o), o.held);
    HeldOnce(o.heap, o.next, o.held, i);
  }

  lemma HeldOnce(h: Heap, b: nat, held: seq<Ref>, i: nat)
    requires Counted(h, b, held) && (forall k | k in h :: h[k].rc == 1) && i < |held| && held[i].To?
    ensures held[i].id in h && OwnedOnce(h, held, i)
  {
    var n := held[i].id;
    CountMember(held, i);
    assert Rc(h, n) == Count(held, n) + KidCount(h, b, n);
    forall j | 0 <= j < |held| && j != i ensures held[j] != held[i] {
      if held[j] == held[i] { CountTwice(held, if i < j then i else j, if i < j then j else i); }
    }
    forall k | k in h ensures held[i] !in Kids(h[k].shape) {
      KidCountHas(h, b, k, n);
      CountIsMembership(Kids(h[k].shape), n);
    }
  }

  lemma CountTwice(held: seq<Ref>, i: nat, j: nat)
    requires i < j < |held| && held[i] == held[j] && held[i].To?
    ensures Count(held, held[i].id) >= 2
  {
    var n := held[i].id;
    assert held == held[..j] + held[j..];
    CountAppend(held[..j], held[j..], n);
    CountMember(held[..j], i);
    CountMember(held[j..], 0);
  }

  /** A call has dropped the value at position `i`. */
  predicate Lost(s: State, i: nat) {
    i < |s.o.held| && i < |s.dropped| && s.dropped[i]
  }

  /** When no call has dropped anything but null, nothing is left once the caller has released what it was given. */
  lemma NothingRemainsExactlyWhen(g: Config, events: seq<Event>)
    requires Legal(g, FIRST, events)
    requires var s := Session(g, FIRST, events); forall i: nat | Holds(s, i) :: s.o.held[i].Null?
    ensures var s := Session(g, FIRST, events);
      Freed(s.o) == map[] <==> forall i: nat | Lost(s, i) :: s.o.held[i].Null?
  {
    hide Freed, Session, Legal, Reached;
    var s := Session(g, FIRST, events);
    OnlyReturnedValuesRemain(g, events);
    forall i: nat | i < |s.o.held| && s.o.held[i].To? ensures Freed(s.o) != map[] { DroppedIsLost(g, events, i); }
  }

  lemma {:induction false} NullsCountNothing(refs: seq<Ref>)
    requires forall i | 0 <= i < |refs| :: refs[i].Null?
    ensures forall n: nat :: Count(refs, n) == 0 == Count([], n)
  {
    if refs != [] { NullsCountNothing(refs[1..]); }
  }

  // ---------------------------------------------------------------- a session that leaks

  /** `1` NUL */
  const ONE_TEXT: bytes := [ZERO + 1, NUL]

  /** A pass that starts over above the clean levels. */
  lemma OnRedo(g: Config, t: Tok, m: nat, input: bytes, i: nat, t': Tok)
    requires Open(g, t, m) && i < |input| && !Drops(t, m) && Step(g, t, input, i) == Redo(t')
    ensures Open(g, t', m) && Dropped(g, t, m, input, i) == Dropped(g, t', m, input, i)
    ensures RunOn(g, t, m, input, i) == RunOn(g, t', m, input, i)
  {
    StepKeepsOpen(g, t, m, input, i);
    hide Step, TokenerMachine.Shape;
  }

  /** The digit is read as a number above one clean level. */
  lemma OneIsRead(g: Config, t: Tok) returns (t': Tok)
    requires Open(g, t, 1) && t.below == [CLEAN] && t.top == CLEAN && Idle(t)
    ensures Open(g, t', 1) && t' == Go(t, Number).(pb := [ZERO + 1], isDouble := false, caseLen := 1)
    ensures Dropped(g, t, 1, ONE_TEXT, 0) == Dropped(g, t', 1, ONE_TEXT, 1)
    ensures RunOn(g, t, 1, ONE_TEXT, 0) == RunOn(g, t', 1, ONE_TEXT, 1)
  {
    var t1 := Go(t, Start);
    OnRedo(g, t, 1, ONE_TEXT, 0, t1);
    var t2 := Go(t, Number).(pb := [], isDouble := false, caseLen := 0);
    OnRedo(g, t1, 1, ONE_TEXT, 0, t2);
    t' := Go(t, Number).(pb := [ZERO + 1], isDouble := false, caseLen := 1);
    StepKeepsOpen(g, t2, 1, ONE_TEXT, 0);
    assert [] + [ONE_TEXT[0]] == [ZERO + 1];
    assert Step(g, t2, ONE_TEXT, 0) == Advance(t', 1);
    hide Step, TokenerMachine.Shape;
  }

  /** At the NUL the number is complete; it is popped onto the clean level and dropped, and the call fails. */
  lemma OneIsDropped(g: Config, t: Tok)
    requires Open(g, t, 1) && t.below == [CLEAN] && t.top == CLEAN.(state := Number) && t.obj == JNull
    requires t.pb == [ZERO + 1] && !t.isDouble
    ensures Dropped(g, t, 1, ONE_TEXT, 1) == [JInt(1)] && RunOn(g, t, 1, ONE_TEXT, 1).err == ErrEof
  {
    Numbers.PrintParseInt(1);
    assert Numbers.PrintInt(1) == [ZERO + 1];
    var t1 := Accept(t.(caseLen := 0), JInt(1));
    OnRedo(g, t, 1, ONE_TEXT, 1, t1);
    var t2 := Go(t1, Finish);
    OnRedo(g, t1, 1, ONE_TEXT, 1, t2);
    PopDrops(g, t2, ONE_TEXT, 1);
  }

  lemma PopDrops(g: Config, t: Tok, input: bytes, i: nat)
    requires Open(g, t, 1) && t.below == [CLEAN] && t.top.state == Finish && i < |input| && input[i] == NUL
    ensures Dropped(g, t, 1, input, i) == [t.top.current] && RunOn(g, t, 1, input, i).err == ErrEof
  {
    PopIsOpen(g, t, 1, input, i);
    var t1 := t.(below := [], top := CLEAN, obj := JNull);
    assert Step(g, t, input, i) == Redo(t1.(obj := t.top.current)) && t1.(obj := t.top.current).(obj := JNull) == t1;
    FailsAtNul(g, t1, input, i);
    hide Step, TokenerMachine.Shape;
  }

  lemma FailsAtNul(g: Config, t: Tok, input: bytes, i: nat)
    requires Open(g, t, 0) && t.below == [] && t.top == CLEAN && i < |input| && input[i] == NUL
    ensures Dropped(g, t, 0, input, i) == [] && RunOn(g, t, 0, input, i).err == ErrEof
  {
    var t1 := Go(t, Start);
    StepAtBlank(g, t, input, i);
    OnRedo(g, t, 0, input, i, t1);
    StepKeepsOpen(g, t1, 0, input, i);
    StepAtStart(g, t1, input, i);
    hide Step, TokenerMachine.Shape, Rank;
  }

  /** The first call returns the inner string from inside the array. */
  lemma OpenValueReturned(g: Config) returns (s: State)
    requires !g.strict && g.maxDepth >= 2
    ensures CanParse(g, NEW) && s == After(g, FIRST, Chunk(OPEN_TEXT)) && Good(s)
    ensures Holds(s, 0) && s.dropped == [false] && CanParse(g, s.t) && s.t.below == [CLEAN] && s.t.top == CLEAN
  {
    hide RunOn, Run, RunOwned, Dropped, PutAll, Sound, Mirrors, Closed;
    UnterminatedCommentIsAccepted(g);
    WellFormedIsOpen(g, NEW);
    OpenIsReusable(g, NEW, 0);
    NextCallExactlyWhen(g, NEW, OPEN_TEXT);
    NothingDropped(g, NEW, OPEN_TEXT, 0);
    RunSettles(g, NEW, OPEN_TEXT, 0);
    FirstIsGood();
    EventIsGood(g, FIRST, Chunk(OPEN_TEXT));
    s := After(g, FIRST, Chunk(OPEN_TEXT));
    assert s.t.below[0] in s.t.below;
  }

  /** The second call drops the number. */
  lemma NumberDropped(g: Config, s: State) returns (s': State)
    requires Good(s) && CanParse(g, s.t) && s.t.below == [CLEAN] && s.t.top == CLEAN && s.o.held == []
    ensures s' == After(g, s, Chunk(ONE_TEXT)) && s'.dropped == [true] && |s'.o.held| == 1 && s'.o.held[0].To?
  {
    hide RunOn, RunOwned, Dropped, PutAll, Sound, HeldKept;
    assert s.t.below[1..] == [];
    assert CleanBelow(s.t.below) == 1;
    var t := OneIsRead(g, s.t);
    OneIsDropped(g, t);
    RunIsSound(g, s.o, s.t, 1, ONE_TEXT, 0);
    s' := After(g, s, Chunk(ONE_TEXT));
    var h := s'.o.held;
    assert Means(s'.o, h[0 + 0], [JInt(1)][0]);
  }

  /**
   `["" /` `*` NUL, then the release of the returned string, then `1` NUL: the caller holds nothing, the tokener is
   freed, and a node is left.
   */
  lemma LeakingSession(g: Config)
    requires !g.strict && g.maxDepth >= 2
    ensures var events := [Chunk(OPEN_TEXT), Release(0), Chunk(ONE_TEXT)];
      Legal(g, FIRST, events) && var s := Session(g, FIRST, events);
      (forall i: nat :: !Holds(s, i)) && Freed(s.o) != map[]
  {
    hide RunOn, ParseOn, RunOwned, Dropped, PutAll, Sound, Mirrors, Closed, Freed, Reusable, Idle;
    var events := [Chunk(OPEN_TEXT), Release(0), Chunk(ONE_TEXT)];
    var s1 := OpenValueReturned(g);
    EventIsGood(g, s1, Release(0));
    var s2 := After(g, s1, Release(0));
    var s3 := NumberDropped(g, s2);
    assert events[1..] == [Release(0), Chunk(ONE_TEXT)] && events[1..][1..] == [Chunk(ONE_TEXT)] &&
      events[1..][1..][1..] == [];
    assert Legal(g, s3, []) && Session(g, s3, []) == s3;
    assert Legal(g, s2, [Chunk(ONE_TEXT)]) && Session(g, s2, [Chunk(ONE_TEXT)]) == s3;
    assert Legal(g, s1, [Release(0), Chunk(ONE_TEXT)]) && Session(g, s1, [Release(0), Chunk(ONE_TEXT)]) == s3;
    assert Legal(g, FIRST, events) && Session(g, FIRST, events) == s3;
    DroppedIsLost(g, events, 0);
  }
}
