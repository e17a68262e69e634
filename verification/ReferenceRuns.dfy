/**
 The tokener is its reference: for every C string, in both modes and with any limit of depth, a call returns the error,
 the value and the offset that recursive descent gives.
 */
module ReferenceRuns {
  import opened Bytes
  import opened JsonValue
  import opened OrderedMap
  import opened TokenerMachine
  import opened TokenerSteps
  import opened Grammar
  import opened GrammarStrings
  import opened GrammarTexts
  import opened Reference
  import opened ReferenceSkips
  import opened ReferenceWords
  import opened ReferenceStrings

  // ---------------------------------------------------------------- single passes between tokens

  /** Between tokens, in front of a character that is no white space. */
  predicate Awake(g: Config, t: Tok, s: bytes, i: nat) {
    && WellFormed(g, t) && t.top.state == EatWs && t.obj == JNull && i <= |s| && NUL !in s
    && !IsSpace(CharAt(s, i)) && (CharAt(s, i) == SLASH ==> g.strict)
  }

  /** The awaited state takes over. */
  lemma WakeUp(g: Config, t: Tok, s: bytes, i: nat) returns (t': Tok)
    requires Awake(g, t, s, i)
    ensures Leads(g, t, i, t', i, Input(s)) && t' == Go(t, t.top.saved)
  {
    hide Run, Step, WellFormed;
    InputAt(s, i);
    t' := Go(t, t.top.saved);
    StepAtBlank(g, t, Input(s), i);
    Restart(g, t, Input(s), i, t');
  }

  /** White space is skipped up to where the reference skips it. */
  lemma SkipTo(g: Config, t: Tok, s: bytes, i: nat) returns (t': Tok)
    requires WellFormed(g, t) && t.top.state == EatWs && t.obj == JNull && i <= |s| && NUL !in s
    ensures Skips(g, t, t', s, i)
    ensures Skip(g.strict, s, i).Reached? ==> Awake(g, t', s, Skip(g.strict, s, i).i)
  {
    hide Run, Skip;
    t' := SkipRuns(g, t, s, i);
    if Skip(g.strict, s, i).Reached? { ReachedIsSolid(g.strict, s, i); }
  }

  /** An error of the state that has been awaited. */
  lemma HaltsAwake(g: Config, t: Tok, s: bytes, i: nat, e: Error)
    requires Awake(g, t, s, i) && t.top.saved != Finish && e != Success
    requires Step(g, Go(t, t.top.saved), Input(s), i) == Halt(Go(t, t.top.saved), e, 0)
    ensures Ends(g, t, s, i, Fail(s, e, i))
  {
    hide Run, Step;
    var t1 := WakeUp(g, t, s, i);
    HaltsHere(g, t1, s, i, t1, e);
    EndsBefore(g, t, i, t1, i, s, Fail(s, e, i));
  }

  /** What the waking state does with the character in front of it. */
  lemma AwakeStep(g: Config, t: Tok, s: bytes, i: nat)
    requires Awake(g, t, s, i)
    ensures var u, c := Go(t, t.top.saved), CharAt(s, i);
      && (t.top.saved == Array || t.top.saved == ArrayAfterSep ==> Step(g, u, Input(s), i) == StepArray(g, u, c))
      && (t.top.saved == ArraySep ==> Step(g, u, Input(s), i) == StepArraySep(u, c))
      && (t.top.saved == ObjectFieldStart || t.top.saved == ObjectFieldStartAfterSep ==>
            Step(g, u, Input(s), i) == StepFieldStart(g, u, c))
      && (t.top.saved == ObjectFieldEnd ==> Step(g, u, Input(s), i) == StepFieldEnd(u, c))
      && (t.top.saved == ObjectValue ==> Step(g, u, Input(s), i) == StepValue(g, u))
      && (t.top.saved == ObjectSep ==> Step(g, u, Input(s), i) == StepObjectSep(u, c))
  {
    hide Step, StepArray, StepArraySep, StepFieldStart, StepFieldEnd, StepValue, StepObjectSep, WellFormed;
    InputAt(s, i);
    StepAtItem(g, Go(t, t.top.saved), Input(s), i);
    StepAtMember(g, Go(t, t.top.saved), Input(s), i);
  }

  /** The character is consumed, and white space is skipped in front of what comes next. */
  lemma PassesTo(g: Config, t: Tok, s: bytes, i: nat, next: State) returns (t': Tok)
    requires Awake(g, t, s, i) && i < |s|
    requires Step(g, Go(t, t.top.saved), Input(s), i) == Advance(Await(Go(t, t.top.saved), next), 1)
    ensures Leads(g, t, i, t', i + 1, Input(s)) && t' == t.(top := t.top.(saved := next))
  {
    hide Run, Step;
    InputAt(s, i);
    var t1 := WakeUp(g, t, s, i);
    t' := Await(t1, next);
    hide WellFormed;
    Consume(g, t1, Input(s), i, t');
  }

  /** A level is opened for a value. */
  lemma Opens(g: Config, t: Tok, s: bytes, i: nat) returns (t': Tok)
    requires Awake(g, t, s, i) && |t.below| + 1 < g.maxDepth
    requires t.top.saved == Array || t.top.saved == ArrayAfterSep || t.top.saved == ObjectValue
    requires t.top.saved != ObjectValue ==> CharAt(s, i) != 0x5D
    ensures Leads(g, t, i, t', i, Input(s)) && AtStart(g, t', s, i) && t'.stPos == t.stPos
    ensures t'.below == t.below + [Waker(t)]
  {
    hide Run, Step;
    AwakeStep(g, t, s, i);
    InputAt(s, i);
    var t1 := WakeUp(g, t, s, i);
    t' := Push(t1, if t.top.saved == ObjectValue then ObjectValueAdd else ArrayAdd);
    hide WellFormed;
    Restart(g, t1, Input(s), i, t');
  }

  /** A finished value is popped and stored. */
  lemma Stores(g: Config, t: Tok, s: bytes, i: nat) returns (t': Tok)
    requires Awake(g, t, s, i) && t.top.saved == Finish && t.below != []
    ensures var n := |t.below| - 1;
      Waiting(t.below[n]) && Leads(g, t, i, t', i, Input(s)) && Awake(g, t', s, i) && t'.stPos == t.stPos &&
      t'.below == t.below[..n] && t'.top == Stored(t.below[n], t.top.current)
  {
    hide Run, Step;
    var n := |t.below| - 1;
    assert Waiting(t.below[n]);
    InputAt(s, i);
    var t1 := WakeUp(g, t, s, i);
    var t2 := t1.(below := t.below[..n], top := t.below[n], obj := t.top.current);
    PopStep(g, t1, Input(s), i, t2);
    t' := t2.(top := Stored(t.below[n], t.top.current), obj := JNull);
    hide WellFormed;
    StoreStep(g, t2, Input(s), i, t');
  }

  // ---------------------------------------------------------------- values

  /** The room for levels above the top. */
  function Room(g: Config, t: Tok): int {
    g.maxDepth - 1 - |t.below|
  }

  lemma RoomIsNat(g: Config, t: Tok)
    requires WellFormed(g, t)
    ensures Room(g, t) >= 0
  {}

  /** The opening quote. */
  lemma StringOpens(g: Config, t: Tok, s: bytes, i: nat) returns (t': Tok)
    requires AtStart(g, t, s, i) && i < |s| && (s[i] == DQUOTE || (s[i] == SQUOTE && !g.strict))
    ensures Leads(g, t, i, t', i + 1, Input(s)) && InString(g, t', s, i + 1, s[i])
    ensures t' == Go(t, Str).(pb := [], quote := s[i])
  {
    hide Run, Step;
    InputAt(s, i);
    t' := OpenString(g, t, Input(s), i);
    TextIsQuiet(g, t');
  }

  function StringAnswer(s: bytes, i: nat, moved: bool): Answer
    requires i < |s| && NUL !in s
  {
    match Lex(s, i + 1, s[i])
    case Broken(e, at) => Stopped(e, JNull, at)
    case Closed(ps, end) => Got(JString(Said(0, ps)), end, moved || HasUnit(ps))
  }

  lemma StringFromStart(g: Config, t: Tok, s: bytes, i: nat) returns (t': Tok)
    requires AtStart(g, t, s, i) && i < |s| && (s[i] == DQUOTE || (s[i] == SQUOTE && !g.strict))
    ensures Answers(g, t, i, t', s, StringAnswer(s, i, t.stPos != 0))
  {
    hide Run, Step, Lex, WellFormed, InString, Ends, StringAnswer, AtStart;
    IsAtStart(g, t, s, i);
    var t1 := StringOpens(g, t, s, i);
    if Lex(s, i + 1, s[i]).Broken? {
      t' := t;
      TextBreaks(g, t1, s, i + 1, s[i]);
      BrokenAnswer(s, i, t.stPos != 0);
      EndsBefore(g, t, i, t1, i + 1, s, Broke(Lex(s, i + 1, s[i])));
    } else {
      t' := StringCloses(g, t1, s, i);
      AnswersBefore(g, t, i, t1, i + 1, t', s, StringAnswer(s, i, t.stPos != 0));
    }
  }

  lemma BrokenAnswer(s: bytes, i: nat, moved: bool)
    requires i < |s| && NUL !in s && Lex(s, i + 1, s[i]).Broken?
    ensures StringAnswer(s, i, moved) == Broke(Lex(s, i + 1, s[i]))
  {}

  lemma StringCloses(g: Config, t: Tok, s: bytes, i: nat) returns (t': Tok)
    requires i < |s| && InString(g, t, s, i + 1, s[i]) && t.pb == [] && Lex(s, i + 1, s[i]).Closed?
    requires t.top.state == Str && t.top.key == None
    ensures Answers(g, t, i + 1, t', s, StringAnswer(s, i, t.stPos != 0))
  {
    hide Run, Step, Lex, Said, HasUnit, PiecesOk, WellFormed;
    var t1 := PiecesPass(g, t, s, i + 1, s[i]);
    t' := CloseString(g, t1, Input(s), Lex(s, i + 1, s[i]).end - 1);
  }

  /** The text of a string up to its closing quote. */
  lemma PiecesPass(g: Config, t: Tok, s: bytes, i: nat, q: byte) returns (t': Tok)
    requires InString(g, t, s, i, q) && t.pb == [] && Lex(s, i, q).Closed?
    ensures var r := Lex(s, i, q);
      && Leads(g, t, i, t', r.end - 1, Input(s)) && Input(s)[r.end - 1] == q && t'.pb == Said(0, r.ps)
      && t'.below == t.below && t'.top == t.top.(saved := t'.top.saved) && t'.quote == q && t'.obj == JNull
      && (t'.stPos != 0 <==> t.stPos != 0 || HasUnit(r.ps))
  {
    hide Run, Step, Lex, Said, HasUnit, PiecesText, PiecesAt, PiecesOk, WellFormed;
    var r := Lex(s, i, q);
    LexIs(s, i, q);
    t' := PiecesRun(g, t, Input(s), i, r.ps);
    assert [] + Said(0, r.ps) == Said(0, r.ps);
    AtQuote(Input(s), i, r.ps, q);
  }

  lemma TextIsQuiet(g: Config, t: Tok)
    requires WellFormed(g, t) && InText(t.top.state)
    ensures t.hi == 0
  {}

  /** A character that starts no value. */
  lemma NoValue(g: Config, t: Tok, s: bytes, i: nat)
    requires AtStart(g, t, s, i)
    requires Step(g, Go(t, Start), Input(s), i) == Halt(Go(t, Start), ErrUnexpected, 0)
    ensures Ends(g, t, s, i, Fail(s, ErrUnexpected, i))
  {
    hide Run, Step;
    var t1 := Started(g, t, s, i);
    HaltsHere(g, t1, s, i, t1, ErrUnexpected);
    EndsBefore(g, t, i, t1, i, s, Fail(s, ErrUnexpected, i));
  }

  lemma ContainerFromStart(g: Config, t: Tok, s: bytes, i: nat) returns (t': Tok)
    requires AtStart(g, t, s, i) && i < |s| && (s[i] == LBRACKET || s[i] == LBRACE)
    ensures Leads(g, t, i, t', i + 1, Input(s)) && t'.below == t.below && t'.obj == JNull && t'.stPos == t.stPos
    ensures t'.top == if s[i] == LBRACKET then Level(EatWs, Array, JArray([]), None)
                      else Level(EatWs, ObjectFieldStart, JObject([]), None)
  {
    hide Run, Step, WellFormed;
    InputAt(s, i);
    t' := OpenContainer(g, t, Input(s), i);
  }

  lemma {:induction false} ValueRuns(g: Config, t: Tok, s: bytes, i: nat) returns (t': Tok)
    requires AtStart(g, t, s, i) && Room(g, t) >= 0
    ensures Concludes(g, t, i, t', s, ReadValue(g, s, i, Room(g, t), t.stPos != 0), t.below)
    decreases |s| - i, 1
  {
    hide Run, Step, WellFormed, Answers, Concludes, ReadItems, ReadMembers, ReadNumber, NullOrNaN, ReadWord, Lex;
    var c := CharAt(s, i);
    var a := ReadValue(g, s, i, Room(g, t), t.stPos != 0);
    if c == 0x5B {
      var t1 := ContainerFromStart(g, t, s, i);
      t' := ItemsRun(g, t1, s, i + 1, []);
      Across(g, t, i, t1, i + 1, t', s, a, t.below);
    } else if c == 0x7B {
      var t1 := ContainerFromStart(g, t, s, i);
      t' := MembersRun(g, t1, s, i + 1, []);
      Across(g, t, i, t1, i + 1, t', s, a, t.below);
    } else {
      t' := ScalarRuns(g, t, s, i);
      ConcludesIs(g, t, i, t', s, a);
    }
  }

  lemma ScalarRuns(g: Config, t: Tok, s: bytes, i: nat) returns (t': Tok)
    requires AtStart(g, t, s, i) && Room(g, t) >= 0 && CharAt(s, i) != 0x5B && CharAt(s, i) != 0x7B
    ensures Answers(g, t, i, t', s, ReadValue(g, s, i, Room(g, t), t.stPos != 0))
  {
    hide Run, Step, WellFormed, Answers, ReadItems, ReadMembers, ReadNumber, NullOrNaN, ReadWord, Lex, StepStart;
    WordsAre();
    var c := CharAt(s, i);
    if c == 0x22 || (c == 0x27 && !g.strict) {
      t' := StringFromStart(g, t, s, i);
    } else if c == 0x6E || c == 0x4E {
      t' := NullFromStart(g, t, s, i);
    } else if c == 0x49 || c == 0x69 {
      t' := WordFromStart(g, t, s, i, Inf, INF_TEXT, JDouble(INF_TEXT), ErrUnexpected);
    } else if c == 0x74 || c == 0x54 {
      t' := WordFromStart(g, t, s, i, Boolean, TRUE_TEXT, JBool(true), ErrBoolean);
    } else if c == 0x66 || c == 0x46 {
      t' := WordFromStart(g, t, s, i, Boolean, FALSE_TEXT, JBool(false), ErrBoolean);
    } else if 0x30 <= c <= 0x39 || c == 0x2D {
      t' := NumberFromStart(g, t, s, i);
    } else {
      t' := t;
      Unstartable(g, t, s, i);
      NoValue(g, t, s, i);
      StopIsAnswer(g, t, i, t', s, Fail(s, ErrUnexpected, i));
    }
  }

  lemma StopIsAnswer(g: Config, t: Tok, i: nat, t': Tok, s: bytes, a: Answer)
    requires a.Stopped? && Ends(g, t, s, i, a)
    ensures Answers(g, t, i, t', s, a)
  {}

  lemma Unstartable(g: Config, t: Tok, s: bytes, i: nat)
    requires AtStart(g, t, s, i)
    requires var c := CharAt(s, i);
      c != 0x5B && c != 0x7B && c != 0x22 && (c == 0x27 ==> g.strict) && c != 0x6E && c != 0x4E && c != 0x49 &&
      c != 0x69 && c != 0x74 && c != 0x54 && c != 0x66 && c != 0x46 && !(0x30 <= c <= 0x39) && c != 0x2D
    ensures Step(g, Go(t, Start), Input(s), i) == Halt(Go(t, Start), ErrUnexpected, 0)
  {
    hide Run, Step, WellFormed;
    InputAt(s, i);
    StepAtStart(g, Go(t, Start), Input(s), i);
  }

  // ---------------------------------------------------------------- containers

  /** The same as `Answers`, with the levels named that are left below the value. */
  predicate Concludes(g: Config, t: Tok, i: nat, t': Tok, s: bytes, a: Answer, below: seq<Level>) {
    match a
    case Got(v, end, moved) =>
      Leads(g, t, i, t', end, Input(s)) && t'.below == below && t'.top == Level(EatWs, Finish, v, None) &&
      t'.obj == JNull && (t'.stPos != 0 <==> moved)
    case Stopped(_, _, _) => Ends(g, t, s, i, a)
  }

  lemma ConcludesIs(g: Config, t: Tok, i: nat, t': Tok, s: bytes, a: Answer)
    ensures Answers(g, t, i, t', s, a) <==> Concludes(g, t, i, t', s, a, t.below)
  {
    hide Run, WellFormed;
  }

  lemma Across(g: Config, t: Tok, i: nat, u: Tok, j: nat, t': Tok, s: bytes, a: Answer, below: seq<Level>)
    requires i <= |s| && j <= |s| && Leads(g, t, i, u, j, Input(s)) && Concludes(g, u, j, t', s, a, below)
    ensures Concludes(g, t, i, t', s, a, below)
  {
    hide Run, WellFormed;
  }

  lemma StopConcludes(g: Config, t: Tok, i: nat, t': Tok, s: bytes, a: Answer, below: seq<Level>)
    requires a.Stopped? && Ends(g, t, s, i, a)
    ensures Concludes(g, t, i, t', s, a, below)
  {}

  /** White space that leads nowhere, in front of something that is still to come. */
  lemma SkipFails(g: Config, t: Tok, s: bytes, i: nat, t1: Tok, t': Tok)
    requires i <= |s| && !Skip(g.strict, s, i).Reached? && Skips(g, t, t1, s, i) && t.top.saved != Finish
    ensures Concludes(g, t, i, t', s, FailToSkip(s, Skip(g.strict, s, i)), t.below)
  {
    hide Run, WellFormed, Skip;
  }

  /** The same behind a value. */
  lemma SkipStops(g: Config, t: Tok, s: bytes, i: nat, t1: Tok, t': Tok, v: Json, below: seq<Level>)
    requires i <= |s| && !Skip(g.strict, s, i).Reached? && Skips(g, t, t1, s, i)
    requires t.top == Level(EatWs, Finish, v, None)
    ensures Concludes(g, t, i, t', s, StopBehind(s, v, Skip(g.strict, s, i)), below)
  {
    hide Run, WellFormed, Skip;
  }

  lemma SkipLeads(g: Config, t: Tok, s: bytes, i: nat, t1: Tok)
    requires i <= |s| && Skip(g.strict, s, i).Reached? && Skips(g, t, t1, s, i) && t.top.state == EatWs
    ensures Leads(g, t, i, t1, Skip(g.strict, s, i).i, Input(s)) && i <= Skip(g.strict, s, i).i <= |s|
    ensures t1.below == t.below && t1.top == t.top && t1.stPos == t.stPos && t1.obj == t.obj
  {
    hide Run, WellFormed, Skip;
  }

  /** A bracket where none may stand in strict mode. */
  lemma TrailingComma(g: Config, t: Tok, s: bytes, i: nat)
    requires Awake(g, t, s, i) && g.strict
    requires (t.top.saved == ArrayAfterSep && CharAt(s, i) == 0x5D) ||
      (t.top.saved == ObjectFieldStartAfterSep && CharAt(s, i) == 0x7D)
    ensures Ends(g, t, s, i, Stopped(ErrUnexpected, JNull, i))
  {
    hide Run, Step;
    AwakeStep(g, t, s, i);
    HaltsAwake(g, t, s, i, ErrUnexpected);
  }

  /** One level too many. */
  lemma NoRoomFor(g: Config, t: Tok, s: bytes, i: nat)
    requires Awake(g, t, s, i) && Room(g, t) == 0
    requires t.top.saved == Array || t.top.saved == ArrayAfterSep || t.top.saved == ObjectValue
    requires t.top.saved != ObjectValue ==> CharAt(s, i) != 0x5D
    ensures Ends(g, t, s, i, Fail(s, ErrDepth, i))
  {
    hide Run, Step;
    AwakeStep(g, t, s, i);
    HaltsAwake(g, t, s, i, ErrDepth);
  }

  // ---------------------------------------------------------------- arrays

  /** The bracket of an array. */
  lemma ArrayCloses(g: Config, t: Tok, s: bytes, i: nat, done: seq<Json>) returns (t': Tok)
    requires Awake(g, t, s, i) && CharAt(s, i) == 0x5D && t.top.current == JArray(done) && t.top.key == None
    requires t.top.saved == Array || t.top.saved == ArraySep || (t.top.saved == ArrayAfterSep && !g.strict)
    ensures Concludes(g, t, i, t', s, Got(JArray(done), i + 1, t.stPos != 0), t.below)
  {
    hide Run, Step;
    AwakeStep(g, t, s, i);
    t' := PassesTo(g, t, s, i, Finish);
  }

  /** Inside an array, behind its bracket or behind a comma. */
  predicate InArray(g: Config, t: Tok, s: bytes, i: nat, done: seq<Json>) {
    && WellFormed(g, t) && t.obj == JNull && i <= |s| && NUL !in s && Room(g, t) >= 0
    && t.top == Level(EatWs, if done == [] then Array else ArrayAfterSep, JArray(done), None)
  }

  lemma {:induction false} ItemsRun(g: Config, t: Tok, s: bytes, i: nat, done: seq<Json>) returns (t': Tok)
    requires InArray(g, t, s, i, done)
    ensures Concludes(g, t, i, t', s, ReadItems(g, s, i, Room(g, t), t.stPos != 0, done), t.below)
    decreases |s| - i, 3
  {
    hide Run, Step, WellFormed, Concludes, Skip, ReadValue, Skips, Awake, FailToSkip, StopBehind;
    var a := ReadItems(g, s, i, Room(g, t), t.stPos != 0, done);
    var gap := Skip(g.strict, s, i);
    var t1 := SkipTo(g, t, s, i);
    t' := t1;
    if !gap.Reached? {
      SkipFails(g, t, s, i, t1, t');
    } else {
      SkipLeads(g, t, s, i, t1);
      var j := gap.i;
      if CharAt(s, j) == 0x5D {
        if g.strict && done != [] {
          TrailingComma(g, t1, s, j);
          StopConcludes(g, t1, j, t', s, a, t.below);
        } else {
          t' := ArrayCloses(g, t1, s, j, done);
        }
      } else if Room(g, t) == 0 {
        NoRoomFor(g, t1, s, j);
        StopConcludes(g, t1, j, t', s, a, t.below);
      } else {
        t' := ItemRuns(g, t1, s, j, done);
      }
      Across(g, t, i, t1, j, t', s, a, t.below);
    }
  }

  /** What the reference says from an element on. */
  function ItemAnswer(g: Config, s: bytes, j: nat, room: nat, moved: bool, done: seq<Json>): Answer
    requires j <= |s| && NUL !in s
  {
    match ReadValue(g, s, j, room, moved)
    case Stopped(e, v, at) => Stopped(e, v, at)
    case Got(v, end, moved') => BehindItem(g, s, end, room + 1, moved', done, v)
  }

  /** From behind an element on. */
  function BehindItem(g: Config, s: bytes, end: nat, room: nat, moved: bool, done: seq<Json>, v: Json): Answer
    requires end <= |s| && NUL !in s
  {
    var gap := Skip(g.strict, s, end);
    if !gap.Reached? then StopBehind(s, v, gap)
    else if CharAt(s, gap.i) == 0x5D then Got(JArray(done + [v]), gap.i + 1, moved)
    else if CharAt(s, gap.i) == 0x2C then ReadItems(g, s, gap.i + 1, room, moved, done + [v])
    else Fail(s, ErrArray, gap.i)
  }

  lemma {:induction false} ItemRuns(g: Config, t: Tok, s: bytes, j: nat, done: seq<Json>) returns (t': Tok)
    requires Awake(g, t, s, j) && InArray(g, t, s, j, done) && Room(g, t) > 0 && CharAt(s, j) != 0x5D
    ensures Concludes(g, t, j, t', s, ItemAnswer(g, s, j, Room(g, t) - 1, t.stPos != 0, done), t.below)
    decreases |s| - j, 2
  {
    hide Run, Step, WellFormed, Skip, ReadValue, Awake, BehindItem, AtStart;
    var a := ItemAnswer(g, s, j, Room(g, t) - 1, t.stPos != 0, done);
    var t1 := Opens(g, t, s, j);
    t' := ValueRuns(g, t1, s, j);
    var r := ReadValue(g, s, j, Room(g, t) - 1, t.stPos != 0);
    if r.Got? {
      var t2 := t';
      t' := BehindItemRuns(g, t2, s, r.end, t.below, Waker(t), done, r.v);
      Across(g, t1, j, t2, r.end, t', s, a, t.below);
    }
    Across(g, t, j, t1, j, t', s, a, t.below);
  }

  /** Behind an element that is still on a level of its own. */
  predicate OnTop(g: Config, t: Tok, s: bytes, i: nat, below: seq<Level>, l: Level, v: Json) {
    && WellFormed(g, t) && t.obj == JNull && i <= |s| && NUL !in s
    && t.below == below + [l] && t.top == Level(EatWs, Finish, v, None)
  }

  lemma {:induction false} BehindItemRuns(g: Config, t: Tok, s: bytes, i: nat, below: seq<Level>, l: Level,
                                          done: seq<Json>, v: Json)
    returns (t': Tok)
    requires OnTop(g, t, s, i, below, l, v) && l.state == ArrayAdd && l.current == JArray(done)
    ensures Room(g, t) >= 0 &&
      Concludes(g, t, i, t', s, BehindItem(g, s, i, Room(g, t) + 1, t.stPos != 0, done, v), below)
    decreases |s| - i, 4
  {
    hide Run, Step, WellFormed, Concludes, Skip, ReadItems, Skips, Awake, StopBehind;
    RoomIsNat(g, t);
    var a := BehindItem(g, s, i, Room(g, t) + 1, t.stPos != 0, done, v);
    var gap := Skip(g.strict, s, i);
    var t1 := SkipTo(g, t, s, i);
    t' := t1;
    if !gap.Reached? {
      SkipStops(g, t, s, i, t1, t', v, below);
    } else {
      SkipLeads(g, t, s, i, t1);
      var k := gap.i;
      var t2 := Stores(g, t1, s, k);
      assert t1.below[..|below|] == below;
      if CharAt(s, k) == 0x5D {
        t' := ArrayCloses(g, t2, s, k, done + [v]);
      } else if CharAt(s, k) == 0x2C {
        t' := CommaRuns(g, t2, s, k, done + [v]);
      } else {
        NoSeparator(g, t2, s, k);
        StopConcludes(g, t2, k, t', s, a, below);
      }
      Across(g, t1, k, t2, k, t', s, a, below);
      Across(g, t, i, t1, k, t', s, a, below);
    }
  }

  lemma NoSeparator(g: Config, t: Tok, s: bytes, i: nat)
    requires Awake(g, t, s, i) && CharAt(s, i) != 0x2C
    requires (t.top.saved == ArraySep && CharAt(s, i) != 0x5D) || (t.top.saved == ObjectSep && CharAt(s, i) != 0x7D)
    ensures Ends(g, t, s, i, Fail(s, if t.top.saved == ArraySep then ErrArray else ErrValueSep, i))
  {
    hide Run, Step;
    AwakeStep(g, t, s, i);
    HaltsAwake(g, t, s, i, if t.top.saved == ArraySep then ErrArray else ErrValueSep);
  }

  lemma {:induction false} CommaRuns(g: Config, t: Tok, s: bytes, k: nat, done: seq<Json>) returns (t': Tok)
    requires Awake(g, t, s, k) && k < |s| && CharAt(s, k) == 0x2C && done != [] && Room(g, t) >= 0
    requires t.top == Level(EatWs, ArraySep, JArray(done), None)
    ensures Concludes(g, t, k, t', s, ReadItems(g, s, k + 1, Room(g, t), t.stPos != 0, done), t.below)
    decreases |s| - k, 0
  {
    hide Run, Step, WellFormed, Concludes, ReadItems;
    AwakeStep(g, t, s, k);
    var t1 := PassesTo(g, t, s, k, ArrayAfterSep);
    t' := ItemsRun(g, t1, s, k + 1, done);
    Across(g, t, k, t1, k + 1, t', s, ReadItems(g, s, k + 1, Room(g, t), t.stPos != 0, done), t.below);
  }

  // ---------------------------------------------------------------- objects

  /** Inside an object, behind its brace or behind a comma. */
  predicate InObject(g: Config, t: Tok, s: bytes, i: nat, done: seq<(bytes, Json)>) {
    && WellFormed(g, t) && t.obj == JNull && i <= |s| && NUL !in s && Room(g, t) >= 0
    && t.top == Level(EatWs, if done == [] then ObjectFieldStart else ObjectFieldStartAfterSep, JObject(done), None)
  }

  /** The brace of an object. */
  lemma ObjectCloses(g: Config, t: Tok, s: bytes, i: nat, done: seq<(bytes, Json)>) returns (t': Tok)
    requires Awake(g, t, s, i) && CharAt(s, i) == 0x7D && t.top.current == JObject(done) && t.top.key == None
    requires t.top.saved == ObjectFieldStart || t.top.saved == ObjectSep ||
      (t.top.saved == ObjectFieldStartAfterSep && !g.strict)
    ensures Concludes(g, t, i, t', s, Got(JObject(done), i + 1, t.stPos != 0), t.below)
  {
    hide Run, Step;
    AwakeStep(g, t, s, i);
    t' := PassesTo(g, t, s, i, Finish);
  }

  lemma {:induction false} MembersRun(g: Config, t: Tok, s: bytes, i: nat, done: seq<(bytes, Json)>) returns (t': Tok)
    requires InObject(g, t, s, i, done)
    ensures Concludes(g, t, i, t', s, ReadMembers(g, s, i, Room(g, t), t.stPos != 0, done), t.below)
    decreases |s| - i, 3
  {
    hide Run, Step, WellFormed, Concludes, Skip, ReadMember, Skips, Awake, FailToSkip, Lex, Said, HasUnit;
    var a := ReadMembers(g, s, i, Room(g, t), t.stPos != 0, done);
    var gap := Skip(g.strict, s, i);
    var t1 := SkipTo(g, t, s, i);
    t' := t1;
    if !gap.Reached? {
      SkipFails(g, t, s, i, t1, t');
    } else {
      SkipLeads(g, t, s, i, t1);
      var j, c := gap.i, CharAt(s, gap.i);
      if c == 0x7D {
        if g.strict && done != [] {
          TrailingComma(g, t1, s, j);
          StopConcludes(g, t1, j, t', s, a, t.below);
        } else {
          t' := ObjectCloses(g, t1, s, j, done);
        }
      } else if c != 0x22 && c != 0x27 {
        NoName(g, t1, s, j);
        StopConcludes(g, t1, j, t', s, a, t.below);
      } else {
        t' := NameRuns(g, t1, s, j, done);
      }
      Across(g, t, i, t1, j, t', s, a, t.below);
    }
  }

  lemma NoName(g: Config, t: Tok, s: bytes, i: nat)
    requires Awake(g, t, s, i) && CharAt(s, i) != 0x7D && CharAt(s, i) != 0x22 && CharAt(s, i) != 0x27
    requires t.top.saved == ObjectFieldStart || t.top.saved == ObjectFieldStartAfterSep
    ensures Ends(g, t, s, i, Fail(s, ErrKeyName, i))
  {
    hide Run, Step;
    AwakeStep(g, t, s, i);
    HaltsAwake(g, t, s, i, ErrKeyName);
  }

  /** What the reference says from the quote of a name on. */
  function NameAnswer(g: Config, s: bytes, j: nat, room: nat, moved: bool, done: seq<(bytes, Json)>): Answer
    requires j < |s| && NUL !in s
  {
    match Lex(s, j + 1, s[j])
    case Broken(e, at) => Stopped(e, JNull, at)
    case Closed(ps, end) => ReadMember(g, s, end, room, moved || HasUnit(ps), done, CString(Said(0, ps)))
  }

  lemma {:induction false} NameRuns(g: Config, t: Tok, s: bytes, j: nat, done: seq<(bytes, Json)>) returns (t': Tok)
    requires Awake(g, t, s, j) && InObject(g, t, s, j, done) && j < |s| && IsQuote(s[j])
    ensures Concludes(g, t, j, t', s, NameAnswer(g, s, j, Room(g, t), t.stPos != 0, done), t.below)
    decreases |s| - j, 2
  {
    hide Run, Step, ReadMember, Lex, Said, HasUnit, PiecesOk, CString, Concludes, Awake, WellFormed, InString, Ends;
    var a, r := NameAnswer(g, s, j, Room(g, t), t.stPos != 0, done), Lex(s, j + 1, s[j]);
    var t1 := NameOpens(g, t, s, j);
    if r.Broken? {
      t' := t;
      TextBreaks(g, t1, s, j + 1, s[j]);
      StopConcludes(g, t1, j + 1, t', s, a, t.below);
    } else {
      var t2 := NameCloses(g, t1, s, j + 1, s[j]);
      t' := MemberRuns(g, t2, s, r.end, done, CString(Said(0, r.ps)));
      Across(g, t1, j + 1, t2, r.end, t', s, a, t.below);
    }
    Across(g, t, j, t1, j + 1, t', s, a, t.below);
  }

  lemma NameOpens(g: Config, t: Tok, s: bytes, j: nat) returns (t': Tok)
    requires Awake(g, t, s, j) && j < |s| && IsQuote(s[j])
    requires t.top.saved == ObjectFieldStart || t.top.saved == ObjectFieldStartAfterSep
    ensures Leads(g, t, j, t', j + 1, Input(s)) && InString(g, t', s, j + 1, s[j])
    ensures t' == Go(t, ObjectField).(quote := s[j], pb := [])
  {
    hide Run, Step;
    InputAt(s, j);
    AwakeStep(g, t, s, j);
    var t1 := WakeUp(g, t, s, j);
    t' := Go(t, ObjectField).(quote := s[j], pb := []);
    Consume(g, t1, Input(s), j, t');
    TextIsQuiet(g, t');
  }

  /** The name up to its closing quote. */
  lemma NameCloses(g: Config, t: Tok, s: bytes, i: nat, q: byte) returns (t': Tok)
    requires InString(g, t, s, i, q) && t.top.state == ObjectField && t.pb == [] && Lex(s, i, q).Closed?
    ensures var r := Lex(s, i, q);
      Leads(g, t, i, t', r.end, Input(s)) && t'.below == t.below && t'.obj == JNull &&
      t'.top == Level(EatWs, ObjectFieldEnd, t.top.current, Some(CString(Said(0, r.ps)))) &&
      (t'.stPos != 0 <==> t.stPos != 0 || HasUnit(r.ps))
  {
    hide Run, Step, Lex, Said, HasUnit, PiecesOk, WellFormed, CString;
    var r := Lex(s, i, q);
    var t1 := PiecesPass(g, t, s, i, q);
    t' := CloseKey(g, t1, Input(s), r.end - 1);
  }

  /** Behind the name of a member. */
  predicate Named(g: Config, t: Tok, s: bytes, i: nat, done: seq<(bytes, Json)>, key: bytes) {
    && WellFormed(g, t) && t.obj == JNull && i <= |s| && NUL !in s && Room(g, t) >= 0
    && t.top == Level(EatWs, ObjectFieldEnd, JObject(done), Some(key))
  }

  lemma {:induction false} MemberRuns(g: Config, t: Tok, s: bytes, i: nat, done: seq<(bytes, Json)>, key: bytes)
    returns (t': Tok)
    requires Named(g, t, s, i, done, key)
    ensures Concludes(g, t, i, t', s, ReadMember(g, s, i, Room(g, t), t.stPos != 0, done, key), t.below)
    decreases |s| - i, 4
  {
    hide Run, Step, WellFormed, Concludes, Skip, ReadValue, Skips, Awake, FailToSkip, NextMember;
    var a := ReadMember(g, s, i, Room(g, t), t.stPos != 0, done, key);
    var gap := Skip(g.strict, s, i);
    var t1 := SkipTo(g, t, s, i);
    t' := t1;
    if !gap.Reached? {
      SkipFails(g, t, s, i, t1, t');
    } else {
      SkipLeads(g, t, s, i, t1);
      var j := gap.i;
      if CharAt(s, j) != 0x3A {
        NoColon(g, t1, s, j);
        StopConcludes(g, t1, j, t', s, a, t.below);
      } else {
        t' := ColonRuns(g, t1, s, j, done, key);
      }
      Across(g, t, i, t1, j, t', s, a, t.below);
    }
  }

  lemma NoColon(g: Config, t: Tok, s: bytes, i: nat)
    requires Awake(g, t, s, i) && CharAt(s, i) != 0x3A && t.top.saved == ObjectFieldEnd
    ensures Ends(g, t, s, i, Fail(s, ErrKeySep, i))
  {
    hide Run, Step;
    AwakeStep(g, t, s, i);
    HaltsAwake(g, t, s, i, ErrKeySep);
  }

  /** What the reference says from the colon on. */
  function ColonAnswer(g: Config, s: bytes, j: nat, room: nat, moved: bool, done: seq<(bytes, Json)>, key: bytes)
    : Answer
    requires j < |s| && NUL !in s
  {
    var gap := Skip(g.strict, s, j + 1);
    if !gap.Reached? then FailToSkip(s, gap)
    else if room == 0 then Fail(s, ErrDepth, gap.i)
    else MemberAnswer(g, s, gap.i, room - 1, moved, done, key)
  }

  /** From the value of a member on. */
  function MemberAnswer(g: Config, s: bytes, j: nat, room: nat, moved: bool, done: seq<(bytes, Json)>, key: bytes)
    : Answer
    requires j <= |s| && NUL !in s
  {
    match ReadValue(g, s, j, room, moved)
    case Stopped(e, v, at) => Stopped(e, v, at)
    case Got(v, end, moved') => NextMember(g, s, end, room + 1, moved', done, key, v)
  }

  lemma {:induction false} ColonRuns(g: Config, t: Tok, s: bytes, j: nat, done: seq<(bytes, Json)>, key: bytes)
    returns (t': Tok)
    requires Awake(g, t, s, j) && Named(g, t, s, j, done, key) && j < |s| && CharAt(s, j) == 0x3A
    ensures Concludes(g, t, j, t', s, ColonAnswer(g, s, j, Room(g, t), t.stPos != 0, done, key), t.below)
    decreases |s| - j, 3
  {
    hide Run, Step, WellFormed, Concludes, ColonAnswer;
    AwakeStep(g, t, s, j);
    var t1 := PassesTo(g, t, s, j, ObjectValue);
    t' := BehindColonRuns(g, t1, s, j, done, key);
    Across(g, t, j, t1, j + 1, t', s, ColonAnswer(g, s, j, Room(g, t), t.stPos != 0, done, key), t.below);
  }

  lemma {:induction false} BehindColonRuns(g: Config, t: Tok, s: bytes, j: nat, done: seq<(bytes, Json)>, key: bytes)
    returns (t': Tok)
    requires WellFormed(g, t) && t.obj == JNull && j < |s| && NUL !in s && Room(g, t) >= 0
    requires t.top == Level(EatWs, ObjectValue, JObject(done), Some(key))
    ensures Concludes(g, t, j + 1, t', s, ColonAnswer(g, s, j, Room(g, t), t.stPos != 0, done, key), t.below)
    decreases |s| - j, 2
  {
    hide Run, Step, WellFormed, Concludes, Skip, MemberAnswer, Skips, FailToSkip, Awake;
    var a := ColonAnswer(g, s, j, Room(g, t), t.stPos != 0, done, key);
    var gap := Skip(g.strict, s, j + 1);
    var t1 := SkipTo(g, t, s, j + 1);
    t' := t1;
    if !gap.Reached? {
      SkipFails(g, t, s, j + 1, t1, t');
    } else {
      SkipLeads(g, t, s, j + 1, t1);
      if Room(g, t) == 0 {
        NoRoomFor(g, t1, s, gap.i);
        StopConcludes(g, t1, gap.i, t', s, a, t.below);
      } else {
        t' := MemberValueRuns(g, t1, s, gap.i, done, key);
      }
      Across(g, t, j + 1, t1, gap.i, t', s, a, t.below);
    }
  }

  lemma {:induction false} MemberValueRuns(g: Config, t: Tok, s: bytes, j: nat, done: seq<(bytes, Json)>, key: bytes)
    returns (t': Tok)
    requires Awake(g, t, s, j) && Room(g, t) > 0
    requires t.top == Level(EatWs, ObjectValue, JObject(done), Some(key))
    ensures Concludes(g, t, j, t', s, MemberAnswer(g, s, j, Room(g, t) - 1, t.stPos != 0, done, key), t.below)
    decreases |s| - j, 2
  {
    hide Run, Step, WellFormed, Skip, ReadValue, NextMember, AtStart;
    var a := MemberAnswer(g, s, j, Room(g, t) - 1, t.stPos != 0, done, key);
    var t1 := Opens(g, t, s, j);
    t' := ValueRuns(g, t1, s, j);
    var r := ReadValue(g, s, j, Room(g, t) - 1, t.stPos != 0);
    if r.Got? {
      var t2 := t';
      t' := BehindMemberRuns(g, t2, s, r.end, t.below, Waker(t), done, key, r.v);
      Across(g, t1, j, t2, r.end, t', s, a, t.below);
    }
    Across(g, t, j, t1, j, t', s, a, t.below);
  }

  lemma {:induction false} BehindMemberRuns(g: Config, t: Tok, s: bytes, i: nat, below: seq<Level>, l: Level,
                                            done: seq<(bytes, Json)>, key: bytes, v: Json)
    returns (t': Tok)
    requires OnTop(g, t, s, i, below, l, v) && l.state == ObjectValueAdd && l.current == JObject(done)
    requires l.key == Some(key)
    ensures Room(g, t) >= 0 &&
      Concludes(g, t, i, t', s, NextMember(g, s, i, Room(g, t) + 1, t.stPos != 0, done, key, v), below)
    decreases |s| - i, 4
  {
    hide Run, Step, WellFormed, Concludes, Skip, ReadMembers, Skips, Awake, StopBehind, Put;
    RoomIsNat(g, t);
    var a := NextMember(g, s, i, Room(g, t) + 1, t.stPos != 0, done, key, v);
    var gap := Skip(g.strict, s, i);
    var t1 := SkipTo(g, t, s, i);
    t' := t1;
    if !gap.Reached? {
      SkipStops(g, t, s, i, t1, t', v, below);
    } else {
      SkipLeads(g, t, s, i, t1);
      var k := gap.i;
      var t2 := Stores(g, t1, s, k);
      assert t1.below[..|below|] == below;
      if CharAt(s, k) == 0x7D {
        t' := ObjectCloses(g, t2, s, k, Put(done, key, v));
      } else if CharAt(s, k) == 0x2C {
        PutIsSome(done, key, v);
        t' := NextRuns(g, t2, s, k, Put(done, key, v));
      } else {
        NoSeparator(g, t2, s, k);
        StopConcludes(g, t2, k, t', s, a, below);
      }
      Across(g, t1, k, t2, k, t', s, a, below);
      Across(g, t, i, t1, k, t', s, a, below);
    }
  }

  lemma PutIsSome(done: seq<(bytes, Json)>, key: bytes, v: Json)
    ensures Put(done, key, v) != []
  {}

  lemma {:induction false} NextRuns(g: Config, t: Tok, s: bytes, k: nat, done: seq<(bytes, Json)>) returns (t': Tok)
    requires Awake(g, t, s, k) && k < |s| && CharAt(s, k) == 0x2C && done != [] && Room(g, t) >= 0
    requires t.top == Level(EatWs, ObjectSep, JObject(done), None)
    ensures Concludes(g, t, k, t', s, ReadMembers(g, s, k + 1, Room(g, t), t.stPos != 0, done), t.below)
    decreases |s| - k, 0
  {
    hide Run, Step, WellFormed, Concludes, ReadMembers;
    AwakeStep(g, t, s, k);
    var t1 := PassesTo(g, t, s, k, ObjectFieldStartAfterSep);
    t' := MembersRun(g, t1, s, k + 1, done);
    Across(g, t, k, t1, k + 1, t', s, ReadMembers(g, s, k + 1, Room(g, t), t.stPos != 0, done), t.below);
  }

  // ---------------------------------------------------------------- whole texts

  /** Behind the value of the text. */
  lemma TextEndsAt(g: Config, t: Tok, s: bytes, i: nat, v: Json)
    requires Awake(g, t, s, i) && t.below == [] && t.top == Level(EatWs, Finish, v, None)
    ensures Ends(g, t, s, i, if g.strict && i < |s| then Stopped(ErrUnexpected, JNull, i) else Stopped(Success, v, i))
  {
    hide Run;
    InputAt(s, i);
    var t1 := WakeUp(g, t, s, i);
    assert Step(g, t1, Input(s), i) == Halt(t1, Success, 0);
    hide Step;
    FinishHere(g, t1, s, i);
    EndsBefore(g, t, i, t1, i, s,
               if g.strict && i < |s| then Stopped(ErrUnexpected, JNull, i) else Stopped(Success, v, i));
  }

  lemma FinishHere(g: Config, t: Tok, s: bytes, i: nat)
    requires WellFormed(g, t) && t.top.state == Finish && t.below == [] && i <= |s| && NUL !in s
    requires Step(g, t, Input(s), i) == Halt(t, Success, 0)
    ensures Ends(g, t, s, i,
                 if g.strict && i < |s| then Stopped(ErrUnexpected, JNull, i) else Stopped(Success, t.top.current, i))
  {
    hide Step, WellFormed;
    InputAt(s, i);
    StepKeeps(g, t, Input(s), i);
  }

  /** The call on a C string and its terminator, by a tokener that is not inside a text. */
  lemma ParseIsReference(g: Config, t: Tok, s: bytes)
    requires WellFormed(g, t) && Idle(t) && t.below == [] && t.top == CLEAN && NUL !in s
    ensures g.maxDepth > 0
    ensures var r, a := ParseEx(g, t, s + [NUL]), ReadText(g, s, t.stPos != 0);
      r.err == a.err && r.value == a.v && r.offset == a.at
  {
    hide Run, Step, Skip, ReadValue, Skips, FailToSkip, StopBehind;
    RoomIsNat(g, t);
    hide WellFormed;
    var a, gap := ReadText(g, s, t.stPos != 0), Skip(g.strict, s, 0);
    var t1 := SkipTo(g, t, s, 0);
    if !gap.Reached? {
      SkipFails(g, t, s, 0, t1, t1);
    } else {
      SkipLeads(g, t, s, 0, t1);
      var t2 := ValueRuns(g, t1, s, gap.i);
      var r := ReadValue(g, s, gap.i, Room(g, t), t.stPos != 0);
      if r.Got? {
        BehindText(g, t2, s, r.end, r.v);
        EndsBefore(g, t1, gap.i, t2, r.end, s, a);
      }
      EndsBefore(g, t, 0, t1, gap.i, s, a);
    }
  }

  lemma BehindText(g: Config, t: Tok, s: bytes, i: nat, v: Json)
    requires WellFormed(g, t) && t.obj == JNull && i <= |s| && NUL !in s && t.below == []
    requires t.top == Level(EatWs, Finish, v, None)
    ensures var gap := Skip(g.strict, s, i);
      Ends(g, t, s, i,
           if !gap.Reached? then StopBehind(s, v, gap)
           else if g.strict && gap.i < |s| then Stopped(ErrUnexpected, JNull, gap.i)
           else Stopped(Success, v, gap.i))
  {
    hide Run, Step, Skip, Skips;
    var gap := Skip(g.strict, s, i);
    var t1 := SkipTo(g, t, s, i);
    hide WellFormed;
    if !gap.Reached? {
      SkipStops(g, t, s, i, t1, t1, v, []);
    } else {
      SkipLeads(g, t, s, i, t1);
      TextEndsAt(g, t1, s, gap.i, v);
      EndsBefore(g, t, i, t1, gap.i, s,
                 if g.strict && gap.i < |s| then Stopped(ErrUnexpected, JNull, gap.i) else Stopped(Success, v, gap.i));
    }
  }
}
