/**
 A tokener that has returned a value from inside an open container. The code clears its levels and keeps its depth, so
 the next call runs above levels that wait for nothing; a value that is finished there is popped onto such a level and
 dropped.
 */
module ReusedTokener {
  import opened Bytes
  import opened JsonValue
  import opened OrderedMap
  import opened TokenerMachine
  import opened TokenerInvariant

  /** How many clean levels lie at the bottom of the stack. */
  function CleanBelow(below: seq<Level>): (m: nat)
    ensures m <= |below|
  {
    if below != [] && below[0] == CLEAN then 1 + CleanBelow(below[1..]) else 0
  }

  /** The limits as they are for the levels above the first `m`. */
  function Above(g: Config, m: nat): Config
    requires m <= g.maxDepth
  {
    g.(maxDepth := g.maxDepth - m)
  }

  /** The tokener without its first `m` levels. */
  function Upper(t: Tok, m: nat): Tok
    requires m <= |t.below|
  {
    t.(below := t.below[m..])
  }

  /** The first `m` levels are clean, and what is above them is as it is on a tokener of its own. */
  predicate Open(g: Config, t: Tok, m: nat) {
    && m <= |t.below| < g.maxDepth && (forall k | 0 <= k < m :: t.below[k] == CLEAN)
    && WellFormed(Above(g, m), Upper(t, m))
  }

  /** A call can be made: the levels are clean up to some height, and in order above. */
  predicate Reusable(g: Config, t: Tok) {
    Open(g, t, CleanBelow(t.below))
  }

  lemma {:induction false} CleanBelowIs(below: seq<Level>, m: nat)
    requires m <= |below| && (forall k | 0 <= k < m :: below[k] == CLEAN) && (m < |below| ==> below[m] != CLEAN)
    ensures CleanBelow(below) == m
    decreases m
  {
    if m > 0 { CleanBelowIs(below[1..], m - 1); }
  }

  lemma OpenIsReusable(g: Config, t: Tok, m: nat)
    requires Open(g, t, m)
    ensures Reusable(g, t) && CleanBelow(t.below) == m
  {
    if m < |t.below| {
      assert t.below[m..][0] in t.below[m..];
      assert !Waiting(CLEAN);
    }
    CleanBelowIs(t.below, m);
  }

  lemma WellFormedIsOpen(g: Config, t: Tok)
    requires WellFormed(g, t)
    ensures Open(g, t, 0)
  {
    assert Upper(t, 0) == t;
  }

  // ---------------------------------------------------------------- one pass

  function LiftTok(u: Tok, base: seq<Level>): Tok {
    u.(below := base + u.below)
  }

  /** The same outcome, with levels put under the stack. */
  function Lift(o: Outcome, base: seq<Level>): Outcome {
    match o
    case Advance(t, n) => Advance(LiftTok(t, base), n)
    case Redo(t) => Redo(LiftTok(t, base))
    case Halt(t, e, n) => Halt(LiftTok(t, base), e, n)
  }

  /** The finished value above the clean levels is about to be popped onto one of them. */
  predicate Drops(t: Tok, m: nat) {
    t.top.state == Finish && |t.below| == m > 0
  }

  // Most states touch neither the levels below the top nor `obj`, and ask nothing of the depth limit.

  function Framed(t: Tok, below: seq<Level>, obj: Json): Tok {
    t.(below := below, obj := obj)
  }

  function FramedOutcome(o: Outcome, below: seq<Level>, obj: Json): Outcome {
    match o
    case Advance(t, n) => Advance(Framed(t, below, obj), n)
    case Redo(t) => Redo(Framed(t, below, obj))
    case Halt(t, e, n) => Halt(Framed(t, below, obj), e, n)
  }

  /** A state that touches no level but the top. */
  predicate StaysOnTop(s: State) {
    !(s.Finish? || s.ArrayAdd? || s.ObjectValueAdd? || s.Array? || s.ArrayAfterSep? || s.ObjectValue?)
  }

  lemma StepFrames(h: Config, g: Config, t: Tok, below: seq<Level>, obj: Json, input: bytes, i: nat)
    requires h == g.(maxDepth := h.maxDepth) && StaysOnTop(t.top.state)
    requires i < |input| && (t.top.state == EscapeUnicode ==> t.stPos < 4)
    ensures Step(h, Framed(t, below, obj), input, i) == FramedOutcome(Step(g, t, input, i), below, obj)
  {
    var t', c, s := Framed(t, below, obj), input[i], t.top.state;
    if s == EscapeUnicode {
      UnicodeFrames(t, below, obj, input, i);
    } else {
      hide Step;
      StepAt(g, t, input, i);
      StepAt(h, t', input, i);
      hide *;
      if s == EatWs || s == CommentStart || s == Comment || s == CommentEol || s == CommentEnd {
        BlankFrames(h, g, t, below, obj, c);
      } else if s == Start {
        StartFrames(h, g, t, below, obj, c);
      } else if s == Number {
        NumberFrames(h, g, t, below, obj, c);
      } else if s == Inf {
        InfFrames(h, g, t, below, obj, c);
      } else if s == NullLit {
        NullFrames(h, g, t, below, obj, c);
      } else if s == Boolean {
        BooleanFrames(h, g, t, below, obj, c);
      } else {
        TextFrames(h, g, t, below, obj, c);
      }
    }
  }

  lemma UnicodeFrames(t: Tok, below: seq<Level>, obj: Json, input: bytes, i: nat)
    requires i < |input| && t.stPos < 4
    ensures StepUnicode(Framed(t, below, obj), input, i) == FramedOutcome(StepUnicode(t, input, i), below, obj)
  {
    hide AddDigit, Emission, IsHex, Utf8.IsHighSurrogate, Utf8.IsLowSurrogate, Utf8.DecodePair, EscapeFollows;
  }

  lemma BlankFrames(h: Config, g: Config, t: Tok, below: seq<Level>, obj: Json, c: byte)
    requires h == g.(maxDepth := h.maxDepth)
    ensures var t' := Framed(t, below, obj);
      && StepEatWs(h, t', c) == FramedOutcome(StepEatWs(g, t, c), below, obj)
      && StepCommentStart(t', c) == FramedOutcome(StepCommentStart(t, c), below, obj)
      && StepComment(t', c) == FramedOutcome(StepComment(t, c), below, obj)
      && StepCommentEol(t', c) == FramedOutcome(StepCommentEol(t, c), below, obj)
      && StepCommentEnd(t', c) == FramedOutcome(StepCommentEnd(t, c), below, obj)
  {}

  lemma StartFrames(h: Config, g: Config, t: Tok, below: seq<Level>, obj: Json, c: byte)
    requires h == g.(maxDepth := h.maxDepth)
    ensures StepStart(h, Framed(t, below, obj), c) == FramedOutcome(StepStart(g, t, c), below, obj)
  {}

  lemma NumberFrames(h: Config, g: Config, t: Tok, below: seq<Level>, obj: Json, c: byte)
    requires h == g.(maxDepth := h.maxDepth)
    ensures StepNumber(h, Framed(t, below, obj), c) == FramedOutcome(StepNumber(g, t, c), below, obj)
  {
    hide Numbers.ParseInt64, IsNumberChar;
  }

  lemma SameMatches(h: Config, g: Config, lit: bytes, buf: bytes, n: nat)
    requires h == g.(maxDepth := h.maxDepth) && n <= |lit|
    ensures Matches(h, lit, buf, n) == Matches(g, lit, buf, n)
  {}

  lemma InfFrames(h: Config, g: Config, t: Tok, below: seq<Level>, obj: Json, c: byte)
    requires h == g.(maxDepth := h.maxDepth)
    ensures StepInf(h, Framed(t, below, obj), c) == FramedOutcome(StepInf(g, t, c), below, obj)
  {
    hide Matches;
    var pb := t.pb + [c];
    SameMatches(h, g, INF_TEXT, if pb[0] == MINUS then pb[1..] else pb, Min(t.stPos + 1, |INF_TEXT|));
  }

  lemma NullFrames(h: Config, g: Config, t: Tok, below: seq<Level>, obj: Json, c: byte)
    requires h == g.(maxDepth := h.maxDepth)
    ensures StepNull(h, Framed(t, below, obj), c) == FramedOutcome(StepNull(g, t, c), below, obj)
  {
    hide Matches;
    SameMatches(h, g, NULL_TEXT, t.pb + [c], Min(t.stPos + 1, |NULL_TEXT|));
    SameMatches(h, g, NAN_TEXT, t.pb + [c], Min(t.stPos + 1, |NAN_TEXT|));
  }

  lemma BooleanFrames(h: Config, g: Config, t: Tok, below: seq<Level>, obj: Json, c: byte)
    requires h == g.(maxDepth := h.maxDepth)
    ensures StepBoolean(h, Framed(t, below, obj), c) == FramedOutcome(StepBoolean(g, t, c), below, obj)
  {
    hide Matches;
    SameMatches(h, g, TRUE_TEXT, t.pb + [c], Min(t.stPos + 1, |TRUE_TEXT|));
    SameMatches(h, g, FALSE_TEXT, t.pb + [c], Min(t.stPos + 1, |FALSE_TEXT|));
  }

  lemma TextFrames(h: Config, g: Config, t: Tok, below: seq<Level>, obj: Json, c: byte)
    requires h == g.(maxDepth := h.maxDepth)
    ensures var t' := Framed(t, below, obj);
      && StepStr(t', c) == FramedOutcome(StepStr(t, c), below, obj)
      && StepField(t', c) == FramedOutcome(StepField(t, c), below, obj)
      && StepStrEscape(t', c) == FramedOutcome(StepStrEscape(t, c), below, obj)
      && StepArraySep(t', c) == FramedOutcome(StepArraySep(t, c), below, obj)
      && StepFieldStart(h, t', c) == FramedOutcome(StepFieldStart(g, t, c), below, obj)
      && StepFieldEnd(t', c) == FramedOutcome(StepFieldEnd(t, c), below, obj)
      && StepObjectSep(t', c) == FramedOutcome(StepObjectSep(t, c), below, obj)
  {
    hide CString, Unescape;
  }

  /** Off the one place, the levels at the bottom make no difference. */
  lemma StepLifts(g: Config, t: Tok, m: nat, input: bytes, i: nat)
    requires Open(g, t, m) && i < |input| && !Drops(t, m)
    ensures Step(g, t, input, i) == Lift(Step(Above(g, m), Upper(t, m), input, i), t.below[..m])
  {
    hide Step, WellFormed;
    var h, u, base := Above(g, m), Upper(t, m), t.below[..m];
    assert LiftTok(u, base) == t;
    if StaysOnTop(t.top.state) {
      PositionInEscape(h, u);
      StepFrames(g, h, u, t.below, t.obj, input, i);
      TopOnly(h, u, input, i);
      assert base + u.below == t.below;
    } else if t.top.state == Finish {
      PopLifts(g, t, m, input, i);
    } else if t.top.state == ArrayAdd || t.top.state == ObjectValueAdd {
      AddLifts(h, g, u, base, input, i);
    } else {
      PushLifts(g, t, m, input, i);
    }
  }

  lemma PositionInEscape(g: Config, t: Tok)
    requires WellFormed(g, t)
    ensures t.top.state == EscapeUnicode ==> t.stPos < 4
  {}

  /** A state on top leaves the levels below it, and `obj`, as they are. */
  lemma TopOnly(g: Config, t: Tok, input: bytes, i: nat)
    requires StaysOnTop(t.top.state) && i < |input| && (t.top.state == EscapeUnicode ==> t.stPos < 4)
    ensures Step(g, t, input, i).t.below == t.below && Step(g, t, input, i).t.obj == t.obj
  {
    hide Step;
    StepFrames(g, g, t, t.below, t.obj, input, i);
    assert Framed(t, t.below, t.obj) == t;
  }

  lemma PopLifts(g: Config, t: Tok, m: nat, input: bytes, i: nat)
    requires Open(g, t, m) && i < |input| && !Drops(t, m) && t.top.state == Finish
    ensures Step(g, t, input, i) == Lift(Step(Above(g, m), Upper(t, m), input, i), t.below[..m])
  {
    hide WellFormed, Step;
    var h, u, base := Above(g, m), Upper(t, m), t.below[..m];
    assert LiftTok(u, base) == t;
    StepAtFinish(g, t, input, i);
    StepAtFinish(h, u, input, i);
    if t.below != [] {
      var n := |t.below| - 1;
      assert t.below[..n] == base + u.below[..n - m] && t.below[n] == u.below[n - m];
    }
  }

  lemma StepAtFinish(g: Config, t: Tok, input: bytes, i: nat)
    requires i < |input| && t.top.state == Finish
    ensures Step(g, t, input, i) == StepFinish(t)
  {}

  lemma AddLifts(h: Config, g: Config, u: Tok, base: seq<Level>, input: bytes, i: nat)
    requires i < |input| && (u.top.state == ArrayAdd || u.top.state == ObjectValueAdd)
    ensures Step(g, LiftTok(u, base), input, i) == Lift(Step(h, u, input, i), base)
  {
    hide Put;
  }

  lemma PushLifts(g: Config, t: Tok, m: nat, input: bytes, i: nat)
    requires Open(g, t, m) && i < |input|
    requires t.top.state == Array || t.top.state == ArrayAfterSep || t.top.state == ObjectValue
    ensures Step(g, t, input, i) == Lift(Step(Above(g, m), Upper(t, m), input, i), t.below[..m])
  {
    hide WellFormed, Step;
    var h, u, base := Above(g, m), Upper(t, m), t.below[..m];
    StepAt(g, t, input, i);
    StepAt(h, u, input, i);
    assert LiftTok(u, base) == t;
    forall s: State ensures t.below + [t.top.(state := s)] == base + (u.below + [u.top.(state := s)]) {}
    assert Push(t, ArrayAdd) == LiftTok(Push(u, ArrayAdd), base);
    assert Push(t, ObjectValueAdd) == LiftTok(Push(u, ObjectValueAdd), base);
  }

  /**
   A pass above clean levels stays above them, makes progress or drops the rank; or it pops the value onto one of
   them.
   */
  predicate KeepsOpen(g: Config, t: Tok, m: nat, input: bytes, i: nat, o: Outcome)
    requires i < |input|
  {
    match o
    case Advance(t', n) => Open(g, t', m) && 1 <= n && i + n <= |input| && t'.obj == JNull && !Drops(t, m)
    case Redo(t') =>
      if Drops(t, m) then Open(g, t'.(obj := JNull), m - 1) && t'.top == CLEAN && t'.obj == t.top.current
      else Open(g, t', m) && Rank(t') < Rank(t)
    case Halt(t', e, n) =>
      && m <= |t'.below| < g.maxDepth && (forall k | 0 <= k < m :: t'.below[k] == CLEAN) && !Drops(t, m)
      && Shape(Above(g, m), Upper(t', m)) && i + n <= |input| && t'.obj == JNull
  }

  lemma StepKeepsOpen(g: Config, t: Tok, m: nat, input: bytes, i: nat)
    requires Open(g, t, m) && i < |input|
    ensures KeepsOpen(g, t, m, input, i, Step(g, t, input, i))
  {
    hide Step;
    if Drops(t, m) {
      PopIsOpen(g, t, m, input, i);
    } else {
      var h, u, base := Above(g, m), Upper(t, m), t.below[..m];
      StepLifts(g, t, m, input, i);
      StepKeeps(h, u, input, i);
      NothingAtExit(h, u, input, i);
      var o := Step(h, u, input, i);
      LiftedBelow(o.t, base);
      hide Shape;
    }
  }

  lemma LiftedBelow(u: Tok, base: seq<Level>)
    ensures var t := LiftTok(u, base);
      Upper(t, |base|) == u && |t.below| == |base| + |u.below| && forall k | 0 <= k < |base| :: t.below[k] == base[k]
  {}

  lemma PopIsOpen(g: Config, t: Tok, m: nat, input: bytes, i: nat)
    requires Open(g, t, m) && i < |input| && Drops(t, m)
    ensures var o := Step(g, t, input, i);
      o.Redo? && Open(g, o.t.(obj := JNull), m - 1) && o.t.top == CLEAN && o.t.obj == t.top.current
    ensures Step(g, t, input, i).t == t.(below := t.below[..m - 1], top := CLEAN, obj := t.top.current)
  {}

  /** No pass leaves the loop while the local `obj` owns something. */
  lemma NothingAtExit(g: Config, t: Tok, input: bytes, i: nat)
    requires WellFormed(g, t) && i < |input|
    ensures Step(g, t, input, i).Halt? ==> Step(g, t, input, i).t.obj == JNull
  {
    if StaysOnTop(t.top.state) { TopOnly(g, t, input, i); }
  }

  /**
   What a pop onto a clean level leaves in `obj` is never read: the two states that read it come right behind another
   pop.
   */
  lemma StaleObjIsNotRead(g: Config, t: Tok, v: Json, input: bytes, i: nat)
    requires i < |input| && (t.top.state == EscapeUnicode ==> t.stPos < 4)
    requires t.top.state != ArrayAdd && t.top.state != ObjectValueAdd
    ensures var o, o' := Step(g, t, input, i), Step(g, t.(obj := v), input, i);
      o' == if t.top.state == Finish && t.below != [] then o else FramedOutcome(o, o.t.below, v)
  {
    if StaysOnTop(t.top.state) {
      TopOnly(g, t, input, i);
      StepFrames(g, g, t, t.below, v, input, i);
      hide Step;
      assert t.(obj := v) == Framed(t, t.below, v);
    }
  }

  // ---------------------------------------------------------------- a whole call

  /** A call above `m` clean levels. What a pop onto one of them leaves in `obj` is dropped. */
  function RunOn(g: Config, t: Tok, m: nat, input: bytes, i: nat): Result
    requires Open(g, t, m) && i <= |input|
    decreases |input| - i, m, Rank(t)
  {
    if i == |input| then AtEnd(g, t, i)
    else
      StepKeepsOpen(g, t, m, input, i);
      match Step(g, t, input, i)
      case Advance(t', n) =>
        if input[i] == NUL then Out(g, Flush(t'), NUL, Success, i + n) else RunOn(g, t', m, input, i + n)
      case Redo(t') =>
        if Drops(t, m) then RunOn(g, t'.(obj := JNull), m - 1, input, i) else RunOn(g, t', m, input, i)
      case Halt(t', e, n) => Out(g, t', input[i], e, i + n)
  }

  /** `json_tokener_parse_ex` on any tokener that an earlier call has not cut behind an escape. */
  function ParseOn(g: Config, t: Tok, chunk: bytes): Result
    requires Reusable(g, t) && Idle(t)
  {
    RunOn(g, t, CleanBelow(t.below), chunk, 0)
  }

  /** Without clean levels it is the call that the other theorems speak of. */
  lemma {:induction false} RunOnIsRun(g: Config, t: Tok, input: bytes, i: nat)
    requires WellFormed(g, t) && Open(g, t, 0) && i <= |input|
    ensures RunOn(g, t, 0, input, i) == Run(g, t, input, i)
    decreases |input| - i, Rank(t)
  {
    hide Step, Shape, Rank;
    if i < |input| {
      StepKeeps(g, t, input, i);
      StepKeepsOpen(g, t, 0, input, i);
      match Step(g, t, input, i)
      case Advance(t', n) => if input[i] != NUL { RunOnIsRun(g, t', input, i + n); }
      case Redo(t') => RunOnIsRun(g, t', input, i);
      case Halt(t', e, n) =>
    }
  }

  /** The end of a call above clean levels. */
  predicate SettledOn(g: Config, r: Result) {
    Idle(r.tok) && (Reusable(g, r.tok) <==> !CutBehindEscape(r.tok))
  }

  /** `t` is in order above `m` clean levels, but for a position behind an escape. */
  predicate Shaped(g: Config, t: Tok, m: nat) {
    && m <= |t.below| < g.maxDepth && (forall k | 0 <= k < m :: t.below[k] == CLEAN) && Shape(Above(g, m), Upper(t, m))
  }

  lemma OutSettlesOn(g: Config, t: Tok, m: nat, c: byte, e: Error, offset: nat)
    requires Shaped(g, t, m)
    ensures SettledOn(g, Out(g, t, c, e, offset))
  {
    var r := Out(g, t, c, e, offset);
    if r.err == Success {
      CleanIsOpen(g, r.tok);
    } else if CutBehindEscape(r.tok) {
      NotReusable(g, r.tok);
    } else {
      assert Open(g, r.tok, m) by {
        assert Upper(r.tok, m) == Upper(t, m).(obj := JNull, hi := 0, caseLen := 0);
      }
      OpenIsReusable(g, r.tok, m);
    }
  }

  lemma NotReusable(g: Config, t: Tok)
    requires CutBehindEscape(t)
    ensures !Reusable(g, t)
  {}

  lemma CleanIsOpen(g: Config, t: Tok)
    requires AllClean(t) && Idle(t) && |t.below| < g.maxDepth && t.ucs < 0x1_0000_0000
    ensures Reusable(g, t) && CleanBelow(t.below) == |t.below| && !CutBehindEscape(t)
  {
    var m := |t.below|;
    assert forall k | 0 <= k < m :: t.below[k] in t.below;
    assert Open(g, t, m);
    OpenIsReusable(g, t, m);
  }

  lemma FlushIsShaped(g: Config, t: Tok, m: nat)
    requires Open(g, t, m)
    ensures Shaped(g, Flush(t), m)
  {
    assert Upper(Flush(t), m) == Flush(Upper(t, m));
  }

  lemma {:induction false} RunOnSettles(g: Config, t: Tok, m: nat, input: bytes, i: nat)
    requires Open(g, t, m) && i <= |input|
    ensures SettledOn(g, RunOn(g, t, m, input, i))
    decreases |input| - i, m, Rank(t)
  {
    hide Step, Shape, Rank, Out, SettledOn;
    if i == |input| {
      FlushIsShaped(g, t, m);
      OutSettlesOn(g, Flush(t), m, 1, AtEnd(g, t, i).err, i);
      EndsAsOut(g, t, m, i);
    } else {
      StepKeepsOpen(g, t, m, input, i);
      match Step(g, t, input, i)
      case Advance(t', n) =>
        if input[i] == NUL {
          FlushIsShaped(g, t', m);
          OutSettlesOn(g, Flush(t'), m, NUL, Success, i + n);
        } else {
          RunOnSettles(g, t', m, input, i + n);
        }
      case Redo(t') =>
        if Drops(t, m) { RunOnSettles(g, t'.(obj := JNull), m - 1, input, i); }
          else { RunOnSettles(g, t', m, input, i); }
      case Halt(t', e, n) => OutSettlesOn(g, t', m, input[i], e, i + n);
    }
  }

  lemma EndsAsOut(g: Config, t: Tok, m: nat, i: nat)
    requires Open(g, t, m) && SettledOn(g, Out(g, Flush(t), 1, AtEnd(g, t, i).err, i))
    ensures SettledOn(g, AtEnd(g, t, i))
  {}

  /**
   Whatever a call has returned, from inside an open container or not, the next call can be made, unless the last one
   was cut right behind the second `\u` of a pair.
   */
  lemma NextCallExactlyWhen(g: Config, t: Tok, chunk: bytes)
    requires Reusable(g, t) && Idle(t)
    ensures var r := ParseOn(g, t, chunk); Idle(r.tok) && (Reusable(g, r.tok) <==> !CutBehindEscape(r.tok))
    ensures WellFormed(g, t) ==> ParseOn(g, t, chunk) == ParseEx(g, t, chunk)
  {
    hide RunOn, Run;
    RunOnSettles(g, t, CleanBelow(t.below), chunk, 0);
    if WellFormed(g, t) {
      WellFormedIsOpen(g, t);
      OpenIsReusable(g, t, 0);
      RunOnIsRun(g, t, chunk, 0);
    }
  }
}
