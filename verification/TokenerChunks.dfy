/** Parsing in pieces: when feeding chunks one after the other equals one call on all of them. */
module TokenerChunks {
  import opened Bytes
  import opened JsonValue
  import opened OrderedMap
  import opened TokenerMachine
  import opened TokenerInvariant
  import opened Utf8

  function Shift(r: Result, n: nat): Result {
    r.(offset := r.offset + n)
  }

  /**
   The run on `input` from `i` either ends before `cut` or arrives exactly there with no high
   surrogate pending: no pair of escapes, nor the look-ahead for one, straddles the cut.
   */
  predicate Uncut(g: Config, t: Tok, input: bytes, i: nat, cut: nat)
    requires WellFormed(g, t) && i <= cut <= |input|
    decreases |input| - i, Rank(t)
  {
    if i == cut then t.hi == 0
    else
      StepKeeps(g, t, input, i);
      match Step(g, t, input, i)
      case Advance(t', n) => i + n <= cut && (input[i] == NUL || Uncut(g, t', input, i + n, cut))
      case Redo(t') => Uncut(g, t', input, i, cut)
      case Halt(t', e, n) => n == 0 || i + n < cut
  }

  /** The first byte of `b` that ends a number does not start an Infinity. */
  predicate NoInfinityAhead(b: bytes) {
    b == [] || (if IsNumberChar(b[0]) then NoInfinityAhead(b[1..]) else b[0] != LOWER_I && b[0] != UPPER_I)
  }

  /** No "-Infinity" straddles a cut that leaves tokener `t` behind and has `b` to come. */
  predicate NoInfinityCut(t: Tok, b: bytes) {
    t.top.state == Number && (t.pb == [] || t.pb[0] == MINUS) ==> NoInfinityAhead(b)
  }

  /** A pass looks no further than the cut, so it does the same on the first chunk alone. */
  lemma StepOnPrefix(g: Config, t: Tok, a: bytes, b: bytes, i: nat)
    requires WellFormed(g, t) && i < |a| && Uncut(g, t, a + b, i, |a|)
    ensures Step(g, t, a, i) == Step(g, t, a + b, i)
  {
    StepKeeps(g, t, a + b, i);
    assert (a + b)[i] == a[i];
    if t.top.state == EscapeUnicode {
      assert i + 1 < |a| ==> (a + b)[i + 1] == a[i + 1];
      assert i + 2 < |a| ==> (a + b)[i + 2] == a[i + 2];
      UnicodeOnPrefix(g, t, a, b, i);
    }
  }

  lemma UnicodeOnPrefix(g: Config, t: Tok, a: bytes, b: bytes, i: nat)
    requires WellFormed(g, t) && t.top.state == EscapeUnicode && i < |a| && Uncut(g, t, a + b, i, |a|)
    ensures StepUnicode(t, a, i) == StepUnicode(t, a + b, i)
  {
    hide IsHex, AddDigit, IsHighSurrogate, IsLowSurrogate, DecodePair, Emission, Shape;
    var s := a + b;
    assert s[i] == a[i];
    var t1 := t.(ucs := AddDigit(t.ucs, a[i], t.stPos), stPos := t.stPos + 1);
    var o := FinishEscape(t1, s, i);
    if t1.stPos == 4 && (IsHex(a[i]) || a[i] == NUL) {
      assert Step(g, t, s, i) == o;
      StepKeeps(g, t, s, i);
      assert o.Advance? && o.n == 3 && a[i] != NUL ==> Uncut(g, o.t, s, i + 3, |a|) && o.t.hi != 0;
      FinishOnPrefix(t1, a, b, i);
    }
  }

  lemma FinishOnPrefix(t: Tok, a: bytes, b: bytes, i: nat)
    requires i < |a|
    requires match FinishEscape(t, a + b, i)
             case Advance(t', n) => n == 3 ==> i + 3 < |a|
             case Redo(t') => true
             case Halt(t', e, n) => n == 0 || i + n < |a|
    ensures FinishEscape(t, a, i) == FinishEscape(t, a + b, i)
  {
    hide IsHighSurrogate, IsLowSurrogate, DecodePair, Emission;
    var s := a + b;
    assert s[i] == a[i];
    assert i + 1 < |a| ==> s[i + 1] == a[i + 1];
    assert i + 2 < |a| ==> s[i + 2] == a[i + 2];
  }

  /** No character is consumed on the way into the finish state. */
  lemma AdvanceFinishesNothing(g: Config, t: Tok, input: bytes, i: nat)
    requires WellFormed(g, t) && i < |input| && Step(g, t, input, i).Advance?
    ensures Step(g, t, input, i).t.top.state != Finish
  {
    hide Step, Numbers.ParseInt64, BelowOk, Fits;
    if t.top.state == EscapeUnicode {
      UnicodeFinishesNothing(g, t, input, i);
    } else if t.top.state == Finish || t.top.state == ArrayAdd || t.top.state == ObjectValueAdd {
      JoinAdvancesNot(g, t, input, i);
    } else if t.top.state == EatWs {
      StepAtBlank(g, t, input, i);
    } else {
      SwitchFinishesNothing(g, t, input, i);
    }
  }

  lemma JoinAdvancesNot(g: Config, t: Tok, input: bytes, i: nat)
    requires i < |input| && (t.top.state == Finish || t.top.state == ArrayAdd || t.top.state == ObjectValueAdd)
    ensures !Step(g, t, input, i).Advance?
  {}

  lemma SwitchFinishesNothing(g: Config, t: Tok, input: bytes, i: nat)
    requires WellFormed(g, t) && i < |input| && Step(g, t, input, i).Advance?
    requires t.top.state != EscapeUnicode && t.top.state != Finish && t.top.state != ArrayAdd &&
      t.top.state != ObjectValueAdd
    requires t.top.state != EatWs
    ensures Step(g, t, input, i).t.top.state != Finish
  {
    hide Step, Numbers.ParseInt64, CString, Put, Matches, BelowOk, Fits;
    if t.top.state == NullLit || t.top.state == Inf || t.top.state == Boolean {
      StepAtLiteral(g, t, input, i);
    } else if InText(t.top.state) || t.top.state == StrEscape {
      StepAtText(g, t, input, i);
    } else if t.top.state == Start {
      StepAtStart(g, t, input, i);
    } else if t.top.state == Number {
      StepAtNumber(g, t, input, i);
    } else if InComment(t.top.state) {
      StepAtComment(g, t, input, i);
    } else {
      StepAtItem(g, t, input, i);
      StepAtMember(g, t, input, i);
    }
  }

  lemma UnicodeFinishesNothing(g: Config, t: Tok, input: bytes, i: nat)
    requires WellFormed(g, t) && t.top.state == EscapeUnicode && i < |input|
    ensures Step(g, t, input, i).t.top.state != Finish
  {
    hide BelowOk, Fits, AddDigit, Emission, IsHex, IsHighSurrogate, IsLowSurrogate, DecodePair;
  }

  /** Where the run on `a + b` stands when `a` is used up; None when it has ended by then. */
  lemma {:induction false} RunToCut(g: Config, t: Tok, a: bytes, b: bytes, i: nat) returns (cut: Option<Tok>)
    requires WellFormed(g, t) && i <= |a| && Uncut(g, t, a + b, i, |a|)
    requires i == |a| ==> t.obj == JNull
    ensures cut.None? ==> Run(g, t, a, i) == Run(g, t, a + b, i) && Run(g, t, a, i).err != Continue
    ensures cut.Some? ==>
              var t' := cut.value;
              && WellFormed(g, t') && t'.hi == 0 && t'.obj == JNull
              && Run(g, t, a, i) == AtEnd(g, t', |a|)
              && Run(g, t, a + b, i) == Run(g, t', a + b, |a|)
              && (if i == |a| then t' == t else t'.top.state != Finish)
    decreases |a| - i, Rank(t)
  {
    hide Step, Shape, Rank;
    if i == |a| {
      return Some(t);
    }
    StepOnPrefix(g, t, a, b, i);
    var o := Step(g, t, a, i);
    assert Step(g, t, a + b, i) == o && (a + b)[i] == a[i];
    assert Keeps(g, t, a, i, o) by { StepKeeps(g, t, a, i); }
    match o
    case Advance(t', n) =>
      if a[i] == NUL {
        cut := None;
      } else {
        AdvanceFinishesNothing(g, t, a, i);
        cut := RunToCut(g, t', a, b, i + n);
      }
    case Redo(t') => cut := RunToCut(g, t', a, b, i);
    case Halt(t', e, n) => cut := None;
  }

  /** What lies before the current position does not matter, only how far it moves the offset. */
  lemma {:induction false} RunShifted(g: Config, t: Tok, a: bytes, b: bytes, i: nat)
    requires WellFormed(g, t) && i <= |b|
    ensures Run(g, t, a + b, |a| + i) == Shift(Run(g, t, b, i), |a|)
    decreases |b| - i, Rank(t)
  {
    if i < |b| {
      StepShifted(g, t, a, b, i);
      StepKeeps(g, t, b, i);
      PassShifted(g, t, a, b, i, Step(g, t, b, i));
    }
  }

  lemma {:induction false} PassShifted(g: Config, t: Tok, a: bytes, b: bytes, i: nat, o: Outcome)
    requires WellFormed(g, t) && i < |b|
    requires o == Step(g, t, b, i) == Step(g, t, a + b, |a| + i) && Keeps(g, t, b, i, o)
    ensures Run(g, t, a + b, |a| + i) == Shift(Run(g, t, b, i), |a|)
    decreases |b| - i, Rank(t), 0
  {
    hide Step, Shape, Rank;
    var s, j := a + b, |a| + i;
    assert s[j] == b[i];
    match o
    case Advance(t', n) =>
      if b[i] != NUL {
        RunShifted(g, t', a, b, i + n);
        assert Run(g, t, s, j) == Run(g, t', s, j + n);
      }
    case Redo(t') =>
      RunShifted(g, t', a, b, i);
      assert Run(g, t, s, j) == Run(g, t', s, j);
    case Halt(t', e, n) =>
  }

  lemma StepShifted(g: Config, t: Tok, a: bytes, b: bytes, i: nat)
    requires WellFormed(g, t) && i < |b|
    ensures Step(g, t, a + b, |a| + i) == Step(g, t, b, i)
  {
    var s, j := a + b, |a| + i;
    assert s[j] == b[i];
    if t.top.state == EscapeUnicode {
      assert i + 1 < |b| ==> s[j + 1] == b[i + 1];
      assert i + 2 < |b| ==> s[j + 2] == b[i + 2];
      assert EscapeFollows(s, j) == EscapeFollows(b, i);
    }
  }

  /** How many digits this call has seen matters only to the test for "-Infinity". */
  lemma {:induction false} CaseLenIsIdle(g: Config, t: Tok, b: bytes, i: nat, n: nat)
    requires WellFormed(g, t) && t.top.state == Number && i <= |b|
    requires t.pb == [] || t.pb[0] == MINUS ==> NoInfinityAhead(b[i..])
    ensures Run(g, t, b, i) == Run(g, t.(caseLen := n), b, i)
    decreases |b| - i
  {
    if i < |b| {
      var c := b[i];
      assert b[i..][0] == c && b[i..][1..] == b[i + 1..];
      if IsNumberChar(c) {
        var t1 := StepNumber(g, t, c).t;
        StepKeeps(g, t, b, i);
        CaseLenIsIdle(g, t1, b, i + 1, n + 1);
        assert t1.(caseLen := n + 1) == StepNumber(g, t.(caseLen := n), c).t;
      } else {
        assert StepNumber(g, t, c) == StepNumber(g, t.(caseLen := n), c);
      }
    }
  }

  /**
   A first chunk that asks for more leaves a tokener on which the second chunk gives exactly
   what one call on both chunks gives, as long as no surrogate pair and no "-Infinity" is cut.
   */
  lemma ChunkedParse(g: Config, t: Tok, a: bytes, b: bytes)
    requires WellFormed(g, t) && Idle(t) && Uncut(g, t, a + b, 0, |a|)
    requires ParseEx(g, t, a).err == Continue && NoInfinityCut(ParseEx(g, t, a).tok, b)
    ensures WellFormed(g, ParseEx(g, t, a).tok) && Idle(ParseEx(g, t, a).tok)
    ensures ParseEx(g, t, a + b) == Shift(ParseEx(g, ParseEx(g, t, a).tok, b), |a|)
  {
    hide Run, Uncut, Step, WellFormed, AtEnd, NoInfinityAhead;
    var r := ParseEx(g, t, a);
    var cut := RunToCut(g, t, a, b, 0);
    var t' := cut.value;
    TokAtCut(g, t', |a|);
    assert r.tok == t'.(caseLen := 0);
    RunShifted(g, t', a, b, 0);
    if t'.caseLen != 0 {
      assert b[0..] == b;
      CaseLenIsIdle(g, t', b, 0, 0);
    }
  }

  /** A call that runs out of characters leaves the machine as it is, but for the locals. */
  lemma TokAtCut(g: Config, t: Tok, offset: nat)
    requires WellFormed(g, t) && t.hi == 0 && t.obj == JNull
    ensures var r := AtEnd(g, t, offset);
      r.err == Continue ==> r.tok == t.(caseLen := 0) && WellFormed(g, r.tok) && Idle(r.tok) && r.tok.below == t.below
    ensures t.caseLen != 0 ==> t.top.state == Number
  {}

  /** A call that ended for any other reason than the end of its chunk would have ended there anyway. */
  lemma ChunkedEnd(g: Config, t: Tok, a: bytes, b: bytes)
    requires WellFormed(g, t) && Idle(t) && Uncut(g, t, a + b, 0, |a|)
    requires ParseEx(g, t, a).err != Continue && ParseEx(g, t, a).offset < |a|
    ensures ParseEx(g, t, a + b) == ParseEx(g, t, a)
  {
    var cut := RunToCut(g, t, a, b, 0);
  }

  function Concat(chunks: seq<bytes>): bytes {
    if chunks == [] then [] else chunks[0] + Concat(chunks[1..])
  }

  /** The loop of a caller: feed chunk after chunk for as long as the tokener asks for more. */
  function Feed(g: Config, t: Tok, chunks: seq<bytes>): Result
    requires WellFormed(g, t) && Idle(t) && chunks != []
    decreases |chunks|
  {
    var r := ParseEx(g, t, chunks[0]);
    RunSettles(g, t, chunks[0], 0);
    if |chunks| == 1 || r.err != Continue || !WellFormed(g, r.tok) then r
    else Shift(Feed(g, r.tok, chunks[1..]), |chunks[0]|)
  }

  /** No cut of the list falls where a call could tell, and no call but the last succeeds at the end of its chunk. */
  predicate CutsAreSafe(g: Config, t: Tok, chunks: seq<bytes>)
    requires WellFormed(g, t) && Idle(t)
    decreases |chunks|
  {
    if |chunks| <= 1 then true
    else
      var r := ParseEx(g, t, chunks[0]);
      RunSettles(g, t, chunks[0], 0);
      && Uncut(g, t, Concat(chunks), 0, |chunks[0]|)
      && (r.err != Continue ==> r.offset < |chunks[0]|)
      && (r.err == Continue ==>
            NoInfinityCut(r.tok, Concat(chunks[1..])) && WellFormed(g, r.tok) && CutsAreSafe(g, r.tok, chunks[1..]))
  }

  /** Feeding any list of chunks gives the result of one call on all of them. */
  lemma {:induction false} FeedIsOneCall(g: Config, t: Tok, chunks: seq<bytes>)
    requires WellFormed(g, t) && Idle(t) && chunks != [] && CutsAreSafe(g, t, chunks)
    ensures Feed(g, t, chunks) == ParseEx(g, t, Concat(chunks))
    decreases |chunks|
  {
    var a, b := chunks[0], Concat(chunks[1..]);
    if |chunks| == 1 {
      assert Concat(chunks) == a;
    } else {
      hide Run, Uncut;
      RunSettles(g, t, a, 0);
      if ParseEx(g, t, a).err == Continue {
        ChunkedParse(g, t, a, b);
        FeedIsOneCall(g, ParseEx(g, t, a).tok, chunks[1..]);
      } else {
        ChunkedEnd(g, t, a, b);
      }
    }
  }

  // ---------------------------------------------------------------- a test on the bytes alone

  /** The last eight bytes, or all of a shorter chunk, are free of backslashes. */
  predicate QuietEnd(a: bytes) {
    forall k | |a| - 8 <= k < |a| && 0 <= k :: a[k] != BACKSLASH
  }

  /** An escape that this call has entered began at most five bytes back. */
  predicate EscapeInSight(t: Tok, input: bytes, i: nat) {
    && (t.top.state == StrEscape ==> 1 <= i <= |input| && input[i - 1] == BACKSLASH)
    && (t.top.state == EscapeUnicode ==> 2 + t.stPos <= i <= |input| && input[i - 2 - t.stPos] == BACKSLASH)
  }

  predicate InSightAfter(input: bytes, i: nat, o: Outcome)
    requires i < |input|
  {
    match o
    case Advance(t', n) =>
      EscapeInSight(t', input, i + n) && (n == 1 || (n == 3 && 5 <= i && input[i - 5] == BACKSLASH))
    case Redo(t') => EscapeInSight(t', input, i)
    case Halt(t', e, n) => n == 0 || (5 <= i && n <= 3 && input[i - 5] == BACKSLASH)
  }

  lemma StepKeepsSight(g: Config, t: Tok, input: bytes, i: nat)
    requires WellFormed(g, t) && i < |input| && EscapeInSight(t, input, i)
    ensures InSightAfter(input, i, Step(g, t, input, i))
  {
    hide Step, WellFormed, InSightAfter, NoEscape;
    if t.top.state == EscapeUnicode {
      UnicodeKeepsSight(g, t, input, i);
    } else if t.top.state == StrEscape || InText(t.top.state) {
      TextKeepsSight(g, t, input, i);
    } else {
      OtherStatesNeverEscape(g, t, input, i);
      OutOfSight(input, i, Step(g, t, input, i));
    }
  }

  lemma OutOfSight(input: bytes, i: nat, o: Outcome)
    requires i < |input| && NoEscape(o)
    ensures InSightAfter(input, i, o)
  {}

  lemma UnicodeKeepsSight(g: Config, t: Tok, input: bytes, i: nat)
    requires WellFormed(g, t) && t.top.state == EscapeUnicode && i < |input| && EscapeInSight(t, input, i)
    ensures InSightAfter(input, i, Step(g, t, input, i))
  {
    var t1 := t.(ucs := AddDigit(t.ucs, input[i], t.stPos), stPos := t.stPos + 1);
    SavedIsInText(g, t);
    if t1.stPos == 4 { LastDigitInSight(t1, input, i); }
    hide FinishEscape, AddDigit, IsHex, Shape;
  }

  lemma SavedIsInText(g: Config, t: Tok)
    requires WellFormed(g, t) && t.top.state == EscapeUnicode
    ensures InText(t.top.saved)
  {}

  lemma LastDigitInSight(t: Tok, input: bytes, i: nat)
    requires t.top.state == EscapeUnicode && InText(t.top.saved) && i < |input| && 5 <= i && input[i - 5] == BACKSLASH
    ensures InSightAfter(input, i, FinishEscape(t, input, i))
  {
    hide IsHighSurrogate, IsLowSurrogate, DecodePair, Emission;
  }

  lemma TextKeepsSight(g: Config, t: Tok, input: bytes, i: nat)
    requires WellFormed(g, t) && i < |input| && (t.top.state == StrEscape || InText(t.top.state)) &&
      EscapeInSight(t, input, i)
    ensures InSightAfter(input, i, Step(g, t, input, i))
  {
    hide Step, CString, BelowOk, Fits;
    StepAtText(g, t, input, i);
  }

  predicate NoEscape(o: Outcome) {
    o.t.top.state != StrEscape && o.t.top.state != EscapeUnicode && (o.Advance? ==> o.n == 1) && (o.Halt? ==> o.n == 0)
  }

  lemma OtherStatesNeverEscape(g: Config, t: Tok, input: bytes, i: nat)
    requires WellFormed(g, t) && i < |input|
    requires !InText(t.top.state) && t.top.state != StrEscape && t.top.state != EscapeUnicode
    ensures NoEscape(Step(g, t, input, i))
  {
    hide Step, NoEscape, WellFormed;
    match t.top.state
    case EatWs => BlankNeverEscapes(g, t, input, i);
    case Start => StartNeverEscapes(g, t, input, i);
    case NullLit | Inf | Boolean => LiteralNeverEscapes(g, t, input, i);
    case Number => NumberNeverEscapes(g, t, input, i);
    case Finish => FinishNeverEscapes(g, t, input, i);
    case CommentStart | Comment | CommentEol | CommentEnd | ArrayAdd | ObjectValueAdd | Array | ArrayAfterSep
       | ArraySep | ObjectFieldStart | ObjectFieldStartAfterSep | ObjectFieldEnd | ObjectValue | ObjectSep =>
      RestNeverEscapes(g, t, input, i);
  }

  lemma BlankNeverEscapes(g: Config, t: Tok, input: bytes, i: nat)
    requires WellFormed(g, t) && i < |input| && t.top.state == EatWs
    ensures NoEscape(Step(g, t, input, i))
  {
    hide Step;
    StepAtBlank(g, t, input, i);
  }

  lemma StartNeverEscapes(g: Config, t: Tok, input: bytes, i: nat)
    requires WellFormed(g, t) && i < |input| && t.top.state == Start
    ensures NoEscape(Step(g, t, input, i))
  {
    hide Step;
    StepAtStart(g, t, input, i);
  }

  lemma LiteralNeverEscapes(g: Config, t: Tok, input: bytes, i: nat)
    requires WellFormed(g, t) && i < |input| && (t.top.state == NullLit || t.top.state == Inf || t.top.state == Boolean)
    ensures NoEscape(Step(g, t, input, i))
  {
    hide Step, Matches;
    StepAtLiteral(g, t, input, i);
    if t.top.state == NullLit {} else if t.top.state == Inf {} else {}
  }

  lemma NumberNeverEscapes(g: Config, t: Tok, input: bytes, i: nat)
    requires WellFormed(g, t) && i < |input| && t.top.state == Number
    ensures NoEscape(Step(g, t, input, i))
  {
    hide Step, Numbers.ParseInt64;
    StepAtNumber(g, t, input, i);
  }

  lemma FinishNeverEscapes(g: Config, t: Tok, input: bytes, i: nat)
    requires WellFormed(g, t) && i < |input| && t.top.state == Finish
    ensures NoEscape(Step(g, t, input, i))
  {
    if t.below != [] { assert Waiting(t.below[|t.below| - 1]); }
  }

  lemma RestNeverEscapes(g: Config, t: Tok, input: bytes, i: nat)
    requires WellFormed(g, t) && i < |input|
    requires InComment(t.top.state) || t.top.state.ArrayAdd? || t.top.state.ObjectValueAdd? || t.top.state.Array? ||
             t.top.state.ArrayAfterSep? || t.top.state.ArraySep? || t.top.state.ObjectFieldStart? ||
             t.top.state.ObjectFieldStartAfterSep? || t.top.state.ObjectFieldEnd? || t.top.state.ObjectValue? ||
               t.top.state.ObjectSep?
    ensures NoEscape(Step(g, t, input, i))
  {
    hide Put;
  }

  /** A chunk with a quiet end can be followed by any bytes: no surrogate pair is cut. */
  lemma {:induction false} QuietEndIsUncut(g: Config, t: Tok, a: bytes, b: bytes, i: nat)
    requires WellFormed(g, t) && i <= |a| && QuietEnd(a) && EscapeInSight(t, a + b, i)
    requires i == |a| ==> t.hi == 0 || t.top.state == EscapeUnicode
    ensures Uncut(g, t, a + b, i, |a|)
    decreases |a| - i, Rank(t)
  {
    var s := a + b;
    assert forall k | 0 <= k < |a| :: s[k] == a[k];
    if i == |a| {
    } else {
      StepKeepsSight(g, t, s, i);
      StepKeeps(g, t, s, i);
      hide Step, Rank;
      match Step(g, t, s, i)
      case Advance(t', n) =>
        if s[i] != NUL { QuietEndIsUncut(g, t', a, b, i + n); }
      case Redo(t') => QuietEndIsUncut(g, t', a, b, i);
      case Halt(t', e, n) =>
    }
  }

  /** In no escape, and not left behind by a complaint about text behind a value. */
  predicate Resting(g: Config, t: Tok) {
    t.top.state != StrEscape && t.top.state != EscapeUnicode && !(g.strict && t.top.state == Finish && t.below == [])
  }

  /** A call that asks for more behind a quiet end leaves no escape open. */
  lemma {:induction false} QuietEndSettles(g: Config, t: Tok, a: bytes, i: nat)
    requires WellFormed(g, t) && i <= |a| && QuietEnd(a) && EscapeInSight(t, a, i)
    ensures Run(g, t, a, i).err == Continue ==> Resting(g, Run(g, t, a, i).tok)
    decreases |a| - i, Rank(t)
  {
    hide Step, Rank, Shape, QuietEnd, Out, Resting, EscapeInSight, Flush;
    if i == |a| {
      QuietEndRests(g, t, a);
    } else {
      StepKeepsSight(g, t, a, i);
      StepKeeps(g, t, a, i);
      match Step(g, t, a, i)
      case Advance(t', n) =>
        if a[i] == NUL { OutAsksNotForMore(g, Flush(t'), NUL, Success, i + n); }
          else { QuietEndSettles(g, t', a, i + n); }
      case Redo(t') => QuietEndSettles(g, t', a, i);
      case Halt(t', e, n) =>
        QuietEndGoesOn(a, i, n, e);
        OutAsksNotForMore(g, t', a[i], e, i + n);
    }
  }

  lemma QuietEndRests(g: Config, t: Tok, a: bytes)
    requires WellFormed(g, t) && QuietEnd(a) && EscapeInSight(t, a, |a|)
    ensures AtEnd(g, t, |a|).err == Continue ==> Resting(g, AtEnd(g, t, |a|).tok)
  {}

  lemma OutAsksNotForMore(g: Config, t: Tok, c: byte, e: Error, offset: nat)
    requires e != Continue
    ensures Out(g, t, c, e, offset).err != Continue
  {}

  lemma QuietEndGoesOn(a: bytes, i: nat, n: nat, e: Error)
    requires QuietEnd(a) && i < |a| && (e == Continue ==> n != 0 && i + n == |a|)
    requires n == 0 || (5 <= i && n <= 3 && a[i - 5] == BACKSLASH)
    ensures e != Continue
  {}

  lemma {:induction false} NoInfinityInPrefix(b: bytes, n: nat)
    requires n <= |b| && NoInfinityAhead(b)
    ensures NoInfinityAhead(b[..n])
    decreases |b|
  {
    if n > 0 && IsNumberChar(b[0]) {
      NoInfinityInPrefix(b[1..], n - 1);
      assert b[..n][1..] == b[1..][..n - 1];
    }
  }

  /** A test on the bytes alone: every cut is quiet, and what follows it does not go on to an infinity. */
  predicate QuietCuts(chunks: seq<bytes>)
    decreases |chunks|
  {
    |chunks| > 1 ==> QuietEnd(chunks[0]) && NoInfinityAhead(Concat(chunks[1..])) && QuietCuts(chunks[1..])
  }

  /** A value was complete at the end of the `k`th chunk, and the caller was given it then. */
  predicate CompleteAt(g: Config, t: Tok, chunks: seq<bytes>, k: nat)
    requires WellFormed(g, t) && Idle(t) && 0 < k < |chunks|
  {
    var r := ParseEx(g, t, Concat(chunks[..k]));
    r.err == Success && r.offset == |Concat(chunks[..k])| && Feed(g, t, chunks) == r
  }

  lemma ConcatSplit(chunks: seq<bytes>, k: nat)
    requires 0 < k <= |chunks|
    ensures Concat(chunks[..k]) == chunks[0] + Concat(chunks[1..][..k - 1])
    ensures Concat(chunks[..k]) <= Concat(chunks)
    decreases k
  {
    assert chunks[..k][1..] == chunks[1..][..k - 1];
    if k > 1 { ConcatSplit(chunks[1..], k - 1); }
  }

  /**
   Any list of chunks with quiet cuts gives the result of one call on all of them, or on those that made up a whole
   value.
   */
  lemma {:induction false} FeedOnQuietCuts(g: Config, t: Tok, chunks: seq<bytes>)
    requires WellFormed(g, t) && Idle(t) && Resting(g, t) && chunks != [] && QuietCuts(chunks)
    ensures Feed(g, t, chunks) == ParseEx(g, t, Concat(chunks)) || exists k: nat | 0 < k < |chunks| ::
      CompleteAt(g, t, chunks, k)
    decreases |chunks|
  {
    hide Run, Uncut, QuietEnd, NoInfinityAhead, AtEnd;
    var a, b := chunks[0], Concat(chunks[1..]);
    if |chunks| == 1 {
      assert Concat(chunks) == a;
    } else {
      QuietEndIsUncut(g, t, a, b, 0);
      var cut := RunToCut(g, t, a, b, 0);
      RunSettles(g, t, a, 0);
      if cut.Some? {
        TokAtCut(g, cut.value, |a|);
        if ParseEx(g, t, a).err == Continue {
          QuietCutContinues(g, t, chunks);
        } else {
          EndsComplete(g, cut.value, |a|);
          ConcatSplit(chunks, 1);
          assert Concat(chunks[..1]) == a;
          assert CompleteAt(g, t, chunks, 1);
        }
      }
    }
  }

  lemma EndsComplete(g: Config, t: Tok, offset: nat)
    requires AtEnd(g, t, offset).err != Continue && !(g.strict && t.top.state == Finish && t.below == [])
    ensures AtEnd(g, t, offset).offset == offset && AtEnd(g, t, offset).err == Success
  {}

  lemma {:induction false} QuietCutContinues(g: Config, t: Tok, chunks: seq<bytes>)
    requires WellFormed(g, t) && Idle(t) && Resting(g, t) && |chunks| > 1 && QuietCuts(chunks)
    requires ParseEx(g, t, chunks[0]).err == Continue && WellFormed(g, ParseEx(g, t, chunks[0]).tok)
    ensures Feed(g, t, chunks) == ParseEx(g, t, Concat(chunks)) || exists k: nat | 0 < k < |chunks| ::
      CompleteAt(g, t, chunks, k)
    decreases |chunks|, 0
  {
    hide Run, Uncut, QuietEnd, NoInfinityAhead, AtEnd;
    var a, rest := chunks[0], chunks[1..];
    var r := ParseEx(g, t, a);
    RunSettles(g, t, a, 0);
    QuietEndSettles(g, t, a, 0);
    FeedOnQuietCuts(g, r.tok, rest);
    if Feed(g, r.tok, rest) == ParseEx(g, r.tok, Concat(rest)) {
      QuietChunk(g, t, a, Concat(rest));
    } else {
      var k: nat :| 0 < k < |rest| && CompleteAt(g, r.tok, rest, k);
      ConcatSplit(chunks, k + 1);
      ConcatSplit(rest, k);
      var b := Concat(rest[..k]);
      NoInfinityInPrefix(Concat(rest), |b|);
      assert Concat(rest)[..|b|] == b;
      QuietChunk(g, t, a, b);
      assert CompleteAt(g, t, chunks, k + 1);
    }
  }

  lemma QuietChunk(g: Config, t: Tok, a: bytes, b: bytes)
    requires WellFormed(g, t) && Idle(t) && Resting(g, t) && QuietEnd(a) && NoInfinityAhead(b)
    requires ParseEx(g, t, a).err == Continue
    ensures WellFormed(g, ParseEx(g, t, a).tok) && Idle(ParseEx(g, t, a).tok)
    ensures ParseEx(g, t, a + b) == Shift(ParseEx(g, ParseEx(g, t, a).tok, b), |a|)
  {
    hide Run, Uncut, QuietEnd, NoInfinityAhead;
    QuietEndIsUncut(g, t, a, b, 0);
    ChunkedParse(g, t, a, b);
  }
}
