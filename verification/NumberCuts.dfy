/**
 What becomes of a number, and of -Infinity, when a chunk ends inside it: exactly when two calls do what one call
 does.
 */
module NumberCuts {
  import opened Bytes
  import opened JsonValue
  import opened OrderedMap
  import opened Utf8
  import opened TokenerMachine
  import opened TokenerInvariant
  import opened TokenerChunks
  import opened TokenerSteps
  import opened GrammarScalars
  import opened GrammarTexts

  /** The test for -Infinity at the end of a number of which this call has read `caseLen` characters. */
  predicate GoesInfinite(pb: bytes, caseLen: nat, c: byte) {
    pb != [] && pb[0] == MINUS && caseLen == 1 && (c == LOWER_I || c == UPPER_I)
  }

  /** With `b` to come, the test depends on whether this call has read `x` or `y` characters of the number so far. */
  predicate Differ(pb: bytes, x: nat, y: nat, b: bytes)
    decreases |b|
  {
    b != [] &&
    if IsNumberChar(b[0]) then Differ(pb + [b[0]], x + 1, y + 1, b[1..])
    else GoesInfinite(pb, x, b[0]) != GoesInfinite(pb, y, b[0])
  }

  /** How many number characters `b` starts with. */
  function NumberPrefix(b: bytes): (m: nat)
    ensures m <= |b|
  {
    if b != [] && IsNumberChar(b[0]) then 1 + NumberPrefix(b[1..]) else 0
  }

  /**
   A number of which the first call has read `n` characters, `pb` with those of earlier calls, is cut in front of `b`:
   it starts with a minus, an `i` follows it, and either the first call or the second one sees a single character of
   it.
   */
  predicate CutsInfinity(pb: bytes, n: nat, b: bytes) {
    var m := NumberPrefix(b);
    && n > 0 && m < |b| && (b[m] == LOWER_I || b[m] == UPPER_I)
    && (pb + b)[0] == MINUS && (m == 1 || (m == 0 && n == 1 && pb != []))
  }

  lemma {:induction false} DifferMeans(pb: bytes, x: nat, y: nat, b: bytes)
    requires x > y
    ensures Differ(pb, x, y, b) <==>
      var m := NumberPrefix(b);
      && m < |b| && (b[m] == LOWER_I || b[m] == UPPER_I) && pb + b[..m] != [] && (pb + b)[0] == MINUS
      && (y + m == 1 || x + m == 1)
    decreases |b|
  {
    if b != [] && IsNumberChar(b[0]) {
      var m := NumberPrefix(b);
      DifferMeans(pb + [b[0]], x + 1, y + 1, b[1..]);
      assert pb + [b[0]] + b[1..] == pb + b;
      assert m < |b| ==> b[1..][m - 1] == b[m];
      assert b[..m] == [b[0]] + b[1..][..m - 1];
    } else if b != [] {
      assert pb + b[..0] == pb;
    }
  }

  lemma CutsInfinityMeans(pb: bytes, n: nat, b: bytes)
    requires n > 0
    ensures CutsInfinity(pb, n, b) <==> Differ(pb, n, 0, b)
  {
    DifferMeans(pb, n, 0, b);
    var m := NumberPrefix(b);
    if m == 1 { assert (pb + b[..1])[|pb|] == b[0]; }
  }

  // ---------------------------------------------------------------- the two ways out of the number state

  /** The buffer of a number holds number characters. */
  predicate NumberText(t: Tok) {
    t.top.state == Number ==> forall c | c in t.pb :: IsNumberChar(c)
  }

  /** Behind a number of more than the sign, or behind a bad one, the infinity state fails at once. */
  lemma InfinityFirst(g: Config, t: Tok, input: bytes, i: nat)
    requires WellFormed(g, t) && t.top.state == Inf && t.obj == JNull && i < |input|
    requires input[i] == LOWER_I || input[i] == UPPER_I
    requires t.pb != [] && t.pb[0] == MINUS && forall c | c in t.pb :: IsNumberChar(c)
    ensures var r := Run(g, t, input, i); r.offset > i || (r.err == ErrUnexpected && r.tok.top.state == Inf)
  {
    hide Step, WellFormed, Rank, IsNumberChar;
    StepKeeps(g, t, input, i);
    InfinityNeverEndsHere(g, t, input, i);
    match Step(g, t, input, i)
    case Advance(t', n) => RunSettles(g, t', input, i + n);
    case Redo(t') =>
    case Halt(t', e, n) =>
  }

  lemma InfinityNeverEndsHere(g: Config, t: Tok, input: bytes, i: nat)
    requires t.top.state == Inf && i < |input| && t.pb != [] && t.pb[0] == MINUS && forall c | c in t.pb ::
      IsNumberChar(c)
    ensures var o := Step(g, t, input, i);
      (o.Advance? && o.n == 1) || o == Halt(Append(t, [input[i]]), ErrUnexpected, 0)
  {
    hide Step;
    StepAtLiteral(g, t, input, i);
    var buf := (t.pb + [input[i]])[1..];
    assert |t.pb| > 1 ==> buf[0] == t.pb[1] && t.pb[1] in t.pb;
    NoInfinity(g, buf);
  }

  lemma NoInfinity(g: Config, buf: bytes)
    requires |buf| > 1 ==> IsNumberChar(buf[0])
    ensures !Matches(g, INF_TEXT, buf, |INF_TEXT|)
  {
    assert INF_TEXT[..|INF_TEXT|][0] == UPPER_I;
    if |buf| >= |INF_TEXT| { assert buf[..|INF_TEXT|][0] == buf[0]; }
  }

  lemma NumberFirst(g: Config, t: Tok, input: bytes, i: nat)
    requires WellFormed(g, t) && t.top.state == Number && t.obj == JNull && i < |input|
    requires input[i] == LOWER_I || input[i] == UPPER_I
    requires Step(g, t, input, i) == FinishNumber(g, t.(caseLen := 0))
    ensures var r := Run(g, t, input, i); r.offset == i && r.tok.top.state != Inf
  {
    hide Step, Numbers.ParseInt64;
    StepKeeps(g, t, input, i);
    var o := Step(g, t, input, i);
    if o.Redo? {
      assert o.t == Accept(t.(caseLen := 0), o.t.top.current);
      BehindValue(g, o.t, input, i);
    }
  }

  /** An `i` behind a complete value ends the call where it stands. */
  lemma BehindValue(g: Config, t: Tok, input: bytes, i: nat)
    requires WellFormed(g, t) && t.top.state == EatWs && t.top.saved == Finish && t.obj == JNull && i < |input|
    requires input[i] == LOWER_I || input[i] == UPPER_I
    ensures var r := Run(g, t, input, i); r.offset == i && r.tok.top.state != Inf
  {
    hide Step, Run, WellFormed;
    if t.below == [] {
      var t1 := Wake(g, t, input, i);
      StopsAtFinish(g, t1, input, i);
    } else {
      var t1 := StoreValue(g, t, input, i);
      var t2 := Wake(g, t1, input, i);
      StopsAtSep(g, t2, input, i);
    }
  }

  lemma StopsAtFinish(g: Config, t: Tok, input: bytes, i: nat)
    requires WellFormed(g, t) && t.top.state == Finish && t.below == [] && i < |input|
    ensures var r := Run(g, t, input, i); r.offset == i && r.tok.top.state != Inf
  {}

  lemma StopsAtSep(g: Config, t: Tok, input: bytes, i: nat)
    requires WellFormed(g, t) && (t.top.state == ArraySep || t.top.state == ObjectSep) && i < |input|
    requires input[i] == LOWER_I || input[i] == UPPER_I
    ensures var r := Run(g, t, input, i); r.offset == i && r.tok.top.state != Inf
  {}

  lemma WaysApart(g: Config, t: Tok, input: bytes, i: nat, x: nat, y: nat)
    requires WellFormed(g, t) && t.top.state == Number && t.obj == JNull && NumberText(t) && i < |input|
    requires GoesInfinite(t.pb, x, input[i]) && y != x
    ensures Run(g, t.(caseLen := x), input, i) != Run(g, t.(caseLen := y), input, i)
  {
    hide Run, Step;
    var tx, ty := t.(caseLen := x), t.(caseLen := y);
    StepAtNumber(g, tx, input, i);
    StepAtNumber(g, ty, input, i);
    var t1 := Go(tx, Inf).(caseLen := 0);
    Restart(g, tx, input, i, t1);
    InfinityFirst(g, t1, input, i);
    NumberFirst(g, ty, input, i);
  }

  /**
   How many characters of a number this call has read matters exactly when the test for -Infinity comes out
   differently.
   */
  lemma {:induction false} CaseLenMatters(g: Config, t: Tok, b: bytes, i: nat, x: nat, y: nat)
    requires WellFormed(g, t) && t.top.state == Number && t.obj == JNull && NumberText(t) && i <= |b| && x != y
    ensures Run(g, t.(caseLen := x), b, i) == Run(g, t.(caseLen := y), b, i) <==> !Differ(t.pb, x, y, b[i..])
    decreases |b| - i
  {
    hide Step, Run, WellFormed, NumberText, GoesInfinite, IsNumberChar;
    if i == |b| {
      CountIsDropped(g, t, b, x);
      CountIsDropped(g, t, b, y);
    } else {
      var c := b[i];
      assert b[i..][0] == c && b[i..][1..] == b[i + 1..];
      if IsNumberChar(c) {
        var t1 := WithNumberChars(t, [c]);
        CountedFurther(g, t, b, i, x);
        CountedFurther(g, t, b, i, y);
        GrownNumberText(g, t, b, i);
        CaseLenMatters(g, t1, b, i + 1, x + 1, y + 1);
      } else {
        EndsDiffer(g, t, b, i, x, y);
      }
    }
  }

  lemma CountIsDropped(g: Config, t: Tok, b: bytes, x: nat)
    requires WellFormed(g, t) && t.top.state == Number
    ensures WellFormed(g, t.(caseLen := x)) && Run(g, t.(caseLen := x), b, |b|) == Run(g, t.(caseLen := 0), b, |b|)
  {}

  lemma CountedFurther(g: Config, t: Tok, b: bytes, i: nat, x: nat)
    requires WellFormed(g, t) && t.top.state == Number && i < |b| && IsNumberChar(b[i])
    ensures WellFormed(g, t.(caseLen := x)) && WellFormed(g, WithNumberChars(t, [b[i]]).(caseLen := x + 1))
    ensures Run(g, t.(caseLen := x), b, i) == Run(g, WithNumberChars(t, [b[i]]).(caseLen := x + 1), b, i + 1)
  {
    hide Step, Run;
    NumberChar(g, t.(caseLen := x), b, i);
    assert WithNumberChars(t, [b[i]]).(caseLen := x + 1) == WithNumberChars(t.(caseLen := x), [b[i]]);
  }

  lemma EndsDiffer(g: Config, t: Tok, b: bytes, i: nat, x: nat, y: nat)
    requires WellFormed(g, t) && t.top.state == Number && t.obj == JNull && NumberText(t) && i < |b| && x != y
    requires !IsNumberChar(b[i])
    ensures Run(g, t.(caseLen := x), b, i) == Run(g, t.(caseLen := y), b, i) <==>
      GoesInfinite(t.pb, x, b[i]) == GoesInfinite(t.pb, y, b[i])
  {
    hide Step;
    var tx, ty := t.(caseLen := x), t.(caseLen := y);
    if GoesInfinite(t.pb, x, b[i]) {
      WaysApart(g, t, b, i, x, y);
    } else if GoesInfinite(t.pb, y, b[i]) {
      WaysApart(g, t, b, i, y, x);
    } else {
      StepAtNumber(g, tx, b, i);
      StepAtNumber(g, ty, b, i);
      StepKeeps(g, tx, b, i);
      StepKeeps(g, ty, b, i);
      assert tx.(caseLen := 0) == ty.(caseLen := 0);
      hide FinishNumber;
    }
  }

  lemma GrownNumberText(g: Config, t: Tok, b: bytes, i: nat)
    requires WellFormed(g, t) && t.top.state == Number && NumberText(t) && i < |b| && IsNumberChar(b[i])
    ensures WellFormed(g, WithNumberChars(t, [b[i]])) && NumberText(WithNumberChars(t, [b[i]]))
  {
    NumberChar(g, t, b, i);
    assert forall c | c in t.pb + [b[i]] :: c in t.pb || c == b[i];
  }

  // ---------------------------------------------------------------- every reachable tokener

  lemma StepKeepsNumberText(g: Config, t: Tok, input: bytes, i: nat)
    requires WellFormed(g, t) && NumberText(t) && i < |input|
    ensures NumberText(Step(g, t, input, i).t)
  {
    hide Step, IsNumberChar, BelowOk;
    if t.top.state == Number {
      StepAtNumber(g, t, input, i);
      hide Numbers.ParseInt64;
      assert forall c | c in t.pb + [input[i]] :: c in t.pb || c == input[i];
    } else if t.top.state == EscapeUnicode {
      UnicodeIsNoNumber(g, t, input, i);
    } else if t.top.state == Start {
      StepAtStart(g, t, input, i);
    } else if t.top.state == EatWs || InComment(t.top.state) {
      BlankIsNoNumber(g, t, input, i);
    } else if t.top.state == Finish || t.top.state == ArrayAdd || t.top.state == ObjectValueAdd {
      JoinIsNoNumber(g, t, input, i);
    } else {
      RestIsNoNumber(g, t, input, i);
    }
  }

  lemma BlankIsNoNumber(g: Config, t: Tok, input: bytes, i: nat)
    requires WellFormed(g, t) && i < |input| && (t.top.state == EatWs || InComment(t.top.state))
    ensures Step(g, t, input, i).t.top.state != Number
  {
    hide Step, BelowOk, Fits;
    if t.top.state == EatWs { StepAtBlank(g, t, input, i); } else { StepAtComment(g, t, input, i); }
  }

  lemma JoinIsNoNumber(g: Config, t: Tok, input: bytes, i: nat)
    requires WellFormed(g, t) && i < |input| && (t.top.state == Finish || t.top.state == ArrayAdd ||
      t.top.state == ObjectValueAdd)
    ensures Step(g, t, input, i).t.top.state != Number
  {
    hide Put;
    if t.top.state == Finish && t.below != [] { assert Waiting(t.below[|t.below| - 1]); }
  }

  lemma RestIsNoNumber(g: Config, t: Tok, input: bytes, i: nat)
    requires WellFormed(g, t) && i < |input| && t.top.state != Number && t.top.state != Start && t.top.state != Finish
    requires t.top.state != EatWs && !InComment(t.top.state) && t.top.state != EscapeUnicode
    requires t.top.state != ArrayAdd && t.top.state != ObjectValueAdd
    ensures Step(g, t, input, i).t.top.state != Number
  {
    hide Step, BelowOk, Fits, Matches, CString;
    if t.top.state == Inf || t.top.state == NullLit || t.top.state == Boolean {
      hide WellFormed;
      StepAtLiteral(g, t, input, i);
    } else if InText(t.top.state) || t.top.state == StrEscape {
      StepAtText(g, t, input, i);
    } else {
      hide WellFormed;
      StepAtItem(g, t, input, i);
      StepAtMember(g, t, input, i);
    }
  }

  lemma UnicodeIsNoNumber(g: Config, t: Tok, input: bytes, i: nat)
    requires WellFormed(g, t) && t.top.state == EscapeUnicode && i < |input|
    ensures Step(g, t, input, i).t.top.state != Number
  {
    hide AddDigit, Emission, IsHex, IsHighSurrogate, IsLowSurrogate, DecodePair, BelowOk, Fits;
  }

  lemma {:induction false} RunKeepsNumberText(g: Config, t: Tok, input: bytes, i: nat)
    requires WellFormed(g, t) && NumberText(t) && i <= |input|
    ensures NumberText(Run(g, t, input, i).tok)
    decreases |input| - i, Rank(t)
  {
    hide Step, Shape, Rank;
    if i < |input| {
      StepKeeps(g, t, input, i);
      StepKeepsNumberText(g, t, input, i);
      match Step(g, t, input, i)
      case Advance(t', n) =>
        if input[i] == NUL { FlushKeepsNumberText(g, t'); } else { RunKeepsNumberText(g, t', input, i + n); }
      case Redo(t') => RunKeepsNumberText(g, t', input, i);
      case Halt(t', e, n) =>
    } else {
      FlushKeepsNumberText(g, t);
    }
  }

  lemma FlushKeepsNumberText(g: Config, t: Tok)
    requires WellFormed(g, t) && NumberText(t)
    ensures NumberText(Flush(t))
  {}

  /**
   A cut outside a pair of escapes: with `t'` the machine where the first chunk ends, the second call gives what one
   call on both chunks gives if and only if the cut does not fall inside a number whose test for -Infinity it turns.
   */
  lemma ChunkedParseExactlyWhen(g: Config, t: Tok, a: bytes, b: bytes) returns (t': Tok)
    requires WellFormed(g, t) && Idle(t) && NumberText(t) && Uncut(g, t, a + b, 0, |a|)
    requires ParseEx(g, t, a).err == Continue
    ensures WellFormed(g, t') && ParseEx(g, t, a).tok == t'.(caseLen := 0)
    ensures WellFormed(g, ParseEx(g, t, a).tok) && Idle(ParseEx(g, t, a).tok) && NumberText(ParseEx(g, t, a).tok)
    ensures ParseEx(g, t, a + b) == Shift(ParseEx(g, ParseEx(g, t, a).tok, b), |a|) <==>
      !(t'.top.state == Number && CutsInfinity(t'.pb, t'.caseLen, b))
  {
    hide Run, Uncut, Step, WellFormed, AtEnd, Differ, CutsInfinity;
    var r := ParseEx(g, t, a);
    var cut := RunToCut(g, t, a, b, 0);
    t' := cut.value;
    TokAtCut(g, t', |a|);
    RunKeepsNumberText(g, t, a, 0);
    RunShifted(g, t', a, b, 0);
    if t'.caseLen != 0 {
      assert b[0..] == b && t'.(caseLen := t'.caseLen) == t';
      CaseLenMatters(g, t', b, 0, t'.caseLen, 0);
      CutsInfinityMeans(t'.pb, t'.caseLen, b);
    } else {
      NothingCounted(t', b);
    }
    ShiftIsInjective(Run(g, t', b, 0), Run(g, r.tok, b, 0), |a|);
  }

  lemma NothingCounted(t: Tok, b: bytes)
    ensures !CutsInfinity(t.pb, 0, b)
  {}

  lemma ShiftIsInjective(r: Result, q: Result, n: nat)
    ensures Shift(r, n) == Shift(q, n) <==> r == q
  {}
}
