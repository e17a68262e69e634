/** The tokener skips white space and comments as the reference does, and its errors are those of the reference. */
module ReferenceSkips {
  import opened Bytes
  import opened JsonValue
  import opened OrderedMap
  import opened TokenerMachine
  import opened TokenerSteps
  import opened Reference

  /** The text and its terminator. */
  function Input(s: bytes): bytes {
    s + [NUL]
  }

  /** From here on the call ends as the reference says. */
  predicate Ends(g: Config, t: Tok, s: bytes, i: nat, a: Answer)
    requires a.Stopped?
  {
    WellFormed(g, t) && i <= |s| &&
    var r := Run(g, t, Input(s), i); r.err == a.err && r.value == a.v && r.offset == a.at
  }

  /** What is read at `i`. */
  lemma InputAt(s: bytes, i: nat)
    requires i <= |s|
    ensures i < |Input(s)| && Input(s)[i] == CharAt(s, i)
  {}

  /** A state that is neither between tokens nor behind a complete value. */
  predicate Inside(l: Level) {
    l.state != EatWs && !InComment(l.state) && l.state != Finish
  }

  lemma InsideIsUnfinished(g: Config, t: Tok)
    requires WellFormed(g, t) && Inside(t.top)
    ensures t.top.saved != Finish
  {}

  /** An error at `i`. */
  lemma HaltsHere(g: Config, t: Tok, s: bytes, i: nat, t1: Tok, e: Error)
    requires WellFormed(g, t) && Inside(t.top) && i <= |s| && NUL !in s
    requires Step(g, t, Input(s), i) == Halt(t1, e, 0) && t1.top == t.top && e != Success
    ensures Ends(g, t, s, i, Fail(s, e, i))
  {
    hide Step, Shape;
    InputAt(s, i);
    InsideIsUnfinished(g, t);
    StepKeeps(g, t, Input(s), i);
  }

  /** The terminator is consumed, and nothing is complete. */
  lemma EndsAtNulInside(g: Config, t: Tok, s: bytes, t1: Tok)
    requires WellFormed(g, t) && Step(g, t, Input(s), |s|) == Advance(t1, 1)
    requires t1.top.state != Finish && t1.top.saved != Finish
    ensures Ends(g, t, s, |s|, Stopped(ErrEof, JNull, |s| + 1))
  {
    hide Step, Shape;
    StepKeeps(g, t, Input(s), |s|);
  }

  // ---------------------------------------------------------------- comments

  /** A comment does not end: this is no error behind a complete value. */
  function InCommentAtEnd(t: Tok, s: bytes): Answer {
    if t.top.saved == Finish then Stopped(Success, t.top.current, |s| + 1) else Stopped(ErrEof, JNull, |s| + 1)
  }

  /** The same machine, with other scratch bytes and in another of the states between tokens. */
  predicate Between(t: Tok, t': Tok, state: State) {
    t' == t.(pb := t'.pb, top := t.top.(state := state))
  }

  lemma CommentCut(g: Config, t: Tok, s: bytes, t1: Tok)
    requires WellFormed(g, t) && InComment(t.top.state) && Step(g, t, Input(s), |s|) == Advance(t1, 1)
    requires t1.top == t.top.(state := t1.top.state) && InComment(t1.top.state)
    ensures Ends(g, t, s, |s|, InCommentAtEnd(t, s))
  {
    hide Step, Shape;
    StepKeeps(g, t, Input(s), |s|);
    Flushed(g, t, s, t1);
  }

  lemma Flushed(g: Config, t: Tok, s: bytes, t1: Tok)
    requires WellFormed(g, t1) && InComment(t1.top.state)
    ensures Flush(t1) == t1
  {}

  lemma {:induction false} LineRuns(g: Config, t: Tok, s: bytes, i: nat) returns (t': Tok)
    requires WellFormed(g, t) && t.top.state == CommentEol && i <= |s| && NUL !in s
    ensures match LineEnd(s, i)
      case Some(j) => Leads(g, t, i, t', j, Input(s)) && Between(t, t', EatWs)
      case None => Ends(g, t, s, i, InCommentAtEnd(t, s))
    decreases |s| - i
  {
    hide Run, Step, WellFormed;
    InputAt(s, i);
    StepAtComment(g, t, Input(s), i);
    if i == |s| {
      t' := t;
      CommentCut(g, t, s, Append(t, [NUL]));
    } else if s[i] == 0x0A {
      t' := Go(t, EatWs);
      Consume(g, t, Input(s), i, t');
    } else {
      var t1 := Append(t, [s[i]]);
      Consume(g, t, Input(s), i, t1);
      t' := LineRuns(g, t1, s, i + 1);
    }
  }

  lemma {:induction false} BlockRuns(g: Config, t: Tok, s: bytes, i: nat) returns (t': Tok)
    requires WellFormed(g, t) && t.top.state == Comment && i <= |s| && NUL !in s
    ensures match BlockEnd(s, i)
      case Some(j) => Leads(g, t, i, t', j, Input(s)) && Between(t, t', EatWs)
      case None => Ends(g, t, s, i, InCommentAtEnd(t, s))
    decreases |s| - i
  {
    hide Run, Step, WellFormed;
    InputAt(s, i);
    StepAtComment(g, t, Input(s), i);
    if i == |s| {
      t' := t;
      CommentCut(g, t, s, Append(t, [NUL]));
    } else if s[i] != 0x2A {
      var t1 := Append(t, [s[i]]);
      Consume(g, t, Input(s), i, t1);
      t' := BlockRuns(g, t1, s, i + 1);
    } else {
      var t1 := Append(Go(t, CommentEnd), [s[i]]);
      Consume(g, t, Input(s), i, t1);
      t' := BehindStar(g, t1, s, i + 1);
      if i + 1 < |s| && s[i + 1] != 0x2F { t' := BlockRuns(g, t', s, i + 2); }
    }
  }

  /** The character behind a star. */
  lemma BehindStar(g: Config, t: Tok, s: bytes, i: nat) returns (t': Tok)
    requires WellFormed(g, t) && t.top.state == CommentEnd && i <= |s| && NUL !in s
    ensures if i == |s| then Ends(g, t, s, i, InCommentAtEnd(t, s))
            else Leads(g, t, i, t', i + 1, Input(s)) && Between(t, t', if s[i] == 0x2F then EatWs else Comment)
  {
    hide Run, Step, WellFormed;
    InputAt(s, i);
    StepAtComment(g, t, Input(s), i);
    if i == |s| {
      t' := t;
      CommentCut(g, t, s, Append(Go(t, Comment), [NUL]));
    } else {
      t' := Append(Go(t, if s[i] == 0x2F then EatWs else Comment), [s[i]]);
      Consume(g, t, Input(s), i, t');
    }
  }

  // ---------------------------------------------------------------- white space

  /** What the reference says about white space at `i`, with a complete value in front of it or not. */
  predicate Skips(g: Config, t: Tok, t': Tok, s: bytes, i: nat)
    requires i <= |s|
  {
    var gap := Skip(g.strict, s, i);
    if gap.Reached? then Leads(g, t, i, t', gap.i, Input(s)) && Between(t, t', EatWs)
    else Ends(g, t, s, i, if t.top.saved == Finish then StopBehind(s, t.top.current, gap) else FailToSkip(s, gap))
  }

  lemma WhiteIsSpace(c: byte)
    ensures c in WHITE <==> IsSpace(c)
  {}

  lemma SlashOpens(g: Config, t: Tok, s: bytes, i: nat) returns (t': Tok)
    requires WellFormed(g, t) && t.top.state == EatWs && i < |s| && NUL !in s && s[i] == 0x2F && !g.strict
    ensures Leads(g, t, i, t', i + 1, Input(s)) && Between(t, t', CommentStart)
  {
    hide Run, Step, WellFormed;
    InputAt(s, i);
    StepAtBlank(g, t, Input(s), i);
    t' := Go(t, CommentStart).(pb := [SLASH]);
    Consume(g, t, Input(s), i, t');
  }

  /** The character behind the slash opens no comment. */
  lemma NotAComment(g: Config, t: Tok, s: bytes, i: nat)
    requires WellFormed(g, t) && t.top.state == CommentStart && i <= |s| && NUL !in s
    requires CharAt(s, i) != 0x2F && CharAt(s, i) != 0x2A
    ensures Ends(g, t, s, i, if t.top.saved == Finish then Stopped(ErrComment, JNull, i) else Fail(s, ErrComment, i))
  {
    hide Step, Shape;
    InputAt(s, i);
    StepAtComment(g, t, Input(s), i);
    StepKeeps(g, t, Input(s), i);
  }

  lemma CommentOpens(g: Config, t: Tok, s: bytes, i: nat) returns (t': Tok)
    requires WellFormed(g, t) && t.top.state == CommentStart && i < |s| && NUL !in s && (s[i] == 0x2F || s[i] == 0x2A)
    ensures Leads(g, t, i, t', i + 1, Input(s)) && Between(t, t', if s[i] == 0x2F then CommentEol else Comment)
  {
    hide Run, Step, WellFormed;
    InputAt(s, i);
    StepAtComment(g, t, Input(s), i);
    t' := Append(Go(t, if s[i] == 0x2F then CommentEol else Comment), [s[i]]);
    Consume(g, t, Input(s), i, t');
  }

  lemma {:induction false} SkipRuns(g: Config, t: Tok, s: bytes, i: nat) returns (t': Tok)
    requires WellFormed(g, t) && t.top.state == EatWs && i <= |s| && NUL !in s
    ensures Skips(g, t, t', s, i)
    decreases |s| - i
  {
    hide Run, Step, WellFormed;
    InputAt(s, i);
    t' := t;
    if i < |s| {
      WhiteIsSpace(s[i]);
      if s[i] in WHITE {
        StepAtBlank(g, t, Input(s), i);
        Consume(g, t, Input(s), i, t);
        t' := SkipRuns(g, t, s, i + 1);
      } else if s[i] == 0x2F && !g.strict {
        t' := CommentRuns(g, t, s, i);
      }
    }
  }

  lemma {:induction false} CommentRuns(g: Config, t: Tok, s: bytes, i: nat) returns (t': Tok)
    requires WellFormed(g, t) && t.top.state == EatWs && i < |s| && NUL !in s && s[i] == 0x2F && !g.strict
    ensures Skips(g, t, t', s, i)
    decreases |s| - i, 0
  {
    hide Run, Step, WellFormed;
    var t1 := SlashOpens(g, t, s, i);
    t' := t1;
    if CharAt(s, i + 1) != 0x2F && CharAt(s, i + 1) != 0x2A {
      NotAComment(g, t1, s, i + 1);
    } else {
      var t2 := CommentOpens(g, t1, s, i + 1);
      var t3: Tok;
      var end: Option<nat>;
      if s[i + 1] == 0x2F {
        end := LineEnd(s, i + 2);
        t3 := LineRuns(g, t2, s, i + 2);
      } else {
        end := BlockEnd(s, i + 2);
        t3 := BlockRuns(g, t2, s, i + 2);
      }
      if end.Some? { t' := SkipRuns(g, t3, s, end.value); }
    }
  }

  /** What is reached is no white space. */
  lemma {:induction false} ReachedIsSolid(strict: bool, s: bytes, i: nat)
    requires i <= |s| && NUL !in s && Skip(strict, s, i).Reached?
    ensures var c := CharAt(s, Skip(strict, s, i).i); !IsSpace(c) && (c == SLASH ==> strict)
    decreases |s| - i
  {
    if i < |s| {
      WhiteIsSpace(s[i]);
      if s[i] in WHITE {
        ReachedIsSolid(strict, s, i + 1);
      } else if s[i] == 0x2F && !strict {
        var end := if CharAt(s, i + 1) == 0x2F then LineEnd(s, i + 2) else BlockEnd(s, i + 2);
        ReachedIsSolid(strict, s, end.value);
      }
    }
  }
}
