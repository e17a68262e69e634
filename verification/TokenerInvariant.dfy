/** What holds after every call of the tokener, whatever the input was. */
module TokenerInvariant {
  import opened Bytes
  import opened JsonValue
  import opened Numbers
  import opened OrderedMap
  import opened TokenerMachine

  /** The tokener waits for nothing on any level: the state after `json_tokener_reset`, but for the depth. */
  predicate AllClean(t: Tok) {
    t.top == CLEAN && forall l | l in t.below :: l == CLEAN
  }

  /** A call that stopped between the two escapes of a surrogate pair has left a position of 4 behind. */
  predicate CutBehindEscape(t: Tok) {
    t.top.state == EscapeUnicode && t.stPos >= 4
  }

  predicate Commenting(t: Tok) {
    InComment(t.top.state)
  }

  /** The facts about the end of a call that the theorems below are made of. */
  predicate Settled(g: Config, r: Result) {
    && Idle(r.tok)
    && (r.err != Success ==> Shape(g, r.tok) && r.value == JNull)
    && (r.err == Success ==> AllClean(r.tok) && |r.tok.below| < g.maxDepth && r.tok.ucs < 0x1_0000_0000)
  }

  lemma OutSettles(g: Config, t: Tok, c: byte, err: Error, offset: nat)
    requires Shape(g, t)
    ensures Settled(g, Out(g, t, c, err, offset)) && Out(g, t, c, err, offset).offset == offset
  {}

  predicate SettlesIn(g: Config, r: Result, first: nat, last: nat) {
    Settled(g, r) && first <= r.offset <= last
  }

  /** Every call ends inside the chunk, idle, and either clean or with the stack discipline intact. */
  lemma {:induction false} RunSettles(g: Config, t: Tok, input: bytes, i: nat)
    requires WellFormed(g, t) && i <= |input|
    ensures SettlesIn(g, Run(g, t, input, i), i, |input|)
    decreases |input| - i, Rank(t)
  {
    if i == |input| {
      FlushIsShaped(g, t);
      OutSettles(g, Flush(t), 1, AtEnd(g, t, i).err, i);
    } else {
      StepKeeps(g, t, input, i);
      PassSettles(g, t, input, i, Step(g, t, input, i));
    }
  }

  lemma FlushIsShaped(g: Config, t: Tok)
    requires Shape(g, t)
    ensures Shape(g, Flush(t))
  {}

  lemma {:induction false} PassSettles(g: Config, t: Tok, input: bytes, i: nat, o: Outcome)
    requires WellFormed(g, t) && i < |input| && o == Step(g, t, input, i) && Keeps(g, t, input, i, o)
    ensures SettlesIn(g, Run(g, t, input, i), i, |input|)
    decreases |input| - i, Rank(t), 0
  {
    hide Step, Rank, Shape, Out;
    match o
    case Redo(t') => RunSettles(g, t', input, i);
    case Halt(t', e, n) => OutSettles(g, t', input[i], e, i + n);
    case Advance(t', n) =>
      if input[i] == NUL {
        FlushIsShaped(g, t');
        OutSettles(g, Flush(t'), NUL, Success, i + n);
      } else {
        RunSettles(g, t', input, i + n);
      }
  }

  /**
   A tokener can take a further call if and only if the last one neither returned a value from
   inside an open container nor stopped between the two escapes of a surrogate pair.
   */
  lemma ReusableExactlyWhen(g: Config, t: Tok, chunk: bytes)
    requires WellFormed(g, t) && Idle(t)
    ensures var r := ParseEx(g, t, chunk);
            WellFormed(g, r.tok) <==> (r.err == Success ==> r.tok.below == []) && !CutBehindEscape(r.tok)
  {
    var r := ParseEx(g, t, chunk);
    RunSettles(g, t, chunk, 0);
    if r.err == Success && r.tok.below != [] {
      assert r.tok.below[0] in r.tok.below;
      assert !Waiting(CLEAN);
    }
  }

  /** No comment is entered, and a NUL is never consumed with a finished value waiting. */
  predicate StaysOut(t: Tok, c: byte, o: Outcome) {
    match o
    case Advance(t', n) => !Commenting(t') && (c == NUL ==> t'.top.state != Finish && t'.top.saved != Finish)
    case Redo(t') => !Commenting(t')
    case Halt(t', e, n) =>
      e == Success ==> t'.below == [] || (c == NUL && t'.top.state != Finish && t'.top.saved != Finish)
  }

  lemma StepStaysOut(g: Config, t: Tok, input: bytes, i: nat)
    requires WellFormed(g, t) && i < |input| && (g.strict || input[i] != SLASH) && !Commenting(t)
    ensures StaysOut(t, input[i], Step(g, t, input, i))
  {
    if t.top.state == Finish {
      if t.below != [] { assert Waiting(t.below[|t.below| - 1]); }
    } else if t.top.state == EscapeUnicode {
      UnicodeStaysOut(t, input, i);
    } else {
      PlainStepStaysOut(g, t, input, i);
    }
  }

  lemma PlainStepStaysOut(g: Config, t: Tok, input: bytes, i: nat)
    requires WellFormed(g, t) && i < |input| && (g.strict || input[i] != SLASH) && !Commenting(t)
    requires t.top.state != Finish && t.top.state != EscapeUnicode
    ensures StaysOut(t, input[i], Step(g, t, input, i))
  {
    hide Step, StaysOut, WellFormed;
    match t.top.state
    case EatWs => BlankStaysOut(g, t, input, i);
    case Start => StartStaysOut(g, t, input, i);
    case NullLit | Inf | Boolean => LiteralStaysOut(g, t, input, i);
    case Number => NumberStaysOut(g, t, input, i);
    case Str | ObjectField | StrEscape => TextStaysOut(g, t, input, i);
    case ArrayAdd | ObjectValueAdd | Array | ArrayAfterSep | ArraySep | ObjectFieldStart | ObjectFieldStartAfterSep
       | ObjectFieldEnd | ObjectValue | ObjectSep => RestStaysOut(g, t, input, i);
  }

  lemma BlankStaysOut(g: Config, t: Tok, input: bytes, i: nat)
    requires WellFormed(g, t) && i < |input| && (g.strict || input[i] != SLASH) && t.top.state == EatWs
    ensures StaysOut(t, input[i], Step(g, t, input, i))
  {
    hide Step;
    StepAtBlank(g, t, input, i);
  }

  lemma StartStaysOut(g: Config, t: Tok, input: bytes, i: nat)
    requires WellFormed(g, t) && i < |input| && (g.strict || input[i] != SLASH) && t.top.state == Start
    ensures StaysOut(t, input[i], Step(g, t, input, i))
  {
    hide Step;
    StepAtStart(g, t, input, i);
  }

  lemma LiteralStaysOut(g: Config, t: Tok, input: bytes, i: nat)
    requires WellFormed(g, t) && i < |input| && (g.strict || input[i] != SLASH) &&
      (t.top.state == NullLit || t.top.state == Inf || t.top.state == Boolean)
    ensures StaysOut(t, input[i], Step(g, t, input, i))
  {
    hide Step, Matches;
    StepAtLiteral(g, t, input, i);
    if t.top.state == NullLit {} else if t.top.state == Inf {} else {}
  }

  lemma NumberStaysOut(g: Config, t: Tok, input: bytes, i: nat)
    requires WellFormed(g, t) && i < |input| && (g.strict || input[i] != SLASH) && t.top.state == Number
    ensures StaysOut(t, input[i], Step(g, t, input, i))
  {
    hide Step, ParseInt64;
    StepAtNumber(g, t, input, i);
  }

  lemma TextStaysOut(g: Config, t: Tok, input: bytes, i: nat)
    requires WellFormed(g, t) && i < |input| && (g.strict || input[i] != SLASH) &&
      (InText(t.top.state) || t.top.state == StrEscape)
    ensures StaysOut(t, input[i], Step(g, t, input, i))
  {
    hide Step, CString;
    StepAtText(g, t, input, i);
    if t.top.state == Str {} else if t.top.state == ObjectField {} else {}
  }

  lemma RestStaysOut(g: Config, t: Tok, input: bytes, i: nat)
    requires WellFormed(g, t) && i < |input| && !Commenting(t)
    requires t.top.state.ArrayAdd? || t.top.state.ObjectValueAdd? || t.top.state.Array? || t.top.state.ArrayAfterSep? ||
             t.top.state.ArraySep? || t.top.state.ObjectFieldStart? || t.top.state.ObjectFieldStartAfterSep? ||
             t.top.state.ObjectFieldEnd? || t.top.state.ObjectValue? || t.top.state.ObjectSep?
    ensures StaysOut(t, input[i], Step(g, t, input, i))
  {
    hide Put;
  }

  lemma UnicodeStaysOut(t: Tok, input: bytes, i: nat)
    requires i < |input| && t.top.state == EscapeUnicode && InText(t.top.saved) && t.stPos < 4
    ensures StaysOut(t, input[i], StepUnicode(t, input, i))
  {}

  /** No comment can begin from `i` on. */
  predicate CommentFree(g: Config, input: bytes, i: nat) {
    g.strict || forall k | i <= k < |input| :: input[k] != SLASH
  }

  /** Without comments, as in strict mode, a value is returned only when every container has been closed. */
  lemma {:induction false} SuccessIsComplete(g: Config, t: Tok, input: bytes, i: nat)
    requires WellFormed(g, t) && i <= |input| && CommentFree(g, input, i) && !Commenting(t)
    ensures Run(g, t, input, i).err == Success ==> Run(g, t, input, i).tok.below == []
    decreases |input| - i, Rank(t)
  {
    if i < |input| {
      StepKeeps(g, t, input, i);
      StepStaysOut(g, t, input, i);
      PassStaysComplete(g, t, input, i, Step(g, t, input, i));
    }
  }

  lemma {:induction false} PassStaysComplete(g: Config, t: Tok, input: bytes, i: nat, o: Outcome)
    requires WellFormed(g, t) && i < |input| && CommentFree(g, input, i) && !Commenting(t)
    requires o == Step(g, t, input, i) && Keeps(g, t, input, i, o) && StaysOut(t, input[i], o)
    ensures Run(g, t, input, i).err == Success ==> Run(g, t, input, i).tok.below == []
    decreases |input| - i, Rank(t), 0
  {
    hide Step, Shape, Rank;
    match o
    case Advance(t', n) => if input[i] != NUL { SuccessIsComplete(g, t', input, i + n); }
    case Redo(t') => SuccessIsComplete(g, t', input, i);
    case Halt(t', e, n) =>
  }
}
