/**
 The tokener of json_tokener.c with its in-place stack and its loops that handle a whole
 token at a time, proved to do exactly what the one-character machine does.
 */
module Tokener {
  import opened Bytes
  import opened JsonValue
  import opened Numbers
  import opened OrderedMap
  import opened Utf8
  import opened TokenerMachine
  import opened TokenerSteps

  /** How a state's code ends: `break`, `goto redo_char`, or `goto out`. */
  datatype Signal = Next | Again | Leave

  /** From `t`, the rest of a call has the result `r`. */
  ghost predicate Continues(g: Config, r: Result, sig: Signal, t: Tok, c: byte, input: bytes, offset: nat, err: Error) {
    match sig
    case Leave => r == Out(g, t, c, err, offset)
    case Again => offset < |input| && err == Success && WellFormed(g, t) && r == Run(g, t, input, offset)
    case Next =>
      && offset < |input| && c == input[offset] && err == Success
      && (if c == NUL then r == Out(g, t, NUL, Success, offset + 1)
          else WellFormed(g, t) && t.obj == JNull && r == Run(g, t, input, offset + 1))
  }

  /** One pass of the machine is one way for the loop to continue. */
  lemma PassContinues(g: Config, t: Tok, input: bytes, i: nat)
    requires WellFormed(g, t) && i < |input|
    ensures match Step(g, t, input, i)
            case Advance(t', n) =>
              n == 1 && t'.hi == 0 ==>
                Continues(g, Run(g, t, input, i), Next, t', input[i], input, i, Success)
            case Redo(t') =>
              Continues(g, Run(g, t, input, i), Again, t', input[i], input, i, Success) && Rank(t') < Rank(t)
            case Halt(t', e, n) => Continues(g, Run(g, t, input, i), Leave, t', input[i], input, i + n, e)
  {
    StepKeeps(g, t, input, i);
    hide Step, Shape;
  }

  /** The end of a chunk, after a character that was not a NUL: only that matters to the code behind the loop. */
  lemma EndOfChunk(g: Config, t: Tok, input: bytes, c: byte, err: Error)
    requires WellFormed(g, t) && t.hi == 0 && c != NUL && (err == Success || err == Continue)
    requires err == Success <==> t.below == [] && t.top.state == EatWs && t.top.saved == Finish
    ensures Run(g, t, input, |input|) == Out(g, t, c, err, |input|)
  {}

  lemma OutForgetsSurrogate(g: Config, t: Tok, c: byte, err: Error, offset: nat)
    ensures Out(g, t, c, err, offset) == Out(g, t.(hi := 0), c, err, offset)
  {}

  lemma NumberIsQuiet(g: Config, t: Tok)
    requires WellFormed(g, t)
    ensures t.top.state == Number ==> t.hi == 0
  {}

  lemma OutForgetsCaseLen(g: Config, t: Tok, c: byte, err: Error, offset: nat)
    ensures Out(g, t, c, err, offset) == Out(g, t.(caseLen := 0), c, err, offset)
  {}

  /** An ordinary character of a text or a comment: one more for the buffer. */
  predicate PlainIn(state: State, quote: byte, c: byte) {
    match state
    case Comment => c != STAR
    case CommentEol => c != NEWLINE
    case Str | ObjectField => c != quote && c != BACKSLASH
    case _ => false
  }

  predicate Plain(t: Tok, c: byte) {
    PlainIn(t.top.state, t.quote, c)
  }

  lemma AllCleared(ls: seq<Level>)
    requires forall k | 0 <= k < |ls| :: ls[k] == CLEAN
    ensures ls == Cleared(|ls|)
  {
    assert forall k | 0 <= k < |ls| :: Cleared(|ls|)[k] in Cleared(|ls|);
  }

  lemma AppendNone(t: Tok)
    ensures Append(t, []) == t
  {
    assert t.pb + [] == t.pb;
  }

  lemma PlainChar(g: Config, t: Tok, input: bytes, first: nat, i: nat)
    requires first <= i < |input| && Plain(t, input[i]) && t.hi == 0 && t.obj == JNull
    requires WellFormed(g, Append(t, input[first..i]))
    ensures var t1, t2 := Append(t, input[first..i]), Append(t, input[first..i + 1]);
            && (input[i] == NUL ==> Run(g, t1, input, i) == Out(g, t2, NUL, Success, i + 1))
            && (input[i] != NUL ==> WellFormed(g, t2) && Run(g, t1, input, i) == Run(g, t2, input, i + 1))
  {
    var t1, t2 := Append(t, input[first..i]), Append(t, input[first..i + 1]);
    assert input[first..i + 1] == input[first..i] + [input[i]];
    assert t2.pb == t1.pb + [input[i]];
    assert Step(g, t1, input, i) == Advance(t2, 1);
    if input[i] != NUL { Consume(g, t1, input, i, t2); }
  }

  /** The number state after the characters `p`. */
  function NumberRead(t: Tok, p: bytes): Tok {
    Append(t, p).(caseLen := t.caseLen + |p|, isDouble := t.isDouble || DOT in p || LOWER_E in p || UPPER_E in p)
  }

  lemma NumberReadIs(t: Tok, p: bytes, u: Tok)
    requires t.caseLen == 0 && u == t.(pb := t.pb + p, caseLen := |p|, isDouble := NumberRead(t, p).isDouble)
    ensures u == NumberRead(t, p)
  {}

  lemma NumberReadNone(t: Tok)
    ensures NumberRead(t, []) == t && t.pb + [] == t.pb
  {
    assert t.pb + [] == t.pb;
  }

  lemma NumberReadChar(g: Config, t: Tok, input: bytes, first: nat, i: nat)
    requires first <= i < |input| && IsNumberChar(input[i]) && t.top.state == Number && t.hi == 0 && t.obj == JNull
    requires WellFormed(g, NumberRead(t, input[first..i]))
    ensures var t1, t2 := NumberRead(t, input[first..i]), NumberRead(t, input[first..i + 1]);
            && WellFormed(g, t2) && Run(g, t1, input, i) == Run(g, t2, input, i + 1)
            && t2.isDouble == (t1.isDouble || input[i] == DOT || input[i] == LOWER_E || input[i] == UPPER_E)
  {
    var t1, t2 := NumberRead(t, input[first..i]), NumberRead(t, input[first..i + 1]);
    assert input[first..i + 1] == input[first..i] + [input[i]];
    assert t2.pb == t1.pb + [input[i]];
    assert Step(g, t1, input, i) == Advance(t2, 1) by {
      StepIs(g, t1, input, i);
      hide Step, WellFormed, FinishNumber;
    }
    hide Step, WellFormed, Run;
    Consume(g, t1, input, i, t2);
  }

  lemma StepIs(g: Config, t: Tok, input: bytes, i: nat)
    requires i < |input| && (t.top.state == EscapeUnicode ==> t.stPos < 4)
    ensures t.top.state == Number ==> Step(g, t, input, i) == StepNumber(g, t, input[i])
  {}

  /** A pass in the digits of an escape. */
  lemma UnicodeIs(g: Config, t: Tok, input: bytes, i: nat)
    requires i < |input| && t.top.state == EscapeUnicode && t.stPos < 4
    ensures var t1 := t.(ucs := AddDigit(t.ucs, input[i], t.stPos), stPos := t.stPos + 1);
      Step(g, t, input, i) ==
        if !IsHex(input[i]) && input[i] != NUL then Halt(t, ErrString, 0)
        else if t.stPos < 3 then Advance(t1, 1)
        else FinishEscape(t1, input, i)
  {
    hide AddDigit, FinishEscape, IsHex;
  }

  lemma DigitsMissing(g: Config, t: Tok)
    requires WellFormed(g, t) && t.top.state == EscapeUnicode
    ensures t.stPos < 4 && t.ucs < 0x1_0000_0000
  {}

  /** A call that ends between the digits of an escape. */
  lemma CutEscape(g: Config, t: Tok, t1: Tok, input: bytes, i: nat)
    requires WellFormed(g, t) && t.top.state == EscapeUnicode && i < |input| && Step(g, t, input, i) == Advance(t1, 1)
    requires t1.top == t.top && (input[i] == NUL || i + 1 == |input|)
    ensures Run(g, t, input, i) ==
            Out(g, Flush(t1).(hi := 0), input[i], if input[i] == NUL then Success else Continue, i + 1)
  {
    StepKeeps(g, t, input, i);
    hide Step, Shape;
  }

  /** A high surrogate with a further escape behind it: the run goes on at the digits of that one. */
  lemma SecondEscape(g: Config, t: Tok, input: bytes, i: nat, t': Tok)
    requires WellFormed(g, t) && i < |input| && Step(g, t, input, i) == Advance(t', 3)
    ensures WellFormed(g, t') && Run(g, t, input, i) == Run(g, t', input, i + 3)
  {
    StepKeeps(g, t, input, i);
    hide Step, Shape;
  }

  /** The states whose code loops over characters on its own. */
  predicate HasLoop(s: State) {
    s == EatWs || s == Comment || s == CommentEol || s == Str || s == ObjectField || s == EscapeUnicode || s == Number
  }

  class Tokener {
    const stack: array<Level>
    const isDoubleText: bytes -> bool
    var depth: nat
    var strict: bool
    var pb: bytes
    var stPos: nat
    var isDouble: bool
    var quote: byte
    var ucs: nat
    var err: Error
    var charOffset: nat

    /** The levels above the current depth hold neither a value nor a name. */
    ghost predicate Rep()
      reads this, stack
    {
      && depth < stack.Length && ucs < 0x1_0000_0000
      && forall k | depth < k < stack.Length :: stack[k].current == JNull && stack[k].key == None
    }

    function Cfg(): Config
      reads this
    {
      Config(strict, stack.Length, isDoubleText)
    }

    /** The machine state that the fields and the locals of a call stand for. */
    ghost function Abs(obj: Json, hi: nat, caseLen: nat): Tok
      reads this, stack
      requires depth < stack.Length
    {
      Tok(stack[..depth], stack[depth], pb, stPos, isDouble, quote, ucs, obj, hi, caseLen)
    }

    ghost function Idling(): Tok
      reads this, stack
      requires depth < stack.Length
    {
      Abs(JNull, 0, 0)
    }

    /** The invariant between calls. */
    ghost predicate Valid()
      reads this, stack
    {
      Rep() && WellFormed(Cfg(), Idling())
    }

    /** `json_tokener_new_ex` */
    constructor (maxDepth: nat, isDoubleText: bytes -> bool)
      requires 0 < maxDepth
      ensures Valid() && fresh(stack) && stack.Length == maxDepth && this.isDoubleText == isDoubleText
      ensures !strict && Idling() == NEW && err == Success
    {
      this.stack := new Level[maxDepth](_ => CLEAN);
      this.isDoubleText := isDoubleText;
      depth, strict, pb, stPos, isDouble, quote, ucs := 0, false, [], 0, false, NUL, 0;
      err, charOffset := Success, 0;
    }

    method SetTop(l: Level)
      requires Rep()
      modifies stack
      ensures Rep() && stack[depth] == l && stack[..depth] == old(stack[..depth])
    {
      stack[depth] := l;
    }

    /** `json_tokener_reset_level` */
    method ResetLevel(d: nat)
      requires d < stack.Length
      modifies stack
      ensures stack[..] == old(stack[..])[d := CLEAN]
    {
      stack[d] := CLEAN;
    }

    /** `json_tokener_reset` */
    method Reset()
      requires Rep()
      modifies this, stack
      ensures Valid() && Cfg() == old(Cfg()) && depth == 0 && stack[0] == CLEAN && err == Success
      ensures forall k | 0 <= k < stack.Length :: stack[k].current == JNull && stack[k].key == None
    {
      for i := depth + 1 downto 0
        invariant depth == old(depth) && Cfg() == old(Cfg()) && ucs == old(ucs)
        invariant i <= depth ==> stack[i] == CLEAN
        invariant forall k | i <= k < stack.Length :: stack[k].current == JNull && stack[k].key == None
      {
        ResetLevel(i);
      }
      depth := 0;
      err := Success;
    }

    /**
     What the code of every state guarantees: with the fields it leaves, the rest of the call
     gives what the call would have given from the fields it found.
     */
    twostate predicate Handles(input: bytes, obj: Json, obj': Json, sig: Signal, c: byte)
      reads this, stack
      requires old(Rep()) && WellFormed(old(Cfg()), old(Abs(obj, 0, 0))) && old(charOffset) <= |input|
    {
      var t, i := old(Abs(obj, 0, 0)), old(charOffset);
      && Rep() && Cfg() == old(Cfg()) && i <= charOffset
      && Continues(Cfg(), Run(Cfg(), t, input, i), sig, Abs(obj', 0, 0), c, input, charOffset, err)
      && (sig == Again ==> i < charOffset || Rank(Abs(obj', 0, 0)) < Rank(t))
    }

    /** The fields and the local `obj` have become what one pass of the machine prescribes. */
    twostate predicate Took(o: Outcome, sig: Signal, obj: Json)
      reads this, stack
      requires old(Rep())
    {
      && Rep() && Cfg() == old(Cfg()) && charOffset == old(charOffset)
      && match o
         case Advance(t, n) => sig == Next && n == 1 && Abs(obj, 0, 0) == t && err == Success
         case Redo(t) => sig == Again && Abs(obj, 0, 0) == t && err == Success
         case Halt(t, e, n) => sig == Leave && n == 0 && Abs(obj, 0, 0) == t && err == e
    }

    /** The pass that the machine makes from the current fields. */
    ghost function Pass(input: bytes): Outcome
      reads this, stack
      requires Valid() && charOffset < |input|
    {
      Step(Cfg(), Idling(), input, charOffset)
    }

    // ------------------------------------------------------------ states that look at one character

    method OnStart(input: bytes) returns (sig: Signal)
      requires Valid() && charOffset < |input| && err == Success && stack[depth].state == Start
      modifies this, stack
      ensures Took(old(Pass(input)), sig, JNull)
    {
      hide Step, WellFormed;
      StepAtStart(Cfg(), Idling(), input, charOffset);
      var c, top := input[charOffset], stack[depth];
      sig := Again;
      if c == LBRACE {
        SetTop(top.(state := EatWs, saved := ObjectFieldStart, current := JObject([])));
        sig := Next;
      } else if c == LBRACKET {
        SetTop(top.(state := EatWs, saved := Array, current := JArray([])));
        sig := Next;
      } else if c == UPPER_I || c == LOWER_I {
        SetTop(top.(state := Inf));
        pb, stPos := [], 0;
      } else if c == UPPER_N || c == LOWER_N {
        SetTop(top.(state := NullLit));
        pb, stPos := [], 0;
      } else if c == SQUOTE && strict {
        err := ErrUnexpected;
        sig := Leave;
      } else if c == SQUOTE || c == DQUOTE {
        SetTop(top.(state := Str));
        pb, quote := [], c;
        sig := Next;
      } else if c == UPPER_T || c == LOWER_T || c == UPPER_F || c == LOWER_F {
        SetTop(top.(state := Boolean));
        pb, stPos := [], 0;
      } else if IsDigit(c) || c == MINUS {
        SetTop(top.(state := Number));
        pb, isDouble := [], false;
      } else {
        err := ErrUnexpected;
        sig := Leave;
      }
    }

    /** The value goes to `obj` and the level is reset and dropped. */
    method OnFinish(input: bytes) returns (sig: Signal, obj: Json)
      requires Valid() && charOffset < |input| && err == Success && stack[depth].state == Finish
      modifies this, stack
      ensures Took(old(Pass(input)), sig, obj)
    {
      obj := JNull;
      if depth == 0 {
        sig := Leave;
      } else {
        obj := stack[depth].current;
        ResetLevel(depth);
        depth := depth - 1;
        sig := Again;
        assert stack[..depth] == old(stack[..depth])[..depth];
      }
    }

    method OnInf(input: bytes) returns (sig: Signal)
      requires Valid() && charOffset < |input| && err == Success && stack[depth].state == Inf
      modifies this, stack
      ensures Took(old(Pass(input)), sig, JNull)
    {
      hide Step, WellFormed, Matches;
      StepAtLiteral(Cfg(), Idling(), input, charOffset);
      pb := pb + [input[charOffset]];
      var negative := pb[0] == MINUS;
      var infbuf := if negative then pb[1..] else pb;
      if Matches(Cfg(), INF_TEXT, infbuf, Min(stPos + 1, |INF_TEXT|)) {
        sig := LiteralSoFar(INF_TEXT, JDouble(if negative then [MINUS] + INF_TEXT else INF_TEXT));
      } else {
        err := ErrUnexpected;
        sig := Leave;
      }
    }

    method OnNull(input: bytes) returns (sig: Signal)
      requires Valid() && charOffset < |input| && err == Success && stack[depth].state == NullLit
      modifies this, stack
      ensures Took(old(Pass(input)), sig, JNull)
    {
      hide Step, WellFormed, Matches;
      StepAtLiteral(Cfg(), Idling(), input, charOffset);
      pb := pb + [input[charOffset]];
      if Matches(Cfg(), NULL_TEXT, pb, Min(stPos + 1, |NULL_TEXT|)) {
        sig := LiteralSoFar(NULL_TEXT, JNull);
      } else if Matches(Cfg(), NAN_TEXT, pb, Min(stPos + 1, |NAN_TEXT|)) {
        sig := LiteralSoFar(NAN_TEXT, JDouble(NAN_TEXT));
      } else {
        err := ErrNull;
        sig := Leave;
      }
    }

    method OnBoolean(input: bytes) returns (sig: Signal)
      requires Valid() && charOffset < |input| && err == Success && stack[depth].state == Boolean
      modifies this, stack
      ensures Took(old(Pass(input)), sig, JNull)
    {
      hide Step, WellFormed, Matches;
      StepAtLiteral(Cfg(), Idling(), input, charOffset);
      pb := pb + [input[charOffset]];
      if Matches(Cfg(), TRUE_TEXT, pb, Min(stPos + 1, |TRUE_TEXT|)) {
        sig := LiteralSoFar(TRUE_TEXT, JBool(true));
      } else if Matches(Cfg(), FALSE_TEXT, pb, Min(stPos + 1, |FALSE_TEXT|)) {
        sig := LiteralSoFar(FALSE_TEXT, JBool(false));
      } else {
        err := ErrBoolean;
        sig := Leave;
      }
    }

    /** The value of a literal once all of it has matched, one more position otherwise. */
    method LiteralSoFar(lit: bytes, v: Json) returns (sig: Signal)
      requires Rep() && err == Success
      modifies this, stack
      ensures Took(StepMatched(old(Idling()), lit, v), sig, JNull)
    {
      if stPos == |lit| {
        SetTop(stack[depth].(current := v, saved := Finish, state := EatWs));
        sig := Again;
      } else {
        stPos := stPos + 1;
        sig := Next;
      }
    }

    method OnCommentStart(input: bytes) returns (sig: Signal)
      requires Valid() && charOffset < |input| && err == Success && stack[depth].state == CommentStart
      modifies this, stack
      ensures Took(old(Pass(input)), sig, JNull)
    {
      var c := input[charOffset];
      if c == STAR {
        SetTop(stack[depth].(state := Comment));
      } else if c == SLASH {
        SetTop(stack[depth].(state := CommentEol));
      } else {
        err := ErrComment;
        return Leave;
      }
      pb := pb + [c];
      sig := Next;
    }

    method OnCommentEnd(input: bytes) returns (sig: Signal)
      requires Valid() && charOffset < |input| && err == Success && stack[depth].state == CommentEnd
      modifies this, stack
      ensures Took(old(Pass(input)), sig, JNull)
    {
      var c := input[charOffset];
      pb := pb + [c];
      SetTop(stack[depth].(state := if c == SLASH then EatWs else Comment));
      sig := Next;
    }

    method OnStrEscape(input: bytes) returns (sig: Signal)
      requires Valid() && charOffset < |input| && err == Success && stack[depth].state == StrEscape
      modifies this, stack
      ensures Took(old(Pass(input)), sig, JNull)
    {
      hide Step, WellFormed;
      StepAtText(Cfg(), Idling(), input, charOffset);
      var c := input[charOffset];
      if c == DQUOTE || c == BACKSLASH || c == SLASH {
        pb := pb + [c];
        SetTop(stack[depth].(state := stack[depth].saved));
      } else if c == LOWER_B || c == LOWER_N || c == LOWER_R || c == LOWER_T || c == LOWER_F {
        if c == LOWER_B { pb := pb + [BACKSPACE]; }
        else if c == LOWER_N { pb := pb + [NEWLINE]; }
        else if c == LOWER_R { pb := pb + [RETURN]; }
        else if c == LOWER_T { pb := pb + [TAB]; }
        else if c == LOWER_F { pb := pb + [FORMFEED]; }
        SetTop(stack[depth].(state := stack[depth].saved));
      } else if c == LOWER_U {
        ucs, stPos := 0, 0;
        SetTop(stack[depth].(state := EscapeUnicode));
      } else {
        err := ErrString;
        return Leave;
      }
      sig := Next;
    }

    method OnArray(input: bytes) returns (sig: Signal)
      requires Valid() && charOffset < |input| && err == Success
      requires stack[depth].state == Array || stack[depth].state == ArrayAfterSep
      modifies this, stack
      ensures Took(old(Pass(input)), sig, JNull)
    {
      if input[charOffset] == RBRACKET {
        if stack[depth].state == ArrayAfterSep && strict {
          err := ErrUnexpected;
          return Leave;
        }
        SetTop(stack[depth].(saved := Finish, state := EatWs));
        sig := Next;
      } else {
        sig := Deepen(ArrayAdd);
      }
    }

    /** A fresh level above the current one, which waits in state `s`. */
    method Deepen(s: State) returns (sig: Signal)
      requires Valid() && err == Success
      modifies this, stack
      ensures Took(if old(|Idling().below|) + 1 >= stack.Length then Halt(old(Idling()), ErrDepth, 0)
                   else Redo(Push(old(Idling()), s)), sig, JNull)
    {
      if depth + 1 >= stack.Length {
        err := ErrDepth;
        return Leave;
      }
      SetTop(stack[depth].(state := s));
      depth := depth + 1;
      ResetLevel(depth);
      sig := Again;
      assert stack[..depth] == old(stack[..depth]) + [old(stack[depth]).(state := s)];
    }

    method OnArrayAdd(input: bytes, obj: Json) returns (sig: Signal)
      requires Rep() && WellFormed(Cfg(), Abs(obj, 0, 0)) && charOffset < |input| && err == Success
      requires stack[depth].state == ArrayAdd
      modifies this, stack
      ensures Took(old(Step(Cfg(), Abs(obj, 0, 0), input, charOffset)), sig, JNull)
    {
      var top := stack[depth];
      SetTop(top.(current := JArray(top.current.items + [obj]), saved := ArraySep, state := EatWs));
      sig := Again;
    }

    method OnArraySep(input: bytes) returns (sig: Signal)
      requires Valid() && charOffset < |input| && err == Success && stack[depth].state == ArraySep
      modifies this, stack
      ensures Took(old(Pass(input)), sig, JNull)
    {
      hide Step, WellFormed;
      StepAtItem(Cfg(), Idling(), input, charOffset);
      var c := input[charOffset];
      if c == RBRACKET {
        SetTop(stack[depth].(saved := Finish, state := EatWs));
      } else if c == COMMA {
        SetTop(stack[depth].(saved := ArrayAfterSep, state := EatWs));
      } else {
        err := ErrArray;
        return Leave;
      }
      sig := Next;
    }

    method OnFieldStart(input: bytes) returns (sig: Signal)
      requires Valid() && charOffset < |input| && err == Success
      requires stack[depth].state == ObjectFieldStart || stack[depth].state == ObjectFieldStartAfterSep
      modifies this, stack
      ensures Took(old(Pass(input)), sig, JNull)
    {
      hide Step, WellFormed;
      StepAtMember(Cfg(), Idling(), input, charOffset);
      var c := input[charOffset];
      if c == RBRACE {
        if stack[depth].state == ObjectFieldStartAfterSep && strict {
          err := ErrUnexpected;
          return Leave;
        }
        SetTop(stack[depth].(saved := Finish, state := EatWs));
      } else if c == DQUOTE || c == SQUOTE {
        quote := c;
        pb := [];
        SetTop(stack[depth].(state := ObjectField));
      } else {
        err := ErrKeyName;
        return Leave;
      }
      sig := Next;
    }

    method OnFieldEnd(input: bytes) returns (sig: Signal)
      requires Valid() && charOffset < |input| && err == Success && stack[depth].state == ObjectFieldEnd
      modifies this, stack
      ensures Took(old(Pass(input)), sig, JNull)
    {
      hide Step, WellFormed;
      StepAtMember(Cfg(), Idling(), input, charOffset);
      if input[charOffset] == COLON {
        SetTop(stack[depth].(saved := ObjectValue, state := EatWs));
        sig := Next;
      } else {
        err := ErrKeySep;
        sig := Leave;
      }
    }

    method OnValue(input: bytes) returns (sig: Signal)
      requires Valid() && charOffset < |input| && err == Success && stack[depth].state == ObjectValue
      modifies this, stack
      ensures Took(old(Pass(input)), sig, JNull)
    {
      sig := Deepen(ObjectValueAdd);
    }

    method OnValueAdd(input: bytes, obj: Json) returns (sig: Signal)
      requires Rep() && WellFormed(Cfg(), Abs(obj, 0, 0)) && charOffset < |input| && err == Success
      requires stack[depth].state == ObjectValueAdd
      modifies this, stack
      ensures Took(old(Step(Cfg(), Abs(obj, 0, 0), input, charOffset)), sig, JNull)
    {
      var top := stack[depth];
      SetTop(Level(EatWs, ObjectSep, JObject(Put(top.current.members, top.key.value, obj)), None));
      sig := Again;
    }

    method OnObjectSep(input: bytes) returns (sig: Signal)
      requires Valid() && charOffset < |input| && err == Success && stack[depth].state == ObjectSep
      modifies this, stack
      ensures Took(old(Pass(input)), sig, JNull)
    {
      hide Step, WellFormed;
      StepAtMember(Cfg(), Idling(), input, charOffset);
      var c := input[charOffset];
      if c == RBRACE {
        SetTop(stack[depth].(saved := Finish, state := EatWs));
      } else if c == COMMA {
        SetTop(stack[depth].(saved := ObjectFieldStartAfterSep, state := EatWs));
      } else {
        err := ErrValueSep;
        return Leave;
      }
      sig := Next;
    }

    // ------------------------------------------------------------ states with a loop of their own

    /** `PEEK_CHAR` at the end of the chunk: `err` says whether a value is complete. */
    method PeekEnd()
      requires Rep() && err == Success
      modifies `err
      ensures Rep() && (err == Success || err == Continue)
      ensures forall hi: nat, n: nat :: Abs(JNull, hi, n) == old(Abs(JNull, hi, n))
      ensures err == Success <==> depth == 0 && stack[depth].state == EatWs && stack[depth].saved == Finish
    {
      err := if depth == 0 && stack[depth].state == EatWs && stack[depth].saved == Finish then Success else Continue;
    }

    method OnEatWs(input: bytes) returns (sig: Signal, c: byte)
      requires Valid() && charOffset < |input| && err == Success && stack[depth].state == EatWs
      modifies this, stack
      ensures Handles(input, JNull, JNull, sig, c)
    {
      hide Run, Step, Shape, Rank, Out;
      ghost var g, t, r := Cfg(), Idling(), Run(Cfg(), Idling(), input, charOffset);
      c := input[charOffset];
      while IsSpace(c)
        invariant charOffset < |input| && c == input[charOffset] && old(charOffset) <= charOffset
        invariant Rep() && Cfg() == g && Idling() == t && err == Success
        invariant r == Run(g, t, input, charOffset)
        decreases |input| - charOffset
      {
        StepAtBlank(g, t, input, charOffset);
        Consume(g, t, input, charOffset, t);
        charOffset := charOffset + 1;
        if charOffset == |input| {
          PeekEnd();
          EndOfChunk(g, t, input, c, err);
          return Leave, c;
        }
        c := input[charOffset];
      }
      StepAtBlank(g, t, input, charOffset);
      PassContinues(g, t, input, charOffset);
      if c == SLASH && !strict {
        pb := [c];
        SetTop(stack[depth].(state := CommentStart));
        sig := Next;
      } else {
        SetTop(stack[depth].(state := stack[depth].saved));
        sig := Again;
      }
    }

    /**
     The loop of the string, member name and comment states: ordinary characters go to the
     buffer in one piece; `cut` says that the call ends within them.
     */
    method ReadText(input: bytes) returns (cut: bool, c: byte)
      requires Valid() && charOffset < |input| && err == Success
      modifies `pb, `charOffset, `err
      ensures Rep() && old(charOffset) <= charOffset
      ensures cut ==> Run(Cfg(), old(Idling()), input, old(charOffset)) == Out(Cfg(), Idling(), c, err, charOffset)
      ensures !cut ==>
                && charOffset < |input| && c == input[charOffset] && !Plain(Idling(), c) && err == Success && Valid()
                && Run(Cfg(), old(Idling()), input, old(charOffset)) == Run(Cfg(), Idling(), input, charOffset)
    {
      hide Run, Shape, Rank, Out;
      ghost var g, t := Cfg(), Idling();
      var caseStart := charOffset;
      c := input[charOffset];
      AppendNone(t);
      assert input[caseStart..charOffset] == [];
      while PlainIn(stack[depth].state, quote, c)
        invariant caseStart <= charOffset < |input| && c == input[charOffset]
        invariant Rep() && Cfg() == g && Idling() == t && err == Success
        invariant WellFormed(g, Append(t, input[caseStart..charOffset]))
        invariant Run(g, t, input, caseStart) == Run(g, Append(t, input[caseStart..charOffset]), input, charOffset)
        decreases |input| - charOffset
      {
        PlainChar(g, t, input, caseStart, charOffset);
        charOffset := charOffset + 1;
        if c == NUL || charOffset == |input| {
          if c != NUL { PeekEnd(); }
          pb := pb + input[caseStart..charOffset];
          if c != NUL { EndOfChunk(g, Idling(), input, c, err); }
          return true, c;
        }
        c := input[charOffset];
      }
      pb := pb + input[caseStart..charOffset];
      cut := false;
    }

    /** Everything up to the next star goes to the buffer at once. */
    method OnComment(input: bytes) returns (sig: Signal, c: byte)
      requires Valid() && charOffset < |input| && err == Success && stack[depth].state == Comment
      modifies this, stack
      ensures Handles(input, JNull, JNull, sig, c)
    {
      hide Run, Shape, Rank;
      var cut;
      cut, c := ReadText(input);
      if cut {
        return Leave, c;
      }
      PassContinues(Cfg(), Idling(), input, charOffset);
      pb := pb + [c];
      SetTop(stack[depth].(state := CommentEnd));
      sig := Next;
    }

    /** Everything up to the end of the line goes to the buffer at once. */
    method OnCommentEol(input: bytes) returns (sig: Signal, c: byte)
      requires Valid() && charOffset < |input| && err == Success && stack[depth].state == CommentEol
      modifies this, stack
      ensures Handles(input, JNull, JNull, sig, c)
    {
      hide Run, Shape, Rank;
      var cut;
      cut, c := ReadText(input);
      if cut {
        return Leave, c;
      }
      PassContinues(Cfg(), Idling(), input, charOffset);
      SetTop(stack[depth].(state := EatWs));
      sig := Next;
    }

    /** Everything up to the closing quote or the next escape goes to the buffer at once. */
    method OnStr(input: bytes) returns (sig: Signal, c: byte)
      requires Valid() && charOffset < |input| && err == Success && stack[depth].state == Str
      modifies this, stack
      ensures Handles(input, JNull, JNull, sig, c)
    {
      hide Run, Shape, Rank;
      var cut;
      cut, c := ReadText(input);
      if cut {
        return Leave, c;
      }
      PassContinues(Cfg(), Idling(), input, charOffset);
      if c == quote {
        SetTop(stack[depth].(current := JString(pb), saved := Finish, state := EatWs));
      } else {
        SetTop(stack[depth].(saved := Str, state := StrEscape));
      }
      sig := Next;
    }

    /** As OnStr, for a member name, which `strdup` cuts at its first NUL. */
    method OnField(input: bytes) returns (sig: Signal, c: byte)
      requires Valid() && charOffset < |input| && err == Success && stack[depth].state == ObjectField
      modifies this, stack
      ensures Handles(input, JNull, JNull, sig, c)
    {
      hide Run, Shape, Rank;
      var cut;
      cut, c := ReadText(input);
      if cut {
        return Leave, c;
      }
      PassContinues(Cfg(), Idling(), input, charOffset);
      if c == quote {
        SetTop(stack[depth].(key := Some(CString(pb)), saved := ObjectFieldEnd, state := EatWs));
      } else {
        SetTop(stack[depth].(saved := ObjectField, state := StrEscape));
      }
      sig := Next;
    }

    /** All number characters go to the buffer at once; then the number, or "-Infinity", is decided. */
    method OnNumber(input: bytes) returns (sig: Signal, c: byte)
      requires Valid() && charOffset < |input| && err == Success && stack[depth].state == Number
      modifies this, stack
      ensures Handles(input, JNull, JNull, sig, c)
    {
      hide Run, Step, Shape, StepNumber, FinishNumber;
      var cut, caseLen;
      cut, caseLen, c := ReadNumber(input);
      if cut {
        return Leave, c;
      }
      StepIs(Cfg(), Abs(JNull, 0, caseLen), input, charOffset);
      PassContinues(Cfg(), Abs(JNull, 0, caseLen), input, charOffset);
      sig := CloseNumber(c, caseLen);
    }

    /** The chunk ends within a number: what has been read goes to the buffer. */
    method CutNumber(input: bytes, ghost t: Tok, caseStart: nat, c: byte)
      requires Rep() && err == Success && charOffset == |input| && caseStart <= charOffset && c != NUL
      requires stack[depth].state == Number
      requires Idling() == t.(isDouble := isDouble) && isDouble == NumberRead(t, input[caseStart..]).isDouble
      requires WellFormed(Cfg(), NumberRead(t, input[caseStart..])) && t.caseLen == 0
      modifies `pb, `err
      ensures Rep() && Cfg() == old(Cfg()) && charOffset == old(charOffset)
      ensures Run(Cfg(), NumberRead(t, input[caseStart..]), input, charOffset) ==
        Out(Cfg(), Idling(), c, err, charOffset)
    {
      hide Run, Out, NumberRead, Shape;
      ghost var n := |input| - caseStart;
      PeekEnd();
      pb := pb + input[caseStart..];
      NumberReadIs(t, input[caseStart..], Abs(JNull, 0, n));
      NumberIsQuiet(Cfg(), Abs(JNull, 0, n));
      EndOfChunk(Cfg(), Abs(JNull, 0, n), input, c, err);
      OutForgetsCaseLen(Cfg(), Abs(JNull, 0, n), c, err, charOffset);
    }

    /** One character of a number: a dot or an exponent makes it a double. */
    method CountChar(c: byte)
      requires Rep()
      modifies `isDouble, `charOffset
      ensures Rep() && Cfg() == old(Cfg()) && charOffset == old(charOffset) + 1
      ensures isDouble == (old(isDouble) || c == DOT || c == LOWER_E || c == UPPER_E)
      ensures Idling() == old(Idling()).(isDouble := isDouble)
    {
      if c == DOT || c == LOWER_E || c == UPPER_E {
        isDouble := true;
      }
      charOffset := charOffset + 1;
    }

    /** The loop over the characters of a number; `cut` says that the chunk ends within it. */
    method ReadNumber(input: bytes) returns (cut: bool, caseLen: nat, c: byte)
      requires Valid() && charOffset < |input| && err == Success && stack[depth].state == Number
      modifies this
      ensures Rep() && Cfg() == old(Cfg()) && old(charOffset) <= charOffset
      ensures cut ==> Run(Cfg(), old(Idling()), input, old(charOffset)) == Out(Cfg(), Idling(), c, err, charOffset)
      ensures !cut ==>
                && charOffset < |input| && c == input[charOffset] && !IsNumberChar(c) && err == Success
                && stack[depth].state == Number && WellFormed(Cfg(), Abs(JNull, 0, caseLen))
                && Run(Cfg(), old(Idling()), input, old(charOffset)) ==
                  Run(Cfg(), Abs(JNull, 0, caseLen), input, charOffset)
    {
      hide Run, Step, Shape, Rank, NumberRead, Out;
      ghost var g, t := Cfg(), Idling();
      var caseStart := charOffset;
      caseLen, c := 0, input[charOffset];
      NumberReadNone(t);
      assert input[caseStart..charOffset] == [];
      while c != NUL && IsNumberChar(c)
        invariant caseStart <= charOffset < |input| && c == input[charOffset] && caseLen == charOffset - caseStart
        invariant Rep() && Cfg() == g && err == Success
        invariant Idling() == t.(isDouble := isDouble) &&
          isDouble == NumberRead(t, input[caseStart..charOffset]).isDouble
        invariant WellFormed(g, NumberRead(t, input[caseStart..charOffset]))
        invariant Run(g, t, input, caseStart) == Run(g, NumberRead(t, input[caseStart..charOffset]), input, charOffset)
        decreases |input| - charOffset
      {
        NumberReadChar(g, t, input, caseStart, charOffset);
        CountChar(c);
        caseLen := caseLen + 1;
        if charOffset == |input| {
          assert input[caseStart..] == input[caseStart..charOffset];
          CutNumber(input, t, caseStart, c);
          return true, caseLen, c;
        }
        c := input[charOffset];
      }
      if caseLen > 0 {
        pb := pb + input[caseStart..charOffset];
      }
      NumberReadIs(t, input[caseStart..charOffset], Abs(JNull, 0, caseLen));
      cut := false;
    }

    /** The character behind a number: "-Infinity" begins, or the number is finished. */
    method CloseNumber(c: byte, caseLen: nat) returns (sig: Signal)
      requires Rep() && err == Success && stack[depth].state == Number && !IsNumberChar(c)
      modifies this, stack
      ensures Took(StepNumber(old(Cfg()), old(Abs(JNull, 0, caseLen)), c), sig, JNull)
    {
      if pb != [] && pb[0] == MINUS && caseLen == 1 && (c == LOWER_I || c == UPPER_I) {
        SetTop(stack[depth].(state := Inf));
        sig := Again;
      } else {
        sig := EndNumber(Abs(JNull, 0, caseLen));
      }
    }

    /** The end of the number state: `json_parse_int64` or `json_parse_double` on the whole lexeme. */
    method EndNumber(ghost t: Tok) returns (sig: Signal)
      requires Rep() && t == Abs(JNull, 0, t.caseLen) && err == Success
      modifies this, stack
      ensures Took(FinishNumber(old(Cfg()), t.(caseLen := 0)), sig, JNull)
    {
      if isDouble {
        if isDoubleText(pb) {
          SetTop(stack[depth].(current := JDouble(pb), saved := Finish, state := EatWs));
          return Again;
        }
      } else {
        var num64 := ParseInt64(pb);
        if num64.Some? {
          if num64.value != 0 && pb[0] == ZERO && strict {
            err := ErrNumber;
            return Leave;
          }
          SetTop(stack[depth].(current := JInt(num64.value), saved := Finish, state := EatWs));
          return Again;
        }
      }
      err := ErrNumber;
      sig := Leave;
    }

    /** Decodes one escape, or two when a high surrogate is followed by a further escape. */
    method OnUnicode(input: bytes) returns (sig: Signal, c: byte)
      requires Valid() && charOffset < |input| && err == Success && stack[depth].state == EscapeUnicode
      modifies this, stack
      ensures Handles(input, JNull, JNull, sig, c)
    {
      hide Run, Step, StepUnicode, WellFormed, Rank, FinishEscape, AddDigit, IsHex, Combine, EscapeFollows, Keeps, Out;
      ghost var g, r := Cfg(), Run(Cfg(), Idling(), input, charOffset);
      var gotHiSurrogate: nat := 0;
      c := input[charOffset];
      while true
        invariant old(charOffset) <= charOffset < |input| && c == input[charOffset] && err == Success
        invariant Rep() && Cfg() == g && stack[depth].state == EscapeUnicode
        invariant WellFormed(g, Abs(JNull, gotHiSurrogate, 0))
        invariant r == Run(g, Abs(JNull, gotHiSurrogate, 0), input, charOffset)
        decreases |input| - charOffset
      {
        ghost var t, i := Abs(JNull, gotHiSurrogate, 0), charOffset;
        DigitsMissing(g, t);
        UnicodeIs(g, t, input, i);
        if !IsHex(c) && c != NUL {
          PassContinues(g, t, input, i);
          OutForgetsSurrogate(g, t, c, ErrString, i);
          err := ErrString;
          return Leave, c;
        }
        ucs := AddDigit(ucs, c, stPos);
        stPos := stPos + 1;
        if stPos == 4 {
          ghost var o := FinishEscape(Abs(JNull, gotHiSurrogate, 0), input, i);
          assert Step(g, t, input, i) == o;
          assert t.stPos == 3;
          PassContinues(g, t, input, i);
          var more;
          sig, more, gotHiSurrogate := OnLastDigit(input, gotHiSurrogate);
          if !more {
            return;
          }
          SecondEscape(g, t, input, i, o.t);
          c := input[charOffset];
        } else {
          var cut := PassDigit(input, t, gotHiSurrogate);
          if cut {
            return Leave, c;
          }
          c := input[charOffset];
        }
      }
    }

    /** Moves past a digit that is not the last one; `cut` says that the call ends behind it. */
    method PassDigit(input: bytes, ghost t: Tok, hi: nat) returns (cut: bool)
      requires Rep() && charOffset < |input| && err == Success && stack[depth].state == EscapeUnicode && stPos < 4
      requires WellFormed(Cfg(), t) && t.top == stack[depth]
      requires Step(Cfg(), t, input, charOffset) == Advance(Abs(JNull, hi, 0), 1)
      modifies this
      ensures Rep() && Cfg() == old(Cfg()) && charOffset == old(charOffset) + 1
      ensures cut ==>
        Run(Cfg(), t, input, old(charOffset)) == Out(Cfg(), Idling(), input[old(charOffset)], err, charOffset)
      ensures !cut ==>
                && charOffset < |input| && err == Success && stack[depth].state == EscapeUnicode
                && WellFormed(Cfg(), Abs(JNull, hi, 0))
                && Run(Cfg(), t, input, old(charOffset)) == Run(Cfg(), Abs(JNull, hi, 0), input, charOffset)
    {
      hide Run, Step, Shape, Rank, Out;
      var c := input[charOffset];
      charOffset := charOffset + 1;
      if c == NUL || charOffset == |input| {
        CutEscape(Cfg(), t, Abs(JNull, hi, 0), input, charOffset - 1);
        LeaveEscape(c, hi);
        return true;
      }
      Consume(Cfg(), t, input, charOffset - 1, Abs(JNull, hi, 0));
      cut := false;
    }

    /** The call ends between two digits: a pending high surrogate is written as the replacement character. */
    method LeaveEscape(c: byte, gotHiSurrogate: nat)
      requires Rep() && err == Success && stack[depth].state == EscapeUnicode
      modifies this
      ensures Rep() && Cfg() == old(Cfg()) && charOffset == old(charOffset)
      ensures err == if c == NUL then Success else Continue
      ensures Idling() == Flush(old(Abs(JNull, gotHiSurrogate, 0))).(hi := 0)
    {
      if c != NUL { PeekEnd(); }
      if gotHiSurrogate != 0 { pb := pb + REPLACEMENT; }
    }

    /** What the code for a complete escape has done, in terms of the outcome `o` of the machine. */
    twostate predicate Finished(o: Outcome, sig: Signal, more: bool, hi': nat)
      reads this, stack
      requires old(Rep())
    {
      && Rep() && Cfg() == old(Cfg())
      && match o
         case Advance(t, n) =>
           && charOffset == old(charOffset) + (if more then 3 else 0) && err == Success
           && Abs(JNull, hi', 0) == t && more == (n == 3) && (!more ==> sig == Next && n == 1 && hi' == 0)
         case Redo(t) => false
         case Halt(t, e, n) => !more && sig == Leave && Idling() == t && err == e && charOffset == old(charOffset) + n
    }

    /**
     All four digits have been read. Either the escape is finished and `sig` says how the loop
     goes on, or a second escape follows and `charOffset` stands at its first digit.
     */
    method OnLastDigit(input: bytes, hi: nat) returns (sig: Signal, more: bool, hi': nat)
      requires Rep() && charOffset < |input| && err == Success && stack[depth].state == EscapeUnicode
      modifies this, stack
      ensures Finished(FinishEscape(old(Abs(JNull, hi, 0)), input, old(charOffset)), sig, more, hi')
      ensures more ==> charOffset < |input| && stack[depth].state == EscapeUnicode
    {
      hide IsHighSurrogate, Combine, Emission;
      CombinePending(hi);
      if ucs >= 0x800 && IsHighSurrogate(ucs) && charOffset + 1 != |input| && charOffset + 2 != |input| &&
         input[charOffset + 1] == BACKSLASH && input[charOffset + 2] == LOWER_U {
        sig, more, hi' := OnPair(input);
      } else {
        Emit();
        SetTop(stack[depth].(state := stack[depth].saved));
        sig, more, hi' := Next, false, 0;
      }
    }

    method CombinePending(hi: nat)
      requires Rep()
      modifies `ucs, `pb
      ensures Rep() && Idling() == Combine(old(Abs(JNull, hi, 0)))
    {
      hide IsLowSurrogate, DecodePair;
      if hi != 0 {
        if IsLowSurrogate(ucs) {
          ucs := DecodePair(hi, ucs);
        } else {
          pb := pb + REPLACEMENT;
        }
      }
    }

    /** A high surrogate with the introduction of a further escape behind it. */
    method OnPair(input: bytes) returns (sig: Signal, more: bool, hi': nat)
      requires Rep() && charOffset + 2 < |input| && err == Success && stack[depth].state == EscapeUnicode
      requires EscapeFollows(input, charOffset)
      modifies this, stack
      ensures var t, i := old(Idling()), old(charOffset);
              Finished(if input[i] == NUL then Halt(Append(t, REPLACEMENT + REPLACEMENT), Success, 2)
                       else if i + 3 == |input| then Halt(Append(t, REPLACEMENT), Continue, 3)
                       else Advance(t.(hi := t.ucs, ucs := 0, stPos := 0), 3), sig, more, hi')
      ensures more ==> charOffset < |input| && stack[depth].state == EscapeUnicode
    {
      hi', more, sig := 0, false, Next;
      var c := input[charOffset];
      // both characters of the introduction, unless the first advance finds a NUL
      charOffset := charOffset + 1;
      if c == NUL {
        pb := pb + REPLACEMENT;
      } else {
        charOffset := charOffset + 1;
      }
      charOffset := charOffset + 1;
      if c == NUL || charOffset == |input| {
        if c != NUL { PeekEnd(); }
        pb := pb + REPLACEMENT;
        sig := Leave;
        assert c == NUL ==> pb == old(pb) + (REPLACEMENT + REPLACEMENT);
        return;
      }
      hi', more := ucs, true;
      ucs, stPos := 0, 0;
    }

    /** The UTF-8 form of `ucs`, or the replacement character. */
    method Emit()
      requires Rep()
      modifies `pb
      ensures pb == old(pb) + Emission(ucs)
    {
      hide IsHighSurrogate, IsLowSurrogate;
      if ucs < 0x80 {
        pb := pb + [ucs];
      } else if ucs < 0x800 {
        pb := pb + [0xC0 + ucs / 0x40, 0x80 + ucs % 0x40];
      } else if IsHighSurrogate(ucs) {
        pb := pb + REPLACEMENT;
      } else if IsLowSurrogate(ucs) {
        pb := pb + REPLACEMENT;
      } else if ucs < 0x10000 {
        pb := pb + [0xE0 + ucs / 0x1000, 0x80 + ucs / 0x40 % 0x40, 0x80 + ucs % 0x40];
      } else if ucs < 0x110000 {
        pb := pb + [0xF0 + ucs / 0x40000, 0x80 + ucs / 0x1000 % 0x40, 0x80 + ucs / 0x40 % 0x40, 0x80 + ucs % 0x40];
      } else {
        pb := pb + REPLACEMENT;
      }
    }

    // ------------------------------------------------------------ the main loop

    /** The `switch` on the state, for the states that look at one character. */
    method OnOneChar(input: bytes, obj: Json) returns (sig: Signal, obj': Json)
      requires Rep() && WellFormed(Cfg(), Abs(obj, 0, 0)) && charOffset < |input| && err == Success
      requires !HasLoop(stack[depth].state)
      modifies this, stack
      ensures Took(Step(old(Cfg()), old(Abs(obj, 0, 0)), input, old(charOffset)), sig, obj')
    {
      hide Step, Run;
      obj' := JNull;
      match stack[depth].state
      case Start => sig := OnStart(input);
      case Finish => sig, obj' := OnFinish(input);
      case Inf => sig := OnInf(input);
      case NullLit => sig := OnNull(input);
      case Boolean => sig := OnBoolean(input);
      case CommentStart => sig := OnCommentStart(input);
      case CommentEnd => sig := OnCommentEnd(input);
      case StrEscape => sig := OnStrEscape(input);
      case Array | ArrayAfterSep => sig := OnArray(input);
      case ArrayAdd => sig := OnArrayAdd(input, obj);
      case ArraySep => sig := OnArraySep(input);
      case ObjectFieldStart | ObjectFieldStartAfterSep => sig := OnFieldStart(input);
      case ObjectFieldEnd => sig := OnFieldEnd(input);
      case ObjectValue => sig := OnValue(input);
      case ObjectValueAdd => sig := OnValueAdd(input, obj);
      case ObjectSep => sig := OnObjectSep(input);
    }

    /** The `switch` on the state, for the states that have a loop. */
    method OnManyChars(input: bytes) returns (sig: Signal, c: byte)
      requires Valid() && charOffset < |input| && err == Success && HasLoop(stack[depth].state)
      modifies this, stack
      ensures Handles(input, JNull, JNull, sig, c)
    {
      hide Step, Run;
      var state := stack[depth].state;
      if state == EatWs {
        sig, c := OnEatWs(input);
      } else if state == Comment {
        sig, c := OnComment(input);
      } else if state == CommentEol {
        sig, c := OnCommentEol(input);
      } else if state == Str {
        sig, c := OnStr(input);
      } else if state == ObjectField {
        sig, c := OnField(input);
      } else if state == EscapeUnicode {
        sig, c := OnUnicode(input);
      } else {
        sig, c := OnNumber(input);
      }
    }

    method Switch(input: bytes, obj: Json) returns (sig: Signal, obj': Json, c: byte)
      requires Rep() && WellFormed(Cfg(), Abs(obj, 0, 0)) && charOffset < |input| && err == Success
      modifies this, stack
      ensures Handles(input, obj, obj', sig, c)
    {
      hide Step, Run;
      if HasLoop(stack[depth].state) {
        assert obj == JNull;
        sig, c := OnManyChars(input);
        obj' := JNull;
      } else {
        PassContinues(Cfg(), Abs(obj, 0, 0), input, charOffset);
        c := input[charOffset];
        sig, obj' := OnOneChar(input, obj);
      }
    }

    /**
     `json_tokener_parse_ex`: leaves the tokener, its error, its offset and the value exactly as
     the one-character machine does.
     */
    method ParseEx(input: bytes) returns (value: Json)
      requires Valid()
      modifies this, stack
      ensures var r := TokenerMachine.ParseEx(old(Cfg()), old(Idling()), input);
              Rep() && Cfg() == old(Cfg()) && Idling() == r.tok && err == r.err && charOffset == r.offset &&
                value == r.value
    {
      hide Run, Step, Shape, Rank;
      ghost var g, r := Cfg(), TokenerMachine.ParseEx(Cfg(), Idling(), input);
      var obj, c, sig := JNull, 1, Again;
      charOffset, err := 0, Success;
      assert r == Run(g, Abs(obj, 0, 0), input, 0);
      while true
        invariant Rep() && Cfg() == g && charOffset <= |input| && err == Success
        invariant WellFormed(g, Abs(obj, 0, 0)) && r == Run(g, Abs(obj, 0, 0), input, charOffset)
        invariant charOffset == |input| ==> obj == JNull && c != NUL
        decreases |input| - charOffset, Rank(Abs(obj, 0, 0))
      {
        if charOffset == |input| {
          PeekEnd();
          EndOfChunk(g, Idling(), input, c, err);
          break;
        }
        sig, obj, c := Switch(input, obj);
        if sig == Leave {
          break;
        }
        if sig == Next {
          charOffset := charOffset + 1;
          if c == NUL {
            break;
          }
        } else {
          c := input[charOffset];
        }
      }
      assert r == Out(g, Abs(obj, 0, 0), c, err, charOffset);
      value := AtOut(c, obj);
    }

    /** Resets every level up to the current one. */
    method ClearLevels()
      requires Rep()
      modifies stack
      ensures Rep() && stack[..depth] == Cleared(depth) && stack[depth] == CLEAN
    {
      for ii := depth + 1 downto 0
        modifies stack
        invariant forall k | ii <= k <= depth :: stack[k] == CLEAN
        invariant forall k | depth < k < stack.Length :: stack[k] == old(stack[k])
      {
        ResetLevel(ii);
      }
      AllCleared(stack[..depth]);
    }

    /** A character behind a value in strict mode, or a NUL inside one. */
    method TestAtOut(c: byte)
      requires Rep()
      modifies `err
      ensures Rep() && err == LastError(strict, stack[depth], depth, c, old(err))
    {
      var state, saved := stack[depth].state, stack[depth].saved;
      if c != NUL && state == Finish && depth == 0 && strict {
        err := ErrUnexpected;
      }
      if c == NUL && state != Finish && saved != Finish {
        err := ErrEof;
      }
    }

    /** The code at the label `out`. */
    method AtOut(c: byte, ghost obj: Json) returns (value: Json)
      requires Rep()
      modifies this, stack
      ensures var r := Out(old(Cfg()), old(Abs(obj, 0, 0)), c, old(err), old(charOffset));
              Rep() && Cfg() == old(Cfg()) && Idling() == r.tok && err == r.err && charOffset == r.offset &&
                value == r.value
    {
      hide LastError, Cleared;
      TestAtOut(c);
      value := JNull;
      if err == Success {
        value := stack[depth].current;
        ClearLevels();
      }
    }
  }
}
