/** Where the tokener does not do what one would expect, and exactly when it does. */
module TokenerLimits {
  import opened Bytes
  import opened JsonValue
  import opened OrderedMap
  import opened Utf8
  import opened TokenerMachine
  import opened TokenerInvariant
  import opened TokenerSteps
  import opened Grammar
  import opened GrammarScalars
  import opened GrammarTexts

  // ---------------------------------------------------------------- success inside an open container

  /** Inside a comment that stands behind a complete value of an open container. */
  predicate InCommentBehindValue(t: Tok) {
    (t.top.state == Comment || t.top.state == CommentEol || t.top.state == CommentEnd) && t.top.saved == Finish &&
      t.below != []
  }

  /** Without a comment open, a NUL never ends a call successfully inside a container. */
  lemma NulAtNonComment(g: Config, t: Tok, input: bytes, i: nat)
    requires WellFormed(g, t) && i + 1 == |input| && input[i] == NUL && !Commenting(t)
    ensures Run(g, t, input, i).err == Success ==> Run(g, t, input, i).tok.below == []
  {
    assert SLASH != NUL;
    SuccessFromHere(g, t, input, i);
  }

  lemma {:induction false} SuccessFromHere(g: Config, t: Tok, input: bytes, i: nat)
    requires WellFormed(g, t) && i < |input| && input[i] == NUL && !Commenting(t)
    ensures Run(g, t, input, i).err == Success ==> Run(g, t, input, i).tok.below == []
    decreases Rank(t)
  {
    hide Step, Shape, Rank;
    StepKeeps(g, t, input, i);
    StepStaysOut(g, t, input, i);
    match Step(g, t, input, i)
    case Redo(t') => SuccessFromHere(g, t', input, i);
    case Advance(t', n) =>
    case Halt(t', e, n) =>
  }

  lemma NulAtComment(g: Config, t: Tok, input: bytes, i: nat)
    requires WellFormed(g, t) && i < |input| && input[i] == NUL && Commenting(t)
    ensures Run(g, t, input, i).err == Success && Run(g, t, input, i).tok.below != [] <==> InCommentBehindValue(t)
  {
    StepKeeps(g, t, input, i);
    CommentingIsQuiet(g, t);
    hide Step, Shape, Rank, Cleared;
    StepAtComment(g, t, input, i);
  }

  lemma CommentingIsQuiet(g: Config, t: Tok)
    requires WellFormed(g, t) && Commenting(t)
    ensures t.hi == 0
  {}

  lemma HaltSuccess(g: Config, t: Tok, input: bytes, i: nat)
    requires WellFormed(g, t) && i < |input| && input[i] != NUL
    ensures var o := Step(g, t, input, i); o.Halt? && o.err == Success ==> o.t.below == []
  {
    hide AddDigit, Emission, CString, Matches, IsHighSurrogate, IsLowSurrogate, DecodePair;
    if t.top.state == Finish {} else if t.top.state == EscapeUnicode {} else {}
  }

  /**
   A pass on the text sees the NUL behind it only when it looks for a second escape, and then a high surrogate is
   pending.
   */
  lemma NulBehindText(g: Config, t: Tok, text: bytes, i: nat)
    requires WellFormed(g, t) && i < |text| && NUL !in text
    ensures var o, o' := Step(g, t, text, i), Step(g, t, text + [NUL], i);
      o' == o || (o.Halt? && o.t.top.state == EscapeUnicode && o'.Advance? && i + o'.n == |text| && o'.t.hi != 0)
  {
    var input := text + [NUL];
    assert input[i] == text[i] && text[i] in text;
    if t.top.state == EscapeUnicode {
      assert i + 1 < |text| ==> input[i + 1] == text[i + 1];
      assert i + 2 < |text| ==> input[i + 2] == text[i + 2];
      hide AddDigit, Emission, IsHighSurrogate, IsLowSurrogate, DecodePair, IsHex;
      assert EscapeFollows(input, i) == EscapeFollows(text, i);
    }
  }

  /** Both runs from the same machine: with the NUL behind the text, and without it. */
  lemma {:induction false} OpenSuccessFrom(g: Config, t: Tok, text: bytes, i: nat)
    requires WellFormed(g, t) && i <= |text| && NUL !in text && (i == |text| ==> t.obj == JNull)
    ensures var r, r' := Run(g, t, text + [NUL], i), Run(g, t, text, i);
      r.err == Success && r.tok.below != [] <==> r'.err == Continue && InCommentBehindValue(r'.tok)
    decreases |text| - i, Rank(t)
  {
    hide Step, Shape, Rank, Out, InCommentBehindValue, AtEnd;
    var input := text + [NUL];
    if i == |text| {
      NulAndEnd(g, t, input, i);
    } else {
      assert text[i] in text && input[i] == text[i];
      NulBehindText(g, t, text, i);
      StepKeeps(g, t, text, i);
      StepKeeps(g, t, input, i);
      var o := Step(g, t, text, i);
      if Step(g, t, input, i) == o {
        match o
        case Redo(t') => OpenSuccessFrom(g, t', text, i);
        case Advance(t', n) => OpenSuccessFrom(g, t', text, i + n);
        case Halt(t', e, n) =>
          HaltSuccess(g, t, text, i);
          HaltsInside(g, t', text[i], e, i + n);
      } else {
        var t' := Step(g, t, input, i).t;
        PendingAtNul(g, t', input, |text|);
        NoCommentInEscape(g, o.t, text[i], o.err, i + o.n);
      }
    }
  }

  lemma NulAndEnd(g: Config, t: Tok, input: bytes, i: nat)
    requires WellFormed(g, t) && i + 1 == |input| && input[i] == NUL && t.obj == JNull
    ensures Run(g, t, input, i).err == Success && Run(g, t, input, i).tok.below != [] <==>
      AtEnd(g, t, i).err == Continue && InCommentBehindValue(AtEnd(g, t, i).tok)
  {
    hide Step, Run, Shape;
    CutState(g, t, i);
    if Commenting(t) { NulAtComment(g, t, input, i); } else { NulAtNonComment(g, t, input, i); }
  }

  lemma HaltsInside(g: Config, t: Tok, c: byte, e: Error, offset: nat)
    requires c != NUL && e != Continue && (e == Success ==> t.below == [])
    ensures var r := Out(g, t, c, e, offset); r.err != Continue && (r.err == Success ==> r.tok.below == [])
  {}

  lemma NoCommentInEscape(g: Config, t: Tok, c: byte, e: Error, offset: nat)
    requires t.top.state == EscapeUnicode
    ensures var r := Out(g, t, c, e, offset); r.err == Continue ==> !InCommentBehindValue(r.tok)
  {}

  lemma PendingAtNul(g: Config, t: Tok, input: bytes, i: nat)
    requires WellFormed(g, t) && t.hi != 0 && i + 1 == |input| && input[i] == NUL
    ensures Run(g, t, input, i).err == Success ==> Run(g, t, input, i).tok.below == []
  {
    hide Run, Step;
    NulAtNonComment(g, t, input, i);
  }

  /**
   A value is returned from inside an open container exactly when the text in front of the NUL leaves the tokener in a
   comment behind a complete value of that container.
   */
  lemma OpenSuccessExactlyWhen(g: Config, t: Tok, text: bytes)
    requires WellFormed(g, t) && Idle(t) && NUL !in text
    ensures var r := ParseEx(g, t, text + [NUL]);
      r.err == Success && r.tok.below != [] <==>
        ParseEx(g, t, text).err == Continue && InCommentBehindValue(ParseEx(g, t, text).tok)
  {
    OpenSuccessFrom(g, t, text, 0);
  }

  /** The end of a chunk does not disturb a comment. */
  lemma CutState(g: Config, t: Tok, offset: nat)
    requires WellFormed(g, t) && t.obj == JNull
    ensures var r := AtEnd(g, t, offset);
      InCommentBehindValue(t) <==> r.err == Continue && InCommentBehindValue(r.tok)
  {}

  /** `["" /` `*` NUL */
  const OPEN_TEXT: bytes := [LBRACKET, DQUOTE, DQUOTE, SLASH, STAR, NUL]

  /** It is such a text: outside strict mode it is accepted, and the inner string is returned. */
  lemma UnterminatedCommentIsAccepted(g: Config)
    requires !g.strict && g.maxDepth >= 2
    ensures WellFormed(g, NEW)
    ensures var r := ParseEx(g, NEW, OPEN_TEXT);
      r.err == Success && r.value == JString([]) && |r.tok.below| == 1
  {
    var s := OPEN_TEXT;
    var t0 := Go(NEW, Start);
    Restart(g, NEW, s, 0, t0);
    var t1 := t0.(top := Level(EatWs, Array, JArray([]), None));
    Consume(g, t0, s, 0, t1);
    var t2 := Go(t1, Array);
    Restart(g, t1, s, 1, t2);
    var t3 := Push(t2, ArrayAdd);
    Restart(g, t2, s, 1, t3);
    var t4 := Go(t3, Start);
    Restart(g, t3, s, 1, t4);
    var t5 := Go(t4, Str).(pb := [], quote := DQUOTE);
    Consume(g, t4, s, 1, t5);
    var t6 := Accept(t5, JString([]));
    Consume(g, t5, s, 2, t6);
    var t7 := Go(t6, CommentStart).(pb := [SLASH]);
    Consume(g, t6, s, 3, t7);
    var t8 := Append(Go(t7, Comment), [STAR]);
    Consume(g, t7, s, 4, t8);
    EndsInComment(g, t8, s, 5);
  }

  lemma EndsInComment(g: Config, t: Tok, input: bytes, i: nat)
    requires WellFormed(g, t) && i < |input| && input[i] == NUL && t.top.state == Comment && t.top.saved == Finish &&
      t.below != [] && t.hi == 0
    ensures var r := Run(g, t, input, i); r.err == Success && r.value == t.top.current && |r.tok.below| == |t.below|
  {
    StepKeeps(g, t, input, i);
  }

  // ---------------------------------------------------------------- negative infinity

  /** `-` and `Infinity` NUL in two calls: no number. */
  lemma CutInfinityIsNoNumber(g: Config)
    requires g.maxDepth > 0
    ensures WellFormed(g, NEW)
    ensures var first := ParseEx(g, NEW, [MINUS]);
      && first.err == Continue && WellFormed(g, first.tok) && Idle(first.tok)
      && ParseEx(g, first.tok, INF_TEXT + [NUL]).err == ErrNumber
      && ParseEx(g, NEW, [MINUS] + (INF_TEXT + [NUL])).err == Success
      && ParseEx(g, NEW, [MINUS] + (INF_TEXT + [NUL])).value == JDouble([MINUS] + INF_TEXT)
  {
    SignedInfinity(g);
    hide Run, Step, WellFormed;
    var t1 := OpenNumeral(g, NEW, [MINUS], 0);
    NumberChar(g, t1, [MINUS], 0);
    var t2 := WithNumberChars(t1, [MINUS]);
    assert t2.pb == [MINUS] && !t2.isDouble by { assert MarksDouble([MINUS]) == false; }
    LoneMinus(g, t2);
  }

  lemma LoneMinus(g: Config, t: Tok)
    requires WellFormed(g, t) && t.top.state == Number && t.pb == [MINUS] && !t.isDouble && t.obj == JNull &&
      t.below == []
    ensures var first := Run(g, t, [MINUS], 1);
      && first.err == Continue && WellFormed(g, first.tok) && Idle(first.tok)
      && ParseEx(g, first.tok, INF_TEXT + [NUL]).err == ErrNumber
  {
    assert [MINUS][1..] == [];
    assert Numbers.ParseInt64([MINUS]).None?;
    assert (INF_TEXT + [NUL])[0] == UPPER_I;
  }

  lemma SignedInfinity(g: Config)
    requires g.maxDepth > 0
    ensures WellFormed(g, NEW)
    ensures ParseEx(g, NEW, [MINUS] + (INF_TEXT + [NUL])).err == Success
    ensures ParseEx(g, NEW, [MINUS] + (INF_TEXT + [NUL])).value == JDouble([MINUS] + INF_TEXT)
  {
    var input := [MINUS] + (INF_TEXT + [NUL]);
    assert WellFormed(g, NEW) by { hide Run, Step, Shape; }
    assert input == NEG_INF_TEXT + [NUL] && input[|NEG_INF_TEXT|] == NUL && input[0..|NEG_INF_TEXT|] == NEG_INF_TEXT;
    hide Run, Step, WellFormed;
    var t := ParseNegativeInfinity(g, NEW, input, 0);
    EndsAtNul(g, t, input, |NEG_INF_TEXT|);
  }
}
