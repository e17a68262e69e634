/** The tokener reads strings as the reference does, and finds the same errors in them. */
module ReferenceStrings {
  import opened Bytes
  import opened JsonValue
  import opened Utf8
  import opened TokenerMachine
  import opened TokenerSteps
  import opened UnicodeEscapes
  import opened Grammar
  import opened GrammarScalars
  import opened GrammarStrings
  import opened Reference
  import opened ReferenceSkips

  predicate IsQuote(q: byte) {
    q == DQUOTE || q == SQUOTE
  }

  // ---------------------------------------------------------------- strings that are closed

  lemma AtJoin(input: bytes, i: nat, p: bytes, r: bytes)
    requires At(input, i, p) && At(input, i + |p|, r)
    ensures At(input, i, p + r)
  {
    assert input[i..i + |p + r|] == input[i..i + |p|] + input[i + |p|..i + |p| + |r|];
  }

  lemma OnePiece(s: bytes, i: nat, p: Piece, rest: Lexed, q: byte)
    requires PieceOk(p) && rest.Closed? && PiecesOk(rest.ps) && IsQuote(q) && p != Plain(q)
    requires At(Input(s), i, PieceText(p)) && PiecesAt(Input(s), i + |PieceText(p)|, rest.ps, q)
    ensures PiecesAt(Input(s), i, Before(p, rest).ps, q)
    ensures |PiecesText(Before(p, rest).ps)| == |PieceText(p)| + |PiecesText(rest.ps)|
  {
    hide At, PieceText;
    var ps := Before(p, rest).ps;
    assert ps[1..] == rest.ps;
    AtJoin(Input(s), i, PieceText(p), PiecesText(rest.ps));
  }

  lemma PieceHere(s: bytes, i: nat)
    requires i < |s|
    ensures At(Input(s), i, PieceText(Plain(s[i]))) && |PieceText(Plain(s[i]))| == 1
    ensures i + 2 <= |s| && s[i] == 0x5C ==>
      At(Input(s), i, PieceText(Short(s[i + 1]))) && |PieceText(Short(s[i + 1]))| == 2
    ensures i + 6 <= |s| && s[i] == 0x5C && s[i + 1] == 0x75 ==>
      At(Input(s), i, PieceText(Unit(s[i + 2..i + 6]))) && |PieceText(Unit(s[i + 2..i + 6]))| == 6
  {
    assert Input(s)[i..i + 1] == [s[i]];
    if i + 2 <= |s| && s[i] == 0x5C {
      assert Input(s)[i..i + 2] == [BACKSLASH, s[i + 1]];
    }
    if i + 6 <= |s| && s[i] == 0x5C && s[i + 1] == 0x75 {
      assert Input(s)[i..i + 6] == [BACKSLASH, LOWER_U] + s[i + 2..i + 6];
    }
  }

  /** The pieces of a closed string stand in the text, and the quote behind them. */
  lemma {:induction false} LexIs(s: bytes, i: nat, q: byte)
    requires i <= |s| && NUL !in s && IsQuote(q) && Lex(s, i, q).Closed?
    ensures var r := Lex(s, i, q); PiecesAt(Input(s), i, r.ps, q) && r.end == i + |PiecesText(r.ps)| + 1
    decreases |s| - i
  {
    hide PiecesAt, PiecesOk, PiecesText, PieceText, At, HexEnd, Before;
    if s[i] == q {
      NoPiecesAt(s, i, q);
    } else {
      PieceHere(s, i);
      if s[i] != 0x5C {
        LexIs(s, i + 1, q);
        OnePiece(s, i, Plain(s[i]), Lex(s, i + 1, q), q);
      } else if s[i + 1] in SHORT_ESCAPES {
        LexIs(s, i + 2, q);
        OnePiece(s, i, Short(s[i + 1]), Lex(s, i + 2, q), q);
      } else {
        LexIs(s, i + 6, q);
        OnePiece(s, i, Unit(s[i + 2..i + 6]), Lex(s, i + 6, q), q);
      }
    }
  }

  lemma NoPiecesAt(s: bytes, i: nat, q: byte)
    requires i < |s| && s[i] == q && IsQuote(q)
    ensures PiecesAt(Input(s), i, [], q) && PiecesText([]) == []
  {
    assert Input(s)[i..i] == [];
  }

  // ---------------------------------------------------------------- strings that are not

  /** The call ends in the string. */
  function Broke(r: Lexed): Answer
    requires r.Broken?
  {
    Stopped(r.err, JNull, r.at)
  }

  /** What the string states look like. */
  predicate InString(g: Config, t: Tok, s: bytes, i: nat, q: byte) {
    && WellFormed(g, t) && InText(t.top.state) && t.quote == q && IsQuote(q) && t.hi == 0 && t.obj == JNull
    && i <= |s| && NUL !in s
  }

  lemma EndsBefore(g: Config, t: Tok, i: nat, u: Tok, j: nat, s: bytes, a: Answer)
    requires a.Stopped? && i <= |s| && j <= |s| && Leads(g, t, i, u, j, Input(s)) && Ends(g, u, s, j, a)
    ensures Ends(g, t, s, i, a)
  {
    hide Run, WellFormed;
  }

  /** The text ends inside the string. */
  lemma TextEnds(g: Config, t: Tok, s: bytes, q: byte)
    requires InString(g, t, s, |s|, q)
    ensures Ends(g, t, s, |s|, Stopped(ErrEof, JNull, |s| + 1))
  {
    hide Run, Step, CString;
    InputAt(s, |s|);
    StepAtText(g, t, Input(s), |s|);
    TextIsInside(g, t);
    EndsAtNulInside(g, t, s, Append(t, [NUL]));
  }

  lemma TextIsInside(g: Config, t: Tok)
    requires WellFormed(g, t) && InText(t.top.state)
    ensures t.top.saved != Finish && Inside(t.top)
  {}

  lemma PlainPass(g: Config, t: Tok, s: bytes, i: nat, q: byte)
    requires InString(g, t, s, i, q) && i < |s| && s[i] != q && s[i] != 0x5C
    ensures Leads(g, t, i, Append(t, [s[i]]), i + 1, Input(s)) && InString(g, Append(t, [s[i]]), s, i + 1, q)
  {
    hide Run, Step, CString;
    InputAt(s, i);
    StepAtText(g, t, Input(s), i);
    hide WellFormed;
    Consume(g, t, Input(s), i, Append(t, [s[i]]));
  }

  /** The state behind the backslash. */
  function Escaping(t: Tok): Tok {
    t.(top := t.top.(saved := t.top.state, state := StrEscape))
  }

  lemma BackslashPass(g: Config, t: Tok, s: bytes, i: nat, q: byte)
    requires InString(g, t, s, i, q) && i < |s| && s[i] == 0x5C
    ensures Leads(g, t, i, Escaping(t), i + 1, Input(s))
  {
    hide Run, Step, CString;
    InputAt(s, i);
    StepAtText(g, t, Input(s), i);
    hide WellFormed;
    Consume(g, t, Input(s), i, Escaping(t));
  }

  /** No escape starts with this character. */
  lemma BadEscape(g: Config, t: Tok, s: bytes, i: nat, q: byte)
    requires WellFormed(g, t) && t.top.state == StrEscape && i <= |s| && NUL !in s
    requires CharAt(s, i) !in SHORT_ESCAPES && CharAt(s, i) != 0x75
    ensures Ends(g, t, s, i, Fail(s, ErrString, i))
  {
    hide Run, Step;
    InputAt(s, i);
    StepAtText(g, t, Input(s), i);
    ShortIs(CharAt(s, i));
    HaltsHere(g, t, s, i, t, ErrString);
  }

  lemma ShortIs(c: byte)
    ensures c in SHORT_ESCAPES <==> Unescape(c).Some?
  {
    assert SHORT_ESCAPES == [34, 92, 47, 98, 110, 114, 116, 102];
  }

  lemma ShortPass(g: Config, t: Tok, s: bytes, i: nat, q: byte) returns (t': Tok)
    requires InString(g, t, s, i, q) && WellFormed(g, Escaping(t)) && i < |s| && s[i] in SHORT_ESCAPES
    ensures Leads(g, Escaping(t), i, t', i + 1, Input(s)) && InString(g, t', s, i + 1, q)
  {
    hide Run, Step;
    InputAt(s, i);
    ShortIs(s[i]);
    StepAtText(g, Escaping(t), Input(s), i);
    t' := Append(Go(Escaping(t), t.top.state), [Unescape(s[i]).value]);
    hide WellFormed;
    Consume(g, Escaping(t), Input(s), i, t');
  }

  lemma UnitOpens(g: Config, t: Tok, s: bytes, i: nat, q: byte) returns (t': Tok)
    requires InString(g, t, s, i, q) && WellFormed(g, Escaping(t)) && i < |s| && s[i] == 0x75
    ensures Leads(g, Escaping(t), i, t', i + 1, Input(s)) && InDigits(g, t', s, i + 1, q)
  {
    hide Run, Step;
    InputAt(s, i);
    StepAtText(g, Escaping(t), Input(s), i);
    t' := Go(Escaping(t), EscapeUnicode).(ucs := 0, stPos := 0);
    hide WellFormed;
    Consume(g, Escaping(t), Input(s), i, t');
  }

  /** In front of the first digit of a `\u` escape, with a surrogate pending or not. */
  predicate InDigits(g: Config, t: Tok, s: bytes, i: nat, q: byte) {
    && WellFormed(g, t) && t.top.state == EscapeUnicode && t.quote == q && IsQuote(q) && t.ucs == 0 && t.stPos == 0
    && t.obj == JNull && i <= |s| && NUL !in s
  }

  /** What the reference says from the digits of an escape on. */
  function LexDigits(s: bytes, i: nat, q: byte): Lexed
    requires i <= |s| && NUL !in s
  {
    var j := HexEnd(s, i, 4);
    if j == i + 4 then Lex(s, j, q)
    else if j == |s| then Broken(ErrEof, |s| + 1)
    else Broken(ErrString, j)
  }

  lemma {:induction false} TextBreaks(g: Config, t: Tok, s: bytes, i: nat, q: byte)
    requires InString(g, t, s, i, q) && Lex(s, i, q).Broken?
    ensures Ends(g, t, s, i, Broke(Lex(s, i, q)))
    decreases |s| - i, 1
  {
    hide Run, Step, WellFormed, Ends, HexEnd;
    if i == |s| {
      TextEnds(g, t, s, q);
    } else if s[i] != 0x5C {
      PlainPass(g, t, s, i, q);
      TextBreaks(g, Append(t, [s[i]]), s, i + 1, q);
      EndsBefore(g, t, i, Append(t, [s[i]]), i + 1, s, Broke(Lex(s, i, q)));
    } else {
      BackslashPass(g, t, s, i, q);
      EscapeBreaks(g, t, s, i + 1, q);
      EndsBefore(g, t, i, Escaping(t), i + 1, s, Broke(Lex(s, i, q)));
    }
  }

  /** Behind the backslash. */
  lemma {:induction false} EscapeBreaks(g: Config, t: Tok, s: bytes, i: nat, q: byte)
    requires InString(g, t, s, i, q) && WellFormed(g, Escaping(t)) && i > 0 && s[i - 1] == 0x5C
    requires Lex(s, i - 1, q).Broken?
    ensures Ends(g, Escaping(t), s, i, Broke(Lex(s, i - 1, q)))
    decreases |s| - i, 2
  {
    hide Run, Step, WellFormed, Ends, HexEnd;
    if i == |s| || (s[i] !in SHORT_ESCAPES && s[i] != 0x75) {
      assert CharAt(s, i) !in SHORT_ESCAPES by { ShortIs(CharAt(s, i)); }
      BadEscape(g, Escaping(t), s, i, q);
    } else if s[i] in SHORT_ESCAPES {
      var t' := ShortPass(g, t, s, i, q);
      TextBreaks(g, t', s, i + 1, q);
      EndsBefore(g, Escaping(t), i, t', i + 1, s, Broke(Lex(s, i + 1, q)));
    } else {
      var t' := UnitOpens(g, t, s, i, q);
      DigitsBreak(g, t', s, i + 1, q);
      EndsBefore(g, Escaping(t), i, t', i + 1, s, Broke(LexDigits(s, i + 1, q)));
    }
  }

  // ---------------------------------------------------------------- digits

  /** The first `n` digits have been read. */
  predicate SomeDigits(t: Tok, t': Tok, n: nat) {
    t' == t.(ucs := t'.ucs, stPos := n)
  }

  lemma {:induction false} DigitsRead(g: Config, t: Tok, s: bytes, i: nat, q: byte, n: nat) returns (t': Tok)
    requires InDigits(g, t, s, i, q) && n <= 3 && i + n <= |s| && forall k | i <= k < i + n :: IsHex(s[k])
    ensures Leads(g, t, i, t', i + n, Input(s)) && SomeDigits(t, t', n)
    decreases n
  {
    hide Run, AddDigit, IsHex;
    if n == 0 {
      t' := t;
    } else {
      var t1 := DigitsRead(g, t, s, i, q, n - 1);
      InputAt(s, i + n - 1);
      HexBounds(s[i + n - 1]);
      t' := t1.(ucs := AddDigit(t1.ucs, s[i + n - 1], n - 1), stPos := n);
      Consume(g, t1, Input(s), i + n - 1, t');
    }
  }

  /** A character that is no digit. */
  lemma BadDigit(g: Config, t: Tok, s: bytes, i: nat)
    requires WellFormed(g, t) && t.top.state == EscapeUnicode && i < |s| && NUL !in s && !IsHex(s[i])
    ensures Ends(g, t, s, i, Stopped(ErrString, JNull, i))
  {
    hide Run;
    InputAt(s, i);
    assert Step(g, t, Input(s), i) == Halt(t, ErrString, 0);
    hide Step;
    HaltsHere(g, t, s, i, t, ErrString);
  }

  /** The terminator passes for a digit, and the call ends behind it. */
  lemma DigitsEnd(g: Config, t: Tok, s: bytes)
    requires WellFormed(g, t) && t.top.state == EscapeUnicode && NUL !in s
    ensures Ends(g, t, s, |s|, Stopped(ErrEof, JNull, |s| + 1))
  {
    hide Run, Emission, AddDigit, IsHighSurrogate, IsLowSurrogate, DecodePair;
    InputAt(s, |s|);
    DigitStep(g, t, s);
    var o := Step(g, t, Input(s), |s|);
    hide Step;
    EndsAtNulInside(g, t, s, o.t);
  }

  lemma DigitStep(g: Config, t: Tok, s: bytes)
    requires WellFormed(g, t) && t.top.state == EscapeUnicode
    ensures var o := Step(g, t, Input(s), |s|);
      o.Advance? && o.n == 1 && o.t.top.state != Finish && o.t.top.saved != Finish
  {
    hide Emission, AddDigit, IsHighSurrogate, IsLowSurrogate, DecodePair;
    InputAt(s, |s|);
    assert !EscapeFollows(Input(s), |s|);
  }

  lemma {:induction false} DigitsBreak(g: Config, t: Tok, s: bytes, i: nat, q: byte)
    requires InDigits(g, t, s, i, q) && LexDigits(s, i, q).Broken?
    ensures Ends(g, t, s, i, Broke(LexDigits(s, i, q)))
    decreases |s| - i, 0
  {
    hide Run, Step, WellFormed, Ends, IsHex;
    var j := HexEnd(s, i, 4);
    HexStops(s, i, 4);
    if j == i + 4 {
      UnitBreaks(g, t, s, i, q);
    } else {
      var t1 := DigitsRead(g, t, s, i, q, j - i);
      if j == |s| {
        DigitsEnd(g, t1, s);
      } else {
        BadDigit(g, t1, s, j);
      }
      EndsBefore(g, t, i, t1, j, s, Broke(LexDigits(s, i, q)));
    }
  }

  lemma {:induction false} HexStops(s: bytes, i: nat, n: nat)
    requires i <= |s|
    ensures var j := HexEnd(s, i, n); j < |s| && j < i + n ==> !IsHex(s[j])
    decreases n
  {
    if i < |s| {
      HexDigitIs(s[i]);
      if n > 0 && IsHex(s[i]) { HexStops(s, i + 1, n - 1); }
    }
  }

  /** A whole unit, and an error behind it. */
  lemma {:induction false} UnitBreaks(g: Config, t: Tok, s: bytes, i: nat, q: byte)
    requires InDigits(g, t, s, i, q) && HexEnd(s, i, 4) == i + 4 && Lex(s, i + 4, q).Broken?
    ensures Ends(g, t, s, i, Broke(Lex(s, i + 4, q)))
    decreases |s| - i, 0, 0
  {
    hide Run, Step, WellFormed, Ends, IsHex, HexDigit, Emission, Pair, LexDigits, HexEnd, EscapeFollows,
      IsHighSurrogate;
    var a := Broke(Lex(s, i + 4, q));
    FourDigits(s, i);
    var t1 := ThreeDigits(g, t, Input(s), i);
    var u := UnitAt(Input(s), i);
    EscapeAhead(s, i, q);
    var t2 := UnitDone(g, t1, Input(s), i + 3, u);
    UnitSaved(g, t);
    if Waits(Pair(t.hi, u).1, EscapeFollows(Input(s), i + 3)) {
      DigitsBreak(g, t2, s, i + 6, q);
      EndsBefore(g, t, i, t2, i + 6, s, a);
    } else {
      TextBreaks(g, t2, s, i + 4, q);
      EndsBefore(g, t, i, t2, i + 4, s, a);
    }
  }

  lemma FourDigits(s: bytes, i: nat)
    requires i <= |s| && HexEnd(s, i, 4) == i + 4
    ensures i + 4 <= |s| && HexAt(Input(s), i) && IsHex(Input(s)[i + 3])
  {
    assert forall k | i <= k < i + 4 :: Input(s)[k] == s[k];
  }

  lemma UnitSaved(g: Config, t: Tok)
    requires WellFormed(g, t) && t.top.state == EscapeUnicode
    ensures InText(t.top.saved)
  {}

  /** The look-ahead sees a further escape exactly when the reference does. */
  lemma EscapeAhead(s: bytes, i: nat, q: byte)
    requires i + 4 <= |s| && IsQuote(q) && NUL !in s
    ensures EscapeFollows(Input(s), i + 3) ==>
      i + 6 <= |s| && i + 6 != |Input(s)| &&
      (Lex(s, i + 4, q).Broken? ==> LexDigits(s, i + 6, q) == Lex(s, i + 4, q))
  {
    if EscapeFollows(Input(s), i + 3) {
      InputAt(s, i + 4);
      InputAt(s, i + 5);
    }
  }
}
