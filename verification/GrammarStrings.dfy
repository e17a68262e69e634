/** The string states read every string of the grammar as the bytes that it stands for. */
module GrammarStrings {
  import opened Bytes
  import opened JsonValue
  import opened OrderedMap
  import opened TokenerMachine
  import opened TokenerSteps
  import opened UnicodeEscapes
  import opened GrammarScalars
  import opened Grammar

  /** `t'` is `t` with `s` appended, back in the text and with no surrogate pending. */
  predicate Collected(t: Tok, t': Tok, s: bytes) {
    && t'.below == t.below && t'.top == t.top.(saved := t'.top.saved)
    && t'.pb == t.pb + s && t'.quote == t.quote && t'.obj == JNull && t'.hi == 0
  }

  /** The pieces stand at `i`, and the closing quote behind them, which is none of them. */
  predicate PiecesAt(input: bytes, i: nat, ps: seq<Piece>, q: byte) {
    var j := i + |PiecesText(ps)|;
    At(input, i, PiecesText(ps)) && j < |input| && input[j] == q && q != BACKSLASH && Unquoted(ps, q)
  }

  lemma FirstPieceText(ps: seq<Piece>, q: byte)
    requires ps != [] && Unquoted(ps, q)
    ensures PiecesText(ps) == PieceText(ps[0]) + PiecesText(ps[1..]) && ps[0] != Plain(q) && Unquoted(ps[1..], q)
  {
    hide PieceText;
  }

  lemma FirstPiece(input: bytes, i: nat, ps: seq<Piece>, q: byte)
    requires PiecesAt(input, i, ps, q) && ps != []
    ensures At(input, i, PieceText(ps[0])) && PiecesAt(input, i + |PieceText(ps[0])|, ps[1..], q)
    ensures ps[0] != Plain(q) && q != BACKSLASH
    ensures |PiecesText(ps)| == |PieceText(ps[0])| + |PiecesText(ps[1..])|
  {
    FirstPieceText(ps, q);
    hide At, PieceText, PiecesText, Unquoted;
    AtSplit(input, i, PieceText(ps[0]), PiecesText(ps[1..]));
  }

  /** The two characters at `i` open a `\u` escape if and only if the next piece is one. */
  lemma UnitAhead(input: bytes, i: nat, ps: seq<Piece>, q: byte)
    requires PiecesAt(input, i, ps, q) && PiecesOk(ps) && i > 0
    ensures EscapeFollows(input, i - 1) <==> StartsWithUnit(ps)
  {
    hide PiecesText, Unquoted, IsHex, HexDigit, UnitAt, HexAt;
    if ps == [] {
      NoPieces();
    } else {
      FirstPiece(input, i, ps, q);
      hide PiecesAt;
      var p := PieceText(ps[0]);
      assert input[i] == input[i..i + |p|][0];
      assert |p| > 1 ==> input[i + 1] == input[i..i + |p|][1];
    }
  }

  lemma UnitIs(input: bytes, i: nat, d: bytes)
    requires |d| == 4 && HexAt(d, 0) && At(input, i, d)
    ensures HexAt(input, i) && UnitAt(input, i) == UnitAt(d, 0)
  {
    hide IsHex, HexDigit;
    assert forall k | 0 <= k < 4 :: input[i + k] == input[i..i + 4][k] == d[k];
  }

  lemma PlainRun(g: Config, t: Tok, input: bytes, i: nat, c: byte) returns (t': Tok)
    requires WellFormed(g, t) && InText(t.top.state) && t.quote != c && t.obj == JNull
    requires PieceOk(Plain(c)) && At(input, i, [c])
    ensures Leads(g, t, i, t', i + 1, input) && t' == Append(t, [c])
  {
    assert input[i] == input[i..i + 1][0];
    t' := Append(t, [c]);
    Consume(g, t, input, i, t');
  }

  lemma ShortRun(g: Config, t: Tok, input: bytes, i: nat, c: byte) returns (t': Tok)
    requires WellFormed(g, t) && InText(t.top.state) && t.quote != BACKSLASH && t.obj == JNull
    requires PieceOk(Short(c)) && At(input, i, [BACKSLASH, c])
    ensures Leads(g, t, i, t', i + 2, input)
    ensures t' == Append(t, [Unescape(c).value]).(top := t.top.(saved := t.top.state))
  {
    assert input[i] == input[i..i + 2][0] && input[i + 1] == input[i..i + 2][1];
    var t1 := t.(top := t.top.(saved := t.top.state, state := StrEscape));
    Consume(g, t, input, i, t1);
    t' := Append(t, [Unescape(c).value]).(top := t.top.(saved := t.top.state));
    Consume(g, t1, input, i + 1, t');
  }

  /** What a piece other than a unit stands for. */
  function ByteOf(p: Piece): byte
    requires PieceOk(p) && !p.Unit?
  {
    match p case Plain(c) => c case Short(c) => Unescape(c).value
  }

  lemma ByteRun(g: Config, t: Tok, input: bytes, i: nat, p: Piece) returns (t': Tok)
    requires WellFormed(g, t) && InText(t.top.state) && t.quote != BACKSLASH && t.hi == 0 && t.obj == JNull
    requires PieceOk(p) && !p.Unit? && p != Plain(t.quote) && At(input, i, PieceText(p))
    ensures Leads(g, t, i, t', i + |PieceText(p)|, input) && Collected(t, t', [ByteOf(p)]) && t'.stPos == t.stPos
  {
    hide Run, Step, WellFormed, At;
    match p
    case Plain(c) => t' := PlainRun(g, t, input, i, c);
    case Short(c) => t' := ShortRun(g, t, input, i, c);
  }

  lemma SaidByte(ps: seq<Piece>)
    requires PiecesOk(ps) && ps != [] && !ps[0].Unit?
    ensures Said(0, ps) == [ByteOf(ps[0])] + Said(0, ps[1..]) && HasUnit(ps) == HasUnit(ps[1..])
  {}

  /** From inside the text on. */
  lemma {:induction false} PiecesRun(g: Config, t: Tok, input: bytes, i: nat, ps: seq<Piece>) returns (t': Tok)
    requires WellFormed(g, t) && InText(t.top.state) && t.hi == 0 && t.obj == JNull
    requires PiecesOk(ps) && PiecesAt(input, i, ps, t.quote)
    ensures Leads(g, t, i, t', i + |PiecesText(ps)|, input) && Collected(t, t', Said(0, ps))
    ensures t'.stPos == 0 <==> t.stPos == 0 && !HasUnit(ps)
    decreases |ps|, 1
  {
    hide Run, Step, WellFormed, At, PiecesAt, PiecesText, PieceText, Said, PieceOk, ByteOf;
    if ps == [] {
      t' := t;
      NoPieces();
      AtQuote(input, i, ps, t.quote);
      assert t.pb + [] == t.pb;
    } else {
      FirstPiece(input, i, ps, t.quote);
      if ps[0].Unit? {
        t' := UnitPiece(g, t, input, i, ps);
      } else {
        var t1 := ByteRun(g, t, input, i, ps[0]);
        t' := PiecesRun(g, t1, input, i + |PieceText(ps[0])|, ps[1..]);
        SaidByte(ps);
        assert t.pb + ([ByteOf(ps[0])] + Said(0, ps[1..])) == t.pb + [ByteOf(ps[0])] + Said(0, ps[1..]);
      }
    }
  }

  lemma {:induction false} UnitPiece(g: Config, t: Tok, input: bytes, i: nat, ps: seq<Piece>) returns (t': Tok)
    requires WellFormed(g, t) && InText(t.top.state) && t.hi == 0 && t.obj == JNull
    requires PiecesOk(ps) && PiecesAt(input, i, ps, t.quote) && StartsWithUnit(ps)
    ensures Leads(g, t, i, t', i + |PiecesText(ps)|, input) && Collected(t, t', Said(0, ps)) && t'.stPos != 0
    decreases |ps|, 0, 1
  {
    hide Run, Step, WellFormed, At, PiecesAt, PiecesText, Said;
    FirstPiece(input, i, ps, t.quote);
    AtSplit(input, i, [BACKSLASH, LOWER_U], ps[0].digits);
    EscapeOpens(input, i);
    var t1 := IntoEscape(g, t, input, i);
    t' := UnitsRun(g, t1, input, i + 2, ps);
  }

  lemma NoPieces()
    ensures PiecesText([]) == [] == Said(0, [])
  {}

  lemma EscapeOpens(input: bytes, i: nat)
    requires At(input, i, [BACKSLASH, LOWER_U])
    ensures i + 2 <= |input| && input[i] == BACKSLASH && input[i + 1] == LOWER_U
  {
    assert input[i] == input[i..i + 2][0] && input[i + 1] == input[i..i + 2][1];
  }

  /** `t'` is back in the text that the escape state `t` came from. */
  predicate BackIn(t: Tok, t': Tok, s: bytes) {
    && t'.below == t.below && t'.top == Go(t, t.top.saved).top.(saved := t'.top.saved)
    && t'.pb == t.pb + s && t'.quote == t.quote && t'.obj == JNull && t'.hi == 0
  }

  lemma FirstUnit(hi: nat, ps: seq<Piece>)
    requires PiecesOk(ps) && StartsWithUnit(ps)
    ensures |ps[0].digits| == 4 && HexAt(ps[0].digits, 0) && PiecesOk(ps[1..])
    ensures var (done, v) := Pair(hi, UnitValue(ps[0].digits));
      Said(hi, ps) ==
        if Waits(v, StartsWithUnit(ps[1..])) then done + Said(v, ps[1..]) else done + Emission(v) + Said(0, ps[1..])
  {
    hide IsHex, HexDigit, Emission, Pair, Waits;
  }

  /** From the digits of a unit on, with a high surrogate pending or not. */
  lemma {:induction false} UnitsRun(g: Config, t: Tok, input: bytes, i: nat, ps: seq<Piece>) returns (t': Tok)
    requires WellFormed(g, t) && t.top.state == EscapeUnicode && t.obj == JNull && t.ucs == 0 &&
      t.stPos == 0
    requires PiecesOk(ps) && StartsWithUnit(ps) && At(input, i, ps[0].digits)
    requires PiecesAt(input, i + 4, ps[1..], t.quote)
    ensures Leads(g, t, i, t', i + 4 + |PiecesText(ps[1..])|, input) && BackIn(t, t', Said(t.hi, ps)) && t'.stPos != 0
    decreases |ps|, 0, 0
  {
    hide Run, Step, WellFormed, At, PiecesAt, PiecesText, EscapeFollows, Emission, IsHex, HexDigit, HexAt, UnitAt, Pair,
      Unquoted, PiecesOk, PieceOk, Said;
    FirstUnit(t.hi, ps);
    var d, rest := ps[0].digits, ps[1..];
    var u := UnitValue(d);
    UnitIs(input, i, d);
    HexAtLast(input, i);
    SavedIsText(g, t);
    UnitAhead(input, i + 4, rest, t.quote);
    var t1 := ThreeDigits(g, t, input, i);
    NotAtEnd(input, i + 3, rest, t.quote);
    var t2 := UnitDone(g, t1, input, i + 3, u);
    var (done, v) := Pair(t.hi, u);
    if Waits(v, StartsWithUnit(rest)) {
      FirstUnit(v, rest);
      FirstPiece(input, i + 4, rest, t.quote);
      AtSplit(input, i + 4, [BACKSLASH, LOWER_U], rest[0].digits);
      t' := UnitsRun(g, t2, input, i + 6, rest);
      assert t.pb + (done + Said(v, rest)) == t.pb + done + Said(v, rest);
    } else {
      t' := PiecesRun(g, t2, input, i + 4, rest);
      assert t.pb + (done + Emission(v) + Said(0, rest)) == t.pb + (done + Emission(v)) + Said(0, rest);
    }
  }

  /** A further escape has digits. */
  lemma NotAtEnd(input: bytes, i: nat, ps: seq<Piece>, q: byte)
    requires PiecesAt(input, i + 1, ps, q) && PiecesOk(ps)
    ensures StartsWithUnit(ps) ==> i + 3 != |input|
  {
    if StartsWithUnit(ps) { FirstPiece(input, i + 1, ps, q); }
  }

  lemma OpenString(g: Config, t: Tok, input: bytes, i: nat) returns (t': Tok)
    requires WellFormed(g, t) && t.top == CLEAN && t.obj == JNull && i < |input|
    requires input[i] == DQUOTE || (input[i] == SQUOTE && !g.strict)
    ensures Leads(g, t, i, t', i + 1, input) && t' == Go(t, Str).(pb := [], quote := input[i])
  {
    var t1 := Go(t, Start);
    Restart(g, t, input, i, t1);
    t' := Go(t1, Str).(pb := [], quote := input[i]);
    Consume(g, t1, input, i, t');
  }

  lemma CloseString(g: Config, t: Tok, input: bytes, i: nat) returns (t': Tok)
    requires WellFormed(g, t) && t.top.state == Str && t.quote != NUL && t.obj == JNull
    requires i < |input| && input[i] == t.quote
    ensures Leads(g, t, i, t', i + 1, input) && t' == Accept(t, JString(t.pb))
  {
    t' := Accept(t, JString(t.pb));
    Consume(g, t, input, i, t');
  }

  lemma QuotedAt(input: bytes, i: nat, ps: seq<Piece>)
    requires At(input, i, Quoted(ps)) && Unquoted(ps, DQUOTE)
    ensures i < |input| && input[i] == DQUOTE && PiecesAt(input, i + 1, ps, DQUOTE)
    ensures |Quoted(ps)| == |PiecesText(ps)| + 2
  {
    hide At, PiecesText;
    var p := PiecesText(ps);
    AtSplit(input, i, [DQUOTE] + p, [DQUOTE]);
    AtSplit(input, i, [DQUOTE], p);
    AtHead(input, i, [DQUOTE]);
    AtHead(input, i + 1 + |p|, [DQUOTE]);
  }

  /** A quoted string as a value. */
  lemma ParseText(g: Config, t: Tok, input: bytes, i: nat, ps: seq<Piece>) returns (t': Tok)
    requires WellFormed(g, t) && t.top == CLEAN && Idle(t) && StringOk(ps) && At(input, i, Quoted(ps))
    ensures Leads(g, t, i, t', i + |Quoted(ps)|, input) && t'.below == t.below && t'.obj == JNull
    ensures t'.top == Level(EatWs, Finish, JString(Said(0, ps)), None)
    ensures t'.stPos == 0 <==> t.stPos == 0 && !HasUnit(ps)
  {
    hide Run, Step, WellFormed, At, PiecesText, PiecesAt, Quoted;
    QuotedAt(input, i, ps);
    var t1 := OpenString(g, t, input, i);
    var t2 := PiecesRun(g, t1, input, i + 1, ps);
    assert [] + Said(0, ps) == Said(0, ps);
    AtQuote(input, i + 1, ps, DQUOTE);
    t' := CloseString(g, t2, input, i + 1 + |PiecesText(ps)|);
  }

  lemma AtQuote(input: bytes, i: nat, ps: seq<Piece>, q: byte)
    requires PiecesAt(input, i, ps, q)
    ensures i + |PiecesText(ps)| < |input| && input[i + |PiecesText(ps)|] == q
  {}
}
