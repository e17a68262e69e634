/** The number and literal states read every numeral and word of the grammar, -Infinity where the position allows it. */
module GrammarScalars {
  import opened Bytes
  import opened JsonValue
  import opened Numbers
  import opened OrderedMap
  import opened TokenerMachine
  import opened TokenerSteps
  import opened Grammar

  /** The text `p` stands in `input` at position `i`. */
  predicate At(input: bytes, i: nat, p: bytes) {
    i + |p| <= |input| && input[i..i + |p|] == p
  }

  lemma AtSplit(input: bytes, i: nat, p: bytes, q: bytes)
    requires At(input, i, p + q)
    ensures At(input, i, p) && At(input, i + |p|, q)
  {
    assert input[i..i + |p|] == input[i..i + |p + q|][..|p|];
    assert input[i + |p|..i + |p| + |q|] == input[i..i + |p + q|][|p|..];
  }

  lemma AtHead(input: bytes, i: nat, p: bytes)
    requires At(input, i, p) && p != []
    ensures i < |input| && input[i] == p[0]
  {
    assert input[i] == input[i..i + |p|][0];
  }

  /** Characters that can stand behind a value. */
  predicate Delimits(c: byte) {
    c == NUL || IsSpace(c) || c == COMMA || c == RBRACKET || c == RBRACE
  }

  /** White space is skipped without a trace. */
  lemma {:induction false} SkipSpaces(g: Config, t: Tok, input: bytes, i: nat, n: nat)
    requires WellFormed(g, t) && t.top.state == EatWs && i + n <= |input|
    requires forall k | i <= k < i + n :: IsSpace(input[k])
    ensures Leads(g, t, i, t, i + n, input)
    decreases n
  {
    if n > 0 {
      Consume(g, t, input, i, t);
      SkipSpaces(g, t, input, i + 1, n - 1);
    }
  }

  lemma SkipBlank(g: Config, t: Tok, input: bytes, i: nat, p: bytes)
    requires WellFormed(g, t) && t.top.state == EatWs && At(input, i, p) && Blank(p)
    ensures Leads(g, t, i, t, i + |p|, input)
  {
    hide Run, Step, WellFormed;
    forall k | i <= k < i + |p| ensures IsSpace(input[k]) {
      assert input[k] == input[i..i + |p|][k - i];
    }
    SkipSpaces(g, t, input, i, |p|);
  }

  // ---------------------------------------------------------------- numbers


  function WithNumberChars(t: Tok, p: bytes): Tok {
    Append(t, p).(caseLen := t.caseLen + |p|, isDouble := t.isDouble || MarksDouble(p))
  }

  lemma NumberChar(g: Config, t: Tok, input: bytes, i: nat)
    requires WellFormed(g, t) && t.top.state == Number && i < |input| && IsNumberChar(input[i])
    ensures Leads(g, t, i, WithNumberChars(t, [input[i]]), i + 1, input)
  {
    Consume(g, t, input, i, WithNumberChars(t, [input[i]]));
  }

  lemma NumberCharsJoin(t: Tok, p: bytes)
    requires p != []
    ensures WithNumberChars(WithNumberChars(t, [p[0]]), p[1..]) == WithNumberChars(t, p)
  {
    var c, rest := p[0], p[1..];
    assert p == [c] + rest;
    assert t.pb + [c] + rest == t.pb + p;
    assert MarksDouble(p) == (MarksDouble([c]) || MarksDouble(rest));
  }

  /** The number loop collects number characters. */
  lemma {:induction false} NumberRun(g: Config, t: Tok, input: bytes, i: nat, p: bytes)
    requires WellFormed(g, t) && t.top.state == Number && At(input, i, p)
    requires forall c | c in p :: IsNumberChar(c)
    ensures Leads(g, t, i, WithNumberChars(t, p), i + |p|, input)
    decreases |p|
  {
    hide Run, Step, WellFormed, MarksDouble, IsNumberChar;
    if p == [] {
      assert t.pb + p == t.pb;
      NoMarks();
    } else {
      var c, rest := p[0], p[1..];
      assert p == [c] + rest;
      AtSplit(input, i, [c], rest);
      AtHead(input, i, [c]);
      assert c in p;
      NumberChar(g, t, input, i);
      NumberRun(g, WithNumberChars(t, [c]), input, i + 1, rest);
      NumberCharsJoin(t, p);
    }
  }

  lemma NoMarks()
    ensures !MarksDouble([])
  {}

  /** The first character of a numeral opens the number state. */
  lemma OpenNumeral(g: Config, t: Tok, input: bytes, i: nat) returns (t': Tok)
    requires WellFormed(g, t) && t.top == CLEAN && t.obj == JNull
    requires i < |input| && (IsDigit(input[i]) || input[i] == MINUS)
    ensures Leads(g, t, i, t', i, input)
    ensures t' == Go(t, Number).(pb := [], isDouble := false, caseLen := 0)
  {
    var t1 := Go(t, Start);
    Restart(g, t, input, i, t1);
    t' := Go(t1, Number).(pb := [], isDouble := false, caseLen := 0);
    Restart(g, t1, input, i, t');
  }

  /** A delimiter closes the number state. */
  lemma CloseNumeral(g: Config, t: Tok, input: bytes, i: nat) returns (t': Tok)
    requires WellFormed(g, t) && t.top.state == Number && t.top.key == None && t.obj == JNull
    requires IsNumeral(t.pb, g.isDoubleText) && t.isDouble == MarksDouble(t.pb)
    requires i < |input| && Delimits(input[i])
    ensures Leads(g, t, i, t', i, input) && t' == Accept(t.(caseLen := 0), NumeralValue(t.pb))
  {
    hide ParseInt64, Run;
    t' := Accept(t.(caseLen := 0), NumeralValue(t.pb));
    StepAtNumber(g, t, input, i);
    hide Step;
    Restart(g, t, input, i, t');
  }

  lemma NumeralHead(g: Config, p: bytes)
    requires IsNumeral(p, g.isDoubleText)
    ensures p != [] && (IsDigit(p[0]) || p[0] == MINUS) && forall c | c in p :: IsNumberChar(c)
  {}

  lemma ParseNumeral(g: Config, t: Tok, input: bytes, i: nat, p: bytes) returns (t': Tok)
    requires WellFormed(g, t) && t.top == CLEAN && t.obj == JNull && IsNumeral(p, g.isDoubleText)
    requires At(input, i, p) && i + |p| < |input| && Delimits(input[i + |p|])
    ensures Leads(g, t, i, t', i + |p|, input) && t'.stPos == t.stPos
    ensures t'.below == t.below && t'.top == Level(EatWs, Finish, NumeralValue(p), None) && t'.obj == JNull
  {
    hide Run, Step, WellFormed, IsNumeral, NumeralValue, MarksDouble, IsNumberChar, Delimits;
    NumeralHead(g, p);
    AtHead(input, i, p);
    var t1 := OpenNumeral(g, t, input, i);
    NumberRun(g, t1, input, i, p);
    assert [] + p == p;
    t' := CloseNumeral(g, WithNumberChars(t1, p), input, i + |p|);
  }

  // ---------------------------------------------------------------- literals

  /** The state that reads a word without a sign. */
  function WordState(w: bytes): State {
    if w == TRUE_TEXT || w == FALSE_TEXT then Boolean else if w == INF_TEXT then Inf else NullLit
  }

  /** The state reads the word, which stands for `v`. */
  predicate Literal(s: State, lit: bytes, v: Json) {
    IsWord(lit) && lit != NEG_INF_TEXT && s == WordState(lit) && v == WordValue(lit)
  }

  lemma MatchesPrefix(g: Config, lit: bytes, buf: bytes, n: nat)
    requires n <= |lit| && n <= |buf| && buf[..n] == lit[..n]
    ensures Matches(g, lit, buf, n)
  {}

  lemma Mismatch(g: Config, lit: bytes, buf: bytes, n: nat, k: nat)
    requires k < n <= |lit| && n <= |buf| && Lower(lit[k]) != Lower(buf[k])
    ensures !Matches(g, lit, buf, n)
  {
    assert lit[..n][k] != buf[..n][k];
  }

  lemma PrefixGrows(lit: bytes, k: nat, c: byte)
    requires lit != [] && k <= |lit| && (k < |lit| ==> c == lit[k])
    ensures var pb, n := lit[..k] + [c], Min(k + 1, |lit|); n <= |pb| && pb[..n] == lit[..n] && pb[0] == lit[0]
  {
    if k < |lit| {
      assert lit[..k] + [c] == lit[..k + 1];
    } else {
      assert (lit[..k] + [c])[..k] == lit[..k];
    }
  }

  /** What the state of a literal does once it is known which text matches. */
  lemma LiteralPass(g: Config, t: Tok, input: bytes, i: nat, lit: bytes, v: Json)
    requires Literal(t.top.state, lit, v) && i < |input| && t.stPos <= |lit|
    requires t.pb == lit[..t.stPos] && (t.stPos < |lit| ==> input[i] == lit[t.stPos])
    ensures Step(g, t, input, i) == StepMatched(Append(t, [input[i]]), lit, v)
  {
    hide Step, Matches;
    var t1, n := Append(t, [input[i]]), Min(t.stPos + 1, |lit|);
    StepAtLiteral(g, t, input, i);
    PrefixGrows(lit, t.stPos, input[i]);
    MatchesPrefix(g, lit, t1.pb, n);
    if lit == NAN_TEXT {
      NotNull(g, t1.pb, t.stPos);
    } else if lit == FALSE_TEXT {
      Mismatch(g, TRUE_TEXT, t1.pb, Min(t.stPos + 1, 4), 0);
    }
  }

  /** "N" may still become "null", and then `StepMatched` does the same for both texts; "Na" may not. */
  lemma NotNull(g: Config, buf: bytes, n: nat)
    requires n <= 3 && |buf| == n + 1 && (n < 3 ==> buf == NAN_TEXT[..n + 1]) && (n == 3 ==> buf[..3] == NAN_TEXT)
    ensures n > 0 ==> !Matches(g, NULL_TEXT, buf, n + 1)
  {
    if n > 0 {
      assert buf[1] == if n < 3 then NAN_TEXT[..n + 1][1] else buf[..3][1];
      Mismatch(g, NULL_TEXT, buf, n + 1, 1);
    }
  }

  /** The state machine of a literal on its own text: one more character matches. */
  lemma LiteralStep(g: Config, t: Tok, input: bytes, i: nat, lit: bytes, v: Json)
    requires WellFormed(g, t) && Literal(t.top.state, lit, v) && t.stPos < |lit|
    requires t.pb == lit[..t.stPos] && i < |input| && input[i] == lit[t.stPos]
    ensures Leads(g, t, i, Append(t, [input[i]]).(stPos := t.stPos + 1), i + 1, input)
  {
    hide Step, Run, WellFormed;
    LiteralPass(g, t, input, i, lit, v);
    Consume(g, t, input, i, Append(t, [input[i]]).(stPos := t.stPos + 1));
  }

  /** Behind the whole literal, the next character ends it. */
  lemma LiteralEnd(g: Config, t: Tok, input: bytes, i: nat, lit: bytes, v: Json)
    requires WellFormed(g, t) && Literal(t.top.state, lit, v) && t.stPos == |lit| && t.pb == lit && i < |input|
    ensures Leads(g, t, i, Accept(Append(t, [input[i]]), v), i, input)
  {
    hide Step, Run, WellFormed;
    assert lit[..|lit|] == lit;
    LiteralPass(g, t, input, i, lit, v);
    Restart(g, t, input, i, Accept(Append(t, [input[i]]), v));
  }

  lemma {:induction false} LiteralRun(g: Config, t: Tok, input: bytes, i: nat, lit: bytes, v: Json) returns (t': Tok)
    requires WellFormed(g, t) && Literal(t.top.state, lit, v) && t.stPos <= |lit| && t.pb == lit[..t.stPos]
    requires At(input, i, lit[t.stPos..]) && i + |lit| - t.stPos < |input| && t.obj == JNull && t.top.key == None
    ensures Leads(g, t, i, t', i + |lit| - t.stPos, input)
    ensures t'.below == t.below && t'.top == Level(EatWs, Finish, v, None) && t'.obj == JNull && t'.stPos == |lit|
    decreases |lit| - t.stPos
  {
    hide Run, Step, WellFormed, Literal;
    if t.stPos == |lit| {
      assert t.pb == lit;
      LiteralEnd(g, t, input, i, lit, v);
      t' := Accept(Append(t, [input[i]]), v);
    } else {
      var rest := lit[t.stPos + 1..];
      assert lit[t.stPos..] == [lit[t.stPos]] + rest;
      AtSplit(input, i, [lit[t.stPos]], rest);
      assert input[i] == input[i..i + 1][0] == lit[t.stPos];
      LiteralStep(g, t, input, i, lit, v);
      var t1 := Append(t, [input[i]]).(stPos := t.stPos + 1);
      assert t1.pb == lit[..t1.stPos];
      t' := LiteralRun(g, t1, input, i + 1, lit, v);
    }
  }

  lemma OpenLiteral(g: Config, t: Tok, input: bytes, i: nat, s: State, lit: bytes, v: Json) returns (t': Tok)
    requires WellFormed(g, t) && t.top == CLEAN && t.obj == JNull && Literal(s, lit, v)
    requires i < |input| && input[i] == lit[0]
    ensures Leads(g, t, i, t', i, input) && t' == Go(t, s).(pb := [], stPos := 0)
  {
    var t1 := Go(t, Start);
    Restart(g, t, input, i, t1);
    t' := Go(t1, s).(pb := [], stPos := 0);
    Restart(g, t1, input, i, t');
  }

  lemma ParseLiteral(g: Config, t: Tok, input: bytes, i: nat, lit: bytes) returns (t': Tok)
    requires WellFormed(g, t) && t.top == CLEAN && t.obj == JNull && IsWord(lit) && lit != NEG_INF_TEXT
    requires At(input, i, lit) && i + |lit| < |input|
    ensures Leads(g, t, i, t', i + |lit|, input) && t'.stPos != 0
    ensures t'.below == t.below && t'.top == Level(EatWs, Finish, WordValue(lit), None) && t'.obj == JNull
  {
    hide Run, Step;
    AtHead(input, i, lit);
    var t1 := OpenLiteral(g, t, input, i, WordState(lit), lit, WordValue(lit));
    assert lit[0..] == lit;
    t' := LiteralRun(g, t1, input, i, lit, WordValue(lit));
  }

  // ---------------------------------------------------------------- negative infinity

  /** "-" has been read as a number by this call, and an `i` is next. */
  predicate AtInfinity(t: Tok, input: bytes, i: nat) {
    && t.top.state == Number && t.pb == [MINUS] && t.caseLen == 1 && t.obj == JNull
    && i < |input| && (input[i] == LOWER_I || input[i] == UPPER_I)
  }

  /** Unexpected, or the text has ended. */
  predicate Refused(r: Result) {
    r.err == ErrUnexpected || r.err == ErrEof
  }

  /**
   With eight characters and one behind them in the chunk, it is accepted if and only if they spell the literal, as
   the mode allows, and the position left behind by an earlier literal or escape is 0.
   */
  lemma NegativeInfinityExactlyWhen(g: Config, t: Tok, input: bytes, i: nat) returns (t': Tok)
    requires WellFormed(g, t) && AtInfinity(t, input, i) && i + |INF_TEXT| < |input|
    ensures t.stPos == 0 && Matches(g, INF_TEXT, input[i..], |INF_TEXT|) ==>
      Leads(g, t, i, t', i + |INF_TEXT|, input) && t'.below == t.below && t'.stPos == |INF_TEXT| && t'.obj == JNull &&
      t'.top == Level(EatWs, Finish, JDouble(NEG_INF_TEXT), t.top.key)
    ensures t.stPos == 0 && !Matches(g, INF_TEXT, input[i..], |INF_TEXT|) ==> Refused(Run(g, t, input, i))
    ensures t.stPos != 0 ==> Run(g, t, input, i).err == ErrUnexpected
  {
    hide Run, WellFormed, Matches;
    var t1 := Go(t, Inf).(caseLen := 0);
    IntoInfinity(g, t, input, i);
    Restart(g, t, input, i, t1);
    if t.stPos == 0 {
      assert input[i..i] == [];
      EmptyMatches(g, input[i..]);
      t' := ReadInfinity(g, t1, input, i, 0);
    } else {
      t' := t;
      StaleInfinity(g, t1, input, i);
    }
  }

  lemma EmptyMatches(g: Config, buf: bytes)
    ensures Matches(g, INF_TEXT, buf, 0)
  {}

  lemma IntoInfinity(g: Config, t: Tok, input: bytes, i: nat)
    requires AtInfinity(t, input, i)
    ensures Step(g, t, input, i) == Redo(Go(t, Inf).(caseLen := 0))
  {
    hide Step, Numbers.ParseInt64;
    StepAtNumber(g, t, input, i);
  }

  lemma StaleInfinity(g: Config, t: Tok, input: bytes, i: nat)
    requires WellFormed(g, t) && t.top.state == Inf && t.pb == [MINUS] && t.stPos > 0 && i < |input| && input[i] != NUL
    ensures Run(g, t, input, i).err == ErrUnexpected
  {
    hide Step;
    StepAtLiteral(g, t, input, i);
    StepKeeps(g, t, input, i);
    assert Append(t, [input[i]]).pb == [MINUS, input[i]];
    assert [MINUS, input[i]][1..] == [input[i]];
  }

  /** Only the first `n` characters are compared. */
  lemma MatchesSame(g: Config, a: bytes, b: bytes, n: nat)
    requires n <= |INF_TEXT| && n <= |a| && n <= |b| && a[..n] == b[..n]
    ensures Matches(g, INF_TEXT, a, n) == Matches(g, INF_TEXT, b, n)
  {
    assert forall k | 0 <= k < n :: a[k] == a[..n][k] == b[k];
  }

  /** More than matches is a match of less, and no NUL matches. */
  lemma MatchesLess(g: Config, a: bytes, n: nat, m: nat)
    requires n <= m <= |INF_TEXT| && m <= |a| && Matches(g, INF_TEXT, a, m)
    ensures Matches(g, INF_TEXT, a, n) && forall k | 0 <= k < m :: a[k] != NUL
  {
    assert INF_TEXT[..n] == INF_TEXT[..m][..n] && a[..n] == a[..m][..n];
    assert forall k | 0 <= k < m :: Lower(INF_TEXT[k]) != Lower(NUL);
    assert INF_TEXT[..m] == a[..m] ==> forall k | 0 <= k < m :: a[k] == a[..m][k] == INF_TEXT[..m][k] == INF_TEXT[k];
  }

  /** The infinity state behind the sign, with `n` characters of the literal read. */
  lemma {:induction false} ReadInfinity(g: Config, t: Tok, input: bytes, i: nat, n: nat) returns (t': Tok)
    requires WellFormed(g, t) && t.top.state == Inf && n <= |INF_TEXT| && t.stPos == n && t.obj == JNull
    requires i + |INF_TEXT| < |input| && t.pb == [MINUS] + input[i..i + n] && Matches(g, INF_TEXT, input[i..], n)
    ensures Matches(g, INF_TEXT, input[i..], |INF_TEXT|) ==>
      Leads(g, t, i + n, t', i + |INF_TEXT|, input) && t'.below == t.below && t'.stPos == |INF_TEXT| &&
        t'.obj == JNull &&
      t'.top == Level(EatWs, Finish, JDouble([MINUS] + INF_TEXT), t.top.key)
    ensures !Matches(g, INF_TEXT, input[i..], |INF_TEXT|) ==> Refused(Run(g, t, input, i + n))
    decreases |INF_TEXT| - n
  {
    hide Step, Run, WellFormed, Matches;
    var j, text := i + n, input[i..];
    var t1 := Append(t, [input[j]]);
    InfinityPass(g, t, input, j);
    OneMore(g, t, input, i, n);
    if n == |INF_TEXT| {
      t' := Accept(t1, JDouble([MINUS] + INF_TEXT));
      Restart(g, t, input, j, t');
    } else if Matches(g, INF_TEXT, text, n + 1) {
      MatchesLess(g, text, n, n + 1);
      assert input[j] == text[n];
      var t2 := t1.(stPos := n + 1);
      Consume(g, t, input, j, t2);
      t' := ReadInfinity(g, t2, input, i, n + 1);
    } else {
      t' := t;
      if Matches(g, INF_TEXT, text, |INF_TEXT|) { MatchesLess(g, text, n + 1, |INF_TEXT|); }
      InfinityFails(g, t, input, j);
    }
  }

  /** With the next character, the buffer behind the sign is compared as the text is. */
  lemma OneMore(g: Config, t: Tok, input: bytes, i: nat, n: nat)
    requires n <= |INF_TEXT| && i + |INF_TEXT| < |input| && t.pb == [MINUS] + input[i..i + n]
    ensures var pb, m := t.pb + [input[i + n]], Min(n + 1, |INF_TEXT|);
      pb == [MINUS] + input[i..i + n + 1] && Matches(g, INF_TEXT, pb[1..], m) == Matches(g, INF_TEXT, input[i..], m)
  {
    hide Matches;
    var pb, m := t.pb + [input[i + n]], Min(n + 1, |INF_TEXT|);
    assert input[i..i + n] + [input[i + n]] == input[i..i + n + 1];
    assert pb == [MINUS] + (input[i..i + n] + [input[i + n]]);
    assert pb[1..] == input[i..i + n + 1];
    assert pb[1..][..m] == input[i..][..m];
    MatchesSame(g, pb[1..], input[i..], m);
  }

  lemma InfinityPass(g: Config, t: Tok, input: bytes, i: nat)
    requires t.top.state == Inf && t.pb != [] && t.pb[0] == MINUS && i < |input|
    ensures var t1, n := Append(t, [input[i]]), Min(t.stPos + 1, |INF_TEXT|);
      Step(g, t, input, i) ==
        if Matches(g, INF_TEXT, t1.pb[1..], n) then StepMatched(t1, INF_TEXT, JDouble(NEG_INF_TEXT))
        else Halt(t1, ErrUnexpected, 0)
  {
    hide Step, Matches;
    StepAtLiteral(g, t, input, i);
  }

  lemma InfinityFails(g: Config, t: Tok, input: bytes, i: nat)
    requires WellFormed(g, t) && t.top.state == Inf && i < |input|
    requires Step(g, t, input, i) == Halt(Append(t, [input[i]]), ErrUnexpected, 0)
    ensures Refused(Run(g, t, input, i))
  {
    hide Step;
    StepKeeps(g, t, input, i);
  }

  /** Both words of a negative infinity in the printed spelling: the sign is read as a number first. */
  lemma ParseNegativeInfinity(g: Config, t: Tok, input: bytes, i: nat) returns (t': Tok)
    requires WellFormed(g, t) && t.top == CLEAN && t.obj == JNull
    requires At(input, i, NEG_INF_TEXT) && i + |NEG_INF_TEXT| < |input|
    ensures t.stPos == 0 ==>
      Leads(g, t, i, t', i + |NEG_INF_TEXT|, input) && t'.stPos != 0 && t'.below == t.below && t'.obj == JNull &&
      t'.top == Level(EatWs, Finish, JDouble(NEG_INF_TEXT), None)
    ensures t.stPos != 0 ==> Run(g, t, input, i).err == ErrUnexpected
  {
    hide Run, Step, WellFormed, Matches;
    AtHead(input, i, NEG_INF_TEXT);
    AtSplit(input, i, [MINUS], INF_TEXT);
    AtHead(input, i + 1, INF_TEXT);
    var t1 := OpenNumeral(g, t, input, i);
    NumberChar(g, t1, input, i);
    var t2 := WithNumberChars(t1, [MINUS]);
    assert t2.pb == [MINUS];
    assert input[i + 1..][..|INF_TEXT|] == INF_TEXT[..|INF_TEXT|];
    MatchesPrefix(g, INF_TEXT, input[i + 1..], |INF_TEXT|);
    t' := NegativeInfinityExactlyWhen(g, t2, input, i + 1);
  }

  /** A word of the grammar. */
  lemma ParseWord(g: Config, t: Tok, input: bytes, i: nat, w: bytes) returns (t': Tok)
    requires WellFormed(g, t) && t.top == CLEAN && t.obj == JNull && IsWord(w) && At(input, i, w) && i + |w| < |input|
    ensures (w == NEG_INF_TEXT ==> t.stPos == 0) ==>
      Leads(g, t, i, t', i + |w|, input) && t'.stPos != 0 && t'.below == t.below && t'.obj == JNull &&
      t'.top == Level(EatWs, Finish, WordValue(w), None)
    ensures w == NEG_INF_TEXT && t.stPos != 0 ==> Run(g, t, input, i).err == ErrUnexpected
  {
    hide Run, Step, WellFormed, At;
    if w == NEG_INF_TEXT {
      t' := ParseNegativeInfinity(g, t, input, i);
    } else {
      t' := ParseLiteral(g, t, input, i, w);
    }
  }
}
