/** The tokener reads literals and numbers as the reference does. */
module ReferenceWords {
  import opened Bytes
  import opened JsonValue
  import opened Numbers
  import opened OrderedMap
  import opened TokenerMachine
  import opened TokenerSteps
  import opened Grammar
  import opened GrammarScalars
  import opened Reference
  import opened ReferenceSkips

  /** A value, or the end of the call, as the reference says. */
  predicate Answers(g: Config, t: Tok, i: nat, t': Tok, s: bytes, a: Answer) {
    match a
    case Got(v, end, moved) =>
      Leads(g, t, i, t', end, Input(s)) && t'.below == t.below && t'.top == Level(EatWs, Finish, v, None) &&
      t'.obj == JNull && (t'.stPos != 0 <==> moved)
    case Stopped(_, _, _) => Ends(g, t, s, i, a)
  }

  /** The same from an earlier state of the machine. */
  lemma AnswersBefore(g: Config, t: Tok, i: nat, u: Tok, j: nat, t': Tok, s: bytes, a: Answer)
    requires i <= |s| && j <= |s| && Leads(g, t, i, u, j, Input(s)) && u.below == t.below && Answers(g, u, j, t', s, a)
    ensures Answers(g, t, i, t', s, a)
  {
    hide Run, WellFormed;
  }

  // ---------------------------------------------------------------- letters

  predicate IsLetter(c: byte) {
    0x41 <= c <= 0x5A || 0x61 <= c <= 0x7A
  }

  predicate Letters(w: bytes) {
    forall k | 0 <= k < |w| :: IsLetter(w[k])
  }

  /** The first `n` characters of the text are those of the word. */
  predicate Agrees(strict: bool, w: bytes, buf: bytes, n: nat) {
    n <= |w| && n <= |buf| && forall k | 0 <= k < n :: Same(strict, w[k], buf[k])
  }

  lemma SameLetter(letter: byte, c: byte)
    requires IsLetter(letter)
    ensures Lower(letter) == Lower(c) <==> Same(false, letter, c)
  {}

  lemma MatchesIs(g: Config, w: bytes, buf: bytes, n: nat)
    requires Letters(w) && n <= |w|
    ensures Matches(g, w, buf, n) <==> Agrees(g.strict, w, buf, n)
  {
    if n <= |buf| {
      forall k | 0 <= k < n ensures Lower(w[k]) == Lower(buf[k]) <==> Same(false, w[k], buf[k]) {
        SameLetter(w[k], buf[k]);
      }
      assert w[..n] == buf[..n] <==> forall k | 0 <= k < n :: w[k] == buf[k] by {
        if w[..n] == buf[..n] {
          forall k | 0 <= k < n ensures w[k] == buf[k] { assert w[..n][k] == buf[..n][k]; }
        }
      }
    }
  }

  /** How far the text at `i` agrees with the word. */
  lemma {:induction false} CommonIs(strict: bool, w: bytes, s: bytes, i: nat, k: nat)
    requires k <= |w| && i + k <= |s| && Agrees(strict, w, s[i..], k)
    ensures var n := Common(strict, w, s, i, k);
      i + n <= |s| && Agrees(strict, w, s[i..], n) &&
      (n < |w| ==> !(i + n < |s| && Same(strict, w[n], s[i + n]))) &&
      forall m | n < m <= |w| :: !Agrees(strict, w, s[i..], m)
    decreases |w| - k
  {
    if k < |w| && i + k < |s| && Same(strict, w[k], s[i + k]) {
      assert s[i..][k] == s[i + k];
      CommonIs(strict, w, s, i, k + 1);
    } else {
      forall m | k < m <= |w| ensures !Agrees(strict, w, s[i..], m) {
        if i + k < |s| { assert s[i..][k] == s[i + k]; }
      }
    }
  }

  lemma WordsAre()
    ensures WORD_NULL == NULL_TEXT && WORD_NAN == NAN_TEXT && WORD_TRUE == TRUE_TEXT && WORD_FALSE == FALSE_TEXT
    ensures WORD_INFINITY == INF_TEXT && [0x2D] + WORD_INFINITY == NEG_INF_TEXT == [MINUS] + INF_TEXT
    ensures Letters(NULL_TEXT) && Letters(NAN_TEXT) && Letters(TRUE_TEXT) && Letters(FALSE_TEXT) && Letters(INF_TEXT)
  {}

  // ---------------------------------------------------------------- one word

  /** The bytes in front of the word: a minus sign in front of Infinity, or nothing. */
  predicate Sign(state: State, sign: bytes) {
    sign == [] || (state == Inf && sign == [MINUS])
  }

  /** A state that reads the word `w` for the value `v`. */
  predicate Reads(state: State, sign: bytes, w: bytes, v: Json, e: Error) {
    match state
    case Inf => Sign(state, sign) && w == INF_TEXT && v == JDouble(sign + INF_TEXT) && e == ErrUnexpected
    case Boolean =>
      sign == [] && e == ErrBoolean &&
      ((w == TRUE_TEXT && v == JBool(true)) || (w == FALSE_TEXT && v == JBool(false)))
    case _ => false
  }

  /** The first `k` characters of the word have been read, and the next pass looks at the one at `i + k`. */
  predicate Reading(g: Config, t: Tok, s: bytes, i: nat, k: nat, sign: bytes, w: bytes)
  {
    i + k <= |s| && k <= |w| && t.stPos == k && t.pb == sign + s[i..i + k] && Agrees(g.strict, w, s[i..], k)
  }

  /** The buffer with the next character agrees with the word as the text does. */
  lemma NextAgrees(strict: bool, w: bytes, s: bytes, i: nat, k: nat, n: nat)
    requires i + k <= |s| && k <= |w| && n <= |w| && n <= k + 1 && NUL !in s && Letters(w)
    ensures Agrees(strict, w, s[i..i + k] + [CharAt(s, i + k)], n) <==> Agrees(strict, w, s[i..], n)
  {
    var buf := s[i..i + k] + [CharAt(s, i + k)];
    forall x | 0 <= x < n && x < |s[i..]| ensures buf[x] == s[i..][x] {}
    if n > |s[i..]| {
      assert n == k + 1 && i + k == |s| && buf[k] == NUL;
      assert IsLetter(w[k]);
    }
  }

  /** What one pass of the state does, in terms of the buffer. */
  lemma BufferPass(g: Config, t: Tok, input: bytes, j: nat, sign: bytes, buf: bytes, w: bytes, v: Json, e: Error)
    requires j < |input| && Reads(t.top.state, sign, w, v, e) && t.pb + [input[j]] == sign + buf && |buf| > 0
    requires Same(false, w[0], buf[0])
    ensures var t1 := Append(t, [input[j]]);
      Step(g, t, input, j) ==
        if Matches(g, w, buf, Min(t.stPos + 1, |w|)) then StepMatched(t1, w, v) else Halt(t1, e, 0)
  {
    hide Step, Matches, StepMatched, Same;
    WordsAre();
    StepAtLiteral(g, t, input, j);
    var pb := t.pb + [input[j]];
    if t.top.state == Inf {
      if sign == [MINUS] {
        assert pb[1..] == buf;
      } else {
        assert sign + buf == buf && sign + INF_TEXT == INF_TEXT;
        InfinityHasNoSign(buf[0]);
      }
    } else {
      assert sign + buf == buf;
      if w == FALSE_TEXT {
        OtherWord(g, TRUE_TEXT, buf, Min(t.stPos + 1, 4));
      } else if !Matches(g, TRUE_TEXT, buf, Min(t.stPos + 1, 4)) {
        OtherWord(g, FALSE_TEXT, buf, Min(t.stPos + 1, 5));
      }
    }
  }

  lemma InfinityHasNoSign(c: byte)
    requires Same(false, INF_TEXT[0], c)
    ensures c != MINUS
  {}

  /** The same in terms of the text. */
  lemma WordPass(g: Config, t: Tok, s: bytes, i: nat, k: nat, sign: bytes, w: bytes, v: Json, e: Error)
    requires Reads(t.top.state, sign, w, v, e) && Reading(g, t, s, i, k, sign, w) && NUL !in s && i < |s|
    requires k == 0 ==> Same(false, w[0], s[i])
    ensures var t1 := Append(t, [CharAt(s, i + k)]);
      Step(g, t, Input(s), i + k) ==
        if Agrees(g.strict, w, s[i..], if k < |w| then k + 1 else k) then StepMatched(t1, w, v) else Halt(t1, e, 0)
  {
    hide Step, Matches, Agrees, StepMatched, Reads, Same, Letters;
    WordIsSome(t.top.state, sign, w, v, e);
    InputAt(s, i + k);
    var buf := s[i..i + k] + [CharAt(s, i + k)];
    assert t.pb + [CharAt(s, i + k)] == sign + buf;
    var n := if k < |w| then k + 1 else k;
    NextAgrees(g.strict, w, s, i, k, n);
    MatchesIs(g, w, buf, n);
    assert buf[0] == s[i];
    FirstLetter(g, w, s, i, k);
    BufferPass(g, t, Input(s), i + k, sign, buf, w, v, e);
  }

  lemma FirstLetter(g: Config, w: bytes, s: bytes, i: nat, k: nat)
    requires i < |s| && |w| > 0 && Agrees(g.strict, w, s[i..], k) && (k == 0 ==> Same(false, w[0], s[i]))
    ensures Same(false, w[0], s[i])
  {
    if k > 0 { assert s[i..][0] == s[i]; }
  }

  /** A text that starts like one of the two words does not start like the other. */
  lemma OtherWord(g: Config, w: bytes, buf: bytes, n: nat)
    requires w == TRUE_TEXT || w == FALSE_TEXT
    requires 0 < n <= |w| && |buf| > 0 && Same(false, if w == TRUE_TEXT then FALSE_TEXT[0] else TRUE_TEXT[0], buf[0])
    ensures !Matches(g, w, buf, n)
  {
    WordsAre();
    MatchesIs(g, w, buf, n);
    assert !Same(g.strict, w[0], buf[0]);
  }

  /** Behind the whole word. */
  lemma WordDone(g: Config, t: Tok, s: bytes, j: nat, w: bytes, v: Json) returns (t': Tok)
    requires WellFormed(g, t) && t.obj == JNull && t.top.key == None && j <= |s| && t.stPos == |w| > 0
    requires Step(g, t, Input(s), j) == StepMatched(Append(t, [CharAt(s, j)]), w, v)
    ensures Answers(g, t, j, t', s, Got(v, j, true))
  {
    hide Run, Step, WellFormed;
    InputAt(s, j);
    t' := Accept(Append(t, [CharAt(s, j)]), v);
    Restart(g, t, Input(s), j, t');
  }

  /** One more character of the word. */
  lemma WordGoesOn(g: Config, t: Tok, s: bytes, i: nat, k: nat, sign: bytes, w: bytes, v: Json) returns (t': Tok)
    requires WellFormed(g, t) && NUL !in s && k < |w| && Reading(g, t, s, i, k, sign, w)
    requires Agrees(g.strict, w, s[i..], k + 1)
    requires Step(g, t, Input(s), i + k) == StepMatched(Append(t, [CharAt(s, i + k)]), w, v)
    ensures i + k < |s| && Leads(g, t, i + k, t', i + k + 1, Input(s)) && Reading(g, t', s, i, k + 1, sign, w)
    ensures t'.top == t.top && t'.below == t.below && t'.obj == JNull
    ensures Common(g.strict, w, s, i, k) == Common(g.strict, w, s, i, k + 1)
  {
    hide Run, Step, WellFormed, Agrees, Common, Same;
    AgreesInside(g.strict, w, s, i, k);
    InputAt(s, i + k);
    t' := Append(t, [s[i + k]]).(stPos := k + 1);
    assert s[i..i + k] + [s[i + k]] == s[i..i + k + 1];
    assert sign + s[i..i + k] + [s[i + k]] == sign + s[i..i + k + 1];
    Consume(g, t, Input(s), i + k, t');
  }

  function WordAnswer(g: Config, s: bytes, i: nat, k: nat, w: bytes, v: Json, e: Error): Answer
    requires k <= |w|
  {
    var n := Common(g.strict, w, s, i, k);
    if n == |w| then Got(v, i + n, true) else Fail(s, e, i + n)
  }

  lemma {:induction false} WordRuns(g: Config, t: Tok, s: bytes, i: nat, k: nat, sign: bytes, w: bytes, v: Json,
                                    e: Error)
    returns (t': Tok)
    requires WellFormed(g, t) && t.obj == JNull && t.top.key == None && NUL !in s && i < |s|
    requires Reads(t.top.state, sign, w, v, e) && Reading(g, t, s, i, k, sign, w)
    requires k == 0 ==> Same(false, w[0], s[i])
    ensures Answers(g, t, i + k, t', s, WordAnswer(g, s, i, k, w, v, e))
    decreases |w| - k
  {
    hide Run, Step, WellFormed, Agrees, Reads, Answers, Same, Reading, StepMatched;
    ReadingIs(g, t, s, i, k, sign, w);
    WordPass(g, t, s, i, k, sign, w, v, e);
    WordIsSome(t.top.state, sign, w, v, e);
    t' := t;
    if k == |w| {
      t' := WordDone(g, t, s, i + k, w, v);
    } else if Agrees(g.strict, w, s[i..], k + 1) {
      var t1 := WordGoesOn(g, t, s, i, k, sign, w, v);
      t' := WordRuns(g, t1, s, i, k + 1, sign, w, v, e);
      AnswersBefore(g, t, i + k, t1, i + k + 1, t', s, WordAnswer(g, s, i, k, w, v, e));
    } else {
      NoMore(g.strict, w, s, i, k);
      WordFails(g, t, s, i + k, t', e);
    }
  }

  lemma ReadingIs(g: Config, t: Tok, s: bytes, i: nat, k: nat, sign: bytes, w: bytes)
    requires Reading(g, t, s, i, k, sign, w)
    ensures i + k <= |s| && k <= |w| && t.stPos == k && Agrees(g.strict, w, s[i..], k)
  {}

  lemma WordFails(g: Config, t: Tok, s: bytes, j: nat, t': Tok, e: Error)
    requires WellFormed(g, t) && (t.top.state == Inf || t.top.state == Boolean || t.top.state == NullLit)
    requires j <= |s| && NUL !in s && Step(g, t, Input(s), j) == Halt(Append(t, [CharAt(s, j)]), e, 0) && e != Success
    ensures Answers(g, t, j, t', s, Fail(s, e, j))
  {
    hide Run, Step, WellFormed;
    HaltsHere(g, t, s, j, Append(t, [CharAt(s, j)]), e);
  }

  lemma WordIsSome(state: State, sign: bytes, w: bytes, v: Json, e: Error)
    requires Reads(state, sign, w, v, e)
    ensures |w| > 0 && (state == Inf || state == Boolean) && e != Success && Letters(w)
  {
    WordsAre();
  }

  lemma AgreesInside(strict: bool, w: bytes, s: bytes, i: nat, k: nat)
    requires i <= |s| && k < |w| && Agrees(strict, w, s[i..], k + 1)
    ensures i + k < |s| && Same(strict, w[k], s[i + k]) && Common(strict, w, s, i, k) == Common(strict, w, s, i, k + 1)
  {
    assert s[i..][k] == s[i + k];
  }

  lemma NoMore(strict: bool, w: bytes, s: bytes, i: nat, k: nat)
    requires i + k <= |s| && k < |w| && Agrees(strict, w, s[i..], k) && !Agrees(strict, w, s[i..], k + 1)
    ensures Common(strict, w, s, i, k) == k
  {
    assert i + k < |s| ==> s[i..][k] == s[i + k];
  }

  // ---------------------------------------------------------------- null and NaN

  /** The two words part after their first letter. */
  lemma NullOrNaNAgrees(strict: bool, s: bytes, i: nat)
    requires i <= |s|
    ensures var n, m := Common(strict, WORD_NULL, s, i, 0), Common(strict, WORD_NAN, s, i, 0);
      (n <= 1 || m <= 1) && i + n <= |s| && i + m <= |s| &&
      (forall k | 0 <= k <= 4 :: Agrees(strict, NULL_TEXT, s[i..], k) <==> k <= n) &&
      (forall k | 0 <= k <= 3 :: Agrees(strict, NAN_TEXT, s[i..], k) <==> k <= m)
  {
    WordsAre();
    CommonIs(strict, WORD_NULL, s, i, 0);
    CommonIs(strict, WORD_NAN, s, i, 0);
    if Agrees(strict, NULL_TEXT, s[i..], 2) { assert !Agrees(strict, NAN_TEXT, s[i..], 2); }
  }

  lemma NullPass(g: Config, t: Tok, s: bytes, i: nat, k: nat)
    requires t.top.state == NullLit && i + k <= |s| && t.stPos == k && t.pb == s[i..i + k] && NUL !in s
    requires k <= 3 || (k == 4 && Agrees(g.strict, NULL_TEXT, s[i..], 4))
    ensures var t1 := Append(t, [CharAt(s, i + k)]);
      Step(g, t, Input(s), i + k) ==
        if Agrees(g.strict, NULL_TEXT, s[i..], Min(k + 1, 4)) then StepMatched(t1, NULL_TEXT, JNull)
        else if Agrees(g.strict, NAN_TEXT, s[i..], Min(k + 1, 3)) then StepMatched(t1, NAN_TEXT, JDouble(NAN_TEXT))
        else Halt(t1, ErrNull, 0)
  {
    hide Step, Matches, Agrees, StepMatched;
    WordsAre();
    InputAt(s, i + k);
    StepAtLiteral(g, t, Input(s), i + k);
    var buf := s[i..i + k] + [CharAt(s, i + k)];
    NextAgrees(g.strict, NULL_TEXT, s, i, k, Min(k + 1, 4));
    MatchesIs(g, NULL_TEXT, buf, Min(k + 1, 4));
    if k <= 3 {
      NextAgrees(g.strict, NAN_TEXT, s, i, k, Min(k + 1, 3));
      MatchesIs(g, NAN_TEXT, buf, Min(k + 1, 3));
    }
  }

  /** The first `k` characters have been read. */
  predicate NullReading(t: Tok, s: bytes, i: nat, k: nat) {
    i + k <= |s| && t.stPos == k <= 4 && t.pb == s[i..i + k]
  }

  lemma NullGoesOn(g: Config, t: Tok, s: bytes, i: nat, k: nat, w: bytes, v: Json) returns (t': Tok)
    requires WellFormed(g, t) && NUL !in s && NullReading(t, s, i, k) && i + k < |s| && k < |w| <= 4
    requires Step(g, t, Input(s), i + k) == StepMatched(Append(t, [CharAt(s, i + k)]), w, v)
    ensures Leads(g, t, i + k, t', i + k + 1, Input(s)) && NullReading(t', s, i, k + 1)
    ensures t'.top == t.top && t'.below == t.below && t'.obj == JNull
  {
    hide Run, Step, WellFormed;
    InputAt(s, i + k);
    t' := Append(t, [s[i + k]]).(stPos := k + 1);
    assert s[i..i + k] + [s[i + k]] == s[i..i + k + 1];
    Consume(g, t, Input(s), i + k, t');
  }

  lemma {:induction false} NullRuns(g: Config, t: Tok, s: bytes, i: nat, k: nat) returns (t': Tok)
    requires WellFormed(g, t) && t.top.state == NullLit && t.obj == JNull && t.top.key == None && NUL !in s
    requires NullReading(t, s, i, k)
    requires k <= Common(g.strict, WORD_NULL, s, i, 0) || k <= Common(g.strict, WORD_NAN, s, i, 0)
    ensures Answers(g, t, i + k, t', s, NullOrNaN(g, s, i))
    decreases 4 - k
  {
    hide Run, Step, WellFormed, Agrees, Answers, Same, Common, StepMatched;
    WordsAre();
    NullOrNaNAgrees(g.strict, s, i);
    NullPass(g, t, s, i, k);
    var n, m := Common(g.strict, WORD_NULL, s, i, 0), Common(g.strict, WORD_NAN, s, i, 0);
    t' := t;
    if k < n || (k < 3 && k < m) {
      var t1: Tok;
      if k < n {
        t1 := NullGoesOn(g, t, s, i, k, NULL_TEXT, JNull);
      } else {
        t1 := NullGoesOn(g, t, s, i, k, NAN_TEXT, JDouble(NAN_TEXT));
      }
      t' := NullRuns(g, t1, s, i, k + 1);
      AnswersBefore(g, t, i + k, t1, i + k + 1, t', s, NullOrNaN(g, s, i));
    } else if k == 4 {
      t' := WordDone(g, t, s, i + k, NULL_TEXT, JNull);
    } else if m == 3 {
      t' := WordDone(g, t, s, i + k, NAN_TEXT, JDouble(NAN_TEXT));
    } else {
      WordFails(g, t, s, i + k, t', ErrNull);
    }
  }

  // ---------------------------------------------------------------- from the start of a value

  /** A level that waits for a value, in front of a character that is no white space. */
  predicate AtStart(g: Config, t: Tok, s: bytes, i: nat) {
    && WellFormed(g, t) && t.top == CLEAN && t.obj == JNull && i <= |s| && NUL !in s
    && !IsSpace(CharAt(s, i)) && (CharAt(s, i) == SLASH ==> g.strict)
  }

  lemma Started(g: Config, t: Tok, s: bytes, i: nat) returns (t': Tok)
    requires AtStart(g, t, s, i)
    ensures Leads(g, t, i, t', i, Input(s)) && t' == Go(t, Start)
    ensures Step(g, t', Input(s), i) == StepStart(g, t', CharAt(s, i))
  {
    hide Run, Step, WellFormed;
    InputAt(s, i);
    t' := Go(t, Start);
    StepAtBlank(g, t, Input(s), i);
    StepAtStart(g, t', Input(s), i);
    Restart(g, t, Input(s), i, t');
  }

  /** The first character of a literal chooses the state that reads it. */
  lemma Chosen(g: Config, t: Tok, s: bytes, i: nat, state: State) returns (t': Tok)
    requires AtStart(g, t, s, i)
    requires var c := CharAt(s, i);
      match state
      case Inf => c == 0x49 || c == 0x69
      case NullLit => c == 0x4E || c == 0x6E
      case Boolean => c == 0x54 || c == 0x74 || c == 0x46 || c == 0x66
      case _ => false
    ensures Leads(g, t, i, t', i, Input(s)) && t' == Go(t, state).(pb := [], stPos := 0)
  {
    hide Run, Step, WellFormed;
    InputAt(s, i);
    var t1 := Started(g, t, s, i);
    t' := Go(t1, state).(pb := [], stPos := 0);
    Restart(g, t1, Input(s), i, t');
  }

  /** Infinity, true and false. */
  lemma WordFromStart(g: Config, t: Tok, s: bytes, i: nat, state: State, w: bytes, v: Json, e: Error)
    returns (t': Tok)
    requires AtStart(g, t, s, i) && Reads(state, [], w, v, e) && i < |s| && Same(false, w[0], s[i])
    ensures Answers(g, t, i, t', s, ReadWord(g, s, i, w, v, e))
  {
    hide Run, Step, WellFormed, Answers, AtStart;
    WordsAre();
    IsAtStart(g, t, s, i);
    var t1 := Chosen(g, t, s, i, state);
    assert s[i..i] == [];
    t' := WordRuns(g, t1, s, i, 0, [], w, v, e);
    AnswersBefore(g, t, i, t1, i, t', s, ReadWord(g, s, i, w, v, e));
  }

  lemma IsAtStart(g: Config, t: Tok, s: bytes, i: nat)
    requires AtStart(g, t, s, i)
    ensures WellFormed(g, t) && t.top == CLEAN && t.obj == JNull && i <= |s| && NUL !in s
  {}

  lemma NullFromStart(g: Config, t: Tok, s: bytes, i: nat) returns (t': Tok)
    requires AtStart(g, t, s, i) && (CharAt(s, i) == 0x4E || CharAt(s, i) == 0x6E)
    ensures Answers(g, t, i, t', s, NullOrNaN(g, s, i))
  {
    hide Run, Step, WellFormed, Answers;
    var t1 := Chosen(g, t, s, i, NullLit);
    assert s[i..i] == [];
    t' := NullRuns(g, t1, s, i, 0);
    AnswersBefore(g, t, i, t1, i, t', s, NullOrNaN(g, s, i));
  }

  // ---------------------------------------------------------------- numbers

  lemma NumberCharIs(c: byte)
    ensures c in NUMBER_CHARS <==> IsNumberChar(c)
  {
    if IsDigit(c) { assert NUMBER_CHARS[c - 48] == c; }
    assert NUMBER_CHARS[10] == DOT && NUMBER_CHARS[11] == PLUS && NUMBER_CHARS[12] == MINUS &&
      NUMBER_CHARS[13] == LOWER_E && NUMBER_CHARS[14] == UPPER_E;
  }

  lemma IntegerIs(p: bytes)
    ensures Integer(p) == ParseInt64(p)
  {
    hide DigitRun, Value;
  }

  lemma NumberGoesTo(s: bytes, i: nat)
    requires i < |s| && (0x30 <= s[i] <= 0x39 || s[i] == 0x2D)
    ensures NumberEnd(s, i) > i && forall c | c in s[i..NumberEnd(s, i)] :: IsNumberChar(c)
  {
    var p := s[i..NumberEnd(s, i)];
    NumberCharIs(s[i]);
    forall c | c in p ensures IsNumberChar(c) {
      var k :| 0 <= k < |p| && p[k] == c;
      NumberCharIs(s[i + k]);
    }
  }

  /** The number state behind all number characters. */
  lemma NumberIsRead(g: Config, t: Tok, s: bytes, i: nat) returns (t': Tok)
    requires AtStart(g, t, s, i) && i < |s| && (0x30 <= s[i] <= 0x39 || s[i] == 0x2D)
    ensures var j := NumberEnd(s, i);
      var p := s[i..j];
      && Leads(g, t, i, t', j, Input(s)) && j > i
      && t' == Go(t, Number).(pb := p, caseLen := |p|, isDouble := MarksDouble(p))
  {
    hide Run, Step, WellFormed, MarksDouble, IsNumberChar, NumberEnd;
    InputAt(s, i);
    var j := NumberEnd(s, i);
    var p := s[i..j];
    NumberGoesTo(s, i);
    var t1 := OpenNumeral(g, t, Input(s), i);
    assert Input(s)[i..j] == p;
    NumberRun(g, t1, Input(s), i, p);
    t' := WithNumberChars(t1, p);
    assert [] + p == p;
  }

  /** A minus sign and the letter of Infinity behind it. */
  predicate Infinite(s: bytes, j: nat, p: bytes) {
    p == [0x2D] && (CharAt(s, j) == 0x49 || CharAt(s, j) == 0x69)
  }

  lemma NegativeRuns(g: Config, t: Tok, s: bytes, j: nat, moved: bool) returns (t': Tok)
    requires WellFormed(g, t) && t.top.state == Number && t.top.key == None && t.obj == JNull && t.caseLen == 1
    requires j < |s| && NUL !in s && t.pb == [0x2D] && Infinite(s, j, [0x2D]) && (moved <==> t.stPos != 0)
    ensures Answers(g, t, j, t', s,
                    if moved then Stopped(ErrUnexpected, JNull, j)
                    else ReadWord(g, s, j, WORD_INFINITY, JDouble([0x2D] + WORD_INFINITY), ErrUnexpected))
  {
    hide Run, Step, WellFormed, Numbers.ParseInt64, Answers;
    WordsAre();
    InputAt(s, j);
    var t1 := Go(t, Inf).(caseLen := 0);
    StepAtNumber(g, t, Input(s), j);
    Restart(g, t, Input(s), j, t1);
    t' := t1;
    if moved {
      StaleFails(g, t1, s, j);
      WordFails(g, t1, s, j, t', ErrUnexpected);
      AnswersBefore(g, t, j, t1, j, t', s, Stopped(ErrUnexpected, JNull, j));
    } else {
      assert s[j..j] == [] && [0x2D] + [] == [MINUS];
      t' := WordRuns(g, t1, s, j, 0, [MINUS], INF_TEXT, JDouble(NEG_INF_TEXT), ErrUnexpected);
      AnswersBefore(g, t, j, t1, j, t', s, WordAnswer(g, s, j, 0, INF_TEXT, JDouble(NEG_INF_TEXT), ErrUnexpected));
    }
  }

  lemma StaleFails(g: Config, t: Tok, s: bytes, j: nat)
    requires t.top.state == Inf && t.pb == [MINUS] && t.stPos > 0 && j < |s|
    ensures Step(g, t, Input(s), j) == Halt(Append(t, [CharAt(s, j)]), ErrUnexpected, 0)
  {
    hide Step;
    InputAt(s, j);
    StepAtLiteral(g, t, Input(s), j);
    var pb := [MINUS] + [s[j]];
    assert pb[1..] == [s[j]];
  }

  /** The end of a number that is no infinity. */
  lemma NumberCloses(g: Config, t: Tok, s: bytes, j: nat, moved: bool) returns (t': Tok)
    requires WellFormed(g, t) && t.top.state == Number && t.top.key == None && t.obj == JNull && t.pb != []
    requires t.caseLen == |t.pb| && t.isDouble == MarksDouble(t.pb) && j <= |s| && NUL !in s
    requires CharAt(s, j) !in NUMBER_CHARS && !Infinite(s, j, t.pb) && (moved <==> t.stPos != 0)
    ensures Answers(g, t, j, t', s,
                    if MarksDouble(t.pb) then
                      if g.isDoubleText(t.pb) then Got(JDouble(t.pb), j, moved) else Fail(s, ErrNumber, j)
                    else
                      match Integer(t.pb)
                      case None => Fail(s, ErrNumber, j)
                      case Some(n) =>
                        if g.strict && n != 0 && t.pb[0] == 0x30 then Fail(s, ErrNumber, j) else Got(JInt(n), j, moved))
  {
    hide Run, WellFormed, MarksDouble, ParseInt64, Integer;
    InputAt(s, j);
    NumberCharIs(CharAt(s, j));
    IntegerIs(t.pb);
    StepAtNumber(g, t, Input(s), j);
    hide Step;
    var o := Step(g, t, Input(s), j);
    assert o == FinishNumber(g, t.(caseLen := 0));
    if o.Redo? {
      t' := o.t;
      Restart(g, t, Input(s), j, t');
    } else {
      t' := t;
      HaltsHere(g, t, s, j, t.(caseLen := 0), ErrNumber);
    }
  }

  lemma NumberFromStart(g: Config, t: Tok, s: bytes, i: nat) returns (t': Tok)
    requires AtStart(g, t, s, i) && i < |s| && (0x30 <= s[i] <= 0x39 || s[i] == 0x2D)
    ensures Answers(g, t, i, t', s, ReadNumber(g, s, i, t.stPos != 0))
  {
    hide Run, Step, WellFormed, Answers, Integer;
    IsAtStart(g, t, s, i);
    var j := NumberEnd(s, i);
    var p := s[i..j];
    var t1 := NumberIsRead(g, t, s, i);
    if Infinite(s, j, p) {
      t' := NegativeRuns(g, t1, s, j, t.stPos != 0);
    } else {
      NumberCharIs(CharAt(s, j));
      t' := NumberCloses(g, t1, s, j, t.stPos != 0);
    }
    AnswersBefore(g, t, i, t1, j, t', s, ReadNumber(g, s, i, t.stPos != 0));
  }
}
