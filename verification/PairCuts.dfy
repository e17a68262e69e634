/** What becomes of a surrogate pair when a chunk ends inside it, for each of the places where it can end. */
module PairCuts {
  import opened Bytes
  import opened JsonValue
  import opened Utf8
  import opened TokenerMachine
  import opened TokenerInvariant
  import opened TokenerChunks
  import opened TokenerSteps
  import opened GrammarStrings
  import opened GrammarTexts
  import opened UnicodeEscapes

  /** The twelve characters of a high surrogate and a low one, with any mix of digit cases. */
  predicate IsPair(e: bytes, hi: nat, lo: nat) {
    |e| == 12 && EscapesAt(e, 0, [hi, lo]) && High(hi) && Low(lo)
  }

  /** A chunk that ends behind the first `k` characters separates the halves of the pair. */
  predicate Separates(k: nat) {
    6 <= k < 12
  }

  // ---------------------------------------------------------------- inside one escape

  /** An escape from its backslash on. */
  predicate IsEscape(e: bytes) {
    |e| >= 6 && e[0] == BACKSLASH && e[1] == LOWER_U && HexAt(e, 2)
  }

  /** The value of the first `n` digits at `j`, as the machine adds them up. */
  function Partial(e: bytes, j: nat, n: nat): (u: nat)
    requires n <= 4 && j + n <= |e|
    ensures u < 0x1_0000_0000
  {
    if n == 0 then 0 else AddDigit(Partial(e, j, n - 1), e[j + n - 1], n - 1)
  }

  /** The text state `t` after the first `n` characters of an escape. */
  function Into(t: Tok, e: bytes, n: nat): Tok
    requires n < 6 <= |e|
  {
    if n == 0 then t
    else if n == 1 then t.(top := t.top.(saved := t.top.state, state := StrEscape))
    else t.(top := t.top.(saved := t.top.state, state := EscapeUnicode), ucs := Partial(e, 2, n - 2), stPos := n - 2)
  }

  /** `e` stands in `input` at `i`, as far as its first `n` characters. */
  predicate Begins(input: bytes, i: nat, e: bytes, n: nat) {
    n <= |e| && i + n <= |input| && forall k | 0 <= k < n :: input[i + k] == e[k]
  }

  lemma {:induction false} DigitsLead(g: Config, t: Tok, input: bytes, i: nat, e: bytes, n: nat)
    requires WellFormed(g, t) && t.top.state == EscapeUnicode && t.ucs == 0 && t.stPos == 0 && t.obj == JNull
    requires IsEscape(e) && n <= 3 && Begins(input, i, e[2..], n)
    ensures Leads(g, t, i, t.(ucs := Partial(e, 2, n), stPos := n), i + n, input)
    decreases n
  {
    hide Run, AddDigit, IsHex;
    if n > 0 {
      DigitsLead(g, t, input, i, e, n - 1);
      var t1 := t.(ucs := Partial(e, 2, n - 1), stPos := n - 1);
      var t2 := t.(ucs := Partial(e, 2, n), stPos := n);
      assert input[i + n - 1] == e[2..][n - 1] == e[n + 1];
      HexBounds(e[n + 1]);
      Consume(g, t1, input, i + n - 1, t2);
    }
  }

  /** Up to the last digit of an escape, nothing is decided. */
  lemma IntoLeads(g: Config, t: Tok, input: bytes, i: nat, e: bytes, n: nat)
    requires WellFormed(g, t) && InText(t.top.state) && t.hi == 0 && t.obj == JNull
    requires IsEscape(e) && n < 6 && Begins(input, i, e, n)
    ensures Leads(g, t, i, Into(t, e, n), i + n, input) && Into(t, e, n).hi == 0 && Into(t, e, n).obj == JNull
  {
    hide Run, Step, WellFormed, Partial, IsHex;
    if n == 1 {
      BackslashLeads(g, t, input, i);
    } else if n >= 2 {
      assert input[i] == e[0] && input[i + 1] == e[1];
      var t2 := IntoEscape(g, t, input, i);
      assert forall k | 0 <= k < n - 2 :: input[i + 2 + k] == e[2 + k] == e[2..][k];
      DigitsLead(g, t2, input, i + 2, e, n - 2);
    }
  }

  lemma BackslashLeads(g: Config, t: Tok, input: bytes, i: nat)
    requires WellFormed(g, t) && InText(t.top.state) && t.obj == JNull && i < |input| && input[i] == BACKSLASH
    ensures Leads(g, t, i, t.(top := t.top.(saved := t.top.state, state := StrEscape)), i + 1, input)
  {
    hide Run, Step, WellFormed, CString;
    StepAtText(g, t, input, i);
    QuoteIsNoBackslash(g, t);
    Consume(g, t, input, i, t.(top := t.top.(saved := t.top.state, state := StrEscape)));
  }

  lemma PartialIsUnit(e: bytes)
    requires IsEscape(e)
    ensures Partial(e, 2, 3) + HexDigit(e[5]) == UnitAt(e, 2)
  {
    hide IsHex, HexDigit;
    HexBounds(e[2]);
    HexBounds(e[3]);
    HexBounds(e[4]);
    HexBounds(e[5]);
    assert Partial(e, 2, 1) == HexDigit(e[2]) * 0x1000;
    assert Partial(e, 2, 2) == HexDigit(e[2]) * 0x1000 + HexDigit(e[3]) * 0x100;
    assert Partial(e, 2, 3) == HexDigit(e[2]) * 0x1000 + HexDigit(e[3]) * 0x100 + HexDigit(e[4]) * 0x10;
  }

  // ---------------------------------------------------------------- what the halves turn into

  lemma PairIs(e: bytes, hi: nat, lo: nat)
    requires IsPair(e, hi, lo)
    ensures IsEscape(e) && IsEscape(e[6..]) && UnitAt(e, 2) == hi
    ensures EscapesAt(e[6..], 0, [lo]) && EscapesAt(e[..6], 0, [hi])
    ensures Units([hi, lo]) && Units([hi]) && Units([lo])
  {
    hide IsHex, HexDigit;
    var d := e[6..];
    assert [hi, lo][1..] == [lo];
    assert DigitsAt(e, 8, [lo]);
    assert d[0] == e[6] && d[1] == e[7] && d[2] == e[8] && d[3] == e[9] && d[4] == e[10] && d[5] == e[11];
    assert HexAt(d, 2) && UnitAt(d, 2) == lo;
    assert HexAt(e[..6], 2) && UnitAt(e[..6], 2) == hi;
  }

  /** One call makes a code point of the pair; each half by itself is a replacement character. */
  lemma PairsAndHalves(hi: nat, lo: nat)
    requires High(hi) && Low(lo)
    ensures Emit(0, [hi, lo]) == Emission(DecodePair(hi, lo)) && |Emission(DecodePair(hi, lo))| <= 4
    ensures Emit(0, [hi]) == REPLACEMENT && Emit(0, [lo]) == REPLACEMENT
    ensures IsHighSurrogate(hi) && Emission(hi) == REPLACEMENT
  {
    hide Emission, DecodePair, IsHighSurrogate, IsLowSurrogate;
    SurrogateTests(hi);
    SurrogateTests(lo);
    EmissionOfUnit(hi);
    EmissionOfUnit(lo);
    ReplacementIsEncoded();
    EmissionIsValid(DecodePair(hi, lo));
    EmitUnfolds(0, [hi, lo]);
    EmitUnfolds(hi, [lo]);
    EmitUnfolds(0, [hi]);
    EmitUnfolds(0, [lo]);
    EmitNothing();
    assert [hi, lo][1..] == [lo] && [lo][1..] == [] && [hi][1..] == [];
  }

  // ---------------------------------------------------------------- the first call

  /** A run that arrives at the end of its chunk with nothing pending leaves the machine there behind. */
  lemma StopsAt(g: Config, t: Tok, a: bytes, t': Tok)
    requires WellFormed(g, t) && Idle(t) && Leads(g, t, 0, t', |a|, a) && t'.hi == 0 && t'.obj == JNull
    requires InText(t'.top.state) || t'.top.state == StrEscape || t'.top.state == EscapeUnicode
    ensures ParseEx(g, t, a).err == Continue && ParseEx(g, t, a).tok == t'
  {
    TokAtCut(g, t', |a|);
  }

  /** The first half, with no escape behind it in the chunk. */
  lemma HalfAlone(g: Config, t: Tok, e: bytes, hi: nat, lo: nat, a: bytes) returns (u: Tok)
    requires WellFormed(g, t) && InText(t.top.state) && Idle(t) && IsPair(e, hi, lo)
    requires 6 <= |a| <= 7 && a == e[..|a|]
    ensures Leads(g, t, 0, u, 6, a) && InPlaceOf(t, u, REPLACEMENT)
  {
    hide Run, Step, WellFormed, EscapesAt, Emit, EndsAt, Emission, DecodePair, IsHighSurrogate;
    PairIs(e, hi, lo);
    PairsAndHalves(hi, lo);
    assert a[..6] == e[..6];
    EscapesInside(e[..6], a, [hi]);
    NothingAhead(a);
    u := TextThenDigits(g, t, a, 0, [hi]);
    InTextIsQuiet(g, u);
  }

  lemma NothingAhead(a: bytes)
    requires 6 <= |a| <= 7
    ensures EndsAt(a, 6)
  {}

  /** A single escape needs no more than its own characters. */
  lemma EscapesInside(e: bytes, a: bytes, us: seq<nat>)
    requires |us| == 1 && EscapesAt(e, 0, us) && |e| == 6 <= |a| && a[..6] == e
    ensures EscapesAt(a, 0, us)
  {
    hide IsHex, HexDigit;
    assert forall k | 0 <= k < 6 :: a[k] == a[..6][k] == e[k];
  }

  /** `u` is back in the text that `t` was in, with `s` appended and nothing pending. */
  predicate InPlaceOf(t: Tok, u: Tok, s: bytes) {
    && u.below == t.below && u.top == t.top.(saved := t.top.state) && u.pb == t.pb + s && u.quote == t.quote
    && u.obj == JNull && u.hi == 0 && u.caseLen == 0
  }

  /** The first half and the backslash and the `u` of the second: the high surrogate is pending. */
  lemma HalfPending(g: Config, t: Tok, e: bytes, hi: nat, lo: nat, a: bytes) returns (t': Tok)
    requires WellFormed(g, t) && InText(t.top.state) && Idle(t) && IsPair(e, hi, lo)
    requires 9 <= |a| <= 12 && a == e[..|a|]
    ensures Leads(g, t, 0, t', 8, a) && t' == Into(t, e, 2).(hi := hi)
  {
    hide Run, Step, WellFormed, EscapesAt, Emission, DecodePair;
    PairIs(e, hi, lo);
    PairsAndHalves(hi, lo);
    IntoLeads(g, t, a, 0, e, 5);
    PartialIsUnit(e);
    assert e[6..][0] == e[6] && e[6..][1] == e[7];
    EscapeStarts(e[6..], lo);
    assert a[5] == e[5] && EscapeFollows(a, 5);
    t' := UnitDone(g, Into(t, e, 5), a, 5, hi);
    assert t.pb + [] == t.pb;
  }

  lemma EscapeStarts(e: bytes, u: nat)
    requires EscapesAt(e, 0, [u])
    ensures e[0] == BACKSLASH && e[1] == LOWER_U
  {}

  /** The call that is cut in the digits of the second half replaces the first one. */
  lemma CutInDigits(g: Config, t: Tok, e: bytes, hi: nat, lo: nat, k: nat) returns (u: Tok)
    requires WellFormed(g, t) && InText(t.top.state) && Idle(t) && IsPair(e, hi, lo) && 9 <= k < 12
    ensures InPlaceOf(t, u, REPLACEMENT) && WellFormed(g, u)
    ensures ParseEx(g, t, e[..k]).err == Continue && ParseEx(g, t, e[..k]).tok == Into(u, e[6..], k - 6)
  {
    hide Run, Step, EscapesAt, IsEscape, Emit, Emission, DecodePair;
    var a, d, n := e[..k], e[6..], k - 8;
    PairIs(e, hi, lo);
    var t1 := HalfPending(g, t, e, hi, lo, a);
    SecondDigits(e, a, n);
    DigitsLead(g, t1, a, 8, d, n);
    var t2 := t1.(ucs := Partial(d, 2, n), stPos := n);
    u := Append(t, REPLACEMENT).(top := t.top.(saved := t.top.state));
    TextGrows(g, t, u);
    hide Partial, WellFormed;
    EndsPending(g, t2, a, k);
    assert Flush(t2).(hi := 0) == Into(u, d, k - 6);
  }

  lemma SecondDigits(e: bytes, a: bytes, n: nat)
    requires |e| == 12 && n < 4 && a == e[..8 + n]
    ensures Begins(a, 8, e[6..][2..], n)
  {
    assert forall x | 0 <= x < n :: a[8 + x] == e[8 + x] == e[6..][2..][x];
  }

  lemma TextGrows(g: Config, t: Tok, u: Tok)
    requires WellFormed(g, t) && InText(t.top.state) &&
      u == Append(t, REPLACEMENT).(top := t.top.(saved := t.top.state))
    ensures WellFormed(g, u)
  {
    hide BelowOk;
  }

  lemma EndsPending(g: Config, t: Tok, a: bytes, i: nat)
    requires WellFormed(g, t) && t.top.state == EscapeUnicode && t.hi != 0 && t.obj == JNull && i == |a|
    ensures Run(g, t, a, i).err == Continue && Run(g, t, a, i).tok == Flush(t).(hi := 0)
  {}

  /** The call that is cut right behind the second `\u` leaves a position behind that no call can start from. */
  lemma CutBehindU(g: Config, t: Tok, e: bytes, hi: nat, lo: nat)
    requires WellFormed(g, t) && InText(t.top.state) && Idle(t) && IsPair(e, hi, lo)
    ensures ParseEx(g, t, e[..8]).err == Continue && CutBehindEscape(ParseEx(g, t, e[..8]).tok)
    ensures ParseEx(g, t, e[..8]).tok.pb == t.pb + REPLACEMENT
  {
    hide Run, Step, WellFormed, EscapesAt, Emission, DecodePair;
    var a := e[..8];
    PairIs(e, hi, lo);
    PairsAndHalves(hi, lo);
    IntoLeads(g, t, a, 0, e, 5);
    PartialIsUnit(e);
    assert e[6..][0] == e[6] && e[6..][1] == e[7];
    EscapeStarts(e[6..], lo);
    LookAheadEnds(g, Into(t, e, 5), a, hi);
  }

  lemma LookAheadEnds(g: Config, t: Tok, a: bytes, hi: nat)
    requires WellFormed(g, t) && t.top.state == EscapeUnicode && t.stPos == 3 && t.hi == 0 && t.obj == JNull
    requires |a| == 8 && IsHex(a[5]) && a[6] == BACKSLASH && a[7] == LOWER_U
    requires t.ucs + HexDigit(a[5]) == hi && IsHighSurrogate(hi) && High(hi)
    ensures var r := Run(g, t, a, 5); r.err == Continue && CutBehindEscape(r.tok) && r.tok.pb == t.pb + REPLACEMENT
  {
    hide IsHighSurrogate;
    HexBounds(a[5]);
    var t1 := t.(ucs := hi, stPos := 4);
    assert AddDigit(t.ucs, a[5], 3) == hi;
    assert Step(g, t, a, 5) == Halt(Append(t1, REPLACEMENT), Continue, 3);
  }

  /** What the first call leaves behind when the cut separates the halves, but for the cut behind the second `\u`. */
  lemma FirstHalfGone(g: Config, t: Tok, e: bytes, hi: nat, lo: nat, k: nat) returns (u: Tok)
    requires WellFormed(g, t) && InText(t.top.state) && Idle(t) && IsPair(e, hi, lo) && Separates(k) && k != 8
    ensures InPlaceOf(t, u, REPLACEMENT) && WellFormed(g, u)
    ensures ParseEx(g, t, e[..k]).err == Continue && ParseEx(g, t, e[..k]).tok == Into(u, e[6..], k - 6)
  {
    hide Run, Step, EscapesAt;
    if k >= 9 {
      u := CutInDigits(g, t, e, hi, lo, k);
    } else {
      var a := e[..k];
      u := HalfAlone(g, t, e, hi, lo, a);
      if k == 7 {
        assert a[6] == e[6] == e[6..][0];
        PairIs(e, hi, lo);
        BackslashLeads(g, u, a, 6);
      }
      StopsAt(g, t, a, Into(u, e[6..], k - 6));
    }
  }

  // ---------------------------------------------------------------- both calls

  /** What one call makes of the pair. */
  lemma PairInOneCall(g: Config, t: Tok, e: bytes, hi: nat, lo: nat, tail: bytes) returns (v: Tok)
    requires WellFormed(g, t) && InText(t.top.state) && Idle(t) && IsPair(e, hi, lo) && EndsAt(e + tail, 12)
    ensures Leads(g, t, 0, v, 12, e + tail) && InPlaceOf(t, v, Emission(DecodePair(hi, lo)))
  {
    hide Run, Step, WellFormed, EscapesAt, Emit, Emission, DecodePair, EndsAt;
    PairIs(e, hi, lo);
    PairsAndHalves(hi, lo);
    PairInside(e, e + tail, hi, lo);
    v := TextThenDigits(g, t, e + tail, 0, [hi, lo]);
    InTextIsQuiet(g, v);
  }

  lemma InTextIsQuiet(g: Config, t: Tok)
    requires WellFormed(g, t) && InText(t.top.state)
    ensures t.caseLen == 0
  {}

  lemma PairInside(e: bytes, s: bytes, hi: nat, lo: nat)
    requires IsPair(e, hi, lo) && e <= s
    ensures EscapesAt(s, 0, [hi, lo])
  {
    hide IsHex, HexDigit;
    assert forall k | 0 <= k < 12 :: s[k] == e[k];
    assert [hi, lo][1..] == [lo];
    assert DigitsAt(e, 8, [lo]);
    assert DigitsAt(s, 8, [lo]);
  }

  /** The characters that follow the pair in the second chunk do not continue it. */
  predicate Apart(tail: bytes) {
    !(|tail| >= 2 && tail[0] == BACKSLASH && tail[1] == LOWER_U)
  }

  /** What the second call finds when it has read the rest of the pair. */
  predicate SecondCall(g: Config, t1: Tok, b: bytes, v: Tok, tail: bytes, k: nat)
    requires k <= 12
  {
    WellFormed(g, t1) && Idle(t1) && WellFormed(g, v) && ParseEx(g, t1, b) == Shift(Run(g, v, tail, 0), 12 - k)
  }

  lemma PairInTwoCalls(g: Config, t: Tok, e: bytes, hi: nat, lo: nat, k: nat, tail: bytes) returns (v: Tok)
    requires WellFormed(g, t) && InText(t.top.state) && Idle(t) && IsPair(e, hi, lo) && k <= 12 && k != 8 && Apart(tail)
    ensures ParseEx(g, t, e[..k]).err == Continue
    ensures SecondCall(g, ParseEx(g, t, e[..k]).tok, e[k..] + tail, v, tail, k)
    ensures InPlaceOf(t, v, if Separates(k) then REPLACEMENT + REPLACEMENT else Emission(DecodePair(hi, lo)))
  {
    hide Run, Step, EscapesAt, Emission, DecodePair, WellFormed;
    assert EndsAt(e + tail, 12) by { assert |tail| >= 2 ==> (e + tail)[12] == tail[0] && (e + tail)[13] == tail[1]; }
    assert e[..k] + (e[k..] + tail) == e + tail;
    PairIs(e, hi, lo);
    if k < 6 {
      v := CutEarly(g, t, e, hi, lo, k, tail);
    } else if k < 12 {
      var u := FirstHalfGone(g, t, e, hi, lo, k);
      v := RestOfPair(g, u, e[6..], lo, k - 6, tail);
      assert e[6..][k - 6..] == e[k..];
      assert t.pb + REPLACEMENT + REPLACEMENT == t.pb + (REPLACEMENT + REPLACEMENT);
    } else {
      assert e + [] == e && e[..12] == e && e[12..] + tail == tail;
      assert EndsAt(e + [], 12);
      v := PairInOneCall(g, t, e, hi, lo, []);
      StopsAt(g, t, e, v);
    }
  }

  /** The cut lies in the first escape. */
  lemma CutEarly(g: Config, t: Tok, e: bytes, hi: nat, lo: nat, k: nat, tail: bytes) returns (v: Tok)
    requires WellFormed(g, t) && InText(t.top.state) && Idle(t) && IsPair(e, hi, lo) && k < 6 && EndsAt(e + tail, 12)
    ensures ParseEx(g, t, e[..k]).err == Continue
    ensures SecondCall(g, ParseEx(g, t, e[..k]).tok, e[k..] + tail, v, tail, k)
    ensures InPlaceOf(t, v, Emission(DecodePair(hi, lo)))
  {
    hide Run, Step, EscapesAt, Emission, DecodePair, EndsAt, WellFormed, Partial, IsEscape;
    var s, b, t1 := e + tail, e[k..] + tail, Into(t, e, k);
    PairIs(e, hi, lo);
    IntoLeads(g, t, e[..k], 0, e, k);
    StopsAt(g, t, e[..k], t1);
    IntoLeads(g, t, s, 0, e, k);
    IdleInEscape(g, t1);
    v := PairInOneCall(g, t, e, hi, lo, tail);
    assert e[..k] + b == s;
    RunShifted(g, t1, e[..k], b, 0);
    RunShifted(g, v, e, tail, 0);
  }

  lemma IdleInEscape(g: Config, t: Tok)
    requires WellFormed(g, t) && t.hi == 0 && t.obj == JNull && t.top.state != Number
    ensures Idle(t)
  {}

  /** The second call reads on in an escape that the first call has begun, as if it had begun it itself. */
  lemma RestOfPair(g: Config, u: Tok, d: bytes, lo: nat, n: nat, tail: bytes) returns (v: Tok)
    requires WellFormed(g, u) && InText(u.top.state) && Idle(u) && n < 6 == |d|
    requires IsEscape(d) && EscapesAt(d, 0, [lo]) && Low(lo) && Apart(tail)
    ensures SecondCall(g, Into(u, d, n), d[n..] + tail, v, tail, n + 6) && InPlaceOf(u, v, REPLACEMENT)
  {
    hide Run, Step, EscapesAt, Emit;
    var s, b, t1 := d + tail, d[n..] + tail, Into(u, d, n);
    IntoLeads(g, u, s, 0, d, n);
    EscapesInside(d, s, [lo]);
    assert EndsAt(s, 6) by { assert |tail| >= 2 ==> s[6] == tail[0] && s[7] == tail[1]; }
    v := TextThenDigits(g, u, s, 0, [lo]);
    PairsAndHalves(0xD800, lo);
    InTextIsQuiet(g, v);
    assert d[..n] + b == s;
    RunShifted(g, t1, d[..n], b, 0);
    RunShifted(g, v, d, tail, 0);
    ShiftsAgree(ParseEx(g, t1, b), Run(g, v, tail, 0), n, 6);
  }

  lemma ShiftsAgree(r: Result, q: Result, n: nat, m: nat)
    requires n <= m && Shift(r, n) == Shift(q, m)
    ensures r == Shift(q, m - n)
  {}

  /**
   A pair cut behind `k` of its twelve characters, in any text state: the second call leaves the buffer of one call if
   and only if the cut does not separate the two escapes. Otherwise both are replaced, or, right behind the second
   `\u`, no call can follow.
   */
  lemma PairCutExactlyWhen(g: Config, t: Tok, e: bytes, hi: nat, lo: nat, k: nat)
    requires WellFormed(g, t) && InText(t.top.state) && Idle(t) && IsPair(e, hi, lo) && k <= 12
    ensures var one, first := ParseEx(g, t, e), ParseEx(g, t, e[..k]);
      && one.err == first.err == Continue && one.tok.pb == t.pb + Emission(DecodePair(hi, lo))
      && (CutBehindEscape(first.tok) <==> k == 8)
      && (k != 8 ==> WellFormed(g, first.tok) && Idle(first.tok) && ParseEx(g, first.tok, e[k..]).err == Continue)
      && (k != 8 ==> (ParseEx(g, first.tok, e[k..]).tok.pb == one.tok.pb <==> !Separates(k)))
      && (k != 8 && Separates(k) ==> ParseEx(g, first.tok, e[k..]).tok.pb == t.pb + REPLACEMENT + REPLACEMENT)
  {
    hide Run, Step, EscapesAt, Emission, DecodePair, Leads;
    assert e + [] == e && e[k..] + [] == e[k..];
    assert EndsAt(e + [], 12);
    var w := PairInOneCall(g, t, e, hi, lo, []);
    StopsAt(g, t, e, w);
    PairsAndHalves(hi, lo);
    if k == 8 {
      CutBehindU(g, t, e, hi, lo);
    } else {
      var v := PairInTwoCalls(g, t, e, hi, lo, k, []);
      TokAtCut(g, v, 0);
      NothingMore(g, v);
      var s := if Separates(k) then REPLACEMENT + REPLACEMENT else Emission(DecodePair(hi, lo));
      assert t.pb + REPLACEMENT + REPLACEMENT == t.pb + (REPLACEMENT + REPLACEMENT);
      if Separates(k) { assert |v.pb| == |t.pb| + 6; }
    }
  }

  lemma NothingMore(g: Config, v: Tok)
    requires WellFormed(g, v) && InText(v.top.state) && Idle(v)
    ensures Run(g, v, [], 0).err == Continue && Run(g, v, [], 0).tok == v
  {
    TokAtCut(g, v, 0);
  }

  // ---------------------------------------------------------------- a whole text

  /** The text `"` pair `"` NUL, in one call or in two. */
  lemma CutStringExactlyWhen(g: Config, t: Tok, e: bytes, hi: nat, lo: nat, k: nat)
    requires WellFormed(g, t) && Idle(t) && t.below == [] && t.top == CLEAN && IsPair(e, hi, lo) && k <= 12 && k != 8
    ensures var a, b := [DQUOTE] + e[..k], e[k..] + [DQUOTE, NUL];
      var one, first := ParseEx(g, t, a + b), ParseEx(g, t, a);
      && one.err == Success && one.value == JString(Emission(DecodePair(hi, lo)))
      && first.err == Continue && WellFormed(g, first.tok) && Idle(first.tok)
      && var two := ParseEx(g, first.tok, b);
         two.err == Success && two.value == if Separates(k) then JString(REPLACEMENT + REPLACEMENT) else one.value
  {
    hide Run, Step, EscapesAt, Emission, DecodePair, WellFormed;
    var a, b, end := [DQUOTE] + e[..k], e[k..] + [DQUOTE, NUL], [DQUOTE, NUL];
    assert a + b == [DQUOTE] + (e + end) by { assert e[..k] + (e[k..] + end) == e + end; }
    StringInOneCall(g, t, e, hi, lo);
    var t1 := OpenText(g, t, e[..k]);
    var v := PairInTwoCalls(g, t1, e, hi, lo, k, end);
    StringEnds(g, v, end, 0);
    assert [] + REPLACEMENT + REPLACEMENT == REPLACEMENT + REPLACEMENT;
  }

  /** The quote opens the text, and the rest of the call is a call on the open text. */
  lemma OpenText(g: Config, t: Tok, s: bytes) returns (t': Tok)
    requires WellFormed(g, t) && Idle(t) && t.below == [] && t.top == CLEAN
    ensures WellFormed(g, t') && Idle(t') && t' == Go(t, Str).(pb := [], quote := DQUOTE)
    ensures ParseEx(g, t, [DQUOTE] + s) == Shift(ParseEx(g, t', s), 1)
  {
    hide Run, Step;
    t' := OpenString(g, t, [DQUOTE] + s, 0);
    RunShifted(g, t', [DQUOTE], s, 0);
  }

  lemma StringInOneCall(g: Config, t: Tok, e: bytes, hi: nat, lo: nat)
    requires WellFormed(g, t) && Idle(t) && t.below == [] && t.top == CLEAN && IsPair(e, hi, lo)
    ensures var one := ParseEx(g, t, [DQUOTE] + (e + [DQUOTE, NUL]));
      one.err == Success && one.value == JString(Emission(DecodePair(hi, lo)))
  {
    hide Run, Step, IsPair, Emission, DecodePair, WellFormed;
    var end := [DQUOTE, NUL];
    var t1 := OpenText(g, t, e + end);
    TwelveCharacters(e, hi, lo);
    assert EndsAt(e + end, 12);
    var w := PairInOneCall(g, t1, e, hi, lo, end);
    StringEnds(g, w, e + end, 12);
    assert [] + Emission(DecodePair(hi, lo)) == Emission(DecodePair(hi, lo));
  }

  lemma TwelveCharacters(e: bytes, hi: nat, lo: nat)
    requires IsPair(e, hi, lo)
    ensures |e| == 12
  {}

  lemma StringEnds(g: Config, t: Tok, input: bytes, i: nat)
    requires WellFormed(g, t) && t.below == [] && t.top.state == Str && t.quote == DQUOTE && t.obj == JNull
    requires i + 2 == |input| && input[i] == DQUOTE && input[i + 1] == NUL
    ensures Run(g, t, input, i).err == Success && Run(g, t, input, i).value == JString(t.pb)
  {
    hide Run, Step;
    var t1 := CloseString(g, t, input, i);
    EndsAtNul(g, t1, input, i + 1);
  }

  /** The escapes of U+1F600. */
  const SMILEY: bytes := [BACKSLASH, LOWER_U, 0x64, 0x38, 0x33, 0x64, BACKSLASH, LOWER_U, 0x64, 0x65, 0x30, 0x30]

  lemma SmileyIsAPair()
    ensures IsPair(SMILEY, 0xD83D, 0xDE00)
  {
    assert [0xD83D, 0xDE00][1..] == [0xDE00];
    assert DigitsAt(SMILEY, 8, [0xDE00]);
    assert DigitsAt(SMILEY, 2, [0xD83D, 0xDE00]);
  }

  /** `"\ud83d\ude00"` cut behind the first escape: U+1F600 becomes two replacement characters. */
  lemma CutSmiley(g: Config)
    requires g.maxDepth > 0
    ensures WellFormed(g, NEW)
    ensures var a, b := [DQUOTE] + SMILEY[..6], SMILEY[6..] + [DQUOTE, NUL];
      ParseEx(g, NEW, a + b).value == JString([0xF0, 0x9F, 0x98, 0x80]) && WellFormed(g, ParseEx(g, NEW, a).tok) &&
      Idle(ParseEx(g, NEW, a).tok) && ParseEx(g, ParseEx(g, NEW, a).tok, b).value == JString(REPLACEMENT + REPLACEMENT)
  {
    hide Run, Step, IsPair, Emission, DecodePair;
    NewIsWellFormed(g);
    SmileyIsAPair();
    CutStringExactlyWhen(g, NEW, SMILEY, 0xD83D, 0xDE00, 6);
    SmileyIs();
  }

  lemma NewIsWellFormed(g: Config)
    requires g.maxDepth > 0
    ensures WellFormed(g, NEW) && Idle(NEW)
  {}

  lemma SmileyIs()
    ensures Emission(DecodePair(0xD83D, 0xDE00)) == [0xF0, 0x9F, 0x98, 0x80]
  {}

  // ---------------------------------------------------------------- a pair that the surrogate tests misread

  /** The escapes of U+1D800, whose low 16 bits look like a high surrogate. */
  const AMBIGUOUS: bytes := [BACKSLASH, LOWER_U, 0x64, 0x38, 0x33, 0x36, BACKSLASH, LOWER_U, 0x64, 0x63, 0x30, 0x30]

  lemma AmbiguousIsAPair()
    ensures IsPair(AMBIGUOUS, 0xD836, 0xDC00) && !Unambiguous(CodePoints([0xD836, 0xDC00]))
  {
    assert IsPair(AMBIGUOUS, 0xD836, 0xDC00) by {
      assert [0xD836, 0xDC00][1..] == [0xDC00];
      assert DigitsAt(AMBIGUOUS, 8, [0xDC00]);
      assert DigitsAt(AMBIGUOUS, 2, [0xD836, 0xDC00]);
    }
    AmbiguousPoint();
  }

  lemma AmbiguousPoint()
    ensures !Unambiguous(CodePoints([0xD836, 0xDC00]))
  {
    UnitsDetermine(PairPoint(0xD836, 0xDC00), 0x1D800);
    hide PairPoint;
    assert CodePoints([0xD836, 0xDC00])[0] == 0x1D800;
    assert Ambiguous(0x1D800);
  }

  /** `"\ud836\udc00"` NUL, in one call: a code point that UTF-16 can encode is replaced. */
  lemma AmbiguousIsReplaced(g: Config)
    requires g.maxDepth > 0
    ensures WellFormed(g, NEW)
    ensures var r := ParseEx(g, NEW, [DQUOTE] + (AMBIGUOUS + [DQUOTE, NUL]));
      r.err == Success && r.value == JString(REPLACEMENT) && r.value != JString(EncodeAll(CodePoints([0xD836, 0xDC00])))
  {
    hide Run, Step, IsPair, Emission, DecodePair, Emit, Unambiguous;
    NewIsWellFormed(g);
    AmbiguousIsAPair();
    StringInOneCall(g, NEW, AMBIGUOUS, 0xD836, 0xDC00);
    PairsAndHalves(0xD836, 0xDC00);
    EmitIsEncodingExactlyWhen([0xD836, 0xDC00]);
    AmbiguousEmission();
  }

  lemma AmbiguousEmission()
    ensures Emission(DecodePair(0xD836, 0xDC00)) == REPLACEMENT
  {
    hide Emission, Encode;
    assert DecodePair(0xD836, 0xDC00) == 0x1D800 && Ambiguous(0x1D800);
    EmissionIsValid(0x1D800);
  }
}
