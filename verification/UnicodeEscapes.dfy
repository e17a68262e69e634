/**
 What a sequence of \u escapes turns into: always well-formed UTF-8, and the encoding of the UTF-16 text with U+FFFD for
 each unpaired surrogate, exactly when no decoded code point has surrogate bits in its low half.
 */
module UnicodeEscapes {
  import opened Bytes
  import opened JsonValue
  import opened Utf8
  import opened TokenerMachine
  import opened TokenerSteps

  /** A pending high surrogate and the next value: what is replaced at once, and the value that is left. */
  function Pair(hi: nat, u: nat): (bytes, nat) {
    if hi == 0 then ([], u)
    else if IsLowSurrogate(u) then ([], DecodePair(hi, u))
    else (REPLACEMENT, u)
  }

  predicate Waits(v: nat, more: bool) {
    v >= 0x800 && IsHighSurrogate(v) && more
  }

  /**
   The bytes that the machine appends for the 16-bit units `us`, with the high surrogate `hi` pending unless it is 0.
   */
  function Emit(hi: nat, us: seq<nat>): bytes
    decreases |us|
  {
    if us == [] then []
    else
      var (done, v) := Pair(hi, us[0]);
      if Waits(v, |us| > 1) then done + Emit(v, us[1..]) else done + Emission(v) + Emit(0, us[1..])
  }

  predicate Units(us: seq<nat>) {
    forall i | 0 <= i < |us| :: us[i] < 0x10000
  }

  // ---------------------------------------------------------------- the reference

  predicate High(u: nat) { 0xD800 <= u < 0xDC00 }

  predicate Low(u: nat) { 0xDC00 <= u < 0xE000 }

  /** A code point beyond 16 bits. */
  predicate Supplementary(p: nat) { 0x10000 <= p < 0x110000 }

  /** The first unit that UTF-16 gives to such a code point (section 2.1 of RFC 2781). */
  function HighUnit(p: nat): (u: nat)
    requires Supplementary(p)
    ensures High(u)
  {
    0xD800 + (p - 0x10000) / 0x400
  }

  /** The second one. */
  function LowUnit(p: nat): (u: nat)
    requires Supplementary(p)
    ensures Low(u)
  {
    0xDC00 + (p - 0x10000) % 0x400
  }

  /** The code point that is encoded as these two units. */
  ghost function PairPoint(hi: nat, lo: nat): (p: nat)
    requires High(hi) && Low(lo)
    ensures Supplementary(p) && HighUnit(p) == hi && LowUnit(p) == lo
  {
    PairExists(hi, lo);
    var p: nat :| Supplementary(p) && HighUnit(p) == hi && LowUnit(p) == lo;
    p
  }

  lemma PairExists(hi: nat, lo: nat)
    requires High(hi) && Low(lo)
    ensures var p := 0x10000 + (hi - 0xD800) * 0x400 + (lo - 0xDC00);
      Supplementary(p) && HighUnit(p) == hi && LowUnit(p) == lo
  {}

  lemma UnitsDetermine(p: nat, q: nat)
    requires Supplementary(p) && Supplementary(q) && HighUnit(p) == HighUnit(q) && LowUnit(p) == LowUnit(q)
    ensures p == q
  {}

  /** The tokener combines two units to the code point that UTF-16 encodes as them. */
  lemma PairIsDecoded(hi: nat, lo: nat)
    requires High(hi) && Low(lo)
    ensures DecodePair(hi, lo) == PairPoint(hi, lo)
  {
    PairExists(hi, lo);
    UnitsDetermine(0x10000 + (hi - 0xD800) * 0x400 + (lo - 0xDC00), PairPoint(hi, lo));
  }

  /** UTF-16 decoding, with U+FFFD for a surrogate that has no partner. */
  ghost function CodePoints(us: seq<nat>): (r: seq<nat>)
    requires Units(us)
    ensures forall i | 0 <= i < |r| :: IsScalar(r[i])
  {
    if us == [] then []
    else
      if High(us[0]) && |us| > 1 && Low(us[1]) then [PairPoint(us[0], us[1])] + CodePoints(us[2..])
      else [if High(us[0]) || Low(us[0]) then 0xFFFD else us[0]] + CodePoints(us[1..])
  }

  /** UTF-16 encoding. */
  function Utf16(ps: seq<nat>): (us: seq<nat>)
    requires forall i | 0 <= i < |ps| :: IsScalar(ps[i])
    ensures Units(us)
  {
    if ps == [] then []
    else if ps[0] < 0x10000 then [ps[0]] + Utf16(ps[1..])
    else assert IsScalar(ps[0]); [HighUnit(ps[0]), LowUnit(ps[0])] + Utf16(ps[1..])
  }

  /** What has been encoded is decoded again. */
  lemma {:induction false} CodePointsOfUtf16(ps: seq<nat>)
    requires forall i | 0 <= i < |ps| :: IsScalar(ps[i])
    ensures CodePoints(Utf16(ps)) == ps
  {
    hide HighUnit, LowUnit;
    if ps != [] {
      var us, rest := Utf16(ps), Utf16(ps[1..]);
      CodePointsOfUtf16(ps[1..]);
      if ps[0] < 0x10000 {
        assert us[1..] == rest;
      } else {
        assert us[2..] == rest;
        UnitsDetermine(PairPoint(us[0], us[1]), ps[0]);
      }
    }
  }

  function EncodeAll(ps: seq<nat>): bytes
    requires forall i | 0 <= i < |ps| :: IsScalar(ps[i])
  {
    if ps == [] then [] else assert IsScalar(ps[0]); Encode(ps[0]) + EncodeAll(ps[1..])
  }

  /** A code point beyond 16 bits whose low half looks like a surrogate. */
  predicate Ambiguous(p: nat) {
    p >= 0x10000 && (IsHighSurrogate(p) || IsLowSurrogate(p))
  }

  predicate Unambiguous(ps: seq<nat>) {
    forall i | 0 <= i < |ps| :: !Ambiguous(ps[i])
  }

  lemma SurrogateTests(u: nat)
    requires u < 0x10000
    ensures IsHighSurrogate(u) <==> High(u)
    ensures IsLowSurrogate(u) <==> Low(u)
  {}

  lemma ReplacementIsEncoded()
    ensures Encode(0xFFFD) == REPLACEMENT && ValidUtf8(REPLACEMENT) && ValidUtf8([])
  {
    EncodeIsValid(0xFFFD);
  }

  lemma EmissionIsValid(v: nat)
    ensures ValidUtf8(Emission(v))
    ensures Emission(v) == REPLACEMENT || (IsScalar(v) && Emission(v) == Encode(v) && !Ambiguous(v))
  {
    ReplacementIsEncoded();
    if v < 0x800 || !(IsHighSurrogate(v) || IsLowSurrogate(v) || v >= 0x110000) {
      EncodeIsValid(v);
    }
  }

  /** Whatever the escapes say, what they append is well-formed UTF-8. */
  lemma {:induction false} EmitIsValid(hi: nat, us: seq<nat>)
    ensures ValidUtf8(Emit(hi, us))
    decreases |us|
  {
    hide ValidUtf8, Emission;
    ReplacementIsEncoded();
    if us != [] {
      var (done, v) := Pair(hi, us[0]);
      EmissionIsValid(v);
      EmitIsValid(v, us[1..]);
      EmitIsValid(0, us[1..]);
      ValidAppend(done, Emit(v, us[1..]));
      ValidAppend(done, Emission(v));
      ValidAppend(done + Emission(v), Emit(0, us[1..]));
    }
  }

  /** Off the ambiguous code points the machine agrees with the reference. */
  lemma {:induction false} EmitIsEncoding(us: seq<nat>)
    requires Units(us) && Unambiguous(CodePoints(us))
    ensures Emit(0, us) == EncodeAll(CodePoints(us))
    decreases |us|
  {
    hide Encode, Ambiguous, DecodePair, Emit, EncodeAll;
    if us != [] {
      var ps := CodePoints(us);
      EncodeAllIs(ps);
      if High(us[0]) && |us| > 1 && Low(us[1]) {
        assert ps[1..] == CodePoints(us[2..]) && !Ambiguous(ps[0]);
        PairIsDecoded(us[0], us[1]);
        PairStep(us);
        EmitIsEncoding(us[2..]);
      } else {
        assert ps[1..] == CodePoints(us[1..]);
        SingleStep(us);
        EmitIsEncoding(us[1..]);
      }
    } else {
      NothingEmitted();
    }
  }

  lemma NothingEmitted()
    ensures Emit(0, []) == EncodeAll([]) == []
  {}

  lemma PendingReplaced(hi: nat, us: seq<nat>)
    requires us != [] && hi != 0 && !IsLowSurrogate(us[0])
    ensures Emit(hi, us) == REPLACEMENT + Emit(0, us)
  {
    hide Emit, Emission, IsHighSurrogate, IsLowSurrogate, DecodePair;
    var v := us[0];
    EmitUnfolds(hi, us);
    EmitUnfolds(0, us);
    assert [] + Emit(v, us[1..]) == Emit(v, us[1..]) && [] + Emission(v) == Emission(v);
    assert REPLACEMENT + Emission(v) + Emit(0, us[1..]) == REPLACEMENT + (Emission(v) + Emit(0, us[1..]));
  }

  lemma AmbiguousOrEncoded(p: nat)
    requires 0x10000 <= p < 0x110000 && !Ambiguous(p)
    ensures Emission(p) == Encode(p) && !IsHighSurrogate(p)
  {}

  lemma PairStep(us: seq<nat>)
    requires Units(us) && |us| > 1 && High(us[0]) && Low(us[1]) && !Ambiguous(DecodePair(us[0], us[1]))
    ensures Emit(0, us) == Encode(DecodePair(us[0], us[1])) + Emit(0, us[2..])
  {
    hide Encode, Emission, IsHighSurrogate, IsLowSurrogate, DecodePair, Ambiguous, Emit;
    SurrogateTests(us[0]);
    SurrogateTests(us[1]);
    var p, rest := DecodePair(us[0], us[1]), us[1..];
    AmbiguousOrEncoded(p);
    assert rest[1..] == us[2..];
    EmitUnfolds(0, us);
    EmitUnfolds(us[0], rest);
    assert [] + Emit(us[0], rest) == Emit(us[0], rest);
    assert [] + Emission(p) == Emission(p);
  }

  /** What follows a pending ambiguous value never starts with the encoding of an ambiguous code point. */
  lemma {:induction false} PendingAmbiguous(hi: nat, us: seq<nat>) returns (x: bytes, tail: bytes)
    requires us != [] && hi != 0 && Ambiguous(hi)
    ensures Emit(hi, us) == x + tail && StartsPlainly(x)
    decreases |us|
  {
    hide Emission, IsHighSurrogate, IsLowSurrogate, DecodePair, Encode;
    var (done, v) := Pair(hi, us[0]);
    if !IsLowSurrogate(us[0]) {
      x, tail := REPLACEMENT, Emit(0, us);
      PendingReplaced(hi, us);
    } else if Waits(v, |us| > 1) {
      x, tail := PendingAmbiguous(v, us[1..]);
      assert Emit(hi, us) == [] + Emit(v, us[1..]);
    } else {
      x, tail := Emission(v), Emit(0, us[1..]);
      EmissionIsValid(v);
      assert Emit(hi, us) == [] + Emission(v) + Emit(0, us[1..]);
    }
  }

  ghost predicate StartsPlainly(x: bytes) {
    x == REPLACEMENT || exists w: nat :: 0x10000 <= w < 0x110000 && !Ambiguous(w) && x == Encode(w)
  }

  lemma PlainStartDiffers(x: bytes, tail: bytes, p: nat, rest: bytes)
    requires StartsPlainly(x) && p < 0x110000 && Ambiguous(p)
    ensures x + tail != Encode(p) + rest
  {
    var e := Encode(p);
    assert |e| == 4 && e[0] >= 0xF0;
    assert (e + rest)[..4] == e && (e + rest)[0] == e[0];
    if x == REPLACEMENT {
      assert (x + tail)[0] == 0xEF;
    } else {
      var w: nat :| 0x10000 <= w < 0x110000 && !Ambiguous(w) && x == Encode(w);
      DecodeEncode(w);
      DecodeEncode(p);
      assert (x + tail)[..4] == x;
    }
  }

  lemma AmbiguousPairDiffers(us: seq<nat>)
    requires Units(us) && |us| > 1 && High(us[0]) && Low(us[1]) && Ambiguous(DecodePair(us[0], us[1]))
    ensures Emit(0, us) != EncodeAll(CodePoints(us))
  {
    hide Emit, EncodeAll, Encode, Emission, IsHighSurrogate, IsLowSurrogate, DecodePair;
    SurrogateTests(us[0]);
    SurrogateTests(us[1]);
    var p, rest := DecodePair(us[0], us[1]), us[1..];
    var ps := CodePoints(us);
    PairIsDecoded(us[0], us[1]);
    assert ps[0] == p && rest[1..] == us[2..];
    EncodeAllIs(ps);
    EmitUnfolds(0, us);
    EmitUnfolds(us[0], rest);
    assert [] + Emit(us[0], rest) == Emit(us[0], rest) && [] + Emit(p, us[2..]) == Emit(p, us[2..]);
    assert [] + Emission(p) == Emission(p);
    if Waits(p, |rest| > 1) {
      var x, tail := PendingAmbiguous(p, us[2..]);
      PlainStartDiffers(x, tail, p, EncodeAll(ps[1..]));
    } else {
      EmissionIsValid(p);
      PlainStartDiffers(REPLACEMENT, Emit(0, us[2..]), p, EncodeAll(ps[1..]));
    }
  }

  lemma {:induction false} AmbiguousDiffers(us: seq<nat>)
    requires Units(us) && !Unambiguous(CodePoints(us))
    ensures Emit(0, us) != EncodeAll(CodePoints(us))
    decreases |us|
  {
    hide Encode, Ambiguous, DecodePair, Emit, EncodeAll;
    var ps := CodePoints(us);
    var i :| 0 <= i < |ps| && Ambiguous(ps[i]);
    if High(us[0]) && |us| > 1 && Low(us[1]) {
      PairIsDecoded(us[0], us[1]);
      if Ambiguous(ps[0]) {
        AmbiguousPairDiffers(us);
      } else {
        assert ps[1..] == CodePoints(us[2..]) && ps[i] == ps[1..][i - 1];
        AmbiguousDiffers(us[2..]);
        PairStep(us);
        SameStartDiffers(Encode(ps[0]), Emit(0, us[2..]), EncodeAll(ps[1..]));
        EncodeAllIs(ps);
      }
    } else {
      SmallIsUnambiguous(ps[0]);
      assert ps[1..] == CodePoints(us[1..]) && ps[i] == ps[1..][i - 1];
      AmbiguousDiffers(us[1..]);
      SingleStep(us);
      SameStartDiffers(Encode(ps[0]), Emit(0, us[1..]), EncodeAll(ps[1..]));
      EncodeAllIs(ps);
    }
  }

  lemma SmallIsUnambiguous(p: nat)
    ensures p < 0x10000 ==> !Ambiguous(p)
  {}

  lemma EncodeAllIs(ps: seq<nat>)
    requires ps != [] && forall i | 0 <= i < |ps| :: IsScalar(ps[i])
    ensures EncodeAll(ps) == Encode(ps[0]) + EncodeAll(ps[1..])
  {}

  lemma SameStartDiffers(x: bytes, a: bytes, b: bytes)
    requires a != b
    ensures x + a != x + b
  {
    assert (x + a)[|x|..] == a && (x + b)[|x|..] == b;
  }

  lemma EmissionOfUnit(u: nat)
    requires u < 0x10000
    ensures Emission(u) == Encode(if High(u) || Low(u) then 0xFFFD else u)
  {
    hide Encode;
    SurrogateTests(u);
    ReplacementIsEncoded();
  }

  /** A unit that is not the first half of a pair. */
  lemma SingleStep(us: seq<nat>)
    requires Units(us) && us != [] && !(High(us[0]) && |us| > 1 && Low(us[1]))
    ensures Emit(0, us) == Encode(if High(us[0]) || Low(us[0]) then 0xFFFD else us[0]) + Emit(0, us[1..])
  {
    hide Encode, Emission, IsHighSurrogate, IsLowSurrogate, DecodePair, Emit;
    SurrogateTests(us[0]);
    ReplacementIsEncoded();
    EmissionOfUnit(us[0]);
    EmitUnfolds(0, us);
    if High(us[0]) && |us| > 1 {
      SurrogateTests(us[1]);
      PendingReplaced(us[0], us[1..]);
      assert Emit(0, us) == [] + Emit(us[0], us[1..]) == Emit(us[0], us[1..]);
    } else {
      assert [] + Emission(us[0]) == Emission(us[0]);
    }
  }

  lemma EmitUnfolds(hi: nat, us: seq<nat>)
    requires us != []
    ensures var (done, v) := Pair(hi, us[0]);
      Emit(hi, us) == if Waits(v, |us| > 1) then done + Emit(v, us[1..]) else done + Emission(v) + Emit(0, us[1..])
  {}

  /** The machine decodes UTF-16 exactly when no decoded code point is ambiguous. */
  lemma EmitIsEncodingExactlyWhen(us: seq<nat>)
    requires Units(us)
    ensures Emit(0, us) == EncodeAll(CodePoints(us)) <==> Unambiguous(CodePoints(us))
  {
    if Unambiguous(CodePoints(us)) { EmitIsEncoding(us); } else { AmbiguousDiffers(us); }
  }

  // ---------------------------------------------------------------- the machine

  /** `input` holds four hex digits at `i`. */
  predicate HexAt(input: bytes, i: nat) {
    i + 4 <= |input| && IsHex(input[i]) && IsHex(input[i + 1]) && IsHex(input[i + 2]) && IsHex(input[i + 3])
  }

  function UnitAt(input: bytes, i: nat): int
    requires i + 4 <= |input|
  {
    HexDigit(input[i]) * 0x1000 + HexDigit(input[i + 1]) * 0x100 + HexDigit(input[i + 2]) * 0x10 +
      HexDigit(input[i + 3])
  }

  /** From `i` on: the digits of the first unit, and a whole escape for each further one. */
  predicate DigitsAt(input: bytes, i: nat, us: seq<nat>)
    decreases |us|
  {
    us != [] && HexAt(input, i) && UnitAt(input, i) == us[0] &&
    (|us| > 1 ==>
       i + 6 <= |input| && input[i + 4] == BACKSLASH && input[i + 5] == LOWER_U && DigitsAt(input, i + 6, us[1..]))
  }

  /** The escapes for `us` stand at `i`, with any mix of upper and lower case digits. */
  predicate EscapesAt(input: bytes, i: nat, us: seq<nat>) {
    us != [] && i + 2 <= |input| && input[i] == BACKSLASH && input[i + 1] == LOWER_U && DigitsAt(input, i + 2, us)
  }

  lemma HexBounds(c: byte)
    requires IsHex(c)
    ensures 0 <= HexDigit(c) < 16 && c != NUL
  {}

  /** A pass that consumes several characters. */
  lemma ConsumeMany(g: Config, t: Tok, input: bytes, i: nat, t': Tok, n: nat)
    requires WellFormed(g, t) && i < |input| && input[i] != NUL && Step(g, t, input, i) == Advance(t', n)
    ensures i + n <= |input| && Leads(g, t, i, t', i + n, input) && t'.obj == JNull
  {
    hide Step, Shape, Rank, Out, AtEnd;
    StepKeeps(g, t, input, i);
  }

  /** One of the first three digits. */
  lemma OneDigit(g: Config, t: Tok, input: bytes, i: nat, weight: nat) returns (t': Tok)
    requires WellFormed(g, t) && t.top.state == EscapeUnicode && t.stPos < 3 && t.obj == JNull
    requires i < |input| && IsHex(input[i]) && weight == [0x1000, 0x100, 0x10][t.stPos]
    requires 0 <= t.ucs + HexDigit(input[i]) * weight < 0x10000
    ensures t' == t.(ucs := t.ucs + HexDigit(input[i]) * weight, stPos := t.stPos + 1)
    ensures Leads(g, t, i, t', i + 1, input)
  {
    HexBounds(input[i]);
    t' := t.(ucs := t.ucs + HexDigit(input[i]) * weight, stPos := t.stPos + 1);
    Consume(g, t, input, i, t');
  }

  lemma ThreeDigits(g: Config, t: Tok, input: bytes, i: nat) returns (t': Tok)
    requires WellFormed(g, t) && t.top.state == EscapeUnicode && t.ucs == 0 && t.stPos == 0 && t.obj == JNull &&
      HexAt(input, i)
    ensures Leads(g, t, i, t', i + 3, input) && 0 <= UnitAt(input, i) < 0x10000
    ensures t'.stPos == 3 && t'.ucs + HexDigit(input[i + 3]) == UnitAt(input, i) && t' == t.(ucs := t'.ucs, stPos := 3)
  {
    hide Run, Step, WellFormed, HexDigit, IsHex;
    HexBounds(input[i]);
    HexBounds(input[i + 1]);
    HexBounds(input[i + 2]);
    HexBounds(input[i + 3]);
    var t1 := OneDigit(g, t, input, i, 0x1000);
    var t2 := OneDigit(g, t1, input, i + 1, 0x100);
    t' := OneDigit(g, t2, input, i + 2, 0x10);
  }

  /** The last digit of a unit `u`, and what becomes of it. */
  lemma UnitDone(g: Config, t: Tok, input: bytes, i: nat, u: nat) returns (t': Tok)
    requires WellFormed(g, t) && t.top.state == EscapeUnicode && t.stPos == 3 && i < |input| && IsHex(input[i])
    requires u < 0x10000 && t.ucs + HexDigit(input[i]) == u && (EscapeFollows(input, i) ==> i + 3 != |input|)
    ensures var (done, v) := Pair(t.hi, u);
      if Waits(v, EscapeFollows(input, i)) then
        i + 3 <= |input| && Leads(g, t, i, t', i + 3, input) && t' == Append(t, done).(hi := v, ucs := 0, stPos := 0)
      else
        Leads(g, t, i, t', i + 1, input) && t' == Append(Go(t, t.top.saved), done + Emission(v)).(hi := 0, ucs := v,
          stPos := 4)
  {
    hide Run, Emission, WellFormed, IsHighSurrogate, IsLowSurrogate, DecodePair;
    HexBounds(input[i]);
    var (done, v) := Pair(t.hi, u);
    assert AddDigit(t.ucs, input[i], 3) == u;
    var t0 := t.(ucs := u, stPos := 4);
    assert Combine(t0) == Append(t0, done).(hi := 0, ucs := v);
    if Waits(v, EscapeFollows(input, i)) {
      t' := Append(t, done).(hi := v, ucs := 0, stPos := 0);
      assert Step(g, t, input, i) == Advance(t', 3);
      ConsumeMany(g, t, input, i, t', 3);
    } else {
      t' := Append(Go(t, t.top.saved), done + Emission(v)).(hi := 0, ucs := v, stPos := 4);
      assert t.pb + done + Emission(v) == t.pb + (done + Emission(v));
      assert Step(g, t, input, i) == Advance(t', 1);
      ConsumeMany(g, t, input, i, t', 1);
    }
  }

  /** `t'` is `t` back in the text, with `s` appended. */
  predicate Finished(t: Tok, t': Tok, s: bytes) {
    t'.below == t.below && t'.top == Go(t, t.top.saved).top && t'.pb == t.pb + s && t'.quote == t.quote &&
      t'.obj == JNull && t'.hi == 0
  }

  /** The end of the sequence: no further escape follows in this chunk. */
  predicate EndsAt(input: bytes, end: nat) {
    0 < end <= |input| && !EscapeFollows(input, end - 1)
  }

  lemma FollowsInside(input: bytes, i: nat, us: seq<nat>)
    requires DigitsAt(input, i, us) && EndsAt(input, i + 6 * |us| - 2)
    ensures i + 6 * |us| - 2 <= |input| && EscapeFollows(input, i + 3) == (|us| > 1)
    ensures |us| > 1 ==> DigitsAt(input, i + 6, us[1..]) && EndsAt(input, i + 6 + 6 * |us[1..]| - 2)
    ensures us != [] && (|us| > 1 ==> i + 6 < |input| && EscapesAt(input, i + 4, us[1..]))
    ensures HexAt(input, i) && UnitAt(input, i) == us[0]
  {
    hide IsHex, HexDigit;
  }

  /** From the first digit on: the units are emitted, with a surrogate pending or not. */
  lemma {:induction false} DigitsRun(g: Config, t: Tok, input: bytes, i: nat, us: seq<nat>) returns (t': Tok)
    requires WellFormed(g, t) && t.top.state == EscapeUnicode && t.ucs == 0 && t.stPos == 0 && t.obj == JNull
    requires DigitsAt(input, i, us) && EndsAt(input, i + 6 * |us| - 2)
    requires Units(us)
    ensures Leads(g, t, i, t', i + 6 * |us| - 2, input) && Finished(t, t', Emit(t.hi, us))
    decreases |us|, 0
  {
    hide Run, Step, WellFormed, Emission, Pair, EscapeFollows, DigitsAt, EscapesAt, HexAt, UnitAt, Emit, EndsAt,
      HexDigit, IsHex, IsHighSurrogate, IsLowSurrogate, DecodePair;
    FollowsInside(input, i, us);
    HexAtLast(input, i);
    SavedIsText(g, t);
    var t1 := ThreeDigits(g, t, input, i);
    var t2 := UnitDone(g, t1, input, i + 3, us[0]);
    var (done, v) := Pair(t.hi, us[0]);
    EmitUnfolds(t.hi, us);
    if Waits(v, |us| > 1) {
      t' := DigitsRun(g, t2, input, i + 6, us[1..]);
      assert t.pb + (done + Emit(v, us[1..])) == t.pb + done + Emit(v, us[1..]);
    } else if |us| == 1 {
      t' := t2;
      EmitNothing();
      assert us[1..] == [] && done + Emission(v) + [] == done + Emission(v);
    } else {
      t' := TextThenDigits(g, t2, input, i + 4, us[1..]);
      assert t.pb + (done + Emission(v) + Emit(0, us[1..])) == t.pb + (done + Emission(v)) + Emit(0, us[1..]);
    }
  }

  lemma SavedIsText(g: Config, t: Tok)
    requires WellFormed(g, t) && t.top.state == EscapeUnicode
    ensures InText(t.top.saved)
  {}

  lemma EmitNothing()
    ensures forall hi: nat :: Emit(hi, []) == []
  {}

  lemma HexAtLast(input: bytes, i: nat)
    requires HexAt(input, i)
    ensures i + 4 <= |input| && IsHex(input[i + 3])
  {}

  /** From the backslash of an escape on. */
  lemma {:induction false} TextThenDigits(g: Config, t: Tok, input: bytes, i: nat, us: seq<nat>) returns (t': Tok)
    requires WellFormed(g, t) && InText(t.top.state) && t.hi == 0 && t.obj == JNull
    requires EscapesAt(input, i, us) && EndsAt(input, i + 6 * |us|) && Units(us)
    ensures Leads(g, t, i, t', i + 6 * |us|, input)
    ensures t'.below == t.below && t'.top == t.top.(saved := t.top.state) && t'.pb == t.pb + Emit(0, us) &&
      t'.quote == t.quote
    ensures t'.obj == JNull && t'.hi == 0
    decreases |us|, 1
  {
    hide Run, Step, WellFormed, Emission, EscapeFollows, DigitsAt, Emit, EndsAt;
    var t1 := IntoEscape(g, t, input, i);
    t' := DigitsRun(g, t1, input, i + 2, us);
  }

  lemma IntoEscape(g: Config, t: Tok, input: bytes, i: nat) returns (t': Tok)
    requires WellFormed(g, t) && InText(t.top.state) && t.obj == JNull
    requires i + 2 <= |input| && input[i] == BACKSLASH && input[i + 1] == LOWER_U
    ensures Leads(g, t, i, t', i + 2, input)
    ensures t' == t.(top := t.top.(saved := t.top.state, state := EscapeUnicode), ucs := 0, stPos := 0)
  {
    hide Run, Step, WellFormed, CString;
    var t1 := t.(top := t.top.(saved := t.top.state, state := StrEscape));
    StepAtText(g, t, input, i);
    QuoteIsNoBackslash(g, t);
    Consume(g, t, input, i, t1);
    t' := t1.(top := t1.top.(state := EscapeUnicode), ucs := 0, stPos := 0);
    StepAtText(g, t1, input, i + 1);
    Consume(g, t1, input, i + 1, t');
  }

  lemma QuoteIsNoBackslash(g: Config, t: Tok)
    requires WellFormed(g, t) && InText(t.top.state)
    ensures t.quote != BACKSLASH
  {}

  /**
   A run of escapes read in one call: the text so far is followed by well-formed UTF-8, which is the encoding of the
   UTF-16 text exactly when no decoded code point is ambiguous.
   */
  lemma EscapesAreDecoded(g: Config, t: Tok, input: bytes, i: nat, us: seq<nat>) returns (t': Tok)
    requires WellFormed(g, t) && InText(t.top.state) && t.hi == 0 && t.obj == JNull
    requires EscapesAt(input, i, us) && EndsAt(input, i + 6 * |us|) && Units(us)
    ensures Leads(g, t, i, t', i + 6 * |us|, input)
    ensures t'.below == t.below && t'.top == t.top.(saved := t.top.state) && t'.quote == t.quote && t'.obj == JNull &&
      t'.hi == 0
    ensures t.pb <= t'.pb && ValidUtf8(t'.pb[|t.pb|..])
    ensures t'.pb == t.pb + EncodeAll(CodePoints(us)) <==> Unambiguous(CodePoints(us))
  {
    hide Run, Step, WellFormed, EscapesAt, EndsAt, Emit, ValidUtf8;
    t' := TextThenDigits(g, t, input, i, us);
    EmitIsValid(0, us);
    EmitIsEncodingExactlyWhen(us);
    assert t'.pb[|t.pb|..] == Emit(0, us);
    if t'.pb == t.pb + EncodeAll(CodePoints(us)) {
      assert (t.pb + EncodeAll(CodePoints(us)))[|t.pb|..] == EncodeAll(CodePoints(us));
    }
  }

  /**
   A text in UTF-16, written as escapes and read in one call, comes back in UTF-8 exactly when none of its code points
   is ambiguous.
   */
  lemma EscapedTextIsReadExactlyWhen(g: Config, t: Tok, input: bytes, i: nat, ps: seq<nat>) returns (t': Tok)
    requires forall k | 0 <= k < |ps| :: IsScalar(ps[k])
    requires WellFormed(g, t) && InText(t.top.state) && t.hi == 0 && t.obj == JNull
    requires EscapesAt(input, i, Utf16(ps)) && EndsAt(input, i + 6 * |Utf16(ps)|)
    ensures Leads(g, t, i, t', i + 6 * |Utf16(ps)|, input)
    ensures t'.pb == t.pb + EncodeAll(ps) <==> Unambiguous(ps)
  {
    hide Run, Step, WellFormed, EscapesAt, EndsAt, EncodeAll, Unambiguous;
    CodePointsOfUtf16(ps);
    t' := EscapesAreDecoded(g, t, input, i, Utf16(ps));
  }

  /** The escapes of one code point beyond 16 bits. */
  lemma EscapedPairIsRead(g: Config, t: Tok, input: bytes, i: nat, p: nat) returns (t': Tok)
    requires Supplementary(p) && !Ambiguous(p)
    requires WellFormed(g, t) && InText(t.top.state) && t.hi == 0 && t.obj == JNull
    requires EscapesAt(input, i, [HighUnit(p), LowUnit(p)]) && EndsAt(input, i + 12)
    ensures Leads(g, t, i, t', i + 12, input) && t'.pb == t.pb + Encode(p)
  {
    hide Run, Step, WellFormed, EscapesAt, EndsAt, Encode, Ambiguous, HighUnit, LowUnit;
    assert [p][1..] == [];
    assert Utf16([p]) == [HighUnit(p), LowUnit(p)] + [] == [HighUnit(p), LowUnit(p)];
    t' := EscapedTextIsReadExactlyWhen(g, t, input, i, [p]);
    assert EncodeAll([p]) == Encode(p) + [] == Encode(p);
  }
}
