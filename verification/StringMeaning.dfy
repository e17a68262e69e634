/**
 What a string of the grammar says: its text in UTF-8, with each pair of escaped surrogates as one code point and
 U+FFFD for an escaped surrogate without a partner. The tokener agrees exactly when no such pair has surrogate bits in
 its low half.
 */
module StringMeaning {
  import opened Bytes
  import opened Utf8
  import opened UnicodeEscapes
  import opened TokenerMachine
  import opened Grammar
  import opened GrammarStrings

  /** The value of the first escape. */
  function First(ps: seq<Piece>): (u: nat)
    requires PiecesOk(ps) && StartsWithUnit(ps)
    ensures u < 0x10000
  {
    UnitValue(ps[0].digits)
  }

  /** The string starts with two escapes that make a code point. */
  predicate StartsWithPair(ps: seq<Piece>)
    requires PiecesOk(ps)
  {
    StartsWithUnit(ps) && High(First(ps)) && StartsWithUnit(ps[1..]) && Low(First(ps[1..]))
  }

  /** The code point that UTF-16 encodes as the two escapes. */
  ghost function PairValue(ps: seq<Piece>): (p: nat)
    requires PiecesOk(ps) && StartsWithPair(ps)
    ensures 0x10000 <= p < 0x110000
  {
    PairPoint(First(ps), First(ps[1..]))
  }

  /** The code point of an escape by itself. */
  function Alone(u: nat): (p: nat)
    requires u < 0x10000
    ensures IsScalar(p)
  {
    if High(u) || Low(u) then 0xFFFD else u
  }

  ghost function Spelled(ps: seq<Piece>): bytes
    requires PiecesOk(ps)
    decreases |ps|
  {
    if ps == [] then []
    else if StartsWithPair(ps) then assert PiecesOk(ps[1..]); Encode(PairValue(ps)) + Spelled(ps[1..][1..])
    else if ps[0].Unit? then Encode(Alone(First(ps))) + Spelled(ps[1..])
    else [ByteOf(ps[0])] + Spelled(ps[1..])
  }

  ghost predicate HasAmbiguousPair(ps: seq<Piece>)
    requires PiecesOk(ps)
    decreases |ps|
  {
    ps != [] &&
    if StartsWithPair(ps) then assert PiecesOk(ps[1..]); Ambiguous(PairValue(ps)) || HasAmbiguousPair(ps[1..][1..])
    else HasAmbiguousPair(ps[1..])
  }

  lemma SaidUnit(hi: nat, ps: seq<Piece>)
    requires PiecesOk(ps) && StartsWithUnit(ps)
    ensures var (done, v) := Pair(hi, First(ps));
      Said(hi, ps) ==
        if Waits(v, StartsWithUnit(ps[1..])) then done + Said(v, ps[1..]) else done + Emission(v) + Said(0, ps[1..])
  {}

  lemma PendingIsReplaced(hi: nat, ps: seq<Piece>)
    requires PiecesOk(ps) && StartsWithUnit(ps) && hi != 0 && !IsLowSurrogate(First(ps))
    ensures Said(hi, ps) == REPLACEMENT + Said(0, ps)
  {
    hide Said, Emission, IsHighSurrogate, IsLowSurrogate, DecodePair, PieceOk, First;
    var v := First(ps);
    SaidUnit(hi, ps);
    SaidUnit(0, ps);
    assert [] + Said(v, ps[1..]) == Said(v, ps[1..]) && [] + Emission(v) == Emission(v);
    assert REPLACEMENT + Emission(v) + Said(0, ps[1..]) == REPLACEMENT + (Emission(v) + Said(0, ps[1..]));
  }

  /** An escape that is not the first half of a pair. */
  lemma SaidAlone(ps: seq<Piece>)
    requires PiecesOk(ps) && StartsWithUnit(ps) && !StartsWithPair(ps)
    ensures Said(0, ps) == Encode(Alone(First(ps))) + Said(0, ps[1..])
  {
    hide Said, Emission, IsHighSurrogate, IsLowSurrogate, DecodePair, Encode, PieceOk, First;
    var u, rest := First(ps), ps[1..];
    SurrogateTests(u);
    ReplacementIsEncoded();
    EmissionOfUnit(u);
    SaidUnit(0, ps);
    assert [] + Said(u, rest) == Said(u, rest) && [] + Emission(u) == Emission(u);
    if High(u) && StartsWithUnit(rest) {
      SurrogateTests(First(rest));
      PendingIsReplaced(u, rest);
    }
  }

  lemma SaidPair(ps: seq<Piece>)
    requires PiecesOk(ps) && StartsWithPair(ps)
    ensures Said(0, ps) == Said(First(ps), ps[1..])
    ensures var p, more := PairValue(ps), ps[1..][1..];
      Said(0, ps) == if Waits(p, StartsWithUnit(more)) then Said(p, more) else Emission(p) + Said(0, more)
  {
    hide Said, Emission, IsHighSurrogate, IsLowSurrogate, DecodePair, PieceOk, First;
    var u, rest := First(ps), ps[1..];
    var p, more := PairValue(ps), rest[1..];
    SurrogateTests(u);
    SurrogateTests(First(rest));
    PairIsDecoded(u, First(rest));
    SaidUnit(0, ps);
    SaidUnit(u, rest);
    assert [] + Said(u, rest) == Said(u, rest) && [] + Said(p, more) == Said(p, more) &&
      [] + Emission(p) == Emission(p);
  }

  /** What follows a pending ambiguous value never starts with the encoding of an ambiguous code point. */
  lemma {:induction false} PendingStartsPlainly(hi: nat, ps: seq<Piece>) returns (x: bytes, tail: bytes)
    requires PiecesOk(ps) && StartsWithUnit(ps) && hi != 0 && Ambiguous(hi)
    ensures Said(hi, ps) == x + tail && StartsPlainly(x)
    decreases |ps|
  {
    hide Said, Emission, IsHighSurrogate, IsLowSurrogate, DecodePair, Encode, PieceOk, First;
    var u := First(ps);
    var (done, v) := Pair(hi, u);
    if !IsLowSurrogate(u) {
      x, tail := REPLACEMENT, Said(0, ps);
      PendingIsReplaced(hi, ps);
    } else {
      SaidUnit(hi, ps);
      if Waits(v, StartsWithUnit(ps[1..])) {
        x, tail := PendingStartsPlainly(v, ps[1..]);
        assert [] + Said(v, ps[1..]) == Said(v, ps[1..]);
      } else {
        x, tail := Emission(v), Said(0, ps[1..]);
        EmissionIsValid(v);
        assert [] + Emission(v) == Emission(v);
      }
    }
  }

  lemma AmbiguousPairDiffersFrom(ps: seq<Piece>, rest: bytes)
    requires PiecesOk(ps) && StartsWithPair(ps) && Ambiguous(PairValue(ps))
    ensures Said(0, ps) != Encode(PairValue(ps)) + rest
  {
    hide Said, Emission, IsHighSurrogate, IsLowSurrogate, DecodePair, Encode, PieceOk, First;
    var p, more := PairValue(ps), ps[1..][1..];
    SaidPair(ps);
    if Waits(p, StartsWithUnit(more)) {
      var x, tail := PendingStartsPlainly(p, more);
      PlainStartDiffers(x, tail, p, rest);
    } else {
      EmissionIsValid(p);
      PlainStartDiffers(REPLACEMENT, Said(0, more), p, rest);
    }
  }

  /** The string states return the text that the string says if and only if no pair in it is ambiguous. */
  lemma {:induction false} SaidIsSpelledExactlyWhen(ps: seq<Piece>)
    requires PiecesOk(ps)
    ensures Said(0, ps) == Spelled(ps) <==> !HasAmbiguousPair(ps)
    decreases |ps|
  {
    hide Said, Emission, IsHighSurrogate, IsLowSurrogate, DecodePair, Encode, Ambiguous, PieceOk, ByteOf, First;
    if ps == [] {
      NothingSaid();
    } else if StartsWithPair(ps) {
      var p, more := PairValue(ps), ps[1..][1..];
      if Ambiguous(p) {
        AmbiguousPairDiffersFrom(ps, Spelled(more));
      } else {
        SaidPair(ps);
        AmbiguousOrEncoded(p);
        SaidIsSpelledExactlyWhen(more);
        StartsAgree(Encode(p), Said(0, more), Spelled(more));
      }
    } else {
      SaidIsSpelledExactlyWhen(ps[1..]);
      if ps[0].Unit? {
        SaidAlone(ps);
        StartsAgree(Encode(Alone(First(ps))), Said(0, ps[1..]), Spelled(ps[1..]));
      } else {
        SaidByte(ps);
        StartsAgree([ByteOf(ps[0])], Said(0, ps[1..]), Spelled(ps[1..]));
      }
    }
  }

  lemma NothingSaid()
    ensures Said(0, []) == []
  {}

  lemma StartsAgree(x: bytes, a: bytes, b: bytes)
    ensures x + a == x + b <==> a == b
  {
    if a != b { SameStartDiffers(x, a, b); }
  }
}
