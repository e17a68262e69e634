/**
 `json_parse_int64` (json_util.c) with its workaround for a broken sscanf: what it returns for every string, whatever
 sscanf makes of numbers that do not fit.
 */
module ParseInt64 {
  import opened Bytes
  import opened JsonValue
  import opened OrderedMap
  import opened Numbers

  /** The outcome of `sscanf(buf, "%" SCNd64, &num64)` and of errno. */
  datatype Scan = Scan(matched: bool, num: int, erange: bool)

  predicate InRange(v: int) {
    INT64_MIN <= v <= INT64_MAX
  }

  function SkipSpaces(s: bytes): bytes {
    if s != [] && IsSpace(s[0]) then SkipSpaces(s[1..]) else s
  }

  predicate Negative(s: bytes) {
    s != [] && s[0] == MINUS
  }

  predicate Plussed(s: bytes) {
    s != [] && s[0] == PLUS
  }

  function Unsigned(s: bytes): bytes {
    if Negative(s) || Plussed(s) then s[1..] else s
  }

  function Run(s: bytes): bytes {
    DigitRun(Unsigned(s))
  }

  /** The number that the text stands for. */
  function Meaning(s: bytes): int {
    if Negative(s) then -(Value(Run(s)) as int) else Value(Run(s))
  }

  /** There is text behind the digits. */
  predicate Trailing(s: bytes) {
    |Run(s)| < |Unsigned(s)|
  }

  /**
   Exact in range. Out of range a working sscanf reports ERANGE; a broken one may leave any number instead.
   */
  predicate Faithful(s: bytes, broken: bool, scan: Scan) {
    (scan.matched <==> Run(s) != []) && InRange(scan.num) &&
    (Run(s) != [] && InRange(Meaning(s)) ==> scan.num == Meaning(s) && !scan.erange) &&
    (Run(s) != [] && !InRange(Meaning(s)) && !broken ==> scan.erange)
  }

  /** When the workaround gives a wrong value: it then gives INT64_MAX. */
  predicate Misread(s: bytes, broken: bool, scan: Scan) {
    broken && !scan.erange && Run(s) != [] &&
    ((Negative(s) && Meaning(s) < INT64_MIN && scan.num == 0) ||
     (Plussed(s) && Meaning(s) < INT64_MAX) ||
     (Meaning(s) == 0 && Trailing(s)))
  }

  /** A C string reads as NUL behind its end. */
  function CharAt(s: bytes, i: nat): byte {
    if i < |s| then s[i] else NUL
  }

  // ---------------------------------------------------------------- digits

  predicate AllDigits(s: bytes) {
    forall c | c in s :: IsDigit(c)
  }

  lemma {:induction false} LeadingZero(s: bytes)
    requires AllDigits(s) && s != [] && s[0] == ZERO
    ensures AllDigits(s[1..]) && Value(s) == Value(s[1..])
  {
    if |s| == 1 {
      assert s[..0] == [] && s[1..] == [];
    } else {
      var h := s[..|s| - 1];
      assert h[0] == s[0];
      LeadingZero(h);
      assert s[1..][..|s| - 2] == h[1..];
      assert s[1..][|s| - 2] == s[|s| - 1];
    }
  }

  /** Without a leading zero the numeral is the one that printing gives. */
  lemma {:induction false} Canonical(s: bytes)
    requires AllDigits(s) && s != [] && s[0] != ZERO
    ensures Value(s) > 0 && Digits(Value(s)) == s
  {
    var h := s[..|s| - 1];
    var last := s[|s| - 1];
    assert last in s && s == h + [last];
    if |s| == 1 {
      assert h == [];
    } else {
      assert AllDigits(h) && h[0] == s[0];
      Canonical(h);
      LastDigit(h, last);
    }
  }

  lemma LastDigit(h: bytes, last: byte)
    requires AllDigits(h) && IsDigit(last) && Value(h) > 0
    ensures AllDigits(h + [last]) && Value(h + [last]) > 0 && Digits(Value(h + [last])) == Digits(Value(h)) + [last]
  {
    hide Value;
    ValueMore(h, last);
    Quotient(Value(h), last - ZERO);
  }

  lemma Quotient(v: nat, n: nat)
    requires n < 10
    ensures (10 * v + n) / 10 == v && (10 * v + n) % 10 == n
  {}

  /** The comparison of the workaround: digits of the text against a printed number. */
  predicate SameDigits(sig: bytes, p: bytes) {
    |p| <= |sig| && sig[..|p|] == p && !(|sig| != |p| && IsDigit(CharAt(sig, |p|)))
  }

  /** It accepts exactly the run of digits. */
  lemma SameDigitsIs(d: bytes, rest: bytes, p: bytes)
    requires AllDigits(d) && AllDigits(p) && p != [] && (rest != [] ==> !IsDigit(rest[0]))
    ensures SameDigits(d + rest, p) <==> d == p
  {
    var sig := d + rest;
    assert forall i | 0 <= i < |d| :: sig[i] == d[i] && d[i] in d;
    assert forall i | 0 <= i < |p| :: p[i] in p;
    assert forall i | |d| <= i < |sig| :: sig[i] == rest[i - |d|];
    assert |p| <= |sig| ==> forall i | 0 <= i < |p| :: sig[..|p|][i] == sig[i];
    assert sig[..|d|] == d;
  }

  // ---------------------------------------------------------------- the function

  /** The text after the sign and the leading zeros, as the workaround finds it. */
  function Significant(s: bytes): bytes {
    if CharAt(s, 0) == ZERO && CharAt(s, 1) != NUL then Significant(s[1..]) else s
  }

  lemma {:induction false} SignificantIs(d: bytes, rest: bytes)
    requires AllDigits(d) && d != [] && NUL !in rest && (rest != [] ==> !IsDigit(rest[0]))
    ensures Value(d) > 0 ==> Significant(d + rest) == Digits(Value(d)) + rest
    ensures Value(d) == 0 ==> Significant(d + rest) == if rest == [] then [ZERO] else rest
  {
    var s := d + rest;
    if d[0] != ZERO {
      Canonical(d);
    } else {
      LeadingZero(d);
      if |d| > 1 {
        assert s[1..] == d[1..] + rest && d[1] in d;
        SignificantIs(d[1..], rest);
      } else {
        assert d[1..] == [] && s[1..] == rest;
        if rest == [] {
          assert s == [ZERO];
        } else {
          assert rest[0] in rest;
        }
      }
    }
  }

  lemma NoDigit(s: bytes)
    requires s != [] && !IsDigit(s[0])
    ensures forall p | AllDigits(p) && p != [] :: !SameDigits(s, p)
  {
    forall p | AllDigits(p) && p != [] ensures !SameDigits(s, p) {
      assert p[0] in p;
      if |p| <= |s| { assert s[..|p|][0] == s[0]; }
    }
  }

  /** What the workaround compares, and what it concludes. */
  predicate Overflowed(s: bytes, num: int) {
    var printed := PrintInt(num);
    var negative := if num == 0 then false else Negative(s);
    var sig := Significant(if Negative(s) then s[1..] else s);
    var p := if num < 0 then printed[1..] else printed;
    negative != (num < 0) || !SameDigits(sig, p)
  }

  /** In the comparison the printed number is a digit string without a leading zero. */
  lemma OverflowedMeans(s: bytes, num: int)
    requires NUL !in s && Run(s) != [] && InRange(num)
    ensures !Overflowed(s, num) <==> num == Meaning(s) && !Plussed(s) && !(num == 0 && Trailing(s))
  {
    hide Significant, SameDigits, DigitRun, Value, Digits, PrintInt, IsDigit;
    var d, u := Run(s), Unsigned(s);
    var rest := u[|d|..];
    assert u == d + rest;
    assert NUL !in rest && NUL !in u;
    var m: nat := if num < 0 then -num else num;
    PrintedDigits(num);
    var p := Digits(m);
    var v := Value(d);
    if Plussed(s) {
      PlusIsSignificant(s);
      NoDigit(s);
    } else {
      SignificantIs(d, rest);
      if v > 0 {
        SameDigitsIs(Digits(v), rest, p);
      } else if rest == [] {
        OneZero();
        SameDigitsIs([ZERO], [], p);
        assert [ZERO] + [] == [ZERO];
        ZeroIs(m);
      } else {
        NoDigit(rest);
      }
    }
  }

  lemma PrintedDigits(num: int)
    ensures num < 0 ==> PrintInt(num) != [] && PrintInt(num)[1..] == Digits(-num)
    ensures num >= 0 ==> PrintInt(num) == Digits(num)
  {}

  lemma PlusIsSignificant(s: bytes)
    requires Plussed(s)
    ensures Significant(s) == s && !IsDigit(s[0])
  {}

  lemma OneZero()
    ensures AllDigits([ZERO])
  {}

  lemma ZeroIs(m: nat)
    ensures Digits(m) == [ZERO] <==> m == 0
  {
    if m == 0 { assert Digits(0) == [ZERO]; }
    assert Value([ZERO]) == 10 * Value([]);
  }

  /** Skips spaces, and leading zeros for the comparison, by advancing in the text. */
  method ParseInt64(buf: bytes, broken: bool, scan: Scan) returns (r: Option<int>)
    requires NUL !in buf && Faithful(SkipSpaces(buf), broken, scan)
    ensures r == Numbers.ParseInt64(SkipSpaces(buf)) <==> !Misread(SkipSpaces(buf), broken, scan)
    ensures Misread(SkipSpaces(buf), broken, scan) ==> r == Some(INT64_MAX)
    ensures Run(SkipSpaces(buf)) == [] ==> r == None
    ensures Run(SkipSpaces(buf)) != [] && !Misread(SkipSpaces(buf), broken, scan) ==>
      r.Some? && Saturates(Meaning(SkipSpaces(buf)), r.value)
  {
    var s := buf;
    while s != [] && IsSpace(s[0])
      invariant NUL !in s && SkipSpaces(s) == SkipSpaces(buf)
      decreases |s|
    {
      s := s[1..];
    }
    if !scan.matched { return None; }
    var num, erange := scan.num, scan.erange;
    var sig, hasNeg := s, false;
    if CharAt(s, 0) == MINUS {
      sig, hasNeg := s[1..], true;
    }
    ghost var neg := hasNeg;
    if broken && !erange {
      ghost var all := Significant(sig);
      while CharAt(sig, 0) == ZERO && CharAt(sig, 1) != NUL
        invariant Significant(sig) == all
        decreases |sig|
      {
        sig := sig[1..];
      }
      if num == 0 { hasNeg := false; }
      var cmp, recheckNeg := PrintInt(num), false;
      if cmp != [] && cmp[0] == MINUS {
        cmp, recheckNeg := cmp[1..], true;
      }
      PrintedSign(num);
      if hasNeg != recheckNeg || !SameDigits(sig, cmp) {
        erange := true;
      }
      OverflowedMeans(s, num);
      assert erange == Overflowed(s, num);
    }
    if erange {
      num := if hasNeg then INT64_MIN else INT64_MAX;
    }
    return Some(num);
  }

  lemma PrintedSign(n: int)
    ensures PrintInt(n) != [] && (PrintInt(n)[0] == MINUS <==> n < 0)
  {
    if n >= 0 { assert Digits(n)[0] in Digits(n); }
  }

  /**
   An optionally negative decimal string, leading zeros included, is never misread as long as sscanf does not leave 0
   for a number out of range.
   */
  lemma DecimalIsNeverMisread(s: bytes, d: bytes, broken: bool, scan: Scan)
    requires d != [] && AllDigits(d) && (s == d || s == [MINUS] + d)
    requires Faithful(s, broken, scan) && (InRange(Meaning(s)) || scan.num != 0)
    ensures !Misread(s, broken, scan)
  {
    DigitRunWhole(d);
    assert d[0] in d;
    if s != d { assert s[1..] == d; }
  }

  /** What printing gives is read back as it was, by any sscanf that is exact in range. */
  lemma PrintedIsReadBack(n: int, broken: bool, scan: Scan)
    requires InRange(n) && Faithful(PrintInt(n), broken, scan)
    ensures !Misread(PrintInt(n), broken, scan) && Numbers.ParseInt64(PrintInt(n)) == Some(n) &&
      Meaning(PrintInt(n)) == n
  {
    var m: nat := if n < 0 then -n else n;
    var d := Digits(m);
    DigitRunWhole(d);
    assert d[0] in d;
    if n < 0 { assert PrintInt(n)[1..] == d; }
    PrintParseInt(n);
    DecimalIsNeverMisread(PrintInt(n), d, broken, scan);
  }

  // ---------------------------------------------------------------- texts that are misread

  /** `+5` */
  const PLUS_FIVE: bytes := [PLUS, ZERO + 5]

  /** `0x` */
  const ZERO_X: bytes := [ZERO, 0x78]

  /** `9223372036854775809` */
  const ABOVE: bytes := [57, 50, 50, 51, 51, 55, 50, 48, 51, 54, 56, 53, 52, 55, 55, 53, 56, 48, 57]

  /** One less than the smallest 64-bit integer. */
  const BELOW_MIN: bytes := [MINUS] + ABOVE

  lemma DigitOfAbove(k: nat)
    requires k < |ABOVE|
    ensures AllDigits(ABOVE[..k]) && AllDigits(ABOVE[..k + 1])
    ensures Value(ABOVE[..k + 1]) == 10 * Value(ABOVE[..k]) + (ABOVE[k] as int - ZERO)
  {
    hide Value;
    assert ABOVE[..k + 1] == ABOVE[..k] + [ABOVE[k]];
    ValueMore(ABOVE[..k], ABOVE[k]);
  }

  lemma ValueOfAbove()
    ensures AllDigits(ABOVE) && Value(ABOVE) == 9223372036854775809
  {
    assert Value(ABOVE[..0]) == 0;
    hide Value, AllDigits;
    DigitOfAbove(0);
    assert Value(ABOVE[..1]) == 9;
    DigitOfAbove(1);
    assert Value(ABOVE[..2]) == 92;
    DigitOfAbove(2);
    assert Value(ABOVE[..3]) == 922;
    DigitOfAbove(3);
    assert Value(ABOVE[..4]) == 9223;
    DigitOfAbove(4);
    assert Value(ABOVE[..5]) == 92233;
    DigitOfAbove(5);
    assert Value(ABOVE[..6]) == 922337;
    DigitOfAbove(6);
    assert Value(ABOVE[..7]) == 9223372;
    DigitOfAbove(7);
    assert Value(ABOVE[..8]) == 92233720;
    DigitOfAbove(8);
    assert Value(ABOVE[..9]) == 922337203;
    DigitOfAbove(9);
    assert Value(ABOVE[..10]) == 9223372036;
    DigitOfAbove(10);
    assert Value(ABOVE[..11]) == 92233720368;
    DigitOfAbove(11);
    assert Value(ABOVE[..12]) == 922337203685;
    DigitOfAbove(12);
    assert Value(ABOVE[..13]) == 9223372036854;
    DigitOfAbove(13);
    assert Value(ABOVE[..14]) == 92233720368547;
    DigitOfAbove(14);
    assert Value(ABOVE[..15]) == 922337203685477;
    DigitOfAbove(15);
    assert Value(ABOVE[..16]) == 9223372036854775;
    DigitOfAbove(16);
    assert Value(ABOVE[..17]) == 92233720368547758;
    DigitOfAbove(17);
    assert Value(ABOVE[..18]) == 922337203685477580;
    DigitOfAbove(18);
    assert Value(ABOVE[..19]) == 9223372036854775809;
    assert ABOVE[..19] == ABOVE;
  }

  lemma DigitsThen(d: bytes, rest: bytes)
    requires AllDigits(d) && (rest != [] ==> !IsDigit(rest[0]))
    ensures DigitRun(d + rest) == d
  {
    if d == [] {
      assert d + rest == rest;
    } else {
      assert d[0] in d && (d + rest)[1..] == d[1..] + rest;
      DigitsThen(d[1..], rest);
    }
  }

  lemma OneDigitValue(c: byte)
    requires IsDigit(c)
    ensures AllDigits([c]) && Value([c]) == c - ZERO
  {
    assert [c][..0] == [];
  }

  /** Each of the three ways to be misread happens, with a sscanf that is exact in range. */
  lemma MisreadTexts()
    ensures Faithful(PLUS_FIVE, true, Scan(true, 5, false)) && Misread(PLUS_FIVE, true, Scan(true, 5, false))
    ensures Faithful(ZERO_X, true, Scan(true, 0, false)) && Misread(ZERO_X, true, Scan(true, 0, false))
    ensures Faithful(BELOW_MIN, true, Scan(true, 0, false)) && Misread(BELOW_MIN, true, Scan(true, 0, false))
    ensures NUL !in PLUS_FIVE && NUL !in ZERO_X && NUL !in BELOW_MIN
  {
    hide DigitRun, Value, Digits;
    OneDigitValue(ZERO + 5);
    DigitsThen([ZERO + 5], []);
    assert PLUS_FIVE[1..] == [ZERO + 5] + [];
    OneDigitValue(ZERO);
    DigitsThen([ZERO], [0x78]);
    assert ZERO_X == [ZERO] + [0x78];
    ValueOfAbove();
    DigitsThen(ABOVE, []);
    assert BELOW_MIN[1..] == ABOVE == ABOVE + [];
    assert forall c | c in BELOW_MIN :: c == MINUS || c in ABOVE;
  }
}
