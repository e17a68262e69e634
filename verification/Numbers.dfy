/** Decimal numerals and the value that `json_parse_int64` gives to a numeral. */
module Numbers {
  import opened Bytes
  import opened JsonValue
  import opened OrderedMap

  /** The longest prefix of decimal digits. */
  function DigitRun(s: bytes): (r: bytes)
    ensures r <= s && (forall c | c in r :: IsDigit(c))
    ensures |r| < |s| ==> !IsDigit(s[|r|])
  {
    if s == [] || !IsDigit(s[0]) then [] else [s[0]] + DigitRun(s[1..])
  }

  /** The value of a digit string, most significant digit first. */
  function Value(s: bytes): nat
    requires forall c | c in s :: IsDigit(c)
  {
    if s == [] then 0 else assert IsDigit(s[|s| - 1]); 10 * Value(s[..|s| - 1]) + (s[|s| - 1] as int - ZERO)
  }

  function Clamp(n: int): int {
    if n < INT64_MIN then INT64_MIN else if n > INT64_MAX then INT64_MAX else n
  }

  /** `n` is `v` where 64 bits hold it, and otherwise the end of the range on the side of `v`. */
  predicate Saturates(v: int, n: int) {
    && (INT64_MIN <= v <= INT64_MAX ==> n == v)
    && (v > INT64_MAX ==> n == 0x7FFF_FFFF_FFFF_FFFF)
    && (v < INT64_MIN ==> n == -0x8000_0000_0000_0000)
  }

  lemma ClampSaturates(v: int)
    ensures Saturates(v, Clamp(v))
  {}

  /** One more digit. */
  lemma ValueMore(h: bytes, c: byte)
    requires (forall x | x in h :: IsDigit(x)) && IsDigit(c)
    ensures (forall x | x in h + [c] :: IsDigit(x)) && Value(h + [c]) == 10 * Value(h) + (c as int - ZERO)
  {
    assert (h + [c])[..|h|] == h;
  }

  /** An optional sign and a nonempty digit run, clamped to 64 bits; None when there is no digit. */
  function ParseInt64(s: bytes): Option<int> {
    var neg := s != [] && s[0] == MINUS;
    var signed := s != [] && (s[0] == MINUS || s[0] == PLUS);
    var digits := DigitRun(if signed then s[1..] else s);
    if digits == [] then None
    else Some(Clamp(if neg then -(Value(digits) as int) else Value(digits)))
  }

  /** The numeral of a natural number, without leading zeros. */
  function Digits(n: nat): (r: bytes)
    ensures |r| > 0 && (forall c | c in r :: IsDigit(c)) && Value(r) == n
    ensures r[0] == ZERO ==> r == [ZERO]
  {
    if n < 10 then assert Value([]) == 0; [ZERO + n]
    else
      var h := Digits(n / 10);
      var r := h + [ZERO + n % 10];
      assert r[..|r| - 1] == h;
      assert h != [ZERO] by { assert Value([ZERO]) == 10 * Value([]); }
      r
  }

  /** `printf` with `PRId64`. */
  function PrintInt(n: int): bytes {
    if n < 0 then [MINUS] + Digits(-n) else Digits(n)
  }

  lemma {:induction false} DigitRunWhole(s: bytes)
    requires forall c | c in s :: IsDigit(c)
    ensures DigitRun(s) == s
  {
    if s != [] {
      assert s[0] in s;
      DigitRunWhole(s[1..]);
      assert s == [s[0]] + s[1..];
    }
  }

  /** Printing then parsing a 64-bit integer is the identity. */
  lemma PrintParseInt(n: int)
    requires INT64_MIN <= n <= INT64_MAX
    ensures ParseInt64(PrintInt(n)) == Some(n)
  {
    var m: nat := if n < 0 then -n else n;
    var d := Digits(m);
    DigitRunWhole(d);
    if n < 0 {
      assert PrintInt(n)[1..] == d;
    } else {
      assert d[0] in d;
    }
  }

  /** A printed integer is made of number characters that contain no sign of a double. */
  lemma PrintIntShape(n: int)
    ensures |PrintInt(n)| > 0
    ensures PrintInt(n)[0] == MINUS || IsDigit(PrintInt(n)[0])
    ensures forall c | c in PrintInt(n) :: IsNumberChar(c) && c != DOT && c != LOWER_E && c != UPPER_E
    ensures PrintInt(n)[0] == ZERO ==> n == 0
  {
    var m: nat := if n < 0 then -n else n;
    var d := Digits(m);
    assert d[0] in d;
    if n >= 0 && d[0] == ZERO {
      assert Value([ZERO]) == 10 * Value([]);
    }
  }
}
