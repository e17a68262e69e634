/** UTF-8 as section 3 of RFC 3629 defines it, and the 16-bit surrogate tests of the tokener. */
module Utf8 {
  import opened Bytes

  const REPLACEMENT: bytes := [0xEF, 0xBF, 0xBD]

  /** The macros look only at the low 16 bits of the value. */
  predicate IsHighSurrogate(u: nat) {
    u % 0x10000 / 0x400 == 0x36
  }

  predicate IsLowSurrogate(u: nat) {
    u % 0x10000 / 0x400 == 0x37
  }

  function DecodePair(hi: nat, lo: nat): (u: nat)
    ensures 0x10000 <= u < 0x110000
  {
    hi % 0x400 * 0x400 + lo % 0x400 + 0x10000
  }

  /** A Unicode scalar value: a code point that is no surrogate. */
  predicate IsScalar(u: nat) {
    u < 0x110000 && !(0xD800 <= u < 0xE000)
  }

  /** The encoding of a scalar value. */
  function Encode(u: nat): (r: bytes)
    requires u < 0x110000
  {
    if u < 0x80 then [u]
    else if u < 0x800 then [0xC0 + u / 0x40, 0x80 + u % 0x40]
    else if u < 0x10000 then [0xE0 + u / 0x1000, 0x80 + u / 0x40 % 0x40, 0x80 + u % 0x40]
    else [0xF0 + u / 0x40000, 0x80 + u / 0x1000 % 0x40, 0x80 + u / 0x40 % 0x40, 0x80 + u % 0x40]
  }

  predicate IsTail(b: byte) {
    0x80 <= b < 0xC0
  }

  /**
   How many octets the character at the start of `s` has in the grammar of RFC 3629 section 4; 0 when there is none.
   */
  function CharLength(s: bytes): (n: nat)
    ensures n <= |s|
  {
    if s == [] then 0
    else if s[0] < 0x80 then 1
    else if |s| >= 2 && 0xC2 <= s[0] < 0xE0 && IsTail(s[1]) then 2
    else if |s| >= 3 && 0xE0 <= s[0] < 0xF0 && IsTail(s[1]) && IsTail(s[2]) &&
            (s[0] == 0xE0 ==> s[1] >= 0xA0) && (s[0] == 0xED ==> s[1] < 0xA0) then 3
    else if |s| >= 4 && 0xF0 <= s[0] < 0xF5 && IsTail(s[1]) && IsTail(s[2]) && IsTail(s[3]) &&
            (s[0] == 0xF0 ==> s[1] >= 0x90) && (s[0] == 0xF4 ==> s[1] < 0x90) then 4
    else 0
  }

  /** The UTF8-octets grammar of RFC 3629 section 4, reading one character at a time. */
  predicate ValidUtf8(s: bytes) {
    s == [] || (CharLength(s) > 0 && ValidUtf8(s[CharLength(s)..]))
  }

  /** Scalar values encode to well-formed UTF-8, and different scalar values encode differently. */
  lemma EncodeIsValid(u: nat)
    requires IsScalar(u)
    ensures ValidUtf8(Encode(u))
  {
    var e := Encode(u);
    assert ValidUtf8([]);
    assert e[|e|..] == [];
    EncodeIsOneCharacter(u);
  }

  lemma EncodeIsOneCharacter(u: nat)
    requires IsScalar(u)
    ensures CharLength(Encode(u)) == |Encode(u)|
  {
    if u < 0x80 {
    } else if u < 0x800 {
    } else if u < 0x10000 {
      if u / 0x1000 == 0 { assert u / 0x40 % 0x40 >= 0x20; }
      if u / 0x1000 == 0xD { assert u / 0x40 % 0x40 < 0x20; }
    } else {
      if u / 0x40000 == 0 { assert u / 0x1000 % 0x40 >= 0x10; }
      if u / 0x40000 == 4 { assert u / 0x1000 % 0x40 < 0x10; }
    }
  }

  /** A scalar value can be read back from its encoding. */
  function Decode(e: bytes): nat {
    if |e| == 1 then e[0]
    else if |e| == 2 then Payload(e[0], 0xC0) * 0x40 + Payload(e[1], 0x80)
    else if |e| == 3 then Payload(e[0], 0xE0) * 0x1000 + Payload(e[1], 0x80) * 0x40 + Payload(e[2], 0x80)
    else if |e| == 4 then
      Payload(e[0], 0xF0) * 0x40000 + Payload(e[1], 0x80) * 0x1000 + Payload(e[2], 0x80) * 0x40 + Payload(e[3], 0x80)
    else 0
  }

  function Payload(b: byte, lead: byte): nat {
    if b < lead then 0 else b - lead
  }

  lemma DecodeEncode(u: nat)
    requires u < 0x110000
    ensures Decode(Encode(u)) == u
  {
    assert u / 0x1000 == u / 0x40 / 0x40;
    assert u / 0x40000 == u / 0x1000 / 0x40;
  }

  lemma CharLengthOfAppend(s: bytes, r: bytes)
    requires CharLength(s) > 0
    ensures CharLength(s + r) == CharLength(s)
  {
    assert forall k | 0 <= k < |s| :: (s + r)[k] == s[k];
  }

  lemma {:induction false} ValidAppend(s: bytes, r: bytes)
    requires ValidUtf8(s) && ValidUtf8(r)
    ensures ValidUtf8(s + r)
  {
    hide CharLength;
    if s == [] {
      assert s + r == r;
    } else {
      var n := CharLength(s);
      CharLengthOfAppend(s, r);
      ValidAppend(s[n..], r);
      assert (s + r)[n..] == s[n..] + r;
    }
  }
}
