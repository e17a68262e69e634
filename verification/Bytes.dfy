/** Bytes and the ASCII codes that the JSON grammar gives a meaning to. */
module Bytes {
  type byte = x: int | 0 <= x < 256
  type bytes = seq<byte>

  const NUL: byte := 0x00
  const BACKSPACE: byte := 0x08
  const TAB: byte := 0x09
  const NEWLINE: byte := 0x0A
  const FORMFEED: byte := 0x0C
  const RETURN: byte := 0x0D
  const SPACE: byte := 0x20
  const DQUOTE: byte := 0x22
  const SQUOTE: byte := 0x27
  const STAR: byte := 0x2A
  const PLUS: byte := 0x2B
  const COMMA: byte := 0x2C
  const MINUS: byte := 0x2D
  const DOT: byte := 0x2E
  const SLASH: byte := 0x2F
  const ZERO: byte := 0x30
  const NINE: byte := 0x39
  const COLON: byte := 0x3A
  const UPPER_A: byte := 0x41
  const UPPER_E: byte := 0x45
  const UPPER_F: byte := 0x46
  const UPPER_I: byte := 0x49
  const UPPER_N: byte := 0x4E
  const UPPER_T: byte := 0x54
  const LBRACKET: byte := 0x5B
  const BACKSLASH: byte := 0x5C
  const RBRACKET: byte := 0x5D
  const LOWER_A: byte := 0x61
  const LOWER_B: byte := 0x62
  const LOWER_E: byte := 0x65
  const LOWER_F: byte := 0x66
  const LOWER_I: byte := 0x69
  const LOWER_N: byte := 0x6E
  const LOWER_R: byte := 0x72
  const LOWER_T: byte := 0x74
  const LOWER_U: byte := 0x75
  const LBRACE: byte := 0x7B
  const RBRACE: byte := 0x7D

  const NULL_TEXT: bytes := [0x6E, 0x75, 0x6C, 0x6C]                          // null
  const TRUE_TEXT: bytes := [0x74, 0x72, 0x75, 0x65]                          // true
  const FALSE_TEXT: bytes := [0x66, 0x61, 0x6C, 0x73, 0x65]                   // false
  const NAN_TEXT: bytes := [0x4E, 0x61, 0x4E]                                 // NaN
  const INF_TEXT: bytes := [0x49, 0x6E, 0x66, 0x69, 0x6E, 0x69, 0x74, 0x79]   // Infinity

  const NEG_INF_TEXT: bytes := [MINUS] + INF_TEXT

  /** `isspace` in the C locale. */
  predicate IsSpace(c: byte) {
    c == SPACE || TAB <= c <= RETURN
  }

  predicate IsDigit(c: byte) {
    ZERO <= c <= NINE
  }

  predicate IsHex(c: byte) {
    IsDigit(c) || UPPER_A <= c <= UPPER_F || LOWER_A <= c <= LOWER_F
  }

  /** Membership in `json_number_chars`. */
  predicate IsNumberChar(c: byte) {
    IsDigit(c) || c == DOT || c == PLUS || c == MINUS || c == LOWER_E || c == UPPER_E
  }

  /** ASCII case folding, as `strncasecmp` applies it. */
  function Lower(c: byte): byte {
    if UPPER_A <= c <= 0x5A then c + 32 else c
  }

  /** The C string that starts a buffer: everything before its first NUL. */
  function CString(s: bytes): (r: bytes)
    ensures NUL !in r && r <= s
    ensures |r| < |s| ==> s[|r|] == NUL
  {
    if s == [] || s[0] == NUL then [] else [s[0]] + CString(s[1..])
  }

  /** A buffer without NUL is a C string as it stands. */
  lemma {:induction false} CStringWhole(s: bytes)
    requires NUL !in s
    ensures CString(s) == s
  {
    if s != [] {
      CStringWhole(s[1..]);
      assert s == [s[0]] + s[1..];
    }
  }
}
