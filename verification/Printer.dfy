/** The printer of json_object.c: what each layout writes for a value. */
module Printer {
  import opened Bytes
  import opened JsonValue
  import opened Numbers
  import opened OrderedMap

  /** `JSON_C_TO_STRING_SPACED` and `JSON_C_TO_STRING_PRETTY`; neither is the plain layout. */
  datatype Flags = Flags(spaced: bool, pretty: bool)

  /** `json_hex_chars[n]` for one hex digit. */
  function HexChar(n: nat): byte
    requires n < 16
  {
    if n < 10 then ZERO + n else LOWER_A + (n - 10)
  }

  /** What `json_escape_str` writes for one byte. */
  function EscapeByte(c: byte): bytes {
    if c == BACKSPACE then [BACKSLASH, LOWER_B]
    else if c == NEWLINE then [BACKSLASH, LOWER_N]
    else if c == RETURN then [BACKSLASH, LOWER_R]
    else if c == TAB then [BACKSLASH, LOWER_T]
    else if c == FORMFEED then [BACKSLASH, LOWER_F]
    else if c == DQUOTE || c == BACKSLASH || c == SLASH then [BACKSLASH, c]
    else if c < SPACE then [BACKSLASH, LOWER_U, ZERO, ZERO, HexChar(c / 16), HexChar(c % 16)]
    else [c]
  }

  function Escape(s: bytes): bytes {
    if s == [] then [] else EscapeByte(s[0]) + Escape(s[1..])
  }

  function Spaces(n: nat): bytes {
    seq(n, _ => SPACE)
  }

  /** A line break in the pretty layout. */
  function Break(f: Flags): bytes {
    if f.pretty then [NEWLINE] else []
  }

  function Indent(level: nat, f: Flags): bytes {
    if f.pretty then Spaces(2 * level) else []
  }

  /** What separates an element from what is in front of it. */
  function Lead(first: bool, level: nat, f: Flags): bytes {
    (if first then [] else [COMMA] + Break(f)) + (if f.spaced then [SPACE] else []) + Indent(level + 1, f)
  }

  /** What precedes the closing bracket. */
  function Trail(empty: bool, level: nat, f: Flags): bytes {
    (if empty then [] else Break(f)) + Indent(level, f) + (if f.spaced then [SPACE] else [])
  }

  function QuoteKey(key: bytes, f: Flags): bytes {
    [DQUOTE] + Escape(CString(key)) + [DQUOTE, COLON] + (if f.spaced then [SPACE] else [])
  }

  /** The elements from the `k`th on, each with what separates it from the one before. */
  function PrintItems(ghost v: Json, items: seq<Json>, k: nat, level: nat, f: Flags): bytes
    requires v == JArray(items) && k <= |items|
    decreases v, 0, |items| - k
  {
    if k == |items| then []
    else Lead(k == 0, level, f) + Print(items[k], level + 1, f) + PrintItems(v, items, k + 1, level, f)
  }

  function PrintMembers(ghost v: Json, members: seq<(bytes, Json)>, k: nat, level: nat, f: Flags): bytes
    requires v == JObject(members) && k <= |members|
    decreases v, 0, |members| - k
  {
    if k == |members| then []
    else
      Lead(k == 0, level, f) + QuoteKey(members[k].0, f) + Print(members[k].1, level + 1, f) +
      PrintMembers(v, members, k + 1, level, f)
  }

  /** `json_object_to_json_string_ext` from indentation level `level` on. */
  function Print(v: Json, level: nat, f: Flags): bytes
    decreases v, 1
  {
    match v
    case JNull => NULL_TEXT
    case JBool(b) => if b then TRUE_TEXT else FALSE_TEXT
    case JInt(n) => PrintInt(n)
    case JDouble(lexeme) => lexeme
    case JString(s) => [DQUOTE] + Escape(s) + [DQUOTE]
    case JArray(items) =>
      [LBRACKET] + Break(f) + PrintItems(v, items, 0, level, f) + Trail(items == [], level, f) + [RBRACKET]
    case JObject(members) =>
      [LBRACE] + Break(f) + PrintMembers(v, members, 0, level, f) + Trail(members == [], level, f) + [RBRACE]
  }

  /**
   A lexeme that the tokener reads as one double: a number with a dot or an exponent, NaN, or Infinity with or without
   a sign.
   */
  predicate IsDoubleLexeme(s: bytes, isDoubleText: bytes -> bool) {
    s == NAN_TEXT || s == INF_TEXT || s == NEG_INF_TEXT ||
    (s != [] && (IsDigit(s[0]) || s[0] == MINUS) && (forall c | c in s :: IsNumberChar(c)) &&
     (DOT in s || LOWER_E in s || UPPER_E in s) && isDoubleText(s))
  }

  /** Values that can be written down: 64-bit integers, readable doubles, NUL-free and unique keys. */
  ghost predicate Printable(v: Json, isDoubleText: bytes -> bool) {
    match v
    case JInt(n) => INT64_MIN <= n <= INT64_MAX
    case JDouble(lexeme) => IsDoubleLexeme(lexeme, isDoubleText)
    case JArray(items) => forall i | 0 <= i < |items| :: Printable(items[i], isDoubleText)
    case JObject(members) =>
      UniqueKeys(members) &&
      forall i | 0 <= i < |members| :: NUL !in members[i].0 && Printable(members[i].1, isDoubleText)
    case _ => true
  }
}
