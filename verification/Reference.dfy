/**
 What `json_tokener_parse_ex` makes of a C string, by recursive descent: the value, or the error and the place where it
 is found, for every text and in both modes. White space, literals and number characters are spelled out here.
 */
module Reference {
  import opened Bytes
  import opened JsonValue
  import opened Numbers
  import opened OrderedMap
  import opened TokenerMachine
  import opened Grammar

  const WHITE: bytes := [0x20, 0x09, 0x0A, 0x0B, 0x0C, 0x0D]

  /** `0123456789.+-eE` */
  const NUMBER_CHARS: bytes := [48, 49, 50, 51, 52, 53, 54, 55, 56, 57, 46, 43, 45, 101, 69]

  /** `"\/bnrtf`, behind a backslash. */
  const SHORT_ESCAPES: bytes := [34, 92, 47, 98, 110, 114, 116, 102]

  const WORD_NULL: bytes := [110, 117, 108, 108]
  const WORD_NAN: bytes := [78, 97, 78]
  const WORD_TRUE: bytes := [116, 114, 117, 101]
  const WORD_FALSE: bytes := [102, 97, 108, 115, 101]
  const WORD_INFINITY: bytes := [73, 110, 102, 105, 110, 105, 116, 121]

  /** A value, where it ends, and whether -Infinity can no longer be read; or the end of the call. */
  datatype Answer =
    | Got(v: Json, end: nat, moved: bool)
    | Stopped(err: Error, v: Json, at: nat)

  /** The terminator is what is read at the end of the text. */
  function CharAt(s: bytes, i: nat): byte {
    if i < |s| then s[i] else NUL
  }

  /** An error at `i`; at the terminator it is the end of the text that is unexpected. */
  function Fail(s: bytes, e: Error, i: nat): Answer {
    Stopped(if i < |s| then e else ErrEof, JNull, i)
  }

  // ---------------------------------------------------------------- white space and comments

  /** The next character of the text proper, or a slash that opens no comment, or a comment that does not end. */
  datatype Skipped = Reached(i: nat) | NoComment(i: nat) | Unended

  /** The place behind the line break that ends a comment. */
  function LineEnd(s: bytes, i: nat): (r: Option<nat>)
    requires i <= |s|
    ensures r.Some? ==> i < r.value <= |s|
    decreases |s| - i
  {
    if i == |s| then None else if s[i] == 0x0A then Some(i + 1) else LineEnd(s, i + 1)
  }

  /**
   The place behind a block comment, from behind its opening or from behind a star that ended nothing: a star and the
   character behind it are read together.
   */
  function BlockEnd(s: bytes, i: nat): (r: Option<nat>)
    requires i <= |s|
    ensures r.Some? ==> i + 1 < r.value <= |s|
    decreases |s| - i
  {
    if i == |s| then None
    else if s[i] != 0x2A then BlockEnd(s, i + 1)
    else if i + 1 == |s| then None
    else if s[i + 1] == 0x2F then Some(i + 2)
    else BlockEnd(s, i + 2)
  }

  function Skip(strict: bool, s: bytes, i: nat): (r: Skipped)
    requires i <= |s|
    ensures r.Reached? ==> i <= r.i <= |s|
    ensures r.NoComment? ==> i < r.i <= |s|
    decreases |s| - i
  {
    if i == |s| then Reached(i)
    else if s[i] in WHITE then Skip(strict, s, i + 1)
    else if s[i] != 0x2F || strict then Reached(i)
    else
      var end := if CharAt(s, i + 1) == 0x2F then LineEnd(s, i + 2)
                 else if CharAt(s, i + 1) == 0x2A then BlockEnd(s, i + 2)
                 else None;
      if end.Some? then Skip(strict, s, end.value)
      else if CharAt(s, i + 1) == 0x2F || CharAt(s, i + 1) == 0x2A then Unended
      else NoComment(i + 1)
  }

  /** White space in front of something that is still to come. */
  function FailToSkip(s: bytes, gap: Skipped): Answer
    requires !gap.Reached?
  {
    if gap.Unended? then Stopped(ErrEof, JNull, |s| + 1) else Fail(s, ErrComment, gap.i)
  }

  /** White space behind the complete value `v`: a comment that does not end is no error there. */
  function StopBehind(s: bytes, v: Json, gap: Skipped): Answer
    requires !gap.Reached?
  {
    if gap.Unended? then Stopped(Success, v, |s| + 1) else Stopped(ErrComment, JNull, gap.i)
  }

  // ---------------------------------------------------------------- literals and numbers

  /** A letter, in either case outside strict mode. */
  predicate Same(strict: bool, letter: byte, c: byte) {
    c == letter || (!strict && ((letter < 0x5B && c == letter + 0x20) || (letter > 0x60 && c == letter - 0x20)))
  }

  /** How many characters of the word the text at `i` has, from the `k`th on. */
  function Common(strict: bool, w: bytes, s: bytes, i: nat, k: nat): (n: nat)
    requires k <= |w|
    ensures k <= n <= |w|
    decreases |w| - k
  {
    if k < |w| && i + k < |s| && Same(strict, w[k], s[i + k]) then Common(strict, w, s, i, k + 1) else k
  }

  function ReadWord(g: Config, s: bytes, i: nat, w: bytes, v: Json, e: Error): Answer {
    var n := Common(g.strict, w, s, i, 0);
    if n == |w| then Got(v, i + n, true) else Fail(s, e, i + n)
  }

  function NullOrNaN(g: Config, s: bytes, i: nat): Answer {
    var n, m := Common(g.strict, WORD_NULL, s, i, 0), Common(g.strict, WORD_NAN, s, i, 0);
    if n == |WORD_NULL| then Got(JNull, i + n, true)
    else if m == |WORD_NAN| then Got(JDouble(WORD_NAN), i + m, true)
    else Fail(s, ErrNull, i + if n < m then m else n)
  }

  function NumberEnd(s: bytes, i: nat): (j: nat)
    requires i <= |s|
    ensures i <= j <= |s| && (j < |s| ==> s[j] !in NUMBER_CHARS) && forall k | i <= k < j :: s[k] in NUMBER_CHARS
    decreases |s| - i
  {
    if i < |s| && s[i] in NUMBER_CHARS then NumberEnd(s, i + 1) else i
  }

  /** The integer at the start of number characters, none if there is no digit behind the sign. */
  function Integer(p: bytes): Option<int> {
    var d := DigitRun(if p != [] && (p[0] == 0x2D || p[0] == 0x2B) then p[1..] else p);
    if d == [] then None
    else
      var v: int := if p[0] == 0x2D then -(Value(d) as int) else Value(d);
      Some(if v > 0x7FFF_FFFF_FFFF_FFFF then 0x7FFF_FFFF_FFFF_FFFF
           else if v < -0x8000_0000_0000_0000 then -0x8000_0000_0000_0000
           else v)
  }

  /** A numeral, which is taken as far as there are number characters; or -Infinity. */
  function ReadNumber(g: Config, s: bytes, i: nat, moved: bool): Answer
    requires i < |s|
  {
    var j := NumberEnd(s, i);
    var p := s[i..j];
    if p == [0x2D] && (CharAt(s, j) == 0x49 || CharAt(s, j) == 0x69) then
      if moved then Stopped(ErrUnexpected, JNull, j)
      else ReadWord(g, s, j, WORD_INFINITY, JDouble([0x2D] + WORD_INFINITY), ErrUnexpected)
    else if 0x2E in p || 0x65 in p || 0x45 in p then
      if g.isDoubleText(p) then Got(JDouble(p), j, moved) else Fail(s, ErrNumber, j)
    else
      match Integer(p)
      case None => Fail(s, ErrNumber, j)
      case Some(n) => if g.strict && n != 0 && p[0] == 0x30 then Fail(s, ErrNumber, j) else Got(JInt(n), j, moved)
  }

  // ---------------------------------------------------------------- strings

  datatype Lexed = Closed(ps: seq<Piece>, end: nat) | Broken(err: Error, at: nat)

  /** The first of up to `n` characters at `i` that is no hex digit. */
  function HexEnd(s: bytes, i: nat, n: nat): (j: nat)
    requires i <= |s|
    ensures i <= j <= |s| && j <= i + n && forall k | i <= k < j :: IsHex(s[k])
    decreases n
  {
    if n > 0 && i < |s| && (s[i] in HEX_DIGITS || s[i] in HEX_CAPITALS) then
      HexDigitIs(s[i]);
      HexEnd(s, i + 1, n - 1)
    else i
  }

  lemma HexDigitIs(c: byte)
    ensures c in HEX_DIGITS || c in HEX_CAPITALS <==> IsHex(c)
  {
    if IsHex(c) {
      assert if c < 58 then HEX_DIGITS[c - 48] == c else if c < 71 then HEX_CAPITALS[c - 55] == c
             else HEX_DIGITS[c - 87] == c;
    }
  }

  /** The pieces up to the closing quote `q`. */
  function Lex(s: bytes, i: nat, q: byte): (r: Lexed)
    requires i <= |s| && NUL !in s
    ensures r.Closed? ==> PiecesOk(r.ps) && i < r.end <= |s|
    decreases |s| - i
  {
    if i == |s| then Broken(ErrEof, |s| + 1)
    else if s[i] == q then Closed([], i + 1)
    else if s[i] != 0x5C then Before(Plain(s[i]), Lex(s, i + 1, q))
    else if i + 1 == |s| then Broken(ErrEof, |s|)
    else if s[i + 1] in SHORT_ESCAPES then Before(Short(s[i + 1]), Lex(s, i + 2, q))
    else if s[i + 1] != 0x75 then Broken(ErrString, i + 1)
    else
      var j := HexEnd(s, i + 2, 4);
      if j == i + 6 then Before(Unit(s[i + 2..j]), Lex(s, j, q))
      else if j == |s| then Broken(ErrEof, |s| + 1)
      else Broken(ErrString, j)
  }

  function Before(p: Piece, rest: Lexed): (r: Lexed)
    requires PieceOk(p) && (rest.Closed? ==> PiecesOk(rest.ps))
    ensures r.Closed? ==> rest.Closed? && r.end == rest.end && r.ps == [p] + rest.ps && PiecesOk(r.ps)
  {
    match rest
    case Broken(e, at) => rest
    case Closed(ps, end) => Closed([p] + ps, end)
  }

  // ---------------------------------------------------------------- values

  /** A value at `i`, which is no white space, with room for `room` levels inside it. */
  function ReadValue(g: Config, s: bytes, i: nat, room: nat, moved: bool): (a: Answer)
    requires i <= |s| && NUL !in s
    ensures a.Got? ==> i < a.end <= |s|
    decreases |s| - i, 0
  {
    var c := CharAt(s, i);
    if c == 0x5B then ReadItems(g, s, i + 1, room, moved, [])
    else if c == 0x7B then ReadMembers(g, s, i + 1, room, moved, [])
    else if c == 0x22 || (c == 0x27 && !g.strict) then
      match Lex(s, i + 1, c)
      case Broken(e, at) => Stopped(e, JNull, at)
      case Closed(ps, end) => Got(JString(Said(0, ps)), end, moved || HasUnit(ps))
    else if c == 0x6E || c == 0x4E then NullOrNaN(g, s, i)
    else if c == 0x49 || c == 0x69 then ReadWord(g, s, i, WORD_INFINITY, JDouble(WORD_INFINITY), ErrUnexpected)
    else if c == 0x74 || c == 0x54 then ReadWord(g, s, i, WORD_TRUE, JBool(true), ErrBoolean)
    else if c == 0x66 || c == 0x46 then ReadWord(g, s, i, WORD_FALSE, JBool(false), ErrBoolean)
    else if 0x30 <= c <= 0x39 || c == 0x2D then ReadNumber(g, s, i, moved)
    else Fail(s, ErrUnexpected, i)
  }

  /** The rest of an array whose elements so far are `done`, from behind its bracket or behind a comma. */
  function ReadItems(g: Config, s: bytes, i: nat, room: nat, moved: bool, done: seq<Json>): (a: Answer)
    requires i <= |s| && NUL !in s
    ensures a.Got? ==> i < a.end <= |s|
    decreases |s| - i, 1
  {
    var gap := Skip(g.strict, s, i);
    if !gap.Reached? then FailToSkip(s, gap)
    else
      var j := gap.i;
      if CharAt(s, j) == 0x5D then
        if g.strict && done != [] then Stopped(ErrUnexpected, JNull, j) else Got(JArray(done), j + 1, moved)
      else if room == 0 then Fail(s, ErrDepth, j)
      else
        match ReadValue(g, s, j, room - 1, moved)
        case Stopped(e, v, at) => Stopped(e, v, at)
        case Got(v, end, moved') =>
          var gap' := Skip(g.strict, s, end);
          if !gap'.Reached? then StopBehind(s, v, gap')
          else
            var k := gap'.i;
            if CharAt(s, k) == 0x5D then Got(JArray(done + [v]), k + 1, moved')
            else if CharAt(s, k) == 0x2C then ReadItems(g, s, k + 1, room, moved', done + [v])
            else Fail(s, ErrArray, k)
  }

  /** The rest of an object, from behind its brace or behind a comma. */
  function ReadMembers(g: Config, s: bytes, i: nat, room: nat, moved: bool, done: seq<(bytes, Json)>): (a: Answer)
    requires i <= |s| && NUL !in s
    ensures a.Got? ==> i < a.end <= |s|
    decreases |s| - i, 1
  {
    var gap := Skip(g.strict, s, i);
    if !gap.Reached? then FailToSkip(s, gap)
    else
      var j, c := gap.i, CharAt(s, gap.i);
      if c == 0x7D then
        if g.strict && done != [] then Stopped(ErrUnexpected, JNull, j) else Got(JObject(done), j + 1, moved)
      else if c != 0x22 && c != 0x27 then Fail(s, ErrKeyName, j)
      else
        match Lex(s, j + 1, c)
        case Broken(e, at) => Stopped(e, JNull, at)
        case Closed(ps, end) =>
          ReadMember(g, s, end, room, moved || HasUnit(ps), done, CString(Said(0, ps)))
  }

  /** From behind the name on. */
  function ReadMember(g: Config, s: bytes, i: nat, room: nat, moved: bool, done: seq<(bytes, Json)>, key: bytes)
    : (a: Answer)
    requires i <= |s| && NUL !in s
    ensures a.Got? ==> i < a.end <= |s|
    decreases |s| - i, 2
  {
    var gap := Skip(g.strict, s, i);
    if !gap.Reached? then FailToSkip(s, gap)
    else if CharAt(s, gap.i) != 0x3A then Fail(s, ErrKeySep, gap.i)
    else
      var gap' := Skip(g.strict, s, gap.i + 1);
      if !gap'.Reached? then FailToSkip(s, gap')
      else if room == 0 then Fail(s, ErrDepth, gap'.i)
      else
        match ReadValue(g, s, gap'.i, room - 1, moved)
        case Stopped(e, v, at) => Stopped(e, v, at)
        case Got(v, end, moved') => NextMember(g, s, end, room, moved', done, key, v)
  }

  /** From behind the value of a member on. */
  function NextMember(g: Config, s: bytes, i: nat, room: nat, moved: bool, done: seq<(bytes, Json)>, key: bytes,
                      v: Json)
    : (a: Answer)
    requires i <= |s| && NUL !in s
    ensures a.Got? ==> i < a.end <= |s|
    decreases |s| - i, 2
  {
    var gap := Skip(g.strict, s, i);
    if !gap.Reached? then StopBehind(s, v, gap)
    else
      var k := gap.i;
      if CharAt(s, k) == 0x7D then Got(JObject(Put(done, key, v)), k + 1, moved)
      else if CharAt(s, k) == 0x2C then ReadMembers(g, s, k + 1, room, moved, Put(done, key, v))
      else Fail(s, ErrValueSep, k)
  }

  /** A whole text: the error, the value, and the offset at which the call ends. */
  function ReadText(g: Config, s: bytes, moved: bool): (a: Answer)
    requires NUL !in s && g.maxDepth > 0
    ensures a.Stopped?
  {
    var gap := Skip(g.strict, s, 0);
    if !gap.Reached? then FailToSkip(s, gap)
    else
      match ReadValue(g, s, gap.i, g.maxDepth - 1, moved)
      case Stopped(e, v, at) => Stopped(e, v, at)
      case Got(v, end, _) =>
        var gap' := Skip(g.strict, s, end);
        if !gap'.Reached? then StopBehind(s, v, gap')
        else if g.strict && gap'.i < |s| then Stopped(ErrUnexpected, JNull, gap'.i)
        else Stopped(Success, v, gap'.i)
  }
}
