/**
 The tokener as a machine that handles one character at a time: the specification
 that the loops of `json_tokener_parse_ex` are proved against.

 `Step` is one pass through the body of the main loop for the character at `i`; `Run` is a
 whole call. A call is given exactly `len` bytes; a call with `len == -1` is a call on the
 string followed by its NUL, because every way of consuming a NUL leaves the loop.
 */
module TokenerMachine {
  import opened Bytes
  import opened JsonValue
  import opened Numbers
  import opened OrderedMap
  import opened Utf8

  datatype State =
    | EatWs | Start | Finish | NullLit | CommentStart | Comment | CommentEol | CommentEnd
    | Str | StrEscape | EscapeUnicode | Boolean | Number
    | Array | ArrayAdd | ArraySep
    | ObjectFieldStart | ObjectField | ObjectFieldEnd | ObjectValue | ObjectValueAdd | ObjectSep
    | ArrayAfterSep | ObjectFieldStartAfterSep | Inf

  datatype Error =
    | Success | Continue | ErrDepth | ErrEof | ErrUnexpected | ErrNull | ErrBoolean | ErrNumber
    | ErrArray | ErrKeyName | ErrKeySep | ErrValueSep | ErrString | ErrComment

  /** One stack record. `current == JNull` is the NULL pointer, `key == None` a NULL field name. */
  datatype Level = Level(state: State, saved: State, current: Json, key: Option<bytes>)

  /** What `json_tokener_reset_level` leaves behind. */
  const CLEAN: Level := Level(EatWs, Start, JNull, None)

  /**
   The tokener: the levels below the top of the stack, the top, the scratch fields, and the
   three locals of a call (`obj`, `got_hi_surrogate`, `case_len`), which are idle between calls.
   */
  datatype Tok = Tok(
    below: seq<Level>, top: Level,
    pb: bytes, stPos: nat, isDouble: bool, quote: byte, ucs: nat,
    obj: Json, hi: nat, caseLen: nat)

  /** Flags and limits of a call, and the answer of `sscanf("%lf")` on a lexeme. */
  datatype Config = Config(strict: bool, maxDepth: nat, isDoubleText: bytes -> bool)

  /** A pass of the main loop consumes characters, jumps back with the same one, or leaves the loop. */
  datatype Outcome =
    | Advance(t: Tok, n: nat)
    | Redo(t: Tok)
    | Halt(t: Tok, err: Error, n: nat)

  datatype Result = Result(tok: Tok, err: Error, offset: nat, value: Json)

  function Go(t: Tok, s: State): Tok {
    t.(top := t.top.(state := s))
  }

  /** Skip white space, then continue in state `s`. */
  function Await(t: Tok, s: State): Tok {
    t.(top := t.top.(state := EatWs, saved := s))
  }

  /** An empty container, which continues in state `s`. */
  function Begin(t: Tok, s: State, v: Json): Tok {
    t.(top := t.top.(state := EatWs, saved := s, current := v))
  }

  /** A complete value for the top level. */
  function Accept(t: Tok, v: Json): Tok {
    t.(top := t.top.(state := EatWs, saved := Finish, current := v))
  }

  function Append(t: Tok, s: bytes): Tok {
    t.(pb := t.pb + s)
  }

  function StepEatWs(g: Config, t: Tok, c: byte): Outcome {
    if IsSpace(c) then Advance(t, 1)
    else if c == SLASH && !g.strict then Advance(Go(t, CommentStart).(pb := [c]), 1)
    else Redo(Go(t, t.top.saved))
  }

  function StepStart(g: Config, t: Tok, c: byte): Outcome {
    if c == LBRACE then Advance(Begin(t, ObjectFieldStart, JObject([])), 1)
    else if c == LBRACKET then Advance(Begin(t, Array, JArray([])), 1)
    else if c == UPPER_I || c == LOWER_I then Redo(Go(t, Inf).(pb := [], stPos := 0))
    else if c == UPPER_N || c == LOWER_N then Redo(Go(t, NullLit).(pb := [], stPos := 0))
    else if c == SQUOTE && g.strict then Halt(t, ErrUnexpected, 0)
    else if c == SQUOTE || c == DQUOTE then Advance(Go(t, Str).(pb := [], quote := c), 1)
    else if c == UPPER_T || c == LOWER_T || c == 0x46 || c == LOWER_F then
      Redo(Go(t, Boolean).(pb := [], stPos := 0))
    else if IsDigit(c) || c == MINUS then Redo(Go(t, Number).(pb := [], isDouble := false, caseLen := 0))
    else Halt(t, ErrUnexpected, 0)
  }

  function StepFinish(t: Tok): Outcome {
    if t.below == [] then Halt(t, Success, 0)
    else
      var n := |t.below| - 1;
      Redo(t.(below := t.below[..n], top := t.below[n], obj := t.top.current))
  }

  /** `strncmp` or, outside strict mode, `strncasecmp` of a literal against a NUL-terminated buffer. */
  predicate Matches(g: Config, lit: bytes, buf: bytes, n: nat)
    requires n <= |lit|
  {
    n <= |buf| &&
    (lit[..n] == buf[..n] || (!g.strict && forall k | 0 <= k < n :: Lower(lit[k]) == Lower(buf[k])))
  }

  function Min(a: nat, b: nat): nat {
    if a < b then a else b
  }

  /** The text matched so far is a prefix of `lit`: accept `v` once all of `lit` has been seen. */
  function StepMatched(t: Tok, lit: bytes, v: Json): Outcome {
    if t.stPos == |lit| then Redo(Accept(t, v)) else Advance(t.(stPos := t.stPos + 1), 1)
  }

  function StepInf(g: Config, t: Tok, c: byte): Outcome {
    var t1 := Append(t, [c]);
    var negative := t1.pb[0] == MINUS;
    var buf := if negative then t1.pb[1..] else t1.pb;
    if Matches(g, INF_TEXT, buf, Min(t.stPos + 1, |INF_TEXT|)) then
      StepMatched(t1, INF_TEXT, JDouble(if negative then [MINUS] + INF_TEXT else INF_TEXT))
    else Halt(t1, ErrUnexpected, 0)
  }

  function StepNull(g: Config, t: Tok, c: byte): Outcome {
    var t1 := Append(t, [c]);
    if Matches(g, NULL_TEXT, t1.pb, Min(t.stPos + 1, |NULL_TEXT|)) then StepMatched(t1, NULL_TEXT, JNull)
    else if Matches(g, NAN_TEXT, t1.pb, Min(t.stPos + 1, |NAN_TEXT|)) then StepMatched(t1, NAN_TEXT, JDouble(NAN_TEXT))
    else Halt(t1, ErrNull, 0)
  }

  function StepBoolean(g: Config, t: Tok, c: byte): Outcome {
    var t1 := Append(t, [c]);
    if Matches(g, TRUE_TEXT, t1.pb, Min(t.stPos + 1, |TRUE_TEXT|)) then StepMatched(t1, TRUE_TEXT, JBool(true))
    else if Matches(g, FALSE_TEXT, t1.pb, Min(t.stPos + 1, |FALSE_TEXT|)) then StepMatched(t1, FALSE_TEXT, JBool(false))
    else Halt(t1, ErrBoolean, 0)
  }

  function StepCommentStart(t: Tok, c: byte): Outcome {
    if c == STAR then Advance(Append(Go(t, Comment), [c]), 1)
    else if c == SLASH then Advance(Append(Go(t, CommentEol), [c]), 1)
    else Halt(t, ErrComment, 0)
  }

  function StepComment(t: Tok, c: byte): Outcome {
    Advance(Append(if c == STAR then Go(t, CommentEnd) else t, [c]), 1)
  }

  function StepCommentEol(t: Tok, c: byte): Outcome {
    Advance(if c == NEWLINE then Go(t, EatWs) else Append(t, [c]), 1)
  }

  function StepCommentEnd(t: Tok, c: byte): Outcome {
    Advance(Append(Go(t, if c == SLASH then EatWs else Comment), [c]), 1)
  }

  function StepStr(t: Tok, c: byte): Outcome {
    if c == t.quote then Advance(Accept(t, JString(t.pb)), 1)
    else if c == BACKSLASH then Advance(t.(top := t.top.(saved := Str, state := StrEscape)), 1)
    else Advance(Append(t, [c]), 1)
  }

  /** The byte that a two-character escape stands for. */
  function Unescape(c: byte): Option<byte> {
    if c == DQUOTE || c == BACKSLASH || c == SLASH then Some(c)
    else if c == LOWER_B then Some(BACKSPACE)
    else if c == LOWER_N then Some(NEWLINE)
    else if c == LOWER_R then Some(RETURN)
    else if c == LOWER_T then Some(TAB)
    else if c == LOWER_F then Some(FORMFEED)
    else None
  }

  function StepStrEscape(t: Tok, c: byte): Outcome {
    match Unescape(c)
    case Some(b) => Advance(Append(Go(t, t.top.saved), [b]), 1)
    case None =>
      if c == LOWER_U then Advance(Go(t, EscapeUnicode).(ucs := 0, stPos := 0), 1)
      else Halt(t, ErrString, 0)
  }

  /** `jt_hexdigit`; `strchr` also finds the terminator, so a NUL passes for a digit worth -48. */
  function HexDigit(c: byte): int {
    if c <= NINE then c as int - ZERO else c % 8 + 9
  }

  /** Adds the hex digit at position `pos` of an escape, in 32-bit arithmetic. */
  function AddDigit(ucs: nat, c: byte, pos: nat): (u: nat)
    requires pos < 4
    ensures u < 0x1_0000_0000
  {
    var weight := [0x1000, 0x100, 0x10, 1][pos];
    (ucs + HexDigit(c) * weight) % 0x1_0000_0000
  }

  /** Are the two characters after `i` inside the chunk, and do they start a further escape? */
  predicate EscapeFollows(input: bytes, i: nat) {
    i + 2 < |input| && input[i + 1] == BACKSLASH && input[i + 2] == LOWER_U
  }

  function StepUnicode(t: Tok, input: bytes, i: nat): Outcome
    requires i < |input| && t.stPos < 4
  {
    var c := input[i];
    if !IsHex(c) && c != NUL then Halt(t, ErrString, 0)
    else
      var t1 := t.(ucs := AddDigit(t.ucs, c, t.stPos), stPos := t.stPos + 1);
      if t1.stPos < 4 then Advance(t1, 1) else FinishEscape(t1, input, i)
  }

  /** A pending high surrogate is combined with the new value, or replaced when that is no low surrogate. */
  function Combine(t: Tok): Tok {
    if t.hi == 0 then t
    else if IsLowSurrogate(t.ucs) then t.(ucs := DecodePair(t.hi, t.ucs), hi := 0)
    else Append(t, REPLACEMENT).(hi := 0)
  }

  /** All four digits are there: wait for a second escape, or emit UTF-8. */
  function FinishEscape(t: Tok, input: bytes, i: nat): Outcome
    requires i < |input|
  {
    var t1 := Combine(t);
    if t1.ucs >= 0x800 && IsHighSurrogate(t1.ucs) && EscapeFollows(input, i) then
      if input[i] == NUL then Halt(Append(t1, REPLACEMENT + REPLACEMENT), Success, 2)
      else if i + 3 == |input| then Halt(Append(t1, REPLACEMENT), Continue, 3)
      else Advance(t1.(hi := t1.ucs, ucs := 0, stPos := 0), 3)
    else Advance(Append(Go(t1, t1.top.saved), Emission(t1.ucs)), 1)
  }

  /** The bytes appended for a finished escape that does not wait for a second one. */
  function Emission(u: nat): bytes {
    if u < 0x800 then Encode(u)
    else if IsHighSurrogate(u) || IsLowSurrogate(u) || u >= 0x110000 then REPLACEMENT
    else Encode(u)
  }

  function StepNumber(g: Config, t: Tok, c: byte): Outcome {
    if IsNumberChar(c) then
      Advance(Append(t, [c]).(caseLen := t.caseLen + 1,
                              isDouble := t.isDouble || c == DOT || c == LOWER_E || c == UPPER_E), 1)
    else if t.pb != [] && t.pb[0] == MINUS && t.caseLen == 1 && (c == LOWER_I || c == UPPER_I) then
      Redo(Go(t, Inf).(caseLen := 0))
    else FinishNumber(g, t.(caseLen := 0))
  }

  function FinishNumber(g: Config, t: Tok): Outcome {
    if t.isDouble then
      if g.isDoubleText(t.pb) then Redo(Accept(t, JDouble(t.pb))) else Halt(t, ErrNumber, 0)
    else
      match ParseInt64(t.pb)
      case None => Halt(t, ErrNumber, 0)
      case Some(n) =>
        if n != 0 && t.pb[0] == ZERO && g.strict then Halt(t, ErrNumber, 0) else Redo(Accept(t, JInt(n)))
  }

  function Push(t: Tok, s: State): Tok {
    t.(below := t.below + [t.top.(state := s)], top := CLEAN)
  }

  function StepArray(g: Config, t: Tok, c: byte): Outcome {
    if c == RBRACKET then
      if t.top.state == ArrayAfterSep && g.strict then Halt(t, ErrUnexpected, 0) else Advance(Await(t, Finish), 1)
    else if |t.below| + 1 >= g.maxDepth then Halt(t, ErrDepth, 0)
    else Redo(Push(t, ArrayAdd))
  }

  /** `obj` is dead after it has been stored, so it goes back to idle here. */
  function StepArrayAdd(t: Tok): Outcome {
    var v := if t.top.current.JArray? then JArray(t.top.current.items + [t.obj]) else t.top.current;
    Redo(t.(top := Level(EatWs, ArraySep, v, t.top.key), obj := JNull))
  }

  function StepArraySep(t: Tok, c: byte): Outcome {
    if c == RBRACKET then Advance(Await(t, Finish), 1)
    else if c == COMMA then Advance(Await(t, ArrayAfterSep), 1)
    else Halt(t, ErrArray, 0)
  }

  function StepFieldStart(g: Config, t: Tok, c: byte): Outcome {
    if c == RBRACE then
      if t.top.state == ObjectFieldStartAfterSep && g.strict then Halt(t, ErrUnexpected, 0)
      else Advance(Await(t, Finish), 1)
    else if c == DQUOTE || c == SQUOTE then Advance(Go(t, ObjectField).(quote := c, pb := []), 1)
    else Halt(t, ErrKeyName, 0)
  }

  function StepField(t: Tok, c: byte): Outcome {
    if c == t.quote then
      Advance(t.(top := t.top.(state := EatWs, saved := ObjectFieldEnd, key := Some(CString(t.pb)))), 1)
    else if c == BACKSLASH then Advance(t.(top := t.top.(saved := ObjectField, state := StrEscape)), 1)
    else Advance(Append(t, [c]), 1)
  }

  function StepFieldEnd(t: Tok, c: byte): Outcome {
    if c == COLON then Advance(Await(t, ObjectValue), 1) else Halt(t, ErrKeySep, 0)
  }

  function StepValue(g: Config, t: Tok): Outcome {
    if |t.below| + 1 >= g.maxDepth then Halt(t, ErrDepth, 0) else Redo(Push(t, ObjectValueAdd))
  }

  function StepValueAdd(t: Tok): Outcome {
    var v :=
      if t.top.current.JObject? && t.top.key.Some? then JObject(Put(t.top.current.members, t.top.key.value, t.obj))
      else t.top.current;
    Redo(t.(top := Level(EatWs, ObjectSep, v, None), obj := JNull))
  }

  function StepObjectSep(t: Tok, c: byte): Outcome {
    if c == RBRACE then Advance(Await(t, Finish), 1)
    else if c == COMMA then Advance(Await(t, ObjectFieldStartAfterSep), 1)
    else Halt(t, ErrValueSep, 0)
  }

  function Step(g: Config, t: Tok, input: bytes, i: nat): Outcome
    requires i < |input| && (t.top.state == EscapeUnicode ==> t.stPos < 4)
  {
    var c := input[i];
    match t.top.state
    case EatWs => StepEatWs(g, t, c)
    case Start => StepStart(g, t, c)
    case Finish => StepFinish(t)
    case Inf => StepInf(g, t, c)
    case NullLit => StepNull(g, t, c)
    case CommentStart => StepCommentStart(t, c)
    case Comment => StepComment(t, c)
    case CommentEol => StepCommentEol(t, c)
    case CommentEnd => StepCommentEnd(t, c)
    case Str => StepStr(t, c)
    case StrEscape => StepStrEscape(t, c)
    case EscapeUnicode => StepUnicode(t, input, i)
    case Boolean => StepBoolean(g, t, c)
    case Number => StepNumber(g, t, c)
    case Array => StepArray(g, t, c)
    case ArrayAfterSep => StepArray(g, t, c)
    case ArrayAdd => StepArrayAdd(t)
    case ArraySep => StepArraySep(t, c)
    case ObjectFieldStart => StepFieldStart(g, t, c)
    case ObjectFieldStartAfterSep => StepFieldStart(g, t, c)
    case ObjectField => StepField(t, c)
    case ObjectFieldEnd => StepFieldEnd(t, c)
    case ObjectValue => StepValue(g, t)
    case ObjectValueAdd => StepValueAdd(t)
    case ObjectSep => StepObjectSep(t, c)
  }

  // Single cases of the switch, for proofs that need no more than one.

  lemma StepAt(g: Config, t: Tok, input: bytes, i: nat)
    requires i < |input|
    ensures t.top.state == EatWs ==> Step(g, t, input, i) == StepEatWs(g, t, input[i])
    ensures t.top.state == Start ==> Step(g, t, input, i) == StepStart(g, t, input[i])
    ensures t.top.state == Number ==> Step(g, t, input, i) == StepNumber(g, t, input[i])
    ensures t.top.state == Inf ==> Step(g, t, input, i) == StepInf(g, t, input[i])
    ensures t.top.state == NullLit ==> Step(g, t, input, i) == StepNull(g, t, input[i])
    ensures t.top.state == Boolean ==> Step(g, t, input, i) == StepBoolean(g, t, input[i])
    ensures t.top.state == CommentStart ==> Step(g, t, input, i) == StepCommentStart(t, input[i])
    ensures t.top.state == Comment ==> Step(g, t, input, i) == StepComment(t, input[i])
    ensures t.top.state == CommentEol ==> Step(g, t, input, i) == StepCommentEol(t, input[i])
    ensures t.top.state == CommentEnd ==> Step(g, t, input, i) == StepCommentEnd(t, input[i])
    ensures t.top.state == Str ==> Step(g, t, input, i) == StepStr(t, input[i])
    ensures t.top.state == ObjectField ==> Step(g, t, input, i) == StepField(t, input[i])
    ensures t.top.state == StrEscape ==> Step(g, t, input, i) == StepStrEscape(t, input[i])
    ensures t.top.state == Array || t.top.state == ArrayAfterSep ==> Step(g, t, input, i) == StepArray(g, t, input[i])
    ensures t.top.state == ArraySep ==> Step(g, t, input, i) == StepArraySep(t, input[i])
    ensures t.top.state == ObjectFieldStart || t.top.state == ObjectFieldStartAfterSep ==>
              Step(g, t, input, i) == StepFieldStart(g, t, input[i])
    ensures t.top.state == ObjectFieldEnd ==> Step(g, t, input, i) == StepFieldEnd(t, input[i])
    ensures t.top.state == ObjectValue ==> Step(g, t, input, i) == StepValue(g, t)
    ensures t.top.state == ObjectSep ==> Step(g, t, input, i) == StepObjectSep(t, input[i])
  {
    hide StepEatWs, StepStart, StepFinish, StepInf, StepNull, StepCommentStart, StepComment, StepCommentEol,
      StepCommentEnd, StepStr, StepStrEscape, StepUnicode, StepBoolean, StepNumber, StepArray, StepArrayAdd,
      StepArraySep, StepFieldStart, StepField, StepFieldEnd, StepValue, StepValueAdd, StepObjectSep;
  }

  lemma StepAtStart(g: Config, t: Tok, input: bytes, i: nat)
    requires i < |input| && t.top.state == Start
    ensures Step(g, t, input, i) == StepStart(g, t, input[i])
  {
    hide *;
    StepAt(g, t, input, i);
  }

  lemma StepAtNumber(g: Config, t: Tok, input: bytes, i: nat)
    requires i < |input| && t.top.state == Number
    ensures Step(g, t, input, i) == StepNumber(g, t, input[i])
  {
    hide *;
    StepAt(g, t, input, i);
  }

  lemma StepAtLiteral(g: Config, t: Tok, input: bytes, i: nat)
    requires i < |input|
    ensures t.top.state == Inf ==> Step(g, t, input, i) == StepInf(g, t, input[i])
    ensures t.top.state == NullLit ==> Step(g, t, input, i) == StepNull(g, t, input[i])
    ensures t.top.state == Boolean ==> Step(g, t, input, i) == StepBoolean(g, t, input[i])
  {
    hide *;
    StepAt(g, t, input, i);
  }

  lemma StepAtBlank(g: Config, t: Tok, input: bytes, i: nat)
    requires i < |input| && t.top.state == EatWs
    ensures Step(g, t, input, i) == StepEatWs(g, t, input[i])
  {
    hide *;
    StepAt(g, t, input, i);
  }

  lemma StepAtComment(g: Config, t: Tok, input: bytes, i: nat)
    requires i < |input|
    ensures t.top.state == CommentStart ==> Step(g, t, input, i) == StepCommentStart(t, input[i])
    ensures t.top.state == Comment ==> Step(g, t, input, i) == StepComment(t, input[i])
    ensures t.top.state == CommentEol ==> Step(g, t, input, i) == StepCommentEol(t, input[i])
    ensures t.top.state == CommentEnd ==> Step(g, t, input, i) == StepCommentEnd(t, input[i])
  {
    hide *;
    StepAt(g, t, input, i);
  }

  lemma StepAtText(g: Config, t: Tok, input: bytes, i: nat)
    requires i < |input|
    ensures t.top.state == Str ==> Step(g, t, input, i) == StepStr(t, input[i])
    ensures t.top.state == ObjectField ==> Step(g, t, input, i) == StepField(t, input[i])
    ensures t.top.state == StrEscape ==> Step(g, t, input, i) == StepStrEscape(t, input[i])
  {
    hide *;
    StepAt(g, t, input, i);
  }

  lemma StepAtItem(g: Config, t: Tok, input: bytes, i: nat)
    requires i < |input|
    ensures t.top.state == Array || t.top.state == ArrayAfterSep ==> Step(g, t, input, i) == StepArray(g, t, input[i])
    ensures t.top.state == ArraySep ==> Step(g, t, input, i) == StepArraySep(t, input[i])
  {
    hide *;
    StepAt(g, t, input, i);
  }

  lemma StepAtMember(g: Config, t: Tok, input: bytes, i: nat)
    requires i < |input|
    ensures t.top.state == ObjectFieldStart || t.top.state == ObjectFieldStartAfterSep ==>
      Step(g, t, input, i) == StepFieldStart(g, t, input[i])
    ensures t.top.state == ObjectFieldEnd ==> Step(g, t, input, i) == StepFieldEnd(t, input[i])
    ensures t.top.state == ObjectValue ==> Step(g, t, input, i) == StepValue(g, t)
    ensures t.top.state == ObjectSep ==> Step(g, t, input, i) == StepObjectSep(t, input[i])
  {
    hide *;
    StepAt(g, t, input, i);
  }

  // ---------------------------------------------------------------- the stack invariant

  /** What a level holds while state `s` runs on it. */
  datatype Holding = Nothing | AnyValue | AnArray | AnObject | AMember | Unused

  function Holds(s: State): Holding {
    match s
    case Start | Inf | NullLit | Boolean | Number | Str => Nothing
    case Finish => AnyValue
    case Array | ArrayAfterSep | ArraySep | ArrayAdd => AnArray
    case ObjectFieldStart | ObjectFieldStartAfterSep | ObjectField | ObjectSep => AnObject
    case ObjectFieldEnd | ObjectValue | ObjectValueAdd => AMember
    case EatWs | CommentStart | Comment | CommentEol | CommentEnd | StrEscape | EscapeUnicode => Unused
  }

  /** The level holds what state `s` needs to run without a leak or a null access. */
  predicate Fits(s: State, l: Level) {
    match Holds(s)
    case Nothing => l.current == JNull && l.key == None
    case AnyValue => l.key == None
    case AnArray => l.current.JArray? && l.key == None
    case AnObject => l.current.JObject? && l.key == None
    case AMember => l.current.JObject? && l.key.Some?
    case Unused => false
  }

  /** The states that white space or a comment may precede. */
  predicate Awaited(s: State) {
    s == Start || s == Finish || s == Array || s == ArrayAfterSep || s == ArraySep || s == ObjectFieldStart ||
    s == ObjectFieldStartAfterSep || s == ObjectFieldEnd || s == ObjectValue || s == ObjectSep
  }

  predicate InComment(s: State) {
    s.CommentStart? || s.Comment? || s.CommentEol? || s.CommentEnd?
  }

  predicate InText(s: State) {
    s.Str? || s.ObjectField?
  }

  predicate TopOk(l: Level) {
    if l.state == EatWs || InComment(l.state) then Awaited(l.saved) && Fits(l.saved, l)
    else if l.state == StrEscape || l.state == EscapeUnicode then InText(l.saved) && Fits(l.saved, l)
    else Fits(l.state, l) && (l.saved == Finish || InText(l.saved) ==> l.state == l.saved)
  }

  /** A level below the top waits for the value that is being parsed above it. */
  predicate Waiting(l: Level) {
    (l.state.ArrayAdd? || l.state.ObjectValueAdd?) && Fits(l.state, l) && l.saved != Finish && !InText(l.saved)
  }

  predicate BelowOk(below: seq<Level>, maxDepth: nat) {
    |below| < maxDepth && forall l | l in below :: Waiting(l)
  }

  /** What the scratch fields and locals satisfy in each state. */
  predicate ScratchOk(state: State, saved: State, ucs: nat, hi: nat, caseLen: nat, quote: byte, obj: Json) {
    && ucs < 0x1_0000_0000
    && (hi != 0 ==> state == EscapeUnicode)
    && (caseLen != 0 ==> state == Number)
    && (InText(state) || InText(saved) ==> quote == DQUOTE || quote == SQUOTE)
    && (obj != JNull ==> state == ArrayAdd || state == ObjectValueAdd)
  }

  predicate Shape(g: Config, t: Tok) {
    BelowOk(t.below, g.maxDepth) && TopOk(t.top) &&
    ScratchOk(t.top.state, t.top.saved, t.ucs, t.hi, t.caseLen, t.quote, t.obj)
  }

  /** The invariant of every tokener that a call may be made on: no shift by a negative amount lies ahead. */
  predicate WellFormed(g: Config, t: Tok) {
    Shape(g, t) && (t.top.state == EscapeUnicode ==> t.stPos < 4)
  }

  /** Bounds the jumps that a state can make without consuming the character at hand. */
  function StateRank(s: State): nat {
    match s
    case ArrayAdd | ObjectValueAdd => 2
    case Finish => 3
    case Inf | NullLit | Boolean => 5
    case Number => 6
    case Start => 7
    case Array | ArrayAfterSep | ObjectValue => 9
    case _ => 0
  }

  function Rank(t: Tok): nat {
    if t.top.state == EatWs then StateRank(t.top.saved) + 1 else StateRank(t.top.state)
  }

  /** A pass keeps the invariant, makes progress or drops the rank, and stays inside the input. */
  predicate Keeps(g: Config, t: Tok, input: bytes, i: nat, o: Outcome)
    requires i < |input|
  {
    match o
    case Advance(t', n) =>
      WellFormed(g, t') && 1 <= n && i + n <= |input| && (input[i] == NUL ==> n == 1) && t'.obj == JNull
    case Redo(t') => WellFormed(g, t') && Rank(t') < Rank(t)
    case Halt(t', e, n) => Shape(g, t') && i + n <= |input| && (e == Continue ==> n != 0 && i + n == |input|)
  }

  lemma StepKeeps(g: Config, t: Tok, input: bytes, i: nat)
    requires WellFormed(g, t) && i < |input|
    ensures Keeps(g, t, input, i, Step(g, t, input, i))
  {
    match t.top.state
    case EatWs | CommentStart | Comment | CommentEol | CommentEnd => BlankKeeps(g, t, input, i);
    case Start => StartKeeps(g, t, input, i);
    case NullLit | Inf | Boolean => LiteralKeeps(g, t, input, i);
    case Number => NumberKeeps(g, t, input, i);
    case EscapeUnicode => UnicodeKeeps(g, t, input, i);
    case Str | ObjectField => TextKeeps(g, t, input, i);
    case StrEscape => EscapeKeeps(g, t, input, i);
    case ObjectFieldStart | ObjectFieldStartAfterSep | ObjectFieldEnd => FieldKeeps(g, t, input, i);
    case Finish | ArrayAdd | ObjectValueAdd => JoinKeeps(g, t, input, i);
    case ArraySep | ObjectSep => SepKeeps(g, t, input, i);
    case Array | ArrayAfterSep | ObjectValue => PushKeeps(g, t, input, i);
  }

  lemma BlankKeeps(g: Config, t: Tok, input: bytes, i: nat)
    requires WellFormed(g, t) && i < |input| && (t.top.state == EatWs || InComment(t.top.state))
    ensures Keeps(g, t, input, i, Step(g, t, input, i))
  {
    hide Step, WellFormed, Keeps;
    if t.top.state == EatWs {
      StepAtBlank(g, t, input, i);
      SpaceKeeps(g, t, input, i);
    } else {
      StepAtComment(g, t, input, i);
      CommentKeeps(g, t, input, i);
    }
  }

  lemma SpaceKeeps(g: Config, t: Tok, input: bytes, i: nat)
    requires WellFormed(g, t) && i < |input| && t.top.state == EatWs
    ensures Keeps(g, t, input, i, StepEatWs(g, t, input[i]))
  {
    hide BelowOk, IsSpace;
  }

  lemma CommentKeeps(g: Config, t: Tok, input: bytes, i: nat)
    requires WellFormed(g, t) && i < |input| && InComment(t.top.state)
    ensures t.top.state == CommentStart ==> Keeps(g, t, input, i, StepCommentStart(t, input[i]))
    ensures t.top.state == Comment ==> Keeps(g, t, input, i, StepComment(t, input[i]))
    ensures t.top.state == CommentEol ==> Keeps(g, t, input, i, StepCommentEol(t, input[i]))
    ensures t.top.state == CommentEnd ==> Keeps(g, t, input, i, StepCommentEnd(t, input[i]))
  {
    hide BelowOk, Awaited, Holds;
  }

  lemma StartKeeps(g: Config, t: Tok, input: bytes, i: nat)
    requires WellFormed(g, t) && i < |input| && t.top.state == Start
    ensures Keeps(g, t, input, i, StepStart(g, t, input[i]))
  {
    hide BelowOk, IsDigit;
    var c, o := input[i], StepStart(g, t, input[i]);
    if c == LBRACE || c == LBRACKET {
      var s, v := if c == LBRACE then ObjectFieldStart else Array, if c == LBRACE then JObject([]) else JArray([]);
      assert o == Advance(t.(top := Level(EatWs, s, v, None)), 1);
    } else if o.Advance? {
      assert o == Advance(Go(t, Str).(pb := [], quote := c), 1);
    } else if o.Redo? {
      ScalarStartKeeps(g, t, input, i);
    }
  }

  lemma ScalarStartKeeps(g: Config, t: Tok, input: bytes, i: nat)
    requires WellFormed(g, t) && i < |input| && t.top.state == Start && StepStart(g, t, input[i]).Redo?
    ensures Keeps(g, t, input, i, StepStart(g, t, input[i]))
  {
    var o := StepStart(g, t, input[i]);
    var s := o.t.top.state;
    assert o.t == Go(t, s).(pb := [], stPos := o.t.stPos, isDouble := o.t.isDouble, caseLen := o.t.caseLen) &&
      (s == Inf || s == NullLit || s == Boolean || (s == Number && o.t.caseLen == 0)) by { hide Shape, Keeps, Rank; }
    hide StepStart, BelowOk;
  }

  lemma MatchedKeeps(g: Config, t: Tok, input: bytes, i: nat, lit: bytes, v: Json)
    requires WellFormed(g, t) && i < |input|
    requires t.top.state == NullLit || t.top.state == Inf || t.top.state == Boolean
    ensures Keeps(g, t, input, i, StepMatched(t, lit, v))
  {
    hide BelowOk;
    if t.stPos == |lit| {} else {}
  }

  lemma LiteralKeeps(g: Config, t: Tok, input: bytes, i: nat)
    requires WellFormed(g, t) && i < |input|
    requires t.top.state == NullLit || t.top.state == Inf || t.top.state == Boolean
    ensures Keeps(g, t, input, i, Step(g, t, input, i))
  {
    hide Step, BelowOk, Matches;
    StepAtLiteral(g, t, input, i);
    var t1, o := Append(t, [input[i]]), Step(g, t, input, i);
    if !o.Halt? {
      var lit, v :| o == StepMatched(t1, lit, v);
      MatchedKeeps(g, t1, input, i, lit, v);
    }
  }

  lemma NumberKeeps(g: Config, t: Tok, input: bytes, i: nat)
    requires WellFormed(g, t) && i < |input| && t.top.state == Number
    ensures Keeps(g, t, input, i, StepNumber(g, t, input[i]))
  {
    NumberDoes(g, t, input[i]);
    hide StepNumber, BelowOk, Holds;
    HoldsAtNumber();
  }

  lemma HoldsAtNumber()
    ensures Holds(Number) == Holds(Inf) == Nothing && Holds(Finish) == AnyValue
  {}

  /** The three ways a pass in the number state can end. */
  lemma NumberDoes(g: Config, t: Tok, c: byte)
    requires t.top.state == Number
    ensures match StepNumber(g, t, c)
      case Advance(t', n) =>
        n == 1 && t' == t.(pb := t'.pb, isDouble := t'.isDouble, caseLen := t.caseLen + 1) && c != NUL
      case Redo(t') => t' == Go(t, Inf).(caseLen := 0) || t' == Accept(t.(caseLen := 0), t'.top.current)
      case Halt(t', e, n) => n == 0 && e == ErrNumber && t' == t.(caseLen := 0)
  {
    hide ParseInt64;
  }

  lemma TextKeeps(g: Config, t: Tok, input: bytes, i: nat)
    requires WellFormed(g, t) && i < |input| && InText(t.top.state)
    ensures Keeps(g, t, input, i, if t.top.state == Str then StepStr(t, input[i]) else StepField(t, input[i]))
  {
    hide BelowOk, CString;
    var c := input[i];
    if c == t.quote {
      if t.top.state == Str {} else {}
    } else if c == BACKSLASH {
    } else {
    }
  }

  lemma EscapeKeeps(g: Config, t: Tok, input: bytes, i: nat)
    requires WellFormed(g, t) && i < |input| && t.top.state == StrEscape
    ensures Keeps(g, t, input, i, StepStrEscape(t, input[i]))
  {
    hide BelowOk;
    var c := input[i];
    if Unescape(c).Some? {
      if t.top.saved == Str {} else {}
    } else if c == LOWER_U {
    }
  }

  lemma FieldKeeps(g: Config, t: Tok, input: bytes, i: nat)
    requires WellFormed(g, t) && i < |input|
    requires t.top.state == ObjectFieldStart || t.top.state == ObjectFieldStartAfterSep || t.top.state == ObjectFieldEnd
    ensures Keeps(g, t, input, i, Step(g, t, input, i))
  {
    hide BelowOk, Step;
    StepAtMember(g, t, input, i);

  }

  lemma JoinKeeps(g: Config, t: Tok, input: bytes, i: nat)
    requires WellFormed(g, t) && i < |input|
    requires t.top.state == Finish || t.top.state == ArrayAdd || t.top.state == ObjectValueAdd
    ensures Keeps(g, t, input, i, Step(g, t, input, i))
  {
    if t.top.state == Finish {
      FinishKeeps(g, t, input, i);
    } else {
      AddKeeps(g, t, input, i);
    }
  }

  lemma FinishKeeps(g: Config, t: Tok, input: bytes, i: nat)
    requires WellFormed(g, t) && i < |input| && t.top.state == Finish
    ensures Keeps(g, t, input, i, StepFinish(t))
  {
    if t.below != [] { assert Waiting(t.below[|t.below| - 1]); }
  }

  lemma AddKeeps(g: Config, t: Tok, input: bytes, i: nat)
    requires WellFormed(g, t) && i < |input| && (t.top.state == ArrayAdd || t.top.state == ObjectValueAdd)
    ensures Keeps(g, t, input, i, if t.top.state == ArrayAdd then StepArrayAdd(t) else StepValueAdd(t))
  {
    hide BelowOk, Put;
  }

  lemma SepKeeps(g: Config, t: Tok, input: bytes, i: nat)
    requires WellFormed(g, t) && i < |input| && (t.top.state == ArraySep || t.top.state == ObjectSep)
    ensures Keeps(g, t, input, i, if t.top.state == ArraySep then StepArraySep(t, input[i])
      else StepObjectSep(t, input[i]))
  {
    hide BelowOk;
    if t.top.state == ArraySep { hide StepObjectSep; } else { hide StepArraySep; }
  }

  lemma PushKeeps(g: Config, t: Tok, input: bytes, i: nat)
    requires WellFormed(g, t) && i < |input|
    requires t.top.state == Array || t.top.state == ArrayAfterSep || t.top.state == ObjectValue
    ensures Keeps(g, t, input, i, Step(g, t, input, i))
  {
    var c, s := input[i], if t.top.state == ObjectValue then ObjectValueAdd else ArrayAdd;
    if c == RBRACKET && t.top.state != ObjectValue {
      hide BelowOk;
    } else if |t.below| + 1 < g.maxDepth {
      PushedBelow(g, t, s);
      hide BelowOk;
      assert Step(g, t, input, i) == Redo(Push(t, s));
    } else {
      hide BelowOk, TopOk, ScratchOk;
    }
  }

  lemma PushedBelow(g: Config, t: Tok, s: State)
    requires BelowOk(t.below, g.maxDepth) && TopOk(t.top) && |t.below| + 1 < g.maxDepth
    requires if t.top.state == ObjectValue then s == ObjectValueAdd
      else s == ArrayAdd && (t.top.state == Array || t.top.state == ArrayAfterSep)
    ensures BelowOk(Push(t, s).below, g.maxDepth)
  {
    assert Waiting(t.top.(state := s));
  }

  lemma UnicodeKeeps(g: Config, t: Tok, input: bytes, i: nat)
    requires WellFormed(g, t) && t.top.state == EscapeUnicode && i < |input|
    ensures Keeps(g, t, input, i, StepUnicode(t, input, i))
  {
    hide BelowOk, AddDigit, IsHex;
    var c := input[i];
    if IsHex(c) || c == NUL {
      var t1 := t.(ucs := AddDigit(t.ucs, c, t.stPos), stPos := t.stPos + 1);
      if t1.stPos == 4 { FinishEscapeKeeps(g, t1, input, i); }
    }
  }

  lemma FinishEscapeKeeps(g: Config, t: Tok, input: bytes, i: nat)
    requires Shape(g, t) && t.top.state == EscapeUnicode && i < |input|
    ensures Keeps(g, t, input, i, FinishEscape(t, input, i)) && !FinishEscape(t, input, i).Redo?
  {
    hide BelowOk, Emission, IsHighSurrogate, IsLowSurrogate, DecodePair;
  }

  // ---------------------------------------------------------------- a whole call

  /** A call that ends with a high surrogate pending writes the replacement character for it. */
  function Flush(t: Tok): Tok {
    if t.hi != 0 then Append(t, REPLACEMENT) else t
  }

  /** Levels after `json_tokener_reset_level`. */
  function Cleared(n: nat): (ls: seq<Level>)
    ensures |ls| == n && forall l | l in ls :: l == CLEAN
  {
    if n == 0 then [] else Cleared(n - 1) + [CLEAN]
  }

  /** The error tests at the label `out`, with the top level and the depth. */
  function LastError(strict: bool, top: Level, depth: nat, c: byte, err: Error): Error {
    if c == NUL && top.state != Finish && top.saved != Finish then ErrEof
    else if c != NUL && top.state == Finish && depth == 0 && strict then ErrUnexpected
    else err
  }

  /** The code at the label `out`: the last error tests and, on success, the reset of the stack. */
  function Out(g: Config, t: Tok, c: byte, err: Error, offset: nat): Result {
    var e, idle := LastError(g.strict, t.top, |t.below|, c, err), t.(obj := JNull, hi := 0, caseLen := 0);
    if e == Success then
      Result(idle.(below := Cleared(|t.below|), top := CLEAN), Success, offset, t.top.current)
    else Result(idle, e, offset, JNull)
  }

  /** `PEEK_CHAR` at the end of the chunk. */
  function AtEnd(g: Config, t: Tok, offset: nat): Result {
    var err := if t.below == [] && t.top.state == EatWs && t.top.saved == Finish then Success else Continue;
    Out(g, Flush(t), 1, err, offset)
  }

  function Run(g: Config, t: Tok, input: bytes, i: nat): Result
    requires WellFormed(g, t) && i <= |input|
    decreases |input| - i, Rank(t)
  {
    if i == |input| then AtEnd(g, t, i)
    else
      StepKeeps(g, t, input, i);
      match Step(g, t, input, i)
      case Advance(t', n) =>
        if input[i] == NUL then Out(g, Flush(t'), NUL, Success, i + n) else Run(g, t', input, i + n)
      case Redo(t') => Run(g, t', input, i)
      case Halt(t', e, n) => Out(g, t', input[i], e, i + n)
  }

  /** The machine that `json_tokener_new_ex` returns. */
  const NEW: Tok := Tok([], CLEAN, [], 0, false, NUL, 0, JNull, 0, 0)

  /** No local of an earlier call is left over. */
  predicate Idle(t: Tok) {
    t.obj == JNull && t.hi == 0 && t.caseLen == 0
  }

  /** `json_tokener_parse_ex` on the bytes of one chunk. */
  function ParseEx(g: Config, t: Tok, chunk: bytes): Result
    requires WellFormed(g, t) && Idle(t)
  {
    Run(g, t, chunk, 0)
  }
}
