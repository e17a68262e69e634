/**
 Texts as derivation trees: all of RFC 8259, and the NaN and Infinity that the printer adds. A tree says what its text
 is, and what value it stands for.
 */
module Grammar {
  import opened Bytes
  import opened JsonValue
  import opened Numbers
  import opened OrderedMap
  import opened Utf8
  import opened TokenerMachine
  import opened UnicodeEscapes

  // ---------------------------------------------------------------- strings

  /** A byte as it stands, a two-character escape, or a `\u` escape with its four digits. */
  datatype Piece = Plain(c: byte) | Short(c: byte) | Unit(digits: bytes)

  predicate PieceOk(p: Piece) {
    match p
    case Plain(c) => c != BACKSLASH && c != NUL
    case Short(c) => Unescape(c).Some?
    case Unit(d) => |d| == 4 && HexAt(d, 0)
  }

  function PieceText(p: Piece): bytes {
    match p
    case Plain(c) => [c]
    case Short(c) => [BACKSLASH, c]
    case Unit(d) => [BACKSLASH, LOWER_U] + d
  }

  /** `0123456789abcdef`, and the same with capitals. */
  const HEX_DIGITS: bytes := [48, 49, 50, 51, 52, 53, 54, 55, 56, 57, 97, 98, 99, 100, 101, 102]

  const HEX_CAPITALS: bytes := [48, 49, 50, 51, 52, 53, 54, 55, 56, 57, 65, 66, 67, 68, 69, 70]

  lemma HexDigitsAre(n: nat)
    requires n < 16
    ensures IsHex(HEX_DIGITS[n]) && HexDigit(HEX_DIGITS[n]) == n
    ensures IsHex(HEX_CAPITALS[n]) && HexDigit(HEX_CAPITALS[n]) == n
  {}

  function UnitValue(d: bytes): (u: nat)
    requires |d| == 4 && HexAt(d, 0)
    ensures u < 0x10000 && u == UnitAt(d, 0)
  {
    HexBounds(d[0]);
    HexBounds(d[1]);
    HexBounds(d[2]);
    HexBounds(d[3]);
    UnitAt(d, 0)
  }

  predicate PiecesOk(ps: seq<Piece>) {
    ps == [] || (PieceOk(ps[0]) && PiecesOk(ps[1..]))
  }

  /** The quote `q` does not stand by itself. */
  predicate Unquoted(ps: seq<Piece>, q: byte) {
    ps == [] || (ps[0] != Plain(q) && Unquoted(ps[1..], q))
  }

  /** What can stand between double quotes. */
  predicate StringOk(ps: seq<Piece>) {
    PiecesOk(ps) && Unquoted(ps, DQUOTE)
  }

  function PiecesText(ps: seq<Piece>): bytes {
    if ps == [] then [] else PieceText(ps[0]) + PiecesText(ps[1..])
  }

  predicate StartsWithUnit(ps: seq<Piece>) {
    ps != [] && ps[0].Unit?
  }

  /** The bytes that the string stands for; `hi` is a high surrogate that the units so far have left pending, or 0. */
  function Said(hi: nat, ps: seq<Piece>): bytes
    requires PiecesOk(ps)
    decreases |ps|
  {
    if ps == [] then []
    else
      match ps[0]
      case Plain(c) => [c] + Said(0, ps[1..])
      case Short(c) => [Unescape(c).value] + Said(0, ps[1..])
      case Unit(d) =>
        var (done, v) := Pair(hi, UnitValue(d));
        if Waits(v, StartsWithUnit(ps[1..])) then done + Said(v, ps[1..]) else done + Emission(v) + Said(0, ps[1..])
  }

  predicate HasUnit(ps: seq<Piece>) {
    ps != [] && (ps[0].Unit? || HasUnit(ps[1..]))
  }

  /** The values of a string of units. */
  function UnitValues(ps: seq<Piece>): seq<nat>
    requires PiecesOk(ps) && forall k | 0 <= k < |ps| :: ps[k].Unit?
  {
    if ps == [] then [] else [UnitValue(ps[0].digits)] + UnitValues(ps[1..])
  }

  /** On units alone, this is what a run of escapes turns into. */
  lemma {:induction false} SaidIsEmit(hi: nat, ps: seq<Piece>)
    requires PiecesOk(ps) && forall k | 0 <= k < |ps| :: ps[k].Unit?
    ensures |UnitValues(ps)| == |ps| && Said(hi, ps) == Emit(hi, UnitValues(ps))
    decreases |ps|
  {
    hide Emission, DecodePair, IsHighSurrogate, IsLowSurrogate;
    if ps != [] {
      var (done, v) := Pair(hi, UnitValue(ps[0].digits));
      SaidIsEmit(v, ps[1..]);
      SaidIsEmit(0, ps[1..]);
      assert UnitValues(ps)[1..] == UnitValues(ps[1..]);
      EmitUnfolds(hi, UnitValues(ps));
    }
  }

  // ---------------------------------------------------------------- values

  /** A literal, a numeral, a string, or a container with white space around everything in it. */
  datatype Doc =
    | Word(text: bytes)
    | Numeral(text: bytes)
    | Text(ps: seq<Piece>)
    | List(pad: bytes, items: seq<Item>)
    | Record(pad: bytes, members: seq<Member>)

  datatype Item = Item(before: bytes, doc: Doc, after: bytes)

  /** A member, with white space before its name, on both sides of the colon, and behind its value. */
  datatype Member = Member(before: bytes, key: seq<Piece>, mid: bytes, next: bytes, doc: Doc, after: bytes)

  predicate Blank(p: bytes) {
    forall c | c in p :: IsSpace(c)
  }

  predicate MarksDouble(p: bytes) {
    DOT in p || LOWER_E in p || UPPER_E in p
  }

  predicate IsWord(w: bytes) {
    w == NULL_TEXT || w == TRUE_TEXT || w == FALSE_TEXT || w == NAN_TEXT || w == INF_TEXT || w == NEG_INF_TEXT
  }

  function WordValue(w: bytes): Json {
    if w == TRUE_TEXT then JBool(true) else if w == FALSE_TEXT then JBool(false) else if w == NULL_TEXT then JNull
      else JDouble(w)
  }

  /** A text that the number state takes whole, in either mode; whether it is a double is up to sscanf. */
  predicate IsNumeral(p: bytes, isDoubleText: bytes -> bool) {
    && p != [] && (IsDigit(p[0]) || p[0] == MINUS) && (forall c | c in p :: IsNumberChar(c))
    && (if MarksDouble(p) then isDoubleText(p) else ParseInt64(p).Some? && (p[0] == ZERO ==> ParseInt64(p) == Some(0)))
  }

  function NumeralValue(p: bytes): Json {
    if MarksDouble(p) then JDouble(p) else match ParseInt64(p) case Some(n) => JInt(n) case None => JNull
  }

  predicate DocOk(d: Doc, isDoubleText: bytes -> bool)
    decreases d, 1
  {
    match d
    case Word(w) => IsWord(w)
    case Numeral(p) => IsNumeral(p, isDoubleText)
    case Text(ps) => StringOk(ps)
    case List(pad, items) => Blank(pad) && ItemsOk(d, items, 0, isDoubleText)
    case Record(pad, members) => Blank(pad) && MembersOk(d, members, 0, isDoubleText)
  }

  predicate ItemsOk(ghost d: Doc, items: seq<Item>, k: nat, isDoubleText: bytes -> bool)
    requires d.List? && d.items == items && k <= |items|
    decreases d, 0, |items| - k
  {
    k < |items| ==>
      && Blank(items[k].before) && Blank(items[k].after) && DocOk(items[k].doc, isDoubleText)
      && ItemsOk(d, items, k + 1, isDoubleText)
  }

  predicate MembersOk(ghost d: Doc, members: seq<Member>, k: nat, isDoubleText: bytes -> bool)
    requires d.Record? && d.members == members && k <= |members|
    decreases d, 0, |members| - k
  {
    k < |members| ==>
      var m := members[k];
      && Blank(m.before) && StringOk(m.key) && Blank(m.mid) && Blank(m.next) && Blank(m.after) &&
        DocOk(m.doc, isDoubleText)
      && MembersOk(d, members, k + 1, isDoubleText)
  }

  // What the tree's text is.

  function Comma(k: nat): bytes {
    if k == 0 then [] else [COMMA]
  }

  function Quoted(ps: seq<Piece>): bytes {
    [DQUOTE] + PiecesText(ps) + [DQUOTE]
  }

  function DocText(d: Doc): bytes
    decreases d, 1
  {
    match d
    case Word(w) => w
    case Numeral(p) => p
    case Text(ps) => Quoted(ps)
    case List(pad, items) => [LBRACKET] + pad + ItemsText(d, items, 0) + [RBRACKET]
    case Record(pad, members) => [LBRACE] + pad + MembersText(d, members, 0) + [RBRACE]
  }

  function ItemsText(ghost d: Doc, items: seq<Item>, k: nat): bytes
    requires d.List? && d.items == items && k <= |items|
    decreases d, 0, |items| - k
  {
    if k == |items| then []
    else Comma(k) + items[k].before + DocText(items[k].doc) + items[k].after + ItemsText(d, items, k + 1)
  }

  function NameText(m: Member): bytes {
    m.before + Quoted(m.key) + m.mid + [COLON] + m.next
  }

  function MembersText(ghost d: Doc, members: seq<Member>, k: nat): bytes
    requires d.Record? && d.members == members && k <= |members|
    decreases d, 0, |members| - k
  {
    if k == |members| then []
    else
      Comma(k) + NameText(members[k]) + DocText(members[k].doc) + members[k].after + MembersText(d, members, k + 1)
  }

  // What it stands for: members in order of their first occurrence, the last value of a name counts, names end at a
  // NUL.

  function Meaning(d: Doc, isDoubleText: bytes -> bool): Json
    requires DocOk(d, isDoubleText)
    decreases d, 1
  {
    match d
    case Word(w) => WordValue(w)
    case Numeral(p) => NumeralValue(p)
    case Text(ps) => JString(Said(0, ps))
    case List(pad, items) => JArray(ItemsMeaning(d, items, 0, isDoubleText))
    case Record(pad, members) => JObject(MembersMeaning(d, members, 0, [], isDoubleText))
  }

  function ItemsMeaning(ghost d: Doc, items: seq<Item>, k: nat, isDoubleText: bytes -> bool): seq<Json>
    requires d.List? && d.items == items && k <= |items| && ItemsOk(d, items, k, isDoubleText)
    decreases d, 0, |items| - k
  {
    if k == |items| then [] else [Meaning(items[k].doc, isDoubleText)] + ItemsMeaning(d, items, k + 1, isDoubleText)
  }

  function MembersMeaning(ghost d: Doc, members: seq<Member>, k: nat, done: seq<(bytes, Json)>,
                          isDoubleText: bytes -> bool)
    : seq<(bytes, Json)>
    requires d.Record? && d.members == members && k <= |members| && MembersOk(d, members, k, isDoubleText)
    decreases d, 0, |members| - k
  {
    if k == |members| then done
    else
      var m := members[k];
      MembersMeaning(d, members, k + 1, Put(done, CString(Said(0, m.key)), Meaning(m.doc, isDoubleText)), isDoubleText)
  }

  /** Nesting; scalars and empty containers have depth 0. */
  function Depth(d: Doc): nat
    decreases d, 1
  {
    match d
    case List(pad, items) => ItemsDepth(d, items, 0)
    case Record(pad, members) => MembersDepth(d, members, 0)
    case _ => 0
  }

  function ItemsDepth(ghost d: Doc, items: seq<Item>, k: nat): nat
    requires d.List? && d.items == items && k <= |items|
    decreases d, 0, |items| - k
  {
    if k == |items| then 0 else JsonValue.Max(1 + Depth(items[k].doc), ItemsDepth(d, items, k + 1))
  }

  function MembersDepth(ghost d: Doc, members: seq<Member>, k: nat): nat
    requires d.Record? && d.members == members && k <= |members|
    decreases d, 0, |members| - k
  {
    if k == |members| then 0 else JsonValue.Max(1 + Depth(members[k].doc), MembersDepth(d, members, k + 1))
  }

  // ---------------------------------------------------------------- the position that -Infinity depends on

  /** Reading the text moves `st_pos` off 0: it holds a literal or a `\u` escape. */
  predicate MovesPosition(d: Doc)
    decreases d, 1
  {
    match d
    case Word(w) => true
    case Numeral(p) => false
    case Text(ps) => HasUnit(ps)
    case List(pad, items) => ItemsMove(d, items, 0)
    case Record(pad, members) => MembersMove(d, members, 0)
  }

  predicate ItemsMove(ghost d: Doc, items: seq<Item>, k: nat)
    requires d.List? && d.items == items && k <= |items|
    decreases d, 0, |items| - k
  {
    k < |items| && (MovesPosition(items[k].doc) || ItemsMove(d, items, k + 1))
  }

  predicate MembersMove(ghost d: Doc, members: seq<Member>, k: nat)
    requires d.Record? && d.members == members && k <= |members|
    decreases d, 0, |members| - k
  {
    k < |members| && (HasUnit(members[k].key) || MovesPosition(members[k].doc) || MembersMove(d, members, k + 1))
  }

  /**
   No -Infinity stands behind something that moves the position; `atZero` says whether it is 0 in front of the text.
   */
  predicate InfinityReadable(d: Doc, atZero: bool)
    decreases d, 1
  {
    match d
    case Word(w) => w == NEG_INF_TEXT ==> atZero
    case List(pad, items) => ItemsReadable(d, items, 0, atZero)
    case Record(pad, members) => MembersReadable(d, members, 0, atZero)
    case _ => true
  }

  predicate ItemsReadable(ghost d: Doc, items: seq<Item>, k: nat, atZero: bool)
    requires d.List? && d.items == items && k <= |items|
    decreases d, 0, |items| - k
  {
    k < |items| ==>
      InfinityReadable(items[k].doc, atZero) && ItemsReadable(d, items, k + 1, atZero && !MovesPosition(items[k].doc))
  }

  predicate MembersReadable(ghost d: Doc, members: seq<Member>, k: nat, atZero: bool)
    requires d.Record? && d.members == members && k <= |members|
    decreases d, 0, |members| - k
  {
    k < |members| ==>
      var z := atZero && !HasUnit(members[k].key);
      InfinityReadable(members[k].doc, z) && MembersReadable(d, members, k + 1, z && !MovesPosition(members[k].doc))
  }
}
