/**
 Printing and then parsing gives back the same value: what the printer writes is a text of the grammar that stands for
 the value, in every layout.
 */
module RoundTrip {
  import opened Bytes
  import opened JsonValue
  import opened Numbers
  import opened OrderedMap
  import opened TokenerMachine
  import opened UnicodeEscapes
  import opened Printer
  import opened Grammar
  import opened GrammarTexts

  // ---------------------------------------------------------------- strings

  /** What `json_escape_str` makes of one byte. */
  function PieceOf(c: byte): Piece {
    if |EscapeByte(c)| == 1 then Plain(c)
    else if |EscapeByte(c)| == 2 then Short(EscapeByte(c)[1])
    else Unit(EscapeByte(c)[2..])
  }

  function PiecesOf(s: bytes): seq<Piece> {
    if s == [] then [] else [PieceOf(s[0])] + PiecesOf(s[1..])
  }

  lemma HexCharIsHex(n: nat)
    requires n < 16
    ensures IsHex(HexChar(n)) && HexDigit(HexChar(n)) == n
  {}

  lemma PieceOfIs(c: byte)
    ensures var p := PieceOf(c);
      && PieceOk(p) && p != Plain(DQUOTE) && PieceText(p) == EscapeByte(c)
      && match p
         case Plain(b) => b == c
         case Short(b) => Unescape(b) == Some(c)
         case Unit(d) => UnitValue(d) == c && c < SPACE
  {
    if |EscapeByte(c)| == 6 {
      HexCharIsHex(c / 16);
      HexCharIsHex(c % 16);
      assert EscapeByte(c)[2..] == [ZERO, ZERO, HexChar(c / 16), HexChar(c % 16)];
    }
  }

  lemma ControlIsItself(c: byte, more: bool)
    requires c < SPACE
    ensures Pair(0, c) == ([], c) && !Waits(c, more) && Emission(c) == [c]
  {}

  /** The escaped text says exactly the bytes of the string, NULs included. */
  lemma {:induction false} PiecesOfSay(s: bytes)
    ensures StringOk(PiecesOf(s)) && PiecesText(PiecesOf(s)) == Escape(s) && Said(0, PiecesOf(s)) == s
  {
    hide EscapeByte, PieceOf, PieceText, Emission, PieceOk, UnitValue, Unescape;
    if s != [] {
      var ps := PiecesOf(s);
      PieceOfIs(s[0]);
      PiecesOfSay(s[1..]);
      assert ps[1..] == PiecesOf(s[1..]);
      if ps[0].Unit? { ControlIsItself(s[0], StartsWithUnit(ps[1..])); }
      assert [] + [s[0]] + s[1..] == s && [s[0]] + s[1..] == s;
    }
  }

  // ---------------------------------------------------------------- the tree of a printed value

  /** White space in front of an element: what `Lead` holds behind the comma. */
  function Before(first: bool, level: nat, f: Flags): bytes {
    (if first then [] else Break(f)) + (if f.spaced then [SPACE] else []) + Indent(level + 1, f)
  }

  /** White space behind an element: none, or what precedes the closing bracket. */
  function Behind(last: bool, level: nat, f: Flags): bytes {
    if last then Trail(false, level, f) else []
  }

  /** White space behind the opening bracket. */
  function Pad(empty: bool, level: nat, f: Flags): bytes {
    Break(f) + if empty then Trail(true, level, f) else []
  }

  function DocOf(v: Json, level: nat, f: Flags): Doc
    decreases v, 1
  {
    match v
    case JNull => Word(NULL_TEXT)
    case JBool(b) => Word(if b then TRUE_TEXT else FALSE_TEXT)
    case JInt(n) => Numeral(PrintInt(n))
    case JDouble(lexeme) => if IsWord(lexeme) then Word(lexeme) else Numeral(lexeme)
    case JString(s) => Text(PiecesOf(s))
    case JArray(items) => List(Pad(items == [], level, f), ItemsOf(v, items, 0, level, f))
    case JObject(members) => Record(Pad(members == [], level, f), MembersOf(v, members, 0, level, f))
  }

  function ItemsOf(ghost v: Json, items: seq<Json>, k: nat, level: nat, f: Flags): (r: seq<Item>)
    requires v == JArray(items) && k <= |items|
    ensures |r| == |items| - k
    decreases v, 0, |items| - k
  {
    if k == |items| then []
    else
      [Item(Before(k == 0, level, f), DocOf(items[k], level + 1, f), Behind(k + 1 == |items|, level, f))] +
      ItemsOf(v, items, k + 1, level, f)
  }

  function MemberOf(key: bytes, doc: Doc, first: bool, last: bool, level: nat, f: Flags): Member {
    var next := if f.spaced then [SPACE] else [];
    Member(Before(first, level, f), PiecesOf(CString(key)), [], next, doc, Behind(last, level, f))
  }

  function MembersOf(ghost v: Json, members: seq<(bytes, Json)>, k: nat, level: nat, f: Flags): (r: seq<Member>)
    requires v == JObject(members) && k <= |members|
    ensures |r| == |members| - k
    decreases v, 0, |members| - k
  {
    if k == |members| then []
    else
      [MemberOf(members[k].0, DocOf(members[k].1, level + 1, f), k == 0, k + 1 == |members|, level, f)] +
      MembersOf(v, members, k + 1, level, f)
  }

  lemma {:induction false} ItemAt(v: Json, items: seq<Json>, k: nat, n: nat, level: nat, f: Flags)
    requires v == JArray(items) && k <= n < |items|
    ensures ItemsOf(v, items, k, level, f)[n - k] ==
      Item(Before(n == 0, level, f), DocOf(items[n], level + 1, f), Behind(n + 1 == |items|, level, f))
    decreases n - k
  {
    hide Before, Behind, DocOf;
    if k < n { ItemAt(v, items, k + 1, n, level, f); }
  }

  lemma {:induction false} MemberAt(v: Json, members: seq<(bytes, Json)>, k: nat, n: nat, level: nat, f: Flags)
    requires v == JObject(members) && k <= n < |members|
    ensures MembersOf(v, members, k, level, f)[n - k] ==
      MemberOf(members[n].0, DocOf(members[n].1, level + 1, f), n == 0, n + 1 == |members|, level, f)
    decreases n - k
  {
    hide MemberOf, DocOf;
    if k < n { MemberAt(v, members, k + 1, n, level, f); }
  }

  // ---------------------------------------------------------------- its text

  lemma LeadIs(k: nat, level: nat, f: Flags)
    ensures Lead(k == 0, level, f) == Comma(k) + Before(k == 0, level, f)
  {}

  lemma ListIs(v: Json, level: nat, f: Flags)
    requires v.JArray?
    ensures DocOf(v, level, f) == List(Pad(v.items == [], level, f), ItemsOf(v, v.items, 0, level, f))
  {}

  lemma RecordIs(v: Json, level: nat, f: Flags)
    requires v.JObject?
    ensures DocOf(v, level, f) == Record(Pad(v.members == [], level, f), MembersOf(v, v.members, 0, level, f))
  {}

  /** The tree's text is the printed text. */
  lemma {:induction false} DocOfText(v: Json, level: nat, f: Flags)
    ensures DocText(DocOf(v, level, f)) == Print(v, level, f)
    decreases v, 1
  {
    hide Break, Trail, PiecesText, Escape, PrintInt;
    match v
    case JString(s) => PiecesOfSay(s);
    case JArray(items) => ListOfText(v, level, f);
    case JObject(members) => RecordOfText(v, level, f);
    case _ =>
  }

  /** The parts of a printed container, and those of its tree. */
  lemma ListParts(v: Json, d: Doc, level: nat, f: Flags)
    requires v.JArray? && d.List?
    ensures DocText(d) == [LBRACKET] + d.pad + ItemsText(d, d.items, 0) + [RBRACKET]
    ensures Print(v, level, f) ==
      [LBRACKET] + Break(f) + PrintItems(v, v.items, 0, level, f) + Trail(v.items == [], level, f) + [RBRACKET]
    ensures d.items == [] ==> ItemsText(d, d.items, 0) == []
    ensures v.items == [] ==> PrintItems(v, v.items, 0, level, f) == []
  {
    hide Break, Trail;
  }

  lemma RecordParts(v: Json, d: Doc, level: nat, f: Flags)
    requires v.JObject? && d.Record?
    ensures DocText(d) == [LBRACE] + d.pad + MembersText(d, d.members, 0) + [RBRACE]
    ensures Print(v, level, f) ==
      [LBRACE] + Break(f) + PrintMembers(v, v.members, 0, level, f) + Trail(v.members == [], level, f) + [RBRACE]
    ensures d.members == [] ==> MembersText(d, d.members, 0) == []
    ensures v.members == [] ==> PrintMembers(v, v.members, 0, level, f) == []
  {
    hide Break, Trail;
  }

  lemma Enclosed(open: byte, pad: bytes, all: bytes, trail: bytes, close: byte)
    ensures [open] + (pad + []) + (all + trail) + [close] == [open] + pad + all + trail + [close]
    ensures [open] + (pad + trail) + [] + [close] == [open] + pad + [] + trail + [close]
  {
    assert pad + [] == pad;
  }

  lemma {:induction false} ListOfText(v: Json, level: nat, f: Flags)
    requires v.JArray?
    ensures DocText(DocOf(v, level, f)) == Print(v, level, f)
    decreases v, 0, |v.items| + 1
  {
    hide Break, Trail, ItemsOf, DocOf, DocText, Print, ItemsText, PrintItems;
    var d := DocOf(v, level, f);
    ListIs(v, level, f);
    ListParts(v, d, level, f);
    if v.items != [] { ItemsOfText(v, d, v.items, 0, level, f); }
    Enclosed(LBRACKET, Break(f), PrintItems(v, v.items, 0, level, f), Trail(v.items == [], level, f), RBRACKET);
  }

  lemma {:induction false} RecordOfText(v: Json, level: nat, f: Flags)
    requires v.JObject?
    ensures DocText(DocOf(v, level, f)) == Print(v, level, f)
    decreases v, 0, |v.members| + 1
  {
    hide Break, Trail, MembersOf, DocOf, DocText, Print, MembersText, PrintMembers;
    var d := DocOf(v, level, f);
    RecordIs(v, level, f);
    RecordParts(v, d, level, f);
    if v.members != [] { MembersOfText(v, d, v.members, 0, level, f); }
    Enclosed(LBRACE, Break(f), PrintMembers(v, v.members, 0, level, f), Trail(v.members == [], level, f), RBRACE);
  }

  lemma {:induction false} ItemsOfText(v: Json, d: Doc, items: seq<Json>, k: nat, level: nat, f: Flags)
    requires v == JArray(items) && d == DocOf(v, level, f) && k < |items|
    ensures ItemsText(d, d.items, k) == PrintItems(v, items, k, level, f) + Trail(false, level, f)
    decreases v, 0, |items| - k
  {
    hide Break, Trail, Print, DocText, Lead, Before, DocOf, ItemsOf;
    ListIs(v, level, f);
    var x, trail := d.items[k], Trail(false, level, f);
    ItemAt(v, items, 0, k, level, f);
    LeadIs(k, level, f);
    DocOfText(items[k], level + 1, f);
    var head := Lead(k == 0, level, f) + Print(items[k], level + 1, f);
    if k + 1 < |items| {
      ItemsOfText(v, d, items, k + 1, level, f);
      var more := PrintItems(v, items, k + 1, level, f);
      assert head + [] + (more + trail) == head + more + trail;
    } else {
      assert head + trail + [] == head + [] + trail;
    }
  }

  lemma NameOfText(key: bytes, doc: Doc, first: bool, last: bool, level: nat, f: Flags)
    ensures NameText(MemberOf(key, doc, first, last, level, f)) == Before(first, level, f) + QuoteKey(key, f)
  {
    hide Before, Behind, PiecesText, Escape;
    PiecesOfSay(CString(key));
    var e, sp := Escape(CString(key)), if f.spaced then [SPACE] else [];
    var b := Before(first, level, f);
    assert b + ([DQUOTE] + e + [DQUOTE]) + [] + [COLON] + sp == b + ([DQUOTE] + e + [DQUOTE, COLON] + sp);
  }

  lemma {:induction false} MembersOfText(v: Json, d: Doc, members: seq<(bytes, Json)>, k: nat, level: nat, f: Flags)
    requires v == JObject(members) && d == DocOf(v, level, f) && k < |members|
    ensures MembersText(d, d.members, k) == PrintMembers(v, members, k, level, f) + Trail(false, level, f)
    decreases v, 0, |members| - k
  {
    hide Break, Trail, Print, DocText, Lead, Before, NameText, QuoteKey, PiecesOf, CString, DocOf, MembersOf;
    RecordIs(v, level, f);
    var x, trail := d.members[k], Trail(false, level, f);
    var doc, last := DocOf(members[k].1, level + 1, f), k + 1 == |members|;
    MemberAt(v, members, 0, k, level, f);
    LeadIs(k, level, f);
    NameOfText(members[k].0, doc, k == 0, last, level, f);
    DocOfText(members[k].1, level + 1, f);
    var name := QuoteKey(members[k].0, f);
    var head := Lead(k == 0, level, f) + name + Print(members[k].1, level + 1, f);
    assert Comma(k) + (Before(k == 0, level, f) + name) == Lead(k == 0, level, f) + name;
    if k + 1 < |members| {
      MembersOfText(v, d, members, k + 1, level, f);
      var more := PrintMembers(v, members, k + 1, level, f);
      assert head + [] + (more + trail) == head + more + trail;
    } else {
      assert head + trail + [] == head + [] + trail;
    }
  }

  // ---------------------------------------------------------------- what it stands for

  lemma LayoutIsBlank(level: nat, f: Flags)
    ensures forall first: bool :: Blank(Before(first, level, f))
    ensures forall last: bool :: Blank(Behind(last, level, f))
    ensures forall empty: bool :: Blank(Pad(empty, level, f))
    ensures Blank(if f.spaced then [SPACE] else []) && Blank([])
  {}

  lemma IntIsNumeral(n: int, isDoubleText: bytes -> bool)
    requires INT64_MIN <= n <= INT64_MAX
    ensures IsNumeral(PrintInt(n), isDoubleText) && NumeralValue(PrintInt(n)) == JInt(n)
  {
    hide PrintInt, ParseInt64;
    PrintIntShape(n);
    PrintParseInt(n);
  }

  /** The tree of a printable value stands for the value, and is as deep as it is high. */
  lemma {:induction false} DocOfMeans(v: Json, level: nat, f: Flags, isDoubleText: bytes -> bool)
    requires Printable(v, isDoubleText)
    ensures var d := DocOf(v, level, f);
      DocOk(d, isDoubleText) && Meaning(d, isDoubleText) == v && Depth(d) == Height(v)
    decreases v, 1
  {
    hide PrintInt, IsNumeral, NumeralValue, PiecesOf, StringOk, Said, Blank, Pad;
    var d := DocOf(v, level, f);
    LayoutIsBlank(level, f);
    match v
    case JInt(n) => IntIsNumeral(n, isDoubleText);
    case JDouble(lexeme) => DoubleMeans(lexeme, isDoubleText);
    case JString(s) => PiecesOfSay(s);
    case JArray(items) =>
      ItemsOfMean(v, d, items, 0, level, f, isDoubleText);
      assert items[0..] == items;
    case JObject(members) =>
      assert members[..0] == [];
      MembersOfMean(v, d, members, 0, level, f, isDoubleText);
    case _ =>
  }

  lemma DoubleMeans(lexeme: bytes, isDoubleText: bytes -> bool)
    requires IsDoubleLexeme(lexeme, isDoubleText)
    ensures if IsWord(lexeme) then WordValue(lexeme) == JDouble(lexeme)
            else IsNumeral(lexeme, isDoubleText) && NumeralValue(lexeme) == JDouble(lexeme)
  {}

  lemma {:induction false} ItemsOfMean(v: Json, d: Doc, items: seq<Json>, k: nat, level: nat, f: Flags,
                                       isDoubleText: bytes -> bool)
    requires v == JArray(items) && d == DocOf(v, level, f) && k <= |items| && Printable(v, isDoubleText)
    ensures ItemsOk(d, d.items, k, isDoubleText) && ItemsMeaning(d, d.items, k, isDoubleText) == items[k..]
    ensures JsonValue.Max(ItemsHeight(v, items, k), ItemsDepth(d, d.items, k)) == Height(v)
    decreases v, 0, |items| - k
  {
    hide Blank, Before, Behind, Pad, DocOk, Meaning, DocOf, ItemsOf, Depth;
    ListIs(v, level, f);
    if k < |items| {
      var x := d.items[k];
      ItemAt(v, items, 0, k, level, f);
      LayoutIsBlank(level, f);
      DocOfMeans(items[k], level + 1, f, isDoubleText);
      ItemsOfMean(v, d, items, k + 1, level, f, isDoubleText);
    }
  }

  lemma {:induction false} MembersOfMean(v: Json, d: Doc, members: seq<(bytes, Json)>, k: nat, level: nat, f: Flags,
                                         isDoubleText: bytes -> bool)
    requires v == JObject(members) && d == DocOf(v, level, f) && k <= |members| && Printable(v, isDoubleText)
    ensures MembersOk(d, d.members, k, isDoubleText) &&
      MembersMeaning(d, d.members, k, members[..k], isDoubleText) == members
    ensures JsonValue.Max(MembersHeight(v, members, k), MembersDepth(d, d.members, k)) == Height(v)
    decreases v, 0, |members| - k
  {
    hide Blank, Before, Behind, Pad, DocOk, Meaning, PiecesOk, Unquoted, Said, PiecesOf, UniqueKeys, Put, DocOf,
      MembersOf, Depth;
    RecordIs(v, level, f);
    if k < |members| {
      var x, key, value := d.members[k], members[k].0, members[k].1;
      MemberAt(v, members, 0, k, level, f);
      LayoutIsBlank(level, f);
      assert NUL !in key;
      CStringWhole(key);
      PiecesOfSay(key);
      DocOfMeans(value, level + 1, f, isDoubleText);
      PutNext(members, k);
      MembersOfMean(v, d, members, k + 1, level, f, isDoubleText);
    } else {
      assert members[..k] == members;
    }
  }

  /** Storing the next member of a map with unique keys appends it. */
  lemma PutNext(members: seq<(bytes, Json)>, k: nat)
    requires k < |members| && UniqueKeys(members)
    ensures Put(members[..k], members[k].0, members[k].1) == members[..k + 1]
  {
    IndexOfIs(members[..k], members[k].0, -1);
    assert members[k] == (members[k].0, members[k].1);
  }

  // ---------------------------------------------------------------- the round trip

  /**
   Printing then parsing is the identity: for every printable value that the stack has room for, in every layout, in
   strict mode and outside it, on every idle tokener, unless a negative infinity is printed behind something that
   moves the position. The text is then parsed to that very value, and nothing but the NUL is left over; otherwise it
   is refused.
   */
  lemma PrintedIsReadBackExactlyWhen(g: Config, t: Tok, v: Json, f: Flags)
    requires WellFormed(g, t) && Idle(t) && t.below == [] && t.top == CLEAN && Printable(v, g.isDoubleText)
    ensures var fits, ok := Height(v) < g.maxDepth, InfinityReadable(DocOf(v, 0, f), t.stPos == 0);
      var r := ParseEx(g, t, Print(v, 0, f) + [NUL]);
      if fits && ok then
        r.err == Success && r.value == v && r.offset == |Print(v, 0, f)| && WellFormed(g, r.tok) && Idle(r.tok)
      else Refuses(r.err, fits, ok)
  {
    hide Run, DocOf, DocText, DocOk, Meaning, Depth, InfinityReadable, Print, WellFormed;
    var d := DocOf(v, 0, f);
    DocOfText(v, 0, f);
    DocOfMeans(v, 0, f, g.isDoubleText);
    assert [] + DocText(d) + [] == DocText(d);
    TextIsAcceptedExactlyWhen(g, t, [], d, []);
  }

  ghost predicate NoNegativeInfinity(v: Json) {
    match v
    case JDouble(lexeme) => lexeme != NEG_INF_TEXT
    case JArray(items) => forall i | 0 <= i < |items| :: NoNegativeInfinity(items[i])
    case JObject(members) => forall i | 0 <= i < |members| :: NoNegativeInfinity(members[i].1)
    case _ => true
  }

  lemma {:induction false} FiniteIsReadable(v: Json, level: nat, f: Flags, atZero: bool)
    requires NoNegativeInfinity(v)
    ensures InfinityReadable(DocOf(v, level, f), atZero)
    decreases v, 1
  {
    match v
    case JArray(items) => FiniteItems(v, DocOf(v, level, f), items, 0, level, f, atZero);
    case JObject(members) => FiniteMembers(v, DocOf(v, level, f), members, 0, level, f, atZero);
    case _ =>
  }

  lemma {:induction false} FiniteItems(v: Json, d: Doc, items: seq<Json>, k: nat, level: nat, f: Flags, atZero: bool)
    requires v == JArray(items) && d == DocOf(v, level, f) && k <= |items| && NoNegativeInfinity(v)
    ensures ItemsReadable(d, d.items, k, atZero)
    decreases v, 0, |items| - k
  {
    hide Before, Behind, Pad, InfinityReadable, MovesPosition, DocOf, ItemsOf;
    ListIs(v, level, f);
    if k < |items| {
      ItemAt(v, items, 0, k, level, f);
      FiniteIsReadable(items[k], level + 1, f, atZero);
      FiniteItems(v, d, items, k + 1, level, f, atZero && !MovesPosition(d.items[k].doc));
    }
  }

  lemma {:induction false} FiniteMembers(v: Json, d: Doc, members: seq<(bytes, Json)>, k: nat, level: nat, f: Flags,
                                         atZero: bool)
    requires v == JObject(members) && d == DocOf(v, level, f) && k <= |members| && NoNegativeInfinity(v)
    ensures MembersReadable(d, d.members, k, atZero)
    decreases v, 0, |members| - k
  {
    hide Before, Behind, Pad, InfinityReadable, MovesPosition, HasUnit, PiecesOf, DocOf, MembersOf;
    RecordIs(v, level, f);
    if k < |members| {
      MemberAt(v, members, 0, k, level, f);
      var z := atZero && !HasUnit(d.members[k].key);
      FiniteIsReadable(members[k].1, level + 1, f, z);
      FiniteMembers(v, d, members, k + 1, level, f, z && !MovesPosition(d.members[k].doc));
    }
  }

  /** Without negative infinities nothing stands in the way. */
  lemma RoundTrips(g: Config, t: Tok, v: Json, f: Flags)
    requires WellFormed(g, t) && Idle(t) && t.below == [] && t.top == CLEAN
    requires Printable(v, g.isDoubleText) && NoNegativeInfinity(v) && Height(v) < g.maxDepth
    ensures var r := ParseEx(g, t, Print(v, 0, f) + [NUL]);
            r.err == Success && r.value == v && r.offset == |Print(v, 0, f)| && WellFormed(g, r.tok) && Idle(r.tok)
  {
    hide Run, DocOf, InfinityReadable, Print, WellFormed, Printable, NoNegativeInfinity, Height;
    FiniteIsReadable(v, 0, f, t.stPos == 0);
    PrintedIsReadBackExactlyWhen(g, t, v, f);
  }
}
