/**
 What the layouts look like, read off the text alone: which white space stands between any two neighbouring characters
 outside strings. Nothing here says how the printer indents; the printer is proved to write texts like this.
 */
module Layouts {
  import opened Bytes
  import opened JsonValue
  import opened Numbers
  import opened Printer

  predicate White(c: byte) {
    c == 0x20 || c == 0x0A || c == 0x09 || c == 0x0D
  }

  predicate Opens(c: byte) {
    c == 0x5B || c == 0x7B
  }

  predicate Closes(c: byte) {
    c == 0x5D || c == 0x7D
  }

  // ---------------------------------------------------------------- reading a text

  /** How many containers are open, and whether the text is inside a string, behind a backslash there. */
  datatype Place = Place(open: nat, quoted: bool, escaped: bool)

  function Move(p: Place, c: byte): Place {
    if p.quoted then
      if p.escaped then p.(escaped := false) else p.(escaped := c == 0x5C, quoted := c != 0x22)
    else if c == 0x22 then p.(quoted := true)
    else if Opens(c) then p.(open := p.open + 1)
    else if Closes(c) && p.open > 0 then p.(open := p.open - 1)
    else p
  }

  const OUTSIDE := Place(0, false, false)

  /** The place behind `s`. */
  function Behind(s: bytes): Place {
    if s == [] then OUTSIDE else Move(Behind(s[..|s| - 1]), s[|s| - 1])
  }

  /** Character `k` of the text belongs to a string. */
  predicate InString(s: bytes, k: nat)
    requires k < |s|
  {
    Behind(s[..k]).quoted
  }

  /**
   The white space between the characters `x` and `y` of a text, with `n` containers open behind `x`: a line break in
   the pretty layout and two blanks for each container that is open around `y`, and one blank in the spaced layout,
   behind an opening bracket, behind a comma and in front of a closing bracket; one blank in the spaced layout behind a
   colon; and nothing anywhere else.
   */
  function Gap(f: Flags, x: byte, y: byte, n: nat): bytes {
    if Opens(x) || x == 0x2C || (Closes(y) && n > 0) then
      (if f.pretty then [0x0A] + Blanks(2 * (if Closes(y) && n > 0 then n - 1 else n)) else []) +
      (if f.spaced then [0x20] else [])
    else if x == 0x3A && f.spaced then [0x20]
    else []
  }

  function Blanks(n: nat): (r: bytes)
    ensures |r| == n && forall k | 0 <= k < n :: r[k] == 0x20
  {
    if n == 0 then [] else [0x20] + Blanks(n - 1)
  }

  // ---------------------------------------------------------------- a reader that checks the gaps

  /** The place, the last character that is not white space outside strings, the white space since, and a verdict. */
  datatype Scan = Scan(place: Place, last: byte, gap: bytes, ok: bool)

  function Next(f: Flags, s: Scan, c: byte): Scan {
    var p := Move(s.place, c);
    if s.place.quoted then s.(place := p, last := c)
    else if White(c) then s.(gap := s.gap + [c])
    else Scan(p, c, [], s.ok && s.gap == Gap(f, s.last, c, s.place.open))
  }

  function Fold(f: Flags, s: Scan, text: bytes): Scan {
    if text == [] then s else Next(f, Fold(f, s, text[..|text| - 1]), text[|text| - 1])
  }

  const START := Scan(OUTSIDE, NUL, [], true)

  lemma {:induction false} FoldAppend(f: Flags, s: Scan, a: bytes, b: bytes)
    ensures Fold(f, s, a + b) == Fold(f, Fold(f, s, a), b)
    decreases |b|
  {
    hide Next;
    if b == [] {
      assert a + b == a;
    } else {
      FoldAppend(f, s, a, b[..|b| - 1]);
      assert (a + b)[..|a + b| - 1] == a + b[..|b| - 1];
    }
  }

  lemma FoldOne(f: Flags, s: Scan, c: byte)
    ensures Fold(f, s, [c]) == Next(f, s, c)
  {
    assert [c][..0] == [];
  }

  lemma FoldNothing(f: Flags, s: Scan)
    ensures Fold(f, s, []) == s
  {}

  /** Outside strings and checked so far, with `n` containers open. */
  predicate Open(s: Scan, n: nat) {
    s.ok && s.place == Place(n, false, false)
  }

  lemma {:induction false} FoldWhite(f: Flags, s: Scan, w: bytes)
    requires !s.place.quoted && forall c | c in w :: White(c)
    ensures Fold(f, s, w) == s.(gap := s.gap + w)
    decreases |w|
  {
    if w == [] {
      assert s.gap + [] == s.gap;
    } else {
      var n := |w| - 1;
      assert w == w[..n] + [w[n]];
      FoldWhite(f, s, w[..n]);
      assert s.gap + w == s.gap + w[..n] + [w[n]];
    }
  }

  // ---------------------------------------------------------------- scalars and strings

  /** A character of a numeral or of a literal. */
  predicate InToken(c: byte) {
    !White(c) && !Opens(c) && !Closes(c) && c != 0x22 && c != 0x2C && c != 0x3A
  }

  /** A character with nothing behind it but what a closing bracket wants. */
  predicate Quiet(c: byte) {
    !Opens(c) && c != 0x2C && c != 0x3A
  }

  /** The gap in front of a value is right. */
  predicate Due(f: Flags, s: Scan) {
    s.gap == Gap(f, s.last, NUL, s.place.open)
  }

  /** Behind a value: the same place, and nothing since its last character. */
  predicate Done(s: Scan, s': Scan) {
    s' == s.(last := s'.last, gap := []) && Quiet(s'.last)
  }

  lemma {:induction false} FoldToken(f: Flags, s: Scan, n: nat, p: bytes)
    requires Open(s, n) && Due(f, s) && p != [] && forall c | c in p :: InToken(c)
    ensures Done(s, Fold(f, s, p))
    decreases |p|
  {
    var m := |p| - 1;
    assert p[m] in p;
    if m == 0 {
      assert p == [p[0]];
      FoldOne(f, s, p[0]);
    } else {
      FoldToken(f, s, n, p[..m]);
    }
  }

  lemma FoldEscapeByte(f: Flags, s: Scan, c: byte)
    requires s.place.quoted && !s.place.escaped
    ensures Fold(f, s, EscapeByte(c)) == s.(last := Fold(f, s, EscapeByte(c)).last)
  {
    var e := EscapeByte(c);
    if |e| == 1 {
      FoldOne(f, s, e[0]);
    } else {
      var s1, s2 := Next(f, s, e[0]), Next(f, Next(f, s, e[0]), e[1]);
      assert [e[0]] + [e[1]] == [e[0], e[1]];
      FoldOne(f, s, e[0]);
      FoldOne(f, s1, e[1]);
      FoldAppend(f, s, [e[0]], [e[1]]);
      if |e| > 2 {
        assert e == [e[0], e[1]] + e[2..];
        FoldAppend(f, s, [e[0], e[1]], e[2..]);
        FoldPlain(f, s2, e[2..]);
      }
    }
  }

  lemma {:induction false} FoldPlain(f: Flags, s: Scan, p: bytes)
    requires s.place.quoted && !s.place.escaped && forall c | c in p :: c != 0x22 && c != 0x5C
    ensures Fold(f, s, p) == s.(last := Fold(f, s, p).last)
    decreases |p|
  {
    if p != [] {
      var m := |p| - 1;
      assert p[m] in p;
      forall c | c in p[..m] ensures c != 0x22 && c != 0x5C { assert c in p; }
      FoldPlain(f, s, p[..m]);
    }
  }

  lemma {:induction false} FoldEscape(f: Flags, s: Scan, text: bytes)
    requires s.place.quoted && !s.place.escaped
    ensures Fold(f, s, Escape(text)) == s.(last := Fold(f, s, Escape(text)).last)
    decreases |text|
  {
    hide Next, EscapeByte;
    if text != [] {
      FoldEscapeByte(f, s, text[0]);
      FoldEscape(f, Fold(f, s, EscapeByte(text[0])), text[1..]);
      FoldAppend(f, s, EscapeByte(text[0]), Escape(text[1..]));
    }
  }

  /** A string in quotes. */
  lemma FoldQuoted(f: Flags, s: Scan, n: nat, text: bytes)
    requires Open(s, n) && Due(f, s)
    ensures Done(s, Fold(f, s, [DQUOTE] + Escape(text) + [DQUOTE]))
    ensures Fold(f, s, [DQUOTE] + Escape(text) + [DQUOTE]).last == 0x22
  {
    hide Escape;
    var e := Escape(text);
    var s1 := Next(f, s, DQUOTE);
    FoldOne(f, s, DQUOTE);
    FoldAppend(f, s, [DQUOTE], e);
    FoldEscape(f, s1, text);
    var s2 := Fold(f, s1, e);
    FoldAppend(f, s, [DQUOTE] + e, [DQUOTE]);
    FoldOne(f, s2, DQUOTE);
  }

  // ---------------------------------------------------------------- values

  /** Every double is printed as a numeral or a literal. */
  predicate Lexemes(v: Json) {
    match v
    case JDouble(lexeme) => lexeme != [] && forall c | c in lexeme :: InToken(c)
    case JArray(items) => forall i | 0 <= i < |items| :: Lexemes(items[i])
    case JObject(members) => forall i | 0 <= i < |members| :: Lexemes(members[i].1)
    case _ => true
  }

  /** That is so for every value that can be written down. */
  lemma {:induction false} PrintableHasLexemes(v: Json, isDoubleText: bytes -> bool)
    requires Printable(v, isDoubleText)
    ensures Lexemes(v)
  {
    hide IsDoubleLexeme, InToken, IsNumberChar;
    match v
    case JDouble(lexeme) => DoubleIsToken(lexeme, isDoubleText);
    case JArray(items) =>
      forall i | 0 <= i < |items| ensures Lexemes(items[i]) { PrintableHasLexemes(items[i], isDoubleText); }
    case JObject(members) =>
      forall i | 0 <= i < |members| ensures Lexemes(members[i].1) { PrintableHasLexemes(members[i].1, isDoubleText); }
    case _ =>
  }

  lemma DoubleIsToken(p: bytes, isDoubleText: bytes -> bool)
    requires IsDoubleLexeme(p, isDoubleText)
    ensures p != [] && forall c | c in p :: InToken(c)
  {
    if p != NAN_TEXT && p != INF_TEXT && p != NEG_INF_TEXT {
      forall c | c in p ensures InToken(c) { assert IsNumberChar(c); }
    } else if p == NEG_INF_TEXT {
      forall c | c in p ensures InToken(c) { assert c == MINUS || c in INF_TEXT; }
    }
  }

  lemma SpacesAreBlanks(n: nat)
    ensures Spaces(n) == Blanks(n)
  {}

  lemma BlanksCommute(n: nat)
    ensures [0x20] + Blanks(n) == Blanks(n) + [0x20]
  {
    assert forall k | 0 <= k < n + 1 :: ([0x20] + Blanks(n))[k] == (Blanks(n) + [0x20])[k];
  }

  /** What the printer writes in front of an element is white but for the comma, and the gap that the element wants. */
  lemma LeadIsGap(first: bool, level: nat, f: Flags, x: byte)
    requires Opens(x)
    ensures forall c | c in Break(f) :: White(c)
    ensures var lead := Lead(first, level, f);
      if first then
        (forall c | c in lead :: White(c)) && Break(f) + lead == Gap(f, x, NUL, level + 1)
      else
        lead != [] && lead[0] == 0x2C && (forall c | c in lead[1..] :: White(c)) &&
        lead[1..] == Gap(f, 0x2C, NUL, level + 1)
  {
    var lead := Lead(first, level, f);
    var in1 := Indent(level + 1, f);
    SpacesAreBlanks(2 * (level + 1));
    BlanksCommute(2 * (level + 1));
    var sp := if f.spaced then [SPACE] else [];
    assert in1 == if f.pretty then Blanks(2 * (level + 1)) else [];
    assert sp + in1 == in1 + sp;
    if first {
      assert lead == sp + in1;
      assert Break(f) + (in1 + sp) == (Break(f) + in1) + sp;
    } else {
      assert lead[1..] == Break(f) + (sp + in1);
      assert Break(f) + (in1 + sp) == (Break(f) + in1) + sp;
    }
  }

  /** What it writes in front of a closing bracket. */
  lemma TrailIsGap(empty: bool, level: nat, f: Flags, x: byte, y: byte)
    requires Closes(y)
    ensures var trail := Trail(empty, level, f);
      (forall c | c in trail :: White(c)) && (if empty then Break(f) else []) + trail == Gap(f, x, y, level + 1)
  {
    var trail := Trail(empty, level, f);
    var sp, brk, ind := if f.spaced then [SPACE] else [], Break(f), Indent(level, f);
    IndentIsBlanks(level, f);
    hide Indent, Blanks;
    if empty {
      assert trail == [] + ind + sp;
      assert brk + ([] + ind + sp) == brk + ind + sp;
    } else {
      assert trail == brk + ind + sp && [] + trail == trail;
    }
  }

  lemma IndentIsBlanks(level: nat, f: Flags)
    ensures Indent(level, f) == if f.pretty then Blanks(2 * level) else []
    ensures forall c | c in Indent(level, f) :: White(c)
  {
    SpacesAreBlanks(2 * level);
  }

  /** The state in front of the `k`th element of a container that has been opened. */
  predicate Inner(f: Flags, s: Scan, k: nat, level: nat) {
    Open(s, level + 1) && if k == 0 then Opens(s.last) && s.gap == Break(f) else Quiet(s.last) && s.gap == []
  }

  lemma FoldLead(f: Flags, s: Scan, k: nat, level: nat)
    requires Inner(f, s, k, level)
    ensures var s' := Fold(f, s, Lead(k == 0, level, f)); Open(s', level + 1) && Due(f, s')
  {
    hide Lead, Break, Gap, Fold, White, Blanks;
    var lead := Lead(k == 0, level, f);
    if k == 0 {
      LeadIsGap(true, level, f, s.last);
      FoldWhite(f, s, lead);
    } else {
      LeadIsGap(false, level, f, 0x5B);
      var more := lead[1..];
      assert lead == [0x2C] + more;
      FoldAppend(f, s, [0x2C], more);
      FoldOne(f, s, 0x2C);
      CommaNext(f, s, level);
      FoldWhite(f, Next(f, s, 0x2C), more);
      assert [] + more == more;
    }
  }

  lemma CommaNext(f: Flags, s: Scan, level: nat)
    requires Open(s, level + 1) && Quiet(s.last) && s.gap == []
    ensures Next(f, s, 0x2C) == Scan(s.place, 0x2C, [], true)
  {}

  /** From the state behind the last element to the one behind the bracket. */
  lemma FoldTrail(f: Flags, s: Scan, empty: bool, level: nat, bracket: byte)
    requires Open(s, level + 1) && Closes(bracket) && s.gap == (if empty then Break(f) else [])
    ensures var s' := Fold(f, s, Trail(empty, level, f) + [bracket]);
      Open(s', level) && s'.last == bracket && s'.gap == []
  {
    hide Trail, Break;
    var trail := Trail(empty, level, f);
    TrailIsGap(empty, level, f, s.last, bracket);
    FoldAppend(f, s, trail, [bracket]);
    FoldWhite(f, s, trail);
    FoldOne(f, Fold(f, s, trail), bracket);
  }

  lemma FoldOpen(f: Flags, s: Scan, level: nat, bracket: byte)
    requires Open(s, level) && Due(f, s) && Opens(bracket)
    ensures Inner(f, Fold(f, s, [bracket] + Break(f)), 0, level)
  {
    FoldAppend(f, s, [bracket], Break(f));
    FoldOne(f, s, bracket);
    FoldWhite(f, Next(f, s, bracket), Break(f));
    assert [] + Break(f) == Break(f);
  }

  /** A key and its colon. */
  lemma FoldKey(f: Flags, s: Scan, n: nat, key: bytes)
    requires Open(s, n) && Due(f, s)
    ensures var s' := Fold(f, s, QuoteKey(key, f)); Open(s', n) && Due(f, s')
  {
    hide Escape;
    var q := [DQUOTE] + Escape(CString(key)) + [DQUOTE];
    var sp := if f.spaced then [SPACE] else [];
    assert QuoteKey(key, f) == q + ([COLON] + sp);
    FoldQuoted(f, s, n, CString(key));
    var s1 := Fold(f, s, q);
    FoldAppend(f, s, q, [COLON] + sp);
    FoldAppend(f, s1, [COLON], sp);
    FoldOne(f, s1, COLON);
    FoldWhite(f, Next(f, s1, COLON), sp);
    assert [] + sp == sp;
  }

  /** The text of a value stands where it is due, and all its gaps are right. */
  lemma {:induction false} FoldValue(f: Flags, s: Scan, v: Json, level: nat)
    requires Open(s, level) && Due(f, s) && Lexemes(v)
    ensures Done(s, Fold(f, s, Print(v, level, f)))
    decreases v, 1
  {
    hide Escape, Fold, PrintInt, Due, Gap, Next, PrintItems, PrintMembers, Trail, Break;
    match v
    case JNull => FoldToken(f, s, level, NULL_TEXT);
    case JBool(b) => FoldToken(f, s, level, if b then TRUE_TEXT else FALSE_TEXT);
    case JInt(n) =>
      IntIsToken(n);
      FoldToken(f, s, level, PrintInt(n));
    case JDouble(lexeme) => FoldToken(f, s, level, lexeme);
    case JString(text) => FoldQuoted(f, s, level, text);
    case JArray(items) =>
      var open, all, end := [LBRACKET] + Break(f), PrintItems(v, items, 0, level, f),
        Trail(items == [], level, f) + [RBRACKET];
      assert Print(v, level, f) == open + all + end by { Regroup(open + all, Trail(items == [], level, f), RBRACKET); }
      FoldOpen(f, s, level, LBRACKET);
      FoldAppend(f, s, open, all);
      FoldAppend(f, s, open + all, end);
      FoldItems(f, Fold(f, s, open), v, items, 0, level);
      FoldTrail(f, Fold(f, s, open + all), items == [], level, RBRACKET);
    case JObject(members) =>
      var open, all, end := [LBRACE] + Break(f), PrintMembers(v, members, 0, level, f),
        Trail(members == [], level, f) + [RBRACE];
      assert Print(v, level, f) == open + all + end by { Regroup(open + all, Trail(members == [], level, f), RBRACE); }
      FoldOpen(f, s, level, LBRACE);
      FoldAppend(f, s, open, all);
      FoldAppend(f, s, open + all, end);
      FoldMembers(f, Fold(f, s, open), v, members, 0, level);
      FoldTrail(f, Fold(f, s, open + all), members == [], level, RBRACE);
  }

  lemma Regroup(a: bytes, b: bytes, c: byte)
    ensures a + b + [c] == a + (b + [c])
  {}

  lemma IntIsToken(n: int)
    ensures PrintInt(n) != [] && forall c | c in PrintInt(n) :: InToken(c)
  {
    PrintIntShape(n);
  }

  lemma {:induction false} FoldItems(f: Flags, s: Scan, v: Json, items: seq<Json>, k: nat, level: nat)
    requires v == JArray(items) && k <= |items| && Lexemes(v) && Inner(f, s, k, level)
    ensures var s' := Fold(f, s, PrintItems(v, items, k, level, f));
      Open(s', level + 1) && s'.gap == if items == [] then Break(f) else []
    decreases v, 0, |items| - k
  {
    hide Fold, Print, Lead, Gap, Next, Due, Break;
    if k == |items| {
      FoldNothing(f, s);
    } else {
      var lead, text, rest := Lead(k == 0, level, f), Print(items[k], level + 1, f),
        PrintItems(v, items, k + 1, level, f);
      FoldLead(f, s, k, level);
      FoldAppend(f, s, lead, text);
      FoldAppend(f, s, lead + text, rest);
      FoldValue(f, Fold(f, s, lead), items[k], level + 1);
      FoldItems(f, Fold(f, s, lead + text), v, items, k + 1, level);
    }
  }

  lemma {:induction false} FoldMembers(f: Flags, s: Scan, v: Json, members: seq<(bytes, Json)>, k: nat, level: nat)
    requires v == JObject(members) && k <= |members| && Lexemes(v) && Inner(f, s, k, level)
    ensures var s' := Fold(f, s, PrintMembers(v, members, k, level, f));
      Open(s', level + 1) && s'.gap == if members == [] then Break(f) else []
    decreases v, 0, |members| - k
  {
    hide Fold, Print, Lead, Gap, Next, Due, Break, QuoteKey;
    if k == |members| {
      FoldNothing(f, s);
    } else {
      var lead, key, text, rest := Lead(k == 0, level, f), QuoteKey(members[k].0, f),
        Print(members[k].1, level + 1, f), PrintMembers(v, members, k + 1, level, f);
      FoldLead(f, s, k, level);
      FoldAppend(f, s, lead, key);
      FoldKey(f, Fold(f, s, lead), level + 1, members[k].0);
      FoldAppend(f, s, lead + key, text);
      FoldAppend(f, s, lead + key + text, rest);
      FoldValue(f, Fold(f, s, lead + key), members[k].1, level + 1);
      FoldMembers(f, Fold(f, s, lead + key + text), v, members, k + 1, level);
    }
  }

  // ---------------------------------------------------------------- what this means for the text

  /** The state in front of character `k`. */
  function Before(f: Flags, s: bytes, k: nat): Scan
    requires k <= |s|
  {
    Fold(f, START, s[..k])
  }

  lemma BeforeNext(f: Flags, s: bytes, k: nat)
    requires k < |s|
    ensures Before(f, s, k + 1) == Next(f, Before(f, s, k), s[k])
  {
    assert s[..k + 1][..k] == s[..k];
  }

  lemma {:induction false} BeforeIs(f: Flags, s: bytes, k: nat)
    requires k <= |s|
    ensures Before(f, s, k).place == Behind(s[..k])
    ensures Behind(s[..k]).quoted ==> Before(f, s, k).gap == []
  {
    if k > 0 {
      BeforeIs(f, s, k - 1);
      BeforeNext(f, s, k - 1);
      assert s[..k][..k - 1] == s[..k - 1];
    }
  }

  /** The text has been read to its end without an objection. */
  predicate Checked(f: Flags, s: bytes) {
    Fold(f, START, s).ok && Fold(f, START, s).gap == []
  }

  lemma {:induction false} OkBefore(f: Flags, s: bytes, k: nat)
    requires k <= |s| && Checked(f, s)
    ensures Before(f, s, k).ok
    decreases |s| - k
  {
    hide Gap;
    if k == |s| {
      assert s[..k] == s;
    } else {
      BeforeNext(f, s, k);
      OkBefore(f, s, k + 1);
    }
  }

  lemma PrintIsChecked(v: Json, f: Flags)
    requires Lexemes(v)
    ensures Checked(f, Print(v, 0, f))
  {
    hide Fold, Print;
    FoldValue(f, START, v, 0);
  }

  lemma WholeBefore(f: Flags, s: bytes)
    ensures Before(f, s, |s|) == Fold(f, START, s)
  {
    assert s[..|s|] == s;
  }

  /** White space goes on up to a character that is none, and then the whole of it was right. */
  lemma {:induction false} SolidBehind(f: Flags, s: bytes, k: nat) returns (m: nat)
    requires k <= |s| && Checked(f, s) && !Before(f, s, k).place.quoted && Before(f, s, k).gap != []
    ensures k <= m < |s| && !White(s[m]) && Before(f, s, m).place == Before(f, s, k).place
    ensures Before(f, s, k).gap + s[k..m] == Gap(f, Before(f, s, k).last, s[m], Before(f, s, k).place.open)
    decreases |s| - k
  {
    hide Gap, White;
    WholeBefore(f, s);
    if k == |s| { assert false; }
    BeforeNext(f, s, k);
    if White(s[k]) {
      m := SolidBehind(f, s, k + 1);
      assert s[k..m] == [s[k]] + s[k + 1..m];
      assert Before(f, s, k).gap + [s[k]] + s[k + 1..m] == Before(f, s, k).gap + s[k..m];
    } else {
      m := k;
      OkBefore(f, s, k + 1);
      assert s[k..k] == [] && Before(f, s, k).gap + [] == Before(f, s, k).gap;
    }
  }

  /** In the plain layout no white space stands outside strings. */
  lemma PlainHasNoWhite(v: Json, k: nat)
    requires Lexemes(v)
    ensures var s := Print(v, 0, Flags(false, false)); k < |s| ==> InString(s, k) || !White(s[k])
  {
    hide Fold, Print;
    var f := Flags(false, false);
    var s := Print(v, 0, f);
    if k < |s| && !InString(s, k) && White(s[k]) {
      PrintIsChecked(v, f);
      BeforeIs(f, s, k);
      BeforeNext(f, s, k);
      var m := SolidBehind(f, s, k + 1);
    }
  }

  /**
   In the pretty layout the line behind a break starts with exactly twice as many blanks as containers are open around
   its first other character, and one more if the layout is spaced too.
   */
  lemma PrettyLines(v: Json, spaced: bool, k: nat) returns (m: nat)
    requires Lexemes(v)
    requires var s := Print(v, 0, Flags(spaced, true)); k < |s| && s[k] == 0x0A && !InString(s, k)
    ensures var s := Print(v, 0, Flags(spaced, true));
      k < m < |s| && !White(s[m]) &&
      var open := Behind(s[..m]).open;
      s[k + 1..m] == Blanks(2 * (if Closes(s[m]) && open > 0 then open - 1 else open) + if spaced then 1 else 0)
  {
    hide Fold, Print;
    var f := Flags(spaced, true);
    var s := Print(v, 0, f);
    PrintIsChecked(v, f);
    BeforeIs(f, s, k);
    BeforeNext(f, s, k);
    var g := Before(f, s, k).gap;
    m := SolidBehind(f, s, k + 1);
    BeforeIs(f, s, m);
    OneBreak(f, g, s[k + 1..m], Before(f, s, k).last, s[m], Before(f, s, k).place.open);
  }

  /** A gap holds no more than one line break, at its start. */
  lemma OneBreak(f: Flags, g: bytes, w: bytes, x: byte, y: byte, n: nat)
    requires f.pretty && g + [0x0A] + w == Gap(f, x, y, n)
    ensures g == [] && w == Blanks(2 * (if Closes(y) && n > 0 then n - 1 else n) + if f.spaced then 1 else 0)
  {
    var all, d := Gap(f, x, y, n), 2 * (if Closes(y) && n > 0 then n - 1 else n);
    var sp := if f.spaced then [0x20] else [];
    assert (g + [0x0A] + w)[|g|] == 0x0A;
    assert all == [0x0A] + Blanks(d) + sp;
    assert g == [];
    assert w == (g + [0x0A] + w)[1..] == all[1..] == Blanks(d) + sp;
    assert Blanks(d) + sp == Blanks(d + |sp|);
  }

  /** In the spaced layout one blank stands at each of its places, and no white space anywhere else. */
  lemma SpacedBlanks(v: Json, k: nat)
    requires Lexemes(v)
    requires var s := Print(v, 0, Flags(true, false)); k < |s| && White(s[k]) && !InString(s, k)
    ensures var s := Print(v, 0, Flags(true, false));
      0 < k && k + 1 < |s| && s[k] == 0x20 && !White(s[k + 1]) &&
      (Opens(s[k - 1]) || s[k - 1] == 0x2C || s[k - 1] == 0x3A || Closes(s[k + 1]))
  {
    hide Fold, Print;
    var f := Flags(true, false);
    var s := Print(v, 0, f);
    PrintIsChecked(v, f);
    BeforeIs(f, s, k);
    BeforeNext(f, s, k);
    var m := SolidBehind(f, s, k + 1);
    var g, w := Before(f, s, k).gap, s[k + 1..m];
    assert |g + [s[k]] + w| == 1;
    assert g == [] && w == [] && m == k + 1;
    assert g + [s[k]] + w == [s[k]];
    assert [s[k]][0] == Gap(f, Before(f, s, k).last, s[m], Before(f, s, k).place.open)[0] == 0x20;
    if k == 0 {
      assert s[..0] == [];
      FoldNothing(f, START);
    } else {
      LastIs(f, s, k);
    }
  }

  /** Without white space since, the last character is the one in front. */
  lemma LastIs(f: Flags, s: bytes, k: nat)
    requires 0 < k <= |s| && Before(f, s, k).gap == [] && !Before(f, s, k).place.quoted
    ensures Before(f, s, k).last == s[k - 1]
  {
    BeforeNext(f, s, k - 1);
  }

  /**
   All four layouts, between any two neighbouring characters that are not white: what stands there is the gap that the
   rule names.
   */
  lemma GapsAre(v: Json, f: Flags, i: nat, j: nat)
    requires Lexemes(v)
    requires var s := Print(v, 0, f);
      i < j < |s| && !White(s[i]) && !White(s[j]) && !Behind(s[..i + 1]).quoted && forall k | i < k < j :: White(s[k])
    ensures var s := Print(v, 0, f); s[i + 1..j] == Gap(f, s[i], s[j], Behind(s[..i + 1]).open)
  {
    hide Fold, Print, Gap, White;
    var s := Print(v, 0, f);
    PrintIsChecked(v, f);
    SolidCharacter(f, s, i);
    WhiteRun(f, s, i + 1, j);
    BeforeNext(f, s, j);
    OkBefore(f, s, j + 1);
    assert [] + s[i + 1..j] == s[i + 1..j];
  }

  lemma SolidCharacter(f: Flags, s: bytes, i: nat)
    requires i < |s| && !White(s[i]) && !Behind(s[..i + 1]).quoted
    ensures Before(f, s, i + 1).last == s[i] && Before(f, s, i + 1).gap == []
    ensures Before(f, s, i + 1).place == Behind(s[..i + 1])
  {
    BeforeIs(f, s, i);
    BeforeIs(f, s, i + 1);
    BeforeNext(f, s, i);
  }

  lemma {:induction false} WhiteRun(f: Flags, s: bytes, i: nat, j: nat)
    requires i <= j <= |s| && !Before(f, s, i).place.quoted && forall k | i <= k < j :: White(s[k])
    ensures Before(f, s, j) == Before(f, s, i).(gap := Before(f, s, i).gap + s[i..j])
    decreases j
  {
    var g := Before(f, s, i).gap;
    if i == j {
      assert g + s[i..j] == g;
    } else {
      WhiteRun(f, s, i, j - 1);
      BeforeNext(f, s, j - 1);
      assert g + s[i..j - 1] + [s[j - 1]] == g + s[i..j];
    }
  }
}
