/** The texts of RFC 8259, section 2 to 7, among the derivation trees: all of them are accepted. */
module Rfc8259 {
  import opened Bytes
  import opened Numbers
  import opened OrderedMap
  import opened TokenerMachine
  import opened Grammar
  import opened GrammarTexts

  /** `ws` */
  predicate Ws(p: bytes) {
    forall c | c in p :: c == SPACE || c == TAB || c == NEWLINE || c == RETURN
  }

  predicate SomeDigits(s: bytes) {
    s != [] && forall c | c in s :: IsDigit(c)
  }

  /** `int`, without its sign */
  predicate Int(s: bytes) {
    s == [ZERO] || (SomeDigits(s) && s[0] != ZERO)
  }

  /** `[ frac ]` */
  predicate Frac(s: bytes) {
    s == [] || (s[0] == DOT && SomeDigits(s[1..]))
  }

  /** `[ exp ]` */
  predicate Exp(s: bytes) {
    s == [] ||
    ((s[0] == LOWER_E || s[0] == UPPER_E) &&
     (SomeDigits(s[1..]) || (|s| > 1 && (s[1] == PLUS || s[1] == MINUS) && SomeDigits(s[2..]))))
  }

  predicate Sign(s: bytes) {
    s == [] || s == [MINUS]
  }

  /** `number` */
  ghost predicate IsNumber(p: bytes) {
    exists m: bytes, n: bytes, f: bytes, e: bytes :: p == m + n + f + e && Sign(m) && Int(n) && Frac(f) && Exp(e)
  }

  /** `string`: control characters are escaped. */
  predicate IsString(ps: seq<Piece>) {
    StringOk(ps) && forall p | p in ps && p.Plain? :: p.c >= SPACE
  }

  /** `value`, from its derivation tree */
  ghost predicate IsValue(d: Doc)
    decreases d, 1
  {
    match d
    case Word(w) => w == NULL_TEXT || w == TRUE_TEXT || w == FALSE_TEXT
    case Numeral(p) => IsNumber(p)
    case Text(ps) => IsString(ps)
    case List(pad, items) => Ws(pad) && AreItems(d, items, 0)
    case Record(pad, members) => Ws(pad) && AreMembers(d, members, 0)
  }

  ghost predicate AreItems(d: Doc, items: seq<Item>, k: nat)
    requires d.List? && d.items == items && k <= |items|
    decreases d, 0, |items| - k
  {
    k < |items| ==> Ws(items[k].before) && Ws(items[k].after) && IsValue(items[k].doc) && AreItems(d, items, k + 1)
  }

  ghost predicate AreMembers(d: Doc, members: seq<Member>, k: nat)
    requires d.Record? && d.members == members && k <= |members|
    decreases d, 0, |members| - k
  {
    k < |members| ==>
      var m := members[k];
      && Ws(m.before) && IsString(m.key) && Ws(m.mid) && Ws(m.next) && Ws(m.after) && IsValue(m.doc)
      && AreMembers(d, members, k + 1)
  }

  /** sscanf reads every number of the grammar with a fraction or an exponent as a double. */
  ghost predicate ReadsDoubles(g: Config) {
    forall p: bytes | IsNumber(p) && MarksDouble(p) :: g.isDoubleText(p)
  }

  // ---------------------------------------------------------------- numbers

  lemma {:induction false} DigitRunOf(s: bytes)
    requires forall c | c in s :: IsDigit(c)
    ensures DigitRun(s) == s
  {
    DigitRunWhole(s);
  }

  /** An integer of the grammar stands for its value, or for the end of the 64-bit range that it exceeds. */
  lemma IntegerMeans(m: bytes, n: bytes)
    requires Sign(m) && Int(n)
    ensures (forall c | c in n :: IsDigit(c)) && ParseInt64(m + n).Some? &&
      Saturates(if m == [] then Value(n) else -(Value(n) as int), ParseInt64(m + n).value)
    ensures (m + n)[0] == ZERO ==> ParseInt64(m + n) == Some(0)
  {
    hide DigitRun, Value, Clamp, Saturates;
    ClampSaturates(Value(n));
    ClampSaturates(-(Value(n) as int));
    assert n == [ZERO] ==> IsDigit(n[0]);
    assert n[0] in n;
    DigitRunOf(n);
    if m == [] {
      assert m + n == n;
      if n[0] == ZERO { ZeroMeans(); }
    } else {
      assert (m + n)[1..] == n;
    }
  }

  lemma ZeroMeans()
    ensures Value([ZERO]) == 0 && Clamp(0) == 0
  {
    assert [ZERO][..0] == [];
  }

  lemma NumberIsNumeral(g: Config, p: bytes)
    requires IsNumber(p) && ReadsDoubles(g)
    ensures IsNumeral(p, g.isDoubleText)
  {
    hide ParseInt64;
    var m: bytes, n: bytes, f: bytes, e: bytes :| p == m + n + f + e && Sign(m) && Int(n) && Frac(f) && Exp(e);
    Parts(n, f, e);
    assert forall c | c in p :: c in m || c in n || c in f || c in e;
    assert p[0] == if m == [] then n[0] else MINUS;
    assert n[0] in n;
    assert f != [] ==> p[|m + n|] == f[0];
    assert e != [] ==> p[|m + n + f|] == e[0];
    if !MarksDouble(p) {
      assert p == m + n;
      IntegerMeans(m, n);
    }
  }

  lemma Parts(n: bytes, f: bytes, e: bytes)
    requires Int(n) && Frac(f) && Exp(e)
    ensures n != [] && (forall c | c in n :: IsDigit(c)) && (forall c | c in f :: IsNumberChar(c)) &&
      (forall c | c in e :: IsNumberChar(c))
  {
    assert f != [] ==> f == [f[0]] + f[1..];
    assert e != [] ==> e == [e[0]] + e[1..];
    if |e| > 1 { assert e[1..] == [e[1]] + e[2..]; }
  }

  // ---------------------------------------------------------------- values

  lemma WsIsBlank(p: bytes)
    ensures Ws(p) ==> Blank(p)
  {}

  /** What the grammar of the standard allows is a text of the grammar here, and holds no infinity. */
  lemma {:induction false} ValueIsOk(g: Config, d: Doc, atZero: bool)
    requires IsValue(d) && ReadsDoubles(g)
    ensures DocOk(d, g.isDoubleText) && InfinityReadable(d, atZero)
    decreases d, 1
  {
    hide IsNumber, IsNumeral, ReadsDoubles;
    match d
    case Word(w) =>
    case Numeral(p) => NumberIsNumeral(g, p);
    case Text(ps) =>
    case List(pad, items) =>
      WsIsBlank(pad);
      ItemsAreOk(g, d, items, 0, atZero);
    case Record(pad, members) =>
      WsIsBlank(pad);
      MembersAreOk(g, d, members, 0, atZero);
  }

  lemma {:induction false} ItemsAreOk(g: Config, d: Doc, items: seq<Item>, k: nat, atZero: bool)
    requires d.List? && d.items == items && k <= |items| && AreItems(d, items, k) && ReadsDoubles(g)
    ensures ItemsOk(d, items, k, g.isDoubleText) && ItemsReadable(d, items, k, atZero)
    decreases d, 0, |items| - k
  {
    hide IsNumber, ReadsDoubles, IsValue, DocOk, InfinityReadable, MovesPosition, Ws, Blank;
    if k < |items| {
      var x := items[k];
      WsIsBlank(x.before);
      WsIsBlank(x.after);
      ValueIsOk(g, x.doc, atZero);
      ItemsAreOk(g, d, items, k + 1, atZero && !MovesPosition(x.doc));
    }
  }

  lemma {:induction false} MembersAreOk(g: Config, d: Doc, members: seq<Member>, k: nat, atZero: bool)
    requires d.Record? && d.members == members && k <= |members| && AreMembers(d, members, k) && ReadsDoubles(g)
    ensures MembersOk(d, members, k, g.isDoubleText) && MembersReadable(d, members, k, atZero)
    decreases d, 0, |members| - k
  {
    hide IsNumber, ReadsDoubles, IsValue, DocOk, InfinityReadable, MovesPosition, Ws, Blank, HasUnit;
    if k < |members| {
      var x := members[k];
      WsIsBlank(x.before);
      WsIsBlank(x.mid);
      WsIsBlank(x.next);
      WsIsBlank(x.after);
      var z := atZero && !HasUnit(x.key);
      ValueIsOk(g, x.doc, z);
      MembersAreOk(g, d, members, k + 1, z && !MovesPosition(x.doc));
    }
  }

  /**
   Every JSON text of RFC 8259, with any white space, escapes and number forms, is accepted in both modes with the
   value that its derivation tree stands for, if and only if the stack has room for its nesting; otherwise the error
   is that of the depth.
   */
  lemma JsonTextIsAcceptedExactlyWhen(g: Config, t: Tok, lead: bytes, d: Doc, trail: bytes)
    requires WellFormed(g, t) && Idle(t) && t.below == [] && t.top == CLEAN
    requires Ws(lead) && IsValue(d) && Ws(trail) && ReadsDoubles(g)
    ensures DocOk(d, g.isDoubleText)
    ensures var p := Surrounded(lead, d, trail); var r := ParseEx(g, t, p + [NUL]);
      if Depth(d) < g.maxDepth then r.err == Success && r.value == Meaning(d, g.isDoubleText) && r.offset == |p|
      else r.err == ErrDepth
  {
    hide Run, DocOk, IsValue, ReadsDoubles, Depth, Meaning, InfinityReadable;
    WsIsBlank(lead);
    WsIsBlank(trail);
    ValueIsOk(g, d, t.stPos == 0);
    TextIsAcceptedExactlyWhen(g, t, lead, d, trail);
  }

  lemma IntegerIsDoc(g: Config, m: bytes, n: bytes)
    requires Sign(m) && Int(n)
    ensures DocOk(Numeral(m + n), g.isDoubleText) && Depth(Numeral(m + n)) == 0
    ensures forall atZero :: InfinityReadable(Numeral(m + n), atZero)
    ensures (forall c | c in n :: IsDigit(c)) && Meaning(Numeral(m + n), g.isDoubleText).JInt? &&
      Saturates(if m == [] then Value(n) else -(Value(n) as int), Meaning(Numeral(m + n), g.isDoubleText).n)
  {
    hide Saturates, Value, ParseInt64;
    var p := m + n;
    IntegerMeans(m, n);
    Parts(n, [], []);
    assert forall c | c in p :: c in m || c in n;
    assert p[0] == if m == [] then n[0] else MINUS;
    assert n[0] in n;
  }

  /** An integer as a whole text: what a call returns for it. */
  lemma IntegerIsRead(g: Config, t: Tok, m: bytes, n: bytes)
    requires WellFormed(g, t) && Idle(t) && t.below == [] && t.top == CLEAN && Sign(m) && Int(n)
    ensures forall c | c in n :: IsDigit(c)
    ensures var r := ParseEx(g, t, m + n + [NUL]);
      r.err == Success && r.value.JInt? && Saturates(if m == [] then Value(n) else -(Value(n) as int), r.value.n)
  {
    hide Run, Saturates, Value, DocOk, Meaning, InfinityReadable, Depth, Int;
    IntegerIsDoc(g, m, n);
    RoomForScalar(g, t);
    hide WellFormed;
    assert [] + (m + n) + [] == m + n;
    TextIsAcceptedExactlyWhen(g, t, [], Numeral(m + n), []);
  }

  lemma RoomForScalar(g: Config, t: Tok)
    requires WellFormed(g, t)
    ensures g.maxDepth > 0
  {}
}
