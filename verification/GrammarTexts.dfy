/**
 The tokener accepts every text of the grammar, in strict mode and outside it, and returns the value that the text
 stands for; a negative infinity behind anything that moves `st_pos` is the one exception.
 */
module GrammarTexts {
  import opened Bytes
  import opened JsonValue
  import opened OrderedMap
  import opened TokenerMachine
  import opened TokenerSteps
  import opened Grammar
  import opened GrammarScalars
  import opened GrammarStrings

  // ---------------------------------------------------------------- single passes of the structure states

  /** A character that neither white space skipping nor a comment swallows. */
  predicate Solid(c: byte) {
    !IsSpace(c) && c != SLASH && c != NUL
  }

  /** In front of a solid character, the awaited state takes over. */
  lemma Wake(g: Config, t: Tok, input: bytes, i: nat) returns (t': Tok)
    requires WellFormed(g, t) && t.top.state == EatWs && i < |input| && Solid(input[i])
    ensures Leads(g, t, i, t', i, input) && t' == Go(t, t.top.saved)
  {
    t' := Go(t, t.top.saved);
    Restart(g, t, input, i, t');
  }

  lemma OpenContainer(g: Config, t: Tok, input: bytes, i: nat) returns (t': Tok)
    requires WellFormed(g, t) && t.top == CLEAN && t.obj == JNull
    requires i < |input| && (input[i] == LBRACKET || input[i] == LBRACE)
    ensures Leads(g, t, i, t', i + 1, input) && t'.below == t.below && t'.obj == JNull && t'.stPos == t.stPos
    ensures t'.top == if input[i] == LBRACKET then Level(EatWs, Array, JArray([]), None)
                      else Level(EatWs, ObjectFieldStart, JObject([]), None)
  {
    var t1 := Wake(g, t, input, i);
    t' := t1.(top := if input[i] == LBRACKET then Level(EatWs, Array, JArray([]), None)
                     else Level(EatWs, ObjectFieldStart, JObject([]), None));
    Consume(g, t1, input, i, t');
  }

  /** The bracket that closes a container, behind its last element or right behind the opening one. */
  lemma CloseContainer(g: Config, t: Tok, input: bytes, i: nat) returns (t': Tok)
    requires WellFormed(g, t) && t.top.state == EatWs && t.obj == JNull && i < |input|
    requires ((t.top.saved == Array || t.top.saved == ArraySep) && input[i] == RBRACKET) ||
             ((t.top.saved == ObjectFieldStart || t.top.saved == ObjectSep) && input[i] == RBRACE)
    ensures Leads(g, t, i, t', i + 1, input) && t'.obj == JNull && t'.stPos == t.stPos
    ensures t'.below == t.below && t'.top == Level(EatWs, Finish, t.top.current, None)
  {
    var t1 := Wake(g, t, input, i);
    t' := Await(t1, Finish);
    Consume(g, t1, input, i, t');
  }

  /** A comma between elements. */
  lemma PassComma(g: Config, t: Tok, input: bytes, i: nat) returns (t': Tok)
    requires WellFormed(g, t) && t.top.state == EatWs && (t.top.saved == ArraySep || t.top.saved == ObjectSep)
    requires i < |input| && input[i] == COMMA && t.obj == JNull
    ensures Leads(g, t, i, t', i + 1, input) && t'.below == t.below && t'.obj == JNull && t'.stPos == t.stPos
    ensures t'.top == t.top.(saved := if t.top.saved == ArraySep then ArrayAfterSep else ObjectFieldStartAfterSep)
  {
    var t1 := Wake(g, t, input, i);
    t' := Await(t1, if t.top.saved == ArraySep then ArrayAfterSep else ObjectFieldStartAfterSep);
    Consume(g, t1, input, i, t');
  }

  /** The first character of an element or of a member's value opens a level for it. */
  lemma OpenElement(g: Config, t: Tok, input: bytes, i: nat) returns (t': Tok)
    requires WellFormed(g, t) && t.top.state == EatWs && t.obj == JNull && |t.below| + 1 < g.maxDepth
    requires t.top.saved == Array || t.top.saved == ArrayAfterSep || t.top.saved == ObjectValue
    requires i < |input| && Solid(input[i]) && input[i] != RBRACKET
    ensures Leads(g, t, i, t', i, input) && t'.obj == JNull && t'.top == CLEAN && t'.stPos == t.stPos
    ensures t'.below == t.below + [t.top.(state := if t.top.saved == ObjectValue then ObjectValueAdd else ArrayAdd)]
  {
    var t1 := Wake(g, t, input, i);
    t' := Push(t1, if t.top.saved == ObjectValue then ObjectValueAdd else ArrayAdd);
    Restart(g, t1, input, i, t');
  }

  /** What the level below looks like once the finished value above it has been stored there. */
  function Stored(l: Level, v: Json): Level
    requires Waiting(l)
  {
    if l.state == ArrayAdd then Level(EatWs, ArraySep, JArray(l.current.items + [v]), None)
    else Level(EatWs, ObjectSep, JObject(Put(l.current.members, l.key.value, v)), None)
  }

  /** In front of a solid character a finished value is popped and stored. */
  lemma StoreValue(g: Config, t: Tok, input: bytes, i: nat) returns (t': Tok)
    requires WellFormed(g, t) && t.top.state == EatWs && t.top.saved == Finish && t.below != [] && t.obj == JNull
    requires i < |input| && Solid(input[i])
    ensures Leads(g, t, i, t', i, input) && t'.obj == JNull && t'.stPos == t.stPos
    ensures var n := |t.below| - 1;
            Waiting(t.below[n]) && t'.below == t.below[..n] && t'.top == Stored(t.below[n], t.top.current)
  {
    var n := |t.below| - 1;
    assert Waiting(t.below[n]);
    var t1 := Wake(g, t, input, i);
    var t2 := t1.(below := t.below[..n], top := t.below[n], obj := t.top.current);
    PopStep(g, t1, input, i, t2);
    t' := t2.(top := Stored(t.below[n], t.top.current), obj := JNull);
    StoreStep(g, t2, input, i, t');
  }

  lemma PopStep(g: Config, t: Tok, input: bytes, i: nat, t': Tok)
    requires WellFormed(g, t) && t.top.state == Finish && t.below != [] && i < |input|
    requires t' == t.(below := t.below[..|t.below| - 1], top := t.below[|t.below| - 1], obj := t.top.current)
    ensures Leads(g, t, i, t', i, input)
  {
    Restart(g, t, input, i, t');
  }

  lemma StoreStep(g: Config, t: Tok, input: bytes, i: nat, t': Tok)
    requires WellFormed(g, t) && Waiting(t.top) && i < |input|
    requires t' == t.(top := Stored(t.top, t.obj), obj := JNull)
    ensures Leads(g, t, i, t', i, input)
  {
    Restart(g, t, input, i, t');
  }

  /**
   A finished value may as well be stored before the white space behind it is skipped: both
   levels skip it alike.
   */
  lemma StoreBeforeBlank(g: Config, t: Tok, input: bytes, i: nat, p: bytes) returns (t': Tok)
    requires WellFormed(g, t) && t.top.state == EatWs && t.top.saved == Finish && t.below != [] && t.obj == JNull
    requires At(input, i, p) && Blank(p) && i + |p| < |input| && Solid(input[i + |p|])
    ensures Leads(g, t, i, t', i, input) && t'.obj == JNull && t'.stPos == t.stPos
    ensures var n := |t.below| - 1;
            Waiting(t.below[n]) && t'.below == t.below[..n] && t'.top == Stored(t.below[n], t.top.current)
  {
    hide Run, Step;
    SkipBlank(g, t, input, i, p);
    t' := StoreValue(g, t, input, i + |p|);
    SkipBlank(g, t', input, i, p);
  }

  // ---------------------------------------------------------------- member names

  lemma OpenKey(g: Config, t: Tok, input: bytes, i: nat) returns (t': Tok)
    requires WellFormed(g, t) && t.top.state == EatWs && t.obj == JNull && i < |input|
    requires input[i] == DQUOTE || input[i] == SQUOTE
    requires t.top.saved == ObjectFieldStart || t.top.saved == ObjectFieldStartAfterSep
    ensures Leads(g, t, i, t', i + 1, input) && t' == Go(t, ObjectField).(quote := input[i], pb := [])
  {
    var t1 := Wake(g, t, input, i);
    t' := Go(t1, ObjectField).(quote := input[i], pb := []);
    Consume(g, t1, input, i, t');
  }

  lemma CloseKey(g: Config, t: Tok, input: bytes, i: nat) returns (t': Tok)
    requires WellFormed(g, t) && t.top.state == ObjectField && t.quote != NUL && t.obj == JNull
    requires i < |input| && input[i] == t.quote
    ensures Leads(g, t, i, t', i + 1, input)
    ensures t' == t.(top := Level(EatWs, ObjectFieldEnd, t.top.current, Some(CString(t.pb))))
  {
    t' := t.(top := Level(EatWs, ObjectFieldEnd, t.top.current, Some(CString(t.pb))));
    Consume(g, t, input, i, t');
  }

  lemma PassColon(g: Config, t: Tok, input: bytes, i: nat) returns (t': Tok)
    requires WellFormed(g, t) && t.top.state == EatWs && t.top.saved == ObjectFieldEnd && t.obj == JNull
    requires i < |input| && input[i] == COLON
    ensures Leads(g, t, i, t', i + 1, input) && t' == t.(top := t.top.(saved := ObjectValue))
  {
    var t1 := Wake(g, t, input, i);
    t' := Await(t1, ObjectValue);
    Consume(g, t1, input, i, t');
  }

  // ---------------------------------------------------------------- where the parts of a text stand

  /** `p` stands at `i`, and `close` behind it. */
  predicate ClosedAt(input: bytes, i: nat, p: bytes, close: byte) {
    At(input, i, p) && i + |p| < |input| && input[i + |p|] == close
  }

  lemma DocHead(d: Doc, isDoubleText: bytes -> bool)
    requires DocOk(d, isDoubleText)
    ensures var p := DocText(d); p != [] && Solid(p[0]) && p[0] != RBRACKET && p[0] != RBRACE
  {}

  /** The text of an element, white space, and then a comma or the bracket: what the machine meets behind them. */
  lemma BehindElement(input: bytes, i: nat, text: bytes, after: bytes, more: bytes, close: byte)
    requires At(input, i, text) && At(input, i + |text|, after) && ClosedAt(input, i + |text| + |after|, more, close)
    requires text != [] && Solid(text[0]) && Blank(after) && (close == RBRACKET || close == RBRACE) &&
      (more == [] || more[0] == COMMA)
    ensures i < |input| && input[i] == text[0] && i + |text| < |input| && Delimits(input[i + |text|])
    ensures i + |text| + |after| < |input| && Solid(input[i + |text| + |after|])
  {
    var j := i + |text| + |after|;
    AtHead(input, i, text);
    if more != [] { AtHead(input, j, more); }
    if after != [] { AtHead(input, i + |text|, after); }
  }

  lemma ItemParts(input: bytes, i: nat, d: Doc, items: seq<Item>, k: nat, isDoubleText: bytes -> bool)
    requires d.List? && d.items == items && k < |items| && ItemsOk(d, items, k, isDoubleText)
    requires ClosedAt(input, i, ItemsText(d, items, k), RBRACKET)
    ensures var c, x := Comma(k), items[k];
      var b := i + |c|; var v := b + |x.before|; var e := v + |DocText(x.doc)|;
      && At(input, i, c) && At(input, b, x.before) && At(input, v, DocText(x.doc)) && At(input, e, x.after)
      && ClosedAt(input, e + |x.after|, ItemsText(d, items, k + 1), RBRACKET)
      && |ItemsText(d, items, k)| == |c| + |x.before| + |DocText(x.doc)| + |x.after| + |ItemsText(d, items, k + 1)|
    ensures ItemsText(d, items, k + 1) == [] || ItemsText(d, items, k + 1)[0] == COMMA
  {
    hide At, DocText, DocOk, Blank;
    var c, x, more := Comma(k), items[k], ItemsText(d, items, k + 1);
    var text := DocText(x.doc);
    AtSplit(input, i, c + x.before + text + x.after, more);
    AtSplit(input, i, c + x.before + text, x.after);
    AtSplit(input, i, c + x.before, text);
    AtSplit(input, i, c, x.before);
  }

  lemma MemberParts(input: bytes, i: nat, d: Doc, members: seq<Member>, k: nat, isDoubleText: bytes -> bool)
    requires d.Record? && d.members == members && k < |members| && MembersOk(d, members, k, isDoubleText)
    requires ClosedAt(input, i, MembersText(d, members, k), RBRACE)
    ensures var c, x := Comma(k), members[k];
      var b := i + |c|; var v := b + |NameText(x)|; var e := v + |DocText(x.doc)|;
      && At(input, i, c) && At(input, b, NameText(x)) && At(input, v, DocText(x.doc)) && At(input, e, x.after)
      && ClosedAt(input, e + |x.after|, MembersText(d, members, k + 1), RBRACE)
      && |MembersText(d, members, k)| == |c| + |NameText(x)| + |DocText(x.doc)| + |x.after| +
        |MembersText(d, members, k + 1)|
    ensures MembersText(d, members, k + 1) == [] || MembersText(d, members, k + 1)[0] == COMMA
  {
    hide At, DocText, DocOk, Blank, NameText, PiecesOk, Unquoted;
    var c, x, more := Comma(k), members[k], MembersText(d, members, k + 1);
    var text := DocText(x.doc);
    AtSplit(input, i, c + NameText(x) + text + x.after, more);
    AtSplit(input, i, c + NameText(x) + text, x.after);
    AtSplit(input, i, c + NameText(x), text);
    AtSplit(input, i, c, NameText(x));
  }

  /** What the machine meets around the `k`th item. */
  lemma ItemAhead(input: bytes, i: nat, d: Doc, items: seq<Item>, k: nat, isDoubleText: bytes -> bool)
    requires d.List? && d.items == items && k < |items| && ItemsOk(d, items, k, isDoubleText)
    requires ClosedAt(input, i, ItemsText(d, items, k), RBRACKET)
    ensures var x := items[k];
      var b := i + |Comma(k)|; var v := b + |x.before|;
      && At(input, i, Comma(k)) && At(input, b, x.before) && Blank(x.before) && DocOk(x.doc, isDoubleText)
      && ElementAt(input, v, x.doc, x.after)
  {
    hide At, DocText, DocOk, Blank, Solid, Delimits, ItemsText;
    ItemParts(input, i, d, items, k, isDoubleText);
    DocHead(items[k].doc, isDoubleText);
    BehindElement(input, i + |Comma(k)| + |items[k].before|, DocText(items[k].doc), items[k].after,
                  ItemsText(d, items, k + 1), RBRACKET);
  }

  /** What the machine meets around the `k`th member. */
  lemma MemberAhead(input: bytes, i: nat, d: Doc, members: seq<Member>, k: nat, isDoubleText: bytes -> bool)
    requires d.Record? && d.members == members && k < |members| && MembersOk(d, members, k, isDoubleText)
    requires ClosedAt(input, i, MembersText(d, members, k), RBRACE)
    ensures var x := members[k];
      var b := i + |Comma(k)|; var v := b + |NameText(x)|;
      && At(input, i, Comma(k)) && At(input, b, NameText(x)) && DocOk(x.doc, isDoubleText)
      && StringOk(x.key) && Blank(x.before) && Blank(x.mid) && Blank(x.next) && ElementAt(input, v, x.doc, x.after)
  {
    hide At, DocText, DocOk, Blank, Solid, Delimits, MembersText, NameText, PiecesOk, Unquoted;
    MemberParts(input, i, d, members, k, isDoubleText);
    DocHead(members[k].doc, isDoubleText);
    BehindElement(input, i + |Comma(k)| + |NameText(members[k])|, DocText(members[k].doc), members[k].after,
                  MembersText(d, members, k + 1), RBRACE);
  }

  /** A value that starts with no closing bracket, white space, and then a character that is none. */
  predicate ElementAt(input: bytes, i: nat, d: Doc, after: bytes) {
    var j := i + |DocText(d)|;
    && At(input, i, DocText(d)) && i < |input| && Solid(input[i]) && input[i] != RBRACKET
    && j < |input| && Delimits(input[j]) && At(input, j, after) && Blank(after)
    && j + |after| < |input| && Solid(input[j + |after|])
  }

  lemma ItemsBehind(input: bytes, i: nat, d: Doc, items: seq<Item>, k: nat, isDoubleText: bytes -> bool)
    requires d.List? && d.items == items && k < |items| && ItemsOk(d, items, k, isDoubleText)
    requires ClosedAt(input, i, ItemsText(d, items, k), RBRACKET)
    ensures var x := items[k];
      var n := |Comma(k)| + |x.before| + |DocText(x.doc)| + |x.after|;
      ClosedAt(input, i + n, ItemsText(d, items, k + 1), RBRACKET) &&
        |ItemsText(d, items, k)| == n + |ItemsText(d, items, k + 1)|
  {
    hide At, DocText, DocOk, Blank, ItemsText;
    ItemParts(input, i, d, items, k, isDoubleText);
  }

  lemma MembersBehind(input: bytes, i: nat, d: Doc, members: seq<Member>, k: nat, isDoubleText: bytes -> bool)
    requires d.Record? && d.members == members && k < |members| && MembersOk(d, members, k, isDoubleText)
    requires ClosedAt(input, i, MembersText(d, members, k), RBRACE)
    ensures var x := members[k];
      var n := |Comma(k)| + |NameText(x)| + |DocText(x.doc)| + |x.after|;
      ClosedAt(input, i + n, MembersText(d, members, k + 1), RBRACE) &&
      |MembersText(d, members, k)| == n + |MembersText(d, members, k + 1)|
  {
    hide At, DocText, DocOk, Blank, MembersText, NameText, PiecesOk, Unquoted;
    MemberParts(input, i, d, members, k, isDoubleText);
  }

  lemma NameParts(input: bytes, i: nat, m: Member)
    requires At(input, i, NameText(m))
    ensures var q := i + |m.before|; var a := q + |Quoted(m.key)|; var c := a + |m.mid|;
      && At(input, i, m.before) && At(input, q, Quoted(m.key)) && At(input, a, m.mid) && At(input, c + 1, m.next)
      && c < |input| && input[c] == COLON
      && |NameText(m)| == |m.before| + |Quoted(m.key)| + |m.mid| + 1 + |m.next|
  {
    hide At, Quoted;
    var q := Quoted(m.key);
    AtSplit(input, i, m.before + q + m.mid + [COLON], m.next);
    AtSplit(input, i, m.before + q + m.mid, [COLON]);
    AtSplit(input, i, m.before + q, m.mid);
    AtSplit(input, i, m.before, q);
    AtHead(input, i + |m.before| + |q| + |m.mid|, [COLON]);
  }

  lemma ContainerParts(input: bytes, i: nat, open: byte, pad: bytes, body: bytes, close: byte)
    requires At(input, i, [open] + pad + body + [close])
    ensures i < |input| && input[i] == open && At(input, i + 1, pad) && ClosedAt(input, i + 1 + |pad|, body, close)
  {
    hide At;
    AtSplit(input, i, [open] + pad + body, [close]);
    AtSplit(input, i, [open] + pad, body);
    AtSplit(input, i, [open], pad);
    AtHead(input, i, [open]);
    AtHead(input, i + 1 + |pad| + |body|, [close]);
    ClosedBehind(input, i + 1 + |pad|, body, close);
  }

  lemma ClosedBehind(input: bytes, i: nat, p: bytes, close: byte)
    requires At(input, i, p) && i + |p| < |input| && input[i + |p|] == close
    ensures ClosedAt(input, i, p, close)
  {}

  // ---------------------------------------------------------------- values

  /** The error of a text that needs too many levels, or that has a negative infinity where the position forbids it. */
  predicate Refuses(e: Error, fits: bool, readable: bool) {
    (e == ErrDepth || e == ErrUnexpected) && (fits ==> e == ErrUnexpected) && (readable ==> e == ErrDepth)
  }

  /** The run gets from one position of the machine to the other, or it is refused. */
  predicate Reaches(g: Config, t: Tok, i: nat, t': Tok, j: nat, input: bytes, fits: bool, readable: bool) {
    if fits && readable then Leads(g, t, i, t', j, input)
    else WellFormed(g, t) && i <= |input| && Refuses(Run(g, t, input, i).err, fits, readable)
  }

  /** The level of `t` now holds the finished value `v`; the position has left 0 if `moved`. */
  predicate Finished(t: Tok, t': Tok, v: Json, moved: bool) {
    && t'.below == t.below && t'.top == Level(EatWs, Finish, v, None) && t'.obj == JNull
    && (t'.stPos == 0 <==> t.stPos == 0 && !moved)
  }

  /** The container at the top holds `v` and waits for a separator. */
  predicate Grown(t: Tok, t': Tok, v: Json, moved: bool) {
    && t'.below == t.below && t'.obj == JNull
    && t'.top == Level(EatWs, if v.JArray? then ArraySep else ObjectSep, v, None)
    && (t'.stPos == 0 <==> t.stPos == 0 && !moved)
  }

  lemma RestsIdle(g: Config, t: Tok)
    requires WellFormed(g, t) && t.top.state == EatWs && t.obj == JNull
    ensures Idle(t)
  {}

  lemma ParseScalar(g: Config, t: Tok, input: bytes, i: nat, d: Doc) returns (t': Tok)
    requires WellFormed(g, t) && t.top == CLEAN && t.obj == JNull && DocOk(d, g.isDoubleText) && !d.List? && !d.Record?
    requires At(input, i, DocText(d)) && i + |DocText(d)| < |input| && Delimits(input[i + |DocText(d)|])
    ensures var ok := InfinityReadable(d, t.stPos == 0);
      Reaches(g, t, i, t', i + |DocText(d)|, input, true, ok) &&
      (ok ==> Finished(t, t', Meaning(d, g.isDoubleText), MovesPosition(d)))
  {
    hide Run, Step, At, IsNumeral, NumeralValue, Delimits, Quoted, Said, WellFormed, IsWord, WordValue;
    match d
    case Word(w) => t' := ParseWord(g, t, input, i, w);
    case Numeral(p) => t' := ParseNumeral(g, t, input, i, p);
    case Text(ps) =>
      RestsIdle(g, t);
      t' := ParseText(g, t, input, i, ps);
  }

  lemma ScalarIsFlat(d: Doc)
    requires !d.List? && !d.Record?
    ensures Depth(d) == 0
  {}

  /** The text of `d`, with something behind it that ends a value, is read as what `d` stands for. */
  lemma {:induction false} ParseDoc(g: Config, t: Tok, input: bytes, i: nat, d: Doc) returns (t': Tok)
    requires WellFormed(g, t) && t.top == CLEAN && t.obj == JNull && DocOk(d, g.isDoubleText)
    requires At(input, i, DocText(d)) && i + |DocText(d)| < |input| && Delimits(input[i + |DocText(d)|])
    ensures var fits, ok := |t.below| + Depth(d) < g.maxDepth, InfinityReadable(d, t.stPos == 0);
      Reaches(g, t, i, t', i + |DocText(d)|, input, fits, ok) &&
      (fits && ok ==> Finished(t, t', Meaning(d, g.isDoubleText), MovesPosition(d)))
    decreases d, 1
  {
    hide Run, Step, WellFormed, At, Depth, DocText, DocOk, Meaning, MovesPosition, InfinityReadable, Reaches, Finished;
    if d.List? {
      t' := ParseList(g, t, input, i, d);
    } else if d.Record? {
      t' := ParseRecord(g, t, input, i, d);
    } else {
      ScalarIsFlat(d);
      StackIsBounded(g, t);
      t' := ParseScalar(g, t, input, i, d);
    }
  }

  lemma {:induction false} ParseList(g: Config, t: Tok, input: bytes, i: nat, d: Doc) returns (t': Tok)
    requires d.List? && WellFormed(g, t) && t.top == CLEAN && t.obj == JNull && DocOk(d, g.isDoubleText)
    requires At(input, i, DocText(d))
    ensures var fits, ok := |t.below| + Depth(d) < g.maxDepth, InfinityReadable(d, t.stPos == 0);
      Reaches(g, t, i, t', i + |DocText(d)|, input, fits, ok) &&
      (fits && ok ==> Finished(t, t', Meaning(d, g.isDoubleText), MovesPosition(d)))
    decreases d, 0, |d.items| + 1
  {
    hide Run, Step, WellFormed, At, ItemsText, ItemsOk, ItemsMeaning, ItemsMove, ItemsReadable, ItemsDepth, ClosedAt;
    var body := ItemsText(d, d.items, 0);
    ContainerParts(input, i, LBRACKET, d.pad, body, RBRACKET);
    var t1 := OpenContainer(g, t, input, i);
    SkipBlank(g, t1, input, i + 1, d.pad);
    t' := ParseItems(g, t1, input, i + 1 + |d.pad|, d, d.items, 0, []);
    assert [] + ItemsMeaning(d, d.items, 0, g.isDoubleText) == ItemsMeaning(d, d.items, 0, g.isDoubleText);
  }

  lemma {:induction false} ParseRecord(g: Config, t: Tok, input: bytes, i: nat, d: Doc) returns (t': Tok)
    requires d.Record? && WellFormed(g, t) && t.top == CLEAN && t.obj == JNull && DocOk(d, g.isDoubleText)
    requires At(input, i, DocText(d))
    ensures var fits, ok := |t.below| + Depth(d) < g.maxDepth, InfinityReadable(d, t.stPos == 0);
      Reaches(g, t, i, t', i + |DocText(d)|, input, fits, ok) &&
      (fits && ok ==> Finished(t, t', Meaning(d, g.isDoubleText), MovesPosition(d)))
    decreases d, 0, |d.members| + 1
  {
    hide Run, Step, WellFormed, At, MembersText, MembersOk, MembersMeaning, MembersMove, MembersReadable,
      MembersDepth, ClosedAt;
    var body := MembersText(d, d.members, 0);
    ContainerParts(input, i, LBRACE, d.pad, body, RBRACE);
    var t1 := OpenContainer(g, t, input, i);
    SkipBlank(g, t1, input, i + 1, d.pad);
    t' := ParseMembers(g, t1, input, i + 1 + |d.pad|, d, d.members, 0, []);
  }

  /** The closing bracket, behind the last element. */
  lemma ParseEnd(g: Config, t: Tok, input: bytes, i: nat, close: byte) returns (t': Tok)
    requires WellFormed(g, t) && t.top.state == EatWs && t.obj == JNull && ClosedAt(input, i, [], close)
    requires ((t.top.saved == Array || t.top.saved == ArraySep) && close == RBRACKET) ||
             ((t.top.saved == ObjectFieldStart || t.top.saved == ObjectSep) && close == RBRACE)
    ensures Leads(g, t, i, t', i + 1, input) && Finished(t, t', t.top.current, false)
  {
    hide Run, Step, WellFormed;
    t' := CloseContainer(g, t, input, i);
  }

  /** The items from the `k`th on and the closing bracket complete the array. */
  lemma {:induction false} ParseItems(g: Config, t: Tok, input: bytes, i: nat, d: Doc, items: seq<Item>, k: nat,
                                      done: seq<Json>)
    returns (t': Tok)
    requires d.List? && d.items == items && k <= |items| && ItemsOk(d, items, k, g.isDoubleText)
    requires WellFormed(g, t) && t.obj == JNull
    requires t.top == Level(EatWs, if k == 0 then Array else ArraySep, JArray(done), None)
    requires ClosedAt(input, i, ItemsText(d, items, k), RBRACKET)
    ensures var fits, ok := |t.below| + ItemsDepth(d, items, k) < g.maxDepth, ItemsReadable(d, items, k, t.stPos == 0);
      Reaches(g, t, i, t', i + |ItemsText(d, items, k)| + 1, input, fits, ok) &&
      (fits && ok ==> Finished(t, t', JArray(done + ItemsMeaning(d, items, k, g.isDoubleText)), ItemsMove(d, items, k)))
    decreases d, 0, |items| - k, 1
  {
    hide Run, Step, WellFormed, At, DocText, DocOk, Meaning, MovesPosition, InfinityReadable, Depth, ClosedAt;
    StackIsBounded(g, t);
    if k == |items| {
      t' := ParseEnd(g, t, input, i, RBRACKET);
      assert done + [] == done;
    } else {
      ItemsBehind(input, i, d, items, k, g.isDoubleText);
      var x, v := items[k], Meaning(items[k].doc, g.isDoubleText);
      var j := i + |Comma(k)| + |x.before| + |DocText(x.doc)| + |x.after|;
      var t1 := ParseItem(g, t, input, i, d, items, k, done);
      if |t.below| + 1 + Depth(x.doc) < g.maxDepth && InfinityReadable(x.doc, t.stPos == 0) {
        t' := ParseItems(g, t1, input, j, d, items, k + 1, done + [v]);
        assert done + [v] + ItemsMeaning(d, items, k + 1, g.isDoubleText) ==
          done + ItemsMeaning(d, items, k, g.isDoubleText);
      } else {
        t' := t1;
      }
    }
  }

  /** What waits for a value on its own level, once the machine has been woken there. */
  function Waker(t: Tok): Level {
    t.top.(state := if t.top.saved == ObjectValue then ObjectValueAdd else ArrayAdd)
  }

  /** A value inside a container, with white space behind it, is read and stored. */
  lemma {:induction false} ParseElement(g: Config, t: Tok, input: bytes, i: nat, d: Doc, after: bytes) returns (t': Tok)
    requires WellFormed(g, t) && t.top.state == EatWs && t.obj == JNull && DocOk(d, g.isDoubleText)
    requires t.top.saved == Array || t.top.saved == ArrayAfterSep || t.top.saved == ObjectValue
    requires ElementAt(input, i, d, after)
    ensures var fits, ok := |t.below| + 1 + Depth(d) < g.maxDepth, InfinityReadable(d, t.stPos == 0);
      Reaches(g, t, i, t', i + |DocText(d)| + |after|, input, fits, ok) &&
      (fits && ok ==>
         && Waiting(Waker(t)) && t'.top == Stored(Waker(t), Meaning(d, g.isDoubleText)) && t'.below == t.below
         && t'.obj == JNull && (t'.stPos == 0 <==> t.stPos == 0 && !MovesPosition(d)))
    decreases d, 2
  {
    hide Run, Step, WellFormed, At, DocText, DocOk, Meaning, MovesPosition, InfinityReadable, Depth, Blank, Solid,
      Delimits, Waiting, Stored;
    if |t.below| + 1 >= g.maxDepth {
      t' := t;
      NoRoom(g, t, input, i);
      return;
    }
    var t1 := OpenElement(g, t, input, i);
    var t2 := ParseDoc(g, t1, input, i, d);
    if |t.below| + 1 + Depth(d) < g.maxDepth && InfinityReadable(d, t.stPos == 0) {
      var j := i + |DocText(d)|;
      t' := StoreBeforeBlank(g, t2, input, j, after);
      StoredRests(t2.below[|t.below|], t2.top.current);
      SkipBlank(g, t', input, j, after);
      assert t2.below[..|t.below|] == t.below;
    } else {
      t' := t2;
    }
  }

  /** One level too many. */
  lemma NoRoom(g: Config, t: Tok, input: bytes, i: nat)
    requires WellFormed(g, t) && t.top.state == EatWs && t.obj == JNull && |t.below| + 1 >= g.maxDepth
    requires t.top.saved == Array || t.top.saved == ArrayAfterSep || t.top.saved == ObjectValue
    requires i < |input| && Solid(input[i]) && input[i] != RBRACKET
    ensures Run(g, t, input, i).err == ErrDepth
  {
    var t1 := Wake(g, t, input, i);
    StepKeeps(g, t1, input, i);
    assert Step(g, t1, input, i) == Halt(t1, ErrDepth, 0);
    hide Step, Shape;
  }

  lemma StackIsBounded(g: Config, t: Tok)
    requires WellFormed(g, t)
    ensures |t.below| < g.maxDepth
  {}

  lemma StoredRests(l: Level, v: Json)
    requires Waiting(l)
    ensures Stored(l, v).state == EatWs
  {}

  /** A comma if it is not the first, white space, the item, and white space. */
  lemma {:induction false} ParseItem(g: Config, t: Tok, input: bytes, i: nat, d: Doc, items: seq<Item>, k: nat,
                                     done: seq<Json>)
    returns (t': Tok)
    requires d.List? && d.items == items && k < |items| && ItemsOk(d, items, k, g.isDoubleText)
    requires WellFormed(g, t) && t.obj == JNull
    requires t.top == Level(EatWs, if k == 0 then Array else ArraySep, JArray(done), None)
    requires ClosedAt(input, i, ItemsText(d, items, k), RBRACKET)
    ensures var x := items[k];
      var fits, ok := |t.below| + 1 + Depth(x.doc) < g.maxDepth, InfinityReadable(x.doc, t.stPos == 0);
      Reaches(g, t, i, t', i + |Comma(k)| + |x.before| + |DocText(x.doc)| + |x.after|, input, fits, ok) &&
      (fits && ok ==> Grown(t, t', JArray(done + [Meaning(x.doc, g.isDoubleText)]), MovesPosition(x.doc)))
    decreases d, 0, |items| - k, 0
  {
    hide Run, Step, WellFormed, At, DocText, DocOk, Meaning, MovesPosition, InfinityReadable, Depth, Blank, ItemsText,
      ClosedAt, ElementAt, ItemsOk, Refuses;
    ItemAhead(input, i, d, items, k, g.isDoubleText);
    var x := items[k];
    var b := i + |Comma(k)|;
    var j := b + |x.before|;
    var t1 := PassSeparator(g, t, input, i, k);
    SkipBlank(g, t1, input, b, x.before);
    t' := ParseElement(g, t1, input, j, x.doc, x.after);
  }

  /** The comma in front of every element but the first. */
  lemma PassSeparator(g: Config, t: Tok, input: bytes, i: nat, k: nat) returns (t': Tok)
    requires WellFormed(g, t) && t.top.state == EatWs && t.obj == JNull && At(input, i, Comma(k))
    requires k > 0 ==> t.top.saved == ArraySep || t.top.saved == ObjectSep
    ensures Leads(g, t, i, t', i + |Comma(k)|, input) && t'.below == t.below && t'.obj == JNull && t'.stPos == t.stPos
    ensures t'.top == if k == 0 then t.top
                      else t.top.(saved := if t.top.saved == ArraySep then ArrayAfterSep else ObjectFieldStartAfterSep)
  {
    hide Run, Step, WellFormed;
    if k == 0 {
      t' := t;
    } else {
      AtHead(input, i, [COMMA]);
      t' := PassComma(g, t, input, i);
    }
  }

  /** The members from the `k`th on and the closing brace complete the object. */
  lemma {:induction false} ParseMembers(g: Config, t: Tok, input: bytes, i: nat, d: Doc, members: seq<Member>, k: nat,
                                        done: seq<(bytes, Json)>)
    returns (t': Tok)
    requires d.Record? && d.members == members && k <= |members| && MembersOk(d, members, k, g.isDoubleText)
    requires WellFormed(g, t) && t.obj == JNull
    requires t.top == Level(EatWs, if k == 0 then ObjectFieldStart else ObjectSep, JObject(done), None)
    requires ClosedAt(input, i, MembersText(d, members, k), RBRACE)
    ensures var fits, ok := |t.below| + MembersDepth(d, members, k) < g.maxDepth,
      MembersReadable(d, members, k, t.stPos == 0);
      Reaches(g, t, i, t', i + |MembersText(d, members, k)| + 1, input, fits, ok) &&
      (fits && ok ==>
        Finished(t, t', JObject(MembersMeaning(d, members, k, done, g.isDoubleText)), MembersMove(d, members, k)))
    decreases d, 0, |members| - k, 1
  {
    hide Run, Step, WellFormed, At, DocText, DocOk, Meaning, MovesPosition, InfinityReadable, Depth, ClosedAt,
      NameText, Said, PiecesOk, Unquoted;
    StackIsBounded(g, t);
    if k == |members| {
      t' := ParseEnd(g, t, input, i, RBRACE);
    } else {
      MembersBehind(input, i, d, members, k, g.isDoubleText);
      var x := members[k];
      var j := i + |Comma(k)| + |NameText(x)| + |DocText(x.doc)| + |x.after|;
      var t1 := ParseMember(g, t, input, i, d, members, k, done);
      if |t.below| + 1 + Depth(x.doc) < g.maxDepth && InfinityReadable(x.doc, t.stPos == 0 && !HasUnit(x.key)) {
        t' := ParseMembers(g, t1, input, j, d, members, k + 1,
                           Put(done, CString(Said(0, x.key)), Meaning(x.doc, g.isDoubleText)));
      } else {
        t' := t1;
      }
    }
  }

  /** A comma if it is not the first, the name with its colon, the value, and white space. */
  lemma {:induction false} ParseMember(g: Config, t: Tok, input: bytes, i: nat, d: Doc, members: seq<Member>, k: nat,
                                       done: seq<(bytes, Json)>)
    returns (t': Tok)
    requires d.Record? && d.members == members && k < |members| && MembersOk(d, members, k, g.isDoubleText)
    requires WellFormed(g, t) && t.obj == JNull
    requires t.top == Level(EatWs, if k == 0 then ObjectFieldStart else ObjectSep, JObject(done), None)
    requires ClosedAt(input, i, MembersText(d, members, k), RBRACE)
    ensures var x := members[k];
      var fits, ok := |t.below| + 1 + Depth(x.doc) < g.maxDepth,
        InfinityReadable(x.doc, t.stPos == 0 && !HasUnit(x.key));
      Reaches(g, t, i, t', i + |Comma(k)| + |NameText(x)| + |DocText(x.doc)| + |x.after|, input, fits, ok) &&
      (fits && ok ==> Grown(t, t', JObject(Put(done, CString(Said(0, x.key)), Meaning(x.doc, g.isDoubleText))),
                    HasUnit(x.key) || MovesPosition(x.doc)))
    decreases d, 0, |members| - k, 0
  {
    hide Run, Step, WellFormed, At, DocText, DocOk, Meaning, MovesPosition, InfinityReadable, Depth, Blank,
      MembersText, ClosedAt, ElementAt, MembersOk, NameText, Said, PiecesOk, Unquoted, HasUnit, Put, CString, Refuses;
    MemberAhead(input, i, d, members, k, g.isDoubleText);
    var x := members[k];
    var b := i + |Comma(k)|;
    var j := b + |NameText(x)|;
    var t1 := PassSeparator(g, t, input, i, k);
    var t2 := ParseName(g, t1, input, b, x);
    t' := ParseElement(g, t2, input, j, x.doc, x.after);
  }

  /** A name in quotes is kept as far as its first NUL. */
  lemma ParseKey(g: Config, t: Tok, input: bytes, i: nat, key: seq<Piece>) returns (t': Tok)
    requires WellFormed(g, t) && t.top.state == EatWs && t.obj == JNull && StringOk(key) && At(input, i, Quoted(key))
    requires t.top.saved == ObjectFieldStart || t.top.saved == ObjectFieldStartAfterSep
    ensures Leads(g, t, i, t', i + |Quoted(key)|, input) && t'.obj == JNull && t'.below == t.below
    ensures t'.top == Level(EatWs, ObjectFieldEnd, t.top.current, Some(CString(Said(0, key))))
    ensures t'.stPos == 0 <==> t.stPos == 0 && !HasUnit(key)
  {
    hide Run, Step, WellFormed, At, Quoted, PiecesText, HasUnit, Said, PiecesAt, PiecesOk, Unquoted, CString;
    QuotedAt(input, i, key);
    var t1 := OpenKey(g, t, input, i);
    KeyIsQuiet(g, t1);
    var t2 := PiecesRun(g, t1, input, i + 1, key);
    assert [] + Said(0, key) == Said(0, key);
    AtQuote(input, i + 1, key, DQUOTE);
    t' := CloseKey(g, t2, input, i + 1 + |PiecesText(key)|);
  }

  /** A name with its colon, and the white space around them. */
  lemma ParseName(g: Config, t: Tok, input: bytes, i: nat, m: Member) returns (t': Tok)
    requires WellFormed(g, t) && t.top.state == EatWs && t.obj == JNull
    requires t.top.saved == ObjectFieldStart || t.top.saved == ObjectFieldStartAfterSep
    requires StringOk(m.key) && Blank(m.before) && Blank(m.mid) && Blank(m.next) && At(input, i, NameText(m))
    ensures Leads(g, t, i, t', i + |NameText(m)|, input) && t'.obj == JNull && t'.below == t.below
    ensures t'.top == Level(EatWs, ObjectValue, t.top.current, Some(CString(Said(0, m.key))))
    ensures t'.stPos == 0 <==> t.stPos == 0 && !HasUnit(m.key)
  {
    hide Run, Step, WellFormed, At, Quoted, NameText, Blank, HasUnit, Said, PiecesOk, Unquoted, CString;
    NameParts(input, i, m);
    var q := i + |m.before|;
    var e := q + |Quoted(m.key)|;
    SkipBlank(g, t, input, i, m.before);
    var t1 := ParseKey(g, t, input, q, m.key);
    SkipBlank(g, t1, input, e, m.mid);
    t' := PassColon(g, t1, input, e + |m.mid|);
    SkipBlank(g, t', input, e + |m.mid| + 1, m.next);
  }

  lemma KeyIsQuiet(g: Config, t: Tok)
    requires WellFormed(g, t) && t.top.state == ObjectField
    ensures t.hi == 0
  {}

  // ---------------------------------------------------------------- whole texts

  lemma EndsAtNul(g: Config, t: Tok, input: bytes, i: nat)
    requires WellFormed(g, t) && t.below == [] && t.top.state == EatWs && t.top.saved == Finish && t.obj == JNull
    requires i < |input| && input[i] == NUL
    ensures var r := Run(g, t, input, i);
            r.err == Success && r.value == t.top.current && r.offset == i && WellFormed(g, r.tok) && Idle(r.tok)
  {
    var t1 := Go(t, Finish);
    Restart(g, t, input, i, t1);
  }

  /** A text of the grammar with white space around it. */
  function Surrounded(lead: bytes, d: Doc, trail: bytes): bytes {
    lead + DocText(d) + trail
  }

  /**
   A text of the grammar, followed by its NUL, is accepted with the value that it stands for, in both modes, if and
   only if the stack has room for its nesting and no negative infinity stands behind something that moves the
   position.
   */
  lemma TextIsAcceptedExactlyWhen(g: Config, t: Tok, lead: bytes, d: Doc, trail: bytes)
    requires WellFormed(g, t) && Idle(t) && t.below == [] && t.top == CLEAN && Blank(lead) && Blank(trail)
    requires DocOk(d, g.isDoubleText)
    ensures var p, fits, ok := Surrounded(lead, d, trail), Depth(d) < g.maxDepth, InfinityReadable(d, t.stPos == 0);
      var r := ParseEx(g, t, p + [NUL]);
      if fits && ok then
        r.err == Success && r.value == Meaning(d, g.isDoubleText) && r.offset == |p| && WellFormed(g, r.tok) &&
          Idle(r.tok)
      else Refuses(r.err, fits, ok)
  {
    hide Run, Step, WellFormed, At, DocText, DocOk, Meaning, MovesPosition, InfinityReadable, Depth, Blank;
    var p := Surrounded(lead, d, trail);
    var input, text := p + [NUL], DocText(d);
    WholeText(lead, text, trail);
    DelimitedBy(input, |lead| + |text|, trail);
    SkipBlank(g, t, input, 0, lead);
    var t1 := ParseDoc(g, t, input, |lead|, d);
    if Depth(d) < g.maxDepth && InfinityReadable(d, t.stPos == 0) {
      SkipBlank(g, t1, input, |lead| + |text|, trail);
      EndsAtNul(g, t1, input, |p|);
    }
  }

  /** With white space behind it, a text needs no NUL: the end of the chunk ends the call as well. */
  lemma TextEndsWithChunk(g: Config, t: Tok, lead: bytes, d: Doc, trail: bytes)
    requires WellFormed(g, t) && Idle(t) && t.below == [] && t.top == CLEAN && Blank(lead) && Blank(trail)
    requires trail != [] && DocOk(d, g.isDoubleText) && Depth(d) < g.maxDepth && InfinityReadable(d, t.stPos == 0)
    ensures var p := Surrounded(lead, d, trail); var r := ParseEx(g, t, p);
      r.err == Success && r.value == Meaning(d, g.isDoubleText) && r.offset == |p|
  {
    hide Run, Step, WellFormed, At, DocText, DocOk, Meaning, MovesPosition, InfinityReadable, Depth, Blank;
    var input, text := Surrounded(lead, d, trail), DocText(d);
    SurroundedAt(lead, text, trail);
    DelimitedByBlank(input, |lead| + |text|, trail);
    SkipBlank(g, t, input, 0, lead);
    var t1 := ParseDoc(g, t, input, |lead|, d);
    SkipBlank(g, t1, input, |lead| + |text|, trail);
    ChunkEnds(g, t1, input);
  }

  lemma SurroundedAt(lead: bytes, text: bytes, trail: bytes)
    ensures var input := lead + text + trail;
      At(input, 0, lead) && At(input, |lead|, text) && At(input, |lead| + |text|, trail)
  {
    var input := lead + text + trail;
    assert input[0..|input|] == input;
    AtSplit(input, 0, lead + text, trail);
    AtSplit(input, 0, lead, text);
  }

  lemma DelimitedByBlank(input: bytes, i: nat, trail: bytes)
    requires At(input, i, trail) && Blank(trail) && trail != []
    ensures i < |input| && Delimits(input[i])
  {
    AtHead(input, i, trail);
  }

  lemma ChunkEnds(g: Config, t: Tok, input: bytes)
    requires WellFormed(g, t) && t.below == [] && t.top.state == EatWs && t.top.saved == Finish && t.obj == JNull
    ensures var r := Run(g, t, input, |input|); r.err == Success && r.value == t.top.current && r.offset == |input|
  {}

  lemma WholeText(lead: bytes, text: bytes, trail: bytes)
    ensures var input := lead + text + trail + [NUL];
      && At(input, 0, lead) && At(input, |lead|, text) && At(input, |lead| + |text|, trail)
      && input[|lead| + |text| + |trail|] == NUL
  {
    var input := lead + text + trail + [NUL];
    assert input[0..|input|] == input;
    AtSplit(input, 0, lead + text + trail, [NUL]);
    AtSplit(input, 0, lead + text, trail);
    AtSplit(input, 0, lead, text);
  }

  lemma DelimitedBy(input: bytes, i: nat, trail: bytes)
    requires At(input, i, trail) && Blank(trail) && i + |trail| < |input| && input[i + |trail|] == NUL
    ensures i < |input| && Delimits(input[i])
  {
    if trail != [] { AtHead(input, i, trail); }
  }
}
