/** Every value that the tokener returns can be printed, and which values come back from their print. */
module Reparse {
  import opened Bytes
  import opened JsonValue
  import opened Numbers
  import opened OrderedMap
  import opened Utf8
  import opened TokenerMachine
  import opened Printer
  import opened Grammar
  import opened GrammarScalars
  import opened RoundTrip

  /** A value that fits at depth `depth` of a stack of `maxDepth` levels. */
  ghost predicate FitsAt(g: Config, v: Json, depth: nat) {
    Printable(v, g.isDoubleText) && depth + Height(v) < g.maxDepth
  }

  ghost predicate LevelSane(g: Config, l: Level, depth: nat) {
    FitsAt(g, l.current, depth) && (l.key.Some? ==> NUL !in l.key.value)
  }

  /** A number that has been begun: its text so far, or its first character still at hand. */
  predicate NumberSane(t: Tok, input: bytes, i: nat) {
    && (forall c | c in t.pb :: IsNumberChar(c))
    && t.isDouble == MarksDouble(t.pb)
    && (if t.pb == [] then i < |input| && (IsDigit(input[i]) || input[i] == MINUS)
        else IsDigit(t.pb[0]) || t.pb[0] == MINUS)
  }

  ghost predicate TokSane(g: Config, t: Tok, input: bytes, i: nat) {
    && (forall k | 0 <= k < |t.below| :: LevelSane(g, t.below[k], k))
    && LevelSane(g, t.top, |t.below|)
    && (t.top.state == ArrayAdd || t.top.state == ObjectValueAdd ==> FitsAt(g, t.obj, |t.below| + 1))
    && (t.top.state == Number ==> NumberSane(t, input, i))
  }

  // ---------------------------------------------------------------- growing containers

  lemma HeightOfPrefix(v: Json, w: Json, items: seq<Json>, more: seq<Json>, n: nat)
    requires v == JArray(items) && w == JArray(more) && n <= |items| <= |more| && more[..|items|] == items
    ensures ItemsHeight(w, more, n) == ItemsHeight(v, items, n)
  {
    if n > 0 {
      HeightOfPrefix(v, w, items, more, n - 1);
      assert more[n - 1] == more[..|items|][n - 1];
    }
  }

  lemma AppendFits(g: Config, items: seq<Json>, x: Json, depth: nat)
    requires FitsAt(g, JArray(items), depth) && FitsAt(g, x, depth + 1)
    ensures FitsAt(g, JArray(items + [x]), depth)
  {
    HeightOfPrefix(JArray(items), JArray(items + [x]), items, items + [x], |items|);
  }

  lemma MembersBounded(v: Json, members: seq<(bytes, Json)>, n: nat, bound: nat)
    requires v == JObject(members) && n <= |members|
    requires forall k | 0 <= k < n :: 1 + Height(members[k].1) <= bound
    ensures MembersHeight(v, members, n) <= bound
  {}

  lemma HeightOfMember(v: Json, members: seq<(bytes, Json)>, k: nat, n: nat)
    requires v == JObject(members) && k < n <= |members|
    ensures 1 + Height(members[k].1) <= MembersHeight(v, members, n)
  {
    if k < n - 1 { HeightOfMember(v, members, k, n - 1); }
  }

  lemma PutFits(g: Config, members: seq<(bytes, Json)>, key: bytes, x: Json, depth: nat)
    requires FitsAt(g, JObject(members), depth) && FitsAt(g, x, depth + 1) && NUL !in key
    ensures FitsAt(g, JObject(Put(members, key, x)), depth)
  {
    var p, v := Put(members, key, x), JObject(members);
    PutLaws(members, key, x, key);
    PutIs(members, key, x);
    hide Put, UniqueKeys;
    forall k | 0 <= k < |p|
      ensures 1 + Height(p[k].1) < g.maxDepth - depth && NUL !in p[k].0 && Printable(p[k].1, g.isDoubleText)
    {
      if p[k] != (key, x) { HeightOfMember(v, members, k, |members|); }
    }
    MembersBounded(JObject(p), p, |p|, g.maxDepth - depth - 1);
  }

  lemma PutIs(members: seq<(bytes, Json)>, key: bytes, x: Json)
    ensures var p := Put(members, key, x);
      forall k | 0 <= k < |p| :: p[k] == (key, x) || (k < |members| && p[k] == members[k])
  {}

  // ---------------------------------------------------------------- one pass

  ghost predicate PassSane(g: Config, input: bytes, i: nat, o: Outcome) {
    match o
    case Advance(t', n) => TokSane(g, t', input, i + n)
    case Redo(t') => TokSane(g, t', input, i)
    case Halt(t', e, n) => FitsAt(g, t'.top.current, 0)
  }

  lemma StepSane(g: Config, t: Tok, input: bytes, i: nat)
    requires WellFormed(g, t) && i < |input| && TokSane(g, t, input, i)
    ensures PassSane(g, input, i, Step(g, t, input, i))
  {
    hide Step, PassSane, TokSane, WellFormed;
    match t.top.state
    case Number => NumberPassSane(g, t, input, i);
    case NullLit => NullPassSane(g, t, input, i);
    case Inf | Boolean => LiteralPassSane(g, t, input, i);
    case ArrayAdd | ObjectValueAdd => AddPassSane(g, t, input, i);
    case Finish => FinishPassSane(g, t, input, i);
    case EscapeUnicode => UnicodePassSane(g, t, input, i);
    case ObjectField | Str | StrEscape => TextPassSane(g, t, input, i);
    case EatWs | CommentStart | Comment | CommentEol | CommentEnd => BlankPassSane(g, t, input, i);
    case Start => StartPassSane(g, t, input, i);
    case Array | ArrayAfterSep | ArraySep => ArrayPassSane(g, t, input, i);
    case ObjectFieldStart | ObjectFieldStartAfterSep | ObjectFieldEnd | ObjectValue | ObjectSep =>
      ObjectPassSane(g, t, input, i);
  }

  lemma AddPassSane(g: Config, t: Tok, input: bytes, i: nat)
    requires WellFormed(g, t) && i < |input| && TokSane(g, t, input, i) &&
      (t.top.state == ArrayAdd || t.top.state == ObjectValueAdd)
    ensures PassSane(g, input, i, Step(g, t, input, i))
  {
    hide FitsAt, Put, NumberSane;
    NullFits(g, |t.below| + 1);
    if t.top.state == ArrayAdd {
      AppendFits(g, t.top.current.items, t.obj, |t.below|);
    } else {
      PutFits(g, t.top.current.members, t.top.key.value, t.obj, |t.below|);
    }
  }

  lemma NullFits(g: Config, depth: nat)
    ensures depth < g.maxDepth ==> FitsAt(g, JNull, depth)
  {}

  lemma FinishPassSane(g: Config, t: Tok, input: bytes, i: nat)
    requires WellFormed(g, t) && i < |input| && TokSane(g, t, input, i) && t.top.state == Finish
    ensures PassSane(g, input, i, Step(g, t, input, i))
  {
    hide FitsAt, NumberSane;
    if t.below != [] { assert Waiting(t.below[|t.below| - 1]); }
  }

  lemma UnicodePassSane(g: Config, t: Tok, input: bytes, i: nat)
    requires WellFormed(g, t) && i < |input| && TokSane(g, t, input, i) && t.top.state == EscapeUnicode
    ensures PassSane(g, input, i, Step(g, t, input, i))
  {
    hide FitsAt, TokSane, Step;
    KeyIsNone(g, t);
    TopFits(g, t, input, i);
    UnicodeKeepsValues(t, input, i);
    UnicodeStep(g, t, input, i);
    var o := Step(g, t, input, i);
    if o.Advance? { SameValues(g, t, input, i, o.t, i + o.n); }
  }

  lemma UnicodeStep(g: Config, t: Tok, input: bytes, i: nat)
    requires i < |input| && t.top.state == EscapeUnicode && t.stPos < 4
    ensures Step(g, t, input, i) == StepUnicode(t, input, i)
  {}

  lemma UnicodeKeepsValues(t: Tok, input: bytes, i: nat)
    requires i < |input| && t.top.state == EscapeUnicode && t.stPos < 4
    ensures var o := StepUnicode(t, input, i);
      !o.Redo? && o.t.below == t.below && o.t.top.current == t.top.current && o.t.top.key == t.top.key &&
      (o.t.top.state == EscapeUnicode || o.t.top.state == t.top.saved)
  {
    hide AddDigit, Emission, EscapeFollows, IsHex, IsHighSurrogate, IsLowSurrogate, DecodePair;
  }

  /** What fits inside a container fits at the top level. */
  lemma FitsOnItsOwn(g: Config, t: Tok)
    requires LevelSane(g, t.top, |t.below|)
    ensures FitsAt(g, t.top.current, 0)
  {}

  lemma NumberPassSane(g: Config, t: Tok, input: bytes, i: nat)
    requires WellFormed(g, t) && i < |input| && TokSane(g, t, input, i) && t.top.state == Number
    ensures PassSane(g, input, i, Step(g, t, input, i))
  {
    hide Step, ParseInt64, IsNumberChar, MarksDouble;
    StepAtNumber(g, t, input, i);
    FitsOnItsOwn(g, t);
    if IsNumberChar(input[i]) {
      NumberGrows(t, input, i);
    } else {
      NumberEnds(g, t, input, i);
    }
  }

  lemma NumberGrows(t: Tok, input: bytes, i: nat)
    requires i < |input| && NumberSane(t, input, i) && IsNumberChar(input[i])
    ensures NumberSane(WithNumberChars(t, [input[i]]), input, i + 1)
    ensures t.isDouble || MarksDouble([input[i]]) == (t.isDouble || input[i] == DOT || input[i] == LOWER_E ||
      input[i] == UPPER_E)
  {
    var c := input[i];
    var p := t.pb + [c];
    assert forall x :: x in p <==> x in t.pb || x == c;
    assert MarksDouble(p) == (MarksDouble(t.pb) || MarksDouble([c]));
  }

  lemma NumberEnds(g: Config, t: Tok, input: bytes, i: nat)
    requires WellFormed(g, t) && i < |input| && TokSane(g, t, input, i) && t.top.state == Number &&
      !IsNumberChar(input[i])
    ensures PassSane(g, input, i, StepNumber(g, t, input[i]))
  {
    hide ParseInt64;
    var o := StepNumber(g, t, input[i]);
    ParsedFits(t.pb);
    if o.Redo? && o.t.top.state != Inf {
      assert o.t == Accept(t.(caseLen := 0), o.t.top.current);
    }
  }

  lemma ParsedFits(s: bytes)
    ensures ParseInt64(s).Some? ==> INT64_MIN <= ParseInt64(s).value <= INT64_MAX
  {}

  lemma LiteralPassSane(g: Config, t: Tok, input: bytes, i: nat)
    requires WellFormed(g, t) && i < |input| && TokSane(g, t, input, i)
    requires t.top.state == Inf || t.top.state == Boolean
    ensures PassSane(g, input, i, Step(g, t, input, i))
  {
    hide Matches, NumberSane, MarksDouble, Step, FitsAt, IsDoubleLexeme, TokSane;
    KeyIsNone(g, t);
    StepAtLiteral(g, t, input, i);
    TopFits(g, t, input, i);
    ScalarsFit(g, |t.below|);
    var o := Step(g, t, input, i);
    if o.Redo? {
      ValueIsSane(g, t, input, i, o.t);
    } else if o.Advance? {
      SameValues(g, t, input, i, o.t, i + 1);
    }
  }

  /** A pass that makes a value for the top level and touches nothing else. */
  lemma ValueIsSane(g: Config, t: Tok, input: bytes, i: nat, t': Tok)
    requires TokSane(g, t, input, i) && t'.below == t.below && t'.top.state == EatWs && t'.top.key == t.top.key
    requires FitsAt(g, t'.top.current, |t.below|)
    ensures TokSane(g, t', input, i)
  {
    hide FitsAt, NumberSane;
  }

  /** A pass that leaves all values as they are. */
  lemma SameValues(g: Config, t: Tok, input: bytes, i: nat, t': Tok, j: nat)
    requires TokSane(g, t, input, i) && t'.below == t.below && t'.top.current == t.top.current &&
      t'.top.key == t.top.key
    requires t'.top.state != ArrayAdd && t'.top.state != ObjectValueAdd && t'.top.state != Number
    ensures TokSane(g, t', input, j)
  {
    hide FitsAt, NumberSane;
  }

  lemma TopFits(g: Config, t: Tok, input: bytes, i: nat)
    requires TokSane(g, t, input, i)
    ensures LevelSane(g, t.top, |t.below|) && FitsAt(g, t.top.current, 0)
  {}

  lemma KeyIsNone(g: Config, t: Tok)
    requires WellFormed(g, t)
    ensures |t.below| < g.maxDepth
    ensures t.top.state == EatWs || InComment(t.top.state) ==> Awaited(t.top.saved)
    ensures t.top.state == StrEscape || t.top.state == EscapeUnicode ==> InText(t.top.saved)
  {}

  lemma ScalarsFit(g: Config, depth: nat)
    requires depth < g.maxDepth
    ensures FitsAt(g, JDouble(INF_TEXT), depth) && FitsAt(g, JDouble(NEG_INF_TEXT), depth) &&
      FitsAt(g, JBool(true), depth) &&
            FitsAt(g, JBool(false), depth)
  {}

  lemma NullPassSane(g: Config, t: Tok, input: bytes, i: nat)
    requires WellFormed(g, t) && i < |input| && TokSane(g, t, input, i) && t.top.state == NullLit
    ensures PassSane(g, input, i, Step(g, t, input, i))
  {
    hide Matches, NumberSane, MarksDouble, Step;
    StepAtLiteral(g, t, input, i);
    FitsOnItsOwn(g, t);
  }

  lemma TextPassSane(g: Config, t: Tok, input: bytes, i: nat)
    requires WellFormed(g, t) && i < |input| && TokSane(g, t, input, i)
    requires InText(t.top.state) || t.top.state == StrEscape
    ensures PassSane(g, input, i, Step(g, t, input, i))
  {
    hide NumberSane, Step, TokSane, FitsAt, CString;
    KeyIsNone(g, t);
    StepAtText(g, t, input, i);
    TopFits(g, t, input, i);
    var o := Step(g, t, input, i);
    if o.Advance? {
      if o.t.top.state == EatWs {
        if t.top.state == Str { StringFits(g, t.pb, |t.below|); } else { KeyIsCString(g, t, input, i); }
        TextEndsSane(g, t, input, i, o.t);
      } else {
        SameValues(g, t, input, i, o.t, i + 1);
      }
    }
  }

  lemma StringFits(g: Config, s: bytes, depth: nat)
    ensures depth < g.maxDepth ==> FitsAt(g, JString(s), depth)
  {}

  lemma KeyIsCString(g: Config, t: Tok, input: bytes, i: nat)
    requires TokSane(g, t, input, i)
    ensures FitsAt(g, t.top.current, |t.below|) && NUL !in CString(t.pb)
  {}

  lemma TextEndsSane(g: Config, t: Tok, input: bytes, i: nat, t': Tok)
    requires TokSane(g, t, input, i) && t'.below == t.below && t'.top.state == EatWs &&
      FitsAt(g, t'.top.current, |t.below|)
    requires t'.top.key == t.top.key || (t'.top.key.Some? && NUL !in t'.top.key.value)
    ensures TokSane(g, t', input, i + 1)
  {
    hide FitsAt, NumberSane;
  }

  lemma BlankPassSane(g: Config, t: Tok, input: bytes, i: nat)
    requires WellFormed(g, t) && i < |input| && TokSane(g, t, input, i)
    requires t.top.state == EatWs || InComment(t.top.state)
    ensures PassSane(g, input, i, Step(g, t, input, i))
  {
    hide FitsAt, NumberSane, Step, TokSane, WellFormed, IsSpace;
    KeyIsNone(g, t);
    TopFits(g, t, input, i);
    var o := Step(g, t, input, i);
    if t.top.state == EatWs {
      StepAtBlank(g, t, input, i);
    } else {
      StepAtComment(g, t, input, i);
    }
    if o.Redo? { SameValues(g, t, input, i, o.t, i); } else if o.Advance? { SameValues(g, t, input, i, o.t, i + 1); }
  }

  lemma StartPassSane(g: Config, t: Tok, input: bytes, i: nat)
    requires WellFormed(g, t) && i < |input| && TokSane(g, t, input, i) && t.top.state == Start
    ensures PassSane(g, input, i, Step(g, t, input, i))
  {
    hide Step, FitsAt, NumberSane;
    KeyIsNone(g, t);
    hide WellFormed;
    StepAtStart(g, t, input, i);
    TopFits(g, t, input, i);
    EmptyFits(g, |t.below|);
    var o := StepStart(g, t, input[i]);
    if o.Redo? && o.t.top.state == Number { NumberBegins(o.t, input, i); }
  }

  lemma NumberBegins(t: Tok, input: bytes, i: nat)
    requires i < |input| && (IsDigit(input[i]) || input[i] == MINUS) && t.pb == [] && !t.isDouble
    ensures NumberSane(t, input, i)
  {}

  lemma EmptyFits(g: Config, depth: nat)
    ensures depth < g.maxDepth ==> FitsAt(g, JArray([]), depth) && FitsAt(g, JObject([]), depth)
  {}

  /** A new level above the top. */
  lemma PushSane(g: Config, t: Tok, input: bytes, i: nat, s: State)
    requires TokSane(g, t, input, i) && |t.below| + 1 < g.maxDepth
    ensures TokSane(g, Push(t, s), input, i)
  {
    hide FitsAt, NumberSane;
    NullFits(g, |t.below| + 1);
  }

  lemma ArrayPassSane(g: Config, t: Tok, input: bytes, i: nat)
    requires WellFormed(g, t) && i < |input| && TokSane(g, t, input, i)
    requires t.top.state == Array || t.top.state == ArrayAfterSep || t.top.state == ArraySep
    ensures PassSane(g, input, i, Step(g, t, input, i))
  {
    hide FitsAt, NumberSane, Push, Step;
    FitsOnItsOwn(g, t);
    StepAtItem(g, t, input, i);
    if t.top.state == ArraySep {
    } else if input[i] != RBRACKET && |t.below| + 1 < g.maxDepth {
      PushSane(g, t, input, i, ArrayAdd);
    }
  }

  lemma ObjectPassSane(g: Config, t: Tok, input: bytes, i: nat)
    requires WellFormed(g, t) && i < |input| && TokSane(g, t, input, i)
    requires match t.top.state
             case ObjectFieldStart | ObjectFieldStartAfterSep | ObjectFieldEnd | ObjectValue | ObjectSep => true
             case _ => false
    ensures PassSane(g, input, i, Step(g, t, input, i))
  {
    hide FitsAt, NumberSane, Push, Step;
    FitsOnItsOwn(g, t);
    StepAtMember(g, t, input, i);
    if t.top.state == ObjectValue {
      if |t.below| + 1 < g.maxDepth { PushSane(g, t, input, i, ObjectValueAdd); }
    } else if t.top.state == ObjectFieldEnd {
    } else if t.top.state == ObjectSep {
    } else {
    }
  }

  // ---------------------------------------------------------------- whole calls

  lemma {:induction false} RunSane(g: Config, t: Tok, input: bytes, i: nat)
    requires WellFormed(g, t) && i <= |input| && TokSane(g, t, input, i)
    ensures var r := Run(g, t, input, i); r.err == Success ==> FitsAt(g, r.value, 0)
    decreases |input| - i, Rank(t)
  {
    hide Step, Shape, NumberSane, Printable;
    if i < |input| {
      StepKeeps(g, t, input, i);
      StepSane(g, t, input, i);
      match Step(g, t, input, i)
      case Advance(t', n) => if input[i] != NUL { RunSane(g, t', input, i + n); }
      case Redo(t') => RunSane(g, t', input, i);
      case Halt(t', e, n) =>
    }
  }

  /**
   Whatever text is accepted, printing the value and parsing it again, in any layout and in either mode, gives the
   value back, unless a negative infinity stands where it cannot be read.
   */
  lemma ParsedValueReparses(g: Config, t: Tok, text: bytes, h: Config, u: Tok, f: Flags)
    requires WellFormed(g, t) && Idle(t) && t.below == [] && t.top == CLEAN
    requires h.maxDepth == g.maxDepth && h.isDoubleText == g.isDoubleText
    requires WellFormed(h, u) && Idle(u) && u.below == [] && u.top == CLEAN
    requires ParseEx(g, t, text).err == Success
    ensures var v := ParseEx(g, t, text).value; var r := ParseEx(h, u, Print(v, 0, f) + [NUL]);
      if InfinityReadable(DocOf(v, 0, f), u.stPos == 0) then r.err == Success && r.value == v
        else r.err == ErrUnexpected
  {
    RunSane(g, t, text, 0);
    hide Run, DocOf, InfinityReadable, Print, WellFormed, Printable;
    PrintedIsReadBackExactlyWhen(h, u, ParseEx(g, t, text).value, f);
  }

  /**
   A value, any value, comes back from its printed text exactly when it is printable, the stack has room for it and no
   negative infinity is printed behind something that moves the position: a key with a NUL, a key that occurs twice,
   an integer beyond 64 bits or one level too many is never read back as it was.
   */
  lemma RoundTripsExactlyWhen(g: Config, t: Tok, v: Json, f: Flags)
    requires WellFormed(g, t) && Idle(t) && t.below == [] && t.top == CLEAN
    ensures var r := ParseEx(g, t, Print(v, 0, f) + [NUL]);
      r.err == Success && r.value == v <==>
        Printable(v, g.isDoubleText) && Height(v) < g.maxDepth && InfinityReadable(DocOf(v, 0, f), t.stPos == 0)
  {
    RunSane(g, t, Print(v, 0, f) + [NUL], 0);
    hide Run, DocOf, InfinityReadable, Print, WellFormed, Printable, Height;
    if Printable(v, g.isDoubleText) {
      PrintedIsReadBackExactlyWhen(g, t, v, f);
    }
  }

  /** `[null,-Infinity]` NUL */
  const STALE_TEXT: bytes := [LBRACKET] + NULL_TEXT + [COMMA] + NEG_INF_TEXT + [RBRACKET, NUL]

  /** The print of the array of null and negative infinity is refused, though negative infinity alone is read back. */
  lemma InfinityBehindNull(g: Config)
    requires g.maxDepth >= 2
    ensures WellFormed(g, NEW) && ParseEx(g, NEW, STALE_TEXT).err == ErrUnexpected
    ensures Print(JArray([JNull, JDouble(NEG_INF_TEXT)]), 0, Flags(false, false)) + [NUL] == STALE_TEXT
    ensures ParseEx(g, NEW, NEG_INF_TEXT + [NUL]).value == JDouble(NEG_INF_TEXT)
  {
    hide Run;
    var v, f, x := JArray([JNull, JDouble(NEG_INF_TEXT)]), Flags(false, false), JDouble(NEG_INF_TEXT);
    assert WellFormed(g, NEW);
    StaleIsPrinted();
    StaleIsUnreadable(g);
    PrintedIsReadBackExactlyWhen(g, NEW, v, f);
    PrintedIsReadBackExactlyWhen(g, NEW, x, f);
  }

  lemma StaleIsPrinted()
    ensures Print(JArray([JNull, JDouble(NEG_INF_TEXT)]), 0, Flags(false, false)) + [NUL] == STALE_TEXT
  {
    var v, f := JArray([JNull, JDouble(NEG_INF_TEXT)]), Flags(false, false);
    assert PrintItems(v, v.items, 2, 0, f) == [];
    assert PrintItems(v, v.items, 1, 0, f) == [COMMA] + NEG_INF_TEXT;
    assert PrintItems(v, v.items, 0, 0, f) == NULL_TEXT + ([COMMA] + NEG_INF_TEXT);
  }

  lemma StaleIsUnreadable(g: Config)
    requires g.maxDepth >= 2
    ensures var v := JArray([JNull, JDouble(NEG_INF_TEXT)]);
      Printable(v, g.isDoubleText) && Height(v) < g.maxDepth &&
        !InfinityReadable(DocOf(v, 0, Flags(false, false)), true)
  {
    var v, f := JArray([JNull, JDouble(NEG_INF_TEXT)]), Flags(false, false);
    assert ItemsHeight(v, v.items, 0) == 0 && ItemsHeight(v, v.items, 1) == 1 && ItemsHeight(v, v.items, 2) == 1;
    var d := DocOf(v, 0, f);
    ItemAt(v, v.items, 0, 0, 0, f);
    ItemAt(v, v.items, 0, 1, 0, f);
    assert !ItemsReadable(d, d.items, 1, false);
  }
}
