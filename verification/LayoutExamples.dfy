/** Texts written out: a nested value in each layout, and the escape of every byte. */
module LayoutExamples {
  import opened Bytes
  import opened JsonValue
  import opened Numbers
  import opened Printer

  /** `{"a":[1,{}],"b":"x/y"}` */
  const NESTED := JObject([([0x61], JArray([JInt(1), JObject([])])), ([0x62], JString([0x78, 0x2F, 0x79]))])

  /** `{"a":[1,{}],"b":"x\/y"}` */
  const PLAIN: bytes := [123] + PLAIN_FIRST + PLAIN_SECOND + [125]

  const PLAIN_FIRST: bytes := [34, 97, 34, 58] + PLAIN_LIST

  const PLAIN_LIST: bytes :=
    [91, 49, 44, 123, 125, 93]

  const PLAIN_SECOND: bytes :=
    [44, 34, 98, 34, 58, 34, 120, 92, 47, 121, 34]

  /** `{ "a": [ 1, { } ], "b": "x\/y" }` */
  const SPACED: bytes := [123] + SPACED_FIRST + SPACED_SECOND + [32, 125]

  const SPACED_FIRST: bytes := [32, 34, 97, 34, 58, 32] + SPACED_LIST

  const SPACED_LIST: bytes :=
    [91, 32, 49, 44, 32, 123, 32, 125, 32, 93]

  const SPACED_SECOND: bytes :=
    [44, 32, 34, 98, 34, 58, 32, 34, 120, 92, 47, 121, 34]

  /** A line for each element, with two blanks for each open container. */
  const PRETTY: bytes := [123, 10] + PRETTY_FIRST + PRETTY_SECOND + [10, 125]

  const PRETTY_FIRST: bytes := [32, 32, 34, 97, 34, 58] + PRETTY_LIST

  const PRETTY_LIST: bytes :=
    [91, 10, 32, 32, 32, 32, 49, 44, 10, 32, 32, 32, 32, 123, 10, 32, 32, 32, 32, 125, 10, 32, 32, 93]

  const PRETTY_SECOND: bytes :=
    [44, 10, 32, 32, 34, 98, 34, 58, 34, 120, 92, 47, 121, 34]

  /** The same, with one blank more in front of each element and bracket and behind each colon. */
  const BOTH: bytes := [123, 10] + BOTH_FIRST + BOTH_SECOND + [10, 32, 125]

  const BOTH_FIRST: bytes := [32, 32, 32, 34, 97, 34, 58, 32] + BOTH_LIST

  const BOTH_LIST: bytes :=
    [91, 10, 32, 32, 32, 32, 32, 49, 44, 10, 32, 32, 32, 32, 32, 123, 10, 32, 32, 32, 32, 32, 125, 10, 32, 32, 32, 93]

  const BOTH_SECOND: bytes :=
    [44, 10, 32, 32, 32, 34, 98, 34, 58, 32, 34, 120, 92, 47, 121, 34]

  /** `\b`, `\t`, `\n`, `\f` and `\r` for five of the control characters, `\u00` and two digits for the others. */
  const CONTROL_ESCAPES: seq<bytes> := [
    [92, 117, 48, 48, 48, 48], [92, 117, 48, 48, 48, 49], [92, 117, 48, 48, 48, 50], [92, 117, 48, 48, 48, 51],
    [92, 117, 48, 48, 48, 52], [92, 117, 48, 48, 48, 53], [92, 117, 48, 48, 48, 54], [92, 117, 48, 48, 48, 55],
    [92, 98], [92, 116], [92, 110], [92, 117, 48, 48, 48, 98], [92, 102], [92, 114], [92, 117, 48, 48, 48, 101],
    [92, 117, 48, 48, 48, 102], [92, 117, 48, 48, 49, 48], [92, 117, 48, 48, 49, 49], [92, 117, 48, 48, 49, 50],
    [92, 117, 48, 48, 49, 51], [92, 117, 48, 48, 49, 52], [92, 117, 48, 48, 49, 53], [92, 117, 48, 48, 49, 54],
    [92, 117, 48, 48, 49, 55], [92, 117, 48, 48, 49, 56], [92, 117, 48, 48, 49, 57], [92, 117, 48, 48, 49, 97],
    [92, 117, 48, 48, 49, 98], [92, 117, 48, 48, 49, 99], [92, 117, 48, 48, 49, 100], [92, 117, 48, 48, 49, 101],
    [92, 117, 48, 48, 49, 102]]

  /** The escape of each byte. */
  lemma EscapesAre(c: byte)
    ensures EscapeByte(c) ==
      if c < 32 then CONTROL_ESCAPES[c]
      else if c == 0x22 || c == 0x2F || c == 0x5C then [0x5C, c]
      else [c]
  {
    if c < 32 {
      assert c / 16 == 0 || c / 16 == 1;
    }
  }

  // ---------------------------------------------------------------- the nested value

  lemma OneIs()
    ensures PrintInt(1) == [0x31]
  {}

  lemma NamesAre()
    ensures CString([0x61]) == [0x61] && CString([0x62]) == [0x62]
    ensures Escape([0x61]) == [0x61] && Escape([0x62]) == [0x62]
    ensures Escape([0x78, 0x2F, 0x79]) == [0x78, 0x5C, 0x2F, 0x79]
  {
    assert [0x61][1..] == [] && [0x62][1..] == [];
    assert [0x78, 0x2F, 0x79][1..] == [0x2F, 0x79] && [0x2F, 0x79][1..] == [0x79] && [0x79][1..] == [];
  }

  /** The texts of the two members. */
  lemma PartsAre(f: Flags)
    ensures Print(JObject([]), 2, f) == [LBRACE] + Break(f) + Trail(true, 2, f) + [RBRACE]
    ensures Print(JArray([JInt(1), JObject([])]), 1, f) ==
      [LBRACKET] + Break(f) +
      (Lead(true, 1, f) + [0x31] + (Lead(false, 1, f) + ([LBRACE] + Break(f) + Trail(true, 2, f) + [RBRACE]))) +
      Trail(false, 1, f) + [RBRACKET]
    ensures Print(JString([0x78, 0x2F, 0x79]), 1, f) == [0x22, 0x78, 0x5C, 0x2F, 0x79, 0x22]
  {
    hide PrintInt, Escape, Lead, Trail, Break;
    OneIs();
    NamesAre();
    var none: seq<(bytes, Json)> := [];
    var empty := JObject(none);
    assert PrintMembers(empty, none, 0, 2, f) == [];
    assert [LBRACE] + Break(f) + [] == [LBRACE] + Break(f);
    var items := [JInt(1), empty];
    var v := JArray(items);
    assert PrintItems(v, items, 2, 1, f) == [];
    assert PrintItems(v, items, 1, 1, f) == Lead(false, 1, f) + Print(empty, 2, f) + [];
    assert PrintItems(v, items, 0, 1, f) ==
      Lead(true, 1, f) + Print(JInt(1), 2, f) + PrintItems(v, items, 1, 1, f);
  }

  /** The first member with what is in front of it. */
  function FirstMember(f: Flags): bytes {
    Lead(true, 0, f) + ([0x22, 0x61, 0x22, 0x3A] + Colon(f)) + Print(JArray([JInt(1), JObject([])]), 1, f)
  }

  function SecondMember(f: Flags): bytes {
    Lead(false, 0, f) + ([0x22, 0x62, 0x22, 0x3A] + Colon(f)) + Print(JString([0x78, 0x2F, 0x79]), 1, f)
  }

  lemma NestedIs(f: Flags)
    ensures Print(NESTED, 0, f) ==
      [LBRACE] + Break(f) + FirstMember(f) + SecondMember(f) + (Trail(false, 0, f) + [RBRACE])
  {
    hide Escape, Lead, Trail, Break;
    NamesAre();
    var members := NESTED.members;
    assert QuoteKey([0x61], f) == [0x22, 0x61, 0x22, 0x3A] + Colon(f);
    assert QuoteKey([0x62], f) == [0x22, 0x62, 0x22, 0x3A] + Colon(f);
    hide QuoteKey, Colon;
    assert PrintMembers(NESTED, members, 2, 0, f) == [];
    assert PrintMembers(NESTED, members, 1, 0, f) == SecondMember(f) + [];
    assert PrintMembers(NESTED, members, 0, 0, f) == FirstMember(f) + PrintMembers(NESTED, members, 1, 0, f);
  }

  function Colon(f: Flags): bytes {
    if f.spaced then [SPACE] else []
  }

  lemma PlainGaps()
    ensures var f := Flags(false, false);
      && Break(f) == [] && Colon(f) == [] && Trail(true, 2, f) == []
      && Lead(true, 0, f) == [] && Lead(false, 0, f) == [44]
      && Lead(true, 1, f) == [] && Lead(false, 1, f) == [44]
      && Trail(false, 1, f) == [] && Trail(false, 0, f) == []
  {}

  lemma PlainList()
    ensures Print(JArray([JInt(1), JObject([])]), 1, Flags(false, false)) == PLAIN_LIST
  {
    hide Print, Lead, Trail, Break, Colon;
    PlainGaps();
    PartsAre(Flags(false, false));
  }

  lemma PlainMembers()
    ensures var f := Flags(false, false); FirstMember(f) == PLAIN_FIRST && SecondMember(f) == PLAIN_SECOND
  {
    hide Print, Lead, Trail, Break, Colon;
    PlainGaps();
    PlainList();
    PartsAre(Flags(false, false));
  }

  lemma PlainText()
    ensures Print(NESTED, 0, Flags(false, false)) == PLAIN
  {
    hide Print, Lead, Trail, Break, Colon, FirstMember, SecondMember;
    PlainGaps();
    PlainMembers();
    NestedIs(Flags(false, false));
  }

  lemma SpacedGaps()
    ensures var f := Flags(true, false);
      && Break(f) == [] && Colon(f) == [32] && Trail(true, 2, f) == [32]
      && Lead(true, 0, f) == [32] && Lead(false, 0, f) == [44, 32]
      && Lead(true, 1, f) == [32] && Lead(false, 1, f) == [44, 32]
      && Trail(false, 1, f) == [32] && Trail(false, 0, f) == [32]
  {}

  lemma SpacedList()
    ensures Print(JArray([JInt(1), JObject([])]), 1, Flags(true, false)) == SPACED_LIST
  {
    hide Print, Lead, Trail, Break, Colon;
    SpacedGaps();
    PartsAre(Flags(true, false));
  }

  lemma SpacedMembers()
    ensures var f := Flags(true, false); FirstMember(f) == SPACED_FIRST && SecondMember(f) == SPACED_SECOND
  {
    hide Print, Lead, Trail, Break, Colon;
    SpacedGaps();
    SpacedList();
    PartsAre(Flags(true, false));
  }

  lemma SpacedText()
    ensures Print(NESTED, 0, Flags(true, false)) == SPACED
  {
    hide Print, Lead, Trail, Break, Colon, FirstMember, SecondMember;
    SpacedGaps();
    SpacedMembers();
    NestedIs(Flags(true, false));
  }

  lemma PrettyGaps()
    ensures var f := Flags(false, true);
      && Break(f) == [10] && Colon(f) == [] && Trail(true, 2, f) == [32, 32, 32, 32]
      && Lead(true, 0, f) == [32, 32] && Lead(false, 0, f) == [44, 10, 32, 32]
      && Lead(true, 1, f) == [32, 32, 32, 32] && Lead(false, 1, f) == [44, 10, 32, 32, 32, 32]
      && Trail(false, 1, f) == [10, 32, 32] && Trail(false, 0, f) == [10]
  {}

  lemma PrettyList()
    ensures Print(JArray([JInt(1), JObject([])]), 1, Flags(false, true)) == PRETTY_LIST
  {
    hide Print, Lead, Trail, Break, Colon;
    PrettyGaps();
    PartsAre(Flags(false, true));
  }

  lemma PrettyMembers()
    ensures var f := Flags(false, true); FirstMember(f) == PRETTY_FIRST && SecondMember(f) == PRETTY_SECOND
  {
    hide Print, Lead, Trail, Break, Colon;
    PrettyGaps();
    PrettyList();
    PartsAre(Flags(false, true));
  }

  lemma PrettyText()
    ensures Print(NESTED, 0, Flags(false, true)) == PRETTY
  {
    hide Print, Lead, Trail, Break, Colon, FirstMember, SecondMember;
    PrettyGaps();
    PrettyMembers();
    NestedIs(Flags(false, true));
  }

  lemma BothGaps()
    ensures var f := Flags(true, true);
      && Break(f) == [10] && Colon(f) == [32] && Trail(true, 2, f) == [32, 32, 32, 32, 32]
      && Lead(true, 0, f) == [32, 32, 32] && Lead(false, 0, f) == [44, 10, 32, 32, 32]
      && Lead(true, 1, f) == [32, 32, 32, 32, 32] && Lead(false, 1, f) == [44, 10, 32, 32, 32, 32, 32]
      && Trail(false, 1, f) == [10, 32, 32, 32] && Trail(false, 0, f) == [10, 32]
  {}

  lemma BothList()
    ensures Print(JArray([JInt(1), JObject([])]), 1, Flags(true, true)) == BOTH_LIST
  {
    hide Print, Lead, Trail, Break, Colon;
    BothGaps();
    PartsAre(Flags(true, true));
  }

  lemma BothMembers()
    ensures var f := Flags(true, true); FirstMember(f) == BOTH_FIRST && SecondMember(f) == BOTH_SECOND
  {
    hide Print, Lead, Trail, Break, Colon;
    BothGaps();
    BothList();
    PartsAre(Flags(true, true));
  }

  lemma BothText()
    ensures Print(NESTED, 0, Flags(true, true)) == BOTH
  {
    hide Print, Lead, Trail, Break, Colon, FirstMember, SecondMember;
    BothGaps();
    BothMembers();
    NestedIs(Flags(true, true));
  }

  /** The four layouts of one value. */
  lemma NestedTexts()
    ensures Print(NESTED, 0, Flags(false, false)) == PLAIN && Print(NESTED, 0, Flags(true, false)) == SPACED
    ensures Print(NESTED, 0, Flags(false, true)) == PRETTY && Print(NESTED, 0, Flags(true, true)) == BOTH
  {
    hide Print;
    PlainText();
    SpacedText();
    PrettyText();
    BothText();
  }
}
