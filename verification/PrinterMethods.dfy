/** The printers as they work on an output buffer (json_object.c), with the loops of the original. */
module PrinterMethods {
  import opened Bytes
  import opened JsonValue
  import opened Numbers
  import opened Printer
  import PrintBuf

  type Buf = PrintBuf.PrintBuf

  lemma {:induction false} EscapeAppend(a: bytes, b: bytes)
    ensures Escape(a + b) == Escape(a) + Escape(b)
  {
    hide EscapeByte;
    if a == [] {
      assert a + b == b;
    } else {
      var head := EscapeByte(a[0]);
      EscapeAppend(a[1..], b);
      assert (a + b)[1..] == a[1..] + b;
      assert head + (Escape(a[1..]) + Escape(b)) == (head + Escape(a[1..])) + Escape(b);
    }
  }

  lemma EscapeOne(c: byte)
    ensures Escape([c]) == EscapeByte(c)
  {
    assert [c][1..] == [];
  }

  predicate ShortEscape(c: byte) {
    c == BACKSPACE || c == NEWLINE || c == RETURN || c == TAB || c == FORMFEED || c == DQUOTE || c == BACKSLASH ||
      c == SLASH
  }

  /** `json_escape_str`: stretches of plain bytes are copied when an escape or the end comes up. */
  method EscapeStr(pb: Buf, str: bytes)
    requires pb.Valid()
    modifies pb, pb.buf
    ensures pb.Valid() && (pb.buf == old(pb.buf) || fresh(pb.buf)) && pb.Contents() == old(pb.Contents()) + Escape(str)
  {
    hide Escape, EscapeByte;
    ghost var was := pb.Contents();
    var pos, start := 0, 0;
    EscapeNothing();
    while pos < |str|
      invariant start <= pos <= |str| && pb.Valid() && (pb.buf == old(pb.buf) || fresh(pb.buf))
      invariant pb.Contents() + str[start..pos] == was + Escape(str[..pos])
    {
      var c := str[pos];
      ghost var before := pb.Contents();
      EscapeNext(was, before, str, start, pos);
      if ShortEscape(c) || c < SPACE {
        if pos - start > 0 { pb.MemAppend(str[start..pos]); }
        assert pb.Contents() == before + str[start..pos];
        AppendEscape(pb, c);
        pos := pos + 1;
        start := pos;
        assert str[start..pos] == [];
      } else {
        PlainByte(c);
        pos := pos + 1;
      }
    }
    assert str[..pos] == str;
    if pos - start > 0 { pb.MemAppend(str[start..pos]); }
  }

  lemma EscapeNothing()
    ensures Escape([]) == []
  {}

  lemma PlainByte(c: byte)
    requires !ShortEscape(c) && c >= SPACE
    ensures EscapeByte(c) == [c]
  {}

  lemma EscapeNext(was: bytes, now: bytes, str: bytes, start: nat, pos: nat)
    requires start <= pos < |str| && now + str[start..pos] == was + Escape(str[..pos])
    ensures now + str[start..pos] + EscapeByte(str[pos]) == was + Escape(str[..pos + 1])
    ensures now + str[start..pos + 1] == now + str[start..pos] + [str[pos]]
  {
    hide EscapeByte;
    EscapeAppend(str[..pos], [str[pos]]);
    EscapeOne(str[pos]);
    assert str[..pos + 1] == str[..pos] + [str[pos]];
    assert str[start..pos + 1] == str[start..pos] + [str[pos]];
    assert now + str[start..pos] + EscapeByte(str[pos]) == was + (Escape(str[..pos]) + EscapeByte(str[pos]));
  }

  /** The switch over the characters that are escaped. */
  method AppendEscape(pb: Buf, c: byte)
    requires pb.Valid() && (ShortEscape(c) || c < SPACE)
    modifies pb, pb.buf
    ensures pb.Valid() && (pb.buf == old(pb.buf) || fresh(pb.buf)) &&
      pb.Contents() == old(pb.Contents()) + EscapeByte(c)
  {
    if c == BACKSPACE { pb.MemAppend([BACKSLASH, LOWER_B]); }
    else if c == NEWLINE { pb.MemAppend([BACKSLASH, LOWER_N]); }
    else if c == RETURN { pb.MemAppend([BACKSLASH, LOWER_R]); }
    else if c == TAB { pb.MemAppend([BACKSLASH, LOWER_T]); }
    else if c == FORMFEED { pb.MemAppend([BACKSLASH, LOWER_F]); }
    else if c == DQUOTE { pb.MemAppend([BACKSLASH, DQUOTE]); }
    else if c == BACKSLASH { pb.MemAppend([BACKSLASH, BACKSLASH]); }
    else if c == SLASH { pb.MemAppend([BACKSLASH, SLASH]); }
    else { pb.MemAppend([BACKSLASH, LOWER_U, ZERO, ZERO, HexChar(c / 16), HexChar(c % 16)]); }
  }

  /** The buffer grew by `s`, in place or in a new block. */
  twostate predicate Added(pb: Buf, s: bytes)
    reads pb, pb.buf
    requires old(pb.Valid())
  {
    pb.Valid() && (pb.buf == old(pb.buf) || fresh(pb.buf)) && pb.Contents() == old(pb.Contents()) + s
  }

  /** `indent` */
  method IndentTo(pb: Buf, level: nat, f: Flags)
    requires pb.Valid()
    modifies pb, pb.buf
    ensures Added(pb, Indent(level, f))
    ensures |pb.Contents()| == |old(pb.Contents())| + if f.pretty then 2 * level else 0
    ensures forall k | |old(pb.Contents())| <= k < |pb.Contents()| :: pb.Contents()[k] == 0x20
  {
    if f.pretty {
      pb.MemSet(-1, SPACE, level * 2);
      assert PrintBuf.Fill(SPACE, level * 2) == Spaces(2 * level);
    }
  }

  /** What separates an element from the one before it. */
  method PrintLead(pb: Buf, hadChildren: bool, level: nat, f: Flags)
    requires pb.Valid()
    modifies pb, pb.buf
    ensures Added(pb, Lead(!hadChildren, level, f))
  {
    hide Indent;
    ghost var was := pb.Contents();
    if hadChildren {
      pb.MemAppend([COMMA]);
      if f.pretty { pb.MemAppend([NEWLINE]); }
    }
    ghost var first := if hadChildren then [COMMA] + Break(f) else [];
    assert pb.Contents() == was + first;
    if f.spaced { pb.MemAppend([SPACE]); }
    ghost var second := if f.spaced then [SPACE] else [];
    assert pb.Contents() == was + (first + second);
    IndentTo(pb, level + 1, f);
    Regroup(was, first + second, Indent(level + 1, f));
  }

  /** The end of a container: a last line break, the indentation, and the bracket. */
  method PrintTrail(pb: Buf, hadChildren: bool, level: nat, f: Flags, bracket: byte)
    requires pb.Valid()
    modifies pb, pb.buf
    ensures Added(pb, Trail(!hadChildren, level, f) + [bracket]) && pb.Terminated()
  {
    hide Indent;
    ghost var was, first := pb.Contents(), if hadChildren then Break(f) else [];
    if f.pretty {
      if hadChildren { pb.MemAppend([NEWLINE]); } else { assert was + [] == was; }
      IndentTo(pb, level, f);
      Regroup(was, first, Indent(level, f));
    } else {
      NoIndent(was, level, f);
    }
    ghost var end := if f.spaced then [SPACE, bracket] else [bracket];
    if f.spaced { pb.MemAppend([SPACE, bracket]); } else { pb.MemAppend([bracket]); }
    Regroup(was, first + Indent(level, f), end);
    assert Trail(!hadChildren, level, f) + [bracket] == first + Indent(level, f) + end;
  }

  lemma NoIndent(was: bytes, level: nat, f: Flags)
    requires !f.pretty
    ensures Break(f) == [] && [] + Indent(level, f) == [] && was + [] == was
  {}

  method PrintKey(pb: Buf, key: bytes, f: Flags)
    requires pb.Valid()
    modifies pb, pb.buf
    ensures Added(pb, QuoteKey(key, f))
  {
    hide Escape;
    ghost var was := pb.Contents();
    pb.MemAppend([DQUOTE]);
    EscapeStr(pb, CString(key));
    Regroup(was, [DQUOTE], Escape(CString(key)));
    ghost var end := if f.spaced then [DQUOTE, COLON, SPACE] else [DQUOTE, COLON];
    if f.spaced { pb.MemAppend([DQUOTE, COLON, SPACE]); } else { pb.MemAppend([DQUOTE, COLON]); }
    Regroup(was, [DQUOTE] + Escape(CString(key)), end);
    assert QuoteKey(key, f) == [DQUOTE] + Escape(CString(key)) + end;
  }

  method PrintText(pb: Buf, s: bytes)
    requires pb.Valid()
    modifies pb, pb.buf
    ensures Added(pb, [DQUOTE] + Escape(s) + [DQUOTE]) && pb.Terminated()
  {
    hide Escape;
    ghost var was := pb.Contents();
    pb.MemAppend([DQUOTE]);
    EscapeStr(pb, s);
    Regroup(was, [DQUOTE], Escape(s));
    pb.MemAppend([DQUOTE]);
    Regroup(was, [DQUOTE] + Escape(s), [DQUOTE]);
  }

  /** `_to_json_string` of a value, NULL included. */
  method PrintValue(pb: Buf, v: Json, level: nat, f: Flags)
    requires pb.Valid()
    modifies pb, pb.buf
    ensures Added(pb, Print(v, level, f)) && pb.Terminated()
    decreases v, 1
  {
    match v
    case JNull => pb.MemAppend(NULL_TEXT);
    case JBool(b) => pb.MemAppend(if b then TRUE_TEXT else FALSE_TEXT);
    case JInt(n) => pb.MemAppend(PrintInt(n));
    case JDouble(lexeme) => pb.MemAppend(lexeme);
    case JString(s) => PrintText(pb, s);
    case JArray(items) => PrintArray(pb, v, items, level, f);
    case JObject(members) => PrintObject(pb, v, members, level, f);
  }

  /** One turn of the loop over the elements. */
  method PrintItem(pb: Buf, v: Json, hadChildren: bool, level: nat, f: Flags)
    requires pb.Valid()
    modifies pb, pb.buf
    ensures Added(pb, Lead(!hadChildren, level, f) + Print(v, level + 1, f))
    decreases v, 2
  {
    hide Print, Lead;
    ghost var was := pb.Contents();
    PrintLead(pb, hadChildren, level, f);
    PrintValue(pb, v, level + 1, f);
    Regroup(was, Lead(!hadChildren, level, f), Print(v, level + 1, f));
  }

  /** One turn of the loop over the members. */
  method PrintMember(pb: Buf, key: bytes, v: Json, hadChildren: bool, level: nat, f: Flags)
    requires pb.Valid()
    modifies pb, pb.buf
    ensures Added(pb, Lead(!hadChildren, level, f) + QuoteKey(key, f) + Print(v, level + 1, f))
    decreases v, 2
  {
    hide Print, Lead, QuoteKey;
    ghost var was := pb.Contents();
    PrintLead(pb, hadChildren, level, f);
    PrintKey(pb, key, f);
    Regroup(was, Lead(!hadChildren, level, f), QuoteKey(key, f));
    PrintValue(pb, v, level + 1, f);
    Regroup(was, Lead(!hadChildren, level, f) + QuoteKey(key, f), Print(v, level + 1, f));
  }

  /** The opening bracket, and the line break behind it in the pretty layout. */
  method PrintOpen(pb: Buf, bracket: byte, f: Flags)
    requires pb.Valid()
    modifies pb, pb.buf
    ensures Added(pb, [bracket] + Break(f))
  {
    ghost var was := pb.Contents();
    pb.MemAppend([bracket]);
    if f.pretty {
      pb.MemAppend([NEWLINE]);
      Regroup(was, [bracket], [NEWLINE]);
    } else {
      assert [bracket] + [] == [bracket];
    }
  }

  /** `json_object_array_to_json_string` */
  method PrintArray(pb: Buf, v: Json, items: seq<Json>, level: nat, f: Flags)
    requires pb.Valid() && v == JArray(items)
    modifies pb, pb.buf
    ensures Added(pb, Print(v, level, f)) && pb.Terminated()
    decreases v, 0
  {
    hide Print, Lead, Trail, Break, PrintItems;
    ghost var was, all := pb.Contents(), PrintItems(v, items, 0, level, f);
    PrintOpen(pb, LBRACKET, f);
    ghost var open := [LBRACKET] + Break(f);
    var hadChildren := false;
    for i := 0 to |items|
      invariant pb.Valid() && (pb.buf == old(pb.buf) || fresh(pb.buf)) && hadChildren == (i > 0)
      invariant pb.Contents() + PrintItems(v, items, i, level, f) == was + open + all
    {
      ghost var now, rest := pb.Contents(), PrintItems(v, items, i + 1, level, f);
      ItemsUnfold(v, items, i, level, f);
      PrintItem(pb, items[i], hadChildren, level, f);
      hadChildren := true;
      Regroup(now, Lead(i == 0, level, f) + Print(items[i], level + 1, f), rest);
    }
    ItemsUnfold(v, items, |items|, level, f);
    PrintTrail(pb, hadChildren, level, f, RBRACKET);
    Closed(was, open, all, Trail(items == [], level, f), [RBRACKET]);
    PrintedArray(v, items, level, f);
  }

  lemma ItemsUnfold(v: Json, items: seq<Json>, i: nat, level: nat, f: Flags)
    requires v == JArray(items) && i <= |items|
    ensures PrintItems(v, items, i, level, f) ==
      if i == |items| then []
      else
        Lead(i == 0, level, f) + Print(items[i], level + 1, f) + PrintItems(v, items, i + 1, level, f)
  {
    hide Print, Lead;
  }

  lemma MembersUnfold(v: Json, members: seq<(bytes, Json)>, i: nat, level: nat, f: Flags)
    requires v == JObject(members) && i <= |members|
    ensures PrintMembers(v, members, i, level, f) ==
      if i == |members| then []
      else
        Lead(i == 0, level, f) + QuoteKey(members[i].0, f) + Print(members[i].1, level + 1, f) +
        PrintMembers(v, members, i + 1, level, f)
  {
    hide Print, Lead, QuoteKey;
  }

  lemma PrintedArray(v: Json, items: seq<Json>, level: nat, f: Flags)
    requires v == JArray(items)
    ensures Print(v, level, f) == [LBRACKET] + Break(f) + PrintItems(v, items, 0, level, f) +
      (Trail(items == [], level, f) + [RBRACKET])
  {
    hide PrintItems, Trail, Break;
  }

  lemma PrintedObject(v: Json, members: seq<(bytes, Json)>, level: nat, f: Flags)
    requires v == JObject(members)
    ensures Print(v, level, f) == [LBRACE] + Break(f) + PrintMembers(v, members, 0, level, f) +
      (Trail(members == [], level, f) + [RBRACE])
  {
    hide PrintMembers, Trail, Break;
  }

  lemma Regroup(now: bytes, a: bytes, rest: bytes)
    ensures now + a + rest == now + (a + rest)
  {}

  lemma Closed(was: bytes, open: bytes, all: bytes, trail: bytes, bracket: bytes)
    ensures was + open + all + (trail + bracket) == was + (open + all + (trail + bracket))
    ensures was + open + all + [] == was + open + all
  {}

  /** `json_object_object_to_json_string` */
  method PrintObject(pb: Buf, v: Json, members: seq<(bytes, Json)>, level: nat, f: Flags)
    requires pb.Valid() && v == JObject(members)
    modifies pb, pb.buf
    ensures Added(pb, Print(v, level, f)) && pb.Terminated()
    decreases v, 0
  {
    hide Print, Lead, Trail, Break, QuoteKey, PrintMembers;
    ghost var was, all := pb.Contents(), PrintMembers(v, members, 0, level, f);
    PrintOpen(pb, LBRACE, f);
    ghost var open := [LBRACE] + Break(f);
    var hadChildren := false;
    for i := 0 to |members|
      invariant pb.Valid() && (pb.buf == old(pb.buf) || fresh(pb.buf)) && hadChildren == (i > 0)
      invariant pb.Contents() + PrintMembers(v, members, i, level, f) == was + open + all
    {
      ghost var now, rest := pb.Contents(), PrintMembers(v, members, i + 1, level, f);
      MembersUnfold(v, members, i, level, f);
      PrintMember(pb, members[i].0, members[i].1, hadChildren, level, f);
      hadChildren := true;
      Regroup(now, Lead(i == 0, level, f) + QuoteKey(members[i].0, f) + Print(members[i].1, level + 1, f), rest);
    }
    MembersUnfold(v, members, |members|, level, f);
    PrintTrail(pb, hadChildren, level, f, RBRACE);
    Closed(was, open, all, Trail(members == [], level, f), [RBRACE]);
    PrintedObject(v, members, level, f);
  }

  /** `json_object_to_json_string_ext` for a value that is not NULL: its buffer is emptied and printed to. */
  method ToJsonString(pb: Buf, v: Json, f: Flags) returns (text: bytes)
    requires pb.Valid() && pb.buf.Length > 0
    modifies pb, pb.buf
    ensures text == Print(v, 0, f)
    ensures pb.Valid() && pb.Contents() == text && pb.Terminated()
  {
    pb.Reset();
    PrintValue(pb, v, 0, f);
    text := pb.buf[..pb.bpos];
  }
}
