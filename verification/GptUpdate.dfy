/**
 The failsafe update of the partition tables (gpt-utils.cpp): the writes that each stage makes, one by one.
 */
module GptUpdate {
  import opened Bytes
  import opened GptLayout
  import opened GptSwap

  datatype GptState = GptOk | BadSignature | BadCrc
  datatype Stage = Main | Backup | Finalize
  datatype Instance = Primary | Secondary

  /** The disk after each write, and the return code. */
  datatype Writes = Writes(disks: seq<bytes>, code: int)

  // ---------------------------------------------------------------- the four regions

  function HeaderAt(e: Env, d: bytes, g: Instance): (r: nat)
    requires |d| >= 3 * e.blk
    ensures r + e.blk <= |d|
  {
    if g == Primary then e.blk else |d| - e.blk
  }

  function Header(e: Env, d: bytes, g: Instance): (h: bytes)
    requires |d| >= 3 * e.blk
    ensures |h| == e.blk
  {
    Read(d, HeaderAt(e, d, g), e.blk)
  }

  predicate Apart(a: nat, m: nat, b: nat, n: nat) {
    a + m <= b || b + n <= a
  }

  /** Headers of one block, equal entry sizes and counts, and four regions that do not meet. */
  predicate Layout(e: Env, d: bytes) {
    e.blk >= FIELDS_END && |d| >= 3 * e.blk &&
    var p, s := Header(e, d, Primary), Header(e, d, Secondary);
    var len := EntriesSize(p);
    HeaderSize(p) <= e.blk && HeaderSize(s) <= e.blk &&
    EntrySize(p) == EntrySize(s) >= PTN_ENTRY_SIZE && Count(p) == Count(s) && EntriesSize(p) == TableBytes(p) &&
    EntriesStart(e, p) + len <= |d| && EntriesStart(e, s) + len <= |d| &&
    Apart(EntriesStart(e, p), len, EntriesStart(e, s), len) &&
    (forall g ::
      Apart(EntriesStart(e, p), len, HeaderAt(e, d, g), e.blk) &&
      Apart(EntriesStart(e, s), len, HeaderAt(e, d, g), e.blk))
  }

  datatype View = View(p: bytes, s: bytes, pe: bytes, se: bytes)

  /** What the four regions hold. */
  function ViewOf(e: Env, d: bytes): (v: View)
    requires Layout(e, d)
    ensures v.p == Header(e, d, Primary) && v.s == Header(e, d, Secondary) && |v.p| == |v.s| == e.blk >= FIELDS_END
    ensures HeaderSize(v.p) <= |v.p| && HeaderSize(v.s) <= |v.s|
    ensures |v.pe| == |v.se| == EntriesSize(v.p) == TableBytes(v.p) && EntrySize(v.p) >= PTN_ENTRY_SIZE
  {
    hide HeaderSize, EntrySize, Count, EntriesStart, TableBytes, EntriesSize;
    var p, s := Header(e, d, Primary), Header(e, d, Secondary);
    View(p, s, Read(d, EntriesStart(e, p), EntriesSize(p)), Read(d, EntriesStart(e, s), EntriesSize(p)))
  }

  predicate Inside(k: nat, at: nat, len: nat) {
    at <= k < at + len
  }

  predicate InRegions(e: Env, d: bytes, k: nat)
    requires Layout(e, d)
  {
    var p, s := Header(e, d, Primary), Header(e, d, Secondary);
    Inside(k, HeaderAt(e, d, Primary), e.blk) || Inside(k, HeaderAt(e, d, Secondary), e.blk) ||
    Inside(k, EntriesStart(e, p), EntriesSize(p)) || Inside(k, EntriesStart(e, s), EntriesSize(p))
  }

  /** Equal but for the signature and the two CRCs. */
  predicate SameFields(h: bytes, g: bytes) {
    |h| == |g| >= FIELDS_END &&
    forall k | |SIGNATURE| <= k < |h| && !Inside(k, HEADER_CRC_OFFSET, 4) && !Inside(k, PARTITION_CRC_OFFSET, 4) ::
      h[k] == g[k]
  }

  /** The same layout, and the same bytes outside the four regions. */
  predicate SameFrame(e: Env, d: bytes, x: bytes)
    requires Layout(e, d)
  {
    |x| == |d| && SameFields(Header(e, x, Primary), Header(e, d, Primary)) &&
    SameFields(Header(e, x, Secondary), Header(e, d, Secondary)) &&
    forall k: nat | k < |d| && !InRegions(e, d, k) :: x[k] == d[k]
  }

  lemma SameFieldsRead(h: bytes, g: bytes)
    requires SameFields(h, g)
    ensures |h| == |g| >= FIELDS_END
    ensures HeaderSize(h) == HeaderSize(g) && EntrySize(h) == EntrySize(g) && Count(h) == Count(g)
    ensures EntriesSize(h) == EntriesSize(g) && Get8(h, PENTRIES_OFFSET) == Get8(g, PENTRIES_OFFSET)
  {}

  lemma FrameKeepsLayout(e: Env, d: bytes, x: bytes)
    requires Layout(e, d) && SameFrame(e, d, x)
    ensures Layout(e, x)
    ensures forall k: nat :: InRegions(e, x, k) == InRegions(e, d, k)
  {
    hide SameFields;
    SameFieldsRead(Header(e, x, Primary), Header(e, d, Primary));
    SameFieldsRead(Header(e, x, Secondary), Header(e, d, Secondary));
  }

  lemma FrameTransitive(e: Env, d: bytes, x: bytes, y: bytes)
    requires Layout(e, d) && SameFrame(e, d, x) && Layout(e, x) && SameFrame(e, x, y)
    ensures SameFrame(e, d, y)
  {
    hide InRegions, EntriesSize, HeaderSize, EntriesStart, EntrySize, Count;
    FrameKeepsLayout(e, d, x);
    assert SameFields(Header(e, y, Primary), Header(e, d, Primary));
    assert SameFields(Header(e, y, Secondary), Header(e, d, Secondary));
  }

  lemma SameRead(d: bytes, x: bytes, at: nat, len: nat, k: nat)
    requires |d| == |x| && at + len <= |d| && Read(d, at, len) == Read(x, at, len) && Inside(k, at, len)
    ensures d[k] == x[k]
  {
    assert Read(d, at, len)[k - at] == Read(x, at, len)[k - at];
  }

  /** The four regions and the rest make up the disk. */
  lemma ViewDeterminesDisk(e: Env, d: bytes, x: bytes)
    requires Layout(e, d) && SameFrame(e, d, x) && Layout(e, x) && ViewOf(e, d) == ViewOf(e, x)
    ensures d == x
  {
    hide EntriesSize, EntriesStart, HeaderSize, EntrySize, Count, Read, SameFields, Apart, Inside;
    var p, s := Header(e, d, Primary), Header(e, d, Secondary);
    forall k: nat | k < |d| ensures d[k] == x[k] {
      if Inside(k, HeaderAt(e, d, Primary), e.blk) {
        SameRead(d, x, HeaderAt(e, d, Primary), e.blk, k);
      } else if Inside(k, HeaderAt(e, d, Secondary), e.blk) {
        SameRead(d, x, HeaderAt(e, d, Secondary), e.blk, k);
      } else if Inside(k, EntriesStart(e, p), EntriesSize(p)) {
        SameRead(d, x, EntriesStart(e, p), EntriesSize(p), k);
      } else if Inside(k, EntriesStart(e, s), EntriesSize(p)) {
        SameRead(d, x, EntriesStart(e, s), EntriesSize(p), k);
      }
    }
  }

  // ---------------------------------------------------------------- single writes

  function WriteHeader(e: Env, d: bytes, g: Instance, h: bytes): (x: bytes)
    requires Layout(e, d) && SameFields(h, Header(e, d, g))
    ensures |x| == |d|
  {
    Write(d, HeaderAt(e, d, g), h)
  }

  /** The secondary entries array, at the place that the secondary header names. */
  function WriteEntries(e: Env, d: bytes, buf: bytes): (x: bytes)
    requires Layout(e, d) && |buf| == EntriesSize(Header(e, d, Primary))
    ensures |x| == |d|
  {
    Write(d, EntriesStart(e, Header(e, d, Secondary)), buf)
  }

  lemma SameFieldsRefl(h: bytes)
    requires |h| >= FIELDS_END
    ensures SameFields(h, h)
  {}

  lemma WriteElsewhere(d: bytes, off: nat, buf: bytes)
    requires off + |buf| <= |d|
    ensures forall k: nat | k < |d| && !Inside(k, off, |buf|) :: Write(d, off, buf)[k] == d[k]
  {}

  lemma RegionsOf(e: Env, d: bytes, g: Instance)
    requires Layout(e, d)
    ensures e.blk >= FIELDS_END && |d| >= 3 * e.blk
    ensures var p, s, at := Header(e, d, Primary), Header(e, d, Secondary), HeaderAt(e, d, g);
      var len := EntriesSize(p);
      EntriesStart(e, p) + len <= |d| && EntriesStart(e, s) + len <= |d| && at + e.blk <= |d| &&
      Apart(HeaderAt(e, d, Other(g)), e.blk, at, e.blk) && Apart(EntriesStart(e, p), len, at, e.blk) &&
      Apart(EntriesStart(e, s), len, at, e.blk) && Apart(EntriesStart(e, p), len, EntriesStart(e, s), len)
  {}

  function Other(g: Instance): Instance {
    if g == Primary then Secondary else Primary
  }

  lemma RegionsAfterHeader(e: Env, d: bytes, g: Instance, h: bytes)
    requires Layout(e, d) && |h| == e.blk
    ensures var x := Write(d, HeaderAt(e, d, g), h);
      Header(e, x, g) == h && Header(e, x, Other(g)) == Header(e, d, Other(g)) &&
      ViewOf(e, d).pe == Read(x, EntriesStart(e, ViewOf(e, d).p), EntriesSize(ViewOf(e, d).p)) &&
      ViewOf(e, d).se == Read(x, EntriesStart(e, ViewOf(e, d).s), EntriesSize(ViewOf(e, d).p)) &&
      forall k: nat | k < |d| && !Inside(k, HeaderAt(e, d, g), e.blk) :: x[k] == d[k]
  {
    hide Layout, EntriesSize, EntriesStart, Write, Read, Inside;
    RegionsOf(e, d, g);
    var p, s := Header(e, d, Primary), Header(e, d, Secondary);
    var at, len := HeaderAt(e, d, g), EntriesSize(p);
    WriteElsewhere(d, at, h);
    ReadWritten(d, at, h);
    ReadApart(d, at, h, HeaderAt(e, d, Other(g)), e.blk);
    ReadApart(d, at, h, EntriesStart(e, p), len);
    ReadApart(d, at, h, EntriesStart(e, s), len);
  }

  lemma HeaderWritten(e: Env, d: bytes, g: Instance, h: bytes)
    requires Layout(e, d) && SameFields(h, Header(e, d, g))
    ensures var x := WriteHeader(e, d, g, h);
      SameFrame(e, d, x) && Layout(e, x) &&
      ViewOf(e, x) == if g == Primary then ViewOf(e, d).(p := h) else ViewOf(e, d).(s := h)
  {
    hide SameFields, EntriesSize, HeaderSize, EntrySize, Count, Write, Get8, Read;
    var x := WriteHeader(e, d, g, h);
    SameFieldsRead(h, Header(e, d, g));
    RegionsAfterHeader(e, d, g, h);
    SameFieldsRefl(Header(e, d, Other(g)));
    if g == Primary {
      assert SameFrame(e, d, x);
    } else {
      assert SameFrame(e, d, x);
    }
    FrameKeepsLayout(e, d, x);
  }

  lemma RegionsAfterEntries(e: Env, d: bytes, buf: bytes)
    requires Layout(e, d) && |buf| == |ViewOf(e, d).pe|
    ensures var v := ViewOf(e, d);
      EntriesStart(e, v.s) + |buf| <= |d| &&
      var x := Write(d, EntriesStart(e, v.s), buf);
      Header(e, x, Primary) == v.p && Header(e, x, Secondary) == v.s &&
      v.pe == Read(x, EntriesStart(e, v.p), EntriesSize(v.p)) &&
        buf == Read(x, EntriesStart(e, v.s), EntriesSize(v.p)) &&
      forall k: nat | k < |d| && !Inside(k, EntriesStart(e, v.s), |buf|) :: x[k] == d[k]
  {
    hide Layout, EntriesSize, EntriesStart, Write, Read, Inside;
    RegionsOf(e, d, Primary);
    RegionsOf(e, d, Secondary);
    var p, s := Header(e, d, Primary), Header(e, d, Secondary);
    var at, len := EntriesStart(e, s), EntriesSize(p);
    WriteElsewhere(d, at, buf);
    ReadWritten(d, at, buf);
    ReadApart(d, at, buf, HeaderAt(e, d, Primary), e.blk);
    ReadApart(d, at, buf, HeaderAt(e, d, Secondary), e.blk);
    ReadApart(d, at, buf, EntriesStart(e, p), len);
  }

  lemma EntriesWritten(e: Env, d: bytes, buf: bytes)
    requires Layout(e, d) && |buf| == EntriesSize(Header(e, d, Primary))
    ensures var x := WriteEntries(e, d, buf);
      SameFrame(e, d, x) && Layout(e, x) && ViewOf(e, x) == ViewOf(e, d).(se := buf)
  {
    hide SameFields, EntriesSize, HeaderSize, EntrySize, Count, Write, Get8, Read;
    var x := WriteEntries(e, d, buf);
    RegionsAfterEntries(e, d, buf);
    SameFieldsRefl(Header(e, d, Primary));
    SameFieldsRefl(Header(e, d, Secondary));
    FrameKeepsLayout(e, d, x);
  }

  // ---------------------------------------------------------------- headers

  /** `gpt_get_state`: a wrong CRC hides a wrong signature. */
  function GetState(e: Env, h: bytes): GptState
    requires |h| >= FIELDS_END && HeaderSize(h) <= |h|
  {
    if !HeaderCrcOk(e, h) then BadCrc else if !Signed(h) then BadSignature else GptOk
  }

  function Marked(h: bytes, good: bool): (r: bytes)
    requires |h| >= FIELDS_END
    ensures |r| == |h|
  {
    if good then SIGNATURE + h[|SIGNATURE|..] else [NUL] + h[1..]
  }

  /** A good mark is the whole signature, a bad one a NUL in place of its first byte. */
  lemma MarkedBytes(h: bytes, good: bool, k: nat)
    requires |h| >= FIELDS_END && k < |h|
    ensures !good ==> Marked(h, good)[k] == if k == 0 then 0 else h[k]
    ensures good ==>
      Marked(h, good)[k] == if k < 9 then [0x45, 0x46, 0x49, 0x20, 0x50, 0x41, 0x52, 0x54, 0x00][k] else h[k]
  {}

  lemma MarkedFields(h: bytes, good: bool)
    requires |h| >= FIELDS_END
    ensures SameFields(Marked(h, good), h) && Signed(Marked(h, good)) == good
    ensures EntriesCrc(Marked(h, good)) == EntriesCrc(h)
    ensures HeaderSize(Marked(h, good)) == HeaderSize(h)
  {
    if !good { assert Marked(h, good)[..|SIGNATURE|][0] == NUL; }
    SameFieldsRead(Marked(h, good), h);
  }

  /** The header that `gpt_set_state` writes. */
  function WithState(e: Env, h: bytes, good: bool): (r: bytes)
    requires |h| >= FIELDS_END && HeaderSize(h) <= |h|
    ensures |r| == |h|
  {
    MarkedFields(h, good);
    Sealed(e, Marked(h, good))
  }

  /** The header that `gpt2_set_boot_chain` writes. */
  function WithEntriesCrc(e: Env, h: bytes, c: u32): (r: bytes)
    requires |h| >= FIELDS_END && HeaderSize(h) <= |h|
    ensures |r| == |h|
  {
    Sealed(e, Put4(h, PARTITION_CRC_OFFSET, c))
  }

  lemma StateIsSet(e: Env, h: bytes, good: bool)
    requires |h| >= FIELDS_END && HeaderSize(h) <= |h|
    ensures var r := WithState(e, h, good);
      SameFields(r, h) && HeaderSize(r) <= |r| && EntriesCrc(r) == EntriesCrc(h) && Signed(r) == good &&
      GetState(e, r) == if good then GptOk else BadSignature
  {
    hide HeaderCrcOk, Sealed, Get4, Marked, Signed;
    var m := Marked(h, good);
    MarkedFields(h, good);
    SealedIsOk(e, m, m);
    SameButCrcCleared(Sealed(e, m), m);
    assert SameFields(Sealed(e, m), h);
  }

  lemma EntriesCrcIsSet(e: Env, h: bytes, c: u32)
    requires |h| >= FIELDS_END && HeaderSize(h) <= |h|
    ensures var r := WithEntriesCrc(e, h, c);
      SameFields(r, h) && HeaderSize(r) <= |r| && EntriesCrc(r) == c && Signed(r) == Signed(h) && HeaderCrcOk(e, r) &&
      (GetState(e, h) != BadCrc ==> GetState(e, r) == GetState(e, h))
  {
    var m := Put4(h, PARTITION_CRC_OFFSET, c);
    assert m[..|SIGNATURE|] == h[..|SIGNATURE|];
    assert SameFields(m, h);
    SameFieldsRead(m, h);
    GetPut4(h, PARTITION_CRC_OFFSET, c);
    hide HeaderCrcOk, Sealed, Get4, Put4;
    SealedIsOk(e, m, m);
    SameButCrcCleared(Sealed(e, m), m);
    assert SameFields(Sealed(e, m), h);
  }

  /** Signature, entries CRC and correct own CRC leave nothing open. */
  lemma HeaderDetermined(e: Env, h: bytes, g: bytes)
    requires SameFields(h, g) && HeaderSize(h) <= |h| && HeaderSize(g) <= |g|
    requires Signed(h) && Signed(g) && EntriesCrc(h) == EntriesCrc(g) && HeaderCrcOk(e, h) && HeaderCrcOk(e, g)
    ensures h == g
  {
    PutGet4(h, PARTITION_CRC_OFFSET);
    PutGet4(g, PARTITION_CRC_OFFSET);
    assert SameButCrc(h, g) by {
      forall k | 0 <= k < |h| && !(HEADER_CRC_OFFSET <= k < HEADER_CRC_OFFSET + 4) ensures h[k] == g[k] {
        if k < |SIGNATURE| {
          assert h[k] == SIGNATURE[k] == g[k];
        } else if Inside(k, PARTITION_CRC_OFFSET, 4) {
          assert Bytes4(EntriesCrc(h))[k - PARTITION_CRC_OFFSET] == h[k];
          assert Bytes4(EntriesCrc(g))[k - PARTITION_CRC_OFFSET] == g[k];
        }
      }
    }
    SealedIsOk(e, h, g);
    SealedFixed(e, h);
    SealedFixed(e, g);
  }

  // ---------------------------------------------------------------- the stages

  function EntriesOf(e: Env, d: bytes): (es: seq<bytes>)
    requires Layout(e, d)
    ensures Table(es)
  {
    hide Layout, ViewOf, Count, EntrySize, Entry;
    var v := ViewOf(e, d);
    Chop(v.pe, EntrySize(v.p), Count(v.p))
  }

  function SwapNamesFor(e: Env): (names: seq<bytes>)
    ensures Unmistakable(names) && NoRepeats(names)
  {
    SwapListIsUnmistakable(e.ufs);
    Selected(e.ufs, SWAP_LIST)
  }

  /** The entries that boot from the backup images. */
  function BackupEntries(e: Env, d: bytes): (r: bytes)
    requires Layout(e, d)
    ensures |r| == |ViewOf(e, d).pe|
  {
    hide Layout, ViewOf, Count, EntrySize, NoRepeats, SwapNamesFor;
    var v := ViewOf(e, d);
    Swapped(v.pe, EntrySize(v.p), Count(v.p), SwapNamesFor(e))
  }

  predicate CanSwap(e: Env, d: bytes)
    requires Layout(e, d)
  {
    HasTwins(EntriesOf(e, d), SwapNamesFor(e))
  }

  predicate Framed(e: Env, d: bytes, disks: seq<bytes>)
    requires Layout(e, d)
  {
    forall k | 0 <= k < |disks| :: SameFrame(e, d, disks[k]) && Layout(e, disks[k])
  }

  lemma FramedNone(e: Env, d: bytes)
    requires Layout(e, d)
    ensures Framed(e, d, [])
  {}

  lemma FramedMore(e: Env, d: bytes, disks: seq<bytes>, last: bytes, x: bytes)
    requires Layout(e, d) && Layout(e, last) && Framed(e, d, disks) && SameFrame(e, last, x) && Layout(e, x)
    requires last == if disks == [] then d else disks[|disks| - 1]
    ensures Framed(e, d, disks + [x])
  {
    hide Layout, SameFrame;
    if disks != [] { FrameTransitive(e, d, last, x); }
  }

  lemma FramedTwo(e: Env, d: bytes, x: bytes, y: bytes)
    requires Layout(e, d) && SameFrame(e, d, x) && Layout(e, x) && SameFrame(e, x, y) && Layout(e, y)
    ensures Framed(e, d, [x, y])
  {
    hide Layout, SameFrame;
    FrameTransitive(e, d, x, y);
  }

  lemma FramedAt(e: Env, d: bytes, disks: seq<bytes>, k: nat)
    requires Layout(e, d) && Framed(e, d, disks) && k < |disks|
    ensures SameFrame(e, d, disks[k]) && Layout(e, disks[k])
  {}

  /** The first write of `gpt2_set_boot_chain`. */
  function PutEntriesCrc(e: Env, d: bytes, c: u32): (x: bytes)
    requires Layout(e, d)
    ensures SameFrame(e, d, x) && Layout(e, x) && ViewOf(e, x) ==
      ViewOf(e, d).(s := WithEntriesCrc(e, ViewOf(e, d).s, c))
  {
    hide Layout, ViewOf, SameFrame, WithEntriesCrc, WriteHeader, SameFields, HeaderSize, EntriesSize, TableBytes,
      Header;
    var s := ViewOf(e, d).s;
    EntriesCrcIsSet(e, s, c);
    HeaderWritten(e, d, Secondary, WithEntriesCrc(e, s, c));
    WriteHeader(e, d, Secondary, WithEntriesCrc(e, s, c))
  }

  /** The second one. */
  function PutEntries(e: Env, d: bytes, buf: bytes): (x: bytes)
    requires Layout(e, d) && |buf| == |ViewOf(e, d).pe|
    ensures SameFrame(e, d, x) && Layout(e, x) && ViewOf(e, x) == ViewOf(e, d).(se := buf)
  {
    hide Layout, ViewOf, SameFrame, WriteEntries, SameFields, HeaderSize, EntriesSize, TableBytes, Header;
    EntriesWritten(e, d, buf);
    WriteEntries(e, d, buf)
  }

  /** `gpt2_set_boot_chain` */
  function ChainWrites(e: Env, d: bytes, backup: bool): (w: Writes)
    requires Layout(e, d)
    ensures (w.code == 0 <==> |w.disks| == 2) && (w.code != 0 <==> |w.disks| == 0)
  {
    hide Layout, ViewOf, EntriesSize, TableBytes, SameFrame, WithEntriesCrc, CanSwap, BackupEntries, PutEntriesCrc,
      PutEntries, Header, HeaderSize;
    var v := ViewOf(e, d);
    if EntriesCrc(v.p) != e.crc(v.pe) then Writes([], -1)
    else if backup && !CanSwap(e, d) then Writes([], 1)
    else
      var entries := if backup then BackupEntries(e, d) else v.pe;
      var d1 := PutEntriesCrc(e, d, e.crc(entries));
      var d2 := PutEntries(e, d1, entries);
      Writes([d1, d2], 0)
  }

  lemma ChainIsFramed(e: Env, d: bytes, backup: bool)
    requires Layout(e, d)
    ensures Framed(e, d, ChainWrites(e, d, backup).disks)
  {
    hide Layout, ViewOf, EntriesSize, TableBytes, SameFrame, WithEntriesCrc, CanSwap, BackupEntries, PutEntriesCrc,
      PutEntries, Header, HeaderSize, Framed;
    var w := ChainWrites(e, d, backup);
    FramedNone(e, d);
    if w.code == 0 {
      FramedTwo(e, d, w.disks[0], w.disks[1]);
      assert w.disks == [w.disks[0], w.disks[1]];
    }
  }

  /** `gpt_set_state` */
  function StateWrite(e: Env, d: bytes, g: Instance, good: bool): (x: bytes)
    requires Layout(e, d)
    ensures SameFrame(e, d, x) && Layout(e, x)
    ensures ViewOf(e, x) == if g == Primary then ViewOf(e, d).(p := WithState(e, ViewOf(e, d).p, good))
                            else ViewOf(e, d).(s := WithState(e, ViewOf(e, d).s, good))
  {
    hide Layout, ViewOf, SameFrame, WithState, WriteHeader, SameFields, HeaderSize, EntriesSize, TableBytes, GetState;
    var h := if g == Primary then ViewOf(e, d).p else ViewOf(e, d).s;
    StateIsSet(e, h, good);
    HeaderWritten(e, d, g, WithState(e, h, good));
    WriteHeader(e, d, g, WithState(e, h, good))
  }

  function Number(s: Stage): int {
    match s case Main => 1 case Backup => 2 case Finalize => 3
  }

  /** The stage that the two header states call for; 0 if they are unacceptable. */
  function InternalStage(p: GptState, s: GptState): int {
    if p == BadCrc || s == BadCrc || (p == BadSignature && s == BadSignature) then 0
    else if p == GptOk && s == GptOk then Number(Main)
    else if p == BadSignature then Number(Backup)
    else Number(Finalize)
  }

  function StateOf(e: Env, d: bytes, g: Instance): GptState
    requires Layout(e, d)
  {
    GetState(e, Header(e, d, g))
  }

  /** `prepare_partitions`; `lunOk` says that switching the boot LUN was not needed or succeeded. */
  function StageWrites(e: Env, d: bytes, stage: Stage, lunOk: bool): (w: Writes)
    requires Layout(e, d)
  {
    hide Layout, SameFrame, ChainWrites, StateWrite, StateOf, InternalStage, ViewOf;
    var internal := InternalStage(StateOf(e, d, Primary), StateOf(e, d, Secondary));
    if internal == 0 then Writes([], -1)
    else if Number(stage) == internal - 1 then Writes([], 0)
    else if Number(stage) != internal then Writes([], -1)
    else match stage
      case Main =>
        if !lunOk then Writes([], -1)
        else
          var chain := ChainWrites(e, d, true);
          if chain.code != 0 then Writes([], if chain.code < 0 then chain.code else 0)
          else
            ChainIsFramed(e, d, true);
            Writes(chain.disks + [StateWrite(e, chain.disks[1], Primary, false)], 0)
      case Backup =>
        if !lunOk then Writes([], -1)
        else
          var x := StateWrite(e, d, Primary, true);
          Writes([x, StateWrite(e, x, Secondary, false)], 0)
      case Finalize =>
        var chain := ChainWrites(e, d, false);
        if chain.code != 0 then Writes([], chain.code)
        else
          ChainIsFramed(e, d, false);
          Writes(chain.disks + [StateWrite(e, chain.disks[1], Secondary, true)], 0)
  }

  /** A stage either writes nothing or goes through all its writes. */
  lemma StageUnfolds(e: Env, d: bytes, stage: Stage, lunOk: bool)
    requires Layout(e, d) && StageWrites(e, d, stage, lunOk).disks != []
    ensures InternalStage(StateOf(e, d, Primary), StateOf(e, d, Secondary)) == Number(stage)
    ensures StageWrites(e, d, stage, lunOk).code == 0
    ensures stage == Backup ==>
      var x := StateWrite(e, d, Primary, true);
      StageWrites(e, d, stage, lunOk).disks == [x, StateWrite(e, x, Secondary, false)]
    ensures stage != Backup ==>
      var chain := ChainWrites(e, d, stage == Main);
      chain.code == 0 && |chain.disks| == 2 && Layout(e, chain.disks[1]) &&
      StageWrites(e, d, stage, lunOk).disks ==
        chain.disks + [StateWrite(e, chain.disks[1], if stage == Main then Primary else Secondary, stage == Finalize)]
  {
    hide Layout, SameFrame, ChainWrites, StateWrite, StateOf, InternalStage, Framed, ViewOf;
    if stage != Backup {
      ChainIsFramed(e, d, stage == Main);
      if ChainWrites(e, d, stage == Main).code == 0 { FramedAt(e, d, ChainWrites(e, d, stage == Main).disks, 1); }
    }
  }

  lemma StageIsFramed(e: Env, d: bytes, stage: Stage, lunOk: bool)
    requires Layout(e, d)
    ensures Framed(e, d, StageWrites(e, d, stage, lunOk).disks)
  {
    hide Layout, SameFrame, ChainWrites, StateWrite, StateOf, InternalStage, Framed, ViewOf, StageWrites, Number;
    var w := StageWrites(e, d, stage, lunOk);
    if w.disks == [] {
      FramedNone(e, d);
    } else {
      StageUnfolds(e, d, stage, lunOk);
      if stage == Backup {
        FramedTwo(e, d, w.disks[0], w.disks[1]);
      } else {
        var chain := ChainWrites(e, d, stage == Main).disks;
        ChainIsFramed(e, d, stage == Main);
        FramedAt(e, d, chain, 1);
        FramedMore(e, d, chain, chain[1], w.disks[2]);
      }
    }
  }
}
