/**
 The update as it works on a block device, with its header and entry buffers edited in place.
 The device takes a limited number of writes; then the power is gone, or every write fails.
 */
module GptDevice {
  import opened Bytes
  import opened GptLayout
  import opened GptSwap
  import opened GptUpdate
  import opened GptFailsafe
  import opened GptCycle
  import opened GptCodes

  class Device {
    var disk: bytes
    var budget: nat

    constructor (d: bytes, n: nat)
      ensures disk == d && budget == n
    {
      disk, budget := d, n;
    }

    /** `blk_rw` from the device. */
    method Fetch(offset: nat, buf: array<byte>)
      requires offset + buf.Length <= |disk|
      modifies buf
      ensures buf[..] == Read(disk, offset, buf.Length)
    {
      for i := 0 to buf.Length
        invariant buf[..i] == disk[offset..offset + i]
      {
        buf[i] := disk[offset + i];
      }
    }

    /** `blk_rw` to the device: all of the buffer or nothing. */
    method Store(offset: nat, buf: array<byte>) returns (r: int)
      requires offset + buf.Length <= |disk|
      modifies this
      ensures if old(budget) == 0 then r == -1 && disk == old(disk) && budget == 0
              else r == 0 && disk == Write(old(disk), offset, buf[..]) && budget == old(budget) - 1
    {
      if budget == 0 { return -1; }
      disk, budget := Write(disk, offset, buf[..]), budget - 1;
      return 0;
    }
  }

  /** The writes `w` on disk `d`, as far as the budget goes. */
  predicate Did(d: bytes, budget: nat, w: Writes, now: bytes, left: nat, r: int) {
    if |w.disks| <= budget then now == Latest(d, w.disks) && left == budget - |w.disks| && r == w.code
    else now == DiskAt(d, w.disks, budget) && left == 0 && r == -1
  }

  /** `PUT_4_BYTES` */
  method Put4Bytes(a: array<byte>, off: nat, y: u32)
    requires off + 4 <= a.Length
    modifies a
    ensures a[..] == Put4(old(a[..]), off, y)
  {
    a[off] := y % 0x100;
    a[off + 1] := y / 0x100 % 0x100;
    a[off + 2] := y / 0x1_0000 % 0x100;
    a[off + 3] := y / 0x100_0000;
    assert a[off..off + 4] == Bytes4(y);
    assert a[..] == a[..off] + a[off..off + 4] + a[off + 4..];
  }

  /** The CRC of a header is taken with its field cleared. */
  method Seal(e: Env, h: array<byte>)
    requires h.Length >= FIELDS_END && HeaderSize(h[..]) <= h.Length
    modifies h
    ensures h[..] == Sealed(e, old(h[..]))
  {
    var size := HeaderSize(h[..]);
    Put4Bytes(h, HEADER_CRC_OFFSET, 0);
    var crc := e.crc(h[..][..size]);
    Put4Bytes(h, HEADER_CRC_OFFSET, crc);
  }

  lemma Bounds(e: Env, d: bytes)
    requires Layout(e, d)
    ensures e.blk >= FIELDS_END && |d| >= 3 * e.blk
    ensures var v := ViewOf(e, d);
      HeaderSize(v.p) <= e.blk && HeaderSize(v.s) <= e.blk &&
      EntriesStart(e, v.p) + EntriesSize(v.p) <= |d| && EntriesStart(e, v.s) + EntriesSize(v.p) <= |d| &&
      v.pe == Read(d, EntriesStart(e, v.p), EntriesSize(v.p)) &&
      EntriesSize(v.p) == Times(Count(v.p), EntrySize(v.p)) && EntrySize(v.p) >= PTN_ENTRY_SIZE
  {
    hide Get4, HeaderSize, EntrySize, Count, EntriesStart, EntriesSize, Read, Times;
  }

  lemma ChainWritesAre(e: Env, d: bytes, buf: bytes)
    requires Layout(e, d) && |buf| == |ViewOf(e, d).pe|
    ensures var v := ViewOf(e, d);
      var d1 := PutEntriesCrc(e, d, e.crc(buf));
      |d| >= e.blk && |v.s| >= FIELDS_END && HeaderSize(v.s) <= |v.s| && EntriesStart(e, v.s) + |buf| <= |d1| &&
      d1 == Write(d, |d| - e.blk, WithEntriesCrc(e, v.s, e.crc(buf))) &&
      PutEntries(e, d1, buf) == Write(d1, EntriesStart(e, v.s), buf) &&
      HeaderSize(Put4(v.s, PARTITION_CRC_OFFSET, e.crc(buf))) <= |v.s|
  {
    hide Layout, Sealed, Get4, SameFields, EntriesSize, Write, HeaderCrcOk;
    Bounds(e, d);
    var v := ViewOf(e, d);
    var d1 := PutEntriesCrc(e, d, e.crc(buf));
    Bounds(e, d1);
    EntriesCrcIsSet(e, v.s, e.crc(buf));
    SameFieldsRead(WithEntriesCrc(e, v.s, e.crc(buf)), v.s);
    PutKeepsSize(v.s, e.crc(buf));
  }

  lemma PutKeepsSize(h: bytes, c: u32)
    requires |h| >= FIELDS_END
    ensures HeaderSize(Put4(h, PARTITION_CRC_OFFSET, c)) == HeaderSize(h)
  {}

  /** The two writes of `gpt2_set_boot_chain`, once the entries are in the buffer. */
  method StoreChain(e: Env, dev: Device, pentries: array<byte>) returns (r: int)
    requires Layout(e, dev.disk) && pentries.Length == |ViewOf(e, dev.disk).pe|
    modifies dev
    ensures
      var d1 := PutEntriesCrc(e, old(dev.disk), e.crc(pentries[..]));
      Did(old(dev.disk), old(dev.budget), Writes([d1, PutEntries(e, d1, pentries[..])], 0), dev.disk, dev.budget, r)
  {
    hide Layout, Sealed, Get4, SameFields, EntriesStart, EntriesSize, HeaderSize, Write, PutEntries, PutEntriesCrc,
      Put4, Read, ViewOf;
    ghost var d := dev.disk;
    Bounds(e, d);
    ChainWritesAre(e, d, pentries[..]);
    var offset := HeaderAt(e, dev.disk, Secondary);
    var header := new byte[e.blk];
    dev.Fetch(offset, header);
    assert header[..] == ViewOf(e, d).s;
    var start := EntriesStart(e, header[..]);
    var crc := e.crc(pentries[..]);
    Put4Bytes(header, PARTITION_CRC_OFFSET, crc);
    Seal(e, header);
    r := dev.Store(offset, header);
    if r == 0 {
      r := dev.Store(start, pentries);
    }
  }

  /** `gpt2_set_boot_chain` */
  method SetBootChain(e: Env, dev: Device, backup: bool) returns (r: int)
    requires Layout(e, dev.disk)
    modifies dev
    ensures Did(old(dev.disk), old(dev.budget), ChainWrites(e, old(dev.disk), backup), dev.disk, dev.budget, r)
  {
    hide Layout, Get4, SameFields, EntriesStart, EntriesSize, Count, EntrySize, HeaderSize, Write, PutEntries,
      PutEntriesCrc, Read, Swapped, HasTwins, Chop, Unmistakable, NoRepeats, Selected, TableBytes, Did, Framed;
    ghost var d := dev.disk;
    Bounds(e, d);
    var header := new byte[e.blk];
    dev.Fetch(HeaderAt(e, dev.disk, Primary), header);
    assert header[..] == ViewOf(e, d).p;
    var start := EntriesStart(e, header[..]);
    var entrySize := EntrySize(header[..]);
    ghost var count := Count(header[..]);
    var pentries := new byte[EntriesSize(header[..])];
    dev.Fetch(start, pentries);
    assert pentries[..] == ViewOf(e, d).pe;
    var crc := e.crc(pentries[..]);
    if EntriesCrc(header[..]) != crc {
      DidNothing(d, dev.budget, -1);
      return -1;
    }
    if backup {
      r := BootChainSwap(pentries, entrySize, e.ufs, count);
      if r != 0 {
        DidNothing(d, dev.budget, 1);
        return;
      }
      assert pentries[..] == BackupEntries(e, d);
    }
    r := StoreChain(e, dev, pentries);
  }

  lemma DidNothing(d: bytes, budget: nat, r: int)
    ensures Did(d, budget, Writes([], r), d, budget, r)
  {}

  /** `gpt_get_state` */
  method FetchState(e: Env, dev: Device, g: Instance) returns (state: GptState)
    requires Layout(e, dev.disk)
    ensures state == StateOf(e, dev.disk, g)
  {
    hide Layout, Get4, HeaderSize, Read, Put4, ViewOf;
    Bounds(e, dev.disk);
    state := GptOk;
    var header := new byte[e.blk];
    dev.Fetch(HeaderAt(e, dev.disk, g), header);
    assert header[..] == Header(e, dev.disk, g);
    if header[..|SIGNATURE|] != SIGNATURE { state := BadSignature; }
    var size := HeaderSize(header[..]);
    var crc := Get4(header[..], HEADER_CRC_OFFSET);
    Put4Bytes(header, HEADER_CRC_OFFSET, 0);
    if e.crc(header[..][..size]) != crc { state := BadCrc; }
  }

  method Mark(h: array<byte>, good: bool)
    requires h.Length >= FIELDS_END
    modifies h
    ensures h[..] == Marked(old(h[..]), good)
  {
    if good {
      for i := 0 to |SIGNATURE|
        invariant forall k | 0 <= k < h.Length :: h[k] == if k < i then SIGNATURE[k] else old(h[k])
      {
        h[i] := SIGNATURE[i];
      }
    } else {
      h[0] := NUL;
    }
  }

  lemma StateWriteIs(e: Env, d: bytes, g: Instance, good: bool)
    requires Layout(e, d)
    ensures var h := Header(e, d, g);
      |h| >= FIELDS_END && HeaderSize(Marked(h, good)) <= |h| &&
      StateWrite(e, d, g, good) == Write(d, HeaderAt(e, d, g), Sealed(e, Marked(h, good)))
  {
    hide Layout, Sealed, HeaderSize, Write, SameFields;
    Bounds(e, d);
    MarkedFields(Header(e, d, g), good);
  }

  /** `gpt_set_state` */
  method SetState(e: Env, dev: Device, g: Instance, good: bool) returns (r: int)
    requires Layout(e, dev.disk)
    modifies dev
    ensures Did(old(dev.disk), old(dev.budget), Writes([StateWrite(e, old(dev.disk), g, good)], 0), dev.disk,
      dev.budget, r)
  {
    hide Layout, Sealed, HeaderSize, Write, Marked, StateWrite;
    ghost var d := dev.disk;
    Bounds(e, d);
    StateWriteIs(e, d, g, good);
    var header := new byte[e.blk];
    dev.Fetch(HeaderAt(e, dev.disk, g), header);
    Mark(header, good);
    Seal(e, header);
    r := dev.Store(HeaderAt(e, dev.disk, g), header);
  }

  /** A second call goes on where the first one stopped. */
  lemma DidMore(d: bytes, budget: nat, w: Writes, mid: bytes, left: nat, x: bytes, now: bytes, rest: nat, r: int)
    requires Did(d, budget, w, mid, left, 0) && w.code == 0 && |w.disks| <= budget
    requires Did(mid, left, Writes([x], 0), now, rest, r)
    ensures Did(d, budget, Writes(w.disks + [x], 0), now, rest, r)
  {}

  /** The part of `prepare_partitions` behind the tests: the stage is the one that the disk is in. */
  method RunStage(e: Env, dev: Device, stage: Stage, lunOk: bool) returns (r: int)
    requires Layout(e, dev.disk)
    requires InternalStage(StateOf(e, dev.disk, Primary), StateOf(e, dev.disk, Secondary)) == Number(stage)
    modifies dev
    ensures Did(old(dev.disk), old(dev.budget), StageWrites(e, old(dev.disk), stage, lunOk), dev.disk, dev.budget, r)
  {
    hide Layout, StateOf, ChainWrites, StateWrite, Framed, Did, ViewOf, SameFrame;
    ghost var d, budget := dev.disk, dev.budget;
    DidNothing(d, budget, -1);
    DidNothing(d, budget, 0);
    match stage {
      case Main =>
        if !lunOk { return -1; }
        r := SetBootChain(e, dev, true);
        ghost var w := ChainWrites(e, d, true);
        ghost var mid, left := dev.disk, dev.budget;
        ChainDid(e, d, true, budget, mid, left, r);
        if r != 0 { return if r < 0 then r else 0; }
        r := SetState(e, dev, Primary, false);
        DidMore(d, budget, w, mid, left, StateWrite(e, mid, Primary, false), dev.disk, dev.budget, r);
      case Backup =>
        if !lunOk { return -1; }
        r := SetState(e, dev, Primary, true);
        ghost var mid, left := dev.disk, dev.budget;
        OneDid(e, d, Primary, true, budget, mid, left, r);
        if r != 0 { return; }
        r := SetState(e, dev, Secondary, false);
        DidMore(d, budget, Writes([mid], 0), mid, left, StateWrite(e, mid, Secondary, false), dev.disk, dev.budget, r);
        assert [mid] + [StateWrite(e, mid, Secondary, false)] == StageWrites(e, d, Backup, lunOk).disks;
      case Finalize =>
        r := SetBootChain(e, dev, false);
        ghost var w := ChainWrites(e, d, false);
        ghost var mid, left := dev.disk, dev.budget;
        ChainDid(e, d, false, budget, mid, left, r);
        if r < 0 { return; }
        r := SetState(e, dev, Secondary, true);
        DidMore(d, budget, w, mid, left, StateWrite(e, mid, Secondary, true), dev.disk, dev.budget, r);
    }
  }

  /** 0 if the stage is due or done already and the device takes all writes that it needs, and otherwise -1. */
  ghost predicate Returns(e: Env, d: bytes, budget: nat, stage: Stage, lunOk: bool, r: int)
    requires Layout(e, d) && Sized(ViewOf(e, d))
  {
    hide Layout, ViewOf, HeaderSize, Needed;
    var v := ViewOf(e, d);
    if Readable(e, v) && (Due(e, v, stage, lunOk) || AlreadyDone(v, stage)) && Needed(e, d, stage, lunOk) <= budget
    then r == 0
    else r == -1
  }

  lemma ReturnsWhat(e: Env, d: bytes, budget: nat, stage: Stage, lunOk: bool)
    requires Layout(e, d) && Sized(ViewOf(e, d))
    ensures forall now, left: nat, r | Did(d, budget, StageWrites(e, d, stage, lunOk), now, left, r) ::
      Returns(e, d, budget, stage, lunOk, r)
  {
    hide Layout, ViewOf, StageWrites, Readable, Due, AlreadyDone, HeaderSize;
    CodeExactlyWhen(e, d, stage, lunOk);
    if StageWrites(e, d, stage, lunOk).code != 0 { NoCodeNoWrites(e, d, stage, lunOk); }
  }

  lemma NoCodeNoWrites(e: Env, d: bytes, stage: Stage, lunOk: bool)
    requires Layout(e, d) && StageWrites(e, d, stage, lunOk).code != 0
    ensures StageWrites(e, d, stage, lunOk).disks == []
  {
    hide Layout, StageWrites, Framed;
    if StageWrites(e, d, stage, lunOk).disks != [] { StageUnfolds(e, d, stage, lunOk); }
  }

  /** `prepare_partitions` on an opened device. */
  method PreparePartitions(e: Env, dev: Device, stage: Stage, lunOk: bool) returns (r: int)
    requires Layout(e, dev.disk)
    modifies dev
    ensures Did(old(dev.disk), old(dev.budget), StageWrites(e, old(dev.disk), stage, lunOk), dev.disk, dev.budget, r)
    ensures Sized(ViewOf(e, old(dev.disk))) && Returns(e, old(dev.disk), old(dev.budget), stage, lunOk, r)
  {
    hide Layout, StateOf, ChainWrites, StateWrite, Framed, Did, ViewOf, SameFrame, Returns, Sized;
    ghost var d, budget := dev.disk, dev.budget;
    ViewIsSized(e, d);
    ReturnsWhat(e, d, budget, stage, lunOk);
    var prim := FetchState(e, dev, Primary);
    var second := FetchState(e, dev, Secondary);
    DidNothing(d, budget, -1);
    DidNothing(d, budget, 0);
    if prim == BadCrc || second == BadCrc { return -1; }
    if prim == BadSignature && second == BadSignature { return -1; }
    var internal: Stage;
    if prim == GptOk && second == GptOk {
      internal := Main;
    } else if prim == BadSignature {
      internal := Backup;
    } else {
      internal := Finalize;
    }
    if Number(stage) == Number(internal) - 1 { return 0; }
    if stage != internal { return -1; }
    r := RunStage(e, dev, stage, lunOk);
  }

  /** The first call of a stage failed, or found nothing to swap, or the disk is the one the stage goes on with. */
  lemma ChainDid(e: Env, d: bytes, backup: bool, budget: nat, now: bytes, left: nat, r: int)
    requires Layout(e, d) && Did(d, budget, ChainWrites(e, d, backup), now, left, r)
    ensures r == 0 ==>
      ChainWrites(e, d, backup).code == 0 && 2 <= budget && now == ChainWrites(e, d, backup).disks[1] && Layout(e, now)
    ensures r > 0 ==> backup && r == ChainWrites(e, d, backup).code && Did(d, budget, Writes([], 0), now, left, 0)
    ensures r < 0 && ChainWrites(e, d, backup).code != 0 ==>
      r == ChainWrites(e, d, backup).code && Did(d, budget, Writes([], r), now, left, r)
    ensures forall x :: r < 0 && ChainWrites(e, d, backup).code == 0 ==>
      Did(d, budget, Writes(ChainWrites(e, d, backup).disks + [x], 0), now, left, r)
  {
    hide Layout, Framed, SameFrame, PutEntries, PutEntriesCrc, ViewOf, CanSwap, BackupEntries;
    ChainIsFramed(e, d, backup);
    if ChainWrites(e, d, backup).code == 0 { FramedAt(e, d, ChainWrites(e, d, backup).disks, 1); }
  }

  lemma OneDid(e: Env, d: bytes, g: Instance, good: bool, budget: nat, now: bytes, left: nat, r: int)
    requires Layout(e, d) && Did(d, budget, Writes([StateWrite(e, d, g, good)], 0), now, left, r)
    ensures r == 0 ==> 1 <= budget && now == StateWrite(e, d, g, good) && Layout(e, now)
    ensures forall x :: r != 0 ==> Did(d, budget, Writes([StateWrite(e, d, g, good), x], 0), now, left, r)
  {
    hide Layout, SameFrame, StateWrite, ViewOf;
  }

  /** The disk that a call leaves behind is one of those that the run theorems speak of. */
  lemma CallLeaves(e: Env, d: bytes, stage: Stage, lunOk: bool, budget: nat, now: bytes, left: nat, r: int)
    requires Layout(e, d) && Did(d, budget, StageWrites(e, d, stage, lunOk), now, left, r)
    ensures now == Latest(d, CallDisks(e, d, Call(stage, lunOk, budget)))
  {
    hide Layout, StageWrites;
  }
}
