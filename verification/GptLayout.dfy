/**
 GPT headers and partition entries as bytes on a disk: section 5.3 of the UEFI Specification,
 and the accessors of gpt-utils.
 */
module GptLayout {
  import opened Bytes

  type u32 = x: int | 0 <= x < 0x1_0000_0000

  const HEADER_SIZE_OFFSET := 12
  const HEADER_CRC_OFFSET := 16
  const PENTRIES_OFFSET := 72
  const PARTITION_COUNT_OFFSET := 80
  const PENTRY_SIZE_OFFSET := 84
  const PARTITION_CRC_OFFSET := 88
  /** All fields that are read or written lie in front of this offset. */
  const FIELDS_END := 92
  const PTN_ENTRY_SIZE := 128
  const PARTITION_NAME_OFFSET := 56

  /** "EFI PART" with its terminator: `sizeof(GPT_SIGNATURE)` counts the NUL. */
  const SIGNATURE: bytes := [0x45, 0x46, 0x49, 0x20, 0x50, 0x41, 0x52, 0x54, 0x00]

  /** The block size, the CRC function, and whether the device is a UFS device. */
  datatype Env = Env(blk: nat, crc: bytes -> u32, ufs: bool)

  function Get4(b: bytes, off: nat): (v: u32)
    requires off + 4 <= |b|
  {
    (b[off] as int) + 0x100 * (b[off + 1] as int) + 0x1_0000 * (b[off + 2] as int) + 0x100_0000 * (b[off + 3] as int)
  }

  function Get8(b: bytes, off: nat): nat
    requires off + 8 <= |b|
  {
    Get4(b, off) + 0x1_0000_0000 * Get4(b, off + 4)
  }

  function Bytes4(y: u32): (r: bytes)
    ensures |r| == 4
  {
    [y % 0x100, y / 0x100 % 0x100, y / 0x1_0000 % 0x100, y / 0x100_0000]
  }

  /** `PUT_4_BYTES` */
  function Put4(b: bytes, off: nat, y: u32): (r: bytes)
    requires off + 4 <= |b|
    ensures |r| == |b|
  {
    b[..off] + Bytes4(y) + b[off + 4..]
  }

  lemma GetPut4(b: bytes, off: nat, y: u32)
    requires off + 4 <= |b|
    ensures Get4(Put4(b, off, y), off) == y
  {
    var r := Put4(b, off, y);
    assert r[off] == Bytes4(y)[0] && r[off + 1] == Bytes4(y)[1] && r[off + 2] == Bytes4(y)[2] &&
      r[off + 3] == Bytes4(y)[3];
    assert y == y % 0x100 + 0x100 * (y / 0x100 % 0x100) + 0x1_0000 * (y / 0x1_0000 % 0x100) +
      0x100_0000 * (y / 0x100_0000) by {
      assert y / 0x1_0000 == y / 0x100 / 0x100 && y / 0x100_0000 == y / 0x1_0000 / 0x100;
    }
  }

  lemma Bytes4OfSum(b0: byte, b1: byte, b2: byte, b3: byte)
    ensures Bytes4((b0 as int) + 0x100 * (b1 as int) + 0x1_0000 * (b2 as int) + 0x100_0000 * (b3 as int)) ==
      [b0, b1, b2, b3]
  {
    var top := b2 + 0x100 * b3;
    var high := b1 + 0x100 * top;
    var y := b0 + 0x100 * high;
    LowByte(b0, high);
    LowByte(b1, top);
    LowByte(b2, b3);
    Shifts(y);
  }

  lemma LowByte(b: byte, high: nat)
    ensures (b + 0x100 * high) % 0x100 == b && (b + 0x100 * high) / 0x100 == high
  {}

  lemma Shifts(y: nat)
    ensures y / 0x1_0000 == y / 0x100 / 0x100 && y / 0x100_0000 == y / 0x100 / 0x100 / 0x100
  {}

  lemma PutGet4(b: bytes, off: nat)
    requires off + 4 <= |b|
    ensures Put4(b, off, Get4(b, off)) == b
  {
    hide Bytes4;
    Bytes4OfSum(b[off], b[off + 1], b[off + 2], b[off + 3]);
    assert b[off..off + 4] == [b[off], b[off + 1], b[off + 2], b[off + 3]];
    assert b == b[..off] + b[off..off + 4] + b[off + 4..];
  }

  lemma PutPut4(b: bytes, off: nat, x: u32, y: u32)
    requires off + 4 <= |b|
    ensures Put4(Put4(b, off, x), off, y) == Put4(b, off, y)
  {}

  lemma Put4Apart(b: bytes, off: nat, y: u32, k: nat)
    requires off + 4 <= |b| && k < |b| && (k < off || off + 4 <= k)
    ensures Put4(b, off, y)[k] == b[k]
  {}

  // ---------------------------------------------------------------- regions of the disk

  /** `blk_rw` for reading. */
  function Read(d: bytes, off: nat, len: nat): (r: bytes)
    requires off + len <= |d|
    ensures |r| == len
  {
    d[off..off + len]
  }

  /** `blk_rw` for writing: one atomic step. */
  function Write(d: bytes, off: nat, buf: bytes): (r: bytes)
    requires off + |buf| <= |d|
    ensures |r| == |d|
  {
    d[..off] + buf + d[off + |buf|..]
  }

  lemma ReadWritten(d: bytes, off: nat, buf: bytes)
    requires off + |buf| <= |d|
    ensures Read(Write(d, off, buf), off, |buf|) == buf
  {}

  lemma ReadApart(d: bytes, off: nat, buf: bytes, at: nat, len: nat)
    requires off + |buf| <= |d| && at + len <= |d| && (at + len <= off || off + |buf| <= at)
    ensures Read(Write(d, off, buf), at, len) == Read(d, at, len)
  {
    var w := Write(d, off, buf);
    assert forall k | at <= k < at + len :: w[k] == d[k];
  }

  // ---------------------------------------------------------------- headers

  /** A product as a sum, so that statements about disks stay free of products of two unknowns. */
  function Times(a: nat, b: nat): nat {
    if a == 0 then 0 else b + Times(a - 1, b)
  }

  lemma {:induction false} TimesIsProduct(a: nat, b: nat)
    ensures Times(a, b) == a * b
  {
    if a > 0 {
      TimesIsProduct(a - 1, b);
      assert a * b == (a - 1) * b + b;
    }
  }

  function EntriesStart(e: Env, h: bytes): nat
    requires |h| >= FIELDS_END
  {
    Times(Get8(h, PENTRIES_OFFSET), e.blk) % 0x1_0000_0000_0000_0000
  }

  function EntrySize(h: bytes): u32
    requires |h| >= FIELDS_END
  {
    Get4(h, PENTRY_SIZE_OFFSET)
  }

  function Count(h: bytes): u32
    requires |h| >= FIELDS_END
  {
    Get4(h, PARTITION_COUNT_OFFSET)
  }

  function TableBytes(h: bytes): nat
    requires |h| >= FIELDS_END
  {
    Times(Count(h), EntrySize(h))
  }

  /** The product is taken in 32 bits. */
  function EntriesSize(h: bytes): nat
    requires |h| >= FIELDS_END
  {
    TableBytes(h) % 0x1_0000_0000
  }

  function HeaderSize(h: bytes): u32
    requires |h| >= FIELDS_END
  {
    Get4(h, HEADER_SIZE_OFFSET)
  }

  function EntriesCrc(h: bytes): u32
    requires |h| >= FIELDS_END
  {
    Get4(h, PARTITION_CRC_OFFSET)
  }

  predicate Signed(h: bytes)
    requires |h| >= FIELDS_END
  {
    h[..|SIGNATURE|] == SIGNATURE
  }

  /** The CRC of a header, taken with its own field cleared. */
  function HeaderCrc(e: Env, h: bytes): u32
    requires |h| >= FIELDS_END && HeaderSize(h) <= |h|
  {
    e.crc(Put4(h, HEADER_CRC_OFFSET, 0)[..HeaderSize(h)])
  }

  predicate HeaderCrcOk(e: Env, h: bytes)
    requires |h| >= FIELDS_END && HeaderSize(h) <= |h|
  {
    Get4(h, HEADER_CRC_OFFSET) == HeaderCrc(e, h)
  }

  /** The header with a fresh CRC of its own. */
  function Sealed(e: Env, h: bytes): (r: bytes)
    requires |h| >= FIELDS_END && HeaderSize(h) <= |h|
    ensures |r| == |h|
  {
    Put4(Put4(h, HEADER_CRC_OFFSET, 0), HEADER_CRC_OFFSET, HeaderCrc(e, h))
  }

  /** Equal outside the header's own CRC. */
  predicate SameButCrc(h: bytes, g: bytes) {
    |h| == |g| >= FIELDS_END &&
    forall k | 0 <= k < |h| && !(HEADER_CRC_OFFSET <= k < HEADER_CRC_OFFSET + 4) :: h[k] == g[k]
  }

  lemma SameButCrcCleared(h: bytes, g: bytes)
    requires SameButCrc(h, g)
    ensures Put4(h, HEADER_CRC_OFFSET, 0) == Put4(g, HEADER_CRC_OFFSET, 0)
    ensures HeaderSize(h) == HeaderSize(g) && EntrySize(h) == EntrySize(g) && EntriesSize(h) == EntriesSize(g)
    ensures EntriesCrc(h) == EntriesCrc(g) && Get8(h, PENTRIES_OFFSET) == Get8(g, PENTRIES_OFFSET)
    ensures Signed(h) == Signed(g)
  {
    var a, b := Put4(h, HEADER_CRC_OFFSET, 0), Put4(g, HEADER_CRC_OFFSET, 0);
    assert forall k | 0 <= k < |h| :: a[k] == b[k];
    assert forall k | 0 <= k < |SIGNATURE| :: h[..|SIGNATURE|][k] == g[..|SIGNATURE|][k];
  }

  /** Sealing depends on nothing in the CRC field and gives a header with a correct CRC. */
  lemma SealedIsOk(e: Env, h: bytes, g: bytes)
    requires SameButCrc(h, g) && HeaderSize(h) <= |h|
    ensures HeaderSize(g) <= |g| && Sealed(e, h) == Sealed(e, g)
    ensures SameButCrc(Sealed(e, h), h) && HeaderSize(Sealed(e, h)) == HeaderSize(h) && HeaderCrcOk(e, Sealed(e, h))
  {
    SameButCrcCleared(h, g);
    var s := Sealed(e, h);
    PutPut4(h, HEADER_CRC_OFFSET, 0, HeaderCrc(e, h));
    assert SameButCrc(s, h) by {
      forall k | 0 <= k < |h| && !(HEADER_CRC_OFFSET <= k < HEADER_CRC_OFFSET + 4) ensures s[k] == h[k] {
        Put4Apart(h, HEADER_CRC_OFFSET, HeaderCrc(e, h), k);
      }
    }
    SameButCrcCleared(s, h);
    GetPut4(h, HEADER_CRC_OFFSET, HeaderCrc(e, h));
  }

  /** A header whose CRC is correct is its own sealed form. */
  lemma SealedFixed(e: Env, h: bytes)
    requires |h| >= FIELDS_END && HeaderSize(h) <= |h| && HeaderCrcOk(e, h)
    ensures Sealed(e, h) == h
  {
    PutPut4(h, HEADER_CRC_OFFSET, 0, HeaderCrc(e, h));
    PutGet4(h, HEADER_CRC_OFFSET);
  }

  /**
   Which bytes the CRC of a header is taken of: for a CRC function that picks out byte `k` it is that byte of the
   header, with the four bytes of the field itself as 0, and for one that gives the length it is the header size.
   */
  lemma HeaderCrcReads(e: Env, h: bytes, k: nat)
    requires |h| >= FIELDS_END && k < HeaderSize(h) <= |h|
    ensures (forall b: bytes | |b| > k :: e.crc(b) == b[k]) ==> HeaderCrc(e, h) == if 16 <= k < 20 then 0 else h[k]
    ensures (forall b: bytes | |b| < 0x1_0000_0000 :: e.crc(b) == |b|) ==> HeaderCrc(e, h) == HeaderSize(h)
  {
    var b := Put4(h, HEADER_CRC_OFFSET, 0)[..HeaderSize(h)];
    assert b[k] == if 16 <= k < 20 then 0 else h[k];
  }
}
