/**
 A disk that meets every assumption of the update theorems: two blocks of headers, two of entries, "abl" and its twin.
 */
module GptExample {
  import opened Bytes
  import opened GptLayout
  import opened GptSwap
  import opened GptUpdate
  import opened GptFailsafe

  const ABL: bytes := [0x61, 0x62, 0x6C]

  const EXAMPLE: Env := Env(128, (b: bytes) => 0, false)

  /**
   Signature, header size 92, first entry block, two entries of 128 bytes, at the offsets of section 5.3.2 of the UEFI
   Specification; the CRC of this environment is always 0.
   */
  function HeaderByte(k: nat, lba: byte): byte {
    if k < 8 then [0x45, 0x46, 0x49, 0x20, 0x50, 0x41, 0x52, 0x54][k]
    else if k == 12 then 92
    else if k == 72 then lba
    else if k == 80 then 2
    else if k == 84 then 128
    else 0
  }

  /** An entry that is called `name`: its UTF-16 units start at byte 56. */
  function EntryByte(k: nat, name: bytes): byte {
    if 56 <= k < 56 + 2 * |name| && k % 2 == 0 then name[(k - 56) / 2] else 0
  }

  function TableByte(k: nat): byte {
    if k < 128 then EntryByte(k, ABL) else EntryByte(k - 128, ABL + BAK)
  }

  function DiskByte(k: nat): byte {
    if 128 <= k < 256 then HeaderByte(k - 128, 2)
    else if 256 <= k < 512 then TableByte(k - 256)
    else if 512 <= k < 768 then TableByte(k - 512)
    else if 768 <= k then HeaderByte(k - 768, 4)
    else 0
  }

  function Disk(): (d: bytes)
    ensures |d| == 896
  {
    seq(896, k requires 0 <= k < 896 => DiskByte(k))
  }

  function ExampleHeader(lba: byte): (h: bytes)
    ensures |h| == 128
  {
    seq(128, k requires 0 <= k < 128 => HeaderByte(k, lba))
  }

  lemma HeadersOfDisk()
    ensures Header(EXAMPLE, Disk(), Primary) == ExampleHeader(2)
    ensures Header(EXAMPLE, Disk(), Secondary) == ExampleHeader(4)
  {
    hide HeaderByte, TableByte;
    var d := Disk();
    assert forall k | 0 <= k < 128 :: d[128 + k] == HeaderByte(k, 2);
    assert forall k | 0 <= k < 128 :: d[768 + k] == HeaderByte(k, 4);
  }

  lemma FieldsOfHeader(lba: byte)
    ensures var h := ExampleHeader(lba);
      HeaderSize(h) == 92 && Count(h) == 2 && EntrySize(h) == 128 && EntriesCrc(h) == 0 &&
        Get4(h, HEADER_CRC_OFFSET) == 0 &&
      Get8(h, PENTRIES_OFFSET) == lba && Signed(h)
  {
    var h := ExampleHeader(lba);
    assert h[..|SIGNATURE|] == SIGNATURE;
  }

  lemma LayoutOfDisk()
    ensures Layout(EXAMPLE, Disk())
    ensures Valid(EXAMPLE, Disk(), Primary) && Valid(EXAMPLE, Disk(), Secondary)
  {
    hide ExampleHeader, Get4, Get8, Times, Disk, HeaderSize, Count, EntrySize, EntriesCrc, Signed;
    HeadersOfDisk();
    FieldsOfHeader(2);
    FieldsOfHeader(4);
    TimesIsProduct(2, 128);
    TimesIsProduct(4, 128);
  }

  lemma EntriesOfDisk()
    requires Layout(EXAMPLE, Disk())
    ensures |EntriesOf(EXAMPLE, Disk())| == 2 && |EntriesOf(EXAMPLE, Disk())[0]| == 128 ==
      |EntriesOf(EXAMPLE, Disk())[1]|
    ensures forall k | 0 <= k < 128 :: EntriesOf(EXAMPLE, Disk())[0][k] == EntryByte(k, ABL)
    ensures forall k | 0 <= k < 128 :: EntriesOf(EXAMPLE, Disk())[1][k] == EntryByte(k, ABL + BAK)
  {
    hide EntryByte, HeaderByte, Get4, Get8, Times;
    HeadersOfDisk();
    FieldsOfHeader(2);
    TimesIsProduct(0, 128);
    TimesIsProduct(1, 128);
    TimesIsProduct(2, 128);
    var d := Disk();
    var pe, es := ViewOf(EXAMPLE, d).pe, EntriesOf(EXAMPLE, d);
    assert pe == d[256..512] && es == Chop(pe, 128, 2);
    assert forall k | 0 <= k < 256 :: pe[k] == d[256 + k] == TableByte(k);
    assert es[0] == pe[0..128] && es[1] == pe[128..256];
    assert forall k | 0 <= k < 128 :: es[1][k] == pe[128 + k];
  }

  lemma NamesMatch(e: bytes, name: bytes, rest: bytes)
    requires |e| == 128 && IsName(name) && (rest == [] || rest == BAK) && |name + rest| <= NAME_UNITS - 4
    requires forall k | 0 <= k < 128 :: e[k] == EntryByte(k, name + rest)
    ensures Match(e, name)
  {
    var n8 := NameOf(e);
    forall i | 0 <= i < NAME_UNITS ensures n8[i] == if i < |name + rest| then (name + rest)[i] else NUL {
      assert n8[i] == e[PARTITION_NAME_OFFSET + 2 * i];
    }
    assert n8[..|name|] == name;
    if rest == BAK { assert n8[|name|..|name| + 4] == BAK + [NUL]; }
  }

  /**
   The update theorems speak of something: this disk is well-formed, both its GPTs are valid, and it has twins to
   exchange.
   */
  lemma ExampleDisk()
    ensures Layout(EXAMPLE, Disk()) && Valid(EXAMPLE, Disk(), Primary) && Valid(EXAMPLE, Disk(), Secondary) &&
      CanSwap(EXAMPLE, Disk())
  {
    hide Disk, Layout, Valid, EntriesOf, Match, EntryByte;
    LayoutOfDisk();
    EntriesOfDisk();
    var es := EntriesOf(EXAMPLE, Disk());
    SwapListLetters(ABL, 0);
    assert ABL + [] == ABL;
    NamesMatch(es[0], ABL, []);
    NamesMatch(es[1], ABL, BAK);
    assert HasPair(es, ABL);
    assert ABL in SWAP_LIST;
    assert ABL in SwapNamesFor(EXAMPLE);
  }

  // ---------------------------------------------------------------- with and without UFS

  const XBL_CONFIG: bytes := [0x78, 0x62, 0x6C, 0x5F, 0x63, 0x6F, 0x6E, 0x66, 0x69, 0x67]

  function Named(name: bytes): (e: bytes)
    ensures |e| == 128
  {
    seq(128, k requires 0 <= k < 128 => EntryByte(k, name))
  }

  /** Three names with their twins. */
  function Twice(): (es: seq<bytes>)
    ensures |es| == 6 && Table(es)
  {
    [Named(XBL), Named(XBL + BAK), Named(XBL_CONFIG), Named(XBL_CONFIG + BAK), Named(ABL), Named(ABL + BAK)]
  }

  /** The name that the `k`th of these entries answers to. */
  function NameAt(k: nat): bytes
    requires k < 6
  {
    [XBL, XBL, XBL_CONFIG, XBL_CONFIG, ABL, ABL][k]
  }

  lemma ExampleNames()
    ensures IsName(XBL) && IsName(XBL_CONFIG) && IsName(ABL)
    ensures XBL in SWAP_LIST && XBL_CONFIG in SWAP_LIST && ABL in SWAP_LIST
    ensures |XBL| == |ABL| == 3 && |XBL_CONFIG| == 10 && XBL[0] == XBL_CONFIG[0] != ABL[0]
  {}

  lemma AnswersTo(k: nat)
    requires k < 6
    ensures IsName(NameAt(k)) && Match(Twice()[k], NameAt(k))
  {
    hide Match, IsName, EntryByte;
    ExampleNames();
    var n := NameAt(k);
    assert n + [] == n;
    if k % 2 == 0 { NamesMatch(Twice()[k], n, []); } else { NamesMatch(Twice()[k], n, BAK); }
  }

  lemma AnswersToNothingElse(k: nat, n: bytes)
    requires k < 6 && n in SWAP_LIST && IsName(n) && Match(Twice()[k], n)
    ensures n == NameAt(k)
  {
    hide Match, IsName, Selected, Twice;
    AnswersTo(k);
    ExampleNames();
    SwapListIsUnmistakable(false);
    SelectedAreTraded(false, n);
    SelectedAreTraded(false, NameAt(k));
    OneNameOnly(Twice()[k], n, NameAt(k), Selected(false, SWAP_LIST));
  }

  /** The pairs of the example. */
  lemma ExamplePairs(n: bytes, i: nat, j: nat)
    requires n in SWAP_LIST && IsName(n)
    ensures Pair(Twice(), n, i, j) <==> i < 6 && i % 2 == 0 && j == i + 1 && n == NameAt(i)
  {
    hide Match, IsName, Twice, NameAt;
    var es := Twice();
    forall k: nat | k < 6 ensures Match(es[k], n) <==> n == NameAt(k) {
      AnswersTo(k);
      if Match(es[k], n) { AnswersToNothingElse(k, n); }
    }
    NamesInPairs();
  }

  lemma NamesInPairs()
    ensures NameAt(0) == NameAt(1) && NameAt(2) == NameAt(3) && NameAt(4) == NameAt(5)
    ensures NameAt(0) != NameAt(2) && NameAt(2) != NameAt(4) && NameAt(0) != NameAt(4)
  {}

  lemma ExampleTwins(ufs: bool, i: nat)
    requires i < 6 && i % 2 == 0
    ensures Twins(Twice(), ufs, NameAt(i), i, i + 1) <==> !ufs || i == 4
    ensures ufs && i < 4 ==> forall n, p: nat, q: nat | Twins(Twice(), ufs, n, p, q) ::
      p != i && q != i && p != i + 1 && q != i + 1
  {
    hide Match, First, Pair, Twice, IsName;
    ExampleNames();
    ExamplePairs(NameAt(i), i, i + 1);
    forall n, p: nat, q: nat | Twins(Twice(), ufs, n, p, q)
      ensures ufs && i < 4 ==> p != i && q != i && p != i + 1 && q != i + 1
    {
      ExamplePairs(n, p, q);
    }
  }

  /** What becomes of two neighbours with the same name. */
  lemma ExamplePair(ufs: bool, i: nat, out: seq<bytes>)
    requires i < 6 && i % 2 == 0 && ChainSwapped(Twice(), ufs, out)
    ensures |out| == 6
    ensures if ufs && i < 4 then out[i] == Twice()[i] && out[i + 1] == Twice()[i + 1]
            else out[i] == Twice()[i + 1] && out[i + 1] == Twice()[i]
  {
    hide Twice, Twins;
    ExampleSizes();
    ExampleTwins(ufs, i);
    var a, b := Twice()[i], Twice()[i + 1];
    assert b[..128] + a[128..] == b && a[..128] + b[128..] == a;
  }

  /** Off UFS all three pairs change places; on UFS both names that begin with "xbl" stay where they are. */
  lemma ExampleSwap(ufs: bool)
    ensures Unmistakable(Selected(ufs, SWAP_LIST))
    ensures var es := Twice();
      SwapNames(es, Selected(ufs, SWAP_LIST)) ==
        if ufs then [es[0], es[1], es[2], es[3], es[5], es[4]] else [es[1], es[0], es[3], es[2], es[5], es[4]]
  {
    hide Twice, Twins, SwapNames, Selected, Unmistakable, HasTwins, ChainSwapped;
    SelectedAreExchanged(Twice(), ufs);
    var out := SwapNames(Twice(), Selected(ufs, SWAP_LIST));
    ExamplePair(ufs, 0, out);
    ExamplePair(ufs, 2, out);
    ExamplePair(ufs, 4, out);
  }

  lemma ExampleSizes()
    ensures forall k | 0 <= k < 6 :: |Twice()[k]| == 128
  {}
}
