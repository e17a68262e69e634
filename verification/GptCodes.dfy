/**
 What `prepare_partitions` returns and when it writes, for every disk and every call, in terms of the two headers, the
 entries and their twins.
 */
module GptCodes {
  import opened Bytes
  import opened GptLayout
  import opened GptSwap
  import opened GptUpdate
  import opened GptFailsafe

  /** Both headers have a right CRC, and the signature of at least one of them is in place. */
  predicate Readable(e: Env, v: View)
    requires Sized(v)
  {
    HeaderCrcOk(e, v.p) && HeaderCrcOk(e, v.s) && (Signed(v.p) || Signed(v.s))
  }

  /** The headers are as the stage before has left them, and nothing stops the stage before its first write. */
  predicate Due(e: Env, v: View, stage: Stage, lunOk: bool)
    requires Sized(v)
  {
    match stage
    case Main => Signed(v.p) && Signed(v.s) && lunOk && EntriesCrc(v.p) == e.crc(v.pe)
    case Backup => !Signed(v.p) && lunOk
    case Finalize => !Signed(v.s) && EntriesCrc(v.p) == e.crc(v.pe)
  }

  /** The headers are as the stage itself has left them. */
  predicate AlreadyDone(v: View, stage: Stage)
    requires Sized(v)
  {
    match stage
    case Main => !Signed(v.p)
    case Backup => !Signed(v.s)
    case Finalize => false
  }

  ghost predicate HasAnyTwins(e: Env, d: bytes)
    requires Layout(e, d)
  {
    exists n, i: nat, j: nat :: Twins(EntriesOf(e, d), e.ufs, n, i, j)
  }

  /** How many writes a call makes when the device takes all of them. */
  ghost function Needed(e: Env, d: bytes, stage: Stage, lunOk: bool): nat
    requires Layout(e, d) && Sized(ViewOf(e, d))
  {
    hide Layout, ViewOf, HasAnyTwins, HeaderSize;
    var v := ViewOf(e, d);
    if !Readable(e, v) || !Due(e, v, stage, lunOk) || (stage == Main && !HasAnyTwins(e, d)) then 0
    else if stage == Backup then 2
    else 3
  }

  /**
   The code is 0 if and only if the stage is due or was done by the call before, and -1 otherwise; it writes if and only
   if it is due and, for MAIN, some entry has a twin.
   */
  lemma CodeExactlyWhen(e: Env, d: bytes, stage: Stage, lunOk: bool)
    requires Layout(e, d)
    ensures Sized(ViewOf(e, d))
    ensures var w, v := StageWrites(e, d, stage, lunOk), ViewOf(e, d);
      w.code == (if Readable(e, v) && (Due(e, v, stage, lunOk) || AlreadyDone(v, stage)) then 0 else -1) &&
      |w.disks| == Needed(e, d, stage, lunOk)
  {
    hide Layout, ViewOf, CanSwap, HasAnyTwins, BackupEntries, WithEntriesCrc, WithState, StateWrite, SameFrame,
      EntriesSize, TableBytes, HeaderSize, Header, HeaderCrcOk, Signed, EntriesCrc, StateOf, Framed;
    ViewIsSized(e, d);
    SwapIsPossible(e, d);
    HeaderStates(e, d);
  }

  lemma HeaderStates(e: Env, d: bytes)
    requires Layout(e, d) && Sized(ViewOf(e, d))
    ensures var v := ViewOf(e, d);
      StateOf(e, d, Primary) ==
        (if !HeaderCrcOk(e, v.p) then BadCrc else if Signed(v.p) then GptOk else BadSignature) &&
      StateOf(e, d, Secondary) ==
        (if !HeaderCrcOk(e, v.s) then BadCrc else if Signed(v.s) then GptOk else BadSignature)
  {
    hide Layout, HeaderSize, EntriesSize, TableBytes, HeaderCrcOk, Signed;
  }

  lemma SwapIsPossible(e: Env, d: bytes)
    requires Layout(e, d)
    ensures CanSwap(e, d) <==> HasAnyTwins(e, d)
  {
    hide Layout, HasTwins, Twins, EntriesOf, Selected, ChainSwapped;
    SelectedAreExchanged(EntriesOf(e, d), e.ufs);
  }

  /** With two valid GPTs and no twins, MAIN succeeds without a write. */
  lemma NothingToSwap(e: Env, d: bytes)
    requires Layout(e, d) && Valid(e, d, Primary) && Valid(e, d, Secondary) && !HasAnyTwins(e, d)
    ensures StageWrites(e, d, Main, true) == Writes([], 0)
  {
    hide Layout, ViewOf, HasAnyTwins, HeaderSize, HeaderCrcOk, Signed, EntriesCrc, StageWrites;
    CodeExactlyWhen(e, d, Main, true);
  }

  /**
   What MAIN does to the entries that the device boots from next: the secondary table holds the primary one with the
   twins exchanged, and the primary one is as it was.
   */
  lemma MainTradesTwins(e: Env, d: bytes)
    requires Layout(e, d) && StageWrites(e, d, Main, true).disks != []
    ensures var v := ViewOf(e, d);
      var x := Latest(d, StageWrites(e, d, Main, true).disks);
      Layout(e, x) && ViewOf(e, x).pe == v.pe && |v.pe| == Times(Count(v.p), EntrySize(v.p)) == |ViewOf(e, x).se| &&
      ChainSwapped(Chop(v.pe, EntrySize(v.p), Count(v.p)), e.ufs,
                   Chop(ViewOf(e, x).se, EntrySize(v.p), Count(v.p)))
  {
    hide Layout, ViewOf, BackupEntries, HeaderSize, StageWrites, Count, EntrySize, Times, ChainSwapped, Chop;
    MainEntries(e, d);
    BackupIsTraded(e, d);
  }

  lemma MainEntries(e: Env, d: bytes)
    requires Layout(e, d) && StageWrites(e, d, Main, true).disks != []
    ensures var x := Latest(d, StageWrites(e, d, Main, true).disks);
      Layout(e, x) && ViewOf(e, x).pe == ViewOf(e, d).pe && ViewOf(e, x).se == BackupEntries(e, d)
  {
    hide Layout, ViewOf, CanSwap, WithEntriesCrc, WithState, BackupEntries, HeaderSize, StageWrites, ChainWrites,
      SameFrame, EntriesSize, Framed;
    StageUnfolds(e, d, Main, true);
    ChainViews(e, d, true);
  }

  datatype Region = PrimaryHeader | SecondaryHeader | SecondaryEntries

  /** No other region differs. */
  predicate OnlyIn(r: Region, v: View, w: View) {
    match r
    case PrimaryHeader => w == v.(p := w.p)
    case SecondaryHeader => w == v.(s := w.s)
    case SecondaryEntries => w == v.(se := w.se)
  }

  /** What the `k`th write of a stage is made to. */
  function RegionOf(stage: Stage, k: nat): Region {
    match stage
    case Main => if k == 0 then SecondaryHeader else if k == 1 then SecondaryEntries else PrimaryHeader
    case Backup => if k == 0 then PrimaryHeader else SecondaryHeader
    case Finalize => if k == 1 then SecondaryEntries else SecondaryHeader
  }

  predicate Changes(e: Env, r: Region, x: bytes, y: bytes) {
    Layout(e, x) && Layout(e, y) && OnlyIn(r, ViewOf(e, x), ViewOf(e, y))
  }

  lemma ChainChanges(e: Env, d: bytes, backup: bool)
    requires Layout(e, d) && ChainWrites(e, d, backup).code == 0
    ensures var disks := ChainWrites(e, d, backup).disks;
      Changes(e, SecondaryHeader, d, disks[0]) && Changes(e, SecondaryEntries, disks[0], disks[1])
  {
    hide Layout, ViewOf, HeaderSize, EntriesSize, ChainWrites, WithEntriesCrc, BackupEntries;
    ChainViews(e, d, backup);
  }

  lemma StateChanges(e: Env, d: bytes, g: Instance, good: bool)
    requires Layout(e, d)
    ensures Changes(e, if g == Primary then PrimaryHeader else SecondaryHeader, d, StateWrite(e, d, g, good))
  {
    hide Layout, ViewOf, HeaderSize, StateWrite, WithState;
  }

  /**
   Each write changes one of the four regions: MAIN the secondary header, the secondary entries and the primary header,
   in this order, BACKUP the primary and then the secondary header, FINALIZE the secondary header, its entries and the
   header again.
   */
  lemma OneRegionAtATime(e: Env, d: bytes, stage: Stage, k: nat)
    requires Layout(e, d) && k < |StageWrites(e, d, stage, true).disks|
    ensures var disks := StageWrites(e, d, stage, true).disks;
      Changes(e, RegionOf(stage, k), if k == 0 then d else disks[k - 1], disks[k])
  {
    hide Layout, StageWrites, Changes, ViewOf, RegionOf;
    if stage == Backup {
      BackupChanges(e, d);
    } else {
      ChainStageChanges(e, d, stage);
    }
    RegionsAre(stage);
  }

  lemma RegionsAre(stage: Stage)
    ensures RegionOf(Backup, 0) == PrimaryHeader && RegionOf(Backup, 1) == SecondaryHeader
    ensures stage != Backup ==> RegionOf(stage, 0) == SecondaryHeader && RegionOf(stage, 1) == SecondaryEntries
    ensures RegionOf(Main, 2) == PrimaryHeader && RegionOf(Finalize, 2) == SecondaryHeader
  {}

  lemma BackupChanges(e: Env, d: bytes)
    requires Layout(e, d) && StageWrites(e, d, Backup, true).disks != []
    ensures var disks := StageWrites(e, d, Backup, true).disks;
      |disks| == 2 && Changes(e, PrimaryHeader, d, disks[0]) && Changes(e, SecondaryHeader, disks[0], disks[1])
  {
    hide Layout, StageWrites, StateWrite, Changes, StateOf, ViewOf, SameFrame;
    StageUnfolds(e, d, Backup, true);
    var x := StateWrite(e, d, Primary, true);
    StateChanges(e, d, Primary, true);
    StateChanges(e, x, Secondary, false);
  }

  lemma ChainStageChanges(e: Env, d: bytes, stage: Stage)
    requires Layout(e, d) && stage != Backup && StageWrites(e, d, stage, true).disks != []
    ensures var disks := StageWrites(e, d, stage, true).disks;
      |disks| == 3 && Changes(e, SecondaryHeader, d, disks[0]) && Changes(e, SecondaryEntries, disks[0], disks[1]) &&
      Changes(e, if stage == Main then PrimaryHeader else SecondaryHeader, disks[1], disks[2])
  {
    hide Layout, StageWrites, ChainWrites, StateWrite, Changes, StateOf, ViewOf, SameFrame;
    StageUnfolds(e, d, stage, true);
    var chain := ChainWrites(e, d, stage == Main).disks;
    ChainChanges(e, d, stage == Main);
    StateChanges(e, chain[1], if stage == Main then Primary else Secondary, stage == Finalize);
  }

  lemma BackupIsTraded(e: Env, d: bytes)
    requires Layout(e, d)
    ensures var v := ViewOf(e, d);
      |v.pe| == Times(Count(v.p), EntrySize(v.p)) == |BackupEntries(e, d)| &&
      ChainSwapped(Chop(v.pe, EntrySize(v.p), Count(v.p)), e.ufs,
                   Chop(BackupEntries(e, d), EntrySize(v.p), Count(v.p)))
  {
    hide Layout, ViewOf, Count, EntrySize, NoRepeats, Swapped, ChainSwapped, Chop, Times, Unmistakable, HeaderSize;
    var v := ViewOf(e, d);
    SwappedEntries(v.pe, EntrySize(v.p), Count(v.p), e.ufs);
  }
}
