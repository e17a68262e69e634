/**
 A whole update, and a stage that is cut and called again.
 */
module GptCycle {
  import opened Bytes
  import opened GptLayout
  import opened GptSwap
  import opened GptUpdate
  import opened GptFailsafe

  function Finish(d: bytes, w: Writes): bytes {
    Latest(d, w.disks)
  }

  // ---------------------------------------------------------------- what each stage leaves behind

  function EntriesFor(e: Env, d: bytes, stage: Stage): bytes
    requires Layout(e, d)
  {
    if stage == Main then BackupEntries(e, d) else ViewOf(e, d).pe
  }

  /** The view once a stage has made its first `k` writes. */
  function StageView(e: Env, d: bytes, stage: Stage, k: nat): View
    requires Layout(e, d) && Sized(ViewOf(e, d))
  {
    hide Layout, ViewOf, HeaderSize;
    var v := ViewOf(e, d);
    if k == 0 then v
    else if stage == Backup then
      var v1 := v.(p := WithState(e, v.p, true));
      if k == 1 then v1 else v1.(s := WithState(e, v.s, false))
    else
      var entries := EntriesFor(e, d, stage);
      EntriesCrcIsSet(e, v.s, e.crc(entries));
      var v1 := v.(s := WithEntriesCrc(e, v.s, e.crc(entries)));
      if k == 1 then v1
      else if k == 2 then v1.(se := entries)
      else if stage == Main then v1.(se := entries, p := WithState(e, v.p, false))
      else v1.(se := entries, s := WithState(e, v1.s, true))
  }

  function DiskAt(d: bytes, disks: seq<bytes>, k: nat): bytes
    requires k <= |disks|
  {
    if k == 0 then d else disks[k - 1]
  }

  lemma StageViews(e: Env, d: bytes, stage: Stage, k: nat)
    requires Layout(e, d) && Sized(ViewOf(e, d)) && 0 < |StageWrites(e, d, stage, true).disks| &&
      k <= |StageWrites(e, d, stage, true).disks|
    ensures var x := DiskAt(d, StageWrites(e, d, stage, true).disks, k);
      Layout(e, x) && SameFrame(e, d, x) && Sized(ViewOf(e, x)) && ViewOf(e, x) == StageView(e, d, stage, k)
  {
    hide Layout, ViewOf, WithEntriesCrc, WithState, BackupEntries, HeaderSize, Header, ChainWrites, StateWrite,
      StageWrites, SameFrame, EntriesSize, TableBytes;
    var disks := StageWrites(e, d, stage, true).disks;
    if k == 0 {
      FrameReflexive(e, d);
    } else {
      StageUnfolds(e, d, stage, true);
      StageIsFramed(e, d, stage, true);
      FramedAt(e, d, disks, k - 1);
      ViewIsSized(e, disks[k - 1]);
      if stage != Backup { ChainViews(e, d, stage == Main); }
    }
  }

  lemma FrameReflexive(e: Env, d: bytes)
    requires Layout(e, d)
    ensures SameFrame(e, d, d)
  {
    SameFieldsRefl(Header(e, d, Primary));
    SameFieldsRefl(Header(e, d, Secondary));
  }

  /** When the two headers call for the stage and nothing is missing, it runs to its end. */
  lemma StageRuns(e: Env, d: bytes, stage: Stage)
    requires Layout(e, d) && InternalStage(StateOf(e, d, Primary), StateOf(e, d, Secondary)) == Number(stage)
    requires stage != Backup ==> EntriesCrc(ViewOf(e, d).p) == e.crc(ViewOf(e, d).pe)
    requires stage == Main ==> CanSwap(e, d)
    ensures var w := StageWrites(e, d, stage, true); w.code == 0 && |w.disks| == if stage == Backup then 2 else 3
  {
    hide Layout, ViewOf, CanSwap, StateOf, InternalStage, WithEntriesCrc, WithState, EntriesSize, TableBytes,
      SameFrame, StateWrite, EntriesCrc;
  }

  lemma StatesOf(e: Env, d: bytes)
    requires Layout(e, d) && Sized(ViewOf(e, d))
    ensures StateOf(e, d, Primary) == GetState(e, ViewOf(e, d).p) &&
      StateOf(e, d, Secondary) == GetState(e, ViewOf(e, d).s)
  {
    hide Layout, HeaderSize, GetState, EntriesSize, TableBytes;
  }

  // ---------------------------------------------------------------- the full cycle

  /**
   MAIN, BACKUP and FINALIZE, uncut: the primary GPT is byte for byte what it was, the secondary entries are the
   primary ones, and both headers read as good. If the secondary entries were the primary ones before, the whole disk
   is what it was.
   */
  lemma FullCycle(e: Env, d: bytes)
    requires Layout(e, d) && Valid(e, d, Primary) && Valid(e, d, Secondary) && CanSwap(e, d)
    ensures var w1 := StageWrites(e, d, Main, true);
      var d1 := Finish(d, w1);
      w1.code == 0 && Layout(e, d1) && Valid(e, d1, Secondary) && StateOf(e, d1, Primary) == BadSignature &&
      ViewOf(e, d1).se == BackupEntries(e, d) &&
      var w2 := StageWrites(e, d1, Backup, true);
      var d2 := Finish(d1, w2);
      w2.code == 0 && Layout(e, d2) && Valid(e, d2, Primary) && StateOf(e, d2, Secondary) == BadSignature &&
      var w3 := StageWrites(e, d2, Finalize, true);
      var d3 := Finish(d2, w3);
      w3.code == 0 && Layout(e, d3) && SameFrame(e, d, d3) && Valid(e, d3, Primary) && Valid(e, d3, Secondary) &&
      ViewOf(e, d3).p == ViewOf(e, d).p && ViewOf(e, d3).pe == ViewOf(e, d).pe && ViewOf(e, d3).se == ViewOf(e, d).pe &&
      (ViewOf(e, d).se == ViewOf(e, d).pe ==> d3 == d)
  {
    hide Layout, ViewOf, CanSwap, WithEntriesCrc, WithState, BackupEntries, EntriesSize, TableBytes, SameFrame,
      StageWrites, HeaderSize, Signed, HeaderCrcOk, EntriesCrc, Header, SameFields, StateOf;
    ViewIsSized(e, d);
    var v := ViewOf(e, d);
    StatesOf(e, d);
    StageRuns(e, d, Main);
    StageViews(e, d, Main, 3);
    var d1 := Finish(d, StageWrites(e, d, Main, true));
    var c := e.crc(BackupEntries(e, d));
    var s1 := WithEntriesCrc(e, v.s, c);
    EntriesCrcIsSet(e, v.s, c);
    StateIsSet(e, v.p, false);
    MarkedAndRestored(e, v.p);
    StatesOf(e, d1);

    StageRuns(e, d1, Backup);
    StageViews(e, d1, Backup, 2);
    var d2 := Finish(d1, StageWrites(e, d1, Backup, true));
    var s2 := WithState(e, s1, false);
    StateIsSet(e, s1, false);
    StatesOf(e, d2);
    FrameTransitive(e, d, d1, d2);

    StageRuns(e, d2, Finalize);
    StageViews(e, d2, Finalize, 3);
    var d3 := Finish(d2, StageWrites(e, d2, Finalize, true));
    var s3 := WithEntriesCrc(e, s2, e.crc(v.pe));
    EntriesCrcIsSet(e, s2, e.crc(v.pe));
    StateIsSet(e, s3, true);
    FrameTransitive(e, d, d2, d3);
    if v.se == v.pe {
      var s4 := WithState(e, s3, true);
      assert GetState(e, s4) == GptOk;
      GoodHeaderDetermined(e, s4, s3, s2, s1, v.s);
      ViewDeterminesDisk(e, d, d3);
    }
  }

  lemma GoodHeaderDetermined(e: Env, a: bytes, b: bytes, c: bytes, d: bytes, h: bytes)
    requires SameFields(a, b) && SameFields(b, c) && SameFields(c, d) && SameFields(d, h)
    requires HeaderSize(a) <= |a| && HeaderSize(h) <= |h|
    requires GetState(e, a) == GptOk && GetState(e, h) == GptOk && EntriesCrc(a) == EntriesCrc(h)
    ensures a == h
  {
    hide SameFields, HeaderCrcOk, Signed, EntriesCrc, HeaderSize;
    SameFieldsTransitive(a, b, c);
    SameFieldsTransitive(a, c, d);
    SameFieldsTransitive(a, d, h);
    HeaderDetermined(e, a, h);
  }

  // ---------------------------------------------------------------- cut and called again

  lemma EntriesCrcAgain(e: Env, h: bytes, c: u32)
    requires |h| >= FIELDS_END && HeaderSize(h) <= |h|
    ensures HeaderSize(WithEntriesCrc(e, h, c)) <= |h|
    ensures WithEntriesCrc(e, WithEntriesCrc(e, h, c), c) == WithEntriesCrc(e, h, c)
  {
    var r := WithEntriesCrc(e, h, c);
    EntriesCrcIsSet(e, h, c);
    PutGet4(r, PARTITION_CRC_OFFSET);
    SealedFixed(e, r);
  }

  /** The swapped entries and whether there are any depend on the primary GPT only. */
  lemma SamePrimary(e: Env, d: bytes, x: bytes)
    requires Layout(e, d) && Layout(e, x) && ViewOf(e, d).p == ViewOf(e, x).p && ViewOf(e, d).pe == ViewOf(e, x).pe
    ensures CanSwap(e, d) == CanSwap(e, x) && BackupEntries(e, d) == BackupEntries(e, x)
  {
    hide Layout, ViewOf, Swapped, HasTwins, Chop, EntriesSize, TableBytes, SwapNamesFor;
  }

  lemma ChainNeeds(e: Env, d: bytes, stage: Stage)
    requires Layout(e, d) && stage != Backup && StageWrites(e, d, stage, true).disks != []
    ensures EntriesCrc(ViewOf(e, d).p) == e.crc(ViewOf(e, d).pe) && (stage == Main ==> CanSwap(e, d))
    ensures |StageWrites(e, d, stage, true).disks| == 3
  {
    hide Layout, ViewOf, CanSwap, StateOf, InternalStage, WithEntriesCrc, WithState, EntriesSize, TableBytes,
      SameFrame, StateWrite, EntriesCrc, StageWrites;
    StageUnfolds(e, d, stage, true);
  }

  /** MAIN or FINALIZE, cut after the first or the second write. */
  lemma CutChainAgain(e: Env, d: bytes, stage: Stage, k: nat)
    requires Layout(e, d) && stage != Backup && StageWrites(e, d, stage, true).disks != []
    requires 1 <= k <= 2 && |StageWrites(e, d, stage, true).disks| == 3
    ensures var w := StageWrites(e, d, stage, true);
      var x := w.disks[k - 1];
      Layout(e, x) && StageWrites(e, x, stage, true).code == 0 &&
        Finish(x, StageWrites(e, x, stage, true)) == Finish(d, w)
  {
    hide Layout, ViewOf, CanSwap, WithEntriesCrc, WithState, BackupEntries, EntriesSize, TableBytes, SameFrame,
      StageWrites, HeaderSize, Signed, HeaderCrcOk, EntriesCrc, Header, SameFields, StateOf;
    ViewIsSized(e, d);
    var v := ViewOf(e, d);
    var w := StageWrites(e, d, stage, true);
    var x := w.disks[k - 1];
    StageUnfolds(e, d, stage, true);
    ChainNeeds(e, d, stage);
    StageViews(e, d, stage, k);
    StageViews(e, d, stage, 3);
    StatesOf(e, d);
    StatesOf(e, x);
    SamePrimary(e, d, x);
    var c := e.crc(EntriesFor(e, d, stage));
    EntriesCrcIsSet(e, v.s, c);
    EntriesCrcAgain(e, v.s, c);
    StageRuns(e, x, stage);
    StageViews(e, x, stage, 3);
    assert StageView(e, x, stage, 3) == StageView(e, d, stage, 3);
    var z := StageWrites(e, x, stage, true).disks[2];
    FrameTransitive(e, d, x, z);
    SameDisks(e, d, w.disks[2], z);
  }

  lemma SameDisks(e: Env, d: bytes, x: bytes, y: bytes)
    requires Layout(e, d) && Layout(e, x) && Layout(e, y) && SameFrame(e, d, x) && SameFrame(e, d, y) &&
      ViewOf(e, x) == ViewOf(e, y)
    ensures x == y
  {
    hide Layout, ViewOf, InRegions;
    FrameKeepsLayout(e, d, x);
    assert SameFrame(e, x, y) by {
      SameFieldsRefl(ViewOf(e, x).p);
      SameFieldsRefl(ViewOf(e, x).s);
    }
    ViewDeterminesDisk(e, x, y);
  }

  /**
   A stage that did its work and was cut after `k` writes is called again. It succeeds and ends in the disk of the uncut
   call, unless it is a BACKUP cut between its two writes or a FINALIZE that was already complete.
   */
  lemma CutAndCalledAgain(e: Env, d: bytes, stage: Stage, k: nat)
    requires Layout(e, d) && StageWrites(e, d, stage, true).disks != [] && k <= |StageWrites(e, d, stage, true).disks|
    ensures var w := StageWrites(e, d, stage, true);
      var x := DiskAt(d, w.disks, k);
      Layout(e, x) &&
      (StageWrites(e, x, stage, true).code == 0 && Finish(x, StageWrites(e, x, stage, true)) == Finish(d, w)
       <==> !(stage == Backup && k == 1) && !(stage == Finalize && k == 3)) &&
      (stage == Finalize && k == 3 ==> StageWrites(e, x, stage, true) == Writes([], -1)) &&
      (stage == Backup && k == 1 ==>
        StageWrites(e, x, stage, true) == Writes([], -1) && StateOf(e, x, Primary) == StateOf(e, x, Secondary) == GptOk)
  {
    hide Layout, ViewOf, CanSwap, WithEntriesCrc, WithState, BackupEntries, EntriesSize, TableBytes, SameFrame,
      HeaderSize, ChainWrites, Signed, HeaderCrcOk, EntriesCrc, Header, SameFields, StateOf, GetState, StateWrite,
      StageView, StageWrites;
    var w := StageWrites(e, d, stage, true);
    StageUnfolds(e, d, stage, true);
    if k == 0 {
    } else if stage != Backup && k <= 2 {
      CutChainAgain(e, d, stage, k);
    } else {
      StatesAtEnd(e, d, stage, k);
      StageRefuses(e, DiskAt(d, w.disks, k), stage);
    }
  }

  lemma StageRefuses(e: Env, x: bytes, stage: Stage)
    requires Layout(e, x) && InternalStage(StateOf(e, x, Primary), StateOf(e, x, Secondary)) != Number(stage)
    ensures StageWrites(e, x, stage, true) ==
      Writes([], if Number(stage) == InternalStage(StateOf(e, x, Primary), StateOf(e, x, Secondary)) - 1 then 0 else -1)
  {
    hide Layout, StateOf, InternalStage, ChainWrites, StateWrite;
  }

  /** What the headers say after a complete stage, and between the two writes of BACKUP. */
  lemma StatesAtEnd(e: Env, d: bytes, stage: Stage, k: nat)
    requires Layout(e, d) && StageWrites(e, d, stage, true).disks != []
    requires k == |StageWrites(e, d, stage, true).disks| || (stage == Backup && k == 1)
    ensures var w := StageWrites(e, d, stage, true);
      k <= |w.disks| && var x := DiskAt(d, w.disks, k);
      Layout(e, x) &&
      StateOf(e, x, Primary) == (if stage == Main then BadSignature else GptOk) &&
      StateOf(e, x, Secondary) == (if stage == Backup && k == 2 then BadSignature else GptOk)
  {
    hide Layout, ViewOf, CanSwap, WithEntriesCrc, WithState, BackupEntries, EntriesSize, TableBytes, SameFrame,
      HeaderSize, ChainWrites, Signed, HeaderCrcOk, EntriesCrc, Header, SameFields, StateOf, GetState, StateWrite,
      StageWrites;
    ViewIsSized(e, d);
    var v := ViewOf(e, d);
    StageUnfolds(e, d, stage, true);
    StageViews(e, d, stage, k);
    StatesOf(e, d);
    StatesOf(e, DiskAt(d, StageWrites(e, d, stage, true).disks, k));
    StateIsSet(e, v.p, stage == Backup);
    if stage == Backup {
      StateIsSet(e, v.s, false);
    } else {
      var c := e.crc(EntriesFor(e, d, stage));
      EntriesCrcIsSet(e, v.s, c);
      StateIsSet(e, WithEntriesCrc(e, v.s, c), true);
    }
  }

  /**
   After a BACKUP that was cut between its writes, MAIN is accepted again and leads back to the disk before BACKUP.
   */
  lemma CutBackupRecovers(e: Env, d: bytes)
    requires Layout(e, d) && Valid(e, d, Primary) && StageWrites(e, d, Main, true).disks != []
    ensures var d1 := Finish(d, StageWrites(e, d, Main, true));
      Layout(e, d1) && |StageWrites(e, d1, Backup, true).disks| == 2 &&
      var x := StageWrites(e, d1, Backup, true).disks[0];
      Layout(e, x) && StageWrites(e, x, Main, true).code == 0 && Finish(x, StageWrites(e, x, Main, true)) == d1
  {
    hide Layout, ViewOf, CanSwap, WithEntriesCrc, WithState, BackupEntries, EntriesSize, TableBytes, SameFrame,
      HeaderSize, ChainWrites, Signed, HeaderCrcOk, EntriesCrc, Header, SameFields, StateOf, GetState, StateWrite,
      StageWrites;
    ViewIsSized(e, d);
    var v := ViewOf(e, d);
    StageUnfolds(e, d, Main, true);
    ChainNeeds(e, d, Main);
    StageViews(e, d, Main, 3);
    StatesOf(e, d);
    MarkedAndRestored(e, v.p);
    StatesAtEnd(e, d, Main, 3);
    var d1 := Finish(d, StageWrites(e, d, Main, true));
    StageRuns(e, d1, Backup);
    StageViews(e, d1, Backup, 1);
    StatesAtEnd(e, d1, Backup, 1);
    var x := StageWrites(e, d1, Backup, true).disks[0];
    SamePrimary(e, d, x);
    StageRuns(e, x, Main);
    StageViews(e, x, Main, 3);
    EntriesCrcAgain(e, v.s, e.crc(BackupEntries(e, d)));
    var y := StageWrites(e, x, Main, true).disks[2];
    FrameTransitive(e, d1, x, y);
    FrameReflexive(e, d1);
    SameDisks(e, d1, d1, y);
  }
}
