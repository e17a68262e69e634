/**
 What the failsafe update guarantees over every run of its stages, each possibly cut after any of its writes.
 */
module GptFailsafe {
  import opened Bytes
  import opened GptLayout
  import opened GptUpdate

  /** Correct signature, header CRC and entries CRC. */
  predicate Valid(e: Env, d: bytes, g: Instance)
    requires Layout(e, d)
  {
    ValidIn(e, ViewOf(e, d), g)
  }

  predicate Sized(v: View) {
    |v.p| == |v.s| >= FIELDS_END && HeaderSize(v.p) <= |v.p| && HeaderSize(v.s) <= |v.s|
  }

  predicate ValidIn(e: Env, v: View, g: Instance)
    requires Sized(v)
  {
    if g == Primary then GetState(e, v.p) == GptOk && EntriesCrc(v.p) == e.crc(v.pe)
    else GetState(e, v.s) == GptOk && EntriesCrc(v.s) == e.crc(v.se)
  }

  /** One call of `prepare_partitions` that is cut after `cut` writes. */
  datatype Call = Call(stage: Stage, lunOk: bool, cut: nat)

  /** The disks that the writes of one call leave behind, one after the other. */
  function CallDisks(e: Env, d: bytes, c: Call): (r: seq<bytes>)
    requires Layout(e, d)
  {
    var disks := StageWrites(e, d, c.stage, c.lunOk).disks;
    if c.cut < |disks| then disks[..c.cut] else disks
  }

  function Latest(d: bytes, disks: seq<bytes>): bytes {
    if disks == [] then d else disks[|disks| - 1]
  }

  lemma CallIsFramed(e: Env, d: bytes, c: Call)
    requires Layout(e, d)
    ensures Framed(e, d, CallDisks(e, d, c)) && Layout(e, Latest(d, CallDisks(e, d, c)))
  {
    hide Layout, StageWrites, SameFrame;
    StageIsFramed(e, d, c.stage, c.lunOk);
  }

  /** All disks of a run, the one it starts from included. */
  function RunDisks(e: Env, d: bytes, calls: seq<Call>): (r: seq<bytes>)
    requires Layout(e, d)
    decreases |calls|
  {
    if calls == [] then [d]
    else
      CallIsFramed(e, d, calls[0]);
      var disks := CallDisks(e, d, calls[0]);
      [d] + disks + RunDisks(e, Latest(d, disks), calls[1..])
  }

  // ---------------------------------------------------------------- the invariant

  /** The primary header is the original one, or it is marked bad and the secondary GPT is valid. */
  predicate Safe(e: Env, v0: View, v: View)
    requires Sized(v0) && Sized(v)
  {
    v.pe == v0.pe && (v.p == v0.p || (v.p == WithState(e, v0.p, false) && ValidIn(e, v, Secondary)))
  }

  lemma ViewIsSized(e: Env, d: bytes)
    requires Layout(e, d)
    ensures Sized(ViewOf(e, d))
  {
    hide Layout, ViewOf, HeaderSize;
  }

  lemma SafeHasValid(e: Env, v0: View, v: View)
    requires Sized(v0) && Sized(v) && ValidIn(e, v0, Primary) && Safe(e, v0, v)
    ensures ValidIn(e, v, Primary) || ValidIn(e, v, Secondary)
  {
    hide GetState, EntriesCrc, HeaderSize, WithState;
  }

  /** Marking a good header bad and then good again restores it. */
  lemma MarkedAndRestored(e: Env, h: bytes)
    requires |h| >= FIELDS_END && HeaderSize(h) <= |h| && GetState(e, h) == GptOk
    ensures HeaderSize(WithState(e, h, false)) <= |h| && WithState(e, WithState(e, h, false), true) == h
    ensures WithState(e, h, false) != h
  {
    hide HeaderSize, EntriesCrc, WithState, HeaderCrcOk, Signed, SameFields;
    var bad := WithState(e, h, false);
    StateIsSet(e, h, false);
    StateIsSet(e, bad, true);
    var good := WithState(e, bad, true);
    assert SameFields(good, h) by { SameFieldsTransitive(good, bad, h); }
    HeaderDetermined(e, good, h);
  }

  lemma SameFieldsTransitive(a: bytes, b: bytes, c: bytes)
    requires SameFields(a, b) && SameFields(b, c)
    ensures SameFields(a, c)
  {}

  /** What the disk shows after the writes of `gpt2_set_boot_chain`. */
  lemma ChainViews(e: Env, d: bytes, backup: bool)
    requires Layout(e, d) && ChainWrites(e, d, backup).code == 0
    ensures var w := ChainWrites(e, d, backup).disks;
      var v := ViewOf(e, d);
      var entries := if backup then BackupEntries(e, d) else v.pe;
      Layout(e, w[0]) && Layout(e, w[1]) && Sized(v) &&
      ViewOf(e, w[0]) == v.(s := WithEntriesCrc(e, v.s, e.crc(entries))) &&
      ViewOf(e, w[1]) == v.(s := WithEntriesCrc(e, v.s, e.crc(entries)), se := entries)
  {
    hide Layout, ViewOf, EntriesSize, TableBytes, SameFrame, WithEntriesCrc, CanSwap, BackupEntries, PutEntriesCrc,
      PutEntries, Header, HeaderSize;
  }

  lemma EveryWriteIsSafe(e: Env, d0: bytes, d: bytes, stage: Stage, lunOk: bool, k: nat)
    requires Layout(e, d0) && Layout(e, d) && Sized(ViewOf(e, d0)) && Sized(ViewOf(e, d))
    requires Valid(e, d0, Primary) && Safe(e, ViewOf(e, d0), ViewOf(e, d))
    requires k < |StageWrites(e, d, stage, lunOk).disks|
    ensures var x := StageWrites(e, d, stage, lunOk).disks[k];
      Layout(e, x) && Sized(ViewOf(e, x)) && Safe(e, ViewOf(e, d0), ViewOf(e, x))
  {
    hide Layout, ViewOf, WithEntriesCrc, WithState, BackupEntries, HeaderSize, Header, ChainWrites, EntriesCrc,
      GetState, StateWrite, StageWrites, SameFrame, EntriesSize, TableBytes;
    var v0, v := ViewOf(e, d0), ViewOf(e, d);
    var disks := StageWrites(e, d, stage, lunOk).disks;
    StageUnfolds(e, d, stage, lunOk);
    MarkedAndRestored(e, v0.p);
    StateIsSet(e, v0.p, false);
    if stage == Backup {
      assert v.p == WithState(e, v0.p, false);
    } else {
      assert v.p == v0.p;
      ChainViews(e, d, stage == Main);
      var c := e.crc(if stage == Main then BackupEntries(e, d) else v.pe);
      EntriesCrcIsSet(e, v.s, c);
      if k == 2 && stage == Main {
        assert GetState(e, WithEntriesCrc(e, v.s, c)) == GptOk;
      }
    }
    StageIsFramed(e, d, stage, lunOk);
    FramedAt(e, d, disks, k);
    ViewIsSized(e, disks[k]);
  }

  lemma RunUnfolds(e: Env, d: bytes, calls: seq<Call>, k: nat)
    requires Layout(e, d) && k < |RunDisks(e, d, calls)|
    ensures k == 0 ==> RunDisks(e, d, calls)[k] == d
    ensures k > 0 ==> (
      calls != [] &&
      var disks := CallDisks(e, d, calls[0]);
      Layout(e, Latest(d, disks)) &&
      if k <= |disks| then RunDisks(e, d, calls)[k] == disks[k - 1]
      else
        k - |disks| - 1 < |RunDisks(e, Latest(d, disks), calls[1..])| &&
        RunDisks(e, d, calls)[k] == RunDisks(e, Latest(d, disks), calls[1..])[k - |disks| - 1])
  {
    hide Layout, StageWrites;
    if calls != [] { CallIsFramed(e, d, calls[0]); }
  }

  /** Whatever stages are called, and wherever each call is cut: after every write one of the two GPTs is valid. */
  lemma {:induction false} AlwaysOneValid(e: Env, d0: bytes, d: bytes, calls: seq<Call>, k: nat)
    requires Layout(e, d0) && Layout(e, d) && Sized(ViewOf(e, d0)) && Sized(ViewOf(e, d))
    requires Valid(e, d0, Primary) && Safe(e, ViewOf(e, d0), ViewOf(e, d))
    requires k < |RunDisks(e, d, calls)|
    ensures Layout(e, RunDisks(e, d, calls)[k])
    ensures Valid(e, RunDisks(e, d, calls)[k], Primary) || Valid(e, RunDisks(e, d, calls)[k], Secondary)
    decreases |calls|
  {
    hide Layout, ViewOf, StageWrites, Safe, ValidIn, SameFrame, HeaderSize, RunDisks, Sized, Framed;
    RunUnfolds(e, d, calls, k);
    if k == 0 {
      SafeHasValid(e, ViewOf(e, d0), ViewOf(e, d));
    } else {
      var c := calls[0];
      var disks := CallDisks(e, d, c);
      var last := Latest(d, disks);
      if k <= |disks| {
        EveryWriteIsSafe(e, d0, d, c.stage, c.lunOk, k - 1);
        SafeHasValid(e, ViewOf(e, d0), ViewOf(e, disks[k - 1]));
      } else {
        if disks != [] { EveryWriteIsSafe(e, d0, d, c.stage, c.lunOk, |disks| - 1); }
        AlwaysOneValid(e, d0, last, calls[1..], k - |disks| - 1);
      }
    }
  }

  /** The statement for a device on which nothing has been written yet. */
  lemma UpdateIsFailsafe(e: Env, d: bytes, calls: seq<Call>)
    requires Layout(e, d) && Valid(e, d, Primary) && Valid(e, d, Secondary)
    ensures forall k: nat | k < |RunDisks(e, d, calls)| ::
      Layout(e, RunDisks(e, d, calls)[k]) &&
      (Valid(e, RunDisks(e, d, calls)[k], Primary) || Valid(e, RunDisks(e, d, calls)[k], Secondary))
  {
    hide Layout, ViewOf, RunDisks, ValidIn, HeaderSize;
    ViewIsSized(e, d);
    forall k: nat | k < |RunDisks(e, d, calls)|
      ensures Layout(e, RunDisks(e, d, calls)[k])
      ensures Valid(e, RunDisks(e, d, calls)[k], Primary) || Valid(e, RunDisks(e, d, calls)[k], Secondary)
    {
      AlwaysOneValid(e, d, d, calls, k);
    }
  }
}
