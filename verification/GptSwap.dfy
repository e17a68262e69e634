/**
 The exchange of boot partition entries with their backup twins (gpt-utils.cpp, gpt_boot_chain_swap).
 A table of entries is a sequence of equally long byte strings; the methods at the end work in place on its bytes.
 */
module GptSwap {
  import opened Bytes
  import opened GptLayout

  /** A table name holds 36 UTF-16 units; the second byte of each is ignored. */
  const NAME_UNITS := 36
  const BAK: bytes := [0x62, 0x61, 0x6B]

  const XBL: bytes := [0x78, 0x62, 0x6C]

  const SWAP_LIST: seq<bytes> := [
    XBL,
    [0x61, 0x62, 0x6C],                                                        // abl
    [0x61, 0x6F, 0x70],                                                        // aop
    [0x64, 0x65, 0x76, 0x63, 0x66, 0x67],                                      // devcfg
    [0x64, 0x74, 0x62, 0x6F],                                                  // dtbo
    [0x68, 0x79, 0x70],                                                        // hyp
    [0x6B, 0x65, 0x79, 0x6D, 0x61, 0x73, 0x74, 0x65, 0x72],                    // keymaster
    [0x71, 0x75, 0x70, 0x66, 0x77],                                            // qupfw
    [0x73, 0x74, 0x6F, 0x72, 0x73, 0x65, 0x63],                                // storsec
    [0x74, 0x7A],                                                              // tz
    [0x75, 0x65, 0x66, 0x69, 0x73, 0x65, 0x63, 0x61, 0x70, 0x70],              // uefisecapp
    [0x76, 0x62, 0x6D, 0x65, 0x74, 0x61],                                      // vbmeta
    [0x76, 0x62, 0x6D, 0x65, 0x74, 0x61, 0x5F, 0x73, 0x79, 0x73, 0x74, 0x65, 0x6D],  // vbmeta_system
    [0x78, 0x62, 0x6C, 0x5F, 0x63, 0x6F, 0x6E, 0x66, 0x69, 0x67]               // xbl_config
  ]

  /** The list as `PTN_SWAP_LIST` spells it. */
  const SWAP_NAMES: seq<string> := [
    "xbl", "abl", "aop", "devcfg", "dtbo", "hyp", "keymaster", "qupfw", "storsec", "tz", "uefisecapp", "vbmeta",
    "vbmeta_system", "xbl_config"]

  predicate Spells(n: bytes, name: string) {
    |n| == |name| && forall k | 0 <= k < |n| :: n[k] == name[k] as int
  }

  lemma SwapListIsSpelled()
    ensures |SWAP_LIST| == |SWAP_NAMES| && forall k | 0 <= k < |SWAP_LIST| :: Spells(SWAP_LIST[k], SWAP_NAMES[k])
  {}

  predicate IsName(n: bytes) {
    0 < |n| <= NAME_UNITS - 4 && NUL !in n
  }

  /** `name8`: the low bytes of the name's units. */
  function NameOf(e: bytes): (r: bytes)
    requires |e| >= PTN_ENTRY_SIZE
    ensures |r| == NAME_UNITS
  {
    seq(NAME_UNITS, i requires 0 <= i < NAME_UNITS => e[PARTITION_NAME_OFFSET + 2 * i])
  }

  /** The entry is called `name` or `name` followed by "bak". */
  predicate Match(e: bytes, name: bytes)
    requires |e| >= PTN_ENTRY_SIZE && IsName(name)
  {
    var name8 := NameOf(e);
    name8[..|name|] == name && (name8[|name|] == NUL || name8[|name|..|name| + 4] == BAK + [NUL])
  }

  /** The name of the entry, as far as its NUL, is `name`, or that with "bak" behind it, and nothing else. */
  lemma MatchExactlyWhen(e: bytes, name: bytes)
    requires |e| >= PTN_ENTRY_SIZE && IsName(name)
    ensures Match(e, name) <==> CString(NameOf(e)) == name || CString(NameOf(e)) == name + [0x62, 0x61, 0x6B]
  {
    hide NameOf;
    var name8, c := NameOf(e), CString(NameOf(e));
    var n := |name|;
    CStringUpTo(name8, n);
    CStringUpTo(name8, n + 3);
    assert name8[..n + 3] == name8[..n] + name8[n..n + 3];
    assert name8[n..n + 4] == name8[n..n + 3] + [name8[n + 3]];
    assert name8[n..n + 4][..3] == name8[n..n + 3] && (name + BAK)[..n] == name && (name + BAK)[n..] == BAK;
    assert name8[..n + 3][..n] == name8[..n] && name8[..n + 3][n..] == name8[n..n + 3];
  }

  /** The C string of a buffer has length `n` if and only if its first NUL stands there. */
  lemma {:induction false} CStringUpTo(b: bytes, n: nat)
    requires n < |b|
    ensures CString(b) == b[..n] <==> NUL !in b[..n] && b[n] == NUL
    decreases n
  {
    if n == 0 {
      assert b[..0] == [];
    } else {
      assert b[..n] == [b[0]] + b[1..][..n - 1];
      CStringUpTo(b[1..], n - 1);
    }
  }

  predicate Table(es: seq<bytes>) {
    forall k | 0 <= k < |es| :: |es[k]| >= PTN_ENTRY_SIZE
  }

  /** The index of the first match at or after `from`, or the length of the table. */
  function First(es: seq<bytes>, name: bytes, from: nat): (r: nat)
    requires Table(es) && IsName(name) && from <= |es|
    ensures from <= r <= |es| && (r < |es| ==> Match(es[r], name))
    ensures forall k | from <= k < r :: !Match(es[k], name)
    decreases |es| - from
  {
    if from == |es| || Match(es[from], name) then from else First(es, name, from + 1)
  }

  /** The two entries that are exchanged for `name`. */
  predicate Pair(es: seq<bytes>, name: bytes, i: nat, j: nat)
    requires Table(es) && IsName(name)
  {
    i < j < |es| && i == First(es, name, 0) && j == First(es, name, i + 1)
  }

  function Half(front: bytes, back: bytes): (r: bytes)
    requires |front| >= PTN_ENTRY_SIZE && |back| >= PTN_ENTRY_SIZE
    ensures |r| == |back|
  {
    front[..PTN_ENTRY_SIZE] + back[PTN_ENTRY_SIZE..]
  }

  function Exchange(es: seq<bytes>, i: nat, j: nat): (r: seq<bytes>)
    requires Table(es) && i < j < |es|
    ensures |r| == |es| && Table(r)
  {
    es[i := Half(es[j], es[i])][j := Half(es[i], es[j])]
  }

  /** One turn of the loop over the swap list. */
  function SwapName(es: seq<bytes>, name: bytes): (r: seq<bytes>)
    requires Table(es) && IsName(name)
    ensures |r| == |es| && Table(r)
    ensures forall k | 0 <= k < |es| :: |r[k]| == |es[k]|
  {
    var i := First(es, name, 0);
    if i == |es| then es
    else
      var j := First(es, name, i + 1);
      if j == |es| then es else Exchange(es, i, j)
  }

  predicate HasPair(es: seq<bytes>, name: bytes)
    requires Table(es) && IsName(name)
  {
    var i := First(es, name, 0);
    i < |es| && First(es, name, i + 1) < |es|
  }

  function SwapNames(es: seq<bytes>, names: seq<bytes>): (r: seq<bytes>)
    requires Table(es) && forall n | n in names :: IsName(n)
    ensures |r| == |es| && Table(r)
    ensures forall k | 0 <= k < |es| :: |r[k]| == |es[k]|
    decreases |names|
  {
    if names == [] then es else SwapNames(SwapName(es, names[0]), names[1..])
  }

  /** UFS devices handle everything called xbl... elsewhere. */
  predicate Skipped(ufs: bool, n: bytes) {
    ufs && XBL <= n
  }

  function Selected(ufs: bool, names: seq<bytes>): (r: seq<bytes>)
    ensures forall n :: n in r <==> n in names && !Skipped(ufs, n)
  {
    if names == [] then []
    else (if Skipped(ufs, names[0]) then [] else [names[0]]) + Selected(ufs, names[1..])
  }

  // ---------------------------------------------------------------- no entry answers to two names

  /** No name of the list is another one followed by a non-empty piece of "bak". */
  predicate Unmistakable(names: seq<bytes>) {
    (forall n | n in names :: IsName(n)) &&
    (forall n, m | n in names && m in names && n < m :: m[|n|] != BAK[0])
  }

  function SetOf(names: seq<bytes>): set<bytes> {
    set n | n in names
  }

  predicate NoRepeats(names: seq<bytes>) {
    forall i, j | 0 <= i < j < |names| :: names[i] != names[j]
  }

  /** An entry that answers to two names goes on with "bak" after the shorter one. */
  lemma LongerName(e: bytes, n: bytes, m: bytes)
    requires IsName(n) && IsName(m) && |n| < |m|
    requires |e| >= PTN_ENTRY_SIZE && Match(e, n) && Match(e, m)
    ensures n < m && m[|n|] == BAK[0]
  {
    hide NameOf;
    var name8 := NameOf(e);
    assert n == m[..|n|] && name8[|n|] == m[|n|];
    assert m[|n|] in m;
    assert name8[|n|] == name8[|n|..|n| + 4][0];
  }

  lemma OneNameOnly(e: bytes, n: bytes, m: bytes, names: seq<bytes>)
    requires Unmistakable(names) && n in names && m in names
    requires |e| >= PTN_ENTRY_SIZE && Match(e, n) && Match(e, m)
    ensures n == m
  {
    hide NameOf;
    if |n| < |m| {
      LongerName(e, n, m);
    } else if |m| < |n| {
      LongerName(e, m, n);
    } else {
      assert n == NameOf(e)[..|n|] == m;
    }
  }

  /** Past its second letter, "dtbo" is the only name with a "b", and "tz" is the only name of two letters. */
  lemma SwapListLetters(m: bytes, p: nat)
    requires m in SWAP_LIST
    ensures IsName(m) && |m| >= 2 && (|m| == 2 ==> m[0] == 0x74)
    ensures 2 <= p < |m| && m[p] == BAK[0] ==> p == 2 && m[0] == 0x64
  {}

  lemma SwapListIsUnmistakable(ufs: bool)
    ensures Unmistakable(Selected(ufs, SWAP_LIST)) && NoRepeats(Selected(ufs, SWAP_LIST))
  {
    var names := SWAP_LIST;
    assert Unmistakable(names) by {
      forall n | n in names ensures IsName(n) { SwapListLetters(n, 0); }
      forall n, m | n in names && m in names && n < m ensures m[|n|] != BAK[0] {
        SwapListLetters(n, 0);
        SwapListLetters(m, |n|);
        assert n[0] == m[0];
      }
    }
    SwapListHasNoRepeats();
    SelectedNoRepeats(ufs, names);
  }

  lemma SwapListHasNoRepeats()
    ensures NoRepeats(SWAP_LIST)
  {}

  lemma {:induction false} SelectedNoRepeats(ufs: bool, names: seq<bytes>)
    requires NoRepeats(names)
    ensures NoRepeats(Selected(ufs, names))
  {
    if names != [] {
      var rest := Selected(ufs, names[1..]);
      assert NoRepeats(names[1..]);
      SelectedNoRepeats(ufs, names[1..]);
      if !Skipped(ufs, names[0]) {
        assert names[0] !in names[1..];
        assert Selected(ufs, names) == [names[0]] + rest;
        forall j | 0 <= j < |rest| ensures names[0] != rest[j] { assert rest[j] in rest; }
      }
    }
  }

  // ---------------------------------------------------------------- what the loop leaves behind

  ghost predicate Alone(es: seq<bytes>, names: set<bytes>, k: nat)
    requires Table(es) && forall n | n in names :: IsName(n)
  {
    forall n, i: nat, j: nat | n in names && Pair(es, n, i, j) :: k != i && k != j
  }

  /** The paired entries have changed places, the others are as they were. No order of the names is involved. */
  ghost predicate Exchanged(es: seq<bytes>, names: set<bytes>, out: seq<bytes>)
    requires Table(es) && forall n | n in names :: IsName(n)
  {
    |out| == |es| &&
    (forall n, i: nat, j: nat | n in names && Pair(es, n, i, j) ::
      out[i] == Half(es[j], es[i]) && out[j] == Half(es[i], es[j])) &&
    (forall k: nat | k < |es| && Alone(es, names, k) :: out[k] == es[k])
  }

  lemma ExchangedIsUnique(es: seq<bytes>, names: set<bytes>, a: seq<bytes>, b: seq<bytes>)
    requires Table(es) && forall n | n in names :: IsName(n)
    requires Exchanged(es, names, a) && Exchanged(es, names, b)
    ensures a == b
  {
    forall k: nat | k < |es| ensures a[k] == b[k] {
      if !Alone(es, names, k) {
        var n, i: nat, j: nat :| n in names && Pair(es, n, i, j) && (k == i || k == j);
      }
    }
  }

  /** Entry for entry, both tables answer to the same names. */
  ghost predicate SameNames(es: seq<bytes>, fs: seq<bytes>, names: set<bytes>) {
    Table(es) && Table(fs) && |es| == |fs| && (forall n | n in names :: IsName(n)) &&
    forall k, n | 0 <= k < |es| && n in names :: Match(es[k], n) == Match(fs[k], n)
  }

  lemma {:induction false} SameFirst(es: seq<bytes>, fs: seq<bytes>, names: set<bytes>, n: bytes, from: nat)
    requires SameNames(es, fs, names) && n in names && from <= |es|
    ensures First(es, n, from) == First(fs, n, from)
    decreases |es| - from
  {
    hide Match;
    if from < |es| && !Match(es[from], n) {
      SameFirst(es, fs, names, n, from + 1);
    }
  }

  lemma SamePairs(es: seq<bytes>, fs: seq<bytes>, names: set<bytes>, n: bytes, i: nat, j: nat)
    requires SameNames(es, fs, names) && n in names
    ensures Pair(es, n, i, j) == Pair(fs, n, i, j)
  {
    hide Match, First;
    SameFirst(es, fs, names, n, 0);
    if i < |es| { SameFirst(es, fs, names, n, i + 1); }
  }

  /** A match is decided by the half of an entry that changes place. */
  lemma MatchOfHalf(a: bytes, b: bytes, n: bytes)
    requires |a| >= PTN_ENTRY_SIZE && |b| >= PTN_ENTRY_SIZE && IsName(n)
    ensures Match(Half(a, b), n) == Match(a, n)
  {
    assert NameOf(Half(a, b)) == NameOf(a);
  }

  lemma SwapNameKeepsNames(es: seq<bytes>, name: bytes, names: seq<bytes>)
    requires Table(es) && Unmistakable(names) && name in names
    ensures SameNames(es, SwapName(es, name), SetOf(names))
  {
    hide Match, Half;
    var out := SwapName(es, name);
    forall k, n | 0 <= k < |es| && n in names ensures Match(es[k], n) == Match(out[k], n) {
      if out != es {
        var i := First(es, name, 0);
        var j := First(es, name, i + 1);
        MatchOfHalf(es[i], es[j], n);
        MatchOfHalf(es[j], es[i], n);
        if k == i || k == j {
          if Match(es[i], n) { OneNameOnly(es[i], n, name, names); }
          if Match(es[j], n) { OneNameOnly(es[j], n, name, names); }
        }
      }
    }
  }

  lemma PairMatches(es: seq<bytes>, name: bytes, i: nat, j: nat)
    requires Table(es) && IsName(name) && Pair(es, name, i, j)
    ensures Match(es[i], name) && Match(es[j], name)
    ensures SwapName(es, name) == Exchange(es, i, j)
  {
    hide Match, Half, Exchange;
  }

  lemma NoPairNoSwap(es: seq<bytes>, name: bytes)
    requires Table(es) && IsName(name)
    ensures HasPair(es, name) <==> exists i: nat, j: nat :: Pair(es, name, i, j)
    ensures !HasPair(es, name) ==> SwapName(es, name) == es
  {
    hide Match, Exchange;
    if HasPair(es, name) {
      assert Pair(es, name, First(es, name, 0), First(es, name, First(es, name, 0) + 1));
    }
  }

  /** The pairs of two names have no entry in common. */
  lemma PairsApart(es: seq<bytes>, names: seq<bytes>, n: bytes, i: nat, j: nat, m: bytes, p: nat, q: nat)
    requires Table(es) && Unmistakable(names) && n in names && m in names && n != m
    requires Pair(es, n, i, j) && Pair(es, m, p, q)
    ensures i != p && i != q && j != p && j != q
  {
    hide Match, First;
    PairMatches(es, n, i, j);
    PairMatches(es, m, p, q);
    if i == p || i == q { OneNameOnly(es[i], n, m, names); }
    if j == p || j == q { OneNameOnly(es[j], n, m, names); }
  }

  lemma RestUnmistakable(names: seq<bytes>)
    requires Unmistakable(names) && NoRepeats(names) && names != []
    ensures Unmistakable(names[1..]) && NoRepeats(names[1..]) && names[0] !in names[1..]
    ensures SetOf(names) == {names[0]} + SetOf(names[1..])
  {
    assert forall n | n in names[1..] :: n in names;
    assert names == [names[0]] + names[1..];
  }

  /** The loop over the swap list exchanges exactly the pairs of the table it started from. */
  lemma {:induction false} SwapNamesExchanges(es: seq<bytes>, names: seq<bytes>)
    requires Table(es) && Unmistakable(names) && NoRepeats(names)
    ensures Exchanged(es, SetOf(names), SwapNames(es, names))
    decreases |names|
  {
    hide Match, Half, First;
    if names != [] {
      var name, rest := names[0], names[1..];
      var all, others := SetOf(names), SetOf(rest);
      var mid, out := SwapName(es, name), SwapNames(es, names);
      RestUnmistakable(names);
      SwapNameKeepsNames(es, name, names);
      SwapNamesExchanges(mid, rest);
      NoPairNoSwap(es, name);
      forall n, i: nat, j: nat | n in all && Pair(es, n, i, j)
        ensures out[i] == Half(es[j], es[i]) && out[j] == Half(es[i], es[j])
      {
        PairMatches(es, n, i, j);
        StepOnPair(es, names, mid, out, n, i, j);
      }
      forall k: nat | k < |es| && Alone(es, all, k) ensures out[k] == es[k] {
        assert mid[k] == es[k] by {
          if HasPair(es, name) {
            var i: nat, j: nat :| Pair(es, name, i, j);
            PairMatches(es, name, i, j);
          }
        }
        forall n, i: nat, j: nat | n in others && Pair(mid, n, i, j) ensures k != i && k != j {
          SamePairs(es, mid, all, n, i, j);
        }
      }
    }
  }

  lemma StepOnPair(es: seq<bytes>, names: seq<bytes>, mid: seq<bytes>, out: seq<bytes>, n: bytes, i: nat, j: nat)
    requires Table(es) && Unmistakable(names) && NoRepeats(names) && names != []
    requires mid == SwapName(es, names[0]) && SameNames(es, mid, SetOf(names))
    requires forall m | m in names[1..] :: IsName(m)
    requires Exchanged(mid, SetOf(names[1..]), out)
    requires n in names && Pair(es, n, i, j)
    ensures out[i] == Half(es[j], es[i]) && out[j] == Half(es[i], es[j])
  {
    hide Match, Half, First;
    var name, all, others := names[0], SetOf(names), SetOf(names[1..]);
    RestUnmistakable(names);
    PairMatches(es, n, i, j);
    NoPairNoSwap(es, name);
    if n == name {
      forall m, p: nat, q: nat | m in others && Pair(mid, m, p, q) ensures i != p && i != q && j != p && j != q {
        SamePairs(es, mid, all, m, p, q);
        PairsApart(es, names, n, i, j, m, p, q);
      }
      assert Alone(mid, others, i) && Alone(mid, others, j);
    } else {
      SamePairs(es, mid, all, n, i, j);
      if HasPair(es, name) {
        var p: nat, q: nat :| Pair(es, name, p, q);
        PairMatches(es, name, p, q);
        PairsApart(es, names, n, i, j, name, p, q);
      }
      assert mid[i] == es[i] && mid[j] == es[j];
    }
  }

  /** Two lists of the same names give the same table. */
  lemma SwapOrderIsIrrelevant(es: seq<bytes>, names: seq<bytes>, others: seq<bytes>)
    requires Table(es) && Unmistakable(names) && NoRepeats(names) && NoRepeats(others)
    requires forall n :: n in names <==> n in others
    ensures Unmistakable(others) && SwapNames(es, names) == SwapNames(es, others)
  {
    hide Match, Half, First, SwapNames;
    SwapNamesExchanges(es, names);
    SwapNamesExchanges(es, others);
    assert SetOf(names) == SetOf(others);
    ExchangedIsUnique(es, SetOf(names), SwapNames(es, names), SwapNames(es, others));
  }

  lemma {:induction false} SwapNamesKeepsNames(es: seq<bytes>, todo: seq<bytes>, names: seq<bytes>)
    requires Table(es) && Unmistakable(names) && forall n | n in todo :: n in names
    ensures SameNames(es, SwapNames(es, todo), SetOf(names))
    decreases |todo|
  {
    hide Match, SwapName;
    if todo != [] {
      SwapNameKeepsNames(es, todo[0], names);
      SwapNamesKeepsNames(SwapName(es, todo[0]), todo[1..], names);
    }
  }

  lemma HalfTwice(a: bytes, b: bytes)
    requires |a| >= PTN_ENTRY_SIZE && |b| >= PTN_ENTRY_SIZE
    ensures Half(Half(b, a), Half(a, b)) == b && Half(Half(a, b), Half(b, a)) == a
  {}

  /** Swapping twice gives the table back. */
  lemma SwapIsItsOwnInverse(es: seq<bytes>, names: seq<bytes>)
    requires Table(es) && Unmistakable(names) && NoRepeats(names)
    ensures SwapNames(SwapNames(es, names), names) == es
  {
    hide Match, Half, First, SwapNames;
    var all := SetOf(names);
    var out := SwapNames(es, names);
    SwapNamesKeepsNames(es, names, names);
    SwapNamesExchanges(es, names);
    SwapNamesExchanges(out, names);
    assert Exchanged(out, all, es) by {
      forall n, i: nat, j: nat | n in all && Pair(out, n, i, j)
        ensures es[i] == Half(out[j], out[i]) && es[j] == Half(out[i], out[j]) {
        SamePairs(es, out, all, n, i, j);
        PairMatches(es, n, i, j);
        HalfTwice(es[i], es[j]);
      }
      forall k: nat | k < |es| && Alone(out, all, k) ensures es[k] == out[k] {
        forall n, i: nat, j: nat | n in all && Pair(es, n, i, j)
          ensures k != i && k != j { SamePairs(es, out, all, n, i, j); }
      }
    }
    ExchangedIsUnique(out, all, SwapNames(out, names), es);
  }

  // ---------------------------------------------------------------- what is exchanged on which device

  /** A device boots from two entries of this name, and does not leave them to the switch of the boot LUN. */
  predicate Traded(ufs: bool, n: bytes) {
    n in SWAP_LIST && !(ufs && |n| >= 3 && n[0] == 0x78 && n[1] == 0x62 && n[2] == 0x6C)
  }

  ghost predicate Twins(es: seq<bytes>, ufs: bool, n: bytes, i: nat, j: nat)
    requires Table(es)
  {
    Traded(ufs, n) && IsName(n) && Pair(es, n, i, j)
  }

  /** The first 128 bytes of twins have changed places; whatever is no twin is as it was. */
  ghost predicate ChainSwapped(es: seq<bytes>, ufs: bool, out: seq<bytes>)
    requires Table(es)
  {
    |out| == |es| &&
    (forall n, i: nat, j: nat | Twins(es, ufs, n, i, j) ::
      out[i] == es[j][..128] + es[i][128..] && out[j] == es[i][..128] + es[j][128..]) &&
    (forall k: nat | k < |es| && (forall n, i: nat, j: nat | Twins(es, ufs, n, i, j) :: k != i && k != j) ::
      out[k] == es[k])
  }

  lemma SelectedAreTraded(ufs: bool, n: bytes)
    ensures n in Selected(ufs, SWAP_LIST) <==> Traded(ufs, n)
  {
    assert XBL <= n <==> |n| >= 3 && n[0] == 0x78 && n[1] == 0x62 && n[2] == 0x6C;
  }

  /** On a table: with or without UFS, the exchange trades exactly the twins. */
  lemma SelectedAreExchanged(es: seq<bytes>, ufs: bool)
    requires Table(es)
    ensures Unmistakable(Selected(ufs, SWAP_LIST))
    ensures ChainSwapped(es, ufs, SwapNames(es, Selected(ufs, SWAP_LIST)))
    ensures HasTwins(es, Selected(ufs, SWAP_LIST)) <==>
      exists n, i: nat, j: nat :: Twins(es, ufs, n, i, j)
  {
    hide Match, First, SwapNames, Traded, Selected, Pair, IsName, HasPair;
    SwapListIsUnmistakable(ufs);
    var names := Selected(ufs, SWAP_LIST);
    SwapNamesExchanges(es, names);
    forall n ensures n in names <==> Traded(ufs, n) { SelectedAreTraded(ufs, n); }
    forall n, i: nat, j: nat ensures Twins(es, ufs, n, i, j) <==> n in names && Pair(es, n, i, j) {}
    forall n | n in names ensures HasPair(es, n) <==> exists i: nat, j: nat :: Pair(es, n, i, j) {
      NoPairNoSwap(es, n);
    }
    TradedFronts(es, ufs, names, SwapNames(es, names));
  }

  lemma TradedFronts(es: seq<bytes>, ufs: bool, names: seq<bytes>, out: seq<bytes>)
    requires Table(es) && (forall n | n in names :: IsName(n)) && Exchanged(es, SetOf(names), out)
    requires forall n, i: nat, j: nat :: Twins(es, ufs, n, i, j) <==> n in names && Pair(es, n, i, j)
    ensures ChainSwapped(es, ufs, out)
  {
    hide Match, First, Twins, Pair, IsName;
    forall n, i: nat, j: nat | Twins(es, ufs, n, i, j)
      ensures i < |es| && j < |es|
      ensures out[i] == es[j][..128] + es[i][128..] && out[j] == es[i][..128] + es[j][128..]
    {
      assert n in SetOf(names);
      PairInside(es, n, i, j);
    }
  }

  lemma PairInside(es: seq<bytes>, n: bytes, i: nat, j: nat)
    requires Table(es) && IsName(n) && Pair(es, n, i, j)
    ensures i < |es| && j < |es|
  {}

  // ---------------------------------------------------------------- a permutation

  function Fronts(es: seq<bytes>): (r: seq<bytes>)
    requires Table(es)
    ensures |r| == |es|
  {
    seq(|es|, k requires 0 <= k < |es| => es[k][..PTN_ENTRY_SIZE])
  }

  lemma ExchangePermutes(es: seq<bytes>, i: nat, j: nat)
    requires Table(es) && i < j < |es|
    ensures multiset(Fronts(Exchange(es, i, j))) == multiset(Fronts(es))
  {
    var a, b := Fronts(es), Fronts(Exchange(es, i, j));
    assert b == a[i := a[j]][j := a[i]];
  }

  /** The 128-byte entries are permuted; what a table keeps behind each of them stays in its place. */
  lemma {:induction false} SwapPermutes(es: seq<bytes>, names: seq<bytes>)
    requires Table(es) && forall n | n in names :: IsName(n)
    ensures multiset(Fronts(SwapNames(es, names))) == multiset(Fronts(es))
    ensures forall k | 0 <= k < |es| :: SwapNames(es, names)[k][PTN_ENTRY_SIZE..] == es[k][PTN_ENTRY_SIZE..]
    decreases |names|
  {
    hide Match;
    if names != [] {
      var i := First(es, names[0], 0);
      if i < |es| && First(es, names[0], i + 1) < |es| {
        ExchangePermutes(es, i, First(es, names[0], i + 1));
      }
      SwapPermutes(SwapName(es, names[0]), names[1..]);
    }
  }

  // ---------------------------------------------------------------- the table as one buffer

  lemma {:induction false} EntryFits(k: nat, n: nat, esz: nat)
    requires k < n
    ensures Times(k, esz) + esz == Times(k + 1, esz) <= Times(n, esz)
  {
    if k + 1 < n { EntryFits(k, n - 1, esz); }
  }

  lemma EntriesApart(i: nat, j: nat, esz: nat)
    requires i < j
    ensures Times(i, esz) + esz <= Times(j, esz)
  {
    EntryFits(i, j, esz);
  }

  function Entry(b: bytes, esz: nat, k: nat): bytes {
    if Times(k, esz) + esz <= |b| then b[Times(k, esz)..Times(k, esz) + esz] else []
  }

  /** The buffer as a table of `n` entries. */
  function Chop(b: bytes, esz: nat, n: nat): (r: seq<bytes>)
    requires |b| == Times(n, esz)
    ensures |r| == n && forall k | 0 <= k < n :: |r[k]| == esz
  {
    assert forall k: nat | k < n :: |Entry(b, esz, k)| == esz by {
      forall k: nat | k < n ensures |Entry(b, esz, k)| == esz { EntryFits(k, n, esz); }
    }
    seq(n, k requires 0 <= k < n => Entry(b, esz, k))
  }

  function Join(es: seq<bytes>, esz: nat): (r: bytes)
    requires forall k | 0 <= k < |es| :: |es[k]| == esz
    ensures |r| == Times(|es|, esz)
  {
    if es == [] then []
    else
      EntryFits(|es| - 1, |es|, esz);
      Join(es[..|es| - 1], esz) + es[|es| - 1]
  }

  lemma {:induction false} JoinOfChop(b: bytes, esz: nat, n: nat)
    requires |b| == Times(n, esz)
    ensures Join(Chop(b, esz, n), esz) == b
    decreases n
  {
    if n > 0 {
      EntryFits(n - 1, n, esz);
      var cut := Times(n - 1, esz);
      var front, es := b[..cut], Chop(b, esz, n);
      JoinOfChop(front, esz, n - 1);
      ChopOfFront(b, esz, n);
      assert es[n - 1] == b[cut..];
      assert b == front + b[cut..];
    }
  }

  lemma ChopOfFront(b: bytes, esz: nat, n: nat)
    requires |b| == Times(n, esz) && n > 0
    ensures |b| >= Times(n - 1, esz) && Chop(b[..Times(n - 1, esz)], esz, n - 1) == Chop(b, esz, n)[..n - 1]
  {
    hide Times;
    EntryFits(n - 1, n, esz);
    var front := b[..Times(n - 1, esz)];
    forall k: nat | k < n - 1 ensures Entry(front, esz, k) == Entry(b, esz, k) { EntryFits(k, n - 1, esz); }
  }

  /** The entries array after the exchange for `names`. */
  function Swapped(b: bytes, esz: nat, n: nat, names: seq<bytes>): (r: bytes)
    requires |b| == Times(n, esz) && esz >= PTN_ENTRY_SIZE && forall m | m in names :: IsName(m)
    ensures |r| == |b|
  {
    Join(SwapNames(Chop(b, esz, n), names), esz)
  }

  /** Some name finds both of its entries. */
  predicate HasTwins(es: seq<bytes>, names: seq<bytes>)
    requires Table(es) && forall m | m in names :: IsName(m)
  {
    exists m | m in names :: HasPair(es, m)
  }

  lemma {:induction false} ChopOfJoin(es: seq<bytes>, esz: nat)
    requires forall k | 0 <= k < |es| :: |es[k]| == esz
    ensures Chop(Join(es, esz), esz, |es|) == es
  {
    var n := |es|;
    if n > 0 {
      EntryFits(n - 1, n, esz);
      var front, all := Join(es[..n - 1], esz), Join(es, esz);
      ChopOfJoin(es[..n - 1], esz);
      forall k: nat | k < n ensures Entry(all, esz, k) == es[k] {
        if k < n - 1 {
          EntryFits(k, n - 1, esz);
          assert Entry(front, esz, k) == Chop(front, esz, n - 1)[k] == es[k];
        }
      }
    }
  }

  /** On the buffer as on the table: the exchange undoes itself. */
  lemma SwappedTwice(b: bytes, esz: nat, n: nat, names: seq<bytes>)
    requires |b| == Times(n, esz) && esz >= PTN_ENTRY_SIZE && Unmistakable(names) && NoRepeats(names)
    ensures Swapped(Swapped(b, esz, n, names), esz, n, names) == b
  {
    hide SwapNames;
    var es := Chop(b, esz, n);
    ChopOfJoin(SwapNames(es, names), esz);
    SwapIsItsOwnInverse(es, names);
    JoinOfChop(b, esz, n);
  }

  // ---------------------------------------------------------------- in place

  /** `memcpy` */
  method Copy(dst: array<byte>, at: nat, src: array<byte>, from: nat, len: nat)
    requires at + len <= dst.Length && from + len <= src.Length
    requires dst == src ==> at + len <= from || from + len <= at
    modifies dst
    ensures dst[..] == Write(old(dst[..]), at, old(src[from..from + len]))
  {
    for i := 0 to len
      invariant forall k | 0 <= k < dst.Length ::
        dst[k] == if at <= k < at + i then old(src[from + (k - at)]) else old(dst[k])
    {
      dst[at + i] := src[from + i];
    }
  }

  /** The comparison of `gpt_pentry_seek`: the low bytes of the name, `strncmp` and `strcmp`. */
  method Answers(p: array<byte>, off: nat, name: bytes) returns (r: bool)
    requires off + PTN_ENTRY_SIZE <= p.Length && IsName(name)
    ensures r == Match(p[off..off + PTN_ENTRY_SIZE], name)
  {
    var name8 := new byte[NAME_UNITS];
    ghost var e := p[off..off + PTN_ENTRY_SIZE];
    for i := 0 to NAME_UNITS
      invariant forall k | 0 <= k < i :: name8[k] == NameOf(e)[k]
    {
      name8[i] := p[off + PARTITION_NAME_OFFSET + 2 * i];
    }
    assert name8[..] == NameOf(e);
    for i := 0 to |name|
      invariant name8[..i] == name[..i]
    {
      if name8[i] != name[i] {
        assert NameOf(e)[..|name|][i] != name[i];
        return false;
      }
    }
    assert name8[..|name|] == name;
    return name8[|name|] == NUL || name8[|name|..|name| + 4] == BAK + [NUL];
  }

  lemma MatchOfFront(e: bytes, name: bytes)
    requires |e| >= PTN_ENTRY_SIZE && IsName(name)
    ensures Match(e[..PTN_ENTRY_SIZE], name) == Match(e, name)
  {
    assert NameOf(e[..PTN_ENTRY_SIZE]) == NameOf(e);
  }

  /** `gpt_pentry_seek` between two entries of the buffer; the length of the buffer stands for NULL. */
  method Seek(p: array<byte>, name: bytes, start: nat, esz: nat, ghost n: nat, ghost s: nat)
    returns (off: nat, ghost k: nat)
    requires p.Length == Times(n, esz) && esz >= PTN_ENTRY_SIZE && IsName(name)
    requires s <= n && start == Times(s, esz)
    ensures off == Times(First(Chop(p[..], esz, n), name, s), esz)
    ensures k == First(Chop(p[..], esz, n), name, s)
    ensures off < p.Length <==> k < n
    ensures k < n ==> off + esz <= p.Length
  {
    hide Match, First;
    ghost var es := Chop(p[..], esz, n);
    off, k := start, s;
    while off + PARTITION_NAME_OFFSET < p.Length
      invariant s <= k <= n && off == Times(k, esz)
      invariant First(es, name, s) == First(es, name, k)
      decreases p.Length - off
    {
      if k == n { assert false; }
      EntryFits(k, n, esz);
      assert es[k] == p[off..off + esz];
      assert es[k][..PTN_ENTRY_SIZE] == p[off..off + PTN_ENTRY_SIZE];
      MatchOfFront(es[k], name);
      var found := Answers(p, off, name);
      FirstUnfolds(es, name, k);
      if found { return; }
      off, k := off + esz, k + 1;
    }
    if k < n { EntryFits(k, n, esz); }
    FirstUnfolds(es, name, k);
  }

  lemma FirstUnfolds(es: seq<bytes>, name: bytes, from: nat)
    requires Table(es) && IsName(name) && from <= |es|
    ensures First(es, name, from) == if from == |es| || Match(es[from], name) then from else First(es, name, from + 1)
  {}

  lemma {:induction false} SelectedMore(ufs: bool, names: seq<bytes>, n: bytes)
    ensures Selected(ufs, names + [n]) == Selected(ufs, names) + if Skipped(ufs, n) then [] else [n]
  {
    hide Skipped;
    if names == [] {
      assert names + [n] == [n] && [n][1..] == [];
    } else {
      var first := if Skipped(ufs, names[0]) then [] else [names[0]];
      var last := if Skipped(ufs, n) then [] else [n];
      SelectedMore(ufs, names[1..], n);
      assert (names + [n])[1..] == names[1..] + [n];
      assert first + (Selected(ufs, names[1..]) + last) == (first + Selected(ufs, names[1..])) + last;
    }
  }

  lemma {:induction false} SwapNamesMore(es: seq<bytes>, names: seq<bytes>, n: bytes)
    requires Table(es) && IsName(n) && forall m | m in names :: IsName(m)
    ensures SwapNames(es, names + [n]) == SwapName(SwapNames(es, names), n)
    decreases |names|
  {
    hide SwapName;
    if names == [] {
      assert names + [n] == [n] && [n][1..] == [];
    } else {
      SwapNamesMore(SwapName(es, names[0]), names[1..], n);
      assert (names + [n])[1..] == names[1..] + [n];
    }
  }

  lemma WriteInFront(d: bytes, off: nat, buf: bytes, len: nat)
    requires |buf| <= len && off + len <= |d|
    ensures Write(d, off, buf)[off..off + len] == buf + d[off + |buf|..off + len]
  {}

  lemma SliceOfSlice(b: bytes, i: nat, esz: nat)
    requires esz >= PTN_ENTRY_SIZE && i + esz <= |b|
    ensures b[i..i + esz][..PTN_ENTRY_SIZE] == b[i..i + PTN_ENTRY_SIZE]
    ensures b[i..i + esz][PTN_ENTRY_SIZE..] == b[i + PTN_ENTRY_SIZE..i + esz]
  {}

  /** A window of the buffer after the fronts at `i` and `j` have changed places. */
  lemma WindowExchanged(b: bytes, i: nat, j: nat, k: nat, esz: nat)
    requires esz >= PTN_ENTRY_SIZE && i + esz <= j && j + esz <= |b| && k + esz <= |b|
    requires k == i || k == j || ((k + esz <= i || i + esz <= k) && (k + esz <= j || j + esz <= k))
    ensures var w := Write(Write(b, i, b[j..j + PTN_ENTRY_SIZE]), j, b[i..i + PTN_ENTRY_SIZE]);
      w[k..k + esz] ==
        if k == i then Half(b[j..j + esz], b[i..i + esz])
        else if k == j then Half(b[i..i + esz], b[j..j + esz])
        else b[k..k + esz]
  {
    hide Write;
    var front, back := b[i..i + PTN_ENTRY_SIZE], b[j..j + PTN_ENTRY_SIZE];
    var one := Write(b, i, back);
    SliceOfSlice(b, i, esz);
    SliceOfSlice(b, j, esz);
    if k == i {
      ReadApart(one, j, front, k, esz);
      WriteInFront(b, i, back, esz);
    } else {
      ReadApart(b, i, back, k, esz);
      if k == j {
        WriteInFront(one, j, front, esz);
        SliceOfSlice(one, j, esz);
      } else {
        ReadApart(one, j, front, k, esz);
      }
    }
  }

  /** The buffer after the exchange of the fronts of entries `i` and `j`. */
  function FrontsSwapped(b: bytes, esz: nat, i: nat, j: nat): (w: bytes)
    requires Times(i, esz) + PTN_ENTRY_SIZE <= |b| && Times(j, esz) + PTN_ENTRY_SIZE <= |b|
    ensures |w| == |b|
  {
    var x, y := Times(i, esz), Times(j, esz);
    Write(Write(b, x, b[y..y + PTN_ENTRY_SIZE]), y, b[x..x + PTN_ENTRY_SIZE])
  }

  /** Where entry `k` lies in relation to the entries `i` and `j`. */
  lemma Offsets(i: nat, j: nat, k: nat, n: nat, esz: nat)
    requires i < j < n && k < n
    ensures var x, y, z, end := Times(i, esz), Times(j, esz), Times(k, esz), Times(n, esz);
      x + esz <= y && y + esz <= end && z + esz <= end &&
      (k == i ==> z == x) && (k == j ==> z == y) &&
      (k != i ==> z + esz <= x || x + esz <= z) && (k != j ==> z + esz <= y || y + esz <= z)
  {
    hide Times;
    EntryFits(j, n, esz);
    EntryFits(k, n, esz);
    EntriesApart(i, j, esz);
    if k < i { EntriesApart(k, i, esz); } else if i < k { EntriesApart(i, k, esz); }
    if k < j { EntriesApart(k, j, esz); } else if j < k { EntriesApart(j, k, esz); }
  }

  lemma SwappedEntry(b: bytes, esz: nat, n: nat, i: nat, j: nat, k: nat)
    requires |b| == Times(n, esz) && esz >= PTN_ENTRY_SIZE && i < j < n && k < n
    ensures Times(i, esz) + esz <= |b| && Times(j, esz) + esz <= |b|
    ensures Entry(FrontsSwapped(b, esz, i, j), esz, k) ==
      if k == i then Half(Entry(b, esz, j), Entry(b, esz, i))
      else if k == j then Half(Entry(b, esz, i), Entry(b, esz, j))
      else Entry(b, esz, k)
  {
    hide Write, Times, Half;
    Offsets(i, j, k, n, esz);
    WindowExchanged(b, Times(i, esz), Times(j, esz), Times(k, esz), esz);
  }

  /** The three copies through `ptn_swap`, seen on the table. */
  lemma WritesExchange(b: bytes, esz: nat, n: nat, i: nat, j: nat)
    requires |b| == Times(n, esz) && esz >= PTN_ENTRY_SIZE && i < j < n
    ensures Times(i, esz) + esz <= Times(j, esz) && Times(j, esz) + esz <= |b|
    ensures Chop(FrontsSwapped(b, esz, i, j), esz, n) == Exchange(Chop(b, esz, n), i, j)
  {
    EntryFits(j, n, esz);
    EntriesApart(i, j, esz);
    hide Times, Half, FrontsSwapped, Entry;
    var w, es := FrontsSwapped(b, esz, i, j), Chop(b, esz, n);
    forall k: nat | k < n ensures Chop(w, esz, n)[k] == Exchange(es, i, j)[k] {
      SwappedEntry(b, esz, n, i, j, k);
    }
  }

  lemma WriteAll(d: bytes, buf: bytes)
    requires |d| == |buf|
    ensures Write(d, 0, buf) == buf
  {}

  /** Two 128-byte pieces change places through `ptn_swap`. */
  method SwapFronts(p: array<byte>, entry: nat, bak: nat)
    requires entry + PTN_ENTRY_SIZE <= bak && bak + PTN_ENTRY_SIZE <= p.Length
    modifies p
    ensures var b := old(p[..]);
      p[..] == Write(Write(b, entry, b[bak..bak + PTN_ENTRY_SIZE]), bak, b[entry..entry + PTN_ENTRY_SIZE])
  {
    hide Write;
    ghost var b := p[..];
    var swap := new byte[PTN_ENTRY_SIZE];
    ghost var front, back := b[entry..entry + PTN_ENTRY_SIZE], b[bak..bak + PTN_ENTRY_SIZE];
    WriteAll(swap[..], front);
    assert p[entry..entry + PTN_ENTRY_SIZE] == front && p[bak..bak + PTN_ENTRY_SIZE] == back;
    Copy(swap, 0, p, entry, PTN_ENTRY_SIZE);
    assert p[..] == b && p[bak..bak + PTN_ENTRY_SIZE] == back;
    Copy(p, entry, p, bak, PTN_ENTRY_SIZE);
    assert swap[0..PTN_ENTRY_SIZE] == swap[..] == front;
    Copy(p, bak, swap, 0, PTN_ENTRY_SIZE);
  }

  lemma SwapNameIs(es: seq<bytes>, name: bytes)
    requires Table(es) && IsName(name)
    ensures var i := First(es, name, 0);
      if i < |es| && First(es, name, i + 1) < |es| then
        HasPair(es, name) && SwapName(es, name) == Exchange(es, i, First(es, name, i + 1))
      else
        !HasPair(es, name) && SwapName(es, name) == es
  {
    hide First, Match, Exchange;
  }

  lemma ChopIsTable(b: bytes, esz: nat, n: nat)
    requires |b| == Times(n, esz) && esz >= PTN_ENTRY_SIZE
    ensures Table(Chop(b, esz, n)) && Times(0, esz) == 0
  {}

  /** What one turn finds and changes. */
  method SwapOne(p: array<byte>, name: bytes, esz: nat, ghost n: nat) returns (swapped: bool)
    requires p.Length == Times(n, esz) && esz >= PTN_ENTRY_SIZE && IsName(name)
    modifies p
    ensures Chop(p[..], esz, n) == SwapName(Chop(old(p[..]), esz, n), name)
    ensures swapped == HasPair(Chop(old(p[..]), esz, n), name)
  {
    hide Match, First, Exchange, Write, Chop, Times, SwapName, HasPair, IsName, Table;
    ghost var b := p[..];
    ChopIsTable(b, esz, n);
    SwapNameIs(Chop(b, esz, n), name);
    var entry, i := Seek(p, name, 0, esz, n, 0);
    if entry == p.Length { return false; }
    EntryFits(i, n, esz);
    var bak, j := Seek(p, name, entry + esz, esz, n, i + 1);
    if bak == p.Length { return false; }
    WritesExchange(b, esz, n, i, j);
    SwapFronts(p, entry, bak);
    assert p[..] == FrontsSwapped(b, esz, i, j);
    return true;
  }

  lemma SamePairFound(es: seq<bytes>, names: seq<bytes>, done: seq<bytes>, name: bytes)
    requires Table(es) && Unmistakable(names) && name in names && forall m | m in done :: m in names
    ensures HasPair(SwapNames(es, done), name) == HasPair(es, name)
  {
    hide Match, First, SwapNames;
    var fs := SwapNames(es, done);
    SwapNamesKeepsNames(es, done, names);
    SameFirst(es, fs, SetOf(names), name, 0);
    if First(es, name, 0) < |es| { SameFirst(es, fs, SetOf(names), name, First(es, name, 0) + 1); }
  }

  /** The table and `backup_not_found` once the names in `done` had their turn. */
  ghost predicate Progress(es: seq<bytes>, done: seq<bytes>, all: seq<bytes>, now: seq<bytes>, backupNotFound: int)
    requires Table(es) && Unmistakable(all)
  {
    (forall m | m in done :: m in all) &&
    now == SwapNames(es, done) && backupNotFound == if HasTwins(es, done) then 0 else 1
  }

  lemma ProgressMore(es: seq<bytes>, done: seq<bytes>, all: seq<bytes>, now: seq<bytes>, nf: int, name: bytes)
    requires Table(es) && Unmistakable(all) && name in all && Progress(es, done, all, now, nf)
    ensures Table(now)
    ensures Progress(es, done + [name], all, SwapName(now, name), if HasPair(now, name) then 0 else nf)
  {
    hide SwapName, HasPair, SwapNames;
    SwapNamesMore(es, done, name);
    SamePairFound(es, all, done, name);
    assert forall m :: m in done + [name] <==> m in done || m == name;
  }

  /** One turn of the loop over the list. */
  method SwapTurn(p: array<byte>, esz: nat, ufs: bool, name: bytes, nf: int, ghost n: nat,
                  ghost es: seq<bytes>, ghost done: seq<bytes>, ghost all: seq<bytes>)
    returns (backupNotFound: int, ghost next: seq<bytes>)
    requires p.Length == Times(n, esz) && esz >= PTN_ENTRY_SIZE && Table(es) && Unmistakable(all)
    requires Skipped(ufs, name) || name in all
    requires Progress(es, done, all, Chop(p[..], esz, n), nf)
    modifies p
    ensures next == done + if Skipped(ufs, name) then [] else [name]
    ensures Progress(es, next, all, Chop(p[..], esz, n), backupNotFound)
  {
    hide SwapName, HasPair, Skipped, IsName, SwapNames, HasTwins, Entry, Times, Unmistakable, Progress, Chop;
    next, backupNotFound := done, nf;
    if Skipped(ufs, name) { return; }
    ProgressMore(es, done, all, Chop(p[..], esz, n), nf, name);
    NameIsName(all, name);
    var swapped := SwapOne(p, name, esz, n);
    if swapped { backupNotFound := 0; }
    next := done + [name];
  }

  method SwapAll(p: array<byte>, esz: nat, ufs: bool, list: seq<bytes>, ghost n: nat) returns (backupNotFound: int)
    requires p.Length == Times(n, esz) && esz >= PTN_ENTRY_SIZE && Unmistakable(Selected(ufs, list))
    modifies p
    ensures p[..] == Swapped(old(p[..]), esz, n, Selected(ufs, list))
    ensures backupNotFound == if HasTwins(Chop(old(p[..]), esz, n), Selected(ufs, list)) then 0 else 1
  {
    hide SwapName, HasPair, Skipped, IsName, SwapNames, HasTwins, Entry, Join, Times, Unmistakable, Selected;
    ghost var es, all := Chop(p[..], esz, n), Selected(ufs, list);
    backupNotFound := 1;
    NothingDone(es, all);
    ghost var done := [];
    assert list[..0] == [];
    NothingSelected(ufs);
    for i := 0 to |list|
      invariant done == Selected(ufs, list[..i])
      invariant Progress(es, done, all, Chop(p[..], esz, n), backupNotFound)
    {
      hide Progress, Chop;
      SelectedMore(ufs, list[..i], list[i]);
      assert list[..i + 1] == list[..i] + [list[i]];
      backupNotFound, done := SwapTurn(p, esz, ufs, list[i], backupNotFound, n, es, done, all);
    }
    assert list[..|list|] == list;
    JoinOfChop(p[..], esz, n);
  }

  lemma NothingSelected(ufs: bool)
    ensures Selected(ufs, []) == []
  {}

  lemma NothingDone(es: seq<bytes>, all: seq<bytes>)
    requires Table(es) && Unmistakable(all)
    ensures Progress(es, [], all, es, 1)
  {}

  lemma NameIsName(names: seq<bytes>, n: bytes)
    requires Unmistakable(names) && n in names
    ensures IsName(n)
  {}

  /** The exchange on the buffer, seen on its entries. */
  lemma SwappedEntries(b: bytes, esz: nat, n: nat, ufs: bool)
    requires |b| == Times(n, esz) && esz >= PTN_ENTRY_SIZE
    ensures Unmistakable(Selected(ufs, SWAP_LIST)) &&
      ChainSwapped(Chop(b, esz, n), ufs, Chop(Swapped(b, esz, n, Selected(ufs, SWAP_LIST)), esz, n))
  {
    hide SwapNames, ChainSwapped, Times, Entry, Selected, Unmistakable, Chop, Join, Twins, HasTwins, IsName;
    var es, names := Chop(b, esz, n), Selected(ufs, SWAP_LIST);
    SelectedAreExchanged(es, ufs);
    UnmistakableNames(names);
    var out := SwapNames(es, names);
    assert forall k | 0 <= k < n :: |out[k]| == |es[k]| == esz;
    ChopOfJoin(out, esz);
  }

  lemma UnmistakableNames(names: seq<bytes>)
    requires Unmistakable(names)
    ensures forall m | m in names :: IsName(m)
  {}

  /** `gpt_boot_chain_swap` */
  method BootChainSwap(p: array<byte>, esz: nat, ufs: bool, ghost n: nat) returns (backupNotFound: int)
    requires p.Length == Times(n, esz) && esz >= PTN_ENTRY_SIZE
    modifies p
    ensures ChainSwapped(Chop(old(p[..]), esz, n), ufs, Chop(p[..], esz, n))
    ensures backupNotFound ==
      if exists m, i: nat, j: nat :: Twins(Chop(old(p[..]), esz, n), ufs, m, i, j) then 0 else 1
    ensures Unmistakable(Selected(ufs, SWAP_LIST)) && p[..] == Swapped(old(p[..]), esz, n, Selected(ufs, SWAP_LIST))
    ensures backupNotFound == if HasTwins(Chop(old(p[..]), esz, n), Selected(ufs, SWAP_LIST)) then 0 else 1
  {
    hide Swapped, HasTwins, Chop, ChainSwapped, Twins, Selected, Unmistakable;
    SwapListIsUnmistakable(ufs);
    ghost var b := p[..];
    backupNotFound := SwapAll(p, esz, ufs, SWAP_LIST, n);
    SwappedEntries(b, esz, n, ufs);
    SelectedAreExchanged(Chop(b, esz, n), ufs);
  }
}
