/** The growing output buffer (printbuf.c, printbuf.h). Sizes are unbounded. */
module PrintBuf {
  import opened Bytes

  /** The size of a buffer of `size` bytes once it was asked to hold `min`. */
  function Grown(size: nat, min: nat): (r: nat)
    ensures r >= min && r >= size
    ensures size < min ==> r >= 2 * size && r >= min + 8 && (r == 2 * size || r == min + 8)
  {
    if size >= min then size else if 2 * size < min + 8 then min + 8 else 2 * size
  }

  function Fill(c: byte, n: nat): (r: bytes)
    ensures |r| == n
  {
    seq(n, _ => c)
  }

  /** `now` is `whole` with `n` bytes from `at` on set to `c`. */
  predicate IsFilled(whole: bytes, now: bytes, at: nat, c: byte, n: nat) {
    |now| == |whole| && forall k | 0 <= k < |now| :: now[k] == if at <= k < at + n then c else whole[k]
  }

  lemma Filled(whole: bytes, now: bytes, at: nat, c: byte, n: nat)
    requires IsFilled(whole, now, at, c, n) && at + n <= |now|
    ensures now[at..at + n] == Fill(c, n) && now[..at + n] == whole[..at] + Fill(c, n)
  {}

  class PrintBuf {
    var buf: array<byte>
    var bpos: nat

    ghost predicate Valid()
      reads this
    {
      bpos <= buf.Length
    }

    /** Everything added since the last reset. */
    ghost function Contents(): bytes
      reads this, buf
      requires Valid()
    {
      buf[..bpos]
    }

    /** The contents can be read as a C string. */
    ghost predicate Terminated()
      reads this, buf
    {
      bpos < buf.Length && buf[bpos] == NUL
    }

    constructor ()
      ensures Valid() && fresh(buf) && Contents() == [] && buf.Length == 32
    {
      buf := new byte[32];
      bpos := 0;
    }

    /** `printbuf_extend`: a larger block, with the old bytes copied. */
    method Extend(min: nat)
      modifies this
      ensures bpos == old(bpos) && buf.Length == Grown(old(buf.Length), min)
      ensures buf[..old(buf.Length)] == old(buf[..]) && (buf == old(buf) || fresh(buf))
    {
      if buf.Length >= min { return; }
      var size := buf.Length * 2;
      if size < min + 8 { size := min + 8; }
      var t := new byte[size];
      for i := 0 to buf.Length
        invariant t[..i] == buf[..i]
        modifies t
      {
        t[i] := buf[i];
      }
      buf := t;
    }

    /** `memcpy` to `bpos`, which is then moved; the terminator follows. */
    method Store(s: bytes)
      requires bpos + |s| < buf.Length
      modifies this, buf
      ensures Valid() && buf == old(buf) && Contents() == old(buf[..bpos]) + s && Terminated()
    {
      for i := 0 to |s|
        invariant buf[..bpos + i] == old(buf[..bpos]) + s[..i]
        modifies buf
      {
        buf[bpos + i] := s[i];
      }
      assert s[..|s|] == s;
      bpos := bpos + |s|;
      buf[bpos] := NUL;
    }

    /** `printbuf_memappend` */
    method MemAppend(s: bytes)
      requires Valid()
      modifies this, buf
      ensures Valid() && Contents() == old(Contents()) + s && Terminated()
      ensures buf.Length == Grown(old(buf.Length), old(bpos) + |s| + 1) && (buf == old(buf) || fresh(buf))
    {
      ghost var was := Contents();
      if buf.Length <= bpos + |s| + 1 {
        Extend(bpos + |s| + 1);
        assert buf[..bpos] == buf[..old(buf.Length)][..bpos] == was;
      }
      Store(s);
    }

    /** `printbuf_memappend_fast`: the same contract, buffer size included. */
    method MemAppendFast(s: bytes)
      requires Valid()
      modifies this, buf
      ensures Valid() && Contents() == old(Contents()) + s && Terminated()
      ensures buf.Length == Grown(old(buf.Length), old(bpos) + |s| + 1) && (buf == old(buf) || fresh(buf))
    {
      if buf.Length - bpos > |s| {
        Store(s);
      } else {
        MemAppend(s);
      }
    }

    /**
     `printbuf_memset`; the offset -1 stands for the end. No terminator is written. Bytes between the old end and a
     later offset stay whatever they are.
     */
    method MemSet(offset: int, c: byte, len: nat)
      requires Valid() && offset >= -1
      modifies this, buf
      ensures Valid() && (buf == old(buf) || fresh(buf))
      ensures var at := if offset == -1 then old(bpos) else offset;
        bpos == (if at + len > old(bpos) then at + len else old(bpos)) &&
          buf.Length == Grown(old(buf.Length), at + len) &&
        at + len <= buf.Length && buf[at..at + len] == Fill(c, len) &&
        (forall k | 0 <= k < old(bpos) && !(at <= k < at + len) :: buf[k] == old(buf[k]))
      ensures offset == -1 ==> Contents() == old(Contents()) + Fill(c, len)
    {
      ghost var was := Contents();
      var at := if offset == -1 then bpos else offset;
      var needed := at + len;
      if buf.Length < needed {
        Extend(needed);
      }
      ghost var whole := buf[..];
      assert whole[..bpos] == was by {
        if buf != old(buf) { assert whole[..bpos] == buf[..old(buf.Length)][..bpos]; }
      }
      for i := 0 to len
        invariant IsFilled(whole, buf[..], at, c, i)
        modifies buf
      {
        buf[at + i] := c;
      }
      Filled(whole, buf[..], at, c, len);
      if bpos < needed { bpos := needed; }
      assert offset == -1 ==> Contents() == was + Fill(c, len);
    }

    /** `printbuf_reset` */
    method Reset()
      requires Valid() && buf.Length > 0
      modifies this, buf
      ensures Valid() && buf == old(buf) && Contents() == [] && Terminated()
    {
      buf[0] := NUL;
      bpos := 0;
    }
  }

  datatype Op = Append(s: bytes) | AppendFast(s: bytes) | Pad(c: byte, n: nat) | Clear

  /** What a sequence of operations adds up to since its last reset. */
  function Replay(start: bytes, ops: seq<Op>): bytes
    decreases |ops|
  {
    if ops == [] then start
    else
      var rest := Replay(start, ops[..|ops| - 1]);
      match ops[|ops| - 1]
      case Append(s) => rest + s
      case AppendFast(s) => rest + s
      case Pad(c, n) => rest + Fill(c, n)
      case Clear => []
  }

  /** Any mix of operations leaves exactly what was added since the last reset. */
  method RunOps(p: PrintBuf, ops: seq<Op>)
    requires p.Valid() && p.buf.Length > 0
    modifies p, p.buf
    ensures p.Valid() && p.Contents() == Replay(old(p.Contents()), ops)
  {
    for k := 0 to |ops|
      invariant p.Valid() && p.buf.Length > 0 && (p.buf == old(p.buf) || fresh(p.buf))
      invariant p.Contents() == Replay(old(p.Contents()), ops[..k])
    {
      assert ops[..k + 1][..k] == ops[..k];
      match ops[k]
      case Append(s) => p.MemAppend(s);
      case AppendFast(s) => p.MemAppendFast(s);
      case Pad(c, n) => p.MemSet(-1, c, n);
      case Clear => p.Reset();
    }
    assert ops[..|ops|] == ops;
  }

  /** Only what follows the last reset counts, and it counts in order. */
  lemma {:induction false} ReplayAppend(start: bytes, a: seq<Op>, b: seq<Op>)
    ensures Replay(start, a + b) == Replay(Replay(start, a), b)
    decreases |b|
  {
    if b == [] {
      assert a + b == a;
    } else {
      var n := |b| - 1;
      ReplayAppend(start, a, b[..n]);
      assert (a + b)[..|a + b| - 1] == a + b[..n];
    }
  }
}
