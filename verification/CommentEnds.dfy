/**
 Where a block comment ends: not at the first star with a slash behind it, but at the first one whose run of stars has
 an odd length, since the character behind a star is looked at only once.
 */
module CommentEnds {
  import opened Bytes
  import opened OrderedMap
  import opened TokenerMachine
  import opened Reference
  import opened ReferenceRuns

  /** How many stars stand directly in front of `j`, from `i` on. */
  function Stars(s: bytes, i: nat, j: nat): nat
    requires j <= |s|
  {
    if i < j && s[j - 1] == 0x2A then 1 + Stars(s, i, j - 1) else 0
  }

  /** A star and a slash end at `j`. */
  predicate Closer(s: bytes, i: nat, j: nat) {
    i + 2 <= j <= |s| && s[j - 2] == 0x2A && s[j - 1] == 0x2F
  }

  predicate Odd(n: nat) {
    n % 2 == 1
  }

  /** Two stars more in front do not matter, nor does a star that is followed by something else. */
  lemma {:induction false} StarsLater(s: bytes, i: nat, k: nat, j: nat)
    requires i <= k <= j <= |s| && (k == i + 1 ==> s[i] != 0x2A) && k <= i + 2
    requires k == i + 2 ==> s[i] == 0x2A
    ensures Odd(Stars(s, i, j)) <==> Odd(Stars(s, k, j))
    decreases j
  {
    if j > k && s[j - 1] == 0x2A { StarsLater(s, i, k, j - 1); }
    if j == k && k == i + 2 {
      assert Stars(s, i, i) == 0;
      assert Stars(s, i, i + 1) == 1;
    }
  }

  lemma {:induction false} BlockEndExactlyWhen(s: bytes, i: nat)
    requires i <= |s|
    ensures match BlockEnd(s, i)
      case Some(j) =>
        && Closer(s, i, j) && Odd(Stars(s, i, j - 1))
        && forall x: nat | Closer(s, i, x) && x < j :: !Odd(Stars(s, i, x - 1))
      case None => forall x: nat | Closer(s, i, x) :: !Odd(Stars(s, i, x - 1))
    decreases |s| - i
  {
    if i < |s| {
      if s[i] != 0x2A {
        BlockEndExactlyWhen(s, i + 1);
        LaterClosers(s, i, i + 1);
      } else if i + 1 < |s| && s[i + 1] != 0x2F {
        BlockEndExactlyWhen(s, i + 2);
        LaterClosers(s, i, i + 2);
      } else if i + 1 < |s| {
        assert Stars(s, i, i) == 0 && Stars(s, i, i + 1) == 1;
      }
    }
  }

  lemma LaterClosers(s: bytes, i: nat, k: nat)
    requires i < k <= |s| && ((k == i + 1 && s[i] != 0x2A) || (k == i + 2 && s[i] == 0x2A && s[i + 1] != 0x2F))
    ensures forall x: nat | Closer(s, i, x) ::
      if Closer(s, k, x) then Odd(Stars(s, i, x - 1)) <==> Odd(Stars(s, k, x - 1)) else !Odd(Stars(s, i, x - 1))
    ensures forall x: nat | Closer(s, k, x) :: Closer(s, i, x)
  {
    forall x: nat | Closer(s, i, x)
      ensures if Closer(s, k, x) then Odd(Stars(s, i, x - 1)) <==> Odd(Stars(s, k, x - 1))
              else !Odd(Stars(s, i, x - 1))
    {
      if Closer(s, k, x) {
        StarsLater(s, i, k, x - 1);
      } else {
        assert k == i + 2 && x == i + 3;
        assert Stars(s, i, i) == 0 && Stars(s, i, i + 1) == 1 && Stars(s, i, i + 2) == 2;
      }
    }
  }

  /** The first star with a slash behind it ends the comment if and only if its run of stars has an odd length. */
  lemma FirstCloserEndsExactlyWhen(s: bytes, i: nat, j: nat)
    requires Closer(s, i, j) && forall x: nat | Closer(s, i, x) :: j <= x
    ensures BlockEnd(s, i) == Some(j) <==> Odd(Stars(s, i, j - 1))
  {
    BlockEndExactlyWhen(s, i);
  }

  /** A slash, three stars, a slash, and 1. */
  const THREE_STARS: bytes := [0x2F, 0x2A, 0x2A, 0x2A, 0x2F, 0x31]

  /** The comment is read to the end of the text, and the 1 with it. */
  lemma StarsSwallowTheText(g: Config, t: Tok)
    requires WellFormed(g, t) && Idle(t) && t.below == [] && t.top == CLEAN && !g.strict
    ensures ParseEx(g, t, THREE_STARS + [NUL]).err == ErrEof
  {
    hide Run, WellFormed;
    var s := THREE_STARS;
    assert BlockEnd(s, 6) == None;
    assert BlockEnd(s, 5) == None;
    assert BlockEnd(s, 4) == None;
    assert BlockEnd(s, 2) == None;
    assert Skip(false, s, 0) == Unended;
    ParseIsReference(g, t, s);
  }
}
