/**
 The string hash of the link-hash (linkhash.c, hashlittle): one value, three ways to read the key.
 Words are 32-bit and wrap around.
 */
module HashLittle {
  type word = bv32
  type octet = bv8
  type shift = n: bv6 | n < 32

  datatype Abc = Abc(a: word, b: word, c: word)

  // ---------------------------------------------------------------- mix

  function Rot(x: word, k: shift): word
  {
    (x << k) | (x >> (32 - k))
  }

  function Plus(x: word, y: word): word { x + y }

  function Minus(x: word, y: word): word { x - y }

  function Xor(x: word, y: word): word { x ^ y }

  /** `x -= z; x ^= rot(z, k); z += y`; the three words take turns in the three roles. */
  function Turn(x: word, y: word, z: word, k: shift): (word, word, word)
  {
    (Xor(Minus(x, z), Rot(z, k)), y, Plus(z, y))
  }

  function TurnBack(x: word, y: word, z: word, k: shift): (word, word, word)
  {
    (Plus(Xor(x, Rot(Minus(z, y), k)), Minus(z, y)), y, Minus(z, y))
  }

  lemma PlusIs(x: word, y: word)
    ensures Plus(x, y) == x + y
  {}

  lemma MinusIs(x: word, y: word)
    ensures Minus(x, y) == x - y
  {}

  lemma SumCancels(x: word, y: word)
    ensures Minus(x + y, y) == x
  {}

  lemma DifferenceCancels(x: word, y: word)
    ensures Plus(x - y, y) == x
  {}

  lemma XorCancels(x: word, y: word)
    ensures Xor(Xor(x, y), y) == x
  {}

  lemma WordsCancel(x: word, y: word)
    ensures Minus(Plus(x, y), y) == x && Plus(Minus(x, y), y) == x && Xor(Xor(x, y), y) == x
  {
    hide Plus, Minus, Xor;
    PlusIs(x, y);
    MinusIs(x, y);
    SumCancels(x, y);
    DifferenceCancels(x, y);
    XorCancels(x, y);
  }

  lemma TurnsCancel(x: word, y: word, z: word, k: shift)
    ensures var t := Turn(x, y, z, k); TurnBack(t.0, t.1, t.2, k) == (x, y, z)
    ensures var t := TurnBack(x, y, z, k); Turn(t.0, t.1, t.2, k) == (x, y, z)
  {
    hide Rot, Plus, Minus, Xor;
    WordsCancel(z, y);
    WordsCancel(x, z);
    WordsCancel(Minus(x, z), Rot(z, k));
    WordsCancel(x, Rot(Minus(z, y), k));
    WordsCancel(Xor(x, Rot(Minus(z, y), k)), Minus(z, y));
  }

  /** Half of `mix`: a, b and c take the first role one after the other. */
  function HalfMix(s: Abc, k: shift, l: shift, m: shift): Abc
  {
    var (a1, b1, c1) := Turn(s.a, s.b, s.c, k);
    var (b2, c2, a2) := Turn(b1, c1, a1, l);
    var (c3, a3, b3) := Turn(c2, a2, b2, m);
    Abc(a3, b3, c3)
  }

  function HalfUnmix(s: Abc, k: shift, l: shift, m: shift): Abc
  {
    var (c1, a1, b1) := TurnBack(s.c, s.a, s.b, m);
    var (b2, c2, a2) := TurnBack(b1, c1, a1, l);
    var (a3, b3, c3) := TurnBack(a2, b2, c2, k);
    Abc(a3, b3, c3)
  }

  function Mix(s: Abc): Abc {
    HalfMix(HalfMix(s, 4, 6, 8), 16, 19, 4)
  }

  function Unmix(s: Abc): Abc {
    HalfUnmix(HalfUnmix(s, 16, 19, 4), 4, 6, 8)
  }

  lemma HalvesCancel(s: Abc, k: shift, l: shift, m: shift)
    ensures HalfUnmix(HalfMix(s, k, l, m), k, l, m) == s
    ensures HalfMix(HalfUnmix(s, k, l, m), k, l, m) == s
  {
    hide Turn, TurnBack;
    var (a1, b1, c1) := Turn(s.a, s.b, s.c, k);
    var (b2, c2, a2) := Turn(b1, c1, a1, l);
    TurnsCancel(s.a, s.b, s.c, k);
    TurnsCancel(b1, c1, a1, l);
    TurnsCancel(c2, a2, b2, m);
    var (z1, x1, y1) := TurnBack(s.c, s.a, s.b, m);
    var (y2, z2, x2) := TurnBack(y1, z1, x1, l);
    TurnsCancel(s.c, s.a, s.b, m);
    TurnsCancel(y1, z1, x1, l);
    TurnsCancel(x2, y2, z2, k);
  }

  /** `mix` loses nothing: it is a bijection on triples of words. */
  lemma MixIsABijection(s: Abc)
    ensures Unmix(Mix(s)) == s && Mix(Unmix(s)) == s
  {
    hide HalfMix, HalfUnmix;
    HalvesCancel(s, 4, 6, 8);
    HalvesCancel(HalfMix(s, 4, 6, 8), 16, 19, 4);
    HalvesCancel(s, 16, 19, 4);
    HalvesCancel(HalfUnmix(s, 16, 19, 4), 4, 6, 8);
  }

  lemma MixIsInjective(s: Abc, t: Abc)
    requires Mix(s) == Mix(t)
    ensures s == t
  {
    hide Mix, Unmix;
    MixIsABijection(s);
    MixIsABijection(t);
  }

  function Final(s: Abc): word {
    var c1 := Minus(Xor(s.c, s.b), Rot(s.b, 14));
    var a1 := Minus(Xor(s.a, c1), Rot(c1, 11));
    var b1 := Minus(Xor(s.b, a1), Rot(a1, 25));
    var c2 := Minus(Xor(c1, b1), Rot(b1, 16));
    var a2 := Minus(Xor(a1, c2), Rot(c2, 4));
    var b2 := Minus(Xor(b1, a2), Rot(a2, 14));
    Minus(Xor(c2, b2), Rot(b2, 24))
  }

  // ---------------------------------------------------------------- the value

  function Load16(b0: octet, b1: octet): word {
    (b0 as word) | (b1 as word << 8)
  }

  /** A little-endian word. */
  function Load32(b0: octet, b1: octet, b2: octet, b3: octet): word {
    (b0 as word) | (b1 as word << 8) | (b2 as word << 16) | (b3 as word << 24)
  }

  /** Byte `i` of the key, and zero behind its end. */
  function At(k: seq<octet>, i: nat): octet {
    if i < |k| then k[i] else 0
  }

  /** The word at `i` of the key padded with zeros. */
  function WordAt(k: seq<octet>, i: nat): word {
    Load32(At(k, i), At(k, i + 1), At(k, i + 2), At(k, i + 3))
  }

  function Absorb(k: seq<octet>, s: Abc): Abc {
    Abc(Plus(s.a, WordAt(k, 0)), Plus(s.b, WordAt(k, 4)), Plus(s.c, WordAt(k, 8)))
  }

  /** The hash of a key, block by block of its zero-padded words. */
  function Digest(k: seq<octet>, s: Abc): word {
    if |k| > 12 then Digest(k[12..], Mix(Absorb(k, s)))
    else if |k| == 0 then s.c
    else Final(Absorb(k, s))
  }

  function Start(length: nat, initval: word): Abc {
    var x := Plus(Plus(0xdeadbeef, (length % 0x1_0000_0000) as word), initval);
    Abc(x, x, x)
  }

  function Hash(k: seq<octet>, initval: word): word {
    Digest(k, Start(|k|, initval))
  }

  // ---------------------------------------------------------------- loads, sums and masks

  lemma PlusLeft(x: word, y: word, z: word)
    ensures Plus(x + y, z) == x + (y + z)
  {}

  lemma PlusRight(x: word, y: word, z: word)
    ensures Plus(x, y + z) == x + (y + z)
  {}

  lemma PlusAssociates(x: word, y: word, z: word)
    ensures Plus(Plus(x, y), z) == Plus(x, Plus(y, z))
  {
    hide Plus;
    PlusIs(x, y);
    PlusIs(y, z);
    PlusLeft(x, y, z);
    PlusRight(x, y, z);
  }

  lemma FourSums(x: word, c0: word, c1: word, c2: word, c3: word)
    ensures Plus(Plus(Plus(Plus(x, c0), c1), c2), c3) == Plus(x, Plus(Plus(Plus(c0, c1), c2), c3))
  {
    hide Plus;
    PlusAssociates(x, c0, c1);
    PlusAssociates(x, Plus(c0, c1), c2);
    PlusAssociates(x, Plus(Plus(c0, c1), c2), c3);
  }

  lemma BytesUp(b0: octet, b1: octet, b2: octet, b3: octet)
    ensures Plus(Plus(Plus(b0 as word, b1 as word << 8), b2 as word << 16), b3 as word << 24) == Load32(b0, b1, b2, b3)
  {}

  lemma BytesDown(b0: octet, b1: octet, b2: octet, b3: octet)
    ensures Plus(Plus(Plus(b3 as word << 24, b2 as word << 16), b1 as word << 8), b0 as word) == Load32(b0, b1, b2, b3)
  {}

  /** Bytes that are shifted apart add up to the word they make, in either order. */
  lemma SumsOfBytes(x: word, b0: octet, b1: octet, b2: octet, b3: octet)
    ensures Plus(Plus(Plus(Plus(x, b0 as word), b1 as word << 8), b2 as word << 16), b3 as word << 24) ==
      Plus(x, Load32(b0, b1, b2, b3))
    ensures Plus(Plus(Plus(Plus(x, b3 as word << 24), b2 as word << 16), b1 as word << 8), b0 as word) ==
      Plus(x, Load32(b0, b1, b2, b3))
  {
    hide Plus, Load32;
    FourSums(x, b0 as word, b1 as word << 8, b2 as word << 16, b3 as word << 24);
    FourSums(x, b3 as word << 24, b2 as word << 16, b1 as word << 8, b0 as word);
    BytesUp(b0, b1, b2, b3);
    BytesDown(b0, b1, b2, b3);
  }

  lemma HalvesUp(b0: octet, b1: octet, b2: octet, b3: octet)
    ensures Plus(Load16(b0, b1), Load16(b2, b3) << 16) == Load32(b0, b1, b2, b3)
  {}

  lemma ThirdAndHalf(b0: octet, b1: octet, b2: octet)
    ensures Plus(b2 as word << 16, Load16(b0, b1)) == Load32(b0, b1, b2, 0)
  {}

  lemma HalfAlone(b0: octet, b1: octet)
    ensures Load16(b0, b1) == Load32(b0, b1, 0, 0)
  {}

  /** The halves of a word, the third byte by itself if need be, add up to it. */
  lemma SumsOfHalves(x: word, b0: octet, b1: octet, b2: octet, b3: octet)
    ensures Plus(x, Plus(Load16(b0, b1), Load16(b2, b3) << 16)) == Plus(x, Load32(b0, b1, b2, b3))
    ensures Plus(Plus(x, b2 as word << 16), Load16(b0, b1)) == Plus(x, Load32(b0, b1, b2, 0))
    ensures Load16(b0, b1) == Load32(b0, b1, 0, 0)
  {
    hide Plus, Load16, Load32;
    HalvesUp(b0, b1, b2, b3);
    ThirdAndHalf(b0, b1, b2);
    HalfAlone(b0, b1);
    PlusAssociates(x, b2 as word << 16, Load16(b0, b1));
  }

  lemma OneByteLeft(b0: octet, b1: octet, b2: octet, b3: octet)
    ensures Load32(b0, b1, b2, b3) & 0xFF == Load32(b0, 0, 0, 0)
  {}

  lemma TwoBytesLeft(b0: octet, b1: octet, b2: octet, b3: octet)
    ensures Load32(b0, b1, b2, b3) & 0xFFFF == Load32(b0, b1, 0, 0)
  {}

  lemma ThreeBytesLeft(b0: octet, b1: octet, b2: octet, b3: octet)
    ensures Load32(b0, b1, b2, b3) & 0xFF_FFFF == Load32(b0, b1, b2, 0)
  {}

  lemma ByteAlone(b0: octet)
    ensures Load32(b0, 0, 0, 0) == b0 as word
  {}

  lemma NothingAdded(x: word)
    ensures Plus(x, 0) == x && Load32(0, 0, 0, 0) == 0 &&
      Plus(x, (0 as octet) as word << 24) == Plus(x, (0 as octet) as word << 16) ==
      Plus(x, (0 as octet) as word << 8) == x
  {}

  // ---------------------------------------------------------------- the three ways to read

  /** `mix`, statement by statement. */
  method MixWords(a0: word, b0: word, c0: word) returns (a: word, b: word, c: word)
    ensures Abc(a, b, c) == Mix(Abc(a0, b0, c0))
  {
    hide Plus, Minus, Xor, Rot;
    a, b, c := a0, b0, c0;
    a := Minus(a, c);  a := Xor(a, Rot(c, 4));   c := Plus(c, b);
    b := Minus(b, a);  b := Xor(b, Rot(a, 6));   a := Plus(a, c);
    c := Minus(c, b);  c := Xor(c, Rot(b, 8));   b := Plus(b, a);
    a := Minus(a, c);  a := Xor(a, Rot(c, 16));  c := Plus(c, b);
    b := Minus(b, a);  b := Xor(b, Rot(a, 19));  a := Plus(a, c);
    c := Minus(c, b);  c := Xor(c, Rot(b, 4));   b := Plus(b, a);
  }

  /** `final`, statement by statement. */
  method FinalWord(a0: word, b0: word, c0: word) returns (c: word)
    ensures c == Final(Abc(a0, b0, c0))
  {
    hide Plus, Minus, Xor, Rot;
    var a, b := a0, b0;
    c := c0;
    c := Xor(c, b);  c := Minus(c, Rot(b, 14));
    a := Xor(a, c);  a := Minus(a, Rot(c, 11));
    b := Xor(b, a);  b := Minus(b, Rot(a, 25));
    c := Xor(c, b);  c := Minus(c, Rot(b, 16));
    a := Xor(a, c);  a := Minus(a, Rot(c, 4));
    b := Xor(b, a);  b := Minus(b, Rot(a, 14));
    c := Xor(c, b);  c := Minus(c, Rot(b, 24));
  }

  /** One load of 32 bits from memory. */
  function Word(m: seq<octet>, i: nat): word
    requires i + 4 <= |m|
  {
    Load32(m[i], m[i + 1], m[i + 2], m[i + 3])
  }

  function Short(m: seq<octet>, i: nat): word
    requires i + 2 <= |m|
  {
    Load16(m[i], m[i + 1])
  }

  /** What is left of the key, as the loops and the switches see it. */
  lemma BlockIs(m: seq<octet>, k: nat, length: nat, i: nat)
    requires k + i <= length <= |m| && i % 4 == 0
    ensures i + 4 <= length - k ==> WordAt(m[k..length], i) == Word(m, k + i)
    ensures i + 3 == length - k ==> WordAt(m[k..length], i) == Load32(m[k + i], m[k + i + 1], m[k + i + 2], 0)
    ensures i + 2 == length - k ==> WordAt(m[k..length], i) == Load32(m[k + i], m[k + i + 1], 0, 0)
    ensures i + 1 == length - k ==> WordAt(m[k..length], i) == Load32(m[k + i], 0, 0, 0)
  {
    hide Load32;
  }

  lemma NothingLeft(x: word, key: seq<octet>, i: nat)
    requires i >= |key|
    ensures Plus(x, WordAt(key, i)) == x
  {
    hide Plus, Load32;
    NothingAdded(x);
  }

  /** Three loads, the last of them cut to the bytes that belong to the key. */
  lemma MaskedBlock(m: seq<octet>, k: nat, length: nat, i: nat)
    requires k + i <= length && k + i + 4 <= |m| && length <= |m| && i % 4 == 0
    ensures i + 3 == length - k ==> WordAt(m[k..length], i) == Word(m, k + i) & 0xFF_FFFF
    ensures i + 2 == length - k ==> WordAt(m[k..length], i) == Word(m, k + i) & 0xFFFF
    ensures i + 1 == length - k ==> WordAt(m[k..length], i) == Word(m, k + i) & 0xFF
  {
    hide Load32, WordAt;
    BlockIs(m, k, length, i);
    ThreeBytesLeft(m[k + i], m[k + i + 1], m[k + i + 2], m[k + i + 3]);
    TwoBytesLeft(m[k + i], m[k + i + 1], m[k + i + 2], m[k + i + 3]);
    OneByteLeft(m[k + i], m[k + i + 1], m[k + i + 2], m[k + i + 3]);
  }

  lemma NextBlock(m: seq<octet>, k: nat, length: nat, s: Abc)
    requires k + 12 < length <= |m|
    ensures Absorb(m[k..length], s) == Abc(Plus(s.a, Word(m, k)), Plus(s.b, Word(m, k + 4)), Plus(s.c, Word(m, k + 8)))
    ensures Digest(m[k..length], s) == Digest(m[k + 12..length], Mix(Absorb(m[k..length], s)))
  {
    hide Plus, Mix, WordAt, Word, Final;
    BlockIs(m, k, length, 0);
    BlockIs(m, k, length, 4);
    BlockIs(m, k, length, 8);
    assert m[k..length][12..] == m[k + 12..length];
  }

  /** The aligned path: 32-bit loads, the last one past the end of the key and masked. */
  method HashByWords(m: seq<octet>, length0: nat, initval: word) returns (r: word)
    requires length0 <= |m| && |m| % 4 == 0
    ensures r == Hash(m[..length0], initval)
  {
    hide Plus, Mix, WordAt, Word, Final, Digest;
    var s := Start(length0, initval);
    var a, b, c := s.a, s.b, s.c;
    var k, length := 0, length0;
    assert m[0..length0] == m[..length0];
    while length > 12
      invariant k + length == length0 && k % 4 == 0
      invariant Digest(m[k..length0], Abc(a, b, c)) == Digest(m[..length0], s)
    {
      NextBlock(m, k, length0, Abc(a, b, c));
      a := Plus(a, Word(m, k));
      b := Plus(b, Word(m, k + 4));
      c := Plus(c, Word(m, k + 8));
      a, b, c := MixWords(a, b, c);
      length, k := length - 12, k + 12;
    }
    r := LastWords(m, k, length, a, b, c);
  }

  /** The switch over the last block. */
  method LastWords(m: seq<octet>, k: nat, length: nat, a0: word, b0: word, c0: word) returns (r: word)
    requires k + length <= |m| && length <= 12 && |m| % 4 == 0 && k % 4 == 0
    ensures r == Digest(m[k..k + length], Abc(a0, b0, c0))
  {
    hide Plus, WordAt, Word, Final, Digest, Absorb, Low;
    var a, b, c := a0, b0, c0;
    LastBlock(m[k..k + length], Abc(a, b, c));
    WordsLeft(m, k, k + length, Abc(a, b, c));
    match length {
      case 12 => c := Plus(c, Word(m, k + 8)); b := Plus(b, Word(m, k + 4)); a := Plus(a, Word(m, k));
      case 11 => c := Plus(c, Low(Word(m, k + 8), 3)); b := Plus(b, Word(m, k + 4)); a := Plus(a, Word(m, k));
      case 10 => c := Plus(c, Low(Word(m, k + 8), 2)); b := Plus(b, Word(m, k + 4)); a := Plus(a, Word(m, k));
      case 9 => c := Plus(c, Low(Word(m, k + 8), 1)); b := Plus(b, Word(m, k + 4)); a := Plus(a, Word(m, k));
      case 8 => b := Plus(b, Word(m, k + 4)); a := Plus(a, Word(m, k));
      case 7 => b := Plus(b, Low(Word(m, k + 4), 3)); a := Plus(a, Word(m, k));
      case 6 => b := Plus(b, Low(Word(m, k + 4), 2)); a := Plus(a, Word(m, k));
      case 5 => b := Plus(b, Low(Word(m, k + 4), 1)); a := Plus(a, Word(m, k));
      case 4 => a := Plus(a, Word(m, k));
      case 3 => a := Plus(a, Low(Word(m, k), 3));
      case 2 => a := Plus(a, Low(Word(m, k), 2));
      case 1 => a := Plus(a, Low(Word(m, k), 1));
      case _ => return c;
    }
    r := FinalWord(a, b, c);
  }

  lemma LastBlock(key: seq<octet>, s: Abc)
    requires |key| <= 12
    ensures Digest(key, s) == if |key| == 0 then s.c else Final(Absorb(key, s))
  {}

  /** A word with the bytes masked off that are not part of the key. */
  function Low(w: word, n: int): word {
    if n == 3 then w & 0xFF_FFFF else if n == 2 then w & 0xFFFF else w & 0xFF
  }

  /** One word of the last block: whole, masked or absent. */
  function Cut(x: word, w: word, n: int): word {
    if n >= 4 then Plus(x, w)
    else if n >= 1 then Plus(x, Low(w, n))
    else x
  }

  lemma WordLeft(m: seq<octet>, k: nat, length: nat, i: nat, x: word)
    requires k <= length <= |m| && |m| % 4 == 0 && k % 4 == 0 && i % 4 == 0
    ensures Plus(x, WordAt(m[k..length], i)) == Cut(x, if k + i + 4 <= |m| then Word(m, k + i) else 0, length - k - i)
  {
    hide Plus, WordAt, Word;
    if i >= length - k {
      NothingLeft(x, m[k..length], i);
    } else {
      assert k + i + 4 <= |m|;
      BlockIs(m, k, length, i);
      MaskedBlock(m, k, length, i);
    }
  }

  lemma WordsLeft(m: seq<octet>, k: nat, length: nat, s: Abc)
    requires k <= length <= |m| && |m| % 4 == 0 && k % 4 == 0
    ensures Absorb(m[k..length], s) == Abc(
      Cut(s.a, if k + 4 <= |m| then Word(m, k) else 0, length - k),
      Cut(s.b, if k + 8 <= |m| then Word(m, k + 4) else 0, length - k - 4),
      Cut(s.c, if k + 12 <= |m| then Word(m, k + 8) else 0, length - k - 8))
  {
    hide Plus, WordAt, Word, Cut;
    WordLeft(m, k, length, 0, s.a);
    WordLeft(m, k, length, 4, s.b);
    WordLeft(m, k, length, 8, s.c);
  }

  /** `k[0] + (((uint32_t)k[1])<<16)` */
  function TwoShorts(m: seq<octet>, i: nat): word
    requires i + 4 <= |m|
  {
    Plus(Short(m, i), Short(m, i + 2) << 16)
  }

  lemma TwoShortsAreAWord(m: seq<octet>, i: nat, x: word)
    requires i + 4 <= |m|
    ensures Plus(x, TwoShorts(m, i)) == Plus(x, Word(m, i))
  {
    hide Plus, Load16, Load32;
    SumsOfHalves(x, m[i], m[i + 1], m[i + 2], m[i + 3]);
  }

  lemma NextShorts(m: seq<octet>, k: nat, length: nat, s: Abc)
    requires k + 12 < length <= |m|
    ensures Absorb(m[k..length], s) ==
      Abc(Plus(s.a, TwoShorts(m, k)), Plus(s.b, TwoShorts(m, k + 4)), Plus(s.c, TwoShorts(m, k + 8)))
    ensures Digest(m[k..length], s) == Digest(m[k + 12..length], Mix(Absorb(m[k..length], s)))
  {
    hide Plus, Mix, WordAt, Word, Final, TwoShorts, Digest, Absorb;
    NextBlock(m, k, length, s);
    TwoShortsAreAWord(m, k, s.a);
    TwoShortsAreAWord(m, k + 4, s.b);
    TwoShortsAreAWord(m, k + 8, s.c);
  }

  /** `((uint32_t)b)<<16` */
  function Third(b: octet): word {
    b as word << 16
  }

  /** One word of the last block, read by halves: the third byte is added by itself, before the first two. */
  function HalvesOf(x: word, m: seq<octet>, i: nat, n: int): word
    requires i + n <= |m|
  {
    if n >= 4 then Plus(x, TwoShorts(m, i))
    else if n == 3 then Plus(Plus(x, Third(m[i + 2])), Short(m, i))
    else if n == 2 then Plus(x, Short(m, i))
    else if n == 1 then Plus(x, m[i] as word)
    else x
  }

  lemma HalvesLeft(m: seq<octet>, k: nat, length: nat, i: nat, x: word)
    requires k <= length <= |m| && i % 4 == 0
    ensures Plus(x, WordAt(m[k..length], i)) == HalvesOf(x, m, k + i, length - k - i)
  {
    hide Plus, WordAt, Word, Load16, Load32, TwoShorts;
    if i >= length - k {
      NothingLeft(x, m[k..length], i);
    } else {
      BlockIs(m, k, length, i);
      if i + 4 <= length - k { TwoShortsAreAWord(m, k + i, x); }
      if i + 3 == length - k { SumsOfHalves(x, m[k + i], m[k + i + 1], m[k + i + 2], 0); }
      if i + 2 == length - k { SumsOfHalves(x, m[k + i], m[k + i + 1], 0, 0); }
      ByteAlone(m[k + i]);
    }
  }

  /** The path for keys on even addresses: 16-bit loads, and single bytes at the end. */
  method HashByShorts(m: seq<octet>, initval: word) returns (r: word)
    ensures r == Hash(m, initval)
  {
    hide Plus, Mix, WordAt, TwoShorts, Final, Digest;
    var s := Start(|m|, initval);
    var a, b, c := s.a, s.b, s.c;
    var k, length := 0, |m|;
    assert m[0..|m|] == m;
    while length > 12
      invariant k + length == |m| && 0 <= length
      invariant Digest(m[k..|m|], Abc(a, b, c)) == Digest(m, s)
    {
      NextShorts(m, k, |m|, Abc(a, b, c));
      a := Plus(a, TwoShorts(m, k));
      b := Plus(b, TwoShorts(m, k + 4));
      c := Plus(c, TwoShorts(m, k + 8));
      a, b, c := MixWords(a, b, c);
      length, k := length - 12, k + 12;
    }
    r := LastShorts(m, k, length, a, b, c);
  }

  method LastShorts(m: seq<octet>, k: nat, length: nat, a0: word, b0: word, c0: word) returns (r: word)
    requires k + length == |m| && length <= 12
    ensures r == Digest(m[k..|m|], Abc(a0, b0, c0))
  {
    hide Plus, WordAt, TwoShorts, Short, Final, Digest, Third;
    var a, b, c := a0, b0, c0;
    LastBlock(m[k..|m|], Abc(a, b, c));
    HalvesLeft(m, k, |m|, 0, a);
    HalvesLeft(m, k, |m|, 4, b);
    HalvesLeft(m, k, |m|, 8, c);
    if length == 12 {
      c := Plus(c, TwoShorts(m, k + 8)); b := Plus(b, TwoShorts(m, k + 4)); a := Plus(a, TwoShorts(m, k));
    } else if length >= 10 {
      if length == 11 { c := Plus(c, Third(m[k + 10])); }
      c := Plus(c, Short(m, k + 8)); b := Plus(b, TwoShorts(m, k + 4)); a := Plus(a, TwoShorts(m, k));
    } else if length >= 8 {
      if length == 9 { c := Plus(c, m[k + 8] as word); }
      b := Plus(b, TwoShorts(m, k + 4)); a := Plus(a, TwoShorts(m, k));
    } else if length >= 6 {
      if length == 7 { b := Plus(b, Third(m[k + 6])); }
      b := Plus(b, Short(m, k + 4)); a := Plus(a, TwoShorts(m, k));
    } else if length >= 4 {
      if length == 5 { b := Plus(b, m[k + 4] as word); }
      a := Plus(a, TwoShorts(m, k));
    } else if length >= 2 {
      if length == 3 { a := Plus(a, Third(m[k + 2])); }
      a := Plus(a, Short(m, k));
    } else if length == 1 {
      a := Plus(a, m[k] as word);
    } else {
      return c;
    }
    r := FinalWord(a, b, c);
  }

  /** Four bytes from `i`, the lowest first. */
  function FourBytes(x: word, m: seq<octet>, i: nat): word
    requires i + 4 <= |m|
  {
    Plus(Plus(Plus(Plus(x, m[i] as word), m[i + 1] as word << 8), m[i + 2] as word << 16), m[i + 3] as word << 24)
  }

  lemma FourBytesAreAWord(x: word, m: seq<octet>, i: nat)
    requires i + 4 <= |m|
    ensures FourBytes(x, m, i) == Plus(x, Word(m, i))
  {
    hide Plus, Load32;
    SumsOfBytes(x, m[i], m[i + 1], m[i + 2], m[i + 3]);
  }

  lemma NextBytes(m: seq<octet>, k: nat, length: nat, s: Abc)
    requires k + 12 < length <= |m|
    ensures Absorb(m[k..length], s) == Abc(FourBytes(s.a, m, k), FourBytes(s.b, m, k + 4), FourBytes(s.c, m, k + 8))
    ensures Digest(m[k..length], s) == Digest(m[k + 12..length], Mix(Absorb(m[k..length], s)))
  {
    hide Plus, Mix, WordAt, Word, Final, FourBytes, Digest, Absorb;
    NextBlock(m, k, length, s);
    FourBytesAreAWord(s.a, m, k);
    FourBytesAreAWord(s.b, m, k + 4);
    FourBytesAreAWord(s.c, m, k + 8);
  }

  /** Up to four bytes from `i`, the highest first, as the switch falls through. */
  method AddDown(x0: word, m: seq<octet>, i: nat) returns (x: word)
    ensures x == Plus(x0, WordAt(m, i))
  {
    hide Plus, Load32;
    x := x0;
    if i + 4 <= |m| { x := Plus(x, m[i + 3] as word << 24); }
    if i + 3 <= |m| { x := Plus(x, m[i + 2] as word << 16); }
    if i + 2 <= |m| { x := Plus(x, m[i + 1] as word << 8); }
    if i + 1 <= |m| { x := Plus(x, m[i] as word); }
    NothingAdded(x0);
    SumsOfBytes(x0, At(m, i), At(m, i + 1), At(m, i + 2), At(m, i + 3));
    ByteZero();
    NothingAdded(Plus(x0, At(m, i + 3) as word << 24));
    NothingAdded(Plus(Plus(x0, At(m, i + 3) as word << 24), At(m, i + 2) as word << 16));
    NothingAdded(Plus(Plus(Plus(x0, At(m, i + 3) as word << 24), At(m, i + 2) as word << 16),
      At(m, i + 1) as word << 8));
  }

  lemma ByteZero()
    ensures (0 as octet) as word == 0
  {}

  /** The path for keys anywhere: one byte at a time. */
  method HashByBytes(m: seq<octet>, initval: word) returns (r: word)
    ensures r == Hash(m, initval)
  {
    hide Plus, Mix, WordAt, FourBytes, Final, Digest;
    var s := Start(|m|, initval);
    var a, b, c := s.a, s.b, s.c;
    var k, length := 0, |m|;
    assert m[0..|m|] == m;
    while length > 12
      invariant k + length == |m| && 0 <= length
      invariant Digest(m[k..|m|], Abc(a, b, c)) == Digest(m, s)
    {
      NextBytes(m, k, |m|, Abc(a, b, c));
      a := FourBytes(a, m, k);
      b := FourBytes(b, m, k + 4);
      c := FourBytes(c, m, k + 8);
      a, b, c := MixWords(a, b, c);
      length, k := length - 12, k + 12;
    }
    LastBlock(m[k..|m|], Abc(a, b, c));
    if length == 0 { return c; }
    c := AddDown(c, m[k..|m|], 8);
    b := AddDown(b, m[k..|m|], 4);
    a := AddDown(a, m[k..|m|], 0);
    r := FinalWord(a, b, c);
  }

  /** Whatever the address of the key: the three paths give the same hash. */
  method HashLittle(m: seq<octet>, length: nat, address: nat, initval: word) returns (r: word)
    requires length <= |m| && |m| % 4 == 0
    ensures r == Hash(m[..length], initval)
  {
    if address % 4 == 0 {
      r := HashByWords(m, length, initval);
    } else if address % 2 == 0 {
      r := HashByShorts(m[..length], initval);
    } else {
      r := HashByBytes(m[..length], initval);
    }
  }

  // ---------------------------------------------------------------- known digests

  /** The start words tell all values of `initval` apart. */
  lemma StartIsInjective(length: nat, x: word, y: word)
    requires Start(length, x) == Start(length, y)
    ensures x == y
  {
    hide Plus, Minus;
    var l := Plus(0xdeadbeef, (length % 0x1_0000_0000) as word);
    PlusCommutes(l, x);
    PlusCommutes(l, y);
    WordsCancel(x, l);
    WordsCancel(y, l);
  }

  lemma PlusCommutes(x: word, y: word)
    ensures Plus(x, y) == Plus(y, x)
  {}

  /** "Four score and seven years ago" */
  const FOUR_SCORE: seq<octet> := [
    70, 111, 117, 114, 32, 115, 99, 111, 114, 101, 32, 97, 110, 100, 32, 115, 101, 118, 101, 110, 32, 121, 101, 97,
    114, 115, 32, 97, 103, 111]

  lemma StartsAre()
    ensures Start(0, 0) == Abc(0xdeadbeef, 0xdeadbeef, 0xdeadbeef) && Start(0, 0xdeadbeef).c == 0xbd5b7dde
    ensures Start(3, 0) == Abc(0xdeadbef2, 0xdeadbef2, 0xdeadbef2)
    ensures Start(30, 0) == Abc(0xdeadbf0d, 0xdeadbf0d, 0xdeadbf0d)
    ensures Start(30, 1) == Abc(0xdeadbf0e, 0xdeadbf0e, 0xdeadbf0e)
  {}

  lemma FirstBlock()
    ensures var k := FOUR_SCORE;
      Absorb(k, Start(30, 0)) == Abc(0x51232e53, 0x4e11322d, 0x3fce247f) &&
      Absorb(k, Start(30, 1)) == Abc(0x51232e54, 0x4e11322e, 0x3fce2480)
  {
    StartsAre();
  }

  lemma SecondBlock()
    ensures var k := FOUR_SCORE[12..];
      Absorb(k, Abc(0xf859ad7a, 0x4bc57ae, 0x40dddd7e)) == Abc(0x6b7a11e8, 0x7321ce13, 0xa243569e) &&
      Absorb(k, Abc(0x9fb9ade6, 0x89211ba9, 0x3ffff143)) == Abc(0x12da1254, 0xf786920e, 0xa1656a63)
  {}

  lemma ThirdBlock()
    ensures var k := FOUR_SCORE[12..][12..];
      Absorb(k, Abc(0x336aded2, 0x59f2642, 0xbd02ebd5)) == Abc(0x948b5244, 0x59f95a9, 0xbd02ebd5) &&
      Absorb(k, Abc(0xd68042ad, 0x488e0a5d, 0xab16e7b2)) == Abc(0x37a0b61f, 0x488e79c4, 0xab16e7b2)
  {}

  lemma FirstMix()
    ensures Mix(Abc(0x51232e53, 0x4e11322d, 0x3fce247f)) == Abc(0xf859ad7a, 0x4bc57ae, 0x40dddd7e)
  {
    assert Turn(0x51232e53, 0x4e11322d, 0x3fce247f, 4) == (0xedb74e27, 0x4e11322d, 0x8ddf56ac);
    assert Turn(0x4e11322d, 0x8ddf56ac, 0xedb74e27, 6) == (0xd8a6dfd, 0x8ddf56ac, 0x7b96a4d3);
    assert Turn(0x8ddf56ac, 0x7b96a4d3, 0xd8a6dfd, 8) == (0xa3915a2, 0x7b96a4d3, 0x892112d0);
    assert Turn(0x7b96a4d3, 0x892112d0, 0xa3915a2, 16) == (0x64ff8508, 0x892112d0, 0x935a2872);
    assert Turn(0x892112d0, 0x935a2872, 0x64ff8508, 19) == (0xc62aa34, 0x935a2872, 0xf859ad7a);
    assert Turn(0x935a2872, 0xf859ad7a, 0xc62aa34, 4) == (0x40dddd7e, 0xf859ad7a, 0x4bc57ae);
    hide Turn;
  }

  lemma SecondMix()
    ensures Mix(Abc(0x6b7a11e8, 0x7321ce13, 0xa243569e)) == Abc(0x336aded2, 0x59f2642, 0xbd02ebd5)
  {
    assert Turn(0x6b7a11e8, 0x7321ce13, 0xa243569e, 4) == (0xed03d2a0, 0x7321ce13, 0x156524b1);
    assert Turn(0x7321ce13, 0x156524b1, 0xed03d2a0, 6) == (0xc6e95348, 0x156524b1, 0x268f751);
    assert Turn(0x156524b1, 0x268f751, 0xc6e95348, 8) == (0xa72899af, 0x268f751, 0xc9524a99);
    assert Turn(0x268f751, 0xc9524a99, 0xa72899af, 16) == (0xc2effa8a, 0xc9524a99, 0x707ae448);
    assert Turn(0xc9524a99, 0x707ae448, 0xc2effa8a, 19) == (0xd2344770, 0x707ae448, 0x336aded2);
    assert Turn(0x707ae448, 0x336aded2, 0xd2344770, 4) == (0xbd02ebd5, 0x336aded2, 0x59f2642);
    hide Turn;
  }

  lemma FirstMixOfOne()
    ensures Mix(Abc(0x51232e54, 0x4e11322e, 0x3fce2480)) == Abc(0x9fb9ade6, 0x89211ba9, 0x3ffff143)
  {
    assert Turn(0x51232e54, 0x4e11322e, 0x3fce2480, 4) == (0xedb741d7, 0x4e11322e, 0x8ddf56ae);
    assert Turn(0x4e11322e, 0x8ddf56ae, 0xedb741d7, 6) == (0xd8985ac, 0x8ddf56ae, 0x7b969885);
    assert Turn(0x8ddf56ae, 0x7b969885, 0xd8985ac, 8) == (0x9d07d0f, 0x7b969885, 0x89201e31);
    assert Turn(0x7b969885, 0x89201e31, 0x9d07d0f, 16) == (0xcc912a6, 0x89201e31, 0x92f09b40);
    assert Turn(0x89201e31, 0x92f09b40, 0xcc912a6, 19) == (0xe9676dc3, 0x92f09b40, 0x9fb9ade6);
    assert Turn(0x92f09b40, 0x9fb9ade6, 0xe9676dc3, 4) == (0x3ffff143, 0x9fb9ade6, 0x89211ba9);
    hide Turn;
  }

  lemma SecondMixOfOne()
    ensures Mix(Abc(0x12da1254, 0xf786920e, 0xa1656a63)) == Abc(0xd68042ad, 0x488e0a5d, 0xab16e7b2)
  {
    assert Turn(0x12da1254, 0xf786920e, 0xa1656a63, 4) == (0x672201cb, 0xf786920e, 0x98ebfc71);
    assert Turn(0xf786920e, 0x98ebfc71, 0x672201cb, 6) == (0x58e4e29a, 0x98ebfc71, 0xdfe3c);
    assert Turn(0x98ebfc71, 0xdfe3c, 0x58e4e29a, 8) == (0xa4e5838f, 0xdfe3c, 0x58f2e0d6);
    assert Turn(0xdfe3c, 0x58f2e0d6, 0xa4e5838f, 16) == (0xd8a7de48, 0x58f2e0d6, 0xfdd86465);
    assert Turn(0x58f2e0d6, 0xfdd86465, 0xd8a7de48, 19) == (0x720dc7b0, 0xfdd86465, 0xd68042ad);
    assert Turn(0xfdd86465, 0xd68042ad, 0x720dc7b0, 4) == (0xab16e7b2, 0xd68042ad, 0x488e0a5d);
    hide Turn;
  }

  lemma LongFinal()
    ensures Final(Abc(0x948b5244, 0x59f95a9, 0xbd02ebd5)) == 0x17770551
  {
    assert Minus(Xor(0xbd02ebd5, 0x59f95a9), Rot(0x59f95a9, 14)) == 0xd3333d15;
    assert Minus(Xor(0x948b5244, 0xd3333d15), Rot(0xd3333d15, 11)) == 0xadcfc0b8;
    assert Minus(Xor(0x59f95a9, 0xadcfc0b8), Rot(0xadcfc0b8, 25)) == 0x36f4b590;
    assert Minus(Xor(0xd3333d15, 0x36f4b590), Rot(0x36f4b590, 16)) == 0x30375191;
    assert Minus(Xor(0xadcfc0b8, 0x30375191), Rot(0x30375191, 4)) == 0x9a837816;
    assert Minus(Xor(0x36f4b590, 0x9a837816), Rot(0x9a837816, 14)) == 0xce7226e6;
    assert Minus(Xor(0x30375191, 0xce7226e6), Rot(0xce7226e6, 24)) == 0x17770551;
    hide Minus, Xor, Rot;
  }

  lemma LongFinalOfOne()
    ensures Final(Abc(0x37a0b61f, 0x488e79c4, 0xab16e7b2)) == 0xcd628161
  {
    assert Minus(Xor(0xab16e7b2, 0x488e79c4), Rot(0x488e79c4, 14)) == 0x45278c53;
    assert Minus(Xor(0x37a0b61f, 0x45278c53), Rot(0x45278c53, 11)) == 0x3624a023;
    assert Minus(Xor(0x488e79c4, 0x3624a023), Rot(0x3624a023, 25)) == 0x383e90a7;
    assert Minus(Xor(0x45278c53, 0x383e90a7), Rot(0x383e90a7, 16)) == 0xec71e4b6;
    assert Minus(Xor(0x3624a023, 0xec71e4b6), Rot(0xec71e4b6, 4)) == 0x1336f927;
    assert Minus(Xor(0x383e90a7, 0x1336f927), Rot(0x1336f927, 14)) == 0x6cbea4b3;
    assert Minus(Xor(0xec71e4b6, 0x6cbea4b3), Rot(0x6cbea4b3, 24)) == 0xcd628161;
    hide Minus, Xor, Rot;
  }

  lemma ShortFinal()
    ensures Final(Abc(0xdf1a2153, 0xdeadbef2, 0xdeadbef2)) == 0x8ba8286b
  {
    assert Minus(Xor(0xdeadbef2, 0xdeadbef2), Rot(0xdeadbef2, 14)) == 0x90434855;
    assert Minus(Xor(0xdf1a2153, 0x90434855), Rot(0x90434855, 11)) == 0x3516bc84;
    assert Minus(Xor(0xdeadbef2, 0x3516bc84), Rot(0x3516bc84, 25)) == 0xe350d4fd;
    assert Minus(Xor(0x90434855, 0xe350d4fd), Rot(0xe350d4fd, 16)) == 0x9e15b958;
    assert Minus(Xor(0x3516bc84, 0x9e15b958), Rot(0x9e15b958, 4)) == 0xc9a77053;
    assert Minus(Xor(0xe350d4fd, 0xc9a77053), Rot(0xc9a77053, 14)) == 0x4ee2b245;
    assert Minus(Xor(0x9e15b958, 0x4ee2b245), Rot(0x4ee2b245, 24)) == 0x8ba8286b;
    hide Minus, Xor, Rot;
  }

  /** An empty key, three bytes, and a key of three blocks under two values of `initval`. */
  lemma KnownDigests()
    ensures Hash([], 0) == 0xdeadbeef && Hash([], 0xdeadbeef) == 0xbd5b7dde
    ensures Hash([0x61, 0x62, 0x6C], 0) == 0x8ba8286b
    ensures Hash(FOUR_SCORE, 0) == 0x17770551 && Hash(FOUR_SCORE, 1) == 0xcd628161
  {
    ShortBlock();
    hide Mix, Final, Absorb, Start;
    StartsAre();
    FirstBlock();
    SecondBlock();
    ThirdBlock();
    FirstMix();
    SecondMix();
    FirstMixOfOne();
    SecondMixOfOne();
    LongFinal();
    LongFinalOfOne();
    ShortFinal();
    ThreeBlocks(FOUR_SCORE, Start(30, 0));
    ThreeBlocks(FOUR_SCORE, Start(30, 1));
  }

  lemma ShortBlock()
    ensures Absorb([0x61, 0x62, 0x6C], Abc(0xdeadbef2, 0xdeadbef2, 0xdeadbef2)) ==
      Abc(0xdf1a2153, 0xdeadbef2, 0xdeadbef2)
  {}

  lemma ThreeBlocks(k: seq<octet>, s: Abc)
    requires |k| == 30
    ensures var s1 := Mix(Absorb(k, s));
      var s2 := Mix(Absorb(k[12..], s1));
      Digest(k, s) == Final(Absorb(k[12..][12..], s2))
  {
    hide Mix, Final, Absorb;
    var s1 := Mix(Absorb(k, s));
    assert Digest(k, s) == Digest(k[12..], s1);
    assert Digest(k[12..], s1) == Digest(k[12..][12..], Mix(Absorb(k[12..], s1)));
  }
}
