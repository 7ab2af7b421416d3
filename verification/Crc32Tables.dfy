/** The tables of crc32.c and the computation four bytes at a time, little and big endian. */
module Crc32Tables {
  import opened Sums
  import opened Bits
  import opened Xors
  import opened Blocks
  import opened Crc32

  const WORD32: nat := 0x1_0000_0000

  /** ZSWAP32: the four bytes in reverse order. */
  function Swap(c: nat): nat {
    c % 256 * 0x100_0000 + c / 0x100 % 256 * 0x1_0000 + c / 0x1_0000 % 256 * 0x100 + c / 0x100_0000 % 256
  }

  function WordOf(b0: nat, b1: nat, b2: nat, b3: nat): nat {
    Cat(b0, Cat(b1, Cat(b2, b3)))
  }

  function Cat(low: nat, rest: nat): nat {
    low + 256 * rest
  }

  lemma LowByte(c: nat)
    ensures Low(c, 8) == c % 256 && Shr(c, 8) == c / 256 && Shl(c, 8) == 256 * c && Pow2(8) == 256
  {
    hide Low, Shr;
    assert Pow2(8) == 256;
    assert Shl(c, 1) == 2 * c && Shl(c, 2) == 4 * c && Shl(c, 3) == 8 * c && Shl(c, 4) == 16 * c;
    assert Shl(c, 5) == 32 * c && Shl(c, 6) == 64 * c && Shl(c, 7) == 128 * c && Shl(c, 8) == 256 * c;
    Split(c, 8);
    var q := Shr(c, 8);
    assert Shl(q, 1) == 2 * q && Shl(q, 2) == 4 * q && Shl(q, 3) == 8 * q && Shl(q, 4) == 16 * q;
    assert Shl(q, 5) == 32 * q && Shl(q, 6) == 64 * q && Shl(q, 7) == 128 * q && Shl(q, 8) == 256 * q;
  }

  /** The low byte and the rest are added separately. */
  lemma XorCat(q: nat, r: nat, p: nat, s: nat)
    requires r < 256 && s < 256
    ensures Xor(r, s) < 256 && Xor(Cat(r, q), Cat(s, p)) == Cat(Xor(r, s), Xor(q, p))
  {
    hide Xor, Low, Shr, Shl, Pow2;
    LowByte(r + 256 * q);
    LowByte(s + 256 * p);
    LowByte(Xor(r + 256 * q, s + 256 * p));
    XorLow(r + 256 * q, s + 256 * p, 8);
    XorBound(r, s, 8);
  }

  lemma Apart(r: nat, q: nat)
    requires r < 256
    ensures Xor(r, 256 * q) == r + 256 * q
  {
    hide Xor;
    XorCat(0, r, q, 0);
    XorZero(r);
    XorZero(q);
  }

  /** One byte of a word, added to the register together with the others. */
  lemma FeedStep(c: nat, b: byte, w: nat, n: nat)
    ensures Steps(Xor(c, b + 256 * w), n + 8) == Steps(Xor(FeedByte(c, b), w), n)
  {
    hide Xor, Step, Steps, FeedByte, Shl;
    Apart(b, w);
    XorAssoc(c, b, 256 * w);
    StepsXor(Xor(c, b), 256 * w, 8);
    LowByte(w);
    StepsShift(w, 8);
    FeedByteSteps(c, b);
    StepsAdd(Xor(c, b + 256 * w), 8, n);
  }

  lemma FeedWord(c: nat, b0: byte, b1: byte, b2: byte, b3: byte)
    ensures Register(c, [b0, b1, b2, b3]) == Steps(Xor(c, WordOf(b0, b1, b2, b3)), 32)
  {
    hide Xor, Step, Steps, FeedByte;
    FeedStep(c, b0, b1 + 256 * (b2 + 256 * b3), 24);
    var c1 := FeedByte(c, b0);
    FeedStep(c1, b1, b2 + 256 * b3, 16);
    var c2 := FeedByte(c1, b1);
    FeedStep(c2, b2, b3, 8);
    var c3 := FeedByte(c2, b2);
    FeedByteSteps(c3, b3);
    FourBytes(c, b0, b1, b2, b3);
  }

  lemma FourBytes(c: nat, b0: byte, b1: byte, b2: byte, b3: byte)
    ensures Register(c, [b0, b1, b2, b3]) == FeedByte(FeedByte(FeedByte(FeedByte(c, b0), b1), b2), b3)
  {
    hide FeedByte;
    assert [b0, b1, b2, b3][..3] == [b0, b1, b2] && [b0, b1, b2][..2] == [b0, b1] && [b0, b1][..1] == [b0] && [b0][..0] == [];
    assert Register(c, []) == c;
    assert Register(c, [b0]) == FeedByte(c, b0);
    assert Register(c, [b0, b1]) == FeedByte(Register(c, [b0]), b1);
    assert Register(c, [b0, b1, b2]) == FeedByte(Register(c, [b0, b1]), b2);
  }

  /** The low byte's share of the steps. */
  lemma SplitSteps(x: nat, rest: nat, n: nat)
    requires x < 256
    ensures Steps(x + 256 * rest, n + 8) == Xor(Steps(x, n + 8), Steps(rest, n))
  {
    hide Xor, Step, Steps, Shl;
    Apart(x, rest);
    StepsXor(x, 256 * rest, n + 8);
    StepsAdd(256 * rest, 8, n);
    LowByte(rest);
    StepsShift(rest, 8);
  }

  /** 32 steps as four table look-ups. */
  lemma FourLookUps(x0: nat, x1: nat, x2: nat, x3: nat)
    requires x0 < 256 && x1 < 256 && x2 < 256 && x3 < 256
    ensures Steps(WordOf(x0, x1, x2, x3), 32) == Xor(Xor(Xor(Steps(x0, 32), Steps(x1, 24)), Steps(x2, 16)), Steps(x3, 8))
  {
    hide Xor, Step, Steps;
    SplitSteps(x0, x1 + 256 * (x2 + 256 * x3), 24);
    SplitSteps(x1, x2 + 256 * x3, 16);
    SplitSteps(x2, x3, 8);
    XorAssoc(Steps(x0, 32), Steps(x1, 24), Xor(Steps(x2, 16), Steps(x3, 8)));
    XorAssoc(Xor(Steps(x0, 32), Steps(x1, 24)), Steps(x2, 16), Steps(x3, 8));
  }

  lemma WordSplit(c: nat)
    requires c < WORD32
    ensures c == WordOf(c % 256, c / 0x100 % 256, c / 0x1_0000 % 256, c / 0x100_0000) && c / 0x100_0000 < 256
  {
    var c1 := c / 0x100;
    var c2 := c1 / 0x100;
    assert c2 == c / 0x1_0000 && c2 / 0x100 == c / 0x100_0000;
    assert c == c % 256 + 256 * c1 && c1 == c1 % 256 + 256 * c2 && c2 == c2 % 256 + 256 * (c2 / 0x100);
  }

  lemma WordBytes(x0: nat, x1: nat, x2: nat, x3: nat)
    requires x0 < 256 && x1 < 256 && x2 < 256 && x3 < 256
    ensures var w := WordOf(x0, x1, x2, x3);
      w < WORD32 && w % 256 == x0 && w / 0x100 % 256 == x1 && w / 0x1_0000 % 256 == x2 && w / 0x100_0000 == x3
  {
    var w3 := x3;
    var w2 := x2 + 256 * w3;
    var w1 := x1 + 256 * w2;
    var w := x0 + 256 * w1;
    assert w / 0x100 == w1 && w1 / 0x100 == w2 && w2 / 0x100 == w3;
    assert w / 0x1_0000 == w2 && w / 0x100_0000 == w3;
  }

  lemma SwapWord(x0: nat, x1: nat, x2: nat, x3: nat)
    requires x0 < 256 && x1 < 256 && x2 < 256 && x3 < 256
    ensures Swap(WordOf(x0, x1, x2, x3)) == WordOf(x3, x2, x1, x0)
  {
    WordBytes(x0, x1, x2, x3);
  }

  lemma XorWord(a0: nat, a1: nat, a2: nat, a3: nat, b0: nat, b1: nat, b2: nat, b3: nat)
    requires a0 < 256 && a1 < 256 && a2 < 256 && a3 < 256 && b0 < 256 && b1 < 256 && b2 < 256 && b3 < 256
    ensures Xor(a0, b0) < 256 && Xor(a1, b1) < 256 && Xor(a2, b2) < 256 && Xor(a3, b3) < 256
    ensures Xor(WordOf(a0, a1, a2, a3), WordOf(b0, b1, b2, b3)) == WordOf(Xor(a0, b0), Xor(a1, b1), Xor(a2, b2), Xor(a3, b3))
  {
    hide Xor, Cat;
    var u, v := Cat(a2, a3), Cat(b2, b3);
    var y, z := Cat(a1, u), Cat(b1, v);
    XorCat(0, a3, 0, b3);
    XorCat(a3, a2, b3, b2);
    XorCat(u, a1, v, b1);
    XorCat(y, a0, z, b0);
  }

  /** Swapping is linear, and undoes itself. */
  lemma SwapXor(a: nat, b: nat)
    requires a < WORD32 && b < WORD32
    ensures Swap(Xor(a, b)) == Xor(Swap(a), Swap(b)) && Xor(a, b) < WORD32
  {
    hide Xor, Swap, WordOf;
    var a0, a1, a2, a3 := a % 256, a / 0x100 % 256, a / 0x1_0000 % 256, a / 0x100_0000;
    var b0, b1, b2, b3 := b % 256, b / 0x100 % 256, b / 0x1_0000 % 256, b / 0x100_0000;
    WordSplit(a);
    WordSplit(b);
    XorWord(a0, a1, a2, a3, b0, b1, b2, b3);
    XorWord(a3, a2, a1, a0, b3, b2, b1, b0);
    SwapWord(a0, a1, a2, a3);
    SwapWord(b0, b1, b2, b3);
    SwapWord(Xor(a0, b0), Xor(a1, b1), Xor(a2, b2), Xor(a3, b3));
    WordBytes(Xor(a0, b0), Xor(a1, b1), Xor(a2, b2), Xor(a3, b3));
  }

  lemma SwapSwap(c: nat)
    requires c < WORD32
    ensures Swap(c) < WORD32 && Swap(Swap(c)) == c
  {
    hide Swap, WordOf;
    WordSplit(c);
    var c0, c1, c2, c3 := c % 256, c / 0x100 % 256, c / 0x1_0000 % 256, c / 0x100_0000;
    SwapWord(c0, c1, c2, c3);
    SwapWord(c3, c2, c1, c0);
    WordBytes(c3, c2, c1, c0);
  }

  /** Table k holds the bytes followed by k zero bytes, table 4 + k the same swapped. */
  ghost predicate TablesOk(t: array2<nat>)
    reads t
  {
    && t.Length0 == 8 && t.Length1 == 256
    && (forall k, n :: 0 <= k < 4 && 0 <= n < 256 ==> t[k, n] == Steps(n, 8 * (k + 1)))
    && (forall k, n :: 4 <= k < 8 && 0 <= n < 256 ==> t[k, n] == Swap(Steps(n, 8 * (k - 3))))
  }

  /** The terms of the polynomial, except x^32. */
  const TERMS: seq<nat> := [0, 1, 2, 4, 5, 7, 8, 10, 11, 12, 16, 22, 23, 26]

  /** The first n terms, that of x^0 on top. */
  function PolyOf(n: nat): nat
    requires n <= 14
  {
    if n == 0 then 0 else PolyOf(n - 1) + Pow2(31 - TERMS[n - 1])
  }

  /** Only bits from that of the last term up. */
  lemma {:induction false} PolyBits(n: nat) returns (q: nat)
    requires 1 <= n <= 14
    ensures PolyOf(n) == Shl(q, 31 - TERMS[n - 1])
  {
    if n == 1 {
      q := 1;
      ShlOne(31);
    } else {
      hide PolyOf, Shl, Pow2;
      var before := PolyBits(n - 1);
      var k := TERMS[n - 1] - TERMS[n - 2];
      ShlShl(before, k, 31 - TERMS[n - 1]);
      q := Shl(before, k) + 1;
      ShlAdd(Shl(before, k), 1, 31 - TERMS[n - 1]);
      ShlOne(31 - TERMS[n - 1]);
      PolyNext(n);
    }
  }

  lemma PolyNext(n: nat)
    requires 1 <= n <= 14
    ensures PolyOf(n) == PolyOf(n - 1) + Pow2(31 - TERMS[n - 1])
  {
  }

  /** The polynomial is the sum of its terms. */
  lemma PolyTerms()
    ensures POLY == PolyOf(14)
    ensures POLY == Pow2(31) + Pow2(30) + Pow2(29) + Pow2(27) + Pow2(26) + Pow2(24) + Pow2(23) + Pow2(21) + Pow2(20) + Pow2(19)
                    + Pow2(15) + Pow2(9) + Pow2(8) + Pow2(5)
  {
    hide Pow2, PolyOf;
    PolyPowers();
    NoTerms();
    FirstTerms();
    PolyNext(8);
    PolyNext(9);
    PolyNext(10);
    PolyNext(11);
    PolyNext(12);
    PolyNext(13);
    PolyNext(14);
  }

  lemma FirstTerms()
    ensures PolyOf(7) == Pow2(31) + Pow2(30) + Pow2(29) + Pow2(27) + Pow2(26) + Pow2(24) + Pow2(23)
  {
    hide Pow2, PolyOf;
    NoTerms();
    PolyNext(1);
    PolyNext(2);
    PolyNext(3);
    PolyNext(4);
    PolyNext(5);
    PolyNext(6);
    PolyNext(7);
  }

  lemma PolyPowers()
    ensures Pow2(5) == 32 && Pow2(8) == 256 && Pow2(9) == 512 && Pow2(15) == 0x8000 && Pow2(19) == 0x8_0000 && Pow2(20) == 0x10_0000
    ensures Pow2(21) == 0x20_0000 && Pow2(23) == 0x80_0000 && Pow2(24) == 0x100_0000 && Pow2(26) == 0x400_0000 && Pow2(27) == 0x800_0000
    ensures Pow2(29) == 0x2000_0000 && Pow2(30) == 0x4000_0000 && Pow2(31) == 0x8000_0000
  {
    assert Pow2(10) == 1024;
    assert Pow2(20) == 1048576;
  }

  /** The exclusive-or pattern, from the terms. */
  method MakePoly() returns (poly: nat)
    ensures poly == POLY
  {
    hide Or, PolyOf, Shl, Pow2;
    poly := 0;
    NoTerms();
    for n := 0 to 14
      invariant poly == PolyOf(n)
    {
      ShlOne(31 - TERMS[n]);
      PolyNext(n + 1);
      if n > 0 {
        var q := PolyBits(n);
        var k := TERMS[n] - TERMS[n - 1] - 1;
        Pow2Less(31 - TERMS[n], 32 - TERMS[n]);
        ShlShl(q, k, 32 - TERMS[n]);
        OrBelow(Shl(q, k), Pow2(31 - TERMS[n]), 32 - TERMS[n]);
      } else {
        OrZero(Shl(1, 31));
      }
      poly := Or(poly, Shl(1, 31 - TERMS[n]));
    }
    PolyTerms();
  }

  lemma NoTerms()
    ensures PolyOf(0) == 0
  {
  }

  lemma Pow2Less(a: nat, b: nat)
    requires a + 1 == b
    ensures Pow2(a) < Pow2(b)
  {
  }

  /** Known answers: the register is empty after four bytes of ones; with one bit missing, the polynomial is in it. */
  lemma KnownCrcs()
    ensures Crc(0, []) == 0
    ensures Crc(0, [0xFF, 0xFF, 0xFF, 0xFF]) == 0xFFFF_FFFF
    ensures Crc(0, [0xFF, 0xFF, 0xFF, 0x7F]) == 0xFFFF_FFFF - POLY == 0x1247_7CDF
  {
    hide Xor, Register, Steps, Step;
    XorZero(ONES);
    assert Register(ONES, []) == ONES by {
      NoBytes(ONES);
    }
    FeedWord(ONES, 0xFF, 0xFF, 0xFF, 0xFF);
    StepsZero(32);
    FeedWord(ONES, 0xFF, 0xFF, 0xFF, 0x7F);
    Complement(0x7FFF_FFFF);
    ShlOne(31);
    PolyPowers();
    StepsShift(1, 31);
    StepsAdd(Shl(1, 31), 31, 1);
    OneStep();
    XorComm(ONES, 0x7FFF_FFFF);
    Complement(POLY);
  }

  lemma NoBytes(c: nat)
    ensures Register(c, []) == c
  {
  }

  lemma Complement(a: nat)
    requires a <= ONES
    ensures Xor(a, ONES) == ONES - a
  {
    hide Xor;
    PolyPowers();
    assert Pow2(32) == 2 * Pow2(31);
    XorOnes(a, 32);
  }

  /** The lowest bit becomes the polynomial. */
  lemma OneStep()
    ensures Steps(1, 1) == POLY
  {
    hide Xor;
    XorZero(POLY);
    assert Steps(POLY, 0) == POLY;
  }

  /** The CRC of one byte, bit by bit. */
  method ByteCrc(poly: nat, n: nat) returns (c: nat)
    requires poly == POLY
    ensures c == Steps(n, 8)
  {
    hide Steps, Xor;
    c := n;
    StepsStart(n);
    for k := 0 to 8
      invariant c == Steps(n, k)
    {
      StepsNext(n, k);
      c := if c % 2 == 1 then Xor(poly, c / 2) else c / 2;
    }
  }

  /** make_crc_table. */
  method MakeCrcTable() returns (t: array2<nat>)
    ensures fresh(t) && TablesOk(t)
  {
    hide Steps, Swap, Xor, Step;
    t := new nat[8, 256];
    var poly := MakePoly();
    for n := 0 to 256
      invariant forall m :: 0 <= m < n ==> t[0, m] == Steps(m, 8)
    {
      var c := ByteCrc(poly, n);
      t[0, n] := c;
    }
    for n := 0 to 256
      invariant forall m :: 0 <= m < 256 ==> t[0, m] == Steps(m, 8)
      invariant forall k, m :: 1 <= k < 4 && 0 <= m < n ==> t[k, m] == Steps(m, 8 * (k + 1))
      invariant forall k, m :: 4 <= k < 8 && 0 <= m < n ==> t[k, m] == Swap(Steps(m, 8 * (k - 3)))
    {
      var c := t[0, n];
      t[4, n] := Swap(c);
      NextByte(n, 8, t[0, c % 256]);
      c := Xor(t[0, c % 256], c / 256);
      t[1, n], t[5, n] := c, Swap(c);
      NextByte(n, 16, t[0, c % 256]);
      c := Xor(t[0, c % 256], c / 256);
      t[2, n], t[6, n] := c, Swap(c);
      NextByte(n, 24, t[0, c % 256]);
      c := Xor(t[0, c % 256], c / 256);
      t[3, n], t[7, n] := c, Swap(c);
    }
  }

  /** A table look-up and a shift are eight more steps. */
  lemma NextByte(n: nat, k: nat, entry: nat)
    requires entry == Steps(Steps(n, k) % 256, 8)
    ensures Steps(n, k + 8) == Xor(entry, Steps(n, k) / 256)
  {
    hide Steps, Xor, Low, Shr;
    StepsAdd(n, k, 8);
    StepsByte(Steps(n, k));
    LowByte(Steps(n, k));
  }

  lemma StepsStart(c: nat)
    ensures Steps(c, 0) == c
  {
  }

  lemma StepsNext(c: nat, k: nat)
    ensures Steps(c, k + 1) == var d := Steps(c, k); if d % 2 == 1 then Xor(POLY, d / 2) else d / 2
  {
    hide Xor;
    StepsAdd(c, k, 1);
  }
}
