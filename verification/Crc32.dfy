/** The CRC-32 register, fed bit by bit, and its linearity. */
module Crc32 {
  import opened Sums
  import opened Bits
  import opened Xors
  import opened Blocks

  const POLY: nat := 0xedb88320
  const ONES: nat := 0xffffffff

  /** One step of the shift register. */
  function Step(c: nat): nat {
    if c % 2 == 1 then Xor(POLY, c / 2) else c / 2
  }

  function Steps(c: nat, n: nat): nat
    decreases n
  {
    if n == 0 then c else Steps(Step(c), n - 1)
  }

  /** The definition: the bits of a byte enter one by one, the lowest first. */
  function FeedBits(c: nat, b: nat, n: nat): nat
    decreases n
  {
    if n == 0 then c else FeedBits(Step(Xor(c, b % 2)), b / 2, n - 1)
  }

  function FeedByte(c: nat, b: byte): nat {
    FeedBits(c, b, 8)
  }

  /** The register after the bytes. */
  function Register(c: nat, s: seq<byte>): nat {
    if s == [] then c else FeedByte(Register(c, s[..|s| - 1]), s[|s| - 1])
  }

  /** The CRC of a byte string, continuing from the CRC of what came before it. */
  function Crc(crc: nat, s: seq<byte>): nat {
    Xor(Register(Xor(crc, ONES), s), ONES)
  }

  lemma StepXor(a: nat, b: nat)
    ensures Step(Xor(a, b)) == Xor(Step(a), Step(b))
  {
    hide Xor;
    XorHalf(a, b);
    var x, y := a / 2, b / 2;
    XorAssoc(POLY, x, y);
    XorAssoc(x, POLY, y);
    XorComm(x, POLY);
    XorPairs(POLY, x, POLY, y);
    XorZero(POLY);
    XorZero(Xor(x, y));
  }

  /** The register is linear. */
  lemma {:induction false} StepsXor(a: nat, b: nat, n: nat)
    ensures Steps(Xor(a, b), n) == Xor(Steps(a, n), Steps(b, n))
    decreases n
  {
    hide Step, Xor;
    if n != 0 {
      StepXor(a, b);
      StepsXor(Step(a), Step(b), n - 1);
    }
  }

  lemma {:induction false} StepsAdd(c: nat, m: nat, n: nat)
    ensures Steps(c, m + n) == Steps(Steps(c, m), n)
    decreases m
  {
    hide Step;
    if m != 0 {
      StepsAdd(Step(c), m - 1, n);
    }
  }

  lemma {:induction false} StepsZero(n: nat)
    ensures Steps(0, n) == 0
  {
    if n != 0 {
      StepsZero(n - 1);
    }
  }

  /** A register without low bits is only shifted. */
  lemma {:induction false} StepsShift(q: nat, n: nat)
    ensures Steps(Shl(q, n), n) == q
  {
    if n != 0 {
      StepsShift(q, n - 1);
    }
  }

  /** Eight steps in one: a table look-up for the low byte, and a shift. */
  lemma StepsByte(c: nat)
    ensures Steps(c, 8) == Xor(Steps(Low(c, 8), 8), Shr(c, 8))
  {
    hide Step, Steps, Xor, Shl, Shr, Low;
    Split(c, 8);
    XorJoin(Shr(c, 8), Low(c, 8), 8);
    StepsXor(Shl(Shr(c, 8), 8), Low(c, 8), 8);
    StepsShift(Shr(c, 8), 8);
    XorComm(Shr(c, 8), Steps(Low(c, 8), 8));
  }

  lemma {:induction false} StepsBound(c: nat, n: nat)
    requires c < Pow2(32)
    ensures Steps(c, n) < Pow2(32)
    decreases n
  {
    if n != 0 {
      PolyBound();
      XorBound(POLY, c / 2, 32);
      hide Pow2, Xor;
      StepsBound(Step(c), n - 1);
    }
  }

  lemma PolyBound()
    ensures POLY < Pow2(32) && ONES < Pow2(32)
  {
    assert Pow2(10) == 1024;
    assert Pow2(20) == 1048576;
    assert Pow2(30) == 1073741824;
  }

  /** Only the lowest bit meets the polynomial. */
  lemma StepSplit(c: nat, b: nat)
    ensures Step(Xor(c, b)) == Xor(Step(Xor(c, b % 2)), b / 2)
  {
    hide Xor;
    var low, high := b % 2, 2 * (b / 2);
    assert Xor(high, low) == b by {
      assert Pow2(1) == 2 && Shl(b / 2, 1) == high;
      XorJoin(b / 2, low, 1);
    }
    XorComm(high, low);
    XorAssoc(c, low, high);
    StepXor(Xor(c, low), high);
  }

  /** Feeding the bits one by one is the same as adding them all and then stepping. */
  lemma {:induction false} FeedBitsSteps(c: nat, b: nat, n: nat)
    requires b < Pow2(n)
    ensures FeedBits(c, b, n) == Steps(Xor(c, b), n)
    decreases n
  {
    hide Step, Xor;
    if n != 0 {
      StepSplit(c, b);
      FeedBitsSteps(Step(Xor(c, b % 2)), b / 2, n - 1);
    } else {
      XorZero(c);
    }
  }

  lemma FeedByteSteps(c: nat, b: byte)
    ensures FeedByte(c, b) == Steps(Xor(c, b), 8)
  {
    hide Step, Steps, FeedBits, Xor;
    assert Pow2(8) == 256;
    FeedBitsSteps(c, b, 8);
  }

  lemma {:induction false} RegisterJoin(c: nat, a: seq<byte>, b: seq<byte>)
    ensures Register(c, a + b) == Register(Register(c, a), b)
    decreases |b|
  {
    hide FeedByte;
    if b == [] {
      assert a + b == a;
    } else {
      assert (a + b)[..|a + b| - 1] == a + b[..|b| - 1];
      RegisterJoin(c, a, b[..|b| - 1]);
    }
  }

  /** What is added to the register beforehand comes out stepped on. */
  lemma {:induction false} RegisterXor(c: nat, d: nat, s: seq<byte>)
    ensures Register(Xor(c, d), s) == Xor(Register(c, s), Steps(d, 8 * |s|))
    decreases |s|
  {
    hide Step, FeedByte, Xor;
    if s != [] {
      var n := |s| - 1;
      var b := s[n];
      RegisterXor(c, d, s[..n]);
      var r, e := Register(c, s[..n]), Steps(d, 8 * n);
      FeedByteSteps(Xor(r, e), b);
      FeedByteSteps(r, b);
      XorSwap(r, e, b);
      StepsXor(Xor(r, b), e, 8);
      StepsAdd(d, 8 * n, 8);
    }
  }

  /** The CRC of a concatenation from those of its parts. */
  lemma CrcJoin(a: seq<byte>, b: seq<byte>)
    ensures Crc(0, a + b) == Crc(Crc(0, a), b)
    ensures Crc(0, a + b) == Xor(Steps(Crc(0, a), 8 * |b|), Crc(0, b))
  {
    hide Step, Steps, Register, Xor;
    var start := Xor(0, ONES);
    var r := Register(start, a);
    XorZero(ONES);
    RegisterJoin(start, a, b);
    XorTwice(r, ONES);
    XorComm(ONES, Xor(r, ONES));
    RegisterXor(start, Xor(r, ONES), b);
    var rb, e := Register(start, b), Steps(Xor(r, ONES), 8 * |b|);
    XorComm(rb, e);
    XorAssoc(e, rb, ONES);
  }
}
