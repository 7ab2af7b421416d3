/** crc32_little and crc32_big: the CRC four bytes at a time. */
module Crc32ByFour {
  import opened Sums
  import opened Bits
  import opened Xors
  import opened Blocks
  import opened Crc32
  import opened Crc32Tables

  lemma Words()
    ensures Pow2(32) == WORD32 && ONES < WORD32
  {
    assert Pow2(10) == 1024;
    assert Pow2(20) == 1048576;
    assert Pow2(30) == 1073741824;
  }

  lemma {:induction false} RegisterBound(c: nat, s: seq<byte>)
    requires c < WORD32
    ensures Register(c, s) < WORD32
    decreases |s|
  {
    if s != [] {
      hide FeedByte, Pow2;
      RegisterBound(c, s[..|s| - 1]);
      ByteBound(Register(c, s[..|s| - 1]), s[|s| - 1]);
    }
  }

  lemma ByteBound(c: nat, b: byte)
    requires c < WORD32
    ensures FeedByte(c, b) < WORD32
  {
    hide Xor, Pow2, FeedByte, Steps;
    Words();
    XorBound(c, b, 32);
    FeedByteSteps(c, b);
    StepsBound(Xor(c, b), 8);
  }

  /** A byte at a time: one look-up. */
  lemma ByteLookUp(c: nat, b: byte)
    ensures FeedByte(c, b) == Xor(Steps(Xor(c, b) % 256, 8), c / 256)
  {
    hide Xor, Steps, FeedByte, Low, Shr, Cat;
    FeedByteSteps(c, b);
    StepsByte(Xor(c, b));
    LowByte(Xor(c, b));
    XorTop(c, b);
  }

  lemma XorTop(c: nat, b: byte)
    ensures Xor(c, b) / 256 == c / 256 && Xor(c, b) % 256 == Xor(c % 256, b) < 256
  {
    hide Xor;
    XorCat(c / 256, c % 256, 0, b);
    XorZero(c / 256);
  }

  /** Taking in one more byte. */
  lemma RegisterByte(c: nat, s: seq<byte>, i: nat)
    requires i < |s|
    ensures Register(c, s[..i + 1]) == FeedByte(Register(c, s[..i]), s[i])
  {
    assert s[..i + 1][..i] == s[..i];
  }

  lemma RegisterWord(c: nat, s: seq<byte>, i: nat)
    requires i + 4 <= |s|
    ensures Register(c, s[..i + 4]) == Register(Register(c, s[..i]), [s[i], s[i + 1], s[i + 2], s[i + 3]])
  {
    assert s[..i + 4] == s[..i] + [s[i], s[i + 1], s[i + 2], s[i + 3]];
    RegisterJoin(c, s[..i], [s[i], s[i + 1], s[i + 2], s[i + 3]]);
  }

  /** DOLIT4. */
  method DoLit4(t: array2<nat>, c: nat, b0: byte, b1: byte, b2: byte, b3: byte) returns (r: nat)
    requires TablesOk(t) && c < WORD32
    ensures r == Register(c, [b0, b1, b2, b3])
  {
    hide Xor, Steps, Cat, Register, Pow2;
    var x := Xor(c, WordOf(b0, b1, b2, b3));
    FeedWord(c, b0, b1, b2, b3);
    WordBytes(b0, b1, b2, b3);
    Words();
    XorBound(c, WordOf(b0, b1, b2, b3), 32);
    WordSplit(x);
    FourLookUps(x % 256, x / 0x100 % 256, x / 0x1_0000 % 256, x / 0x100_0000);
    r := Xor(Xor(Xor(t[3, x % 256], t[2, x / 0x100 % 256]), t[1, x / 0x1_0000 % 256]), t[0, x / 0x100_0000]);
  }

  /** crc32_little, for a buffer at address addr. */
  method Crc32Little(t: array2<nat>, crc: nat, buf: seq<byte>, addr: nat) returns (r: nat)
    requires TablesOk(t) && crc < WORD32
    ensures r == Crc(crc, buf)
  {
    hide Xor, Steps, Register, FeedByte, Pow2, TablesOk;
    Words();
    XorBound(crc, ONES, 32);
    ghost var c0 := Xor(crc, ONES);
    var c := Xor(crc, ONES);
    var i := 0;
    NothingFed(c0, buf);
    while i < |buf| && (addr + i) % 4 != 0
      invariant i <= |buf| && c == Register(c0, buf[..i])
    {
      c := LittleByte(t, c, buf, i, c0);
      i := i + 1;
    }
    while |buf| - i >= 32
      invariant i <= |buf| && c == Register(c0, buf[..i])
    {
      var stop := i + 32;
      while i < stop
        invariant (stop - i) % 4 == 0 && i <= stop <= |buf| && c == Register(c0, buf[..i])
      {
        c := LittleWord(t, c, buf, i, c0);
        i := i + 4;
      }
    }
    while |buf| - i >= 4
      invariant i <= |buf| && c == Register(c0, buf[..i])
    {
      c := LittleWord(t, c, buf, i, c0);
      i := i + 4;
    }
    while i < |buf|
      invariant i <= |buf| && c == Register(c0, buf[..i])
    {
      c := LittleByte(t, c, buf, i, c0);
      i := i + 1;
    }
    assert buf[..|buf|] == buf;
    r := Xor(c, ONES);
  }

  lemma NothingFed(c: nat, s: seq<byte>)
    ensures Register(c, s[..0]) == c
  {
  }

  method LittleByte(t: array2<nat>, c: nat, buf: seq<byte>, i: nat, ghost c0: nat) returns (r: nat)
    requires TablesOk(t) && i < |buf| && c == Register(c0, buf[..i])
    ensures r == Register(c0, buf[..i + 1])
  {
    hide Xor, Steps, Register, FeedByte;
    RegisterByte(c0, buf, i);
    ByteLookUp(c, buf[i]);
    r := Xor(t[0, Xor(c, buf[i]) % 256], c / 256);
  }

  method LittleWord(t: array2<nat>, c: nat, buf: seq<byte>, i: nat, ghost c0: nat) returns (r: nat)
    requires TablesOk(t) && i + 4 <= |buf| && c == Register(c0, buf[..i]) && c0 < WORD32
    ensures r == Register(c0, buf[..i + 4])
  {
    hide Register, TablesOk;
    RegisterWord(c0, buf, i);
    RegisterBound(c0, buf[..i]);
    r := DoLit4(t, c, buf[i], buf[i + 1], buf[i + 2], buf[i + 3]);
  }

  /** A byte at a time on the swapped register. */
  lemma SwappedByte(c: nat, b: byte)
    requires c < WORD32
    ensures Swap(c) / 0x100_0000 == c % 256 && Xor(c % 256, b) < 256
    ensures Swap(FeedByte(c, b)) == Xor(Swap(Steps(Xor(c % 256, b), 8)), Swap(c) * 256 % WORD32)
  {
    hide Xor, Steps, FeedByte, Swap, Cat, Pow2;
    ByteLookUp(c, b);
    XorTop(c, b);
    Words();
    StepsBound(Xor(c % 256, b), 8);
    SwapXor(Steps(Xor(c % 256, b), 8), c / 256);
    SwapShift(c);
  }

  lemma SwapShift(c: nat)
    requires c < WORD32
    ensures Swap(c) / 0x100_0000 == c % 256 && Swap(c / 256) == Swap(c) * 256 % WORD32
  {
    hide Swap, WordOf, Cat;
    var c0, c1, c2, c3 := c % 256, c / 0x100 % 256, c / 0x1_0000 % 256, c / 0x100_0000;
    WordSplit(c);
    SwapWord(c0, c1, c2, c3);
    SwapWord(c1, c2, c3, 0);
    WordBytes(c3, c2, c1, c0);
    WordMoves(c0, c1, c2, c3);
  }

  lemma WordMoves(c0: nat, c1: nat, c2: nat, c3: nat)
    requires c0 < 256 && c1 < 256 && c2 < 256 && c3 < 256
    ensures WordOf(c0, c1, c2, c3) / 256 == WordOf(c1, c2, c3, 0)
    ensures WordOf(c3, c2, c1, c0) * 256 % WORD32 == WordOf(0, c3, c2, c1)
  {
    var low := WordOf(0, c3, c2, c1);
    assert low < WORD32;
    assert WordOf(c3, c2, c1, c0) * 256 == low + WORD32 * c0;
    Wraps(low, c0);
  }

  lemma Wraps(r: nat, q: nat)
    requires r < WORD32
    ensures (r + WORD32 * q) % WORD32 == r
  {
  }

  /** The word at a time on the swapped register: the tables in the opposite order. */
  lemma SwappedLookUps(x: nat)
    requires x < WORD32
    ensures var y := Swap(x);
      && y % 256 == x / 0x100_0000 < 256 && y / 0x100 % 256 == x / 0x1_0000 % 256
      && y / 0x1_0000 % 256 == x / 0x100 % 256 && y / 0x100_0000 == x % 256
      && Swap(Steps(x, 32)) == Xor(Xor(Xor(Swap(Steps(y % 256, 8)), Swap(Steps(y / 0x100 % 256, 16))), Swap(Steps(y / 0x1_0000 % 256, 24))), Swap(Steps(y / 0x100_0000, 32)))
  {
    hide Xor, Steps, Swap, Cat, Pow2;
    var x0, x1, x2, x3 := x % 256, x / 0x100 % 256, x / 0x1_0000 % 256, x / 0x100_0000;
    WordSplit(x);
    SwapWord(x0, x1, x2, x3);
    WordBytes(x3, x2, x1, x0);
    FourLookUps(x0, x1, x2, x3);
    SwapFour(Steps(x0, 32), Steps(x1, 24), Steps(x2, 16), Steps(x3, 8)) by {
      Words();
      StepsBound(x0, 32);
      StepsBound(x1, 24);
      StepsBound(x2, 16);
      StepsBound(x3, 8);
    }
  }

  /** Swapping a sum of four, turned around. */
  lemma SwapFour(a: nat, b: nat, c: nat, d: nat)
    requires a < WORD32 && b < WORD32 && c < WORD32 && d < WORD32
    ensures Swap(Xor(Xor(Xor(a, b), c), d)) == Xor(Xor(Xor(Swap(d), Swap(c)), Swap(b)), Swap(a))
  {
    hide Xor, Swap;
    SwapXor(a, b);
    SwapXor(Xor(a, b), c);
    SwapXor(Xor(Xor(a, b), c), d);
    var a', b', c', d' := Swap(a), Swap(b), Swap(c), Swap(d);
    XorComm(Xor(Xor(a', b'), c'), d');
    XorComm(Xor(a', b'), c');
    XorAssoc(d', c', Xor(a', b'));
    XorComm(a', b');
    XorAssoc(Xor(d', c'), b', a');
  }

  /** DOBIG4: the word is the one a big endian machine reads. */
  method DoBig4(t: array2<nat>, c: nat, b0: byte, b1: byte, b2: byte, b3: byte, ghost reg: nat) returns (r: nat)
    requires TablesOk(t) && reg < WORD32 && c == Swap(reg)
    ensures r == Swap(Register(reg, [b0, b1, b2, b3]))
  {
    hide Xor, Steps, Cat, Register, Pow2, Swap;
    var y := Xor(c, WordOf(b3, b2, b1, b0));
    FeedWord(reg, b0, b1, b2, b3);
    WordBytes(b0, b1, b2, b3);
    SwapWord(b0, b1, b2, b3);
    SwapXor(reg, WordOf(b0, b1, b2, b3));
    SwappedLookUps(Xor(reg, WordOf(b0, b1, b2, b3)));
    r := Xor(Xor(Xor(t[4, y % 256], t[5, y / 0x100 % 256]), t[6, y / 0x1_0000 % 256]), t[7, y / 0x100_0000]);
  }

  /** crc32_big, for a buffer at address addr. */
  method Crc32Big(t: array2<nat>, crc: nat, buf: seq<byte>, addr: nat) returns (r: nat)
    requires TablesOk(t) && crc < WORD32
    ensures r == Crc(crc, buf)
  {
    hide Xor, Steps, Register, FeedByte, Pow2, TablesOk, Swap;
    ghost var c0 := Xor(crc, ONES);
    SwapStart(crc);
    var c := Xor(Swap(crc), ONES);
    var i := 0;
    NothingFed(c0, buf);
    while i < |buf| && (addr + i) % 4 != 0
      invariant i <= |buf| && c == Swap(Register(c0, buf[..i]))
    {
      c := BigByte(t, c, buf, i, c0);
      i := i + 1;
    }
    while |buf| - i >= 32
      invariant i <= |buf| && c == Swap(Register(c0, buf[..i]))
    {
      var stop := i + 32;
      while i < stop
        invariant (stop - i) % 4 == 0 && i <= stop <= |buf| && c == Swap(Register(c0, buf[..i]))
      {
        c := BigWord(t, c, buf, i, c0);
        i := i + 4;
      }
    }
    while |buf| - i >= 4
      invariant i <= |buf| && c == Swap(Register(c0, buf[..i]))
    {
      c := BigWord(t, c, buf, i, c0);
      i := i + 4;
    }
    while i < |buf|
      invariant i <= |buf| && c == Swap(Register(c0, buf[..i]))
    {
      c := BigByte(t, c, buf, i, c0);
      i := i + 1;
    }
    assert buf[..|buf|] == buf;
    SwapEnd(Register(c0, buf)) by { RegisterBound(c0, buf); }
    r := Swap(Xor(c, ONES));
  }

  lemma SwapStart(crc: nat)
    requires crc < WORD32
    ensures Xor(crc, ONES) < WORD32 && Xor(Swap(crc), ONES) == Swap(Xor(crc, ONES))
  {
    hide Xor;
    assert Swap(ONES) == ONES && ONES < WORD32;
    SwapXor(crc, ONES);
  }

  lemma SwapEnd(reg: nat)
    requires reg < WORD32
    ensures Swap(Xor(Swap(reg), ONES)) == Xor(reg, ONES)
  {
    hide Xor, Swap;
    SwapStart(reg);
    SwapSwap(Xor(reg, ONES));
  }

  method BigByte(t: array2<nat>, c: nat, buf: seq<byte>, i: nat, ghost c0: nat) returns (r: nat)
    requires TablesOk(t) && i < |buf| && c == Swap(Register(c0, buf[..i])) && c0 < WORD32
    ensures r == Swap(Register(c0, buf[..i + 1]))
  {
    hide Xor, Steps, Register, FeedByte, Swap;
    RegisterByte(c0, buf, i);
    RegisterBound(c0, buf[..i]);
    SwappedByte(Register(c0, buf[..i]), buf[i]);
    r := Xor(t[4, Xor(c / 0x100_0000, buf[i])], c * 256 % WORD32);
  }

  method BigWord(t: array2<nat>, c: nat, buf: seq<byte>, i: nat, ghost c0: nat) returns (r: nat)
    requires TablesOk(t) && i + 4 <= |buf| && c == Swap(Register(c0, buf[..i])) && c0 < WORD32
    ensures r == Swap(Register(c0, buf[..i + 4]))
  {
    hide Register, TablesOk, Swap;
    RegisterWord(c0, buf, i);
    RegisterBound(c0, buf[..i]);
    r := DoBig4(t, c, buf[i], buf[i + 1], buf[i + 2], buf[i + 3], Register(c0, buf[..i]));
  }
}
