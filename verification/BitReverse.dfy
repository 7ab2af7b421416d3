/** Bit reversal of codes: bi_reverse of trees.c and the backwards increment of inftrees.c. */
module BitReverse {
  import opened Sums
  import opened Bits

  /** The low len bits of code in reverse order. */
  function Rev(code: nat, len: nat): (r: nat)
    ensures r < Pow2(len)
    decreases len
  {
    if len == 0 then 0 else (if code % 2 == 1 then Pow2(len - 1) else 0) + Rev(code / 2, len - 1)
  }

  /** Reversing a + b bits reverses the low a bits into the high places. */
  lemma {:induction false} RevSplit(x: nat, a: nat, b: nat)
    ensures Rev(x, a + b) == Shl(Rev(x, a), b) + Rev(Shr(x, a), b)
    decreases a
  {
    if a != 0 {
      RevSplit(x / 2, a - 1, b);
      ShlAdd(Pow2(a - 1), Rev(x / 2, a - 1), b);
      ShlPow2(a - 1, b);
    } else {
      ShlAdd(0, 0, b);
    }
  }

  /** Only the low len bits matter. */
  lemma {:induction false} RevLow(x: nat, len: nat)
    ensures Rev(Low(x, len), len) == Rev(x, len)
    decreases len
  {
    if len != 0 {
      RevLow(x / 2, len - 1);
      assert Low(x, len) / 2 == Low(x / 2, len - 1) && Low(x, len) % 2 == x % 2;
    }
  }

  lemma RevOne(x: nat)
    ensures Rev(x, 1) == x % 2
  {
    assert Rev(x / 2, 0) == 0;
  }

  /** One more bit of the code becomes the new lowest bit. */
  lemma RevNext(x: nat, n: nat)
    ensures Rev(x, n + 1) == 2 * Rev(x, n) + Shr(x, n) % 2
  {
    RevSplit(x, n, 1);
    RevOne(Shr(x, n));
    assert Shl(Rev(x, n), 1) == 2 * Shl(Rev(x, n), 0);
  }

  /** The lowest bit of the code comes out on top. */
  lemma RevTop(c: nat, len: nat)
    requires len >= 1
    ensures Shr(Rev(c, len), len - 1) == c % 2 && Low(Rev(c, len), len - 1) == Rev(c / 2, len - 1)
  {
    assert Rev(c, len) == Shl(c % 2, len - 1) + Rev(c / 2, len - 1) by {
      ShlPow2(0, len - 1);
      ShlAdd(0, 0, len - 1);
    }
    Join(c % 2, Rev(c / 2, len - 1), len - 1);
  }

  /** Reversal undoes itself. */
  lemma {:induction false} RevRev(c: nat, len: nat)
    requires c < Pow2(len)
    ensures Rev(Rev(c, len), len) == c
    decreases len
  {
    if len != 0 {
      RevRev(c / 2, len - 1);
      RevTop(c, len);
      hide Rev, Pow2;
      RevNext(Rev(c, len), len - 1);
      RevLow(Rev(c, len), len - 1);
    }
  }

  /** A bit string x starts with the reversal of code exactly if its own reversal is code. */
  lemma StartsWith(x: nat, code: nat, len: nat)
    requires code < Pow2(len)
    ensures Low(x, len) == Rev(code, len) <==> Rev(x, len) == code
  {
    hide Rev, Low, Pow2;
    RevLow(x, len);
    RevRev(Low(x, len), len);
    RevRev(code, len);
  }

  /** The reversal of a len-bit code, cut at bit r: dropped low code bits come out on top. */
  lemma RevCut(c: nat, len: nat, r: nat)
    requires r <= len
    ensures Low(Rev(c, len), r) == Rev(Shr(c, len - r), r)
    ensures Shr(Rev(c, len), r) == Rev(c, len - r)
  {
    hide Rev, Low, Shr, Shl, Pow2;
    RevSplit(c, len - r, r);
    Join(Rev(c, len - r), Rev(Shr(c, len - r), r), r);
  }

  /** Appending zero bits to the code does not change its reversal. */
  lemma {:induction false} RevShl(c: nat, len: nat, k: nat)
    ensures Rev(Shl(c, k), len + k) == Rev(c, len)
  {
    if k != 0 {
      RevShl(c, len, k - 1);
      assert Shl(c, k) % 2 == 0 && Shl(c, k) / 2 == Shl(c, k - 1);
    }
  }

  /** bi_reverse. */
  method BiReverse(code0: nat, len0: nat) returns (r: nat)
    requires 1 <= len0
    ensures r == Rev(code0, len0)
  {
    hide Rev;
    // each round: res |= code & 1; code >>= 1; res <<= 1
    var res := code0 % 2;
    var code := code0 / 2;
    res := res * 2;
    var len := len0 - 1;
    RevOne(code0);
    assert Shr(code0, 1) == Shr(code0 / 2, 0) == code;
    while len > 0
      invariant 0 <= len < len0
      invariant code == Shr(code0, len0 - len) && res == 2 * Rev(code0, len0 - len)
      decreases len
    {
      RevNext(code0, len0 - len);
      LowNext(code0, len0 - len);
      res := res + code % 2;
      code := code / 2;
      res := res * 2;
      len := len - 1;
    }
    r := res / 2;
  }

  /** The backwards increment of inflate_table on a len-bit value: the highest zero bit is set and all
      bits above it are cleared. */
  function BackIncr(huff: nat, len: nat): nat
    requires huff < Pow2(len)
  {
    if len == 0 then 0
    else if huff < Pow2(len - 1) then huff + Pow2(len - 1)
    else BackIncr(huff - Pow2(len - 1), len - 1)
  }

  /** It increments the unreversed code, and wraps to zero after the last one. */
  lemma {:induction false} BackIncrRev(c: nat, len: nat)
    requires c < Pow2(len)
    ensures BackIncr(Rev(c, len), len) == Rev(c + 1, len)
    decreases len
  {
    if len != 0 {
      var half := c / 2;
      if c % 2 == 0 {
        assert (c + 1) / 2 == half && (c + 1) % 2 == 1;
      } else {
        assert (c + 1) / 2 == half + 1 && (c + 1) % 2 == 0;
        BackIncrRev(half, len - 1);
      }
    }
  }

  /** The increment as inflate_table performs it: the mask 1 << k moves down while its bit is set. */
  method BackwardsIncrement(huff0: nat, len: nat) returns (huff: nat)
    requires 1 <= len && huff0 < Pow2(len)
    ensures huff == BackIncr(huff0, len)
  {
    huff := huff0;
    var k := len;       // incr == 1 << (k - 1), or 0 when k == 0
    LowSmall(huff, len);
    while k != 0 && Shr(huff, k - 1) % 2 == 1
      invariant 0 <= k <= len && huff == huff0
      invariant BackIncr(Low(huff, k), k) == BackIncr(huff0, len)
      decreases k
    {
      LowNext(huff, k - 1);
      k := k - 1;
    }
    if k != 0 {
      LowNext(huff, k - 1);
      huff := Low(huff, k - 1);
      huff := huff + Pow2(k - 1);
    } else {
      huff := 0;
    }
  }
}
