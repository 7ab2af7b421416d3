/** The static codes: the second half of tr_static_init of trees.c. */
module StaticTrees {
  import opened Sums
  import opened Bits
  import opened BitReverse
  import opened Lz77
  import opened BitStreams
  import opened CanonicalCode
  import opened GenCodes
  import opened HuffmanCost
  import opened HuffmanTree
  import opened BitLengths
  import opened TokenCodes
  import opened CodeItems
  import opened BlockData
  import opened BlockCost
  import opened BlockTrees

  lemma Widths()
    ensures Width(5) == 1024 && Width(7) == 256 && Width(8) == 128 && Width(9) == 64 && Pow2(MAXBITS) == 32768 && Pow2(5) == 32
  {
    assert Pow2(6) == 64 && Pow2(7) == 128 && Pow2(8) == 256;
    assert Pow2(10) == 1024;
    assert Pow2(15) == 32768;
  }

  /** A stretch of equal lengths adds up. */
  lemma {:induction false} SpaceRange(lens: seq<nat>, a: nat, b: nat, len: nat, w: nat)
    requires a <= b <= |lens| && 1 <= len <= MAXBITS && w == Width(len) && forall i :: a <= i < b ==> lens[i] == len
    ensures Below(lens, true, MAXBITS + 1, 0, b) == Below(lens, true, MAXBITS + 1, 0, a) + (b - a) * w
    decreases b
  {
    if a < b {
      SpaceRange(lens, a, b - 1, len, w);
      assert (b - a) * w == (b - 1 - a) * w + w;
    }
  }

  lemma {:induction false} CountRange(lens: seq<nat>, a: nat, b: nat, len: nat, c: nat)
    requires a <= b <= |lens| && forall i :: a <= i < b ==> lens[i] == len
    ensures CountLen(lens, c, b) == CountLen(lens, c, a) + if c == len then b - a else 0
    decreases b
  {
    if a < b {
      CountRange(lens, a, b - 1, len, c);
    }
  }

  lemma StaticSpace(lens: seq<nat>)
    requires |lens| == 288 && forall i :: 0 <= i < 288 ==> lens[i] == StaticL(i)
    ensures ValidLengths(lens) && Space(lens) == Pow2(MAXBITS)
    ensures forall c: nat :: CountLen(lens, c, 288) == if c == 7 then 24 else if c == 8 then 152 else if c == 9 then 112 else 0
  {
    hide Below, CountLen, Pow2, Width;
    Widths();
    NothingBelow(lens);
    SpaceRange(lens, 0, 144, 8, 128);
    SpaceRange(lens, 144, 256, 9, 64);
    SpaceRange(lens, 256, 280, 7, 256);
    SpaceRange(lens, 280, 288, 8, 128);
    forall c: nat
      ensures CountLen(lens, c, 288) == if c == 7 then 24 else if c == 8 then 152 else if c == 9 then 112 else 0
    {
      NoCount(lens, c);
      CountRange(lens, 0, 144, 8, c);
      CountRange(lens, 144, 256, 9, c);
      CountRange(lens, 256, 280, 7, c);
      CountRange(lens, 280, 288, 8, c);
    }
  }

  lemma NothingBelow(lens: seq<nat>)
    ensures Below(lens, true, MAXBITS + 1, 0, 0) == 0
  {
  }

  lemma NoCount(lens: seq<nat>, c: nat)
    ensures CountLen(lens, c, 0) == 0
  {
  }

  /** Fills the lengths from..to and counts them. */
  method FillLens(len: array<nat>, blCount: array<nat>, from: nat, to: nat, bits: nat)
    requires from <= to <= len.Length && bits < blCount.Length && len != blCount
    modifies len, blCount
    ensures forall i :: 0 <= i < len.Length ==> len[i] == if from <= i < to then bits else old(len[i])
    ensures blCount[..] == old(blCount[..])[bits := old(blCount[bits]) + (to - from)]
  {
    var n := from;
    while n < to
      invariant from <= n <= to
      invariant forall i :: 0 <= i < len.Length ==> len[i] == if from <= i < n then bits else old(len[i])
      invariant blCount[..] == old(blCount[..])[bits := old(blCount[bits]) + (n - from)]
    {
      len[n] := bits;
      blCount[bits] := blCount[bits] + 1;
      n := n + 1;
    }
  }

  /** The static literal code. */
  method StaticLiterals() returns (c: Code)
    ensures CodeOk(c) && c.lens == StaticLSeq(288)
  {
    hide Space, CountLen, CodeBits, Pow2, CodeOk;
    var len, blCount, fc := new nat[288](_ => 0), new nat[MAXBITS + 1](_ => 0), new nat[288](_ => 0);
    FillLens(len, blCount, 0, 144, 8);
    FillLens(len, blCount, 144, 256, 9);
    FillLens(len, blCount, 256, 280, 7);
    FillLens(len, blCount, 280, 288, 8);
    assert len[..288] == StaticLSeq(288);
    StaticSpace(len[..288]);
    GenCodes.GenCodes(fc, len, 287, blCount);
    c := Code(fc[..], len[..288]);
    CodeOfAll(fc[..], len[..288]);
  }

  lemma CodeOfAll(fc: seq<nat>, lens: seq<nat>)
    requires ValidLengths(lens) && Space(lens) == Pow2(MAXBITS) && |fc| == |lens| && forall x :: 0 <= x < |lens| && lens[x] != 0 ==> fc[x] == CodeBits(lens, x)
    ensures CodeOk(Code(fc, lens))
  {
    hide Space, CodeBits, Pow2;
  }

  /** With all lengths five, the code of n is n. */
  lemma {:induction false} BelowFives(lens: seq<nat>, n: nat, k: nat)
    requires k <= |lens| && forall i :: 0 <= i < |lens| ==> lens[i] == 5
    ensures Below(lens, true, 5, n, k) == 1024 * (if n < k then n else k)
  {
    hide Pow2, Width;
    Widths();
    if k > 0 {
      BelowFives(lens, n, k - 1);
    }
  }

  lemma FiveBits(lens: seq<nat>, n: nat)
    requires |lens| == 32 && n < 32 && forall i :: 0 <= i < |lens| ==> lens[i] == 5
    ensures CodeBits(lens, n) == Rev(n, 5) && Space(lens) == Pow2(MAXBITS)
  {
    hide Below, Pow2, Width, Rev;
    Widths();
    BelowFives(lens, n, 32);
    NothingBelow(lens);
    SpaceRange(lens, 0, 32, 5, 1024);
    Shift10(n);
  }

  lemma Shift10(n: nat)
    ensures Shr(1024 * n, 10) == n
  {
    hide Shr;
    assert Shl(n, 1) == 2 * n && Shl(n, 2) == 4 * n && Shl(n, 3) == 8 * n && Shl(n, 4) == 16 * n && Shl(n, 5) == 32 * n;
    assert Shl(n, 6) == 64 * n && Shl(n, 7) == 128 * n && Shl(n, 8) == 256 * n && Shl(n, 9) == 512 * n && Shl(n, 10) == 1024 * n;
    Join(n, 0, 10);
  }

  /** The static distance code; the codes 30 and 31 are never used. */
  method StaticDistances() returns (c: Code)
    ensures CodeOk(c) && c.lens == Fives(32)
  {
    hide Space, CodeBits, Pow2, CodeOk, Rev;
    var codes := [];
    for n := 0 to 32
      invariant |codes| == n && forall i :: 0 <= i < n ==> codes[i] == Rev(i, 5)
    {
      var r := BiReverse(n, 5);
      codes := codes + [r];
    }
    ghost var lens := Fives(32);
    forall x | 0 <= x < 32
      ensures codes[x] == CodeBits(lens, x)
    {
      FiveBits(lens, x);
    }
    FiveBits(lens, 0);
    CodeOfAll(codes, lens);
    c := Code(codes, Fives(32));
  }

  /** Every token can be sent with the static codes, and static_len is exactly the number of bits. */
  lemma StaticCost(t: Tables, tokens: seq<Token>, lc: Code, dc: Code)
    requires TablesOk(t) && AllCodable(tokens) && CodeOk(lc) && lc.lens == StaticLSeq(288) && CodeOk(dc) && dc.lens == Fives(32)
    ensures TokensOk(t, lc, dc, tokens) && Coded(lc, END_BLOCK)
    ensures DataBits(t, lc, dc, tokens, 0).n ==
      StaticGain(LDesc(), LFreq(t, tokens, |tokens|), LeavesOf(LFreq(t, tokens, |tokens|), 286))
      + StaticGain(DDesc(), DFreq(t, tokens, |tokens|), LeavesOf(DFreq(t, tokens, |tokens|), D_CODES))
  {
    hide TablesOk, CodeOk, Cost, LFreq, DFreq, DataBits, WithExtra;
    AllCoded(lc, dc);
    forall i | 0 <= i < |tokens|
      ensures TokenOk(t, lc, dc, tokens[i])
      ensures LSym(t, tokens[i]) in LeavesOf(LFreq(t, tokens, |tokens|), 286)
      ensures tokens[i].Match? ==> DistCodeOf(t, tokens[i]) in LeavesOf(DFreq(t, tokens, |tokens|), D_CODES)
    {
      Occurs(t, tokens, |tokens|, i);
    }
    EndOccurs(t, tokens, |tokens|);
    StaticCosts(lc, dc);
    DataCost(t, lc, dc, tokens, WithExtra(StaticLens(LDesc(), 573), LDesc()), WithExtra(StaticLens(DDesc(), 61), DDesc()),
             LeavesOf(LFreq(t, tokens, |tokens|), 286), LeavesOf(DFreq(t, tokens, |tokens|), D_CODES));
  }

  lemma AllCoded(lc: Code, dc: Code)
    requires CodeOk(lc) && lc.lens == StaticLSeq(288) && CodeOk(dc) && dc.lens == Fives(32)
    ensures (forall s :: 0 <= s < 288 ==> Coded(lc, s)) && (forall c :: 0 <= c < 32 ==> Coded(dc, c))
  {
    hide Space;
  }

  lemma StaticCosts(lc: Code, dc: Code)
    requires lc.lens == StaticLSeq(288) && dc.lens == Fives(32)
    ensures Costs(WithExtra(StaticLens(LDesc(), 573), LDesc()), WithExtra(StaticLens(DDesc(), 61), DDesc()), lc, dc)
  {
  }
}
