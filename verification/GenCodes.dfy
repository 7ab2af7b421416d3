/** gen_codes of trees.c: the encoder's side of the canonical code. */
module GenCodes {
  import opened Sums
  import opened Bits
  import opened BitReverse
  import opened CanonicalCode

  /** nextCode[b] is the code value of the next symbol of length b, when the symbols below n are done. */
  ghost predicate NextCodes(nextCode: seq<nat>, lens: seq<nat>, n: nat) {
    && |nextCode| == MAXBITS + 1
    && forall b :: 1 <= b <= MAXBITS ==> Shl(nextCode[b], MAXBITS - b) == Boundary(lens, b, n)
  }

  lemma NextCodesStep(nextCode: seq<nat>, lens: seq<nat>, n: nat)
    requires NextCodes(nextCode, lens, n) && n < |lens| && lens[n] <= MAXBITS
    ensures lens[n] == 0 ==> NextCodes(nextCode, lens, n + 1)
    ensures lens[n] >= 1 ==> nextCode[lens[n]] == CodeValue(lens, n)
    ensures lens[n] >= 1 ==> NextCodes(nextCode[lens[n] := nextCode[lens[n]] + 1], lens, n + 1)
  {
    hide Below, Shl, Shr, Low;
    var l := lens[n];
    forall b | 1 <= b <= MAXBITS
      ensures Boundary(lens, b, n + 1) == Boundary(lens, b, n) + if l == b then Width(b) else 0
    {
      BelowStep(lens, true, b, n, |lens|);
    }
    if l >= 1 {
      ShlAdd(nextCode[l], 1, MAXBITS - l);
      ShlPow2(0, MAXBITS - l);
      assert Pow2(0) == 1;
      Join(nextCode[l], 0, MAXBITS - l);
    }
  }

  /** The values stay within sixteen bits. */
  lemma NextCodeFits(code: nat, lens: seq<nat>, n: nat, b: nat)
    requires 1 <= b <= MAXBITS && Shl(code, MAXBITS - b) == Boundary(lens, b, n) && Space(lens) <= Pow2(MAXBITS)
    ensures code <= Pow2(b) <= 0x8000
  {
    hide Below, Shl;
    BelowMono(lens, true, b, n, MAXBITS + 1, 0, |lens|);
    ShlPow2(b, MAXBITS - b);
    ShlMono(code, Pow2(b), MAXBITS - b);
    Pow2Mono(b, MAXBITS);
    assert Pow2(5) == 32;
    assert Pow2(10) == 1024;
    assert Pow2(15) == 0x8000;
  }

  /** The distribution counts give the first code value of each length. */
  method FirstCodes(blCount: array<nat>, ghost lens: seq<nat>) returns (nextCode: array<nat>)
    requires blCount.Length == MAXBITS + 1 && blCount[0] == 0 && Space(lens) <= Pow2(MAXBITS)
    requires forall b :: 1 <= b <= MAXBITS ==> blCount[b] == CountLen(lens, b, |lens|)
    ensures fresh(nextCode) && NextCodes(nextCode[..], lens, 0)
  {
    hide Below, Shl, CountLen, Boundary, Space, Pow2;
    nextCode := new nat[MAXBITS + 1](_ => 0);
    var code := 0;
    var bits := 1;
    FirstBoundary(lens);
    while bits <= MAXBITS
      invariant 1 <= bits <= MAXBITS + 1
      invariant bits > 1 ==> Shl(code, MAXBITS - (bits - 1)) == Boundary(lens, bits - 1, 0)
      invariant bits == 1 ==> code == 0
      invariant forall b :: 1 <= b < bits ==> Shl(nextCode[b], MAXBITS - b) == Boundary(lens, b, 0)
    {
      NextFirst(lens, code, blCount[bits - 1], bits);
      code := (code + blCount[bits - 1]) * 2;
      NextCodeFits(code, lens, 0, bits);
      nextCode[bits] := code % 0x1_0000;
      bits := bits + 1;
    }
  }

  lemma FirstBoundary(lens: seq<nat>)
    ensures Boundary(lens, 1, 0) == 0 == Shl(0, MAXBITS - 1)
  {
    BelowNone(lens, true, |lens|);
    ShlAdd(0, 0, MAXBITS - 1);
  }

  lemma NextFirst(lens: seq<nat>, code: nat, count: nat, bits: nat)
    requires 1 <= bits <= MAXBITS
    requires bits == 1 ==> code == 0 && count == 0
    requires bits > 1 ==> Shl(code, MAXBITS - (bits - 1)) == Boundary(lens, bits - 1, 0) && count == CountLen(lens, bits - 1, |lens|)
    ensures Shl((code + count) * 2, MAXBITS - bits) == Boundary(lens, bits, 0)
  {
    hide Below, CountLen, Boundary;
    if bits == 1 {
      FirstBoundary(lens);
    } else {
      BoundaryNextLen(lens, bits - 1);
      ShlAdd(code, count, MAXBITS - (bits - 1));
      ShlShl(code + count, 1, MAXBITS - bits);
      assert Shl(code + count, 1) == 2 * Shl(code + count, 0);
    }
  }

  /** Assigns to every symbol of non-zero length the canonical code, bit-reversed for the stream. Code shares
      its storage with Freq. */
  method GenCodes(fc: array<nat>, len: array<nat>, maxCode: int, blCount: array<nat>)
    requires fc != len && fc != blCount && 0 <= maxCode < fc.Length && maxCode < len.Length
    requires blCount.Length == MAXBITS + 1 && blCount[0] == 0
    requires ValidLengths(len[..maxCode + 1]) && Space(len[..maxCode + 1]) <= Pow2(MAXBITS)
    requires forall b :: 1 <= b <= MAXBITS ==> blCount[b] == CountLen(len[..maxCode + 1], b, maxCode + 1)
    modifies fc
    ensures forall x :: 0 <= x <= maxCode && len[x] != 0 ==> fc[x] == CodeBits(len[..maxCode + 1], x) < Pow2(len[x])
    ensures forall x :: 0 <= x < fc.Length && (x > maxCode || len[x] == 0) ==> fc[x] == old(fc[x])
  {
    hide Below, CountLen, Boundary, NextCodes, CodeValue, Space, Rev, Pow2;
    ghost var lens: seq<nat> := len[..maxCode + 1];
    var nextCode := FirstCodes(blCount, lens);
    for n := 0 to maxCode + 1
      invariant len[..maxCode + 1] == lens
      invariant NextCodes(nextCode[..], lens, n)
      invariant forall x :: 0 <= x < n && lens[x] != 0 ==> fc[x] == CodeBits(lens, x) < Pow2(lens[x])
      invariant forall x :: 0 <= x < fc.Length && (x >= n || lens[x] == 0) ==> fc[x] == old(fc[x])
    {
      var l := len[n];
      assert l == lens[n];
      NextSize(nextCode[..], lens, n);
      NextCodesStep(nextCode[..], lens, n);
      if l == 0 {
        continue;
      }
      CodesFit(nextCode[..], lens, n);
      var r := BiReverse(nextCode[l], l);
      ghost var g: seq<nat> := nextCode[..][l := nextCode[l] + 1];
      nextCode[l] := (nextCode[l] + 1) % 0x1_0000;
      assert nextCode[..] == g;
      fc[n] := r % 0x1_0000;
    }
  }

  /** Neither the next code value nor the reversed code is cut. */
  lemma CodesFit(nextCode: seq<nat>, lens: seq<nat>, n: nat)
    requires NextCodes(nextCode, lens, n) && n < |lens| && 1 <= lens[n] <= MAXBITS && Space(lens) <= Pow2(MAXBITS)
    ensures |nextCode| == MAXBITS + 1 && nextCode[lens[n]] + 1 < 0x1_0000 && Pow2(lens[n]) <= 0x8000
  {
    hide Boundary, Shl, Space;
    NextCodeFits(nextCode[lens[n]], lens, n, lens[n]);
  }

  lemma NextSize(nextCode: seq<nat>, lens: seq<nat>, n: nat)
    requires NextCodes(nextCode, lens, n)
    ensures |nextCode| == MAXBITS + 1
  {
  }
}
