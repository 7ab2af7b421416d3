/** crc32_combine_: the CRC of a concatenation by repeated squaring of matrices over GF(2). */
module Crc32Combine {
  import opened Sums
  import opened Bits
  import opened Xors
  import opened Blocks
  import opened Crc32
  import opened Crc32Tables
  import opened Crc32ByFour

  /** Row i is what n steps make of bit i: the matrix is the operator for n zero bits. */
  ghost predicate Operator(mat: seq<nat>, n: nat) {
    |mat| == 32 && forall i :: 0 <= i < 32 ==> mat[i] == Steps(Shl(1, i), n)
  }

  /** gf2_matrix_times applies the operator. */
  method MatrixTimes(mat: array<nat>, vec0: nat, ghost n: nat) returns (sum: nat)
    requires Operator(mat[..], n) && vec0 < WORD32
    ensures sum == Steps(vec0, n)
  {
    hide Xor, Steps, Shl, Shr, Pow2;
    sum := 0;
    var vec: nat := vec0;
    var i: nat := 0;
    TimesStart(vec0, n);
    while vec != 0
      invariant i <= 32 && vec < Pow2(32 - i)
      invariant Steps(vec0, n) == Xor(sum, Steps(Shl(vec, i), n))
      decreases vec
    {
      TimesStep(sum, vec, i, n);
      if vec % 2 == 1 {
        sum := Xor(sum, mat[i]);
      }
      vec := vec / 2;
      i := i + 1;
    }
    TimesEnd(sum, i, n);
  }

  lemma TimesStart(vec: nat, n: nat)
    requires vec < WORD32
    ensures vec < Pow2(32) && Steps(vec, n) == Xor(0, Steps(Shl(vec, 0), n))
  {
    hide Xor, Steps;
    Words();
    XorZero(Steps(vec, n));
  }

  lemma TimesEnd(sum: nat, i: nat, n: nat)
    ensures Xor(sum, Steps(Shl(0, i), n)) == sum
  {
    hide Xor, Steps;
    ShlAdd(0, 0, i);
    StepsZero(n);
    XorZero(sum);
  }

  /** The lowest bit contributes its row. */
  lemma TimesStep(sum: nat, vec: nat, i: nat, n: nat)
    requires i <= 32 && vec != 0 && vec < Pow2(32 - i)
    ensures i < 32 && vec / 2 < Pow2(32 - (i + 1))
    ensures Xor(sum, Steps(Shl(vec, i), n)) == Xor(if vec % 2 == 1 then Xor(sum, Steps(Shl(1, i), n)) else sum, Steps(Shl(vec / 2, i + 1), n))
  {
    hide Xor, Steps;
    var low, high := vec % 2, vec / 2;
    HighBits(vec, i);
    if low == 1 {
      XorShl(1, 2 * high, i);
      StepsXor(Shl(1, i), Shl(2 * high, i), n);
      XorAssoc(sum, Steps(Shl(1, i), n), Steps(Shl(2 * high, i), n));
    }
  }

  lemma HighBits(vec: nat, i: nat)
    ensures Shl(2 * (vec / 2), i) == Shl(vec / 2, i + 1)
    ensures vec % 2 == 1 ==> Xor(1, 2 * (vec / 2)) == vec
  {
    var high := vec / 2;
    hide Xor;
    ShlShl(high, 1, i);
    assert Shl(high, 1) == 2 * high && Pow2(1) == 2;
    XorJoin(high, 1, 1);
    XorComm(1, 2 * high);
  }

  /** gf2_matrix_square: the operator for twice as many zeros. */
  method MatrixSquare(square: array<nat>, mat: array<nat>, ghost n: nat)
    requires square.Length == 32 && square != mat && Operator(mat[..], n)
    modifies square
    ensures Operator(square[..], 2 * n)
  {
    hide Steps, Shl;
    for i := 0 to 32
      invariant Operator(mat[..], n)
      invariant forall j :: 0 <= j < i ==> square[j] == Steps(Shl(1, j), 2 * n)
    {
      RowBound(i, n);
      StepsAdd(Shl(1, i), n, n);
      var row := MatrixTimes(mat, mat[i], n);
      square[i] := row;
    }
  }

  lemma RowBound(i: nat, n: nat)
    requires i < 32
    ensures Steps(Shl(1, i), n) < WORD32
  {
    hide Steps, Pow2, Shl;
    Words();
    BitBound(i);
    StepsBound(Shl(1, i), n);
  }

  lemma BitBound(i: nat)
    requires i < 32
    ensures Shl(1, i) < Pow2(32)
  {
    ShlPow2(0, i);
    Pow2Mono(i, 31);
  }

  /** The operator for one zero bit. */
  method OneZero(odd: array<nat>)
    requires odd.Length == 32
    modifies odd
    ensures Operator(odd[..], 1)
  {
    hide Steps, Shl;
    odd[0] := POLY;
    var row := 1;
    OneStep(0);
    for n := 1 to 32
      invariant row == Shl(1, n - 1)
      invariant forall j :: 0 <= j < n ==> odd[j] == Steps(Shl(1, j), 1)
    {
      OneStep(n);
      odd[n] := row;
      row := 2 * row;
    }
  }

  lemma OneStep(n: nat)
    ensures Steps(Shl(1, 0), 1) == POLY && Shl(1, 0) == 1
    ensures n > 0 ==> Steps(Shl(1, n), 1) == Shl(1, n - 1) && Shl(1, n) == 2 * Shl(1, n - 1)
  {
    XorZero(POLY);
    hide Xor;
    assert Steps(1, 1) == Step(1);
    if n > 0 {
      var q := Shl(1, n - 1);
      assert Step(2 * q) == q;
      assert Steps(2 * q, 1) == Step(2 * q);
    }
  }

  /** crc32_combine_: len2 zero bytes are applied to crc1, one power of two after the other. */
  method Combine(crc1: nat, crc2: nat, len2: int) returns (r: nat)
    requires crc1 < WORD32
    ensures r == if len2 <= 0 then crc1 else Xor(Steps(crc1, 8 * len2), crc2)
  {
    hide Xor, Steps, Shl, Operator;
    if len2 <= 0 {
      return crc1;
    }
    var even, odd := new nat[32], new nat[32];
    OneZero(odd);
    MatrixSquare(even, odd, 1);
    MatrixSquare(odd, even, 2);
    var crc, len := crc1, len2 as nat;
    ghost var j: nat, done: nat := 0, 0;
    CombineStart(crc1, len2);
    while true
      invariant len > 0 && crc < WORD32 && crc == Steps(crc1, 8 * done) && len2 == done + Shl(len, j)
      invariant Operator(odd[..], 4 * Shl(1, j)) && even.Length == 32
      decreases len
    {
      MatrixSquare(even, odd, 4 * Shl(1, j));
      crc := ApplyBit(even, crc, len, crc1, done, j, len2);
      done := if len % 2 == 1 then done + Shl(1, j) else done;
      len := len / 2;
      j := j + 1;
      if len == 0 {
        break;
      }
      MatrixSquare(odd, even, 4 * Shl(1, j));
      crc := ApplyBit(odd, crc, len, crc1, done, j, len2);
      done := if len % 2 == 1 then done + Shl(1, j) else done;
      len := len / 2;
      j := j + 1;
      if len == 0 {
        break;
      }
    }
    r := Xor(crc, crc2);
  }

  lemma CombineStart(crc: nat, len: nat)
    ensures Steps(crc, 0) == crc && Shl(len, 0) == len && Shl(1, 0) == 1
  {
  }

  /** One bit of the length: mat is the operator for 2^j zero bytes. */
  method ApplyBit(mat: array<nat>, crc: nat, len: nat, ghost crc1: nat, ghost done: nat, ghost j: nat, ghost total: nat) returns (r: nat)
    requires Operator(mat[..], 2 * (4 * Shl(1, j))) && crc < WORD32 && crc == Steps(crc1, 8 * done) && total == done + Shl(len, j)
    ensures var done' := if len % 2 == 1 then done + Shl(1, j) else done;
      && r < WORD32 && r == Steps(crc1, 8 * done') && total == done' + Shl(len / 2, j + 1)
    ensures Shl(1, j + 1) == 2 * Shl(1, j) && (len / 2 == 0 ==> Shl(len / 2, j + 1) == 0)
  {
    hide Steps, Pow2, Operator;
    NextPower(len, j);
    r := crc;
    if len % 2 == 1 {
      r := MatrixTimes(mat, crc, 8 * Shl(1, j));
      StepsAdd(crc1, 8 * done, 8 * Shl(1, j));
      Words();
      StepsBound(crc, 8 * Shl(1, j));
    }
  }

  lemma NextPower(len: nat, j: nat)
    ensures Shl(1, j + 1) == 2 * Shl(1, j) && Shl(0, j + 1) == 0
    ensures Shl(len, j) == Shl(len / 2, j + 1) + (if len % 2 == 1 then Shl(1, j) else 0)
  {
    ShlAdd(2 * (len / 2), len % 2, j);
    ShlAdd(0, 0, j + 1);
    ShlAdd(0, 0, j);
    ShlShl(len / 2, 1, j);
    assert Shl(len / 2, 1) == 2 * (len / 2);
  }

  /** Combining the CRCs of two strings gives the CRC of their concatenation. */
  method CombineCrcs(a: seq<byte>, b: seq<byte>) returns (r: nat)
    ensures r == Crc(0, a + b)
  {
    hide Crc, Xor, Steps;
    CrcBound(a);
    CrcJoin(a, b);
    r := Combine(Crc(0, a), Crc(0, b), |b|);
    if b == [] {
      assert a + b == a;
    }
  }

  lemma CrcBound(s: seq<byte>)
    ensures Crc(0, s) < WORD32
  {
    hide Xor, Register, Pow2;
    Words();
    XorZero(ONES);
    RegisterBound(ONES, s);
    XorBound(Register(ONES, s), ONES, 32);
  }
}
