/** Sectors, blocks and positions: the geometry shared by the reader and the writer. */
module Blocks {
  import opened Sums
  import opened Bits

  type byte = x: int | 0 <= x < 256

  const SECTOR_SIZE: nat := 2048

  datatype Option<T> = None | Some(value: T)

  function Zeros(n: nat): (r: seq<byte>)
    ensures |r| == n && forall i :: 0 <= i < n ==> r[i] == 0
  {
    seq(n, _ => 0)
  }

  /** Writing bytes at an offset of a file, as pwrite does: a gap is filled with zeros. */
  function Overwrite(file: seq<byte>, at: nat, bytes: seq<byte>): (r: seq<byte>)
    ensures |r| == if at + |bytes| > |file| then at + |bytes| else |file|
  {
    var f := if |file| < at then file + Zeros(at - |file|) else file;
    f[..at] + bytes + (if |f| > at + |bytes| then f[at + |bytes|..] else [])
  }

  /** Output::Align: the least multiple of 1 << shift that is at least pos. */
  function AlignUp(pos: nat, shift: nat): (r: nat)
    ensures pos <= r < pos + Pow2(shift)
  {
    var off := Low(pos, shift);
    if off != 0 then pos + (Pow2(shift) - off) else pos
  }

  lemma AlignUpLeast(pos: nat, shift: nat)
    ensures Low(AlignUp(pos, shift), shift) == 0
    ensures forall r :: pos <= r && Low(r, shift) == 0 ==> AlignUp(pos, shift) <= r
  {
    var q := Shr(pos, shift);
    Split(pos, shift);
    ShlAdd(q, 1, shift);
    ShlPow2(0, shift);
    Join(q, 0, shift);
    Join(q + 1, 0, shift);
    forall r | pos <= r && Low(r, shift) == 0
      ensures AlignUp(pos, shift) <= r
    {
      Split(r, shift);
      ShlMono(q, Shr(r, shift), shift);
      ShlMono(q + 1, Shr(r, shift), shift);
    }
  }

  /** The number of blocks of 1 << k bytes in size bytes. */
  function BlockCount(size: nat, k: nat): nat {
    Shr(size + (Pow2(k) - 1), k)
  }

  lemma BlockCountBounds(size: nat, k: nat)
    ensures size <= Shl(BlockCount(size, k), k) < size + Pow2(k)
    ensures forall b: nat :: b < BlockCount(size, k) <==> Shl(b, k) < size
  {
    var n := BlockCount(size, k);
    Split(size + (Pow2(k) - 1), k);
    forall b: nat
      ensures b < n <==> Shl(b, k) < size
    {
      ShlMono(b + 1, n, k);
      ShlMono(n, b, k);
      ShlAdd(b, 1, k);
      ShlPow2(0, k);
    }
  }

  lemma SliceSlice<T>(s: seq<T>, a: nat, b: nat, i: nat, j: nat)
    requires a <= b <= |s| && i <= j <= b - a
    ensures s[a..b][i..j] == s[a + i..a + j]
  {
    forall x | 0 <= x < j - i
      ensures s[a..b][i..j][x] == s[a + i..a + j][x]
    {
      assert s[a..b][i + x] == s[a + (i + x)];
    }
  }

  /** Block b + 1 begins where block b ends. */
  lemma NextBlock(b: nat, k: nat)
    ensures Shl(b + 1, k) == Shl(b, k) + Pow2(k) && Shl(0, k) == 0
  {
    ShlAdd(b, 1, k);
    ShlPow2(0, k);
  }

  /** The image, filled up to whole blocks with zeros. */
  function Padded(image: seq<byte>, k: nat): (r: seq<byte>)
    ensures |r| == Shl(BlockCount(|image|, k), k) >= |image| && r[..|image|] == image
  {
    BlockCountBounds(|image|, k);
    image + Zeros(Shl(BlockCount(|image|, k), k) - |image|)
  }

  function BlockOf(image: seq<byte>, k: nat, b: nat): (r: seq<byte>)
    requires b < BlockCount(|image|, k)
    ensures |r| == Pow2(k)
  {
    NextBlock(b, k);
    ShlMono(b + 1, BlockCount(|image|, k), k);
    Padded(image, k)[Shl(b, k)..Shl(b + 1, k)]
  }

  /** A block is a whole number of sectors. */
  lemma {:induction false} WholeSectors(k: nat)
    requires k >= 11
    ensures Pow2(k) == 2048 * Pow2(k - 11)
  {
    if k == 11 {
      assert Pow2(11) == 2048;
    } else {
      WholeSectors(k - 1);
    }
  }

  lemma {:induction false} WholeBlocks(b: nat, k: nat)
    requires k >= 11
    ensures Shl(b, k) == 2048 * Shl(b, k - 11)
  {
    if k == 11 {
      assert Shl(b, 1) == 2 * b && Shl(b, 2) == 4 * b && Shl(b, 3) == 8 * b && Shl(b, 4) == 16 * b;
      assert Shl(b, 5) == 32 * b && Shl(b, 6) == 64 * b && Shl(b, 7) == 128 * b && Shl(b, 8) == 256 * b;
      assert Shl(b, 9) == 512 * b && Shl(b, 10) == 1024 * b && Shl(b, 11) == 2048 * b;
    } else {
      WholeBlocks(b, k - 1);
    }
  }

  /** The first key of an ordered map. */
  method FirstKey<T>(m: map<nat, T>) returns (pos: nat)
    requires m != map[]
    ensures pos in m && forall q :: q in m ==> pos <= q
  {
    var rest := m.Keys;
    pos :| pos in rest;
    while rest != {}
      invariant rest <= m.Keys && pos in m && forall q :: q in m && q !in rest ==> pos <= q
      decreases rest
    {
      var q :| q in rest;
      rest := rest - {q};
      if q < pos {
        pos := q;
      }
    }
  }
}
