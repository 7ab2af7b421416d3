/** The parts of a block that do not depend on its codes: the last-block flag, and the head and the bytes of a
    stored block. */
module BlockKinds {
  import opened Sums
  import opened Bits
  import opened Blocks
  import opened BitStreams
  import opened BitWriter
  import Lz77

  function LastBit(last: bool): nat {
    if last then 1 else 0
  }

  /** LEN and NLEN of a stored block. */
  function StoredHead(n: nat): (r: seq<byte>)
    requires n <= 0xFFFF
    ensures |r| == 4
  {
    [n % 256, n / 256, (0xFFFF - n) % 256, (0xFFFF - n) / 256]
  }

  /** LEN and NLEN as one number of 32 bits. */
  function LenAndNlen(n: nat): nat
    requires n <= 0xFFFF
  {
    n + 0x1_0000 * (0xFFFF - n)
  }

  /** The bytes of the input as numbers. */
  function Ints(s: seq<Lz77.byte>): (r: seq<Blocks.byte>)
    ensures |r| == |s| && forall i :: 0 <= i < |s| ==> r[i] == s[i] as int
  {
    seq(|s|, i requires 0 <= i < |s| => s[i] as Blocks.byte)
  }

  /** The head as bytes and as bits. */
  lemma HeadBits(n: nat)
    requires n <= 0xFFFF
    ensures OfBytes(StoredHead(n)) == BitString(LenAndNlen(n), 32) && LenAndNlen(n) < Pow2(32)
  {
    var m := 0xFFFF - n;
    assert StoredHead(n) == [n % 256, n / 256] + [m % 256, m / 256];
    OfBytesJoin([n % 256, n / 256], [m % 256, m / 256]);
    TwoBytes(n % 256, n / 256);
    TwoBytes(m % 256, m / 256);
    Shift16(m);
    Two32();
  }

  lemma Shift16(m: nat)
    ensures Shl(m, 16) == 0x1_0000 * m
  {
    assert Shl(m, 1) == 2 * m && Shl(m, 2) == 4 * m && Shl(m, 3) == 8 * m && Shl(m, 4) == 16 * m;
    assert Shl(m, 5) == 32 * m && Shl(m, 6) == 64 * m && Shl(m, 7) == 128 * m && Shl(m, 8) == 256 * m;
    assert Shl(m, 9) == 512 * m && Shl(m, 10) == 1024 * m && Shl(m, 11) == 2048 * m && Shl(m, 12) == 4096 * m;
    assert Shl(m, 13) == 8192 * m && Shl(m, 14) == 16384 * m && Shl(m, 15) == 32768 * m;
  }

  lemma Two32()
    ensures Pow2(32) == 0x1_0000_0000
  {
    assert Pow2(10) == 1024;
    assert Pow2(20) == 1048576;
    assert Pow2(30) == 1073741824;
  }

  /** Numbers as the bytes of the output. */
  function FromInts(s: seq<Blocks.byte>): (r: seq<Lz77.byte>)
    ensures |r| == |s| && forall i :: 0 <= i < |s| ==> r[i] == s[i] as bv8
  {
    seq(|s|, i requires 0 <= i < |s| => s[i] as bv8)
  }

  lemma IntsBack(s: seq<Lz77.byte>)
    ensures FromInts(Ints(s)) == s
  {
    forall i | 0 <= i < |s| ensures FromInts(Ints(s))[i] == s[i] {
      InBv8(s[i]);
    }
  }

  lemma InBv8(b: Lz77.byte)
    ensures ((b as int) as bv8) == b
  {
  }
}
