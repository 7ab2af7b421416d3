/** Strings of bits, the first bit lowest: the packing of section 3.1.1 of RFC 1951. */
module BitStreams {
  import opened Sums
  import opened Bits
  import opened Blocks

  /** n bits with the value v. */
  datatype BitString = BitString(v: nat, n: nat)

  ghost predicate Proper(s: BitString) {
    s.v < Pow2(s.n)
  }

  const Empty: BitString := BitString(0, 0)

  function Cat(a: BitString, b: BitString): BitString {
    BitString(a.v + Shl(b.v, a.n), a.n + b.n)
  }

  function DropFirst(s: BitString, n: nat): BitString
    requires n <= s.n
  {
    BitString(Shr(s.v, n), s.n - n)
  }

  lemma CatAssoc(a: BitString, b: BitString, c: BitString)
    ensures Cat(Cat(a, b), c) == Cat(a, Cat(b, c))
  {
    ShlAdd(b.v, Shl(c.v, b.n), a.n);
    ShlShl(c.v, b.n, a.n);
  }

  lemma CatEmpty(a: BitString)
    ensures Cat(a, Empty) == a && Cat(Empty, a) == a
  {
    ShlAdd(0, 0, a.n);
  }

  lemma CatProper(a: BitString, b: BitString)
    requires Proper(a) && Proper(b)
    ensures Proper(Cat(a, b))
  {
    var top := Pow2(b.n) - 1;
    ShlMono(b.v, top, a.n);
    ShlAdd(top, 1, a.n);
    ShlPow2(b.n, a.n);
    ShlPow2(0, a.n);
    assert Pow2(0) == 1;
  }

  /** The parts can be taken apart again. */
  lemma CatParts(a: BitString, b: BitString)
    requires Proper(a)
    ensures Low(Cat(a, b).v, a.n) == a.v && DropFirst(Cat(a, b), a.n) == b
  {
    Join(b.v, a.v, a.n);
  }

  /** A prefix of the first part is a prefix of the whole. */
  lemma CatPrefix(a: BitString, b: BitString, k: nat)
    requires Proper(a) && k <= a.n
    ensures Low(Cat(a, b).v, k) == Low(a.v, k)
  {
    hide Low, Shl;
    CatParts(a, b);
    LowLow(Cat(a, b).v, a.n, k);
  }

  /** Dropping bits of the first part. */
  lemma DropCat(a: BitString, b: BitString, k: nat)
    requires k <= a.n
    ensures DropFirst(Cat(a, b), k) == Cat(DropFirst(a, k), b)
  {
    hide Low, Shl, Shr;
    Split(a.v, k);
    var q := Shr(a.v, k);
    ShlShl(b.v, a.n - k, k);
    ShlAdd(q, Shl(b.v, a.n - k), k);
    Join(q + Shl(b.v, a.n - k), Low(a.v, k), k);
  }

  lemma DropTwice(a: BitString, m: nat, n: nat)
    requires m + n <= a.n
    ensures DropFirst(DropFirst(a, m), n) == DropFirst(a, m + n)
  {
    ShrShr(a.v, m, n);
  }

  lemma DropProper(a: BitString, k: nat)
    requires Proper(a) && k <= a.n
    ensures Proper(DropFirst(a, k))
  {
    hide Low, Shl, Shr;
    Split(a.v, k);
    ShlPow2(a.n - k, k);
    ShlMono(Pow2(a.n - k), Shr(a.v, k), k);
  }

  /** The bits of a byte string. */
  function OfBytes(s: seq<byte>): BitString {
    if s == [] then Empty else Cat(BitString(s[0], 8), OfBytes(s[1..]))
  }

  lemma {:induction false} OfBytesSize(s: seq<byte>)
    ensures OfBytes(s).n == 8 * |s| && Proper(OfBytes(s))
  {
    hide Cat;
    if s != [] {
      OfBytesSize(s[1..]);
      CatSize(BitString(s[0], 8), OfBytes(s[1..]));
      assert Pow2(8) == 256;
      CatProper(BitString(s[0], 8), OfBytes(s[1..]));
    } else {
      assert Pow2(0) == 1;
    }
  }

  lemma CatSize(a: BitString, b: BitString)
    ensures Cat(a, b).n == a.n + b.n
  {
  }

  lemma {:induction false} OfBytesJoin(a: seq<byte>, b: seq<byte>)
    ensures OfBytes(a + b) == Cat(OfBytes(a), OfBytes(b))
  {
    hide Cat;
    if a == [] {
      assert a + b == b;
      CatEmpty(OfBytes(b));
    } else {
      assert (a + b)[1..] == a[1..] + b;
      OfBytesJoin(a[1..], b);
      CatAssoc(BitString(a[0], 8), OfBytes(a[1..]), OfBytes(b));
    }
  }

  lemma OfByte(b: byte)
    ensures OfBytes([b]) == BitString(b, 8)
  {
    assert [b][1..] == [];
    CatEmpty(BitString(b, 8));
  }

  /** The first n bits, and the others. */
  lemma FirstBits(all: BitString, n: nat)
    requires n <= all.n
    ensures Low(all.v, n) < Pow2(n) && all == Cat(BitString(Low(all.v, n), n), DropFirst(all, n))
  {
    hide Low, Shl, Shr;
    Split(all.v, n);
  }
}
