/** The bit accumulator of inflate.c: NEEDBITS, BITS, DROPBITS, PULLBYTE and BYTEBITS. */
module BitReader {
  import opened Sums
  import opened Bits
  import opened Blocks
  import opened BitStreams
  import opened BitWriter

  class Reader {
    const input: seq<byte>
    var next: nat
    var hold: nat
    var bits: nat

    constructor (input: seq<byte>)
      ensures Valid() && Rest() == OfBytes(input) && Consumed() == 0 && bits == 0 && this.input == input
    {
      hide Cat, OfBytes, DropFirst, Pow2;
      this.input := input;
      next, hold, bits := 0, 0, 0;
      new;
      assert input[0..] == input;
      CatEmpty(OfBytes(input));
      OfBytesSize(input);
      OneBit();
      NoneDropped(OfBytes(input));
    }

    /** hold has no bits above the valid ones, and they are the bits of the input that come next. */
    ghost predicate Valid()
      reads this
    {
      && next <= |input| && hold < Pow2(bits) && bits <= 8 * next && OfBytes(input).n == 8 * |input|
      && Rest() == DropFirst(OfBytes(input), Consumed())
    }

    /** All bits not yet consumed. */
    ghost function Rest(): BitString
      reads this
      requires next <= |input|
    {
      Cat(BitString(hold, bits), OfBytes(input[next..]))
    }

    /** How many bits have been consumed. */
    ghost function Consumed(): int
      reads this
    {
      8 * next - bits
    }

    /** PULLBYTE; false at the end of the input. */
    method PullByte() returns (ok: bool)
      requires Valid()
      modifies this`next, this`hold, this`bits
      ensures Valid() && Rest() == old(Rest()) && Consumed() == old(Consumed())
      ensures ok == (old(next) < |input|) && bits == old(bits) + (if ok then 8 else 0)
      ensures Low(hold, old(bits)) == old(hold)
    {
      hide Cat, Shl, Low, OfBytes, DropFirst;
      LowSmall(hold, bits);
      if next >= |input| {
        return false;
      }
      Pulled(hold, bits, input, next);
      hold := hold + Shl(input[next], bits);
      next := next + 1;
      bits := bits + 8;
      return true;
    }

    /** NEEDBITS; false if the input ends before there are n bits. */
    method NeedBits(n: nat) returns (ok: bool)
      requires Valid()
      modifies this`next, this`hold, this`bits
      ensures Valid() && Rest() == old(Rest()) && Consumed() == old(Consumed())
      ensures ok == (bits >= n) && (n <= Rest().n ==> ok) && (bits < n + 8 || bits == old(bits)) && (old(bits) >= n ==> bits == old(bits))
    {
      ok := true;
      hide Cat, OfBytes, Pow2, Low, DropFirst;
      while bits < n && ok
        invariant Valid() && Rest() == old(Rest()) && Consumed() == old(Consumed())
        invariant (!ok ==> bits < n && next == |input|) && (bits < n + 8 || bits == old(bits)) && (old(bits) >= n ==> bits == old(bits))
        decreases |input| - next, ok
      {
        ok := PullByte();
      }
      AllIn();
    }

    lemma AllIn()
      requires Valid()
      ensures next == |input| ==> Rest().n == bits
      ensures Rest().n == bits + 8 * (|input| - next)
    {
      hide Cat, OfBytes;
      OfBytesSize(input[next..]);
      CatSize(BitString(hold, bits), OfBytes(input[next..]));
    }

    /** BITS */
    method PeekBits(n: nat) returns (v: nat)
      requires Valid() && n <= bits
      ensures v == Low(hold, n) == Low(Rest().v, n)
    {
      hide Cat, OfBytes, Low;
      CatPrefix(BitString(hold, bits), OfBytes(input[next..]), n);
      v := Low(hold, n);
    }

    /** DROPBITS */
    method DropBits(n: nat)
      requires Valid() && n <= bits
      modifies this`hold, this`bits
      ensures Valid() && old(Rest().n) >= n && Rest() == DropFirst(old(Rest()), n) && Consumed() == old(Consumed()) + n && bits == old(bits) - n && hold == Shr(old(hold), n)
    {
      hide Cat, OfBytes, DropFirst, Shr, Pow2;
      AllIn();
      DropCat(BitString(hold, bits), OfBytes(input[next..]), n);
      DropProper(BitString(hold, bits), n);
      Dropped(hold, bits, n);
      DropTwice(OfBytes(input), Consumed(), n);
      hold := Shr(hold, n);
      bits := bits - n;
    }

    /** NEEDBITS, BITS and DROPBITS together; ok is false if the input ends before there are n bits. */
    method TakeBits(n: nat) returns (ok: bool, v: nat)
      requires Valid()
      modifies this`next, this`hold, this`bits
      ensures Valid() && ok == (old(Rest().n) >= n)
      ensures ok ==> v < Pow2(n) && old(Rest()) == Cat(BitString(v, n), Rest()) && Consumed() == old(Consumed()) + n
      ensures ok ==> (old(bits) < 8 ==> bits < 8) && (old(bits) >= n ==> bits == old(bits) - n)
      ensures !ok ==> Rest() == old(Rest()) && Consumed() == old(Consumed())
    {
      hide Cat, OfBytes, Low, DropFirst, Pow2;
      ok := NeedBits(n);
      AllIn();
      if !ok {
        return false, 0;
      }
      ghost var all := Rest();
      v := PeekBits(n);
      FirstBits(all, n);
      DropBits(n);
    }

    /** BYTEBITS: drops the bits up to a byte boundary. */
    method ByteBits()
      requires Valid()
      modifies this`hold, this`bits
      ensures Valid() && bits % 8 == 0 && Consumed() == old(Consumed()) + Padding(old(Consumed()))
      ensures old(Rest().n) >= Padding(old(Consumed())) && Rest() == DropFirst(old(Rest()), Padding(old(Consumed())))
    {
      hide Cat, OfBytes, DropFirst, Shr, Padding;
      Boundary(next, bits);
      DropBits(bits % 8);
    }
  }

  lemma NoneDropped(a: BitString)
    ensures DropFirst(a, 0) == a
  {
  }

  lemma Boundary(next: nat, bits: nat)
    requires bits <= 8 * next
    ensures Padding(8 * next - bits) == bits % 8 && (bits - bits % 8) % 8 == 0
  {
  }

  lemma Dropped(hold: nat, bits: nat, n: nat)
    requires n <= bits
    ensures DropFirst(BitString(hold, bits), n) == BitString(Shr(hold, n), bits - n)
  {
  }

  /** A byte moves from the input to the accumulator. */
  lemma Pulled(hold: nat, bits: nat, input: seq<byte>, next: nat)
    requires hold < Pow2(bits) && next < |input|
    ensures var h := hold + Shl(input[next], bits);
      && h < Pow2(bits + 8) && Low(h, bits) == hold
      && Cat(BitString(h, bits + 8), OfBytes(input[next + 1..])) == Cat(BitString(hold, bits), OfBytes(input[next..]))
  {
    hide Shl, Low, OfBytes, Shr;
    var b := BitString(input[next], 8);
    assert Pow2(8) == 256;
    CatProper(BitString(hold, bits), b);
    CatParts(BitString(hold, bits), b);
    CatAssoc(BitString(hold, bits), b, OfBytes(input[next + 1..]));
    OfBytesFirst(input, next);
  }

  lemma OfBytesFirst(input: seq<byte>, next: nat)
    requires next < |input|
    ensures OfBytes(input[next..]) == Cat(BitString(input[next], 8), OfBytes(input[next + 1..]))
  {
    assert input[next..][1..] == input[next + 1..];
  }
}
