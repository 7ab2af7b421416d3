/** The bit buffer of trees.c: send_bits, bi_flush and bi_windup. */
module BitWriter {
  import opened Sums
  import opened Bits
  import opened Xors
  import opened Blocks
  import opened BitStreams

  const BUF_SIZE: nat := 16

  class Writer {
    var pending: seq<byte>
    var biBuf: nat
    var biValid: nat

    constructor ()
      ensures Valid() && Stream() == Empty && pending == [] && biValid == 0
    {
      hide Cat, OfBytes, Pow2;
      pending, biBuf, biValid := [], 0, 0;
      new;
      NoBytes();
    }

    ghost predicate Valid()
      reads this
    {
      biValid <= BUF_SIZE && biBuf < Pow2(biValid)
    }

    /** All bits sent so far. */
    ghost function Stream(): BitString
      reads this
    {
      Cat(OfBytes(pending), BitString(biBuf, biValid))
    }

    /** put_short */
    method PutShort(w: nat)
      requires w < 0x1_0000
      modifies this`pending
      ensures pending == old(pending) + [w % 256, w / 256]
    {
      pending := pending + [w % 256];
      pending := pending + [w / 256];
    }

    /** send_bits: the value enters above the valid bits; what does not fit in 16 bits goes to a new buffer. */
    method SendBits(value: nat, length: nat)
      requires Valid() && 1 <= length <= BUF_SIZE && value < Pow2(length)
      modifies this
      ensures Valid() && Stream() == Cat(old(Stream()), BitString(value, length))
    {
      hide Cat, Or, Shl, Shr, Low, Pow2, OfBytes;
      ghost var was := OfBytes(pending);
      CatAssoc(was, BitString(biBuf, biValid), BitString(value, length));
      if biValid > BUF_SIZE - length {
        Overflow(biBuf, biValid, value, length);
        biBuf := Low(Or(biBuf, Shl(value, biValid)), BUF_SIZE);
        WordBytes(pending, biBuf);
        CatAssoc(was, BitString(biBuf, 16), BitString(Shr(value, BUF_SIZE - biValid), length - (BUF_SIZE - biValid)));
        PutShort(biBuf);
        biBuf := Shr(value, BUF_SIZE - biValid);
        biValid := biValid + length - BUF_SIZE;
      } else {
        Room(biBuf, biValid, value, length);
        biBuf := Or(biBuf, Shl(value, biValid));
        biValid := biValid + length;
      }
    }

    /** bi_flush */
    method BiFlush()
      requires Valid()
      modifies this
      ensures Valid() && biValid < 8 && Stream() == old(Stream())
    {
      hide Cat, Shl, Shr, Low, Pow2, OfBytes;
      ghost var was := OfBytes(pending);
      if biValid == 16 {
        WordBytes(pending, biBuf);
        CatEmpty(Cat(was, BitString(biBuf, 16)));
        OneBit();
        PutShort(biBuf);
        biBuf, biValid := 0, 0;
      } else if biValid >= 8 {
        LowHigh(pending, biBuf, biValid);
        pending := pending + [biBuf % 256];
        biBuf := biBuf / 256;
        biValid := biValid - 8;
      }
    }

    /** bi_windup: fills up to a whole byte with zero bits. */
    method BiWindup()
      requires Valid()
      modifies this
      ensures Valid() && biValid == 0
      ensures Stream() == Cat(old(Stream()), BitString(0, Padding(old(Stream().n))))
    {
      hide Cat, Pow2, OfBytes, Padding;
      PaddingIs(pending, biBuf, biValid);
      if biValid > 8 {
        PadTo(pending, biBuf, biValid, 16);
        PutShort(biBuf);
      } else if biValid > 0 {
        PadTo(pending, biBuf, biValid, 8);
        pending := pending + [biBuf];
      } else {
        PadTo(pending, biBuf, 0, 0);
      }
      biBuf, biValid := 0, 0;
      OneBit();
    }
  }

  /** How many bits are missing to a whole byte. */
  function Padding(n: nat): (r: nat)
    ensures r < 8 && (n + r) % 8 == 0
  {
    (8 - n % 8) % 8
  }

  lemma PaddingIs(s: seq<byte>, buf: nat, valid: nat)
    requires valid <= 16
    ensures Padding(Cat(OfBytes(s), BitString(buf, valid)).n) == (if valid > 8 then 16 else if valid > 0 then 8 else 0) - valid
  {
    hide OfBytes, Cat, Padding;
    OfBytesSize(s);
    CatSize(OfBytes(s), BitString(buf, valid));
    PaddingOf(|s|, valid);
  }

  lemma PaddingOf(m: nat, valid: nat)
    requires valid <= 16
    ensures Padding(8 * m + valid) == (if valid > 8 then 16 else if valid > 0 then 8 else 0) - valid
  {
    assert (8 * m + valid) % 8 == valid % 8;
  }

  lemma NoBytes()
    ensures OfBytes([]) == Empty && Cat(OfBytes([]), BitString(0, 0)) == Empty && Pow2(0) == 1
  {
    hide Cat;
    CatEmpty(OfBytes([]));
  }

  lemma OneBit()
    ensures Pow2(0) == 1
  {
  }

  /** Sixteen bits are two bytes. */
  lemma WordBytes(s: seq<byte>, w: nat)
    requires w < Pow2(16)
    ensures w < 0x1_0000 && OfBytes(s + [w % 256, w / 256]) == Cat(OfBytes(s), BitString(w, 16))
  {
    hide Cat, OfBytes;
    assert Pow2(8) == 256;
    assert Pow2(16) == 65536;
    OfBytesJoin(s, [w % 256, w / 256]);
    TwoBytes(w % 256, w / 256);
  }

  lemma TwoBytes(low: byte, high: byte)
    ensures OfBytes([low, high]) == BitString(low + 256 * high, 16)
  {
    assert [low, high][1..] == [high];
    OfByte(high);
    assert Shl(high, 1) == 2 * high && Shl(high, 2) == 4 * high && Shl(high, 3) == 8 * high && Shl(high, 4) == 16 * high;
    assert Shl(high, 5) == 32 * high && Shl(high, 6) == 64 * high && Shl(high, 7) == 128 * high && Shl(high, 8) == 256 * high;
  }

  lemma Room(buf: nat, valid: nat, value: nat, length: nat)
    requires buf < Pow2(valid) && value < Pow2(length)
    ensures var b := Or(buf, Shl(value, valid));
      b < Pow2(valid + length) && BitString(b, valid + length) == Cat(BitString(buf, valid), BitString(value, length))
  {
    OrJoin(buf, value, valid);
    CatProper(BitString(buf, valid), BitString(value, length));
  }

  /** The bits that do not fit. */
  lemma Overflow(buf: nat, valid: nat, value: nat, length: nat)
    requires valid <= 16 && length <= 16 && buf < Pow2(valid) && value < Pow2(length) && valid + length > 16
    ensures var w, rest := Low(Or(buf, Shl(value, valid)), 16), Shr(value, 16 - valid);
      && w < Pow2(16) && rest < Pow2(valid + length - 16)
      && Cat(BitString(buf, valid), BitString(value, length)) == Cat(BitString(w, 16), BitString(rest, length - (16 - valid)))
  {
    hide Low, Shr, Shl, Pow2, Or;
    var k := 16 - valid;
    OrJoin(buf, value, valid);
    var all := Cat(BitString(buf, valid), BitString(value, length));
    CatProper(BitString(buf, valid), BitString(value, length));
    Split(all.v, 16);
    var first := BitString(buf, valid);
    DropCat(first, BitString(value, length), valid);
    ShrShr(all.v, valid, k);
    CatParts(first, BitString(value, length));
    DropProper(BitString(value, length), k);
  }

  lemma LowHigh(s: seq<byte>, buf: nat, valid: nat)
    requires 8 <= valid <= 16 && buf < Pow2(valid)
    ensures buf / 256 < Pow2(valid - 8)
    ensures Cat(OfBytes(s + [buf % 256]), BitString(buf / 256, valid - 8)) == Cat(OfBytes(s), BitString(buf, valid))
  {
    hide OfBytes;
    var low, high := buf % 256, buf / 256;
    OfBytesJoin(s, [low]);
    OfByte(low);
    assert Shl(high, 1) == 2 * high && Shl(high, 2) == 4 * high && Shl(high, 3) == 8 * high && Shl(high, 4) == 16 * high;
    assert Shl(high, 5) == 32 * high && Shl(high, 6) == 64 * high && Shl(high, 7) == 128 * high && Shl(high, 8) == 256 * high;
    assert Pow2(valid) == 256 * Pow2(valid - 8) by {
      assert Pow2(valid) == 2 * Pow2(valid - 1) && Pow2(valid - 1) == 2 * Pow2(valid - 2) && Pow2(valid - 2) == 2 * Pow2(valid - 3) && Pow2(valid - 3) == 2 * Pow2(valid - 4);
      assert Pow2(valid - 4) == 2 * Pow2(valid - 5) && Pow2(valid - 5) == 2 * Pow2(valid - 6) && Pow2(valid - 6) == 2 * Pow2(valid - 7) && Pow2(valid - 7) == 2 * Pow2(valid - 8);
    }
    hide Shl, Pow2;
    assert Cat(BitString(low, 8), BitString(high, valid - 8)) == BitString(buf, valid);
    CatAssoc(OfBytes(s), BitString(low, 8), BitString(high, valid - 8));
  }

  /** Writing out a partly filled buffer adds zero bits. */
  lemma PadTo(s: seq<byte>, buf: nat, valid: nat, size: nat)
    requires buf < Pow2(valid) && size in {0, 8, 16} && valid <= size && size < valid + 8
    ensures size == 8 ==> buf < 256 && Cat(OfBytes(s + [buf]), Empty) == Cat(Cat(OfBytes(s), BitString(buf, valid)), BitString(0, size - valid))
    ensures size == 16 ==> buf < 0x1_0000 && Cat(OfBytes(s + [buf % 256, buf / 256]), Empty) == Cat(Cat(OfBytes(s), BitString(buf, valid)), BitString(0, size - valid))
    ensures size == 0 ==> Cat(OfBytes(s), Empty) == Cat(Cat(OfBytes(s), BitString(buf, valid)), BitString(0, size - valid))
  {
    Pow2Mono(valid, size);
    assert Pow2(8) == 256;
    ShlAdd(0, 0, valid);
    hide Cat, OfBytes, Pow2;
    CatAssoc(OfBytes(s), BitString(buf, valid), BitString(0, size - valid));
    assert Cat(BitString(buf, valid), BitString(0, size - valid)) == BitString(buf, size) by {
      PadBuf(buf, valid, size);
    }
    if size == 16 {
      WordBytes(s, buf);
      CatEmpty(OfBytes(s + [buf % 256, buf / 256]));
    } else if size == 8 {
      OfBytesJoin(s, [buf]);
      OfByte(buf);
      CatEmpty(OfBytes(s + [buf]));
    } else {
      OneBit();
    }
  }

  lemma PadBuf(buf: nat, valid: nat, size: nat)
    requires valid <= size
    ensures Cat(BitString(buf, valid), BitString(0, size - valid)) == BitString(buf, size)
  {
    ShlAdd(0, 0, valid);
  }
}
