/** README_CSO.md, written out in bytes and numbers, against the definitions that the reader and the writer share. */
module CsoFields {
  import opened Sums
  import opened Bits
  import opened Blocks
  import opened Sectors
  import opened CsoFormat
  import opened CsoWriter
  import opened IndexBound

  /** Four bytes, the lowest first. */
  function Word32(s: seq<byte>, at: nat): nat
    requires at + 4 <= |s|
  {
    s[at] as nat + 0x100 * s[at + 1] as nat + 0x1_0000 * s[at + 2] as nat + 0x100_0000 * s[at + 3] as nat
  }

  lemma ValueFrom(s: seq<byte>, i: nat, n: nat)
    requires i <= n <= |s|
    ensures Value(s[i..n]) == if i == n then 0 else s[i] as nat + 256 * Value(s[i + 1..n])
  {
    if i < n {
      assert s[i..n][1..] == s[i + 1..n];
    }
  }

  lemma FourFirst(s: seq<byte>, i: nat, n: nat)
    requires i + 4 <= n <= |s|
    ensures Value(s[i..n]) == Word32(s, i) + 0x1_0000_0000 * Value(s[i + 4..n])
  {
    hide Value;
    ValueFrom(s, i, n);
    ValueFrom(s, i + 1, n);
    ValueFrom(s, i + 2, n);
    ValueFrom(s, i + 3, n);
  }

  lemma FourValue(s: seq<byte>, at: nat)
    requires at + 4 <= |s|
    ensures Value(s[at..at + 4]) == Word32(s, at)
  {
    hide Value, Word32;
    FourFirst(s, at, at + 4);
    ValueFrom(s, at + 4, at + 4);
  }

  lemma EightValue(s: seq<byte>, at: nat)
    requires at + 8 <= |s|
    ensures Value(s[at..at + 8]) == Word32(s, at) + 0x1_0000_0000 * Word32(s, at + 4)
  {
    hide Value, Word32;
    FourFirst(s, at, at + 8);
    FourValue(s, at + 4);
  }

  lemma {:induction false} WordsRead(s: seq<byte>, n: nat, i: nat)
    requires i < n && |s| >= 4 * n
    ensures ReadWords(s, n)[i] == Word32(s, 4 * i)
  {
    hide Word32, Value;
    if i == n - 1 {
      FourValue(s, 4 * i);
    } else {
      WordsRead(s, n - 1, i);
    }
  }

  lemma {:induction false} Log2Bounds(n: nat)
    requires n >= 1
    ensures Pow2(Log2(n)) <= n < 2 * Pow2(Log2(n))
  {
    if n > 1 {
      Log2Bounds(n / 2);
    }
  }

  // ----- Reading a file -----

  ghost predicate StartsWith(file: seq<byte>, a: byte, b: byte, c: byte, d: byte) {
    |file| >= 24 && file[0] == a && file[1] == b && file[2] == c && file[3] == d
  }

  /** "CISO" and "ZISO" begin containers, "DAX" those that are not modelled; anything else is a plain image. */
  lemma DetectKind(file: seq<byte>)
    requires Detect(file).Ok?
    ensures Detect(file).info.kind == Zso <==> StartsWith(file, 0x5A, 0x49, 0x53, 0x4F)
    ensures Detect(file).info.kind == Cso2 <==> StartsWith(file, 0x43, 0x49, 0x53, 0x4F) && file[20] == 2
    ensures Detect(file).info.kind == Cso1 <==> StartsWith(file, 0x43, 0x49, 0x53, 0x4F) && file[20] <= 1
  {
    hide Value, ReadWords, Log2, Shr;
  }

  /** A container is accepted exactly if its version, block size and image size are, and its index is there. */
  lemma DetectContainer(file: seq<byte>)
    requires StartsWith(file, 0x5A, 0x49, 0x53, 0x4F) || StartsWith(file, 0x43, 0x49, 0x53, 0x4F)
    ensures var size, blockSize := Word32(file, 8) + 0x1_0000_0000 * Word32(file, 12), Word32(file, 16);
      && (Detect(file).Ok? ==> file[20] <= 2 && 2048 <= blockSize <= 0x40000 && size % 2048 == 0)
      && (file[20] <= 2 && 2048 <= blockSize <= 0x40000 && size % 2048 == 0 ==>
            var k := Log2(blockSize);
            var n := Shr(size + blockSize - 1, k) + 1;
            && Pow2(k) <= blockSize < 2 * Pow2(k)
            && (Detect(file).Ok? <==> |file| >= 24 + 4 * n)
            && (Detect(file).Ok? ==>
                  && Detect(file).info.size == size && Detect(file).info.blockShift == k && Detect(file).info.indexShift == file[21]
                  && |Detect(file).info.index| == n
                  && forall i :: 0 <= i < n ==> Detect(file).info.index[i] == Word32(file, 24 + 4 * i)))
  {
    hide Value, ReadWords, Log2, Shr, Word32;
    EightValue(file, 8);
    FourValue(file, 16);
    var blockSize := Word32(file, 16);
    if blockSize >= 2048 {
      Log2Bounds(blockSize);
    }
    if Detect(file).Ok? {
      IndexRead(file, |Detect(file).info.index|);
    }
  }

  lemma IndexRead(file: seq<byte>, n: nat)
    requires |file| >= 24 + 4 * n
    ensures forall i :: 0 <= i < n ==> ReadWords(file[24..], n)[i] == Word32(file, 24 + 4 * i)
  {
    hide ReadWords;
    forall i | 0 <= i < n
      ensures ReadWords(file[24..], n)[i] == Word32(file, 24 + 4 * i)
    {
      WordsRead(file[24..], n, i);
    }
  }

  lemma {:induction false} ShlTimes(x: nat, n: nat)
    ensures Shl(x, n) == x * Pow2(n)
  {
    if n != 0 {
      ShlTimes(x, n - 1);
    }
  }

  /** Where the block of a sector is and how it is compressed: the lower 31 bits, shifted, are the position, the
      next entry gives the length. The high bit marks uncompressed blocks; in version 2 LZ4, and the length tells. */
  lemma LocateBlock(info: Info, at: nat, b: nat)
    requires Indexed(info) && at < info.size && info.kind != Iso
    requires b * Pow2(info.blockShift) <= at < (b + 1) * Pow2(info.blockShift)
    ensures b + 1 < |info.index|
    ensures var entry, next, offset := info.index[b], info.index[b + 1], at - b * Pow2(info.blockShift);
      var pos := (entry % 0x8000_0000) * Pow2(info.indexShift);
      var len := ((next % 0x8000_0000) * Pow2(info.indexShift) - pos) % 0x1_0000_0000;
      var stored := if info.kind == Cso2 then len >= Pow2(info.blockShift) else entry >= 0x8000_0000;
      && (stored ==> Locate(info, at) == Location(pos + offset, (len - offset) % 0x1_0000_0000, Orig, 0))
      && (!stored ==> Locate(info, at) == Location(pos, len, if info.kind == Zso || (info.kind == Cso2 && entry >= 0x8000_0000) then Lz4 else Deflate, offset))
  {
    hide Shl, Shr, Low, Pow2, BlockCount;
    var k := info.blockShift;
    ShlTimes(b, k);
    ShlTimes(b + 1, k);
    ShrBounds(at, k, b);
    Split(at, k);
    BlockCountBounds(info.size, k);
    ShlTimes(info.index[b] % FLAG, info.indexShift);
    ShlTimes(info.index[b + 1] % FLAG, info.indexShift);
  }

  // ----- Writing one -----

  /** The high bit of an entry: uncompressed, or LZ4 in version 2; not in the last entry. */
  lemma EntryFlag(p: Plan, image: seq<byte>, b: nat)
    requires PlanOk(p, image) && b < NumBlocks(p, image) && p.kind != Iso
    ensures p.kind == Cso1 || p.kind == Zso ==> (Entry(p, image, b) >= 0x8000_0000 <==> ChoiceFor(p, image, b).fmt == Orig)
    ensures p.kind == Cso2 ==> (Entry(p, image, b) >= 0x8000_0000 <==> ChoiceFor(p, image, b).fmt == Lz4)
  {
    hide Entry, Start, NumBlocks, PlanOk, ChoiceFor, Shl, Shr, IndexShift;
    BlockStartFits(p, image, b);
  }

  /** Without costs, no block takes more space in the file than its smallest trial, or than the block itself. */
  lemma SmallestBlock(p: Plan, image: seq<byte>, b: nat, t: Trial)
    requires PlanOk(p, image) && b < NumBlocks(p, image) && p.kind != Iso && p.costs == Costs(0, 0)
    ensures var n := Start(p, image, b + 1) - Start(p, image, b);
      n <= Pow2(p.blockShift) && (t in p.trials(BlockOf(image, p.blockShift, b)) ==> n <= AlignUp(|t.bytes|, IndexShift(p, image)))
  {
    hide Start, BlockCount, BlockOf, AlignUp, IndexShift, Pow2, Select, Finalize;
    var trials := p.trials(BlockOf(image, p.blockShift, b));
    BlockLength(p, image, b);
    ChoiceOf(p, image, b);
    FinalSmallest(trials, p.blockShift, IndexShift(p, image));
  }

  lemma ChoiceOf(p: Plan, image: seq<byte>, b: nat)
    requires PlanOk(p, image) && b < NumBlocks(p, image) && p.kind != Iso
    ensures AllCompressed(p.trials(BlockOf(image, p.blockShift, b))) && IndexShift(p, image) <= 11 <= p.blockShift
    ensures ChoiceFor(p, image, b) ==
      Finalize(Select(p.trials(BlockOf(image, p.blockShift, b)), Pow2(p.blockShift), p.costs), Pow2(p.blockShift), IndexShift(p, image))
  {
    hide Finalize, Select, IndexShift, BlockOf, Pow2, WorstSize;
  }
}
