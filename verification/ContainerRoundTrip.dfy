/** The file the writer produces is a container for the image, as the reader sees it. */
module ContainerRoundTrip {
  import opened Sums
  import opened Bits
  import opened Blocks
  import opened Sectors
  import opened CsoFormat
  import opened CsoWriter
  import opened IndexBound

  /** Decompressing a trial gives the block back, whatever zero padding follows it. */
  ghost predicate Lossless(p: Plan, codec: Codec) {
    forall block, i, n: nat :: |block| == Pow2(p.blockShift) && 0 <= i < |p.trials(block)| && n < SECTOR_SIZE ==>
      Decode(codec, p.trials(block)[i].fmt, p.trials(block)[i].bytes + Zeros(n)) == Some(block)
  }

  /** The end position is the only one that may need 32 bits. The reader masks its top bit off, which matters
      only if the shift does not move it beyond the 32 bits of a length. */
  ghost predicate EndFits(p: Plan, image: seq<byte>) {
    IndexShift(p, image) == 0 ==> Start(p, image, NumBlocks(p, image)) < FLAG
  }

  lemma {:induction false} ReadBackWords(index: seq<nat>, n: nat, rest: seq<byte>)
    requires n <= |index| && forall i :: 0 <= i < |index| ==> index[i] < WORD
    ensures ReadWords(Words(index) + rest, n) == index[..n]
    decreases |index|, n
  {
    hide Words, Le, Value;
    if n != 0 {
      ReadBackWords(index, n - 1, rest);
      WordAt(index, n - 1, rest);
      WordValue(index[n - 1]);
    }
  }

  lemma ShlOne(n: nat)
    ensures Shl(1, n) == Pow2(n)
  {
    ShlPow2(0, n);
  }

  lemma WordValue(v: nat)
    requires v < WORD
    ensures Value(Le(v, 4)) == v
  {
    hide Shl, Pow2, Le, Value;
    Pow31();
    ShlOne(32);
    LeValue(v, 4);
  }

  lemma LongValue(v: nat)
    requires v < Pow2(63)
    ensures Value(Le(v, 8)) == v
  {
    hide Shl, Pow2, Le, Value;
    Pow2Mono(63, 64);
    ShlOne(64);
    LeValue(v, 8);
  }

  lemma {:induction false} WordAt(index: seq<nat>, i: nat, rest: seq<byte>)
    requires i < |index|
    ensures (Words(index) + rest)[4 * i..4 * (i + 1)] == Le(index[i], 4)
    decreases |index|
  {
    hide Le;
    var m := |index| - 1;
    var last := Le(index[m], 4);
    if i < m {
      WordAt(index[..m], i, last + rest);
      assert Words(index) + rest == Words(index[..m]) + (last + rest);
    }
  }

  /** The header fields, read back. */
  lemma HeaderFields(kind: Kind, size: nat, k: nat, shift: nat, rest: seq<byte>)
    requires shift < 256 && size < Pow2(63) && k <= 18
    ensures var f := Header(kind, size, k, shift) + rest;
      && f[..4] == Magic(kind) == (if kind == Zso then [0x5A, 0x49, 0x53, 0x4F] else [0x43, 0x49, 0x53, 0x4F]) // "ZISO", "CISO"
      && f[4..8] == [24, 0, 0, 0] && Value(f[8..16]) == size && Value(f[16..20]) == Pow2(k) && f[22..24] == [0, 0]
      && f[20] == (if kind == Cso2 then 2 else 1) && f[21] == shift && f[HEADER_SIZE..] == rest
  {
    hide Le, Pow2, Shl, Value;
    var f := Header(kind, size, k, shift) + rest;
    Pow2Mono(k, 31);
    Pow31();
    LongValue(size);
    WordValue(Pow2(k));
    SizeField();
    assert f[4..8] == Le(HEADER_SIZE, 4);
    assert f[8..16] == Le(size, 8);
    assert f[16..20] == Le(Pow2(k), 4);
  }

  lemma SizeField()
    ensures Le(HEADER_SIZE, 4) == [24, 0, 0, 0]
  {
    assert Le(0, 0) == [] && Le(0, 1) == [0] && Le(0, 2) == [0, 0] && Le(0, 3) == [0, 0, 0];
  }

  ghost function InfoOf(p: Plan, image: seq<byte>): Info {
    Info(p.kind, |image|, p.blockShift, IndexShift(p, image), Index(p, image))
  }

  lemma BlockSizeRange(k: nat)
    requires 11 <= k <= 18
    ensures SECTOR_SIZE <= Pow2(k) <= MAX_BLOCK_SIZE
  {
    Pow2Mono(11, k);
    Pow2Mono(k, 18);
    assert Pow2(11) == 2048;
    assert Pow2(18) == 0x40000;
  }

  lemma DetectHead(p: Plan, image: seq<byte>, rest: seq<byte>)
    requires PlanOk(p, image) && p.kind != Iso
    ensures Detect(Head(p, image) + rest) == Ok(InfoOf(p, image))
  {
    hide IndexShift, Le, Words, ReadWords, Value, Header, Log2, Pow2, Shr, Entry, NumBlocks;
    var f := Head(p, image) + rest;
    var words := Words(Index(p, image));
    var header := Header(p.kind, |image|, p.blockShift, IndexShift(p, image));
    assert f == header + (words + rest);
    SizeFits(p, image);
    HeaderFields(p.kind, |image|, p.blockShift, IndexShift(p, image), words + rest);
    BlockSizeRange(p.blockShift);
    Log2Pow2(p.blockShift);
    EntriesAreWords(p, image);
    ReadBackWords(Index(p, image), |Index(p, image)|, rest);
    CountsAgree(p, image);
  }

  lemma SizeFits(p: Plan, image: seq<byte>)
    requires PlanOk(p, image)
    ensures |image| < Pow2(63)
  {
  }

  lemma CountsAgree(p: Plan, image: seq<byte>)
    ensures Shr(|image| + Pow2(p.blockShift) - 1, p.blockShift) + 1 == |Index(p, image)|
  {
  }

  lemma EntriesAreWords(p: Plan, image: seq<byte>)
    ensures forall b :: 0 <= b < |Index(p, image)| ==> Index(p, image)[b] < WORD
  {
    hide Word, Start, ChoiceFor, IndexShift, NumBlocks;
  }

  /** Where the reader sees the next block, up to multiples of 2^32. */
  lemma NextLength(p: Plan, image: seq<byte>, b: nat)
    requires PlanOk(p, image) && b < NumBlocks(p, image) && p.kind != Iso
    ensures var n := Start(p, image, b + 1) - Start(p, image, b);
      (Shl(Entry(p, image, b + 1) % FLAG, IndexShift(p, image)) - Start(p, image, b)) % WORD ==
      if b + 1 < NumBlocks(p, image) || EndFits(p, image) then n else n + FLAG
  {
    hide Start, PlanOk, IndexShift, ChoiceFor, WorstSize, NumBlocks, Shl, Shr, Low, Stored, Pow2, Entry;
    var s := IndexShift(p, image);
    BlockLength(p, image, b);
    RangeOfPlan(p, image);
    BlockSizeRange(p.blockShift);
    if b + 1 < NumBlocks(p, image) {
      BlockStartFits(p, image, b + 1);
    } else {
      StartBelowWorst(p, image, b);
      ShiftLeast(p, image);
      StartAligned(p, image, b + 1);
      EndWord(Start(p, image, b + 1), Start(p, image, b), s);
      assert Entry(p, image, b + 1) == Word(Start(p, image, b + 1), s) by {
        LastEntry(p, image);
      }
    }
  }

  lemma LastEntry(p: Plan, image: seq<byte>)
    ensures Entry(p, image, NumBlocks(p, image)) == Word(Start(p, image, NumBlocks(p, image)), IndexShift(p, image))
  {
  }

  lemma RangeOfPlan(p: Plan, image: seq<byte>)
    requires PlanOk(p, image)
    ensures 11 <= p.blockShift <= 18 && IndexShift(p, image) <= 11
  {
  }

  /** The masked end position. */
  lemma EndWord(end: nat, at: nat, s: nat)
    requires Low(end, s) == 0 && FitsIn31(at, s) && at < end <= at + MAX_BLOCK_SIZE
    ensures (Shl(Word(end, s) % FLAG, s) - at) % WORD == if s == 0 && end >= FLAG then end - at + FLAG else end - at
  {
    hide Shl, Shr, Low, Pow2;
    var v := Shr(end, s);
    UnshiftAligned(end, s);
    PowStep(31, s);
    Pow31();
    ShlPow2(32, s);
    ShlPow2(31, s);
    Pow2Mono(31, 31 + s);
    ShlMono(Pow2(32), v, s);
    ShlMono(Pow2(31), v, s);
    assert v < WORD;
    if v >= FLAG {
      ShlAdd(v - FLAG, FLAG, s);
      assert Shl(v % FLAG, s) == end - Pow2(31 + s);
      if s > 0 {
        PowStep(31, s - 1);
        Multiple(s - 1);
        var c := Pow2(s - 1);
        assert Pow2(31 + s) == WORD * c;
        assert (end - at - WORD * c) % WORD == end - at;
      }
    }
  }

  lemma PowStep(a: nat, b: nat)
    ensures Pow2(a + b + 1) == 2 * Pow2(a + b)
  {
  }

  lemma {:induction false} Multiple(c: nat)
    ensures Pow2(32 + c) == WORD * Pow2(c)
  {
    if c == 0 {
      Pow31();
    } else {
      Multiple(c - 1);
    }
  }

  /** Position at of the image belongs to block b. */
  ghost predicate InBlock(p: Plan, image: seq<byte>, at: nat, b: nat) {
    && at < |image| && b < NumBlocks(p, image) && b == Shr(at, p.blockShift)
    && at == Shl(b, p.blockShift) + Low(at, p.blockShift)
  }

  lemma BlockAt(p: Plan, image: seq<byte>, at: nat)
    requires at < |image|
    ensures InBlock(p, image, at, Shr(at, p.blockShift))
  {
    Split(at, p.blockShift);
    BlockCountBounds(|image|, p.blockShift);
  }

  /** The reader finds every block where the writer put it, except for the last one if the end does not fit. */
  lemma Located(p: Plan, image: seq<byte>, at: nat, b: nat)
    requires PlanOk(p, image) && p.kind != Iso && InBlock(p, image, at, b)
    ensures var l, end := Locate(InfoOf(p, image), at), Start(p, image, b + 1);
      if b + 1 < NumBlocks(p, image) || EndFits(p, image) then
        && l.fmt == ChoiceFor(p, image, b).fmt && l.pos + l.len == end
        && (if l.fmt == Orig then l.pos == Start(p, image, b) + Low(at, p.blockShift) else l.pos == Start(p, image, b) && l.offset == Low(at, p.blockShift))
      else l.pos + l.len == end + FLAG
  {
    hide Start, PlanOk, IndexShift, ChoiceFor, WorstSize, Shl, Shr, Low, Stored, Pow2, Entry, EndFits, NumBlocks, BlockCount;
    NextLength(p, image, b);
    BlockStartFits(p, image, b);
    BlockLength(p, image, b);
    RangeOfPlan(p, image);
    BlockSizeRange(p.blockShift);
    AllowedChoice(p, image, b);
    CountIs(p, image);
  }

  lemma CountIs(p: Plan, image: seq<byte>)
    ensures NumBlocks(p, image) == BlockCount(|image|, p.blockShift)
  {
  }

  lemma AllowedChoice(p: Plan, image: seq<byte>, b: nat)
    requires PlanOk(p, image) && b < NumBlocks(p, image) && p.kind != Iso
    ensures ChoiceFor(p, image, b).fmt == Orig || Allowed(p.kind, ChoiceFor(p, image, b).fmt)
  {
    ChoiceFacts(p, image, b);
    hide Start, ChoiceFor, Stored, BlockOf, IndexShift;
  }

  lemma {:induction false} BodyPrefix(p: Plan, image: seq<byte>, b: nat, c: nat)
    requires b <= c <= NumBlocks(p, image)
    ensures Body(p, image, b) <= Body(p, image, c)
  {
    hide Body, Start, FirstPos, NumBlocks;
    if b < c {
      BodyPrefix(p, image, b, c - 1);
      BodyStep(p, image, c - 1);
    }
  }

  lemma BodyStep(p: Plan, image: seq<byte>, b: nat)
    requires b < NumBlocks(p, image)
    ensures Body(p, image, b + 1) == Body(p, image, b) + Piece(p, image, b, Start(p, image, b))
    ensures Start(p, image, b + 1) == Start(p, image, b) + |Piece(p, image, b, Start(p, image, b))|
  {
  }

  /** Each block's piece of the final file. */
  lemma PieceInFile(p: Plan, image: seq<byte>, b: nat)
    requires b < NumBlocks(p, image)
    ensures |FinalFile(p, image)| == Start(p, image, NumBlocks(p, image))
    ensures Start(p, image, b) <= Start(p, image, b + 1) <= |FinalFile(p, image)|
    ensures FinalFile(p, image)[Start(p, image, b)..Start(p, image, b + 1)] == Piece(p, image, b, Start(p, image, b))
  {
    hide Piece, NumBlocks, Start, Head, FirstPos, Body;
    var n := NumBlocks(p, image);
    BodyPrefix(p, image, b + 1, n);
    var body, part := Body(p, image, n), Piece(p, image, b, Start(p, image, b));
    BodyStep(p, image, b);
    var f := FinalFile(p, image);
    assert f[Start(p, image, 0)..] == body;
    var from, to := |Body(p, image, b)|, |Body(p, image, b + 1)|;
    assert body[from..to] == part;
    assert f[Start(p, image, 0)..][from..to] == f[Start(p, image, b)..Start(p, image, b + 1)];
  }

  /** The image part of a block. */
  lemma BlockIsImage(image: seq<byte>, k: nat, b: nat, from: nat, to: nat)
    requires b < BlockCount(|image|, k) && from <= to <= Pow2(k) && Shl(b, k) + to <= |image|
    ensures BlockOf(image, k, b)[from..to] == image[Shl(b, k) + from..Shl(b, k) + to]
  {
    hide Shl, Pow2, BlockCount, Padded;
    NextBlock(b, k);
    var padded, start := Padded(image, k), Shl(b, k);
    ShlMono(b + 1, BlockCount(|image|, k), k);
    SliceSlice(padded, start, Shl(b + 1, k), from, to);
    SliceSlice(padded, 0, |image|, start + from, start + to);
    assert padded[0..|image|] == padded[..|image|];
  }

  lemma ServesUncompressed(p: Plan, image: seq<byte>, at: nat, b: nat)
    requires PlanOk(p, image) && p.kind != Iso && InBlock(p, image, at, b) && at % SECTOR_SIZE == 0 && at + SECTOR_SIZE <= |image|
    requires b + 1 < NumBlocks(p, image) || EndFits(p, image)
    requires ChoiceFor(p, image, b).fmt == Orig
    ensures var l, file := Locate(InfoOf(p, image), at), FinalFile(p, image);
      && l.fmt == Orig && l.pos + l.len <= |file| && SECTOR_SIZE <= l.len <= Pow2(p.blockShift)
      && file[l.pos..l.pos + SECTOR_SIZE] == image[at..at + SECTOR_SIZE]
  {
    hide Start, PlanOk, IndexShift, ChoiceFor, Shl, Shr, Low, Stored, Pow2, EndFits, NumBlocks, BlockCount, FinalFile, BlockOf, Locate, Piece;
    var k := p.blockShift;
    var offset := Low(at, k);
    Located(p, image, at, b);
    BlockLength(p, image, b);
    RangeOfPlan(p, image);
    RoomInBlock(at, k);
    ChoiceFacts(p, image, b);
    PieceInFile(p, image, b);
    PieceStarts(p, image, b);
    CountIs(p, image);
    BlockIsImage(image, k, b, offset, offset + SECTOR_SIZE);
    var start, end, file := Start(p, image, b), Start(p, image, b + 1), FinalFile(p, image);
    var part, block := file[start..end], BlockOf(image, k, b);
    assert part == block;
    SliceSlice(file, start, end, offset, offset + SECTOR_SIZE);
  }

  /** A sector does not straddle blocks. */
  lemma RoomInBlock(at: nat, k: nat)
    requires k >= 11 && at % SECTOR_SIZE == 0
    ensures Low(at, k) % SECTOR_SIZE == 0 && Low(at, k) + SECTOR_SIZE <= Pow2(k)
  {
    hide Shl, Shr, Low, Pow2;
    Split(at, k);
    WholeBlocks(Shr(at, k), k);
    WholeSectors(k);
  }

  lemma PieceStarts(p: Plan, image: seq<byte>, b: nat)
    requires b < NumBlocks(p, image)
    ensures var bytes, part := Stored(p, image, b, Start(p, image, b)), Piece(p, image, b, Start(p, image, b));
      |part| >= |bytes| && part == bytes + Zeros(|part| - |bytes|)
  {
    hide Start, Stored, IndexShift;
  }

  lemma ServesCompressed(p: Plan, image: seq<byte>, codec: Codec, at: nat, b: nat)
    requires PlanOk(p, image) && p.kind != Iso && InBlock(p, image, at, b) && at % SECTOR_SIZE == 0 && at + SECTOR_SIZE <= |image| && Lossless(p, codec)
    requires b + 1 < NumBlocks(p, image) || EndFits(p, image)
    requires ChoiceFor(p, image, b).fmt != Orig
    ensures var l, file := Locate(InfoOf(p, image), at), FinalFile(p, image);
      && l.fmt != Orig && l.pos + l.len <= |file| && l.len < Pow2(p.blockShift) && l.offset == Low(at, p.blockShift) <= at
      && Decode(codec, l.fmt, file[l.pos..l.pos + l.len]) == Some(BlockOf(image, p.blockShift, b))
  {
    hide Start, PlanOk, IndexShift, ChoiceFor, Shl, Shr, Low, Stored, Pow2, EndFits, NumBlocks, BlockCount, FinalFile, BlockOf, Locate, Piece, Lossless, Decode;
    var k := p.blockShift;
    Located(p, image, at, b);
    BlockLength(p, image, b);
    RangeOfPlan(p, image);
    SmallAlign(IndexShift(p, image));
    ChoiceFacts(p, image, b);
    PieceInFile(p, image, b);
    PieceStarts(p, image, b);
    var bytes := Stored(p, image, b, Start(p, image, b));
    CountIs(p, image);
    DecodesTrial(p, codec, BlockOf(image, k, b), Trial(ChoiceFor(p, image, b).fmt, bytes), Start(p, image, b + 1) - Start(p, image, b) - |bytes|);
  }

  lemma DecodesTrial(p: Plan, codec: Codec, block: seq<byte>, t: Trial, n: nat)
    requires Lossless(p, codec) && |block| == Pow2(p.blockShift) && t in p.trials(block) && n < SECTOR_SIZE
    ensures Decode(codec, t.fmt, t.bytes + Zeros(n)) == Some(block)
  {
    var i :| 0 <= i < |p.trials(block)| && p.trials(block)[i] == t;
  }

  lemma ServesSector(p: Plan, image: seq<byte>, codec: Codec, at: nat, b: nat)
    requires PlanOk(p, image) && p.kind != Iso && InBlock(p, image, at, b) && at % SECTOR_SIZE == 0 && at + SECTOR_SIZE <= |image| && Lossless(p, codec)
    requires b + 1 < NumBlocks(p, image) || EndFits(p, image)
    ensures Serves(FinalFile(p, image), InfoOf(p, image), image, codec, at)
  {
    hide PlanOk, IndexShift, ChoiceFor, Shl, Shr, Low, Pow2, EndFits, NumBlocks, BlockCount, FinalFile, BlockOf, Locate, Lossless, Decode, CacheSize;
    var k := p.blockShift;
    CountIs(p, image);
    RangeOfPlan(p, image);
    if ChoiceFor(p, image, b).fmt == Orig {
      ServesUncompressed(p, image, at, b);
    } else {
      ServesCompressed(p, image, codec, at, b);
      RoomInBlock(at, k);
      WholeSectors(k);
      WholeBlocks(b, k);
      WholeImage(p, image);
      var n := Useful(InfoOf(p, image), Shl(b, k), Pow2(k));
      BlockIsImage(image, k, b, 0, n);
    }
  }

  lemma WholeImage(p: Plan, image: seq<byte>)
    requires PlanOk(p, image)
    ensures |image| % SECTOR_SIZE == 0 && |image| > 0
  {
  }

  /** The container round trip: what the writer produces is a container for the image exactly if the end
      position fits. */
  lemma FinalRepresents(p: Plan, image: seq<byte>, codec: Codec)
    requires PlanOk(p, image) && p.kind != Iso && Lossless(p, codec)
    ensures Represents(FinalFile(p, image), image, codec) <==> EndFits(p, image)
  {
    var file, info := FinalFile(p, image), InfoOf(p, image);
    DetectFinal(p, image);
    hide PlanOk, IndexShift, Shl, Shr, Low, EndFits, NumBlocks, BlockCount, FinalFile, Locate, Lossless, Serves, Detect, Start, WorstSize, InBlock, Index;
    WholeImage(p, image);
    CountIs(p, image);
    if EndFits(p, image) {
      forall at | 0 <= at && at + SECTOR_SIZE <= |image| && at % SECTOR_SIZE == 0
        ensures Serves(file, info, image, codec, at)
      {
        BlockAt(p, image, at);
        ServesSector(p, image, codec, at, Shr(at, p.blockShift));
      }
      FirstBlockEarly(p, image);
    } else {
      LastBlockLost(p, image, codec);
    }
  }

  lemma DetectFinal(p: Plan, image: seq<byte>)
    requires PlanOk(p, image) && p.kind != Iso
    ensures Detect(FinalFile(p, image)) == Ok(InfoOf(p, image))
  {
    hide PlanOk, IndexShift, Detect, Start, Body, Head, NumBlocks;
    var n := NumBlocks(p, image);
    var h := Head(p, image);
    var rest := Zeros(Start(p, image, 0) - |h|) + Body(p, image, n);
    SomeBlock(p, image);
    assert FinalFile(p, image) == h + rest;
    DetectHead(p, image, rest);
  }

  lemma SomeBlock(p: Plan, image: seq<byte>)
    requires PlanOk(p, image)
    ensures NumBlocks(p, image) > 0
  {
    BlockCountBounds(|image|, p.blockShift);
    NextBlock(0, p.blockShift);
  }

  lemma {:induction false} ShlGrows(x: nat, n: nat)
    ensures Shl(x, n) >= x
  {
    if n != 0 {
      ShlGrows(x, n - 1);
    }
  }

  /** Every block but the last stands for at least a sector of the image, and so does the last. */
  lemma SectorPerBlock(p: Plan, image: seq<byte>)
    requires PlanOk(p, image)
    ensures 2048 * NumBlocks(p, image) <= |image|
  {
    SomeBlock(p, image);
    var last := NumBlocks(p, image) - 1;
    BlockCountBounds(|image|, p.blockShift);
    BeforeEnd(|image|, last, p.blockShift);
    WholeBlocks(last, p.blockShift);
    ShlGrows(last, p.blockShift - 11);
  }

  lemma StartEarly(p: Plan, image: seq<byte>)
    requires PlanOk(p, image) && p.kind != Iso
    ensures Start(p, image, 0) < |image|
  {
    SectorPerBlock(p, image);
    SmallAlign(IndexShift(p, image));
    if IndexShift(p, image) != 0 {
      ShiftFromLeast(WorstSize(p, image), 62);
      hide ShiftFrom, TrialsOk, NumBlocks;
      Pow2Mono(31, 30 + IndexShift(p, image));
      Pow31();
    }
  }

  /** The first block lies before the position that marks the cache as empty. */
  lemma FirstBlockEarly(p: Plan, image: seq<byte>)
    requires PlanOk(p, image) && p.kind != Iso && |image| > 0 && Indexed(InfoOf(p, image))
    ensures Locate(InfoOf(p, image), 0).pos < |image|
  {
    hide Start, WorstSize, Shl, Shr, Low, EndFits, NumBlocks, IndexShift, PlanOk, Entry;
    BlockAt(p, image, 0);
    NextBlock(0, p.blockShift);
    Join(0, 0, p.blockShift);
    StartEarly(p, image);
    BlockStartFits(p, image, 0);
  }

  lemma LastBlockLost(p: Plan, image: seq<byte>, codec: Codec)
    requires PlanOk(p, image) && p.kind != Iso && !EndFits(p, image) && Indexed(InfoOf(p, image))
    ensures exists at :: 0 <= at && at + SECTOR_SIZE <= |image| && at % SECTOR_SIZE == 0 && !Serves(FinalFile(p, image), InfoOf(p, image), image, codec, at)
  {
    hide Start, EndFits, NumBlocks, PlanOk, FinalFile, Locate, Serves, InBlock, Indexed, Index, IndexShift, Shl, Low;
    var at, last := LastStart(p, image);
    Located(p, image, at, last);
    PieceInFile(p, image, last);
    NotServed(FinalFile(p, image), InfoOf(p, image), image, codec, at);
  }

  lemma LastStart(p: Plan, image: seq<byte>) returns (at: nat, last: nat)
    requires PlanOk(p, image)
    ensures last == NumBlocks(p, image) - 1 && InBlock(p, image, at, last)
    ensures at + SECTOR_SIZE <= |image| && at % SECTOR_SIZE == 0
  {
    hide Shl, Shr, Low, IndexShift, TrialsOk;
    SomeBlock(p, image);
    last := NumBlocks(p, image) - 1;
    at := Shl(last, p.blockShift);
    BlockCountBounds(|image|, p.blockShift);
    BeforeEnd(|image|, last, p.blockShift);
    WholeBlocks(last, p.blockShift);
    Join(last, 0, p.blockShift);
  }

  lemma NotServed(file: seq<byte>, info: Info, image: seq<byte>, codec: Codec, at: nat)
    requires Indexed(info) && at + SECTOR_SIZE <= info.size == |image| && Locate(info, at).pos + Locate(info, at).len > |file|
    ensures !Serves(file, info, image, codec, at)
  {
  }
}
