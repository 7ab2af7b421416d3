/** The decompressed file, and the sizes at which the compressed one cannot be read back. */
module ContainerLimits {
  import opened Sums
  import opened Bits
  import opened Blocks
  import opened Sectors
  import opened CsoFormat
  import opened CsoWriter
  import opened IndexBound
  import opened ContainerRoundTrip

  lemma {:induction false} IsoBody(p: Plan, image: seq<byte>, b: nat)
    requires PlanOk(p, image) && p.kind == Iso && b <= NumBlocks(p, image)
    ensures Start(p, image, 0) == 0
    ensures b < NumBlocks(p, image) ==> Start(p, image, b) == Shl(b, p.blockShift)
    ensures b == NumBlocks(p, image) ==> Start(p, image, b) == |image|
    ensures Start(p, image, b) <= |image| && Body(p, image, b) == image[..Start(p, image, b)]
  {
    hide Shl, Pow2, BlockCount, PlanOk, Start, Body, Piece;
    NextBlock(0, p.blockShift);
    CountIs(p, image);
    IsoStart(p, image);
    if b == 0 {
      SomeBlock(p, image);
    } else {
      IsoBody(p, image, b - 1);
      IsoPiece(p, image, b - 1);
      BodyStep(p, image, b - 1);
      BlockCountBounds(|image|, p.blockShift);
      NextBlock(b - 1, p.blockShift);
      Extends(image, Start(p, image, b - 1), Start(p, image, b));
    }
  }

  lemma Extends(image: seq<byte>, a: nat, b: nat)
    requires a <= b <= |image|
    ensures image[..a] + image[a..b] == image[..b]
  {
  }

  lemma IsoStart(p: Plan, image: seq<byte>)
    requires p.kind == Iso
    ensures Start(p, image, 0) == 0
  {
  }

  lemma IsoPiece(p: Plan, image: seq<byte>, b: nat)
    requires p.kind == Iso && b < NumBlocks(p, image)
    ensures var start := Shl(b, p.blockShift);
      var n := if start + Pow2(p.blockShift) > |image| then |image| - start else Pow2(p.blockShift);
      0 <= n && Piece(p, image, b, start) == image[start..start + n]
  {
    hide Shl, Pow2, NumBlocks, Stored;
    IsoStored(p, image, b);
    var start := Shl(b, p.blockShift);
    NoShift(start + |Stored(p, image, b, start)|);
    assert Zeros(0) == [];
  }

  lemma NoShift(x: nat)
    ensures AlignUp(x, 0) == x
  {
  }

  lemma IsoStored(p: Plan, image: seq<byte>, b: nat)
    requires p.kind == Iso && b < NumBlocks(p, image)
    ensures var start := Shl(b, p.blockShift);
      var n := if start + Pow2(p.blockShift) > |image| then |image| - start else Pow2(p.blockShift);
      0 <= n && Stored(p, image, b, start) == image[start..start + n]
  {
    hide Shl, Low, Pow2, BlockCount, BlockOf;
    var start, k := Shl(b, p.blockShift), p.blockShift;
    CountIs(p, image);
    BlockCountBounds(|image|, k);
    var n := if start + Pow2(k) > |image| then |image| - start else Pow2(k);
    BlockIsImage(image, k, b, 0, n);
    assert BlockOf(image, k, b)[0..n] == BlockOf(image, k, b)[..n];
  }

  /** Decompressing writes exactly the image. */
  lemma IsoFile(p: Plan, image: seq<byte>)
    requires PlanOk(p, image) && p.kind == Iso
    ensures FinalFile(p, image) == image
  {
    hide Start, Body, NumBlocks, IndexShift;
    IsoBody(p, image, NumBlocks(p, image));
    SomeBlock(p, image);
    assert Zeros(0) == [] && image[..|image|] == image;
  }

  /** An image stands for itself unless it begins like a container. */
  lemma IsoRepresents(image: seq<byte>, codec: Codec)
    requires |image| > 0 && |image| % SECTOR_SIZE == 0 && !IsMagic(image)
    ensures Represents(image, image, codec)
  {
    var info := Detect(image).info;
    forall at | 0 <= at && at + SECTOR_SIZE <= |image| && at % SECTOR_SIZE == 0
      ensures Serves(image, info, image, codec, at)
    {
    }
  }

  /** Without trials every block takes its full size. */
  lemma {:induction false} StoredStart(p: Plan, image: seq<byte>, b: nat)
    requires PlanOk(p, image) && p.kind != Iso && b <= NumBlocks(p, image)
    requires forall block :: p.trials(block) == []
    ensures Start(p, image, b) == Start(p, image, 0) + Shl(b, p.blockShift)
  {
    hide Start, Shl, PlanOk, NumBlocks, IndexShift;
    NextBlock(0, p.blockShift);
    if b != 0 {
      StoredStart(p, image, b - 1);
      BlockLength(p, image, b - 1);
      NextBlock(b - 1, p.blockShift);
    }
  }

  /** Known before the run: with whole blocks behind the index, the end position needs no 32nd bit. */
  ghost predicate RoomForEnd(p: Plan, image: seq<byte>) {
    IndexShift(p, image) == 0 ==> FirstPos(p.kind, NumBlocks(p, image)) + Shl(NumBlocks(p, image), p.blockShift) < FLAG
  }

  /** Exactly then the round trip does not depend on how well the blocks compress: otherwise it fails at the
      latest when none of them does. */
  lemma RoundTripAhead(p: Plan, image: seq<byte>, codec: Codec)
    requires PlanOk(p, image) && p.kind != Iso && Lossless(p, codec)
    ensures RoomForEnd(p, image) ==> Represents(FinalFile(p, image), image, codec)
    ensures var q := p.(trials := _ => []);
      PlanOk(q, image) && Lossless(q, codec) && (Represents(FinalFile(q, image), image, codec) <==> RoomForEnd(p, image))
  {
    hide Represents, FinalFile, Shl, NumBlocks, PlanOk, Lossless, ShiftFrom;
    var q := p.(trials := _ => []);
    StoredPlan(p, q, image, codec);
    var n := NumBlocks(p, image);
    StartBound(p, image, n);
    StoredStart(q, image, n);
    FinalRepresents(p, image, codec);
    FinalRepresents(q, image, codec);
    FirstStart(p, image);
    FirstStart(q, image);
  }

  lemma FirstStart(p: Plan, image: seq<byte>)
    ensures IndexShift(p, image) == 0 ==> Start(p, image, 0) == FirstPos(p.kind, NumBlocks(p, image))
  {
    hide IndexShift, NumBlocks;
  }

  lemma StoredPlan(p: Plan, q: Plan, image: seq<byte>, codec: Codec)
    requires PlanOk(p, image) && q == p.(trials := q.trials) && forall block :: q.trials(block) == []
    ensures PlanOk(q, image) && Lossless(q, codec) && NumBlocks(q, image) == NumBlocks(p, image) && IndexShift(q, image) == IndexShift(p, image)
  {
    hide ShiftFrom, BlockCount;
  }

  /** An image of 0x1FFF blocks of 0x40000 bytes and one sector, stored uncompressed: the worst size allows
      for no shift, but the padded end does not fit, and the last block cannot be read back. */
  lemma EndMayNotFit(codec: Codec)
    ensures var p, image := Plan(Cso1, 18, Costs(0, 0), _ => []), Zeros(0x7FFC_0800);
      PlanOk(p, image) && Lossless(p, codec) && !Represents(FinalFile(p, image), image, codec)
  {
    hide Start, Shl, Shr, Zeros, Represents, PlanOk, Pow2, FinalFile, NumBlocks;
    var p, image := Plan(Cso1, 18, Costs(0, 0), _ => []), Zeros(0x7FFC_0800);
    LargeImage(p, image);
    Pow31();
    ShlPow2(13, 18);
    assert Shl(8192, 18) == FLAG;
    StoredStart(p, image, 8192);
    FinalRepresents(p, image, codec);
  }

  lemma LargeImage(p: Plan, image: seq<byte>)
    requires p == Plan(Cso1, 18, Costs(0, 0), p.trials) && |image| == 0x7FFC_0800 && forall block :: p.trials(block) == []
    ensures PlanOk(p, image) && NumBlocks(p, image) == 8192 == Pow2(13) && IndexShift(p, image) == 0
  {
    hide Shl, Shr;
    assert Pow2(13) == 8192;
    assert Pow2(18) == 0x40000;
    hide Pow2;
    Pow31();
    ShlPow2(13, 18);
    NextBlock(8192, 18);
    ShrBounds(0x7FFC_0800 + (Pow2(18) - 1), 18, 8192);
    NoShiftBelow(WorstSize(p, image), 62);
    Pow2Mono(31, 63);
  }

  lemma {:induction false} NoShiftBelow(worst: nat, i: nat)
    requires worst < Pow2(31)
    ensures ShiftFrom(worst, i) == 0
    decreases i
  {
    if i >= 31 {
      Pow2Mono(31, i);
      NoShiftBelow(worst, i - 1);
    }
  }
}
