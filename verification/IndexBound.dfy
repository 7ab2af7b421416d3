/** Block positions in the written file: aligned, increasing, and small enough for 31 bits. */
module IndexBound {
  import opened Sums
  import opened Bits
  import opened Blocks
  import opened Sectors
  import opened CsoFormat
  import opened CsoWriter

  lemma AlignUpAdd(dst: nat, x: nat, s: nat)
    requires Low(dst, s) == 0
    ensures AlignUp(dst + x, s) == dst + AlignUp(x, s)
  {
    hide Shl, Shr, Low;
    Split(dst, s);
    Split(x, s);
    ShlAdd(Shr(dst, s), Shr(x, s), s);
    Join(Shr(dst, s) + Shr(x, s), Low(x, s), s);
  }

  /** What is written for a block is its choice: a trial that saves space after alignment, or the block. */
  lemma ChoiceFacts(p: Plan, image: seq<byte>, b: nat)
    requires PlanOk(p, image) && b < NumBlocks(p, image) && p.kind != Iso
    ensures var c := ChoiceFor(p, image, b);
      var bytes := Stored(p, image, b, Start(p, image, b));
      && bytes == ChosenBytes(c, BlockOf(image, p.blockShift, b)) && |bytes| == c.size > 0
      && (c.fmt == Orig <==> AlignUp(c.size, IndexShift(p, image)) >= Pow2(p.blockShift))
      && (c.fmt == Orig ==> bytes == BlockOf(image, p.blockShift, b) && AlignUp(c.size, IndexShift(p, image)) == Pow2(p.blockShift))
      && (c.fmt != Orig ==> Trial(c.fmt, bytes) in p.trials(BlockOf(image, p.blockShift, b)))
  {
    hide AlignUp, Select, Finalize, Start, IndexShift, BlockOf, Pow2;
    var block := BlockOf(image, p.blockShift, b);
    var c := ChoiceFor(p, image, b);
    assert AllCompressed(p.trials(block));
    FinalizeRecovers(p.trials(block), p.blockShift, p.costs, IndexShift(p, image));
    if c.fmt != Orig {
      var i :| 0 <= i < |p.trials(block)| && c == Choice(Some(p.trials(block)[i].bytes), |p.trials(block)[i].bytes|, p.trials(block)[i].fmt);
      assert p.trials(block)[i] == Trial(c.fmt, p.trials(block)[i].bytes);
    }
  }

  lemma {:induction false} StartAligned(p: Plan, image: seq<byte>, b: nat)
    requires b <= NumBlocks(p, image)
    ensures Low(Start(p, image, b), IndexShift(p, image)) == 0
  {
    hide AlignUp, IndexShift, Low, Stored;
    if b == 0 {
      AlignUpLeast(FirstPos(p.kind, NumBlocks(p, image)), IndexShift(p, image));
    } else {
      var dst := Start(p, image, b - 1);
      AlignUpLeast(dst + |Stored(p, image, b - 1, dst)|, IndexShift(p, image));
    }
  }

  /** The distance to the next block: the aligned size, which tells whether the block is compressed. */
  lemma BlockLength(p: Plan, image: seq<byte>, b: nat)
    requires PlanOk(p, image) && b < NumBlocks(p, image) && p.kind != Iso
    ensures var n := Start(p, image, b + 1) - Start(p, image, b);
      && 0 < |Stored(p, image, b, Start(p, image, b))| <= n <= Pow2(p.blockShift)
      && n < |Stored(p, image, b, Start(p, image, b))| + Pow2(IndexShift(p, image))
      && n == AlignUp(ChoiceFor(p, image, b).size, IndexShift(p, image))
      && (ChoiceFor(p, image, b).fmt == Orig <==> n == Pow2(p.blockShift))
  {
    hide AlignUp, IndexShift, Low, Stored, ChoiceFor, PlanOk, Pow2;
    StartAligned(p, image, b);
    ChoiceFacts(p, image, b);
    AlignUpAdd(Start(p, image, b), ChoiceFor(p, image, b).size, IndexShift(p, image));
  }

  lemma {:induction false} StartBound(p: Plan, image: seq<byte>, b: nat)
    requires PlanOk(p, image) && b <= NumBlocks(p, image) && p.kind != Iso
    ensures Start(p, image, b) <= Start(p, image, 0) + Shl(b, p.blockShift)
  {
    hide PlanOk, Start, Shl;
    NextBlock(0, p.blockShift);
    if b != 0 {
      StartBound(p, image, b - 1);
      BlockLength(p, image, b - 1);
      NextBlock(b - 1, p.blockShift);
    }
  }

  /** 31 bits are enough for the position after the shift. */
  predicate FitsIn31(pos: nat, shift: nat) {
    pos < Pow2(31 + shift)
  }

  /** SetFile picks the least shift for the worst case. */
  lemma ShiftLeast(p: Plan, image: seq<byte>)
    requires PlanOk(p, image) && p.kind != Iso
    ensures FitsIn31(WorstSize(p, image), IndexShift(p, image))
    ensures forall s: nat :: FitsIn31(WorstSize(p, image), s) ==> IndexShift(p, image) <= s
  {
    hide WorstSize, ShiftFrom;
    var worst := WorstSize(p, image);
    ShiftFromLeast(worst, 62);
    forall s: nat | FitsIn31(worst, s)
      ensures IndexShift(p, image) <= s
    {
      if s < IndexShift(p, image) {
        Pow2Mono(31 + s, 30 + IndexShift(p, image));
      }
    }
  }

  /** Two whole numbers of sectors that differ, differ by a sector. */
  lemma BeforeEnd(size: nat, b: nat, k: nat)
    requires k >= 11 && size % SECTOR_SIZE == 0 && Shl(b, k) < size
    ensures Shl(b, k) + SECTOR_SIZE <= size
  {
    WholeBlocks(b, k);
  }

  lemma SmallAlign(s: nat)
    requires s <= 11
    ensures Pow2(s) <= SECTOR_SIZE
  {
    Pow2Mono(s, 11);
    assert Pow2(11) == 2048;
  }

  /** Every block begins below the worst size, although the head is aligned and blocks are padded. */
  lemma StartBelowWorst(p: Plan, image: seq<byte>, b: nat)
    requires PlanOk(p, image) && b < NumBlocks(p, image) && p.kind != Iso
    ensures Start(p, image, b) < WorstSize(p, image)
  {
    StartBound(p, image, b);
    BlockCountBounds(|image|, p.blockShift);
    BeforeEnd(|image|, b, p.blockShift);
    SmallAlign(IndexShift(p, image));
    hide Shl, IndexShift, Low, TrialsOk, BlockCount;
  }

  /** The index bound: block starts are aligned, increasing, and fit in 31 bits after the shift, so the
      position and the flag can be told apart. */
  lemma BlockStartFits(p: Plan, image: seq<byte>, b: nat)
    requires PlanOk(p, image) && b < NumBlocks(p, image) && p.kind != Iso
    ensures Start(p, image, b) < Start(p, image, b + 1)
    ensures Shr(Start(p, image, b), IndexShift(p, image)) < FLAG
    ensures Shl(Entry(p, image, b) % FLAG, IndexShift(p, image)) == Start(p, image, b)
    ensures Entry(p, image, b) >= FLAG <==> Flagged(p.kind, ChoiceFor(p, image, b).fmt)
  {
    hide Start, PlanOk, IndexShift, ChoiceFor, WorstSize, NumBlocks, Shl, Shr, Low, Stored, Pow2;
    var s, at := IndexShift(p, image), Start(p, image, b);
    BlockLength(p, image, b);
    StartAligned(p, image, b);
    StartBelowWorst(p, image, b);
    ShiftLeast(p, image);
    FitsBelow(at, s);
    UnshiftAligned(at, s);
  }

  lemma UnshiftAligned(x: nat, s: nat)
    requires Low(x, s) == 0
    ensures Shl(Shr(x, s), s) == x
  {
    Split(x, s);
  }

  lemma FitsBelow(x: nat, s: nat)
    requires x < Pow2(31 + s)
    ensures Shr(x, s) < FLAG
  {
    hide Shl, Shr, Low;
    Split(x, s);
    ShlPow2(31, s);
    ShlMono(Pow2(31), Shr(x, s), s);
    Pow31();
  }

  lemma Pow31()
    ensures Pow2(31) == FLAG && Pow2(32) == WORD
  {
    assert Pow2(10) == 1024;
    assert Pow2(20) == 1048576;
    assert Pow2(30) == 1073741824;
  }
}
