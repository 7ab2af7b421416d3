/** The file that a writer handling one block at a time would produce, and why the reader accepts it. */
module CsoWriter {
  import opened Sums
  import opened Bits
  import opened Blocks
  import opened Sectors
  import opened CsoFormat

  /** What a run writes. Iso stands for decompressing. trials are the compressed forms of a block, in the
      order in which Sector::Compress produces them. */
  datatype Plan = Plan(kind: Kind, blockShift: nat, costs: Costs, trials: seq<byte> -> seq<Trial>)

  /** The loop of SetFile: the highest bit of worst from i down tells how much must be shifted off. */
  function ShiftFrom(worst: nat, i: nat): (r: nat)
    ensures r <= if i < 31 then 0 else i - 30
  {
    if i < 31 then 0 else if worst >= Pow2(i) then i + 1 - 31 else ShiftFrom(worst, i - 1)
  }

  lemma {:induction false} ShiftFromLeast(worst: nat, i: nat)
    requires i >= 30 && worst < Pow2(i + 1)
    ensures var s := ShiftFrom(worst, i); worst < Pow2(31 + s) && (s > 0 ==> worst >= Pow2(30 + s))
    decreases i
  {
    if i > 30 && worst < Pow2(i) {
      ShiftFromLeast(worst, i - 1);
    }
  }

  /** DstFirstSectorPos. */
  function FirstPos(kind: Kind, blocks: nat): nat {
    if kind == Iso then 0 else HEADER_SIZE + (blocks + 1) * 4
  }

  function NumBlocks(p: Plan, image: seq<byte>): nat {
    BlockCount(|image|, p.blockShift)
  }

  function WorstSize(p: Plan, image: seq<byte>): nat {
    FirstPos(p.kind, NumBlocks(p, image)) + |image|
  }

  function IndexShift(p: Plan, image: seq<byte>): (r: nat)
    ensures r <= 32
  {
    if p.kind == Iso then 0 else ShiftFrom(WorstSize(p, image), 62)
  }

  predicate Allowed(kind: Kind, fmt: Format) {
    match kind
    case Iso => false
    case Cso1 => fmt == Deflate
    case Zso => fmt == Lz4
    case Cso2 => fmt != Orig
  }

  /** The trials are never empty, and of the formats the container supports. */
  ghost predicate TrialsOk(p: Plan) {
    forall block, i :: |block| == Pow2(p.blockShift) && 0 <= i < |p.trials(block)| ==>
      |p.trials(block)[i].bytes| > 0 && (p.kind != Iso ==> Allowed(p.kind, p.trials(block)[i].fmt)) && p.trials(block)[i].fmt != Orig
  }

  /** The demands on a run: whole sectors, a block size from 2048 to 0x40000, an index of less than 2^32
      bytes, and a shift that does not exceed the sector size. */
  ghost predicate PlanOk(p: Plan, image: seq<byte>) {
    && 11 <= p.blockShift <= 18 && TrialsOk(p)
    && |image| > 0 && |image| % SECTOR_SIZE == 0
    && WorstSize(p, image) < Pow2(63) && 4 * (NumBlocks(p, image) + 1) < WORD && IndexShift(p, image) <= 11
  }

  /** What a sector holding block b ends up with. */
  function ChoiceFor(p: Plan, image: seq<byte>, b: nat): (c: Choice)
    requires b < NumBlocks(p, image)
  {
    if p.kind == Iso then Uncompressed(Pow2(p.blockShift))
    else
      Finalize(Select(p.trials(BlockOf(image, p.blockShift, b)), Pow2(p.blockShift), p.costs), Pow2(p.blockShift), IndexShift(p, image))
  }

  function ChosenBytes(c: Choice, block: seq<byte>): (r: seq<byte>)
    ensures c.best == None ==> |r| == |block|
  {
    if c.best == None then block else c.best.value
  }

  /** The bytes written for block b at dst, without padding: when decompressing, the padding of the last
      block is cut off. */
  function Stored(p: Plan, image: seq<byte>, b: nat, dst: nat): (r: seq<byte>)
    requires b < NumBlocks(p, image)
  {
    var bytes := ChosenBytes(ChoiceFor(p, image, b), BlockOf(image, p.blockShift, b));
    if p.kind == Iso && dst + |bytes| > |image| >= dst then bytes[..|image| - dst] else bytes
  }

  /** The same with the padding to the next aligned position. */
  function Piece(p: Plan, image: seq<byte>, b: nat, dst: nat): (r: seq<byte>)
    requires b < NumBlocks(p, image)
    ensures |r| == AlignUp(dst + |Stored(p, image, b, dst)|, IndexShift(p, image)) - dst
  {
    PaddedOut(Stored(p, image, b, dst), dst, IndexShift(p, image))
  }

  function PaddedOut(bytes: seq<byte>, dst: nat, shift: nat): (r: seq<byte>)
    ensures |r| == AlignUp(dst + |bytes|, shift) - dst >= |bytes| && r[..|bytes|] == bytes
    ensures r == bytes + Zeros(|r| - |bytes|)
  {
    bytes + Zeros(AlignUp(dst + |bytes|, shift) - (dst + |bytes|))
  }

  /** Where block b begins in the file. */
  function Start(p: Plan, image: seq<byte>, b: nat): (r: nat)
    requires b <= NumBlocks(p, image)
    ensures r >= FirstPos(p.kind, NumBlocks(p, image))
  {
    if b == 0 then AlignUp(FirstPos(p.kind, NumBlocks(p, image)), IndexShift(p, image))
    else
      var dst := Start(p, image, b - 1);
      dst + |Piece(p, image, b - 1, dst)|
  }

  /** The data of the first b blocks. */
  function Body(p: Plan, image: seq<byte>, b: nat): (r: seq<byte>)
    requires b <= NumBlocks(p, image)
    ensures Start(p, image, 0) + |r| == Start(p, image, b)
    ensures b == 0 ==> r == []
  {
    if b == 0 then [] else Body(p, image, b - 1) + Piece(p, image, b - 1, Start(p, image, b - 1))
  }

  /** A shifted position as a 32 bit number. */
  function Word(pos: nat, shift: nat): (r: nat)
    ensures r < WORD
  {
    Shr(pos, shift) % WORD
  }

  function WithFlag(v: nat): nat {
    if v >= FLAG then v else v + FLAG
  }

  /** Whether UpdateIndex sets the high bit. */
  predicate Flagged(kind: Kind, fmt: Format) {
    if kind == Cso2 then fmt == Lz4 else fmt == Orig
  }

  /** The index entry of block b; the last one has only the end position. */
  function Entry(p: Plan, image: seq<byte>, b: nat): (r: nat)
    requires b <= NumBlocks(p, image)
  {
    var v := Word(Start(p, image, b), IndexShift(p, image));
    if b < NumBlocks(p, image) && Flagged(p.kind, ChoiceFor(p, image, b).fmt) then WithFlag(v) else v
  }

  function Index(p: Plan, image: seq<byte>): (r: seq<nat>)
    ensures |r| == NumBlocks(p, image) + 1
    ensures forall b :: 0 <= b < |r| ==> r[b] == Entry(p, image, b)
  {
    seq(NumBlocks(p, image) + 1, b requires 0 <= b <= NumBlocks(p, image) => Entry(p, image, b))
  }

  /** Header and index; nothing when decompressing. */
  function Head(p: Plan, image: seq<byte>): (r: seq<byte>)
    ensures |r| == FirstPos(p.kind, NumBlocks(p, image))
  {
    if p.kind == Iso then [] else Header(p.kind, |image|, p.blockShift, IndexShift(p, image)) + Words(Index(p, image))
  }

  /** The file after the first b blocks, with or without its head. */
  function FileAt(p: Plan, image: seq<byte>, b: nat, head: bool): (r: seq<byte>)
    requires b <= NumBlocks(p, image)
  {
    Assemble(Head(p, image), Start(p, image, 0), Body(p, image, b), b > 0, head)
  }

  /** The head at 0 if it is written, and the body at dst if any of it is. */
  function Assemble(h: seq<byte>, dst: nat, body: seq<byte>, begun: bool, head: bool): (r: seq<byte>)
    requires |h| <= dst
  {
    if !begun then (if head then h else [])
    else (if head then h else Zeros(|h|)) + Zeros(dst - |h|) + body
  }

  function FinalFile(p: Plan, image: seq<byte>): (r: seq<byte>) {
    FileAt(p, image, NumBlocks(p, image), true)
  }

  lemma HeadDone(p: Plan, image: seq<byte>, b: nat)
    requires b <= NumBlocks(p, image)
    ensures Overwrite(FileAt(p, image, b, false), 0, Head(p, image)) == FileAt(p, image, b, true)
  {
    hide Head, Body, Start, FirstPos, Assemble, NumBlocks;
    AssembleHead(Head(p, image), Start(p, image, 0), Body(p, image, b), b > 0);
  }

  lemma AssembleHead(h: seq<byte>, dst: nat, body: seq<byte>, begun: bool)
    requires |h| <= dst
    ensures Overwrite(Assemble(h, dst, body, begun, false), 0, h) == Assemble(h, dst, body, begun, true)
  {
  }

  /** Appending the pieces from block b to block c. */
  lemma BodyDone(p: Plan, image: seq<byte>, b: nat, c: nat, head: bool, bytes: seq<byte>)
    requires b <= c <= NumBlocks(p, image) && c > 0
    requires Body(p, image, c) == Body(p, image, b) + bytes
    ensures Overwrite(FileAt(p, image, b, head), Start(p, image, b), bytes) == FileAt(p, image, c, head)
  {
    hide Head, Body, Start, FirstPos, Assemble, NumBlocks;
    AssembleMore(Head(p, image), Start(p, image, 0), Body(p, image, b), b > 0, head, bytes);
  }

  lemma AssembleMore(h: seq<byte>, dst: nat, body: seq<byte>, begun: bool, head: bool, bytes: seq<byte>)
    requires |h| <= dst && (!begun ==> body == [])
    ensures Overwrite(Assemble(h, dst, body, begun, head), dst + |body|, bytes) == Assemble(h, dst, body + bytes, true, head)
  {
    var f := Assemble(h, dst, body, begun, head);
    OverwriteEnd(f, dst + |body|, bytes);
    hide Overwrite;
    if !begun {
      ZerosJoin(|h|, dst - |h|);
    } else {
      assert Zeros(0) == [];
    }
  }

  lemma OverwriteEnd(f: seq<byte>, at: nat, bytes: seq<byte>)
    requires |f| <= at
    ensures Overwrite(f, at, bytes) == f + Zeros(at - |f|) + bytes
  {
  }

  lemma ZerosJoin(a: nat, b: nat)
    ensures Zeros(a) + Zeros(b) == Zeros(a + b)
  {
  }
}
