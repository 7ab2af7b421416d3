/** sector.cpp: gathering sectors into a block and choosing among the compressed trials. */
module Sectors {
  import opened Sums
  import opened Bits
  import opened Blocks

  datatype Format = Orig | Deflate | Lz4
  datatype Trial = Trial(fmt: Format, bytes: seq<byte>)
  /** The extra bytes a block may cost to stay uncompressed, and to use LZ4 instead of deflate. */
  datatype Costs = Costs(orig: nat, lz4: nat)
  /** best_, bestSize_ and bestFmt_. */
  datatype Choice = Choice(best: Option<seq<byte>>, size: nat, fmt: Format)

  function Better(c: Choice, size: nat, fmt: Format, costs: Costs): bool {
    if fmt == Lz4 && c.fmt == Deflate then size <= c.size + costs.lz4
    else if fmt == Deflate && c.fmt == Lz4 then size + costs.lz4 < c.size
    else size + costs.orig < c.size
  }

  function Uncompressed(blockSize: nat): Choice {
    Choice(None, blockSize, Orig)
  }

  /** The choice after the trials, in their order. */
  function Select(trials: seq<Trial>, blockSize: nat, costs: Costs): (c: Choice) {
    if trials == [] then Uncompressed(blockSize)
    else
      var n := |trials| - 1;
      var c := Select(trials[..n], blockSize, costs);
      var t := trials[n];
      if Better(c, |t.bytes|, t.fmt, costs) then Choice(Some(t.bytes), |t.bytes|, t.fmt) else c
  }

  /** FinalizeBest: a choice that saves nothing after alignment is dropped. */
  function Finalize(c: Choice, blockSize: nat, shift: nat): (r: Choice) {
    if AlignUp(c.size, shift) >= blockSize && c.best.Some? then Uncompressed(blockSize) else c
  }

  predicate AllCompressed(trials: seq<Trial>) {
    forall i :: 0 <= i < |trials| ==> trials[i].fmt != Orig
  }

  /** The choice is the uncompressed block or one of the trials. */
  lemma {:induction false} SelectFrom(trials: seq<Trial>, blockSize: nat, costs: Costs)
    requires AllCompressed(trials)
    ensures var c := Select(trials, blockSize, costs);
      c == Uncompressed(blockSize) ||
      exists i :: 0 <= i < |trials| && c == Choice(Some(trials[i].bytes), |trials[i].bytes|, trials[i].fmt)
  {
    if trials != [] {
      var n := |trials| - 1;
      SelectFrom(trials[..n], blockSize, costs);
    }
  }

  /** What the size may still grow to: one change from deflate to LZ4. */
  function Potential(c: Choice, costs: Costs): nat {
    if c.fmt == Deflate then c.size + costs.lz4 else c.size
  }

  lemma {:induction false} SelectPotential(trials: seq<Trial>, blockSize: nat, costs: Costs, i: nat)
    requires AllCompressed(trials) && i < |trials|
    ensures var c := Select(trials, blockSize, costs);
      if c.fmt == Orig then c.size == blockSize <= |trials[i].bytes| + costs.orig
      else Potential(c, costs) <= |trials[i].bytes| + costs.orig + costs.lz4
  {
    var n := |trials| - 1;
    SelectFrom(trials[..n], blockSize, costs);
    if i < n {
      SelectPotential(trials[..n], blockSize, costs, i);
    }
  }

  /** Whatever the order of the trials, the chosen size exceeds no trial's by more than the two costs. */
  lemma SelectBound(trials: seq<Trial>, blockSize: nat, costs: Costs, i: nat)
    requires AllCompressed(trials) && i < |trials|
    ensures Select(trials, blockSize, costs).size <= |trials[i].bytes| + costs.orig + costs.lz4
  {
    SelectPotential(trials, blockSize, costs, i);
  }

  /** Without costs, the choice is the smallest of the trials and the block itself. */
  lemma {:induction false} SelectSmallest(trials: seq<Trial>, blockSize: nat)
    requires AllCompressed(trials)
    ensures Select(trials, blockSize, Costs(0, 0)).size <= blockSize
    ensures forall i :: 0 <= i < |trials| ==> Select(trials, blockSize, Costs(0, 0)).size <= |trials[i].bytes|
  {
    if trials != [] {
      SelectSmallest(trials[..|trials| - 1], blockSize);
    }
    forall i | 0 <= i < |trials|
      ensures Select(trials, blockSize, Costs(0, 0)).size <= |trials[i].bytes|
    {
      SelectBound(trials, blockSize, Costs(0, 0), i);
    }
  }

  /** The aligned size tells whether the block is compressed. */
  lemma FinalizeRecovers(trials: seq<Trial>, k: nat, costs: Costs, shift: nat)
    requires AllCompressed(trials) && shift <= k
    ensures var c := Finalize(Select(trials, Pow2(k), costs), Pow2(k), shift);
      && (c.fmt == Orig <==> c.best.None?)
      && (c.fmt == Orig <==> AlignUp(c.size, shift) >= Pow2(k))
      && (c.fmt == Orig ==> c == Uncompressed(Pow2(k)) && AlignUp(c.size, shift) == Pow2(k))
      && (c.fmt != Orig ==> exists i :: 0 <= i < |trials| && c == Choice(Some(trials[i].bytes), |trials[i].bytes|, trials[i].fmt))
  {
    SelectFrom(trials, Pow2(k), costs);
    PowAligned(k, shift);
  }

  /** A choice is kept exactly if it still saves space after alignment. */
  lemma FinalizeKeeps(trials: seq<Trial>, k: nat, costs: Costs, shift: nat)
    requires AllCompressed(trials)
    ensures var s, c := Select(trials, Pow2(k), costs), Finalize(Select(trials, Pow2(k), costs), Pow2(k), shift);
      && (s.fmt != Orig ==> (c == s <==> AlignUp(s.size, shift) < Pow2(k)))
      && (s.fmt == Orig || AlignUp(s.size, shift) >= Pow2(k) ==> c == Choice(None, Pow2(k), Orig))
  {
    hide AlignUp;
    SelectFrom(trials, Pow2(k), costs);
  }

  /** Without costs, the choice takes the least space that any trial or the block itself would take. */
  lemma FinalSmallest(trials: seq<Trial>, k: nat, shift: nat)
    requires AllCompressed(trials) && shift <= k
    ensures var c := Finalize(Select(trials, Pow2(k), Costs(0, 0)), Pow2(k), shift);
      && AlignUp(c.size, shift) <= Pow2(k)
      && (forall i :: 0 <= i < |trials| ==> AlignUp(c.size, shift) <= AlignUp(|trials[i].bytes|, shift))
      && (c.fmt == Orig ==> c.size == Pow2(k))
      && (c.fmt != Orig ==> exists i :: 0 <= i < |trials| && c == Choice(Some(trials[i].bytes), |trials[i].bytes|, trials[i].fmt))
  {
    hide AlignUp, Select;
    var s := Select(trials, Pow2(k), Costs(0, 0));
    SelectFrom(trials, Pow2(k), Costs(0, 0));
    SelectSmallest(trials, Pow2(k));
    PowAligned(k, shift);
    AlignUpMono(s.size, Pow2(k), shift);
    forall i | 0 <= i < |trials|
      ensures AlignUp(s.size, shift) <= AlignUp(|trials[i].bytes|, shift)
    {
      AlignUpMono(s.size, |trials[i].bytes|, shift);
    }
  }

  lemma AlignUpMono(a: nat, b: nat, shift: nat)
    requires a <= b
    ensures AlignUp(a, shift) <= AlignUp(b, shift)
  {
    hide AlignUp;
    AlignUpLeast(a, shift);
    AlignUpLeast(b, shift);
  }

  lemma PowAligned(k: nat, shift: nat)
    requires shift <= k
    ensures Low(Pow2(k), shift) == 0 && AlignUp(Pow2(k), shift) == Pow2(k)
  {
    ShlPow2(k - shift, shift);
    Join(Pow2(k - shift), 0, shift);
  }

  /** How the sectors of a run are set up. */
  datatype Setup = Setup(blockShift: nat, indexShift: nat, costs: Costs)

  /** The fields of a Sector. */
  datatype SectorView = SectorView(busy: bool, enqueued: bool, compress: bool, readySize: nat, pos: nat, buffer: seq<byte>, choice: Choice)

  datatype Progress = Failed | Waiting | Queued | Done

  /** Process, on the fields. */
  function Gathered(v: SectorView, pos: nat, data: seq<byte>, k: nat): (r: SectorView)
    requires v.busy ==> v.pos <= pos
  {
    Split(pos, k);
    var start := if v.busy then v.pos else pos - Low(pos, k);
    SectorView(true, v.enqueued, v.compress, v.readySize + SECTOR_SIZE, start, Overwrite(v.buffer, pos - start, data),
         if v.busy then v.choice else Choice(v.choice.best, Pow2(k), Orig))
  }

  class Sector {
    const setup: Setup
    var busy: bool
    var enqueued: bool
    var compress: bool
    var readySize: nat
    var pos: nat
    var buffer: seq<byte>
    var best: Option<seq<byte>>
    var bestSize: nat
    var bestFmt: Format

    constructor (setup: Setup)
      ensures this.setup == setup && IsIdle(View())
    {
      this.setup := setup;
      busy, enqueued, compress, readySize, pos, buffer := false, false, true, 0, 0, [];
      best, bestSize, bestFmt := None, 0, Orig;
    }

    ghost function View(): (v: SectorView)
      reads this
    {
      SectorView(busy, enqueued, compress, readySize, pos, buffer, Choice(best, bestSize, bestFmt))
    }

    /** Takes over one sector; queues the compression when the block is complete. */
    method Process(pos: nat, data: seq<byte>, bufferSize: nat) returns (r: Progress)
      requires |data| == SECTOR_SIZE
      modifies this
      ensures old(busy && (pos < this.pos || pos - this.pos >= bufferSize)) ==> r == Failed && View() == old(View())
      ensures !old(busy && (pos < this.pos || pos - this.pos >= bufferSize)) ==>
        var v := old(Gathered(View(), pos, data, setup.blockShift));
        && r == (if v.readySize < Pow2(setup.blockShift) then Waiting else if v.enqueued then Failed else if v.compress then Queued else Done)
        && View() == v.(enqueued := v.enqueued || r == Queued)
    {
      var blockSize := Pow2(setup.blockShift);
      if !busy {
        Split(pos, setup.blockShift);
        busy := true;
        this.pos := pos - Low(pos, setup.blockShift);
        bestSize, bestFmt := blockSize, Orig;
        buffer := Overwrite(buffer, pos - this.pos, data);
      } else if this.pos <= pos && pos - this.pos < bufferSize {
        buffer := Overwrite(buffer, pos - this.pos, data);
      } else {
        return Failed;
      }
      readySize := readySize + SECTOR_SIZE;
      if readySize < blockSize {
        return Waiting;
      }
      if enqueued {
        return Failed;
      }
      if compress {
        enqueued := true;
        return Queued;
      }
      return Done;
    }

    /** Keeps the trial if it is better than the best one so far. */
    method SubmitTrial(result: seq<byte>, fmt: Format) returns (better: bool)
      requires fmt != Orig
      modifies this`best, this`bestSize, this`bestFmt
      ensures better == old(Better(Choice(best, bestSize, bestFmt), |result|, fmt, setup.costs))
      ensures Choice(best, bestSize, bestFmt) ==
        if better then Choice(Some(result), |result|, fmt) else old(Choice(best, bestSize, bestFmt))
      ensures fmt == Lz4 && old(bestFmt) == Deflate ==> (better <==> |result| <= old(bestSize) + setup.costs.lz4)
      ensures fmt == Deflate && old(bestFmt) == Lz4 ==> (better <==> |result| + setup.costs.lz4 < old(bestSize))
      ensures fmt == old(bestFmt) || old(bestFmt) == Orig ==> (better <==> |result| + setup.costs.orig < old(bestSize))
    {
      var size := |result|;
      better := size + setup.costs.orig < bestSize;
      if fmt == Lz4 && bestFmt == Deflate {
        better := size <= bestSize + setup.costs.lz4;
      } else if fmt == Deflate && bestFmt == Lz4 {
        better := size + setup.costs.lz4 < bestSize;
      }
      if better {
        bestSize := size;
        best := Some(result);
        bestFmt := fmt;
      }
    }

    /** The worker's job: all trials, then FinalizeBest. */
    method CompressAndFinalize(trials: seq<Trial>)
      requires AllCompressed(trials) && View().choice == Uncompressed(Pow2(setup.blockShift))
      modifies this`best, this`bestSize, this`bestFmt
      ensures View().choice == Finalize(Select(trials, Pow2(setup.blockShift), setup.costs), Pow2(setup.blockShift), setup.indexShift)
      ensures var s := Select(trials, Pow2(setup.blockShift), setup.costs);
        if s.fmt != Orig && AlignUp(s.size, setup.indexShift) < Pow2(setup.blockShift)
        then best == s.best && bestSize == s.size && bestFmt == s.fmt
        else best == None && bestSize == Pow2(setup.blockShift) && bestFmt == Orig
    {
      var blockSize := Pow2(setup.blockShift);
      for i := 0 to |trials|
        invariant View().choice == Select(trials[..i], blockSize, setup.costs)
      {
        var _ := SubmitTrial(trials[i].bytes, trials[i].fmt);
        assert trials[..i + 1][..i] == trials[..i];
      }
      assert trials[..|trials|] == trials;
      SelectFrom(trials, blockSize, setup.costs);
      if AlignUp(bestSize, setup.indexShift) >= blockSize && best != None {
        best, bestSize, bestFmt := None, blockSize, Orig;
      }
    }

    method DisableCompress()
      modifies this`compress
      ensures !compress
    {
      compress := false;
    }

    method Release()
      modifies this
      ensures View() == old(View()).(busy := false, enqueued := false, compress := true, readySize := 0, choice := View().choice)
      ensures best == None
    {
      best := None;
      busy := false;
      enqueued := false;
      compress := true;
      readySize := 0;
    }

    /** BestBuffer, as far as it is written out. */
    function BestBytes(): (r: seq<byte>)
      reads this
      requires best == None ==> bestSize <= |buffer|
      requires best.Some? ==> bestSize <= |best.value|
      ensures |r| == bestSize
    {
      match best
      case None => buffer[..bestSize]
      case Some(bytes) => bytes[..bestSize]
    }
  }

  /** A sector that is not in use. */
  ghost predicate IsIdle(v: SectorView) {
    !v.busy && !v.enqueued && v.compress && v.readySize == 0 && v.choice.best == None
  }
}
