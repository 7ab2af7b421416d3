/** output.cpp: blocks are written in source order, in whatever order the compression jobs finish. */
module Outputs {
  import opened Sums
  import opened Bits
  import opened Blocks
  import opened Sectors
  import opened CsoFormat
  import opened CsoWriter
  import opened IndexBound
  import opened ContainerRoundTrip
  import opened ContainerLimits
  import opened Lanes

  const MAX_BUFS: nat := 16

  /** A data write handed to the event loop. */
  datatype WriteReq = WriteReq(sectors: seq<Sector>, nextPos: nat, at: nat, bytes: seq<byte>)

  ghost function BatchSize(write: Option<WriteReq>): nat {
    if write.Some? then |write.value.sectors| else 0
  }

  /** The first lanes are in this batch. */
  ghost predicate Batch(sectors: seq<Sector>, lanes: seq<Lane>) {
    |sectors| <= |lanes| && forall i :: 0 <= i < |sectors| ==> sectors[i] == lanes[i].sector
  }

  /** At most one data write is outstanding, of the blocks from the first unwritten one on. */
  ghost predicate WriteOk(write: Option<WriteReq>, lanes: seq<Lane>, p: Plan, image: seq<byte>, first: nat) {
    && WritingOk(lanes, BatchSize(write))
    && (write.Some? ==> Batch(write.value.sectors, lanes) && Offers(write.value, p, image, first))
  }

  /** The bytes of the blocks from `first` on. */
  ghost predicate Offers(r: WriteReq, p: Plan, image: seq<byte>, first: nat) {
    var next := first + |r.sectors|;
    && 1 <= |r.sectors| <= MAX_BUFS && next <= NumBlocks(p, image)
    && r.nextPos == Shl(next, p.blockShift) && r.at == Start(p, image, first)
    && Body(p, image, next) == Body(p, image, first) + r.bytes
  }

  /** The queue, the map of partial sectors, the jobs and the data write agree with the lanes. */
  ghost predicate Books(pending: map<nat, Sector>, partials: map<nat, Sector>, jobs: set<Sector>, write: Option<WriteReq>, lanes: seq<Lane>,
                        p: Plan, image: seq<byte>, first: nat, out: set<nat>)
  {
    && PendingOk(pending, lanes, first, p.blockShift, out) && PartialsOk(partials, lanes, first, p.blockShift)
    && JobsOk(jobs, lanes) && WriteOk(write, lanes, p, image, first)
  }

  /** The last lane, until now partial, enters another stage. */
  lemma FeedKeepsBooks(pending: map<nat, Sector>, partials: map<nat, Sector>, jobs: set<Sector>, write: Option<WriteReq>, lanes: seq<Lane>, free: seq<Sector>,
                       p: Plan, image: seq<byte>, first: nat, n: nat, stage: Stage)
    requires Books(pending, partials, jobs, write, lanes, p, image, first, {}) && Distinct(lanes, free)
    requires n < |lanes| && lanes[n].stage == Partial && stage != Writing
    ensures Books(pending, if stage == Ready then partials - {first + n} else partials, if stage == Compressing then jobs + {lanes[n].sector} else jobs,
                  write, lanes[n := Lane(lanes[n].sector, stage)], p, image, first, if stage == Ready then {n} else {})
    ensures p.blockShift == 11 ==> partials - {first + n} == partials
  {
    hide PendingOk, PartialsOk, JobsOk, WriteOk, Distinct;
    StageKeepsPending(pending, lanes, first, p.blockShift, {}, n, stage);
    StageKeepsPartials(partials, lanes, first, p.blockShift, n, stage);
    StageKeepsJobs(jobs, lanes, free, n, stage);
    StageKeepsWriting(write, lanes, p, image, first, n, stage);
    assert {} + {n} == {n};
  }

  /** The index entries of all blocks that have been handed to a write. */
  ghost predicate IndexOk(index: seq<nat>, p: Plan, image: seq<byte>, launched: nat) {
    && |index| == NumBlocks(p, image) + 1
    && forall b :: 0 <= b <= NumBlocks(p, image) && (b < launched || launched == NumBlocks(p, image)) ==> index[b] == Entry(p, image, b)
  }

  /** How far the result has come: `first` blocks are written, `launched` are written or being written. */
  ghost predicate StateOk(indexReady: bool, indexWritten: bool, dataWritten: bool, flush: Option<seq<byte>>, successes: nat,
                          p: Plan, image: seq<byte>, first: nat, launched: nat)
  {
    && (indexReady <==> launched == NumBlocks(p, image)) && (dataWritten ==> first == NumBlocks(p, image))
    && (indexWritten ==> indexReady) && (flush.Some? <==> indexReady && !indexWritten)
    && (flush.Some? ==> flush.value == Head(p, image))
    && successes == if indexWritten && dataWritten then 1 else 0
  }

  ghost function UpTo(n: nat): (r: set<nat>)
    ensures forall i :: i in r <==> 0 <= i < n
  {
    if n == 0 then {} else UpTo(n - 1) + {n - 1}
  }

  lemma LanesWithin(lanes: seq<Lane>, free: seq<Sector>, views: map<Sector, SectorView>, p: Plan, image: seq<byte>, first: nat, received: nat)
    requires PoolOk(lanes, free, views, p, image, first, received)
    ensures first + |lanes| <= NumBlocks(p, image)
  {
    hide Shl, LanesHold, FreeIdle, Distinct;
    var n := NumBlocks(p, image);
    BlockCountBounds(received, p.blockShift);
    assert !(Shl(n, p.blockShift) < received);
  }

  /** What a ready sector offers to the writer. */
  lemma ReadyOffers(v: SectorView, p: Plan, image: seq<byte>, b: nat, received: nat)
    requires PlanOk(p, image) && Holds(v, Ready, p, image, b, received)
    ensures Shr(v.pos, p.blockShift) == b && v.choice == ChoiceFor(p, image, b) && v.choice.size > 0
    ensures v.choice.fmt == Orig || Allowed(p.kind, v.choice.fmt)
    ensures v.choice.best == None ==> v.choice.size <= |v.buffer| && v.buffer[..v.choice.size] == ChosenBytes(v.choice, BlockOf(image, p.blockShift, b))
    ensures v.choice.best.Some? ==> v.choice.size == |v.choice.best.value| && v.choice.best.value == ChosenBytes(v.choice, BlockOf(image, p.blockShift, b))
  {
    hide Shl, Shr, Low, PlanOk, BlockOf, Start, Stored;
    Join(b, 0, p.blockShift);
    if p.kind != Iso {
      ChoiceFacts(p, image, b);
      AllowedChoice(p, image, b);
      OrigHasNoBest(p, image, b);
    }
  }

  lemma OrigHasNoBest(p: Plan, image: seq<byte>, b: nat)
    requires PlanOk(p, image) && b < NumBlocks(p, image) && p.kind != Iso
    ensures ChoiceFor(p, image, b).best == None ==> ChoiceFor(p, image, b).size == Pow2(p.blockShift)
  {
    hide BlockOf, AlignUp, Select, Finalize, Pow2;
    var block := BlockOf(image, p.blockShift, b);
    assert AllCompressed(p.trials(block));
    FinalizeRecovers(p.trials(block), p.blockShift, p.costs, IndexShift(p, image));
  }

  /** The sectors of the first lanes, all ready, are collected and no longer queued. */
  ghost predicate Collected(sectors: seq<Sector>, pending: map<nat, Sector>, lanes: seq<Lane>, first: nat, k: nat) {
    && Batch(sectors, lanes) && PendingOk(pending, lanes, first, k, UpTo(|sectors|))
    && forall i :: 0 <= i < |sectors| ==> lanes[i].stage == Ready
  }

  lemma CollectStart(pending: map<nat, Sector>, lanes: seq<Lane>, first: nat, k: nat, s: Sector)
    requires PendingOk(pending, lanes, first, k, {0}) && |lanes| > 0 && lanes[0] == Lane(s, Ready)
    ensures Collected([s], pending, lanes, first, k)
  {
    hide PendingOk;
    assert UpTo(1) == {0};
  }

  lemma CollectStep(sectors: seq<Sector>, pending: map<nat, Sector>, lanes: seq<Lane>, first: nat, k: nat)
    requires Collected(sectors, pending, lanes, first, k) && Shl(first + |sectors|, k) in pending
    ensures var pos := Shl(first + |sectors|, k); Collected(sectors + [pending[pos]], pending - {pos}, lanes, first, k)
  {
    hide PendingOk, Shl;
    var n := |sectors|;
    PendingAhead(pending, lanes, first, k, UpTo(n), first + n);
    TakePending(pending, lanes, first, k, UpTo(n), n);
    assert UpTo(n) + {n} == UpTo(n + 1);
  }

  ghost predicate SameSectors(a: seq<Lane>, b: seq<Lane>) {
    |a| == |b| && forall i :: 0 <= i < |a| ==> a[i].sector == b[i].sector
  }

  /** The first n lanes are being written from now on. */
  ghost function Mark(lanes: seq<Lane>, n: nat): (r: seq<Lane>)
    requires n <= |lanes|
    ensures |r| == |lanes| && forall i :: 0 <= i < |r| ==> r[i] == if i < n then Lane(lanes[i].sector, Writing) else lanes[i]
  {
    seq(|lanes|, i requires 0 <= i < |lanes| => if i < n then Lane(lanes[i].sector, Writing) else lanes[i])
  }

  lemma MarkKeepsPool(lanes: seq<Lane>, free: seq<Sector>, views: map<Sector, SectorView>, p: Plan, image: seq<byte>, first: nat, received: nat, n: nat)
    requires PoolOk(lanes, free, views, p, image, first, received) && n <= |lanes|
    requires forall i :: 0 <= i < n ==> lanes[i].stage == Ready
    ensures PoolOk(Mark(lanes, n), free, views, p, image, first, received)
  {
    hide Mark, Shl, BlockCount, NumBlocks, IsIdle, BlockOf, ChoiceFor;
    var lanes' := Mark(lanes, n);
    forall i | 0 <= i < |lanes'|
      ensures lanes'[i].sector in views && Holds(views[lanes'[i].sector], lanes'[i].stage, p, image, first + i, received)
    {
      assert Holds(views[lanes[i].sector], lanes[i].stage, p, image, first + i, received);
    }
  }

  lemma MarkKeepsMaps(sectors: seq<Sector>, pending: map<nat, Sector>, partials: map<nat, Sector>, jobs: set<Sector>, lanes: seq<Lane>, first: nat, k: nat)
    requires Collected(sectors, pending, lanes, first, k) && PartialsOk(partials, lanes, first, k) && JobsOk(jobs, lanes)
    ensures var lanes' := Mark(lanes, |sectors|);
      && PendingOk(pending, lanes', first, k, {}) && PartialsOk(partials, lanes', first, k) && JobsOk(jobs, lanes')
      && Batch(sectors, lanes') && (WritingOk(lanes, 0) ==> WritingOk(lanes', |sectors|))
  {
    hide Mark, Shl;
    var lanes' := Mark(lanes, |sectors|);
    forall pos | pos in pending
      ensures exists i :: 0 <= i < |lanes'| && pos == Shl(first + i, k) && lanes'[i].stage == Ready && i !in {}
    {
      var i :| 0 <= i < |lanes| && pos == Shl(first + i, k) && lanes[i].stage == Ready && i !in UpTo(|sectors|);
      assert lanes'[i] == lanes[i] && i !in {};
    }
    forall s | s in jobs
      ensures exists i :: 0 <= i < |lanes'| && lanes'[i] == Lane(s, Compressing)
    {
      var i :| 0 <= i < |lanes| && lanes[i] == Lane(s, Compressing);
      assert lanes'[i] == lanes[i];
    }
  }

  /** Without a header, the flag that it is written changes nothing. */
  lemma IsoHead(p: Plan, image: seq<byte>, b: nat)
    requires p.kind == Iso && b <= NumBlocks(p, image)
    ensures FileAt(p, image, b, true) == FileAt(p, image, b, false)
  {
    hide Start, Body, NumBlocks;
    assert Zeros(0) == [];
  }

  /** With the last block and the end position, the index is complete. */
  lemma IndexComplete(index: seq<nat>, p: Plan, image: seq<byte>)
    requires |index| == NumBlocks(p, image) + 1
    requires forall b :: 0 <= b < NumBlocks(p, image) ==> index[b] == Entry(p, image, b)
    requires index[NumBlocks(p, image)] == Word(Start(p, image, NumBlocks(p, image)), IndexShift(p, image))
    ensures index == Index(p, image) && IndexOk(index, p, image, NumBlocks(p, image))
    ensures p.kind != Iso ==> Header(p.kind, |image|, p.blockShift, IndexShift(p, image)) + Words(index) == Head(p, image)
  {
    LastEntry(p, image);
    hide Start, NumBlocks, Entry, Word, Words, Header, IndexShift;
  }

  class Output {
    const plan: Plan
    const srcSize: nat
    const indexShift: nat
    ghost const image: seq<byte>
    var srcPos: nat
    var dstPos: nat
    var index: seq<nat>
    var indexReady: bool
    var indexWritten: bool
    var dataWritten: bool
    var freeSectors: seq<Sector>
    var pendingSectors: map<nat, Sector>
    var partialSectors: map<nat, Sector>
    /** How often success and failure were reported. */
    var successes: nat
    var failures: nat
    /** What the event loop has to do: compression jobs, a data write, the write of header and index. */
    var jobs: set<Sector>
    var write: Option<WriteReq>
    var flush: Option<seq<byte>>
    /** The file on disk. */
    var file: seq<byte>
    ghost var first: nat
    ghost var received: nat
    ghost var lanes: seq<Lane>
    ghost var views: map<Sector, SectorView>

    ghost predicate Tied()
      reads this, views.Keys
    {
      && PlanOk(plan, image) && srcSize == |image| && indexShift == IndexShift(plan, image)
      && forall s :: s in views ==> s.View() == views[s] && s.setup == SetupFor(plan, image)
    }

    ghost predicate Positions()
      reads this
    {
      && first <= NumBlocks(plan, image) && failures == 0
      && srcPos == Shl(first, plan.blockShift) && dstPos == Start(plan, image, first)
      && file == FileAt(plan, image, first, indexWritten)
    }

    /** Everything holds, except that the ready lanes in out are not queued. */
    ghost predicate Inv(out: set<nat>)
      reads this, views.Keys
    {
      Rest(out) && PoolOk(lanes, freeSectors, views, plan, image, first, received)
    }

    /** The same, not counting the sectors. */
    ghost predicate Rest(out: set<nat>)
      reads this, views.Keys
    {
      && Tied() && Positions()
      && Books(pendingSectors, partialSectors, jobs, write, lanes, plan, image, first, out)
      && IndexOk(index, plan, image, first + BatchSize(write))
      && StateOk(indexReady, indexWritten, dataWritten, flush, successes, plan, image, first, first + BatchSize(write))
    }

    /** The next block to be written is not waiting for anything but its own job or write. */
    ghost predicate HeadBusy()
      reads this
    {
      |lanes| > 0 ==> lanes[0].stage != Ready
    }

    /** The constructor and SetFile: the shift is chosen for the worst case, and the first block comes after
        header and index. */
    constructor (plan: Plan, ghost image: seq<byte>, srcSize: nat, sectors: seq<Sector>)
      requires PlanOk(plan, image) && srcSize == |image|
      requires |sectors| == QUEUE_SIZE && forall i, j :: 0 <= i < j < |sectors| ==> sectors[i] != sectors[j]
      requires forall i :: 0 <= i < |sectors| ==> IsIdle(sectors[i].View()) && sectors[i].setup == SetupFor(plan, image)
      ensures Inv({}) && HeadBusy() && this.plan == plan && this.image == image && first == 0 && received == 0 && !dataWritten
      ensures this.srcSize == srcSize && views.Keys == (set s | s in sectors) && freeSectors == sectors && jobs == {} && write == None
    {
      hide PlanOk, BlockCount, Shl, FileAt, Start, SetupFor, Sector.View, PoolOk, Books, IndexOk, StateOk, IndexShift, IsIdle, AlignUp, ShiftFrom;
      this.plan, this.image, this.srcSize := plan, image, srcSize;
      var n := BlockCount(srcSize, plan.blockShift);
      var pos := FirstPos(plan.kind, n);
      var shift := PickShift(plan.kind, pos + srcSize);
      indexShift := shift;
      srcPos, dstPos := 0, AlignUp(pos, shift);
      index := seq(n + 1, _ => 0);
      indexReady, indexWritten, dataWritten := false, false, false;
      freeSectors, pendingSectors, partialSectors := sectors, map[], map[];
      successes, failures, jobs, write, flush, file := 0, 0, {}, None, None, [];
      first, received, lanes := 0, 0, [];
      views := map s | s in sectors :: s.View();
      new;
      StartsEmpty(plan, image, sectors, views);
      StartsUnwritten(plan, image, index);
    }

    method UpdateIndex(block: nat, dst: nat, fmt: Format) returns (ok: bool)
      requires block < |index|
      modifies this`index, this`failures
      ensures ok == (plan.kind == Iso || fmt == Orig || Allowed(plan.kind, fmt))
      ensures ok ==> failures == old(failures)
      ensures ok ==> index == old(index)[block := if Flagged(plan.kind, fmt) then WithFlag(Word(dst, indexShift)) else Word(dst, indexShift)]
    {
      var v := Word(dst, indexShift);
      if fmt == Orig && plan.kind != Cso2 {
        v := WithFlag(v);
      }
      match plan.kind {
        case Cso1 =>
          if fmt == Lz4 {
            failures := failures + 1;
            return false;
          }
        case Zso =>
          if fmt == Deflate {
            failures := failures + 1;
            return false;
          }
        case Cso2 =>
          if fmt == Lz4 {
            v := WithFlag(v);
          }
        case Iso =>
      }
      index := index[block := v];
      return true;
    }

    /** Takes the sectors that follow the first one out of the queue, at most MAX_BUFS in all. */
    method CollectBatch(sector: Sector) returns (sectors: seq<Sector>, nextPos: nat)
      requires srcPos == Shl(first, plan.blockShift) && PendingOk(pendingSectors, lanes, first, plan.blockShift, {0})
      requires |lanes| > 0 && lanes[0] == Lane(sector, Ready)
      modifies this`pendingSectors
      ensures 1 <= |sectors| <= 16 && nextPos == Shl(first + |sectors|, plan.blockShift)
      ensures |sectors| < 16 ==> nextPos !in pendingSectors
      ensures Collected(sectors, pendingSectors, lanes, first, plan.blockShift)
    {
      hide Shl, Pow2, PendingOk, Collected;
      NextBlock(first, plan.blockShift);
      CollectStart(pendingSectors, lanes, first, plan.blockShift, sector);
      sectors := [sector];
      nextPos := srcPos + Pow2(plan.blockShift);
      var more := nextPos in pendingSectors;
      while more
        invariant 1 <= |sectors| <= MAX_BUFS && nextPos == Shl(first + |sectors|, plan.blockShift)
        invariant Collected(sectors, pendingSectors, lanes, first, plan.blockShift)
        invariant more ==> |sectors| < MAX_BUFS
        invariant more <==> nextPos in pendingSectors && |sectors| < MAX_BUFS
        decreases MAX_BUFS - |sectors|, more
      {
        CollectStep(sectors, pendingSectors, lanes, first, plan.blockShift);
        NextBlock(first + |sectors|, plan.blockShift);
        sectors := sectors + [pendingSectors[nextPos]];
        pendingSectors := pendingSectors - {nextPos};
        nextPos := nextPos + Pow2(plan.blockShift);
        more := nextPos in pendingSectors && |sectors| < MAX_BUFS;
      }
    }

    /** Enters block b in the index; its bytes, with padding, go to dst. */
    method AddBlock(sector: Sector, dst: nat, ghost b: nat) returns (dst': nat, piece: seq<byte>)
      requires PlanOk(plan, image) && srcSize == |image| && indexShift == IndexShift(plan, image)
      requires Holds(sector.View(), Ready, plan, image, b, received) && |index| == NumBlocks(plan, image) + 1
      requires b < NumBlocks(plan, image) && dst == Start(plan, image, b)
      modifies this`index, this`failures
      ensures failures == old(failures) && index == old(index)[b := Entry(plan, image, b)]
      ensures piece == Piece(plan, image, b, dst) && dst' == Start(plan, image, b + 1)
    {
      hide Shl, Shr, Holds, Start, NumBlocks, PlanOk, BlockOf, ChoiceFor, IndexShift, Word, Entry, Piece, ChosenBytes, PaddedOut, AlignUp, Flagged, WithFlag;
      ReadyOffers(sector.View(), plan, image, b, received);
      EntryIs(plan, image, b);
      CountIs(plan, image);
      var bestSize := sector.bestSize;
      var ok := UpdateIndex(Shr(sector.pos, plan.blockShift), dst, sector.bestFmt);
      var best := sector.BestBytes();
      if plan.kind == Iso {
        IsoInside(plan, image, b);
        if dst + bestSize > srcSize {
          bestSize := srcSize - dst;
        }
      }
      PieceFrom(plan, image, b, best, bestSize);
      piece := [];
      dst' := dst;
      if bestSize != 0 {
        piece := PaddedOut(best[..bestSize], dst, indexShift);
        dst' := AlignUp(dst + bestSize, indexShift);
      }
    }

    /** Enters the blocks of a batch in the index and puts their bytes together. */
    method AssembleBatch(sectors: seq<Sector>) returns (dst: nat, bytes: seq<byte>)
      requires PlanOk(plan, image) && srcSize == |image| && indexShift == IndexShift(plan, image)
      requires first + |sectors| <= NumBlocks(plan, image) && dstPos == Start(plan, image, first)
      requires forall i :: 0 <= i < |sectors| ==> Holds(sectors[i].View(), Ready, plan, image, first + i, received)
      requires IndexOk(index, plan, image, first) && first < NumBlocks(plan, image)
      modifies this`index, this`failures
      ensures failures == old(failures)
      ensures |index| == NumBlocks(plan, image) + 1
      ensures forall b :: 0 <= b < first + |sectors| ==> index[b] == Entry(plan, image, b)
      ensures dst == Start(plan, image, first + |sectors|)
      ensures Body(plan, image, first + |sectors|) == Body(plan, image, first) + bytes
    {
      hide Shl, Holds, Entry, Start, Body, NumBlocks, PlanOk, Piece, IndexShift;
      dst, bytes := dstPos, [];
      for i := 0 to |sectors|
        invariant |index| == NumBlocks(plan, image) + 1 && failures == old(failures)
        invariant forall b :: 0 <= b < first + i ==> index[b] == Entry(plan, image, b)
        invariant dst == Start(plan, image, first + i)
        invariant Body(plan, image, first + i) == Body(plan, image, first) + bytes
      {
        var piece;
        BodyMore(plan, image, first, first + i, bytes);
        dst, piece := AddBlock(sectors[i], dst, first + i);
        bytes := bytes + piece;
      }
    }

    /** Reports success when both the data and the index are written. */
    method CheckFinish()
      modifies this`successes
      ensures successes == old(successes) + (if indexWritten && dataWritten then 1 else 0)
    {
      if indexWritten && dataWritten {
        successes := successes + 1;
      }
    }

    /** Hands header and index to the event loop; when decompressing, there are none. */
    method Flush()
      requires indexReady && indexShift < 256
      modifies this`indexWritten, this`successes, this`flush
      ensures if plan.kind == Iso then
          indexWritten && flush == old(flush) && successes == old(successes) + (if dataWritten then 1 else 0)
        else
          && indexWritten == old(indexWritten) && successes == old(successes)
          && flush == Some(Header(plan.kind, srcSize, plan.blockShift, indexShift) + Words(index))
    {
      if plan.kind == Iso {
        indexWritten := true;
        CheckFinish();
      } else {
        flush := Some(Header(plan.kind, srcSize, plan.blockShift, indexShift) + Words(index));
      }
    }

    /** Completes and flushes the index when the last block is about to be written. */
    method CompleteIndex(nextPos: nat, dst: nat, ghost launched: nat)
      requires PlanOk(plan, image) && srcSize == |image| && indexShift == IndexShift(plan, image)
      requires first < launched <= NumBlocks(plan, image) && nextPos == Shl(launched, plan.blockShift) && dst == Start(plan, image, launched)
      requires |index| == NumBlocks(plan, image) + 1
      requires forall b :: 0 <= b < launched ==> index[b] == Entry(plan, image, b)
      requires StateOk(indexReady, indexWritten, dataWritten, flush, successes, plan, image, first, first)
      requires file == FileAt(plan, image, first, indexWritten)
      modifies this`index, this`indexReady, this`indexWritten, this`flush, this`successes
      ensures IndexOk(index, plan, image, launched) && (old(indexWritten) ==> indexWritten)
      ensures StateOk(indexReady, indexWritten, dataWritten, flush, successes, plan, image, first, launched)
      ensures file == FileAt(plan, image, first, indexWritten)
    {
      hide Shl, Start, BlockCount, PlanOk, IndexShift, Word, Entry, FileAt, Head, Header, Words;
      BlockCountBounds(|image|, plan.blockShift);
      CountIs(plan, image);
      var n := Shr(srcSize + (Pow2(plan.blockShift) - 1), plan.blockShift);
      NumIs(plan, image);
      if nextPos >= srcSize {
        index := index[n := Word(dst, indexShift)];
        IndexComplete(index, plan, image);
        indexReady := true;
        Flush();
        if plan.kind == Iso {
          IsoHead(plan, image, first);
        }
      }
    }

    /** Collects the ready sectors from the first lane on, and puts their write together. */
    method PrepareWrite(sector: Sector) returns (r: WriteReq)
      requires Inv({0}) && |lanes| > 0 && lanes[0] == Lane(sector, Ready)
      modifies this`pendingSectors, this`index, this`failures, this`indexReady, this`indexWritten, this`flush, this`successes
      ensures Collected(r.sectors, pendingSectors, lanes, first, plan.blockShift) && Offers(r, plan, image, first)
      ensures WritingOk(lanes, 0) && Tied() && Positions() && (old(indexWritten) ==> indexWritten)
      ensures IndexOk(index, plan, image, first + |r.sectors|)
      ensures StateOk(indexReady, indexWritten, dataWritten, flush, successes, plan, image, first, first + |r.sectors|)
    {
      hide Shl, Start, Body, NumBlocks, PlanOk, IndexShift, Entry, FileAt, Head, Holds, UpTo, Header, Words;
      hide PartialsOk, JobsOk, PendingOk, PoolOk, StateOk, Sector.View, SetupFor, Collected;
      var sectors, nextPos := CollectBatch(sector);
      BatchReady(sectors);
      var dst, bytes := AssembleBatch(sectors);
      CompleteIndex(nextPos, dst, first + |sectors|);
      r := WriteReq(sectors, nextPos, dstPos, bytes);
    }

    lemma BatchReady(sectors: seq<Sector>)
      requires Tied() && PoolOk(lanes, freeSectors, views, plan, image, first, received)
      requires Collected(sectors, pendingSectors, lanes, first, plan.blockShift)
      ensures first + |sectors| <= NumBlocks(plan, image)
      ensures forall i :: 0 <= i < |sectors| ==> Holds(sectors[i].View(), Ready, plan, image, first + i, received)
    {
      hide PoolOk, Holds, PlanOk, PendingOk;
      LanesWithin(lanes, freeSectors, views, plan, image, first, received);
      forall i | 0 <= i < |sectors|
        ensures Holds(sectors[i].View(), Ready, plan, image, first + i, received)
      {
        PoolLane(lanes, freeSectors, views, plan, image, first, received, i);
      }
    }

    /** The rest of HandleReadySector: the first lane is ready, so it and those that follow are written. */
    method Launch(sector: Sector)
      requires Inv({0}) && |lanes| > 0 && lanes[0] == Lane(sector, Ready)
      modifies this
      ensures Inv({}) && HeadBusy() && write.Some?
      ensures first == old(first) && received == old(received) && views == old(views) && freeSectors == old(freeSectors) && dataWritten == old(dataWritten)
      ensures jobs == old(jobs) && (old(indexWritten) ==> indexWritten)
      ensures SameSectors(old(lanes), lanes)
    {
      hide Shl, Start, Body, NumBlocks, PlanOk, IndexShift, FileAt, Mark, UpTo;
      hide PartialsOk, JobsOk, PendingOk, PoolOk, StateOk, IndexOk, Holds;
      var r := PrepareWrite(sector);
      MarkKeepsPool(lanes, freeSectors, views, plan, image, first, received, |r.sectors|);
      MarkKeepsMaps(r.sectors, pendingSectors, partialSectors, jobs, lanes, first, plan.blockShift);
      write := Some(r);
      lanes := Mark(lanes, |r.sectors|);
    }

    /** HandleReadySector for the sector of lane i. */
    method HandleReady(sector: Sector, ghost i: nat)
      requires Inv({i}) && i < |lanes| && lanes[i] == Lane(sector, Ready)
      modifies this
      ensures Inv({})
      ensures first == old(first) && received == old(received) && views == old(views) && freeSectors == old(freeSectors) && dataWritten == old(dataWritten)
      ensures jobs == old(jobs) && (old(indexWritten) ==> indexWritten)
      ensures SameSectors(old(lanes), lanes) && (old(HeadBusy()) || i == 0 ==> HeadBusy())
    {
      hide Start, Body, NumBlocks, PlanOk, IndexShift, FileAt, Shl, Holds;
      hide PartialsOk, JobsOk, PendingOk, PoolOk, StateOk, IndexOk, WriteOk;
      LaneView(i);
      if srcPos != sector.pos {
        PutPending(pendingSectors, lanes, first, plan.blockShift, i);
        pendingSectors := pendingSectors[sector.pos := sector];
      } else {
        Launch(sector);
      }
    }

    lemma LaneView(i: nat)
      requires Inv({i}) && i < |lanes|
      ensures lanes[i].sector in views && Holds(lanes[i].sector.View(), lanes[i].stage, plan, image, first + i, received)
      ensures lanes[i].sector.pos == Shl(first + i, plan.blockShift) && (srcPos == lanes[i].sector.pos <==> i == 0)
    {
      hide Start, Body, NumBlocks, PlanOk, IndexShift, FileAt, Shl, BlockOf, ChoiceFor;
      hide PartialsOk, JobsOk, PendingOk, StateOk, IndexOk, WriteOk, PoolOk;
      PoolLane(lanes, freeSectors, views, plan, image, first, received, i);
      ShlMono(first, first + i, plan.blockShift);
    }

    /** HandleReadySector(nullptr): look at the first sector in the queue. */
    method HandleReadyNext()
      requires Inv({})
      modifies this
      ensures Inv({}) && HeadBusy()
      ensures first == old(first) && received == old(received) && views == old(views) && freeSectors == old(freeSectors) && dataWritten == old(dataWritten)
      ensures jobs == old(jobs) && (old(indexWritten) ==> indexWritten)
      ensures SameSectors(old(lanes), lanes)
    {
      hide Start, Body, NumBlocks, PlanOk, IndexShift, FileAt, Shl, Holds;
      hide PartialsOk, JobsOk, PendingOk, PoolOk, StateOk, IndexOk, WriteOk;
      if pendingSectors == map[] {
        HeadNotQueued(pendingSectors, lanes, first, plan.blockShift);
        return;
      }
      var pos := FirstKey(pendingSectors);
      var sector := pendingSectors[pos];
      QueuedPos(pos);
      if srcPos != sector.pos {
        assert srcPos !in pendingSectors by {
          if srcPos in pendingSectors {
            QueuedPos(srcPos);
          }
        }
        HeadNotQueued(pendingSectors, lanes, first, plan.blockShift);
        return;
      }
      TakePending(pendingSectors, lanes, first, plan.blockShift, {}, 0);
      assert {} + {0} == {0};
      pendingSectors := pendingSectors - {pos};
      Launch(sector);
    }

    /** A queued sector is at the position it is queued under, which is not before srcPos. */
    lemma QueuedPos(pos: nat)
      requires Inv({}) && pos in pendingSectors
      ensures pendingSectors[pos].pos == pos >= srcPos
      ensures pos == srcPos ==> |lanes| > 0 && lanes[0] == Lane(pendingSectors[pos], Ready)
    {
      hide Start, Body, NumBlocks, PlanOk, IndexShift, FileAt, Shl, Holds;
      hide PartialsOk, JobsOk, PoolOk, StateOk, IndexOk, WriteOk;
      var k := plan.blockShift;
      var i :| 0 <= i < |lanes| && pos == Shl(first + i, k) && lanes[i].stage == Ready && i !in {};
      PoolLane(lanes, freeSectors, views, plan, image, first, received, i);
      HoldsPos(views[lanes[i].sector], lanes[i].stage, plan, image, first + i, received);
      ShlMono(first, first + i, k);
    }

    /** Takes a free sector for the next block. */
    method Open(block: nat) returns (sector: Sector)
      requires Inv({}) && |freeSectors| > 0 && received == Shl(block, plan.blockShift)
      modifies this`freeSectors, this`partialSectors, this`lanes
      ensures Rest({}) && Target(lanes, freeSectors, views, plan, image, first, received)
      ensures freeSectors == old(freeSectors[..|freeSectors| - 1]) && lanes == old(lanes) + [Lane(sector, Partial)]
    {
      hide Start, Body, NumBlocks, PlanOk, IndexShift, FileAt, Shl, StateOk, IndexOk, PoolOk, Target, Books, SetupFor, BatchSize;
      BlockAtEnd(lanes, freeSectors, views, plan, image, first, received, block);
      OpenLane(lanes, freeSectors, views, plan, image, first, received);
      OpenKeepsBooks(pendingSectors, partialSectors, jobs, write, lanes, plan, image, first, freeSectors[|freeSectors| - 1]);
      sector := freeSectors[|freeSectors| - 1];
      freeSectors := freeSectors[..|freeSectors| - 1];
      if plan.blockShift > 11 {
        partialSectors := partialSectors[block := sector];
      }
      lanes := lanes + [Lane(sector, Partial)];
    }

    /** The sector for the block at pos: a partial one, or a free one. */
    method SectorFor(pos: nat) returns (sector: Sector)
      requires Inv({}) && pos == received && pos % SECTOR_SIZE == 0
      requires Low(pos, plan.blockShift) == 0 ==> |freeSectors| > 0
      modifies this`freeSectors, this`partialSectors, this`lanes
      ensures Rest({}) && Target(lanes, freeSectors, views, plan, image, first, received)
      ensures |lanes| > 0 && sector == lanes[|lanes| - 1].sector
      ensures |lanes| == 1 || old(HeadBusy()) ==> HeadBusy()
    {
      hide Start, Body, NumBlocks, IndexShift, FileAt, Shl, Shr, Low, StateOk, IndexOk, PoolOk, Target, Books, SetupFor, BatchSize, Sector.View;
      var block := Shr(pos, plan.blockShift);
      Split(pos, plan.blockShift);
      RoomInBlock(pos, plan.blockShift);
      WholeSectors(plan.blockShift);
      if Low(pos, plan.blockShift) == 0 {
        BlockAtEnd(lanes, freeSectors, views, plan, image, first, received, block);
      } else {
        LastPartial(lanes, freeSectors, views, plan, image, first, received);
      }
      WhichPartial(pendingSectors, partialSectors, jobs, write, lanes, plan, image, first);
      if plan.blockShift != 11 {
        if block in partialSectors {
          sector := partialSectors[block];
        } else {
          sector := Open(block);
        }
      } else {
        sector := Open(block);
      }
    }

    /** Takes over the next sector of the source; after the last one, fills up the block with zeros. */
    method Enqueue(pos: nat, data: seq<byte>)
      requires Inv({}) && pos == received && pos % SECTOR_SIZE == 0 && pos + SECTOR_SIZE <= srcSize
      requires data == image[pos..pos + SECTOR_SIZE]
      requires Low(pos, plan.blockShift) == 0 ==> |freeSectors| > 0
      modifies this, views.Keys
      ensures Inv({}) && views.Keys == old(views.Keys) && first == old(first) && dataWritten == old(dataWritten)
      ensures received == if pos + SECTOR_SIZE < srcSize then pos + SECTOR_SIZE else Shl(NumBlocks(plan, image), plan.blockShift)
      ensures old(HeadBusy()) ==> HeadBusy()
      ensures |jobs| <= |old(jobs)| + 1 && (old(indexWritten) ==> indexWritten)
    {
      hide Start, Body, NumBlocks, IndexShift, FileAt, Shl, Low, StateOk, IndexOk, PoolOk, Target, Books, SetupFor, BatchSize, Sector.View, BlockCount, Padded, TrialsOk;
      ghost var busy := HeadBusy();
      SourceFits(plan, image, pos);
      var sector := SectorFor(pos);
      Feed(sector, pos, data);
      if plan.blockShift != 11 {
        if pos + SECTOR_SIZE >= srcSize {
          Pad(sector);
        }
      } else {
        NoPadding(plan, image);
      }
      OneMore(old(jobs), sector, jobs);
    }

    lemma PlanFacts()
      requires Rest({})
      ensures PlanOk(plan, image) && srcSize == |image|
    {
    }

    /** Fills up the last block with zeros. */
    method Pad(sector: Sector)
      requires Inv({}) && received == srcSize && |lanes| > 0 && lanes[|lanes| - 1].sector == sector
      modifies this, views.Keys
      ensures Inv({}) && views.Keys == old(views.Keys) && first == old(first) && dataWritten == old(dataWritten)
      ensures received == Shl(NumBlocks(plan, image), plan.blockShift)
      ensures old(HeadBusy()) ==> HeadBusy()
      ensures jobs <= old(jobs) + {sector} && (old(indexWritten) ==> indexWritten)
    {
      hide NumBlocks, Shl, Low, PoolOk, Target, Rest, FitsNext, PlanOk, Whole, Pow2;
      PlanFacts();
      PaddedSize(plan, image);
      var aligned := srcSize + (Pow2(plan.blockShift) - 1);
      var paddedSize := aligned - Low(aligned, plan.blockShift);
      var padPos := srcSize;
      while padPos < paddedSize
        invariant Inv({}) && views.Keys == old(views.Keys) && first == old(first) && received == padPos && dataWritten == old(dataWritten)
        invariant |lanes| > 0 && lanes[|lanes| - 1].sector == sector
        invariant Whole(padPos) && srcSize <= padPos <= paddedSize
        invariant old(HeadBusy()) ==> HeadBusy()
        invariant jobs <= old(jobs) + {sector} && (old(indexWritten) ==> indexWritten)
      {
        SectorStep(padPos, paddedSize);
        PadOne(sector, padPos);
        padPos := padPos + SECTOR_SIZE;
      }
    }

    method PadOne(sector: Sector, padPos: nat)
      requires Inv({}) && received == padPos && |lanes| > 0 && lanes[|lanes| - 1].sector == sector
      requires Whole(padPos) && srcSize <= padPos < Shl(NumBlocks(plan, image), plan.blockShift)
      modifies this, views.Keys
      ensures Inv({}) && views.Keys == old(views.Keys) && first == old(first) && dataWritten == old(dataWritten)
      ensures received == padPos + SECTOR_SIZE && SameSectors(old(lanes), lanes)
      ensures jobs <= old(jobs) + {sector} && (old(indexWritten) ==> indexWritten)
      ensures old(HeadBusy()) ==> HeadBusy()
    {
      hide NumBlocks, Shl, Low, PoolOk, Target, Rest, FitsNext, PlanOk;
      PlanFacts();
      PaddingFits(plan, image, padPos);
      LastPartial(lanes, freeSectors, views, plan, image, first, received);
      Feed(sector, padPos, Zeros(SECTOR_SIZE));
    }

    /** Gives the last lane its next sector; a sector of this pool never refuses it. */
    method Feed(sector: Sector, pos: nat, data: seq<byte>)
      requires Rest({}) && Target(lanes, freeSectors, views, plan, image, first, received)
      requires sector == lanes[|lanes| - 1].sector && pos == received && FitsNext(plan, image, received, data)
      modifies this, views.Keys
      ensures Inv({}) && views.Keys == old(views.Keys)
      ensures first == old(first) && received == old(received) + SECTOR_SIZE && freeSectors == old(freeSectors) && dataWritten == old(dataWritten)
      ensures SameSectors(old(lanes), lanes) && jobs <= old(jobs) + {sector} && (old(indexWritten) ==> indexWritten)
      ensures |old(lanes)| == 1 || old(HeadBusy()) ==> HeadBusy()
    {
      hide Rest, Target, PoolOk, FitsNext;
      TargetFacts(lanes, freeSectors, views, plan, image, first, received, data);
      ghost var n := |lanes| - 1;
      var r := FeedLast(sector, pos, data);
      if r == Done {
        HandleReady(sector, n);
      }
    }

    method FeedLast(sector: Sector, pos: nat, data: seq<byte>) returns (r: Progress)
      requires Rest({}) && Target(lanes, freeSectors, views, plan, image, first, received)
      requires sector == lanes[|lanes| - 1].sector && pos == received && FitsNext(plan, image, received, data)
      modifies this`partialSectors, this`jobs, this`received, this`lanes, this`views, sector
      ensures lanes == old(lanes[|lanes| - 1 := Lane(sector, StageOf(r))])
      ensures Inv(if r == Done then {|lanes| - 1} else {}) && views.Keys == old(views.Keys)
      ensures received == old(received) + SECTOR_SIZE && jobs <= old(jobs) + {sector}
    {
      hide Start, Body, NumBlocks, PlanOk, IndexShift, FileAt, Shl, Holds, Padded, IsIdle;
      hide Books, PoolOk, StateOk, IndexOk, Target, Accepts, FitsNext, Distinct, FreeIdle, SetupFor, BatchSize, Pow2, Shr, Sector.View;
      TargetFacts(lanes, freeSectors, views, plan, image, first, received, data);
      ghost var n := |lanes| - 1;
      TargetDistinct(lanes, freeSectors, views, plan, image, first, received);
      r := Gather(sector, pos, data, first + n);
      FeedKeeps(lanes, freeSectors, views, plan, image, first, received, sector.View(), StageOf(r));
      FeedKeepsBooks(pendingSectors, partialSectors, jobs, write, lanes, freeSectors, plan, image, first, n, StageOf(r));
      Settle(sector, pos, r);
    }

    /** Queues the job of a complete block, or drops it from the partial ones. */
    method Settle(sector: Sector, pos: nat, r: Progress)
      requires |lanes| > 0 && sector == lanes[|lanes| - 1].sector
      modifies this`partialSectors, this`jobs, this`received, this`lanes, this`views
      ensures received == old(received) + SECTOR_SIZE && lanes == old(lanes[|lanes| - 1 := Lane(sector, StageOf(r))])
      ensures views == old(views)[sector := sector.View()]
      ensures jobs == if r == Queued then old(jobs) + {sector} else old(jobs)
      ensures partialSectors == if r == Done && plan.blockShift != 11 then old(partialSectors) - {Shr(pos, plan.blockShift)} else old(partialSectors)
    {
      received := received + SECTOR_SIZE;
      lanes := lanes[|lanes| - 1 := Lane(sector, StageOf(r))];
      views := views[sector := sector.View()];
      if r == Queued {
        jobs := jobs + {sector};
      } else if r == Done && plan.blockShift != 11 {
        partialSectors := partialSectors - {Shr(pos, plan.blockShift)};
      }
    }

    /** A compression job is done: the worker's trials, then the ready callback. */
    method JobDone(sector: Sector)
      requires Inv({}) && sector in jobs
      modifies this, views.Keys
      ensures Inv({}) && views.Keys == old(views.Keys) && first == old(first) && received == old(received) && dataWritten == old(dataWritten)
      ensures freeSectors == old(freeSectors) && SameSectors(old(lanes), lanes)
      ensures old(HeadBusy()) ==> HeadBusy()
      ensures jobs == old(jobs) - {sector} && (old(indexWritten) ==> indexWritten)
    {
      hide Rest, PoolOk;
      ghost var i := JobIndex(sector);
      CompressLane(sector, i);
      HandleReady(sector, i);
    }

    lemma JobIndex(sector: Sector) returns (i: nat)
      requires Inv({}) && sector in jobs
      ensures i < |lanes| && lanes[i] == Lane(sector, Compressing) && sector in views
    {
      i := JobLane(pendingSectors, partialSectors, jobs, write, lanes, plan, image, first, sector);
      PoolLane(lanes, freeSectors, views, plan, image, first, received, i);
    }

    method CompressLane(sector: Sector, ghost i: nat)
      requires Inv({}) && sector in jobs && i < |lanes| && lanes[i] == Lane(sector, Compressing)
      modifies this`jobs, this`partialSectors, this`lanes, this`views, sector
      ensures lanes == old(lanes)[i := Lane(sector, Ready)]
      ensures Inv({i}) && views.Keys == old(views.Keys) && jobs == old(jobs) - {sector}
    {
      hide Start, Body, NumBlocks, PlanOk, IndexShift, FileAt, Shl, Shr, Holds, StateOk, IndexOk, PoolOk, Books, SetupFor, BatchSize, Sector.View, Pow2;
      PoolLane(lanes, freeSectors, views, plan, image, first, received, i);
      RunWorker(sector, first + i);
      PoolDistinct(lanes, freeSectors, views, plan, image, first, received);
      StageKeepsPool(lanes, freeSectors, views, plan, image, first, received, i, sector.View(), Ready);
      JobKeepsBooks(pendingSectors, partialSectors, jobs, write, lanes, freeSectors, plan, image, first, i);
      LeaveJob(sector, i);
    }

    method LeaveJob(sector: Sector, ghost i: nat)
      requires i < |lanes| && sector == lanes[i].sector
      modifies this`jobs, this`partialSectors, this`lanes, this`views
      ensures lanes == old(lanes)[i := Lane(sector, Ready)] && views == old(views)[sector := sector.View()]
      ensures jobs == old(jobs) - {sector}
      ensures partialSectors == if plan.blockShift != 11 then old(partialSectors) - {Shr(sector.pos, plan.blockShift)} else old(partialSectors)
    {
      lanes := lanes[i := Lane(sector, Ready)];
      views := views[sector := sector.View()];
      jobs := jobs - {sector};
      if plan.blockShift != 11 {
        partialSectors := partialSectors - {Shr(sector.pos, plan.blockShift)};
      }
    }

    /** The worker: all trials on the block, then FinalizeBest. */
    method RunWorker(sector: Sector, ghost b: nat)
      requires PlanOk(plan, image) && sector.setup == SetupFor(plan, image) && Holds(sector.View(), Compressing, plan, image, b, received)
      modifies sector
      ensures Holds(sector.View(), Ready, plan, image, b, received) && Shr(sector.pos, plan.blockShift) == b
    {
      hide Shl, Shr, Low, PlanOk, Select, Finalize;
      ghost var v := sector.View();
      WorkerTrials(plan, image, b);
      WholeBuffer(v, plan, image, b, received);
      var trials := plan.trials(sector.buffer[..Pow2(plan.blockShift)]);
      sector.CompressAndFinalize(trials);
      CompressedHolds(v, plan, image, b, received, ChoiceFor(plan, image, b));
      Join(b, 0, plan.blockShift);
    }

    /** Gives the sectors of a finished write back. */
    method ReleaseAll(sectors: seq<Sector>)
      requires Tied() && PoolOk(lanes, freeSectors, views, plan, image, first, received)
      requires Batch(sectors, lanes) && forall i :: 0 <= i < |sectors| ==> lanes[i].stage == Writing
      modifies this`freeSectors, this`lanes, this`views, this`first, views.Keys
      ensures Tied() && views.Keys == old(views.Keys) && freeSectors == old(freeSectors) + sectors
      ensures lanes == old(lanes)[|sectors|..] && first == old(first) + |sectors|
      ensures PoolOk(lanes, freeSectors, views, plan, image, first, received)
    {
      hide PoolOk, Tied;
      for i := 0 to |sectors|
        invariant Tied() && views.Keys == old(views.Keys) && freeSectors == old(freeSectors) + sectors[..i]
        invariant lanes == old(lanes)[i..] && first == old(first) + i
        invariant PoolOk(lanes, freeSectors, views, plan, image, first, received)
      {
        assert lanes[0] == old(lanes)[i];
        ReleaseFirst(sectors[i]);
      }
    }

    method ReleaseFirst(sector: Sector)
      requires Tied() && PoolOk(lanes, freeSectors, views, plan, image, first, received)
      requires |lanes| > 0 && lanes[0] == Lane(sector, Writing)
      modifies this`freeSectors, this`lanes, this`views, this`first, views.Keys
      ensures Tied() && views.Keys == old(views.Keys) && freeSectors == old(freeSectors) + [sector]
      ensures lanes == old(lanes)[1..] && first == old(first) + 1
      ensures PoolOk(lanes, freeSectors, views, plan, image, first, received)
    {
      hide PoolOk, PlanOk, IndexShift, SetupFor;
      PoolLane(lanes, freeSectors, views, plan, image, first, received, 0);
      sector.Release();
      RetireKeeps(lanes, freeSectors, views, plan, image, first, received, sector.View());
      freeSectors := freeSectors + [sector];
      views := views[sector := sector.View()];
      lanes := lanes[1..];
      first := first + 1;
    }

    /** A data write is done: the first part of HandleWrittenSectors, up to the progress report. */
    method Written()
      requires Inv({}) && write.Some?
      modifies this, views.Keys
      ensures Inv({}) && views.Keys == old(views.Keys) && received == old(received) && dataWritten == old(dataWritten)
      ensures freeSectors == old(freeSectors + write.value.sectors) && srcPos == old(write.value.nextPos) && write == None
      ensures first == old(first + |write.value.sectors|) > old(first) && !dataWritten && |freeSectors| > 0 && srcPos == Shl(first, plan.blockShift)
      ensures jobs == old(jobs) && (old(indexWritten) ==> indexWritten)
    {
      hide PoolOk, PlanOk, IndexShift, SetupFor, IndexOk, StateOk, Start, Body, FileAt, Shl, NumBlocks, Sector.View, Books, Batch;
      var r := write.value;
      WrittenBooks(pendingSectors, partialSectors, jobs, write, lanes, plan, image, first);
      WriteFacts(pendingSectors, partialSectors, jobs, write, lanes, plan, image, first);
      StateAdvances(indexReady, indexWritten, dataWritten, flush, successes, plan, image, first, |r.sectors|);
      BodyDone(plan, image, first, first + |r.sectors|, indexWritten, r.bytes);
      ReleaseAll(r.sectors);
      RecordWrite(r);
    }

    method RecordWrite(r: WriteReq)
      modifies this`file, this`write, this`srcPos, this`dstPos
      ensures file == Overwrite(old(file), r.at, r.bytes) && write == None && srcPos == r.nextPos && dstPos == old(dstPos) + |r.bytes|
    {
      file := Overwrite(file, r.at, r.bytes);
      write := None;
      srcPos := r.nextPos;
      dstPos := dstPos + |r.bytes|;
    }

    /** The rest of HandleWrittenSectors, after the progress report. */
    method AfterProgress(nextPos: nat)
      requires Inv({}) && nextPos == Shl(first, plan.blockShift) && !dataWritten
      modifies this
      ensures Inv({}) && HeadBusy() && (dataWritten <==> first == NumBlocks(plan, image))
      ensures first == old(first) && received == old(received) && views == old(views) && freeSectors == old(freeSectors)
      ensures SameSectors(old(lanes), lanes) && jobs == old(jobs) && (old(indexWritten) ==> indexWritten)
    {
      hide PoolOk, PlanOk, IndexShift, SetupFor, IndexOk, Start, Body, FileAt, Shl, BlockCount, Sector.View, Books, Head;
      BlockCountBounds(|image|, plan.blockShift);
      CountIs(plan, image);
      if nextPos >= srcSize {
        LanesWithin(lanes, freeSectors, views, plan, image, first, received);
        dataWritten := true;
        CheckFinish();
      } else {
        HandleReadyNext();
      }
    }

    /** Header and index are written. */
    method FlushDone()
      requires Inv({}) && flush.Some?
      modifies this
      ensures Inv({}) && indexWritten && !old(indexWritten) && flush == None
      ensures first == old(first) && received == old(received) && views == old(views) && freeSectors == old(freeSectors)
      ensures lanes == old(lanes) && dataWritten == old(dataWritten) && jobs == old(jobs)
    {
      hide PoolOk, PlanOk, IndexShift, SetupFor, IndexOk, Start, Body, FileAt, Shl, NumBlocks, Sector.View, Books, Head;
      HeadDone(plan, image, first);
      file := Overwrite(file, 0, flush.value);
      flush := None;
      indexWritten := true;
      CheckFinish();
    }

    /** DisableCompress and Process, for a sector that is ready for more of block b. */
    method Gather(sector: Sector, pos: nat, data: seq<byte>, ghost b: nat) returns (r: Progress)
      requires PlanOk(plan, image) && sector.setup == SetupFor(plan, image) && pos == received
      requires Accepts(sector.View(), plan, image, b, received) && FitsNext(plan, image, received, data)
      modifies sector
      ensures r != Failed && Holds(sector.View(), StageOf(r), plan, image, b, received + SECTOR_SIZE)
      ensures Shl(b, plan.blockShift) <= received && received + SECTOR_SIZE <= Shl(b, plan.blockShift) + Pow2(plan.blockShift)
      ensures Shr(received, plan.blockShift) == b
    {
      hide NumBlocks, PlanOk, IndexShift, Shl, Holds, Padded, Overwrite, IsIdle, Accepts;
      RangeOfPlan(plan, image);
      GatherHolds(sector.View(), plan, image, b, received, data);
      if plan.kind == Iso {
        sector.DisableCompress();
      }
      r := sector.Process(pos, data, 2 * Pow2(plan.blockShift));
      Join(b, received - Shl(b, plan.blockShift), plan.blockShift);
    }
  }

  lemma TargetFacts(lanes: seq<Lane>, free: seq<Sector>, views: map<Sector, SectorView>, p: Plan, image: seq<byte>, first: nat, received: nat, data: seq<byte>)
    requires Target(lanes, free, views, p, image, first, received) && FitsNext(p, image, received, data)
    ensures |lanes| > 0 && lanes[|lanes| - 1].stage == Partial && lanes[|lanes| - 1].sector in views
    ensures Accepts(views[lanes[|lanes| - 1].sector], p, image, first + |lanes| - 1, received)
    ensures received + SECTOR_SIZE <= Shl(NumBlocks(p, image), p.blockShift)
  {
    CountIs(p, image);
    TargetAccepts(lanes, free, views, p, image, first, received);
  }

  lemma StageKeepsWriting(write: Option<WriteReq>, lanes: seq<Lane>, p: Plan, image: seq<byte>, first: nat, i: nat, stage: Stage)
    requires WriteOk(write, lanes, p, image, first) && i < |lanes| && lanes[i].stage != Writing && stage != Writing
    ensures WriteOk(write, lanes[i := Lane(lanes[i].sector, stage)], p, image, first)
  {
    hide Offers;
  }

  ghost function StageOf(r: Progress): Stage {
    match r
    case Queued => Compressing
    case Done => Ready
    case _ => Partial
  }

  /** At a block boundary, the next block has no lane yet. */
  lemma BlockAtEnd(lanes: seq<Lane>, free: seq<Sector>, views: map<Sector, SectorView>, p: Plan, image: seq<byte>, first: nat, received: nat, b: nat)
    requires PoolOk(lanes, free, views, p, image, first, received) && received == Shl(b, p.blockShift)
    ensures first + |lanes| == b
  {
    hide Shl, BlockCount;
    CountWithin(b, 0, p.blockShift);
  }

  lemma OpenKeepsBooks(pending: map<nat, Sector>, partials: map<nat, Sector>, jobs: set<Sector>, write: Option<WriteReq>, lanes: seq<Lane>,
                       p: Plan, image: seq<byte>, first: nat, s: Sector)
    requires Books(pending, partials, jobs, write, lanes, p, image, first, {})
    ensures Books(pending, if p.blockShift > 11 then partials[first + |lanes| := s] else partials, jobs, write, lanes + [Lane(s, Partial)], p, image, first, {})
  {
    hide PendingOk, PartialsOk, JobsOk, WriteOk;
    OpenKeepsPending(pending, lanes, first, p.blockShift, {}, s);
    OpenKeepsPartials(partials, lanes, first, p.blockShift, s);
    OpenKeepsJobs(jobs, lanes, s);
    OpenKeepsWriting(write, lanes, p, image, first, s);
  }

  lemma OpenKeepsWriting(write: Option<WriteReq>, lanes: seq<Lane>, p: Plan, image: seq<byte>, first: nat, s: Sector)
    requires WriteOk(write, lanes, p, image, first)
    ensures WriteOk(write, lanes + [Lane(s, Partial)], p, image, first)
  {
    hide Offers;
  }

  /** Among the larger blocks, the last lane is in the map of partial sectors if it is partial, and the next
      block is not. */
  lemma WhichPartial(pending: map<nat, Sector>, partials: map<nat, Sector>, jobs: set<Sector>, write: Option<WriteReq>, lanes: seq<Lane>,
                     p: Plan, image: seq<byte>, first: nat)
    requires Books(pending, partials, jobs, write, lanes, p, image, first, {})
    ensures first + |lanes| !in partials
    ensures p.blockShift > 11 && |lanes| > 0 && lanes[|lanes| - 1].stage == Partial ==>
      first + |lanes| - 1 in partials && partials[first + |lanes| - 1] == lanes[|lanes| - 1].sector
  {
    hide PendingOk, JobsOk, WriteOk;
  }

  lemma SourceFits(p: Plan, image: seq<byte>, pos: nat)
    requires pos % SECTOR_SIZE == 0 && pos + SECTOR_SIZE <= |image|
    ensures FitsNext(p, image, pos, image[pos..pos + SECTOR_SIZE])
  {
    hide BlockCount, Shl;
    var padded := Padded(image, p.blockShift);
    SliceSlice(padded, 0, |image|, pos, pos + SECTOR_SIZE);
    assert padded[0..|image|] == padded[..|image|];
  }

  /** A whole number of sectors. */
  predicate Whole(n: nat) {
    n % SECTOR_SIZE == 0
  }

  lemma SectorStep(a: nat, b: nat)
    requires Whole(a) && Whole(b) && a < b
    ensures Whole(a + SECTOR_SIZE) && a + SECTOR_SIZE <= b
  {
  }

  lemma BodyMore(p: Plan, image: seq<byte>, b: nat, c: nat, bytes: seq<byte>)
    requires b <= c < NumBlocks(p, image) && Body(p, image, c) == Body(p, image, b) + bytes
    ensures Body(p, image, c + 1) == Body(p, image, b) + (bytes + Piece(p, image, c, Start(p, image, c)))
  {
    hide Body, Piece, Start;
    BodyStep(p, image, c);
  }

  lemma OneMore(a: set<Sector>, s: Sector, b: set<Sector>)
    requires b <= a + {s}
    ensures |b| <= |a| + 1
  {
    SubsetSize(b, a + {s});
  }

  lemma {:induction false} SubsetSize(a: set<Sector>, b: set<Sector>)
    requires a <= b
    ensures |a| <= |b|
    decreases a
  {
    if a != {} {
      var x :| x in a;
      SubsetSize(a - {x}, b - {x});
    }
  }

  lemma PaddedSize(p: Plan, image: seq<byte>)
    requires PlanOk(p, image)
    ensures var aligned := |image| + (Pow2(p.blockShift) - 1);
      && aligned - Low(aligned, p.blockShift) == Shl(NumBlocks(p, image), p.blockShift) >= |image|
      && Whole(Shl(NumBlocks(p, image), p.blockShift)) && Whole(|image|)
  {
    hide Shl, Low, Shr, Pow2, TrialsOk, IndexShift;
    Split(|image| + (Pow2(p.blockShift) - 1), p.blockShift);
    WholeBlocks(NumBlocks(p, image), p.blockShift);
    BlockCountBounds(|image|, p.blockShift);
  }

  /** Blocks of the sector size need no padding. */
  lemma NoPadding(p: Plan, image: seq<byte>)
    requires PlanOk(p, image) && p.blockShift == 11
    ensures Shl(NumBlocks(p, image), 11) == |image|
  {
    hide PlanOk, Shl, Pow2, BlockCount;
    BlockCountBounds(|image|, 11);
    WholeBlocks(NumBlocks(p, image), 11);
    WholeImage(p, image);
    SectorBlock();
    Squeezed(|image|, Shl(NumBlocks(p, image), 11), Shl(NumBlocks(p, image), 0));
  }

  lemma SectorBlock()
    ensures Pow2(11) == SECTOR_SIZE
  {
  }

  lemma Squeezed(a: nat, b: nat, m: nat)
    requires a % SECTOR_SIZE == 0 && b == 2048 * m && a <= b < a + SECTOR_SIZE
    ensures a == b
  {
  }

  /** The padding is inside the last block, and all zeros. */
  lemma PaddingFits(p: Plan, image: seq<byte>, pos: nat)
    requires PlanOk(p, image) && pos % SECTOR_SIZE == 0 && |image| <= pos < Shl(NumBlocks(p, image), p.blockShift)
    ensures FitsNext(p, image, pos, Zeros(SECTOR_SIZE)) && Low(pos, p.blockShift) != 0
  {
    hide PlanOk, Shl, NumBlocks, Low, FitsNext;
    PaddingIsZero(p, image, pos);
    InsideLast(p, image, pos);
  }

  lemma PaddingIsZero(p: Plan, image: seq<byte>, pos: nat)
    requires PlanOk(p, image) && pos % SECTOR_SIZE == 0 && |image| <= pos < Shl(NumBlocks(p, image), p.blockShift)
    ensures FitsNext(p, image, pos, Zeros(SECTOR_SIZE))
  {
    hide Shl, BlockCount, IndexShift, TrialsOk;
    WholeBlocks(NumBlocks(p, image), p.blockShift);
    var padded := Padded(image, p.blockShift);
    assert pos + SECTOR_SIZE <= |padded|;
    assert padded[pos..pos + SECTOR_SIZE] == Zeros(SECTOR_SIZE);
  }

  lemma InsideLast(p: Plan, image: seq<byte>, pos: nat)
    requires PlanOk(p, image) && |image| <= pos < Shl(NumBlocks(p, image), p.blockShift)
    ensures Low(pos, p.blockShift) != 0
  {
    hide PlanOk, Shl, BlockCount, Low;
    var k := p.blockShift;
    var n := NumBlocks(p, image);
    BlockCountBounds(|image|, k);
    SomeBlock(p, image);
    NextBlock(n - 1, k);
    Join(n - 1, pos - Shl(n - 1, k), k);
  }

  lemma WholeBuffer(v: SectorView, p: Plan, image: seq<byte>, b: nat, received: nat)
    requires Holds(v, Compressing, p, image, b, received)
    ensures |v.buffer| >= Pow2(p.blockShift) && v.buffer[..Pow2(p.blockShift)] == BlockOf(image, p.blockShift, b)
  {
    hide BlockOf, ChoiceFor, Shl;
    CountIs(p, image);
  }

  lemma WorkerTrials(p: Plan, image: seq<byte>, b: nat)
    requires PlanOk(p, image) && b < NumBlocks(p, image)
    ensures AllCompressed(p.trials(BlockOf(image, p.blockShift, b)))
  {
    hide BlockOf;
  }

  lemma PoolDistinct(lanes: seq<Lane>, free: seq<Sector>, views: map<Sector, SectorView>, p: Plan, image: seq<byte>, first: nat, received: nat)
    requires PoolOk(lanes, free, views, p, image, first, received)
    ensures Distinct(lanes, free)
  {
  }

  lemma JobLane(pending: map<nat, Sector>, partials: map<nat, Sector>, jobs: set<Sector>, write: Option<WriteReq>, lanes: seq<Lane>,
                p: Plan, image: seq<byte>, first: nat, s: Sector) returns (i: nat)
    requires Books(pending, partials, jobs, write, lanes, p, image, first, {}) && s in jobs
    ensures i < |lanes| && lanes[i] == Lane(s, Compressing)
  {
    hide PendingOk, PartialsOk, WriteOk;
    i :| 0 <= i < |lanes| && lanes[i] == Lane(s, Compressing);
  }

  lemma JobKeepsBooks(pending: map<nat, Sector>, partials: map<nat, Sector>, jobs: set<Sector>, write: Option<WriteReq>, lanes: seq<Lane>, free: seq<Sector>,
                      p: Plan, image: seq<byte>, first: nat, i: nat)
    requires Books(pending, partials, jobs, write, lanes, p, image, first, {}) && Distinct(lanes, free)
    requires i < |lanes| && lanes[i].stage == Compressing
    ensures Books(pending, partials - {first + i}, jobs - {lanes[i].sector}, write, lanes[i := Lane(lanes[i].sector, Ready)], p, image, first, {i})
    ensures p.blockShift == 11 ==> partials - {first + i} == partials
  {
    hide PendingOk, PartialsOk, JobsOk, WriteOk, Distinct;
    StageKeepsPending(pending, lanes, first, p.blockShift, {}, i, Ready);
    StageKeepsPartials(partials, lanes, first, p.blockShift, i, Ready);
    StageKeepsJobs(jobs, lanes, free, i, Ready);
    StageKeepsWriting(write, lanes, p, image, first, i, Ready);
    assert {} + {i} == {i};
  }

  /** The first lane's sector, released, is free. */
  lemma RetireKeeps(lanes: seq<Lane>, free: seq<Sector>, views: map<Sector, SectorView>, p: Plan, image: seq<byte>, first: nat, received: nat, v: SectorView)
    requires PoolOk(lanes, free, views, p, image, first, received) && |lanes| > 0 && lanes[0].stage == Writing && IsIdle(v)
    ensures var s := lanes[0].sector;
      PoolOk(lanes[1..], free + [s], views[s := v], p, image, first + 1, received)
  {
    hide Shl, BlockCount, NumBlocks, IsIdle, BlockOf, ChoiceFor;
    var s := lanes[0].sector;
    var lanes', free', views' := lanes[1..], free + [s], views[s := v];
    NextBlock(first, p.blockShift);
    assert Shl(first + 1, p.blockShift) <= received by {
      assert Holds(views[s], Writing, p, image, first + 0, received);
    }
    forall i | 0 <= i < |lanes'|
      ensures lanes'[i].sector in views' && Holds(views'[lanes'[i].sector], lanes'[i].stage, p, image, first + 1 + i, received)
    {
      assert lanes'[i] == lanes[i + 1];
      assert Holds(views[lanes[i + 1].sector], lanes[i + 1].stage, p, image, first + (i + 1), received);
    }
  }

  lemma WrittenBooks(pending: map<nat, Sector>, partials: map<nat, Sector>, jobs: set<Sector>, write: Option<WriteReq>, lanes: seq<Lane>,
                     p: Plan, image: seq<byte>, first: nat)
    requires Books(pending, partials, jobs, write, lanes, p, image, first, {}) && write.Some?
    ensures var n := |write.value.sectors|;
      Books(pending, partials, jobs, None, lanes[n..], p, image, first + n, {})
  {
    hide PendingOk, PartialsOk, JobsOk, Offers;
    var n := |write.value.sectors|;
    DropPending(pending, lanes, first, p.blockShift, n);
    DropPartials(partials, lanes, first, p.blockShift, n);
    DropJobs(jobs, lanes, n);
  }

  lemma DropPending(pending: map<nat, Sector>, lanes: seq<Lane>, first: nat, k: nat, n: nat)
    requires PendingOk(pending, lanes, first, k, {}) && WritingOk(lanes, n)
    ensures PendingOk(pending, lanes[n..], first + n, k, {})
  {
    hide Shl;
    var lanes' := lanes[n..];
    forall i | 0 <= i < |lanes'| && lanes'[i].stage == Ready
      ensures Shl(first + n + i, k) in pending && pending[Shl(first + n + i, k)] == lanes'[i].sector
    {
      assert lanes'[i] == lanes[n + i] && first + (n + i) == first + n + i;
    }
    forall pos | pos in pending
      ensures exists i :: 0 <= i < |lanes'| && pos == Shl(first + n + i, k) && lanes'[i].stage == Ready && i !in {}
    {
      var i :| 0 <= i < |lanes| && pos == Shl(first + i, k) && lanes[i].stage == Ready && i !in {};
      assert lanes'[i - n] == lanes[i] && i - n !in {} && first + n + (i - n) == first + i;
    }
  }

  lemma DropPartials(partials: map<nat, Sector>, lanes: seq<Lane>, first: nat, k: nat, n: nat)
    requires PartialsOk(partials, lanes, first, k) && WritingOk(lanes, n)
    ensures PartialsOk(partials, lanes[n..], first + n, k)
  {
    var lanes' := lanes[n..];
    forall b
      ensures b in partials <==> (k > 11 && first + n <= b < first + n + |lanes'| && lanes'[b - first - n].stage in {Partial, Compressing})
    {
      if first + n <= b < first + |lanes| {
        assert lanes'[b - first - n] == lanes[b - first];
      }
    }
  }

  lemma DropJobs(jobs: set<Sector>, lanes: seq<Lane>, n: nat)
    requires JobsOk(jobs, lanes) && WritingOk(lanes, n)
    ensures JobsOk(jobs, lanes[n..])
  {
    var lanes' := lanes[n..];
    forall i | 0 <= i < |lanes'| && lanes'[i].stage == Compressing
      ensures lanes'[i].sector in jobs
    {
      assert lanes'[i] == lanes[n + i];
    }
    forall s | s in jobs
      ensures exists i :: 0 <= i < |lanes'| && lanes'[i] == Lane(s, Compressing)
    {
      var i :| 0 <= i < |lanes| && lanes[i] == Lane(s, Compressing);
      assert lanes'[i - n] == lanes[i];
    }
  }

  lemma WriteFacts(pending: map<nat, Sector>, partials: map<nat, Sector>, jobs: set<Sector>, write: Option<WriteReq>, lanes: seq<Lane>,
                   p: Plan, image: seq<byte>, first: nat)
    requires Books(pending, partials, jobs, write, lanes, p, image, first, {}) && write.Some?
    ensures var r := write.value;
      && Batch(r.sectors, lanes) && Offers(r, p, image, first) && 1 <= |r.sectors| <= MAX_BUFS
      && forall i :: 0 <= i < |r.sectors| ==> lanes[i].stage == Writing
  {
    hide PendingOk, PartialsOk, JobsOk;
  }

  /** Writing a batch does not change what has been launched. */
  lemma StateAdvances(indexReady: bool, indexWritten: bool, dataWritten: bool, flush: Option<seq<byte>>, successes: nat,
                      p: Plan, image: seq<byte>, first: nat, n: nat)
    requires StateOk(indexReady, indexWritten, dataWritten, flush, successes, p, image, first, first + n) && n > 0 && first + n <= NumBlocks(p, image)
    ensures !dataWritten && StateOk(indexReady, indexWritten, dataWritten, flush, successes, p, image, first + n, first + n)
  {
    hide NumBlocks, Head;
  }

  /** The loop of SetFile over the bits of the worst size. */
  method PickShift(kind: Kind, worst: nat) returns (shift: nat)
    ensures shift == if kind == Iso then 0 else ShiftFrom(worst, 62)
  {
    shift := 0;
    if kind != Iso {
      var i := 62;
      while i >= 31
        invariant 30 <= i <= 62 && shift == 0 && ShiftFrom(worst, 62) == ShiftFrom(worst, i)
      {
        var max := Pow2(i);
        if worst >= max {
          shift := i + 1 - 31;
          break;
        }
        i := i - 1;
      }
    }
  }

  /** Nothing received, nothing written. */
  lemma StartsEmpty(p: Plan, image: seq<byte>, free: seq<Sector>, views: map<Sector, SectorView>)
    requires |free| == QUEUE_SIZE && FreeIdle(free, views)
    requires forall i, j :: 0 <= i < j < |free| ==> free[i] != free[j]
    ensures PoolOk([], free, views, p, image, 0, 0) && Books(map[], map[], {}, None, [], p, image, 0, {})
  {
    hide Shl, BlockCount, IsIdle;
    CountWithin(0, 0, p.blockShift);
    NextBlock(0, p.blockShift);
  }

  lemma StartsUnwritten(p: Plan, image: seq<byte>, index: seq<nat>)
    requires PlanOk(p, image) && |index| == BlockCount(|image|, p.blockShift) + 1
    ensures Shl(0, p.blockShift) == 0 && FileAt(p, image, 0, false) == []
    ensures StateOk(false, false, false, None, 0, p, image, 0, 0) && IndexOk(index, p, image, 0)
    ensures Start(p, image, 0) == AlignUp(FirstPos(p.kind, BlockCount(|image|, p.blockShift)), IndexShift(p, image))
    ensures IndexShift(p, image) == if p.kind == Iso then 0 else ShiftFrom(FirstPos(p.kind, BlockCount(|image|, p.blockShift)) + |image|, 62)
  {
    hide Shl, BlockCount, AlignUp, TrialsOk, Entry, Head, Body, PlanOk, ShiftFrom, FirstPos;
    SomeBlock(p, image);
    NextBlock(0, p.blockShift);
  }

  lemma EntryIs(p: Plan, image: seq<byte>, b: nat)
    requires b < NumBlocks(p, image)
    ensures Entry(p, image, b) ==
      if Flagged(p.kind, ChoiceFor(p, image, b).fmt) then WithFlag(Word(Start(p, image, b), IndexShift(p, image))) else Word(Start(p, image, b), IndexShift(p, image))
  {
  }

  /** The bytes put together for a block are its piece of the file. */
  lemma PieceFrom(p: Plan, image: seq<byte>, b: nat, best: seq<byte>, size: nat)
    requires b < NumBlocks(p, image) && b < BlockCount(|image|, p.blockShift)
    requires best == ChosenBytes(ChoiceFor(p, image, b), BlockOf(image, p.blockShift, b)) && 0 < size
    requires size == if p.kind == Iso && Start(p, image, b) + |best| > |image| then |image| - Start(p, image, b) else |best|
    ensures PaddedOut(best[..size], Start(p, image, b), IndexShift(p, image)) == Piece(p, image, b, Start(p, image, b))
    ensures AlignUp(Start(p, image, b) + size, IndexShift(p, image)) == Start(p, image, b + 1)
  {
    hide Start, NumBlocks, Stored, IndexShift, AlignUp, BlockCount, PaddedOut;
    StartStep(p, image, b);
    StoredIs(p, image, b, Start(p, image, b), best, size);
  }

  lemma StoredIs(p: Plan, image: seq<byte>, b: nat, dst: nat, best: seq<byte>, size: nat)
    requires b < NumBlocks(p, image) && b < BlockCount(|image|, p.blockShift)
    requires best == ChosenBytes(ChoiceFor(p, image, b), BlockOf(image, p.blockShift, b))
    requires size == if p.kind == Iso && dst + |best| > |image| then |image| - dst else |best|
    ensures Stored(p, image, b, dst) == best[..size]
  {
    hide NumBlocks, BlockOf, ChoiceFor, ChosenBytes, BlockCount;
    assert best[..|best|] == best;
  }

  lemma HoldsPos(v: SectorView, stage: Stage, p: Plan, image: seq<byte>, b: nat, received: nat)
    requires Holds(v, stage, p, image, b, received)
    ensures v.pos == Shl(b, p.blockShift)
  {
  }

  lemma HeadNotQueued(pending: map<nat, Sector>, lanes: seq<Lane>, first: nat, k: nat)
    requires PendingOk(pending, lanes, first, k, {}) && Shl(first, k) !in pending
    ensures |lanes| > 0 ==> lanes[0].stage != Ready
  {
    hide Shl;
    assert |lanes| > 0 ==> Shl(first + 0, k) == Shl(first, k);
  }

  lemma NumIs(p: Plan, image: seq<byte>)
    ensures NumBlocks(p, image) == Shr(|image| + (Pow2(p.blockShift) - 1), p.blockShift)
  {
  }

  lemma PoolLane(lanes: seq<Lane>, free: seq<Sector>, views: map<Sector, SectorView>, p: Plan, image: seq<byte>, first: nat, received: nat, i: nat)
    requires PoolOk(lanes, free, views, p, image, first, received) && i < |lanes|
    ensures lanes[i].sector in views && Holds(views[lanes[i].sector], lanes[i].stage, p, image, first + i, received)
  {
  }

  lemma IsoInside(p: Plan, image: seq<byte>, b: nat)
    requires PlanOk(p, image) && p.kind == Iso && b < NumBlocks(p, image)
    ensures Start(p, image, b) < |image|
  {
    hide Start, Shl;
    IsoBody(p, image, b);
    BlockCountBounds(|image|, p.blockShift);
  }

  lemma StartStep(p: Plan, image: seq<byte>, b: nat)
    requires b < NumBlocks(p, image)
    ensures Start(p, image, b + 1) == Start(p, image, b) + |Piece(p, image, b, Start(p, image, b))|
  {
  }
}
