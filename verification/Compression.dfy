/** compress.cpp: the reader and the writer wired together, under any order of completions. */
module Compression {
  import opened Bits
  import opened Blocks
  import opened Sectors
  import opened CsoFormat
  import opened CsoWriter
  import opened ContainerRoundTrip
  import opened ContainerLimits
  import opened Lanes
  import opened Outputs
  import opened Inputs

  class CompressionTask {
    const input: Input
    const output: Output

    constructor (input: Input, output: Output)
      ensures this.input == input && this.output == output
    {
      this.input, this.output := input, output;
    }

    /** Both handlers are in order, and the writer has got exactly what the reader has read. */
    ghost predicate Linked()
      reads input, output, output.views.Keys
    {
      && input.Valid() && output.Inv({}) && input.image == output.image && input.info.size == output.srcSize
      && output.received == (if input.pos < input.info.size then input.pos else Shl(NumBlocks(output.plan, output.image), output.plan.blockShift))
    }

    /** Reading is paused exactly while no sector is free. */
    ghost predicate Throttled()
      reads input, output
    {
      input.paused <==> output.freeSectors == []
    }

    /** One read chain: a request, or a note to go on after the pause, or the end of the source. */
    ghost predicate OneChain()
      reads input
    {
      if input.request != Idle then !input.resumeShouldRead && !input.paused && input.pos < input.info.size
      else if input.pos < input.info.size then input.resumeShouldRead && input.paused
      else !input.resumeShouldRead
    }

    ghost predicate Settled()
      reads output
    {
      output.HeadBusy() && (output.first == NumBlocks(output.plan, output.image) ==> output.dataWritten)
    }

    ghost predicate Inv()
      reads input, output, output.views.Keys
    {
      Linked() && Throttled() && OneChain() && Settled()
    }

    /** Pending work, weighted so that every step makes it smaller. */
    ghost function Work(): int
      reads input, output
    {
      Weight(input.request) + 4 * (input.info.size - input.pos) + |output.jobs| + 4 * (NumBlocks(output.plan, output.image) - output.first)
      + (if output.indexWritten then 0 else 1)
    }

    /** The callback given to Pipe, and the step to the next sector. */
    method Deliver(data: seq<byte>)
      requires Linked() && Throttled() && !input.paused && input.request == Idle && CacheOk(input.cache, input.cachePos, input.file)
      requires input.pos < input.info.size && IsSector(input.image, input.pos, data)
      modifies input`pos, input`paused, output, output.views.Keys
      ensures Linked() && Throttled() && input.pos == old(input.pos) + SECTOR_SIZE && output.views.Keys == old(output.views.Keys)
      ensures output.first == old(output.first) && output.dataWritten == old(output.dataWritten) && (old(Settled()) ==> Settled())
      ensures Work() < old(Work()) - 8
    {
      hide Represents, PlanOk, CacheOk, CacheSize, Output.Inv, Input.Valid;
      input.ServesNow();
      output.Enqueue(input.pos, data);
      if output.freeSectors == [] {
        input.Pause();
      }
      input.Advance();
    }

    /** ReadSector: goes on until it has to wait for a read, a decompression or a free sector. */
    method ReadSector()
      requires Linked() && Throttled() && input.request == Idle && !input.resumeShouldRead
      modifies input, output, output.views.Keys
      ensures Linked() && Throttled() && OneChain() && output.views.Keys == old(output.views.Keys)
      ensures output.first == old(output.first) && output.dataWritten == old(output.dataWritten) && (old(Settled()) ==> Settled())
      ensures Work() <= old(Work()) + 2
      decreases input.info.size - input.pos
    {
      hide Represents, PlanOk, CacheOk, CacheSize, Output.Inv, Input.Valid, IsSector;
      if input.pos >= input.info.size {
        return;
      }
      if input.paused {
        input.Postpone();
        return;
      }
      var data := input.NextRequest();
      if data.Some? {
        Deliver(data.value);
        ReadSector();
      }
    }

    /** The sub-block loop: delivers the sectors of a decompressed block until reading is paused. */
    method DeliverBlock(block: seq<byte>, offset: nat)
      requires Linked() && Throttled() && !input.paused && input.request == Idle && CacheOk(input.cache, input.cachePos, input.file)
      requires input.pos < input.info.size == |input.image| && offset < |block| && offset <= input.pos && InImage(input.image, input.pos - offset, block)
      requires Whole(offset) && Whole(|block|)
      modifies input`pos, input`paused, output, output.views.Keys
      ensures Linked() && Throttled() && output.views.Keys == old(output.views.Keys)
      ensures output.first == old(output.first) && output.dataWritten == old(output.dataWritten) && (old(Settled()) ==> Settled())
      ensures Work() < old(Work()) - 8
    {
      hide Represents, PlanOk, CacheOk, CacheSize, Output.Inv, Input.Valid, IsSector, InImage, Whole;
      ghost var start := input.pos - offset;
      var suboffset := offset;
      var more := true;
      while more
        invariant Linked() && Throttled() && output.views.Keys == old(output.views.Keys)
        invariant output.first == old(output.first) && output.dataWritten == old(output.dataWritten) && (old(Settled()) ==> Settled())
        invariant more ==> suboffset < |block| && !input.paused && Work() <= old(Work())
        invariant Whole(suboffset) && input.pos == start + suboffset && suboffset <= |block|
        invariant !more ==> Work() < old(Work()) - 8
        decreases |block| - suboffset, more
      {
        SubSector(input.image, start, block, suboffset);
        var last := suboffset + SECTOR_SIZE >= |block|;
        Deliver(block[suboffset..suboffset + SECTOR_SIZE]);
        suboffset := suboffset + SECTOR_SIZE;
        more := !last && !input.paused;
      }
    }

    /** A read is done. */
    method StepRead()
      requires Inv() && input.request.Read?
      modifies input, output, output.views.Keys
      ensures Inv() && Work() < old(Work()) && output.views.Keys == old(output.views.Keys)
    {
      hide Represents, PlanOk, CacheOk, CacheSize, Output.Inv, Input.Valid, IsSector;
      var ok, data := input.ReadDone();
      if data.Some? {
        Deliver(data.value);
        ReadSector();
      }
    }

    /** A decompression is done. */
    method StepUnpack()
      requires Inv() && input.request.Unpack?
      modifies input, output, output.views.Keys
      ensures Inv() && Work() < old(Work()) && output.views.Keys == old(output.views.Keys)
    {
      hide Represents, PlanOk, CacheOk, CacheSize, Output.Inv, Input.Valid, IsSector;
      var ok, block, offset := input.UnpackDone();
      DeliverBlock(block, offset);
      ReadSector();
    }

    /** A compression job is done. */
    method StepJob(sector: Sector)
      requires Inv() && sector in output.jobs
      modifies input, output, output.views.Keys
      ensures Inv() && Work() < old(Work()) && output.views.Keys == old(output.views.Keys)
    {
      hide Represents, PlanOk, CacheOk, CacheSize, Output.Inv, Input.Valid, IsSector;
      output.JobDone(sector);
    }

    /** A data write is done: the sectors are free again, reading is resumed, and the next batch is written. */
    method StepWrite()
      requires Inv() && output.write.Some?
      modifies input, output, output.views.Keys
      ensures Inv() && Work() < old(Work()) && output.views.Keys == old(output.views.Keys)
    {
      hide Represents, PlanOk, CacheOk, CacheSize, Output.Inv, Input.Valid, IsSector;
      var nextPos := output.write.value.nextPos;
      output.Written();
      var read := input.Resume();
      if read {
        ReadSector();
      }
      output.AfterProgress(nextPos);
    }

    /** Header and index are written. */
    method StepFlush()
      requires Inv() && output.flush.Some?
      modifies input, output, output.views.Keys
      ensures Inv() && Work() < old(Work()) && output.views.Keys == old(output.views.Keys)
    {
      hide Represents, PlanOk, CacheOk, CacheSize, Output.Inv, Input.Valid, IsSector;
      output.FlushDone();
    }

    /** Something is outstanding for the event loop. */
    ghost predicate Busy()
      reads input, output
    {
      input.request != Idle || output.jobs != {} || output.write.Some? || output.flush.Some?
    }

    /** No deadlock: as long as success has not been reported, something is outstanding, even with a partly
        filled block and no free sector. */
    lemma NeverStuck()
      requires Inv() && output.successes == 0
      ensures Busy()
    {
      hide Represents, PlanOk, Output.Tied, Output.Positions, Input.Valid, PendingOk, PartialsOk, IndexOk, NumBlocks, Shl, BlockCount, Head;
      var o := output;
      if o.lanes == [] {
        EmptyLanes(o.lanes, o.freeSectors, o.views, o.plan, o.image, o.first, o.received);
      } else {
        FirstLane(o.lanes, o.freeSectors, o.views, o.plan, o.image, o.first, o.received, o.jobs, o.write);
      }
    }

    /** Success means that the whole file is written, and nothing is left to happen that could report again. */
    lemma DoneIsDone()
      requires Inv() && output.successes != 0
      ensures output.successes == 1 && output.failures == 0 && !Busy()
      ensures output.file == FinalFile(output.plan, output.image)
    {
      hide Represents, PlanOk, Output.Tied, Input.Valid, PendingOk, PartialsOk, IndexOk, NumBlocks, Shl, BlockCount, Head, FileAt, Start, Body;
      var o := output;
      o.PlanFacts();
      LanesWithin(o.lanes, o.freeSectors, o.views, o.plan, o.image, o.first, o.received);
      AllReceived(o.lanes, o.freeSectors, o.views, o.plan, o.image, o.first, o.received, input.pos, input.info.size);
      NoLanesNoJobs(o.jobs, o.lanes);
    }

    /** A whole run: the event loop completes what is outstanding in any order. Every run ends, with success
        reported once, no failure, and the file that a writer handling one block at a time would produce. */
    method Run()
      requires Inv()
      modifies input, output, output.views.Keys
      ensures Inv() && !Busy() && output.successes == 1 && output.failures == 0
      ensures output.file == FinalFile(output.plan, output.image)
    {
      hide Linked, FinalFile;
      while output.successes == 0
        invariant Inv() && output.views.Keys == old(output.views.Keys)
        decreases Work()
      {
        WorkLeft();
        NeverStuck();
        if
        case input.request.Read? =>
          StepRead();
        case input.request.Unpack? =>
          StepUnpack();
        case output.jobs != {} =>
          var sector :| sector in output.jobs;
          StepJob(sector);
        case output.write.Some? =>
          StepWrite();
        case output.flush.Some? =>
          StepFlush();
      }
      DoneIsDone();
    }

    lemma WorkLeft()
      requires Inv()
      ensures Work() >= 0
    {
      hide Represents, PlanOk, Output.Tied, PendingOk, PartialsOk, IndexOk, NumBlocks, PoolOk, Shl, FileAt, Start, StateOk;
    }
  }

  lemma EmptyLanes(lanes: seq<Lane>, free: seq<Sector>, views: map<Sector, SectorView>, p: Plan, image: seq<byte>, first: nat, received: nat)
    requires PoolOk(lanes, free, views, p, image, first, received) && lanes == []
    ensures |free| == QUEUE_SIZE && (received == Shl(NumBlocks(p, image), p.blockShift) ==> first == NumBlocks(p, image))
  {
    hide Shl, BlockCount, LanesHold, FreeIdle, Distinct;
    CountWithin(NumBlocks(p, image), 0, p.blockShift);
  }

  /** The first lane's block has a job or a write outstanding, unless it is partial and the only one. */
  lemma FirstLane(lanes: seq<Lane>, free: seq<Sector>, views: map<Sector, SectorView>, p: Plan, image: seq<byte>, first: nat, received: nat,
                  jobs: set<Sector>, write: Option<WriteReq>)
    requires PoolOk(lanes, free, views, p, image, first, received) && lanes != [] && lanes[0].stage != Ready
    requires JobsOk(jobs, lanes) && WriteOk(write, lanes, p, image, first)
    ensures jobs != {} || write.Some? || (|free| > 0 && received < Shl(NumBlocks(p, image), p.blockShift))
  {
    hide Shl, BlockCount, FreeIdle, Distinct, Offers, NumBlocks;
    if lanes[0].stage == Partial {
      OnlyLastPartial(lanes, free, views, p, image, first, received, 0);
      LanesWithin(lanes, free, views, p, image, first, received);
      PartialShort(views[lanes[0].sector], p, image, first, received);
      ShlMono(first + 1, NumBlocks(p, image), p.blockShift);
    }
  }

  lemma PartialShort(v: SectorView, p: Plan, image: seq<byte>, b: nat, received: nat)
    requires Holds(v, Partial, p, image, b, received)
    ensures received < Shl(b + 1, p.blockShift)
  {
    hide Shl, BlockOf, ChoiceFor, NumBlocks;
    NextBlock(b, p.blockShift);
  }

  lemma AllReceived(lanes: seq<Lane>, free: seq<Sector>, views: map<Sector, SectorView>, p: Plan, image: seq<byte>, first: nat, received: nat, pos: nat, size: nat)
    requires PoolOk(lanes, free, views, p, image, first, received) && first == NumBlocks(p, image) && size == |image|
    requires received == if pos < size then pos else Shl(first, p.blockShift)
    ensures pos >= size
  {
    hide Shl, LanesHold, FreeIdle, Distinct;
    BlockCountBounds(|image|, p.blockShift);
  }

  lemma NoLanesNoJobs(jobs: set<Sector>, lanes: seq<Lane>)
    requires JobsOk(jobs, lanes) && lanes == []
    ensures jobs == {}
  {
    assert forall s :: s !in jobs;
  }

  /** The bytes are those of the image at pos. */
  ghost predicate InImage(image: seq<byte>, pos: nat, block: seq<byte>) {
    pos + |block| <= |image| && block == image[pos..pos + |block|]
  }

  lemma SubSector(image: seq<byte>, pos: nat, block: seq<byte>, sub: nat)
    requires InImage(image, pos, block) && Whole(sub) && Whole(|block|) && sub < |block|
    ensures sub + SECTOR_SIZE <= |block| && Whole(sub + SECTOR_SIZE)
    ensures IsSector(image, pos + sub, block[sub..sub + SECTOR_SIZE]) && pos + sub < |image|
  {
    SectorStep(sub, |block|);
    SliceSlice(image, pos, pos + |block|, sub, sub + SECTOR_SIZE);
  }

  ghost function Weight(r: Request): nat {
    match r
    case Idle => 0
    case Unpack(_, _) => 1
    case Read(_) => 2
  }

  method NewSectors(setup: Setup) returns (sectors: seq<Sector>)
    ensures |sectors| == 32 && (forall i, j :: 0 <= i < j < |sectors| ==> sectors[i] != sectors[j])
    ensures forall i :: 0 <= i < |sectors| ==> fresh(sectors[i]) && IsIdle(sectors[i].View()) && sectors[i].setup == setup
  {
    sectors := [];
    for n := 0 to QUEUE_SIZE
      invariant |sectors| == n && (forall i, j :: 0 <= i < j < n ==> sectors[i] != sectors[j])
      invariant forall i :: 0 <= i < n ==> fresh(sectors[i]) && IsIdle(sectors[i].View()) && sectors[i].setup == setup
    {
      var s := new Sector(setup);
      sectors := sectors + [s];
    }
  }

  /** Converting a container for an image into another: for every schedule the result is the same, and it is
      again a container for the image, unless the end position does not fit (or a plain image looks like a
      container). */
  method Convert(file: seq<byte>, codec: Codec, plan: Plan, ghost image: seq<byte>) returns (result: seq<byte>)
    requires Represents(file, image, codec) && PlanOk(plan, image) && Lossless(plan, codec)
    ensures result == FinalFile(plan, image)
    ensures plan.kind != Iso ==> (Represents(result, image, codec) <==> EndFits(plan, image))
    ensures plan.kind == Iso ==> result == image && (!IsMagic(image) ==> Represents(result, image, codec))
  {
    hide Represents, PlanOk, Lossless, FinalFile, EndFits, IsMagic, CompressionTask.Inv;
    var task := Begin(file, codec, plan, image);
    task.Run();
    result := task.output.file;
    if plan.kind == Iso {
      IsoFile(plan, image);
      IsoResult(plan, image, codec);
    } else {
      FinalRepresents(plan, image, codec);
    }
  }

  /** BeginProcessing: both handlers are set up, and reading begins. */
  method Begin(file: seq<byte>, codec: Codec, plan: Plan, ghost image: seq<byte>) returns (task: CompressionTask)
    requires Represents(file, image, codec) && PlanOk(plan, image)
    ensures fresh(task) && fresh(task.input) && fresh(task.output) && fresh(task.output.views.Keys)
    ensures task.Inv() && task.output.plan == plan && task.output.image == image
  {
    hide Represents, PlanOk, Output.Inv, Input.Valid, Sector.View, IsIdle, Shl, NumBlocks, Detect, FirstPos, ShiftFrom, IndexShift;
    SetupFacts(file, codec, plan, image);
    SomeBlock(plan, image);
    WholeImage(plan, image);
    var size := Detect(file).info.size;
    var shift := PickShift(plan.kind, FirstPos(plan.kind, BlockCount(size, plan.blockShift)) + size);
    var sectors := NewSectors(Setup(plan.blockShift, shift, plan.costs));
    var output := new Output(plan, image, size, sectors);
    var input := new Input(file, codec, image);
    task := new CompressionTask(input, output);
    task.ReadSector();
  }

  lemma IsoResult(p: Plan, image: seq<byte>, codec: Codec)
    requires PlanOk(p, image)
    ensures !IsMagic(image) ==> Represents(image, image, codec)
  {
    hide IsMagic, Represents;
    WholeImage(p, image);
    if !IsMagic(image) {
      IsoRepresents(image, codec);
    }
  }

  lemma SetupFacts(file: seq<byte>, codec: Codec, p: Plan, image: seq<byte>)
    requires Represents(file, image, codec) && PlanOk(p, image)
    ensures Detect(file).Ok? && Detect(file).info.size == |image|
    ensures IndexShift(p, image) == if p.kind == Iso then 0 else ShiftFrom(FirstPos(p.kind, BlockCount(|image|, p.blockShift)) + |image|, 62)
  {
    hide Detect, Serves, Locate;
  }
}
