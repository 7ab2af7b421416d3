/** The sectors of Output and the blocks they work on, as values: every block from the first one not yet
    written up to the last one received has its own sector, in a certain stage; all other sectors are free. */
module Lanes {
  import opened Sums
  import opened Bits
  import opened Blocks
  import opened Sectors
  import opened CsoFormat
  import opened CsoWriter
  import opened ContainerRoundTrip

  const QUEUE_SIZE: nat := 32

  datatype Stage = Partial | Compressing | Ready | Writing
  datatype Lane = Lane(sector: Sector, stage: Stage)

  ghost function SetupFor(p: Plan, image: seq<byte>): Setup {
    Setup(p.blockShift, IndexShift(p, image), p.costs)
  }

  /** The sector holds the first `received` bytes of the padded image, as far as they belong to block b. */
  ghost predicate Holds(v: SectorView, stage: Stage, p: Plan, image: seq<byte>, b: nat, received: nat) {
    var k := p.blockShift;
    && b < NumBlocks(p, image) && v.busy && v.pos == Shl(b, k) && v.compress == (p.kind != Iso)
    && (v.enqueued ==> stage != Partial)
    && v.readySize <= |v.buffer| && v.readySize <= Pow2(k)
    && v.buffer[..v.readySize] == BlockOf(image, k, b)[..v.readySize]
    && (stage == Partial <==> v.readySize < Pow2(k))
    && (if stage == Partial then received == Shl(b, k) + v.readySize else Shl(b, k) + Pow2(k) <= received)
    && (stage == Compressing ==> p.kind != Iso)
    && v.choice == if stage == Partial || stage == Compressing then Uncompressed(Pow2(k)) else ChoiceFor(p, image, b)
  }

  ghost predicate Distinct(lanes: seq<Lane>, free: seq<Sector>) {
    && (forall i, j :: 0 <= i < j < |lanes| ==> lanes[i].sector != lanes[j].sector)
    && (forall i, j :: 0 <= i < j < |free| ==> free[i] != free[j])
    && (forall i, j :: 0 <= i < |lanes| && 0 <= j < |free| ==> lanes[i].sector != free[j])
  }

  /** Lane i works on block first + i. */
  ghost predicate LanesHold(lanes: seq<Lane>, views: map<Sector, SectorView>, p: Plan, image: seq<byte>, first: nat, received: nat) {
    forall i :: 0 <= i < |lanes| ==>
      lanes[i].sector in views && Holds(views[lanes[i].sector], lanes[i].stage, p, image, first + i, received)
  }

  ghost predicate FreeIdle(free: seq<Sector>, views: map<Sector, SectorView>) {
    forall i :: 0 <= i < |free| ==> free[i] in views && IsIdle(views[free[i]])
  }

  /** No sector is lost or used twice. */
  ghost predicate PoolOk(lanes: seq<Lane>, free: seq<Sector>, views: map<Sector, SectorView>, p: Plan, image: seq<byte>, first: nat, received: nat) {
    && |lanes| + |free| == QUEUE_SIZE && Distinct(lanes, free) && LanesHold(lanes, views, p, image, first, received) && FreeIdle(free, views)
    && first + |lanes| == BlockCount(received, p.blockShift)
    && Shl(first, p.blockShift) <= received <= Shl(NumBlocks(p, image), p.blockShift)
  }

  /** pendingSectors_ holds the ready lanes, except those in out. */
  ghost predicate PendingOk(pending: map<nat, Sector>, lanes: seq<Lane>, first: nat, k: nat, out: set<nat>) {
    && (forall i :: 0 <= i < |lanes| && lanes[i].stage == Ready && i !in out ==>
          Shl(first + i, k) in pending && pending[Shl(first + i, k)] == lanes[i].sector)
    && (forall pos :: pos in pending ==> exists i :: 0 <= i < |lanes| && pos == Shl(first + i, k) && lanes[i].stage == Ready && i !in out)
  }

  /** partialSectors_ holds the lanes that are filled or compressed, if blocks are larger than sectors. */
  ghost predicate PartialOk(partials: map<nat, Sector>, lanes: seq<Lane>, first: nat, k: nat) {
    forall b :: b in partials <==> (k > 11 && first <= b < first + |lanes| && lanes[b - first].stage in {Partial, Compressing})
  }

  ghost predicate PartialSectors(partials: map<nat, Sector>, lanes: seq<Lane>, first: nat) {
    forall b :: b in partials && first <= b < first + |lanes| ==> partials[b] == lanes[b - first].sector
  }

  /** The compression jobs are those of the compressing lanes. */
  ghost predicate JobsOk(jobs: set<Sector>, lanes: seq<Lane>) {
    && (forall i :: 0 <= i < |lanes| && lanes[i].stage == Compressing ==> lanes[i].sector in jobs)
    && (forall s :: s in jobs ==> exists i :: 0 <= i < |lanes| && lanes[i] == Lane(s, Compressing))
  }

  /** The number of lanes being written: they come first. */
  ghost predicate WritingOk(lanes: seq<Lane>, n: nat) {
    n <= |lanes| && forall i :: 0 <= i < |lanes| ==> (lanes[i].stage == Writing <==> i < n)
  }

  lemma CountWithin(b: nat, r: nat, k: nat)
    requires r <= Pow2(k)
    ensures BlockCount(Shl(b, k) + r, k) == if r == 0 then b else b + 1
  {
    NextBlock(b, k);
    if r == 0 {
      Join(b, Pow2(k) - 1, k);
    } else {
      Join(b + 1, r - 1, k);
    }
  }

  /** The last lane is to get the next sector of the image; if it was just opened, its sector was free. */
  ghost predicate Target(lanes: seq<Lane>, free: seq<Sector>, views: map<Sector, SectorView>, p: Plan, image: seq<byte>, first: nat, received: nat) {
    && |lanes| > 0 && lanes[|lanes| - 1].stage == Partial
    && (|| PoolOk(lanes, free, views, p, image, first, received)
        || (PoolOk(lanes[..|lanes| - 1], free + [lanes[|lanes| - 1].sector], views, p, image, first, received)
            && received == Shl(first + |lanes| - 1, p.blockShift)))
  }

  /** Taking a sector from the free ones for the next block. */
  lemma OpenLane(lanes: seq<Lane>, free: seq<Sector>, views: map<Sector, SectorView>, p: Plan, image: seq<byte>, first: nat, received: nat)
    requires PoolOk(lanes, free, views, p, image, first, received) && |free| > 0 && received == Shl(first + |lanes|, p.blockShift)
    ensures Target(lanes + [Lane(free[|free| - 1], Partial)], free[..|free| - 1], views, p, image, first, received)
  {
    hide PoolOk;
    var n := |free| - 1;
    var more := lanes + [Lane(free[n], Partial)];
    assert more[..|lanes|] == lanes && free[..n] + [free[n]] == free;
  }

  /** A position inside a block belongs to the last lane, which is partial. */
  lemma LastPartial(lanes: seq<Lane>, free: seq<Sector>, views: map<Sector, SectorView>, p: Plan, image: seq<byte>, first: nat, received: nat)
    requires PoolOk(lanes, free, views, p, image, first, received) && Low(received, p.blockShift) != 0
    ensures Target(lanes, free, views, p, image, first, received) && first + |lanes| == Shr(received, p.blockShift) + 1
    ensures |lanes| > 0 && lanes[|lanes| - 1].stage == Partial
  {
    hide Shl, Shr, Low, Distinct, FreeIdle, BlockCount, BlockOf, ChoiceFor;
    Split(received, p.blockShift);
    var b := Shr(received, p.blockShift);
    CountWithin(b, Low(received, p.blockShift), p.blockShift);
    NextBlock(b, p.blockShift);
    ShlMono(first, b + 1, p.blockShift);
    assert lanes[|lanes| - 1].sector in views;
  }

  ghost predicate FitsNext(p: Plan, image: seq<byte>, received: nat, data: seq<byte>) {
    && |data| == SECTOR_SIZE && received % SECTOR_SIZE == 0 && received + SECTOR_SIZE <= |Padded(image, p.blockShift)|
    && data == Padded(image, p.blockShift)[received..received + SECTOR_SIZE]
  }

  /** The stage after the next sector. */
  function StageAfter(readySize: nat, p: Plan): Stage {
    if readySize < Pow2(p.blockShift) then Partial else if p.kind == Iso then Ready else Compressing
  }

  /** The sector before it takes in more of its block. */
  ghost predicate Accepts(v: SectorView, p: Plan, image: seq<byte>, b: nat, received: nat) {
    (IsIdle(v) && received == Shl(b, p.blockShift) && b < NumBlocks(p, image)) || Holds(v, Partial, p, image, b, received)
  }

  lemma Appended(buffer: seq<byte>, n: nat, data: seq<byte>)
    requires n <= |buffer|
    ensures Overwrite(buffer, n, data)[..n + |data|] == buffer[..n] + data
  {
  }

  /** The next sector of a block makes what is held a longer prefix of the block. */
  lemma PrefixGrows(image: seq<byte>, k: nat, b: nat, n: nat, data: seq<byte>)
    requires b < BlockCount(|image|, k) && n + |data| <= Pow2(k) && Shl(b, k) + n + |data| <= |Padded(image, k)|
    requires data == Padded(image, k)[Shl(b, k) + n..Shl(b, k) + n + |data|]
    ensures BlockOf(image, k, b)[..n + |data|] == BlockOf(image, k, b)[..n] + data
  {
    hide Shl, Pow2, BlockCount, Padded;
    NextBlock(b, k);
    ShlMono(b + 1, BlockCount(|image|, k), k);
    var padded, start, m := Padded(image, k), Shl(b, k), n + |data|;
    SliceSlice(padded, start, Shl(b + 1, k), n, m);
    var block := BlockOf(image, k, b);
    assert block[..m] == block[..n] + block[n..m];
  }

  /** Where the next sector of the block goes. */
  lemma GatherPlace(v: SectorView, p: Plan, image: seq<byte>, b: nat, received: nat, data: seq<byte>)
    requires 11 <= p.blockShift && Accepts(v, p, image, b, received) && FitsNext(p, image, received, data)
    ensures b < NumBlocks(p, image) && received == Shl(b, p.blockShift) + v.readySize
    ensures v.readySize <= |v.buffer| && v.readySize + SECTOR_SIZE <= Pow2(p.blockShift)
    ensures received - Low(received, p.blockShift) == Shl(b, p.blockShift) && (v.busy ==> v.pos == Shl(b, p.blockShift))
  {
    hide Shl, Low, Pow2, NumBlocks, BlockCount, BlockOf, Padded;
    var k := p.blockShift;
    Join(b, 0, k);
    Join(b, v.readySize, k);
    Split(received, k);
    WholeSectors(k);
    WholeBlocks(b, k);
  }

  lemma GatherHolds(v: SectorView, p: Plan, image: seq<byte>, b: nat, received: nat, data: seq<byte>)
    requires 11 <= p.blockShift && Accepts(v, p, image, b, received) && FitsNext(p, image, received, data)
    ensures (v.busy ==> v.pos <= received) && !v.enqueued && (p.kind != Iso ==> v.compress)
    ensures var w := Gathered(v.(compress := p.kind != Iso), received, data, p.blockShift);
      && Shl(b, p.blockShift) == w.pos <= received && received + SECTOR_SIZE <= w.pos + Pow2(p.blockShift)
      && Holds(w.(enqueued := StageAfter(w.readySize, p) == Compressing), StageAfter(w.readySize, p), p, image, b, received + SECTOR_SIZE)
  {
    hide Shl, Low, Pow2, NumBlocks, BlockCount, BlockOf, Padded, Overwrite;
    var k, n := p.blockShift, v.readySize;
    CountIs(p, image);
    GatherPlace(v, p, image, b, received, data);
    Appended(v.buffer, n, data);
    PrefixGrows(image, k, b, n, data);
  }

  /** The target lane's sector accepts the next sector. */
  lemma TargetAccepts(lanes: seq<Lane>, free: seq<Sector>, views: map<Sector, SectorView>, p: Plan, image: seq<byte>, first: nat, received: nat)
    requires Target(lanes, free, views, p, image, first, received) && received < Shl(NumBlocks(p, image), p.blockShift)
    ensures var n := |lanes| - 1;
      lanes[n].sector in views && Accepts(views[lanes[n].sector], p, image, first + n, received)
  {
    hide Shl, Holds, IsIdle, NumBlocks, BlockCount, Distinct;
    var n := |lanes| - 1;
    var s := lanes[n].sector;
    if !PoolOk(lanes, free, views, p, image, first, received) {
      assert (free + [s])[|free|] == s;
      ShlMono(first + n, NumBlocks(p, image), p.blockShift);
    }
  }

  lemma LanesMove(lanes: seq<Lane>, views: map<Sector, SectorView>, p: Plan, image: seq<byte>, first: nat, received: nat, more: nat)
    requires LanesHold(lanes, views, p, image, first, received) && received <= more
    requires forall i :: 0 <= i < |lanes| ==> lanes[i].stage != Partial
    ensures LanesHold(lanes, views, p, image, first, more)
  {
    hide Shl, BlockOf, ChoiceFor, NumBlocks;
    forall i | 0 <= i < |lanes|
      ensures Holds(views[lanes[i].sector], lanes[i].stage, p, image, first + i, more)
    {
      assert Holds(views[lanes[i].sector], lanes[i].stage, p, image, first + i, received);
    }
  }

  /** Only the last lane can be partial. */
  lemma OnlyLastPartial(lanes: seq<Lane>, free: seq<Sector>, views: map<Sector, SectorView>, p: Plan, image: seq<byte>, first: nat, received: nat, i: nat)
    requires PoolOk(lanes, free, views, p, image, first, received) && i < |lanes| && lanes[i].stage == Partial
    ensures i == |lanes| - 1 && (received == Shl(first + i, p.blockShift) + views[lanes[i].sector].readySize)
  {
    hide Shl, BlockOf, ChoiceFor, NumBlocks, Distinct, FreeIdle, BlockCount;
    var b, r := first + i, views[lanes[i].sector].readySize;
    assert Holds(views[lanes[i].sector], Partial, p, image, b, received);
    CountWithin(b, r, p.blockShift);
  }

  /** All lanes before the target are complete. */
  lemma EarlierComplete(lanes: seq<Lane>, free: seq<Sector>, views: map<Sector, SectorView>, p: Plan, image: seq<byte>, first: nat, received: nat)
    requires Target(lanes, free, views, p, image, first, received)
    ensures var n := |lanes| - 1;
      && LanesHold(lanes[..n], views, p, image, first, received)
      && (forall i :: 0 <= i < n ==> lanes[..n][i].stage != Partial)
  {
    hide Shl, Distinct, FreeIdle, BlockCount, BlockOf, ChoiceFor, NumBlocks;
    var n := |lanes| - 1;
    forall i | 0 <= i < n
      ensures lanes[..n][i].stage != Partial
    {
      if lanes[i].stage == Partial {
        if PoolOk(lanes, free, views, p, image, first, received) {
          OnlyLastPartial(lanes, free, views, p, image, first, received, i);
        } else {
          OnlyLastPartial(lanes[..n], free + [lanes[n].sector], views, p, image, first, received, i);
          NextBlock(first + i, p.blockShift);
          assert false;
        }
      }
    }
  }

  lemma TargetDistinct(lanes: seq<Lane>, free: seq<Sector>, views: map<Sector, SectorView>, p: Plan, image: seq<byte>, first: nat, received: nat)
    requires Target(lanes, free, views, p, image, first, received)
    ensures |lanes| + |free| == QUEUE_SIZE && Distinct(lanes, free) && FreeIdle(free, views) && Shl(first, p.blockShift) <= received
  {
    hide Shl, BlockCount, LanesHold, IsIdle;
    var n := |lanes| - 1;
    var s := lanes[n].sector;
    if !PoolOk(lanes, free, views, p, image, first, received) {
      var all := free + [s];
      assert all[|free|] == s && all[..|free|] == free;
      forall i | 0 <= i < |free|
        ensures free[i] in views && IsIdle(views[free[i]]) && free[i] != s
      {
        assert all[i] == free[i];
      }
      forall i, j | 0 <= i < j < |lanes|
        ensures lanes[i].sector != lanes[j].sector
      {
        assert lanes[..n][i].sector == lanes[i].sector;
        assert j < n ==> lanes[..n][j].sector == lanes[j].sector;
      }
      forall i, j | 0 <= i < |lanes| && 0 <= j < |free|
        ensures lanes[i].sector != free[j]
      {
        assert all[j] == free[j];
        assert i < n ==> lanes[..n][i].sector == lanes[i].sector;
      }
    }
  }

  lemma FeedKeeps(lanes: seq<Lane>, free: seq<Sector>, views: map<Sector, SectorView>, p: Plan, image: seq<byte>, first: nat, received: nat, v: SectorView, stage: Stage)
    requires |lanes| > 0
    requires Target(lanes, free, views, p, image, first, received) && received + SECTOR_SIZE <= Shl(NumBlocks(p, image), p.blockShift)
    requires Holds(v, stage, p, image, first + |lanes| - 1, received + SECTOR_SIZE)
    requires Shl(first + |lanes| - 1, p.blockShift) <= received
    requires received + SECTOR_SIZE <= Shl(first + |lanes| - 1, p.blockShift) + Pow2(p.blockShift)
    ensures var n := |lanes| - 1;
      PoolOk(lanes[n := Lane(lanes[n].sector, stage)], free, views[lanes[n].sector := v], p, image, first, received + SECTOR_SIZE)
  {
    hide Shl, Holds, IsIdle, NumBlocks, BlockCount, Target;
    var n := |lanes| - 1;
    var s := lanes[n].sector;
    var before, more := lanes[..n], received + SECTOR_SIZE;
    EarlierComplete(lanes, free, views, p, image, first, received);
    LanesMove(before, views, p, image, first, received, more);
    var lanes', views' := lanes[n := Lane(s, stage)], views[s := v];
    TargetDistinct(lanes, free, views, p, image, first, received);
    forall i | 0 <= i < |lanes'|
      ensures lanes'[i].sector in views' && Holds(views'[lanes'[i].sector], lanes'[i].stage, p, image, first + i, more)
    {
      if i < n {
        assert lanes'[i] == before[i] && lanes[i].sector != s;
      }
    }
    CountWithin(first + n, more - Shl(first + n, p.blockShift), p.blockShift);
  }

  /** A lane entering a stage other than Ready. */
  lemma StageKeepsPending(pending: map<nat, Sector>, lanes: seq<Lane>, first: nat, k: nat, out: set<nat>, i: nat, stage: Stage)
    requires PendingOk(pending, lanes, first, k, out) && i < |lanes| && (lanes[i].stage != Ready || i in out)
    ensures PendingOk(pending, lanes[i := Lane(lanes[i].sector, stage)], first, k, if stage == Ready then out + {i} else out)
  {
    hide Shl;
    var lanes' := lanes[i := Lane(lanes[i].sector, stage)];
    var out' := if stage == Ready then out + {i} else out;
    forall pos | pos in pending
      ensures exists j :: 0 <= j < |lanes'| && pos == Shl(first + j, k) && lanes'[j].stage == Ready && j !in out'
    {
      var j :| 0 <= j < |lanes| && pos == Shl(first + j, k) && lanes[j].stage == Ready && j !in out;
      assert lanes'[j] == lanes[j];
    }
  }

  lemma OpenKeepsPending(pending: map<nat, Sector>, lanes: seq<Lane>, first: nat, k: nat, out: set<nat>, s: Sector)
    requires PendingOk(pending, lanes, first, k, out)
    ensures PendingOk(pending, lanes + [Lane(s, Partial)], first, k, out)
  {
    hide Shl;
    var lanes' := lanes + [Lane(s, Partial)];
    forall pos | pos in pending
      ensures exists j :: 0 <= j < |lanes'| && pos == Shl(first + j, k) && lanes'[j].stage == Ready && j !in out
    {
      var j :| 0 <= j < |lanes| && pos == Shl(first + j, k) && lanes[j].stage == Ready && j !in out;
      assert lanes'[j] == lanes[j];
    }
  }

  /** Queueing a ready lane. */
  lemma PutPending(pending: map<nat, Sector>, lanes: seq<Lane>, first: nat, k: nat, i: nat)
    requires PendingOk(pending, lanes, first, k, {i}) && i < |lanes| && lanes[i].stage == Ready
    ensures PendingOk(pending[Shl(first + i, k) := lanes[i].sector], lanes, first, k, {})
  {
    hide Shl;
    var pos' := Shl(first + i, k);
    var pending' := pending[pos' := lanes[i].sector];
    forall j | 0 <= j < |lanes| && lanes[j].stage == Ready
      ensures Shl(first + j, k) in pending' && pending'[Shl(first + j, k)] == lanes[j].sector
    {
      ShlMono(first + i, first + j, k);
      ShlMono(first + j, first + i, k);
    }
    forall pos | pos in pending'
      ensures exists j :: 0 <= j < |lanes| && pos == Shl(first + j, k) && lanes[j].stage == Ready && j !in {}
    {
      if pos == pos' {
        assert i !in {};
      } else {
        var j :| 0 <= j < |lanes| && pos == Shl(first + j, k) && lanes[j].stage == Ready && j !in {i};
        assert j !in {};
      }
    }
  }

  /** Taking a ready lane out of the queue. */
  lemma TakePending(pending: map<nat, Sector>, lanes: seq<Lane>, first: nat, k: nat, out: set<nat>, i: nat)
    requires PendingOk(pending, lanes, first, k, out) && i < |lanes| && Shl(first + i, k) in pending
    ensures lanes[i].stage == Ready && i !in out && pending[Shl(first + i, k)] == lanes[i].sector
    ensures PendingOk(pending - {Shl(first + i, k)}, lanes, first, k, out + {i})
  {
    hide Shl;
    var pos' := Shl(first + i, k);
    var h :| 0 <= h < |lanes| && pos' == Shl(first + h, k) && lanes[h].stage == Ready && h !in out;
    ShlMono(first + i, first + h, k);
    ShlMono(first + h, first + i, k);
    var pending' := pending - {pos'};
    forall j | 0 <= j < |lanes| && lanes[j].stage == Ready && j !in out + {i}
      ensures Shl(first + j, k) in pending' && pending'[Shl(first + j, k)] == lanes[j].sector
    {
      ShlMono(first + i, first + j, k);
      ShlMono(first + j, first + i, k);
    }
    forall pos | pos in pending'
      ensures exists j :: 0 <= j < |lanes| && pos == Shl(first + j, k) && lanes[j].stage == Ready && j !in out + {i}
    {
      var j :| 0 <= j < |lanes| && pos == Shl(first + j, k) && lanes[j].stage == Ready && j !in out;
      assert j != i;
      assert j !in out + {i};
    }
  }

  /** Only positions of lanes are queued. */
  lemma PendingAhead(pending: map<nat, Sector>, lanes: seq<Lane>, first: nat, k: nat, out: set<nat>, b: nat)
    requires PendingOk(pending, lanes, first, k, out) && Shl(b, k) in pending
    ensures first <= b < first + |lanes|
  {
    hide Shl;
    var j :| 0 <= j < |lanes| && Shl(b, k) == Shl(first + j, k) && lanes[j].stage == Ready && j !in out;
    ShlMono(b, first + j, k);
    ShlMono(first + j, b, k);
  }

  lemma StageKeepsJobs(jobs: set<Sector>, lanes: seq<Lane>, free: seq<Sector>, i: nat, stage: Stage)
    requires JobsOk(jobs, lanes) && i < |lanes| && Distinct(lanes, free)
    ensures var s := lanes[i].sector;
      JobsOk(if stage == Compressing then jobs + {s} else jobs - {s}, lanes[i := Lane(s, stage)])
    ensures lanes[i].stage != Compressing ==> jobs - {lanes[i].sector} == jobs
  {
    var s := lanes[i].sector;
    var lanes' := lanes[i := Lane(s, stage)];
    var jobs' := if stage == Compressing then jobs + {s} else jobs - {s};
    forall t | t in jobs'
      ensures exists j :: 0 <= j < |lanes'| && lanes'[j] == Lane(t, Compressing)
    {
      if t == s {
        assert lanes'[i] == Lane(t, Compressing);
      } else {
        var j :| 0 <= j < |lanes| && lanes[j] == Lane(t, Compressing);
        assert lanes'[j] == Lane(t, Compressing);
      }
    }
  }

  lemma OpenKeepsJobs(jobs: set<Sector>, lanes: seq<Lane>, s: Sector)
    requires JobsOk(jobs, lanes)
    ensures JobsOk(jobs, lanes + [Lane(s, Partial)])
  {
    var lanes' := lanes + [Lane(s, Partial)];
    forall t | t in jobs
      ensures exists j :: 0 <= j < |lanes'| && lanes'[j] == Lane(t, Compressing)
    {
      var j :| 0 <= j < |lanes| && lanes[j] == Lane(t, Compressing);
      assert lanes'[j] == Lane(t, Compressing);
    }
  }

  /** partialSectors_ as a whole. */
  ghost predicate PartialsOk(partials: map<nat, Sector>, lanes: seq<Lane>, first: nat, k: nat) {
    PartialOk(partials, lanes, first, k) && PartialSectors(partials, lanes, first)
  }

  lemma StageKeepsPartials(partials: map<nat, Sector>, lanes: seq<Lane>, first: nat, k: nat, i: nat, stage: Stage)
    requires PartialsOk(partials, lanes, first, k) && i < |lanes| && lanes[i].stage in {Partial, Compressing}
    ensures PartialsOk(if stage in {Partial, Compressing} then partials else partials - {first + i}, lanes[i := Lane(lanes[i].sector, stage)], first, k)
    ensures k == 11 ==> partials - {first + i} == partials
  {
  }

  lemma OpenKeepsPartials(partials: map<nat, Sector>, lanes: seq<Lane>, first: nat, k: nat, s: Sector)
    requires PartialsOk(partials, lanes, first, k)
    ensures PartialsOk(if k > 11 then partials[first + |lanes| := s] else partials, lanes + [Lane(s, Partial)], first, k)
  {
  }

  /** The worker's choice makes a compressing lane ready. */
  lemma CompressedHolds(v: SectorView, p: Plan, image: seq<byte>, b: nat, received: nat, c: Choice)
    requires Holds(v, Compressing, p, image, b, received) && c == ChoiceFor(p, image, b)
    ensures Holds(v.(choice := c), Ready, p, image, b, received)
  {
    hide BlockOf, ChoiceFor, Shl, NumBlocks;
  }

  lemma StageKeepsPool(lanes: seq<Lane>, free: seq<Sector>, views: map<Sector, SectorView>, p: Plan, image: seq<byte>, first: nat, received: nat, i: nat, v: SectorView, stage: Stage)
    requires PoolOk(lanes, free, views, p, image, first, received) && i < |lanes| && Holds(v, stage, p, image, first + i, received)
    ensures PoolOk(lanes[i := Lane(lanes[i].sector, stage)], free, views[lanes[i].sector := v], p, image, first, received)
  {
    hide Holds, IsIdle, Shl, BlockCount, NumBlocks;
    var s := lanes[i].sector;
    var lanes', views' := lanes[i := Lane(s, stage)], views[s := v];
    forall j | 0 <= j < |lanes'|
      ensures lanes'[j].sector in views' && Holds(views'[lanes'[j].sector], lanes'[j].stage, p, image, first + j, received)
    {
      assert j != i ==> lanes[j].sector != s;
    }
  }
}
