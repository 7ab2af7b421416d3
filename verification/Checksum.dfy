/** checksum.cpp: the CRC of an image whose sectors may arrive in any order. */
module Checksum {
  import opened Blocks
  import opened Crc32
  import opened Crc32Tables
  import opened Crc32ByFour
  import opened Xors

  /** The sector of the image at p. */
  ghost predicate SectorAt(image: seq<byte>, p: nat) {
    p % SECTOR_SIZE == 0 && p + SECTOR_SIZE <= |image|
  }

  /** The sectors waiting are those that arrived, from pos on. */
  ghost predicate Waiting(pending: map<nat, seq<byte>>, arrived: set<nat>, image: seq<byte>, pos: nat) {
    && (forall p :: p in arrived ==> SectorAt(image, p))
    && (forall p :: p in pending <==> p in arrived && p >= pos)
    && (forall p :: p in pending ==> pending[p] == image[p..p + SECTOR_SIZE])
    && (forall p: nat :: p < pos && SectorAt(image, p) ==> p in arrived)
  }

  ghost predicate CrcUpTo(image: seq<byte>, pos: nat, crc: nat) {
    pos <= |image| && pos % SECTOR_SIZE == 0 && crc < WORD32 && crc == Crc(0, image[..pos])
  }

  lemma CrcStep(image: seq<byte>, pos: nat, crc: nat)
    requires CrcUpTo(image, pos, crc) && SectorAt(image, pos)
    ensures CrcUpTo(image, pos + SECTOR_SIZE, Crc(crc, image[pos..pos + SECTOR_SIZE]))
  {
    hide Crc;
    var buffer := image[pos..pos + SECTOR_SIZE];
    assert image[..pos] + buffer == image[..pos + SECTOR_SIZE];
    CrcJoin(image[..pos], buffer);
    CrcSmall(crc, buffer);
  }

  class ChecksumTask {
    const table: array2<nat>
    const size: nat
    ghost const image: seq<byte>
    var pos: nat
    var crc: nat
    var pendingBuffers: map<nat, seq<byte>>
    var successes: nat
    ghost var arrived: set<nat>

    constructor (table: array2<nat>, size: nat, ghost image: seq<byte>)
      requires TablesOk(table) && size == |image| > 0 && size % SECTOR_SIZE == 0
      ensures Valid() && arrived == {} && this.image == image && this.table == table
    {
      this.table, this.size, this.image := table, size, image;
      pos, crc, pendingBuffers, successes, arrived := 0, 0, map[], 0, {};
      new;
      CrcOfNothing();
    }

    /** The CRC is that of the image up to pos, and the sector at pos has not arrived. */
    ghost predicate Valid()
      reads this, table
    {
      && TablesOk(table) && size == |image| && size % SECTOR_SIZE == 0 && CrcUpTo(image, pos, crc)
      && Waiting(pendingBuffers, arrived, image, pos) && pos !in pendingBuffers
      && successes == if pos == size then 1 else 0
    }

    /** Takes the next sector into the CRC. */
    method Update(buffer: seq<byte>)
      requires TablesOk(table) && CrcUpTo(image, pos, crc) && SectorAt(image, pos) && buffer == image[pos..pos + SECTOR_SIZE]
      modifies this`crc, this`pos
      ensures CrcUpTo(image, pos, crc) && pos == old(pos) + SECTOR_SIZE
    {
      hide Crc, TablesOk;
      CrcStep(image, pos, crc);
      crc := Crc32Little(table, crc, buffer, 0);
      pos := pos + SECTOR_SIZE;
    }

    method HandleBuffer(buffer: seq<byte>)
      requires TablesOk(table) && size == |image| && size % SECTOR_SIZE == 0 && CrcUpTo(image, pos, crc)
      requires successes == 0 && pos in arrived
      requires Waiting(pendingBuffers, arrived - {pos}, image, pos) && SectorAt(image, pos) && buffer == image[pos..pos + SECTOR_SIZE]
      modifies this`crc, this`pos, this`pendingBuffers, this`successes
      ensures Valid()
    {
      hide CrcUpTo, TablesOk, Waiting;
      Passed(pendingBuffers, arrived, image, pos);
      Update(buffer);
      var more := pendingBuffers != map[];
      while more
        invariant CrcUpTo(image, pos, crc) && old(pos) < pos <= size && successes == 0
        invariant Waiting(pendingBuffers, arrived, image, pos)
        invariant if more then pendingBuffers != map[] else pos !in pendingBuffers
        decreases size - pos, more
      {
        var first := FirstKey(pendingBuffers);
        if first != pos {
          NotFirst(pendingBuffers, arrived, image, pos, first);
          more := false;
        } else {
          TakeFirst(pendingBuffers, arrived, image, pos);
          Update(pendingBuffers[first]);
          pendingBuffers := pendingBuffers - {first};
          more := pendingBuffers != map[];
        }
      }
      if pos == size {
        successes := successes + 1;
      }
    }

    /** The callback of Pipe. */
    method Receive(at: nat, buffer: seq<byte>)
      requires Valid() && SectorAt(image, at) && at !in arrived && buffer == image[at..at + SECTOR_SIZE]
      modifies this
      ensures Valid() && arrived == old(arrived) + {at}
    {
      hide Crc, TablesOk;
      arrived := arrived + {at};
      if pos == at {
        assert arrived - {at} == old(arrived);
        HandleBuffer(buffer);
      } else {
        pendingBuffers := pendingBuffers[at := buffer];
      }
    }

    /** Once every sector has arrived, in whatever order, the CRC of the whole image has been reported, once. */
    lemma AllArrived()
      requires Valid() && forall p: nat :: SectorAt(image, p) ==> p in arrived
      ensures successes == 1 && crc == Crc(0, image)
    {
      hide Crc, TablesOk;
      assert pos < size ==> SectorAt(image, pos);
      assert image[..size] == image;
    }
  }

  lemma CrcOfNothing()
    ensures Crc(0, []) == 0
  {
    XorTwice(0, ONES);
  }

  lemma CrcSmall(crc: nat, s: seq<byte>)
    requires crc < WORD32
    ensures Crc(crc, s) < WORD32
  {
    hide Xor, Register;
    Words();
    XorBound(crc, ONES, 32);
    RegisterBound(Xor(crc, ONES), s);
    XorBound(Register(Xor(crc, ONES), s), ONES, 32);
  }

  /** The sector at pos is done with. */
  lemma Passed(pending: map<nat, seq<byte>>, arrived: set<nat>, image: seq<byte>, pos: nat)
    requires Waiting(pending, arrived - {pos}, image, pos) && pos in arrived && SectorAt(image, pos)
    ensures Waiting(pending, arrived, image, pos + SECTOR_SIZE)
  {
    OnlySector(pos);
  }

  lemma TakeFirst(pending: map<nat, seq<byte>>, arrived: set<nat>, image: seq<byte>, pos: nat)
    requires Waiting(pending, arrived, image, pos) && pos in pending
    ensures SectorAt(image, pos) && pending[pos] == image[pos..pos + SECTOR_SIZE] && Waiting(pending - {pos}, arrived, image, pos + SECTOR_SIZE)
  {
    OnlySector(pos);
  }

  /** Nothing before pos is waiting. */
  lemma NotFirst(pending: map<nat, seq<byte>>, arrived: set<nat>, image: seq<byte>, pos: nat, first: nat)
    requires Waiting(pending, arrived, image, pos) && first in pending && first != pos && forall q :: q in pending ==> first <= q
    ensures pos !in pending
  {
  }

  lemma OnlySector(pos: nat)
    requires pos % SECTOR_SIZE == 0
    ensures forall p: nat :: pos <= p < pos + SECTOR_SIZE && p % SECTOR_SIZE == 0 ==> p == pos
  {
  }

  /** A whole run: the sectors arrive in the given order, each once. */
  method ChecksumImage(ghost image: seq<byte>, size: nat, order: seq<nat>, sectors: map<nat, seq<byte>>) returns (crc: nat)
    requires size == |image| > 0 && size % SECTOR_SIZE == 0
    requires forall i, j :: 0 <= i < j < |order| ==> order[i] != order[j]
    requires forall i :: 0 <= i < |order| ==> SectorAt(image, order[i])
    requires forall p: nat :: SectorAt(image, p) ==> p in order && p in sectors && sectors[p] == image[p..p + SECTOR_SIZE]
    ensures crc == Crc(0, image)
  {
    hide Crc, TablesOk;
    var table := MakeCrcTable();
    var task := new ChecksumTask(table, size, image);
    for i := 0 to |order|
      invariant task.Valid() && task.image == image && forall p :: p in task.arrived <==> p in order[..i]
    {
      task.Receive(order[i], sectors[order[i]]);
    }
    assert order[..|order|] == order;
    task.AllArrived();
    crc := task.crc;
  }
}
