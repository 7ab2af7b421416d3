/** input.cpp: reading sectors through the cache. */
module Inputs {
  import opened Sums
  import opened Blocks
  import opened Sectors
  import opened CsoFormat

  /** What the event loop has to do for the reader: a read into the cache, or a decompression from it. */
  datatype Request = Idle | Read(loc: Location) | Unpack(at: nat, loc: Location)

  /** The cache holds the file from cachePos on, as far as the file goes. */
  ghost predicate CacheOk(cache: seq<byte>, cachePos: nat, file: seq<byte>) {
    forall i :: 0 <= i < |cache| && cachePos + i < |file| ==> cache[i] == file[cachePos + i]
  }

  lemma CacheSlice(cache: seq<byte>, cachePos: nat, file: seq<byte>, pos: nat, len: nat)
    requires CacheOk(cache, cachePos, file) && cachePos <= pos && pos + len <= cachePos + |cache| && pos + len <= |file|
    ensures cache[pos - cachePos..pos - cachePos + len] == file[pos..pos + len]
  {
  }

  /** The bytes are the sector of the image at pos. */
  ghost predicate IsSector(image: seq<byte>, pos: nat, data: seq<byte>) {
    pos + SECTOR_SIZE <= |image| && data == image[pos..pos + SECTOR_SIZE]
  }

  class Input {
    const file: seq<byte>
    const codec: Codec
    const info: Info
    const cacheSize: nat
    ghost const image: seq<byte>
    var pos: nat
    var paused: bool
    var resumeShouldRead: bool
    var cache: seq<byte>
    var cachePos: nat
    var request: Request

    /** After DetectFormat has read the header and the index. */
    constructor (file: seq<byte>, codec: Codec, ghost image: seq<byte>)
      requires Represents(file, image, codec)
      ensures Valid() && this.file == file && this.codec == codec && this.image == image
      ensures pos == 0 && !paused && !resumeShouldRead && request == Idle && info.size == |image|
    {
      this.file, this.codec, this.image := file, codec, image;
      info := Detect(file).info;
      var size := SetupCache(Pow2(Detect(file).info.blockShift));
      cacheSize, cache := size, seq(size, _ => 0);
      cachePos := Detect(file).info.size;
      pos, paused, resumeShouldRead, request := 0, false, false, Idle;
    }

    ghost predicate Valid()
      reads this
    {
      && Represents(file, image, codec) && info == Detect(file).info
      && cacheSize == CacheSize(Pow2(info.blockShift)) == |cache|
      && pos % SECTOR_SIZE == 0 && pos <= info.size
      && match request
         case Idle => CacheOk(cache, cachePos, file) || (pos == 0 && cachePos == info.size)
         case Read(loc) => pos < info.size && loc == Locate(info, pos) && cachePos == loc.pos
         case Unpack(at, loc) =>
           && pos < info.size && loc == Locate(info, pos) && loc.fmt != Orig
           && CacheOk(cache, cachePos, file) && cachePos + at == loc.pos && at + loc.len <= cacheSize
    }

    lemma ServesNow()
      requires Valid() && pos < info.size
      ensures info.size == |image| && Indexed(info) && pos % SECTOR_SIZE == 0 && pos + SECTOR_SIZE <= info.size && Serves(file, info, image, codec, pos)
    {
      hide Serves, Locate, Detect;
    }

    /** The middle of ReadSector: the sector, if the cache has it uncompressed; otherwise a request is made. */
    method NextRequest() returns (data: Option<seq<byte>>)
      requires Valid() && request == Idle && pos < info.size
      modifies this`request, this`cachePos
      ensures Valid() && (data == None <==> request != Idle)
      ensures data.Some? ==> IsSector(image, pos, data.value) && CacheOk(cache, cachePos, file)
    {
      ServesNow();
      hide Locate, Detect, Represents, CacheSize, CacheOk;
      data := None;
      var l := Locate(info, pos);
      if l.pos >= cachePos && l.pos + l.len <= cachePos + cacheSize {
        FirstMiss();
        if l.fmt != Orig {
          request := Unpack(l.pos - cachePos, l);
        } else {
          CacheSlice(cache, cachePos, file, l.pos, SECTOR_SIZE);
          data := Some(cache[l.pos - cachePos..l.pos - cachePos + SECTOR_SIZE]);
        }
      } else {
        cachePos := l.pos;
        request := Read(l);
      }
    }

    /** The empty cache is never taken for one that holds the first block. */
    lemma FirstMiss()
      requires Valid() && request == Idle && pos < info.size
      requires Indexed(info) && Locate(info, pos).pos >= cachePos
      ensures CacheOk(cache, cachePos, file)
    {
      hide Serves, Locate, Detect;
    }

    /** A read is done. */
    method ReadDone() returns (ok: bool, data: Option<seq<byte>>)
      requires Valid() && request.Read?
      modifies this`cache, this`request
      ensures ok && Valid() && (if data == None then request.Unpack? else request == Idle)
      ensures data.Some? ==> IsSector(image, pos, data.value) && CacheOk(cache, cachePos, file)
    {
      ServesNow();
      hide Locate, Detect, Represents, CacheSize, CacheOk, Filled;
      var l := request.loc;
      data := None;
      var n := if |file| - cachePos < cacheSize then |file| - cachePos else cacheSize;
      ok := n >= l.len;
      cache := Filled(cache, cachePos, file, n);
      if l.fmt != Orig {
        request := Unpack(0, l);
      } else {
        CacheSlice(cache, cachePos, file, l.pos, SECTOR_SIZE);
        data := Some(cache[..SECTOR_SIZE]);
        request := Idle;
      }
    }

    /** A decompression is done: the block and the offset of the sector at pos in it. */
    method UnpackDone() returns (ok: bool, block: seq<byte>, offset: nat)
      requires Valid() && request.Unpack?
      modifies this`request
      ensures ok && Valid() && request == Idle && CacheOk(cache, cachePos, file) && offset < |block| && offset <= pos
      ensures pos - offset + |block| <= |image| == info.size
      ensures offset % SECTOR_SIZE == |block| % SECTOR_SIZE == 0 && block == image[pos - offset..pos - offset + |block|]
    {
      ServesNow();
      hide Locate, Detect, Represents, CacheSize, CacheOk;
      var l, at := request.loc, request.at;
      CacheSlice(cache, cachePos, file, l.pos, l.len);
      var r := Decode(codec, l.fmt, cache[at..at + l.len]);
      ok := r.Some? && |r.value| <= Pow2(info.blockShift);
      offset := l.offset;
      block := r.value[..Useful(info, pos - offset, |r.value|)];
      request := Idle;
    }

    /** ReadSector goes on with the next sector. */
    method Advance()
      requires Valid() && request == Idle && pos < info.size && CacheOk(cache, cachePos, file)
      modifies this`pos
      ensures Valid() && pos == old(pos) + SECTOR_SIZE
    {
      ServesNow();
      hide Represents, Locate, Detect, CacheSize, CacheOk;
      pos := pos + SECTOR_SIZE;
    }

    method Pause()
      requires Valid()
      modifies this`paused
      ensures Valid() && paused
    {
      paused := true;
    }

    /** ReadSector while paused: reading goes on when it is resumed. */
    method Postpone()
      requires Valid()
      modifies this`resumeShouldRead
      ensures Valid() && resumeShouldRead
    {
      resumeShouldRead := true;
    }

    /** Whether reading has to go on. */
    method Resume() returns (read: bool)
      requires Valid()
      modifies this`paused, this`resumeShouldRead
      ensures Valid() && !paused && !resumeShouldRead && read == old(resumeShouldRead)
    {
      paused := false;
      read := resumeShouldRead;
      resumeShouldRead := false;
    }
  }

  /** The cache after a read of n bytes: all of it is filled, unless the file ends. */
  function Filled(cache: seq<byte>, cachePos: nat, file: seq<byte>, n: nat): (r: seq<byte>)
    requires n <= |cache| && cachePos + n <= |file| && (n == |cache| || cachePos + n == |file|)
    ensures |r| == |cache| && CacheOk(r, cachePos, file)
  {
    file[cachePos..cachePos + n] + cache[n..]
  }

  /** The loop of SetupCache. */
  method SetupCache(minSize: nat) returns (size: nat)
    requires minSize >= 1
    ensures size == CacheSize(minSize)
  {
    size := minSize;
    while size < 32768
      invariant size >= 1 && CacheSize(size) == CacheSize(minSize)
    {
      size := 2 * size;
    }
  }
}
