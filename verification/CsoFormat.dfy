/** The container formats: header and index as bytes, and how input.cpp finds a sector through them. */
module CsoFormat {
  import opened Sums
  import opened Bits
  import opened Blocks
  import opened Sectors

  datatype Kind = Iso | Cso1 | Cso2 | Zso

  const HEADER_SIZE: nat := 24
  const MAX_BLOCK_SIZE: nat := 0x40000
  const FLAG: nat := 0x8000_0000
  const WORD: nat := 0x1_0000_0000

  /** Little endian numbers of n bytes. */
  function Le(v: nat, n: nat): (r: seq<byte>)
    ensures |r| == n
    decreases n
  {
    if n == 0 then [] else [v % 256] + Le(v / 256, n - 1)
  }

  function Value(s: seq<byte>): (r: nat) {
    if s == [] then 0 else s[0] + 256 * Value(s[1..])
  }

  lemma Shl8(x: nat)
    ensures Shl(x, 8) == 256 * x
  {
    assert Shl(x, 1) == 2 * x && Shl(x, 2) == 4 * x && Shl(x, 3) == 8 * x && Shl(x, 4) == 16 * x;
    assert Shl(x, 5) == 32 * x && Shl(x, 6) == 64 * x && Shl(x, 7) == 128 * x;
  }

  lemma {:induction false} LeValue(v: nat, n: nat)
    requires v < Shl(1, 8 * n)
    ensures Value(Le(v, n)) == v
    decreases n
  {
    if n != 0 {
      ShlShl(1, 8 * (n - 1), 8);
      Shl8(Shl(1, 8 * (n - 1)));
      LeValue(v / 256, n - 1);
      assert Le(v, n)[1..] == Le(v / 256, n - 1);
    } else {
      assert Shl(1, 0) == 1;
    }
  }

  function Magic(kind: Kind): (r: seq<byte>) {
    if kind == Zso then [0x5A, 0x49, 0x53, 0x4F] else [0x43, 0x49, 0x53, 0x4F]
  }

  /** The header WriteCSOIndex writes. */
  function Header(kind: Kind, size: nat, k: nat, shift: nat): (r: seq<byte>)
    requires shift < 256
    ensures |r| == HEADER_SIZE
  {
    Magic(kind) + Le(HEADER_SIZE, 4) + Le(size, 8) + Le(Pow2(k), 4) + [if kind == Cso2 then 2 else 1, shift, 0, 0]
  }

  function Words(index: seq<nat>): (r: seq<byte>)
    ensures |r| == 4 * |index|
  {
    if index == [] then [] else Words(index[..|index| - 1]) + Le(index[|index| - 1], 4)
  }

  /** What DetectFormat learns about a file. */
  datatype Info = Info(kind: Kind, size: nat, blockShift: nat, indexShift: nat, index: seq<nat>)
  datatype Detected = Ok(info: Info) | Error(reason: string)

  /** The position of the highest one bit. */
  function Log2(n: nat): nat {
    if n <= 1 then 0 else 1 + Log2(n / 2)
  }

  lemma {:induction false} Log2Pow2(k: nat)
    ensures Log2(Pow2(k)) == k
  {
    if k != 0 {
      Log2Pow2(k - 1);
    }
  }

  function ReadWords(s: seq<byte>, n: nat): (r: seq<nat>)
    requires |s| >= 4 * n
    ensures |r| == n
  {
    if n == 0 then [] else ReadWords(s, n - 1) + [Value(s[4 * (n - 1)..4 * n])]
  }

  predicate IsMagic(file: seq<byte>) {
    |file| >= 4 && file[..4] in {Magic(Cso1), Magic(Zso), [0x44, 0x41, 0x58, 0]}
  }

  /** DetectFormat, for everything but DAX. */
  function Detect(file: seq<byte>): (r: Detected) {
    if |file| < 24 then Error("Not able to read first 24 bytes")
    else if file[..4] == Magic(Zso) || file[..4] == Magic(Cso1) then
      var version, sectorSize, size, shift := file[20], Value(file[16..20]), Value(file[8..16]), file[21];
      if version > 2 then Error("CSO header indicates unsupported version")
      else if sectorSize < SECTOR_SIZE || sectorSize > MAX_BLOCK_SIZE then Error("CSO header indicates unsupported sector size")
      else if size % SECTOR_SIZE != 0 then Error("CSO uncompressed size not aligned to sector size")
      else
        var k := Log2(sectorSize);
        var entries := Shr(size + sectorSize - 1, k) + 1;
        if |file| < HEADER_SIZE + 4 * entries then Error("Unable to read entire index")
        else Ok(Info(if file[..4] == Magic(Zso) then Zso else if version == 2 then Cso2 else Cso1,
                     size, k, shift, ReadWords(file[HEADER_SIZE..], entries)))
    else if IsMagic(file) then Error("DAX is not modelled")
    else if |file| % SECTOR_SIZE != 0 then Error("ISO file not aligned to sector size")
    else Ok(Info(Iso, |file|, 11, 0, []))
  }

  /** Where the bytes for a sector are: position and length in the file, how they are compressed, and the
      offset of the sector in the decompressed block. */
  datatype Location = Location(pos: nat, len: nat, fmt: Format, offset: nat)

  predicate Indexed(info: Info) {
    info.kind != Iso ==> |info.index| == BlockCount(info.size, info.blockShift) + 1
  }

  /** The first part of ReadSector. Lengths are 32 bit numbers. */
  function Locate(info: Info, at: nat): (r: Location)
    requires Indexed(info) && at < info.size
  {
    if info.kind == Iso then Location(at, SECTOR_SIZE, Orig, 0)
    else
      Split(at, info.blockShift);
      BlockCountBounds(info.size, info.blockShift);
      var block := Shr(at, info.blockShift);
      var index, nextIndex := info.index[block], info.index[block + 1];
      var pos := Shl(index % FLAG, info.indexShift);
      var nextPos := Shl(nextIndex % FLAG, info.indexShift);
      var len := (nextPos - pos) % WORD;
      var offset := Low(at, info.blockShift);
      var flag := index >= FLAG;
      var fmt :=
        match info.kind
        case Cso1 => if flag then Orig else Deflate
        case Zso => if flag then Orig else Lz4
        case _ => if len >= Pow2(info.blockShift) then Orig else if flag then Lz4 else Deflate;
      if fmt == Orig then Location(pos + offset, (len - offset) % WORD, Orig, 0) else Location(pos, len, fmt, offset)
  }

  /** The decompressors. */
  datatype Codec = Codec(inflate: seq<byte> -> Option<seq<byte>>, lz4: seq<byte> -> Option<seq<byte>>)

  function Decode(codec: Codec, fmt: Format, bytes: seq<byte>): Option<seq<byte>> {
    match fmt
    case Orig => Some(bytes)
    case Deflate => codec.inflate(bytes)
    case Lz4 => codec.lz4(bytes)
  }

  /** SetupCache. */
  function CacheSize(blockSize: nat): (r: nat)
    requires blockSize >= 1
    ensures r >= blockSize && r >= 32768
    decreases 32768 - blockSize
  {
    if blockSize < 32768 then CacheSize(2 * blockSize) else blockSize
  }

  /** The least doubling that is large enough. */
  lemma {:induction false} CacheLeast(blockSize: nat) returns (e: nat)
    requires blockSize >= 1
    ensures CacheSize(blockSize) == Shl(blockSize, e) >= 32768 && (e > 0 ==> Shl(blockSize, e - 1) < 32768)
    decreases 32768 - blockSize
  {
    if blockSize < 32768 {
      var d := CacheLeast(2 * blockSize);
      e := d + 1;
      ShlShl(blockSize, 1, d);
      if d > 0 {
        ShlShl(blockSize, 1, d - 1);
      }
      assert Shl(blockSize, 1) == 2 * blockSize;
    } else {
      e := 0;
    }
  }

  /** How much of a decompressed block belongs to the image. */
  function Useful(info: Info, start: nat, n: nat): nat
    requires start <= info.size
  {
    if start + n > info.size then info.size - start else n
  }

  /** The bytes in the file that the sector at this position is taken from yield that sector and, if they
      are compressed, the rest of its block. */
  ghost predicate Serves(file: seq<byte>, info: Info, image: seq<byte>, codec: Codec, at: nat)
    requires Indexed(info) && at + SECTOR_SIZE <= info.size == |image|
  {
    var l := Locate(info, at);
    && l.pos + l.len <= |file| && l.len <= CacheSize(Pow2(info.blockShift))
    && if l.fmt == Orig then
         && l.len >= SECTOR_SIZE && file[l.pos..l.pos + SECTOR_SIZE] == image[at..at + SECTOR_SIZE]
       else
         && l.offset <= at
         && Decode(codec, l.fmt, file[l.pos..l.pos + l.len]).Some?
         && var r := Decode(codec, l.fmt, file[l.pos..l.pos + l.len]).value;
         && |r| <= Pow2(info.blockShift)
         && var n := Useful(info, at - l.offset, |r|);
         && l.offset < n && n % SECTOR_SIZE == l.offset % SECTOR_SIZE == 0
         && r[..n] == image[at - l.offset..at - l.offset + n]
  }

  /** The file is a container for the image. The cache is marked as empty by the position size, so the first
      block must not lie there. */
  ghost predicate Represents(file: seq<byte>, image: seq<byte>, codec: Codec) {
    && Detect(file).Ok?
    && var info := Detect(file).info;
    && Indexed(info) && info.size == |image| && |image| % SECTOR_SIZE == 0
    && (info.size > 0 ==> Locate(info, 0).pos < info.size)
    && forall at :: 0 <= at && at + SECTOR_SIZE <= |image| && at % SECTOR_SIZE == 0 ==> Serves(file, info, image, codec, at)
  }
}
