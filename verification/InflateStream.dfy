/** inflate.c as a whole, on any input: blocks of the three kinds, one after the other. */
module InflateStream {
  import opened Sums
  import opened Bits
  import opened Blocks
  import opened Lz77
  import opened BitStreams
  import opened BitWriter
  import opened BitReader
  import opened CanonicalCode
  import opened DecodeTable
  import opened TableSpace
  import opened InfTrees
  import opened TokenCodes
  import opened InflateWindow
  import opened InflateItems
  import opened InflateBlock
  import opened InflateFast
  import opened InflateHeader
  import opened BlockKinds
  import opened BlockTrees
  import opened StaticTrees
  import InflateCopy
  import CodeRuns
  import InflateLens

  // ----- What the bits spell -----

  /** A block: stored bytes behind some padding; items of the fixed codes; or a header, and items of its codes
      in the bits that follow it. */
  datatype Syntax = StoredBlock(pad: BitString, bytes: seq<Blocks.byte>) | FixedBlock(items: seq<Item>) | DynamicBlock(h: Header, data: BitString, items: seq<Item>)

  function Kind(b: Syntax): nat {
    match b
    case StoredBlock(_, _) => 0
    case FixedBlock(_) => 1
    case DynamicBlock(_, _, _) => 2
  }

  function LL(h: Header): seq<nat>
    requires h.nlen <= |h.lens|
  {
    h.lens[..h.nlen]
  }

  function DL(h: Header): seq<nat>
    requires h.nlen <= |h.lens|
  {
    h.lens[h.nlen..]
  }

  /** The lengths of the fixed codes. */
  function FixedLL(): seq<nat> {
    StaticLSeq(288)
  }

  function FixedDL(): seq<nat> {
    Fives(32)
  }

  /** inflate_table lets both codes through. */
  ghost predicate CodesOk(h: Header) {
    h.nlen <= |h.lens| && Accepted(LL(h)) && Accepted(DL(h))
  }

  /** The stored bytes end on a byte boundary of the input, which is a whole number of bytes. */
  ghost predicate StoredReads(all: BitString, start: seq<Lz77.byte>, pad: BitString, bytes: seq<Blocks.byte>, rest: BitString, result: seq<Lz77.byte>) {
    && pad.n < 8 && Proper(pad) && |bytes| <= 0xFFFF && rest.n % 8 == 0
    && all == Cat(pad, Cat(BitString(LenAndNlen(|bytes|), 32), Cat(OfBytes(bytes), rest)))
    && result == start + FromInts(bytes)
  }

  ghost predicate BodyReads(all: BitString, start: seq<Lz77.byte>, b: Syntax, rest: BitString, result: seq<Lz77.byte>) {
    match b
    case StoredBlock(pad, bytes) => StoredReads(all, start, pad, bytes, rest, result)
    case FixedBlock(items) => DataReads(FixedLL(), FixedDL(), all, start, items, rest, result)
    case DynamicBlock(h, data, items) => HeaderReads(all, h, data) && CodesOk(h) && DataReads(LL(h), DL(h), data, start, items, rest, result)
  }

  /** The bits ahead are this block: after the output start it gives result, and rest follows it. */
  ghost predicate BlockReads(all: BitString, start: seq<Lz77.byte>, last: bool, b: Syntax, rest: BitString, result: seq<Lz77.byte>) {
    all.n >= 3 && Low(all.v, 3) == LastBit(last) + 2 * Kind(b) && BodyReads(DropFirst(all, 3), start, b, rest, result)
  }

  /** The bits ahead are no block, or one whose meaning does not fit. */
  ghost predicate BlockFails(mode: Mode, all: BitString, start: seq<Lz77.byte>, space: nat) {
    forall last: bool, b: Syntax, rest: BitString, result: seq<Lz77.byte> :: BlockReads(all, start, last, b, rest, result) ==>
      mode == NoSpace && |result| > space
  }

  /** Blocks one after the other; the last one has its flag set. alls are the bits from each block on, outs the
      output before each. */
  ghost predicate StreamReads(blocks: seq<Syntax>, alls: seq<BitString>, outs: seq<seq<Lz77.byte>>) {
    && blocks != [] && |alls| == |outs| == |blocks| + 1
    && forall i :: 0 <= i < |blocks| ==> BlockReads(alls[i], outs[i], i + 1 == |blocks|, blocks[i], alls[i + 1], outs[i + 1])
  }

  /** The same, for blocks before the last one. */
  ghost predicate PartReads(blocks: seq<Syntax>, alls: seq<BitString>, outs: seq<seq<Lz77.byte>>) {
    && |alls| == |outs| == |blocks| + 1
    && forall i :: 0 <= i < |blocks| ==> BlockReads(alls[i], outs[i], false, blocks[i], alls[i + 1], outs[i + 1])
  }

  /** The bits begin with no stream, or with one whose meaning does not fit. */
  ghost predicate StreamFails(mode: Mode, all: BitString, space: nat) {
    forall blocks: seq<Syntax>, alls: seq<BitString>, outs: seq<seq<Lz77.byte>> ::
      StreamReads(blocks, alls, outs) && alls[0] == all && outs[0] == [] ==> mode == NoSpace && |outs[|blocks|]| > space
  }

  // ----- Uniqueness -----

  lemma {:induction false} BytesUnique(a: seq<Blocks.byte>, x: BitString, b: seq<Blocks.byte>, y: BitString)
    requires |a| == |b| && Cat(OfBytes(a), x) == Cat(OfBytes(b), y)
    ensures a == b && x == y
    decreases |a|
  {
    hide Cat, Pow2;
    if a == [] {
      CatEmpty(x);
      CatEmpty(y);
    } else {
      EightBits();
      CatAssoc(BitString(a[0], 8), OfBytes(a[1..]), x);
      CatAssoc(BitString(b[0], 8), OfBytes(b[1..]), y);
      NumberUnique(a[0], b[0], 8, Cat(OfBytes(a[1..]), x), Cat(OfBytes(b[1..]), y));
      BytesUnique(a[1..], x, b[1..], y);
      assert a == [a[0]] + a[1..] && b == [b[0]] + b[1..];
    }
  }

  lemma EightBits()
    ensures Pow2(8) == 256
  {
  }

  lemma {:induction false} ExpandsUnique(out: seq<Lz77.byte>, tokens: seq<Token>, a: seq<Lz77.byte>, b: seq<Lz77.byte>)
    requires Expands(out, tokens, a) && Expands(out, tokens, b)
    ensures a == b
    decreases |tokens|
  {
    hide Apply, ValidToken;
    if tokens != [] {
      ExpandsUnique(Apply(out, tokens[0]), tokens[1..], a, b);
    }
  }

  /** What every reading of a stored block has in common with what has been read. */
  lemma StoredSoFar(all: BitString, pad0: BitString, v: nat, mid: BitString, start: seq<Lz77.byte>, pad: BitString, bytes: seq<Blocks.byte>, rest: BitString, result: seq<Lz77.byte>)
    requires StoredReads(all, start, pad, bytes, rest, result)
    requires pad0.n == all.n % 8 && Proper(pad0) && v < Pow2(32) && all == Cat(pad0, Cat(BitString(v, 32), mid))
    ensures pad == pad0 && v == LenAndNlen(|bytes|) && mid == Cat(OfBytes(bytes), rest)
  {
    hide Cat, OfBytes, Pow2;
    OfBytesSize(bytes);
    var tail := Cat(OfBytes(bytes), rest);
    CatSize(OfBytes(bytes), rest);
    CatSize(BitString(LenAndNlen(|bytes|), 32), tail);
    CatSize(pad, Cat(BitString(LenAndNlen(|bytes|), 32), tail));
    NumberUnique(pad.v, pad0.v, pad.n, Cat(BitString(LenAndNlen(|bytes|), 32), tail), Cat(BitString(v, 32), mid));
    Two32();
    NumberUnique(LenAndNlen(|bytes|), v, 32, tail, mid);
  }

  lemma StoredUnique(all: BitString, start: seq<Lz77.byte>, pad: BitString, bytes: seq<Blocks.byte>, rest: BitString, result: seq<Lz77.byte>,
                     pad': BitString, bytes': seq<Blocks.byte>, rest': BitString, result': seq<Lz77.byte>)
    requires StoredReads(all, start, pad, bytes, rest, result) && StoredReads(all, start, pad', bytes', rest', result')
    ensures pad == pad' && bytes == bytes' && rest == rest' && result == result'
  {
    hide Cat, OfBytes, Pow2;
    Two32();
    OfBytesSize(bytes);
    var tail := Cat(OfBytes(bytes), rest);
    CatSize(OfBytes(bytes), rest);
    CatSize(BitString(LenAndNlen(|bytes|), 32), tail);
    CatSize(pad, Cat(BitString(LenAndNlen(|bytes|), 32), tail));
    StoredSoFar(all, pad, LenAndNlen(|bytes|), tail, start, pad', bytes', rest', result');
    BytesUnique(bytes, rest, bytes', rest');
  }

  lemma ItemsUnique(ll: seq<nat>, dl: seq<nat>, all: BitString, start: seq<Lz77.byte>, items: seq<Item>, rest: BitString, result: seq<Lz77.byte>,
                    items': seq<Item>, rest': BitString, result': seq<Lz77.byte>)
    requires Accepted(ll) && Accepted(dl) && DataReads(ll, dl, all, start, items, rest, result) && DataReads(ll, dl, all, start, items', rest', result')
    ensures items == items' && rest == rest' && result == result'
  {
    hide Accepted, DataSpelled, ItemOk, HasMeaning, Expands;
    DataUnique(ll, dl, items, rest, items', rest');
    ExpandsUnique(start, Meanings(items), result, result');
  }

  ghost predicate FixedLens(ll: seq<nat>, dl: seq<nat>) {
    ll == FixedLL() && dl == FixedDL() && Used(ll, END_BLOCK)
  }

  lemma FixedAccepted()
    ensures Accepted(FixedLL()) && Accepted(FixedDL()) && FixedLens(FixedLL(), FixedDL())
  {
    hide Space;
    StaticSpace(StaticLSeq(288));
    FiveBits(Fives(32), 0);
  }

  lemma BlockUnique(all: BitString, start: seq<Lz77.byte>, last: bool, b: Syntax, rest: BitString, result: seq<Lz77.byte>,
                    last': bool, b': Syntax, rest': BitString, result': seq<Lz77.byte>)
    requires BlockReads(all, start, last, b, rest, result) && BlockReads(all, start, last', b', rest', result')
    ensures last == last' && b == b' && rest == rest' && result == result'
  {
    hide Low, DropFirst, StoredReads, HeaderReads, DataReads, Accepted;
    var body := DropFirst(all, 3);
    match b
    case StoredBlock(pad, bytes) =>
      StoredUnique(body, start, pad, bytes, rest, result, b'.pad, b'.bytes, rest', result');
    case FixedBlock(items) =>
      FixedAccepted();
      ItemsUnique(FixedLL(), FixedDL(), body, start, items, rest, result, b'.items, rest', result');
    case DynamicBlock(h, data, items) =>
      HeaderUnique(body, h, data, b'.h, b'.data);
      ItemsUnique(LL(h), DL(h), data, start, items, rest, result, b'.items, rest', result');
  }

  /** A block adds to the output. */
  lemma BlockGrows(all: BitString, start: seq<Lz77.byte>, last: bool, b: Syntax, rest: BitString, result: seq<Lz77.byte>)
    requires BlockReads(all, start, last, b, rest, result)
    ensures |start| <= |result|
  {
    hide Low, DropFirst, HeaderReads, Accepted, Cat, OfBytes, DataSpelled, Expands;
    if !b.StoredBlock? {
      ExpandsGrows(start, Meanings(b.items), result);
    }
  }

  /** Blocks that have been read are the first of every stream. */
  lemma {:induction false} StreamPrefix(blocks: seq<Syntax>, alls: seq<BitString>, outs: seq<seq<Lz77.byte>>,
                                        blocks': seq<Syntax>, alls': seq<BitString>, outs': seq<seq<Lz77.byte>>)
    requires PartReads(blocks, alls, outs) && StreamReads(blocks', alls', outs') && alls[0] == alls'[0] && outs[0] == outs'[0]
    ensures |blocks| < |blocks'| && alls[|blocks|] == alls'[|blocks|] && outs[|blocks|] == outs'[|blocks|]
    decreases |blocks|
  {
    hide BlockReads;
    var n := |blocks| - 1;
    if n >= 0 {
      StreamPrefix(blocks[..n], alls[..n + 1], outs[..n + 1], blocks', alls', outs');
      BlockUnique(alls[n], outs[n], false, blocks[n], alls[n + 1], outs[n + 1], n + 1 == |blocks'|, blocks'[n], alls'[n + 1], outs'[n + 1]);
    }
  }

  lemma {:induction false} OutsGrow(blocks: seq<Syntax>, alls: seq<BitString>, outs: seq<seq<Lz77.byte>>, k: nat)
    requires StreamReads(blocks, alls, outs) && k <= |blocks|
    ensures |outs[k]| <= |outs[|blocks|]|
    decreases |blocks| - k
  {
    hide BlockReads;
    if k < |blocks| {
      BlockGrows(alls[k], outs[k], k + 1 == |blocks|, blocks[k], alls[k + 1], outs[k + 1]);
      OutsGrow(blocks, alls, outs, k + 1);
    }
  }

  /** What stops a block stops every stream. */
  lemma BlockStops(mode: Mode, blocks: seq<Syntax>, alls: seq<BitString>, outs: seq<seq<Lz77.byte>>, space: nat)
    requires PartReads(blocks, alls, outs) && outs[0] == [] && BlockFails(mode, alls[|blocks|], outs[|blocks|], space)
    ensures StreamFails(mode, alls[0], space)
  {
    hide BlockReads;
    var k := |blocks|;
    forall blocks': seq<Syntax>, alls': seq<BitString>, outs': seq<seq<Lz77.byte>>
      | StreamReads(blocks', alls', outs') && alls'[0] == alls[0] && outs'[0] == []
      ensures mode == NoSpace && |outs'[|blocks'|]| > space
    {
      StreamPrefix(blocks, alls, outs, blocks', alls', outs');
      assert BlockReads(alls'[k], outs'[k], k + 1 == |blocks'|, blocks'[k], alls'[k + 1], outs'[k + 1]);
      OutsGrow(blocks', alls', outs', k + 1);
    }
  }

  /** A stream has one meaning. */
  lemma StreamUnique(blocks: seq<Syntax>, alls: seq<BitString>, outs: seq<seq<Lz77.byte>>, blocks': seq<Syntax>, alls': seq<BitString>, outs': seq<seq<Lz77.byte>>)
    requires StreamReads(blocks, alls, outs) && StreamReads(blocks', alls', outs') && alls[0] == alls'[0] && outs[0] == outs'[0]
    ensures |blocks| == |blocks'| && outs[|blocks|] == outs'[|blocks'|] && alls[|blocks|] == alls'[|blocks'|]
  {
    hide BlockReads;
    var n := |blocks| - 1;
    StreamPrefix(blocks[..n], alls[..n + 1], outs[..n + 1], blocks', alls', outs');
    BlockUnique(alls[n], outs[n], true, blocks[n], alls[n + 1], outs[n + 1], n + 1 == |blocks'|, blocks'[n], alls'[n + 1], outs'[n + 1]);
  }

  /** The bytes begin with a stream that means the data. */
  ghost predicate Decodes(bytes: seq<Blocks.byte>, data: seq<Lz77.byte>) {
    exists blocks: seq<Syntax>, alls: seq<BitString>, outs: seq<seq<Lz77.byte>> ::
      StreamReads(blocks, alls, outs) && alls[0] == OfBytes(bytes) && outs[0] == [] && outs[|blocks|] == data
  }

  lemma DecodesUnique(bytes: seq<Blocks.byte>, a: seq<Lz77.byte>, b: seq<Lz77.byte>)
    requires Decodes(bytes, a) && Decodes(bytes, b)
    ensures a == b
  {
    hide OfBytes, BlockReads;
    var blocks, alls, outs :| StreamReads(blocks, alls, outs) && alls[0] == OfBytes(bytes) && outs[0] == [] && outs[|blocks|] == a;
    var blocks', alls', outs' :| StreamReads(blocks', alls', outs') && alls'[0] == OfBytes(bytes) && outs'[0] == [] && outs'[|blocks'|] == b;
    StreamUnique(blocks, alls, outs, blocks', alls', outs');
  }

  /** Where no stream that fits begins, nothing that fits is meant. */
  lemma NothingDecoded(mode: Mode, bytes: seq<Blocks.byte>, space: nat, data: seq<Lz77.byte>)
    requires StreamFails(mode, OfBytes(bytes), space) && Decodes(bytes, data)
    ensures mode == NoSpace && |data| > space
  {
    hide OfBytes, BlockReads;
  }

  // ----- The tables -----

  /** fixedtables */
  method FixedTables() returns (d: Decoder)
    ensures DecoderOk(d, FixedLL(), FixedDL())
  {
    hide Usable, Accepted, NoCodes, LoneCode, Space, Pow2;
    var lens := new nat[288](_ => 0);
    var sym := 0;
    while sym < 144
      invariant sym <= 144 && forall i :: 0 <= i < sym ==> lens[i] == 8
    {
      lens[sym] := 8;
      sym := sym + 1;
    }
    while sym < 256
      invariant 144 <= sym <= 256 && forall i :: 0 <= i < sym ==> lens[i] == StaticL(i)
    {
      lens[sym] := 9;
      sym := sym + 1;
    }
    while sym < 280
      invariant 256 <= sym <= 280 && forall i :: 0 <= i < sym ==> lens[i] == StaticL(i)
    {
      lens[sym] := 7;
      sym := sym + 1;
    }
    while sym < 288
      invariant 280 <= sym <= 288 && forall i :: 0 <= i < sym ==> lens[i] == StaticL(i)
    {
      lens[sym] := 8;
      sym := sym + 1;
    }
    assert lens[..288] == StaticLSeq(288);
    FixedAccepted();
    Refused(StaticLSeq(288));
    Refused(Fives(32));
    FixedSizes();
    var work := new nat[288](_ => 0);
    var table := new Entry[ENOUGH_LENS](_ => Entry(0, 0, 0));
    var ret, root, used := InflateTable(LENS, lens, 288, table, 9, work);
    var dlens := new nat[32](_ => 5);
    assert dlens[..32] == Fives(32);
    var dtable := new Entry[ENOUGH_DISTS](_ => Entry(0, 0, 0));
    var dret, droot, dused := InflateTable(DISTS, dlens, 32, dtable, 5, work);
    d := Decoder(table[..], root, dtable[..], droot);
  }

  lemma FixedSizes()
    ensures Pow2(9) == 512 && Pow2(5) == 32
  {
  }

  /** Why inflate_table refuses a code. */
  lemma Refused(ls: seq<nat>)
    ensures Accepted(ls) ==> NoCodes(ls) || (Space(ls) <= Pow2(MAXBITS) && (Space(ls) < Pow2(MAXBITS) ==> LoneCode(ls)))
    ensures ValidLengths(ls) && !NoCodes(ls) && (Space(ls) > Pow2(MAXBITS) || (Space(ls) < Pow2(MAXBITS) && !LoneCode(ls))) ==> !Accepted(ls)
  {
    hide Space;
  }

  /** The bits spell no header of codes that can be used. */
  ghost predicate NoDynamic(all: BitString) {
    forall h: Header, rest: BitString :: HeaderReads(all, h, rest) ==> !CodesOk(h)
  }

  lemma NoHeaderNoDynamic(all: BitString)
    requires NoHeader(all)
    ensures NoDynamic(all)
  {
    hide HeaderReads;
  }

  lemma BadCodes(all: BitString, h: Header, rest: BitString)
    requires HeaderReads(all, h, rest) && !CodesOk(h)
    ensures NoDynamic(all)
  {
    hide HeaderReads, CodesOk;
    forall h': Header, rest': BitString | HeaderReads(all, h', rest') ensures !CodesOk(h') {
      HeaderUnique(all, h, rest, h', rest');
    }
  }

  /** TABLE to LEN: the header, and the tables of both codes. */
  method ReadDynamic(br: Reader) returns (mode: Mode, d: Decoder, ghost h: Header)
    requires br.Valid() && br.bits < 8
    modifies br
    ensures br.Valid() && br.Consumed() >= old(br.Consumed()) && (mode == LEN || mode == BAD || mode == NoInput)
    ensures mode == LEN ==> br.bits < 8 && HeaderReads(old(br.Rest()), h, br.Rest()) && CodesOk(h) && DecoderOk(d, LL(h), DL(h)) && Used(LL(h), END_BLOCK)
    ensures mode != LEN ==> NoDynamic(old(br.Rest()))
  {
    hide Usable, Accepted, NoCodes, LoneCode, Space, Pow2, HeaderReads, NoHeader, NoDynamic, Cat, OfBytes, DropFirst, Standard;
    ghost var all := br.Rest();
    d := Decoder([], 0, [], 0);
    var lens, codes, work := new nat[320](_ => 0), new Entry[128](_ => Entry(0, 0, 0)), new nat[288](_ => 0);
    var nlen, ndist;
    mode, nlen, ndist, h := ReadHeader(br, lens, codes, work);
    if mode != LEN {
      NoHeaderNoDynamic(all);
      return;
    }
    HeaderFacts(all, h, br.Rest());
    SplitLens(lens[..], h);
    Refused(LL(h));
    Refused(DL(h));
    StandardSizes(nlen, ndist);
    var table := new Entry[ENOUGH_LENS](_ => Entry(0, 0, 0));
    var ret, root, used := InflateTable(LENS, lens, nlen, table, 9, work);
    if ret != 0 {
      BadCodes(all, h, br.Rest());
      return BAD, d, h;
    }
    var dlens := new nat[ndist](i requires 0 <= i < ndist && nlen + i < lens.Length reads lens => lens[nlen + i]);
    assert dlens[..ndist] == DL(h);
    var dtable := new Entry[ENOUGH_DISTS](_ => Entry(0, 0, 0));
    var dret, droot, dused := InflateTable(DISTS, dlens, ndist, dtable, 6, work);
    if dret != 0 {
      BadCodes(all, h, br.Rest());
      return BAD, d, h;
    }
    d := Decoder(table[..], root, dtable[..], droot);
    DecoderCodes(d, LL(h), DL(h));
  }

  lemma StandardSizes(nlen: nat, ndist: nat)
    requires nlen <= 286 && ndist <= 30
    ensures Standard(LENS, nlen, 9) && Standard(DISTS, ndist, 6)
  {
  }

  lemma HeaderFacts(all: BitString, h: Header, rest: BitString)
    requires HeaderReads(all, h, rest)
    ensures |h.lens| == h.nlen + h.ndist && 257 <= h.nlen <= 286 && 1 <= h.ndist <= 30 && ValidLengths(h.lens) && Used(LL(h), END_BLOCK)
  {
    hide InflateLens.RunsOk, Space, Cat;
    HeaderLens(h);
  }

  /** Lengths that are read are at most fifteen. */
  lemma HeaderLens(h: Header)
    requires HeaderOk(h)
    ensures ValidLengths(h.lens)
  {
    hide Space, CodeRuns.Expand;
    ExpandValid(BlLens(h.vals), h.runs, h.nlen + h.ndist);
  }

  lemma {:induction false} ExpandValid(bl: seq<nat>, runs: seq<CodeRuns.Run>, total: nat)
    requires InflateLens.RunsOk(bl, runs) && CodeRuns.Expand([], runs, total).Lengths?
    ensures ValidLengths(CodeRuns.Expand([], runs, total).lens)
    decreases |runs|
  {
    if runs != [] {
      var n := |runs| - 1;
      ExpandValid(bl, runs[..n], total);
      assert InflateLens.RunOk(bl, runs[n]);
    }
  }

  lemma SplitLens(lens: seq<nat>, h: Header)
    requires |h.lens| == h.nlen + h.ndist <= |lens| && lens[..h.nlen + h.ndist] == h.lens
    ensures lens[..h.nlen] == LL(h) && forall i :: 0 <= i < h.ndist ==> lens[h.nlen + i] == DL(h)[i]
    ensures ValidLengths(h.lens) ==> ValidLengths(LL(h)) && ValidLengths(DL(h))
  {
    assert lens[..h.nlen] == lens[..h.nlen + h.ndist][..h.nlen];
    assert lens[h.nlen..h.nlen + h.ndist] == lens[..h.nlen + h.ndist][h.nlen..];
  }

  // ----- Stored blocks -----

  ghost predicate StoredFails(mode: Mode, all: BitString, start: seq<Lz77.byte>, space: nat) {
    forall pad: BitString, bytes: seq<Blocks.byte>, rest: BitString, result: seq<Lz77.byte> :: StoredReads(all, start, pad, bytes, rest, result) ==>
      mode == NoSpace && |result| > space
  }

  lemma StoredSize(all: BitString, start: seq<Lz77.byte>, pad: BitString, bytes: seq<Blocks.byte>, rest: BitString, result: seq<Lz77.byte>)
    requires StoredReads(all, start, pad, bytes, rest, result)
    ensures all.n == pad.n + 32 + 8 * |bytes| + rest.n && pad.n == all.n % 8 && |result| == |start| + |bytes|
  {
    hide Cat, OfBytes;
    OfBytesSize(bytes);
    CatSize(OfBytes(bytes), rest);
    CatSize(BitString(LenAndNlen(|bytes|), 32), Cat(OfBytes(bytes), rest));
    CatSize(pad, Cat(BitString(LenAndNlen(|bytes|), 32), Cat(OfBytes(bytes), rest)));
  }

  /** No head: fewer than 32 bits behind the padding. */
  lemma NoStoredHead(all: BitString, start: seq<Lz77.byte>, space: nat)
    requires all.n < all.n % 8 + 32
    ensures StoredFails(NoInput, all, start, space)
  {
    hide StoredReads;
    forall pad: BitString, bytes: seq<Blocks.byte>, rest: BitString, result: seq<Lz77.byte> | StoredReads(all, start, pad, bytes, rest, result)
      ensures false
    {
      StoredSize(all, start, pad, bytes, rest, result);
    }
  }

  /** The length and its complement disagree, or what follows is too short or does not fit. */
  lemma NoStored(mode: Mode, all: BitString, pad: BitString, v: nat, mid: BitString, start: seq<Lz77.byte>, space: nat)
    requires pad.n == all.n % 8 && Proper(pad) && v < Pow2(32) && all == Cat(pad, Cat(BitString(v, 32), mid))
    requires v % 0x1_0000 + v / 0x1_0000 != 0xFFFF || mid.n < 8 * (v % 0x1_0000) || (mode == NoSpace && |start| + v % 0x1_0000 > space)
    ensures StoredFails(mode, all, start, space)
  {
    hide StoredReads, Cat, OfBytes, Pow2;
    forall pad': BitString, bytes: seq<Blocks.byte>, rest: BitString, result: seq<Lz77.byte> | StoredReads(all, start, pad', bytes, rest, result)
      ensures mode == NoSpace && |result| > space
    {
      StoredLength(all, start, pad', bytes, rest, result);
      StoredSize(all, start, pad', bytes, rest, result);
      StoredSoFar(all, pad, v, mid, start, pad', bytes, rest, result);
      OfBytesSize(bytes);
      CatSize(OfBytes(bytes), rest);
    }
  }

  lemma StoredLength(all: BitString, start: seq<Lz77.byte>, pad: BitString, bytes: seq<Blocks.byte>, rest: BitString, result: seq<Lz77.byte>)
    requires StoredReads(all, start, pad, bytes, rest, result)
    ensures |bytes| <= 0xFFFF && LenAndNlen(|bytes|) % 0x1_0000 == |bytes| && LenAndNlen(|bytes|) / 0x1_0000 == 0xFFFF - |bytes|
  {
  }

  /** The COPY state: bytes of the input go to the output. */
  method CopyStored(input: seq<Blocks.byte>, next: nat, out: array<Lz77.byte>, put: nat, n: nat)
    requires put + n <= out.Length && next + n <= |input|
    modifies out
    ensures out[..put] == old(out[..put]) && out[put..put + n] == FromInts(input[next..next + n])
  {
    for i := 0 to n
      invariant out[..put] == old(out[..put]) && out[put..put + i] == FromInts(input[next..next + i])
    {
      out[put + i] := input[next + i] as bv8;
      MoreInts(out[..], put, input, next, i);
    }
  }

  lemma MoreInts(out: seq<Lz77.byte>, put: nat, input: seq<Blocks.byte>, next: nat, n: nat)
    requires put + n < |out| && next + n < |input| && out[put..put + n] == FromInts(input[next..next + n]) && out[put + n] == input[next + n] as bv8
    ensures out[put..put + n + 1] == FromInts(input[next..next + n + 1])
  {
    assert out[put..put + n + 1] == out[put..put + n] + [out[put + n]];
    assert input[next..next + n + 1] == input[next..next + n] + [input[next + n]];
  }

  /** On a byte boundary with less than eight bits, nothing is held. */
  lemma NothingHeld(br: Reader)
    requires br.Valid() && br.bits == 0
    ensures br.Rest() == OfBytes(br.input[br.next..]) && br.hold == 0
  {
    hide Cat, OfBytes;
    OneBit();
    CatEmpty(OfBytes(br.input[br.next..]));
  }

  lemma SkipBytes(br: Reader, n: nat)
    requires br.Valid() && br.bits == 0 && br.next + n <= |br.input|
    ensures OfBytes(br.input).n >= 8 * (br.next + n) && Cat(BitString(br.hold, 0), OfBytes(br.input[br.next + n..])) == DropFirst(OfBytes(br.input), 8 * (br.next + n))
    ensures Cat(BitString(br.hold, 0), OfBytes(br.input[br.next + n..])) == OfBytes(br.input[br.next + n..])
    ensures OfBytes(br.input[br.next..]) == Cat(OfBytes(br.input[br.next..br.next + n]), OfBytes(br.input[br.next + n..]))
    ensures OfBytes(br.input[br.next + n..]).n % 8 == 0 && OfBytes(br.input[br.next..]).n == 8 * (|br.input| - br.next)
  {
    hide Cat, OfBytes, DropFirst;
    NothingHeld(br);
    var m := br.next + n;
    assert br.input == br.input[..m] + br.input[m..];
    OfBytesJoin(br.input[..m], br.input[m..]);
    OfBytesSize(br.input[..m]);
    OfBytesSize(br.input[m..]);
    OfBytesSize(br.input[br.next..]);
    CatSize(OfBytes(br.input[..m]), OfBytes(br.input[m..]));
    CatParts(OfBytes(br.input[..m]), OfBytes(br.input[m..]));
    CatEmpty(OfBytes(br.input[m..]));
    assert br.input[br.next..] == br.input[br.next..m] + br.input[m..];
    OfBytesJoin(br.input[br.next..m], br.input[m..]);
  }

  /** The STORED state: the padding and the length, on a byte boundary. */
  method ReadStoredHead(br: Reader, ghost start: seq<Lz77.byte>, ghost space: nat) returns (mode: Mode, length: nat, ghost pad: BitString)
    requires br.Valid() && br.bits < 8
    modifies br
    ensures br.Valid() && br.Consumed() >= old(br.Consumed()) && (mode == LEN || mode == BAD || mode == NoInput)
    ensures mode == LEN ==> br.bits == 0 && length <= 0xFFFF && pad.n == old(br.Rest()).n % 8 && Proper(pad)
    ensures mode == LEN ==> old(br.Rest()) == Cat(pad, Cat(BitString(LenAndNlen(length), 32), br.Rest()))
    ensures mode != LEN ==> StoredFails(mode, old(br.Rest()), start, space)
  {
    hide Cat, OfBytes, DropFirst, Pow2, Low, StoredFails, Padding;
    ghost var all := br.Rest();
    length := 0;
    RestMod(br);
    br.ByteBits();
    FirstBits(all, all.n % 8);
    pad := BitString(Low(all.v, all.n % 8), all.n % 8);
    ghost var mid := br.Rest();
    CatSize(pad, mid);
    RestMod(br);
    var ok, v := br.TakeBits(32);
    if !ok {
      NoStoredHead(all, start, space);
      return NoInput, length, pad;
    }
    RestMod(br);
    mode := LEN;
    length := v % 0x1_0000;
    if v % 0x1_0000 + v / 0x1_0000 != 0xFFFF {
      mode := BAD;
      NoStored(mode, all, pad, v, br.Rest(), start, space);
    }
  }

  /** The input is a whole number of bytes. */
  lemma RestMod(br: Reader)
    requires br.Valid()
    ensures br.Rest().n % 8 == Padding(br.Consumed()) == br.bits % 8 && br.Rest().n == 8 * |br.input| - br.Consumed() && br.Consumed() >= 0
  {
    hide Cat, OfBytes, DropFirst, Padding, Pow2;
    br.AllIn();
    BitReader.Boundary(br.next, br.bits);
  }

  lemma StoredIs(all: BitString, history: seq<Lz77.byte>, was: seq<Lz77.byte>, out: seq<Lz77.byte>, put0: nat, n: nat, pad: BitString, bytes: seq<Blocks.byte>, rest: BitString)
    requires pad.n < 8 && Proper(pad) && n == |bytes| <= 0xFFFF && rest.n % 8 == 0
    requires all == Cat(pad, Cat(BitString(LenAndNlen(|bytes|), 32), Cat(OfBytes(bytes), rest)))
    requires put0 + n <= |out| == |was| && out[..put0] == was[..put0] && out[put0..put0 + n] == FromInts(bytes)
    ensures StoredReads(all, InflateCopy.Output(history, was, 0, put0), pad, bytes, rest, InflateCopy.Output(history, out, 0, put0 + n))
  {
    hide Cat, OfBytes, Pow2, FromInts, InflateCopy.Output;
    OutputMore(history, was, out, put0, n);
  }

  lemma OutputMore(history: seq<Lz77.byte>, was: seq<Lz77.byte>, out: seq<Lz77.byte>, put: nat, n: nat)
    requires put + n <= |out| && put <= |was| && out[..put] == was[..put]
    ensures InflateCopy.Output(history, out, 0, put + n) == InflateCopy.Output(history, was, 0, put) + out[put..put + n]
  {
    assert out[..put + n] == out[..put] + out[put..put + n];
    assert out[0..put + n] == out[..put + n] && was[0..put] == was[..put];
  }

  lemma OutputSize(history: seq<Lz77.byte>, out: seq<Lz77.byte>, put: nat)
    requires put <= |out|
    ensures |InflateCopy.Output(history, out, 0, put)| == |history| + put
  {
  }

  /** A stored block: it succeeds exactly if the bits spell one whose bytes fit. */
  method ReadStored(br: Reader, out: array<Lz77.byte>, put0: nat, ghost history: seq<Lz77.byte>) returns (mode: Mode, put: nat, ghost pad: BitString, ghost bytes: seq<Blocks.byte>)
    requires br.Valid() && br.bits < 8 && put0 <= out.Length
    modifies br, out
    ensures br.Valid() && br.Consumed() >= old(br.Consumed()) && put0 <= put <= out.Length && out[..put0] == old(out[..put0])
    ensures mode == TYPE || mode == BAD || mode == NoInput || mode == NoSpace
    ensures mode == TYPE ==> br.bits < 8
    ensures mode == TYPE ==>
      StoredReads(old(br.Rest()), InflateCopy.Output(history, old(out[..]), 0, put0), pad, bytes, br.Rest(), InflateCopy.Output(history, out[..], 0, put))
    ensures mode != TYPE ==> StoredFails(mode, old(br.Rest()), InflateCopy.Output(history, old(out[..]), 0, put0), |history| + out.Length)
  {
    hide Cat, OfBytes, DropFirst, Pow2, Low, StoredFails, StoredReads, Padding, InflateCopy.Output, FromInts;
    ghost var all, was, start := br.Rest(), out[..], InflateCopy.Output(history, out[..], 0, put0);
    put, bytes := put0, [];
    var length;
    mode, length, pad := ReadStoredHead(br, start, |history| + out.Length);
    if mode != LEN {
      return;
    }
    var n := length;
    if n > |br.input| - br.next {
      n := |br.input| - br.next;
    }
    if n > out.Length - put {
      n := out.Length - put;
    }
    NothingHeld(br);
    SkipBytes(br, n);
    HeadValue(length);
    ghost var mid := br.Rest();
    CopyStored(br.input, br.next, out, put, n);
    bytes := br.input[br.next..br.next + n];
    br.next := br.next + n;
    put := put + n;
    if n == length {
      mode := TYPE;
      StoredIs(all, history, was, out[..], put0, n, pad, bytes, br.Rest());
    } else {
      OutputSize(history, was, put0);
      mode := if br.next == |br.input| then NoInput else NoSpace;
      NoStored(mode, all, pad, LenAndNlen(length), mid, start, |history| + out.Length);
    }
  }

  lemma HeadValue(n: nat)
    requires n <= 0xFFFF
    ensures LenAndNlen(n) < Pow2(32) && LenAndNlen(n) % 0x1_0000 == n && LenAndNlen(n) / 0x1_0000 == 0xFFFF - n
  {
    Two32();
  }

  // ----- Blocks -----

  lemma NoKind(mode: Mode, all: BitString, start: seq<Lz77.byte>, space: nat)
    requires all.n < 3 || Low(all.v, 3) >= 6
    ensures BlockFails(mode, all, start, space)
  {
    hide Low, DropFirst, BodyReads;
  }

  /** A body that cannot be read is no block. */
  lemma BodyFails(mode: Mode, all: BitString, kind: nat, start: seq<Lz77.byte>, space: nat)
    requires all.n >= 3 && kind <= 2 && Low(all.v, 3) / 2 == kind
    requires forall b: Syntax, rest: BitString, result: seq<Lz77.byte> :: Kind(b) == kind && BodyReads(DropFirst(all, 3), start, b, rest, result) ==> mode == NoSpace && |result| > space
    ensures BlockFails(mode, all, start, space)
  {
    hide Low, DropFirst, BodyReads;
  }

  lemma StoredBlockFails(mode: Mode, all: BitString, start: seq<Lz77.byte>, space: nat)
    requires all.n >= 3 && Low(all.v, 3) / 2 == 0 && StoredFails(mode, DropFirst(all, 3), start, space)
    ensures BlockFails(mode, all, start, space)
  {
    hide Low, DropFirst, StoredReads;
    BodyFails(mode, all, 0, start, space);
  }

  lemma FixedBlockFails(mode: Mode, all: BitString, start: seq<Lz77.byte>, space: nat)
    requires all.n >= 3 && Low(all.v, 3) / 2 == 1 && DataFails(mode, FixedLL(), FixedDL(), DropFirst(all, 3), start, space)
    ensures BlockFails(mode, all, start, space)
  {
    hide Low, DropFirst, DataReads;
    BodyFails(mode, all, 1, start, space);
  }

  lemma NoDynamicBlock(mode: Mode, all: BitString, start: seq<Lz77.byte>, space: nat)
    requires all.n >= 3 && Low(all.v, 3) / 2 == 2 && NoDynamic(DropFirst(all, 3))
    ensures BlockFails(mode, all, start, space)
  {
    hide Low, DropFirst, DataReads, HeaderReads, CodesOk;
    BodyFails(mode, all, 2, start, space);
  }

  lemma DynamicBlockFails(mode: Mode, all: BitString, h: Header, data: BitString, start: seq<Lz77.byte>, space: nat)
    requires all.n >= 3 && Low(all.v, 3) / 2 == 2 && HeaderReads(DropFirst(all, 3), h, data) && CodesOk(h)
    requires DataFails(mode, LL(h), DL(h), data, start, space)
    ensures BlockFails(mode, all, start, space)
  {
    hide Low, DropFirst, DataReads, HeaderReads, Accepted;
    forall b: Syntax, rest: BitString, result: seq<Lz77.byte> | Kind(b) == 2 && BodyReads(DropFirst(all, 3), start, b, rest, result)
      ensures mode == NoSpace && |result| > space
    {
      HeaderUnique(DropFirst(all, 3), h, data, b.h, b.data);
    }
    BodyFails(mode, all, 2, start, space);
  }

  /** The last-block flag and the kind. */
  lemma KindBits(all: BitString, last: nat, mid: BitString, kind: nat, body: BitString)
    requires last < Pow2(1) && kind < Pow2(2) && all == Cat(BitString(last, 1), mid) && mid == Cat(BitString(kind, 2), body)
    ensures all.n >= 3 && last <= 1 && kind <= 3 && Low(all.v, 3) == last + 2 * kind && DropFirst(all, 3) == body
  {
    assert Pow2(0) == 1 && Pow2(1) == 2 && Pow2(2) == 4 && Pow2(3) == 8;
    assert Shl(kind, 1) == 2 * kind;
    CatAssoc(BitString(last, 1), BitString(kind, 2), body);
    CatParts(BitString(last + 2 * kind, 3), body);
  }

  /** The outcome of reading a block: it is read, or there is none that fits. */
  ghost predicate BlockResult(mode: Mode, all: BitString, start: seq<Lz77.byte>, last: bool, b: Syntax, rest: BitString, result: seq<Lz77.byte>, space: nat) {
    && (mode == TYPE || mode == BAD || mode == NoInput || mode == NoSpace)
    && (mode == TYPE ==> BlockReads(all, start, last, b, rest, result))
    && (mode != TYPE ==> BlockFails(mode, all, start, space))
  }

  lemma StoredBlockReads(all: BitString, start: seq<Lz77.byte>, last: bool, pad: BitString, bytes: seq<Blocks.byte>, rest: BitString, result: seq<Lz77.byte>)
    requires all.n >= 3 && Low(all.v, 3) == LastBit(last) && StoredReads(DropFirst(all, 3), start, pad, bytes, rest, result)
    ensures BlockReads(all, start, last, StoredBlock(pad, bytes), rest, result)
  {
    hide Low, DropFirst, StoredReads;
  }

  lemma FixedBlockReads(all: BitString, start: seq<Lz77.byte>, last: bool, items: seq<Item>, rest: BitString, result: seq<Lz77.byte>)
    requires all.n >= 3 && Low(all.v, 3) == LastBit(last) + 2 && DataReads(FixedLL(), FixedDL(), DropFirst(all, 3), start, items, rest, result)
    ensures BlockReads(all, start, last, FixedBlock(items), rest, result)
  {
    hide Low, DropFirst, DataReads, FixedLL, FixedDL;
  }

  lemma DynamicBlockReads(all: BitString, start: seq<Lz77.byte>, last: bool, h: Header, data: BitString, items: seq<Item>, rest: BitString, result: seq<Lz77.byte>)
    requires all.n >= 3 && Low(all.v, 3) == LastBit(last) + 4 && HeaderReads(DropFirst(all, 3), h, data) && CodesOk(h)
    requires DataReads(LL(h), DL(h), data, start, items, rest, result)
    ensures BlockReads(all, start, last, DynamicBlock(h, data, items), rest, result)
  {
    hide Low, DropFirst, DataReads, HeaderReads, Accepted;
  }

  lemma StoredResult(mode: Mode, all: BitString, start: seq<Lz77.byte>, last: bool, pad: BitString, bytes: seq<Blocks.byte>, rest: BitString, result: seq<Lz77.byte>, space: nat)
    requires all.n >= 3 && Low(all.v, 3) == LastBit(last) && (mode == TYPE || mode == BAD || mode == NoInput || mode == NoSpace)
    requires mode == TYPE ==> StoredReads(DropFirst(all, 3), start, pad, bytes, rest, result)
    requires mode != TYPE ==> StoredFails(mode, DropFirst(all, 3), start, space)
    ensures BlockResult(mode, all, start, last, StoredBlock(pad, bytes), rest, result, space)
  {
    hide Low, DropFirst, StoredReads, StoredFails, BlockReads, BlockFails;
    if mode == TYPE {
      StoredBlockReads(all, start, last, pad, bytes, rest, result);
    } else {
      StoredBlockFails(mode, all, start, space);
    }
  }

  lemma FixedResult(mode: Mode, all: BitString, start: seq<Lz77.byte>, last: bool, ll: seq<nat>, dl: seq<nat>, items: seq<Item>, rest: BitString, result: seq<Lz77.byte>, space: nat)
    requires all.n >= 3 && Low(all.v, 3) == LastBit(last) + 2 && (mode == TYPE || mode == BAD || mode == NoInput || mode == NoSpace)
    requires FixedLens(ll, dl) && (mode == TYPE ==> DataReads(ll, dl, DropFirst(all, 3), start, items, rest, result))
    requires mode != TYPE ==> DataFails(mode, ll, dl, DropFirst(all, 3), start, space)
    ensures BlockResult(mode, all, start, last, FixedBlock(items), rest, result, space)
  {
    hide Low, DropFirst, DataReads, DataFails, BlockReads, BlockFails, FixedLL, FixedDL;
    if mode == TYPE {
      FixedBlockReads(all, start, last, items, rest, result);
    } else {
      FixedBlockFails(mode, all, start, space);
    }
  }

  /** The body of a stored block. */
  method StoredBody(br: Reader, s: InflateState, out: array<Lz77.byte>, put0: nat, ghost history: seq<Lz77.byte>, ghost all: BitString, ghost isLast: bool)
    returns (mode: Mode, put: nat, ghost b: Syntax)
    requires br.Valid() && br.bits < 8 && put0 <= out.Length
    requires Holds(s.window[..], s.wnext, s.whave, history) && out != s.window && W_SIZE <= s.window.Length
    requires all.n >= 3 && Low(all.v, 3) == LastBit(isLast) && DropFirst(all, 3) == br.Rest()
    modifies br, s`length, s`offset, out
    ensures br.Valid() && br.Consumed() >= old(br.Consumed()) && put0 <= put <= out.Length && out[..put0] == old(out[..put0]) && (mode == TYPE ==> br.bits < 8)
    ensures BlockResult(mode, all, InflateCopy.Output(history, old(out[..]), 0, put0), isLast, b, br.Rest(), InflateCopy.Output(history, out[..], 0, put), |history| + out.Length)
  {
    hide BlockResult, Cat, OfBytes, DropFirst, Pow2, Low, BlockFails, BlockReads, StoredFails, DataFails, StoredReads, DataReads, HeaderReads, NoDynamic, CodesOk, DecoderOk, Holds, InflateCopy.Output;
    ghost var start, space := InflateCopy.Output(history, out[..], 0, put0), |history| + out.Length;
    ghost var pad, bytes;
    mode, put, pad, bytes := ReadStored(br, out, put0, history);
    b := StoredBlock(pad, bytes);
    StoredResult(mode, all, start, isLast, pad, bytes, br.Rest(), InflateCopy.Output(history, out[..], 0, put), space);
  }

  /** The body of a block with the fixed codes. */
  method FixedBody(br: Reader, s: InflateState, out: array<Lz77.byte>, put0: nat, fixed: Decoder, ghost ll: seq<nat>, ghost dl: seq<nat>, ghost history: seq<Lz77.byte>,
                   ghost all: BitString, ghost isLast: bool)
    returns (mode: Mode, put: nat, ghost b: Syntax)
    requires br.Valid() && br.bits < 8 && put0 <= out.Length
    requires Holds(s.window[..], s.wnext, s.whave, history) && out != s.window && W_SIZE <= s.window.Length
    requires all.n >= 3 && Low(all.v, 3) == LastBit(isLast) + 2 && DropFirst(all, 3) == br.Rest() && FixedLens(ll, dl) && DecoderOk(fixed, ll, dl)
    modifies br, s`length, s`offset, out
    ensures br.Valid() && br.Consumed() >= old(br.Consumed()) && put0 <= put <= out.Length && out[..put0] == old(out[..put0]) && (mode == TYPE ==> br.bits < 8)
    ensures BlockResult(mode, all, InflateCopy.Output(history, old(out[..]), 0, put0), isLast, b, br.Rest(), InflateCopy.Output(history, out[..], 0, put), |history| + out.Length)
  {
    hide BlockResult, Cat, OfBytes, DropFirst, Pow2, Low, BlockFails, BlockReads, StoredFails, DataFails, StoredReads, DataReads, HeaderReads, NoDynamic, CodesOk, DecoderOk, Holds, InflateCopy.Output, FixedLL, FixedDL;
    ghost var start, space := InflateCopy.Output(history, out[..], 0, put0), |history| + out.Length;
    ghost var items;
    mode, put, items := InflateData(br, s, out, put0, fixed, ll, dl, history);
    b := FixedBlock(items);
    FixedResult(mode, all, start, isLast, ll, dl, items, br.Rest(), InflateCopy.Output(history, out[..], 0, put), space);
  }

  /** The body of a block with codes of its own. */
  method DynamicBody(br: Reader, s: InflateState, out: array<Lz77.byte>, put0: nat, ghost history: seq<Lz77.byte>, ghost all: BitString, ghost isLast: bool)
    returns (mode: Mode, put: nat, ghost b: Syntax)
    requires br.Valid() && br.bits < 8 && put0 <= out.Length
    requires Holds(s.window[..], s.wnext, s.whave, history) && out != s.window && W_SIZE <= s.window.Length
    requires all.n >= 3 && Low(all.v, 3) == LastBit(isLast) + 4 && DropFirst(all, 3) == br.Rest()
    modifies br, s`length, s`offset, out
    ensures br.Valid() && br.Consumed() >= old(br.Consumed()) && put0 <= put <= out.Length && out[..put0] == old(out[..put0]) && (mode == TYPE ==> br.bits < 8)
    ensures BlockResult(mode, all, InflateCopy.Output(history, old(out[..]), 0, put0), isLast, b, br.Rest(), InflateCopy.Output(history, out[..], 0, put), |history| + out.Length)
  {
    hide Cat, OfBytes, DropFirst, Pow2, Low, BlockFails, BlockReads, StoredFails, DataFails, StoredReads, DataReads, HeaderReads, NoDynamic, CodesOk, DecoderOk, Holds, InflateCopy.Output;
    ghost var start, space := InflateCopy.Output(history, out[..], 0, put0), |history| + out.Length;
    put, b := put0, FixedBlock([]);
    var d;
    ghost var h, items;
    mode, d, h := ReadDynamic(br);
    if mode != LEN {
      NoDynamicBlock(mode, all, start, space);
      return;
    }
    ghost var data := br.Rest();
    CodesFacts(h);
    mode, put, items := InflateData(br, s, out, put0, d, LL(h), DL(h), history);
    b := DynamicBlock(h, data, items);
    if mode == TYPE {
      DynamicBlockReads(all, start, isLast, h, data, items, br.Rest(), InflateCopy.Output(history, out[..], 0, put));
    } else {
      DynamicBlockFails(mode, all, h, data, start, space);
    }
  }

  /** The TYPE state and the block that follows, on any input. It succeeds exactly if the bits ahead are a
      block whose meaning fits. */
  method ReadBlock(br: Reader, s: InflateState, out: array<Lz77.byte>, put0: nat, fixed: Decoder, ghost history: seq<Lz77.byte>)
    returns (mode: Mode, isLast: bool, put: nat, ghost b: Syntax)
    requires DecoderOk(fixed, FixedLL(), FixedDL())
    requires br.Valid() && br.bits < 8 && put0 <= out.Length
    requires Holds(s.window[..], s.wnext, s.whave, history) && out != s.window && W_SIZE <= s.window.Length
    modifies br, s`length, s`offset, out
    ensures br.Valid() && br.Consumed() >= old(br.Consumed()) && put0 <= put <= out.Length && out[..put0] == old(out[..put0])
    ensures mode == TYPE ==> br.bits < 8 && br.Consumed() > old(br.Consumed())
    ensures BlockResult(mode, old(br.Rest()), InflateCopy.Output(history, old(out[..]), 0, put0), isLast, b, br.Rest(),
                        InflateCopy.Output(history, out[..], 0, put), |history| + out.Length)
  {
    hide Cat, OfBytes, DropFirst, Pow2, Low, BlockFails, BlockReads, DecoderOk, Holds, InflateCopy.Output;
    ghost var all, start, space := br.Rest(), InflateCopy.Output(history, out[..], 0, put0), |history| + out.Length;
    put, isLast, b := put0, false, FixedBlock([]);
    var ok := br.NeedBits(3);
    br.AllIn();
    if !ok {
      mode := NoInput;
      NoKind(mode, all, start, space);
      return;
    }
    var bit, kind;
    ok, bit := br.TakeBits(1);
    ghost var mid := br.Rest();
    CatSize(BitString(bit, 1), mid);
    ok, kind := br.TakeBits(2);
    KindBits(all, bit, mid, kind, br.Rest());
    isLast := bit == 1;
    if kind == 0 {
      mode, put, b := StoredBody(br, s, out, put0, history, all, isLast);
    } else if kind == 1 {
      FixedAccepted();
      mode, put, b := FixedBody(br, s, out, put0, fixed, FixedLL(), FixedDL(), history, all, isLast);
    } else if kind == 2 {
      mode, put, b := DynamicBody(br, s, out, put0, history, all, isLast);
    } else {
      mode := BAD;
      NoKind(mode, all, start, space);
    }
  }

  lemma CodesFacts(h: Header)
    requires CodesOk(h)
    ensures h.nlen <= |h.lens|
  {
  }

  // ----- Streams -----

  lemma NoBlocks(all: BitString)
    ensures PartReads([], [all], [[]])
  {
  }

  lemma OneMoreBlock(blocks: seq<Syntax>, alls: seq<BitString>, outs: seq<seq<Lz77.byte>>, last: bool, b: Syntax, rest: BitString, result: seq<Lz77.byte>)
    requires PartReads(blocks, alls, outs) && BlockReads(alls[|blocks|], outs[|blocks|], last, b, rest, result)
    ensures last ==> StreamReads(blocks + [b], alls + [rest], outs + [result])
    ensures !last ==> PartReads(blocks + [b], alls + [rest], outs + [result])
  {
    hide BlockReads;
  }

  /** inflate with Z_FINISH, on any input: it is done exactly if the input begins with a stream whose meaning
      fits in the output, and then the output is that meaning. */
  method Inflate(bytes: seq<Blocks.byte>, out: array<Lz77.byte>) returns (mode: Mode, put: nat, ghost blocks: seq<Syntax>, ghost alls: seq<BitString>, ghost outs: seq<seq<Lz77.byte>>)
    modifies out
    ensures mode == DONE || mode == BAD || mode == NoInput || mode == NoSpace
    ensures mode == DONE ==> StreamReads(blocks, alls, outs) && alls[0] == OfBytes(bytes) && outs[0] == [] && put <= out.Length && out[..put] == outs[|blocks|]
    ensures mode == DONE ==> Decodes(bytes, out[..put])
    ensures mode != DONE ==> StreamFails(mode, OfBytes(bytes), out.Length)
    ensures mode != DONE ==> forall data: seq<Lz77.byte> :: Decodes(bytes, data) ==> mode == NoSpace && |data| > out.Length
  {
    hide Cat, OfBytes, DropFirst, Pow2, BlockReads, BlockFails, StreamReads, PartReads, StreamFails, DecoderOk, Holds;
    var br := new Reader(bytes);
    var s := new InflateState(32768);
    var fixed := FixedTables();
    put, mode := 0, TYPE;
    blocks, alls, outs := [], [OfBytes(bytes)], [[]];
    NoBlocks(OfBytes(bytes));
    InflateCopy.OutputAlone(out[..], 0);
    while mode == TYPE
      invariant br.Valid() && br.input == bytes && put <= out.Length && Holds(s.window[..], s.wnext, s.whave, []) && out != s.window
      invariant mode == TYPE || mode == DONE || mode == BAD || mode == NoInput || mode == NoSpace
      invariant |alls| > 0 && |outs| > 0 && alls[0] == OfBytes(bytes) && outs[0] == []
      invariant mode == TYPE ==> br.bits < 8 && PartReads(blocks, alls, outs) && |alls| == |outs| == |blocks| + 1
      invariant mode == TYPE ==> alls[|blocks|] == br.Rest() && outs[|blocks|] == InflateCopy.Output([], out[..], 0, put)
      invariant mode == DONE ==> StreamReads(blocks, alls, outs) && |outs| == |blocks| + 1 && outs[|blocks|] == InflateCopy.Output([], out[..], 0, put)
      invariant mode != TYPE && mode != DONE ==> StreamFails(mode, OfBytes(bytes), out.Length)
      decreases 8 * |bytes| - br.Consumed(), mode == TYPE
    {
      var isLast;
      ghost var b;
      mode, isLast, put, b := ReadBlock(br, s, out, put, fixed, []);
      if mode == TYPE {
        RestMod(br);
        ghost var result := InflateCopy.Output([], out[..], 0, put);
        OneMoreBlock(blocks, alls, outs, isLast, b, br.Rest(), result);
        blocks, alls, outs := blocks + [b], alls + [br.Rest()], outs + [result];
        mode := if isLast then DONE else TYPE;
      } else {
        RestMod(br);
        BlockStops(mode, blocks, alls, outs, out.Length);
      }
    }
    InflateCopy.OutputAlone(out[..], put);
    Outcome(mode, bytes, out.Length, blocks, alls, outs);
  }

  lemma Outcome(mode: Mode, bytes: seq<Blocks.byte>, space: nat, blocks: seq<Syntax>, alls: seq<BitString>, outs: seq<seq<Lz77.byte>>)
    requires mode == DONE ==> StreamReads(blocks, alls, outs) && alls[0] == OfBytes(bytes) && outs[0] == []
    requires mode != DONE ==> StreamFails(mode, OfBytes(bytes), space)
    ensures mode == DONE ==> |outs| == |blocks| + 1 && Decodes(bytes, outs[|blocks|])
    ensures mode != DONE ==> forall data: seq<Lz77.byte> :: Decodes(bytes, data) ==> mode == NoSpace && |data| > space
  {
    hide OfBytes, StreamFails, Decodes, BlockReads;
    if mode == DONE {
      IsDecoded(bytes, blocks, alls, outs);
    } else {
      forall data: seq<Lz77.byte> | Decodes(bytes, data)
        ensures mode == NoSpace && |data| > space
      {
        NothingDecoded(mode, bytes, space, data);
      }
    }
  }

  lemma IsDecoded(bytes: seq<Blocks.byte>, blocks: seq<Syntax>, alls: seq<BitString>, outs: seq<seq<Lz77.byte>>)
    requires StreamReads(blocks, alls, outs) && alls[0] == OfBytes(bytes) && outs[0] == []
    ensures Decodes(bytes, outs[|blocks|])
  {
    hide OfBytes, BlockReads;
  }
}
