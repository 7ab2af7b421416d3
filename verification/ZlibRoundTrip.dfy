/** deflate and inflate together: what the encoder writes, the decoder turns back into the data. */
module ZlibRoundTrip {
  import opened Blocks
  import opened BitStreams
  import opened BitWriter
  import Lz77
  import LazyParsing
  import opened DeflateWindow
  import opened DeflateSlow
  import opened DeflateRle
  import opened TokenCodes
  import opened CodeItems
  import opened BlockCost
  import opened BlockTrees
  import opened StaticTrees
  import opened FlushBlocks
  import opened BlockKinds
  import opened EncodedBlocks
  import opened InflateBlock
  import opened InflateStream

  datatype Strategy = Default | Filtered | HuffmanOnly | Rle

  ghost predicate FormsOk(forms: seq<Form>, st: Statics, blocks: seq<Block>)
    requires StaticsOk(st)
  {
    |forms| <= |blocks| && forall i :: 0 <= i < |forms| ==> FormOk(forms[i], st, blocks[i].tokens)
  }

  /** The bits of the first k blocks. */
  ghost function Sent(forms: seq<Form>, st: Statics, blocks: seq<Block>, k: nat): BitString
    requires StaticsOk(st) && FormsOk(forms, st, blocks) && k <= |forms|
  {
    if k == 0 then Empty
    else
      var before := Sent(forms, st, blocks, k - 1);
      Cat(before, FormBits(forms[k - 1], st, blocks[k - 1].tokens, k == |blocks|, before.n))
  }

  /** The bits from the k-th block on, which begins at bit position pos. */
  ghost function Following(forms: seq<Form>, st: Statics, blocks: seq<Block>, k: nat, pos: nat): BitString
    requires StaticsOk(st) && FormsOk(forms, st, blocks) && k <= |forms| == |blocks|
    decreases |forms| - k
  {
    if k == |forms| then Empty
    else
      var block := FormBits(forms[k], st, blocks[k].tokens, k + 1 == |blocks|, pos);
      Cat(block, Following(forms, st, blocks, k + 1, pos + block.n))
  }

  lemma {:induction false} SentAndFollowing(forms: seq<Form>, st: Statics, blocks: seq<Block>, k: nat)
    requires StaticsOk(st) && FormsOk(forms, st, blocks) && k <= |forms| == |blocks|
    ensures Cat(Sent(forms, st, blocks, k), Following(forms, st, blocks, k, Sent(forms, st, blocks, k).n)) == Sent(forms, st, blocks, |forms|)
    decreases |forms| - k
  {
    hide Cat, FormBits, FormOk, StaticsOk, FormsOk, Sent, Following;
    if k == |forms| {
      CatEmpty(Sent(forms, st, blocks, k));
      NoneFollows(forms, st, blocks);
    } else {
      FormAt(forms, st, blocks, k);
      var before := Sent(forms, st, blocks, k);
      var block := FormBits(forms[k], st, blocks[k].tokens, k + 1 == |blocks|, before.n);
      SentNext(forms, st, blocks, k);
      FollowingStep(forms, st, blocks, k, before.n);
      SentAndFollowing(forms, st, blocks, k + 1);
      CatSize(before, block);
      CatAssoc(before, block, Following(forms, st, blocks, k + 1, before.n + block.n));
    }
  }

  lemma NoneFollows(forms: seq<Form>, st: Statics, blocks: seq<Block>)
    requires StaticsOk(st) && FormsOk(forms, st, blocks) && |forms| == |blocks|
    ensures forall pos: nat :: Following(forms, st, blocks, |forms|, pos) == Empty
  {
    hide StaticsOk, FormsOk;
  }

  lemma SentNext(forms: seq<Form>, st: Statics, blocks: seq<Block>, k: nat)
    requires StaticsOk(st) && FormsOk(forms, st, blocks) && k < |forms| && FormOk(forms[k], st, blocks[k].tokens)
    ensures var before := Sent(forms, st, blocks, k);
      Sent(forms, st, blocks, k + 1) == Cat(before, FormBits(forms[k], st, blocks[k].tokens, k + 1 == |blocks|, before.n))
  {
    hide Cat, FormBits, FormOk, StaticsOk, FormsOk;
  }

  lemma FormAt(forms: seq<Form>, st: Statics, blocks: seq<Block>, k: nat)
    requires StaticsOk(st) && FormsOk(forms, st, blocks) && k < |forms|
    ensures k < |blocks| && FormOk(forms[k], st, blocks[k].tokens)
  {
  }

  /** The blocks can be coded. */
  ghost predicate Encodable(blocks: seq<Block>) {
    forall i :: 0 <= i < |blocks| ==>
      AllCodable(blocks[i].tokens) && |blocks[i].tokens| <= 0xFFFC && (blocks[i].raw.Bytes? ==> |blocks[i].raw.bytes| <= 0xFFFF)
  }

  lemma {:induction false} ExpandsCodable(out: seq<Lz77.byte>, tokens: seq<Lz77.Token>, result: seq<Lz77.byte>)
    requires Lz77.Expands(out, tokens, result)
    ensures AllCodable(tokens)
    decreases |tokens|
  {
    if tokens != [] {
      ExpandsCodable(Lz77.Apply(out, tokens[0]), tokens[1..], result);
      assert forall i :: 1 <= i < |tokens| ==> tokens[i] == tokens[1..][i - 1];
    }
  }

  lemma BlocksEncodable(blocks: seq<Block>, cuts: seq<nat>, data: seq<Lz77.byte>, n: nat)
    requires BlocksOk(blocks, cuts, data) && Small(blocks, n) && n <= 0x8000
    ensures Encodable(blocks)
  {
    forall i | 0 <= i < |blocks|
      ensures AllCodable(blocks[i].tokens)
    {
      assert BlockOk(blocks[i], data, cuts[i], cuts[i + 1]);
      ExpandsCodable(data[..cuts[i]], blocks[i].tokens, data[..cuts[i + 1]]);
    }
  }

  /** The static tables, made once. */
  method MakeStatics() returns (st: Statics)
    ensures StaticsOk(st)
  {
    hide TablesOk, CodeOk;
    var t := TrStaticInit();
    var lc := StaticLiterals();
    var dc := StaticDistances();
    st := Statics(t, lc, dc);
  }

  /** _tr_flush_block for every block, and the end of the stream. */
  method SendBlocks(st: Statics, blocks: seq<Block>) returns (bytes: seq<byte>, ghost forms: seq<Form>)
    requires StaticsOk(st) && Encodable(blocks)
    ensures FormsOk(forms, st, blocks) && |forms| == |blocks|
    ensures OfBytes(bytes) == Cat(Sent(forms, st, blocks, |forms|), BitString(0, Padding(Sent(forms, st, blocks, |forms|).n)))
    ensures forall i :: 0 <= i < |forms| && forms[i].Stored? ==> blocks[i].raw.Bytes? && forms[i].bytes == Ints(blocks[i].raw.bytes)
  {
    hide Cat, StaticsOk, FormBits, FormOk, OfBytes, AllCodable;
    var w := new Writer();
    forms := [];
    for k := 0 to |blocks|
      invariant w.Valid() && |forms| == k && FormsOk(forms, st, blocks) && w.Stream() == Sent(forms, st, blocks, k)
      invariant forall i :: 0 <= i < |forms| && forms[i].Stored? ==> blocks[i].raw.Bytes? && forms[i].bytes == Ints(blocks[i].raw.bytes)
    {
      ghost var f, e;
      f, e := FlushBlockBits(w, st, blocks[k], k + 1 == |blocks|);
      SentMore(forms, st, blocks, f);
      forms := forms + [f];
    }
    w.BiWindup();
    bytes := w.pending;
    AllWritten(w);
  }

  lemma AllWritten(w: Writer)
    requires w.Valid() && w.biValid == 0
    ensures w.Stream() == OfBytes(w.pending)
  {
    hide Cat, OfBytes;
    OneBit();
    CatEmpty(OfBytes(w.pending));
  }

  lemma {:induction false} SentSame(forms: seq<Form>, more: seq<Form>, st: Statics, blocks: seq<Block>, k: nat)
    requires StaticsOk(st) && FormsOk(forms, st, blocks) && FormsOk(more, st, blocks) && k <= |forms| <= |more| && more[..|forms|] == forms
    ensures Sent(more, st, blocks, k) == Sent(forms, st, blocks, k)
  {
    hide Cat, StaticsOk, FormBits, FormOk;
    if k > 0 {
      SentSame(forms, more, st, blocks, k - 1);
      assert more[k - 1] == more[..|forms|][k - 1];
    }
  }

  lemma SentMore(forms: seq<Form>, st: Statics, blocks: seq<Block>, f: Form)
    requires StaticsOk(st) && FormsOk(forms, st, blocks) && |forms| < |blocks| && FormOk(f, st, blocks[|forms|].tokens)
    ensures FormsOk(forms + [f], st, blocks)
    ensures Sent(forms + [f], st, blocks, |forms| + 1)
            == Cat(Sent(forms, st, blocks, |forms|), FormBits(f, st, blocks[|forms|].tokens, |forms| + 1 == |blocks|, Sent(forms, st, blocks, |forms|).n))
  {
    hide Cat, StaticsOk, FormBits, FormOk;
    SentSame(forms, forms + [f], st, blocks, |forms|);
  }

  /** The tokens that deflate is to send at level 9. */
  ghost function TokensFor(data: seq<Lz77.byte>, strategy: Strategy): seq<Lz77.Token> {
    match strategy
    case HuffmanOnly => Literals(data)
    case Rle => RleTokens(data, 0)
    case _ => LazyParsing.LazyTokens(data, LazyParsing.Params(32, 258, 258, 4096, strategy == Filtered), LazyParsing.LazyStart)
  }

  /** A whole stream: deflate with the given strategy at level 9, then the blocks. */
  method Deflate(st: Statics, data: seq<Lz77.byte>, strategy: Strategy) returns (bytes: seq<byte>, ghost forms: seq<Form>, ghost blocks: seq<Block>, ghost cuts: seq<nat>)
    requires StaticsOk(st)
    ensures FormsOk(forms, st, blocks) && |forms| == |blocks| >= 1
    ensures OfBytes(bytes) == Cat(Sent(forms, st, blocks, |forms|), BitString(0, Padding(Sent(forms, st, blocks, |forms|).n)))
    ensures BlocksOk(blocks, cuts, data) && cuts[|blocks|] == |data|
    ensures AllTokens(blocks) == TokensFor(data, strategy) && forall i :: 0 <= i < |blocks| - 1 ==> |blocks[i].tokens| == 32767
    ensures forall i :: 0 <= i < |forms| && forms[i].Stored? ==> blocks[i].raw.Bytes? && forms[i].bytes == Ints(blocks[i].raw.bytes)
  {
    hide Cat, StaticsOk, OfBytes, BlocksOk, Lz77.Expands, Sent, FormsOk, Padding, Small, AllTokens, LazyParsing.LazyTokens, RleTokens;
    var s := new DeflateState(data, 0x8000, 32, 258, 258, 4096, strategy == Filtered);
    if strategy == HuffmanOnly {
      DeflateHuff(s);
    } else if strategy == Rle {
      DeflateRle.DeflateRle(s);
    } else {
      DeflateSlow.DeflateSlow(s);
    }
    blocks, cuts := s.blocks, s.cuts;
    assert forall i :: 0 <= i < |blocks| - 1 ==> blocks[i] == blocks[..|blocks| - 1][i];
    BlocksEncodable(s.blocks, s.cuts, data, 0x8000);
    bytes, forms := SendBlocks(st, s.blocks);
  }

  /** What the k-th block adds. */
  lemma BlockMeans(forms: seq<Form>, blocks: seq<Block>, cuts: seq<nat>, data: seq<Lz77.byte>, k: nat)
    requires BlocksOk(blocks, cuts, data) && k < |forms| == |blocks|
    requires forms[k].Stored? ==> blocks[k].raw.Bytes? && forms[k].bytes == Ints(blocks[k].raw.bytes)
    ensures cuts[k] <= cuts[k + 1] <= |data| && Means(forms[k], blocks[k].tokens, data[..cuts[k]], data[..cuts[k + 1]])
  {
    hide Lz77.Expands;
    assert BlockOk(blocks[k], data, cuts[k], cuts[k + 1]);
    assert data[..cuts[k + 1]][..cuts[k]] == data[..cuts[k]] && data[..cuts[k + 1]][cuts[k]..] == data[cuts[k]..cuts[k + 1]];
  }

  lemma FirstFollows(forms: seq<Form>, st: Statics, blocks: seq<Block>)
    requires StaticsOk(st) && FormsOk(forms, st, blocks) && |forms| == |blocks|
    ensures Following(forms, st, blocks, 0, 0) == Sent(forms, st, blocks, |forms|)
  {
    SentAndFollowing(forms, st, blocks, 0);
    hide Cat, StaticsOk, FormsOk, Following;
    CatEmpty(Following(forms, st, blocks, 0, 0));
  }

  lemma FollowingStep(forms: seq<Form>, st: Statics, blocks: seq<Block>, k: nat, pos: nat)
    requires StaticsOk(st) && FormsOk(forms, st, blocks) && k < |forms| == |blocks| && FormOk(forms[k], st, blocks[k].tokens)
    ensures var block := FormBits(forms[k], st, blocks[k].tokens, k + 1 == |blocks|, pos);
      Following(forms, st, blocks, k, pos) == Cat(block, Following(forms, st, blocks, k + 1, pos + block.n))
  {
    hide Cat, FormBits, FormOk, StaticsOk;
  }

  /** What is sent from the k-th block on, read back: a stream of its own. */
  lemma {:induction false} SentReads(forms: seq<Form>, st: Statics, blocks: seq<Block>, cuts: seq<nat>, data: seq<Lz77.byte>, k: nat, pos: nat, end: BitString)
    returns (syntax: seq<Syntax>, alls: seq<BitString>, outs: seq<seq<Lz77.byte>>)
    requires StaticsOk(st) && FormsOk(forms, st, blocks) && k < |forms| == |blocks| && BlocksOk(blocks, cuts, data)
    requires forall i :: 0 <= i < |forms| && forms[i].Stored? ==> blocks[i].raw.Bytes? && forms[i].bytes == Ints(blocks[i].raw.bytes)
    requires (pos + Following(forms, st, blocks, k, pos).n + end.n) % 8 == 0
    ensures |cuts| == |blocks| + 1 && cuts[k] <= |data| && cuts[|blocks|] <= |data|
    ensures StreamReads(syntax, alls, outs) && alls[0] == Cat(Following(forms, st, blocks, k, pos), end)
    ensures outs[0] == data[..cuts[k]] && outs[|syntax|] == data[..cuts[|blocks|]]
    decreases |forms| - k
  {
    hide Cat, StaticsOk, FormBits, FormOk, Following, BlocksOk, Means, BlockReads, FormsOk;
    FormAt(forms, st, blocks, k);
    BlockMeans(forms, blocks, cuts, data, k);
    Cuts(blocks, cuts, data);
    FollowingStep(forms, st, blocks, k, pos);
    var last := k + 1 == |blocks|;
    var block := FormBits(forms[k], st, blocks[k].tokens, last, pos);
    var more := Following(forms, st, blocks, k + 1, pos + block.n);
    var rest := Cat(more, end);
    CatAssoc(block, more, end);
    CatSize(block, more);
    CatSize(more, end);
    StoredEnd(forms[k], st, blocks[k].tokens, last, pos);
    var b := FormReads(forms[k], st, blocks[k].tokens, last, pos, rest, data[..cuts[k]], data[..cuts[k + 1]]);
    if last {
      syntax, alls, outs := [b], [Cat(block, rest), rest], [data[..cuts[k]], data[..cuts[k + 1]]];
    } else {
      var syntax', alls', outs' := SentReads(forms, st, blocks, cuts, data, k + 1, pos + block.n, end);
      syntax, alls, outs := [b] + syntax', [Cat(block, rest)] + alls', [data[..cuts[k]]] + outs';
      StreamCons(b, Cat(block, rest), data[..cuts[k]], syntax', alls', outs');
    }
  }

  lemma StreamCons(b: Syntax, all: BitString, start: seq<Lz77.byte>, syntax: seq<Syntax>, alls: seq<BitString>, outs: seq<seq<Lz77.byte>>)
    requires StreamReads(syntax, alls, outs) && BlockReads(all, start, false, b, alls[0], outs[0])
    ensures StreamReads([b] + syntax, [all] + alls, [start] + outs)
  {
    hide BlockReads;
    var blocks', alls', outs' := [b] + syntax, [all] + alls, [start] + outs;
    forall i | 0 <= i < |blocks'|
      ensures BlockReads(alls'[i], outs'[i], i + 1 == |blocks'|, blocks'[i], alls'[i + 1], outs'[i + 1])
    {
      if i > 0 {
        assert BlockReads(alls[i - 1], outs[i - 1], i == |syntax|, syntax[i - 1], alls[i], outs[i]);
      }
    }
  }

  /** A stored block ends on a byte boundary. */
  lemma StoredEnd(f: Form, st: Statics, tokens: seq<Lz77.Token>, last: bool, pos: nat)
    requires StaticsOk(st) && FormOk(f, st, tokens)
    ensures f.Stored? ==> (pos + FormBits(f, st, tokens, last, pos).n) % 8 == 0
  {
    hide Cat, OfBytes, StaticsOk;
    if f.Stored? {
      var head := OfBytes(StoredHead(|f.bytes|) + f.bytes);
      OfBytesSize(StoredHead(|f.bytes|) + f.bytes);
      CatSize(BitString(0, Padding(pos + 3)), head);
      CatSize(BitString(LastBit(last), 3), Cat(BitString(0, Padding(pos + 3)), head));
    }
  }

  lemma Cuts(blocks: seq<Block>, cuts: seq<nat>, data: seq<Lz77.byte>)
    requires BlocksOk(blocks, cuts, data)
    ensures |cuts| == |blocks| + 1 && cuts[0] == 0
  {
  }

  /** The round trip: for all data and every strategy that maxcso uses, what deflate writes, inflate turns back
      into the data, whatever bytes follow it. */
  method RoundTrip(data: seq<Lz77.byte>, strategy: Strategy, size: nat, behind: seq<byte>) returns (mode: Mode, back: seq<Lz77.byte>)
    requires size >= |data|
    ensures mode == DONE && back == data
  {
    hide Cat, OfBytes, StaticsOk, Sent, FormsOk, BlocksOk, Padding, Following, StreamReads, StreamFails;
    var st := MakeStatics();
    var bytes, forms, blocks, cuts := Deflate(st, data, strategy);
    var out := new Lz77.byte[size](_ => 0);
    ghost var syntax, alls, outs := StreamOf(st, bytes, forms, blocks, cuts, data, behind);
    var put;
    ghost var syntax', alls', outs';
    mode, put, syntax', alls', outs' := Inflate(bytes + behind, out);
    if mode == DONE {
      StreamShape(syntax', alls', outs');
      SameStream(syntax, alls, outs, syntax', alls', outs');
    } else {
      Fits(mode, OfBytes(bytes + behind), size, syntax, alls, outs);
    }
    back := out[..put];
  }

  /** The bytes written, with any others behind them, spell a stream that means the data. */
  lemma StreamOf(st: Statics, bytes: seq<byte>, forms: seq<Form>, blocks: seq<Block>, cuts: seq<nat>, data: seq<Lz77.byte>, behind: seq<byte>)
    returns (syntax: seq<Syntax>, alls: seq<BitString>, outs: seq<seq<Lz77.byte>>)
    requires StaticsOk(st) && FormsOk(forms, st, blocks) && |forms| == |blocks| >= 1 && BlocksOk(blocks, cuts, data) && cuts[|blocks|] == |data|
    requires OfBytes(bytes) == Cat(Sent(forms, st, blocks, |forms|), BitString(0, Padding(Sent(forms, st, blocks, |forms|).n)))
    requires forall i :: 0 <= i < |forms| && forms[i].Stored? ==> blocks[i].raw.Bytes? && forms[i].bytes == Ints(blocks[i].raw.bytes)
    ensures StreamReads(syntax, alls, outs) && |alls| > 0 && |outs| == |syntax| + 1
    ensures alls[0] == OfBytes(bytes + behind) && outs[0] == [] && outs[|syntax|] == data
  {
    hide Cat, OfBytes, StaticsOk, Sent, FormsOk, BlocksOk, Padding, Following, BlockReads;
    var sent := Sent(forms, st, blocks, |forms|);
    var pad := BitString(0, Padding(sent.n));
    FirstFollows(forms, st, blocks);
    Cuts(blocks, cuts, data);
    OfBytesJoin(bytes, behind);
    CatAssoc(sent, pad, OfBytes(behind));
    OfBytesSize(bytes);
    OfBytesSize(behind);
    CatSize(sent, pad);
    CatSize(pad, OfBytes(behind));
    syntax, alls, outs := SentReads(forms, st, blocks, cuts, data, 0, 0, Cat(pad, OfBytes(behind)));
    assert data[..|data|] == data && data[..0] == [];
  }

  lemma StreamShape(syntax: seq<Syntax>, alls: seq<BitString>, outs: seq<seq<Lz77.byte>>)
    requires StreamReads(syntax, alls, outs)
    ensures |alls| == |outs| == |syntax| + 1 > 1
  {
    hide BlockReads;
  }

  lemma SameStream(syntax: seq<Syntax>, alls: seq<BitString>, outs: seq<seq<Lz77.byte>>, syntax': seq<Syntax>, alls': seq<BitString>, outs': seq<seq<Lz77.byte>>)
    requires StreamReads(syntax, alls, outs) && StreamReads(syntax', alls', outs') && |alls| > 0 && |outs| > 0
    requires |alls'| > 0 && |outs'| > 0 && alls[0] == alls'[0] && outs[0] == outs'[0]
    ensures |outs| == |syntax| + 1 && |outs'| == |syntax'| + 1 && outs[|syntax|] == outs'[|syntax'|]
  {
    hide BlockReads;
    StreamUnique(syntax, alls, outs, syntax', alls', outs');
  }

  /** A stream that fits does not fail. */
  lemma Fits(mode: Mode, all: BitString, space: nat, syntax: seq<Syntax>, alls: seq<BitString>, outs: seq<seq<Lz77.byte>>)
    requires StreamFails(mode, all, space) && StreamReads(syntax, alls, outs) && |alls| > 0 && |outs| == |syntax| + 1 && alls[0] == all && outs[0] == []
    ensures |outs[|syntax|]| > space
  {
    hide BlockReads;
  }
}
