/** _tr_flush_block and _tr_stored_block of trees.c: a block in the shortest of the three forms. */
module FlushBlocks {
  import opened Sums
  import opened Blocks
  import opened BitStreams
  import opened BitWriter
  import Lz77
  import opened DeflateWindow
  import opened TokenCodes
  import opened CodeItems
  import opened DynamicHeader
  import opened BlockData
  import opened BlockCost
  import opened BlockKinds
  import opened BlockTrees
  import opened StaticTrees
  import TreeSender

  /** The form in which a block was sent. */
  datatype Form = Stored(bytes: seq<byte>) | Static | Dynamic(e: Encoding)

  /** The tables that do not change. */
  datatype Statics = Statics(t: Tables, lc: Code, dc: Code)

  ghost predicate StaticsOk(st: Statics) {
    TablesOk(st.t) && CodeOk(st.lc) && st.lc.lens == StaticLSeq(288) && CodeOk(st.dc) && st.dc.lens == Fives(32)
  }

  ghost predicate FormOk(f: Form, st: Statics, tokens: seq<Lz77.Token>)
    requires StaticsOk(st)
  {
    && AllCodable(tokens)
    && match f
       case Stored(bytes) => |bytes| <= 0xFFFF
       case Static => TokensOk(st.t, st.lc, st.dc, tokens) && Coded(st.lc, END_BLOCK)
       case Dynamic(e) => EncodingOk(e, st.t, tokens)
  }

  /** The bits of a block that begins at bit position pos. */
  ghost function FormBits(f: Form, st: Statics, tokens: seq<Lz77.Token>, last: bool, pos: nat): BitString
    requires StaticsOk(st) && FormOk(f, st, tokens)
  {
    match f
    case Stored(bytes) => Cat(BitString(LastBit(last), 3), Cat(BitString(0, Padding(pos + 3)), OfBytes(StoredHead(|bytes|) + bytes)))
    case Static => Cat(BitString(2 + LastBit(last), 3), DataBits(st.t, st.lc, st.dc, tokens, 0))
    case Dynamic(e) => Cat(BitString(4 + LastBit(last), 3), Cat(HeaderBits(e.trees), DataBits(st.t, e.lc, e.dc, tokens, 0)))
  }

  lemma ThreeBits()
    ensures Pow2(3) == 8
  {
  }

  /** _tr_stored_block */
  method StoredBlock(w: Writer, buf: seq<byte>, last: bool, ghost st: Statics, ghost tokens: seq<Lz77.Token>)
    requires w.Valid() && |buf| <= 0xFFFF && StaticsOk(st) && AllCodable(tokens)
    modifies w
    ensures w.Valid() && w.Stream() == Cat(old(w.Stream()), FormBits(Stored(buf), st, tokens, last, old(w.Stream()).n))
  {
    hide Cat, OfBytes, Padding, StaticsOk;
    ghost var was := w.Stream();
    ThreeBits();
    ghost var a, b, c := BitString(LastBit(last), 3), BitString(0, Padding(was.n + 3)), OfBytes(StoredHead(|buf|) + buf);
    CatSize(was, a);
    CatAssoc(was, a, Cat(b, c));
    CatAssoc(Cat(was, a), b, c);
    w.SendBits(LastBit(last), 3);
    w.BiWindup();
    ghost var before := w.pending;
    NoBits(w.pending);
    w.PutShort(|buf|);
    w.PutShort(0xFFFF - |buf|);
    w.pending := w.pending + buf;
    assert w.pending == before + (StoredHead(|buf|) + buf);
    OfBytesJoin(before, StoredHead(|buf|) + buf);
    NoBits(w.pending);
    NoBuffer(w);
  }

  lemma NoBits(s: seq<byte>)
    ensures Cat(OfBytes(s), BitString(0, 0)) == OfBytes(s)
  {
    hide Cat;
    CatEmpty(OfBytes(s));
  }

  lemma NoBuffer(w: Writer)
    requires w.Valid() && w.biValid == 0
    ensures w.biBuf == 0
  {
  }

  /** Whole bytes. */
  function ToBytes(bits: int): int {
    (bits + 3 + 7) / 8
  }

  /** The lengths of the two compressed forms, with the three bits of the kind. */
  lemma FormSizes(e: Encoding, st: Statics, tokens: seq<Lz77.Token>, last: bool, pos: nat)
    requires StaticsOk(st) && FormOk(Static, st, tokens) && FormOk(Dynamic(e), st, tokens)
    ensures FormBits(Static, st, tokens, last, pos).n == 3 + DataBits(st.t, st.lc, st.dc, tokens, 0).n
    ensures TreesOk(e.trees) && TokensOk(st.t, e.lc, e.dc, tokens) && Coded(e.lc, END_BLOCK)
    ensures FormBits(Dynamic(e), st, tokens, last, pos).n == 3 + HeaderBits(e.trees).n + DataBits(st.t, e.lc, e.dc, tokens, 0).n
  {
    hide Cat, StaticsOk, EncodingOk, HeaderBits, DataBits, TokensOk, Coded, TreesOk, CodeOk;
    StaticsFacts(st);
    EncodingFacts(e, st.t, tokens);
    CatSize(BitString(2 + LastBit(last), 3), DataBits(st.t, st.lc, st.dc, tokens, 0));
    CatSize(HeaderBits(e.trees), DataBits(st.t, e.lc, e.dc, tokens, 0));
    CatSize(BitString(4 + LastBit(last), 3), Cat(HeaderBits(e.trees), DataBits(st.t, e.lc, e.dc, tokens, 0)));
  }

  /** How many bytes a compressed form takes. */
  ghost function FormBytes(f: Form, st: Statics, tokens: seq<Lz77.Token>): nat
    requires StaticsOk(st) && FormOk(f, st, tokens)
  {
    (FormBits(f, st, tokens, false, 0).n + 7) / 8
  }

  /** _tr_flush_block: the predicted lengths are exact, and the block is sent in the form that is shortest,
      counted in bytes; e is what the dynamic form would be. */
  method FlushBlockBits(w: Writer, st: Statics, block: Block, last: bool) returns (f: Form, ghost e: Encoding)
    requires w.Valid() && StaticsOk(st) && AllCodable(block.tokens) && |block.tokens| <= 0xFFFC
    requires block.raw.Bytes? ==> |block.raw.bytes| <= 0xFFFF
    modifies w
    ensures w.Valid() && FormOk(f, st, block.tokens)
    ensures w.Stream() == Cat(old(w.Stream()), FormBits(f, st, block.tokens, last, old(w.Stream()).n))
    ensures f.Stored? ==> block.raw.Bytes? && f.bytes == Ints(block.raw.bytes)
    ensures FormOk(Static, st, block.tokens) && e.staticLen + 3 == FormBits(Static, st, block.tokens, last, old(w.Stream()).n).n
    ensures FormOk(Dynamic(e), st, block.tokens) && e.optLen + 3 == FormBits(Dynamic(e), st, block.tokens, last, old(w.Stream()).n).n
    ensures f.Stored? <==> block.raw.Bytes? && |block.raw.bytes| + 4 <= FormBytes(Static, st, block.tokens) && |block.raw.bytes| + 4 <= FormBytes(Dynamic(e), st, block.tokens)
    ensures !f.Stored? ==> f == if FormBytes(Static, st, block.tokens) <= FormBytes(Dynamic(e), st, block.tokens) then Static else Dynamic(e)
  {
    hide Cat, OfBytes, StaticsOk, EncodingOk, FormBits, HeaderBits, DataBits, TokensOk, Coded, TreesOk, CodeOk, Padding, AllCodable, TablesOk;
    ghost var was := w.Stream();
    StaticsFacts(st);
    var enc := BuildEncoding(st.t, block.tokens);
    e := enc;
    StaticCost(st.t, block.tokens, st.lc, st.dc);
    FormSizes(e, st, block.tokens, last, was.n);
    FormSizes(e, st, block.tokens, false, 0);
    var optLenb, staticLenb := ToBytes(enc.optLen), ToBytes(enc.staticLen);
    if staticLenb <= optLenb {
      optLenb := staticLenb;
    }
    ThreeBits();
    if block.raw.Bytes? && |block.raw.bytes| + 4 <= optLenb {
      f := Stored(Ints(block.raw.bytes));
      StoredBlock(w, Ints(block.raw.bytes), last, st, block.tokens);
    } else if staticLenb == optLenb {
      f := Static;
      StaticBits(st, block.tokens, last, was);
      w.SendBits(2 + LastBit(last), 3);
      CompressBlock(w, st.t, st.lc, st.dc, block.tokens);
    } else {
      f := Dynamic(enc);
      EncodingFacts(enc, st.t, block.tokens);
      DynamicBits(enc, st, block.tokens, last, was);
      w.SendBits(4 + LastBit(last), 3);
      SendAllTrees(w, enc.llen, enc.dlen, enc.trees);
      CompressBlock(w, st.t, enc.lc, enc.dc, block.tokens);
    }
  }

  lemma StaticBits(st: Statics, tokens: seq<Lz77.Token>, last: bool, was: BitString)
    requires StaticsOk(st) && FormOk(Static, st, tokens)
    ensures Cat(was, FormBits(Static, st, tokens, last, was.n)) == Cat(Cat(was, BitString(2 + LastBit(last), 3)), DataBits(st.t, st.lc, st.dc, tokens, 0))
  {
    hide Cat, StaticsOk, DataBits, TokensOk, Coded;
    StaticsFacts(st);
    CatAssoc(was, BitString(2 + LastBit(last), 3), DataBits(st.t, st.lc, st.dc, tokens, 0));
  }

  lemma DynamicBits(e: Encoding, st: Statics, tokens: seq<Lz77.Token>, last: bool, was: BitString)
    requires StaticsOk(st) && FormOk(Dynamic(e), st, tokens)
    ensures TreesOk(e.trees) && TokensOk(st.t, e.lc, e.dc, tokens) && Coded(e.lc, END_BLOCK)
    ensures Cat(was, FormBits(Dynamic(e), st, tokens, last, was.n))
            == Cat(Cat(Cat(was, BitString(4 + LastBit(last), 3)), HeaderBits(e.trees)), DataBits(st.t, e.lc, e.dc, tokens, 0))
  {
    hide Cat, StaticsOk, EncodingOk, HeaderBits, DataBits, TokensOk, Coded, TreesOk, CodeOk;
    StaticsFacts(st);
    EncodingFacts(e, st.t, tokens);
    var kind, header, data := BitString(4 + LastBit(last), 3), HeaderBits(e.trees), DataBits(st.t, e.lc, e.dc, tokens, 0);
    CatAssoc(was, kind, Cat(header, data));
    CatAssoc(Cat(was, kind), header, data);
  }

  lemma StaticsFacts(st: Statics)
    requires StaticsOk(st)
    ensures TablesOk(st.t) && CodeOk(st.lc) && CodeOk(st.dc) && st.lc.lens == StaticLSeq(288) && st.dc.lens == Fives(32)
  {
  }

  lemma EncodingFacts(e: Encoding, t: Tables, tokens: seq<Lz77.Token>)
    requires TablesOk(t) && EncodingOk(e, t, tokens)
    ensures TreesOk(e.trees) && CodeOk(e.lc) && CodeOk(e.dc) && TokensOk(t, e.lc, e.dc, tokens) && Coded(e.lc, END_BLOCK)
    ensures |e.trees.llens| < |e.llen| && e.llen[..|e.trees.llens|] == e.trees.llens && e.llen[|e.trees.llens|] == TreeSender.GUARD
    ensures |e.trees.dlens| < |e.dlen| && e.dlen[..|e.trees.dlens|] == e.trees.dlens && e.dlen[|e.trees.dlens|] == TreeSender.GUARD
    ensures e.lc.lens == e.trees.llens && e.dc.lens == e.trees.dlens
  {
  }
}
