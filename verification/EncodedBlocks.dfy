/** What _tr_flush_block sends, read back: every form is a block of the format with the meaning of its tokens. */
module EncodedBlocks {
  import opened Sums
  import opened Bits
  import opened Blocks
  import opened BitStreams
  import opened BitWriter
  import opened CanonicalCode
  import opened DecodeTable
  import Lz77
  import opened TokenCodes
  import opened CodeRuns
  import opened CodeItems
  import opened DynamicHeader
  import opened BlockData
  import opened BlockKinds
  import opened BlockTrees
  import opened FlushBlocks
  import opened InflateItems
  import opened TokenItems
  import opened InflateFast
  import opened InflateLens
  import opened InflateHeader
  import opened InflateStream

  /** What a block in its form stands for, after the output so far. */
  ghost predicate Means(f: Form, tokens: seq<Lz77.Token>, out: seq<Lz77.byte>, result: seq<Lz77.byte>) {
    if f.Stored? then out <= result && Ints(result[|out|..]) == f.bytes
    else Lz77.Expands(out, tokens, result)
  }

  // ----- The header -----

  function ValsFor(bl: seq<nat>, n: nat): (r: seq<nat>)
    requires |bl| == BL_CODES && n <= BL_CODES
    ensures |r| == n && forall i :: 0 <= i < n ==> r[i] == bl[Order(i)]
  {
    seq(n, i requires 0 <= i < n => bl[Order(i)])
  }

  ghost function HeaderFor(t: Trees): Header
    requires TreesOk(t)
  {
    Header(|t.llens|, |t.dlens|, ValsFor(t.bl.lens, t.blcodes), Runs(t.llens, 0, -1) + Runs(t.dlens, 0, -1), t.llens + t.dlens)
  }

  lemma {:induction false} ValsSent(bl: seq<nat>, n: nat, rest: BitString)
    requires |bl| == BL_CODES && n <= BL_CODES
    ensures ValsSpelled(ValsFor(bl, n), rest) == Cat(OrderedBits(bl, n), rest)
  {
    hide Cat, Order;
    if n == 0 {
      CatEmpty(rest);
    } else {
      var v := BitString(bl[Order(n - 1)], 3);
      ValsSent(bl, n - 1, Cat(v, rest));
      CatAssoc(OrderedBits(bl, n - 1), v, rest);
      assert ValsFor(bl, n)[..n - 1] == ValsFor(bl, n - 1);
    }
  }

  lemma {:induction false} RunsSent(bl: Code, runs: seq<Run>, rest: BitString)
    requires CodeOk(bl) && Sendable(bl, runs)
    ensures RunsOk(bl.lens, runs) && RunsSpelled(bl.lens, runs, rest) == Cat(RunsBits(bl, runs), rest)
    decreases |runs|
  {
    hide Cat, CodeOk, RunSpelled, RunBits, SendableRun, RunOk;
    if runs == [] {
      CatEmpty(rest);
    } else {
      var n := |runs| - 1;
      RunSent(bl, runs[n], rest);
      RunsSent(bl, runs[..n], RunSpelled(bl.lens, runs[n], rest));
      CatAssoc(RunsBits(bl, runs[..n]), RunBits(bl, runs[n]), rest);
    }
  }

  lemma RunSent(bl: Code, run: Run, rest: BitString)
    requires CodeOk(bl) && SendableRun(bl, run)
    ensures RunOk(bl.lens, run) && RunSpelled(bl.lens, run, rest) == Cat(RunBits(bl, run), rest)
  {
    hide Cat, CodeOk, RunExtra, Symbol, CodeBits;
    SymProper(bl, Symbol(run));
    CatAssoc(SymBits(bl, Symbol(run)), RunExtra(run), rest);
  }

  lemma BlPlaces(t: Trees)
    requires TreesOk(t)
    ensures BlLens(ValsFor(t.bl.lens, t.blcodes)) == t.bl.lens
  {
    hide CodeOk, Sendable, Runs, Order, Place;
    var vals := ValsFor(t.bl.lens, t.blcodes);
    forall s | 0 <= s < BL_CODES ensures BlLens(vals)[s] == t.bl.lens[s] {
      OrderPlace(s, 0);
    }
  }

  /** send_all_trees spells a header. */
  lemma HeaderSent(t: Trees, rest: BitString)
    requires TreesOk(t) && t.llens[END_BLOCK] != 0
    ensures HeaderReads(Cat(HeaderBits(t), rest), HeaderFor(t), rest)
  {
    hide Cat, CodeOk, Sendable, Runs, Order, OrderedBits, RunsBits, ValsSpelled, RunsSpelled, RunsOk, Space, Expand, BlLens;
    var h := HeaderFor(t);
    BothSendable(t);
    RunsRoundTrip(t.llens, t.dlens);
    BlPlaces(t);
    BlComplete(t.bl);
    RunsSent(t.bl, h.runs, rest);
    var runs := RunsBits(t.bl, h.runs);
    ValsSent(t.bl.lens, t.blcodes, Cat(runs, rest));
    var a, b, c, o := BitString(|t.llens| - 257, 5), BitString(|t.dlens| - 1, 5), BitString(t.blcodes - 4, 4), OrderedBits(t.bl.lens, t.blcodes);
    CatAssoc(Cat(Counts(t), o), runs, rest);
    CatAssoc(Counts(t), o, Cat(runs, rest));
    CatAssoc(Cat(a, b), c, Cat(o, Cat(runs, rest)));
    CatAssoc(a, b, Cat(c, Cat(o, Cat(runs, rest))));
  }

  lemma BlComplete(bl: Code)
    requires CodeOk(bl)
    ensures Space(bl.lens) == Pow2(MAXBITS) && Accepted(bl.lens)
  {
    hide Space, CodeBits;
  }

  // ----- The forms -----

  /** A block begins with three bits. */
  lemma ThreeFirst(v: nat, x: BitString, rest: BitString)
    requires v < 8
    ensures var all := Cat(Cat(BitString(v, 3), x), rest);
      all.n >= 3 && Low(all.v, 3) == v && DropFirst(all, 3) == Cat(x, rest)
  {
    hide Low, DropFirst, Shl;
    ThreeBits();
    CatAssoc(BitString(v, 3), x, rest);
    CatParts(BitString(v, 3), Cat(x, rest));
  }

  lemma StoredSent(bytes: seq<byte>, pos: nat, rest: BitString, start: seq<Lz77.byte>, result: seq<Lz77.byte>)
    requires |bytes| <= 0xFFFF && start <= result && Ints(result[|start|..]) == bytes && rest.n % 8 == 0
    ensures var pad := BitString(0, Padding(pos));
      StoredReads(Cat(Cat(pad, OfBytes(StoredHead(|bytes|) + bytes)), rest), start, pad, bytes, rest, result)
  {
    hide Cat, OfBytes, StoredHead, Ints, Pow2;
    var pad := BitString(0, Padding(pos));
    OfBytesJoin(StoredHead(|bytes|), bytes);
    HeadBits(|bytes|);
    IntsBack(result[|start|..]);
    CatAssoc(pad, OfBytes(StoredHead(|bytes|) + bytes), rest);
    CatAssoc(OfBytes(StoredHead(|bytes|)), OfBytes(bytes), rest);
  }

  lemma DataSent(t: Tables, lc: Code, dc: Code, tokens: seq<Lz77.Token>, rest: BitString, start: seq<Lz77.byte>, result: seq<Lz77.byte>) returns (items: seq<Item>)
    requires TablesOk(t) && CodeOk(lc) && CodeOk(dc) && TokensOk(t, lc, dc, tokens) && Coded(lc, END_BLOCK) && Lz77.Expands(start, tokens, result)
    ensures DataReads(lc.lens, dc.lens, Cat(DataBits(t, lc, dc, tokens, 0), rest), start, items, rest, result)
  {
    hide Cat, TablesOk, CodeOk, TokensOk, DataBits, DataSpelled, ItemsOk, Lz77.Expands, Coded, ItemFor;
    TokensSpelled(t, lc, dc, tokens, 0, rest);
    items := ItemsFor(t, tokens)[0..];
    assert tokens[0..] == tokens;
  }

  /** Every form is a block with the meaning of its tokens. Behind a stored block, the input ends on a byte
      boundary. */
  lemma FormReads(f: Form, st: Statics, tokens: seq<Lz77.Token>, last: bool, pos: nat, rest: BitString, start: seq<Lz77.byte>, result: seq<Lz77.byte>) returns (b: Syntax)
    requires StaticsOk(st) && FormOk(f, st, tokens) && Means(f, tokens, start, result) && (f.Stored? ==> rest.n % 8 == 0)
    ensures BlockReads(Cat(FormBits(f, st, tokens, last, pos), rest), start, last, b, rest, result)
  {
    hide Cat, OfBytes, StaticsOk, EncodingOk, HeaderBits, DataBits, TokensOk, Coded, TreesOk, CodeOk, Padding, StoredHead, Low, DropFirst, StoredReads, DataReads, HeaderReads, TablesOk, Ints;
    hide Lz77.Expands, Accepted;
    StaticsFacts(st);
    match f
    case Stored(bytes) =>
      var pad := BitString(0, Padding(pos + 3));
      ThreeFirst(LastBit(last), Cat(pad, OfBytes(StoredHead(|bytes|) + bytes)), rest);
      StoredSent(bytes, pos + 3, rest, start, result);
      b := StoredBlock(pad, bytes);
    case Static =>
      ThreeFirst(2 + LastBit(last), DataBits(st.t, st.lc, st.dc, tokens, 0), rest);
      var items := DataSent(st.t, st.lc, st.dc, tokens, rest, start, result);
      b := FixedBlock(items);
    case Dynamic(e) =>
      EncodingFacts(e, st.t, tokens);
      var header, data := HeaderBits(e.trees), DataBits(st.t, e.lc, e.dc, tokens, 0);
      ThreeFirst(4 + LastBit(last), Cat(header, data), rest);
      CatAssoc(header, data, rest);
      EndCoded(e.trees, e.lc);
      HeaderSent(e.trees, Cat(data, rest));
      BlComplete(e.lc);
      BlComplete(e.dc);
      SplitBack(e.trees);
      var items := DataSent(st.t, e.lc, e.dc, tokens, rest, start, result);
      b := DynamicBlock(HeaderFor(e.trees), Cat(data, rest), items);
  }

  lemma EndCoded(t: Trees, lc: Code)
    requires TreesOk(t) && lc.lens == t.llens && Coded(lc, END_BLOCK)
    ensures |t.llens| > END_BLOCK && t.llens[END_BLOCK] != 0
  {
  }

  lemma SplitBack(t: Trees)
    requires TreesOk(t)
    ensures LL(HeaderFor(t)) == t.llens && DL(HeaderFor(t)) == t.dlens
  {
  }
}
