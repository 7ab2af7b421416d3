/** The trees of a block: build_tree for literals and distances, build_bl_tree, and what _tr_flush_block
    predicts from them. */
module BlockTrees {
  import opened Sums
  import opened Lz77
  import opened BitStreams
  import opened HuffmanCost
  import opened HuffmanTree
  import opened BitLengths
  import opened TreeCodes
  import opened CanonicalCode
  import opened TokenCodes
  import opened CodeItems
  import opened CodeRuns
  import opened TreeSender
  import opened DynamicHeader
  import opened BlockData
  import opened BlockCost

  function ExtraSeq(dist: bool, n: nat): (r: seq<nat>)
    ensures |r| == n && forall i :: 0 <= i < n ==> r[i] == TokenCodes.Extra(dist, i)
  {
    seq(n, i requires i >= 0 => TokenCodes.Extra(dist, i))
  }

  /** The lengths of the static codes. */
  function StaticL(s: nat): nat {
    if s <= 143 then 8 else if s <= 255 then 9 else if s <= 279 then 7 else 8
  }

  function StaticLSeq(n: nat): (r: seq<nat>)
    ensures |r| == n && forall i :: 0 <= i < n ==> r[i] == StaticL(i)
  {
    seq(n, i requires i >= 0 => StaticL(i))
  }

  function Fives(n: nat): (r: seq<nat>)
    ensures |r| == n && forall i :: 0 <= i < n ==> r[i] == 5
  {
    seq(n, _ => 5)
  }

  function BlExtra(): (r: seq<nat>)
    ensures |r| == 19 && forall i :: 0 <= i < 19 ==> r[i] == if i == 16 then 2 else if i == 17 then 3 else if i == 18 then 7 else 0
  {
    seq(19, i => if i == 16 then 2 else if i == 17 then 3 else if i == 18 then 7 else 0)
  }

  /** static_l_desc, static_d_desc and static_bl_desc */
  function LDesc(): StaticDesc {
    StaticDesc(StaticLSeq(288), ExtraSeq(false, LENGTH_CODES), LITERALS + 1, 286, 15)
  }

  function DDesc(): StaticDesc {
    StaticDesc(Fives(D_CODES), ExtraSeq(true, D_CODES), 0, D_CODES, 15)
  }

  function BlDesc(): StaticDesc {
    StaticDesc([], BlExtra(), 0, BL_CODES, 7)
  }

  lemma DescsValid()
    ensures ValidDesc(LDesc()) && ValidDesc(DDesc()) && ValidDesc(BlDesc())
  {
    assert Pow2(7) == 128;
    assert Pow2(10) == 1024;
    Pow2Mono(10, 15);
  }

  // ----- Trailing zero lengths do not change a code -----

  lemma {:induction false} BelowSame(lens: seq<nat>, more: seq<nat>, unit: bool, b: nat, n: nat, k: nat)
    requires |lens| <= |more| && more[..|lens|] == lens && k <= |more| && forall i :: |lens| <= i < |more| ==> more[i] == 0
    ensures Below(more, unit, b, n, k) == Below(lens, unit, b, n, if k <= |lens| then k else |lens|)
  {
    if k != 0 {
      BelowSame(lens, more, unit, b, n, k - 1);
      assert k <= |lens| ==> more[k - 1] == more[..|lens|][k - 1];
    }
  }

  lemma TrailingZeros(c: Code, more: seq<nat>)
    requires CodeOk(c) && |c.lens| <= |more| <= |c.codes| && more[..|c.lens|] == c.lens && forall i :: |c.lens| <= i < |more| ==> more[i] == 0
    ensures CodeOk(Code(c.codes, more))
  {
    hide Below;
    var lens := c.lens;
    BelowSame(lens, more, true, MAXBITS + 1, 0, |more|);
    forall s | 0 <= s < |more| && more[s] > 0
      ensures c.codes[s] == CodeBits(more, s)
    {
      assert s < |lens| && more[s] == more[..|lens|][s];
      BelowSame(lens, more, true, lens[s], s, |more|);
    }
    forall s | 0 <= s < |more|
      ensures more[s] <= MAXBITS
    {
      assert s < |lens| ==> more[s] == more[..|lens|][s];
    }
  }

  // ----- The bit length code has a length other than zero to send -----

  lemma {:induction false} HasLen(lens: seq<nat>, n: nat, prev: int, i: nat) returns (j: nat)
    requires n <= i < |lens| && lens[i] > 0 && (prev == -1 || prev == 0)
    ensures j < |Runs(lens, n, prev)| && Runs(lens, n, prev)[j].Len? && Runs(lens, n, prev)[j].len > 0
    decreases |lens| - n
  {
    hide Emit, RunLength, Runs, MaxCount;
    var cur := lens[n];
    var count := RunLength(lens, n, MaxCount(prev, cur));
    RunsStep(lens, n, prev);
    if cur > 0 {
      EmitFirst(prev, cur, count);
      j := 0;
    } else {
      var m := HasLen(lens, n + count, 0, i);
      j := |Emit(prev, cur, count)| + m;
    }
  }

  lemma EmitFirst(prev: int, cur: nat, count: nat)
    requires count >= 1 && cur > 0 && cur != prev
    ensures |Emit(prev, cur, count)| > 0 && Emit(prev, cur, count)[0] == Len(cur)
  {
  }

  lemma {:induction false} FewRuns(lens: seq<nat>, n: nat, prev: int)
    requires n <= |lens|
    ensures |Runs(lens, n, prev)| <= |lens| - n
    decreases |lens| - n
  {
    if n < |lens| {
      var count := RunLength(lens, n, MaxCount(prev, lens[n]));
      FewRuns(lens, n + count, lens[n]);
    }
  }

  /** A tree as build_tree leaves it. */
  ghost predicate Finished(fc: seq<nat>, dl: seq<nat>, leaves: set<nat>, maxCode: nat, elems: nat) {
    && maxCode < elems && |fc| == |dl| == 2 * elems + 1 && maxCode in leaves
    && (forall x :: x in leaves ==> x <= maxCode && 1 <= dl[x] <= 15)
    && (forall x :: 0 <= x < elems && x !in leaves ==> dl[x] == 0)
    && CodeOk(Code(fc, dl[..maxCode + 1]))
  }

  /** build_tree on counted frequencies. */
  method Build(s: TreeBuilder, desc: StaticDesc) returns (maxCode: nat, ghost leaves: set<nat>)
    requires s.Arrays() && ValidDesc(desc) && s.fc.Length == s.dl.Length == 2 * desc.elems + 1
    requires Total(s.fc[..], LeavesOf(s.fc[..], desc.elems)) <= 0xFFFD
    modifies s, s.heap, s.depth, s.blCount, s.fc, s.dl
    ensures Finished(s.fc[..], s.dl[..], leaves, maxCode, desc.elems) && maxCode >= 1 && old(LeavesOf(s.fc[..], desc.elems)) <= leaves
    ensures forall x :: x in leaves ==> s.dl[x] <= desc.maxLength
    ensures s.optLen == old(s.optLen) + Cost(old(s.fc[..]), old(LeavesOf(s.fc[..], desc.elems)), WithExtra(s.dl[..], desc))
    ensures s.staticLen == old(s.staticLen) + StaticGain(desc, old(s.fc[..]), old(LeavesOf(s.fc[..], desc.elems)))
  {
    hide Cost, LeavesOf, StaticGain, Total, Space, CodeBits, Pow2, WithExtra, ValidDesc, ValidLengths, Optimal;
    ghost var depth, freq;
    var m;
    m, leaves, depth, freq := BuildTree(s, desc);
    maxCode := m;
    CodeOfTree(s.fc[..], s.dl[..], leaves, maxCode, desc.elems);
    DescLimits(desc);
  }

  lemma CodeOfTree(fc: seq<nat>, dl: seq<nat>, leaves: set<nat>, maxCode: nat, elems: nat)
    requires maxCode < elems && |fc| == |dl| == 2 * elems + 1
    requires ValidLengths(dl[..maxCode + 1]) && Space(dl[..maxCode + 1]) == Pow2(MAXBITS)
    requires forall x :: x in leaves ==> x <= maxCode && fc[x] == CodeBits(dl[..maxCode + 1], x)
    requires forall x :: 0 <= x < elems && x !in leaves ==> dl[x] == 0
    ensures CodeOk(Code(fc, dl[..maxCode + 1]))
  {
    hide Space, CodeBits, Pow2;
    forall s | 0 <= s <= maxCode && dl[..maxCode + 1][s] > 0
      ensures fc[s] == CodeBits(dl[..maxCode + 1], s)
    {
      assert s in leaves;
    }
  }

  /** The symbols of the tokens have codes in the finished trees. */
  lemma SymbolsCoded(t: Tables, tokens: seq<Token>, lfc: seq<nat>, ldl: seq<nat>, l: set<nat>, lmax: nat, dfc: seq<nat>, ddl: seq<nat>, d: set<nat>, dmax: nat)
    requires TablesOk(t) && AllCodable(tokens) && Finished(lfc, ldl, l, lmax, 286) && Finished(dfc, ddl, d, dmax, D_CODES)
    requires LeavesOf(LFreq(t, tokens, |tokens|), 286) <= l && LeavesOf(DFreq(t, tokens, |tokens|), D_CODES) <= d
    ensures TokensOk(t, Code(lfc, ldl[..lmax + 1]), Code(dfc, ddl[..dmax + 1]), tokens)
    ensures lmax >= 256 && Coded(Code(lfc, ldl[..lmax + 1]), END_BLOCK)
    ensures END_BLOCK in LeavesOf(LFreq(t, tokens, |tokens|), 286)
    ensures forall i :: 0 <= i < |tokens| ==> LSym(t, tokens[i]) in LeavesOf(LFreq(t, tokens, |tokens|), 286)
    ensures forall i :: 0 <= i < |tokens| && tokens[i].Match? ==> DistCodeOf(t, tokens[i]) in LeavesOf(DFreq(t, tokens, |tokens|), D_CODES)
  {
    hide TablesOk, CodeOk, LFreq, DFreq;
    EndOccurs(t, tokens, |tokens|);
    assert END_BLOCK in l;
    forall i | 0 <= i < |tokens|
      ensures LSym(t, tokens[i]) in LeavesOf(LFreq(t, tokens, |tokens|), 286)
      ensures tokens[i].Match? ==> DistCodeOf(t, tokens[i]) in LeavesOf(DFreq(t, tokens, |tokens|), D_CODES)
      ensures TokenOk(t, Code(lfc, ldl[..lmax + 1]), Code(dfc, ddl[..dmax + 1]), tokens[i])
    {
      Occurs(t, tokens, |tokens|, i);
      assert LSym(t, tokens[i]) in l;
      assert tokens[i].Match? ==> DistCodeOf(t, tokens[i]) in d;
    }
  }

  /** The costs that build_tree adds up are those of the codes. */
  lemma TreeCosts(lfc: seq<nat>, ldl: seq<nat>, lmax: nat, dfc: seq<nat>, ddl: seq<nat>, dmax: nat)
    requires |ldl| == 573 && |ddl| == 61 && lmax < 286 && dmax < D_CODES
    ensures Costs(WithExtra(ldl, LDesc()), WithExtra(ddl, DDesc()), Code(lfc, ldl[..lmax + 1]), Code(dfc, ddl[..dmax + 1]))
  {
  }

  /** What _tr_flush_block knows about a block before it decides. */
  datatype Encoding = Encoding(trees: Trees, lc: Code, dc: Code, llen: seq<nat>, dlen: seq<nat>, optLen: int, staticLen: int)

  /** The header tells no more lengths than needed. */
  ghost predicate Trimmed(t: Trees) {
    && t.llens != [] && t.llens[|t.llens| - 1] > 0 && t.dlens != [] && t.dlens[|t.dlens| - 1] > 0
    && 1 <= t.blcodes <= BL_CODES <= |t.bl.lens| && t.bl.lens[Order(t.blcodes - 1)] > 0
  }

  ghost predicate EncodingOk(e: Encoding, t: Tables, tokens: seq<Token>)
    requires TablesOk(t)
  {
    && TreesOk(e.trees) && CodeOk(e.lc) && CodeOk(e.dc) && e.lc.lens == e.trees.llens && e.dc.lens == e.trees.dlens
    && |e.trees.llens| < |e.llen| && e.llen[..|e.trees.llens|] == e.trees.llens && e.llen[|e.trees.llens|] == GUARD
    && |e.trees.dlens| < |e.dlen| && e.dlen[..|e.trees.dlens|] == e.trees.dlens && e.dlen[|e.trees.dlens|] == GUARD
    && TokensOk(t, e.lc, e.dc, tokens) && Coded(e.lc, END_BLOCK) && Trimmed(e.trees)
  }

  /** The bit length frequencies of both trees. */
  method ScanBoth(ldl: array<nat>, lmax: nat, ddl: array<nat>, dmax: nat, fc: array<nat>)
    requires ldl.Length == 573 && ddl.Length == 61 && lmax < 286 && dmax < D_CODES && fc.Length == 39 && ldl != ddl && ldl != fc && ddl != fc
    requires (forall i :: 0 <= i <= lmax ==> ldl[i] <= 15) && (forall i :: 0 <= i <= dmax ==> ddl[i] <= 15)
    modifies ldl, ddl, fc
    ensures ldl[..] == old(ldl[..])[lmax + 1 := GUARD] && ddl[..] == old(ddl[..])[dmax + 1 := GUARD]
    ensures fc[..] == RFreq(Runs(old(ldl[..lmax + 1]), 0, -1) + Runs(old(ddl[..dmax + 1]), 0, -1))
  {
    hide Runs, Counted;
    for n := 0 to 39
      invariant forall i :: 0 <= i < n ==> fc[i] == 0
      invariant ldl[..] == old(ldl[..]) && ddl[..] == old(ddl[..])
    {
      fc[n] := 0;
    }
    assert fc[..] == Zero(39);
    ghost var a, b := Runs(ldl[..lmax + 1], 0, -1), Runs(ddl[..dmax + 1], 0, -1);
    RunsValid(ldl[..lmax + 1], 0, -1);
    RunsValid(ddl[..dmax + 1], 0, -1);
    ScanTree(ldl, lmax, fc);
    ghost var mid := fc[..];
    ScanTree(ddl, dmax, fc);
    CountedMore(fc[..], mid, Zero(39), a, b);
    CountedRuns(fc[..], a + b);
  }

  /** The loop of build_bl_tree: the last bit length code to send. */
  method LastBlIndex(lens: seq<nat>, ghost s: nat) returns (index: nat)
    requires |lens| == BL_CODES && 1 <= s <= 15 && lens[s] > 0
    ensures 3 <= index < BL_CODES && lens[Order(index)] != 0 && forall i :: index < i < BL_CODES ==> lens[Order(i)] == 0
  {
    hide Order, Place;
    index := BL_CODES - 1;
    OrderPlace(s, 0);
    PlaceLate(s);
    while index >= 3 && lens[Order(index)] == 0
      invariant 3 <= index < BL_CODES && Place(s) <= index && forall i :: index < i < BL_CODES ==> lens[Order(i)] == 0
    {
      index := index - 1;
    }
  }

  lemma PlaceLate(s: nat)
    requires 1 <= s <= 15
    ensures Place(s) >= 4
  {
  }

  /** The bit length code can send the runs of both trees. */
  lemma RunIsLeaf(runs: seq<Run>, i: nat)
    requires i < |runs| && forall j :: 0 <= j < |runs| ==> ValidRun(runs[j])
    ensures Symbol(runs[i]) in LeavesOf(RFreq(runs), BL_CODES)
  {
    hide RFreq;
    RunOccurs(runs, i);
  }

  lemma RunsSendable(runs: seq<Run>, fc: seq<nat>, dl: seq<nat>, b: set<nat>, bmax: nat)
    requires Finished(fc, dl, b, bmax, BL_CODES) && LeavesOf(RFreq(runs), BL_CODES) <= b
    requires forall i :: 0 <= i < |runs| ==> ValidRun(runs[i])
    ensures CodeOk(Code(fc, dl[..BL_CODES])) && Sendable(Code(fc, dl[..BL_CODES]), runs)
    ensures forall i :: 0 <= i < |runs| ==> Symbol(runs[i]) in LeavesOf(RFreq(runs), BL_CODES)
  {
    hide CodeOk, RFreq, Finished, LeavesOf;
    AllNineteen(fc, dl, b, bmax);
    forall i | 0 <= i < |runs|
      ensures SendableRun(Code(fc, dl[..BL_CODES]), runs[i]) && Symbol(runs[i]) in LeavesOf(RFreq(runs), BL_CODES)
    {
      RunIsLeaf(runs, i);
      assert Symbol(runs[i]) in b;
    }
  }

  /** The bit length code as the decoder sees it: nineteen lengths. */
  lemma AllNineteen(fc: seq<nat>, dl: seq<nat>, b: set<nat>, bmax: nat)
    requires Finished(fc, dl, b, bmax, BL_CODES)
    ensures |fc| == |dl| == 39 && CodeOk(Code(fc, dl[..BL_CODES])) && forall x :: x in b ==> x < BL_CODES && dl[..BL_CODES][x] > 0
  {
    hide CodeOk;
    var small, lens := dl[..bmax + 1], dl[..BL_CODES];
    assert lens[..|small|] == small;
    TrailingZeros(Code(fc, small), lens);
  }

  lemma BlCosts(fc: seq<nat>, dl: seq<nat>)
    requires |dl| == 39
    ensures RunCosts(WithExtra(dl, BlDesc()), Code(fc, dl[..BL_CODES]))
  {
  }

  /** build_bl_tree: the bit length tree, and the length of the whole header. */
  method BuildBlTree(b: TreeBuilder, ldl: array<nat>, lmax: nat, ddl: array<nat>, dmax: nat) returns (bl: Code, index: nat)
    requires b.Arrays() && b.fc.Length == b.dl.Length == 39 && ldl.Length == 573 && ddl.Length == 61 && 256 <= lmax < 286 && dmax < D_CODES
    requires ldl != ddl && ldl !in {b.heap, b.depth, b.blCount, b.fc, b.dl} && ddl !in {b.heap, b.depth, b.blCount, b.fc, b.dl}
    requires (forall i :: 0 <= i <= lmax ==> ldl[i] <= 15) && (forall i :: 0 <= i <= dmax ==> ddl[i] <= 15) && ldl[256] > 0
    modifies b, b.heap, b.depth, b.blCount, b.fc, b.dl, ldl, ddl
    ensures ldl[..] == old(ldl[..])[lmax + 1 := GUARD] && ddl[..] == old(ddl[..])[dmax + 1 := GUARD]
    ensures var t := Trees(old(ldl[..lmax + 1]), old(ddl[..dmax + 1]), bl, index + 1);
      && TreesOk(t) && b.optLen == old(b.optLen) + HeaderBits(t).n && b.staticLen == old(b.staticLen)
      && index < BL_CODES == |bl.lens| && bl.lens[Order(index)] > 0
  {
    hide Runs, CodeOk, Cost, LeavesOf, WithExtra, RFreq, Total, ValidDesc, TreesOk, Order, RunsBits;
    ghost var llens, dlens := ldl[..lmax + 1], ddl[..dmax + 1];
    ghost var runs := Runs(llens, 0, -1) + Runs(dlens, 0, -1);
    DescsValid();
    ScanBoth(ldl, lmax, ddl, dmax, b.fc);
    RunsOfTrees(llens, dlens);
    RunTotal(runs, LeavesOf(RFreq(runs), BL_CODES));
    var bmax, leaves := Build(b, BlDesc());
    RunsSendable(runs, b.fc[..], b.dl[..], leaves, bmax);
    bl := Code(b.fc[..], b.dl[..BL_CODES]);
    BlCosts(b.fc[..], b.dl[..]);
    RunsCost(bl, runs, WithExtra(b.dl[..], BlDesc()), LeavesOf(RFreq(runs), BL_CODES));
    ghost var s := LenSymbol(llens, dlens, bl);
    index := LastBlIndex(bl.lens, s);
    b.optLen := b.optLen + 3 * (index + 1) + 5 + 5 + 4;
    BlSmall(b.dl[..], leaves);
    HeaderSize(Trees(llens, dlens, bl, index + 1));
    NoStatic(RFreq(runs), LeavesOf(RFreq(runs), BL_CODES));
  }

  lemma NoStatic(freq: seq<nat>, leaves: set<nat>)
    ensures StaticGain(BlDesc(), freq, leaves) == 0
  {
  }

  lemma BlSmall(dl: seq<nat>, leaves: set<nat>)
    requires |dl| == 39 && (forall x :: x in leaves ==> x < |dl| && dl[x] <= 7) && (forall x :: 0 <= x < BL_CODES && x !in leaves ==> dl[x] == 0)
    ensures forall s :: 0 <= s < BL_CODES ==> dl[..BL_CODES][s] <= 7
  {
  }

  lemma RunsOfTrees(llens: seq<nat>, dlens: seq<nat>)
    requires |llens| <= 286 && |dlens| <= 30 && (forall i :: 0 <= i < |llens| ==> llens[i] <= 15) && (forall i :: 0 <= i < |dlens| ==> dlens[i] <= 15)
    ensures var runs := Runs(llens, 0, -1) + Runs(dlens, 0, -1);
      |runs| <= 316 && forall i :: 0 <= i < |runs| ==> ValidRun(runs[i])
  {
    hide Runs;
    FewRuns(llens, 0, -1);
    FewRuns(dlens, 0, -1);
    RunsValid(llens, 0, -1);
    RunsValid(dlens, 0, -1);
  }

  lemma LenSymbol(llens: seq<nat>, dlens: seq<nat>, bl: Code) returns (s: nat)
    requires |llens| > 256 && llens[256] > 0 && Sendable(bl, Runs(llens, 0, -1) + Runs(dlens, 0, -1))
    ensures 1 <= s <= 15 && Coded(bl, s)
  {
    hide Runs;
    var j := HasLen(llens, 0, -1, 256);
    var runs := Runs(llens, 0, -1) + Runs(dlens, 0, -1);
    assert runs[j] == Runs(llens, 0, -1)[j] && SendableRun(bl, runs[j]);
    s := runs[j].len;
  }

  lemma HeaderSize(t: Trees)
    requires 257 <= |t.llens| <= 286 && 1 <= |t.dlens| <= 30 && 4 <= t.blcodes <= BL_CODES
    requires (forall i :: 0 <= i < |t.llens| ==> t.llens[i] <= 15) && (forall i :: 0 <= i < |t.dlens| ==> t.dlens[i] <= 15)
    requires CodeOk(t.bl) && |t.bl.lens| == BL_CODES && (forall s :: 0 <= s < BL_CODES ==> t.bl.lens[s] <= 7)
    requires forall i :: t.blcodes <= i < BL_CODES ==> t.bl.lens[Order(i)] == 0
    requires Sendable(t.bl, Runs(t.llens, 0, -1) + Runs(t.dlens, 0, -1))
    ensures TreesOk(t) && HeaderBits(t).n == 14 + 3 * t.blcodes + RunsBits(t.bl, Runs(t.llens, 0, -1) + Runs(t.dlens, 0, -1)).n
  {
    hide Runs, CodeOk, RunsBits, Order, SendableRun;
    var a, b := Runs(t.llens, 0, -1), Runs(t.dlens, 0, -1);
    assert Sendable(t.bl, a) by {
      assert forall i :: 0 <= i < |a| ==> (a + b)[i] == a[i];
    }
    assert Sendable(t.bl, b) by {
      assert forall i :: 0 <= i < |b| ==> (a + b)[|a| + i] == b[i];
    }
    OrderedSize(t.bl.lens, t.blcodes);
  }

  lemma {:induction false} OrderedSize(lens: seq<nat>, n: nat)
    requires |lens| == BL_CODES && n <= BL_CODES
    ensures OrderedBits(lens, n).n == 3 * n
  {
    hide Order;
    if n > 0 {
      OrderedSize(lens, n - 1);
    }
  }

  /** The literal and distance trees: opt_len is the length of the block's data. */
  method BuildData(t: Tables, tokens: seq<Token>, l: TreeBuilder, d: TreeBuilder) returns (lmax: nat, dmax: nat)
    requires TablesOk(t) && AllCodable(tokens) && |tokens| <= 0xFFFC
    requires l.Arrays() && d.Arrays() && l != d && l.fc.Length == l.dl.Length == 573 && d.fc.Length == d.dl.Length == 61 && l.optLen == l.staticLen == 0
    requires {l.heap, l.depth, l.blCount, l.fc, l.dl} !! {d.heap, d.depth, d.blCount, d.fc, d.dl}
    modifies l, l.heap, l.depth, l.blCount, l.fc, l.dl, d, d.heap, d.depth, d.blCount, d.fc, d.dl
    ensures 256 <= lmax < 286 && dmax < D_CODES && l.dl[256] > 0 && l.dl[lmax] > 0 && d.dl[dmax] > 0
    ensures (forall i :: 0 <= i <= lmax ==> l.dl[i] <= 15) && (forall i :: 0 <= i <= dmax ==> d.dl[i] <= 15)
    ensures var lc, dc := Code(l.fc[..], l.dl[..lmax + 1]), Code(d.fc[..], d.dl[..dmax + 1]);
      && CodeOk(lc) && CodeOk(dc) && TokensOk(t, lc, dc, tokens) && Coded(lc, END_BLOCK) && d.optLen == DataBits(t, lc, dc, tokens, 0).n
    ensures d.staticLen == StaticGain(LDesc(), LFreq(t, tokens, |tokens|), LeavesOf(LFreq(t, tokens, |tokens|), 286))
                           + StaticGain(DDesc(), DFreq(t, tokens, |tokens|), LeavesOf(DFreq(t, tokens, |tokens|), D_CODES))
  {
    hide TablesOk, CodeOk, Cost, LeavesOf, WithExtra, LFreq, DFreq, Total, ValidDesc, Finished, DataBits, TokensOk, Coded, Costs, StaticGain;
    DescsValid();
    Tally(t, tokens, l.fc, d.fc);
    ghost var lf, df := LFreq(t, tokens, |tokens|), DFreq(t, tokens, |tokens|);
    TotalBounded(t, tokens, |tokens|, LeavesOf(lf, 286), LeavesOf(df, D_CODES));
    ghost var lleaves, dleaves;
    lmax, lleaves := Build(l, LDesc());
    d.optLen, d.staticLen := l.optLen, l.staticLen;
    dmax, dleaves := Build(d, DDesc());
    FinishedFacts(l.fc[..], l.dl[..], lleaves, lmax, 286);
    FinishedFacts(d.fc[..], d.dl[..], dleaves, dmax, D_CODES);
    ghost var lc, dc := Code(l.fc[..], l.dl[..lmax + 1]), Code(d.fc[..], d.dl[..dmax + 1]);
    SymbolsCoded(t, tokens, l.fc[..], l.dl[..], lleaves, lmax, d.fc[..], d.dl[..], dleaves, dmax);
    TreeCosts(l.fc[..], l.dl[..], lmax, d.fc[..], d.dl[..], dmax);
    DataCost(t, lc, dc, tokens, WithExtra(l.dl[..], LDesc()), WithExtra(d.dl[..], DDesc()), LeavesOf(lf, 286), LeavesOf(df, D_CODES));
    EndLength(lc, l.dl[..], lmax);
  }

  /** The Huffman trees of a block, as _tr_flush_block builds them, and the predicted lengths in bits. */
  method BuildEncoding(t: Tables, tokens: seq<Token>) returns (e: Encoding)
    requires TablesOk(t) && AllCodable(tokens) && |tokens| <= 0xFFFC
    ensures EncodingOk(e, t, tokens)
    ensures e.optLen == HeaderBits(e.trees).n + DataBits(t, e.lc, e.dc, tokens, 0).n
    ensures e.staticLen == StaticGain(LDesc(), LFreq(t, tokens, |tokens|), LeavesOf(LFreq(t, tokens, |tokens|), 286))
                           + StaticGain(DDesc(), DFreq(t, tokens, |tokens|), LeavesOf(DFreq(t, tokens, |tokens|), D_CODES))
  {
    hide TablesOk, CodeOk, LeavesOf, LFreq, DFreq, TreesOk, HeaderBits, DataBits, TokensOk, Coded, StaticGain;
    var l := new TreeBuilder(286, 0, 0);
    var d := new TreeBuilder(D_CODES, 0, 0);
    var lmax, dmax := BuildData(t, tokens, l, d);
    var lc, dc := Code(l.fc[..], l.dl[..lmax + 1]), Code(d.fc[..], d.dl[..dmax + 1]);
    var b := new TreeBuilder(BL_CODES, d.optLen, d.staticLen);
    var bl, index := BuildBlTree(b, l.dl, lmax, d.dl, dmax);
    e := Encoding(Trees(lc.lens, dc.lens, bl, index + 1), lc, dc, l.dl[..], d.dl[..], b.optLen, b.staticLen);
  }

  lemma EndLength(lc: Code, dl: seq<nat>, lmax: nat)
    requires Coded(lc, END_BLOCK) && lmax + 1 <= |dl| && lc.lens == dl[..lmax + 1]
    ensures lmax >= 256 && dl[256] > 0
  {
  }

  lemma FinishedFacts(fc: seq<nat>, dl: seq<nat>, leaves: set<nat>, maxCode: nat, elems: nat)
    requires Finished(fc, dl, leaves, maxCode, elems)
    ensures maxCode < elems && |fc| == |dl| == 2 * elems + 1 && CodeOk(Code(fc, dl[..maxCode + 1]))
    ensures dl[maxCode] > 0 && forall i :: 0 <= i <= maxCode ==> dl[i] <= 15
  {
    forall i | 0 <= i <= maxCode
      ensures dl[i] <= 15
    {
      if i in leaves {
      }
    }
  }
}
