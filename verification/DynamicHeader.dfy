/** The header of a block with dynamic codes: send_all_trees of trees.c against the TABLE, LENLENS and
    CODELENS states of inflate.c. */
module DynamicHeader {
  import opened Sums
  import opened BitStreams
  import opened BitWriter
  import opened CanonicalCode
  import opened CodeRuns
  import opened TreeSender
  import opened CodeItems
  const BL_CODES: nat := 19

  /** bl_order: 16, 17, 18, 0, 8, 7, 9, 6, 10, 5, 11, 4, 12, 3, 13, 2, 14, 1, 15 */
  function Order(i: nat): (r: nat)
    requires i < BL_CODES
    ensures r < BL_CODES
  {
    if i < 3 then i + 16 else if i == 3 then 0 else if i % 2 == 0 then 8 + (i - 4) / 2 else 8 - (i - 3) / 2
  }

  /** The table as it is written down. */
  lemma OrderTable()
    ensures [Order(0), Order(1), Order(2), Order(3), Order(4), Order(5), Order(6), Order(7), Order(8), Order(9), Order(10), Order(11),
             Order(12), Order(13), Order(14), Order(15), Order(16), Order(17), Order(18)]
      == [16, 17, 18, 0, 8, 7, 9, 6, 10, 5, 11, 4, 12, 3, 13, 2, 14, 1, 15]
  {
  }

  function Place(s: nat): (r: nat)
    requires s < BL_CODES
    ensures r < BL_CODES
  {
    if s >= 16 then s - 16 else if s == 0 then 3 else if s >= 8 then 4 + 2 * (s - 8) else 3 + 2 * (8 - s)
  }

  lemma OrderPlace(s: nat, i: nat)
    requires s < BL_CODES && i < BL_CODES
    ensures Order(Place(s)) == s && Place(Order(i)) == i
  {
  }

  /** The first n lengths of the bit length code, three bits each. */
  function OrderedBits(lens: seq<nat>, n: nat): BitString
    requires |lens| == BL_CODES && n <= BL_CODES
  {
    if n == 0 then Empty else Cat(OrderedBits(lens, n - 1), BitString(lens[Order(n - 1)], 3))
  }

  /** What the header says. */
  datatype Trees = Trees(llens: seq<nat>, dlens: seq<nat>, bl: Code, blcodes: nat)

  ghost predicate TreesOk(t: Trees) {
    && 257 <= |t.llens| <= 286 && 1 <= |t.dlens| <= 30 && 4 <= t.blcodes <= BL_CODES
    && ValidLengths(t.llens) && ValidLengths(t.dlens)
    && CodeOk(t.bl) && |t.bl.lens| == BL_CODES
    && (forall s :: 0 <= s < BL_CODES ==> t.bl.lens[s] <= 7)
    && (forall i :: t.blcodes <= i < BL_CODES ==> t.bl.lens[Order(i)] == 0)
    && Sendable(t.bl, Runs(t.llens, 0, -1)) && Sendable(t.bl, Runs(t.dlens, 0, -1))
  }

  function Counts(t: Trees): BitString
    requires 257 <= |t.llens| && 1 <= |t.dlens| && 4 <= t.blcodes
  {
    Cat(Cat(BitString(|t.llens| - 257, 5), BitString(|t.dlens| - 1, 5)), BitString(t.blcodes - 4, 4))
  }

  /** The bits of the header. */
  ghost function HeaderBits(t: Trees): BitString
    requires TreesOk(t)
  {
    Cat(Cat(Counts(t), OrderedBits(t.bl.lens, t.blcodes)), RunsBits(t.bl, Runs(t.llens, 0, -1) + Runs(t.dlens, 0, -1)))
  }

  lemma BothSendable(t: Trees)
    requires TreesOk(t)
    ensures Sendable(t.bl, Runs(t.llens, 0, -1) + Runs(t.dlens, 0, -1))
    ensures RunsBits(t.bl, Runs(t.llens, 0, -1) + Runs(t.dlens, 0, -1)) == Cat(RunsBits(t.bl, Runs(t.llens, 0, -1)), RunsBits(t.bl, Runs(t.dlens, 0, -1)))
  {
    hide Runs, SendableRun, RunBits, Cat, CodeOk;
    RunsBitsJoin(t.bl, Runs(t.llens, 0, -1), Runs(t.dlens, 0, -1));
  }

  lemma SmallPowers()
    ensures Pow2(3) == 8 && Pow2(4) == 16 && Pow2(5) == 32 && Pow2(7) == 128
  {
  }

  /** send_all_trees, for trees with their guards. */
  method SendAllTrees(w: Writer, llen: seq<nat>, dlen: seq<nat>, t: Trees)
    requires w.Valid() && TreesOk(t)
    requires |t.llens| < |llen| && llen[..|t.llens|] == t.llens && llen[|t.llens|] == GUARD
    requires |t.dlens| < |dlen| && dlen[..|t.dlens|] == t.dlens && dlen[|t.dlens|] == GUARD
    modifies w
    ensures w.Valid() && w.Stream() == Cat(old(w.Stream()), HeaderBits(t))
  {
    hide Runs, SendableRun, Sendable, Cat, CodeOk, RunsBits, ValidLengths, Order;
    ghost var was := w.Stream();
    SmallPowers();
    BothSendable(t);
    HeaderParts(was, t);
    w.SendBits(|t.llens| - 257, 5);
    w.SendBits(|t.dlens| - 1, 5);
    w.SendBits(t.blcodes - 4, 4);
    ghost var counts := w.Stream();
    CatEmpty(counts);
    for rank := 0 to t.blcodes
      invariant w.Valid() && w.Stream() == Cat(counts, OrderedBits(t.bl.lens, rank))
    {
      CatAssoc(counts, OrderedBits(t.bl.lens, rank), BitString(t.bl.lens[Order(rank)], 3));
      w.SendBits(t.bl.lens[Order(rank)], 3);
    }
    LensSmall(t);
    SendTree(w, llen, |t.llens| - 1, t.bl);
    SendTree(w, dlen, |t.dlens| - 1, t.bl);
  }

  lemma LensSmall(t: Trees)
    requires TreesOk(t)
    ensures forall i :: 0 <= i < |t.llens| ==> t.llens[i] <= 15
    ensures forall i :: 0 <= i < |t.dlens| ==> t.dlens[i] <= 15
  {
  }

  /** The header, part by part. */
  lemma HeaderParts(was: BitString, t: Trees)
    requires TreesOk(t)
    ensures Sendable(t.bl, Runs(t.llens, 0, -1)) && Sendable(t.bl, Runs(t.dlens, 0, -1))
    ensures Cat(was, HeaderBits(t)) ==
      Cat(Cat(Cat(Cat(Cat(Cat(was, BitString(|t.llens| - 257, 5)), BitString(|t.dlens| - 1, 5)), BitString(t.blcodes - 4, 4)),
                      OrderedBits(t.bl.lens, t.blcodes)), RunsBits(t.bl, Runs(t.llens, 0, -1))), RunsBits(t.bl, Runs(t.dlens, 0, -1)))
  {
    hide Runs, SendableRun, Sendable, Cat, CodeOk, RunsBits, OrderedBits;
    BothSendable(t);
    var a, b, c := BitString(|t.llens| - 257, 5), BitString(|t.dlens| - 1, 5), BitString(t.blcodes - 4, 4);
    var o, l, d := OrderedBits(t.bl.lens, t.blcodes), RunsBits(t.bl, Runs(t.llens, 0, -1)), RunsBits(t.bl, Runs(t.dlens, 0, -1));
    CatAssoc(was, Cat(Counts(t), o), Cat(l, d));
    CatAssoc(was, Counts(t), o);
    CatAssoc(was, Cat(a, b), c);
    CatAssoc(was, a, b);
    CatAssoc(Cat(Cat(was, Counts(t)), o), l, d);
  }
}
