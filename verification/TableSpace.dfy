/** How large the tables of inflate_table grow. The sizes ENOUGH_LENS and ENOUGH_DISTS of inftrees.h, found
    there by a search over all codes, are shown to be sufficient: a sub-table of 2^b entries that begins with
    a code of a bits holds at least 2^a + b - a codes, and the next sub-table begins with b bits or more. */
module TableSpace {
  import opened Sums
  import opened Bits
  import opened CanonicalCode
  import opened DecodeTable
  import opened TableSetup
  import opened TableSteps

  /** All symbols with a code. */
  ghost function Total(ls: seq<nat>): nat {
    Rank(ls, MAXBITS + 1, 0)
  }

  /** The number of codes from s on that are shorter than b. */
  ghost function Shorter(ls: seq<nat>, s: nat, b: nat): int
    requires Used(ls, s)
  {
    if b <= ls[s] then 0 else Rank(ls, b, 0) - Rank(ls, ls[s], s)
  }

  lemma ShorterZero(ls: seq<nat>, s: nat)
    requires Used(ls, s)
    ensures Shorter(ls, s, ls[s]) == 0
  {
  }

  lemma ShorterStep(ls: seq<nat>, s: nat, b: nat, i: nat)
    requires Used(ls, s) && Rank(ls, ls[s], s) == i && ls[s] <= b <= MAXBITS
    ensures Shorter(ls, s, b + 1) == Shorter(ls, s, b) + Left(ls, b, i)
  {
    hide Rank, CountLen;
    RankRange(ls, s);
    if b == ls[s] {
      LeftStep(ls, s, i, b);
    } else {
      RankLenMono(ls, ls[s] + 1, b);
      RankLenMono(ls, b, b + 1);
    }
  }

  /** The n codes from s on lie in one slot, and fill it; the codes after them are not shorter than the
      sub-table is wide. */
  ghost predicate Spans(ls: seq<nat>, s: nat, root: nat, curr: nat, n: nat)
    requires Long(ls, s, root)
  {
    && n + (ls[s] - root) >= Pow2(ls[s] - root) + curr
    && Rank(ls, ls[s], s) + n <= Total(ls)
    && (forall r: nat :: Used(ls, r) && Rank(ls, ls[s], s) <= Rank(ls, ls[r], r) < Rank(ls, ls[s], s) + n ==>
          Boundary(ls, ls[r], r) < Boundary(ls, ls[s], s) + Pow2(MAXBITS - root))
    && (forall r: nat :: Used(ls, r) && Rank(ls, ls[r], r) >= Rank(ls, ls[s], s) + n ==> ls[r] >= root + curr)
  }

  /** What the loop that sizes a sub-table has found: room codes of root + curr bits fill the slot. */
  lemma SpansIntro(ls: seq<nat>, s: nat, root: nat, curr: nat, i: nat, room: nat)
    requires Long(ls, s, root) && Rank(ls, ls[s], s) == i && ls[s] <= root + curr <= MAXBITS
    requires 1 <= room <= Left(ls, root + curr, i)
    requires Shl(room, MAXBITS - root - curr) + Rem(ls, s, root + curr) == Pow2(MAXBITS - root)
    requires Shorter(ls, s, root + curr) + room + (ls[s] - root) >= Pow2(ls[s] - root) + curr
    ensures Shorter(ls, s, root + curr) >= 0 && Spans(ls, s, root, curr, Shorter(ls, s, root + curr) + room)
  {
    hide Rank, CountLen, Boundary, Shl, Pow2, Left;
    var b := root + curr;
    ShorterStep(ls, s, b, i);
    RankRange(ls, s);
    RankLenMono(ls, b + 1, MAXBITS + 1);
    if b > ls[s] {
      RankLenMono(ls, ls[s] + 1, b);
    }
    var n := Shorter(ls, s, b) + room;
    assert i + n <= Rank(ls, b + 1, 0);
    forall r: nat | Used(ls, r) && i <= Rank(ls, ls[r], r) < i + n
      ensures Boundary(ls, ls[r], r) < Boundary(ls, ls[s], s) + Pow2(MAXBITS - root)
    {
      InSlot(ls, s, r, root, b, i, room);
    }
    forall r: nat | Used(ls, r) && Rank(ls, ls[r], r) >= i + n ensures ls[r] >= b {
      if ls[r] < b {
        RankRange(ls, r);
        RankLenMono(ls, ls[r] + 1, b);
      }
    }
  }

  lemma InSlot(ls: seq<nat>, s: nat, r: nat, root: nat, b: nat, i: nat, room: nat)
    requires Used(ls, s) && Used(ls, r) && Rank(ls, ls[s], s) == i && ls[s] <= b <= MAXBITS && root <= b
    requires i <= Rank(ls, ls[r], r) < i + Shorter(ls, s, b) + room <= Rank(ls, b + 1, 0)
    requires Shl(room, MAXBITS - b) + Rem(ls, s, b) == Pow2(MAXBITS - root) && room >= 1
    ensures Boundary(ls, ls[r], r) < Boundary(ls, ls[s], s) + Pow2(MAXBITS - root)
  {
    hide Below, CountLen, Shl, Pow2;
    RankRange(ls, r);
    RankRange(ls, s);
    if ls[r] < ls[s] {
      RankLenMono(ls, ls[r] + 1, ls[s]);
    }
    if ls[r] > b {
      RankLenMono(ls, b + 1, ls[r]);
    }
    BoundaryCount(ls, ls[r], r);
    BoundaryCount(ls, ls[s], s);
    var k := MAXBITS - b;
    ShlMono(0, room, k);
    ShlAdd(0, 0, k);
    if ls[r] < b {
      assert Boundary(ls, ls[r], r) <= Boundary(ls, b, 0) by { BelowMono(ls, true, ls[r], r, b, 0, |ls|); }
    } else if b == ls[s] {
      var x, y := CountLen(ls, b, r), CountLen(ls, b, s);
      ShlMono(x, y + room, k);
      ShlAdd(y, room, k);
    } else {
      ShlMono(CountLen(ls, b, r), room, k);
    }
  }

  /** The size of a new sub-table: all codes that share the slot of s will fit, and n of them fill it. */
  method SubTableBits(count: array<nat>, max: nat, root: nat, len: nat, ghost ls: seq<nat>, ghost s: nat, ghost i: nat) returns (curr: nat, ghost n: nat)
    requires Used(ls, s) && Rank(ls, ls[s], s) == i && len == ls[s] && root < len <= max <= MAXBITS
    requires count.Length == MAXBITS + 1 && CountsLeft(count[..], ls, i)
    requires Rem(ls, s, max + 1) >= Pow2(MAXBITS - root)
    ensures 1 <= curr && len <= root + curr <= max
    ensures Rem(ls, s, root + curr + 1) >= Pow2(MAXBITS - root)
    ensures Spans(ls, s, root, curr, n)
  {
    hide Shl, Rem, Left, Rank, Shorter, Spans, Pow2;
    curr := len - root;
    var left: int := Pow2(curr);
    RemZero(ls, s);
    ShorterZero(ls, s);
    ShlPow2(curr, MAXBITS - root - curr);
    ghost var room: nat := left;
    while curr + root < max
      invariant len <= root + curr <= max && left == room >= 1
      invariant Shl(room, MAXBITS - root - curr) + Rem(ls, s, root + curr) == Pow2(MAXBITS - root)
      invariant Shorter(ls, s, root + curr) + room + (len - root) >= Pow2(len - root) + curr
    {
      RemStep(ls, s, root + curr, i);
      ShorterStep(ls, s, root + curr, i);
      SubStep(left, count[curr + root], MAXBITS - root - curr);
      left := left - count[curr + root];
      if left <= 0 {
        break;
      }
      curr := curr + 1;
      left := left * 2;
      room := left;
    }
    LastLevel(ls, s, root, curr, i, room);
    SpansIntro(ls, s, root, curr, i, room);
    n := Shorter(ls, s, root + curr) + room;
  }

  /** The codes of the last level fill what is left of the slot. */
  lemma LastLevel(ls: seq<nat>, s: nat, root: nat, curr: nat, i: nat, room: nat)
    requires Used(ls, s) && Rank(ls, ls[s], s) == i && root < ls[s] <= root + curr <= MAXBITS
    requires Shl(room, MAXBITS - root - curr) + Rem(ls, s, root + curr) == Pow2(MAXBITS - root)
    requires room <= Left(ls, root + curr, i) || Rem(ls, s, root + curr + 1) >= Pow2(MAXBITS - root)
    ensures room <= Left(ls, root + curr, i) && Rem(ls, s, root + curr + 1) >= Pow2(MAXBITS - root)
  {
    hide Shl, Rem, Left, Rank, Pow2;
    RemStep(ls, s, root + curr, i);
    ShlMono(room, Left(ls, root + curr, i), MAXBITS - root - curr);
  }

  // ----- Slots begin where codes begin -----

  /** A code whose slot differs from that of the code before it begins its slot. */
  lemma SlotStart(ls: seq<nat>, prev: nat, s: nat, i: nat, root: nat)
    requires root <= MAXBITS && Next(ls, prev, i) && Next(ls, s, i + 1) && Long(ls, s, root)
    requires Long(ls, prev, root) ==> Prefix(ls, prev, root) != Prefix(ls, s, root)
    ensures Boundary(ls, ls[s], s) == Shl(Prefix(ls, s, root), MAXBITS - root)
  {
    hide Below, Rank, Boundary, Shl, Shr, Low;
    NextLength(ls, prev, s, i);
    RankInjective(ls, prev, s);
    BoundaryOfNext(ls, prev, ls[s], s);
    var c, l, k := CodeValue(ls, prev), ls[prev], MAXBITS - root;
    CodeValueExact(ls, prev);
    ShlAdd(c, 1, MAXBITS - l);
    ShlOne(MAXBITS - l);
    if l <= root {
      ShlShl(c + 1, root - l, k);
      Join(Shl(c + 1, root - l), 0, k);
    } else {
      var p := Boundary(ls, l, prev);
      ShrShr(p, MAXBITS - l, l - root);
      ShrOfNext(c, l - root, MAXBITS - l);
    }
  }

  lemma ShrOfNext(c: nat, k: nat, j: nat)
    ensures Shr(Shl(c + 1, j), k + j) != Shr(Shl(c, j), k + j) ==> Shl(Shr(Shl(c + 1, j), k + j), k + j) == Shl(c + 1, j)
  {
    hide Shl, Shr, Low;
    Join(c, 0, j);
    Join(c + 1, 0, j);
    ShrShr(Shl(c, j), j, k);
    ShrShr(Shl(c + 1, j), j, k);
    Split(c, k);
    var q, r := Shr(c, k), Low(c, k);
    if r + 1 < Pow2(k) {
      Join(q, r + 1, k);
    } else {
      ShlAdd(q, 1, k);
      ShlOne(k);
      Join(q + 1, 0, k);
      ShlShl(q + 1, k, j);
    }
  }

  /** In a complete code there is a whole slot from its first code on. */
  lemma SlotFull(ls: seq<nat>, s: nat, root: nat, max: nat)
    requires Long(ls, s, root) && Space(ls) == Pow2(MAXBITS) && ls[s] <= max <= MAXBITS && root <= MAXBITS
    requires forall r: nat :: Used(ls, r) ==> ls[r] <= max
    requires Boundary(ls, ls[s], s) == Shl(Prefix(ls, s, root), MAXBITS - root)
    ensures Rem(ls, s, max + 1) >= Pow2(MAXBITS - root)
  {
    hide Below, Prefix, Shl, Pow2;
    var p, k := Prefix(ls, s, root), MAXBITS - root;
    PrefixFits(ls, s, root);
    ShlMono(p + 1, Pow2(root), k);
    ShlAdd(p, 1, k);
    ShlOne(k);
    ShlPow2(root, k);
    NoLonger(ls, max, |ls|);
  }

  lemma {:induction false} NoLonger(ls: seq<nat>, max: nat, k: nat)
    requires k <= |ls| && max <= MAXBITS && forall r: nat :: Used(ls, r) ==> ls[r] <= max
    ensures Below(ls, true, max + 1, 0, k) == Below(ls, true, MAXBITS + 1, 0, k)
  {
    if k != 0 {
      NoLonger(ls, max, k - 1);
      assert Used(ls, k - 1) <==> 1 <= ls[k - 1] <= MAXBITS;
    }
  }

  // ----- The size of all tables -----

  lemma {:induction false} Excess(x: nat, y: nat)
    requires x <= y
    ensures Pow2(x) + y <= Pow2(y) + x && Pow2(x) >= 1
    decreases y
  {
    if x < y {
      Excess(x, y - 1);
    } else if x > 0 {
      Excess(x - 1, y - 1);
    }
  }

  /** The sub-table at hand covers the codes with rank from first up to end; all tables so far are not larger
      than these codes account for. */
  ghost predicate Sized(ls: seq<nat>, root: nat, c: Cursor, first: nat, end: nat) {
    && (c.low == -1 ==> c.used == Pow2(root))
    && (c.low != -1 ==>
          && c.used + Rank(ls, root + 1, 0) + 1 + c.curr <= Pow2(root) + end + Pow2(c.curr)
          && first <= end <= Total(ls)
          && (forall r: nat :: Long(ls, r, root) && first <= Rank(ls, ls[r], r) < end ==> Slot(ls, r, root) == c.low)
          && (forall r: nat :: Used(ls, r) && Rank(ls, ls[r], r) >= end ==> ls[r] >= root + c.curr))
    && (root >= 1 ==> c.used % 2 == 0)
  }

  lemma SizedStart(ls: seq<nat>, root: nat)
    ensures Sized(ls, root, Cursor(-1, 0, root, Pow2(root)), 0, 0)
  {
  }

  /** All codes of the span share the slot of s. */
  lemma SpanSlot(ls: seq<nat>, s: nat, r: nat, root: nat, curr: nat, n: nat)
    requires root <= MAXBITS && Space(ls) <= Pow2(MAXBITS) && Long(ls, s, root) && Long(ls, r, root) && Spans(ls, s, root, curr, n)
    requires Boundary(ls, ls[s], s) == Shl(Prefix(ls, s, root), MAXBITS - root)
    requires Rank(ls, ls[s], s) <= Rank(ls, ls[r], r) < Rank(ls, ls[s], s) + n
    ensures Slot(ls, r, root) == Slot(ls, s, root)
  {
    hide Rank, Boundary, Shl, Shr, Slot, Pow2;
    PrefixMono(ls, s, r, root);
    var k := MAXBITS - root;
    ShlAdd(Prefix(ls, s, root), 1, k);
    ShlOne(k);
    ShrBounds(Boundary(ls, ls[r], r), k, Prefix(ls, r, root));
    ShlMono(Prefix(ls, s, root) + 1, Prefix(ls, r, root), k);
    SlotsEqual(ls, s, r, root);
  }

  lemma Pow2Even(k: nat)
    requires k >= 1
    ensures Pow2(k) % 2 == 0
  {
  }

  /** Opening a sub-table keeps the account. */
  lemma SizedStep(ls: seq<nat>, root: nat, c: Cursor, first: nat, end: nat, s: nat, curr: nat, n: nat)
    requires Sized(ls, root, c, first, end) && 1 <= root <= MAXBITS && Space(ls) <= Pow2(MAXBITS) && curr >= 1
    requires Long(ls, s, root) && Spans(ls, s, root, curr, n) && Slot(ls, s, root) != c.low
    requires Boundary(ls, ls[s], s) == Shl(Prefix(ls, s, root), MAXBITS - root)
    requires c.low != -1 ==> first <= Rank(ls, ls[s], s)
    ensures Sized(ls, root, Cursor(Slot(ls, s, root), c.used, curr, c.used + Pow2(curr)), Rank(ls, ls[s], s), Rank(ls, ls[s], s) + n)
  {
    hide Rank, Boundary, Shl, Slot, Prefix, Pow2, Space, Total;
    Pow2Even(curr);
    var i, a := Rank(ls, ls[s], s), ls[s] - root;
    forall r: nat | Long(ls, r, root) && i <= Rank(ls, ls[r], r) < i + n ensures Slot(ls, r, root) == Slot(ls, s, root) {
      SpanSlot(ls, s, r, root, curr, n);
    }
    if c.low == -1 {
      Excess(0, a);
      assert Pow2(0) == 1 by { Powers(); }
      RankRange(ls, s);
      RankLenMono(ls, root + 1, ls[s]);
    } else {
      assert i >= end;
      Excess(c.curr, a);
    }
  }

  /** What the account comes to. */
  ghost predicate Bounded(ls: seq<nat>, root: nat, used: nat)
    requires root <= MAXBITS
  {
    && used % 2 == 0
    && used + Rank(ls, root + 1, 0) + 1 + (MAXBITS - root) <= Pow2(root) + Total(ls) + Pow2(MAXBITS - root)
  }

  lemma SizedBounded(ls: seq<nat>, root: nat, c: Cursor, first: nat, end: nat)
    requires Sized(ls, root, c, first, end) && c.low != -1 && 1 <= root && root + c.curr <= MAXBITS
    ensures Bounded(ls, root, c.used)
  {
    hide Rank, Slot;
    Excess(c.curr, MAXBITS - root);
  }

  // ----- ENOUGH -----

  /** Codes of b bits or more take at most w units each. */
  lemma {:induction false} LongSpace(ls: seq<nat>, b: nat, w: nat, k: nat)
    requires k <= |ls| && 1 <= b <= MAXBITS && w == Width(b)
    ensures Below(ls, true, MAXBITS + 1, 0, k) <= Below(ls, true, b, 0, k) + w * k
  {
    if k != 0 {
      LongSpace(ls, b, w, k - 1);
      assert w * k == w * (k - 1) + w;
      if b <= ls[k - 1] <= MAXBITS {
        Pow2Mono(MAXBITS - ls[k - 1], MAXBITS - b);
      }
    }
  }

  /** How much one or two codes can take. */
  lemma {:induction false} FewShort(ls: seq<nat>, b: nat, k: nat)
    requires k <= |ls| && b <= MAXBITS + 1
    ensures var n, v := Below(ls, false, b, 0, k), Below(ls, true, b, 0, k);
      (n == 0 ==> v == 0) && (n == 1 ==> v == 16384 || v <= 8192) && (n == 2 ==> v == 32768 || v <= 24576)
  {
    if k != 0 {
      FewShort(ls, b, k - 1);
      if Before(ls, k - 1, b, 0) {
        WidthValues(ls[k - 1]);
      }
    }
  }

  lemma WidthValues(l: nat)
    requires 1 <= l <= MAXBITS
    ensures Width(l) == 16384 || Width(l) <= 8192
  {
    assert Pow2(14) == 16384 && Pow2(13) == 8192;
    if l >= 2 {
      Pow2Mono(MAXBITS - l, 13);
    }
  }

  /** The sizes of inflate.c: at most 286 literal and length codes with nine root bits, at most 30 distance
      codes with six. */
  predicate Standard(typ: CodeType, codes: nat, bits: nat) {
    (typ == LENS && codes <= 286 && bits == 9) || (typ == DISTS && codes <= 30 && bits == 6)
  }

  /** Some codes are short, enough of them that they do not count for the sub-tables. */
  lemma ShortCodes(ls: seq<nat>, typ: CodeType, bits: nat)
    requires Standard(typ, |ls|, bits) && Space(ls) == Pow2(MAXBITS)
    ensures Rank(ls, bits + 1, 0) >= 1
    ensures Boundary(ls, bits + 1, 0) < Pow2(MAXBITS) ==> Rank(ls, bits + 1, 0) >= if typ == LENS then 2 else 3
  {
    hide Below, Width;
    Powers();
    LongSpace(ls, bits + 1, Width(bits + 1), |ls|);
    FewShort(ls, bits + 1, |ls|);
    WidthAt(bits + 1);
  }

  lemma Powers()
    ensures Pow2(0) == 1 && Pow2(5) == 32 && Pow2(6) == 64 && Pow2(8) == 256 && Pow2(9) == 512 && Pow2(15) == 32768
  {
    assert Pow2(5) == 32;
    assert Pow2(10) == 1024;
  }

  lemma WidthAt(l: nat)
    requires 1 <= l <= MAXBITS
    ensures Width(l) == Pow2(MAXBITS - l)
  {
  }

  /** ENOUGH_LENS and ENOUGH_DISTS are enough. */
  lemma EnoughSpace(ls: seq<nat>, typ: CodeType, bits: nat, used: nat, r: nat)
    requires Standard(typ, |ls|, bits) && Space(ls) == Pow2(MAXBITS) && Bounded(ls, bits, used) && Long(ls, r, bits)
    ensures used <= if typ == LENS then 852 else 592
  {
    hide Below, Width;
    Powers();
    ShortCodes(ls, typ, bits);
    BoundaryAfter(ls, true, r, MAXBITS + 1, 0);
    WidthPositive(ls[r]);
    BelowMono(ls, true, bits + 1, 0, ls[r], r, |ls|);
    BelowAtMost(ls, MAXBITS + 1, 0, |ls|);
  }
}
