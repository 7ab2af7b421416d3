/** inflate_table of inftrees.c: two-level decoding tables for a canonical code. */
module DecodeTable {
  import opened Sums
  import opened Bits
  import opened BitReverse
  import opened CanonicalCode

  const ENOUGH_LENS: nat := 852
  const ENOUGH_DISTS: nat := 592

  datatype CodeType = CODES | LENS | DISTS

  /** struct code: op is the operation, bits the bits of this part of the code, val the value or offset. */
  datatype Entry = Entry(op: nat, bits: nat, val: nat)

  const LBASE: seq<nat> := [3, 4, 5, 6, 7, 8, 9, 10, 11, 13, 15, 17, 19, 23, 27, 31,
                            35, 43, 51, 59, 67, 83, 99, 115, 131, 163, 195, 227, 258, 0, 0]
  const LEXT: seq<nat> := [16, 16, 16, 16, 16, 16, 16, 16, 17, 17, 17, 17, 18, 18, 18, 18,
                           19, 19, 19, 19, 20, 20, 20, 20, 21, 21, 21, 21, 16, 77, 202]
  const DBASE: seq<nat> := [1, 2, 3, 4, 5, 7, 9, 13, 17, 25, 33, 49, 65, 97, 129, 193,
                            257, 385, 513, 769, 1025, 1537, 2049, 3073, 4097, 6145,
                            8193, 12289, 16385, 24577, 0, 0]
  const DEXT: seq<nat> := [16, 16, 16, 16, 17, 17, 18, 18, 19, 19, 20, 20, 21, 21, 22, 22,
                           23, 23, 24, 24, 25, 25, 26, 26, 27, 27,
                           28, 28, 29, 29, 64, 64]

  function MaxCodes(typ: CodeType): nat {
    match typ
    case CODES => 19
    case LENS => 288
    case DISTS => 32
  }

  /** The table entry for a symbol, with the given number of bits. */
  function SymbolEntry(typ: CodeType, sym: nat, bits: nat): Entry
    requires sym < MaxCodes(typ)
  {
    match typ
    case CODES => Entry(0, bits, sym)
    case LENS =>
      if sym < 256 then Entry(0, bits, sym)
      else if sym == 256 then Entry(96, bits, 0)
      else Entry(LEXT[sym - 257], bits, LBASE[sym - 257])
    case DISTS => Entry(DEXT[sym], bits, DBASE[sym])
  }

  /** 0000tttt: a link to a sub-table with tttt index bits. */
  predicate IsLink(e: Entry) {
    0 < e.op < 16
  }

  lemma SymbolIsNoLink(typ: CodeType, sym: nat, bits: nat)
    requires sym < MaxCodes(typ)
    ensures !IsLink(SymbolEntry(typ, sym, bits))
  {
  }

  /** The table walk of inflate(): the entry found for the bits in hold, with all bits it consumes. */
  function Lookup(t: seq<Entry>, root: nat, hold: nat): (e: Entry)
    requires Pow2(root) <= |t|
    requires var here := t[Low(hold, root)]; IsLink(here) ==> here.val + Pow2(here.op) <= |t|
  {
    var here := t[Low(hold, root)];
    if IsLink(here) then
      var sub := t[here.val + Low(Shr(hold, here.bits), here.op)];
      Entry(sub.op, here.bits + sub.bits, sub.val)
    else here
  }

  // ----- What the tables contain when the first i symbols, in order of length, are entered -----

  ghost predicate Used(lens: seq<nat>, s: nat) {
    s < |lens| && 1 <= lens[s] <= MAXBITS
  }

  ghost predicate Entered(lens: seq<nat>, s: nat, i: nat) {
    Used(lens, s) && Rank(lens, lens[s], s) < i
  }

  /** The code fits in the root table. */
  ghost predicate Short(lens: seq<nat>, s: nat, root: nat) {
    Used(lens, s) && lens[s] <= root
  }

  ghost predicate Long(lens: seq<nat>, s: nat, root: nat) {
    Used(lens, s) && lens[s] > root
  }

  /** The root table index under which the code of s is found. */
  ghost function Slot(lens: seq<nat>, s: nat, root: nat): (slot: nat)
    requires Used(lens, s)
    ensures slot < Pow2(root)
  {
    Low(CodeBits(lens, s), root)
  }

  ghost predicate RootFilled(t: seq<Entry>, lens: seq<nat>, typ: CodeType, root: nat, i: nat)
    requires |lens| <= MaxCodes(typ) && Pow2(root) <= |t|
  {
    forall s: nat, x: nat :: Entered(lens, s, i) && Short(lens, s, root) && x < Pow2(root) && Low(x, lens[s]) == CodeBits(lens, s) ==>
      t[x] == SymbolEntry(typ, s, lens[s])
  }

  /** The sub-table with index bits curr at offset off answers for s. */
  ghost predicate SubFilled(t: seq<Entry>, lens: seq<nat>, typ: CodeType, root: nat, s: nat, off: nat, curr: nat)
    requires |lens| <= MaxCodes(typ) && Long(lens, s, root) && off + Pow2(curr) <= |t|
  {
    forall z :: off <= z < off + Pow2(curr) && Low(z - off, lens[s] - root) == Shr(CodeBits(lens, s), root) ==>
      t[z] == SymbolEntry(typ, s, lens[s] - root)
  }

  /** A well-formed link to a sub-table inside t[2^root..used]. */
  ghost predicate LinkTo(t: seq<Entry>, root: nat, slot: nat, used: nat)
    requires slot < |t|
  {
    var e := t[slot];
    1 <= e.op <= MAXBITS && e.bits == root && Pow2(root) <= e.val && e.val + Pow2(e.op) <= used <= |t|
  }

  ghost predicate SubsFilled(t: seq<Entry>, lens: seq<nat>, typ: CodeType, root: nat, used: nat, i: nat)
    requires |lens| <= MaxCodes(typ) && Pow2(root) <= |t|
  {
    forall s: nat :: Entered(lens, s, i) && Long(lens, s, root) ==>
      && LinkTo(t, root, Slot(lens, s, root), used) && lens[s] <= root + t[Slot(lens, s, root)].op
      && SubFilled(t, lens, typ, root, s, t[Slot(lens, s, root)].val, t[Slot(lens, s, root)].op)
  }

  /** Full tables decode every code: any bit string that starts with the code of s finds s and its length. */
  lemma TablesDecode(t: seq<Entry>, lens: seq<nat>, typ: CodeType, root: nat, used: nat, i: nat, s: nat, hold: nat)
    requires |lens| <= MaxCodes(typ) && Pow2(root) <= |t|
    requires RootFilled(t, lens, typ, root, i) && SubsFilled(t, lens, typ, root, used, i)
    requires Entered(lens, s, i) && Low(hold, lens[s]) == CodeBits(lens, s)
    ensures IsLink(t[Low(hold, root)]) ==> t[Low(hold, root)].bits == root && t[Low(hold, root)].val + Pow2(t[Low(hold, root)].op) <= |t|
    ensures Lookup(t, root, hold) == SymbolEntry(typ, s, lens[s])
  {
    hide Low, Shr, Pow2, CodeBits, SymbolEntry, Rank;
    var l := lens[s];
    if l <= root {
      LowLow(hold, root, l);
      SymbolIsNoLink(typ, s, l);
    } else {
      LowLow(hold, l, root);
      var e := t[Slot(lens, s, root)];
      assert SubFilled(t, lens, typ, root, s, e.val, e.op);
      var y := Low(Shr(hold, root), e.op);
      LowLow(Shr(hold, root), e.op, l - root);
      LowShr(hold, root, l - root);
      assert t[e.val + y] == SymbolEntry(typ, s, l - root);
      EntryBits(typ, s, l - root, l);
    }
  }

  // ----- The order of the slots -----

  /** The first root bits of the code, first bit on top. */
  ghost function Prefix(lens: seq<nat>, s: nat, root: nat): nat
    requires root <= MAXBITS && Used(lens, s)
  {
    Shr(Boundary(lens, lens[s], s), MAXBITS - root)
  }

  lemma SlotIsPrefix(lens: seq<nat>, s: nat, root: nat)
    requires root <= MAXBITS && Long(lens, s, root) && Space(lens) <= Pow2(MAXBITS)
    ensures Slot(lens, s, root) == Rev(Prefix(lens, s, root), root)
    ensures Prefix(lens, s, root) < Pow2(root)
  {
    hide Rev, Low, Shr, Pow2, Boundary;
    var l, b := lens[s], Boundary(lens, lens[s], s);
    RevCut(CodeValue(lens, s), l, root);
    ShrShr(b, MAXBITS - l, l - root);
    PrefixFits(lens, s, root);
  }

  lemma PrefixFits(lens: seq<nat>, s: nat, root: nat)
    requires root <= MAXBITS && Long(lens, s, root) && Space(lens) <= Pow2(MAXBITS)
    ensures Prefix(lens, s, root) < Pow2(root)
  {
    hide Shr, Low, Below, Width;
    var b := Boundary(lens, lens[s], s);
    BoundaryAfter(lens, true, s, MAXBITS + 1, 0);
    assert Width(lens[s]) >= 1 by { WidthPositive(lens[s]); }
    Split(b, MAXBITS - root);
    ShlPow2(root, MAXBITS - root);
    ShlMono(Prefix(lens, s, root), Pow2(root), MAXBITS - root);
  }

  lemma WidthPositive(l: nat)
    requires 1 <= l <= MAXBITS
    ensures Width(l) >= 1
  {
  }

  /** Two long codes share a slot exactly if they share their first root bits. */
  lemma SlotsEqual(lens: seq<nat>, s: nat, t: nat, root: nat)
    requires root <= MAXBITS && Long(lens, s, root) && Long(lens, t, root) && Space(lens) <= Pow2(MAXBITS)
    ensures Slot(lens, s, root) == Slot(lens, t, root) <==> Prefix(lens, s, root) == Prefix(lens, t, root)
  {
    hide Rev, Pow2, Slot, Prefix;
    SlotIsPrefix(lens, s, root);
    SlotIsPrefix(lens, t, root);
    RevRev(Prefix(lens, s, root), root);
    RevRev(Prefix(lens, t, root), root);
  }

  /** Prefixes grow with the order of the codes. */
  lemma PrefixMono(lens: seq<nat>, s: nat, t: nat, root: nat)
    requires root <= MAXBITS && Used(lens, s) && Used(lens, t)
    requires Rank(lens, lens[s], s) <= Rank(lens, lens[t], t)
    ensures Prefix(lens, s, root) <= Prefix(lens, t, root)
  {
    hide Shr, Shl, Low, Below;
    if s != t {
      RankInjective(lens, s, t);
      BoundaryAfter(lens, true, s, lens[t], t);
      ShrMono(Boundary(lens, lens[s], s), Boundary(lens, lens[t], t), MAXBITS - root);
    }
  }

  lemma {:induction false} ShrMono(x: nat, y: nat, n: nat)
    requires x <= y
    ensures Shr(x, n) <= Shr(y, n)
    decreases n
  {
    if n != 0 {
      ShrMono(x / 2, y / 2, n - 1);
    }
  }

  /** Between two codes that share a slot, all share it: a slot that differs from the last one is new. */
  lemma SlotIsNew(lens: seq<nat>, s: nat, prev: nat, next: nat, root: nat)
    requires root <= MAXBITS && Space(lens) <= Pow2(MAXBITS)
    requires Long(lens, s, root) && Long(lens, prev, root) && Long(lens, next, root)
    requires Rank(lens, lens[s], s) <= Rank(lens, lens[prev], prev) < Rank(lens, lens[next], next)
    requires Slot(lens, prev, root) != Slot(lens, next, root)
    ensures Slot(lens, s, root) != Slot(lens, next, root)
  {
    hide Slot, Prefix, Rank;
    PrefixMono(lens, s, prev, root);
    PrefixMono(lens, prev, next, root);
    SlotsEqual(lens, s, next, root);
    SlotsEqual(lens, prev, next, root);
  }

  /** A slot of a long code is not claimed by a short one. */
  lemma SlotNotShort(lens: seq<nat>, s: nat, next: nat, root: nat)
    requires ValidLengths(lens) && Space(lens) <= Pow2(MAXBITS)
    requires Short(lens, s, root) && Long(lens, next, root)
    ensures Low(Slot(lens, next, root), lens[s]) != CodeBits(lens, s)
  {
    hide Low, CodeBits, Space;
    var h := CodeBits(lens, next);
    LowLow(h, root, lens[s]);
    assert Low(h, lens[next]) == h by { CodeBitsFit(lens, next); LowSmall(h, lens[next]); }
    PrefixFreeCode(lens, next, s, h);
  }

  lemma CodeBitsFit(lens: seq<nat>, s: nat)
    requires Used(lens, s)
    ensures CodeBits(lens, s) < Pow2(lens[s])
  {
  }

  /** In one sub-table an index belongs to at most one code. */
  lemma SubIndexUnique(lens: seq<nat>, s: nat, t: nat, root: nat, y: nat)
    requires ValidLengths(lens) && Space(lens) <= Pow2(MAXBITS)
    requires Long(lens, s, root) && Long(lens, t, root) && s != t && Slot(lens, s, root) == Slot(lens, t, root)
    requires Low(y, lens[s] - root) == Shr(CodeBits(lens, s), root)
    ensures Low(y, lens[t] - root) != Shr(CodeBits(lens, t), root)
  {
    hide Low, Shr, Shl, CodeBits, Space;
    var slot := Slot(lens, s, root);
    var hold := Shl(y, root) + slot;
    Join(y, slot, root);
    HoldStarts(lens, s, root, y, hold);
    if Low(y, lens[t] - root) == Shr(CodeBits(lens, t), root) {
      HoldStarts(lens, t, root, y, hold);
      PrefixFreeCode(lens, s, t, hold);
    }
  }

  lemma HoldStarts(lens: seq<nat>, s: nat, root: nat, y: nat, hold: nat)
    requires Long(lens, s, root) && Shr(hold, root) == y && Low(hold, root) == Slot(lens, s, root)
    requires Low(y, lens[s] - root) == Shr(CodeBits(lens, s), root)
    ensures Low(hold, lens[s]) == CodeBits(lens, s)
  {
    hide Low, Shr, Shl, CodeBits;
    var l, c := lens[s], CodeBits(lens, s);
    LowShr(hold, root, l - root);
    LowLow(hold, l, root);
    Split(Low(hold, l), root);
    Split(c, root);
  }

  lemma EntryBits(typ: CodeType, s: nat, b: nat, l: nat)
    requires s < MaxCodes(typ)
    ensures SymbolEntry(typ, s, l) == SymbolEntry(typ, s, b).(bits := l) && SymbolEntry(typ, s, b).bits == b
  {
  }

  // ----- Codes that inflate_table lets through -----

  /** An incomplete code that is let through: one code of length one. */
  ghost predicate LoneCode(ls: seq<nat>) {
    forall s: nat :: Used(ls, s) ==> ls[s] == 1
  }

  ghost predicate NoCodes(ls: seq<nat>) {
    forall s: nat :: !Used(ls, s)
  }

  /** A complete code, a lone code of one bit, or none at all. */
  ghost predicate Accepted(ls: seq<nat>) {
    ValidLengths(ls) && Space(ls) <= Pow2(MAXBITS) && (Space(ls) < Pow2(MAXBITS) ==> LoneCode(ls))
  }

  /** No code starts with this bit, as there are codes of one bit only. */
  ghost predicate IsGap(ls: seq<nat>, bit: nat) {
    bit < 2 && forall s: nat :: Used(ls, s) ==> ls[s] == 1 && CodeBits(ls, s) != bit
  }

  lemma LoneIsZero(ls: seq<nat>, s: nat)
    requires ValidLengths(ls) && Space(ls) < Pow2(MAXBITS) && LoneCode(ls) && Used(ls, s)
    ensures CodeBits(ls, s) == 0
  {
    hide Below, Rev, Low, Shl, Shr;
    CodeValueFits(ls, s);
    CodeValueExact(ls, s);
    BoundaryAfter(ls, true, s, MAXBITS + 1, 0);
    assert Pow2(1) == 2 * Pow2(0);
    if CodeValue(ls, s) == 1 {
      ShlOne(MAXBITS - 1);
    } else {
      RevZero(1);
    }
  }

  lemma {:induction false} RevZero(l: nat)
    ensures Rev(0, l) == 0
  {
    if l != 0 {
      RevZero(l - 1);
    }
  }

  lemma BitOf(x: nat)
    ensures Low(x, 1) < 2
  {
    assert Pow2(1) == 2 * Pow2(0);
  }

  /** Every bit string starts with a code, or with a gap. */
  lemma CodeOrGap(ls: seq<nat>, x: nat) returns (found: bool, s: nat)
    requires Accepted(ls)
    ensures found ==> Used(ls, s) && Low(x, ls[s]) == CodeBits(ls, s)
    ensures !found ==> IsGap(ls, Low(x, 1))
  {
    hide Low, CodeBits, Space;
    s := 0;
    if Space(ls) == Pow2(MAXBITS) {
      s := SomeCodeMatches(ls, x);
      found := true;
    } else {
      forall r: nat | Used(ls, r) ensures ls[r] == 1 && CodeBits(ls, r) == 0 {
        LoneIsZero(ls, r);
      }
      BitOf(x);
      found := Low(x, 1) == 0 && exists r: nat :: Used(ls, r);
      if found {
        s :| Used(ls, s);
      }
    }
  }

  /** A complete code has no gap. */
  lemma NoGap(ls: seq<nat>, bit: nat)
    requires ValidLengths(ls) && Space(ls) == Pow2(MAXBITS)
    ensures !IsGap(ls, bit)
  {
    hide Low, CodeBits, Space;
    var s := SomeCodeMatches(ls, bit);
    if bit < 2 && ls[s] == 1 {
      assert Low(bit, 1) == bit by { LowSmall(bit, 1); }
    }
  }
}
