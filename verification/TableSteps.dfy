/** The steps by which inflate_table fills its tables, and what each of them keeps. */
module TableSteps {
  import opened Sums
  import opened Bits
  import opened CanonicalCode
  import opened DecodeTable

  /** The table filled at present: the root table while low is -1, else the sub-table of slot low. */
  datatype Cursor = Cursor(low: int, next: nat, curr: nat, used: nat)

  ghost predicate Sane(lens: seq<nat>, typ: CodeType, root: nat) {
    ValidLengths(lens) && Space(lens) <= Pow2(MAXBITS) && |lens| <= MaxCodes(typ) && 1 <= root <= MAXBITS
  }

  /** The first i symbols are entered; c describes the table being filled. */
  ghost predicate Building(t: seq<Entry>, lens: seq<nat>, typ: CodeType, root: nat, i: nat, c: Cursor) {
    && Sane(lens, typ, root) && Pow2(root) <= c.used <= |t|
    && RootFilled(t, lens, typ, root, i) && SubsFilled(t, lens, typ, root, c.used, i)
    && c.used == c.next + Pow2(c.curr)
    && (c.low == -1 ==> c.next == 0 && c.curr == root && forall s: nat :: Entered(lens, s, i) ==> Short(lens, s, root))
    && (c.low != -1 ==>
          && 0 <= c.low < Pow2(root) <= c.next && 1 <= c.curr <= MAXBITS && t[c.low] == Entry(c.curr, root, c.next)
          && (forall s: nat :: Entered(lens, s, i) && Long(lens, s, root) ==>
                Slot(lens, s, root) == c.low || SubEnd(t, Slot(lens, s, root)) <= c.next))
  }

  ghost function SubEnd(t: seq<Entry>, slot: nat): nat
    requires slot < |t|
  {
    t[slot].val + Pow2(t[slot].op)
  }

  /** t' is t with e written at every index of the table at off whose low step bits are idx. */
  ghost predicate Replicated(t: seq<Entry>, t': seq<Entry>, off: nat, size: nat, idx: nat, step: nat, e: Entry) {
    && |t'| == |t|
    && forall z :: 0 <= z < |t| ==>
         t'[z] == if off <= z < off + Pow2(size) && Low(z - off, step) == idx then e else t[z]
  }

  ghost predicate Next(lens: seq<nat>, s: nat, i: nat) {
    Used(lens, s) && Rank(lens, lens[s], s) == i
  }

  lemma EnteredNext(lens: seq<nat>, s: nat, i: nat, r: nat)
    requires Next(lens, s, i)
    ensures Entered(lens, r, i + 1) <==> Entered(lens, r, i) || r == s
    ensures !Entered(lens, s, i)
  {
    hide Rank;
    if r != s && Used(lens, r) {
      RankInjective(lens, r, s);
    }
  }

  /** Entering a code that fits in the root table. */
  lemma EnterShort(t: seq<Entry>, t': seq<Entry>, lens: seq<nat>, typ: CodeType, root: nat, i: nat, c: Cursor, s: nat)
    requires Building(t, lens, typ, root, i, c) && c.low == -1
    requires Next(lens, s, i) && Short(lens, s, root)
    requires Replicated(t, t', 0, root, CodeBits(lens, s), lens[s], SymbolEntry(typ, s, lens[s]))
    ensures Building(t', lens, typ, root, i + 1, c)
  {
    hide Rank, Space, Low, CodeBits, SymbolEntry, Pow2, Slot;
    forall r: nat, x: nat | Entered(lens, r, i + 1) && Short(lens, r, root) && x < Pow2(root) && Low(x, lens[r]) == CodeBits(lens, r)
      ensures t'[x] == SymbolEntry(typ, r, lens[r])
    {
      EnteredNext(lens, s, i, r);
      if r != s {
        PrefixFreeCode(lens, r, s, x);
      }
    }
    assert RootFilled(t', lens, typ, root, i + 1);
    forall r: nat | Entered(lens, r, i + 1) ensures Short(lens, r, root) && !Long(lens, r, root) {
      EnteredNext(lens, s, i, r);
    }
    SubsFilledIntro(t', lens, typ, root, c.used, i + 1);
  }

  /** Entering a code into the current sub-table. */
  lemma EnterLong(t: seq<Entry>, t': seq<Entry>, lens: seq<nat>, typ: CodeType, root: nat, i: nat, c: Cursor, s: nat)
    requires Building(t, lens, typ, root, i, c) && c.low != -1
    requires Next(lens, s, i) && Long(lens, s, root) && Slot(lens, s, root) == c.low && lens[s] <= root + c.curr
    requires Replicated(t, t', c.next, c.curr, Shr(CodeBits(lens, s), root), lens[s] - root, SymbolEntry(typ, s, lens[s] - root))
    ensures Building(t', lens, typ, root, i + 1, c)
  {
    hide Rank, Space, Low, Shr, CodeBits, SymbolEntry, Pow2, Slot, SubsFilled, RootFilled, Replicated;
    KeepRoot(t, t', lens, typ, root, i, c, s);
    forall r: nat | Entered(lens, r, i + 1) && Long(lens, r, root)
      ensures LinkTo(t', root, Slot(lens, r, root), c.used) && lens[r] <= root + t'[Slot(lens, r, root)].op
      ensures SubFilled(t', lens, typ, root, r, t'[Slot(lens, r, root)].val, t'[Slot(lens, r, root)].op)
      ensures Slot(lens, r, root) == c.low || SubEnd(t', Slot(lens, r, root)) <= c.next
    {
      EnteredNext(lens, s, i, r);
      KeepSub(t, t', lens, typ, root, i, c, s, r);
    }
    SubsFilledIntro(t', lens, typ, root, c.used, i + 1);
  }

  lemma SubsFilledIntro(t: seq<Entry>, lens: seq<nat>, typ: CodeType, root: nat, used: nat, i: nat)
    requires |lens| <= MaxCodes(typ) && Pow2(root) <= |t|
    requires forall s: nat :: Entered(lens, s, i) && Long(lens, s, root) ==>
      && LinkTo(t, root, Slot(lens, s, root), used) && lens[s] <= root + t[Slot(lens, s, root)].op
      && SubFilled(t, lens, typ, root, s, t[Slot(lens, s, root)].val, t[Slot(lens, s, root)].op)
    ensures SubsFilled(t, lens, typ, root, used, i)
  {
  }

  lemma KeepRoot(t: seq<Entry>, t': seq<Entry>, lens: seq<nat>, typ: CodeType, root: nat, i: nat, c: Cursor, s: nat)
    requires Building(t, lens, typ, root, i, c) && c.low != -1 && Next(lens, s, i) && Long(lens, s, root)
    requires Replicated(t, t', c.next, c.curr, Shr(CodeBits(lens, s), root), lens[s] - root, SymbolEntry(typ, s, lens[s] - root))
    ensures |t'| == |t| && RootFilled(t', lens, typ, root, i + 1)
    ensures forall x :: 0 <= x < Pow2(root) ==> t'[x] == t[x]
  {
    hide Rank, Space, Low, Shr, CodeBits, SymbolEntry, Pow2, Slot;
    forall r: nat, x: nat | Entered(lens, r, i + 1) && Short(lens, r, root) && x < Pow2(root) && Low(x, lens[r]) == CodeBits(lens, r)
      ensures t'[x] == SymbolEntry(typ, r, lens[r])
    {
      EnteredNext(lens, s, i, r);
    }
  }

  lemma KeepSub(t: seq<Entry>, t': seq<Entry>, lens: seq<nat>, typ: CodeType, root: nat, i: nat, c: Cursor, s: nat, r: nat)
    requires Building(t, lens, typ, root, i, c) && c.low != -1
    requires Next(lens, s, i) && Long(lens, s, root) && Slot(lens, s, root) == c.low && lens[s] <= root + c.curr
    requires Replicated(t, t', c.next, c.curr, Shr(CodeBits(lens, s), root), lens[s] - root, SymbolEntry(typ, s, lens[s] - root))
    requires Long(lens, r, root) && (Entered(lens, r, i) || r == s)
    requires |t'| == |t| && forall x :: 0 <= x < Pow2(root) ==> t'[x] == t[x]
    ensures LinkTo(t', root, Slot(lens, r, root), c.used) && lens[r] <= root + t'[Slot(lens, r, root)].op
    ensures SubFilled(t', lens, typ, root, r, t'[Slot(lens, r, root)].val, t'[Slot(lens, r, root)].op)
    ensures Slot(lens, r, root) == c.low || SubEnd(t', Slot(lens, r, root)) <= c.next
  {
    hide Rank, Space, Low, Shr, CodeBits, SymbolEntry, Pow2, RootFilled;
    var slot := Slot(lens, r, root);
    var off, size := t[slot].val, t[slot].op;
    hide Slot;
    if r != s {
      assert SubFilled(t, lens, typ, root, r, off, size);
      forall z | off <= z < off + Pow2(size) && Low(z - off, lens[r] - root) == Shr(CodeBits(lens, r), root)
        ensures t'[z] == SymbolEntry(typ, r, lens[r] - root)
      {
        if slot == c.low {
          SubIndexUnique(lens, r, s, root, z - off);
        }
      }
    }
  }

  /** Starting a new sub-table for the next symbol. */
  lemma StartSub(t: seq<Entry>, lens: seq<nat>, typ: CodeType, root: nat, i: nat, c: Cursor, prev: nat, s: nat, curr: nat)
    requires Building(t, lens, typ, root, i, c) && i >= 1
    requires Next(lens, prev, i - 1) && Next(lens, s, i) && Long(lens, s, root)
    requires Long(lens, prev, root) ==> Slot(lens, prev, root) == c.low
    requires Slot(lens, s, root) != c.low && 1 <= curr <= MAXBITS && c.used + Pow2(curr) <= |t|
    ensures var slot := Slot(lens, s, root);
            Building(t[slot := Entry(curr, root, c.used)], lens, typ, root, i, Cursor(slot, c.used, curr, c.used + Pow2(curr)))
  {
    hide Rank, Space, Low, Shr, CodeBits, SymbolEntry, Slot, SubsFilled, RootFilled, Pow2;
    var slot := Slot(lens, s, root);
    var t' := t[slot := Entry(curr, root, c.used)];
    StartKeepsRoot(t, t', lens, typ, root, i, s);
    forall r: nat | Entered(lens, r, i) && Long(lens, r, root)
      ensures LinkTo(t', root, Slot(lens, r, root), c.used + Pow2(curr)) && lens[r] <= root + t'[Slot(lens, r, root)].op
      ensures SubFilled(t', lens, typ, root, r, t'[Slot(lens, r, root)].val, t'[Slot(lens, r, root)].op)
      ensures SubEnd(t', Slot(lens, r, root)) <= c.used
    {
      FreshSlot(lens, typ, root, i, prev, s, r, c.low);
      StartKeepsSub(t, t', lens, typ, root, i, c, slot, r, curr);
    }
    SubsFilledIntro(t', lens, typ, root, c.used + Pow2(curr), i);
  }

  lemma FreshSlot(lens: seq<nat>, typ: CodeType, root: nat, i: nat, prev: nat, s: nat, r: nat, low: int)
    requires Sane(lens, typ, root) && i >= 1
    requires Next(lens, prev, i - 1) && Next(lens, s, i) && Long(lens, s, root)
    requires Long(lens, prev, root) ==> Slot(lens, prev, root) == low
    requires Slot(lens, s, root) != low
    requires Entered(lens, r, i) && Long(lens, r, root)
    ensures Slot(lens, r, root) != Slot(lens, s, root)
  {
    hide Rank, Slot;
    assert Long(lens, prev, root) by {
      if r != prev { RankInjective(lens, r, prev); }
    }
    SlotIsNew(lens, r, prev, s, root);
  }

  lemma StartKeepsRoot(t: seq<Entry>, t': seq<Entry>, lens: seq<nat>, typ: CodeType, root: nat, i: nat, s: nat)
    requires Sane(lens, typ, root) && Pow2(root) <= |t| == |t'| && RootFilled(t, lens, typ, root, i)
    requires Long(lens, s, root) && forall x :: 0 <= x < |t| && x != Slot(lens, s, root) ==> t'[x] == t[x]
    ensures RootFilled(t', lens, typ, root, i)
  {
    hide Rank, Space, Low, CodeBits, SymbolEntry, Slot, Pow2;
    forall r: nat, x: nat | Entered(lens, r, i) && Short(lens, r, root) && x < Pow2(root) && Low(x, lens[r]) == CodeBits(lens, r)
      ensures t'[x] == SymbolEntry(typ, r, lens[r])
    {
      SlotNotShort(lens, r, s, root);
    }
  }

  lemma StartKeepsSub(t: seq<Entry>, t': seq<Entry>, lens: seq<nat>, typ: CodeType, root: nat, i: nat, c: Cursor, slot: nat, r: nat, curr: nat)
    requires Building(t, lens, typ, root, i, c) && Entered(lens, r, i) && Long(lens, r, root)
    requires slot < Pow2(root) && c.used + Pow2(curr) <= |t|
    requires t' == t[slot := Entry(curr, root, c.used)] && Slot(lens, r, root) != slot
    ensures LinkTo(t', root, Slot(lens, r, root), c.used + Pow2(curr)) && lens[r] <= root + t'[Slot(lens, r, root)].op
    ensures SubFilled(t', lens, typ, root, r, t'[Slot(lens, r, root)].val, t'[Slot(lens, r, root)].op)
    ensures SubEnd(t', Slot(lens, r, root)) <= c.used
  {
    hide Rank, Space, Low, Shr, CodeBits, SymbolEntry, Pow2, RootFilled;
    assert SubFilled(t, lens, typ, root, r, t[Slot(lens, r, root)].val, t[Slot(lens, r, root)].op);
  }
}
