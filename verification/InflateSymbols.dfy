/** Decoding one symbol in inflate.c: the table is asked before all bits of the code need be there. */
module InflateSymbols {
  import opened Sums
  import opened Bits
  import opened BitStreams
  import opened BitReader
  import opened CanonicalCode
  import opened DecodeTable
  import opened InfTrees
  import opened CodeSymbols

  /** What the table has for a symbol or a gap. */
  ghost function EntryOf(typ: CodeType, ls: seq<nat>, sym: Sym): Entry
    requires SymOk(ls, sym) && |ls| <= MaxCodes(typ)
  {
    match sym
    case Found(s) => SymbolEntry(typ, s, ls[s])
    case Gap(_) => INVALID
  }

  /** The bits in hold, followed by zeros, start with sym, and the table says so. */
  ghost predicate Answers(t: seq<Entry>, ls: seq<nat>, typ: CodeType, root: nat, hold: nat, sym: Sym) {
    && Pow2(root) <= |t| && |ls| <= MaxCodes(typ) && SymOk(ls, sym) && Starts(ls, sym, hold)
    && if sym.Found? then Finds(t, root, hold, SymbolEntry(typ, sym.s, ls[sym.s])) else t[Low(hold, root)] == INVALID
  }

  lemma Look(t: seq<Entry>, ls: seq<nat>, typ: CodeType, root: nat, hold: nat) returns (sym: Sym)
    requires Usable(t, ls, typ, root)
    ensures Answers(t, ls, typ, root, hold, sym)
  {
    hide Low, CodeBits, SymbolEntry, Finds, Accepted, Pow2;
    sym := SomeSym(ls, hold);
  }

  lemma TableSize(t: seq<Entry>, ls: seq<nat>, typ: CodeType, root: nat)
    requires Usable(t, ls, typ, root)
    ensures Pow2(root) <= |t| && |ls| <= MaxCodes(typ) && Accepted(ls)
  {
  }

  /** What the first look into the table shows: the entry, or a link to it. */
  lemma FirstLook(t: seq<Entry>, ls: seq<nat>, typ: CodeType, root: nat, hold: nat, sym: Sym)
    requires Answers(t, ls, typ, root, hold, sym)
    ensures var here, n := t[Low(hold, root)], BitsOf(ls, sym).n;
      && here.bits <= n
      && (IsLink(here) <==> here.op < 16 && (typ == DISTS || here.op != 0))
      && (if IsLink(here) then
            sym.Found? && here.bits == root && here.val + Low(Shr(hold, root), here.op) < |t|
            && t[here.val + Low(Shr(hold, root), here.op)] == EntryOf(typ, ls, sym).(bits := n - root)
          else here == EntryOf(typ, ls, sym) && here.bits == n)
  {
    hide SymbolEntry, Low, Shr, CodeBits, Finds, Pow2, IsGap, Starts, IsLink;
    match sym
    case Found(s) =>
      EntryBits(typ, s, ls[s], ls[s]);
      OpRange(typ, s, ls[s]);
      FoundLook(t, root, hold, SymbolEntry(typ, s, ls[s]));
      LinkOps(t[Low(hold, root)], typ);
    case Gap(_) =>
      LinkOps(INVALID, typ);
  }

  lemma FoundLook(t: seq<Entry>, root: nat, hold: nat, e: Entry)
    requires Pow2(root) <= |t| && Finds(t, root, hold, e)
    ensures var here := t[Low(hold, root)];
      if IsLink(here) then
        here.bits == root && here.val + Low(Shr(hold, root), here.op) < |t| && root <= e.bits
        && t[here.val + Low(Shr(hold, root), here.op)] == e.(bits := e.bits - root)
      else here == e
  {
    hide Low, Shr;
  }

  lemma LinkOps(e: Entry, typ: CodeType)
    ensures IsLink(e) ==> e.op < 16 && e.op != 0
    ensures !IsLink(e) ==> e.op == 0 || e.op >= 16
  {
  }

  /** Distances have no operation below sixteen. */
  lemma OpRange(typ: CodeType, r: nat, len: nat)
    requires r < MaxCodes(typ)
    ensures !IsLink(SymbolEntry(typ, r, len)) && (typ == DISTS ==> SymbolEntry(typ, r, len).op >= 16)
  {
    SymbolIsNoLink(typ, r, len);
    if typ == DISTS {
      DistOps(r);
    }
  }

  lemma DistOps(r: nat)
    requires r < 32
    ensures DEXT[r] >= 16
  {
  }

  /** The bits at hand are the first of those ahead, and all of them if there is no more input. */
  lemma HoldIsLow(br: Reader)
    requires br.Valid()
    ensures br.hold == Low(br.Rest().v, br.bits) && br.bits <= br.Rest().n
    ensures br.next == |br.input| ==> br.Rest() == BitString(br.hold, br.bits)
  {
    hide Low, Cat;
    br.AllIn();
    CatPrefix(BitString(br.hold, br.bits), OfBytes(br.input[br.next..]), br.bits);
    LowSmall(br.hold, br.bits);
    if br.next == |br.input| {
      CatEmpty(BitString(br.hold, br.bits));
    }
  }

  /** With more bits, a symbol that is found does not end before them. */
  lemma Farther(t: seq<Entry>, ls: seq<nat>, typ: CodeType, root: nat, hold: nat, sym: Sym, more: nat, next: Sym, bits: nat)
    requires Accepted(ls) && Answers(t, ls, typ, root, hold, sym) && Answers(t, ls, typ, root, more, next)
    requires hold == Low(more, bits) && bits < BitsOf(ls, sym).n
    ensures bits < BitsOf(ls, next).n
  {
    hide Low, BitsOf, Starts, Accepted, Finds;
    if BitsOf(ls, next).n <= bits {
      StartsLow(ls, next, more, bits);
      StartsUnique(ls, sym, next, hold);
    }
  }

  /** One more byte, and another look. ok is false if there is none: then the bits end within a symbol. */
  method More(br: Reader, t: seq<Entry>, root: nat, typ: CodeType, ghost ls: seq<nat>, ghost sym0: Sym) returns (ok: bool, ghost sym: Sym)
    requires br.Valid() && Usable(t, ls, typ, root) && Answers(t, ls, typ, root, br.hold, sym0) && br.bits < BitsOf(ls, sym0).n
    modifies br
    ensures br.Valid() && br.Rest() == old(br.Rest()) && br.Consumed() == old(br.Consumed()) && br.next == old(br.next) + (if ok then 1 else 0)
    ensures ok ==> Answers(t, ls, typ, root, br.hold, sym) && Low(br.hold, old(br.bits)) == old(br.hold) && br.next <= |br.input|
    ensures ok ==> br.bits == old(br.bits) + 8 && br.bits < BitsOf(ls, sym).n + 8
    ensures !ok ==> NoSym(ls, br.Rest())
  {
    hide Low, CodeBits, Usable, Answers, Cat, OfBytes, DropFirst, NoSym;
    TableSize(t, ls, typ, root);
    sym := sym0;
    ok := br.PullByte();
    HoldIsLow(br);
    if ok {
      sym := Look(t, ls, typ, root, br.hold);
      Farther(t, ls, typ, root, old(br.hold), sym0, br.hold, sym, old(br.bits));
    } else {
      SymAnswers(t, ls, typ, root, br.hold, sym0);
      TooShort(ls, sym0, br.Rest());
    }
  }

  lemma SymAnswers(t: seq<Entry>, ls: seq<nat>, typ: CodeType, root: nat, hold: nat, sym: Sym)
    requires Answers(t, ls, typ, root, hold, sym)
    ensures SymOk(ls, sym) && Starts(ls, sym, hold) && |ls| <= MaxCodes(typ)
  {
  }

  /** Reads until the bits of the entry in the root table are there. */
  method FirstEntry(br: Reader, table: seq<Entry>, root: nat, typ: CodeType, ghost ls: seq<nat>) returns (ok: bool, here: Entry, ghost sym: Sym)
    requires br.Valid() && Usable(table, ls, typ, root)
    modifies br
    ensures br.Valid() && br.Rest() == old(br.Rest()) && br.Consumed() == old(br.Consumed())
    ensures ok ==> Answers(table, ls, typ, root, br.hold, sym) && SymOk(ls, sym) && here == table[Low(br.hold, root)] && here.bits <= br.bits
    ensures ok ==> br.bits < BitsOf(ls, sym).n + 8 || br.bits == old(br.bits)
    ensures !ok ==> NoSym(ls, br.Rest())
  {
    hide Low, Shr, CodeBits, EntryOf, Usable, Answers, Pow2, IsLink, NoSym, BitsOf;
    TableSize(table, ls, typ, root);
    sym := Look(table, ls, typ, root, br.hold);
    ok := true;
    here := table[Low(br.hold, root)];
    SymAnswers(table, ls, typ, root, br.hold, sym);
    while ok && here.bits > br.bits
      invariant br.Valid() && br.Rest() == old(br.Rest()) && br.Consumed() == old(br.Consumed()) && SymOk(ls, sym)
      invariant ok ==> br.bits < BitsOf(ls, sym).n + 8 || br.bits == old(br.bits)
      invariant ok ==> Answers(table, ls, typ, root, br.hold, sym) && here == table[Low(br.hold, root)]
      invariant !ok ==> NoSym(ls, br.Rest())
      decreases |br.input| - br.next, ok
    {
      FirstLook(table, ls, typ, root, br.hold, sym);
      ghost var was := sym;
      ok, sym := More(br, table, root, typ, ls, sym);
      if ok {
        here := table[Low(br.hold, root)];
        SymAnswers(table, ls, typ, root, br.hold, sym);
      } else {
        sym := was;
      }
    }
  }

  /** Reads until the bits of the entry in the sub-table are there. */
  method SecondEntry(br: Reader, table: seq<Entry>, root: nat, typ: CodeType, ghost ls: seq<nat>, last: Entry, ghost sym0: Sym)
    returns (ok: bool, here: Entry, ghost sym: Sym)
    requires br.Valid() && Usable(table, ls, typ, root) && Answers(table, ls, typ, root, br.hold, sym0)
    requires Pow2(root) <= |table| && last == table[Low(br.hold, root)] && IsLink(last) && last.bits <= br.bits && SymOk(ls, sym0)
    requires last.op < 16 && (typ == DISTS || last.op != 0)
    modifies br
    ensures br.Valid() && br.Rest() == old(br.Rest()) && br.Consumed() == old(br.Consumed())
    ensures ok ==> Answers(table, ls, typ, root, br.hold, sym) && SymOk(ls, sym) && |ls| <= MaxCodes(typ) && last.bits <= BitsOf(ls, sym).n <= br.bits
    ensures ok ==> here == EntryOf(typ, ls, sym).(bits := BitsOf(ls, sym).n - last.bits)
    ensures ok ==> br.bits < BitsOf(ls, sym).n + 8 || (br.bits == old(br.bits) && sym == sym0)
    ensures !ok ==> NoSym(ls, br.Rest())
  {
    hide Low, Shr, CodeBits, EntryOf, Usable, Answers, Pow2, IsLink, NoSym, BitsOf;
    sym := sym0;
    ok := true;
    TableSize(table, ls, typ, root);
    FirstLook(table, ls, typ, root, br.hold, sym);
    here := table[last.val + Low(Shr(br.hold, last.bits), last.op)];
    while ok && last.bits + here.bits > br.bits
      invariant br.Valid() && br.Rest() == old(br.Rest()) && br.Consumed() == old(br.Consumed()) && SymOk(ls, sym)
      invariant ok ==> last.bits == root <= br.bits && (br.bits < BitsOf(ls, sym).n + 8 || (br.bits == old(br.bits) && sym == sym0))
      invariant ok ==> Answers(table, ls, typ, root, br.hold, sym) && last == table[Low(br.hold, root)]
      invariant ok ==> root <= BitsOf(ls, sym).n && here == EntryOf(typ, ls, sym).(bits := BitsOf(ls, sym).n - root)
      invariant !ok ==> NoSym(ls, br.Rest())
      decreases |br.input| - br.next, ok
    {
      ghost var was, bits := sym, br.bits;
      ok, sym := More(br, table, root, typ, ls, sym);
      if ok {
        LowLow(br.hold, bits, root);
        SymAnswers(table, ls, typ, root, br.hold, sym);
        FirstLook(table, ls, typ, root, br.hold, sym);
        here := table[last.val + Low(Shr(br.hold, last.bits), last.op)];
      } else {
        sym := was;
      }
    }
  }

  /** The LEN and DIST states, and CODELENS: takes the next symbol from the bits, or the one bit of a gap. ok
      is false if the input ends before: then nothing is taken. */
  method DecodeSymbol(br: Reader, table: seq<Entry>, root: nat, typ: CodeType, ghost ls: seq<nat>) returns (ok: bool, e: Entry, ghost sym: Sym)
    requires br.Valid() && Usable(table, ls, typ, root)
    modifies br
    ensures br.Valid() && br.Consumed() >= old(br.Consumed())
    ensures ok ==> SymOk(ls, sym) && |ls| <= MaxCodes(typ) && e.op == EntryOf(typ, ls, sym).op && e.val == EntryOf(typ, ls, sym).val
    ensures ok ==> old(br.Rest()) == Cat(BitsOf(ls, sym), br.Rest()) && br.Consumed() == old(br.Consumed()) + BitsOf(ls, sym).n
    ensures ok && old(br.bits) < 8 ==> br.bits < 8
    ensures !ok ==> br.Rest() == old(br.Rest()) && NoSym(ls, br.Rest())
  {
    hide Low, Shr, CodeBits, EntryOf, Usable, Answers, Cat, Pow2, DropFirst, OfBytes, IsLink, NoSym, BitsOf;
    ghost var all := br.Rest();
    var here;
    ok, here, sym := FirstEntry(br, table, root, typ, ls);
    e := here;
    if !ok {
      return;
    }
    FirstLook(table, ls, typ, root, br.hold, sym);
    TableSize(table, ls, typ, root);
    if here.op < 16 && (typ == DISTS || here.op != 0) {
      var last := here;
      ok, here, sym := SecondEntry(br, table, root, typ, ls, last, sym);
      if !ok {
        return;
      }
      TakenSym(br, table, ls, typ, root, sym);
      br.DropBits(last.bits);
      br.DropBits(here.bits);
      DropTwice(all, last.bits, here.bits);
    } else {
      TakenSym(br, table, ls, typ, root, sym);
      br.DropBits(here.bits);
    }
    e := here;
  }

  /** The symbol at hand starts the bits ahead. */
  lemma TakenSym(br: Reader, t: seq<Entry>, ls: seq<nat>, typ: CodeType, root: nat, sym: Sym)
    requires br.Valid() && Answers(t, ls, typ, root, br.hold, sym) && SymOk(ls, sym) && BitsOf(ls, sym).n <= br.bits
    ensures BitsOf(ls, sym).n <= br.Rest().n && br.Rest() == Cat(BitsOf(ls, sym), DropFirst(br.Rest(), BitsOf(ls, sym).n))
  {
    hide Low, Cat, DropFirst, BitsOf, Starts, Finds, OfBytes;
    HoldIsLow(br);
    StartsLow(ls, sym, br.Rest().v, br.bits);
    SymRead(ls, sym, br.Rest());
  }
}
