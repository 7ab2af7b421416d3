/** inflate_table of inftrees.c as a whole. */
module InfTrees {
  import opened Sums
  import opened Bits
  import opened BitReverse
  import opened CanonicalCode
  import opened DecodeTable
  import opened TableSetup
  import opened TableSteps
  import opened TableSpace

  /** Replicates e at those indices of a table with size index bits whose low step bits equal idx. */
  method Replicate(table: array<Entry>, off: nat, size: nat, idx: nat, step: nat, e: Entry)
    requires step <= size && idx < Pow2(step) && off + Pow2(size) <= table.Length
    modifies table
    ensures Replicated(old(table[..]), table[..], off, size, idx, step, e)
  {
    hide Shl, Shr, Low, Pow2;
    ghost var t := table[..];
    ghost var k: nat := Pow2(size - step);
    forall y: nat | y < Pow2(size) ensures Shr(y, step) < k {
      ShrLess(y, step, size);
    }
    ShlPow2(size - step, step);
    var incr := Pow2(step);
    var fill := Pow2(size);
    while fill != 0
      invariant fill == Shl(k, step) && k <= Pow2(size - step)
      invariant forall z :: 0 <= z < table.Length ==>
        table[z] == if off <= z < off + Pow2(size) && Low(z - off, step) == idx && Shr(z - off, step) >= k then e else t[z]
      decreases fill
    {
      ShlDown(k, step);
      ShlMono(k, Pow2(size - step), step);
      fill := fill - incr;
      k := k - 1;
      Join(k, idx, step);
      forall y: nat | Low(y, step) == idx && Shr(y, step) == k ensures y == fill + idx {
        Split(y, step);
      }
      table[off + idx + fill] := e;
    }
    ShlDown(k, step);
  }

  lemma ShrLess(y: nat, step: nat, size: nat)
    requires step <= size && y < Pow2(size)
    ensures Shr(y, step) < Pow2(size - step)
  {
    hide Shl, Shr, Low, Pow2;
    Split(y, step);
    ShlPow2(size - step, step);
    ShlMono(Shr(y, step), Pow2(size - step), step);
  }

  lemma ShlDown(k: nat, step: nat)
    ensures Shl(k, step) != 0 ==> k >= 1 && Shl(k - 1, step) + Pow2(step) == Shl(k, step)
    ensures k >= 1 ==> Shl(k, step) >= Pow2(step)
  {
    if k == 0 {
      ShlAdd(0, 0, step);
    } else {
      ShlAdd(k - 1, 1, step);
      ShlOne(step);
    }
  }

  // ----- From one symbol to the next -----

  /** work holds the used symbols in order of rank. */
  ghost predicate SortedWork(work: seq<nat>, ls: seq<nat>) {
    forall s: nat :: Used(ls, s) ==> Rank(ls, ls[s], s) < |work| && work[Rank(ls, ls[s], s)] == s
  }

  lemma WorkAt(work: seq<nat>, ls: seq<nat>, i: nat)
    requires SortedWork(work, ls) && i < Total(ls)
    ensures i < |work| && Next(ls, work[i], i)
  {
    hide Below;
    var s := FindCode(ls, false, MAXBITS + 1, i);
    assert Used(ls, s);
  }

  /** The incremented code is the code of the next symbol. */
  lemma NextHuff(ls: seq<nat>, s: nat, t: nat, i: nat)
    requires Next(ls, s, i) && Next(ls, t, i + 1)
    ensures Rev(CodeValue(ls, s) + 1, ls[s]) == CodeBits(ls, t)
  {
    hide Below, Rank, Boundary, Shl, Shr, Low, Rev;
    NextLength(ls, s, t, i);
    RankInjective(ls, s, t);
    BoundaryOfNext(ls, s, ls[t], t);
    var c, l, l' := CodeValue(ls, s), ls[s], ls[t];
    CodeValueExact(ls, s);
    ShlAdd(c, 1, MAXBITS - l);
    ShlOne(MAXBITS - l);
    ShlShl(c + 1, l' - l, MAXBITS - l');
    Join(Shl(c + 1, l' - l), 0, MAXBITS - l');
    RevShl(c + 1, l, l' - l);
  }

  /** After the last symbol of a complete code the increment has wrapped to zero; it is one after a lone
      code of length one. */
  lemma LastHuff(ls: seq<nat>, s: nat)
    requires Used(ls, s) && Rank(ls, ls[s], s) + 1 == Total(ls) && Space(ls) <= Pow2(MAXBITS)
    ensures Space(ls) == Pow2(MAXBITS) ==> Rev(CodeValue(ls, s) + 1, ls[s]) == 0
    ensures Space(ls) < Pow2(MAXBITS) ==> CodeValue(ls, s) + 1 < Pow2(ls[s])
  {
    hide Below, Rank, Boundary, Shl, Shr, Low, Rev, Pow2;
    BoundaryOfNext(ls, s, MAXBITS + 1, 0);
    var c, l := CodeValue(ls, s), ls[s];
    CodeValueExact(ls, s);
    ShlAdd(c, 1, MAXBITS - l);
    ShlOne(MAXBITS - l);
    ShlPow2(l, MAXBITS - l);
    ShlMono(c + 1, Pow2(l), MAXBITS - l);
    ShlMono(Pow2(l), c + 1, MAXBITS - l);
    if c + 1 == Pow2(l) {
      WrapsToZero(l);
    }
  }

  lemma WrapsToZero(l: nat)
    ensures Rev(Pow2(l), l) == 0
  {
    hide Pow2, Low, Shl, Rev;
    RevLow(Pow2(l), l);
    ShlOne(l);
    Join(1, 0, l);
    RevZero(l);
  }

  // ----- The main loop -----

  /** The current table can take the symbol s, and every later one that shares its slot. */
  ghost predicate Ready(ls: seq<nat>, s: nat, root: nat, c: Cursor) {
    && (Short(ls, s, root) ==> c.low == -1)
    && (Long(ls, s, root) ==> Slot(ls, s, root) == c.low && forall r: nat :: Long(ls, r, root) && Slot(ls, r, root) == c.low ==> ls[r] <= root + c.curr)
  }

  function Drop(root: nat, c: Cursor): nat {
    if c.low == -1 then 0 else root
  }

  lemma EntryPlace(t: seq<Entry>, ls: seq<nat>, typ: CodeType, root: nat, i: nat, c: Cursor, s: nat)
    requires Building(t, ls, typ, root, i, c) && Next(ls, s, i) && Ready(ls, s, root, c)
    ensures var drop := Drop(root, c);
            && drop < ls[s] && ls[s] - drop <= c.curr && Shr(CodeBits(ls, s), drop) < Pow2(ls[s] - drop)
            && c.next + Pow2(c.curr) <= |t| && s < MaxCodes(typ)
            && CodeBits(ls, s) < Pow2(ls[s])
  {
    hide Rev, Shr, Pow2, Rank, Slot, CodeValue, Space, RootFilled, SubsFilled, Low;
    var drop := Drop(root, c);
    assert Shr(CodeBits(ls, s), 0) == CodeBits(ls, s) by { ShrZero(CodeBits(ls, s)); }
    if Long(ls, s, root) {
      RevCut(CodeValue(ls, s), ls[s], root);
    }
  }

  lemma ShrZero(x: nat)
    ensures Shr(x, 0) == x
  {
  }

  /** Creates the table entry for the next symbol and increments the code. */
  method EnterSymbol(typ: CodeType, table: array<Entry>, sym: nat, len: nat, huff0: nat, root: nat, c: Cursor,
                     ghost ls: seq<nat>, ghost i: nat) returns (huff: nat)
    requires Building(table[..], ls, typ, root, i, c) && Next(ls, sym, i) && Ready(ls, sym, root, c)
    requires len == ls[sym] && huff0 == CodeBits(ls, sym)
    modifies table
    ensures Building(table[..], ls, typ, root, i + 1, c)
    ensures huff == Rev(CodeValue(ls, sym) + 1, len)
  {
    hide Building, Ready, CodeBits, CodeValue, Pow2, Shr, Low, Rank, Rev, Replicated, Slot, SymbolEntry;
    ghost var t := table[..];
    EntryPlace(t, ls, typ, root, i, c, sym);
    var drop := Drop(root, c);
    var here := SymbolEntry(typ, sym, len - drop);
    Replicate(table, c.next, c.curr, Shr(huff0, drop), len - drop, here);
    EnterEither(t, table[..], ls, typ, root, i, c, sym);
    huff := BackwardsIncrement(huff0, len);
    IncrementIs(ls, typ, root, t, i, c, sym);
  }

  lemma EnterEither(t: seq<Entry>, t': seq<Entry>, ls: seq<nat>, typ: CodeType, root: nat, i: nat, c: Cursor, s: nat)
    requires Building(t, ls, typ, root, i, c) && Next(ls, s, i) && Ready(ls, s, root, c) && s < MaxCodes(typ)
    requires Drop(root, c) < ls[s]
    requires Replicated(t, t', c.next, c.curr, Shr(CodeBits(ls, s), Drop(root, c)), ls[s] - Drop(root, c),
                        SymbolEntry(typ, s, ls[s] - Drop(root, c)))
    ensures Building(t', ls, typ, root, i + 1, c)
  {
    hide Rank, Space, RootFilled, SubsFilled, Replicated, CodeBits, Shr, Slot, SymbolEntry, Pow2;
    if Long(ls, s, root) {
      EnterLong(t, t', ls, typ, root, i, c, s);
    } else {
      ShrZero(CodeBits(ls, s));
      EnterShort(t, t', ls, typ, root, i, c, s);
    }
  }

  lemma IncrementIs(ls: seq<nat>, typ: CodeType, root: nat, t: seq<Entry>, i: nat, c: Cursor, s: nat)
    requires Building(t, ls, typ, root, i, c) && Used(ls, s)
    ensures CodeBits(ls, s) < Pow2(ls[s])
    ensures BackIncr(CodeBits(ls, s), ls[s]) == Rev(CodeValue(ls, s) + 1, ls[s])
  {
    hide Rank, Space, RootFilled, SubsFilled, CodeValue;
    CodeValueFits(ls, s);
    BackIncrRev(CodeValue(ls, s), ls[s]);
  }

  function Enough(typ: CodeType, length: nat): nat {
    match typ
    case CODES => length
    case LENS => ENOUGH_LENS
    case DISTS => ENOUGH_DISTS
  }

  /** Opens the sub-table for the symbol s, if there is space for it. */
  method OpenSubTable(typ: CodeType, table: array<Entry>, count: array<nat>, max: nat, len: nat, huff: nat, root: nat, c0: Cursor,
                      ghost ls: seq<nat>, ghost i: nat, ghost prev: nat, ghost s: nat, ghost first: nat, ghost end: nat)
    returns (ok: bool, c: Cursor, ghost n: nat)
    requires Building(table[..], ls, typ, root, i, c0) && i >= 1 && Next(ls, prev, i - 1) && Next(ls, s, i)
    requires Ready(ls, prev, root, c0) && len == ls[s] && root < len <= max <= MAXBITS && huff == CodeBits(ls, s)
    requires (forall r: nat :: Used(ls, r) ==> ls[r] <= max) && count.Length == MAXBITS + 1 && CountsLeft(count[..], ls, i)
    requires Low(huff, root) != c0.low && Enough(typ, table.Length) <= table.Length
    requires Space(ls) == Pow2(MAXBITS) && Sized(ls, root, c0, first, end) && first <= i
    modifies table
    ensures ok ==> Building(table[..], ls, typ, root, i, c) && Ready(ls, s, root, c) && c.used <= Enough(typ, table.Length)
    ensures !ok ==> c.used > Enough(typ, table.Length)
    ensures Sized(ls, root, c, i, i + n) && c.low != -1 && root + c.curr <= max
  {
    hide Building, CountsLeft, Rank, Pow2, Low, CodeBits, Slot, Rem, Sized, Spans, Prefix, Boundary, Space, Shl;
    var next := c0.next + Pow2(c0.curr);
    SaneOf(table[..], ls, typ, root, i, c0);
    NewSlot(ls, prev, s, i, root, c0, max);
    var curr;
    curr, n := SubTableBits(count, max, root, len, ls, s, i);
    var used := c0.used + Pow2(curr);
    var low := Low(huff, root);
    c := Cursor(low, next, curr, used);
    ok := used <= Enough(typ, table.Length);
    UsedIs(table[..], ls, typ, root, i, c0);
    assert Slot(ls, s, root) == low by { SlotDef(ls, s, root); }
    SizedStep(ls, root, c0, first, end, s, curr, n);
    if ok {
      PrevSlot(ls, prev, root, c0);
      StartSub(table[..], ls, typ, root, i, c0, prev, s, curr);
      ghost var t := table[..][low := Entry(curr, root, next)];
      table[low] := Entry(curr, root, next);
      assert table[..] == t;
      forall r: nat | Long(ls, r, root) && Slot(ls, r, root) == low ensures ls[r] <= root + curr {
        SaneOf(t, ls, typ, root, i, c);
        SlotFits(ls, s, r, root, curr, max);
      }
    }
  }

  /** The code that needs a new sub-table begins a slot, and the codes from it on fill this slot. */
  lemma NewSlot(ls: seq<nat>, prev: nat, s: nat, i: nat, root: nat, c: Cursor, max: nat)
    requires i >= 1 && Next(ls, prev, i - 1) && Next(ls, s, i) && Long(ls, s, root) && Ready(ls, prev, root, c)
    requires Space(ls) == Pow2(MAXBITS) && 1 <= root && ls[s] <= max <= MAXBITS && (forall r: nat :: Used(ls, r) ==> ls[r] <= max)
    requires Low(CodeBits(ls, s), root) != c.low
    ensures Boundary(ls, ls[s], s) == Shl(Prefix(ls, s, root), MAXBITS - root)
    ensures Rem(ls, s, max + 1) >= Pow2(MAXBITS - root)
  {
    hide Rank, Pow2, Low, CodeBits, Rem, Prefix, Boundary, Space, Shl;
    if Long(ls, prev, root) {
      SlotsEqual(ls, prev, s, root);
    }
    SlotStart(ls, prev, s, i - 1, root);
    SlotFull(ls, s, root, max);
  }

  lemma UsedIs(t: seq<Entry>, ls: seq<nat>, typ: CodeType, root: nat, i: nat, c: Cursor)
    requires Building(t, ls, typ, root, i, c)
    ensures c.used == c.next + Pow2(c.curr) && Pow2(root) <= c.used <= |t|
  {
  }

  lemma SaneOf(t: seq<Entry>, ls: seq<nat>, typ: CodeType, root: nat, i: nat, c: Cursor)
    requires Building(t, ls, typ, root, i, c)
    ensures Sane(ls, typ, root)
  {
  }

  lemma SlotDef(ls: seq<nat>, s: nat, root: nat)
    requires Used(ls, s)
    ensures Slot(ls, s, root) == Low(CodeBits(ls, s), root)
  {
  }

  lemma PrevSlot(ls: seq<nat>, prev: nat, root: nat, c: Cursor)
    requires Ready(ls, prev, root, c)
    ensures Long(ls, prev, root) ==> Slot(ls, prev, root) == c.low
  {
  }

  /** Where the loop stands before entering symbol number i. */
  ghost predicate AtSymbol(t: seq<Entry>, count: seq<nat>, work: seq<nat>, ls: seq<nat>, typ: CodeType, root: nat, c: Cursor,
                           i: nat, len: nat, huff: nat) {
    && SortedWork(work, ls) && i < Total(ls) && i < |work| && Next(ls, work[i], i)
    && len == ls[work[i]] && huff == CodeBits(ls, work[i])
    && Building(t, ls, typ, root, i, c) && Ready(ls, work[i], root, c) && CountsLeft(count, ls, i)
  }

  lemma StartSymbols(t: seq<Entry>, count: seq<nat>, work: seq<nat>, ls: seq<nat>, typ: CodeType, root: nat, min: nat)
    requires Sane(ls, typ, root) && SortedWork(work, ls) && Pow2(root) <= |t| && |count| == MAXBITS + 1
    requires forall b :: 1 <= b <= MAXBITS ==> count[b] == CountLen(ls, b, |ls|)
    requires 1 <= min <= root && count[min] != 0 && forall b :: 1 <= b < min ==> count[b] == 0
    ensures AtSymbol(t, count, work, ls, typ, root, Cursor(-1, 0, root, Pow2(root)), 0, min, 0)
  {
    hide Below, Boundary, Rank, CountLen, Space, Low, Shr, Rev, Pow2, Shl, SymbolEntry;
    FirstSymbol(work, ls, min, count);
    var s := work[0];
    forall b | 1 <= b <= MAXBITS ensures count[b] == Left(ls, b, 0) {
      LeftStart(ls, b);
    }
    CodeBitsZero(ls, s);
    NothingEntered(t, ls, typ, root);
  }

  lemma NothingEntered(t: seq<Entry>, ls: seq<nat>, typ: CodeType, root: nat)
    requires Sane(ls, typ, root) && Pow2(root) <= |t|
    ensures Building(t, ls, typ, root, 0, Cursor(-1, 0, root, Pow2(root)))
  {
    hide Rank, Space, Slot, Low, CodeBits, SymbolEntry, Pow2;
    assert forall s: nat :: !Entered(ls, s, 0);
    SubsFilledIntro(t, ls, typ, root, Pow2(root), 0);
  }

  lemma FirstSymbol(work: seq<nat>, ls: seq<nat>, min: nat, count: seq<nat>)
    requires ValidLengths(ls) && SortedWork(work, ls) && |count| == MAXBITS + 1
    requires forall b :: 1 <= b <= MAXBITS ==> count[b] == CountLen(ls, b, |ls|)
    requires 1 <= min <= MAXBITS && count[min] != 0 && forall b :: 1 <= b < min ==> count[b] == 0
    ensures 0 < Total(ls) && 0 < |work| && Next(ls, work[0], 0) && ls[work[0]] == min
  {
    hide Below, Rank, CountLen;
    NoneShorter(ls, min, count);
    BoundaryNextLen(ls, min);
    RankLenMono(ls, min + 1, MAXBITS + 1);
    WorkAt(work, ls, 0);
    var s := work[0];
    RankRange(ls, s);
    if ls[s] < min {
      BoundaryNextLen(ls, ls[s]);
      RankLenMono(ls, ls[s] + 1, min);
    } else if ls[s] > min {
      RankLenMono(ls, min + 1, ls[s]);
    }
  }

  lemma {:induction false} NoneShorter(ls: seq<nat>, b: nat, count: seq<nat>)
    requires 1 <= b <= MAXBITS && |count| == MAXBITS + 1
    requires forall c :: 1 <= c <= MAXBITS ==> count[c] == CountLen(ls, c, |ls|)
    requires forall c :: 1 <= c < b ==> count[c] == 0
    ensures Rank(ls, b, 0) == 0
  {
    hide Below, Rank, CountLen;
    if b == 1 {
      RankStart(ls);
    } else {
      NoneShorter(ls, b - 1, count);
      BoundaryNextLen(ls, b - 1);
    }
  }

  lemma CodeBitsZero(ls: seq<nat>, s: nat)
    requires Next(ls, s, 0)
    ensures CodeBits(ls, s) == 0
  {
    hide Below, Rev, Shr;
    SameRankSameBoundary(ls, 1, 0, ls[s], s, |ls|) by { BelowNone(ls, false, |ls|); }
    BelowNone(ls, true, |ls|);
    ShlAdd(0, 0, MAXBITS - ls[s]);
    Join(0, 0, MAXBITS - ls[s]);
    RevZero(ls[s]);
  }

  lemma CountsAfter(count: seq<nat>, ls: seq<nat>, s: nat, i: nat)
    requires CountsLeft(count, ls, i) && Next(ls, s, i)
    ensures count[ls[s]] >= 1 && CountsLeft(count[ls[s] := count[ls[s]] - 1], ls, i + 1)
  {
    hide Left, Rank;
    LeftStep(ls, s, i, ls[s]);
    var fewer: seq<nat> := count[ls[s] := count[ls[s]] - 1];
    forall b | 1 <= b <= MAXBITS ensures fewer[b] == Left(ls, b, i + 1) {
      LeftStep(ls, s, i, b);
    }
  }

  /** All codes of the largest length are entered: that was the last symbol. */
  lemma LastSymbol(ls: seq<nat>, s: nat, i: nat, max: nat, work: seq<nat>)
    requires Next(ls, s, i) && Left(ls, ls[s], i + 1) == 0 && (forall r: nat :: Used(ls, r) ==> ls[r] <= max) && SortedWork(work, ls)
    requires Used(ls, s) && max <= MAXBITS
    ensures ls[s] == max ==> i + 1 == Total(ls)
    ensures ls[s] < max && (exists r: nat :: Used(ls, r) && ls[r] == max) ==> i + 1 < Total(ls)
  {
    hide Rank;
    RankRange(ls, s);
    LeftStep(ls, s, i, ls[s]);
    RankLenMono(ls, ls[s] + 1, MAXBITS + 1);
    if ls[s] == max && i + 1 < Total(ls) {
      WorkAt(work, ls, i + 1);
      NextLength(ls, s, work[i + 1], i);
    }
    if ls[s] < max && exists r: nat :: Used(ls, r) && ls[r] == max {
      var r: nat :| Used(ls, r) && ls[r] == max;
      RankRange(ls, r);
      RankLenMono(ls, ls[s] + 1, max);
      RankBelow(ls, r);
    }
  }

  lemma MoreSymbols(ls: seq<nat>, s: nat, i: nat)
    requires Next(ls, s, i) && Left(ls, ls[s], i + 1) != 0
    ensures i + 1 < Total(ls)
  {
    hide Rank;
    LeftStep(ls, s, i, ls[s]);
    RankLenMono(ls, ls[s] + 1, MAXBITS + 1);
  }

  /** Processes all codes and makes the table entries. ok is false if the space was not enough. */
  method EnterAll(typ: CodeType, lens: array<nat>, codes: nat, table: array<Entry>, work: array<nat>, count: array<nat>,
                  root: nat, min: nat, max: nat) returns (ok: bool, c: Cursor, huff: nat, len: nat, ghost last: nat)
    requires codes <= lens.Length && count != lens && count != work && count.Length == MAXBITS + 1
    requires Sane(lens[..codes], typ, root) && SortedWork(work[..], lens[..codes])
    requires forall b :: 1 <= b <= MAXBITS ==> count[b] == CountLen(lens[..codes], b, codes)
    requires 1 <= min <= root && count[min] != 0 && forall b :: 1 <= b < min ==> count[b] == 0
    requires root <= max <= MAXBITS && (forall r: nat :: Used(lens[..codes], r) ==> lens[r] <= max)
    requires exists r: nat :: Used(lens[..codes], r) && lens[r] == max
    requires typ == CODES ==> max <= root
    requires max > root ==> Space(lens[..codes]) == Pow2(MAXBITS)
    requires Pow2(root) <= Enough(typ, table.Length) <= table.Length
    modifies table, count
    ensures ok ==> Building(table[..], lens[..codes], typ, root, Total(lens[..codes]), c) && c.used <= Enough(typ, table.Length)
    ensures ok ==> Used(lens[..codes], last) && Rank(lens[..codes], lens[last], last) + 1 == Total(lens[..codes])
    ensures ok ==> len == lens[last] && huff == Rev(CodeValue(lens[..codes], last) + 1, len)
    ensures !ok ==> c.used > Enough(typ, table.Length) && max > root && Bounded(lens[..codes], root, c.used)
  {
    hide Sized, Bounded, Space, AtSymbol, SortedWork, Building, Ready, CountsLeft, Sane, Rank, CountLen, CodeBits, CodeValue, Rev, Low, Pow2, Total;
    ghost var ls: seq<nat> := lens[..codes];
    huff, len, last := 0, min, 0;
    c := Cursor(-1, 0, root, Pow2(root));
    var sym := 0;
    StartSymbols(table[..], count[..], work[..], ls, typ, root, min);
    ghost var first: nat, end: nat := 0, 0;
    SizedStart(ls, root);
    while true
      invariant lens[..codes] == ls
      invariant AtSymbol(table[..], count[..], work[..], ls, typ, root, c, sym, len, huff)
      invariant c.used <= Enough(typ, table.Length)
      invariant Sized(ls, root, c, first, end) && first <= sym
      decreases Total(ls) - sym
    {
      AtFacts(table[..], count[..], work[..], ls, typ, root, c, sym, len, huff);
      var cur := work[sym];
      last := cur;
      ghost var counts: seq<nat> := count[..];
      huff := EnterSymbol(typ, table, cur, len, huff, root, c, ls, sym);
      CountsAfter(counts, ls, cur, sym);
      sym := sym + 1;
      ghost var fewer: seq<nat> := counts[len := count[len] - 1];
      count[len] := count[len] - 1;
      assert count[..] == fewer;
      LeftIs(fewer, ls, sym, len);
      if count[len] == 0 {
        LastSymbol(ls, cur, sym - 1, max, work[..]);
        if len == max {
          ok := true;
          return;
        }
        WorkAt(work[..], ls, sym);
        len := lens[work[sym]];
      } else {
        MoreSymbols(ls, cur, sym - 1);
        WorkAt(work[..], ls, sym);
      }
      NextLength(ls, cur, work[sym], sym - 1);
      NextHuff(ls, cur, work[sym], sym - 1);
      if len > root && Low(huff, root) != c.low {
        ghost var n;
        ok, c, n := OpenSubTable(typ, table, count, max, len, huff, root, c, ls, sym, cur, work[sym], first, end);
        first, end := sym, sym + n;
        if !ok {
          SizedBounded(ls, root, c, first, end);
          return;
        }
      } else {
        SameTable(ls, cur, work[sym], root, c);
      }
      AtIntro(table[..], count[..], work[..], ls, typ, root, c, sym, len, huff);
    }
  }

  lemma AtFacts(t: seq<Entry>, count: seq<nat>, work: seq<nat>, ls: seq<nat>, typ: CodeType, root: nat, c: Cursor, i: nat, len: nat, huff: nat)
    requires AtSymbol(t, count, work, ls, typ, root, c, i, len, huff)
    ensures SortedWork(work, ls) && i < Total(ls) && i < |work| && Next(ls, work[i], i) && work[i] < |ls|
    ensures len == ls[work[i]] && huff == CodeBits(ls, work[i]) && 1 <= len <= MAXBITS
    ensures Building(t, ls, typ, root, i, c) && Ready(ls, work[i], root, c) && CountsLeft(count, ls, i) && |count| == MAXBITS + 1
  {
  }

  lemma AtIntro(t: seq<Entry>, count: seq<nat>, work: seq<nat>, ls: seq<nat>, typ: CodeType, root: nat, c: Cursor, i: nat, len: nat, huff: nat)
    requires SortedWork(work, ls) && i < Total(ls) && i < |work| && Next(ls, work[i], i)
    requires len == ls[work[i]] && huff == CodeBits(ls, work[i])
    requires Building(t, ls, typ, root, i, c) && Ready(ls, work[i], root, c) && CountsLeft(count, ls, i)
    ensures AtSymbol(t, count, work, ls, typ, root, c, i, len, huff)
  {
  }

  lemma LeftIs(count: seq<nat>, ls: seq<nat>, i: nat, b: nat)
    requires CountsLeft(count, ls, i) && 1 <= b <= MAXBITS
    ensures count[b] == Left(ls, b, i)
  {
  }

  /** The next symbol goes on in the same table. */
  lemma SameTable(ls: seq<nat>, s: nat, t: nat, root: nat, c: Cursor)
    requires Used(ls, s) && Used(ls, t) && ls[s] <= ls[t] && Ready(ls, s, root, c)
    requires Long(ls, t, root) ==> Slot(ls, t, root) == c.low
    ensures Ready(ls, t, root, c)
  {
    hide Slot;
  }

  // ----- inflate_table -----

  /** t decodes the code: every bit string that starts with the code of a symbol finds that symbol's entry,
      with exactly its length. */
  ghost predicate Decodes(t: seq<Entry>, ls: seq<nat>, typ: CodeType, root: nat) {
    && |ls| <= MaxCodes(typ) && Pow2(root) <= |t|
    && forall s: nat, hold: nat :: Used(ls, s) && Low(hold, ls[s]) == CodeBits(ls, s) ==> Finds(t, root, hold, SymbolEntry(typ, s, ls[s]))
  }

  ghost predicate Finds(t: seq<Entry>, root: nat, hold: nat, e: Entry)
    requires Pow2(root) <= |t|
  {
    && (IsLink(t[Low(hold, root)]) ==> t[Low(hold, root)].bits == root && t[Low(hold, root)].val + Pow2(t[Low(hold, root)].op) <= |t|)
    && Lookup(t, root, hold) == e
  }

  const INVALID: Entry := Entry(64, 1, 0)

  /** Bits that start no code find the invalid code marker. */
  ghost predicate GapsMarked(t: seq<Entry>, ls: seq<nat>, root: nat) {
    Pow2(root) <= |t| && forall hold: nat :: IsGap(ls, Low(hold, 1)) ==> t[Low(hold, root)] == INVALID
  }

  /** A code that is let through, and a table that answers every bit string as the code says. */
  ghost predicate Usable(t: seq<Entry>, ls: seq<nat>, typ: CodeType, root: nat) {
    Accepted(ls) && Decodes(t, ls, typ, root) && GapsMarked(t, ls, root)
  }

  lemma BuiltDecodes(t: seq<Entry>, ls: seq<nat>, typ: CodeType, root: nat, c: Cursor)
    requires Building(t, ls, typ, root, Total(ls), c)
    ensures Decodes(t, ls, typ, root)
  {
    hide Rank, Space, Low, CodeBits, SymbolEntry, RootFilled, SubsFilled, Lookup, Pow2;
    forall s: nat, hold: nat | Used(ls, s) && Low(hold, ls[s]) == CodeBits(ls, s)
      ensures Finds(t, root, hold, SymbolEntry(typ, s, ls[s]))
    {
      RankBelow(ls, s);
      TablesDecode(t, ls, typ, root, c.used, Total(ls), s, hold);
    }
  }

  lemma CountMember(ls: seq<nat>, s: nat, k: nat)
    requires s < k <= |ls|
    ensures CountLen(ls, ls[s], k) >= 1
  {
    if s < k - 1 {
      CountMember(ls, s, k - 1);
    }
  }

  lemma {:induction false} CountWitness(ls: seq<nat>, b: nat, k: nat) returns (s: nat)
    requires k <= |ls| && CountLen(ls, b, k) >= 1
    ensures s < k && ls[s] == b
  {
    if ls[k - 1] == b {
      s := k - 1;
    } else {
      s := CountWitness(ls, b, k - 1);
    }
  }

  lemma LengthsBound(ls: seq<nat>, count: seq<nat>, max: nat)
    requires ValidLengths(ls) && |count| == MAXBITS + 1 && max <= MAXBITS
    requires forall b :: 0 <= b <= MAXBITS ==> count[b] == CountLen(ls, b, |ls|)
    requires (max >= 1 ==> count[max] != 0) && forall b :: max < b <= MAXBITS ==> count[b] == 0
    ensures forall r: nat :: Used(ls, r) ==> ls[r] <= max
    ensures max >= 1 ==> exists r: nat :: Used(ls, r) && ls[r] == max
    ensures NoCodes(ls) <==> max == 0
    ensures max >= 1 ==> (LoneCode(ls) <==> max == 1)
  {
    hide CountLen;
    forall r: nat | Used(ls, r) ensures ls[r] <= max {
      CountMember(ls, r, |ls|);
    }
    if max >= 1 {
      var r := CountWitness(ls, max, |ls|);
      assert Used(ls, r);
    }
  }

  /** Marks the one unused entry of an incomplete code as invalid. */
  lemma MarkInvalid(t: seq<Entry>, ls: seq<nat>, typ: CodeType, root: nat, c: Cursor, last: nat, huff: nat)
    requires Building(t, ls, typ, root, Total(ls), c) && Space(ls) < Pow2(MAXBITS) && LoneCode(ls) && root == 1
    requires Used(ls, last) && huff == Rev(CodeValue(ls, last) + 1, ls[last])
    requires CodeValue(ls, last) + 1 < Pow2(ls[last])
    ensures huff == 1 && huff < |t| && Decodes(t[huff := Entry(64, 1, 0)], ls, typ, root)
  {
    hide Space, SymbolEntry, Rank, Lookup, CodeBits, Slot;
    assert Pow2(1) == 2 * Pow2(0);
    RevOne(CodeValue(ls, last) + 1);
    var t' := t[huff := Entry(64, 1, 0)];
    forall s: nat, x: nat | Entered(ls, s, Total(ls)) && Short(ls, s, root) && x < Pow2(root) && Low(x, ls[s]) == CodeBits(ls, s)
      ensures t'[x] == SymbolEntry(typ, s, ls[s])
    {
      LoneIsZero(ls, s);
      assert Low(1, 1) == 1 + 2 * Low(0, 0);
    }
    SubsFilledIntro(t', ls, typ, root, c.used, Total(ls));
    forall s: nat, hold: nat | Used(ls, s) && Low(hold, ls[s]) == CodeBits(ls, s)
      ensures Finds(t', root, hold, SymbolEntry(typ, s, ls[s]))
    {
      RankBelow(ls, s);
      TablesDecode(t', ls, typ, root, c.used, Total(ls), s, hold);
    }
  }

  method InflateTable(typ: CodeType, lens: array<nat>, codes: nat, table: array<Entry>, bits: nat, work: array<nat>)
    returns (ret: int, root: nat, used: nat)
    requires codes <= lens.Length && codes <= MaxCodes(typ) && codes <= work.Length && work != lens
    requires ValidLengths(lens[..codes]) && 1 <= bits <= MAXBITS
    requires 2 <= table.Length && Enough(typ, table.Length) <= table.Length
    requires typ == CODES ==> Pow2(bits) <= table.Length && forall s :: 0 <= s < codes ==> lens[s] <= bits
    modifies table, work
    ensures lens[..codes] == old(lens[..codes])
    ensures ret == 0 || ret == -1 || ret == 1
    // no symbols at all: a table that forces an error
    ensures NoCodes(lens[..codes]) ==> ret == 0 && root == 1 && used == 2 && table[0] == table[1] == Entry(64, 1, 0)
    // over-subscribed and incomplete codes are refused, except a lone code of one bit
    ensures !NoCodes(lens[..codes]) ==>
      (ret == -1 <==> Space(lens[..codes]) > Pow2(MAXBITS) ||
                      (Space(lens[..codes]) < Pow2(MAXBITS) && (typ == CODES || !LoneCode(lens[..codes]))))
    ensures ret == 1 ==> typ != CODES && used > Enough(typ, table.Length)
    ensures (forall s :: 0 <= s < codes ==> lens[s] <= bits) && Pow2(bits) <= Enough(typ, table.Length) ==> ret != 1
    // and inflate.c allots enough space for every set of lengths
    ensures Standard(typ, codes, bits) ==> ret != 1
    // otherwise the table decodes the code, and marks what starts no code as invalid
    ensures ret == 0 ==> 1 <= root <= MAXBITS && Usable(table[..], lens[..codes], typ, root) && used <= Enough(typ, table.Length)
  {
    hide Usable, Decodes, Bounded, Space, CountLen, Building, SortedWork, Sane, Pow2, Rank, CodeValue, Rev, Total, NoCodes, LoneCode;
    ghost var ls: seq<nat> := lens[..codes];
    var count := CountLengths(lens, codes);
    root := bits;
    var max := MaxLength(count);
    LengthsBound(ls, count[..], max);
    if root > max {
      root := max;
    }
    if max == 0 {
      table[0] := Entry(64, 1, 0);
      table[1] := Entry(64, 1, 0);
      UsableNone(table[..], ls, typ);
      return 0, 1, 2;
    }
    var min := MinLength(count, max);
    if root < min {
      root := min;
    }
    var left := CheckSpace(count, ls);
    if left < 0 {
      return -1, root, 0;
    }
    if left > 0 && (typ == CODES || max != 1) {
      return -1, root, 0;
    }
    if left == 0 && Standard(typ, codes, bits) {
      MinSmall(ls, typ, bits, count[..], min);
    }
    if Standard(typ, codes, bits) {
      RootFits(root, bits, typ, table.Length);
    }
    SortSymbols(lens, codes, count, work);
    SortedIntro(work[..], ls);
    SaneIntro(ls, typ, root);
    used := Pow2(root);
    if root <= bits {
      Pow2Mono(root, bits);
    }
    if typ != CODES && used > Enough(typ, table.Length) {
      return 1, root, used;
    }
    RootSmall(root, bits, typ, table.Length);
    var ok, c, huff, len;
    ghost var last;
    ok, c, huff, len, last := EnterAll(typ, lens, codes, table, work, count, root, min, max);
    used := c.used;
    if !ok {
      if Standard(typ, codes, bits) {
        ghost var r: nat :| Used(ls, r) && lens[r] == max;
        EnoughSpace(ls, typ, bits, used, r);
      }
      return 1, root, used;
    }
    LastHuff(ls, last);
    BuiltDecodes(table[..], ls, typ, root, c);
    if Space(ls) < Pow2(MAXBITS) {
      MarkInvalid(table[..], ls, typ, root, c, last, huff);
    }
    if huff != 0 {
      ghost var t := table[..][1 := Entry(64, 1, 0)];
      table[huff] := Entry(64, len, 0);
      assert table[..] == t;
    }
    if Space(ls) < Pow2(MAXBITS) {
      UsableLone(table[..], ls, typ, last);
    } else {
      UsableComplete(table[..], ls, typ, root);
    }
    ret := 0;
  }

  lemma UsableComplete(t: seq<Entry>, ls: seq<nat>, typ: CodeType, root: nat)
    requires ValidLengths(ls) && Space(ls) == Pow2(MAXBITS) && Decodes(t, ls, typ, root)
    ensures Usable(t, ls, typ, root)
  {
    hide Space, Finds, SymbolEntry, Low, CodeBits;
    forall hold: nat ensures !IsGap(ls, Low(hold, 1)) {
      NoGap(ls, Low(hold, 1));
    }
  }

  lemma UsableLone(t: seq<Entry>, ls: seq<nat>, typ: CodeType, last: nat)
    requires ValidLengths(ls) && Space(ls) < Pow2(MAXBITS) && LoneCode(ls) && Used(ls, last) && Decodes(t, ls, typ, 1)
    requires |t| >= 2 && t[1] == INVALID
    ensures Usable(t, ls, typ, 1)
  {
    hide Space, Finds, SymbolEntry, Low, CodeBits;
    LoneIsZero(ls, last);
    forall hold: nat | IsGap(ls, Low(hold, 1)) ensures t[Low(hold, 1)] == INVALID {
      BitOf(hold);
    }
  }

  lemma UsableNone(t: seq<Entry>, ls: seq<nat>, typ: CodeType)
    requires ValidLengths(ls) && NoCodes(ls) && |ls| <= MaxCodes(typ) && |t| >= 2 && t[0] == t[1] == INVALID
    ensures Usable(t, ls, typ, 1)
  {
    EmptySpace(ls, |ls|);
    hide Below, Finds, SymbolEntry, Low, CodeBits;
    assert Pow2(1) == 2 * Pow2(0);
    forall hold: nat ensures Low(hold, 1) < 2 {
      BitOf(hold);
    }
  }

  lemma {:induction false} EmptySpace(ls: seq<nat>, k: nat)
    requires ValidLengths(ls) && NoCodes(ls) && k <= |ls|
    ensures Below(ls, true, MAXBITS + 1, 0, k) == 0
  {
    if k != 0 {
      EmptySpace(ls, k - 1);
      assert !Used(ls, k - 1);
    }
  }

  /** Some code fits in the root table. */
  lemma MinSmall(ls: seq<nat>, typ: CodeType, bits: nat, count: seq<nat>, min: nat)
    requires Standard(typ, |ls|, bits) && Space(ls) == Pow2(MAXBITS) && |count| == MAXBITS + 1
    requires forall b :: 0 <= b <= MAXBITS ==> count[b] == CountLen(ls, b, |ls|)
    requires forall b :: 1 <= b < min ==> b <= MAXBITS && count[b] == 0
    ensures min <= bits
  {
    hide Below, CountLen, Space;
    ShortCodes(ls, typ, bits);
    var s := FindCode(ls, false, bits + 1, 0);
    CountMember(ls, s, |ls|);
  }

  lemma RootFits(root: nat, bits: nat, typ: CodeType, length: nat)
    requires Standard(typ, 0, bits) && root <= bits
    ensures Pow2(root) <= Enough(typ, length)
  {
    Powers();
    Pow2Mono(root, bits);
  }

  lemma SortedIntro(work: seq<nat>, ls: seq<nat>)
    requires forall s: nat :: Used(ls, s) ==> Rank(ls, ls[s], s) < |work|
    requires forall s: nat :: Used(ls, s) ==> work[Rank(ls, ls[s], s)] == s
    ensures SortedWork(work, ls)
  {
  }

  lemma SaneIntro(ls: seq<nat>, typ: CodeType, root: nat)
    requires ValidLengths(ls) && Space(ls) <= Pow2(MAXBITS) && |ls| <= MaxCodes(typ) && 1 <= root <= MAXBITS
    ensures Sane(ls, typ, root)
  {
  }

  lemma RootSmall(root: nat, bits: nat, typ: CodeType, length: nat)
    requires typ == CODES ==> root <= bits && Pow2(bits) <= length
    ensures typ == CODES ==> Pow2(root) <= length
  {
    if typ == CODES {
      Pow2Mono(root, bits);
    }
  }
}
