/** The CODELENS state of inflate.c: reading the run-length coded code lengths, from any input. */
module InflateLens {
  import opened Sums
  import opened BitStreams
  import opened BitReader
  import opened CanonicalCode
  import opened DecodeTable
  import opened InfTrees
  import opened CodeSymbols
  import opened InflateSymbols
  import opened InflateItems
  import opened InflateBlock
  import opened CodeRuns
  import opened CodeItems

  // ----- What the bits spell -----

  ghost predicate RunOk(bl: seq<nat>, run: Run) {
    ValidRun(run) && Used(bl, Symbol(run))
  }

  ghost predicate RunsOk(bl: seq<nat>, runs: seq<Run>) {
    forall i :: 0 <= i < |runs| ==> RunOk(bl, runs[i])
  }

  ghost function RunSpelled(bl: seq<nat>, run: Run, rest: BitString): BitString
    requires RunOk(bl, run)
  {
    Cat(BitsOf(bl, Found(Symbol(run))), Cat(RunExtra(run), rest))
  }

  ghost function RunsSpelled(bl: seq<nat>, runs: seq<Run>, rest: BitString): BitString
    requires RunsOk(bl, runs)
  {
    if runs == [] then rest else RunsSpelled(bl, runs[..|runs| - 1], RunSpelled(bl, runs[|runs| - 1], rest))
  }

  /** The bits spell runs that give total lengths. */
  ghost predicate LensReads(bl: seq<nat>, total: nat, all: BitString, runs: seq<Run>, rest: BitString, lens: seq<nat>) {
    RunsOk(bl, runs) && all == RunsSpelled(bl, runs, rest) && Expand([], runs, total) == Lengths(lens) && |lens| == total
  }

  ghost predicate NoLens(bl: seq<nat>, total: nat, all: BitString) {
    forall runs: seq<Run>, rest: BitString, lens: seq<nat> :: !LensReads(bl, total, all, runs, rest, lens)
  }

  /** How many bits the repeat count has. */
  function ExtraSize(sym: nat): nat {
    if sym < 16 then 0 else if sym == 16 then 2 else if sym == 17 then 3 else 7
  }

  /** The run that a symbol and its repeat count stand for. */
  function RunFor(sym: nat, v: nat): Run {
    if sym < 16 then Len(sym) else if sym == 16 then Repeat(3 + v) else if sym == 17 then Zeros(3 + v) else Zeros(11 + v)
  }

  lemma RunParts(run: Run)
    requires ValidRun(run)
    ensures Symbol(run) < 19 && RunExtra(run).n == ExtraSize(Symbol(run)) && RunExtra(run).v < Pow2(RunExtra(run).n)
    ensures RunFor(Symbol(run), RunExtra(run).v) == run
  {
    RunExtraProper(run);
  }

  lemma RunForParts(sym: nat, v: nat)
    requires sym < 19 && v < Pow2(ExtraSize(sym))
    ensures ValidRun(RunFor(sym, v)) && Symbol(RunFor(sym, v)) == sym && RunExtra(RunFor(sym, v)) == BitString(v, ExtraSize(sym))
  {
    assert Pow2(0) == 1 && Pow2(2) == 4 && Pow2(3) == 8;
    assert Pow2(5) == 32;
    assert Pow2(7) == 128;
  }

  lemma RunUnique(bl: seq<nat>, run: Run, rest: BitString, other: Run, rest': BitString)
    requires Accepted(bl) && RunOk(bl, run) && RunOk(bl, other) && RunSpelled(bl, run, rest) == RunSpelled(bl, other, rest')
    ensures run == other && rest == rest'
  {
    hide Accepted, BitsOf, Cat, Pow2, Symbol, RunExtra, ValidRun, RunFor, ExtraSize;
    RunParts(run);
    RunParts(other);
    SymUnique(bl, Found(Symbol(run)), Cat(RunExtra(run), rest), Found(Symbol(other)), Cat(RunExtra(other), rest'));
    NumberUnique(RunExtra(run).v, RunExtra(other).v, RunExtra(run).n, rest, rest');
  }

  lemma {:induction false} FirstRun(bl: seq<nat>, runs: seq<Run>, rest: BitString)
    requires RunsOk(bl, runs) && runs != []
    ensures RunsSpelled(bl, runs, rest) == RunSpelled(bl, runs[0], RunsSpelled(bl, runs[1..], rest))
    decreases |runs|
  {
    hide RunSpelled, RunOk;
    var n := |runs| - 1;
    if n > 0 {
      FirstRun(bl, runs[..n], RunSpelled(bl, runs[n], rest));
      assert runs[..n][1..] == runs[1..][..n - 1];
    } else {
      assert runs[..0] == [] && runs[1..] == [];
    }
  }

  lemma MoreRuns(bl: seq<nat>, runs: seq<Run>, run: Run, rest: BitString)
    requires RunsOk(bl, runs) && RunOk(bl, run)
    ensures RunsOk(bl, runs + [run]) && RunsSpelled(bl, runs + [run], rest) == RunsSpelled(bl, runs, RunSpelled(bl, run, rest))
  {
    assert (runs + [run])[..|runs|] == runs;
  }

  // ----- The expansion -----

  /** A run adds lengths. */
  lemma ApplyGrows(have: seq<nat>, run: Run, total: nat)
    requires ValidRun(run) && Apply(have, run, total).Lengths?
    ensures |Apply(have, run, total).lens| > |have|
    ensures |have| < total ==> |Apply(have, run, total).lens| <= total
  {
  }

  lemma ExpandMore(runs: seq<Run>, run: Run, total: nat, have: seq<nat>)
    requires Expand([], runs, total) == Lengths(have)
    ensures Expand([], runs + [run], total) == Apply(have, run, total)
  {
    assert (runs + [run])[..|runs|] == runs;
  }

  lemma {:induction false} ExpandPrefix(runs: seq<Run>, k: nat, total: nat, lens: seq<nat>)
    requires k <= |runs| && Expand([], runs, total) == Lengths(lens) && forall i :: 0 <= i < |runs| ==> ValidRun(runs[i])
    ensures Expand([], runs[..k], total).Lengths? && |Expand([], runs[..k], total).lens| + (|runs| - k) <= |lens|
    decreases |runs|
  {
    hide Apply, ValidRun;
    if k == |runs| {
      assert runs[..k] == runs;
    } else {
      var n := |runs| - 1;
      ApplyGrows(Expand([], runs[..n], total).lens, runs[n], total);
      ExpandPrefix(runs[..n], k, total, Expand([], runs[..n], total).lens);
      assert runs[..n][..k] == runs[..k];
    }
  }

  lemma RunsValidRuns(bl: seq<nat>, runs: seq<Run>)
    requires RunsOk(bl, runs)
    ensures forall i :: 0 <= i < |runs| ==> ValidRun(runs[i])
  {
    forall i | 0 <= i < |runs| ensures ValidRun(runs[i]) {
      assert RunOk(bl, runs[i]);
    }
  }

  /** Runs that do not give all lengths yet are the first of those that do. */
  lemma {:induction false} RunsPrefix(bl: seq<nat>, total: nat, done: seq<Run>, mid: BitString, have: seq<nat>, runs: seq<Run>, rest: BitString, lens: seq<nat>)
    requires Accepted(bl) && RunsOk(bl, done) && Expand([], done, total) == Lengths(have) && |have| < total
    requires LensReads(bl, total, RunsSpelled(bl, done, mid), runs, rest, lens)
    ensures |done| < |runs| && done == runs[..|done|] && mid == RunsSpelled(bl, runs[|done|..], rest)
    decreases |done|
  {
    hide Accepted, RunOk, RunSpelled, Apply, RunsSpelled;
    RunsValidRuns(bl, done);
    RunsValidRuns(bl, runs);
    var n := |done| - 1;
    if n < 0 {
      assert runs[0..] == runs;
      NoneSpelled(bl, done, mid);
    } else {
      var last := done[n];
      ExpandPrefix(done, n, total, have);
      LastSpelled(bl, done, mid);
      RunsPrefix(bl, total, done[..n], RunSpelled(bl, last, mid), Expand([], done[..n], total).lens, runs, rest, lens);
      FirstRun(bl, runs[n..], rest);
      RunUnique(bl, last, mid, runs[n], RunsSpelled(bl, runs[n..][1..], rest));
      assert runs[n..][1..] == runs[n + 1..] && done == done[..n] + [last];
    }
  }

  lemma NoneSpelled(bl: seq<nat>, runs: seq<Run>, rest: BitString)
    requires runs == []
    ensures RunsOk(bl, runs) && RunsSpelled(bl, runs, rest) == rest
  {
  }

  lemma LastSpelled(bl: seq<nat>, runs: seq<Run>, rest: BitString)
    requires RunsOk(bl, runs) && runs != []
    ensures RunsSpelled(bl, runs, rest) == RunsSpelled(bl, runs[..|runs| - 1], RunSpelled(bl, runs[|runs| - 1], rest))
  {
  }

  /** The lengths are spelled in one way only. */
  lemma LensUnique(bl: seq<nat>, total: nat, all: BitString, runs: seq<Run>, rest: BitString, lens: seq<nat>, runs': seq<Run>, rest': BitString, lens': seq<nat>)
    requires Accepted(bl) && total > 0 && LensReads(bl, total, all, runs, rest, lens) && LensReads(bl, total, all, runs', rest', lens')
    ensures runs == runs' && rest == rest' && lens == lens'
  {
    hide Accepted, RunOk, RunSpelled, Apply, RunsSpelled;
    RunsValidRuns(bl, runs);
    RunsValidRuns(bl, runs');
    var n := |runs| - 1;
    ExpandPrefix(runs, n, total, lens);
    LastSpelled(bl, runs, rest);
    RunsPrefix(bl, total, runs[..n], RunSpelled(bl, runs[n], rest), Expand([], runs[..n], total).lens, runs', rest', lens');
    FirstRun(bl, runs'[n..], rest');
    RunUnique(bl, runs[n], rest, runs'[n], RunsSpelled(bl, runs'[n..][1..], rest'));
    assert runs == runs[..n] + [runs[n]] && runs'[..n + 1] == runs'[..n] + [runs'[n]];
    ExpandPrefix(runs', n + 1, total, lens');
    assert runs'[..n + 1] == runs' && runs'[n..][1..] == [];
    NoneSpelled(bl, runs'[n..][1..], rest');
  }

  // ----- Reading -----

  /** No run that comes next is without an error. */
  ghost predicate NoRun(bl: seq<nat>, total: nat, have: seq<nat>, all: BitString) {
    forall run: Run, rest: BitString :: RunOk(bl, run) && all == RunSpelled(bl, run, rest) ==> Apply(have, run, total) == BadRepeat
  }

  lemma NoRunHead(bl: seq<nat>, total: nat, have: seq<nat>, all: BitString)
    requires NoSym(bl, all)
    ensures NoRun(bl, total, have, all)
  {
    hide BitsOf, Cat;
    forall run: Run, rest: BitString | RunOk(bl, run) ensures all != RunSpelled(bl, run, rest) {
      assert SymOk(bl, Found(Symbol(run)));
    }
  }

  lemma NoRunExtra(bl: seq<nat>, total: nat, have: seq<nat>, sym: nat, after: BitString)
    requires Accepted(bl) && Used(bl, sym) && after.n < ExtraSize(sym)
    ensures NoRun(bl, total, have, Cat(BitsOf(bl, Found(sym)), after))
  {
    hide BitsOf, Cat, Accepted, Symbol, RunExtra, ValidRun, ExtraSize;
    forall run: Run, rest: BitString | RunOk(bl, run) ensures Cat(BitsOf(bl, Found(sym)), after) != RunSpelled(bl, run, rest) {
      if Cat(BitsOf(bl, Found(sym)), after) == RunSpelled(bl, run, rest) {
        SymUnique(bl, Found(sym), after, Found(Symbol(run)), Cat(RunExtra(run), rest));
        RunParts(run);
        CatSize(RunExtra(run), rest);
      }
    }
  }

  lemma OnlyRun(bl: seq<nat>, total: nat, have: seq<nat>, run: Run, rest: BitString)
    requires Accepted(bl) && RunOk(bl, run) && Apply(have, run, total) == BadRepeat
    ensures NoRun(bl, total, have, RunSpelled(bl, run, rest))
  {
    hide RunSpelled, Accepted, RunOk, Apply;
    forall other: Run, rest': BitString | RunOk(bl, other) && RunSpelled(bl, run, rest) == RunSpelled(bl, other, rest')
      ensures Apply(have, other, total) == BadRepeat
    {
      RunUnique(bl, run, rest, other, rest');
    }
  }

  /** Writes copies of a length behind the others. */
  method Spread(lens: array<nat>, have0: nat, len: nat, copy0: nat) returns (have: nat)
    requires have0 + copy0 <= lens.Length
    modifies lens
    ensures have == have0 + copy0 && lens[..have] == old(lens[..have0]) + Copies(len, copy0)
    ensures lens[have..] == old(lens[have0 + copy0..])
  {
    have := have0;
    var copy := copy0;
    while copy != 0
      invariant 0 <= copy <= copy0 && have == have0 + (copy0 - copy)
      invariant lens[..have] == old(lens[..have0]) + Copies(len, copy0 - copy)
      invariant lens[have..] == old(lens[..])[have..]
      decreases copy
    {
      lens[have] := len;
      have := have + 1;
      copy := copy - 1;
    }
  }

  /** The symbol's entry: value and no operation. */
  lemma CodeEntry(bl: seq<nat>, sym: Sym)
    requires SymOk(bl, sym) && |bl| <= 19
    ensures sym.Found? ==> sym.s < 19 && EntryOf(CODES, bl, sym).val == sym.s
    ensures sym.Gap? ==> EntryOf(CODES, bl, sym).val == 0
  {
  }

  /** One symbol of CODELENS with its repeat count. A gap, which only a code without any codes has, reads as
      the length zero. */
  method DecodeRun(br: Reader, table: seq<Entry>, root: nat, ghost bl: seq<nat>, lens: array<nat>, have0: nat, total: nat)
    returns (mode: Mode, have: nat, ghost run: Run)
    requires br.Valid() && Usable(table, bl, CODES, root) && |bl| == 19 && have0 < total <= lens.Length
    modifies br, lens
    ensures br.Valid() && br.Consumed() >= old(br.Consumed()) && (mode == LEN || mode == BAD || mode == NoInput) && lens[total..] == old(lens[total..])
    ensures have0 <= have <= total && (mode == LEN ==> have0 < have && (old(br.bits) < 8 ==> br.bits < 8))
    ensures mode == LEN && !NoCodes(bl) && Space(bl) == Pow2(MAXBITS) ==>
      RunOk(bl, run) && old(br.Rest()) == RunSpelled(bl, run, br.Rest()) && Lengths(lens[..have]) == old(Apply(lens[..have0], run, total))
    ensures NoCodes(bl) ==> mode != BAD && (mode == LEN ==> have == have0 + 1 && lens[..have] == old(lens[..have0]) + [0])
    ensures mode != LEN ==> NoRun(bl, total, old(lens[..have0]), old(br.Rest()))
  {
    hide Usable, Cat, BitsOf, EntryOf, Pow2, OfBytes, Space, Accepted, NoSym, NoRun, RunOk, DropFirst, IsGap, ValidLengths;
    ghost var all, was := br.Rest(), lens[..have0];
    run, have := Len(0), have0;
    TableSize(table, bl, CODES, root);
    var ok, here;
    ghost var sym;
    ok, here, sym := DecodeSymbol(br, table, root, CODES, bl);
    if !ok {
      NoRunHead(bl, total, was, all);
      return NoInput, have, run;
    }
    CodeEntry(bl, sym);
    ghost var after := br.Rest();
    if here.val < 16 {
      lens[have0] := here.val;
      have := have0 + 1;
      mode := LEN;
      if sym.Found? {
        run := RunFor(sym.s, 0);
        ZeroBits();
        CatEmpty(br.Rest());
        RunIs(bl, sym.s, 0, br.Rest());
      } else {
        GapCode(bl, sym);
      }
      return;
    }
    var n := if here.val == 16 then 2 else if here.val == 17 then 3 else 7;
    var v;
    ok, v := br.TakeBits(n);
    if !ok {
      NoRunExtra(bl, total, was, sym.s, after);
      return NoInput, have, run;
    }
    run := RunFor(sym.s, v);
    RunIs(bl, sym.s, v, br.Rest());
    var len, copy := 0, (if here.val == 18 then 11 else 3) + v;
    if here.val == 16 {
      if have0 == 0 {
        OnlyRun(bl, total, was, run, br.Rest());
        return BAD, have, run;
      }
      len := lens[have0 - 1];
    }
    if have0 + copy > total {
      OnlyRun(bl, total, was, run, br.Rest());
      return BAD, have, run;
    }
    have := Spread(lens, have0, len, copy);
    mode := LEN;
  }

  lemma ZeroBits()
    ensures Pow2(0) == 1
  {
  }

  /** A gap means that there are no codes of more than one bit; in a complete code there is none. */
  lemma GapCode(bl: seq<nat>, sym: Sym)
    requires SymOk(bl, sym) && sym.Gap? && ValidLengths(bl)
    ensures Space(bl) != Pow2(MAXBITS)
  {
    if Space(bl) == Pow2(MAXBITS) {
      NoGap(bl, sym.bit);
    }
  }

  lemma RunIs(bl: seq<nat>, sym: nat, v: nat, rest: BitString)
    requires sym < 19 && Used(bl, sym) && v < Pow2(ExtraSize(sym))
    ensures var run := RunFor(sym, v);
      RunOk(bl, run) && RunSpelled(bl, run, rest) == Cat(BitsOf(bl, Found(sym)), Cat(BitString(v, ExtraSize(sym)), rest))
  {
    hide Cat, BitsOf;
    RunForParts(sym, v);
  }

  /** No way to go on from here means no way to read all lengths. */
  lemma NoneFrom(bl: seq<nat>, total: nat, done: seq<Run>, have: seq<nat>, all: BitString, mid: BitString)
    requires Accepted(bl) && RunsOk(bl, done) && Expand([], done, total) == Lengths(have) && |have| < total
    requires all == RunsSpelled(bl, done, mid) && NoRun(bl, total, have, mid)
    ensures NoLens(bl, total, all)
  {
    hide Accepted, RunOk, RunSpelled, Apply, RunsSpelled;
    forall runs: seq<Run>, rest: BitString, lens: seq<nat> | LensReads(bl, total, all, runs, rest, lens)
      ensures false
    {
      RunsValidRuns(bl, runs);
      RunsPrefix(bl, total, done, mid, have, runs, rest, lens);
      FirstRun(bl, runs[|done|..], rest);
      ExpandPrefix(runs, |done| + 1, total, lens);
      assert runs[..|done| + 1] == done + [runs[|done|]];
      ExpandMore(done, runs[|done|], total, have);
    }
  }

  lemma NoCodesNoLens(bl: seq<nat>, total: nat, all: BitString)
    requires NoCodes(bl) && total > 0
    ensures NoLens(bl, total, all)
  {
    forall runs: seq<Run>, rest: BitString, lens: seq<nat> | LensReads(bl, total, all, runs, rest, lens)
      ensures false
    {
      HasCodes(bl, total, all, runs, rest, lens);
    }
  }

  lemma HasCodes(bl: seq<nat>, total: nat, all: BitString, runs: seq<Run>, rest: BitString, lens: seq<nat>)
    requires LensReads(bl, total, all, runs, rest, lens) && total > 0
    ensures !NoCodes(bl)
  {
    assert RunOk(bl, runs[0]);
  }

  /** CODELENS: the lengths of both trees as one sequence. It succeeds exactly if the bits spell them; with no
      codes at all, every bit reads as a length of zero. */
  method DecodeLens(br: Reader, table: seq<Entry>, root: nat, ghost bl: seq<nat>, lens: array<nat>, total: nat) returns (mode: Mode, ghost runs: seq<Run>)
    requires br.Valid() && br.bits < 8 && Usable(table, bl, CODES, root) && |bl| == 19 && 0 < total <= lens.Length
    requires Space(bl) == Pow2(MAXBITS) || NoCodes(bl)
    modifies br, lens
    ensures br.Valid() && br.Consumed() >= old(br.Consumed()) && (mode == LEN || mode == BAD || mode == NoInput) && lens[total..] == old(lens[total..])
    ensures mode == LEN ==> br.bits < 8
    ensures mode == LEN && !NoCodes(bl) ==> LensReads(bl, total, old(br.Rest()), runs, br.Rest(), lens[..total])
    ensures mode == LEN && NoCodes(bl) ==> forall i :: 0 <= i < total ==> lens[i] == 0
    ensures mode != LEN || NoCodes(bl) ==> NoLens(bl, total, old(br.Rest()))
  {
    hide Usable, Cat, Pow2, OfBytes, Space, NoCodes, RunsOk, RunsSpelled, Expand, Apply, RunSpelled, RunOk, NoRun, NoLens, Accepted;
    TableSize(table, bl, CODES, root);
    var have: nat := 0;
    mode, runs := LEN, [];
    ghost var all := br.Rest();
    NoneSpelled(bl, runs, all);
    NoneExpanded(total);
    if NoCodes(bl) {
      NoCodesNoLens(bl, total, all);
    }
    while have < total && mode == LEN
      invariant have <= total && br.Valid() && br.Consumed() >= old(br.Consumed()) && (mode == LEN ==> br.bits < 8) && lens[total..] == old(lens[total..])
      invariant mode == LEN || mode == BAD || mode == NoInput
      invariant mode == LEN && !NoCodes(bl) ==>
        RunsOk(bl, runs) && all == RunsSpelled(bl, runs, br.Rest()) && Expand([], runs, total) == Lengths(lens[..have])
      invariant mode == LEN && NoCodes(bl) ==> forall i :: 0 <= i < have ==> lens[i] == 0
      invariant mode != LEN || NoCodes(bl) ==> NoLens(bl, total, all)
      decreases total - have, mode == LEN
    {
      ghost var was, mid, zeros := lens[..have], br.Rest(), have;
      ghost var run;
      mode, have, run := DecodeRun(br, table, root, bl, lens, have, total);
      if mode == LEN {
        if NoCodes(bl) {
          ZerosOn(lens[..have], was);
        } else {
          MoreRuns(bl, runs, run, br.Rest());
          ExpandMore(runs, run, total, was);
          runs := runs + [run];
        }
      } else if !NoCodes(bl) {
        NoneFrom(bl, total, runs, was, all, mid);
      }
    }
  }

  lemma ZerosOn(now: seq<nat>, was: seq<nat>)
    requires now == was + [0] && forall i :: 0 <= i < |was| ==> was[i] == 0
    ensures forall i :: 0 <= i < |now| ==> now[i] == 0
  {
  }

  lemma NoneExpanded(total: nat)
    ensures Expand([], [], total) == Lengths([])
  {
  }
}
