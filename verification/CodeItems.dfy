/** What is sent for symbols, runs and tokens, as bits. */
module CodeItems {
  import opened Sums
  import opened Blocks
  import opened BitStreams
  import opened BitWriter
  import opened CanonicalCode
  import opened CodeRuns
  import opened TreeSender

  /** The Code and Len fields of a tree. */
  datatype Code = Code(codes: seq<nat>, lens: seq<nat>)

  /** A complete canonical code. */
  ghost predicate CodeOk(c: Code) {
    && ValidLengths(c.lens) && Space(c.lens) == Pow2(MAXBITS) && |c.codes| >= |c.lens|
    && forall s :: 0 <= s < |c.lens| && c.lens[s] > 0 ==> c.codes[s] == CodeBits(c.lens, s)
  }

  /** The symbol has a code. */
  predicate Coded(c: Code, s: nat) {
    s < |c.lens| && s < |c.codes| && c.lens[s] > 0
  }

  function SymBits(c: Code, s: nat): BitString
    requires Coded(c, s)
  {
    BitString(c.codes[s], c.lens[s])
  }

  lemma SymProper(c: Code, s: nat)
    requires CodeOk(c) && Coded(c, s)
    ensures Proper(SymBits(c, s)) && 1 <= c.lens[s] <= MAXBITS && SymBits(c, s) == BitString(CodeBits(c.lens, s), c.lens[s])
  {
    hide Space, CodeValue;
  }

  /** The repeat count of a run. */
  function RunExtra(r: Run): BitString
    requires ValidRun(r)
  {
    match r
    case Len(_) => Empty
    case Repeat(count) => BitString(count - 3, 2)
    case Zeros(count) => if count <= 10 then BitString(count - 3, 3) else BitString(count - 11, 7)
  }

  lemma RunExtraProper(r: Run)
    requires ValidRun(r)
    ensures Proper(RunExtra(r))
  {
    assert Pow2(0) == 1;
    assert Pow2(2) == 4;
    assert Pow2(3) == 8;
    assert Pow2(7) == 128;
  }

  predicate SendableRun(c: Code, r: Run) {
    ValidRun(r) && Coded(c, Symbol(r))
  }

  predicate Sendable(c: Code, runs: seq<Run>) {
    forall i :: 0 <= i < |runs| ==> SendableRun(c, runs[i])
  }

  function RunBits(c: Code, r: Run): BitString
    requires SendableRun(c, r)
  {
    Cat(SymBits(c, Symbol(r)), RunExtra(r))
  }

  function RunsBits(c: Code, runs: seq<Run>): BitString
    requires Sendable(c, runs)
  {
    if runs == [] then Empty else Cat(RunsBits(c, runs[..|runs| - 1]), RunBits(c, runs[|runs| - 1]))
  }

  lemma {:induction false} RunsBitsJoin(c: Code, a: seq<Run>, b: seq<Run>)
    requires Sendable(c, a) && Sendable(c, b)
    ensures Sendable(c, a + b) && RunsBits(c, a + b) == Cat(RunsBits(c, a), RunsBits(c, b))
    decreases |b|
  {
    hide Cat, RunBits, SendableRun;
    if b == [] {
      assert a + b == a;
      CatEmpty(RunsBits(c, a));
    } else {
      var n := |b| - 1;
      assert (a + b)[..|a + b| - 1] == a + b[..n];
      RunsBitsJoin(c, a, b[..n]);
      CatAssoc(RunsBits(c, a), RunsBits(c, b[..n]), RunBits(c, b[n]));
    }
  }

  lemma RunsBitsOne(c: Code, r: Run)
    requires SendableRun(c, r)
    ensures RunsBits(c, [r]) == RunBits(c, r)
  {
    hide Cat;
    assert [r][..0] == [];
    CatEmpty(RunBits(c, r));
  }

  /** send_code */
  method SendCode(w: Writer, s: nat, c: Code)
    requires w.Valid() && CodeOk(c) && Coded(c, s)
    modifies w
    ensures w.Valid() && w.Stream() == Cat(old(w.Stream()), SymBits(c, s))
  {
    hide CodeOk, Cat;
    SymProper(c, s);
    w.SendBits(c.codes[s], c.lens[s]);
  }

  /** A symbol and its repeat count. */
  method SendRun(w: Writer, r: Run, c: Code)
    requires w.Valid() && CodeOk(c) && SendableRun(c, r)
    modifies w
    ensures w.Valid() && w.Stream() == Cat(old(w.Stream()), RunBits(c, r))
  {
    hide CodeOk, Cat, SymBits;
    ghost var was := w.Stream();
    RunExtraProper(r);
    CatAssoc(was, SymBits(c, Symbol(r)), RunExtra(r));
    match r
    case Len(len) =>
      SendCode(w, len, c);
      CatEmpty(w.Stream());
    case Repeat(count) =>
      SendCode(w, 16, c);
      w.SendBits(count - 3, 2);
    case Zeros(count) =>
      if count <= 10 {
        SendCode(w, 17, c);
        w.SendBits(count - 3, 3);
      } else {
        SendCode(w, 18, c);
        w.SendBits(count - 11, 7);
      }
  }

  /** What send_tree sends for one run of lengths. */
  method SendEmit(w: Writer, prev: int, cur: nat, count0: nat, min: nat, c: Code)
    requires w.Valid() && CodeOk(c) && 1 <= count0 <= MaxCount(prev, cur) && min == MinCount(prev, cur) && cur <= 15
    requires Sendable(c, Emit(prev, cur, count0))
    modifies w
    ensures w.Valid() && w.Stream() == Cat(old(w.Stream()), RunsBits(c, Emit(prev, cur, count0)))
  {
    hide CodeOk, Cat, RunBits, RunsBits;
    var count := count0;
    ghost var was, runs := w.Stream(), Emit(prev, cur, count0);
    if count < min {
      PlainBits(c, cur, 0, count0);
      CatEmpty(was);
      while count != 0
        invariant count <= count0 && w.Valid()
        invariant PlainOk(c, cur, count0 - count) && w.Stream() == Cat(was, RunsBits(c, Plain(cur, count0 - count)))
        decreases count
      {
        assert SendableRun(c, runs[0]);
        PlainBits(c, cur, count0 - count + 1, count0);
        CatAssoc(was, RunsBits(c, Plain(cur, count0 - count)), RunBits(c, Len(cur)));
        SendRun(w, Len(cur), c);
        count := count - 1;
      }
    } else if cur != 0 {
      if cur != prev {
        TwoRuns(c, Len(cur), Repeat(count - 1));
        CatAssoc(was, RunBits(c, Len(cur)), RunBits(c, Repeat(count - 1)));
        SendRun(w, Len(cur), c);
        count := count - 1;
      } else {
        assert SendableRun(c, runs[0]);
        RunsBitsOne(c, Repeat(count));
      }
      SendRun(w, Repeat(count), c);
    } else {
      assert SendableRun(c, runs[0]);
      RunsBitsOne(c, Zeros(count));
      SendRun(w, Zeros(count), c);
    }
  }

  ghost predicate PlainOk(c: Code, cur: nat, n: nat) {
    Sendable(c, Plain(cur, n))
  }

  lemma PlainBits(c: Code, cur: nat, n: nat, count: nat)
    requires Sendable(c, Plain(cur, count)) && n <= count
    ensures PlainOk(c, cur, n) && (n == 0 ==> RunsBits(c, Plain(cur, n)) == Empty)
    ensures n > 0 ==> PlainOk(c, cur, n - 1) && SendableRun(c, Len(cur)) && RunsBits(c, Plain(cur, n)) == Cat(RunsBits(c, Plain(cur, n - 1)), RunBits(c, Len(cur)))
  {
    hide Cat, SendableRun;
    if n > 0 {
      assert Plain(cur, n)[..n - 1] == Plain(cur, n - 1);
      assert Plain(cur, count)[0] == Len(cur);
    }
  }

  lemma TwoRuns(c: Code, a: Run, b: Run)
    requires Sendable(c, [a, b])
    ensures SendableRun(c, a) && SendableRun(c, b) && RunsBits(c, [a, b]) == Cat(RunBits(c, a), RunBits(c, b))
  {
    hide Cat, SendableRun;
    assert [a, b][0] == a && [a, b][1] == b;
    assert [a, b] == [a] + [b];
    RunsBitsOne(c, a);
    RunsBitsOne(c, b);
    RunsBitsJoin(c, [a], [b]);
  }

  /** send_tree; the guard is already set. */
  method SendTree(w: Writer, len: seq<nat>, maxCode: nat, c: Code)
    requires w.Valid() && CodeOk(c) && maxCode + 1 < |len| && len[maxCode + 1] == GUARD && forall i :: 0 <= i <= maxCode ==> len[i] <= 15
    requires Sendable(c, Runs(len[..maxCode + 1], 0, -1))
    modifies w
    ensures w.Valid() && w.Stream() == Cat(old(w.Stream()), RunsBits(c, Runs(len[..maxCode + 1], 0, -1)))
  {
    hide Walk, Runs, Emit, MaxCount, MinCount, Cat, RunsBits, CodeOk, SendableRun;
    ghost var lens, was := len[..maxCode + 1], w.Stream();
    ghost var sent: seq<Run> := [];
    var prevlen: int := -1;
    var nextlen := len[0];
    var count: nat := 0;
    var maxCount, minCount := NextLimits(-1, nextlen);
    WalkStarts(lens, maxCount, minCount);
    NothingSent(was, c);
    var n := 0;
    while n <= maxCode
      invariant n <= maxCode + 1 && nextlen == len[n] && w.Valid()
      invariant Walk(lens, n, count, prevlen, maxCount, minCount, sent) && Sendable(c, sent) && w.Stream() == Cat(was, RunsBits(c, sent))
    {
      var curlen := nextlen;
      nextlen := len[n + 1];
      AtEnd(lens, len, n);
      count := count + 1;
      if count < maxCount && curlen == nextlen {
        WalkOn(lens, n, count - 1, prevlen, maxCount, minCount, sent);
      } else {
        var max, min := NextLimits(curlen, nextlen);
        WalkLimits(lens, n, count - 1, prevlen, maxCount, minCount, sent);
        WalkEnds(lens, n, count - 1, prevlen, maxCount, minCount, sent, max, min);
        ghost var runs := Emit(prevlen, curlen, count);
        WalkPart(lens, n + 1, 0, curlen, max, min, sent + runs, c, sent, runs);
        RunsBitsJoin(c, sent, runs);
        CatAssoc(was, RunsBits(c, sent), RunsBits(c, runs));
        SendEmit(w, prevlen, curlen, count, minCount, c);
        sent := sent + runs;
        count := 0;
        prevlen := curlen;
        maxCount, minCount := max, min;
      }
      n := n + 1;
    }
    WalkCount(lens, count, prevlen, maxCount, minCount, sent);
    WalkDone(lens, prevlen, maxCount, minCount, sent);
  }

  lemma NothingSent(was: BitString, c: Code)
    ensures RunsBits(c, []) == Empty && Cat(was, RunsBits(c, [])) == was
  {
    hide Cat;
    CatEmpty(was);
  }

  /** What is sent is a part of what can be sent. */
  lemma WalkPart(lens: seq<nat>, n: nat, count: nat, prev: int, max: nat, min: nat, all: seq<Run>, c: Code, sent: seq<Run>, runs: seq<Run>)
    requires Walk(lens, n, count, prev, max, min, all) && all == sent + runs && Sendable(c, Runs(lens, 0, -1))
    ensures Sendable(c, runs)
  {
    hide Runs, SendableRun, MaxCount, MinCount;
    var whole := Runs(lens, 0, -1);
    forall i | 0 <= i < |runs|
      ensures SendableRun(c, runs[i])
    {
      assert whole[|sent| + i] == all[|sent| + i] == runs[i];
    }
  }
}
