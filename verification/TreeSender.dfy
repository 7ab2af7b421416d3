/** scan_tree and send_tree of trees.c: both walk the lengths in the same runs. */
module TreeSender {
  import opened BitStreams
  import opened CodeRuns

  const GUARD: nat := 0xffff

  lemma {:induction false} RunLengthIs(lens: seq<nat>, n: nat, count: nat, max: nat)
    requires 1 <= count <= max && n + count <= |lens| && forall i :: n <= i < n + count ==> lens[i] == lens[n]
    requires count == max || n + count == |lens| || lens[n + count] != lens[n]
    ensures RunLength(lens, n, max) == count
    decreases count
  {
    if count > 1 {
      RunLengthIs(lens, n + 1, count - 1, max - 1);
    }
  }

  /** The state of the loops: count lengths of the open run have been passed, `sent` stands for those before. */
  ghost predicate Walk(lens: seq<nat>, n: nat, count: nat, prev: int, max: nat, min: nat, sent: seq<Run>) {
    && count <= n <= |lens|
    && (n == |lens| ==> count == 0)
    && (n < |lens| ==>
          && count < max && max == MaxCount(prev, lens[n - count]) && min == MinCount(prev, lens[n - count])
          && forall i :: n - count <= i <= n ==> lens[i] == lens[n])
    && sent + Runs(lens, n - count, prev) == Runs(lens, 0, -1)
  }

  /** The run goes on. */
  lemma WalkOn(lens: seq<nat>, n: nat, count: nat, prev: int, max: nat, min: nat, sent: seq<Run>)
    requires Walk(lens, n, count, prev, max, min, sent) && n + 1 < |lens| && count + 1 < max && lens[n + 1] == lens[n]
    ensures Walk(lens, n + 1, count + 1, prev, max, min, sent)
  {
    hide Runs, MaxCount, MinCount;
  }

  /** The run ends. */
  lemma WalkEnds(lens: seq<nat>, n: nat, count: nat, prev: int, max: nat, min: nat, sent: seq<Run>, max': nat, min': nat)
    requires Walk(lens, n, count, prev, max, min, sent) && n < |lens|
    requires count + 1 == max || n + 1 == |lens| || lens[n + 1] != lens[n]
    requires n + 1 < |lens| ==> max' == MaxCount(lens[n], lens[n + 1]) && min' == MinCount(lens[n], lens[n + 1])
    ensures min == MinCount(prev, lens[n]) && count + 1 <= max == MaxCount(prev, lens[n])
    ensures Walk(lens, n + 1, 0, lens[n], max', min', sent + Emit(prev, lens[n], count + 1))
  {
    hide Runs, MaxCount, MinCount, Emit;
    var start := n - count;
    RunLengthIs(lens, start, count + 1, max);
    RunsStep(lens, start, prev);
    assert sent + (Emit(prev, lens[n], count + 1) + Runs(lens, n + 1, lens[n])) == sent + Emit(prev, lens[n], count + 1) + Runs(lens, n + 1, lens[n]);
  }

  lemma WalkStarts(lens: seq<nat>, max: nat, min: nat)
    requires lens != [] && max == MaxCount(-1, lens[0]) && min == MinCount(-1, lens[0])
    ensures Walk(lens, 0, 0, -1, max, min, [])
  {
    hide Runs, MaxCount, MinCount;
    assert [] + Runs(lens, 0, -1) == Runs(lens, 0, -1);
  }

  lemma WalkDone(lens: seq<nat>, prev: int, max: nat, min: nat, sent: seq<Run>)
    requires Walk(lens, |lens|, 0, prev, max, min, sent)
    ensures sent == Runs(lens, 0, -1)
  {
    assert sent + [] == sent;
  }

  /** The limits for the next run. */
  method NextLimits(cur: int, next: nat) returns (max: nat, min: nat)
    ensures max == MaxCount(cur, next) && min == MinCount(cur, next)
  {
    if next == 0 {
      max, min := 138, 3;
    } else if cur == next {
      max, min := 6, 3;
    } else {
      max, min := 7, 4;
    }
  }

  /** The frequencies after the runs. */
  ghost predicate Counted(freq: seq<nat>, was: seq<nat>, runs: seq<Run>) {
    |freq| == |was| >= 19 && forall s :: 0 <= s < |freq| ==> freq[s] == was[s] + Count(runs, s)
  }

  /** The frequencies of one run. */
  method CountRun(freq: array<nat>, prev: int, cur: nat, count: nat, min: nat)
    requires freq.Length >= 19 && 1 <= count <= MaxCount(prev, cur) && min == MinCount(prev, cur) && cur <= 15
    modifies freq
    ensures Counted(freq[..], old(freq[..]), Emit(prev, cur, count))
  {
    ghost var was := freq[..];
    if count < min {
      CountLens(cur, count);
      freq[cur] := freq[cur] + count;
    } else if cur != 0 {
      if cur != prev {
        CountTwo(Len(cur), Repeat(count - 1));
        freq[cur] := freq[cur] + 1;
      } else {
        CountOne(Repeat(count));
      }
      freq[16] := freq[16] + 1;
    } else if count <= 10 {
      CountOne(Zeros(count));
      freq[17] := freq[17] + 1;
    } else {
      CountOne(Zeros(count));
      freq[18] := freq[18] + 1;
    }
  }

  lemma CountOne(r: Run)
    ensures forall s: nat :: Count([r], s) == if Symbol(r) == s then 1 else 0
  {
    forall s: nat
      ensures Count([r], s) == if Symbol(r) == s then 1 else 0
    {
      assert [r][..0] == [];
    }
  }

  lemma CountTwo(a: Run, b: Run)
    ensures forall s: nat :: Count([a, b], s) == (if Symbol(a) == s then 1 else 0) + if Symbol(b) == s then 1 else 0
  {
    forall s: nat
      ensures Count([a, b], s) == (if Symbol(a) == s then 1 else 0) + if Symbol(b) == s then 1 else 0
    {
      assert [a, b] == [a] + [b];
      CountJoin([a], [b], s);
      CountOne(a);
      CountOne(b);
    }
  }

  lemma {:induction false} CountLens(cur: nat, count: nat)
    ensures forall s: nat :: Count(Plain(cur, count), s) == if s == cur then count else 0
    decreases count
  {
    forall s: nat
      ensures Count(Plain(cur, count), s) == if s == cur then count else 0
    {
      if count > 0 {
        CountLens(cur, count - 1);
        assert Plain(cur, count)[..count - 1] == Plain(cur, count - 1);
      }
    }
  }

  lemma CountedMore(freq: seq<nat>, mid: seq<nat>, was: seq<nat>, sent: seq<Run>, runs: seq<Run>)
    requires Counted(mid, was, sent) && Counted(freq, mid, runs)
    ensures Counted(freq, was, sent + runs)
  {
    forall s | 0 <= s < |freq|
      ensures freq[s] == was[s] + Count(sent + runs, s)
    {
      CountJoin(sent, runs, s);
    }
  }

  /** scan_tree */
  method ScanTree(len: array<nat>, maxCode: nat, freq: array<nat>)
    requires maxCode + 1 < len.Length && len != freq && freq.Length >= 19
    requires forall i :: 0 <= i <= maxCode ==> len[i] <= 15
    modifies len, freq
    ensures len[..] == old(len[..])[maxCode + 1 := GUARD]
    ensures Counted(freq[..], old(freq[..]), Runs(old(len[..maxCode + 1]), 0, -1))
  {
    hide Walk, Runs, Emit, Counted, MaxCount, MinCount;
    ghost var lens, was := len[..maxCode + 1], freq[..];
    ghost var sent: seq<Run> := [];
    var prevlen: int := -1;
    var nextlen := len[0];
    var count: nat := 0;
    var maxCount, minCount := NextLimits(-1, nextlen);
    len[maxCode + 1] := GUARD;
    ghost var all := len[..];
    WalkStarts(lens, maxCount, minCount);
    CountedNone(was);
    var n := 0;
    while n <= maxCode
      invariant n <= maxCode + 1 && len[..] == all && nextlen == all[n]
      invariant Walk(lens, n, count, prevlen, maxCount, minCount, sent) && Counted(freq[..], was, sent)
    {
      var curlen := nextlen;
      nextlen := len[n + 1];
      AtEnd(lens, all, n);
      count := count + 1;
      if count < maxCount && curlen == nextlen {
        WalkOn(lens, n, count - 1, prevlen, maxCount, minCount, sent);
      } else {
        var max, min := NextLimits(curlen, nextlen);
        WalkLimits(lens, n, count - 1, prevlen, maxCount, minCount, sent);
        WalkEnds(lens, n, count - 1, prevlen, maxCount, minCount, sent, max, min);
        ghost var mid := freq[..];
        CountRun(freq, prevlen, curlen, count, minCount);
        CountedMore(freq[..], mid, was, sent, Emit(prevlen, curlen, count));
        sent := sent + Emit(prevlen, curlen, count);
        count := 0;
        prevlen := curlen;
        maxCount, minCount := max, min;
      }
      n := n + 1;
    }
    WalkCount(lens, count, prevlen, maxCount, minCount, sent);
    WalkDone(lens, prevlen, maxCount, minCount, sent);
  }

  /** The guard differs from every length. */
  lemma AtEnd(lens: seq<nat>, all: seq<nat>, n: nat)
    requires n < |lens| < |all| && lens == all[..|lens|] && all[|lens|] == GUARD && forall i :: 0 <= i < |lens| ==> lens[i] <= 15
    ensures lens[n] == all[n] <= 15 && (n + 1 < |lens| ==> all[n + 1] == lens[n + 1]) && (n + 1 == |lens| ==> all[n + 1] == GUARD != lens[n])
  {
  }

  lemma WalkLimits(lens: seq<nat>, n: nat, count: nat, prev: int, max: nat, min: nat, sent: seq<Run>)
    requires Walk(lens, n, count, prev, max, min, sent) && n < |lens|
    ensures count < max
  {
  }

  lemma WalkCount(lens: seq<nat>, count: nat, prev: int, max: nat, min: nat, sent: seq<Run>)
    requires Walk(lens, |lens|, count, prev, max, min, sent)
    ensures count == 0
  {
  }

  lemma CountedNone(was: seq<nat>)
    requires |was| >= 19
    ensures Counted(was, was, [])
  {
  }
}
