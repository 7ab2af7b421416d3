/** The counts of codes per bit length (bl_count) and the repair of a set of lengths that
    overflows the limit. */
module LengthCounts {
  import opened Sums
  import opened HuffmanCost
  import opened HuffmanMerge

  ghost function AtLength(s: set<nat>, len: seq<nat>, b: nat): set<nat> {
    set x | x in s && x < |len| && len[x] == b
  }

  /** counts[b] is the number of members of s with length b. */
  ghost predicate Histogram(counts: seq<nat>, s: set<nat>, len: seq<nat>) {
    forall b :: 0 <= b < |counts| ==> counts[b] == |AtLength(s, len, b)|
  }

  /** The sum of counts[b] * 2^(cap - b) over b < n. */
  ghost function CountKraft(counts: seq<nat>, cap: nat, n: nat): nat
    requires n <= |counts| && n <= cap + 1
  {
    if n == 0 then 0 else CountKraft(counts, cap, n - 1) + counts[n - 1] * Pow2(cap - (n - 1))
  }

  ghost function CountTotal(counts: seq<nat>, n: nat): nat
    requires n <= |counts|
  {
    if n == 0 then 0 else CountTotal(counts, n - 1) + counts[n - 1]
  }

  lemma {:induction false} CountKraftSet(counts: seq<nat>, cap: nat, n: nat, b: nat, v: nat)
    requires n <= |counts| && n <= cap + 1 && b < |counts|
    ensures CountKraft(counts[b := v], cap, n) ==
            CountKraft(counts, cap, n) + (if b < n then (v - counts[b]) * Pow2(cap - b) else 0)
  {
    if n != 0 {
      CountKraftSet(counts, cap, n - 1, b, v);
      if b == n - 1 {
        assert v * Pow2(cap - b) == counts[b] * Pow2(cap - b) + (v - counts[b]) * Pow2(cap - b);
      }
    }
  }

  lemma {:induction false} CountTotalSet(counts: seq<nat>, n: nat, b: nat, v: nat)
    requires n <= |counts| && b < |counts|
    ensures CountTotal(counts[b := v], n) == CountTotal(counts, n) + (if b < n then v - counts[b] else 0)
  {
    if n != 0 {
      CountTotalSet(counts, n - 1, b, v);
    }
  }

  lemma {:induction false} CountsZero(counts: seq<nat>, cap: nat, n: nat)
    requires n <= |counts| && n <= cap + 1
    requires forall b :: 0 <= b < n ==> counts[b] == 0
    ensures CountKraft(counts, cap, n) == 0 && CountTotal(counts, n) == 0
  {
    if n != 0 {
      CountsZero(counts, cap, n - 1);
    }
  }

  lemma HistogramAdd(counts: seq<nat>, s: set<nat>, len: seq<nat>, x: nat)
    requires Histogram(counts, s, len) && x !in s && x < |len| && len[x] < |counts|
    ensures Histogram(counts[len[x] := counts[len[x]] + 1], s + {x}, len)
  {
    forall b | 0 <= b < |counts| ensures counts[len[x] := counts[len[x]] + 1][b] == |AtLength(s + {x}, len, b)| {
      if b == len[x] {
        assert AtLength(s + {x}, len, b) == AtLength(s, len, b) + {x};
      } else {
        assert AtLength(s + {x}, len, b) == AtLength(s, len, b);
      }
    }
  }

  lemma HistogramDrop(counts: seq<nat>, s: set<nat>, len: seq<nat>, x: nat)
    requires Histogram(counts, s, len) && x in s && x < |len| && len[x] < |counts|
    ensures counts[len[x]] >= 1
    ensures Histogram(counts[len[x] := counts[len[x]] - 1], s - {x}, len)
  {
    assert x in AtLength(s, len, len[x]);
    forall b | 0 <= b < |counts| ensures counts[b] - (if b == len[x] then 1 else 0) == |AtLength(s - {x}, len, b)| {
      if b == len[x] {
        assert AtLength(s - {x}, len, b) == AtLength(s, len, b) - {x};
      } else {
        assert AtLength(s - {x}, len, b) == AtLength(s, len, b);
      }
    }
  }

  lemma HistogramEmpty(counts: seq<nat>, len: seq<nat>)
    requires forall b :: 0 <= b < |counts| ==> counts[b] == 0
    ensures Histogram(counts, {}, len)
  {
    forall b | 0 <= b < |counts| ensures |AtLength({}, len, b)| == 0 {
      assert AtLength({}, len, b) == {};
    }
  }

  /** The Kraft sum and the size of a set of codes depend only on the counts. */
  lemma {:induction false} HistogramSums(counts: seq<nat>, s: set<nat>, len: seq<nat>, cap: nat)
    requires Histogram(counts, s, len) && cap < |counts|
    requires forall x :: x in s ==> x < |len| && len[x] <= cap
    ensures CountKraft(counts, cap, cap + 1) == Kraft(s, len, cap)
    ensures CountTotal(counts, cap + 1) == |s|
    decreases |s|
  {
    hide Histogram, Kraft;
    if s == {} {
      AllZero(counts, len);
      CountsZero(counts, cap, cap + 1);
      KraftEmpty(len, cap);
    } else {
      var x :| x in s;
      HistogramDrop(counts, s, len, x);
      var rest := counts[len[x] := counts[len[x]] - 1];
      HistogramSums(rest, s - {x}, len, cap);
      CountKraftSet(counts, cap, cap + 1, len[x], counts[len[x]] - 1);
      CountTotalSet(counts, cap + 1, len[x], counts[len[x]] - 1);
      KraftDrop(s, len, cap, x);
    }
  }

  lemma AllZero(counts: seq<nat>, len: seq<nat>)
    requires Histogram(counts, {}, len)
    ensures forall b :: 0 <= b < |counts| ==> counts[b] == 0
  {
    forall b | 0 <= b < |counts| ensures counts[b] == 0 {
      assert AtLength({}, len, b) == {};
    }
  }

  lemma AtLengthAdd(s: set<nat>, len: seq<nat>, b: nat, x: nat)
    requires x !in s && x < |len|
    ensures |AtLength(s + {x}, len, b)| == |AtLength(s, len, b)| + (if len[x] == b then 1 else 0)
  {
    if len[x] == b {
      assert AtLength(s + {x}, len, b) == AtLength(s, len, b) + {x};
    } else {
      assert AtLength(s + {x}, len, b) == AtLength(s, len, b);
    }
  }

  lemma SplitAtLength(active: set<nat>, len: seq<nat>, cap: nat, a: nat, b: nat, p: nat)
    requires a in active && b in active && a != b && p !in active && a < |len| && b < |len| && p < |len|
    requires len[p] <= cap && len[a] == Min(len[p] + 1, cap) && len[b] == len[a]
    ensures var before, after := |AtLength(active, len, cap)|, |AtLength(Merged(active, a, b, p), len, cap)|;
            if len[p] == cap then before == after + 1 && after >= 1 else before >= after
  {
    hide AtLength;
    var rest := active - {a} - {b};
    AtLengthAdd(rest, len, cap, a);
    AtLengthAdd(rest + {a}, len, cap, b);
    AtLengthAdd(rest, len, cap, p);
    assert rest + {a} + {b} == active;
  }

  /** Among the clipped nodes, leaves outnumber internal nodes. */
  lemma {:induction false} ClippedLeaves(weight: seq<nat>, leaves: set<nat>, merges: seq<Merge>, elems: nat,
                                         len: seq<nat>, cap: nat, t: nat)
    requires Greedy(weight, leaves, merges, elems) && |len| == |weight| && Depths(len, merges, elems, cap)
    requires Active(leaves, merges, elems) == {Root(merges, elems)}
    requires t <= |merges|
    ensures Clipped(len, elems, |merges|, cap, t) > 0 ==>
              |AtLength(Active(leaves, merges[..t], elems), len, cap)| > Clipped(len, elems, |merges|, cap, t)
    decreases |merges| - t
  {
    hide Greedy, Active;
    if t < |merges| {
      ClippedLeaves(weight, leaves, merges, elems, len, cap, t + 1);
      GreedyStep(weight, leaves, merges, elems, t);
      DepthsCapped(weight, leaves, merges, elems, len, cap, t + 1);
      SplitAtLength(Active(leaves, merges[..t], elems), len, cap, merges[t].first, merges[t].second, elems + t);
    }
  }

  // ----- The repair loop on the counts -----

  /** The counts overfill the code by excess units, yet the lengths below the cap alone do not fill it. */
  ghost predicate Overfull(counts: seq<nat>, cap: nat, size: nat, excess: nat) {
    && 1 <= cap < |counts| && counts[0] == 0 && size <= Pow2(cap)
    && CountTotal(counts, cap + 1) == size
    && CountKraft(counts, cap, cap + 1) == Pow2(cap) + excess
    && (excess > 0 ==> CountKraft(counts, cap, cap) < Pow2(cap))
  }

  /** Some code is shorter than the cap: otherwise there would be more than 2^cap codes. */
  lemma ShorterExists(counts: seq<nat>, cap: nat, size: nat, excess: nat) returns (b: nat)
    requires Overfull(counts, cap, size, excess) && excess > 0
    ensures 1 <= b < cap && counts[b] > 0
  {
    assert Pow2(0) == 1;
    if forall i :: 0 <= i < cap ==> counts[i] == 0 {
      CountsZero(counts, cap, cap);
      assert false;
    }
    b :| 0 <= b < cap && counts[b] > 0;
  }

  /** Moving one leaf of length b down and taking an overflow item as its brother. */
  ghost function Repaired(counts: seq<nat>, cap: nat, b: nat): seq<nat>
    requires b < cap < |counts| && counts[b] > 0 && counts[cap] > 0
  {
    var c := counts[b := counts[b] - 1];
    var d := c[b + 1 := c[b + 1] + 2];
    d[cap := d[cap] - 1]
  }

  lemma RepairStep(counts: seq<nat>, cap: nat, size: nat, excess: nat, b: nat)
    requires Overfull(counts, cap, size, excess) && excess > 0
    requires 1 <= b < cap && counts[b] > 0
    ensures counts[cap] > 0
    ensures Overfull(Repaired(counts, cap, b), cap, size, excess - 1)
  {
    assert Pow2(0) == 1;
    assert counts[cap] > 0;
    var c: seq<nat> := counts[b := counts[b] - 1];
    var d: seq<nat> := c[b + 1 := c[b + 1] + 2];
    RepairKraft(counts, cap, b, cap + 1);
    RepairKraft(counts, cap, b, cap);
    CountTotalSet(counts, cap + 1, b, counts[b] - 1);
    CountTotalSet(c, cap + 1, b + 1, c[b + 1] + 2);
    CountTotalSet(d, cap + 1, cap, d[cap] - 1);
  }

  lemma RepairKraft(counts: seq<nat>, cap: nat, b: nat, n: nat)
    requires 1 <= b < cap < |counts| && counts[b] > 0 && counts[cap] > 0 && cap <= n <= cap + 1
    ensures n == cap + 1 ==> CountKraft(Repaired(counts, cap, b), cap, n) == CountKraft(counts, cap, n) - 1
    ensures n == cap ==> CountKraft(Repaired(counts, cap, b), cap, n) <= CountKraft(counts, cap, n)
  {
    hide CountKraft;
    var c: seq<nat> := counts[b := counts[b] - 1];
    var d: seq<nat> := c[b + 1 := c[b + 1] + 2];
    CountKraftSet(counts, cap, n, b, counts[b] - 1);
    CountKraftSet(c, cap, n, b + 1, c[b + 1] + 2);
    CountKraftSet(d, cap, n, cap, d[cap] - 1);
    assert Pow2(cap - b) == 2 * Pow2(cap - (b + 1));
    assert Pow2(0) == 1;
  }
}
