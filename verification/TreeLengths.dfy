/** build_tree as a whole: what the lengths it leaves in the tree satisfy, for every set of frequencies. */
module TreeLengths {
  import opened Sums
  import opened HuffmanCost
  import opened HuffmanMerge
  import opened HuffmanTree
  import opened LengthCounts
  import opened BitLengths

  /** Internal node number s lies at most |merges| - 1 - s below the root. */
  lemma {:induction false} InternalDepth(weight: seq<nat>, leaves: set<nat>, merges: seq<Merge>, elems: nat,
                                         len: seq<nat>, cap: nat, s: nat)
    requires Greedy(weight, leaves, merges, elems) && |len| == |weight| && Depths(len, merges, elems, cap)
    requires Active(leaves, merges, elems) == {Root(merges, elems)} && s < |merges|
    ensures len[elems + s] <= |merges| - 1 - s
    decreases |merges| - s
  {
    hide Greedy, Active, TwoLightest;
    if s < |merges| - 1 {
      GreedyStep(weight, leaves, merges, elems, s);
      var u := MergedLater(weight, leaves, merges, elems, elems + s, s + 1);
      InternalDepth(weight, leaves, merges, elems, len, cap, u);
    }
  }

  /** Huffman's theorem for the merge history: the true depths are an optimal code for the leaves. */
  lemma TrueDepthsOptimal(weight: seq<nat>, leaves: set<nat>, merges: seq<Merge>, elems: nat, depth: seq<nat>)
    requires Greedy(weight, leaves, merges, elems) && |depth| == |weight| && Depths(depth, merges, elems, |merges|)
    requires Active(leaves, merges, elems) == {Root(merges, elems)}
    ensures Optimal(weight, leaves, depth)
    ensures Kraft(leaves, depth, |merges|) == Pow2(|merges|)
    ensures forall x :: x in leaves ==> x < |depth| && depth[x] <= |merges|
  {
    hide Greedy, Active, Optimal, Kraft;
    forall x | elems <= x < elems + |merges| ensures depth[x] < |merges| {
      InternalDepth(weight, leaves, merges, elems, depth, |merges|, x - elems);
    }
    DepthsOptimal(weight, leaves, merges, elems, depth, |merges|, 0);
    ClippedKraft(weight, leaves, merges, elems, depth, |merges|, 0);
    NoneClipped(depth, elems, |merges|, |merges|, 0);
    DepthsCapped(weight, leaves, merges, elems, depth, |merges|, 0);
    ActiveStart(leaves, merges, elems);
  }

  lemma ActiveStart(leaves: set<nat>, merges: seq<Merge>, elems: nat)
    ensures Active(leaves, merges[..0], elems) == leaves
  {
  }

  lemma {:induction false} NoneClipped(len: seq<nat>, elems: nat, count: nat, cap: nat, t: nat)
    requires elems + count <= |len| && t <= count
    ensures Clipped(len, elems, count, cap, t) == 0 <==> forall x :: elems + t <= x < elems + count ==> len[x] != cap
    decreases count - t
  {
    if t < count {
      NoneClipped(len, elems, count, cap, t + 1);
    }
  }

  /** Clipping at cap is taking the minimum with the true depth. */
  lemma {:induction false} ClipIsMin(weight: seq<nat>, leaves: set<nat>, merges: seq<Merge>, elems: nat,
                                     depth: seq<nat>, len: seq<nat>, cap: nat, t: nat)
    requires Greedy(weight, leaves, merges, elems) && |len| == |depth| == |weight|
    requires Depths(depth, merges, elems, |merges|) && Depths(len, merges, elems, cap)
    requires Active(leaves, merges, elems) == {Root(merges, elems)} && t <= |merges|
    ensures forall x :: x in Active(leaves, merges[..t], elems) ==> x < |len| && len[x] == Min(depth[x], cap)
    decreases |merges| - t
  {
    hide Greedy, Active, TwoLightest;
    if t == |merges| {
      assert merges[..t] == merges;
    } else {
      ClipIsMin(weight, leaves, merges, elems, depth, len, cap, t + 1);
      GreedyStep(weight, leaves, merges, elems, t);
      InternalDepth(weight, leaves, merges, elems, depth, |merges|, t);
    }
  }

  /** A full code stays full at any depth bound that its lengths respect. */
  lemma {:induction false} KraftLower(active: set<nat>, len: seq<nat>, top: nat, low: nat)
    requires Kraft(active, len, top) == Pow2(top) && low <= top
    requires forall x :: x in active ==> x < |len| && len[x] <= low
    ensures Kraft(active, len, low) == Pow2(low)
    decreases top
  {
    hide Kraft;
    if low < top {
      KraftDouble(active, len, top);
      KraftLower(active, len, top - 1, low);
    }
  }

  lemma {:induction false} KraftRaise(active: set<nat>, len: seq<nat>, low: nat, top: nat)
    requires Kraft(active, len, low) == Pow2(low) && low <= top
    requires forall x :: x in active ==> x < |len| && len[x] <= low
    ensures Kraft(active, len, top) == Pow2(top)
    decreases top
  {
    hide Kraft;
    if low < top {
      KraftRaise(active, len, low, top - 1);
      KraftDouble(active, len, top);
    }
  }

  lemma KraftSame(active: set<nat>, len: seq<nat>, len': seq<nat>, top: nat)
    requires |len| == |len'| && forall x :: x in active && x < |len| ==> len[x] == len'[x]
    ensures Kraft(active, len, top) == Kraft(active, len', top)
  {
    hide KraftVec, Unit;
    assert KraftVec(active, len, top) == KraftVec(active, len', top);
  }

  lemma CostSame(weight: seq<nat>, active: set<nat>, len: seq<nat>, len': seq<nat>)
    requires |weight| == |len| == |len'| && forall x :: x in active && x < |len| ==> len[x] == len'[x]
    ensures Cost(weight, active, len) == Cost(weight, active, len')
  {
    hide CostVec;
    assert CostVec(weight, active, len) == CostVec(weight, active, len');
  }

  /** Nothing is clipped exactly when no leaf lies deeper than cap. */
  lemma OverflowIff(weight: seq<nat>, leaves: set<nat>, merges: seq<Merge>, elems: nat, depth: seq<nat>, len: seq<nat>, cap: nat)
    requires Greedy(weight, leaves, merges, elems) && |len| == |depth| == |weight|
    requires Depths(depth, merges, elems, |merges|) && Depths(len, merges, elems, cap)
    requires Active(leaves, merges, elems) == {Root(merges, elems)}
    ensures forall x :: x in leaves ==> x < |len| && len[x] == Min(depth[x], cap)
    ensures Clipped(len, elems, |merges|, cap, 0) == 0 <==> forall x :: x in leaves ==> depth[x] <= cap
  {
    hide Greedy, Active, TwoLightest, Kraft, Optimal;
    ActiveStart(leaves, merges, elems);
    ClipIsMin(weight, leaves, merges, elems, depth, len, cap, 0);
    ClippedKraft(weight, leaves, merges, elems, len, cap, 0);
    TrueDepthsOptimal(weight, leaves, merges, elems, depth);
    if forall x :: x in leaves ==> depth[x] <= cap {
      KraftSame(leaves, len, depth, cap);
      if cap <= |merges| {
        KraftLower(leaves, depth, |merges|, cap);
      } else {
        KraftRaise(leaves, depth, |merges|, cap);
      }
    }
    if Clipped(len, elems, |merges|, cap, 0) == 0 {
      forall x | x in leaves ensures depth[x] <= cap {
        NotClippedLeaf(weight, leaves, merges, elems, depth, len, cap, x);
      }
    }
  }

  lemma NotClippedLeaf(weight: seq<nat>, leaves: set<nat>, merges: seq<Merge>, elems: nat, depth: seq<nat>, len: seq<nat>,
                       cap: nat, x: nat)
    requires Greedy(weight, leaves, merges, elems) && |len| == |depth| == |weight|
    requires Depths(depth, merges, elems, |merges|) && Depths(len, merges, elems, cap)
    requires Active(leaves, merges, elems) == {Root(merges, elems)}
    requires x in leaves && Clipped(len, elems, |merges|, cap, 0) == 0
    ensures x < |depth| && depth[x] <= cap
  {
    assert x < elems;
    var t := WasMerged(leaves, merges, elems, x);
    hide Greedy, Active, TwoLightest;
    NoneClipped(len, elems, |merges|, cap, 0);
    GreedyStep(weight, leaves, merges, elems, t);
    ClipIsMin(weight, leaves, merges, elems, depth, len, cap, t + 1);
    assert depth[elems + t] < cap;
  }

  /** Every leaf has a length from 1 to cap, counts is their histogram, and the code is complete. */
  ghost predicate CompleteCode(leaves: set<nat>, len: seq<nat>, counts: seq<nat>, cap: nat) {
    && (forall x :: x in leaves ==> x < |len| && 1 <= len[x] <= cap)
    && Histogram(counts, leaves, len)
    && Kraft(leaves, len, cap) == Pow2(cap)
  }

  /** Along the heap the nodes get lighter. */
  lemma TailLighter(h: seq<nat>, heapMax: nat, freq: seq<nat>, dad: seq<nat>, leaves: set<nat>, merges: seq<Merge>, elems: nat, i: nat, j: nat)
    requires Built(h, heapMax, freq, dad, leaves, merges, elems) && heapMax < i < j < HEAP_SIZE
    ensures h[i] < |freq| && h[j] < |freq| && freq[h[j]] <= freq[h[i]]
  {
    hide Greedy, Active, Tail, Dads;
    TailNode(h, heapMax, freq, dad, leaves, merges, elems, i);
    TailNode(h, heapMax, freq, dad, leaves, merges, elems, j);
    var s, t := (HEAP_SIZE - 1 - j) / 2, (HEAP_SIZE - 1 - i) / 2;
    LeftHeavier(freq, leaves, merges, elems, s);
    LeftHeavier(freq, leaves, merges, elems, t);
    if s < t {
      MergesRise(freq, leaves, merges, elems, s, t);
    }
  }

  /** Lengths that rise along the heap are longer for lighter symbols. */
  lemma RisingLonger(h: seq<nat>, heapMax: nat, freq: seq<nat>, dad: seq<nat>, leaves: set<nat>, merges: seq<Merge>, elems: nat, len: seq<nat>)
    requires Built(h, heapMax, freq, dad, leaves, merges, elems) && Rising(h, heapMax, elems, len, 0) && |len| == |freq|
    ensures LighterLonger(freq, leaves, len)
  {
    hide Greedy, Active, Tail, Dads;
    forall x, y | x in leaves && y in leaves && x < |len| && y < |len| && freq[x] < freq[y]
      ensures len[x] >= len[y]
    {
      var i := LeafPlace(h, heapMax, freq, dad, leaves, merges, elems, x);
      var j := LeafPlace(h, heapMax, freq, dad, leaves, merges, elems, y);
      if i < j {
        TailLighter(h, heapMax, freq, dad, leaves, merges, elems, i, j);
      }
    }
  }

  lemma LeafPlace(h: seq<nat>, heapMax: nat, freq: seq<nat>, dad: seq<nat>, leaves: set<nat>, merges: seq<Merge>, elems: nat, x: nat) returns (i: nat)
    requires Built(h, heapMax, freq, dad, leaves, merges, elems) && x in leaves
    ensures heapMax < i < HEAP_SIZE && h[i] == x < elems <= |freq|
  {
    LeafInTail(h, heapMax, freq, dad, leaves, merges, elems, x);
    var k :| 0 <= k < |h[heapMax..]| && h[heapMax..][k] == x;
    i := heapMax + k;
  }

  /** The counts after a first pass that clipped something are overfull by half the overflow. */
  lemma FirstPassOverfull(h: seq<nat>, heapMax: nat, freq: seq<nat>, dad: seq<nat>, leaves: set<nat>, merges: seq<Merge>,
                          elems: nat, len: seq<nat>, cap: nat, counts: seq<nat>, overflow: nat)
    requires Built(h, heapMax, freq, dad, leaves, merges, elems) && |len| == |freq| && Depths(len, merges, elems, cap)
    requires 1 <= cap < |counts| && elems <= Pow2(cap) && Histogram(counts, leaves, len)
    requires overflow == Clips(h, dad, len, cap, heapMax + 1, HEAP_SIZE)
    ensures overflow == 2 * Clipped(len, elems, |merges|, cap, 0)
    ensures Overfull(counts, cap, |leaves|, overflow / 2)
    ensures forall b :: cap < b < |counts| ==> counts[b] == 0
    ensures forall x :: x in leaves ==> x < |len| && 1 <= len[x] <= cap
  {
    hide Greedy, Active, TwoLightest, Kraft, Histogram, Tail, Dads;
    ClipsInPairs(h, heapMax, freq, dad, leaves, merges, elems, len, cap, 0);
    ActiveStart(leaves, merges, elems);
    ClippedKraft(freq, leaves, merges, elems, len, cap, 0);
    ClippedLeaves(freq, leaves, merges, elems, len, cap, 0);
    DepthsCapped(freq, leaves, merges, elems, len, cap, 0);
    HistogramSums(counts, leaves, len, cap);
    forall x | x in leaves ensures x < |len| && 1 <= len[x] {
      LeafBelowRoot(h, heapMax, freq, dad, leaves, merges, elems, len, cap, x);
    }
    HistogramBounds(counts, leaves, len, cap);
    assert Pow2(0) == 1;
  }

  lemma LeafBelowRoot(h: seq<nat>, heapMax: nat, freq: seq<nat>, dad: seq<nat>, leaves: set<nat>, merges: seq<Merge>,
                      elems: nat, len: seq<nat>, cap: nat, x: nat)
    requires Built(h, heapMax, freq, dad, leaves, merges, elems) && |len| == |freq| && Depths(len, merges, elems, cap)
    requires cap >= 1 && x in leaves
    ensures x < |len| && len[x] >= 1
  {
    assert x < elems;
    var t := WasMerged(leaves, merges, elems, x);
  }

  lemma HistogramBounds(counts: seq<nat>, s: set<nat>, len: seq<nat>, cap: nat)
    requires Histogram(counts, s, len) && cap < |counts|
    requires forall x :: x in s ==> x < |len| && 1 <= len[x] <= cap
    ensures counts[0] == 0 && counts[cap] == |AtLength(s, len, cap)|
    ensures forall b :: cap < b < |counts| ==> counts[b] == 0
  {
    assert AtLength(s, len, 0) == {};
    forall b | cap < b < |counts| ensures counts[b] == 0 {
      assert AtLength(s, len, b) == {};
    }
  }

  /** gen_bitlen. */
  method GenBitlen(s: TreeBuilder, desc: StaticDesc, maxCode: int, ghost leaves: set<nat>, ghost merges: seq<Merge>)
    returns (ghost depth: seq<nat>)
    requires s.Arrays() && ValidDesc(desc)
    requires Built(s.heap[..], s.heapMax, s.fc[..], s.dl[..], leaves, merges, desc.elems)
    requires IsMaxCode(maxCode, leaves) && maxCode < desc.elems
    modifies s`optLen, s`staticLen, s.blCount, s.dl
    ensures |depth| == s.dl.Length && Depths(depth, merges, desc.elems, |merges|)
    ensures CompleteCode(leaves, s.dl[..], s.blCount[..], desc.maxLength)
    ensures s.optLen == old(s.optLen) + Cost(s.fc[..], leaves, WithExtra(s.dl[..], desc))
    ensures s.staticLen == old(s.staticLen) + StaticGain(desc, s.fc[..], leaves)
    ensures forall x :: 0 <= x < desc.elems && x !in leaves ==> s.dl[x] == old(s.dl[x])
    ensures (forall x :: x in leaves ==> depth[x] <= desc.maxLength) ==> forall x :: x in leaves ==> s.dl[x] == depth[x]
    ensures (forall x :: x in leaves ==> depth[x] <= desc.maxLength) || LighterLonger(s.fc[..], leaves, s.dl[..])
  {
    hide LighterLonger, Rising, Greedy, Active, TwoLightest, Kraft, Histogram, Cost, Tail, Dads, TopDown, LeafNodes, Descending, Depths, Overfull, StaticGain,
      Extra, Pow2, CountTotal, CountKraft, Clips, Clipped, Listed;
    ghost var hp: seq<nat>, freq: seq<nat>, dad: seq<nat>, cap := s.heap[..], s.fc[..], s.dl[..], desc.maxLength;
    depth := AllDepths(freq, leaves, merges, desc.elems, |merges|);
    ghost var len := AllDepths(freq, leaves, merges, desc.elems, cap);
    BuiltTopDown(hp, s.heapMax, freq, dad, leaves, merges, desc.elems, len, cap);
    var overflow := FirstPass(s, desc, maxCode, leaves, len);
    FirstPassOverfull(hp, s.heapMax, freq, dad, leaves, merges, desc.elems, len, cap, s.blCount[..], overflow);
    OverflowIff(freq, leaves, merges, desc.elems, depth, len, cap);
    PassDone(hp, s.heapMax, dad, len, s.dl[..], cap, leaves, desc.elems);
    WithExtraSame(freq, leaves, len, s.dl[..], desc);
    HistogramSame(s.blCount[..], leaves, len, s.dl[..]);
    if overflow == 0 {
      FullCounts(s.blCount[..], leaves, s.dl[..], cap);
      return;
    }
    RepairCounts(s, desc.maxLength, overflow, |leaves|);
    DealLengths(s, desc, maxCode, leaves);
    RisingLonger(hp, s.heapMax, freq, dad, leaves, merges, desc.elems, s.dl[..]);
    FullCounts(s.blCount[..], leaves, s.dl[..], cap);
  }

  lemma AllDepths(weight: seq<nat>, leaves: set<nat>, merges: seq<Merge>, elems: nat, cap: nat) returns (len: seq<nat>)
    requires Greedy(weight, leaves, merges, elems) && merges != []
    ensures |len| == |weight| && Depths(len, merges, elems, cap)
  {
    len := MakeDepths(weight, leaves, merges, elems, cap, 0);
  }

  lemma PassDone(hp: seq<nat>, heapMax: nat, dad: seq<nat>, len: seq<nat>, dl: seq<nat>, cap: nat, leaves: set<nat>, elems: nat)
    requires Descending(hp, heapMax, HEAP_SIZE, dad, len, dl, cap) && LeafNodes(hp, heapMax, leaves, elems)
    requires (forall x :: x in leaves ==> x < elems) && elems <= |dl|
    ensures forall x :: x in leaves ==> x < |dl| && dl[x] == len[x]
    ensures Listed(hp, heapMax, leaves, elems, |dl|)
  {
    forall x | x in leaves ensures dl[x] == len[x] {
      var j :| 0 <= j < |hp[heapMax..]| && hp[heapMax..][j] == x;
      assert hp[heapMax + j] == x;
    }
  }

  lemma WithExtraSame(freq: seq<nat>, leaves: set<nat>, len: seq<nat>, dl: seq<nat>, desc: StaticDesc)
    requires |freq| == |len| == |dl| && forall x :: x in leaves ==> x < |dl| && dl[x] == len[x]
    ensures Cost(freq, leaves, WithExtra(len, desc)) == Cost(freq, leaves, WithExtra(dl, desc))
  {
    hide Cost;
    CostSame(freq, leaves, WithExtra(len, desc), WithExtra(dl, desc));
  }

  lemma HistogramSame(counts: seq<nat>, s: set<nat>, len: seq<nat>, len': seq<nat>)
    requires Histogram(counts, s, len) && |len| == |len'| && forall x :: x in s ==> x < |len| && len'[x] == len[x]
    ensures Histogram(counts, s, len')
  {
    forall b | 0 <= b < |counts| ensures counts[b] == |AtLength(s, len', b)| {
      assert AtLength(s, len', b) == AtLength(s, len, b);
    }
  }

  lemma FullCounts(counts: seq<nat>, leaves: set<nat>, len: seq<nat>, cap: nat)
    requires Histogram(counts, leaves, len) && Overfull(counts, cap, |leaves|, 0)
    requires forall x :: x in leaves ==> x < |len| && len[x] <= cap
    ensures Kraft(leaves, len, cap) == Pow2(cap)
  {
    hide Kraft, Histogram;
    HistogramSums(counts, leaves, len, cap);
  }

  // ----- Forced codes do not count -----

  lemma CostUnion(weight: seq<nat>, s: set<nat>, t: set<nat>, len: seq<nat>)
    requires |weight| == |len| && s !! t
    ensures Cost(weight, s + t, len) == Cost(weight, s, len) + Cost(weight, t, len)
  {
    hide CostVec, Sum;
    var u, v, w := CostVec(weight, s, len), CostVec(weight, t, len), CostVec(weight, s + t, len);
    forall i | 0 <= i < |len| ensures w[i] == u[i] + v[i] {
      assert i in s + t <==> i in s || i in t;
    }
    SumAdd(u, v, w);
  }

  lemma {:induction false} CostUnit(weight: seq<nat>, s: set<nat>, len: seq<nat>)
    requires |weight| == |len| && forall x :: x in s ==> x < |len| && weight[x] == 1 && len[x] == 1
    ensures Cost(weight, s, len) == |s|
    decreases |s|
  {
    hide Cost;
    if s == {} {
      CostEmpty(weight, len);
    } else {
      var x :| x in s;
      CostUnit(weight, s - {x}, len);
      CostDrop(weight, s, len, x);
    }
  }

  /** In a complete code of two symbols both have length one. */
  lemma TwoCodes(leaves: set<nat>, len: seq<nat>, cap: nat, x: nat)
    requires |leaves| == 2 && x in leaves && Kraft(leaves, len, cap) == Pow2(cap) && cap >= 1
    requires forall y :: y in leaves ==> y < |len| && 1 <= len[y] <= cap
    ensures len[x] == 1
  {
    hide Kraft;
    var y :| y in leaves - {x};
    KraftDrop(leaves, len, cap, x);
    KraftDrop(leaves - {x}, len, cap, y);
    assert |leaves - {x} - {y}| == 0;
    KraftEmpty(len, cap);
    Pow2Mono(cap - len[y], cap - 1);
    if len[x] > 1 {
      Pow2Strict(cap - len[x], cap - 1);
    }
  }

  lemma Pow2Strict(a: nat, b: nat)
    requires a < b
    ensures Pow2(a) < Pow2(b)
  {
    Pow2Mono(a, b - 1);
  }

  lemma ForcedUncounted(freq0: seq<nat>, freq: seq<nat>, desc: StaticDesc, leaves: set<nat>, forced: set<nat>, len: seq<nat>, counts: seq<nat>)
    requires ValidDesc(desc) && |len| == |freq| && Forcing(freq0, freq, desc.elems, forced)
    requires leaves == LeavesOf(freq0, desc.elems) + forced && (forced != {} ==> |leaves| == 2)
    requires CompleteCode(leaves, len, counts, desc.maxLength)
    ensures Cost(freq, leaves, WithExtra(len, desc)) - |forced| == Cost(freq0, LeavesOf(freq0, desc.elems), WithExtra(len, desc))
    ensures StaticGain(desc, freq, leaves) - Cost(freq, forced, StaticLens(desc, |freq|)) ==
            StaticGain(desc, freq0, LeavesOf(freq0, desc.elems))
  {
    hide Cost, Kraft, Histogram, LeavesOf, Extra, StaticLens;
    var old_ := LeavesOf(freq0, desc.elems);
    var plain, stat := WithExtra(len, desc), WithExtra(StaticLens(desc, |freq|), desc);
    forall x | x in forced ensures plain[x] == 1 && Extra(desc, x) == 0 {
      TwoCodes(leaves, len, desc.maxLength, x);
      assert x == 0 || x == 1 || x == 2;
    }
    CostUnit(freq, forced, plain);
    CostUnion(freq, old_, forced, plain);
    CostSameWeights(freq0, freq, old_, plain);
    CostUnion(freq, old_, forced, stat);
    CostSameWeights(freq0, freq, old_, stat);
    CostSame(freq, forced, stat, StaticLens(desc, |freq|));
    if |desc.staticLen| == 0 {
      NoStaticCost(freq, forced, desc);
    }
  }

  lemma NoStaticCost(freq: seq<nat>, s: set<nat>, desc: StaticDesc)
    requires |desc.staticLen| == 0
    ensures Cost(freq, s, StaticLens(desc, |freq|)) == 0
  {
    hide CostVec, Sum;
    SumZero(CostVec(freq, s, StaticLens(desc, |freq|)));
  }

  lemma ForcedLeaves(freq0: seq<nat>, freq: seq<nat>, elems: nat, forced: set<nat>, h: seq<nat>, heapLen: nat)
    requires Forcing(freq0, freq, elems, forced) && Queued(h, heapLen, LeavesOf(freq, elems), elems)
    requires (forced != {} ==> heapLen == 2) && heapLen >= 2
    ensures var leaves := LeavesOf(freq, elems);
            && |leaves| == heapLen && leaves == LeavesOf(freq0, elems) + forced
            && (forall x :: x in leaves ==> x < elems)
            && (|LeavesOf(freq0, elems)| >= 2 ==> forced == {})
            && (forall x :: 0 <= x < elems && x !in leaves ==> freq0[x] == 0)
            && (forall x :: x in LeavesOf(freq0, elems) ==> x < elems && freq[x] == freq0[x])
  {
    ForcingLeaves(freq0, freq, elems, forced);
  }

  lemma BitsSameWeights(freq: seq<nat>, freq': seq<nat>, desc: StaticDesc, leaves: set<nat>, len: seq<nat>)
    requires |freq| == |freq'| == |len| && forall x :: x in leaves && x < |len| ==> freq'[x] == freq[x]
    ensures Cost(freq', leaves, WithExtra(len, desc)) == Cost(freq, leaves, WithExtra(len, desc))
    ensures StaticGain(desc, freq', leaves) == StaticGain(desc, freq, leaves)
  {
    hide Cost;
    CostSameWeights(freq, freq', leaves, WithExtra(len, desc));
    CostSameWeights(freq, freq', leaves, WithExtra(StaticLens(desc, |freq|), desc));
  }

  /** Optimality of the tree that build_tree leaves behind. */
  lemma BuiltOptimal(h: seq<nat>, heapMax: nat, freq: seq<nat>, dad: seq<nat>, leaves: set<nat>, merges: seq<Merge>,
                     elems: nat, depth: seq<nat>, len: seq<nat>, cap: nat)
    requires Built(h, heapMax, freq, dad, leaves, merges, elems) && |len| == |depth| == |freq|
    requires Depths(depth, merges, elems, |merges|)
    requires (forall x :: x in leaves ==> depth[x] <= cap) ==> forall x :: x in leaves ==> len[x] == depth[x]
    ensures Optimal(freq, leaves, depth)
    ensures (forall x :: x in leaves ==> depth[x] <= cap) ==> Optimal(freq, leaves, len)
  {
    TrueDepthsOptimal(freq, leaves, merges, elems, depth);
    if forall x :: x in leaves ==> depth[x] <= cap {
      CostSame(freq, leaves, depth, len);
      OptimalSame(freq, leaves, depth, len);
    }
  }

  lemma OptimalSame(weight: seq<nat>, active: set<nat>, len: seq<nat>, len': seq<nat>)
    requires |weight| == |len| == |len'| && Optimal(weight, active, len) && Cost(weight, active, len) == Cost(weight, active, len')
    ensures Optimal(weight, active, len')
  {
    hide Cost, Decodable;
  }

  /** build_tree up to the call of gen_bitlen. */
  method BuildForest(s: TreeBuilder, desc: StaticDesc)
    returns (maxCode: int, ghost leaves: set<nat>, ghost forced: set<nat>, ghost freq: seq<nat>, ghost merges: seq<Merge>)
    requires s.Arrays() && ValidDesc(desc) && s.fc.Length == s.dl.Length == 2 * desc.elems + 1
    requires Total(s.fc[..], LeavesOf(s.fc[..], desc.elems)) <= 0xFFFD
    modifies s, s.heap, s.depth, s.fc, s.dl
    ensures |freq| == s.fc.Length
    ensures 1 <= maxCode < desc.elems && IsMaxCode(maxCode, leaves) && |leaves| >= 2
    ensures leaves == old(LeavesOf(s.fc[..], desc.elems)) + forced && (forced != {} ==> |leaves| == 2)
    ensures old(|LeavesOf(s.fc[..], desc.elems)|) >= 2 ==> forced == {}
    ensures Forcing(old(s.fc[..]), freq, desc.elems, forced)
    ensures forall x :: x in leaves ==> x < desc.elems && s.fc[x] == freq[x]
    ensures forall x :: x in old(LeavesOf(s.fc[..], desc.elems)) ==> s.fc[x] == old(s.fc[x])
    ensures Built(s.heap[..], s.heapMax, s.fc[..], s.dl[..], leaves, merges, desc.elems)
    ensures forall x :: 0 <= x < desc.elems && x !in leaves ==> s.dl[x] == 0
    ensures s.optLen == old(s.optLen) - |forced|
    ensures s.staticLen == old(s.staticLen) - Cost(freq, forced, StaticLens(desc, |freq|))
  {
    hide Cost, LeavesOf, Built, Queued, Total, StaticLens, Forcing;
    ghost var freq0: seq<nat> := s.fc[..];
    maxCode := s.CollectLeaves(desc.elems);
    assert s.fc[..] == freq0;
    maxCode, forced := s.ForceTwoCodes(desc, maxCode);
    leaves := LeavesOf(s.fc[..], desc.elems);
    freq := s.fc[..];
    ForcedLeaves(freq0, freq, desc.elems, forced, s.heap[..], s.heapLen);
    BelowBound(leaves, maxCode + 1);
    merges := s.MergeAll(desc, leaves);
    assert forall x :: 0 <= x < desc.elems ==> s.fc[..desc.elems][x] == freq[..desc.elems][x];
  }

  /** build_tree up to the call of gen_codes: for every set of frequencies whose total fits a 16-bit counter
      the lengths form a complete code within the limit, opt_len and static_len grow by exactly the bits the
      symbols of non-zero frequency will take, and if no leaf of the Huffman tree is deeper than the limit
      then the code is optimal. */
  method BuildLengths(s: TreeBuilder, desc: StaticDesc)
    returns (maxCode: int, ghost leaves: set<nat>, ghost depth: seq<nat>)
    requires s.Arrays() && ValidDesc(desc) && s.fc.Length == s.dl.Length == 2 * desc.elems + 1
    requires Total(s.fc[..], LeavesOf(s.fc[..], desc.elems)) <= 0xFFFD
    modifies s, s.heap, s.depth, s.blCount, s.fc, s.dl
    ensures 1 <= maxCode < desc.elems && IsMaxCode(maxCode, leaves) && |leaves| >= 2
    ensures old(LeavesOf(s.fc[..], desc.elems)) <= leaves
    ensures old(|LeavesOf(s.fc[..], desc.elems)|) >= 2 ==> leaves == old(LeavesOf(s.fc[..], desc.elems))
    ensures forall x :: x in leaves ==> x < desc.elems
    ensures CompleteCode(leaves, s.dl[..], s.blCount[..], desc.maxLength)
    ensures forall x :: 0 <= x < desc.elems && x !in leaves ==> s.dl[x] == 0
    ensures s.optLen == old(s.optLen) + Cost(old(s.fc[..]), old(LeavesOf(s.fc[..], desc.elems)), WithExtra(s.dl[..], desc))
    ensures s.staticLen == old(s.staticLen) + StaticGain(desc, old(s.fc[..]), old(LeavesOf(s.fc[..], desc.elems)))
    ensures |depth| == s.dl.Length && Optimal(s.fc[..], leaves, depth)
    ensures (forall x :: x in leaves ==> depth[x] <= desc.maxLength) ==> Optimal(s.fc[..], leaves, s.dl[..])
    ensures LighterLonger(s.fc[..], leaves, s.dl[..])
    ensures forall x :: x in old(LeavesOf(s.fc[..], desc.elems)) ==> s.fc[x] == old(s.fc[x])
  {
    hide Cost, Kraft, LeavesOf, Built, CompleteCode, Optimal, StaticGain, StaticLens, Forcing, Depths, LighterLonger;
    ghost var freq0: seq<nat> := s.fc[..];
    ghost var forced, freq1, merges;
    maxCode, leaves, forced, freq1, merges := BuildForest(s, desc);
    ghost var dad: seq<nat> := s.dl[..];
    depth := GenBitlen(s, desc, maxCode, leaves, merges);
    ForcedUncounted(freq0, freq1, desc, leaves, forced, s.dl[..], s.blCount[..]);
    BitsSameWeights(freq1, s.fc[..], desc, leaves, s.dl[..]);
    BuiltOptimal(s.heap[..], s.heapMax, s.fc[..], dad, leaves, merges, desc.elems, depth, s.dl[..], desc.maxLength);
    if forall x :: x in leaves ==> depth[x] <= desc.maxLength {
      CompleteLonger(s.fc[..], leaves, s.dl[..], s.blCount[..], desc.maxLength);
    }
  }

  lemma CompleteLonger(freq: seq<nat>, leaves: set<nat>, len: seq<nat>, counts: seq<nat>, cap: nat)
    requires |freq| == |len| && CompleteCode(leaves, len, counts, cap) && Optimal(freq, leaves, len)
    ensures LighterLonger(freq, leaves, len)
  {
    hide Kraft, Optimal, Histogram;
    OptimalLonger(freq, leaves, len, cap);
  }
}
