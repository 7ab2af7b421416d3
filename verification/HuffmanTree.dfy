/** build_tree of trees.c: the heap is emptied two nodes at a time into a Huffman tree, the code
    lengths are read off the tree, and lengths above the limit are repaired. */
module HuffmanTree {
  import opened Sums
  import opened HuffmanCost
  import opened HuffmanHeap
  import opened HuffmanMerge

  const L_CODES: nat := 286
  const HEAP_SIZE: nat := 573   // 2 * L_CODES + 1
  const MAX_BITS: nat := 15

  /** static_tree_desc: staticLen is empty when there is no static tree. */
  datatype StaticDesc = StaticDesc(staticLen: seq<nat>, extra: seq<nat>, base: nat, elems: nat, maxLength: nat)

  // ----- Total weight: the 16-bit frequency counters never wrap -----

  ghost function Ones(n: nat): (s: seq<nat>)
    ensures |s| == n && forall i :: 0 <= i < n ==> s[i] == 1
  {
    seq(n, _ => 1)
  }

  ghost function Total(weight: seq<nat>, active: set<nat>): int {
    Cost(weight, active, Ones(|weight|))
  }

  lemma CostNonNegative(weight: seq<nat>, active: set<nat>, len: seq<nat>)
    requires |weight| == |len|
    ensures Cost(weight, active, len) >= 0
  {
    hide CostVec;
    SumNonNegative(CostVec(weight, active, len));
  }

  lemma CostSameWeights(weight: seq<nat>, weight': seq<nat>, active: set<nat>, len: seq<nat>)
    requires |weight| == |len| == |weight'|
    requires forall i :: i in active && i < |len| ==> weight'[i] == weight[i]
    ensures Cost(weight', active, len) == Cost(weight, active, len)
  {
    hide CostVec;
    assert CostVec(weight', active, len) == CostVec(weight, active, len);
  }

  lemma TotalBoundsPair(weight: seq<nat>, active: set<nat>, a: nat, b: nat)
    requires a in active && b in active && a != b && a < |weight| && b < |weight|
    ensures weight[a] + weight[b] <= Total(weight, active)
  {
    hide Cost;
    var ones := Ones(|weight|);
    CostDrop(weight, active, ones, a);
    CostDrop(weight, active - {a}, ones, b);
    CostNonNegative(weight, active - {a} - {b}, ones);
  }

  /** Merging keeps the total. */
  lemma TotalMerged(weight: seq<nat>, active: set<nat>, a: nat, b: nat, p: nat)
    requires a in active && b in active && a != b && p !in active
    requires a < |weight| && b < |weight| && p < |weight|
    ensures Total(weight[p := weight[a] + weight[b]], Merged(active, a, b, p)) == Total(weight, active)
  {
    hide Cost;
    var w, ones := weight[p := weight[a] + weight[b]], Ones(|weight|);
    CostSameWeights(weight, w, active, ones);
    MergedCost(w, active, ones, a, b, p, 1);
    assert ones[p := 1] == ones;
  }

  // ----- The state of the merge loop -----

  /** heap[heap_max..] lists the merged nodes, latest first. */
  ghost predicate Tail(h: seq<nat>, merges: seq<Merge>) {
    && |h| == HEAP_SIZE && 2 * |merges| < HEAP_SIZE
    && forall t :: 0 <= t < |merges| ==>
         h[HEAP_SIZE - 1 - 2 * t] == merges[t].first && h[HEAP_SIZE - 2 - 2 * t] == merges[t].second
  }

  ghost predicate Dads(dad: seq<nat>, merges: seq<Merge>, elems: nat) {
    forall t :: 0 <= t < |merges| ==>
      && merges[t].first < |dad| && merges[t].second < |dad|
      && dad[merges[t].first] == elems + t && dad[merges[t].second] == elems + t
  }

  ghost predicate Merging(h: seq<nat>, heapLen: nat, heapMax: nat, freq: seq<nat>, depth: seq<nat>, dad: seq<nat>,
                          leaves: set<nat>, merges: seq<Merge>, elems: nat) {
    && |freq| == |dad| == 2 * elems + 1 <= |depth|
    && heapLen + |merges| == |leaves| && |leaves| <= elems <= L_CODES && heapLen >= 1
    && heapMax == HEAP_SIZE - 2 * |merges|
    && Tail(h, merges) && Dads(dad, merges, elems)
    && Greedy(freq, leaves, merges, elems)
    && Nodes(h, heapLen, |freq|) && Ordered(h, heapLen, freq, depth, 1)
    && Queue(h, heapLen) == multiset(Active(leaves, merges, elems))
    && Total(freq, Active(leaves, merges, elems)) <= 0xFFFF
  }

  /** What one round of the loop does to the merge history. */
  lemma ExtendGreedy(freq: seq<nat>, leaves: set<nat>, merges: seq<Merge>, elems: nat, n: nat, m: nat)
    requires Greedy(freq, leaves, merges, elems) && elems + |merges| < |freq|
    requires TwoLightest(freq, Active(leaves, merges, elems), n, m)
    ensures var p := elems + |merges|;
            && Greedy(freq[p := freq[n] + freq[m]], leaves, merges + [Merge(n, m)], elems)
            && Active(leaves, merges + [Merge(n, m)], elems) == Merged(Active(leaves, merges, elems), n, m, p)
            && p !in Active(leaves, merges, elems) && n < p && m < p
  {
    hide Active;
    var p := elems + |merges|;
    var next := merges + [Merge(n, m)];
    assert next[..|merges|] == merges;
    ActiveBelow(freq, leaves, merges, elems);
    GreedyFrame(freq, freq[p := freq[n] + freq[m]], leaves, merges, elems);
    ActiveNext(leaves, merges, elems, Merge(n, m));
  }

  lemma ActiveNext(leaves: set<nat>, merges: seq<Merge>, elems: nat, x: Merge)
    ensures Active(leaves, merges + [x], elems) == Merged(Active(leaves, merges, elems), x.first, x.second, elems + |merges|)
  {
    assert (merges + [x])[..|merges|] == merges;
  }

  lemma ExtendDads(freq: seq<nat>, leaves: set<nat>, dad: seq<nat>, merges: seq<Merge>, elems: nat, n: nat, m: nat)
    requires Greedy(freq, leaves, merges + [Merge(n, m)], elems) && Dads(dad, merges, elems)
    requires n < |dad| && m < |dad|
    ensures var p := elems + |merges|;
            Dads(dad[n := p][m := p], merges + [Merge(n, m)], elems)
  {
    hide Greedy;
    var next := merges + [Merge(n, m)];
    forall t | 0 <= t < |merges|
      ensures next[t].first != n && next[t].first != m && next[t].second != n && next[t].second != m
    {
      MergedOnce(freq, leaves, next, elems, t, |merges|);
    }
  }

  lemma SecondLightest(h: seq<nat>, len: nat, freq: seq<nat>, depth: seq<nat>, active: set<nat>, n: nat)
    requires |freq| <= |depth| && len >= 1 && Nodes(h, len, |freq|) && Ordered(h, len, freq, depth, 1)
    requires n in active && n < |freq| && Queue(h, len) == multiset(active) - multiset{n}
    requires forall x :: x in active ==> x < |freq| && freq[n] <= freq[x]
    ensures TwoLightest(freq, active, n, h[1])
  {
    hide Queue, Ordered;
    LightestInQueue(h, len, freq, depth);
    assert forall x :: x in active && x != n ==> x in multiset(active) - multiset{n};
    assert h[1] in multiset(active);
    assert multiset(active)[n] == 1;
  }

  function Max(a: int, b: int): int {
    if a >= b then a else b
  }

  lemma QueueAfterMerge(h: seq<nat>, len: nat, active: set<nat>, n: nat, p: nat)
    requires 1 <= len < |h| && n in active && p !in active && h[1] in active && h[1] != n
    requires Queue(h, len) == multiset(active) - multiset{n}
    ensures Queue(h[1 := p], len) == multiset(Merged(active, n, h[1], p))
  {
    hide Queue;
    QueueSet(h, len, 1, p);
    assert multiset(Merged(active, n, h[1], p)) == multiset(active) - multiset{n} - multiset{h[1]} + multiset{p};
  }

  lemma OrderedNewRoot(h: seq<nat>, len: nat, freq: seq<nat>, depth: seq<nat>, freq': seq<nat>, depth': seq<nat>, p: nat)
    requires |freq| == |freq'| <= |depth| == |depth'| && p < |freq| && len >= 1
    requires Nodes(h, len, |freq|) && Ordered(h, len, freq, depth, 1)
    requires forall k :: 1 <= k <= len ==> h[k] != p
    requires forall x :: 0 <= x < |freq| && x != p ==> freq'[x] == freq[x] && depth'[x] == depth[x]
    ensures Nodes(h[1 := p], len, |freq|) && Ordered(h[1 := p], len, freq', depth', 2)
  {
    var g := h[1 := p];
    forall j | 2 <= j <= len && 2 <= j / 2 ensures Smaller(freq', depth', g[j / 2], g[j]) {
      assert Smaller(freq, depth, h[j / 2], h[j]);
    }
  }

  lemma TailSame(h: seq<nat>, h': seq<nat>, merges: seq<Merge>, len: nat)
    requires Tail(h, merges) && |h'| == |h| && len < HEAP_SIZE - 2 * |merges|
    requires forall i :: len < i < |h| ==> h'[i] == h[i]
    ensures Tail(h', merges)
  {
  }

  lemma {:induction false} ActiveLeaves(leaves: set<nat>, merges: seq<Merge>, elems: nat)
    ensures forall x :: x in Active(leaves, merges, elems) && x < elems ==> x in leaves
  {
    if merges != [] {
      ActiveLeaves(leaves, merges[..|merges| - 1], elems);
    }
  }

  lemma QueueAvoids(h: seq<nat>, len: nat, active: set<nat>, n: nat, p: nat)
    requires len < |h| && Queue(h, len) == multiset(active) - multiset{n} && p !in active
    ensures forall k :: 1 <= k <= len ==> h[k] != p
  {
    forall k | 1 <= k <= len ensures h[k] != p {
      QueueMember(h, len, h[k]);
      assert p !in multiset(active);
    }
  }

  lemma OrderedSame(h: seq<nat>, h': seq<nat>, len: nat, freq: seq<nat>, depth: seq<nat>)
    requires |freq| <= |depth| && |h'| == |h| && Nodes(h, len, |freq|) && Ordered(h, len, freq, depth, 1)
    requires forall k :: 1 <= k <= len ==> h'[k] == h[k]
    ensures Nodes(h', len, |freq|) && Ordered(h', len, freq, depth, 1) && Queue(h', len) == Queue(h, len)
  {
    forall j | 2 <= j <= len && 1 <= j / 2 ensures Smaller(freq, depth, h'[j / 2], h'[j]) {
      assert Smaller(freq, depth, h[j / 2], h[j]);
    }
    QueueSameOutside(h, h', len);
  }

  /** The queue after taking out n: the rest of a round, up to sifting down the new node. */
  ghost predicate Removed(h: seq<nat>, heapLen: nat, freq: seq<nat>, depth: seq<nat>, leaves: set<nat>,
                          merges: seq<Merge>, elems: nat, n: nat) {
    var active := Active(leaves, merges, elems);
    && |freq| == 2 * elems + 1 <= |depth| && |h| == HEAP_SIZE
    && 1 <= heapLen && heapLen + |merges| + 1 == |leaves| && |leaves| <= elems <= L_CODES
    && Tail(h, merges) && Greedy(freq, leaves, merges, elems)
    && Nodes(h, heapLen, |freq|) && Ordered(h, heapLen, freq, depth, 1)
    && n in active && Queue(h, heapLen) == multiset(active) - multiset{n}
    && (forall x :: x in active ==> x < |freq| && freq[n] <= freq[x])
    && Total(freq, active) <= 0xFFFF
  }

  lemma RoundHistory(h: seq<nat>, heapLen: nat, freq: seq<nat>, depth: seq<nat>, leaves: set<nat>,
                     merges: seq<Merge>, elems: nat, n: nat)
    requires Removed(h, heapLen, freq, depth, leaves, merges, elems, n)
    ensures var m, p, active := h[1], elems + |merges|, Active(leaves, merges, elems);
            && m < |freq| && p < |freq| && n < |freq| && n < p && m < p && n != m && m in active && p !in active
            && freq[n] + freq[m] <= 0xFFFF
            && Greedy(freq[p := freq[n] + freq[m]], leaves, merges + [Merge(n, m)], elems)
            && Active(leaves, merges + [Merge(n, m)], elems) == Merged(active, n, m, p)
            && Total(freq[p := freq[n] + freq[m]], Merged(active, n, m, p)) <= 0xFFFF
  {
    hide Total, Ordered, Queue, Active, Greedy;
    var m, p, active := h[1], elems + |merges|, Active(leaves, merges, elems);
    SecondLightest(h, heapLen, freq, depth, active, n);
    ExtendGreedy(freq, leaves, merges, elems, n, m);
    TotalBoundsPair(freq, active, n, m);
    TotalMerged(freq, active, n, m, p);
  }

  lemma RoundQueue(h: seq<nat>, heapLen: nat, freq: seq<nat>, depth: seq<nat>, depth': seq<nat>, leaves: set<nat>,
                   merges: seq<Merge>, elems: nat, n: nat, h': seq<nat>)
    requires Removed(h, heapLen, freq, depth, leaves, merges, elems, n)
    requires var m, p := h[1], elems + |merges|;
             && m < |freq| && n != m && m in Active(leaves, merges, elems) && p !in Active(leaves, merges, elems)
             && |depth'| == |depth| && (forall x :: 0 <= x < |freq| && x != p ==> depth'[x] == depth[x])
             && h' == h[HEAP_SIZE - 1 - 2 * |merges| := n][HEAP_SIZE - 2 - 2 * |merges| := m][1 := p]
    ensures var m, p := h[1], elems + |merges|;
            var freq' := freq[p := freq[n] + freq[m]];
            && Nodes(h', heapLen, |freq|) && Ordered(h', heapLen, freq', depth', 2)
            && Queue(h', heapLen) == multiset(Merged(Active(leaves, merges, elems), n, m, p))
            && Tail(h', merges + [Merge(n, m)])
  {
    hide Total, Ordered, Queue, Active, Greedy;
    var m, p, active := h[1], elems + |merges|, Active(leaves, merges, elems);
    var g := h[HEAP_SIZE - 1 - 2 * |merges| := n][HEAP_SIZE - 2 - 2 * |merges| := m];
    OrderedSame(h, g, heapLen, freq, depth);
    QueueAvoids(g, heapLen, active, n, p);
    OrderedNewRoot(g, heapLen, freq, depth, freq[p := freq[n] + freq[m]], depth', p);
    QueueAfterMerge(g, heapLen, active, n, p);
  }

  /** The symbols below n with non-zero frequency. */
  ghost function LeavesOf(freq: seq<nat>, n: nat): set<nat>
    requires n <= |freq|
  {
    set x: nat | x < n && freq[x] != 0
  }

  /** The queue holds exactly the given symbols. */
  ghost predicate Queued(h: seq<nat>, heapLen: nat, leaves: set<nat>, elems: nat) {
    && elems <= L_CODES && |h| == HEAP_SIZE && heapLen == |leaves| <= elems
    && (forall x :: x in leaves ==> x < elems)
    && Nodes(h, heapLen, elems) && Queue(h, heapLen) == multiset(leaves)
  }

  lemma Enqueue(h: seq<nat>, heapLen: nat, leaves: set<nat>, elems: nat, x: nat)
    requires Queued(h, heapLen, leaves, elems) && x < elems && x !in leaves
    ensures heapLen + 1 < HEAP_SIZE && Queued(h[heapLen + 1 := x], heapLen + 1, leaves + {x}, elems)
  {
    BelowBound(leaves + {x}, elems);
    var g := h[heapLen + 1 := x];
    assert g[1..heapLen + 2] == h[1..heapLen + 1] + [x];
    assert multiset(leaves + {x}) == multiset(leaves) + multiset{x};
  }

  lemma {:induction false} BelowBound(s: set<nat>, n: nat)
    requires forall x :: x in s ==> x < n
    ensures |s| <= n
  {
    if n == 0 {
      assert s == {};
    } else {
      BelowBound(s - {n - 1}, n - 1);
    }
  }

  ghost predicate IsMaxCode(maxCode: int, leaves: set<nat>) {
    && (forall x :: x in leaves ==> x <= maxCode)
    && (if leaves == {} then maxCode == -1 else maxCode in leaves)
  }

  /** Code lengths in the static tree, zero where there is none. */
  ghost function StaticLens(desc: StaticDesc, n: nat): (s: seq<nat>)
    ensures |s| == n && forall x :: 0 <= x < n ==> s[x] == if x < |desc.staticLen| then desc.staticLen[x] else 0
  {
    seq(n, x requires x >= 0 => if x < |desc.staticLen| then desc.staticLen[x] else 0)
  }

  lemma CostEmpty(weight: seq<nat>, len: seq<nat>)
    requires |weight| == |len|
    ensures Cost(weight, {}, len) == 0
  {
    hide CostVec;
    SumZero(CostVec(weight, {}, len));
  }

  /** Adding a node of weight one to a cost. */
  lemma CostAddOne(weight: seq<nat>, s: set<nat>, x: nat, len: seq<nat>)
    requires |weight| == |len| && x < |len| && x !in s
    ensures Cost(weight[x := 1], s + {x}, len) == Cost(weight, s, len) + len[x]
  {
    hide Cost;
    CostSameWeights(weight, weight[x := 1], s, len);
    CostSet(weight[x := 1], s, len, x, len[x]);
    assert len[x := len[x]] == len;
  }

  lemma EmptyQueue(h: seq<nat>, freq: seq<nat>, elems: nat)
    requires |h| == HEAP_SIZE && elems <= L_CODES
    ensures LeavesOf(freq, 0) == {} && Queued(h, 0, {}, elems)
  {
    assert h[1..1] == [];
  }

  lemma NextLeaf(freq: seq<nat>, n: nat)
    requires n < |freq|
    ensures LeavesOf(freq, n + 1) == if freq[n] != 0 then LeavesOf(freq, n) + {n} else LeavesOf(freq, n)
    ensures n !in LeavesOf(freq, n) && forall x :: x in LeavesOf(freq, n) ==> x < n
  {
  }

  lemma OneLeaf(leaves: set<nat>, a: nat, b: nat)
    requires |leaves| < 2 && a in leaves && a != b
    ensures b !in leaves
  {
    assert |leaves - {a}| == 0;
    assert b !in leaves - {a};
  }

  /** freq is freq0 with the forced codes set to one. */
  ghost predicate Forcing(freq0: seq<nat>, freq: seq<nat>, elems: nat, forced: set<nat>) {
    && elems <= |freq0| == |freq|
    && forced !! LeavesOf(freq0, elems) && (forall x :: x in forced ==> x <= 2 && x < elems)
    && (forall x :: 0 <= x < |freq| ==> freq[x] == if x in forced then 1 else freq0[x])
  }

  lemma ForcingLeaves(freq0: seq<nat>, freq: seq<nat>, elems: nat, forced: set<nat>)
    requires Forcing(freq0, freq, elems, forced)
    ensures LeavesOf(freq, elems) == LeavesOf(freq0, elems) + forced
  {
  }

  lemma ForcingNothing(freq: seq<nat>, elems: nat)
    requires elems <= |freq|
    ensures Forcing(freq, freq, elems, {})
  {
  }

  lemma ForcingStep(freq0: seq<nat>, freq: seq<nat>, elems: nat, forced: set<nat>, node: nat)
    requires Forcing(freq0, freq, elems, forced) && node <= 2 && node < elems && node !in LeavesOf(freq, elems)
    ensures Forcing(freq0, freq[node := 1], elems, forced + {node}) && node !in forced
  {
    ForcingLeaves(freq0, freq, elems, forced);
  }

  /** What the merge loop leaves behind: the whole history, with the root on top. */
  ghost predicate Built(h: seq<nat>, heapMax: nat, freq: seq<nat>, dad: seq<nat>,
                        leaves: set<nat>, merges: seq<Merge>, elems: nat) {
    && |freq| == |dad| == 2 * elems + 1 && elems <= L_CODES && |h| == HEAP_SIZE
    && merges != [] && |merges| + 1 == |leaves| <= elems
    && heapMax == HEAP_SIZE - 2 * |merges| - 1
    && Greedy(freq, leaves, merges, elems) && Tail(h, merges) && Dads(dad, merges, elems)
    && h[heapMax] == Root(merges, elems)
    && Active(leaves, merges, elems) == {Root(merges, elems)}
  }

  lemma LastIsRoot(h: seq<nat>, leaves: set<nat>, merges: seq<Merge>, elems: nat)
    requires |h| == HEAP_SIZE && merges != [] && Queue(h, 1) == multiset(Active(leaves, merges, elems))
    ensures h[1] == Root(merges, elems) && Active(leaves, merges, elems) == {h[1]}
  {
    assert h[1..2] == [h[1]];
    var active := Active(leaves, merges, elems);
    assert Root(merges, elems) in active;
    assert forall x :: x in active <==> x in multiset(active);
  }

  lemma MergingStart(h: seq<nat>, heapLen: nat, freq: seq<nat>, depth: seq<nat>, dad: seq<nat>, leaves: set<nat>, elems: nat)
    requires Queued(h, heapLen, leaves, elems) && heapLen >= 1 && |freq| == |dad| == 2 * elems + 1 <= |depth|
    requires Nodes(h, heapLen, |freq|) && Ordered(h, heapLen, freq, depth, 1) && Total(freq, leaves) <= 0xFFFF
    ensures Merging(h, heapLen, HEAP_SIZE, freq, depth, dad, leaves, [], elems)
  {
    hide Queue, Ordered, Total;
  }

  lemma QueueBelow(h: seq<nat>, len: nat, leaves: set<nat>, elems: nat)
    requires len < |h| && Queue(h, len) == multiset(leaves) && forall x :: x in leaves ==> x < elems
    ensures Nodes(h, len, elems)
  {
    forall k | 1 <= k <= len ensures h[k] < elems {
      QueueMember(h, len, h[k]);
      assert h[k] in multiset(leaves);
    }
  }

  class TreeBuilder {
    const heap: array<nat>
    const depth: array<nat>
    const blCount: array<nat>
    const fc: array<nat>     // Freq, later Code
    const dl: array<nat>     // Dad, later Len
    var heapLen: nat
    var heapMax: nat
    var optLen: int
    var staticLen: int

    constructor (elems: nat, optLen: int, staticLen: int)
      ensures Arrays() && fc.Length == dl.Length == 2 * elems + 1 && this.optLen == optLen && this.staticLen == staticLen
      ensures fresh(heap) && fresh(depth) && fresh(blCount) && fresh(fc) && fresh(dl)
    {
      heap, depth, blCount := new nat[HEAP_SIZE](_ => 0), new nat[HEAP_SIZE](_ => 0), new nat[MAX_BITS + 1](_ => 0);
      fc, dl := new nat[2 * elems + 1](_ => 0), new nat[2 * elems + 1](_ => 0);
      heapLen, heapMax := 0, HEAP_SIZE;
      this.optLen, this.staticLen := optLen, staticLen;
    }

    ghost predicate Arrays() {
      && heap.Length == HEAP_SIZE && depth.Length == HEAP_SIZE && blCount.Length == MAX_BITS + 1
      && heap != depth && heap != blCount && heap != fc && heap != dl && depth != blCount && depth != fc && depth != dl
      && blCount != fc && blCount != dl && fc != dl
    }

    /** Removes the least frequent node from the queue. */
    method TakeSmallest(elems: nat, ghost leaves: set<nat>, ghost merges: seq<Merge>) returns (n: nat)
      requires Arrays() && heapLen >= 2
      requires Merging(heap[..], heapLen, heapMax, fc[..], depth[..], dl[..], leaves, merges, elems)
      modifies this`heapLen, heap
      ensures heapLen == old(heapLen) - 1
      ensures Removed(heap[..], heapLen, fc[..], depth[..], leaves, merges, elems, n)
    {
      hide Queue, Ordered, Greedy, Active, Total, Dads, Tail;
      ghost var h, active := heap[..], Active(leaves, merges, elems);
      n := PqRemove(heap, heapLen, fc, depth);
      heapLen := heapLen - 1;
      TailSame(h, heap[..], merges, heapLen + 1);
      assert forall x :: x in active ==> x in multiset(active);
    }

    /** Makes a new node the father of n and the node now smallest, and inserts it in the queue. */
    method Combine(elems: nat, node: nat, n: nat, ghost leaves: set<nat>, ghost merges: seq<Merge>)
      returns (ghost merges': seq<Merge>)
      requires Arrays() && node == elems + |merges| && heapMax == HEAP_SIZE - 2 * |merges|
      requires fc.Length == dl.Length && Dads(dl[..], merges, elems)
      requires Removed(heap[..], heapLen, fc[..], depth[..], leaves, merges, elems, n)
      modifies this`heapMax, heap, depth, fc, dl
      ensures merges <= merges' && |merges'| == |merges| + 1
      ensures Merging(heap[..], heapLen, heapMax, fc[..], depth[..], dl[..], leaves, merges', elems)
      ensures fc[..elems] == old(fc[..elems])
      ensures forall x :: 0 <= x < elems && x !in leaves ==> dl[x] == old(dl[x])
    {
      hide Queue, Ordered, Greedy, Active, Total, Dads, Tail, Nodes, Merged;
      ghost var f: seq<nat>, d: seq<nat>, l: seq<nat>, h: seq<nat> := fc[..], depth[..], dl[..], heap[..];
      RoundHistory(h, heapLen, f, d, leaves, merges, elems, n);
      ActiveLeaves(leaves, merges, elems);
      var m: nat := heap[1];
      heapMax := heapMax - 1;
      heap[heapMax] := n;
      heapMax := heapMax - 1;
      heap[heapMax] := m;
      fc[node] := (fc[n] + fc[m]) % 0x10000;
      depth[node] := (Max(depth[n], depth[m]) + 1) % 0x100;
      dl[n] := node;
      dl[m] := node;
      heap[1] := node;
      merges' := merges + [Merge(n, m)];
      ghost var f': seq<nat> := f[node := f[n] + f[m]];
      ghost var h': seq<nat> := h[heapMax + 1 := n][heapMax := m][1 := node];
      assert fc[..] == f' && dl[..] == l[n := node][m := node] && heap[..] == h';
      RoundQueue(h, heapLen, f, d, depth[..], leaves, merges, elems, n, h');
      ExtendDads(f', leaves, l, merges, elems, n, m);
      PqDownHeap(heap, heapLen, fc, depth, 1);
      TailSame(h', heap[..], merges', heapLen);
    }
  
    /** Builds the initial, unordered queue and clears the length of unused symbols. */
    method CollectLeaves(elems: nat) returns (maxCode: int)
      requires Arrays() && elems <= L_CODES && fc.Length == dl.Length == 2 * elems + 1
      modifies this`heapLen, this`heapMax, heap, depth, dl
      ensures Queued(heap[..], heapLen, LeavesOf(fc[..], elems), elems) && heapMax == HEAP_SIZE
      ensures IsMaxCode(maxCode, LeavesOf(fc[..], elems))
      ensures forall x :: 0 <= x < elems && fc[x] == 0 ==> dl[x] == 0
    {
      hide Queue, LeavesOf, Nodes;
      heapLen, heapMax, maxCode := 0, HEAP_SIZE, -1;
      ghost var f: seq<nat> := fc[..];
      EmptyQueue(heap[..], f, elems);
      for n := 0 to elems
        invariant fc[..] == f
        invariant Queued(heap[..], heapLen, LeavesOf(f, n), elems) && heapMax == HEAP_SIZE
        invariant IsMaxCode(maxCode, LeavesOf(f, n))
        invariant forall x :: 0 <= x < n && f[x] == 0 ==> dl[x] == 0
      {
        NextLeaf(f, n);
        if fc[n] != 0 {
          Enqueue(heap[..], heapLen, LeavesOf(f, n), elems, n);
          ghost var g: seq<nat> := heap[..][heapLen + 1 := n];
          heapLen := heapLen + 1;
          heap[heapLen] := n;
          assert heap[..] == g;
          maxCode := n;
          depth[n] := 0;
        } else {
          dl[n] := 0;
        }
      }
    }

    /** Adds one forced code. */
    method ForceCode(desc: StaticDesc, node: nat)
      requires Arrays() && 3 <= desc.elems <= L_CODES && fc.Length == dl.Length == 2 * desc.elems + 1
      requires |desc.staticLen| == 0 || desc.elems <= |desc.staticLen|
      requires Queued(heap[..], heapLen, LeavesOf(fc[..], desc.elems), desc.elems)
      requires node < desc.elems && node !in LeavesOf(fc[..], desc.elems)
      modifies this`heapLen, this`optLen, this`staticLen, heap, depth, fc
      ensures fc[..] == old(fc[..])[node := 1] && heapLen == old(heapLen) + 1
      ensures LeavesOf(fc[..], desc.elems) == old(LeavesOf(fc[..], desc.elems)) + {node}
      ensures Queued(heap[..], heapLen, LeavesOf(fc[..], desc.elems), desc.elems)
      ensures optLen == old(optLen) - 1
      ensures staticLen == old(staticLen) - StaticLens(desc, fc.Length)[node]
    {
      hide Queue;
      ghost var leaves := LeavesOf(fc[..], desc.elems);
      Enqueue(heap[..], heapLen, leaves, desc.elems, node);
      ghost var g: seq<nat> := heap[..][heapLen + 1 := node];
      heapLen := heapLen + 1;
      heap[heapLen] := node;
      assert heap[..] == g;
      fc[node] := 1;
      depth[node] := 0;
      optLen := optLen - 1;
      if |desc.staticLen| != 0 {
        staticLen := staticLen - desc.staticLen[node];
      }
      assert LeavesOf(fc[..], desc.elems) == leaves + {node};
    }

    /** Forces at least two codes of non-zero frequency; their bits are not counted. */
    method ForceTwoCodes(desc: StaticDesc, maxCode0: int) returns (maxCode: int, ghost forced: set<nat>)
      requires Arrays() && 3 <= desc.elems <= L_CODES && fc.Length == dl.Length == 2 * desc.elems + 1
      requires |desc.staticLen| == 0 || desc.elems <= |desc.staticLen|
      requires Queued(heap[..], heapLen, LeavesOf(fc[..], desc.elems), desc.elems)
      requires IsMaxCode(maxCode0, LeavesOf(fc[..], desc.elems))
      modifies this`heapLen, this`optLen, this`staticLen, heap, depth, fc
      ensures Queued(heap[..], heapLen, LeavesOf(fc[..], desc.elems), desc.elems) && heapLen >= 2
      ensures IsMaxCode(maxCode, LeavesOf(fc[..], desc.elems))
      ensures LeavesOf(fc[..], desc.elems) == old(LeavesOf(fc[..], desc.elems)) + forced
      ensures Forcing(old(fc[..]), fc[..], desc.elems, forced) && (forced != {} ==> heapLen == 2)
      ensures Total(fc[..], LeavesOf(fc[..], desc.elems)) == old(Total(fc[..], LeavesOf(fc[..], desc.elems))) + |forced|
      ensures |forced| <= 2 && optLen == old(optLen) - |forced|
      ensures staticLen == old(staticLen) - Cost(fc[..], forced, StaticLens(desc, fc.Length))
    {
      hide Queue, Cost, LeavesOf, Nodes, StaticLens, Forcing, Ones;
      maxCode, forced := maxCode0, {};
      ghost var ones := Ones(fc.Length);
      ghost var f: seq<nat>, lens := fc[..], StaticLens(desc, fc.Length);
      CostEmpty(f, lens);
      ForcingNothing(f, desc.elems);
      while heapLen < 2
        invariant Forcing(f, fc[..], desc.elems, forced)
        invariant Queued(heap[..], heapLen, LeavesOf(fc[..], desc.elems), desc.elems)
        invariant IsMaxCode(maxCode, LeavesOf(fc[..], desc.elems))
        invariant forced != {} ==> heapLen <= 2
        invariant Cost(fc[..], LeavesOf(fc[..], desc.elems), ones) == Cost(f, LeavesOf(f, desc.elems), ones) + |forced|
        invariant |forced| <= heapLen && optLen == old(optLen) - |forced|
        invariant staticLen == old(staticLen) - Cost(fc[..], forced, lens)
        decreases 2 - heapLen
      {
        var node: nat;
        if maxCode < 2 {
          maxCode := maxCode + 1;
          node := maxCode;
        } else {
          node := 0;
          OneLeaf(LeavesOf(fc[..], desc.elems), maxCode, 0);
        }
        ForcingStep(f, fc[..], desc.elems, forced, node);
        CostAddOne(fc[..], forced, node, lens);
        CostAddOne(fc[..], LeavesOf(fc[..], desc.elems), node, ones);
        ForceCode(desc, node);
        forced := forced + {node};
      }
      ForcingLeaves(f, fc[..], desc.elems, forced);
    }
  
    /** Orders the queue and merges it down to a single root. */
    method MergeAll(desc: StaticDesc, ghost leaves: set<nat>) returns (ghost merges: seq<Merge>)
      requires Arrays() && fc.Length == dl.Length == 2 * desc.elems + 1 && heapMax == HEAP_SIZE
      requires Queued(heap[..], heapLen, leaves, desc.elems) && heapLen >= 2
      requires Total(fc[..], leaves) <= 0xFFFF
      modifies this`heapLen, this`heapMax, heap, depth, fc, dl
      ensures Built(heap[..], heapMax, fc[..], dl[..], leaves, merges, desc.elems)
      ensures fc[..desc.elems] == old(fc[..desc.elems])
      ensures forall x :: 0 <= x < desc.elems && x !in leaves ==> dl[x] == old(dl[x])
    {
      hide Queue, Greedy, Total, Dads, Tail, Active;
      Heapify(desc, leaves);
      merges := [];
      ghost var f: seq<nat>, l: seq<nat> := fc[..desc.elems], dl[..];
      MergingStart(heap[..], heapLen, fc[..], depth[..], dl[..], leaves, desc.elems);
      var node := desc.elems;
      while heapLen >= 2
        invariant Merging(heap[..], heapLen, heapMax, fc[..], depth[..], dl[..], leaves, merges, desc.elems)
        invariant node == desc.elems + |merges|
        invariant fc[..desc.elems] == f
        invariant forall x :: 0 <= x < desc.elems && x !in leaves ==> dl[x] == l[x]
        decreases heapLen
      {
        var n: nat := TakeSmallest(desc.elems, leaves, merges);
        merges := Combine(desc.elems, node, n, leaves, merges);
        node := node + 1;
      }
      LastIsRoot(heap[..], leaves, merges, desc.elems);
      ghost var h := heap[..];
      heapMax := heapMax - 1;
      heap[heapMax] := heap[1];
      TailSame(h, heap[..], merges, heapMax);
    }

    /** Establishes sub-heaps of increasing lengths. */
    method Heapify(desc: StaticDesc, ghost leaves: set<nat>)
      requires Arrays() && fc.Length == 2 * desc.elems + 1
      requires Queued(heap[..], heapLen, leaves, desc.elems)
      modifies heap
      ensures Queued(heap[..], heapLen, leaves, desc.elems)
      ensures Nodes(heap[..], heapLen, fc.Length) && Ordered(heap[..], heapLen, fc[..], depth[..], 1)
    {
      hide Queue;
      var n := heapLen / 2;
      while n >= 1
        invariant 0 <= n <= heapLen / 2
        invariant Queued(heap[..], heapLen, leaves, desc.elems)
        invariant Nodes(heap[..], heapLen, fc.Length) && Ordered(heap[..], heapLen, fc[..], depth[..], n + 1)
        decreases n
      {
        PqDownHeap(heap, heapLen, fc, depth, n);
        QueueBelow(heap[..], heapLen, leaves, desc.elems);
        n := n - 1;
      }
    }
  }
}
