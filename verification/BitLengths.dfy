/** gen_bitlen of trees.c. Pass one walks heap[heap_max..], fathers before sons, and replaces each
    Dad by a Len in place; when lengths were clipped, the counts are repaired and the lengths dealt
    out again. */
module BitLengths {
  import opened Sums
  import opened HuffmanCost
  import opened HuffmanMerge
  import opened HuffmanTree
  import opened LengthCounts

  /** heap[heapMax..] lists distinct nodes, each after its father, and len clips the depths at cap. */
  ghost predicate TopDown(h: seq<nat>, heapMax: nat, dad: seq<nat>, len: seq<nat>, cap: nat) {
    && |h| == HEAP_SIZE && heapMax < HEAP_SIZE && |dad| == |len|
    && (forall i :: heapMax <= i < HEAP_SIZE ==> h[i] < |dad|)
    && (forall i, j :: heapMax <= i < j < HEAP_SIZE ==> h[i] != h[j])
    && len[h[heapMax]] == 0
    && (forall i :: heapMax < i < HEAP_SIZE ==>
          && dad[h[i]] in h[heapMax..i]
          && dad[h[i]] < |len| && len[h[i]] == Min(len[dad[h[i]]] + 1, cap))
  }

  /** The leaves are exactly the nodes below elems in heap[heapMax..]. */
  ghost predicate LeafNodes(h: seq<nat>, heapMax: nat, leaves: set<nat>, elems: nat) {
    && |h| == HEAP_SIZE && heapMax < HEAP_SIZE && h[heapMax] >= elems
    && (forall i :: heapMax <= i < HEAP_SIZE && h[i] < elems ==> h[i] in leaves)
    && (forall x :: x in leaves ==> x in h[heapMax..])
  }

  /** A node in the queue at time u that is gone at the end was merged at some time from u on. */
  lemma {:induction false} MergedLater(weight: seq<nat>, leaves: set<nat>, merges: seq<Merge>, elems: nat, x: nat, u: nat)
    returns (s: nat)
    requires Greedy(weight, leaves, merges, elems) && u <= |merges|
    requires x in Active(leaves, merges[..u], elems) && x !in Active(leaves, merges, elems)
    ensures u <= s < |merges| && (merges[s].first == x || merges[s].second == x)
    decreases |merges| - u
  {
    hide Greedy, Active;
    assert merges[..|merges|] == merges;
    if u == |merges| {
      assert false;
    }
    GreedyStep(weight, leaves, merges, elems, u);
    if merges[u].first == x || merges[u].second == x {
      s := u;
    } else {
      s := MergedLater(weight, leaves, merges, elems, x, u + 1);
    }
  }

  /** Position i of the tail holds a son of merge number (HEAP_SIZE - 1 - i) / 2. */
  lemma TailNode(h: seq<nat>, heapMax: nat, freq: seq<nat>, dad: seq<nat>, leaves: set<nat>, merges: seq<Merge>,
                 elems: nat, i: nat)
    requires Built(h, heapMax, freq, dad, leaves, merges, elems) && heapMax < i < HEAP_SIZE
    ensures var t := (HEAP_SIZE - 1 - i) / 2;
            && t < |merges| && h[i] == (if (HEAP_SIZE - 1 - i) % 2 == 0 then merges[t].first else merges[t].second)
            && h[i] < elems + t && dad[h[i]] == elems + t
  {
    hide Greedy, Active;
    var t := (HEAP_SIZE - 1 - i) / 2;
    GreedyStep(freq, leaves, merges, elems, t);
    assert h[HEAP_SIZE - 1 - 2 * t] == merges[t].first;
  }

  lemma FatherBefore(h: seq<nat>, heapMax: nat, freq: seq<nat>, dad: seq<nat>, leaves: set<nat>, merges: seq<Merge>,
                     elems: nat, i: nat)
    requires Built(h, heapMax, freq, dad, leaves, merges, elems) && heapMax < i < HEAP_SIZE
    ensures h[i] < |dad| && dad[h[i]] in h[heapMax..i]
  {
    hide Greedy, Active;
    TailNode(h, heapMax, freq, dad, leaves, merges, elems, i);
    var t := (HEAP_SIZE - 1 - i) / 2;
    var p := elems + t;
    if t == |merges| - 1 {
      assert h[heapMax..i][0] == p;
    } else {
      GreedyStep(freq, leaves, merges, elems, t);
      var s := MergedLater(freq, leaves, merges, elems, p, t + 1);
      var j := if merges[s].first == p then HEAP_SIZE - 1 - 2 * s else HEAP_SIZE - 2 - 2 * s;
      assert h[j] == p;
      assert h[heapMax..i][j - heapMax] == p;
    }
  }

  lemma TailDistinct(h: seq<nat>, heapMax: nat, freq: seq<nat>, dad: seq<nat>, leaves: set<nat>, merges: seq<Merge>,
                     elems: nat, i: nat, j: nat)
    requires Built(h, heapMax, freq, dad, leaves, merges, elems) && heapMax <= i < j < HEAP_SIZE
    ensures h[i] != h[j]
  {
    hide Greedy, Active;
    TailNode(h, heapMax, freq, dad, leaves, merges, elems, j);
    var s := (HEAP_SIZE - 1 - j) / 2;
    if i > heapMax {
      TailNode(h, heapMax, freq, dad, leaves, merges, elems, i);
      var t := (HEAP_SIZE - 1 - i) / 2;
      if s == t {
        GreedyStep(freq, leaves, merges, elems, s);
      } else {
        MergedOnce(freq, leaves, merges, elems, s, t);
      }
    }
  }

  lemma BuiltTopDown(h: seq<nat>, heapMax: nat, freq: seq<nat>, dad: seq<nat>, leaves: set<nat>, merges: seq<Merge>,
                     elems: nat, len: seq<nat>, cap: nat)
    requires Built(h, heapMax, freq, dad, leaves, merges, elems)
    requires |len| == |dad| && Depths(len, merges, elems, cap)
    ensures TopDown(h, heapMax, dad, len, cap) && LeafNodes(h, heapMax, leaves, elems)
  {
    hide Greedy, Active, Tail, Dads;
    forall i, j | heapMax <= i < j < HEAP_SIZE ensures h[i] != h[j] {
      TailDistinct(h, heapMax, freq, dad, leaves, merges, elems, i, j);
    }
    forall i | heapMax < i < HEAP_SIZE
      ensures h[i] < |dad| && dad[h[i]] in h[heapMax..i] && dad[h[i]] < |len| && len[h[i]] == Min(len[dad[h[i]]] + 1, cap)
      ensures h[i] < elems ==> h[i] in leaves
    {
      FatherBefore(h, heapMax, freq, dad, leaves, merges, elems, i);
      TailNode(h, heapMax, freq, dad, leaves, merges, elems, i);
      var t := (HEAP_SIZE - 1 - i) / 2;
      GreedyStep(freq, leaves, merges, elems, t);
      ActiveLeaves(leaves, merges[..t], elems);
    }
    forall x | x in leaves ensures x in h[heapMax..] {
      LeafInTail(h, heapMax, freq, dad, leaves, merges, elems, x);
    }
  }

  lemma LeafInTail(h: seq<nat>, heapMax: nat, freq: seq<nat>, dad: seq<nat>, leaves: set<nat>, merges: seq<Merge>,
                   elems: nat, x: nat)
    requires Built(h, heapMax, freq, dad, leaves, merges, elems) && x in leaves
    ensures x in h[heapMax..]
  {
    assert x < elems;
    var t := WasMerged(leaves, merges, elems, x);
    var j := if merges[t].first == x then HEAP_SIZE - 1 - 2 * t else HEAP_SIZE - 2 - 2 * t;
    assert h[heapMax..][j - heapMax] == x;
  }

  /** How many of heap[lo..hi) have a father at the cap. */
  ghost function Clips(h: seq<nat>, dad: seq<nat>, len: seq<nat>, cap: nat, lo: nat, hi: nat): nat
    requires lo <= hi <= |h|
    decreases hi - lo
  {
    if lo == hi then 0
    else Clips(h, dad, len, cap, lo, hi - 1) + (if FatherAtCap(h[hi - 1], dad, len, cap) then 1 else 0)
  }

  ghost predicate FatherAtCap(n: nat, dad: seq<nat>, len: seq<nat>, cap: nat) {
    n < |dad| && dad[n] < |len| && len[dad[n]] == cap
  }

  /** Clipped sons come in pairs. */
  lemma {:induction false} ClipsInPairs(h: seq<nat>, heapMax: nat, freq: seq<nat>, dad: seq<nat>, leaves: set<nat>,
                                        merges: seq<Merge>, elems: nat, len: seq<nat>, cap: nat, t: nat)
    requires Built(h, heapMax, freq, dad, leaves, merges, elems) && |len| == |dad| && t <= |merges|
    ensures Clips(h, dad, len, cap, heapMax + 1, HEAP_SIZE - 2 * t) == 2 * Clipped(len, elems, |merges|, cap, t)
    decreases |merges| - t
  {
    hide Greedy, Active, Tail, Dads;
    if t < |merges| {
      ClipsInPairs(h, heapMax, freq, dad, leaves, merges, elems, len, cap, t + 1);
      var i := HEAP_SIZE - 1 - 2 * t;
      TailNode(h, heapMax, freq, dad, leaves, merges, elems, i);
      TailNode(h, heapMax, freq, dad, leaves, merges, elems, i - 1);
      var base := Clips(h, dad, len, cap, heapMax + 1, i - 1);
      assert Clips(h, dad, len, cap, heapMax + 1, i) == base + if len[elems + t] == cap then 1 else 0;
    }
  }

  // ----- Pass one -----

  function Extra(desc: StaticDesc, x: nat): nat {
    if desc.base <= x < desc.base + |desc.extra| then desc.extra[x - desc.base] else 0
  }

  /** Code length plus extra bits. */
  ghost function WithExtra(len: seq<nat>, desc: StaticDesc): (s: seq<nat>)
    ensures |s| == |len| && forall x :: 0 <= x < |s| ==> s[x] == len[x] + Extra(desc, x)
  {
    seq(|len|, x requires 0 <= x < |len| => len[x] + Extra(desc, x))
  }

  ghost predicate ValidDesc(desc: StaticDesc) {
    && 3 <= desc.elems <= L_CODES && 1 <= desc.maxLength <= MAX_BITS
    && desc.elems <= desc.base + |desc.extra| && desc.elems <= Pow2(desc.maxLength)
    && (|desc.staticLen| == 0 || desc.elems <= |desc.staticLen|)
    && Extra(desc, 0) == Extra(desc, 1) == Extra(desc, 2) == 0
  }

  /** Pass one has reached heap[h]: the nodes before it carry their lengths, the others still their fathers. */
  ghost predicate Descending(hp: seq<nat>, heapMax: nat, h: nat, dad: seq<nat>, len: seq<nat>, dl: seq<nat>, cap: nat) {
    && TopDown(hp, heapMax, dad, len, cap) && heapMax < h <= HEAP_SIZE && |dl| == |dad|
    && (forall i :: heapMax <= i < h ==> dl[hp[i]] == len[hp[i]])
    && (forall i :: h <= i < HEAP_SIZE ==> dl[hp[i]] == dad[hp[i]])
  }

  lemma ReadFather(hp: seq<nat>, heapMax: nat, h: nat, dad: seq<nat>, len: seq<nat>, dl: seq<nat>, cap: nat)
    requires Descending(hp, heapMax, h, dad, len, dl, cap) && h < HEAP_SIZE
    ensures hp[h] < |dl| == |dad| == |len| && dl[hp[h]] < |dl| && dl[hp[h]] == dad[hp[h]]
    ensures len[hp[h]] == Min(dl[dl[hp[h]]] + 1, cap) && dl[dl[hp[h]]] == len[dad[hp[h]]]
  {
    var p := dad[hp[h]];
    var j :| 0 <= j < |hp[heapMax..h]| && hp[heapMax..h][j] == p;
    assert hp[heapMax + j] == p;
  }

  lemma DescendingStep(hp: seq<nat>, heapMax: nat, h: nat, dad: seq<nat>, len: seq<nat>, dl: seq<nat>, cap: nat)
    requires Descending(hp, heapMax, h, dad, len, dl, cap) && h < HEAP_SIZE && hp[h] < |dl|
    ensures Descending(hp, heapMax, h + 1, dad, len, dl[hp[h] := len[hp[h]]], cap)
  {
    hide TopDown;
    Distinct(hp, heapMax, dad, len, cap, h);
  }

  lemma Distinct(hp: seq<nat>, heapMax: nat, dad: seq<nat>, len: seq<nat>, cap: nat, h: nat)
    requires TopDown(hp, heapMax, dad, len, cap) && heapMax <= h < HEAP_SIZE
    ensures |hp| == HEAP_SIZE && |dad| == |len|
    ensures forall i :: heapMax <= i < HEAP_SIZE ==> hp[i] < |dad| && (i != h ==> hp[i] != hp[h])
  {
  }

  /** The leaves among heap[heapMax..h). */
  ghost function LeavesBefore(hp: seq<nat>, heapMax: nat, h: nat, elems: nat): set<nat>
    requires heapMax <= h <= |hp|
  {
    set x | x in hp[heapMax..h] && x < elems
  }

  lemma LeavesBeforeStep(hp: seq<nat>, heapMax: nat, h: nat, elems: nat)
    requires heapMax <= h < |hp|
    ensures LeavesBefore(hp, heapMax, h + 1, elems) ==
            if hp[h] < elems then LeavesBefore(hp, heapMax, h, elems) + {hp[h]} else LeavesBefore(hp, heapMax, h, elems)
  {
    assert hp[heapMax..h + 1] == hp[heapMax..h] + [hp[h]];
  }

  lemma FreshLeaf(hp: seq<nat>, heapMax: nat, h: nat, elems: nat)
    requires heapMax <= h < |hp| == HEAP_SIZE && forall i, j :: heapMax <= i < j < HEAP_SIZE ==> hp[i] != hp[j]
    ensures hp[h] !in LeavesBefore(hp, heapMax, h, elems)
  {
    forall j | 0 <= j < h - heapMax ensures hp[heapMax..h][j] != hp[h] {
      assert hp[heapMax..h][j] == hp[heapMax + j];
    }
  }

  lemma LeavesAll(hp: seq<nat>, heapMax: nat, leaves: set<nat>, elems: nat)
    requires LeafNodes(hp, heapMax, leaves, elems) && forall x :: x in leaves ==> x < elems
    ensures LeavesBefore(hp, heapMax, HEAP_SIZE, elems) == leaves
  {
    assert hp[heapMax..] == hp[heapMax..HEAP_SIZE];
    forall x | x in hp[heapMax..] && x < elems ensures x in leaves {
      var j :| 0 <= j < |hp[heapMax..]| && hp[heapMax..][j] == x;
      assert hp[heapMax + j] == x;
    }
  }

  lemma CostAdd(weight: seq<nat>, s: set<nat>, x: nat, len: seq<nat>)
    requires |weight| == |len| && x < |len| && x !in s
    ensures Cost(weight, s + {x}, len) == Cost(weight, s, len) + weight[x] * len[x]
  {
    hide Cost;
    CostSet(weight, s, len, x, len[x]);
    assert len[x := len[x]] == len;
  }

  ghost function StaticGain(desc: StaticDesc, freq: seq<nat>, leaves: set<nat>): int {
    if |desc.staticLen| == 0 then 0 else Cost(freq, leaves, WithExtra(StaticLens(desc, |freq|), desc))
  }

  /** The counts and the sums of bits over the leaves seen so far. */
  ghost predicate Tallied(counts: seq<nat>, opt: int, stat: int, freq: seq<nat>, len: seq<nat>, desc: StaticDesc, done: set<nat>) {
    && |freq| == |len| && Histogram(counts, done, len)
    && opt == Cost(freq, done, WithExtra(len, desc))
    && stat == StaticGain(desc, freq, done)
  }

  /** Tallies one leaf: bl_count, opt_len and static_len. */
  method TallyLeaf(s: TreeBuilder, desc: StaticDesc, n: nat, bits: nat, ghost done: set<nat>, ghost len: seq<nat>,
                   ghost opt0: int, ghost stat0: int)
    requires s.Arrays() && ValidDesc(desc) && |len| == s.fc.Length && n < desc.elems <= |len|
    requires n !in done && len[n] == bits <= MAX_BITS
    requires Tallied(s.blCount[..], s.optLen - opt0, s.staticLen - stat0, s.fc[..], len, desc, done)
    modifies s`optLen, s`staticLen, s.blCount
    ensures Tallied(s.blCount[..], s.optLen - opt0, s.staticLen - stat0, s.fc[..], len, desc, done + {n})
  {
    hide Cost, Histogram;
    HistogramAdd(s.blCount[..], done, len, n);
    ghost var g: seq<nat> := s.blCount[..][bits := s.blCount[bits] + 1];
    s.blCount[bits] := s.blCount[bits] + 1;
    assert s.blCount[..] == g;
    var xbits := if n >= desc.base then desc.extra[n - desc.base] else 0;
    var f := s.fc[n];
    s.optLen := s.optLen + f * (bits + xbits);
    CostAdd(s.fc[..], done, n, WithExtra(len, desc));
    if |desc.staticLen| != 0 {
      s.staticLen := s.staticLen + f * (desc.staticLen[n] + xbits);
      CostAdd(s.fc[..], done, n, WithExtra(StaticLens(desc, |len|), desc));
    }
  }

  /** The body of the first loop for the node n = heap[h]. */
  method PassNode(s: TreeBuilder, desc: StaticDesc, maxCode: int, h: nat, ghost dad: seq<nat>, ghost leaves: set<nat>,
                  ghost len: seq<nat>, ghost opt0: int, ghost stat0: int) returns (clip: nat)
    requires s.Arrays() && ValidDesc(desc) && s.fc.Length == s.dl.Length == |len| && desc.elems <= |len|
    requires s.heapMax < h < HEAP_SIZE && Descending(s.heap[..], s.heapMax, h, dad, len, s.dl[..], desc.maxLength)
    requires LeafNodes(s.heap[..], s.heapMax, leaves, desc.elems)
    requires IsMaxCode(maxCode, leaves) && maxCode < desc.elems
    requires Tallied(s.blCount[..], s.optLen - opt0, s.staticLen - stat0, s.fc[..], len, desc,
                     LeavesBefore(s.heap[..], s.heapMax, h, desc.elems))
    modifies s`optLen, s`staticLen, s.blCount, s.dl
    ensures Descending(s.heap[..], s.heapMax, h + 1, dad, len, s.dl[..], desc.maxLength)
    ensures Tallied(s.blCount[..], s.optLen - opt0, s.staticLen - stat0, s.fc[..], len, desc,
                    LeavesBefore(s.heap[..], s.heapMax, h + 1, desc.elems))
    ensures clip == if FatherAtCap(s.heap[h], dad, len, desc.maxLength) then 1 else 0
    ensures forall x :: 0 <= x < desc.elems && x !in leaves ==> s.dl[x] == old(s.dl[x])
  {
    hide Descending, Tallied, LeavesBefore;
    ghost var hp: seq<nat> := s.heap[..];
    var cap := desc.maxLength;
    ReadFather(hp, s.heapMax, h, dad, len, s.dl[..], cap);
    DescendingStep(hp, s.heapMax, h, dad, len, s.dl[..], cap);
    LeavesBeforeStep(hp, s.heapMax, h, desc.elems);
    FreshInPass(hp, s.heapMax, h, dad, len, s.dl[..], cap, desc.elems);
    var n := s.heap[h];
    var bits := s.dl[s.dl[n]] + 1;
    clip := 0;
    if bits > cap {
      bits := cap;
      clip := 1;
    }
    ghost var dl': seq<nat> := s.dl[..][n := bits];
    s.dl[n] := bits;
    assert s.dl[..] == dl';
    if n <= maxCode {
      TallyLeaf(s, desc, n, bits, LeavesBefore(hp, s.heapMax, h, desc.elems), len, opt0, stat0);
    }
  }

  lemma FreshInPass(hp: seq<nat>, heapMax: nat, h: nat, dad: seq<nat>, len: seq<nat>, dl: seq<nat>, cap: nat, elems: nat)
    requires Descending(hp, heapMax, h, dad, len, dl, cap) && h < HEAP_SIZE
    ensures hp[h] !in LeavesBefore(hp, heapMax, h, elems) && len[dad[hp[h]]] <= cap
  {
    hide LeavesBefore;
    FreshLeaf(hp, heapMax, h, elems);
    FatherCapped(hp, heapMax, h, dad, len, cap);
  }

  lemma FatherCapped(hp: seq<nat>, heapMax: nat, h: nat, dad: seq<nat>, len: seq<nat>, cap: nat)
    requires TopDown(hp, heapMax, dad, len, cap) && heapMax < h < HEAP_SIZE
    ensures hp[h] < |dad| && dad[hp[h]] < |len| && len[dad[hp[h]]] <= cap
  {
    var p := dad[hp[h]];
    var j :| 0 <= j < |hp[heapMax..h]| && hp[heapMax..h][j] == p;
    assert hp[heapMax + j] == p;
  }

  method ClearCounts(s: TreeBuilder, ghost len: seq<nat>)
    requires s.Arrays()
    modifies s.blCount
    ensures Histogram(s.blCount[..], {}, len)
  {
    for bits := 0 to MAX_BITS + 1
      invariant forall b :: 0 <= b < bits ==> s.blCount[b] == 0
    {
      s.blCount[bits] := 0;
    }
    HistogramEmpty(s.blCount[..], len);
  }

  lemma StartPass(hp: seq<nat>, heapMax: nat, dad: seq<nat>, len: seq<nat>, cap: nat, freq: seq<nat>, desc: StaticDesc, counts: seq<nat>)
    requires TopDown(hp, heapMax, dad, len, cap) && hp[heapMax] >= desc.elems && |freq| == |len|
    requires Histogram(counts, {}, len)
    ensures hp[heapMax] < |dad|
    ensures Descending(hp, heapMax, heapMax + 1, dad, len, dad[hp[heapMax] := 0], cap)
    ensures Tallied(counts, 0, 0, freq, len, desc, LeavesBefore(hp, heapMax, heapMax + 1, desc.elems))
  {
    hide Cost;
    CostEmpty(freq, WithExtra(len, desc));
    CostEmpty(freq, WithExtra(StaticLens(desc, |freq|), desc));
    assert hp[heapMax..heapMax + 1] == [hp[heapMax]];
    assert LeavesBefore(hp, heapMax, heapMax + 1, desc.elems) == {};
  }

  lemma RootInternal(hp: seq<nat>, heapMax: nat, leaves: set<nat>, elems: nat)
    requires LeafNodes(hp, heapMax, leaves, elems)
    ensures |hp| == HEAP_SIZE && heapMax < HEAP_SIZE && hp[heapMax] >= elems
  {
  }

  method FirstPass(s: TreeBuilder, desc: StaticDesc, maxCode: int, ghost leaves: set<nat>, ghost len: seq<nat>)
    returns (overflow: nat)
    requires s.Arrays() && ValidDesc(desc) && s.fc.Length == s.dl.Length == |len| && desc.elems <= |len|
    requires TopDown(s.heap[..], s.heapMax, s.dl[..], len, desc.maxLength)
    requires LeafNodes(s.heap[..], s.heapMax, leaves, desc.elems)
    requires IsMaxCode(maxCode, leaves) && maxCode < desc.elems
    modifies s`optLen, s`staticLen, s.blCount, s.dl
    ensures Descending(s.heap[..], s.heapMax, HEAP_SIZE, old(s.dl[..]), len, s.dl[..], desc.maxLength)
    ensures forall x :: 0 <= x < desc.elems && x !in leaves ==> s.dl[x] == old(s.dl[x])
    ensures overflow == Clips(s.heap[..], old(s.dl[..]), len, desc.maxLength, s.heapMax + 1, HEAP_SIZE)
    ensures Tallied(s.blCount[..], s.optLen - old(s.optLen), s.staticLen - old(s.staticLen), s.fc[..], len, desc, leaves)
  {
    hide Descending, LeavesBefore, Tallied, TopDown, LeafNodes;
    ghost var hp: seq<nat>, dad: seq<nat>, freq: seq<nat> := s.heap[..], s.dl[..], s.fc[..];
    var cap := desc.maxLength;
    ClearCounts(s, len);
    RootInternal(hp, s.heapMax, leaves, desc.elems);
    StartPass(hp, s.heapMax, dad, len, cap, freq, desc, s.blCount[..]);
    ghost var root: nat := hp[s.heapMax];
    s.dl[s.heap[s.heapMax]] := 0;
    assert s.dl[..] == dad[root := 0];
    overflow := 0;
    var h := s.heapMax + 1;
    while h < HEAP_SIZE
      invariant s.heapMax < h <= HEAP_SIZE
      invariant Descending(hp, s.heapMax, h, dad, len, s.dl[..], cap)
      invariant forall x :: 0 <= x < desc.elems && x !in leaves ==> s.dl[x] == dad[x]
      invariant Tallied(s.blCount[..], s.optLen - old(s.optLen), s.staticLen - old(s.staticLen), freq, len, desc,
                        LeavesBefore(hp, s.heapMax, h, desc.elems))
      invariant overflow == Clips(hp, dad, len, cap, s.heapMax + 1, h)
    {
      var clip := PassNode(s, desc, maxCode, h, dad, leaves, len, old(s.optLen), old(s.staticLen));
      overflow := overflow + clip;
      h := h + 1;
    }
    LeavesAll(hp, s.heapMax, leaves, desc.elems);
  }

  // ----- Repair of an overfull set of lengths -----

  /** The longest length up to b that is in use. */
  ghost function Deepest(counts: seq<nat>, b: nat): (r: nat)
    requires b < |counts|
    ensures r <= b && (r > 0 ==> counts[r] != 0) && forall c :: r < c <= b ==> counts[c] == 0
  {
    if b == 0 || counts[b] != 0 then b else Deepest(counts, b - 1)
  }

  /** Each repair takes a leaf of the longest length below the limit. */
  ghost function AllRepaired(counts: seq<nat>, cap: nat, pairs: nat): seq<nat>
    requires 1 <= cap < |counts|
    decreases pairs
  {
    if pairs == 0 then counts
    else
      var b := Deepest(counts, cap - 1);
      if counts[b] == 0 || counts[cap] == 0 then counts else AllRepaired(Repaired(counts, cap, b), cap, pairs - 1)
  }

  lemma DeepestIs(counts: seq<nat>, cap: nat, b: nat, pairs: nat)
    requires b < cap < |counts| && counts[b] > 0 && counts[cap] > 0 && (forall c :: b < c < cap ==> counts[c] == 0) && pairs > 0
    ensures AllRepaired(counts, cap, pairs) == AllRepaired(Repaired(counts, cap, b), cap, pairs - 1)
  {
    var r := Deepest(counts, cap - 1);
    assert r == b;
    hide AllRepaired, Repaired;
    OneRepaired(counts, cap, b, pairs);
  }

  lemma OneRepaired(counts: seq<nat>, cap: nat, b: nat, pairs: nat)
    requires b < cap < |counts| && counts[b] > 0 && counts[cap] > 0 && b == Deepest(counts, cap - 1) && pairs > 0
    ensures AllRepaired(counts, cap, pairs) == AllRepaired(Repaired(counts, cap, b), cap, pairs - 1)
  {
  }

  lemma NoneRepaired(counts: seq<nat>, cap: nat)
    requires 1 <= cap < |counts|
    ensures AllRepaired(counts, cap, 0) == counts
  {
  }

  method RepairCounts(s: TreeBuilder, cap: nat, overflow0: nat, ghost size: nat)
    requires s.Arrays() && 1 <= cap <= MAX_BITS && overflow0 > 0 && overflow0 % 2 == 0
    requires Overfull(s.blCount[..], cap, size, overflow0 / 2)
    requires forall b :: cap < b <= MAX_BITS ==> s.blCount[b] == 0
    modifies s.blCount
    ensures Overfull(s.blCount[..], cap, size, 0)
    ensures forall b :: cap < b <= MAX_BITS ==> s.blCount[b] == 0
    ensures s.blCount[..] == AllRepaired(old(s.blCount[..]), cap, overflow0 / 2)
  {
    hide Overfull, Repaired, AllRepaired;
    var overflow: int := overflow0;
    while overflow > 0
      invariant overflow >= 0 && overflow % 2 == 0 && Overfull(s.blCount[..], cap, size, overflow / 2)
      invariant forall b :: cap < b <= MAX_BITS ==> s.blCount[b] == 0
      invariant AllRepaired(s.blCount[..], cap, overflow / 2) == AllRepaired(old(s.blCount[..]), cap, overflow0 / 2)
      decreases overflow
    {
      ghost var counts: seq<nat> := s.blCount[..];
      ghost var shorter := ShorterExists(counts, cap, size, overflow / 2);
      var bits := cap - 1;
      while s.blCount[bits] == 0
        invariant shorter <= bits < cap
        invariant forall c :: bits < c < cap ==> s.blCount[c] == 0
        decreases bits
      {
        bits := bits - 1;
      }
      RepairStep(counts, cap, size, overflow / 2, bits);
      DeepestIs(counts, cap, bits, overflow / 2);
      ApplyRepair(s, cap, bits);
      overflow := overflow - 2;
    }
    NoneRepaired(s.blCount[..], cap);
  }

  method ApplyRepair(s: TreeBuilder, cap: nat, bits: nat)
    requires s.Arrays() && bits < cap <= MAX_BITS && s.blCount[bits] > 0 && s.blCount[cap] > 0
    modifies s.blCount
    ensures s.blCount[..] == old(Repaired(s.blCount[..], cap, bits))
    ensures forall b :: cap < b <= MAX_BITS ==> s.blCount[b] == old(s.blCount[b])
  {
    s.blCount[bits] := s.blCount[bits] - 1;
    s.blCount[bits + 1] := s.blCount[bits + 1] + 2;
    s.blCount[cap] := s.blCount[cap] - 1;
  }

  // ----- Dealing out the repaired lengths -----

  /** The leaves among heap[h..]. */
  ghost function LeavesFrom(hp: seq<nat>, h: nat, elems: nat): set<nat>
    requires h <= |hp|
  {
    set x | x in hp[h..] && x < elems
  }

  /** heap[heapMax..] lists the leaves (and other nodes) without repetition. */
  ghost predicate Listed(hp: seq<nat>, heapMax: nat, leaves: set<nat>, elems: nat, size: nat) {
    && LeafNodes(hp, heapMax, leaves, elems) && (forall x :: x in leaves ==> x < elems) && elems <= size
    && (forall i :: heapMax <= i < HEAP_SIZE ==> hp[i] < size)
    && (forall i, j :: heapMax <= i < j < HEAP_SIZE ==> hp[i] != hp[j])
  }

  /** The leaves from heap[h] on have their final lengths: all codes longer than bits, and all but n of length bits. */
  ghost predicate Dealing(hp: seq<nat>, heapMax: nat, h: nat, leaves: set<nat>, elems: nat, counts: seq<nat>, dealt: seq<nat>,
                          dl: seq<nat>, cap: nat, bits: nat, n: nat) {
    && Listed(hp, heapMax, leaves, elems, |dl|) && heapMax <= h <= HEAP_SIZE
    && bits <= cap < |counts| == |dealt| && n <= counts[bits]
    && CountTotal(counts, cap + 1) == |leaves|
    && Histogram(dealt, LeavesFrom(hp, h, elems), dl)
    && (forall x :: x in LeavesFrom(hp, h, elems) ==> 1 <= dl[x] <= cap)
    && (forall b :: 0 <= b < |counts| ==> dealt[b] == if b > bits then counts[b] else if b == bits then counts[b] - n else 0)
  }

  /** Dealt lengths are at least bits, and rise along the heap. */
  ghost predicate Rising(hp: seq<nat>, h: nat, elems: nat, dl: seq<nat>, bits: nat) {
    forall i, j :: h <= i <= j < |hp| && hp[i] < elems <= |dl| && hp[j] < elems ==> bits <= dl[hp[i]] <= dl[hp[j]]
  }

  lemma RisingLeaf(hp: seq<nat>, heapMax: nat, h: nat, leaves: set<nat>, elems: nat, dl: seq<nat>, bits: nat)
    requires |hp| == HEAP_SIZE && Listed(hp, heapMax, leaves, elems, |dl|) && heapMax < h <= HEAP_SIZE && Rising(hp, h, elems, dl, bits) && hp[h - 1] < elems
    ensures hp[h - 1] < |dl| && Rising(hp, h - 1, elems, dl[hp[h - 1] := bits], bits)
  {
    hide LeafNodes;
  }

  /** The nodes that are left are no leaves. */
  lemma RisingAll(hp: seq<nat>, heapMax: nat, h: nat, leaves: set<nat>, elems: nat, counts: seq<nat>, dealt: seq<nat>, dl: seq<nat>, cap: nat)
    requires |hp| == HEAP_SIZE && Dealing(hp, heapMax, h, leaves, elems, counts, dealt, dl, cap, 0, 0) && Rising(hp, h, elems, dl, 0)
    ensures Rising(hp, heapMax, elems, dl, 0)
  {
    hide Histogram;
    EveryLeafDealt(hp, heapMax, h, leaves, elems, counts, dealt, dl, cap);
    assert forall i :: heapMax <= i < h ==> hp[i] !in hp[h..];
  }

  lemma EveryLeafDealt(hp: seq<nat>, heapMax: nat, h: nat, leaves: set<nat>, elems: nat, counts: seq<nat>, dealt: seq<nat>, dl: seq<nat>, cap: nat)
    requires Dealing(hp, heapMax, h, leaves, elems, counts, dealt, dl, cap, 0, 0)
    ensures |hp| == HEAP_SIZE && h <= HEAP_SIZE && LeavesFrom(hp, h, elems) == leaves && Listed(hp, heapMax, leaves, elems, |dl|) && heapMax <= h
  {
    hide Histogram, Listed;
    assert dealt == counts;
    ListedBelow(hp, heapMax, h, leaves, elems, |dl|);
    HistogramSums(dealt, LeavesFrom(hp, h, elems), dl, cap);
    LeavesFromSubset(hp, heapMax, h, leaves, elems, |dl|);
    SameSize(LeavesFrom(hp, h, elems), leaves);
  }

  lemma LeavesFromStep(hp: seq<nat>, heapMax: nat, h: nat, leaves: set<nat>, elems: nat, size: nat)
    requires Listed(hp, heapMax, leaves, elems, size) && heapMax < h <= HEAP_SIZE
    ensures LeavesFrom(hp, h - 1, elems) ==
            if hp[h - 1] < elems then LeavesFrom(hp, h, elems) + {hp[h - 1]} else LeavesFrom(hp, h, elems)
    ensures hp[h - 1] !in LeavesFrom(hp, h, elems) && hp[h - 1] < size
    ensures hp[h - 1] < elems ==> hp[h - 1] in leaves
  {
    assert hp[h - 1..] == [hp[h - 1]] + hp[h..];
    forall j | 0 <= j < |hp[h..]| ensures hp[h..][j] != hp[h - 1] {
      assert hp[h..][j] == hp[h + j];
    }
  }

  lemma LeavesFromSubset(hp: seq<nat>, heapMax: nat, h: nat, leaves: set<nat>, elems: nat, size: nat)
    requires Listed(hp, heapMax, leaves, elems, size) && heapMax <= h <= HEAP_SIZE
    ensures LeavesFrom(hp, h, elems) <= leaves
    ensures h == heapMax ==> LeavesFrom(hp, h, elems) == leaves
  {
    forall x | x in LeavesFrom(hp, h, elems) ensures x in leaves {
      var j :| 0 <= j < |hp[h..]| && hp[h..][j] == x;
      assert hp[h + j] == x;
    }
  }

  lemma {:induction false} FewerDealt(dealt: seq<nat>, counts: seq<nat>, n: nat, b: nat)
    requires n <= |counts| == |dealt| && forall i :: 0 <= i < n ==> dealt[i] <= counts[i]
    ensures CountTotal(dealt, n) <= CountTotal(counts, n)
    ensures b < n && dealt[b] < counts[b] ==> CountTotal(dealt, n) < CountTotal(counts, n)
  {
    if n != 0 {
      FewerDealt(dealt, counts, n - 1, b);
    }
  }

  /** While a length is still to be dealt, some leaf is still to be visited. */
  lemma MoreToVisit(hp: seq<nat>, heapMax: nat, h: nat, leaves: set<nat>, elems: nat, counts: seq<nat>, dealt: seq<nat>,
                    dl: seq<nat>, cap: nat, bits: nat, n: nat)
    requires Dealing(hp, heapMax, h, leaves, elems, counts, dealt, dl, cap, bits, n) && n > 0
    ensures h > heapMax
  {
    hide Histogram, Listed;
    FewerDealt(dealt, counts, cap + 1, bits);
    ListedBelow(hp, heapMax, h, leaves, elems, |dl|);
    HistogramSums(dealt, LeavesFrom(hp, h, elems), dl, cap);
    LeavesFromSubset(hp, heapMax, h, leaves, elems, |dl|);
  }

  lemma ListedBelow(hp: seq<nat>, heapMax: nat, h: nat, leaves: set<nat>, elems: nat, size: nat)
    requires Listed(hp, heapMax, leaves, elems, size) && heapMax <= h <= HEAP_SIZE
    ensures |hp| == HEAP_SIZE && elems <= size && forall x :: x in LeavesFrom(hp, h, elems) ==> x < size
  {
  }

  lemma HistogramFrame(counts: seq<nat>, s: set<nat>, len: seq<nat>, x: nat, v: nat)
    requires Histogram(counts, s, len) && x !in s && x < |len|
    ensures Histogram(counts, s, len[x := v])
  {
    forall b | 0 <= b < |counts| ensures counts[b] == |AtLength(s, len[x := v], b)| {
      assert AtLength(s, len[x := v], b) == AtLength(s, len, b);
    }
  }

  lemma DealLeaf(hp: seq<nat>, heapMax: nat, h: nat, leaves: set<nat>, elems: nat, counts: seq<nat>, dealt: seq<nat>,
                 dl: seq<nat>, cap: nat, bits: nat, n: nat)
    requires Dealing(hp, heapMax, h, leaves, elems, counts, dealt, dl, cap, bits, n) && n > 0 && h > heapMax && bits >= 1
    requires |hp| == HEAP_SIZE && hp[h - 1] < |dl| && hp[h - 1] < elems
    ensures Dealing(hp, heapMax, h - 1, leaves, elems, counts, dealt[bits := dealt[bits] + 1], dl[hp[h - 1] := bits], cap, bits, n - 1)
  {
    hide Histogram, Listed, LeavesFrom, CountTotal;
    var m, done := hp[h - 1], LeavesFrom(hp, h, elems);
    LeavesFromStep(hp, heapMax, h, leaves, elems, |dl|);
    HistogramFrame(dealt, done, dl, m, bits);
    HistogramAdd(dealt, done, dl[m := bits], m);
    var dl' := dl[m := bits];
    assert forall x :: x in LeavesFrom(hp, h - 1, elems) ==> x in done || x == m;
    ListedBelow(hp, heapMax, h, leaves, elems, |dl|);
  }

  lemma DealSkip(hp: seq<nat>, heapMax: nat, h: nat, leaves: set<nat>, elems: nat, counts: seq<nat>, dealt: seq<nat>,
                 dl: seq<nat>, cap: nat, bits: nat, n: nat)
    requires Dealing(hp, heapMax, h, leaves, elems, counts, dealt, dl, cap, bits, n) && h > heapMax
    requires |hp| == HEAP_SIZE && hp[h - 1] >= elems
    ensures Dealing(hp, heapMax, h - 1, leaves, elems, counts, dealt, dl, cap, bits, n)
  {
    hide Histogram, Listed, LeavesFrom, CountTotal;
    LeavesFromStep(hp, heapMax, h, leaves, elems, |dl|);
  }

  /** All lengths dealt: every leaf has one, and the counts are its histogram. */
  lemma AllDealt(hp: seq<nat>, heapMax: nat, h: nat, leaves: set<nat>, elems: nat, counts: seq<nat>, dealt: seq<nat>,
                 dl: seq<nat>, cap: nat)
    requires Dealing(hp, heapMax, h, leaves, elems, counts, dealt, dl, cap, 0, 0)
    ensures Histogram(counts, leaves, dl) && forall x :: x in leaves ==> x < |dl| && 1 <= dl[x] <= cap
  {
    hide Histogram, Listed;
    assert dealt == counts;
    EveryLeafDealt(hp, heapMax, h, leaves, elems, counts, dealt, dl, cap);
    ListedBelow(hp, heapMax, h, leaves, elems, |dl|);
  }

  lemma SameSize(s: set<nat>, t: set<nat>)
    requires s <= t && |s| == |t|
    ensures s == t
  {
    assert |t - s| == 0;
  }

  lemma DealStart(hp: seq<nat>, heapMax: nat, leaves: set<nat>, elems: nat, counts: seq<nat>, dl: seq<nat>, cap: nat) returns (dealt: seq<nat>)
    requires Listed(hp, heapMax, leaves, elems, |dl|) && cap < |counts| && Overfull(counts, cap, |leaves|, 0)
    requires forall b :: cap < b < |counts| ==> counts[b] == 0
    ensures Dealing(hp, heapMax, HEAP_SIZE, leaves, elems, counts, dealt, dl, cap, cap, counts[cap])
  {
    dealt := seq(|counts|, _ => 0);
    assert hp[HEAP_SIZE..] == [];
    assert LeavesFrom(hp, HEAP_SIZE, elems) == {};
    HistogramEmpty(dealt, dl);
  }

  lemma CostOfChange(freq: seq<nat>, leaves: set<nat>, dl: seq<nat>, desc: StaticDesc, m: nat, bits: nat)
    requires |freq| == |dl| && m in leaves && m < |dl|
    ensures Cost(freq, leaves, WithExtra(dl[m := bits], desc)) ==
            Cost(freq, leaves, WithExtra(dl, desc)) + (bits - dl[m]) * freq[m]
  {
    hide Cost;
    var e := Extra(desc, m);
    assert leaves + {m} == leaves;
    assert WithExtra(dl[m := bits], desc) == WithExtra(dl, desc)[m := bits + e];
    CostSet(freq, leaves, WithExtra(dl, desc), m, bits + e);
    assert freq[m] * (bits + e) - freq[m] * (dl[m] + e) == (bits - dl[m]) * freq[m];
  }

  /** Gives length bits to the next leaf below heap[h0]. */
  method DealNode(s: TreeBuilder, desc: StaticDesc, maxCode: int, bits: nat, n0: nat, h0: nat, ghost leaves: set<nat>, ghost dealt0: seq<nat>)
    returns (h: nat, n: nat, ghost dealt: seq<nat>)
    requires s.Arrays() && ValidDesc(desc) && s.fc.Length == s.dl.Length && IsMaxCode(maxCode, leaves) && maxCode < desc.elems
    requires Dealing(s.heap[..], s.heapMax, h0, leaves, desc.elems, s.blCount[..], dealt0, s.dl[..], desc.maxLength, bits, n0)
    requires n0 > 0 && bits >= 1 && Rising(s.heap[..], h0, desc.elems, s.dl[..], bits)
    modifies s`optLen, s.dl
    ensures Rising(s.heap[..], h, desc.elems, s.dl[..], bits)
    ensures h < h0 && n <= n0
    ensures Dealing(s.heap[..], s.heapMax, h, leaves, desc.elems, s.blCount[..], dealt, s.dl[..], desc.maxLength, bits, n)
    ensures s.optLen - old(s.optLen) == Cost(s.fc[..], leaves, WithExtra(s.dl[..], desc)) - Cost(s.fc[..], leaves, WithExtra(old(s.dl[..]), desc))
    ensures forall x :: 0 <= x < s.dl.Length && x !in leaves ==> s.dl[x] == old(s.dl[x])
  {
    hide Dealing, Cost, Rising, Listed;
    ghost var hp: seq<nat>, dl: seq<nat>, counts: seq<nat> := s.heap[..], s.dl[..], s.blCount[..];
    MoreToVisit(hp, s.heapMax, h0, leaves, desc.elems, counts, dealt0, dl, desc.maxLength, bits, n0);
    NextNode(hp, s.heapMax, h0, leaves, desc.elems, counts, dealt0, dl, desc.maxLength, bits, n0);
    h, n, dealt := h0 - 1, n0, dealt0;
    var m: nat := s.heap[h];
    if m > maxCode {
      DealSkip(hp, s.heapMax, h0, leaves, desc.elems, counts, dealt, dl, desc.maxLength, bits, n);
      RisingSkip(hp, h0, desc.elems, dl, bits);
    } else {
      DealLeaf(hp, s.heapMax, h0, leaves, desc.elems, counts, dealt, dl, desc.maxLength, bits, n);
      DealtListed(hp, s.heapMax, h0, leaves, desc.elems, counts, dealt, dl, desc.maxLength, bits, n);
      RisingLeaf(hp, s.heapMax, h0, leaves, desc.elems, dl, bits);
      CostOfChange(s.fc[..], leaves, dl, desc, m, bits);
      if s.dl[m] != bits {
        s.optLen := s.optLen + (bits - s.dl[m]) * s.fc[m];
        s.dl[m] := bits;
      }
      assert s.dl[..] == dl[m := bits];
      dealt := dealt[bits := dealt[bits] + 1];
      n := n - 1;
    }
  }

  lemma NextNode(hp: seq<nat>, heapMax: nat, h: nat, leaves: set<nat>, elems: nat, counts: seq<nat>, dealt: seq<nat>,
                 dl: seq<nat>, cap: nat, bits: nat, n: nat)
    requires Dealing(hp, heapMax, h, leaves, elems, counts, dealt, dl, cap, bits, n) && h > heapMax
    ensures |hp| == HEAP_SIZE && h <= HEAP_SIZE && hp[h - 1] < |dl| && (hp[h - 1] < elems ==> hp[h - 1] in leaves)
    ensures bits < |dealt|
  {
  }

  /** The recomputation of all bit lengths, scanning in increasing frequency. */
  lemma RisingNone(hp: seq<nat>, elems: nat, dl: seq<nat>, bits: nat)
    ensures Rising(hp, |hp|, elems, dl, bits)
  {
  }

  lemma RisingSkip(hp: seq<nat>, h: nat, elems: nat, dl: seq<nat>, bits: nat)
    requires 0 < h <= |hp| && Rising(hp, h, elems, dl, bits) && hp[h - 1] >= elems
    ensures Rising(hp, h - 1, elems, dl, bits)
  {
  }

  lemma RisingLess(hp: seq<nat>, h: nat, elems: nat, dl: seq<nat>, bits: nat, less: nat)
    requires Rising(hp, h, elems, dl, bits) && less <= bits
    ensures Rising(hp, h, elems, dl, less)
  {
  }

  lemma DealtListed(hp: seq<nat>, heapMax: nat, h: nat, leaves: set<nat>, elems: nat, counts: seq<nat>, dealt: seq<nat>,
                    dl: seq<nat>, cap: nat, bits: nat, n: nat)
    requires Dealing(hp, heapMax, h, leaves, elems, counts, dealt, dl, cap, bits, n)
    ensures Listed(hp, heapMax, leaves, elems, |dl|)
  {
  }

  method DealLengths(s: TreeBuilder, desc: StaticDesc, maxCode: int, ghost leaves: set<nat>)
    requires s.Arrays() && ValidDesc(desc) && s.fc.Length == s.dl.Length && IsMaxCode(maxCode, leaves) && maxCode < desc.elems
    requires Listed(s.heap[..], s.heapMax, leaves, desc.elems, s.dl.Length)
    requires Overfull(s.blCount[..], desc.maxLength, |leaves|, 0)
    requires forall b :: desc.maxLength < b <= MAX_BITS ==> s.blCount[b] == 0
    modifies s`optLen, s.dl
    ensures Histogram(s.blCount[..], leaves, s.dl[..])
    ensures forall x :: x in leaves ==> x < s.dl.Length && 1 <= s.dl[x] <= desc.maxLength
    ensures s.optLen - old(s.optLen) == Cost(s.fc[..], leaves, WithExtra(s.dl[..], desc)) - Cost(s.fc[..], leaves, WithExtra(old(s.dl[..]), desc))
    ensures forall x :: 0 <= x < s.dl.Length && x !in leaves ==> s.dl[x] == old(s.dl[x])
    ensures Rising(s.heap[..], s.heapMax, desc.elems, s.dl[..], 0)
  {
    hide Dealing, Cost, Histogram, Overfull, Listed, Rising;
    ghost var dl0: seq<nat>, freq: seq<nat>, opt0 := s.dl[..], s.fc[..], s.optLen;
    ghost var dealt := DealStart(s.heap[..], s.heapMax, leaves, desc.elems, s.blCount[..], s.dl[..], desc.maxLength);
    CountZero(s.blCount[..], desc.maxLength, |leaves|);
    var h := HEAP_SIZE;
    var bits := desc.maxLength;
    RisingNone(s.heap[..], desc.elems, s.dl[..], bits);
    while bits != 0
      invariant 0 <= bits <= desc.maxLength && s.fc[..] == freq
      invariant Rising(s.heap[..], h, desc.elems, s.dl[..], bits)
      invariant Dealing(s.heap[..], s.heapMax, h, leaves, desc.elems, s.blCount[..], dealt, s.dl[..], desc.maxLength, bits, s.blCount[bits])
      invariant s.optLen - opt0 == Cost(freq, leaves, WithExtra(s.dl[..], desc)) - Cost(freq, leaves, WithExtra(dl0, desc))
      invariant forall x :: 0 <= x < s.dl.Length && x !in leaves ==> s.dl[x] == dl0[x]
    {
      var n := s.blCount[bits];
      while n != 0
        invariant Rising(s.heap[..], h, desc.elems, s.dl[..], bits)
        invariant Dealing(s.heap[..], s.heapMax, h, leaves, desc.elems, s.blCount[..], dealt, s.dl[..], desc.maxLength, bits, n)
        invariant s.optLen - opt0 == Cost(freq, leaves, WithExtra(s.dl[..], desc)) - Cost(freq, leaves, WithExtra(dl0, desc))
        invariant forall x :: 0 <= x < s.dl.Length && x !in leaves ==> s.dl[x] == dl0[x]
        decreases h
      {
        h, n, dealt := DealNode(s, desc, maxCode, bits, n, h, leaves, dealt);
      }
      NextLength(s.heap[..], s.heapMax, h, leaves, desc.elems, s.blCount[..], dealt, s.dl[..], desc.maxLength, bits);
      RisingLess(s.heap[..], h, desc.elems, s.dl[..], bits, bits - 1);
      bits := bits - 1;
    }
    RisingAll(s.heap[..], s.heapMax, h, leaves, desc.elems, s.blCount[..], dealt, s.dl[..], desc.maxLength);
    AllDealt(s.heap[..], s.heapMax, h, leaves, desc.elems, s.blCount[..], dealt, s.dl[..], desc.maxLength);
  }

  lemma CountZero(counts: seq<nat>, cap: nat, size: nat)
    requires Overfull(counts, cap, size, 0)
    ensures counts[0] == 0
  {
  }

  lemma NextLength(hp: seq<nat>, heapMax: nat, h: nat, leaves: set<nat>, elems: nat, counts: seq<nat>, dealt: seq<nat>,
                   dl: seq<nat>, cap: nat, bits: nat)
    requires Dealing(hp, heapMax, h, leaves, elems, counts, dealt, dl, cap, bits, 0) && bits >= 1
    ensures Dealing(hp, heapMax, h, leaves, elems, counts, dealt, dl, cap, bits - 1, counts[bits - 1])
  {
  }
}
