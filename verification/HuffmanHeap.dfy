/** The priority queue of trees.c: heap[1..heap_len] holds tree nodes ordered by frequency,
    with the depth of the subtree as tie breaker. */
module HuffmanHeap {

  /** The macro smaller(tree, n, m, depth). */
  predicate Smaller(freq: seq<nat>, depth: seq<nat>, n: nat, m: nat)
    requires n < |freq| && m < |freq| && |freq| <= |depth|
  {
    freq[n] < freq[m] || (freq[n] == freq[m] && depth[n] <= depth[m])
  }

  ghost predicate Nodes(h: seq<nat>, len: nat, n: nat) {
    len < |h| && forall k :: 1 <= k <= len ==> h[k] < n
  }

  /** Every father at index lo or above is smaller than its sons. */
  ghost predicate Ordered(h: seq<nat>, len: nat, freq: seq<nat>, depth: seq<nat>, lo: nat)
    requires |freq| <= |depth| && Nodes(h, len, |freq|)
  {
    forall j :: 2 <= j <= len && lo <= j / 2 ==> Smaller(freq, depth, h[j / 2], h[j])
  }

  /** The nodes in the queue. */
  ghost function Queue(h: seq<nat>, len: nat): multiset<nat>
    requires len < |h|
  {
    multiset(h[1..len + 1])
  }

  /** In a heap the root is smallest. */
  lemma {:induction false} RootIsSmallest(h: seq<nat>, len: nat, freq: seq<nat>, depth: seq<nat>, k: nat)
    requires |freq| <= |depth| && Nodes(h, len, |freq|) && Ordered(h, len, freq, depth, 1)
    requires 1 <= k <= len
    ensures Smaller(freq, depth, h[1], h[k])
  {
    if k > 1 {
      RootIsSmallest(h, len, freq, depth, k / 2);
      assert Smaller(freq, depth, h[k / 2], h[k]);
    }
  }

  lemma QueueMember(h: seq<nat>, len: nat, x: nat)
    requires len < |h|
    ensures x in Queue(h, len) <==> exists k :: 1 <= k <= len && h[k] == x
  {
    var s := h[1..len + 1];
    assert x in Queue(h, len) <==> x in s;
    if x in s {
      var i :| 0 <= i < |s| && s[i] == x;
      assert h[i + 1] == x;
    }
    if k :| 1 <= k <= len && h[k] == x {
      assert s[k - 1] == x;
    }
  }

  lemma QueueSet(h: seq<nat>, len: nat, k: nat, x: nat)
    requires len < |h| && 1 <= k <= len
    ensures Queue(h[k := x], len) == Queue(h, len) - multiset{h[k]} + multiset{x}
  {
    var s := h[1..len + 1];
    assert h[k := x][1..len + 1] == s[k - 1 := x];
    assert s == s[..k - 1] + [s[k - 1]] + s[k..];
    assert s[k - 1 := x] == s[..k - 1] + [x] + s[k..];
  }

  lemma QueueSameOutside(h: seq<nat>, h': seq<nat>, len: nat)
    requires len < |h| && |h'| == |h|
    requires forall k :: 1 <= k <= len ==> h'[k] == h[k]
    ensures Queue(h', len) == Queue(h, len)
  {
    assert h'[1..len + 1] == h[1..len + 1];
  }

  /** The state of the sift loop: h[hole] is stale and waits for v. */
  ghost predicate Sifting(h: seq<nat>, len: nat, f: seq<nat>, d: seq<nat>, k: nat, hole: nat, v: nat) {
    && |f| <= |d| && Nodes(h, len, |f|) && v < |f|
    && 1 <= k <= hole <= len
    && Ordered(h, len, f, d, k + 1)
    && (hole != k ==> Ordered(h, len, f, d, k) && k <= hole / 2 && Smaller(f, d, h[hole / 2], v))
  }

  /** Moving the smaller son j into the hole. */
  lemma MoveUp(h: seq<nat>, len: nat, f: seq<nat>, d: seq<nat>, k: nat, hole: nat, j: nat, v: nat)
    requires Sifting(h, len, f, d, k, hole, v)
    requires j / 2 == hole && j <= len && !Smaller(f, d, v, h[j])
    requires forall i :: i / 2 == hole && i <= len ==> Smaller(f, d, h[j], h[i])
    ensures Sifting(h[hole := h[j]], len, f, d, k, j, v)
    ensures Queue(h[hole := h[j]][j := v], len) == Queue(h[hole := v], len)
  {
    hide Queue;
    var g := h[hole := h[j]];
    forall i | 2 <= i <= len && k <= i / 2 ensures Smaller(f, d, g[i / 2], g[i]) {
      if i / 2 == hole {
        assert g[i] == h[i];
      } else {
        if i == hole {
          assert Smaller(f, d, h[hole / 2], h[hole]) && Smaller(f, d, h[hole], h[j]);
        }
        assert Smaller(f, d, h[i / 2], h[i]);
      }
    }
    QueueSet(h, len, hole, h[j]);
    QueueSet(g, len, j, v);
    QueueSet(h, len, hole, v);
  }

  /** Dropping v into the hole once it is smaller than both sons. */
  lemma Place(h: seq<nat>, len: nat, f: seq<nat>, d: seq<nat>, k: nat, hole: nat, v: nat)
    requires Sifting(h, len, f, d, k, hole, v)
    requires forall i :: i / 2 == hole && i <= len ==> Smaller(f, d, v, h[i])
    ensures Nodes(h[hole := v], len, |f|) && Ordered(h[hole := v], len, f, d, k)
  {
    var g := h[hole := v];
    forall i | 2 <= i <= len && k <= i / 2 ensures Smaller(f, d, g[i / 2], g[i]) {
      if i / 2 != hole && i != hole {
        assert Smaller(f, d, h[i / 2], h[i]);
      }
    }
  }

  /** pqdownheap: moves heap[k] down until the heap property holds from k on. */
  method PqDownHeap(heap: array<nat>, heapLen: nat, freq: array<nat>, depth: array<nat>, k: nat)
    requires heap != freq && heap != depth && freq.Length <= depth.Length
    requires 1 <= k <= heapLen && Nodes(heap[..], heapLen, freq.Length)
    requires Ordered(heap[..], heapLen, freq[..], depth[..], k + 1)
    modifies heap
    ensures Nodes(heap[..], heapLen, freq.Length)
    ensures Ordered(heap[..], heapLen, freq[..], depth[..], k)
    ensures Queue(heap[..], heapLen) == old(Queue(heap[..], heapLen))
    ensures forall i :: 0 <= i < heap.Length && (i < k || i > heapLen) ==> heap[i] == old(heap[i])
  {
    hide Queue, Ordered;
    var v := heap[k];
    var hole := k;
    var j := 2 * k;
    ghost var f, d := freq[..], depth[..];
    ghost var start := Queue(heap[..], heapLen);
    assert heap[..][hole := v] == heap[..];
    while j <= heapLen
      invariant j == 2 * hole
      invariant Sifting(heap[..], heapLen, f, d, k, hole, v)
      invariant Queue(heap[..][hole := v], heapLen) == start
      invariant forall i :: 0 <= i < heap.Length && (i < k || i > heapLen) ==> heap[i] == old(heap[i])
      decreases heapLen - hole
    {
      if j < heapLen && Smaller(freq[..], depth[..], heap[j + 1], heap[j]) {
        j := j + 1;
      }
      ghost var h := heap[..];
      assert forall i :: i / 2 == hole && i <= heapLen ==> i == 2 * hole || i == 2 * hole + 1;
      assert forall i :: i / 2 == hole && i <= heapLen ==> Smaller(f, d, h[j], h[i]);
      if Smaller(freq[..], depth[..], v, heap[j]) {
        assert forall i :: i / 2 == hole && i <= heapLen ==> Smaller(f, d, v, h[i]);
        break;
      }
      MoveUp(heap[..], heapLen, f, d, k, hole, j, v);
      ghost var g := heap[..][hole := heap[j]];
      heap[hole] := heap[j];
      assert heap[..] == g;
      hole := j;
      j := 2 * j;
    }
    Place(heap[..], heapLen, f, d, k, hole, v);
    ghost var g := heap[..][hole := v];
    heap[hole] := v;
    assert heap[..] == g;
  }

  /** pqremove: takes the smallest node out of the queue. */
  method PqRemove(heap: array<nat>, heapLen: nat, freq: array<nat>, depth: array<nat>) returns (top: nat)
    requires heap != freq && heap != depth && freq.Length <= depth.Length
    requires heapLen >= 2 && Nodes(heap[..], heapLen, freq.Length)
    requires Ordered(heap[..], heapLen, freq[..], depth[..], 1)
    modifies heap
    ensures Nodes(heap[..], heapLen - 1, freq.Length) && top < freq.Length
    ensures Ordered(heap[..], heapLen - 1, freq[..], depth[..], 1)
    ensures old(top in Queue(heap[..], heapLen))
    ensures Queue(heap[..], heapLen - 1) == old(Queue(heap[..], heapLen)) - multiset{top}
    ensures forall x :: x in old(Queue(heap[..], heapLen)) ==> x < freq.Length && freq[top] <= freq[x] && (freq[top] == freq[x] ==> depth[top] <= depth[x])
    ensures forall i :: 0 <= i < heap.Length && (i < 1 || i > heapLen) ==> heap[i] == old(heap[i])
  {
    hide Queue, Ordered;
    top := heap[1];
    LightestInQueue(heap[..], heapLen, freq[..], depth[..]);
    RemoveRoot(heap[..], heapLen, freq[..], depth[..]);
    ghost var g := heap[..][1 := heap[heapLen]];
    heap[1] := heap[heapLen];
    assert heap[..] == g;
    PqDownHeap(heap, heapLen - 1, freq, depth, 1);
  }

  lemma LightestInQueue(h: seq<nat>, len: nat, freq: seq<nat>, depth: seq<nat>)
    requires |freq| <= |depth| && Nodes(h, len, |freq|) && Ordered(h, len, freq, depth, 1) && len >= 1
    ensures h[1] in Queue(h, len)
    ensures forall x :: x in Queue(h, len) ==> x < |freq| && freq[h[1]] <= freq[x] && (freq[h[1]] == freq[x] ==> depth[h[1]] <= depth[x])
  {
    QueueMember(h, len, h[1]);
    forall x | x in Queue(h, len) ensures x < |freq| && freq[h[1]] <= freq[x] && (freq[h[1]] == freq[x] ==> depth[h[1]] <= depth[x]) {
      QueueMember(h, len, x);
      var k :| 1 <= k <= len && h[k] == x;
      RootIsSmallest(h, len, freq, depth, k);
    }
  }

  /** Overwriting the root with the last entry and shrinking the heap. */
  lemma RemoveRoot(h: seq<nat>, len: nat, freq: seq<nat>, depth: seq<nat>)
    requires |freq| <= |depth| && Nodes(h, len, |freq|) && Ordered(h, len, freq, depth, 1) && len >= 2
    ensures Nodes(h[1 := h[len]], len - 1, |freq|)
    ensures Ordered(h[1 := h[len]], len - 1, freq, depth, 2)
    ensures Queue(h[1 := h[len]], len - 1) == Queue(h, len) - multiset{h[1]}
  {
    var g := h[1 := h[len]];
    forall j | 2 <= j <= len - 1 && 2 <= j / 2 ensures Smaller(freq, depth, g[j / 2], g[j]) {
      assert Smaller(freq, depth, h[j / 2], h[j]);
    }
    QueueSplit(h, len);
    QueueSplit2(h, g, len);
  }

  lemma QueueSplit(h: seq<nat>, len: nat)
    requires 2 <= len < |h|
    ensures multiset(h[1..len + 1]) == multiset{h[1]} + multiset(h[2..len]) + multiset{h[len]}
  {
    assert h[1..len + 1] == h[1..len] + [h[len]];
    assert h[1..len] == [h[1]] + h[2..len];
  }

  lemma QueueSplit2(h: seq<nat>, g: seq<nat>, len: nat)
    requires 2 <= len < |h| && g == h[1 := h[len]]
    ensures multiset(g[1..len]) == multiset{h[len]} + multiset(h[2..len])
  {
    assert g[1..len] == [h[len]] + g[2..len];
    assert g[2..len] == h[2..len];
  }
}
