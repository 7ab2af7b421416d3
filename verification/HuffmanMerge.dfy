/** The history of merges that build_tree performs, and what the code lengths read off it satisfy.
    Merge number t removes two nodes from the queue and inserts the internal node elems + t. */
module HuffmanMerge {
  import opened Sums
  import opened HuffmanCost

  datatype Merge = Merge(first: nat, second: nat)

  /** The nodes in the queue after the given merges. */
  ghost function Active(leaves: set<nat>, merges: seq<Merge>, elems: nat): set<nat> {
    if merges == [] then leaves
    else
      var t := |merges| - 1;
      Merged(Active(leaves, merges[..t], elems), merges[t].first, merges[t].second, elems + t)
  }

  /** Each merge took the two lightest nodes in the queue and the new node weighs their sum. */
  ghost predicate Greedy(weight: seq<nat>, leaves: set<nat>, merges: seq<Merge>, elems: nat) {
    (forall x :: x in leaves ==> x < elems) && elems + |merges| <= |weight| &&
    if merges == [] then true
    else
      var t := |merges| - 1;
      && Greedy(weight, leaves, merges[..t], elems)
      && TwoLightest(weight, Active(leaves, merges[..t], elems), merges[t].first, merges[t].second)
      && weight[elems + t] == weight[merges[t].first] + weight[merges[t].second]
  }

  lemma {:induction false} ActiveBelow(weight: seq<nat>, leaves: set<nat>, merges: seq<Merge>, elems: nat)
    requires Greedy(weight, leaves, merges, elems)
    ensures forall x :: x in Active(leaves, merges, elems) ==> x < elems + |merges|
  {
    if merges != [] {
      ActiveBelow(weight, leaves, merges[..|merges| - 1], elems);
    }
  }

  lemma {:induction false} GreedyPrefix(weight: seq<nat>, leaves: set<nat>, merges: seq<Merge>, elems: nat, t: nat)
    requires Greedy(weight, leaves, merges, elems) && t <= |merges|
    ensures Greedy(weight, leaves, merges[..t], elems)
    decreases |merges|
  {
    if t == |merges| {
      assert merges[..t] == merges;
    } else {
      var n := |merges| - 1;
      GreedyPrefix(weight, leaves, merges[..n], elems, t);
      assert merges[..n][..t] == merges[..t];
    }
  }

  /** Weights of nodes not yet created do not matter. */
  lemma {:induction false} GreedyFrame(weight: seq<nat>, weight': seq<nat>, leaves: set<nat>, merges: seq<Merge>, elems: nat)
    requires Greedy(weight, leaves, merges, elems) && |weight'| == |weight|
    requires forall x :: 0 <= x < elems + |merges| ==> weight'[x] == weight[x]
    ensures Greedy(weight', leaves, merges, elems)
  {
    if merges != [] {
      var t := |merges| - 1;
      GreedyFrame(weight, weight', leaves, merges[..t], elems);
      ActiveBelow(weight, leaves, merges[..t], elems);
    }
  }

  lemma GreedyLast(weight: seq<nat>, leaves: set<nat>, merges: seq<Merge>, elems: nat, before: seq<Merge>)
    requires Greedy(weight, leaves, merges, elems) && merges != [] && before == merges[..|merges| - 1]
    ensures var m, queue := merges[|before|], Active(leaves, before, elems);
      && Greedy(weight, leaves, before, elems) && TwoLightest(weight, queue, m.first, m.second)
      && weight[elems + |before|] == weight[m.first] + weight[m.second]
      && Active(leaves, merges, elems) == Merged(queue, m.first, m.second, elems + |before|)
  {
  }

  /** One step of Greedy at index t. */
  lemma GreedyStep(weight: seq<nat>, leaves: set<nat>, merges: seq<Merge>, elems: nat, t: nat)
    requires Greedy(weight, leaves, merges, elems) && t < |merges|
    ensures Greedy(weight, leaves, merges[..t], elems)
    ensures TwoLightest(weight, Active(leaves, merges[..t], elems), merges[t].first, merges[t].second)
    ensures weight[elems + t] == weight[merges[t].first] + weight[merges[t].second]
    ensures Active(leaves, merges[..t + 1], elems) ==
            Merged(Active(leaves, merges[..t], elems), merges[t].first, merges[t].second, elems + t)
    ensures elems + t !in Active(leaves, merges[..t], elems)
    ensures merges[t].first < elems + t && merges[t].second < elems + t && merges[t].first != merges[t].second
  {
    GreedyPrefix(weight, leaves, merges, elems, t + 1);
    assert merges[..t + 1][..t] == merges[..t];
    GreedyLast(weight, leaves, merges[..t + 1], elems, merges[..t]);
    ActiveBelow(weight, leaves, merges[..t], elems);
  }

  /** A node leaves the queue for good when it is merged. */
  lemma {:induction false} Gone(weight: seq<nat>, leaves: set<nat>, merges: seq<Merge>, elems: nat, s: nat, t: nat)
    requires Greedy(weight, leaves, merges, elems) && s < t <= |merges|
    ensures merges[s].first !in Active(leaves, merges[..t], elems)
    ensures merges[s].second !in Active(leaves, merges[..t], elems)
    decreases t
  {
    GreedyStep(weight, leaves, merges, elems, t - 1);
    GreedyStep(weight, leaves, merges, elems, s);
    if s < t - 1 {
      Gone(weight, leaves, merges, elems, s, t - 1);
    }
  }

  /** So no node is merged twice. */
  lemma MergedOnce(weight: seq<nat>, leaves: set<nat>, merges: seq<Merge>, elems: nat, s: nat, t: nat)
    requires Greedy(weight, leaves, merges, elems) && s < t < |merges|
    ensures merges[s].first != merges[t].first && merges[s].first != merges[t].second
    ensures merges[s].second != merges[t].first && merges[s].second != merges[t].second
  {
    Gone(weight, leaves, merges, elems, s, t);
    GreedyStep(weight, leaves, merges, elems, t);
  }

  /** A node that was in the queue and no longer is has been merged. */
  /** After a merge everything left is at least as heavy as what was merged. */
  lemma LeftHeavier(weight: seq<nat>, leaves: set<nat>, merges: seq<Merge>, elems: nat, t: nat)
    requires Greedy(weight, leaves, merges, elems) && t < |merges|
    ensures merges[t].first < |weight| && merges[t].second < |weight| && weight[merges[t].first] <= weight[merges[t].second]
    ensures forall x :: x in Active(leaves, merges[..t + 1], elems) ==> x < |weight| && weight[merges[t].second] <= weight[x]
  {
    hide Greedy, Active;
    GreedyStep(weight, leaves, merges, elems, t);
    GreedyFits(weight, leaves, merges, elems);
  }

  lemma GreedyFits(weight: seq<nat>, leaves: set<nat>, merges: seq<Merge>, elems: nat)
    requires Greedy(weight, leaves, merges, elems)
    ensures elems + |merges| <= |weight|
  {
  }

  /** Nodes are merged in the order of their weights. */
  lemma {:induction false} MergesRise(weight: seq<nat>, leaves: set<nat>, merges: seq<Merge>, elems: nat, s: nat, t: nat)
    requires Greedy(weight, leaves, merges, elems) && s < t < |merges|
    ensures merges[s].second < |weight| && merges[t].first < |weight| && weight[merges[s].second] <= weight[merges[t].first]
    decreases t
  {
    hide Greedy, Active;
    LeftHeavier(weight, leaves, merges, elems, t - 1);
    GreedyStep(weight, leaves, merges, elems, t);
    if s < t - 1 {
      MergesRise(weight, leaves, merges, elems, s, t - 1);
    }
  }

  lemma {:induction false} WasMerged(leaves: set<nat>, merges: seq<Merge>, elems: nat, x: nat) returns (t: nat)
    requires x in leaves && x !in Active(leaves, merges, elems)
    ensures t < |merges| && (merges[t].first == x || merges[t].second == x)
    decreases |merges|
  {
    var n := |merges| - 1;
    if merges[n].first == x || merges[n].second == x {
      t := n;
    } else {
      t := WasMerged(leaves, merges[..n], elems, x);
    }
  }

  function Min(a: int, b: int): int {
    if a <= b then a else b
  }

  ghost function Root(merges: seq<Merge>, elems: nat): nat
    requires merges != []
  {
    elems + |merges| - 1
  }

  /** From merge number u on, len gives each node the depth it has below the root, clipped at cap. */
  ghost predicate DepthsFrom(len: seq<nat>, merges: seq<Merge>, elems: nat, cap: nat, u: nat) {
    && merges != [] && elems + |merges| <= |len|
    && len[Root(merges, elems)] == 0
    && forall t :: u <= t < |merges| ==>
         && merges[t].first < |len| && merges[t].second < |len|
         && len[merges[t].first] == Min(len[elems + t] + 1, cap)
         && len[merges[t].second] == Min(len[elems + t] + 1, cap)
  }

  ghost predicate Depths(len: seq<nat>, merges: seq<Merge>, elems: nat, cap: nat) {
    DepthsFrom(len, merges, elems, cap, 0)
  }

  /** Such lengths exist: they are filled in from the last merge down to the first. */
  lemma {:induction false} MakeDepths(weight: seq<nat>, leaves: set<nat>, merges: seq<Merge>, elems: nat, cap: nat, u: nat)
    returns (len: seq<nat>)
    requires Greedy(weight, leaves, merges, elems) && merges != [] && u <= |merges|
    ensures |len| == |weight| && DepthsFrom(len, merges, elems, cap, u)
    decreases |merges| - u
  {
    hide TwoLightest, Active;
    if u == |merges| {
      len := seq(|weight|, _ => 0);
    } else {
      var above := MakeDepths(weight, leaves, merges, elems, cap, u + 1);
      GreedyStep(weight, leaves, merges, elems, u);
      var b := Min(above[elems + u] + 1, cap);
      len := above[merges[u].first := b][merges[u].second := b];
      forall t | u <= t < |merges|
        ensures merges[t].first < |len| && merges[t].second < |len|
        ensures len[merges[t].first] == Min(len[elems + t] + 1, cap)
        ensures len[merges[t].second] == Min(len[elems + t] + 1, cap)
      {
        GreedyStep(weight, leaves, merges, elems, t);
        if u < t {
          MergedOnce(weight, leaves, merges, elems, u, t);
        }
      }
    }
  }

  /** With nothing clipped, the depths are an optimal assignment for the queue at every time;
      at time 0 this is Huffman's theorem. */
  lemma {:induction false} DepthsOptimal(weight: seq<nat>, leaves: set<nat>, merges: seq<Merge>, elems: nat,
                                         len: seq<nat>, cap: nat, t: nat)
    requires Greedy(weight, leaves, merges, elems) && |len| == |weight| && Depths(len, merges, elems, cap)
    requires Active(leaves, merges, elems) == {Root(merges, elems)}
    requires forall x :: elems <= x < elems + |merges| ==> len[x] < cap
    requires t <= |merges|
    ensures Optimal(weight, Active(leaves, merges[..t], elems), len)
    decreases |merges| - t
  {
    hide Optimal, Greedy, TwoLightest;
    if t == |merges| {
      assert merges[..t] == merges;
      RootOptimal(weight, len, Root(merges, elems));
    } else {
      GreedyStep(weight, leaves, merges, elems, t);
      DepthsOptimal(weight, leaves, merges, elems, len, cap, t + 1);
      SplitKeepsOptimal(weight, Active(leaves, merges[..t], elems), len, merges[t].first, merges[t].second, elems + t);
    }
  }

  lemma RootOptimal(weight: seq<nat>, len: seq<nat>, root: nat)
    requires |weight| == |len| && root < |len| && len[root] == 0
    ensures Optimal(weight, {root}, len)
  {
    hide Decodable, Cost;
    CostOfOne(weight, len, root);
    forall m: seq<nat>, top: nat | |m| == |len| && Decodable({root}, m, top)
      ensures Cost(weight, {root}, len) <= Cost(weight, {root}, m)
    {
      CostOfOne(weight, m, root);
    }
  }

  lemma CostOfOne(weight: seq<nat>, len: seq<nat>, i: nat)
    requires |weight| == |len| && i < |len|
    ensures Cost(weight, {i}, len) == weight[i] * len[i] >= 0
  {
    hide CostVec;
    var v := CostVec(weight, {i}, len);
    SumUpdate(v, i, 0);
    SumZero(v[i := 0]);
  }

  /** How many merges, from number t on, made a node whose sons are clipped. */
  ghost function Clipped(len: seq<nat>, elems: nat, count: nat, cap: nat, t: nat): nat
    requires elems + count <= |len| && t <= count
    decreases count - t
  {
    if t == count then 0
    else (if len[elems + t] == cap then 1 else 0) + Clipped(len, elems, count, cap, t + 1)
  }

  lemma {:induction false} DepthsCapped(weight: seq<nat>, leaves: set<nat>, merges: seq<Merge>, elems: nat, len: seq<nat>, cap: nat, t: nat)
    requires Greedy(weight, leaves, merges, elems) && |len| == |weight| && Depths(len, merges, elems, cap)
    requires Active(leaves, merges, elems) == {Root(merges, elems)}
    requires t <= |merges|
    ensures forall x :: x in Active(leaves, merges[..t], elems) ==> x < |len| && len[x] <= cap
    decreases |merges| - t
  {
    hide Greedy, TwoLightest;
    if t == |merges| {
      assert merges[..t] == merges;
    } else {
      DepthsCapped(weight, leaves, merges, elems, len, cap, t + 1);
      GreedyStep(weight, leaves, merges, elems, t);
    }
  }

  /** Each clipped pair of sons overfills the code by one unit of 2^-cap. */
  lemma {:induction false} ClippedKraft(weight: seq<nat>, leaves: set<nat>, merges: seq<Merge>, elems: nat,
                                        len: seq<nat>, cap: nat, t: nat)
    requires Greedy(weight, leaves, merges, elems) && |len| == |weight| && Depths(len, merges, elems, cap)
    requires Active(leaves, merges, elems) == {Root(merges, elems)}
    requires t <= |merges|
    ensures Kraft(Active(leaves, merges[..t], elems), len, cap) == Pow2(cap) + Clipped(len, elems, |merges|, cap, t)
    decreases |merges| - t
  {
    hide Greedy, TwoLightest, Kraft;
    if t == |merges| {
      assert merges[..t] == merges;
      KraftOne(len, cap, Root(merges, elems));
    } else {
      ClippedKraft(weight, leaves, merges, elems, len, cap, t + 1);
      GreedyStep(weight, leaves, merges, elems, t);
      DepthsCapped(weight, leaves, merges, elems, len, cap, t + 1);
      var p := elems + t;
      MergedKraft(Active(leaves, merges[..t], elems), len, cap, merges[t].first, merges[t].second, p, len[p]);
      assert len[p := len[p]] == len;
      assert len[p] < cap ==> Unit(cap, len[p]) == 2 * Unit(cap, len[p] + 1);
    }
  }
}
