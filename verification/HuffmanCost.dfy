/** Why the greedy merge of trees.c is optimal.
    A length assignment is a sequence indexed by tree node; only the nodes in an active set count.
    Kraft's inequality is stated in units of 2^-top, so that it stays in the integers. */
module HuffmanCost {
  import opened Sums

  ghost function Unit(top: nat, len: nat): nat {
    if len <= top then Pow2(top - len) else 0
  }

  ghost function KraftVec(active: set<nat>, len: seq<nat>, top: nat): (v: seq<int>)
    ensures |v| == |len|
    ensures forall i :: 0 <= i < |v| ==> v[i] == if i in active then Unit(top, len[i]) else 0
  {
    seq(|len|, i requires 0 <= i < |len| => if i in active then Unit(top, len[i]) else 0)
  }

  ghost function CostVec(weight: seq<nat>, active: set<nat>, len: seq<nat>): (v: seq<int>)
    requires |weight| == |len|
    ensures |v| == |len|
    ensures forall i :: 0 <= i < |v| ==> v[i] == if i in active then weight[i] * len[i] else 0
  {
    seq(|len|, i requires 0 <= i < |len| => if i in active then weight[i] * len[i] else 0)
  }

  /** The sum of 2^(top - len) over the active nodes. */
  ghost function Kraft(active: set<nat>, len: seq<nat>, top: nat): int {
    Sum(KraftVec(active, len, top))
  }

  /** The sum of weight times length over the active nodes. */
  ghost function Cost(weight: seq<nat>, active: set<nat>, len: seq<nat>): int
    requires |weight| == |len|
  {
    Sum(CostVec(weight, active, len))
  }

  ghost predicate Decodable(active: set<nat>, len: seq<nat>, top: nat) {
    && (forall i :: i in active ==> i < |len| && len[i] <= top)
    && Kraft(active, len, top) <= Pow2(top)
  }

  /** No length assignment that satisfies Kraft's inequality is cheaper. */
  ghost predicate Optimal(weight: seq<nat>, active: set<nat>, len: seq<nat>)
    requires |weight| == |len|
  {
    forall m: seq<nat>, top: nat :: |m| == |len| && Decodable(active, m, top) ==>
      Cost(weight, active, len) <= Cost(weight, active, m)
  }

  // ----- The effect of changing one length -----

  lemma KraftSet(active: set<nat>, len: seq<nat>, top: nat, i: nat, x: nat)
    requires i < |len|
    ensures Kraft(active + {i}, len[i := x], top) ==
            Kraft(active, len, top) - (if i in active then Unit(top, len[i]) else 0) + Unit(top, x)
  {
    var v := KraftVec(active, len, top);
    assert KraftVec(active + {i}, len[i := x], top) == v[i := Unit(top, x) as int];
    SumUpdate(v, i, Unit(top, x));
  }

  lemma KraftDrop(active: set<nat>, len: seq<nat>, top: nat, i: nat)
    requires i < |len| && i in active
    ensures Kraft(active - {i}, len, top) == Kraft(active, len, top) - Unit(top, len[i])
  {
    var v := KraftVec(active, len, top);
    assert KraftVec(active - {i}, len, top) == v[i := 0];
    SumUpdate(v, i, 0);
  }

  lemma CostSet(weight: seq<nat>, active: set<nat>, len: seq<nat>, i: nat, x: nat)
    requires |weight| == |len| && i < |len|
    ensures Cost(weight, active + {i}, len[i := x]) ==
            Cost(weight, active, len) - (if i in active then weight[i] * len[i] else 0) + weight[i] * x
  {
    var v := CostVec(weight, active, len);
    assert CostVec(weight, active + {i}, len[i := x]) == v[i := weight[i] * x];
    SumUpdate(v, i, weight[i] * x);
  }

  lemma CostDrop(weight: seq<nat>, active: set<nat>, len: seq<nat>, i: nat)
    requires |weight| == |len| && i < |len| && i in active
    ensures Cost(weight, active - {i}, len) == Cost(weight, active, len) - weight[i] * len[i]
  {
    var v := CostVec(weight, active, len);
    assert CostVec(weight, active - {i}, len) == v[i := 0];
    SumUpdate(v, i, 0);
  }

  /** Giving the longer of two lengths to the lighter node never costs more. */
  lemma Swap(weight: seq<nat>, active: set<nat>, m: seq<nat>, top: nat, a: nat, x: nat) returns (s: seq<nat>)
    requires |weight| == |m| && Decodable(active, m, top)
    requires a in active && x in active && a != x && weight[a] <= weight[x] && m[a] <= m[x]
    ensures s == m[a := m[x]][x := m[a]]
    ensures Decodable(active, s, top)
    ensures Cost(weight, active, s) <= Cost(weight, active, m)
  {
    hide Kraft, Cost;
    var n := m[a := m[x]];
    s := n[x := m[a]];
    assert active + {a} == active && active + {x} == active;
    KraftSet(active, m, top, a, m[x]);
    KraftSet(active, n, top, x, m[a]);
    CostSet(weight, active, m, a, m[x]);
    CostSet(weight, active, n, x, m[a]);
    assert (weight[x] - weight[a]) * (m[x] - m[a]) >= 0;
  }

  /** Lighter symbols do not have shorter codes. */
  ghost predicate LighterLonger(weight: seq<nat>, active: set<nat>, len: seq<nat>)
    requires |weight| == |len|
  {
    forall x, y :: x in active && y in active && x < |len| && y < |len| && weight[x] < weight[y] ==> len[x] >= len[y]
  }

  /** So it is with optimal lengths. */
  lemma OptimalLonger(weight: seq<nat>, active: set<nat>, len: seq<nat>, top: nat)
    requires |weight| == |len| && Optimal(weight, active, len) && Decodable(active, len, top)
    ensures LighterLonger(weight, active, len)
  {
    hide Kraft, Cost;
    forall x, y | x in active && y in active && x < |len| && y < |len| && weight[x] < weight[y]
      ensures len[x] >= len[y]
    {
      if len[x] < len[y] {
        var s := Swap(weight, active, len, top, x, y);
        StrictSwap(weight, active, len, x, y);
      }
    }
  }

  lemma StrictSwap(weight: seq<nat>, active: set<nat>, m: seq<nat>, a: nat, x: nat)
    requires |weight| == |m| && a in active && x in active && a < |m| && x < |m| && weight[a] < weight[x] && m[a] < m[x]
    ensures Cost(weight, active, m[a := m[x]][x := m[a]]) < Cost(weight, active, m)
  {
    hide Cost;
    var n := m[a := m[x]];
    assert active + {a} == active && active + {x} == active;
    CostSet(weight, active, m, a, m[x]);
    CostSet(weight, active, n, x, m[a]);
    Exchange(weight[a], weight[x], m[a], m[x]);
  }

  lemma Exchange(wa: nat, wx: nat, ma: nat, mx: nat)
    requires wa < wx && ma < mx
    ensures wa * mx + wx * ma < wa * ma + wx * mx
  {
    var d := mx - ma;
    assert wa * mx == wa * ma + wa * d && wx * mx == wx * ma + wx * d;
    assert wx * d == wa * d + (wx - wa) * d;
    Positive(wx - wa, d);
  }

  lemma Positive(a: nat, b: nat)
    requires a > 0 && b > 0
    ensures a * b > 0
  {
  }

  lemma KraftDouble(active: set<nat>, m: seq<nat>, top: nat)
    requires top > 0
    requires forall i :: i in active && i < |m| ==> m[i] < top
    ensures Kraft(active, m, top) == 2 * Kraft(active, m, top - 1)
  {
    SumDouble(KraftVec(active, m, top - 1), KraftVec(active, m, top));
  }

  /** With no node at depth top, the depth bound can be lowered. */
  lemma Halve(active: set<nat>, m: seq<nat>, top: nat)
    requires top > 0 && Decodable(active, m, top)
    requires forall i :: i in active ==> m[i] < top
    ensures Decodable(active, m, top - 1)
  {
    hide Kraft;
    KraftDouble(active, m, top);
  }

  lemma KraftNonNegative(active: set<nat>, m: seq<nat>, top: nat)
    ensures Kraft(active, m, top) >= 0
  {
    SumNonNegative(KraftVec(active, m, top));
  }

  /** A node that is alone at depth top can move up one level: the Kraft sum is odd, hence not full. */
  lemma Raise(weight: seq<nat>, active: set<nat>, m: seq<nat>, top: nat, x: nat)
    requires |weight| == |m| && top > 0 && Decodable(active, m, top)
    requires x in active && m[x] == top
    requires forall i :: i in active && i != x ==> m[i] < top
    ensures Decodable(active, m[x := top - 1], top)
    ensures Cost(weight, active, m[x := top - 1]) <= Cost(weight, active, m)
  {
    hide Cost, Kraft;
    assert active + {x} == active;
    KraftDrop(active, m, top, x);
    KraftDouble(active - {x}, m, top);
    assert Unit(top, top - 1) == Unit(top, top) + 1 == 2 by { assert Pow2(1) == 2 * Pow2(0); }
    KraftSet(active, m, top, x, top - 1);
    CostSet(weight, active, m, x, top - 1);
    assert weight[x] * (top - 1) <= weight[x] * top;
  }

  ghost predicate TwoLightest(weight: seq<nat>, active: set<nat>, a: nat, b: nat) {
    && a in active && b in active && a != b
    && (forall i :: i in active ==> i < |weight|)
    && (forall i :: i in active ==> weight[a] <= weight[i])
    && (forall i :: i in active && i != a ==> weight[b] <= weight[i])
  }

  ghost function Merged(active: set<nat>, a: nat, b: nat, p: nat): set<nat> {
    active - {a} - {b} + {p}
  }

  lemma MergedKraft(active: set<nat>, m: seq<nat>, top: nat, a: nat, b: nat, p: nat, x: nat)
    requires a in active && b in active && a != b && p !in active
    requires a < |m| && b < |m| && p < |m|
    ensures Kraft(Merged(active, a, b, p), m[p := x], top) ==
            Kraft(active, m, top) - Unit(top, m[a]) - Unit(top, m[b]) + Unit(top, x)
  {
    hide Kraft, Unit;
    KraftDrop(active, m, top, a);
    KraftDrop(active - {a}, m, top, b);
    KraftSet(active - {a} - {b}, m, top, p, x);
  }

  lemma MergedCost(weight: seq<nat>, active: set<nat>, m: seq<nat>, a: nat, b: nat, p: nat, x: nat)
    requires |weight| == |m| && a in active && b in active && a != b && p !in active
    requires a < |m| && b < |m| && p < |m|
    ensures Cost(weight, Merged(active, a, b, p), m[p := x]) ==
            Cost(weight, active, m) - weight[a] * m[a] - weight[b] * m[b] + weight[p] * x
  {
    hide Cost;
    CostDrop(weight, active, m, a);
    CostDrop(weight, active - {a}, m, b);
    CostSet(weight, active - {a} - {b}, m, p, x);
  }

  /** Both lightest nodes at depth top: replace them by their father. */
  lemma MergeSiblings(weight: seq<nat>, active: set<nat>, m: seq<nat>, top: nat, a: nat, b: nat, p: nat)
    requires |weight| == |m| && top > 0 && Decodable(active, m, top)
    requires a in active && b in active && a != b && p !in active && p < |m|
    requires weight[p] == weight[a] + weight[b] && m[a] == top && m[b] == top
    ensures Decodable(Merged(active, a, b, p), m[p := top - 1], top)
    ensures Cost(weight, Merged(active, a, b, p), m[p := top - 1]) + weight[p] == Cost(weight, active, m)
  {
    hide Kraft, Cost;
    MergedKraft(active, m, top, a, b, p, top - 1);
    MergedCost(weight, active, m, a, b, p, top - 1);
    assert Pow2(1) == 2;
    assert weight[p] * (top - 1) == weight[a] * top + weight[b] * top - weight[p];
  }

  /** Every decodable assignment yields one for the merged nodes that is cheaper by the merged weight. */
  lemma {:induction false} Contract(weight: seq<nat>, active: set<nat>, m: seq<nat>, top: nat, a: nat, b: nat, p: nat)
    returns (m': seq<nat>, top': nat)
    requires |weight| == |m| && Decodable(active, m, top) && TwoLightest(weight, active, a, b)
    requires p !in active && p < |m| && weight[p] == weight[a] + weight[b]
    ensures |m'| == |m| && Decodable(Merged(active, a, b, p), m', top')
    ensures Cost(weight, Merged(active, a, b, p), m') + weight[p] <= Cost(weight, active, m)
    decreases top
  {
    hide Cost, Kraft;
    if top == 0 {
      KraftDrop(active, m, top, a);
      KraftDrop(active - {a}, m, top, b);
      KraftNonNegative(active - {a} - {b}, m, top);
      assert false;
    }
    if forall i :: i in active ==> m[i] < top {
      Halve(active, m, top);
      m', top' := Contract(weight, active, m, top - 1, a, b, p);
      return;
    }
    var x :| x in active && m[x] == top;
    if forall i :: i in active && i != x ==> m[i] < top {
      Raise(weight, active, m, top, x);
      var r := m[x := top - 1];
      Halve(active, r, top);
      m', top' := Contract(weight, active, r, top - 1, a, b, p);
      return;
    }
    var y :| y in active && y != x && m[y] == top;
    var s := m;
    if m[a] != top {
      var z := if x == b then y else x;
      s := Swap(weight, active, m, top, a, z);
      assert s[if z == x then y else x] == top;
    }
    assert s[a] == top && exists z :: z in active && z != a && s[z] == top;
    if s[b] != top {
      var z :| z in active && z != a && s[z] == top;
      s := Swap(weight, active, s, top, b, z);
    }
    MergeSiblings(weight, active, s, top, a, b, p);
    m', top' := s[p := top - 1], top;
  }

  /** The exchange argument of Huffman coding, one merge: splitting a node of an optimal assignment into
      the two lightest nodes keeps it optimal. */
  lemma SplitKeepsOptimal(weight: seq<nat>, active: set<nat>, len: seq<nat>, a: nat, b: nat, p: nat)
    requires |weight| == |len| && TwoLightest(weight, active, a, b)
    requires p !in active && p < |len| && weight[p] == weight[a] + weight[b]
    requires Optimal(weight, Merged(active, a, b, p), len)
    requires len[a] == len[p] + 1 && len[b] == len[p] + 1
    ensures Optimal(weight, active, len)
  {
    hide Kraft, Cost, Decodable;
    MergedCost(weight, active, len, a, b, p, len[p]);
    assert len[p := len[p]] == len;
    assert weight[a] * len[a] + weight[b] * len[b] == weight[p] * len[p] + weight[p];
    forall m: seq<nat>, top: nat | |m| == |len| && Decodable(active, m, top)
      ensures Cost(weight, active, len) <= Cost(weight, active, m)
    {
      var m', top' := Contract(weight, active, m, top, a, b, p);
    }
  }

  // ----- Prefix codes satisfy Kraft's inequality -----

  ghost predicate PrefixFree(active: set<nat>, word: seq<seq<bool>>) {
    && (forall i :: i in active ==> i < |word|)
    && (forall i, j :: i in active && j in active && i != j ==> !(word[i] <= word[j]))
  }

  ghost function Lengths(word: seq<seq<bool>>): (len: seq<nat>)
    ensures |len| == |word| && forall i :: 0 <= i < |word| ==> len[i] == |word[i]|
  {
    seq(|word|, i requires 0 <= i < |word| => |word[i]|)
  }

  ghost function Tails(word: seq<seq<bool>>): (t: seq<seq<bool>>)
    ensures |t| == |word|
    ensures forall i :: 0 <= i < |word| ==> t[i] == if word[i] == [] then [] else word[i][1..]
  {
    seq(|word|, i requires 0 <= i < |word| => if word[i] == [] then [] else word[i][1..])
  }

  ghost function Starting(active: set<nat>, word: seq<seq<bool>>, bit: bool): set<nat>
    requires forall i :: i in active ==> i < |word| && word[i] != []
  {
    set i | i in active && word[i][0] == bit
  }

  lemma TailsPrefixFree(active: set<nat>, word: seq<seq<bool>>, bit: bool)
    requires PrefixFree(active, word) && forall i :: i in active ==> word[i] != []
    ensures PrefixFree(Starting(active, word, bit), Tails(word))
  {
    var s, t := Starting(active, word, bit), Tails(word);
    forall i, j | i in s && j in s && i != j ensures !(t[i] <= t[j]) {
      assert word[i] == [bit] + t[i] && word[j] == [bit] + t[j];
    }
  }

  lemma EmptyPrefix(s: seq<bool>, t: seq<bool>)
    requires s == []
    ensures s <= t
  {
  }

  lemma SplitKraft(active: set<nat>, zeros: set<nat>, ones: set<nat>, tail: seq<nat>, len: seq<nat>, top: nat)
    requires active == zeros + ones && zeros !! ones && |tail| == |len|
    requires forall i :: i in active && i < |len| ==> len[i] == tail[i] + 1
    ensures Kraft(active, len, top + 1) == Kraft(zeros, tail, top) + Kraft(ones, tail, top)
  {
    hide Sum, Pow2, KraftVec;
    var u, v, w := KraftVec(zeros, tail, top), KraftVec(ones, tail, top), KraftVec(active, len, top + 1);
    forall i | 0 <= i < |len| ensures w[i] == u[i] + v[i] {
      assert i in active <==> i in zeros || i in ones;
    }
    SumAdd(u, v, w);
  }

  lemma KraftEmpty(len: seq<nat>, top: nat)
    ensures Kraft({}, len, top) == 0
  {
    SumZero(KraftVec({}, len, top));
  }

  lemma KraftOne(len: seq<nat>, top: nat, e: nat)
    requires e < |len| && len[e] == 0
    ensures Kraft({e}, len, top) == Pow2(top)
  {
    hide Kraft;
    KraftDrop({e}, len, top, e);
    assert {e} - {e} == {};
    KraftEmpty(len, top);
  }

  /** Kraft's inequality, by splitting on the first bit. */
  lemma {:induction false} PrefixCodeDecodable(active: set<nat>, word: seq<seq<bool>>, top: nat)
    requires PrefixFree(active, word)
    requires forall i :: i in active ==> |word[i]| <= top
    ensures Decodable(active, Lengths(word), top)
    decreases top
  {
    hide Kraft, Unit, Sum;
    var len := Lengths(word);
    if e :| e in active && word[e] == [] {
      forall i | i in active ensures i == e {
        EmptyPrefix(word[e], word[i]);
      }
      assert active == {e};
      KraftOne(len, top, e);
    } else if top == 0 {
      assert active == {};
      KraftEmpty(len, top);
    } else {
      var zeros, ones := Starting(active, word, false), Starting(active, word, true);
      var tails := Tails(word);
      TailsPrefixFree(active, word, false);
      TailsPrefixFree(active, word, true);
      PrefixCodeDecodable(zeros, tails, top - 1);
      PrefixCodeDecodable(ones, tails, top - 1);
      SplitKraft(active, zeros, ones, Lengths(tails), len, top - 1);
    }
  }
}
