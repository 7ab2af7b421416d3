/** build_tree followed by gen_codes: the code the encoder uses is the canonical code of its lengths, is
    complete, and is the code that inflate_table decodes. */
module TreeCodes {
  import opened Sums
  import opened HuffmanCost
  import opened HuffmanTree
  import opened LengthCounts
  import opened BitLengths
  import opened TreeLengths
  import opened CanonicalCode
  import opened GenCodes

  /** The lengths of the symbols up to maxCode: zero exactly for the unused ones. */
  ghost predicate LengthsOf(lens: seq<nat>, dl: seq<nat>, leaves: set<nat>, maxCode: int) {
    && 0 <= maxCode < |dl| && lens == dl[..maxCode + 1]
    && (forall x :: x in leaves ==> x <= maxCode && 1 <= dl[x] <= MAXBITS)
    && (forall x :: 0 <= x <= maxCode && x !in leaves ==> dl[x] == 0)
  }

  lemma {:induction false} SpacePrefix(lens: seq<nat>, dl: seq<nat>, leaves: set<nat>, maxCode: int, k: nat)
    requires LengthsOf(lens, dl, leaves, maxCode) && k <= |lens|
    ensures Below(lens, true, MAXBITS + 1, 0, k) == Sum(KraftVec(leaves, dl, MAXBITS)[..k])
  {
    hide KraftVec;
    var v := KraftVec(leaves, dl, MAXBITS);
    if k != 0 {
      SpacePrefix(lens, dl, leaves, maxCode, k - 1);
      assert v[..k][..k - 1] == v[..k - 1];
    }
  }

  lemma {:induction false} SumTrailingZeros(v: seq<int>, k: nat)
    requires k <= |v| && forall i :: k <= i < |v| ==> v[i] == 0
    ensures Sum(v) == Sum(v[..k])
    decreases |v|
  {
    if k < |v| {
      var w := v[..|v| - 1];
      SumTrailingZeros(w, k);
      assert w[..k] == v[..k];
    } else {
      assert v[..k] == v;
    }
  }

  lemma SpaceIsKraft(lens: seq<nat>, dl: seq<nat>, leaves: set<nat>, maxCode: int)
    requires LengthsOf(lens, dl, leaves, maxCode)
    ensures Space(lens) == Kraft(leaves, dl, MAXBITS)
  {
    hide KraftVec, Sum, Below;
    SpacePrefix(lens, dl, leaves, maxCode, |lens|);
    SumTrailingZeros(KraftVec(leaves, dl, MAXBITS), |lens|);
  }

  lemma {:induction false} CountIsSize(lens: seq<nat>, dl: seq<nat>, leaves: set<nat>, maxCode: int, b: nat, k: nat)
    requires LengthsOf(lens, dl, leaves, maxCode) && k <= |lens| && b >= 1
    ensures CountLen(lens, b, k) == |set x | x in AtLength(leaves, dl, b) && x < k|
  {
    var s := set x | x in AtLength(leaves, dl, b) && x < k;
    if k == 0 {
      assert s == {};
    } else {
      CountIsSize(lens, dl, leaves, maxCode, b, k - 1);
      var r := set x | x in AtLength(leaves, dl, b) && x < k - 1;
      assert lens[k - 1] == dl[k - 1];
      if lens[k - 1] == b {
        assert s == r + {k - 1};
      } else {
        assert s == r;
      }
    }
  }

  /** The encoder's counts are the counts gen_codes needs, and the code is complete. */
  lemma CodeReady(lens: seq<nat>, dl: seq<nat>, leaves: set<nat>, maxCode: int, counts: seq<nat>, cap: nat)
    requires LengthsOf(lens, dl, leaves, maxCode) && |counts| == MAXBITS + 1
    requires CompleteCode(leaves, dl, counts, cap) && cap <= MAXBITS
    ensures ValidLengths(lens) && Space(lens) == Pow2(MAXBITS)
    ensures counts[0] == 0 && forall b :: 1 <= b <= MAXBITS ==> counts[b] == CountLen(lens, b, |lens|)
  {
    hide Kraft, CountLen, Space, Pow2;
    KraftRaise(leaves, dl, cap, MAXBITS);
    SpaceIsKraft(lens, dl, leaves, maxCode);
    assert counts[0] == |AtLength(leaves, dl, 0)|;
    assert AtLength(leaves, dl, 0) == {};
    forall b | 1 <= b <= MAXBITS ensures counts[b] == CountLen(lens, b, |lens|) {
      CountIsSize(lens, dl, leaves, maxCode, b, |lens|);
      assert AtLength(leaves, dl, b) == set x | x in AtLength(leaves, dl, b) && x < |lens|;
    }
  }

  /** build_tree: for every set of frequencies within the 16-bit counters, the codes left in the tree are the
      canonical, bit-reversed codes of a complete set of lengths no longer than the limit. opt_len and
      static_len grow by exactly the bits that the counted symbols take, and the lengths are optimal over all
      prefix codes if no leaf of the Huffman tree lies deeper than the limit. */
  method BuildTree(s: TreeBuilder, desc: StaticDesc) returns (maxCode: int, ghost leaves: set<nat>, ghost depth: seq<nat>, ghost freq: seq<nat>)
    requires s.Arrays() && ValidDesc(desc) && s.fc.Length == s.dl.Length == 2 * desc.elems + 1
    requires Total(s.fc[..], LeavesOf(s.fc[..], desc.elems)) <= 0xFFFD
    modifies s, s.heap, s.depth, s.blCount, s.fc, s.dl
    ensures 1 <= maxCode < desc.elems && maxCode in leaves && |leaves| >= 2
    ensures forall x :: x in leaves ==> x <= maxCode && 1 <= s.dl[x] <= desc.maxLength
    ensures forall x :: 0 <= x < desc.elems && x !in leaves ==> s.dl[x] == 0
    ensures old(LeavesOf(s.fc[..], desc.elems)) <= leaves
    ensures old(|LeavesOf(s.fc[..], desc.elems)|) >= 2 ==> leaves == old(LeavesOf(s.fc[..], desc.elems))
    ensures ValidLengths(s.dl[..maxCode + 1]) && Space(s.dl[..maxCode + 1]) == Pow2(MAXBITS)
    ensures forall x :: x in leaves ==> s.fc[x] == CodeBits(s.dl[..maxCode + 1], x)
    ensures s.optLen == old(s.optLen) + Cost(old(s.fc[..]), old(LeavesOf(s.fc[..], desc.elems)), WithExtra(s.dl[..], desc))
    ensures s.staticLen == old(s.staticLen) + StaticGain(desc, old(s.fc[..]), old(LeavesOf(s.fc[..], desc.elems)))
    ensures |freq| == |depth| == s.dl.Length && Optimal(freq, leaves, depth)
    ensures forall x :: x in old(LeavesOf(s.fc[..], desc.elems)) ==> x < |freq| && freq[x] == old(s.fc[x])
    ensures (forall x :: x in leaves ==> depth[x] <= desc.maxLength) ==> Optimal(freq, leaves, s.dl[..])
    ensures LighterLonger(freq, leaves, s.dl[..])
  {
    hide Cost, Kraft, LeavesOf, CompleteCode, Optimal, StaticGain, Total, Space, CountLen, CodeBits, Pow2, WithExtra, ValidDesc, ValidLengths;
    DescLimits(desc);
    maxCode, leaves, depth := BuildLengths(s, desc);
    freq := s.fc[..];
    ghost var lens: seq<nat> := s.dl[..maxCode + 1];
    CodeLimits(leaves, s.dl[..], s.blCount[..], desc.maxLength);
    CodeReady(lens, s.dl[..], leaves, maxCode, s.blCount[..], desc.maxLength);
    GenCodes.GenCodes(s.fc, s.dl, maxCode, s.blCount);
  }

  lemma DescLimits(desc: StaticDesc)
    requires ValidDesc(desc)
    ensures 3 <= desc.elems <= L_CODES && 1 <= desc.maxLength <= MAXBITS
  {
  }

  lemma CodeLimits(leaves: set<nat>, len: seq<nat>, counts: seq<nat>, cap: nat)
    requires CompleteCode(leaves, len, counts, cap)
    ensures forall x :: x in leaves ==> x < |len| && 1 <= len[x] <= cap
  {
  }

  /** Optimal lengths are at least as good as those of any prefix code. */
  lemma OptimalOverPrefixCodes(freq: seq<nat>, leaves: set<nat>, len: seq<nat>, word: seq<seq<bool>>, top: nat)
    requires |freq| == |len| == |word| && Optimal(freq, leaves, len) && PrefixFree(leaves, word)
    requires forall x :: x in leaves ==> |word[x]| <= top
    ensures Cost(freq, leaves, len) <= Cost(freq, leaves, Lengths(word))
  {
    hide Cost, Decodable, PrefixFree;
    PrefixCodeDecodable(leaves, word, top);
  }
}
