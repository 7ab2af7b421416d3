/** The preparation in inflate_table: counting the lengths, checking the code space, sorting the symbols,
    and sizing a sub-table. */
module TableSetup {
  import opened Sums
  import opened Bits
  import opened CanonicalCode
  import opened DecodeTable

  method CountLengths(lens: array<nat>, codes: nat) returns (count: array<nat>)
    requires codes <= lens.Length && ValidLengths(lens[..codes])
    ensures fresh(count) && count.Length == MAXBITS + 1
    ensures forall b :: 0 <= b <= MAXBITS ==> count[b] == CountLen(lens[..codes], b, codes)
  {
    ghost var ls: seq<nat> := lens[..codes];
    count := new nat[MAXBITS + 1](_ => 0);
    for sym := 0 to codes
      invariant forall b :: 0 <= b <= MAXBITS ==> count[b] == CountLen(ls, b, sym)
    {
      assert lens[sym] == ls[sym];
      count[lens[sym]] := count[lens[sym]] + 1;
    }
  }

  /** The largest length in use, or 0. */
  method MaxLength(count: array<nat>) returns (max: nat)
    requires count.Length == MAXBITS + 1
    ensures max <= MAXBITS && (max >= 1 ==> count[max] != 0)
    ensures forall b :: max < b <= MAXBITS ==> count[b] == 0
  {
    max := MAXBITS;
    while max >= 1
      invariant max <= MAXBITS && forall b :: max < b <= MAXBITS ==> count[b] == 0
    {
      if count[max] != 0 {
        break;
      }
      max := max - 1;
    }
  }

  /** The smallest length in use. */
  method MinLength(count: array<nat>, max: nat) returns (min: nat)
    requires count.Length == MAXBITS + 1 && 1 <= max <= MAXBITS && count[max] != 0
    ensures 1 <= min <= max && count[min] != 0
    ensures forall b :: 1 <= b < min ==> count[b] == 0
  {
    min := 1;
    while min < max
      invariant 1 <= min <= max && forall b :: 1 <= b < min ==> count[b] == 0
    {
      if count[min] != 0 {
        break;
      }
      min := min + 1;
    }
  }

  /** left is the unused part of the code space, negative for an over-subscribed code. */
  method CheckSpace(count: array<nat>, ghost ls: seq<nat>) returns (left: int)
    requires count.Length == MAXBITS + 1
    requires forall b :: 1 <= b <= MAXBITS ==> count[b] == CountLen(ls, b, |ls|)
    ensures left < 0 ==> Space(ls) > Pow2(MAXBITS)
    ensures left >= 0 ==> Space(ls) + left == Pow2(MAXBITS)
  {
    hide Below, Shl, CountLen, Boundary;
    left := 1;
    SpaceStart(ls);
    var len := 1;
    while len <= MAXBITS
      invariant 1 <= len <= MAXBITS + 1 && left >= 0
      invariant Shl(left, MAXBITS - (len - 1)) + Boundary(ls, len, 0) == Pow2(MAXBITS)
    {
      SpaceStep(ls, left, len);
      left := 2 * left;
      left := left - count[len];
      if left < 0 {
        SpaceGrows(ls, len + 1);
        return;
      }
      len := len + 1;
    }
    assert Shl(left, 0) == left by { ShlZero(left); }
  }

  lemma ShlZero(x: nat)
    ensures Shl(x, 0) == x
  {
  }

  lemma SpaceStart(ls: seq<nat>)
    ensures Shl(1, MAXBITS) + Boundary(ls, 1, 0) == Pow2(MAXBITS)
  {
    hide Below, Shl, Pow2;
    BelowNone(ls, true, |ls|);
    ShlOne(MAXBITS);
  }

  lemma SpaceStep(ls: seq<nat>, left: nat, len: nat)
    requires 1 <= len <= MAXBITS && Shl(left, MAXBITS - (len - 1)) + Boundary(ls, len, 0) == Pow2(MAXBITS)
    ensures var rest: int := 2 * left - CountLen(ls, len, |ls|);
            && (rest >= 0 ==> Shl(rest, MAXBITS - len) + Boundary(ls, len + 1, 0) == Pow2(MAXBITS))
            && (rest < 0 ==> Boundary(ls, len + 1, 0) > Pow2(MAXBITS))
  {
    hide Below, CountLen, Boundary;
    var k, n := MAXBITS - len, CountLen(ls, len, |ls|);
    BoundaryNextLen(ls, len);
    ShlShl(left, 1, k);
    assert Shl(left, 1) == 2 * Shl(left, 0);
    hide Shl;
    if 2 * left >= n {
      ShlAdd(2 * left - n, n, k);
    } else {
      ShlMono(2 * left, n, k);
    }
  }

  lemma SpaceGrows(ls: seq<nat>, b: nat)
    requires 1 <= b <= MAXBITS + 1
    ensures Boundary(ls, b, 0) <= Space(ls)
  {
    BelowMono(ls, true, b, 0, MAXBITS + 1, 0, |ls|);
  }

  /** Sorts the symbols by length, by symbol order within each length: each lands at its rank. */
  method SortSymbols(lens: array<nat>, codes: nat, count: array<nat>, work: array<nat>)
    requires codes <= lens.Length && codes <= work.Length && work != lens && work != count
    requires ValidLengths(lens[..codes]) && count.Length == MAXBITS + 1
    requires forall b :: 1 <= b <= MAXBITS ==> count[b] == CountLen(lens[..codes], b, codes)
    modifies work
    ensures forall s: nat :: Used(lens[..codes], s) ==> Rank(lens[..codes], lens[s], s) < work.Length
    ensures forall s: nat :: Used(lens[..codes], s) ==> work[Rank(lens[..codes], lens[s], s)] == s
  {
    hide Below, CountLen, Rank;
    ghost var ls: seq<nat> := lens[..codes];
    var offs := new nat[MAXBITS + 1](_ => 0);
    RankStart(ls);
    var len := 1;
    while len < MAXBITS
      invariant 1 <= len <= MAXBITS
      invariant forall b :: 1 <= b <= len ==> offs[b] == Rank(ls, b, 0)
    {
      BoundaryNextLen(ls, len);
      offs[len + 1] := offs[len] + count[len];
      len := len + 1;
    }
    forall s: nat | Used(ls, s) ensures Rank(ls, ls[s], s) < codes {
      RankBelow(ls, s);
    }
    for sym := 0 to codes
      invariant lens[..codes] == ls
      invariant forall b :: 1 <= b <= MAXBITS ==> offs[b] == Rank(ls, b, sym)
      invariant forall s: nat :: Used(ls, s) && s < sym ==> work[Rank(ls, ls[s], s)] == s
    {
      var l := lens[sym];
      assert l == ls[sym];
      forall b | 1 <= b <= MAXBITS ensures Rank(ls, b, sym + 1) == Rank(ls, b, sym) + if l == b then 1 else 0 {
        RankStep(ls, b, sym);
      }
      if l != 0 {
        assert Used(ls, sym);
        forall s: nat | Used(ls, s) && s < sym ensures Rank(ls, ls[s], s) != Rank(ls, l, sym) {
          RankInjective(ls, s, sym);
        }
        work[offs[l]] := sym;
        offs[l] := offs[l] + 1;
      }
    }
  }

  lemma RankStart(ls: seq<nat>)
    ensures Rank(ls, 1, 0) == 0
  {
    BelowNone(ls, false, |ls|);
  }

  lemma RankStep(ls: seq<nat>, b: nat, n: nat)
    requires b >= 1 && n < |ls|
    ensures Rank(ls, b, n + 1) == Rank(ls, b, n) + if ls[n] == b then 1 else 0
  {
    BelowStep(ls, false, b, n, |ls|);
  }

  lemma {:induction false} BelowAtMost(ls: seq<nat>, b: nat, n: nat, k: nat)
    requires k <= |ls|
    ensures Below(ls, false, b, n, k) <= k
  {
    if k != 0 {
      BelowAtMost(ls, b, n, k - 1);
    }
  }

  lemma RankBelow(ls: seq<nat>, s: nat)
    requires Used(ls, s)
    ensures Rank(ls, ls[s], s) < Rank(ls, MAXBITS + 1, 0) <= |ls|
  {
    hide Below;
    BoundaryAfter(ls, false, s, MAXBITS + 1, 0);
    BelowAtMost(ls, MAXBITS + 1, 0, |ls|);
  }

  // ----- The counts that remain while the symbols are entered -----

  /** How many symbols of length b have rank i or more. */
  ghost function Left(ls: seq<nat>, b: nat, i: nat): nat {
    var from, to := Rank(ls, b, 0), Rank(ls, b + 1, 0);
    if to <= i then 0 else if i <= from then (if from <= to then to - from else 0) else to - i
  }

  ghost predicate CountsLeft(count: seq<nat>, ls: seq<nat>, i: nat) {
    |count| == MAXBITS + 1 && forall b :: 1 <= b <= MAXBITS ==> count[b] == Left(ls, b, i)
  }

  /** The rank of a symbol lies among those of its length. */
  lemma RankRange(ls: seq<nat>, s: nat)
    requires Used(ls, s)
    ensures Rank(ls, ls[s], 0) <= Rank(ls, ls[s], s) < Rank(ls, ls[s] + 1, 0)
    ensures Rank(ls, ls[s], s) == Rank(ls, ls[s], 0) + CountLen(ls, ls[s], s)
  {
    hide Below;
    BoundaryAfter(ls, false, s, ls[s] + 1, 0);
    BoundaryCount(ls, ls[s], s);
  }

  lemma RankLenMono(ls: seq<nat>, b: nat, c: nat)
    requires b <= c
    ensures Rank(ls, b, 0) <= Rank(ls, c, 0)
  {
    BelowMono(ls, false, b, 0, c, 0, |ls|);
  }

  lemma LeftStart(ls: seq<nat>, b: nat)
    requires 1 <= b <= MAXBITS
    ensures Left(ls, b, 0) == CountLen(ls, b, |ls|)
  {
    BoundaryNextLen(ls, b);
  }

  /** Entering symbol number i takes one from the count of its length. */
  lemma LeftStep(ls: seq<nat>, s: nat, i: nat, b: nat)
    requires Used(ls, s) && Rank(ls, ls[s], s) == i && 1 <= b <= MAXBITS
    ensures Left(ls, b, i + 1) == Left(ls, b, i) - if b == ls[s] then 1 else 0
    ensures b == ls[s] ==> Left(ls, b, i) == Rank(ls, b + 1, 0) - i >= 1
  {
    hide Rank, CountLen;
    RankRange(ls, s);
    if b < ls[s] {
      RankLenMono(ls, b, ls[s]);
      RankLenMono(ls, b + 1, ls[s]);
    } else if b > ls[s] {
      RankLenMono(ls, ls[s] + 1, b);
      RankLenMono(ls, b, b + 1);
    }
  }

  /** With codes of this length left, the next symbol has the same length; otherwise a longer one. */
  lemma NextLength(ls: seq<nat>, s: nat, t: nat, i: nat)
    requires Used(ls, s) && Rank(ls, ls[s], s) == i && Used(ls, t) && Rank(ls, ls[t], t) == i + 1
    ensures ls[t] == ls[s] <==> Left(ls, ls[s], i + 1) != 0
    ensures ls[t] >= ls[s]
  {
    hide Rank, CountLen;
    RankRange(ls, s);
    RankRange(ls, t);
    LeftStep(ls, s, i, ls[s]);
    if ls[t] < ls[s] {
      RankLenMono(ls, ls[t] + 1, ls[s]);
    } else if ls[t] > ls[s] {
      RankLenMono(ls, ls[s] + 1, ls[t]);
    }
  }

  /** Where two boundaries have the same symbols before them they are the same. */
  lemma {:induction false} SameRankSameBoundary(ls: seq<nat>, b: nat, n: nat, b': nat, n': nat, k: nat)
    requires k <= |ls| && (b < b' || (b == b' && n <= n'))
    requires Below(ls, false, b, n, k) == Below(ls, false, b', n', k)
    ensures Below(ls, true, b, n, k) == Below(ls, true, b', n', k)
  {
    if k != 0 {
      BelowMono(ls, false, b, n, b', n', k - 1);
      SameRankSameBoundary(ls, b, n, b', n', k - 1);
    }
  }

  lemma BoundaryOfNext(ls: seq<nat>, s: nat, b: nat, n: nat)
    requires Used(ls, s) && (ls[s] < b || (ls[s] == b && s < n))
    requires Rank(ls, b, n) == Rank(ls, ls[s], s) + 1
    ensures Boundary(ls, b, n) == Boundary(ls, ls[s], s) + Width(ls[s])
  {
    hide Below;
    BelowStep(ls, false, ls[s], s, |ls|);
    BelowStep(ls, true, ls[s], s, |ls|);
    SameRankSameBoundary(ls, ls[s], s + 1, b, n, |ls|);
  }

  // ----- Sizing a sub-table -----

  /** The units of the codes from s on that are shorter than b. */
  ghost function Rem(ls: seq<nat>, s: nat, b: nat): int
    requires Used(ls, s)
  {
    if b <= ls[s] then 0 else Boundary(ls, b, 0) - Boundary(ls, ls[s], s)
  }

  lemma RemStep(ls: seq<nat>, s: nat, b: nat, i: nat)
    requires Used(ls, s) && Rank(ls, ls[s], s) == i && ls[s] <= b <= MAXBITS
    ensures Rem(ls, s, b + 1) == Rem(ls, s, b) + Shl(Left(ls, b, i), MAXBITS - b)
  {
    hide Shl, Below;
    BoundaryNextLen(ls, b);
    RankRange(ls, s);
    if b == ls[s] {
      LeftStep(ls, s, i, b);
      BoundaryCount(ls, b, s);
      var all, before := CountLen(ls, b, |ls|), CountLen(ls, b, s);
      ShlAdd(before, all - before, MAXBITS - b);
    } else {
      RankLenMono(ls, ls[s] + 1, b);
    }
  }

  lemma RemZero(ls: seq<nat>, s: nat)
    requires Used(ls, s)
    ensures Rem(ls, s, ls[s]) == 0
  {
  }

  lemma SubStep(left: nat, n: nat, k: nat)
    requires k >= 1
    ensures left > n ==> Shl(left, k) == Shl(n, k) + Shl(2 * (left - n), k - 1)
    ensures left <= n ==> Shl(left, k) <= Shl(n, k)
  {
    if left > n {
      ShlAdd(n, left - n, k);
      ShlShl(left - n, 1, k - 1);
      assert Shl(left - n, 1) == 2 * Shl(left - n, 0);
    } else {
      ShlMono(left, n, k);
    }
  }

  /** What the size found by SubTableBits means. */
  lemma SlotFits(ls: seq<nat>, s: nat, r: nat, root: nat, curr: nat, max: nat)
    requires ValidLengths(ls) && Space(ls) <= Pow2(MAXBITS) && 1 <= root && root + curr <= max <= MAXBITS
    requires Long(ls, s, root) && Long(ls, r, root) && ls[r] <= max && ls[s] <= root + curr
    requires Slot(ls, r, root) == Slot(ls, s, root)
    requires root + curr == max || Rem(ls, s, root + curr + 1) >= Pow2(MAXBITS - root)
    ensures ls[r] <= root + curr
  {
    hide Slot, Prefix, Boundary, Pow2, Space;
    if ls[r] > root + curr {
      SlotsEqual(ls, s, r, root);
      FartherPrefix(ls, s, r, root, root + curr + 1);
    }
  }

  lemma FartherPrefix(ls: seq<nat>, s: nat, r: nat, root: nat, b: nat)
    requires root <= MAXBITS && Used(ls, s) && Used(ls, r) && ls[s] < b <= ls[r]
    requires Rem(ls, s, b) >= Pow2(MAXBITS - root)
    ensures Prefix(ls, r, root) > Prefix(ls, s, root)
  {
    hide Shr, Shl, Low;
    var x, y, k := Boundary(ls, ls[s], s), Boundary(ls, ls[r], r), MAXBITS - root;
    assert y >= x + Pow2(k) by { BelowMono(ls, true, b, 0, ls[r], r, |ls|); }
    hide Boundary, Pow2;
    ShlAdd(Shr(x, k), 1, k);
    ShlOne(k);
    Split(x, k);
    ShrMono(x + Pow2(k), y, k);
    Join(Shr(x, k) + 1, Low(x, k), k);
  }
}
