/** The canonical Huffman code of section 3.2.2 of RFC 1951: symbols are ordered by code length, then by
    value, and each takes the next interval of 2^(15 - length) units out of 2^15. */
module CanonicalCode {
  import opened Sums
  import opened Bits
  import opened BitReverse

  const MAXBITS: nat := 15

  ghost predicate ValidLengths(lens: seq<nat>) {
    forall j :: 0 <= j < |lens| ==> lens[j] <= MAXBITS
  }

  /** The share of the code space that one code of length len takes. */
  ghost function Width(len: nat): nat {
    if 1 <= len <= MAXBITS then Pow2(MAXBITS - len) else 0
  }

  /** Symbol j precedes the codes of length b from symbol n on. */
  ghost predicate Before(lens: seq<nat>, j: nat, b: nat, n: nat)
    requires j < |lens|
  {
    0 < lens[j] < b || (0 < lens[j] == b && j < n)
  }

  /** Over the symbols below k that precede (b, n): their number, or the units they take. */
  ghost function Below(lens: seq<nat>, unit: bool, b: nat, n: nat, k: nat): nat
    requires k <= |lens|
  {
    if k == 0 then 0
    else
      Below(lens, unit, b, n, k - 1) +
      if !Before(lens, k - 1, b, n) then 0 else if unit then Width(lens[k - 1]) else 1
  }

  /** Where the code of symbol n, if it has length b, begins in the code space. */
  ghost function Boundary(lens: seq<nat>, b: nat, n: nat): nat {
    Below(lens, true, b, n, |lens|)
  }

  /** The position of symbol n, if it has length b, in the order by length and value. */
  ghost function Rank(lens: seq<nat>, b: nat, n: nat): nat {
    Below(lens, false, b, n, |lens|)
  }

  ghost function CountLen(lens: seq<nat>, b: nat, k: nat): nat
    requires k <= |lens|
  {
    if k == 0 then 0 else CountLen(lens, b, k - 1) + if lens[k - 1] == b then 1 else 0
  }

  /** The code of symbol s as a number with its first bit on top, and as it goes into the bit stream. */
  ghost function CodeValue(lens: seq<nat>, s: nat): nat
    requires s < |lens| && lens[s] <= MAXBITS
  {
    Shr(Boundary(lens, lens[s], s), MAXBITS - lens[s])
  }

  ghost function CodeBits(lens: seq<nat>, s: nat): nat
    requires s < |lens| && lens[s] <= MAXBITS
  {
    Rev(CodeValue(lens, s), lens[s])
  }

  /** The units taken by the whole code. */
  ghost function Space(lens: seq<nat>): nat {
    Boundary(lens, MAXBITS + 1, 0)
  }

  // ----- Moving the boundary -----

  lemma {:induction false} BelowStep(lens: seq<nat>, unit: bool, b: nat, n: nat, k: nat)
    requires k <= |lens| && b >= 1
    ensures Below(lens, unit, b, n + 1, k) ==
            Below(lens, unit, b, n, k) + if n < k && lens[n] == b then (if unit then Width(b) else 1) else 0
  {
    if k != 0 {
      BelowStep(lens, unit, b, n, k - 1);
    }
  }

  lemma {:induction false} BelowNextLen(lens: seq<nat>, unit: bool, b: nat, k: nat)
    requires k <= |lens|
    ensures Below(lens, unit, b + 1, 0, k) == Below(lens, unit, b, |lens|, k)
  {
    if k != 0 {
      BelowNextLen(lens, unit, b, k - 1);
    }
  }

  lemma {:induction false} BelowNone(lens: seq<nat>, unit: bool, k: nat)
    requires k <= |lens|
    ensures Below(lens, unit, 1, 0, k) == 0
  {
    if k != 0 {
      BelowNone(lens, unit, k - 1);
    }
  }

  /** Codes of one length are consecutive. */
  lemma {:induction false} BoundaryCount(lens: seq<nat>, b: nat, n: nat)
    requires n <= |lens| && 1 <= b <= MAXBITS
    ensures Boundary(lens, b, n) == Boundary(lens, b, 0) + Shl(CountLen(lens, b, n), MAXBITS - b)
    ensures Rank(lens, b, n) == Rank(lens, b, 0) + CountLen(lens, b, n)
  {
    if n == 0 {
      ShlAdd(0, 0, MAXBITS - b);
    } else {
      hide Below, Shl;
      BoundaryCount(lens, b, n - 1);
      BelowStep(lens, true, b, n - 1, |lens|);
      BelowStep(lens, false, b, n - 1, |lens|);
      ShlAdd(CountLen(lens, b, n - 1), 1, MAXBITS - b);
      ShlPow2(0, MAXBITS - b);
      assert Pow2(0) == 1;
    }
  }

  lemma BoundaryNextLen(lens: seq<nat>, b: nat)
    requires 1 <= b <= MAXBITS
    ensures Boundary(lens, b + 1, 0) == Boundary(lens, b, 0) + Shl(CountLen(lens, b, |lens|), MAXBITS - b)
    ensures Rank(lens, b + 1, 0) == Rank(lens, b, 0) + CountLen(lens, b, |lens|)
  {
    hide Below, Shl, CountLen;
    BoundaryCount(lens, b, |lens|);
    BelowNextLen(lens, true, b, |lens|);
    BelowNextLen(lens, false, b, |lens|);
  }

  lemma {:induction false} BelowMono(lens: seq<nat>, unit: bool, b: nat, n: nat, b': nat, n': nat, k: nat)
    requires k <= |lens| && (b < b' || (b == b' && n <= n'))
    ensures Below(lens, unit, b, n, k) <= Below(lens, unit, b', n', k)
  {
    if k != 0 {
      BelowMono(lens, unit, b, n, b', n', k - 1);
    }
  }

  /** The code of s ends where a later one can begin. */
  lemma BoundaryAfter(lens: seq<nat>, unit: bool, s: nat, b': nat, n': nat)
    requires s < |lens| && lens[s] >= 1 && Before(lens, s, b', n')
    ensures Below(lens, unit, lens[s], s, |lens|) + (if unit then Width(lens[s]) else 1) <= Below(lens, unit, b', n', |lens|)
  {
    hide Below, Width;
    BelowStep(lens, unit, lens[s], s, |lens|);
    BelowMono(lens, unit, lens[s], s + 1, b', n', |lens|);
  }

  /** The boundary of a length is a whole number of its codes. */
  lemma {:induction false} BoundaryAligned(lens: seq<nat>, b: nat) returns (c: nat)
    requires 1 <= b <= MAXBITS
    ensures Shl(c, MAXBITS - b) == Boundary(lens, b, 0)
  {
    hide Below, Shl, CountLen;
    if b == 1 {
      BelowNone(lens, true, |lens|);
      ShlAdd(0, 0, MAXBITS - b);
      c := 0;
    } else {
      var d := BoundaryAligned(lens, b - 1);
      BoundaryNextLen(lens, b - 1);
      var count := CountLen(lens, b - 1, |lens|);
      ShlAdd(d, count, MAXBITS - (b - 1));
      c := Shl(d + count, 1);
      ShlShl(d + count, 1, MAXBITS - b);
    }
  }

  /** The code value is exact. */
  lemma CodeValueExact(lens: seq<nat>, s: nat)
    requires s < |lens| && 1 <= lens[s] <= MAXBITS
    ensures Shl(CodeValue(lens, s), MAXBITS - lens[s]) == Boundary(lens, lens[s], s)
  {
    hide Below, Shl, Shr, Low, CountLen, Boundary;
    var b := lens[s];
    var c := BoundaryAligned(lens, b);
    BoundaryCount(lens, b, s);
    ShlAdd(c, CountLen(lens, b, s), MAXBITS - b);
    Join(c + CountLen(lens, b, s), 0, MAXBITS - b);
  }

  /** And it fits its length if the code is not over-subscribed. */
  lemma CodeValueFits(lens: seq<nat>, s: nat)
    requires s < |lens| && 1 <= lens[s] <= MAXBITS && Space(lens) <= Pow2(MAXBITS)
    ensures CodeValue(lens, s) < Pow2(lens[s])
  {
    hide Below, Shl, Shr, Low;
    var k := MAXBITS - lens[s];
    CodeValueExact(lens, s);
    BoundaryAfter(lens, true, s, MAXBITS + 1, 0);
    ShlPow2(lens[s], k);
    ShlMono(CodeValue(lens, s), Pow2(lens[s]), k);
  }

  // ----- Which bit strings start with which code -----

  /** The first fifteen bits of a bit string, read with the first bit on top. */
  ghost function Key(x: nat): nat {
    Rev(x, MAXBITS)
  }

  /** x starts with the code of s exactly if its key lies in the interval of s. */
  lemma Matches(lens: seq<nat>, s: nat, x: nat)
    requires s < |lens| && 1 <= lens[s] <= MAXBITS && Space(lens) <= Pow2(MAXBITS)
    ensures Low(x, lens[s]) == CodeBits(lens, s) <==>
            Boundary(lens, lens[s], s) <= Key(x) < Boundary(lens, lens[s], s) + Width(lens[s])
  {
    hide Below, Shl, Shr, Low, Rev, CodeValue, Boundary;
    var c, l, k := CodeValue(lens, s), lens[s], MAXBITS - lens[s];
    CodeValueFits(lens, s);
    CodeValueExact(lens, s);
    StartsWith(x, c, l);
    RevSplit(x, l, k);
    Join(Rev(x, l), Rev(Shr(x, l), k), k);
    ShrBounds(Key(x), k, c);
    ShlAdd(c, 1, k);
    ShlPow2(0, k);
    assert Pow2(0) == 1;
  }

  /** No bit string starts with two codes: the code is prefix-free. */
  lemma PrefixFreeCode(lens: seq<nat>, s: nat, t: nat, x: nat)
    requires ValidLengths(lens) && Space(lens) <= Pow2(MAXBITS)
    requires s < |lens| && t < |lens| && s != t && lens[s] >= 1 && lens[t] >= 1
    requires Low(x, lens[s]) == CodeBits(lens, s)
    ensures Low(x, lens[t]) != CodeBits(lens, t)
  {
    hide Below, Low, CodeBits, Space, Boundary, Width;
    Matches(lens, s, x);
    Matches(lens, t, x);
    assert Boundary(lens, lens[s], s) == Below(lens, true, lens[s], s, |lens|) && Boundary(lens, lens[t], t) == Below(lens, true, lens[t], t, |lens|) by {
      BoundaryDef(lens, lens[s], s);
      BoundaryDef(lens, lens[t], t);
    }
    if Before(lens, s, lens[t], t) {
      BoundaryAfter(lens, true, s, lens[t], t);
    } else {
      BoundaryAfter(lens, true, t, lens[s], s);
    }
  }

  lemma BoundaryDef(lens: seq<nat>, b: nat, n: nat)
    ensures Boundary(lens, b, n) == Below(lens, true, b, n, |lens|)
  {
  }

  // ----- Every position and every key belongs to a symbol -----

  /** Among the codes of length b, the one whose interval contains v. */
  lemma {:induction false} FindSymbol(lens: seq<nat>, unit: bool, b: nat, n: nat, v: nat) returns (s: nat)
    requires n <= |lens| && b >= 1
    requires Below(lens, unit, b, 0, |lens|) <= v < Below(lens, unit, b, n, |lens|)
    ensures s < n && lens[s] == b
    ensures Below(lens, unit, b, s, |lens|) <= v < Below(lens, unit, b, s, |lens|) + if unit then Width(b) else 1
    decreases n
  {
    hide Below;
    BelowStep(lens, unit, b, n - 1, |lens|);
    if Below(lens, unit, b, n - 1, |lens|) <= v {
      s := n - 1;
    } else {
      s := FindSymbol(lens, unit, b, n - 1, v);
    }
  }

  lemma {:induction false} FindCode(lens: seq<nat>, unit: bool, b: nat, v: nat) returns (s: nat)
    requires b >= 1 && v < Below(lens, unit, b, 0, |lens|)
    ensures s < |lens| && 1 <= lens[s] < b
    ensures Below(lens, unit, lens[s], s, |lens|) <= v < Below(lens, unit, lens[s], s, |lens|) + if unit then Width(lens[s]) else 1
    decreases b
  {
    hide Below;
    if b == 1 {
      BelowNone(lens, unit, |lens|);
      assert false;
    } else {
      BelowNextLen(lens, unit, b - 1, |lens|);
      if Below(lens, unit, b - 1, 0, |lens|) <= v {
        s := FindSymbol(lens, unit, b - 1, |lens|, v);
      } else {
        s := FindCode(lens, unit, b - 1, v);
      }
    }
  }

  /** With a complete code every bit string starts with the code of some symbol. */
  lemma SomeCodeMatches(lens: seq<nat>, x: nat) returns (s: nat)
    requires ValidLengths(lens) && Space(lens) == Pow2(MAXBITS)
    ensures s < |lens| && lens[s] >= 1 && Low(x, lens[s]) == CodeBits(lens, s)
  {
    hide Below, Low, CodeBits;
    s := FindCode(lens, true, MAXBITS + 1, Key(x));
    Matches(lens, s, x);
  }

  /** Different symbols have different positions. */
  lemma RankInjective(lens: seq<nat>, s: nat, t: nat)
    requires s < |lens| && t < |lens| && s != t && lens[s] >= 1 && lens[t] >= 1
    ensures Rank(lens, lens[s], s) != Rank(lens, lens[t], t)
    ensures Rank(lens, lens[s], s) < Rank(lens, lens[t], t) <==> Before(lens, s, lens[t], t)
  {
    hide Below;
    if Before(lens, s, lens[t], t) {
      BoundaryAfter(lens, false, s, lens[t], t);
    } else {
      BoundaryAfter(lens, false, t, lens[s], s);
    }
  }
}
