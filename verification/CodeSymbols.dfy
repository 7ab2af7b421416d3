/** What the bits ahead start with, for a code that inflate_table lets through: a symbol's code, or a gap. */
module CodeSymbols {
  import opened Sums
  import opened Bits
  import opened BitStreams
  import opened CanonicalCode
  import opened DecodeTable

  datatype Sym = Found(s: nat) | Gap(bit: nat)

  ghost predicate SymOk(ls: seq<nat>, sym: Sym) {
    match sym
    case Found(s) => Used(ls, s)
    case Gap(bit) => IsGap(ls, bit)
  }

  ghost function BitsOf(ls: seq<nat>, sym: Sym): BitString
    requires SymOk(ls, sym)
  {
    match sym
    case Found(s) => BitString(CodeBits(ls, s), ls[s])
    case Gap(bit) => BitString(bit, 1)
  }

  ghost predicate Starts(ls: seq<nat>, sym: Sym, x: nat)
    requires SymOk(ls, sym)
  {
    Low(x, BitsOf(ls, sym).n) == BitsOf(ls, sym).v
  }

  lemma SymSize(ls: seq<nat>, sym: Sym)
    requires SymOk(ls, sym)
    ensures 1 <= BitsOf(ls, sym).n <= 15 && Proper(BitsOf(ls, sym))
  {
    hide CodeBits;
    match sym
    case Found(s) =>
      CodeBitsFit(ls, s);
    case Gap(bit) =>
      assert Pow2(1) == 2 * Pow2(0);
  }

  lemma SomeSym(ls: seq<nat>, x: nat) returns (sym: Sym)
    requires Accepted(ls)
    ensures SymOk(ls, sym) && Starts(ls, sym, x)
  {
    hide Low, CodeBits, Space;
    var found, s := CodeOrGap(ls, x);
    sym := if found then Found(s) else Gap(Low(x, 1));
  }

  lemma StartsUnique(ls: seq<nat>, a: Sym, b: Sym, x: nat)
    requires Accepted(ls) && SymOk(ls, a) && SymOk(ls, b) && Starts(ls, a, x) && Starts(ls, b, x)
    ensures a == b
  {
    hide Low, CodeBits, Space;
    if a.Found? && b.Found? && a != b {
      PrefixFreeCode(ls, a.s, b.s, x);
    }
  }

  /** Only the bits of the symbol matter. */
  lemma StartsLow(ls: seq<nat>, sym: Sym, x: nat, n: nat)
    requires SymOk(ls, sym) && BitsOf(ls, sym).n <= n
    ensures Starts(ls, sym, Low(x, n)) <==> Starts(ls, sym, x)
  {
    hide Low, CodeBits;
    LowLow(x, n, BitsOf(ls, sym).n);
  }

  lemma SymStarts(ls: seq<nat>, sym: Sym, tail: BitString)
    requires SymOk(ls, sym)
    ensures Starts(ls, sym, Cat(BitsOf(ls, sym), tail).v)
  {
    hide Low, Cat, CodeBits, Pow2;
    SymSize(ls, sym);
    CatParts(BitsOf(ls, sym), tail);
  }

  lemma SymRead(ls: seq<nat>, sym: Sym, all: BitString)
    requires SymOk(ls, sym) && Starts(ls, sym, all.v) && BitsOf(ls, sym).n <= all.n
    ensures all == Cat(BitsOf(ls, sym), DropFirst(all, BitsOf(ls, sym).n))
  {
    hide Low, Shl, Shr, CodeBits;
    Split(all.v, BitsOf(ls, sym).n);
  }

  lemma SymUnique(ls: seq<nat>, a: Sym, x: BitString, b: Sym, y: BitString)
    requires Accepted(ls) && SymOk(ls, a) && SymOk(ls, b) && Cat(BitsOf(ls, a), x) == Cat(BitsOf(ls, b), y)
    ensures a == b && x == y
  {
    hide Cat, Low, DropFirst, Starts, BitsOf, Accepted, Pow2;
    SymStarts(ls, a, x);
    SymStarts(ls, b, y);
    StartsUnique(ls, a, b, Cat(BitsOf(ls, a), x).v);
    SymSize(ls, a);
    CatParts(BitsOf(ls, a), x);
    CatParts(BitsOf(ls, a), y);
  }

  /** The bits end before the end of a symbol. */
  ghost predicate NoSym(ls: seq<nat>, rest: BitString) {
    forall sym: Sym, tail: BitString :: SymOk(ls, sym) ==> rest != Cat(BitsOf(ls, sym), tail)
  }

  lemma TooShort(ls: seq<nat>, sym: Sym, rest: BitString)
    requires Accepted(ls) && SymOk(ls, sym) && Starts(ls, sym, rest.v) && rest.n < BitsOf(ls, sym).n
    ensures NoSym(ls, rest)
  {
    hide Low, Starts, BitsOf, Accepted, Cat;
    forall other: Sym, tail: BitString | SymOk(ls, other) && rest == Cat(BitsOf(ls, other), tail)
      ensures false
    {
      SymStarts(ls, other, tail);
      StartsUnique(ls, sym, other, rest.v);
      CatSize(BitsOf(ls, other), tail);
    }
  }
}
