/** What the data of a block can spell, whoever wrote it: literals, matches, the end of the block, and codes
    that stand for nothing. Any bits spell at most one thing. */
module InflateItems {
  import opened Sums
  import opened Bits
  import opened Lz77
  import opened BitStreams
  import opened DecodeTable
  import opened CodeSymbols
  import opened TokenCodes

  /** A literal; a length symbol with extra bits and a distance symbol with extra bits; the same up to a
      distance symbol or gap without a meaning; or a symbol or gap that is neither a literal nor a length. */
  datatype Item = Lit(sym: nat) | Pair(sym: nat, x: nat, dsym: nat, y: nat) | Half(sym: nat, x: nat, d: Sym) | Stop(d: Sym)

  const End: Item := Stop(Found(END_BLOCK))

  predicate IsLength(sym: nat) {
    257 <= sym < 286
  }

  /** The extra bits of a length symbol. */
  function LenBitsOf(sym: nat): (n: nat)
    requires IsLength(sym)
    ensures n <= 5
  {
    if sym == 285 then 0 else Extra(false, sym - 257)
  }

  function LenOf(sym: nat, x: nat): nat
    requires IsLength(sym)
  {
    if sym == 285 then 258 else First(false, sym - 257) + 3 + x
  }

  function DistOf(dsym: nat, y: nat): nat {
    First(true, dsym) + 1 + y
  }

  /** Neither a literal nor a length; no distance. */
  predicate Stops(d: Sym) {
    d.Found? ==> d.s == END_BLOCK || d.s >= 286
  }

  predicate NoDistance(d: Sym) {
    d.Found? ==> d.s >= D_CODES
  }

  ghost predicate HalfOk(ll: seq<nat>, dl: seq<nat>, sym: nat, x: nat, d: Sym) {
    IsLength(sym) && Used(ll, sym) && x < Pow2(LenBitsOf(sym)) && SymOk(dl, d)
  }

  /** ll and dl are the lengths of the two codes. */
  ghost predicate ItemOk(ll: seq<nat>, dl: seq<nat>, item: Item) {
    match item
    case Lit(sym) => sym < 256 && Used(ll, sym)
    case Pair(sym, x, dsym, y) => HalfOk(ll, dl, sym, x, Found(dsym)) && dsym < D_CODES && y < Pow2(Extra(true, dsym))
    case Half(sym, x, d) => HalfOk(ll, dl, sym, x, d) && NoDistance(d)
    case Stop(d) => SymOk(ll, d) && Stops(d)
  }

  ghost function Head(item: Item): Sym {
    match item
    case Lit(sym) => Found(sym)
    case Pair(sym, _, _, _) => Found(sym)
    case Half(sym, _, _) => Found(sym)
    case Stop(d) => d
  }

  ghost function AfterHead(dl: seq<nat>, item: Item, rest: BitString): BitString
    requires item.Pair? || item.Half? ==> IsLength(item.sym)
    requires (item.Pair? ==> Used(dl, item.dsym)) && (item.Half? ==> SymOk(dl, item.d))
  {
    match item
    case Lit(_) => rest
    case Pair(sym, x, dsym, y) => Cat(BitString(x, LenBitsOf(sym)), Cat(BitsOf(dl, Found(dsym)), Cat(BitString(y, Extra(true, dsym)), rest)))
    case Half(sym, x, d) => Cat(BitString(x, LenBitsOf(sym)), Cat(BitsOf(dl, d), rest))
    case Stop(_) => rest
  }

  lemma HeadOk(ll: seq<nat>, dl: seq<nat>, item: Item)
    requires ItemOk(ll, dl, item)
    ensures SymOk(ll, Head(item))
    ensures item.Pair? || item.Half? ==> IsLength(item.sym)
    ensures (item.Pair? ==> Used(dl, item.dsym)) && (item.Half? ==> SymOk(dl, item.d))
  {
  }

  /** The bits of the item, before what follows. */
  ghost function Spelled(ll: seq<nat>, dl: seq<nat>, item: Item, rest: BitString): BitString
    requires ItemOk(ll, dl, item)
  {
    HeadOk(ll, dl, item);
    Cat(BitsOf(ll, Head(item)), AfterHead(dl, item, rest))
  }

  predicate HasMeaning(item: Item) {
    match item
    case Lit(sym) => sym < 256
    case Pair(sym, _, _, _) => IsLength(sym)
    case _ => false
  }

  function Meaning(item: Item): Token
    requires HasMeaning(item)
  {
    match item
    case Lit(sym) => Literal(sym as bv8)
    case Pair(sym, x, dsym, y) => Match(LenOf(sym, x), DistOf(dsym, y))
  }

  /** A match that is spelled is within the limits of the format. */
  lemma PairRange(ll: seq<nat>, dl: seq<nat>, item: Item)
    requires ItemOk(ll, dl, item) && item.Pair?
    ensures HasMeaning(item) && 3 <= Meaning(item).len <= 258 && 1 <= Meaning(item).dist <= 32768
  {
    hide First, Extra, Pow2;
    LengthEnds();
    DistEnds();
    if item.sym != 285 {
      FirstNext(false, item.sym - 257);
      FirstMono(false, item.sym - 256, 28);
    }
    FirstNext(true, item.dsym);
    FirstMono(true, item.dsym + 1, 30);
  }

  // ----- The decoder's table entries -----

  lemma LengthEntries(sym: nat, len: nat)
    requires sym < 288
    ensures var e := SymbolEntry(LENS, sym, len);
      && (sym < 256 ==> e.op == 0 && e.val == sym) && (sym == 256 ==> e.op == 96)
      && (IsLength(sym) ==> e.op == 16 + LenBitsOf(sym) && e.val == LenOf(sym, 0)) && (sym >= 286 ==> e.op == 77 || e.op == 202)
  {
    hide LBASE, LEXT, First, Extra;
    if IsLength(sym) {
      BasesAndExtras(sym - 257);
    } else if sym >= 286 {
      InvalidOps();
    }
  }

  lemma DistEntries(sym: nat, len: nat)
    requires sym < 32
    ensures var e := SymbolEntry(DISTS, sym, len);
      && (sym < D_CODES ==> e.op == 16 + Extra(true, sym) && e.val == DistOf(sym, 0) && Extra(true, sym) <= 13)
      && (sym >= D_CODES ==> e.op == 64)
  {
    hide DBASE, DEXT, First;
    if sym < D_CODES {
      BasesAndExtras(sym);
    } else {
      InvalidOps();
    }
  }

  lemma InvalidOps()
    ensures LEXT[29] == 77 && LEXT[30] == 202 && DEXT[30] == DEXT[31] == 64
  {
  }

  // ----- What bits spell is unique -----

  lemma NumberUnique(x: nat, y: nat, n: nat, a: BitString, b: BitString)
    requires x < Pow2(n) && y < Pow2(n) && Cat(BitString(x, n), a) == Cat(BitString(y, n), b)
    ensures x == y && a == b
  {
    hide Cat, Low, DropFirst, Pow2;
    CatParts(BitString(x, n), a);
    CatParts(BitString(y, n), b);
  }

  lemma HeadUnique(ll: seq<nat>, dl: seq<nat>, item: Item, rest: BitString, sym: Sym, after: BitString)
    requires Accepted(ll) && ItemOk(ll, dl, item) && SymOk(ll, sym) && Spelled(ll, dl, item, rest) == Cat(BitsOf(ll, sym), after)
    ensures Head(item) == sym
    ensures item.Pair? || item.Half? ==> IsLength(item.sym)
    ensures (item.Pair? ==> Used(dl, item.dsym)) && (item.Half? ==> SymOk(dl, item.d))
    ensures AfterHead(dl, item, rest) == after
  {
    hide Cat, BitsOf, Accepted, AfterHead, SymOk;
    HeadOk(ll, dl, item);
    SymUnique(ll, Head(item), AfterHead(dl, item, rest), sym, after);
  }

  /** The length's extra bits, and the distance symbol or gap. */
  ghost function DistSym(item: Item): Sym
    requires item.Pair? || item.Half?
  {
    match item
    case Pair(_, _, dsym, _) => Found(dsym)
    case Half(_, _, d) => d
  }

  ghost function AfterDist(item: Item, rest: BitString): BitString
    requires item.Pair? || item.Half?
  {
    if item.Pair? then Cat(BitString(item.y, Extra(true, item.dsym)), rest) else rest
  }

  lemma HalfUnique(ll: seq<nat>, dl: seq<nat>, item: Item, rest: BitString, x: nat, d: Sym, after: BitString)
    requires Accepted(dl) && ItemOk(ll, dl, item) && (item.Pair? || item.Half?) && SymOk(dl, d) && x < Pow2(LenBitsOf(item.sym))
    requires AfterHead(dl, item, rest) == Cat(BitString(x, LenBitsOf(item.sym)), Cat(BitsOf(dl, d), after))
    ensures item.x == x && DistSym(item) == d && AfterDist(item, rest) == after
  {
    hide Cat, BitsOf, Accepted, Extra, Pow2, IsGap;
    NumberUnique(item.x, x, LenBitsOf(item.sym), Cat(BitsOf(dl, DistSym(item)), AfterDist(item, rest)), Cat(BitsOf(dl, d), after));
    SymUnique(dl, DistSym(item), AfterDist(item, rest), d, after);
  }

  lemma ItemUnique(ll: seq<nat>, dl: seq<nat>, item: Item, rest: BitString, other: Item, rest': BitString)
    requires Accepted(ll) && Accepted(dl) && ItemOk(ll, dl, item) && ItemOk(ll, dl, other)
    requires Spelled(ll, dl, item, rest) == Spelled(ll, dl, other, rest')
    ensures item == other && rest == rest'
  {
    hide Cat, BitsOf, Accepted, Extra, Pow2, LenBitsOf, IsGap;
    HeadOk(ll, dl, other);
    HeadUnique(ll, dl, item, rest, Head(other), AfterHead(dl, other, rest'));
    if item.Pair? || item.Half? {
      assert AfterHead(dl, other, rest') == Cat(BitString(other.x, LenBitsOf(other.sym)), Cat(BitsOf(dl, DistSym(other)), AfterDist(other, rest')));
      HalfUnique(ll, dl, item, rest, other.x, DistSym(other), AfterDist(other, rest'));
      if item.Pair? {
        NumberUnique(item.y, other.y, Extra(true, item.dsym), rest, rest');
      }
    }
  }

  // ----- Input that ends within an item -----

  ghost predicate NoItem(ll: seq<nat>, dl: seq<nat>, all: BitString) {
    forall item: Item, rest: BitString :: ItemOk(ll, dl, item) ==> all != Spelled(ll, dl, item, rest)
  }

  lemma NoHead(ll: seq<nat>, dl: seq<nat>, all: BitString)
    requires NoSym(ll, all)
    ensures NoItem(ll, dl, all)
  {
    hide Cat, BitsOf, AfterHead, ItemOk, SymOk;
    forall item: Item, rest: BitString | ItemOk(ll, dl, item) ensures all != Spelled(ll, dl, item, rest) {
      HeadOk(ll, dl, item);
    }
  }

  /** The bits end within the extra bits of a length, the distance symbol, or its extra bits. */
  lemma NoLenExtra(ll: seq<nat>, dl: seq<nat>, sym: nat, after: BitString)
    requires Accepted(ll) && IsLength(sym) && Used(ll, sym) && after.n < LenBitsOf(sym)
    ensures NoItem(ll, dl, Cat(BitsOf(ll, Found(sym)), after))
  {
    hide Cat, BitsOf, Accepted, ItemOk, LenBitsOf, Extra;
    var all := Cat(BitsOf(ll, Found(sym)), after);
    forall item: Item, rest: BitString | ItemOk(ll, dl, item) ensures all != Spelled(ll, dl, item, rest) {
      if all == Spelled(ll, dl, item, rest) {
        HeadUnique(ll, dl, item, rest, Found(sym), after);
        LengthHead(ll, dl, item, sym);
        CatSize(BitString(item.x, LenBitsOf(sym)), Cat(BitsOf(dl, DistSym(item)), AfterDist(item, rest)));
      }
    }
  }

  lemma LengthHead(ll: seq<nat>, dl: seq<nat>, item: Item, sym: nat)
    requires ItemOk(ll, dl, item) && Head(item) == Found(sym) && IsLength(sym)
    ensures (item.Pair? || item.Half?) && item.sym == sym
  {
  }

  lemma NoDistSym(ll: seq<nat>, dl: seq<nat>, sym: nat, x: nat, after: BitString)
    requires Accepted(ll) && IsLength(sym) && Used(ll, sym) && x < Pow2(LenBitsOf(sym)) && NoSym(dl, after)
    ensures NoItem(ll, dl, Cat(BitsOf(ll, Found(sym)), Cat(BitString(x, LenBitsOf(sym)), after)))
  {
    hide Cat, BitsOf, Accepted, LenBitsOf, Extra, Pow2, IsGap;
    var all := Cat(BitsOf(ll, Found(sym)), Cat(BitString(x, LenBitsOf(sym)), after));
    forall item: Item, rest: BitString | ItemOk(ll, dl, item) ensures all != Spelled(ll, dl, item, rest) {
      if all == Spelled(ll, dl, item, rest) {
        HeadUnique(ll, dl, item, rest, Found(sym), Cat(BitString(x, LenBitsOf(sym)), after));
        LengthHead(ll, dl, item, sym);
        NumberUnique(item.x, x, LenBitsOf(sym), Cat(BitsOf(dl, DistSym(item)), AfterDist(item, rest)), after);
      }
    }
  }

  lemma NoDistExtra(ll: seq<nat>, dl: seq<nat>, sym: nat, x: nat, dsym: nat, after: BitString)
    requires Accepted(ll) && Accepted(dl) && HalfOk(ll, dl, sym, x, Found(dsym)) && dsym < D_CODES && after.n < Extra(true, dsym)
    ensures NoItem(ll, dl, Cat(BitsOf(ll, Found(sym)), Cat(BitString(x, LenBitsOf(sym)), Cat(BitsOf(dl, Found(dsym)), after))))
  {
    hide Cat, BitsOf, Accepted, LenBitsOf, Extra, Pow2, IsGap;
    var after' := Cat(BitString(x, LenBitsOf(sym)), Cat(BitsOf(dl, Found(dsym)), after));
    var all := Cat(BitsOf(ll, Found(sym)), after');
    forall item: Item, rest: BitString | ItemOk(ll, dl, item) ensures all != Spelled(ll, dl, item, rest) {
      if all == Spelled(ll, dl, item, rest) {
        HeadUnique(ll, dl, item, rest, Found(sym), after');
        LengthHead(ll, dl, item, sym);
        HalfUnique(ll, dl, item, rest, x, Found(dsym), after);
        CatSize(BitString(if item.Pair? then item.y else 0, Extra(true, dsym)), rest);
      }
    }
  }

  // ----- The data of a block -----

  /** Items that stand for something. */
  ghost predicate ItemsOk(ll: seq<nat>, dl: seq<nat>, items: seq<Item>) {
    forall i :: 0 <= i < |items| ==> ItemOk(ll, dl, items[i]) && HasMeaning(items[i])
  }

  ghost function SpelledAll(ll: seq<nat>, dl: seq<nat>, items: seq<Item>, rest: BitString): BitString
    requires ItemsOk(ll, dl, items)
  {
    if items == [] then rest
    else
      var n := |items| - 1;
      SpelledAll(ll, dl, items[..n], Spelled(ll, dl, items[n], rest))
  }

  ghost function Meanings(items: seq<Item>): (r: seq<Token>)
    requires forall i :: 0 <= i < |items| ==> HasMeaning(items[i])
    ensures |r| == |items| && forall i :: 0 <= i < |items| ==> r[i] == Meaning(items[i])
  {
    seq(|items|, i requires 0 <= i < |items| => Meaning(items[i]))
  }

  lemma OneMore(ll: seq<nat>, dl: seq<nat>, items: seq<Item>, item: Item, rest: BitString)
    requires ItemsOk(ll, dl, items) && ItemOk(ll, dl, item) && HasMeaning(item)
    ensures ItemsOk(ll, dl, items + [item])
    ensures SpelledAll(ll, dl, items + [item], rest) == SpelledAll(ll, dl, items, Spelled(ll, dl, item, rest))
    ensures Meanings(items + [item]) == Meanings(items) + [Meaning(item)]
  {
    assert (items + [item])[..|items|] == items;
  }

  /** The first item comes first. */
  lemma {:induction false} FirstItem(ll: seq<nat>, dl: seq<nat>, items: seq<Item>, rest: BitString)
    requires ItemsOk(ll, dl, items) && items != []
    ensures SpelledAll(ll, dl, items, rest) == Spelled(ll, dl, items[0], SpelledAll(ll, dl, items[1..], rest))
    decreases |items|
  {
    hide Spelled, ItemOk, HasMeaning;
    var n := |items| - 1;
    if n > 0 {
      FirstItem(ll, dl, items[..n], Spelled(ll, dl, items[n], rest));
      assert items[..n][1..] == items[1..][..n - 1];
    } else {
      assert items[..0] == [] && items[1..] == [];
    }
  }

  /** Items and the end of the block. */
  ghost function DataSpelled(ll: seq<nat>, dl: seq<nat>, items: seq<Item>, rest: BitString): BitString
    requires ItemsOk(ll, dl, items) && Used(ll, END_BLOCK)
  {
    SpelledAll(ll, dl, items, Spelled(ll, dl, End, rest))
  }

  /** Whatever items are read one after the other, they are the first of the data. */
  lemma {:induction false} DataPrefix(ll: seq<nat>, dl: seq<nat>, items: seq<Item>, after: BitString, data: seq<Item>, rest: BitString)
    requires Accepted(ll) && Accepted(dl) && ItemsOk(ll, dl, items) && ItemsOk(ll, dl, data) && Used(ll, END_BLOCK)
    requires SpelledAll(ll, dl, items, after) == DataSpelled(ll, dl, data, rest)
    ensures |items| <= |data| && items == data[..|items|] && after == DataSpelled(ll, dl, data[|items|..], rest)
    decreases |items|
  {
    hide Accepted, ItemOk, Spelled, HasMeaning;
    var n := |items| - 1;
    if n < 0 {
      assert data[0..] == data;
    } else {
      var last := items[n];
      DataPrefix(ll, dl, items[..n], Spelled(ll, dl, last, after), data, rest);
      NextItem(ll, dl, last, after, data[n..], rest);
      assert data[n..][1..] == data[n + 1..] && items == items[..n] + [last];
    }
  }

  /** The item that comes next in the data of a block. */
  lemma NextItem(ll: seq<nat>, dl: seq<nat>, item: Item, after: BitString, data: seq<Item>, rest: BitString)
    requires Accepted(ll) && Accepted(dl) && ItemOk(ll, dl, item) && ItemsOk(ll, dl, data) && Used(ll, END_BLOCK)
    requires Spelled(ll, dl, item, after) == DataSpelled(ll, dl, data, rest)
    ensures HasMeaning(item) ==> data != [] && item == data[0] && after == DataSpelled(ll, dl, data[1..], rest)
    ensures !HasMeaning(item) ==> data == [] && item == End && after == rest
  {
    hide Accepted, Spelled;
    if data == [] {
      ItemUnique(ll, dl, item, after, End, rest);
    } else {
      FirstItem(ll, dl, data, Spelled(ll, dl, End, rest));
      ItemUnique(ll, dl, item, after, data[0], DataSpelled(ll, dl, data[1..], rest));
    }
  }

  lemma DataUnique(ll: seq<nat>, dl: seq<nat>, data: seq<Item>, rest: BitString, data': seq<Item>, rest': BitString)
    requires Accepted(ll) && Accepted(dl) && ItemsOk(ll, dl, data) && ItemsOk(ll, dl, data') && Used(ll, END_BLOCK)
    requires DataSpelled(ll, dl, data, rest) == DataSpelled(ll, dl, data', rest')
    ensures data == data' && rest == rest'
  {
    hide Accepted, Spelled, ItemOk;
    EndOk(ll, dl);
    DataPrefix(ll, dl, data, Spelled(ll, dl, End, rest), data', rest');
    NextItem(ll, dl, End, rest, data'[|data|..], rest');
    assert data' == data'[..|data|] + data'[|data|..];
  }

  lemma EndOk(ll: seq<nat>, dl: seq<nat>)
    requires Used(ll, END_BLOCK)
    ensures ItemOk(ll, dl, End) && !HasMeaning(End)
  {
  }
}
