/** The LEN to MATCH states of inflate.c, one item at a time, on any input. */
module InflateBlock {
  import opened Sums
  import opened Lz77
  import opened BitStreams
  import opened BitReader
  import opened DecodeTable
  import opened InfTrees
  import opened CodeSymbols
  import opened InflateSymbols
  import opened InflateWindow
  import opened InflateCopy
  import opened TokenCodes
  import opened InflateItems

  /** The decoding tables for both codes of a block. */
  datatype Decoder = Decoder(ltable: seq<Entry>, lroot: nat, dtable: seq<Entry>, droot: nat)

  /** Tables as inflate_table leaves them for the lengths ll and dl: complete codes, lone codes or no codes. */
  ghost predicate DecoderOk(d: Decoder, ll: seq<nat>, dl: seq<nat>) {
    Usable(d.ltable, ll, LENS, d.lroot) && Usable(d.dtable, dl, DISTS, d.droot)
  }

  lemma DecoderCodes(d: Decoder, ll: seq<nat>, dl: seq<nat>)
    requires DecoderOk(d, ll, dl)
    ensures Accepted(ll) && Accepted(dl)
  {
  }

  /** Where decoding stands: within a block, after one, at the end; in error; or out of input or of space. */
  datatype Mode = LEN | TYPE | DONE | BAD | NoInput | NoSpace

  /** Nothing else is refused: symbols and gaps without a meaning, and distances that reach too far back. */
  ghost predicate Rejected(item: Item, reach: nat) {
    match item
    case Lit(_) => false
    case Pair(_, _, dsym, y) => DistOf(dsym, y) > reach
    case Half(_, _, _) => true
    case Stop(_) => item != End
  }

  /** Only out[put0..put] has changed, and it continues the output by the meaning of the item. */
  ghost predicate Continued(history: seq<byte>, was: seq<byte>, out: seq<byte>, put0: nat, put: nat, item: Item) {
    && put0 <= put <= |out| == |was| && out[..put0] == was[..put0] && out[put..] == was[put..]
    && HasMeaning(item) && ValidToken(Output(history, was, 0, put0), Meaning(item))
    && Output(history, out, 0, put) == Apply(Output(history, was, 0, put0), Meaning(item))
  }

  /** The meaning of the item does not fit: the output is full, with as much of it as fits. */
  ghost predicate Overrun(history: seq<byte>, was: seq<byte>, out: seq<byte>, put0: nat, item: Item) {
    && put0 <= |out| == |was| && out[..put0] == was[..put0] && HasMeaning(item)
    && (ValidToken(Output(history, was, 0, put0), Meaning(item)) ==>
          && Output(history, out, 0, |out|) <= Apply(Output(history, was, 0, put0), Meaning(item))
          && |history| + |out| < |Apply(Output(history, was, 0, put0), Meaning(item))|)
  }

  lemma PutLiteral(history: seq<byte>, out: seq<byte>, put: nat, sym: nat)
    requires put <= |out| && sym < 256
    ensures put < |out| ==> Continued(history, out, out[put := sym as bv8], put, put + 1, Lit(sym))
    ensures put == |out| ==> Overrun(history, out, out, put, Lit(sym))
  {
  }

  lemma CopiedContinues(history: seq<byte>, was: seq<byte>, out: seq<byte>, p: nat, p': nat, item: Item)
    requires item.Pair? && HasMeaning(item) && 3 <= Meaning(item).len <= 258 && 1 <= Meaning(item).dist <= W_SIZE
    requires p' == p + Meaning(item).len && Copied(history, was, out, 0, p, p', Meaning(item).dist)
    ensures Continued(history, was, out, p, p', item)
  {
    hide CopyMatch, Output;
    CopiedIsMatch(history, was, out, 0, p, p', Meaning(item).dist);
  }

  /** A copy that the end of the output cuts short. */
  lemma CopiedOverruns(history: seq<byte>, was: seq<byte>, out: seq<byte>, p: nat, item: Item)
    requires item.Pair? && HasMeaning(item) && |out| < p + Meaning(item).len
    requires p < |out| && Copied(history, was, out, 0, p, |out|, Meaning(item).dist)
    ensures Overrun(history, was, out, p, item)
  {
    hide CopyMatch, Output;
    var start, m := Output(history, was, 0, p), |out| - p;
    CopiedIsMatch(history, was, out, 0, p, |out|, Meaning(item).dist);
    CopyMatchSplit(start, m, Meaning(item).len - m, Meaning(item).dist);
  }

  lemma NothingCopied(history: seq<byte>, out: seq<byte>, item: Item)
    requires item.Pair? && HasMeaning(item) && Meaning(item).len > 0
    ensures Overrun(history, out, out, |out|, item)
  {
  }

  /** The MATCH state, until the whole match is copied or the output is full. */
  method CopyAll(s: InflateState, out: array<byte>, put0: nat, length: nat, offset: nat, ghost item: Item, ghost history: seq<byte>) returns (mode: Mode, put: nat)
    requires Holds(s.window[..], s.wnext, s.whave, history) && out != s.window && put0 <= out.Length
    requires item.Pair? && HasMeaning(item) && Meaning(item) == Match(length, offset) && 3 <= length <= 258 && 1 <= offset <= W_SIZE
    modifies s`length, s`offset, out
    ensures mode == LEN || mode == BAD || mode == NoSpace
    ensures mode == LEN ==> Continued(history, old(out[..]), out[..], put0, put, item)
    ensures mode == NoSpace ==> Overrun(history, old(out[..]), out[..], put0, item)
    ensures mode == BAD ==> put == put0 && out[..] == old(out[..]) && Rejected(item, s.whave + put)
  {
    hide Holds, Copied, CopyMatch, Output, Continued, Overrun;
    s.length, s.offset := length, offset;
    mode, put := LEN, put0;
    ghost var was := out[..];
    WindowFits2(s.window[..], s.wnext, s.whave, history);
    CopyBegins(history, was, 0, put0, offset);
    while mode == LEN && s.length != 0
      invariant mode == LEN || mode == BAD || mode == NoSpace
      invariant s.offset == offset && put0 <= put <= out.Length && put + s.length == put0 + length && s.length <= length
      invariant mode == BAD ==> put == put0 && out[..] == was && offset > s.whave + put
      invariant mode == NoSpace ==> put == out.Length && s.length > 0
      invariant mode != BAD && put > put0 ==> Copied(history, was, out[..], 0, put0, put, offset)
      invariant (put == put0 ==> out[..] == was) && (put > put0 ==> offset <= s.whave + put0)
      decreases s.length, mode == LEN
    {
      if put == out.Length {
        mode := NoSpace;
      } else {
        ghost var before := out[..];
        var ok, p := true, put;
        ok, put := MatchStep(s, out, 0, put, history);
        if ok {
          JoinSteps(history, was, before, out[..], put0, p, put, offset);
        } else {
          mode, put := BAD, p;
        }
      }
    }
    if mode == LEN {
      CopiedContinues(history, was, out[..], put0, put, item);
    } else if mode == NoSpace && put > put0 {
      CopiedOverruns(history, was, out[..], put0, item);
    } else if mode == NoSpace {
      NothingCopied(history, was, item);
    }
  }

  lemma JoinSteps(history: seq<byte>, was: seq<byte>, before: seq<byte>, out: seq<byte>, put0: nat, p: nat, put: nat, dist: nat)
    requires put0 <= p && (if p > put0 then Copied(history, was, before, 0, put0, p, dist) else before == was) && Copied(history, before, out, 0, p, put, dist)
    ensures Copied(history, was, out, 0, put0, put, dist)
  {
    hide Copied;
    if p > put0 {
      CopiedJoin(history, was, before, out, 0, put0, p, put, dist);
    }
  }

  /** The rest of a match after its length symbol: extra bits, and the distance. */
  method ReadMatch(br: Reader, d: Decoder, e: Entry, ghost ll: seq<nat>, ghost dl: seq<nat>, ghost sym: nat) returns (mode: Mode, length: nat, offset: nat, ghost item: Item)
    requires br.Valid() && DecoderOk(d, ll, dl) && IsLength(sym) && Used(ll, sym)
    requires e.op == 16 + LenBitsOf(sym) && e.val == LenOf(sym, 0)
    modifies br
    ensures br.Valid() && br.Consumed() >= old(br.Consumed()) && (mode == LEN || mode == BAD || mode == NoInput)
    ensures mode != NoInput ==> ItemOk(ll, dl, item) && Head(item) == Found(sym) && (if mode == LEN then item.Pair? else item.Half?)
    ensures mode == LEN ==> HasMeaning(item) && Meaning(item) == Match(length, offset)
    ensures mode != NoInput ==> old(br.Rest()) == AfterHead(dl, item, br.Rest()) && (old(br.bits) < 8 ==> br.bits < 8)
    ensures mode == NoInput ==> NoItem(ll, dl, Cat(BitsOf(ll, Found(sym)), old(br.Rest())))
  {
    hide Cat, Extra, Pow2, OfBytes, DropFirst, Usable, BitsOf, EntryOf, First, LenBitsOf, IsGap, NoItem, NoSym, Accepted;
    DecoderCodes(d, ll, dl);
    ghost var after := br.Rest();
    offset, item := 0, Stop(Found(sym));
    var extra := e.op % 16;
    var ok, x := br.TakeBits(extra);
    length := e.val + x;
    if !ok {
      NoLenExtra(ll, dl, sym, after);
      return NoInput, length, offset, item;
    }
    LenMore(sym, x);
    ghost var after2 := br.Rest();
    var here;
    ghost var dsym;
    ok, here, dsym := DecodeSymbol(br, d.dtable, d.droot, DISTS, dl);
    if !ok {
      NoDistSym(ll, dl, sym, x, after2);
      return NoInput, length, offset, item;
    }
    DistEntry(dl, dsym);
    if here.op / 64 % 2 == 1 {
      item := Half(sym, x, dsym);
      return BAD, length, offset, item;
    }
    ghost var after3 := br.Rest();
    extra := here.op % 16;
    var y;
    ok, y := br.TakeBits(extra);
    offset := here.val + y;
    if !ok {
      NoDistExtra(ll, dl, sym, x, dsym.s, after3);
      return NoInput, length, offset, item;
    }
    item := Pair(sym, x, dsym.s, y);
    mode := LEN;
  }

  lemma LenMore(sym: nat, x: nat)
    requires IsLength(sym) && x < Pow2(LenBitsOf(sym))
    ensures LenOf(sym, x) == LenOf(sym, 0) + x
  {
    assert Pow2(0) == 1;
  }

  /** The entry of a distance symbol or gap. */
  lemma DistEntry(dl: seq<nat>, d: Sym)
    requires SymOk(dl, d) && |dl| <= MaxCodes(DISTS)
    ensures var e := EntryOf(DISTS, dl, d);
      && (NoDistance(d) ==> e.op == 64)
      && (!NoDistance(d) ==> d.s < D_CODES && e.op == 16 + Extra(true, d.s) && Extra(true, d.s) <= 13 && e.val == DistOf(d.s, 0))
  {
    hide SymbolEntry, Extra, First, IsGap;
    if d.Found? {
      DistEntries(d.s, dl[d.s]);
    }
  }

  /** The entry of a literal or length symbol or gap. */
  lemma LengthEntry(ll: seq<nat>, d: Sym)
    requires SymOk(ll, d) && |ll| <= MaxCodes(LENS)
    ensures var e := EntryOf(LENS, ll, d);
      && (e.op == 0 ==> d.Found? && d.s < 256 && e.val == d.s)
      && (e.op == 96 ==> d == Found(END_BLOCK))
      && (16 <= e.op < 32 ==> d.Found? && IsLength(d.s) && e.op == 16 + LenBitsOf(d.s) && e.val == LenOf(d.s, 0))
      && (e.op == 0 || 16 <= e.op < 32 || ((e.op == 96 || e.op == 64 || e.op == 77 || e.op == 202) && Stops(d) && (e.op != 96 ==> d != Found(END_BLOCK))))
  {
    hide SymbolEntry, Extra, First, IsGap;
    if d.Found? {
      LengthEntries(d.s, ll[d.s]);
    }
  }

  /** One item in the LEN state: a literal, a match, the end of the block, or an error; or the input or the
      space ends within it. */
  method InflateToken(br: Reader, s: InflateState, out: array<byte>, put0: nat, d: Decoder, ghost ll: seq<nat>, ghost dl: seq<nat>, ghost history: seq<byte>)
    returns (mode: Mode, put: nat, ghost item: Item)
    requires br.Valid() && DecoderOk(d, ll, dl) && Holds(s.window[..], s.wnext, s.whave, history) && out != s.window && put0 <= out.Length
    modifies br, s`length, s`offset, out
    ensures br.Valid() && br.Consumed() >= old(br.Consumed()) && mode != DONE
    ensures mode != NoInput ==> ItemOk(ll, dl, item) && old(br.Rest()) == Spelled(ll, dl, item, br.Rest()) && (old(br.bits) < 8 ==> br.bits < 8)
    ensures mode == LEN ==> Continued(history, old(out[..]), out[..], put0, put, item)
    ensures mode == TYPE ==> item == End
    ensures mode == BAD ==> Rejected(item, s.whave + put)
    ensures mode == NoInput ==> NoItem(ll, dl, old(br.Rest()))
    ensures mode == NoSpace ==> Overrun(history, old(out[..]), out[..], put0, item)
    ensures mode != LEN && mode != NoSpace ==> put == put0 && out[..] == old(out[..])
  {
    hide Cat, Extra, Pow2, OfBytes, DropFirst, Usable, BitsOf, EntryOf, First, LenBitsOf, IsGap, NoItem, NoSym, Accepted, Holds, Continued, Overrun, AfterHead, ItemOk;
    ghost var all := br.Rest();
    put, item := put0, End;
    var ok, here;
    ghost var sym;
    ok, here, sym := DecodeSymbol(br, d.ltable, d.lroot, LENS, ll);
    if !ok {
      NoHead(ll, dl, all);
      return NoInput, put, item;
    }
    LengthEntry(ll, sym);
    if here.op == 0 {
      item := Lit(sym.s);
      PlainItem(ll, dl, item, br.Rest());
      PutLiteral(history, out[..], put, sym.s);
      if put == out.Length {
        return NoSpace, put, item;
      }
      out[put] := here.val as bv8;
      put := put + 1;
      return LEN, put, item;
    }
    if here.op / 32 % 2 == 1 {
      PlainItem(ll, dl, item, br.Rest());
      return TYPE, put, item;
    }
    if here.op / 64 % 2 == 1 {
      item := Stop(sym);
      PlainItem(ll, dl, item, br.Rest());
      return BAD, put, item;
    }
    var length, offset;
    mode, length, offset, item := ReadMatch(br, d, here, ll, dl, sym.s);
    if mode == LEN {
      PairRange(ll, dl, item);
      mode, put := CopyAll(s, out, put0, length, offset, item, history);
    }
  }

  /** A literal or a stop is its symbol or gap alone. */
  lemma PlainItem(ll: seq<nat>, dl: seq<nat>, item: Item, rest: BitString)
    requires match item case Lit(sym) => sym < 256 && Used(ll, sym) case Stop(d) => SymOk(ll, d) && Stops(d) case _ => false
    ensures ItemOk(ll, dl, item) && Spelled(ll, dl, item, rest) == Cat(BitsOf(ll, Head(item)), rest)
  {
    hide Cat, BitsOf;
  }
}
