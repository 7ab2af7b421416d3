/** inflate_fast of inffast.c: decoding without checking for input or output space; and the data of a block
    as a whole, on any input. */
module InflateFast {
  import opened Sums
  import opened Bits
  import opened Lz77
  import opened BitStreams
  import opened BitReader
  import opened DecodeTable
  import opened InfTrees
  import opened CodeSymbols
  import opened InflateSymbols
  import opened InflateWindow
  import opened InflateCopy
  import opened TokenCodes
  import opened InflateItems
  import opened InflateBlock

  /** One byte is read without a check: there must be one. */
  method Pull(br: Reader)
    requires br.Valid() && br.next < |br.input|
    modifies br
    ensures br.Valid() && br.Rest() == old(br.Rest()) && br.Consumed() == old(br.Consumed()) && br.bits == old(br.bits) + 8
  {
    hide Cat, DropFirst, Low;
    var _ := br.PullByte();
  }

  /** Two bytes, if there may be less than a code of 15 bits. */
  method Refill(br: Reader)
    requires br.Valid() && (br.bits < 15 ==> br.next + 2 <= |br.input|)
    modifies br
    ensures br.Valid() && br.Rest() == old(br.Rest()) && br.Consumed() == old(br.Consumed()) && 15 <= br.bits
    ensures br.bits <= 30 || br.bits == old(br.bits)
  {
    hide Cat, DropFirst, Low, OfBytes;
    if br.bits < 15 {
      Pull(br);
      Pull(br);
    }
  }

  // ----- One item, whatever the input -----

  /** dolen and dodist: fifteen bits are enough for any code or gap. */
  method FastSymbol(br: Reader, table: seq<Entry>, root: nat, typ: CodeType, ghost ls: seq<nat>) returns (e: Entry, ghost sym: Sym)
    requires br.Valid() && Usable(table, ls, typ, root) && br.bits >= 15
    modifies br
    ensures SymOk(ls, sym) && |ls| <= MaxCodes(typ) && e.op == EntryOf(typ, ls, sym).op && e.val == EntryOf(typ, ls, sym).val
    ensures br.Valid() && old(br.Rest()) == Cat(BitsOf(ls, sym), br.Rest()) && 1 <= BitsOf(ls, sym).n <= 15
    ensures br.Consumed() == old(br.Consumed()) + BitsOf(ls, sym).n && br.bits == old(br.bits) - BitsOf(ls, sym).n && br.next == old(br.next)
  {
    hide Low, Shr, EntryOf, Usable, Answers, Cat, Pow2, DropFirst, OfBytes, IsLink, BitsOf;
    ghost var all := br.Rest();
    sym := Look(table, ls, typ, root, br.hold);
    TableSize(table, ls, typ, root);
    FirstLook(table, ls, typ, root, br.hold, sym);
    SymAnswers(table, ls, typ, root, br.hold, sym);
    SymSize(ls, sym);
    TakenSym(br, table, ls, typ, root, sym);
    var here := table[Low(br.hold, root)];
    ghost var first := here.bits;
    br.DropBits(here.bits);
    if here.op < 16 && (typ == DISTS || here.op != 0) {
      DropTwice(all, first, BitsOf(ls, sym).n - first);
      here := table[here.val + Low(br.hold, here.op)];
      br.DropBits(here.bits);
    }
    e := here;
  }

  /** A base and its extra bits; at most two bytes are read. */
  method FastExtra(br: Reader, e: Entry, ghost n: nat) returns (v: nat, ghost x: nat)
    requires br.Valid() && e.op == 16 + n && n <= 13
    requires br.bits < n ==> br.next + (if br.bits + 8 < n then 2 else 1) <= |br.input|
    modifies br
    ensures x < Pow2(n) && v == e.val + x && br.Valid() && old(br.Rest()) == Cat(BitString(x, n), br.Rest()) && br.Consumed() == old(br.Consumed()) + n
    ensures br.bits <= old(br.bits) || br.bits < 8
  {
    hide Cat, OfBytes, DropFirst, Low, Pow2;
    v := e.val;
    var extra := e.op % 16;
    ghost var all := br.Rest();
    if br.bits < extra {
      Pull(br);
      if br.bits < extra {
        Pull(br);
      }
    }
    var y := br.PeekBits(extra);
    br.AllIn();
    FirstBits(all, n);
    br.DropBits(extra);
    v := v + y;
    x := y;
  }

  /** The bits of a length and a distance: at most 15 + 5 + 15 + 13. So the six bytes that are there when
      the loop goes on are enough. ok is false if the distance symbol or gap means nothing. */
  method FastMatch(br: Reader, d: Decoder, e: Entry, ghost ll: seq<nat>, ghost dl: seq<nat>, ghost sym: nat, ghost start: nat)
    returns (ok: bool, length: nat, dist: nat, ghost item: Item)
    requires br.Valid() && DecoderOk(d, ll, dl) && IsLength(sym) && Used(ll, sym)
    requires e.op == 16 + LenBitsOf(sym) && e.val == LenOf(sym, 0)
    requires br.Consumed() <= start + 15 && start <= 8 * (|br.input| - 6) && br.bits <= 30
    modifies br
    ensures ItemOk(ll, dl, item) && Head(item) == Found(sym) && (if ok then item.Pair? else item.Half?)
    ensures ok ==> HasMeaning(item) && Meaning(item) == Match(length, dist)
    ensures br.Valid() && old(br.Rest()) == AfterHead(dl, item, br.Rest()) && br.bits <= 30 && br.Consumed() >= old(br.Consumed())
  {
    hide Cat, Extra, Pow2, OfBytes, Usable, BitsOf, EntryOf, DropFirst, Low, First, LenBitsOf, IsGap;
    ghost var x;
    length, x := FastExtra(br, e, LenBitsOf(sym));
    Refill(br);
    var here;
    ghost var dsym;
    here, dsym := FastSymbol(br, d.dtable, d.droot, DISTS, dl);
    DistEntry(dl, dsym);
    LenMore(sym, x);
    if here.op / 16 % 2 == 1 {
      ghost var y;
      dist, y := FastExtra(br, here, Extra(true, dsym.s));
      ok, item := true, Pair(sym, x, dsym.s, y);
    } else {
      ok, item, dist := false, Half(sym, x, dsym), 0;
    }
  }

  /** One round of the loop: with six bytes of input and 258 bytes of space, nothing need be checked, whatever
      the input. */
  method FastRound(br: Reader, s: InflateState, out: array<byte>, put0: nat, d: Decoder, ghost ll: seq<nat>, ghost dl: seq<nat>, ghost history: seq<byte>)
    returns (mode: Mode, put: nat, ghost item: Item)
    requires br.Valid() && DecoderOk(d, ll, dl) && Holds(s.window[..], s.wnext, s.whave, history) && out != s.window
    requires br.next + 6 <= |br.input| && put0 + 258 <= out.Length && br.bits <= 30
    modifies br, out
    ensures br.Valid() && br.bits <= 30 && br.Consumed() >= old(br.Consumed()) && (mode == LEN || mode == TYPE || mode == BAD)
    ensures ItemOk(ll, dl, item) && old(br.Rest()) == Spelled(ll, dl, item, br.Rest())
    ensures mode == LEN ==> Continued(history, old(out[..]), out[..], put0, put, item)
    ensures mode != LEN ==> put == put0 && out[..] == old(out[..])
    ensures mode == TYPE ==> item == End
    ensures mode == BAD ==> Rejected(item, s.whave + put)
  {
    hide Cat, Extra, Pow2, OfBytes, Usable, BitsOf, EntryOf, DropFirst, Holds, Continued, Overrun, AfterHead, First, ItemOk, LenBitsOf, IsGap;
    ghost var start, sym := br.Consumed(), Found(0);
    Refill(br);
    var here;
    here, sym := FastSymbol(br, d.ltable, d.lroot, LENS, ll);
    LengthEntry(ll, sym);
    put, mode, item := put0, LEN, Stop(sym);
    if here.op == 0 {
      item := Lit(sym.s);
      PlainItem(ll, dl, item, br.Rest());
      PutLiteral(history, out[..], put0, sym.s);
      out[put] := here.val as bv8;
      put := put + 1;
    } else if here.op / 16 % 2 == 1 {
      var ok, len, dist;
      ok, len, dist, item := FastMatch(br, d, here, ll, dl, sym.s, start);
      if ok {
        PairRange(ll, dl, item);
        ok, put := FastOut(s, out, put0, item, len, dist, history);
      }
      mode := if ok then LEN else BAD;
    } else {
      mode := if here.op / 32 % 2 == 1 then TYPE else BAD;
      PlainItem(ll, dl, item, br.Rest());
    }
  }

  method FastOut(s: InflateState, out: array<byte>, put0: nat, ghost item: Item, len: nat, dist: nat, ghost history: seq<byte>) returns (ok: bool, put: nat)
    requires Holds(s.window[..], s.wnext, s.whave, history) && out != s.window && put0 + 258 <= out.Length
    requires item.Pair? && HasMeaning(item) && Meaning(item) == Match(len, dist) && 3 <= len <= 258 && 1 <= dist <= W_SIZE
    modifies out
    ensures ok ==> Continued(history, old(out[..]), out[..], put0, put, item)
    ensures !ok ==> put == put0 && out[..] == old(out[..]) && Rejected(item, s.whave + put)
  {
    hide Holds, CopyMatch, Copied, Continued;
    ghost var was := out[..];
    WindowFits2(s.window[..], s.wnext, s.whave, history);
    ok := FastCopy(s, out, 0, put0, dist, len, history);
    put := put0;
    if ok {
      put := put + len;
      CopiedContinues(history, was, out[..], put0, put, item);
    }
  }

  /** Gives back the bytes that have not been used. */
  method ReturnUnused(br: Reader)
    requires br.Valid()
    modifies br
    ensures br.Valid() && br.Rest() == old(br.Rest()) && br.Consumed() == old(br.Consumed()) && br.bits < 8
  {
    hide Cat, OfBytes, Low, Pow2, DropFirst;
    var len := br.bits / 8;
    Returned(br, len);
    br.next := br.next - len;
    br.bits := br.bits - 8 * len;
    br.hold := Low(br.hold, br.bits);
  }

  lemma Returned(br: Reader, len: nat)
    requires br.Valid() && 8 * len <= br.bits
    ensures len <= br.next
    ensures var b := br.bits - 8 * len;
      Low(br.hold, b) < Pow2(b) && Cat(BitString(Low(br.hold, b), b), OfBytes(br.input[br.next - len..])) == br.Rest()
  {
    hide Cat, OfBytes, Low, Pow2, DropFirst;
    var input, c := br.input, br.Consumed();
    var n, b := br.next - len, br.bits - 8 * len;
    var first, second := OfBytes(input[..n]), OfBytes(input[n..]);
    assert input == input[..n] + input[n..];
    OfBytesJoin(input[..n], input[n..]);
    OfBytesSize(input[..n]);
    DropCat(first, second, c);
    DropProper(first, c);
    var head := DropFirst(first, c);
    DropSize(first, c);
    CatParts(head, second);
    CatPrefix(BitString(br.hold, br.bits), OfBytes(input[br.next..]), b);
  }

  lemma DropSize(a: BitString, c: nat)
    requires c <= a.n
    ensures DropFirst(a, c).n == a.n - c
  {
  }

  // ----- The loop -----

  /** The items read so far, and what they have put out. */
  ghost predicate Progress(ll: seq<nat>, dl: seq<nat>, items: seq<Item>, history: seq<byte>, was: seq<byte>, out: seq<byte>, put0: nat, put: nat) {
    && ItemsOk(ll, dl, items) && put0 <= put <= |out| == |was| && out[..put0] == was[..put0] && out[put..] == was[put..]
    && Expands(InflateCopy.Output(history, was, 0, put0), Meanings(items), InflateCopy.Output(history, out, 0, put))
  }

  lemma NoProgress(ll: seq<nat>, dl: seq<nat>, history: seq<byte>, out: seq<byte>, put: nat)
    requires put <= |out|
    ensures Progress(ll, dl, [], history, out, out, put, put)
  {
  }

  lemma MoreProgress(ll: seq<nat>, dl: seq<nat>, items: seq<Item>, item: Item, history: seq<byte>, was: seq<byte>, mid: seq<byte>, out: seq<byte>, put0: nat, p: nat, put: nat)
    requires Progress(ll, dl, items, history, was, mid, put0, p) && ItemOk(ll, dl, item) && Continued(history, mid, out, p, put, item)
    ensures Progress(ll, dl, items + [item], history, was, out, put0, put)
  {
    hide Expands, InflateCopy.Output, Apply, ItemOk, Meanings, ValidToken;
    OneMore(ll, dl, items, item, Empty);
    ExpandsMore(InflateCopy.Output(history, was, 0, put0), Meanings(items), InflateCopy.Output(history, mid, 0, p), Meaning(item));
    assert out[..put0] == out[..p][..put0] && mid[..put0] == mid[..p][..put0];
    assert mid[put..] == mid[p..][put - p..] && was[put..] == was[p..][put - p..];
  }

  /** What is left of the input after the items, and after the one that ended the run. */
  ghost predicate ReadUpTo(ll: seq<nat>, dl: seq<nat>, items: seq<Item>, mode: Mode, last: Item, all: BitString, rest: BitString) {
    && ItemsOk(ll, dl, items) && (mode != LEN ==> ItemOk(ll, dl, last)) && (mode == TYPE ==> last == End)
    && all == SpelledAll(ll, dl, items, if mode == LEN then rest else Spelled(ll, dl, last, rest))
  }

  lemma ReadNone(ll: seq<nat>, dl: seq<nat>, all: BitString, last: Item)
    ensures ReadUpTo(ll, dl, [], LEN, last, all, all)
  {
  }

  lemma ReadMore(ll: seq<nat>, dl: seq<nat>, items: seq<Item>, mode: Mode, last: Item, item: Item, all: BitString, mid: BitString, rest: BitString)
    requires ReadUpTo(ll, dl, items, LEN, last, all, mid) && ItemOk(ll, dl, item) && mid == Spelled(ll, dl, item, rest)
    requires (mode == LEN ==> HasMeaning(item)) && (mode == TYPE ==> item == End)
    ensures ReadUpTo(ll, dl, if mode == LEN then items + [item] else items, mode, item, all, rest)
  {
    hide ItemOk, Spelled, Meanings, Meaning;
    if mode == LEN {
      OneMore(ll, dl, items, item, rest);
    }
  }

  /** inflate_fast, on any input and with the tables of any code that inflate_table lets through: it runs
      while there are six bytes of input and 258 bytes of space, and reads and writes within them. What it has
      read are the codes of the items, what it has written is their meaning; the bits left over are less than
      eight, and are those that come next. */
  method RunFast(br: Reader, s: InflateState, out: array<byte>, put0: nat, d: Decoder, ghost ll: seq<nat>, ghost dl: seq<nat>, ghost history: seq<byte>)
    returns (mode: Mode, put: nat, ghost items: seq<Item>, ghost last: Item)
    requires br.Valid() && DecoderOk(d, ll, dl) && Holds(s.window[..], s.wnext, s.whave, history) && out != s.window
    requires |br.input| - br.next >= 6 && out.Length - put0 >= 258 && br.bits < 8
    modifies br, out
    ensures br.Valid() && br.bits < 8 && br.Consumed() >= old(br.Consumed()) && br.next >= old(br.next)
    ensures mode == LEN || mode == TYPE || mode == BAD
    ensures Progress(ll, dl, items, history, old(out[..]), out[..], put0, put)
    ensures ReadUpTo(ll, dl, items, mode, last, old(br.Rest()), br.Rest())
    ensures mode == LEN ==> items != [] && put > put0
    ensures mode == BAD ==> Rejected(last, s.whave + put)
  {
    hide DecoderOk, Holds, Progress, ReadUpTo, Continued, ItemOk, Spelled, Rejected, Cat, OfBytes, Pow2, DropFirst;
    var end, limit := |br.input| - 5, out.Length - 257;
    put, mode, items, last := put0, LEN, [], End;
    var more := true;
    ghost var all, was := br.Rest(), out[..];
    NoProgress(ll, dl, history, was, put0);
    ReadNone(ll, dl, all, last);
    while more
      invariant br.Valid() && br.bits <= 30 && put0 <= put <= out.Length && br.Consumed() >= old(br.Consumed())
      invariant more ==> mode == LEN && br.next < end && put < limit
      invariant mode == LEN || mode == TYPE || mode == BAD
      invariant Progress(ll, dl, items, history, was, out[..], put0, put) && ReadUpTo(ll, dl, items, mode, last, all, br.Rest())
      invariant mode == BAD ==> Rejected(last, s.whave + put)
      invariant !more && mode == LEN ==> items != [] && put > put0
      decreases out.Length - put, more
    {
      ghost var before, p, rest, item := out[..], put, br.Rest(), End;
      mode, put, item := FastRound(br, s, out, put, d, ll, dl, history);
      RoundFacts(history, before, out[..], p, put, item, mode);
      ReadMore(ll, dl, items, mode, last, item, all, rest, br.Rest());
      if mode == LEN {
        MoreProgress(ll, dl, items, item, history, was, before, out[..], put0, p, put);
        items := items + [item];
      }
      last := item;
      more := mode == LEN && br.next < end && put < limit;
    }
    ReturnUnused(br);
  }

  lemma RoundFacts(history: seq<byte>, was: seq<byte>, out: seq<byte>, p: nat, put: nat, item: Item, mode: Mode)
    requires mode == LEN ==> Continued(history, was, out, p, put, item)
    requires mode != LEN ==> put == p
    ensures mode == LEN ==> p < put <= |out| && HasMeaning(item)
  {
    hide CopyMatch;
  }

  // ----- The data of a block -----

  /** The data that the bits spell, in no other way, and its meaning. */
  ghost predicate DataReads(ll: seq<nat>, dl: seq<nat>, all: BitString, start: seq<byte>, items: seq<Item>, rest: BitString, result: seq<byte>) {
    && ItemsOk(ll, dl, items) && Used(ll, END_BLOCK) && all == DataSpelled(ll, dl, items, rest) && Expands(start, Meanings(items), result)
  }

  /** Why decoding stopped: the bits spell no data; or data whose meaning does not fit. */
  ghost predicate DataFails(mode: Mode, ll: seq<nat>, dl: seq<nat>, all: BitString, start: seq<byte>, space: nat) {
    forall items: seq<Item>, rest: BitString, result: seq<byte> :: DataReads(ll, dl, all, start, items, rest, result) ==>
      mode == NoSpace && |result| > space
  }

  lemma {:induction false} ExpandsRest(out: seq<byte>, a: seq<Token>, mid: seq<byte>, b: seq<Token>, result: seq<byte>)
    requires Expands(out, a, mid) && Expands(out, a + b, result)
    ensures Expands(mid, b, result)
    decreases |a|
  {
    hide Apply, ValidToken, CopyMatch;
    if a == [] {
      assert a + b == b;
    } else {
      assert (a + b)[1..] == a[1..] + b;
      ExpandsRest(Apply(out, a[0]), a[1..], mid, b, result);
    }
  }

  lemma {:induction false} ExpandsGrows(out: seq<byte>, tokens: seq<Token>, result: seq<byte>)
    requires Expands(out, tokens, result)
    ensures |out| <= |result|
    decreases |tokens|
  {
    if tokens != [] {
      ExpandsGrows(Apply(out, tokens[0]), tokens[1..], result);
    }
  }

  /** What is left when some items have been read. */
  lemma DataLeft(ll: seq<nat>, dl: seq<nat>, items: seq<Item>, all: BitString, mid: BitString, start: seq<byte>, now: seq<byte>,
                 data: seq<Item>, rest: BitString, result: seq<byte>)
    requires Accepted(ll) && Accepted(dl) && ItemsOk(ll, dl, items) && all == SpelledAll(ll, dl, items, mid) && Expands(start, Meanings(items), now)
    requires DataReads(ll, dl, all, start, data, rest, result)
    ensures |items| <= |data| && DataReads(ll, dl, mid, now, data[|items|..], rest, result)
  {
    hide Accepted, ItemOk, Spelled, SpelledAll, Expands, HasMeaning, Meaning;
    DataPrefix(ll, dl, items, mid, data, rest);
    var more := data[|items|..];
    assert Meanings(data) == Meanings(items) + Meanings(more);
    ExpandsRest(start, Meanings(items), now, Meanings(more), result);
  }

  /** What stops decoding stops every reading of the data. */
  lemma StopsHere(mode: Mode, ll: seq<nat>, dl: seq<nat>, mid: BitString, now: seq<byte>, last: Item, rest: BitString, reach: nat, space: nat,
                  data: seq<Item>, rest': BitString, result: seq<byte>)
    requires Accepted(ll) && Accepted(dl) && DataReads(ll, dl, mid, now, data, rest', result)
    requires mode == BAD || mode == NoInput || mode == NoSpace
    requires mode != NoInput ==> ItemOk(ll, dl, last) && mid == Spelled(ll, dl, last, rest)
    requires mode == BAD ==> Rejected(last, reach) && (|now| <= reach || W_SIZE <= reach)
    requires mode == NoInput ==> NoItem(ll, dl, mid)
    requires mode == NoSpace ==> HasMeaning(last) && (ValidToken(now, Meaning(last)) ==> |Apply(now, Meaning(last))| > space)
    ensures mode == NoSpace && |result| > space
  {
    hide Accepted, ItemOk, Spelled, SpelledAll, Expands, Apply;
    DataStarts(ll, dl, data, rest');
    if mode != NoInput {
      NextItem(ll, dl, last, rest, data, rest');
      if data != [] {
        FirstToken(now, data, result);
      }
    }
  }

  lemma DataStarts(ll: seq<nat>, dl: seq<nat>, data: seq<Item>, rest: BitString)
    requires ItemsOk(ll, dl, data) && Used(ll, END_BLOCK)
    ensures !NoItem(ll, dl, DataSpelled(ll, dl, data, rest))
  {
    hide ItemOk, Spelled, HasMeaning;
    EndOk(ll, dl);
    if data != [] {
      FirstItem(ll, dl, data, Spelled(ll, dl, End, rest));
    }
  }

  lemma FirstToken(now: seq<byte>, data: seq<Item>, result: seq<byte>)
    requires data != [] && (forall i :: 0 <= i < |data| ==> HasMeaning(data[i])) && Expands(now, Meanings(data), result)
    ensures ValidToken(now, Meaning(data[0])) && |Apply(now, Meaning(data[0]))| <= |result|
    ensures (forall reach: nat :: |now| <= reach || W_SIZE <= reach ==> !Rejected(data[0], reach))
  {
    ExpandsGrows(Apply(now, Meaning(data[0])), Meanings(data)[1..], result);
    hide Expands, Apply;
  }

  /** The data of a block, up to its end: inflate_fast as long as there is enough input and space, otherwise
      item by item. The history, as far as it still matters, is in the window. It succeeds exactly if the bits
      spell data whose meaning fits. */
  method InflateData(br: Reader, s: InflateState, out: array<byte>, put0: nat, d: Decoder, ghost ll: seq<nat>, ghost dl: seq<nat>, ghost history: seq<byte>)
    returns (mode: Mode, put: nat, ghost items: seq<Item>)
    requires br.Valid() && br.bits < 8 && DecoderOk(d, ll, dl) && put0 <= out.Length && Used(ll, END_BLOCK)
    requires Holds(s.window[..], s.wnext, s.whave, history) && out != s.window && W_SIZE <= s.window.Length
    modifies br, s`length, s`offset, out
    ensures br.Valid() && br.Consumed() >= old(br.Consumed()) && put0 <= put <= out.Length && out[..put0] == old(out[..put0])
    ensures mode == TYPE || mode == BAD || mode == NoInput || mode == NoSpace
    ensures mode == TYPE ==> br.bits < 8
    ensures mode == TYPE ==>
      DataReads(ll, dl, old(br.Rest()), InflateCopy.Output(history, old(out[..]), 0, put0), items, br.Rest(), InflateCopy.Output(history, out[..], 0, put))
    ensures mode != TYPE ==> DataFails(mode, ll, dl, old(br.Rest()), InflateCopy.Output(history, old(out[..]), 0, put0), |history| + out.Length)
  {
    hide DecoderOk, Holds, Progress, ReadUpTo, Rejected, Expands, Cat, OfBytes, Pow2, DropFirst, InflateCopy.Output, DataReads, DataFails, Continued, Overrun, ItemOk, Spelled, NoItem;
    ghost var all, was, start := br.Rest(), out[..], InflateCopy.Output(history, out[..], 0, put0);
    mode, put, items := LEN, put0, [];
    ghost var last := End;
    NoProgress(ll, dl, history, was, put0);
    ReadNone(ll, dl, all, last);
    while mode == LEN
      invariant br.Valid() && br.Consumed() >= old(br.Consumed()) && put0 <= put <= out.Length && out[..put0] == was[..put0] && mode != DONE
      invariant mode == LEN ==> br.bits < 8 && Progress(ll, dl, items, history, was, out[..], put0, put) && ReadUpTo(ll, dl, items, LEN, last, all, br.Rest())
      invariant mode == TYPE ==> br.bits < 8 && DataReads(ll, dl, all, start, items, br.Rest(), InflateCopy.Output(history, out[..], 0, put))
      invariant mode != LEN && mode != TYPE ==> DataFails(mode, ll, dl, all, start, |history| + out.Length)
      decreases out.Length - put, mode == LEN
    {
      if |br.input| - br.next >= 6 && out.Length - put >= 258 {
        mode, put, items, last := FastStep(br, s, out, put, d, ll, dl, history, put0, was, all, items, last);
      } else {
        mode, put, items, last := SlowStep(br, s, out, put, d, ll, dl, history, put0, was, all, items, last);
      }
    }
  }

  /** One call of inflate_fast. */
  method FastStep(br: Reader, s: InflateState, out: array<byte>, put1: nat, d: Decoder, ghost ll: seq<nat>, ghost dl: seq<nat>, ghost history: seq<byte>,
                  ghost put0: nat, ghost was: seq<byte>, ghost all: BitString, ghost items0: seq<Item>, ghost last0: Item)
    returns (mode: Mode, put: nat, ghost items: seq<Item>, ghost last: Item)
    requires br.Valid() && br.bits < 8 && DecoderOk(d, ll, dl) && put0 <= put1 <= out.Length && |was| == out.Length && Used(ll, END_BLOCK)
    requires Holds(s.window[..], s.wnext, s.whave, history) && out != s.window && W_SIZE <= s.window.Length
    requires Progress(ll, dl, items0, history, was, out[..], put0, put1) && ReadUpTo(ll, dl, items0, LEN, last0, all, br.Rest())
    requires |br.input| - br.next >= 6 && out.Length - put1 >= 258
    modifies br, s`length, s`offset, out
    ensures br.Valid() && br.Consumed() >= old(br.Consumed()) && mode != DONE && put1 <= put <= out.Length && out[..put0] == was[..put0]
    ensures mode == LEN ==> put1 < put && br.bits < 8 && Progress(ll, dl, items, history, was, out[..], put0, put) && ReadUpTo(ll, dl, items, LEN, last, all, br.Rest())
    ensures mode == TYPE ==> br.bits < 8
    ensures mode == TYPE ==> DataReads(ll, dl, all, InflateCopy.Output(history, was, 0, put0), items, br.Rest(), InflateCopy.Output(history, out[..], 0, put))
    ensures mode != LEN && mode != TYPE ==> DataFails(mode, ll, dl, all, InflateCopy.Output(history, was, 0, put0), |history| + out.Length)
  {
    hide DecoderOk, Holds, Progress, ReadUpTo, Rejected, Cat, OfBytes, Pow2, DropFirst, InflateCopy.Output, DataReads, DataFails, Continued, Overrun, ItemOk, Spelled;
    hide NoItem, Expands, ItemsOk, SpelledAll, Accepted, Meanings, HasMeaning, Meaning, ValidToken, Apply;
    ghost var mid, before := br.Rest(), out[..];
    ghost var start, now := InflateCopy.Output(history, was, 0, put0), InflateCopy.Output(history, out[..], 0, put1);
    EnoughReach(s.window[..], s.wnext, s.whave, history, put1);
    ProgressFacts(ll, dl, items0, history, was, out[..], put0, put1);
    DecoderCodes(d, ll, dl);
    ghost var more;
    mode, put, more, last := RunFast(br, s, out, put1, d, ll, dl, history);
    ProgressFacts(ll, dl, more, history, before, out[..], put1, put);
    EnoughReach(s.window[..], s.wnext, s.whave, history, put);
    items := items0 + more;
    JoinRuns(ll, dl, items0, more, mode, last0, last, all, mid, br.Rest());
    JoinProgress(ll, dl, items0, more, history, was, before, out[..], put0, put1, put);
    ProgressFacts(ll, dl, items, history, was, out[..], put0, put);
    RunEnds(ll, dl, items, mode, last, all, br.Rest(), start, InflateCopy.Output(history, out[..], 0, put), s.whave + put, |history| + out.Length);
  }

  /** One item. */
  method SlowStep(br: Reader, s: InflateState, out: array<byte>, put1: nat, d: Decoder, ghost ll: seq<nat>, ghost dl: seq<nat>, ghost history: seq<byte>,
                  ghost put0: nat, ghost was: seq<byte>, ghost all: BitString, ghost items0: seq<Item>, ghost last0: Item)
    returns (mode: Mode, put: nat, ghost items: seq<Item>, ghost last: Item)
    requires br.Valid() && br.bits < 8 && DecoderOk(d, ll, dl) && put0 <= put1 <= out.Length && |was| == out.Length && Used(ll, END_BLOCK)
    requires Holds(s.window[..], s.wnext, s.whave, history) && out != s.window && W_SIZE <= s.window.Length
    requires Progress(ll, dl, items0, history, was, out[..], put0, put1) && ReadUpTo(ll, dl, items0, LEN, last0, all, br.Rest())
    modifies br, s`length, s`offset, out
    ensures br.Valid() && br.Consumed() >= old(br.Consumed()) && mode != DONE && put1 <= put <= out.Length && out[..put0] == was[..put0]
    ensures mode == LEN ==> put1 < put && br.bits < 8 && Progress(ll, dl, items, history, was, out[..], put0, put) && ReadUpTo(ll, dl, items, LEN, last, all, br.Rest())
    ensures mode == TYPE ==> br.bits < 8
    ensures mode == TYPE ==> DataReads(ll, dl, all, InflateCopy.Output(history, was, 0, put0), items, br.Rest(), InflateCopy.Output(history, out[..], 0, put))
    ensures mode != LEN && mode != TYPE ==> DataFails(mode, ll, dl, all, InflateCopy.Output(history, was, 0, put0), |history| + out.Length)
  {
    hide DecoderOk, Holds, Progress, ReadUpTo, Rejected, Cat, OfBytes, Pow2, DropFirst, InflateCopy.Output, DataReads, DataFails, Continued, Overrun, ItemOk, Spelled;
    hide NoItem, Expands, ItemsOk, SpelledAll, Accepted, Meanings, HasMeaning, Meaning, ValidToken, Apply;
    ghost var mid, before := br.Rest(), out[..];
    ghost var start, now := InflateCopy.Output(history, was, 0, put0), InflateCopy.Output(history, out[..], 0, put1);
    EnoughReach(s.window[..], s.wnext, s.whave, history, put1);
    ProgressFacts(ll, dl, items0, history, was, out[..], put0, put1);
    DecoderCodes(d, ll, dl);
    LeftOver(ll, dl, items0, last0, all, mid);
    ghost var item;
    mode, put, item := InflateToken(br, s, out, put1, d, ll, dl, history);
    items, last := items0, item;
    if mode == LEN {
      RoundFacts(history, before, out[..], put1, put, item, mode);
      ReadMore(ll, dl, items0, mode, last0, item, all, mid, br.Rest());
      MoreProgress(ll, dl, items0, item, history, was, before, out[..], put0, put1, put);
      items := items0 + [item];
      ProgressFacts(ll, dl, items, history, was, out[..], put0, put);
    } else if mode == NoSpace {
      put := out.Length;
      OverrunFacts(history, was, before, out[..], put0, put1, item);
      Failing(mode, ll, dl, items0, all, mid, start, now, item, br.Rest(), 0, |history| + out.Length);
    } else if mode == NoInput {
      Failing(mode, ll, dl, items0, all, mid, start, now, item, br.Rest(), 0, |history| + out.Length);
    } else {
      ReadMore(ll, dl, items0, mode, last0, item, all, mid, br.Rest());
      RunEnds(ll, dl, items, mode, item, all, br.Rest(), start, now, s.whave + put, |history| + out.Length);
    }
  }

  lemma LeftOver(ll: seq<nat>, dl: seq<nat>, items: seq<Item>, last: Item, all: BitString, mid: BitString)
    requires ReadUpTo(ll, dl, items, LEN, last, all, mid)
    ensures ItemsOk(ll, dl, items) && all == SpelledAll(ll, dl, items, mid)
  {
  }

  lemma {:induction false} SpelledJoin(ll: seq<nat>, dl: seq<nat>, a: seq<Item>, b: seq<Item>, rest: BitString)
    requires ItemsOk(ll, dl, a) && ItemsOk(ll, dl, b)
    ensures ItemsOk(ll, dl, a + b) && SpelledAll(ll, dl, a + b, rest) == SpelledAll(ll, dl, a, SpelledAll(ll, dl, b, rest))
    decreases |b|
  {
    hide Spelled, ItemOk, HasMeaning;
    if b == [] {
      assert a + b == a;
    } else {
      var n := |b| - 1;
      assert (a + b)[..|a| + n] == a + b[..n] && (a + b)[|a| + n] == b[n];
      SpelledJoin(ll, dl, a, b[..n], Spelled(ll, dl, b[n], rest));
    }
  }

  lemma JoinRuns(ll: seq<nat>, dl: seq<nat>, a: seq<Item>, b: seq<Item>, mode: Mode, last0: Item, last: Item, all: BitString, mid: BitString, rest: BitString)
    requires ReadUpTo(ll, dl, a, LEN, last0, all, mid) && ReadUpTo(ll, dl, b, mode, last, mid, rest)
    ensures ReadUpTo(ll, dl, a + b, mode, last, all, rest)
  {
    hide Spelled, SpelledAll, ItemOk, HasMeaning;
    SpelledJoin(ll, dl, a, b, if mode == LEN then rest else Spelled(ll, dl, last, rest));
  }

  lemma JoinProgress(ll: seq<nat>, dl: seq<nat>, a: seq<Item>, b: seq<Item>, history: seq<byte>, was: seq<byte>, mid: seq<byte>, out: seq<byte>, put0: nat, p: nat, put: nat)
    requires Progress(ll, dl, a, history, was, mid, put0, p) && Progress(ll, dl, b, history, mid, out, p, put)
    ensures Progress(ll, dl, a + b, history, was, out, put0, put)
  {
    hide Expands, InflateCopy.Output, ItemOk, HasMeaning, Meaning;
    assert Meanings(a + b) == Meanings(a) + Meanings(b);
    ExpandsJoin(InflateCopy.Output(history, was, 0, put0), Meanings(a), InflateCopy.Output(history, mid, 0, p), Meanings(b), InflateCopy.Output(history, out, 0, put));
    assert out[..put0] == out[..p][..put0] && mid[..put0] == mid[..p][..put0];
    assert mid[put..] == mid[p..][put - p..] && was[put..] == was[p..][put - p..];
  }

  lemma OverrunFacts(history: seq<byte>, was: seq<byte>, before: seq<byte>, out: seq<byte>, put0: nat, put: nat, item: Item)
    requires Overrun(history, before, out, put, item) && put0 <= put <= |was| == |before| && before[..put0] == was[..put0]
    ensures out[..put0] == was[..put0] && HasMeaning(item)
    ensures var now := InflateCopy.Output(history, before, 0, put);
      ValidToken(now, Meaning(item)) ==> |history| + |out| < |Apply(now, Meaning(item))|
  {
    hide InflateCopy.Output, Apply, ValidToken;
    assert out[..put0] == out[..put][..put0] && before[..put0] == before[..put][..put0];
  }

  /** What stops decoding after some items. */
  lemma Failing(mode: Mode, ll: seq<nat>, dl: seq<nat>, items: seq<Item>, all: BitString, mid: BitString, start: seq<byte>, now: seq<byte>,
                last: Item, rest: BitString, reach: nat, space: nat)
    requires Accepted(ll) && Accepted(dl) && ItemsOk(ll, dl, items) && all == SpelledAll(ll, dl, items, mid) && Expands(start, Meanings(items), now)
    requires mode == BAD || mode == NoInput || mode == NoSpace
    requires mode != NoInput ==> ItemOk(ll, dl, last) && mid == Spelled(ll, dl, last, rest)
    requires mode == BAD ==> Rejected(last, reach) && (|now| <= reach || W_SIZE <= reach)
    requires mode == NoInput ==> NoItem(ll, dl, mid)
    requires mode == NoSpace ==> HasMeaning(last) && (ValidToken(now, Meaning(last)) ==> |Apply(now, Meaning(last))| > space)
    ensures DataFails(mode, ll, dl, all, start, space)
  {
    hide Accepted, ItemsOk, ItemOk, Spelled, SpelledAll, Expands, Apply, DataReads, NoItem, Rejected, HasMeaning, ValidToken;
    forall data: seq<Item>, rest': BitString, result: seq<byte> | DataReads(ll, dl, all, start, data, rest', result)
      ensures mode == NoSpace && |result| > space
    {
      DataLeft(ll, dl, items, all, mid, start, now, data, rest', result);
      StopsHere(mode, ll, dl, mid, now, last, rest, reach, space, data[|items|..], rest', result);
    }
  }

  /** What a run has read when it ends with the block, or in error. */
  lemma RunEnds(ll: seq<nat>, dl: seq<nat>, items: seq<Item>, mode: Mode, last: Item, all: BitString, rest: BitString, start: seq<byte>, now: seq<byte>,
                reach: nat, space: nat)
    requires Accepted(ll) && Accepted(dl) && Used(ll, END_BLOCK) && ReadUpTo(ll, dl, items, mode, last, all, rest) && Expands(start, Meanings(items), now)
    requires mode == BAD ==> Rejected(last, reach) && (|now| <= reach || W_SIZE <= reach)
    ensures mode == TYPE ==> DataReads(ll, dl, all, start, items, rest, now)
    ensures mode == BAD ==> DataFails(mode, ll, dl, all, start, space)
  {
    hide Accepted, ItemsOk, ItemOk, Spelled, SpelledAll, Expands, DataFails, Rejected;
    if mode == BAD {
      Failing(mode, ll, dl, items, all, Spelled(ll, dl, last, rest), start, now, last, rest, reach, space);
    }
  }

  lemma ProgressFacts(ll: seq<nat>, dl: seq<nat>, items: seq<Item>, history: seq<byte>, was: seq<byte>, out: seq<byte>, put0: nat, put: nat)
    requires Progress(ll, dl, items, history, was, out, put0, put)
    ensures ItemsOk(ll, dl, items) && put0 <= put <= |out| == |was| && out[..put0] == was[..put0]
    ensures Expands(InflateCopy.Output(history, was, 0, put0), Meanings(items), InflateCopy.Output(history, out, 0, put))
  {
  }

  lemma EnoughReach(window: seq<byte>, wnext: nat, whave: nat, history: seq<byte>, put: nat)
    requires Holds(window, wnext, whave, history) && W_SIZE <= |window|
    ensures |history| + put <= whave + put || W_SIZE <= whave + put
  {
  }
}
