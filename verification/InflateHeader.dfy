/** The TABLE, LENLENS and CODELENS states of inflate.c: the header of a dynamic block, from any input. */
module InflateHeader {
  import opened Sums
  import opened BitStreams
  import opened BitReader
  import opened CanonicalCode
  import opened DecodeTable
  import opened InfTrees
  import opened TokenCodes
  import opened InflateItems
  import opened InflateBlock
  import opened CodeRuns
  import opened InflateLens
  import opened DynamicHeader

  // ----- What the bits spell -----

  /** What a header says: the counts, the lengths of the bit length code in their order, the runs, and the
      lengths of both codes that the runs give. */
  datatype Header = Header(nlen: nat, ndist: nat, vals: seq<nat>, runs: seq<Run>, lens: seq<nat>)

  /** The lengths of the bit length code by symbol; those not sent are zero. */
  function BlLens(vals: seq<nat>): (r: seq<nat>)
    ensures |r| == BL_CODES && forall s :: 0 <= s < BL_CODES ==> r[s] == if Place(s) < |vals| then vals[Place(s)] else 0
  {
    seq(BL_CODES, s requires 0 <= s < BL_CODES => if Place(s) < |vals| then vals[Place(s)] else 0)
  }

  predicate ValsOk(vals: seq<nat>) {
    forall i :: 0 <= i < |vals| ==> vals[i] < 8
  }

  ghost predicate CountsOk(h: Header) {
    257 <= h.nlen <= 286 && 1 <= h.ndist <= 30 && 4 <= |h.vals| <= BL_CODES
  }

  ghost predicate HeaderOk(h: Header) {
    && CountsOk(h) && ValsOk(h.vals) && Space(BlLens(h.vals)) == Pow2(MAXBITS)
    && RunsOk(BlLens(h.vals), h.runs) && Expand([], h.runs, h.nlen + h.ndist) == Lengths(h.lens) && |h.lens| == h.nlen + h.ndist
    && h.lens[END_BLOCK] != 0
  }

  ghost function ValsSpelled(vals: seq<nat>, rest: BitString): BitString {
    if vals == [] then rest else ValsSpelled(vals[..|vals| - 1], Cat(BitString(vals[|vals| - 1], 3), rest))
  }

  ghost function CountsSpelled(h: Header, rest: BitString): BitString
    requires CountsOk(h)
  {
    Cat(BitString(h.nlen - 257, 5), Cat(BitString(h.ndist - 1, 5), Cat(BitString(|h.vals| - 4, 4), rest)))
  }

  ghost predicate HeaderReads(all: BitString, h: Header, rest: BitString) {
    HeaderOk(h) && all == CountsSpelled(h, ValsSpelled(h.vals, RunsSpelled(BlLens(h.vals), h.runs, rest)))
  }

  ghost predicate NoHeader(all: BitString) {
    forall h: Header, rest: BitString :: !HeaderReads(all, h, rest)
  }

  lemma {:induction false} FirstVal(vals: seq<nat>, rest: BitString)
    requires vals != []
    ensures ValsSpelled(vals, rest) == Cat(BitString(vals[0], 3), ValsSpelled(vals[1..], rest))
    decreases |vals|
  {
    hide Cat;
    var n := |vals| - 1;
    if n > 0 {
      FirstVal(vals[..n], Cat(BitString(vals[n], 3), rest));
      assert vals[..n][1..] == vals[1..][..n - 1];
    } else {
      assert vals[..0] == [] && vals[1..] == [];
    }
  }

  lemma MoreVals(vals: seq<nat>, v: nat, rest: BitString)
    ensures ValsSpelled(vals + [v], rest) == ValsSpelled(vals, Cat(BitString(v, 3), rest))
  {
    assert (vals + [v])[..|vals|] == vals;
  }

  lemma Powers()
    ensures Pow2(3) == 8 && Pow2(4) == 16 && Pow2(5) == 32
  {
  }

  /** The values read so far are the first of those in the header. */
  lemma {:induction false} ValsPrefix(done: seq<nat>, mid: BitString, vals: seq<nat>, rest: BitString)
    requires ValsOk(done) && ValsOk(vals) && |done| <= |vals| && ValsSpelled(done, mid) == ValsSpelled(vals, rest)
    ensures done == vals[..|done|] && mid == ValsSpelled(vals[|done|..], rest)
    decreases |done|
  {
    hide Cat, Pow2;
    var n := |done| - 1;
    if n < 0 {
      assert vals[0..] == vals;
    } else {
      ValsPrefix(done[..n], Cat(BitString(done[n], 3), mid), vals, rest);
      FirstVal(vals[n..], rest);
      Powers();
      NumberUnique(done[n], vals[n], 3, mid, ValsSpelled(vals[n..][1..], rest));
      assert vals[n..][1..] == vals[n + 1..] && done == done[..n] + [done[n]];
    }
  }

  lemma CountsUnique(h: Header, x: BitString, h': Header, y: BitString)
    requires CountsOk(h) && CountsOk(h') && CountsSpelled(h, x) == CountsSpelled(h', y)
    ensures h.nlen == h'.nlen && h.ndist == h'.ndist && |h.vals| == |h'.vals| && x == y
  {
    hide Cat, Pow2;
    Powers();
    var a, b := Cat(BitString(|h.vals| - 4, 4), x), Cat(BitString(|h'.vals| - 4, 4), y);
    NumberUnique(h.nlen - 257, h'.nlen - 257, 5, Cat(BitString(h.ndist - 1, 5), a), Cat(BitString(h'.ndist - 1, 5), b));
    NumberUnique(h.ndist - 1, h'.ndist - 1, 5, a, b);
    NumberUnique(|h.vals| - 4, |h'.vals| - 4, 4, x, y);
  }

  /** A header is spelled in one way only. */
  lemma HeaderUnique(all: BitString, h: Header, rest: BitString, h': Header, rest': BitString)
    requires HeaderReads(all, h, rest) && HeaderReads(all, h', rest')
    ensures h == h' && rest == rest'
  {
    hide CountsSpelled, ValsSpelled, RunsSpelled, RunsOk, Space, Expand, Accepted, Pow2;
    var bl := BlLens(h.vals);
    var x, y := RunsSpelled(bl, h.runs, rest), RunsSpelled(BlLens(h'.vals), h'.runs, rest');
    CountsUnique(h, ValsSpelled(h.vals, x), h', ValsSpelled(h'.vals, y));
    ValsPrefix(h.vals, x, h'.vals, y);
    assert h'.vals[..|h.vals|] == h'.vals && h'.vals[|h.vals|..] == [];
    NoVals(h'.vals[|h.vals|..], y);
    BlAccepted(h.vals);
    LensUnique(bl, h.nlen + h.ndist, x, h.runs, rest, h.lens, h'.runs, rest', h'.lens);
  }

  lemma NoVals(vals: seq<nat>, rest: BitString)
    requires vals == []
    ensures ValsSpelled(vals, rest) == rest
  {
  }

  lemma BlAccepted(vals: seq<nat>)
    requires ValsOk(vals) && Space(BlLens(vals)) == Pow2(MAXBITS)
    ensures Accepted(BlLens(vals))
  {
    hide Space;
  }

  /** What is known of every header when some of its values have been read. */
  lemma HeaderSoFar(all: BitString, nlen: nat, ndist: nat, ncode: nat, done: seq<nat>, mid: BitString, h: Header, rest: BitString)
    requires HeaderReads(all, h, rest) && 257 <= nlen < 289 && 1 <= ndist < 33 && 4 <= ncode < 20 && ValsOk(done) && |done| <= ncode
    requires all == Cat(BitString(nlen - 257, 5), Cat(BitString(ndist - 1, 5), Cat(BitString(ncode - 4, 4), ValsSpelled(done, mid))))
    ensures h.nlen == nlen && h.ndist == ndist && |h.vals| == ncode && done == h.vals[..|done|]
    ensures mid == ValsSpelled(h.vals[|done|..], RunsSpelled(BlLens(h.vals), h.runs, rest))
  {
    hide Cat, Pow2, ValsSpelled, RunsSpelled, RunsOk, Space, Expand;
    Powers();
    var x := ValsSpelled(h.vals, RunsSpelled(BlLens(h.vals), h.runs, rest));
    var a, b := Cat(BitString(|h.vals| - 4, 4), x), Cat(BitString(ncode - 4, 4), ValsSpelled(done, mid));
    NumberUnique(h.nlen - 257, nlen - 257, 5, Cat(BitString(h.ndist - 1, 5), a), Cat(BitString(ndist - 1, 5), b));
    NumberUnique(h.ndist - 1, ndist - 1, 5, a, b);
    NumberUnique(|h.vals| - 4, ncode - 4, 4, x, ValsSpelled(done, mid));
    ValsPrefix(done, mid, h.vals, RunsSpelled(BlLens(h.vals), h.runs, rest));
  }

  // ----- Reading -----

  ghost predicate CountsRead(all: BitString, nlen: nat, ndist: nat, ncode: nat, rest: BitString) {
    && 257 <= nlen < 289 && 1 <= ndist < 33 && 4 <= ncode < 20
    && all == Cat(BitString(nlen - 257, 5), Cat(BitString(ndist - 1, 5), Cat(BitString(ncode - 4, 4), rest)))
  }

  lemma TooFewBits(all: BitString)
    requires all.n < 14
    ensures NoHeader(all)
  {
    hide Cat, HeaderReads, ValsSpelled, RunsSpelled, CountsOk;
    forall h: Header, rest: BitString | HeaderReads(all, h, rest) ensures false {
      HeaderHas(all, h, rest);
      var x := ValsSpelled(h.vals, RunsSpelled(BlLens(h.vals), h.runs, rest));
      CountsSize(h, x);
    }
  }

  lemma HeaderHas(all: BitString, h: Header, rest: BitString)
    requires HeaderReads(all, h, rest)
    ensures CountsOk(h) && RunsOk(BlLens(h.vals), h.runs)
    ensures all == CountsSpelled(h, ValsSpelled(h.vals, RunsSpelled(BlLens(h.vals), h.runs, rest)))
  {
  }

  lemma CountsSize(h: Header, x: BitString)
    requires CountsOk(h)
    ensures CountsSpelled(h, x).n == 14 + x.n
  {
    hide Cat;
    var c := Cat(BitString(|h.vals| - 4, 4), x);
    CatSize(BitString(|h.vals| - 4, 4), x);
    CatSize(BitString(h.ndist - 1, 5), c);
    CatSize(BitString(h.nlen - 257, 5), Cat(BitString(h.ndist - 1, 5), c));
  }

  /** The TABLE state: the three counts. */
  method ReadCounts(br: Reader) returns (mode: Mode, nlen: nat, ndist: nat, ncode: nat)
    requires br.Valid() && br.bits < 8
    modifies br
    ensures br.Valid() && br.Consumed() >= old(br.Consumed()) && (mode == LEN || mode == BAD || mode == NoInput)
    ensures mode == LEN ==> br.bits < 8 && nlen <= 286 && ndist <= 30 && CountsRead(old(br.Rest()), nlen, ndist, ncode, br.Rest())
    ensures mode != LEN ==> NoHeader(old(br.Rest()))
  {
    hide Cat, Pow2, OfBytes, DropFirst, NoHeader;
    ghost var all := br.Rest();
    nlen, ndist, ncode := 257, 1, 4;
    var ok := br.NeedBits(14);
    br.AllIn();
    if !ok {
      TooFewBits(all);
      return NoInput, nlen, ndist, ncode;
    }
    Powers();
    var v;
    ok, v := br.TakeBits(5);
    nlen := v + 257;
    ghost var one := br.Rest();
    CatSize(BitString(v, 5), one);
    ok, v := br.TakeBits(5);
    ndist := v + 1;
    ghost var two := br.Rest();
    CatSize(BitString(v, 5), two);
    ok, v := br.TakeBits(4);
    ncode := v + 4;
    mode := LEN;
    if nlen > 286 || ndist > 30 {
      TooMany(all, nlen, ndist, ncode, br.Rest());
      mode := BAD;
    }
  }

  lemma TooMany(all: BitString, nlen: nat, ndist: nat, ncode: nat, rest: BitString)
    requires CountsRead(all, nlen, ndist, ncode, rest) && (nlen > 286 || ndist > 30)
    ensures NoHeader(all)
  {
    hide HeaderReads, Cat;
    forall h: Header, r: BitString | HeaderReads(all, h, r) ensures false {
      NoVals([], rest);
      HeaderSoFar(all, nlen, ndist, ncode, [], rest, h, r);
      CountsInRange(all, h, r);
    }
  }

  lemma CountsInRange(all: BitString, h: Header, rest: BitString)
    requires HeaderReads(all, h, rest)
    ensures h.nlen <= 286 && h.ndist <= 30
  {
  }

  /** The first n values are in their places. */
  ghost predicate Placed(lens: seq<nat>, vals: seq<nat>, n: nat) {
    |lens| >= BL_CODES && |vals| <= n <= BL_CODES && forall i :: 0 <= i < n ==> lens[Order(i)] == if i < |vals| then vals[i] else 0
  }

  lemma PlaceOne(lens: seq<nat>, vals: seq<nat>, n: nat, v: nat)
    requires Placed(lens, vals, n) && n < BL_CODES
    ensures |vals| == n ==> Placed(lens[Order(n) := v], vals + [v], n + 1)
    ensures v == 0 ==> Placed(lens[Order(n) := v], vals, n + 1)
  {
    forall i | 0 <= i < n
      ensures Order(i) != Order(n)
    {
      OrderPlace(0, i);
      OrderPlace(0, n);
    }
  }

  lemma AllPlaced(lens: seq<nat>, vals: seq<nat>)
    requires Placed(lens, vals, BL_CODES)
    ensures lens[..BL_CODES] == BlLens(vals)
  {
    forall s | 0 <= s < BL_CODES
      ensures lens[s] == BlLens(vals)[s]
    {
      OrderPlace(s, 0);
      assert lens[Order(Place(s))] == if Place(s) < |vals| then vals[Place(s)] else 0;
    }
  }

  lemma NoMoreVals(all: BitString, nlen: nat, ndist: nat, ncode: nat, done: seq<nat>, mid: BitString)
    requires CountsRead(all, nlen, ndist, ncode, ValsSpelled(done, mid)) && ValsOk(done) && |done| < ncode && mid.n < 3
    ensures NoHeader(all)
  {
    hide HeaderReads, Cat, ValsSpelled, RunsSpelled;
    forall h: Header, rest: BitString | HeaderReads(all, h, rest) ensures false {
      HeaderSoFar(all, nlen, ndist, ncode, done, mid, h, rest);
      HeaderHas(all, h, rest);
      var more, x := h.vals[|done|..], RunsSpelled(BlLens(h.vals), h.runs, rest);
      FirstVal(more, x);
      CatSize(BitString(more[0], 3), ValsSpelled(more[1..], x));
    }
  }

  /** LENLENS: reads the lengths of the bit length code. */
  method ReadVals(br: Reader, lens: array<nat>, nlen: nat, ndist: nat, ncode: nat, ghost all: BitString) returns (mode: Mode, ghost vals: seq<nat>)
    requires br.Valid() && br.bits < 8 && ncode <= BL_CODES <= lens.Length && CountsRead(all, nlen, ndist, ncode, br.Rest())
    modifies br, lens
    ensures br.Valid() && br.Consumed() >= old(br.Consumed()) && (mode == LEN || mode == NoInput)
    ensures mode == LEN ==> br.bits < 8 && ValsOk(vals) && |vals| == ncode && CountsRead(all, nlen, ndist, ncode, ValsSpelled(vals, br.Rest()))
    ensures mode == LEN ==> lens[..BL_CODES] == BlLens(vals)
    ensures mode != LEN ==> NoHeader(all)
  {
    hide Cat, Pow2, OfBytes, DropFirst, NoHeader, Placed, Order, CountsRead, BlLens, ValsSpelled;
    var have: nat := 0;
    vals := [];
    mode := LEN;
    NoVals(vals, br.Rest());
    NonePlaced(lens[..]);
    CountsRange(all, nlen, ndist, ncode, br.Rest());
    while have < ncode && mode == LEN
      invariant have <= ncode && br.Valid() && br.Consumed() >= old(br.Consumed()) && (mode == LEN || mode == NoInput)
      invariant mode == LEN ==> br.bits < 8 && ValsOk(vals) && |vals| == have && CountsRead(all, nlen, ndist, ncode, ValsSpelled(vals, br.Rest()))
      invariant Placed(lens[..], vals, have) && (mode != LEN ==> NoHeader(all))
      decreases ncode - have, mode == LEN
    {
      ghost var mid := br.Rest();
      var ok, v := br.TakeBits(3);
      if ok {
        Powers();
        PlaceOne(lens[..], vals, have, v);
        MoreVals(vals, v, br.Rest());
        vals := vals + [v];
        lens[Order(have)] := v;
        have := have + 1;
      } else {
        NoMoreVals(all, nlen, ndist, ncode, vals, mid);
        mode := NoInput;
      }
    }
    if mode == LEN {
      while have < BL_CODES
        invariant ncode <= have <= BL_CODES && Placed(lens[..], vals, have) && br.Valid() && br.Consumed() >= old(br.Consumed()) && br.bits < 8
        invariant CountsRead(all, nlen, ndist, ncode, ValsSpelled(vals, br.Rest()))
      {
        PlaceOne(lens[..], vals, have, 0);
        lens[Order(have)] := 0;
        have := have + 1;
      }
      AllPlaced(lens[..], vals);
    }
  }

  lemma NonePlaced(lens: seq<nat>)
    requires |lens| >= BL_CODES
    ensures Placed(lens, [], 0)
  {
  }

  lemma CountsRange(all: BitString, nlen: nat, ndist: nat, ncode: nat, rest: BitString)
    requires CountsRead(all, nlen, ndist, ncode, rest)
    ensures 257 <= nlen < 289 && 1 <= ndist < 33 && 4 <= ncode < 20
  {
  }

  /** Why there is no header although its values have been read. */
  lemma NoLensNoHeader(all: BitString, nlen: nat, ndist: nat, ncode: nat, vals: seq<nat>, mid: BitString)
    requires CountsRead(all, nlen, ndist, ncode, ValsSpelled(vals, mid)) && ValsOk(vals) && |vals| == ncode
    requires Space(BlLens(vals)) != Pow2(MAXBITS) || NoLens(BlLens(vals), nlen + ndist, mid)
    ensures NoHeader(all)
  {
    hide HeaderReads, Cat, ValsSpelled, RunsSpelled, Space, LensReads, BlLens;
    forall h: Header, rest: BitString | HeaderReads(all, h, rest) ensures false {
      LensOf(all, nlen, ndist, ncode, vals, mid, h, rest);
    }
  }

  lemma LensOf(all: BitString, nlen: nat, ndist: nat, ncode: nat, vals: seq<nat>, mid: BitString, h: Header, rest: BitString)
    requires CountsRead(all, nlen, ndist, ncode, ValsSpelled(vals, mid)) && ValsOk(vals) && |vals| == ncode && HeaderReads(all, h, rest)
    ensures h.vals == vals && h.nlen == nlen && h.ndist == ndist && Space(BlLens(vals)) == Pow2(MAXBITS)
    ensures LensReads(BlLens(vals), nlen + ndist, mid, h.runs, rest, h.lens) && |h.lens| > END_BLOCK && h.lens[END_BLOCK] != 0
  {
    hide Cat, ValsSpelled, RunsSpelled, Space, RunsOk, Expand, CountsSpelled;
    HeaderSoFar(all, nlen, ndist, ncode, vals, mid, h, rest);
    assert h.vals[..|vals|] == h.vals && h.vals[|vals|..] == [];
    NoVals(h.vals[|vals|..], RunsSpelled(BlLens(h.vals), h.runs, rest));
  }

  lemma NoEndNoHeader(all: BitString, nlen: nat, ndist: nat, ncode: nat, vals: seq<nat>, mid: BitString, runs: seq<Run>, rest: BitString, lens: seq<nat>)
    requires CountsRead(all, nlen, ndist, ncode, ValsSpelled(vals, mid)) && ValsOk(vals) && |vals| == ncode
    requires LensReads(BlLens(vals), nlen + ndist, mid, runs, rest, lens) && nlen > END_BLOCK && lens[END_BLOCK] == 0
    ensures NoHeader(all)
  {
    hide HeaderReads, Cat, ValsSpelled, RunsSpelled, Space, LensReads, BlLens;
    forall h: Header, rest': BitString | HeaderReads(all, h, rest') ensures false {
      LensOf(all, nlen, ndist, ncode, vals, mid, h, rest');
      BlAccepted(vals);
      LensUnique(BlLens(vals), nlen + ndist, mid, runs, rest, lens, h.runs, rest', h.lens);
    }
  }

  lemma HeaderRead(all: BitString, nlen: nat, ndist: nat, ncode: nat, vals: seq<nat>, mid: BitString, runs: seq<Run>, rest: BitString, lens: seq<nat>)
    requires CountsRead(all, nlen, ndist, ncode, ValsSpelled(vals, mid)) && ValsOk(vals) && |vals| == ncode <= BL_CODES && nlen <= 286 && ndist <= 30
    requires Space(BlLens(vals)) == Pow2(MAXBITS)
    requires LensReads(BlLens(vals), nlen + ndist, mid, runs, rest, lens) && lens[END_BLOCK] != 0
    ensures HeaderReads(all, Header(nlen, ndist, vals, runs, lens), rest)
  {
    hide Cat, ValsSpelled, RunsSpelled, Space, BlLens, Expand, RunsOk;
  }

  /** TABLE, LENLENS and CODELENS, up to the check of the end-of-block code: the lengths of both codes. It
      succeeds exactly if the bits spell a header. */
  method ReadHeader(br: Reader, lens: array<nat>, codes: array<Entry>, work: array<nat>) returns (mode: Mode, nlen: nat, ndist: nat, ghost h: Header)
    requires br.Valid() && br.bits < 8 && lens.Length >= 320 && codes.Length >= 128 && work.Length >= 288 && work != lens
    modifies br, lens, codes, work
    ensures br.Valid() && br.Consumed() >= old(br.Consumed()) && (mode == LEN || mode == BAD || mode == NoInput)
    ensures mode == LEN ==> br.bits < 8 && HeaderReads(old(br.Rest()), h, br.Rest())
    ensures mode == LEN ==> nlen == h.nlen <= 286 && ndist == h.ndist <= 30 && lens[..nlen + ndist] == h.lens
    ensures mode != LEN ==> NoHeader(old(br.Rest()))
  {
    hide Cat, Pow2, OfBytes, DropFirst, NoHeader, CountsRead, BlLens, ValsSpelled, Space, NoCodes, LoneCode, Usable, LensReads, NoLens, HeaderReads;
    ghost var all := br.Rest();
    h := Header(0, 0, [], [], []);
    var ncode;
    mode, nlen, ndist, ncode := ReadCounts(br);
    if mode != LEN {
      return;
    }
    CountsRange(all, nlen, ndist, ncode, br.Rest());
    ghost var vals;
    mode, vals := ReadVals(br, lens, nlen, ndist, ncode, all);
    if mode != LEN {
      return;
    }
    ghost var mid := br.Rest();
    BlShort(vals);
    Sizes();
    var ret, root, used := InflateTable(CODES, lens, BL_CODES, codes, 7, work);
    if ret != 0 {
      NoLensNoHeader(all, nlen, ndist, ncode, vals, mid);
      return BAD, nlen, ndist, h;
    }
    OnlyOneFull(BlLens(vals));
    ghost var runs;
    mode, runs := DecodeLens(br, codes[..], root, BlLens(vals), lens, nlen + ndist);
    if mode != LEN {
      NoLensNoHeader(all, nlen, ndist, ncode, vals, mid);
      return;
    }
    if lens[256] == 0 {
      if NoCodes(BlLens(vals)) {
        NoLensNoHeader(all, nlen, ndist, ncode, vals, mid);
      } else {
        NoEndNoHeader(all, nlen, ndist, ncode, vals, mid, runs, br.Rest(), lens[..nlen + ndist]);
      }
      return BAD, nlen, ndist, h;
    }
    h := Header(nlen, ndist, vals, runs, lens[..nlen + ndist]);
    HeaderRead(all, nlen, ndist, ncode, vals, mid, runs, br.Rest(), lens[..nlen + ndist]);
  }

  lemma BlShort(vals: seq<nat>)
    requires ValsOk(vals)
    ensures ValidLengths(BlLens(vals)) && forall s :: 0 <= s < BL_CODES ==> BlLens(vals)[s] <= 7
  {
  }

  lemma Sizes()
    ensures Pow2(7) == 128
  {
    assert Pow2(5) == 32;
  }

  /** A complete code has codes. */
  lemma OnlyOneFull(ls: seq<nat>)
    requires ValidLengths(ls)
    ensures Space(ls) == Pow2(MAXBITS) ==> !NoCodes(ls)
  {
    if NoCodes(ls) {
      EmptySpace(ls, |ls|);
    }
  }
}
