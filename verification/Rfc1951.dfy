/** The numbers of RFC 1951, written out, against the definitions that the encoder and the decoder share; and
    small streams whose meaning is known. */
module Rfc1951 {
  import opened Sums
  import opened Bits
  import opened BitReverse
  import opened Blocks
  import opened BitStreams
  import Lz77
  import DeflateSlow
  import opened CanonicalCode
  import opened DecodeTable
  import opened CodeSymbols
  import opened CodeRuns
  import opened CodeItems
  import opened TokenCodes
  import opened BlockTrees
  import opened StaticTrees
  import opened BlockKinds
  import opened BitWriter
  import opened DynamicHeader
  import opened BlockData
  import opened FlushBlocks
  import opened InflateItems
  import opened InflateLens
  import opened InflateHeader
  import opened InflateStream

  // ----- Section 3.2.3: the head of a block -----

  lemma LowThree(y: nat)
    ensures Low(y, 3) == y % 8
  {
    hide Low, Shr, Shl;
    Split(y, 3);
    var q := Shr(y, 3);
    Shifts(q);
    assert Pow2(3) == 8;
  }

  lemma ThreeFirst(x: nat, rest: BitString)
    requires x < 8
    ensures Cat(BitString(x, 3), rest).n >= 3 && Cat(BitString(x, 3), rest).v % 8 == x
  {
    Shifts(rest.v);
  }

  /** The first bit tells the last block, the next two its kind. */
  lemma BlockHead(all: BitString, start: seq<Lz77.byte>, last: bool, b: Syntax, rest: BitString, result: seq<Lz77.byte>)
    requires BlockReads(all, start, last, b, rest, result)
    ensures all.n >= 3 && (last <==> all.v % 2 == 1)
    ensures all.v / 2 % 4 == match b case StoredBlock(_, _) => 0 case FixedBlock(_) => 1 case DynamicBlock(_, _, _) => 2
  {
    hide Low, BodyReads;
    LowThree(all.v);
  }

  /** So does the encoder. */
  lemma FormHead(f: Form, st: Statics, tokens: seq<Lz77.Token>, last: bool, pos: nat)
    requires StaticsOk(st) && FormOk(f, st, tokens)
    ensures var bits := FormBits(f, st, tokens, last, pos);
      && bits.n >= 3 && (last <==> bits.v % 2 == 1)
      && bits.v / 2 % 4 == match f case Stored(_) => 0 case Static => 1 case Dynamic(_) => 2
  {
    hide StaticsOk, FormOk, Cat, FormBits;
    var rest := AfterHead(f, st, tokens, last, pos);
    ThreeFirst(2 * (match f case Stored(_) => 0 case Static => 1 case Dynamic(_) => 2) + LastBit(last), rest);
  }

  lemma AfterHead(f: Form, st: Statics, tokens: seq<Lz77.Token>, last: bool, pos: nat) returns (rest: BitString)
    requires StaticsOk(st) && FormOk(f, st, tokens)
    ensures FormBits(f, st, tokens, last, pos) == Cat(BitString(2 * (match f case Stored(_) => 0 case Static => 1 case Dynamic(_) => 2) + LastBit(last), 3), rest)
  {
    hide StaticsOk, EncodingOk, Coded, TablesOk, Cat, OfBytes, DataBits, HeaderBits, TokensOk, Padding, TreesOk, CodeOk;
    StaticsFacts(st);
    match f
    case Stored(bytes) =>
      rest := Cat(BitString(0, Padding(pos + 3)), OfBytes(StoredHead(|bytes|) + bytes));
    case Static =>
      rest := DataBits(st.t, st.lc, st.dc, tokens, 0);
    case Dynamic(e) =>
      EncodingFacts(e, st.t, tokens);
      rest := Cat(HeaderBits(e.trees), DataBits(st.t, e.lc, e.dc, tokens, 0));
  }

  // ----- Section 3.2.2: codes from lengths -----

  /** Where the codes of each length begin, from the counts, and which one a symbol has. */
  lemma ValueOf(lens: seq<nat>, s: nat, b: nat)
    requires s < |lens| && lens[s] == b && 1 <= b <= MAXBITS
    ensures CodeValue(lens, s) == Shr(Boundary(lens, b, 0) + Shl(CountLen(lens, b, s), MAXBITS - b), MAXBITS - b)
  {
    hide Below, Shl, Shr, CountLen;
    BoundaryCount(lens, b, s);
  }

  /** Codes of one length. */
  lemma CodeAt(lens: seq<nat>, s: nat, b: nat, first: nat, n: nat)
    requires s < |lens| && lens[s] == b && 1 <= b <= MAXBITS
    requires Boundary(lens, b, 0) == Shl(first, MAXBITS - b) && CountLen(lens, b, s) == n
    ensures CodeValue(lens, s) == first + n
  {
    hide Below, Shl, Shr, CountLen, Boundary;
    ValueOf(lens, s, b);
    ShlAdd(first, n, MAXBITS - b);
    assert Pow2(MAXBITS - b) >= 1;
    Join(first + n, 0, MAXBITS - b);
  }

  /** The first code of the next length: twice the one behind the last code of this one. */
  lemma NextFirst(lens: seq<nat>, b: nat, first: nat, n: nat)
    requires 1 <= b < MAXBITS && Boundary(lens, b, 0) == Shl(first, MAXBITS - b) && CountLen(lens, b, |lens|) == n
    ensures Boundary(lens, b + 1, 0) == Shl(2 * (first + n), MAXBITS - (b + 1))
  {
    hide Below, CountLen, Boundary;
    BoundaryNextLen(lens, b);
    ShlAdd(first, n, MAXBITS - b);
    ShlShl(first + n, 1, MAXBITS - b - 1);
    assert Shl(first + n, 1) == 2 * (first + n);
  }

  lemma FirstOne(lens: seq<nat>)
    ensures Boundary(lens, 1, 0) == Shl(0, MAXBITS - 1)
  {
    BelowNone(lens, true, |lens|);
    ShlAdd(0, 0, MAXBITS - 1);
  }

  ghost predicate ExampleLens(lens: seq<nat>) {
    |lens| == 8 && (forall i :: 0 <= i < 5 ==> lens[i] == 3) && lens[5] == 2 && lens[6] == lens[7] == 4
  }

  /** The example: A to H with the lengths 3, 3, 3, 3, 3, 2, 4, 4 have the codes 010, 011, 100, 101, 110, 00, 1110, 1111. */
  lemma Example(lens: seq<nat>)
    requires ExampleLens(lens)
    ensures forall s :: 0 <= s < 5 ==> CodeValue(lens, s) == 2 + s
    ensures CodeValue(lens, 5) == 0 && CodeValue(lens, 6) == 14 && CodeValue(lens, 7) == 15
  {
    hide Boundary, Shl, CodeValue, CountLen;
    ExampleCounts(lens);
    FirstOne(lens);
    NextFirst(lens, 1, 0, 0);
    NextFirst(lens, 2, 0, 1);
    NextFirst(lens, 3, 2, 5);
    forall s | 0 <= s < 5 ensures CodeValue(lens, s) == 2 + s {
      CodeAt(lens, s, 3, 2, s);
    }
    CodeAt(lens, 5, 2, 0, 0);
    CodeAt(lens, 6, 4, 14, 0);
    CodeAt(lens, 7, 4, 14, 1);
  }

  lemma ExampleCounts(lens: seq<nat>)
    requires ExampleLens(lens)
    ensures CountLen(lens, 1, 8) == 0 && CountLen(lens, 2, 8) == 1 && CountLen(lens, 3, 8) == 5
    ensures forall k :: 0 <= k <= 5 ==> CountLen(lens, 3, k) == k
    ensures CountLen(lens, 2, 5) == 0 && CountLen(lens, 4, 6) == 0 && CountLen(lens, 4, 7) == 1
  {
    hide CountLen;
    forall k | 0 <= k <= 5 ensures CountLen(lens, 3, k) == k {
      NoCount(lens, 3);
      CountRange(lens, 0, k, 3, 3);
    }
    Stretches(lens, 1);
    Stretches(lens, 2);
    Stretches(lens, 3);
    Stretches(lens, 4);
  }

  lemma Stretches(lens: seq<nat>, c: nat)
    requires ExampleLens(lens)
    ensures CountLen(lens, c, 5) == if c == 3 then 5 else 0
    ensures CountLen(lens, c, 6) == if c == 3 then 5 else if c == 2 then 1 else 0
    ensures CountLen(lens, c, 7) == if c == 3 then 5 else if c == 2 || c == 4 then 1 else 0
    ensures CountLen(lens, c, 8) == if c == 3 then 5 else if c == 2 then 1 else if c == 4 then 2 else 0
  {
    hide CountLen;
    NoCount(lens, c);
    CountRange(lens, 0, 5, 3, c);
    CountRange(lens, 5, 6, 2, c);
    CountRange(lens, 6, 7, 4, c);
    CountRange(lens, 7, 8, 4, c);
  }

  // ----- Section 3.2.6: the fixed codes -----

  /** 00110000 to 10111111, 110010000 to 111111111, 0000000 to 0010111, 11000000 to 11000111; and five bits each. */
  lemma FixedCodes(s: nat)
    requires s < 288
    ensures FixedLL()[s] == (if s <= 143 then 8 else if s <= 255 then 9 else if s <= 279 then 7 else 8)
    ensures CodeValue(FixedLL(), s) == (if s <= 143 then 48 + s else if s <= 255 then 400 + (s - 144) else if s <= 279 then s - 256 else 192 + (s - 280))
    ensures s < 32 ==> FixedDL()[s] == 5 && CodeBits(FixedDL(), s) == Rev(s, 5)
  {
    hide Boundary, Below, Shl, Pow2, CountLen, CodeValue, Rev, CodeBits;
    var lens := FixedLL();
    StaticSpace(lens);
    FirstOne(lens);
    NextFirst(lens, 1, 0, 0);
    NextFirst(lens, 2, 0, 0);
    NextFirst(lens, 3, 0, 0);
    NextFirst(lens, 4, 0, 0);
    NextFirst(lens, 5, 0, 0);
    NextFirst(lens, 6, 0, 0);
    NextFirst(lens, 7, 0, 24);
    NextFirst(lens, 8, 48, 152);
    var n := if s <= 143 then s else if s <= 255 then s - 144 else if s <= 279 then s - 256 else s - 136;
    FixedCount(s, n);
    CodeAt(lens, s, lens[s], if lens[s] == 8 then 48 else if lens[s] == 9 then 400 else 0, n);
    if s < 32 {
      FiveBits(FixedDL(), s);
    }
  }

  lemma FixedCount(s: nat, n: nat)
    requires s < 288 && n == if s <= 143 then s else if s <= 255 then s - 144 else if s <= 279 then s - 256 else s - 136
    ensures CountLen(FixedLL(), FixedLL()[s], s) == n
  {
    hide CountLen;
    var lens := FixedLL();
    var c := lens[s];
    NoCount(lens, c);
    if s <= 143 {
      CountRange(lens, 0, s, 8, c);
    } else {
      CountRange(lens, 0, 144, 8, c);
      if s <= 255 {
        CountRange(lens, 144, s, 9, c);
      } else {
        CountRange(lens, 144, 256, 9, c);
        if s <= 279 {
          CountRange(lens, 256, s, 7, c);
        } else {
          CountRange(lens, 256, 280, 7, c);
          CountRange(lens, 280, s, 8, c);
        }
      }
    }
  }

  // ----- Section 3.2.5: lengths and distances -----

  lemma FirstPowers()
    ensures Pow2(0) == 1 && Pow2(1) == 2 && Pow2(2) == 4 && Pow2(3) == 8 && Pow2(4) == 16 && Pow2(5) == 32 && Pow2(6) == 64
    ensures Pow2(7) == 128 && Pow2(8) == 256 && Pow2(9) == 512 && Pow2(10) == 1024 && Pow2(11) == 2048 && Pow2(12) == 4096 && Pow2(13) == 8192
  {
  }

  /** What the symbols 257 to 285 stand for, and how many extra bits follow them. */
  lemma LengthTable(sym: nat, x: nat)
    requires 257 <= sym < 286
    ensures LenBitsOf(sym) == [0, 0, 0, 0, 0, 0, 0, 0, 1, 1, 1, 1, 2, 2, 2, 2, 3, 3, 3, 3, 4, 4, 4, 4, 5, 5, 5, 5, 0][sym - 257]
    ensures sym < 285 ==>
      LenOf(sym, x) == x + [3, 4, 5, 6, 7, 8, 9, 10, 11, 13, 15, 17, 19, 23, 27, 31, 35, 43, 51, 59, 67, 83, 99, 115, 131, 163, 195, 227][sym - 257]
    ensures LenOf(285, x) == 258
  {
    hide First, Extra;
    ExtraTables(sym - 257);
    if sym < 285 {
      BasesAndExtras(sym - 257);
    }
  }

  lemma DistTable(sym: nat, y: nat)
    requires sym < 30
    ensures Extra(true, sym) == [0, 0, 0, 0, 1, 1, 2, 2, 3, 3, 4, 4, 5, 5, 6, 6, 7, 7, 8, 8, 9, 9, 10, 10, 11, 11, 12, 12, 13, 13][sym]
    ensures DistOf(sym, y) == y +
      [1, 2, 3, 4, 5, 7, 9, 13, 17, 25, 33, 49, 65, 97, 129, 193, 257, 385, 513, 769,
       1025, 1537, 2049, 3073, 4097, 6145, 8193, 12289, 16385, 24577][sym]
  {
    hide First, Extra;
    ExtraTables(sym);
    BasesAndExtras(sym);
  }

  // ----- Section 3.2.7: the header of a dynamic block -----

  /** 5 bits HLIT, 5 bits HDIST and 4 bits HCLEN. */
  lemma HeaderCounts(all: BitString, h: Header, rest: BitString)
    requires HeaderReads(all, h, rest)
    ensures all.n >= 14 && all.v % 16384 == (h.nlen - 257) + 32 * (h.ndist - 1) + 1024 * (|h.vals| - 4)
  {
    hide ValsSpelled, RunsSpelled, Cat, RunsOk, CodeRuns.Expand, ValsOk, Space, BlLens;
    Fourteen(h.nlen - 257, h.ndist - 1, |h.vals| - 4, ValsSpelled(h.vals, RunsSpelled(BlLens(h.vals), h.runs, rest)));
  }

  lemma Fourteen(a: nat, b: nat, c: nat, tail: BitString)
    requires a < 32 && b < 32 && c < 16
    ensures var all := Cat(BitString(a, 5), Cat(BitString(b, 5), Cat(BitString(c, 4), tail)));
      all.n >= 14 && all.v % 16384 == a + 32 * b + 1024 * c
  {
    hide Shl;
    Shifts(tail.v);
    Shifts(c + 16 * tail.v);
    Shifts(b + 32 * (c + 16 * tail.v));
  }

  lemma Shifts(x: nat)
    ensures Shl(x, 3) == 8 * x && Shl(x, 4) == 16 * x && Shl(x, 5) == 32 * x && Shl(x, 7) == 128 * x && Shl(x, 8) == 256 * x
  {
    assert Shl(x, 1) == 2 * x && Shl(x, 2) == 4 * x && Shl(x, 3) == 8 * x && Shl(x, 4) == 16 * x;
    assert Shl(x, 5) == 32 * x && Shl(x, 6) == 64 * x && Shl(x, 7) == 128 * x;
  }

  /** 16 copies the previous length 3 to 6 times, by 2 bits; 17 and 18 repeat a zero 3 to 10 times, by 3 bits,
      and 11 to 138 times, by 7 bits. */
  lemma RepeatCodes(have: seq<nat>, v: nat, total: nat)
    requires |have| + 11 + v <= total
    ensures ExtraSize(16) == 2 && ExtraSize(17) == 3 && ExtraSize(18) == 7
    ensures forall len: nat :: len < 16 ==> ExtraSize(len) == 0 && CodeRuns.Apply(have, RunFor(len, v), total) == Lengths(have + [len])
    ensures have != [] ==> CodeRuns.Apply(have, RunFor(16, v), total) == Lengths(have + seq(3 + v, _ => have[|have| - 1]))
    ensures CodeRuns.Apply([], RunFor(16, v), total) == BadRepeat
    ensures CodeRuns.Apply(have, RunFor(17, v), total) == Lengths(have + seq(3 + v, _ => 0))
    ensures CodeRuns.Apply(have, RunFor(18, v), total) == Lengths(have + seq(11 + v, _ => 0))
  {
    if have != [] {
      assert Copies(have[|have| - 1], 3 + v) == seq(3 + v, _ => have[|have| - 1]);
    }
    assert Copies(0, 3 + v) == seq(3 + v, _ => 0) && Copies(0, 11 + v) == seq(11 + v, _ => 0);
  }

  /** How the encoder sends a stretch of equal lengths at the beginning of a tree. */
  lemma OneRun(len: nat, n: nat)
    requires n >= 1
    ensures len == 0 && 3 <= n <= 138 ==> Runs(Copies(0, n), 0, -1) == [Zeros(n)]
    ensures len > 0 && 4 <= n <= 7 ==> Runs(Copies(len, n), 0, -1) == [Len(len), Repeat(n - 1)]
    ensures n < 3 || (len > 0 && n == 3) ==> Runs(Copies(len, n), 0, -1) == seq(n, _ => Len(len))
  {
    hide CodeRuns.RunLength;
    if n <= (if len == 0 then 138 else 7) {
      var lens := Copies(len, n);
      assert CodeRuns.RunLength(lens, 0, MaxCount(-1, len)) == n;
      assert Runs(lens, n, len) == [];
      assert n < 3 || (len > 0 && n == 3) ==> Plain(len, n) == seq(n, _ => Len(len));
    }
  }

  // ----- Known streams -----

  /** One block. */
  lemma OneBlock(bytes: seq<byte>, b: Syntax, rest: BitString, data: seq<Lz77.byte>)
    requires BlockReads(OfBytes(bytes), [], true, b, rest, data)
    ensures Decodes(bytes, data)
  {
    hide BlockReads, OfBytes;
    IsDecoded(bytes, [b], [OfBytes(bytes), rest], [[], data]);
  }

  /** Codes that the streams use. */
  lemma FixedBits()
    ensures Used(FixedLL(), 97) && BitsOf(FixedLL(), Found(97)) == BitString(137, 8)
    ensures Used(FixedLL(), 256) && BitsOf(FixedLL(), Found(256)) == BitString(0, 7)
    ensures Used(FixedLL(), 273) && BitsOf(FixedLL(), Found(273)) == BitString(68, 7)
    ensures Used(FixedLL(), 285) && BitsOf(FixedLL(), Found(285)) == BitString(163, 8)
    ensures Used(FixedDL(), 0) && BitsOf(FixedDL(), Found(0)) == BitString(0, 5)
  {
    hide FixedLL, FixedDL, BitsOf, Rev;
    Reversed();
    FixedBitsOf(97, 145, 8);
    FixedBitsOf(256, 0, 7);
    FixedBitsOf(273, 17, 7);
    FixedBitsOf(285, 197, 8);
    FixedDistance();
  }

  lemma Reversed()
    ensures Rev(145, 8) == 137 && Rev(0, 7) == 0 && Rev(17, 7) == 68 && Rev(197, 8) == 163 && Rev(0, 5) == 0
  {
    hide Rev;
    ReversedLiteral();
    ReversedLength();
    ReversedZero();
  }

  lemma RevBit(code: nat, len: nat)
    requires len >= 1
    ensures Rev(code, len) == (if code % 2 == 1 then Pow2(len - 1) else 0) + Rev(code / 2, len - 1) && Rev(code / 2, 0) == 0
  {
  }

  lemma ReversedLiteral()
    ensures Rev(145, 8) == 137
  {
    hide Rev, Pow2;
    FirstPowers();
    RevBit(145, 8);
    RevBit(72, 7);
    RevBit(36, 6);
    RevBit(18, 5);
    RevBit(9, 4);
    RevBit(4, 3);
    RevBit(2, 2);
    RevBit(1, 1);
  }

  lemma ReversedLength()
    ensures Rev(197, 8) == 163 && Rev(17, 7) == 68
  {
    hide Rev, Pow2;
    FirstPowers();
    RevBit(197, 8);
    RevBit(98, 7);
    RevBit(49, 6);
    RevBit(24, 5);
    RevBit(12, 4);
    RevBit(6, 3);
    RevBit(3, 2);
    RevBit(1, 1);
    RevBit(17, 7);
    RevBit(8, 6);
    RevBit(4, 5);
    RevBit(2, 4);
    RevBit(1, 3);
    RevBit(0, 2);
    RevBit(0, 1);
  }

  lemma ReversedZero()
    ensures Rev(0, 7) == 0 && Rev(0, 5) == 0
  {
    hide Rev, Pow2;
    RevBit(0, 7);
    RevBit(0, 6);
    RevBit(0, 5);
    RevBit(0, 4);
    RevBit(0, 3);
    RevBit(0, 2);
    RevBit(0, 1);
  }

  lemma FixedBitsOf(s: nat, value: nat, n: nat)
    requires s < 288 && n == (if s <= 143 then 8 else if s <= 255 then 9 else if s <= 279 then 7 else 8)
    requires value == if s <= 143 then 48 + s else if s <= 255 then 400 + (s - 144) else if s <= 279 then s - 256 else 192 + (s - 280)
    ensures Used(FixedLL(), s) && BitsOf(FixedLL(), Found(s)) == BitString(Rev(value, n), n)
  {
    hide CodeValue, Rev;
    FixedCodes(s);
  }

  lemma FixedDistance()
    ensures Used(FixedDL(), 0) && BitsOf(FixedDL(), Found(0)) == BitString(Rev(0, 5), 5)
  {
    hide CodeBits, Rev;
    FixedCodes(0);
  }

  lemma Head(x: nat, body: BitString)
    requires x < 8
    ensures var all := Cat(BitString(x, 3), body); all.n >= 3 && Low(all.v, 3) == x && DropFirst(all, 3) == body
  {
    assert Pow2(3) == 8;
    CatParts(BitString(x, 3), body);
  }

  /** One block of the fixed codes. */
  lemma FixedStream(bytes: seq<byte>, items: seq<Item>, rest: BitString, data: seq<Lz77.byte>)
    requires ItemsOk(FixedLL(), FixedDL(), items) && Used(FixedLL(), END_BLOCK)
    requires OfBytes(bytes) == Cat(BitString(3, 3), DataSpelled(FixedLL(), FixedDL(), items, rest)) && Lz77.Expands([], Meanings(items), data)
    ensures Decodes(bytes, data)
  {
    hide FixedLL, FixedDL, DataSpelled, OfBytes, Cat, Decodes, Lz77.Expands, ItemsOk, Used, Low, DropFirst;
    Head(3, DataSpelled(FixedLL(), FixedDL(), items, rest));
    OneBlock(bytes, FixedBlock(items), rest, data);
  }

  const LetterA: Item := Lit(97)
  const Match258: Item := Pair(285, 0, 0, 0)
  const Match40: Item := Pair(273, 5, 0, 0)

  lemma SpellPlain(rest: BitString)
    ensures Used(FixedLL(), END_BLOCK) && ItemOk(FixedLL(), FixedDL(), End) && Spelled(FixedLL(), FixedDL(), End, rest) == Cat(BitString(0, 7), rest)
    ensures ItemOk(FixedLL(), FixedDL(), LetterA) && Spelled(FixedLL(), FixedDL(), LetterA, rest) == Cat(BitString(137, 8), rest)
  {
    hide FixedLL, FixedDL, BitsOf, Used, Cat;
    FixedBits();
  }

  lemma SpellMatches(rest: BitString)
    ensures ItemOk(FixedLL(), FixedDL(), Match258) && Spelled(FixedLL(), FixedDL(), Match258, rest) == Cat(BitString(163, 8), Cat(BitString(0, 5), rest))
    ensures ItemOk(FixedLL(), FixedDL(), Match40)
    ensures Spelled(FixedLL(), FixedDL(), Match40, rest) == Cat(BitString(68, 7), Cat(BitString(5, 3), Cat(BitString(0, 5), rest)))
  {
    hide FixedLL, FixedDL, BitsOf, Used, Cat;
    FixedBits();
    FirstPowers();
    CatEmpty(rest);
    CatEmpty(Cat(BitString(0, 5), rest));
  }

  lemma SpelledFirst(ll: seq<nat>, dl: seq<nat>, items: seq<Item>, rest: BitString)
    requires ItemsOk(ll, dl, items)
    ensures items == [] ==> SpelledAll(ll, dl, items, rest) == rest
    ensures items != [] ==> ItemOk(ll, dl, items[0]) && ItemsOk(ll, dl, items[1..])
    ensures items != [] ==> SpelledAll(ll, dl, items, rest) == Spelled(ll, dl, items[0], SpelledAll(ll, dl, items[1..], rest))
  {
    hide ItemOk, Spelled;
    if items != [] {
      FirstItem(ll, dl, items, rest);
    }
  }

  /** The empty stream. */
  lemma KnownEmpty()
    ensures Decodes([0x03, 0x00], [])
  {
    hide FixedLL, FixedDL, Spelled, Used, ItemOk, Decodes, OfBytes, Shl;
    var rest := BitString(0, 6);
    SpellPlain(rest);
    Shifts(0);
    ShlAdd(0, 0, 7);
    TwoBytes(3, 0);
    FixedStream([0x03, 0x00], [], rest, []);
  }

  /** One letter. */
  lemma KnownLetter()
    ensures Decodes([0x4B, 0x04, 0x00], [97])
  {
    hide FixedLL, FixedDL, Spelled, Used, ItemOk, Decodes, OfBytes, Shl;
    var rest := BitString(0, 6);
    SpellPlain(rest);
    SpellPlain(BitString(0, 13));
    Shifts(0);
    Shifts(137);
    ThreeBytes(0x4B, 0x04, 0x00);
    SpelledFirst(FixedLL(), FixedDL(), [LetterA], BitString(0, 13));
    assert [LetterA][1..] == [];
    SpelledFirst(FixedLL(), FixedDL(), [], BitString(0, 13));
    assert Meanings([LetterA]) == [Lz77.Literal(97)];
    assert [Lz77.Literal(97)][1..] == [];
    FixedStream([0x4B, 0x04, 0x00], [LetterA], rest, [97]);
  }

  lemma ThreeBytes(a: byte, b: byte, c: byte)
    ensures OfBytes([a, b, c]) == BitString(a + 256 * b + 65536 * c, 24)
  {
    assert [a, b, c][1..] == [b, c];
    TwoBytes(b, c);
    Shifts(b + 256 * c);
  }

  lemma SevenBytes(a: byte, b: byte, c: byte, d: byte, e: byte, f: byte, g: byte)
    ensures OfBytes([a, b, c, d, e, f, g]) == BitString(a + 256 * b + 65536 * (c + 256 * d + 65536 * (e + 256 * f + 65536 * g)), 56)
  {
    hide Shl, OfBytes;
    var x := e + 256 * f + 65536 * g;
    assert [a, b, c, d, e, f, g] == [a, b] + ([c, d] + [e, f, g]);
    TwoBytes(a, b);
    TwoBytes(c, d);
    ThreeBytes(e, f, g);
    OfBytesJoin([c, d], [e, f, g]);
    OfBytesJoin([a, b], [c, d] + [e, f, g]);
    Shift16(x);
    Shift16(c + 256 * d + 65536 * x);
  }

  lemma SpelledFour(ll: seq<nat>, dl: seq<nat>, a: Item, b: Item, c: Item, d: Item, rest: BitString)
    requires ItemOk(ll, dl, a) && ItemOk(ll, dl, b) && ItemOk(ll, dl, c) && ItemOk(ll, dl, d)
    requires HasMeaning(a) && HasMeaning(b) && HasMeaning(c) && HasMeaning(d)
    ensures ItemsOk(ll, dl, [a, b, c, d])
    ensures SpelledAll(ll, dl, [a, b, c, d], rest) == Spelled(ll, dl, a, Spelled(ll, dl, b, Spelled(ll, dl, c, Spelled(ll, dl, d, rest))))
  {
    hide ItemOk, Spelled, SpelledAll, HasMeaning;
    assert [a, b, c, d][1..] == [b, c, d] && [b, c, d][1..] == [c, d] && [c, d][1..] == [d] && [d][1..] == [];
    SpelledFirst(ll, dl, [a, b, c, d], rest);
    SpelledFirst(ll, dl, [b, c, d], rest);
    SpelledFirst(ll, dl, [c, d], rest);
    SpelledFirst(ll, dl, [d], rest);
    SpelledFirst(ll, dl, [], rest);
  }

  /** How a letter, two matches and the end are spelled with the fixed codes. */
  ghost predicate FixedSpelling(ll: seq<nat>, dl: seq<nat>, a: Item, m: Item, n: Item, end: Item) {
    && ItemOk(ll, dl, a) && ItemOk(ll, dl, m) && ItemOk(ll, dl, n) && ItemOk(ll, dl, end)
    && (forall rest: BitString :: Spelled(ll, dl, a, rest) == Cat(BitString(137, 8), rest))
    && (forall rest: BitString :: Spelled(ll, dl, m, rest) == Cat(BitString(163, 8), Cat(BitString(0, 5), rest)))
    && (forall rest: BitString :: Spelled(ll, dl, n, rest) == Cat(BitString(68, 7), Cat(BitString(5, 3), Cat(BitString(0, 5), rest))))
    && (forall rest: BitString :: Spelled(ll, dl, end, rest) == Cat(BitString(0, 7), rest))
  }

  lemma FixedSpells()
    ensures Used(FixedLL(), END_BLOCK) && FixedSpelling(FixedLL(), FixedDL(), LetterA, Match258, Match40, End)
  {
    hide FixedLL, FixedDL, Spelled, Used, ItemOk, Cat;
    SpellPlain(Empty);
    SpellMatches(Empty);
    forall rest: BitString
      ensures Spelled(FixedLL(), FixedDL(), End, rest) == Cat(BitString(0, 7), rest)
      ensures Spelled(FixedLL(), FixedDL(), LetterA, rest) == Cat(BitString(137, 8), rest)
      ensures Spelled(FixedLL(), FixedDL(), Match258, rest) == Cat(BitString(163, 8), Cat(BitString(0, 5), rest))
      ensures Spelled(FixedLL(), FixedDL(), Match40, rest) == Cat(BitString(68, 7), Cat(BitString(5, 3), Cat(BitString(0, 5), rest)))
    {
      SpellPlain(rest);
      SpellMatches(rest);
    }
  }

  /** The bits of the four items and the end of the block. */
  lemma RunSpelled(ll: seq<nat>, dl: seq<nat>, a: Item, m: Item, n: Item, end: Item, rest: BitString)
    requires FixedSpelling(ll, dl, a, m, n, end) && HasMeaning(a) && HasMeaning(m) && HasMeaning(n) && rest.v == 0 && rest.n == 2
    ensures ItemsOk(ll, dl, [a, a, m, n]) && SpelledAll(ll, dl, [a, a, m, n], Spelled(ll, dl, end, rest)) == BitString(380115323273, 53)
  {
    hide Spelled, ItemOk, Cat, SpelledAll, HasMeaning;
    SpelledFour(ll, dl, a, a, m, n, Spelled(ll, dl, end, rest));
    assert rest == BitString(0, 2);
    Prepended(0, 7, 0, 2);
    Prepended(0, 5, 0, 9);
    Prepended(5, 3, 0, 14);
    Prepended(68, 7, 5, 17);
    Prepended(0, 5, 708, 24);
    Prepended(163, 8, 22656, 29);
    Prepended(137, 8, 5800099, 37);
    Prepended(137, 8, 1484825481, 45);
  }

  lemma Prepended(v: nat, k: nat, x: nat, n: nat)
    requires k == 3 || k == 5 || k == 7 || k == 8
    ensures Cat(BitString(v, k), BitString(x, n)) == BitString(v + (if k == 3 then 8 else if k == 5 then 32 else if k == 7 then 128 else 256) * x, n + k)
  {
    hide Shl;
    Shifts(x);
  }

  lemma RunExpands(data: seq<Lz77.byte>)
    requires |data| == 300 && forall i :: 0 <= i < 300 ==> data[i] == 97
    ensures Lz77.Expands([], [Lz77.Literal(97), Lz77.Literal(97), Lz77.Match(258, 1), Lz77.Match(40, 1)], data)
  {
    hide Lz77.Expands;
    var a := Lz77.Literal(97);
    DeflateSlow.ExpandsNothing([]);
    assert data[..0] == [] && data[..300] == data;
    Lz77.EmitLiteral([], [], data, 0);
    Lz77.EmitLiteral([], [] + [a], data, 1);
    Lz77.EmitMatch([], [] + [a] + [a], data, 2, 1, 258);
    Lz77.EmitMatch([], [] + [a] + [a] + [Lz77.Match(258, 1)], data, 260, 1, 40);
    assert [] + [a] + [a] + [Lz77.Match(258, 1)] + [Lz77.Match(40, 1)] == [a, a, Lz77.Match(258, 1), Lz77.Match(40, 1)];
  }

  /** 300 letters. */
  lemma KnownRun(data: seq<Lz77.byte>)
    requires |data| == 300 && forall i :: 0 <= i < 300 ==> data[i] == 97
    ensures Decodes([0x4B, 0x4C, 0x1C, 0x05, 0xC4, 0x02, 0x00], data)
  {
    hide FixedLL, FixedDL, FixedSpelling, Used, ItemsOk, SpelledAll, Spelled, Decodes, OfBytes, Shl, Lz77.Expands;
    var ll, dl := FixedLL(), FixedDL();
    var items, rest := [LetterA, LetterA, Match258, Match40], BitString(0, 2);
    FixedSpells();
    RunSpelled(ll, dl, LetterA, Match258, Match40, End, rest);
    SevenBytes(0x4B, 0x4C, 0x1C, 0x05, 0xC4, 0x02, 0x00);
    Shifts(380115323273);
    RunMeanings(items);
    RunExpands(data);
    FixedStream([0x4B, 0x4C, 0x1C, 0x05, 0xC4, 0x02, 0x00], items, rest, data);
  }

  lemma RunMeanings(items: seq<Item>)
    requires items == [LetterA, LetterA, Match258, Match40]
    ensures forall i :: 0 <= i < 4 ==> HasMeaning(items[i])
    ensures Meanings(items) == [Lz77.Literal(97), Lz77.Literal(97), Lz77.Match(258, 1), Lz77.Match(40, 1)]
  {
    hide First;
    LengthTable(273, 5);
    DistTable(0, 0);
  }

  lemma SixBytes(a: byte, b: byte, c: byte, d: byte, e: byte, f: byte)
    ensures OfBytes([a, b, c, d, e, f]) == BitString(a + 256 * b + 65536 * (c + 256 * d + 65536 * (e + 256 * f)), 48)
  {
    hide Shl, OfBytes;
    assert [a, b, c, d, e, f] == [a, b] + ([c, d] + [e, f]);
    TwoBytes(a, b);
    TwoBytes(c, d);
    TwoBytes(e, f);
    OfBytesJoin([c, d], [e, f]);
    OfBytesJoin([a, b], [c, d] + [e, f]);
    Shift16(e + 256 * f);
    Shift16(c + 256 * d + 65536 * (e + 256 * f));
  }

  /** One stored block. */
  lemma StoredStream(bytes: seq<byte>, pad: BitString, data: seq<byte>, rest: BitString)
    requires pad.n < 8 && Proper(pad) && |data| <= 0xFFFF && rest.n % 8 == 0
    requires OfBytes(bytes) == Cat(BitString(1, 3), Cat(pad, Cat(BitString(LenAndNlen(|data|), 32), Cat(OfBytes(data), rest))))
    ensures Decodes(bytes, FromInts(data))
  {
    hide OfBytes, Cat, Decodes, Low, DropFirst, Proper;
    Head(1, Cat(pad, Cat(BitString(LenAndNlen(|data|), 32), Cat(OfBytes(data), rest))));
    assert [] + FromInts(data) == FromInts(data);
    OneBlock(bytes, StoredBlock(pad, data), rest, FromInts(data));
  }

  /** One stored letter: LEN 1, NLEN 65534. */
  lemma KnownStored()
    ensures Decodes([0x01, 0x01, 0x00, 0xFE, 0xFF, 0x61], [97])
  {
    hide OfBytes, Cat, Decodes, LenAndNlen;
    SixBytes(0x01, 0x01, 0x00, 0xFE, 0xFF, 0x61);
    OfByte(0x61);
    StoredBits(BitString(0x61, 8));
    CatEmpty(BitString(0x61, 8));
    FirstPowers();
    assert FromInts([0x61]) == [97];
    StoredStream([0x01, 0x01, 0x00, 0xFE, 0xFF, 0x61], BitString(0, 5), [0x61], Empty);
  }

  lemma StoredBits(letter: BitString)
    requires letter.v == 0x61 && letter.n == 8
    ensures Cat(BitString(1, 3), Cat(BitString(0, 5), Cat(BitString(LenAndNlen(1), 32), letter))).n == 48
    ensures Cat(BitString(1, 3), Cat(BitString(0, 5), Cat(BitString(LenAndNlen(1), 32), letter))).v == 0x61FF_FE00_0101
  {
    hide Shl;
    Shift16(0x61);
    Shift16(0x61_0000);
    ShlShl(0x61, 16, 16);
    Shifts(420906663937);
    Shifts(32 * 420906663937);
  }
}
