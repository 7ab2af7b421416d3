/** deflate_slow of deflate.c: what it tallies expands to the input, and is exactly what lazy evaluation of the
    matches on the input gives. */
module DeflateSlow {
  import opened Lz77
  import opened HashChains
  import opened LazyParsing
  import opened DeflateWindow
  import opened LongestMatch

  /** The block covers data[from..to]: its tokens expand to it, and so do its raw bytes if it has any. */
  ghost predicate BlockOk(b: Block, data: seq<byte>, from: nat, to: nat) {
    && from <= to <= |data| && Expands(data[..from], b.tokens, data[..to])
    && (b.raw.Bytes? ==> b.raw.bytes == data[from..to])
  }

  ghost predicate BlocksOk(blocks: seq<Block>, cuts: seq<nat>, data: seq<byte>) {
    && |cuts| == |blocks| + 1 && cuts[0] == 0 && cuts[|blocks|] <= |data|
    && forall i :: 0 <= i < |blocks| ==> BlockOk(blocks[i], data, cuts[i], cuts[i + 1])
  }

  /** The output so far stands for data[..upTo]. */
  ghost predicate OutputOk(blocks: seq<Block>, cuts: seq<nat>, tokens: seq<Token>, data: seq<byte>, upTo: nat) {
    && BlocksOk(blocks, cuts, data) && cuts[|blocks|] <= upTo <= |data|
    && Expands(data[..cuts[|blocks|]], tokens, data[..upTo])
  }

  lemma FlushKeeps(blocks: seq<Block>, cuts: seq<nat>, tokens: seq<Token>, data: seq<byte>, upTo: nat, raw: Raw)
    requires OutputOk(blocks, cuts, tokens, data, upTo)
    requires raw.Bytes? ==> raw.bytes == data[cuts[|blocks|]..upTo]
    ensures OutputOk(blocks + [Block(tokens, raw)], cuts + [upTo], [], data, upTo)
  {
    hide Expands;
    var bs, cs := blocks + [Block(tokens, raw)], cuts + [upTo];
    forall i | 0 <= i < |bs| ensures BlockOk(bs[i], data, cs[i], cs[i + 1]) {
      if i < |blocks| {
        assert BlockOk(blocks[i], data, cuts[i], cuts[i + 1]);
      }
    }
    ExpandsNothing(data[..upTo]);
  }

  lemma ExpandsNothing(out: seq<byte>)
    ensures Expands(out, [], out)
  {
  }

  /** All tokens of all blocks, one after the other. */
  ghost function AllTokens(blocks: seq<Block>): seq<Token> {
    if blocks == [] then [] else AllTokens(blocks[..|blocks| - 1]) + blocks[|blocks| - 1].tokens
  }

  /** The blocks together expand to the data from its beginning. */
  lemma {:induction false} BlocksExpand(blocks: seq<Block>, cuts: seq<nat>, data: seq<byte>)
    requires BlocksOk(blocks, cuts, data)
    ensures Expands([], AllTokens(blocks), data[..cuts[|blocks|]])
  {
    hide Expands;
    if blocks == [] {
      ExpandsNothing([]);
      assert data[..0] == [];
    } else {
      var n := |blocks| - 1;
      assert BlockOk(blocks[n], data, cuts[n], cuts[n + 1]);
      assert BlocksOk(blocks[..n], cuts[..n + 1], data);
      BlocksExpand(blocks[..n], cuts[..n + 1], data);
      ExpandsJoin([], AllTokens(blocks[..n]), data[..cuts[n]], blocks[n].tokens, data[..cuts[n + 1]]);
    }
  }

  /** No block is too large for its counters, or for a stored block. */
  ghost predicate Small(blocks: seq<Block>, n: nat) {
    forall i :: 0 <= i < |blocks| ==> |blocks[i].tokens| < n && (blocks[i].raw.Bytes? ==> |blocks[i].raw.bytes| <= 0xFFFF)
  }

  lemma SmallMore(blocks: seq<Block>, b: Block, n: nat)
    requires Small(blocks, n) && |b.tokens| < n && (b.raw.Bytes? ==> |b.raw.bytes| <= 0xFFFF)
    ensures Small(blocks + [b], n)
  {
  }

  /** Blocks are ended only by a full token buffer. */
  ghost predicate AllFull(blocks: seq<Block>, n: nat) {
    forall i :: 0 <= i < |blocks| ==> |blocks[i].tokens| == n - 1
  }

  /** All tokens tallied so far. */
  ghost function Tallied(s: DeflateState): seq<Token>
    reads s
  {
    AllTokens(s.blocks) + s.tokens
  }

  lemma NothingTallied()
    ensures AllTokens([]) == []
  {
  }

  lemma TalliedBlock(blocks: seq<Block>, b: Block)
    ensures AllTokens(blocks + [b]) == AllTokens(blocks) + b.tokens
  {
    assert (blocks + [b])[..|blocks|] == blocks;
  }

  /** What s has put out stands for the input before upTo, and block_start is where the open block begins. */
  ghost predicate Output(s: DeflateState, upTo: nat)
    reads s
  {
    && OutputOk(s.blocks, s.cuts, s.tokens, s.data, upTo) && s.base + s.blockStart == s.cuts[|s.blocks|]
    && Small(s.blocks, s.litBufsize) && AllFull(s.blocks, s.litBufsize) && |s.tokens| < s.litBufsize
  }

  /** There is space for another token. */
  ghost predicate Space(s: DeflateState)
    reads s
  {
    |s.tokens| < s.litBufsize - 1
  }

  lemma OutputCuts(blocks: seq<Block>, cuts: seq<nat>, tokens: seq<Token>, data: seq<byte>, upTo: nat)
    requires OutputOk(blocks, cuts, tokens, data, upTo)
    ensures |cuts| == |blocks| + 1 && cuts[|blocks|] <= upTo <= |data|
  {
  }

  lemma RawIsData(win: seq<byte>, data: seq<byte>, base: nat, n: nat, from: int, to: nat)
    requires WindowOk(win, data, base, n) && from <= to <= n && base + from >= 0
    ensures from >= 0 ==> win[from..to] == data[base + from..base + to]
  {
  }

  /** The raw bytes of the open block, if they are still in the window. */
  method RawBytes(s: DeflateState) returns (raw: Raw)
    requires s.Arrays() && s.InputOk() && 0 <= s.base + s.blockStart && s.blockStart <= s.strstart
    ensures raw.Bytes? <==> s.blockStart >= 0
    ensures raw.Bytes? ==> s.Pos() <= |s.data| && raw.bytes == s.data[s.base + s.blockStart..s.Pos()]
  {
    InputReach(s);
    RawIsData(s.window[..], s.data, s.base, s.strstart + s.lookahead, s.blockStart, s.strstart);
    raw := if s.blockStart >= 0 then Bytes(s.window[s.blockStart..s.strstart]) else TooOld;
  }

  /** FLUSH_BLOCK_ONLY: everything before strstart has been tallied. The raw bytes are offered if they are
      still in the window. */
  method PutBlock(s: DeflateState)
    requires s.Arrays() && s.InputOk() && Output(s, s.Pos()) && (s.blockStart >= 0 ==> s.strstart - s.blockStart <= 0xFFFF)
    modifies s`blocks, s`cuts, s`tokens, s`blockStart
    ensures OutputOk(s.blocks, s.cuts, [], s.data, s.Pos()) && s.tokens == [] && s.blockStart == s.strstart
    ensures |s.cuts| == |s.blocks| + 1 && s.cuts[|s.blocks|] == s.Pos() && Small(s.blocks, s.litBufsize)
    ensures |s.blocks| == |old(s.blocks)| + 1 && s.blocks[..|s.blocks| - 1] == old(s.blocks)
    ensures s.blocks[|s.blocks| - 1].tokens == old(s.tokens) && Tallied(s) == old(Tallied(s))
  {
    OutputCuts(s.blocks, s.cuts, s.tokens, s.data, s.Pos());
    hide OutputOk, AllTokens, Small, AllFull, WindowOk;
    var raw := RawBytes(s);
    FlushKeeps(s.blocks, s.cuts, s.tokens, s.data, s.Pos(), raw);
    TalliedBlock(s.blocks, Block(s.tokens, raw));
    SmallMore(s.blocks, Block(s.tokens, raw), s.litBufsize);
    s.blocks := s.blocks + [Block(s.tokens, raw)];
    s.cuts := s.cuts + [s.Pos()];
    s.tokens := [];
    s.blockStart := s.strstart;
  }

  /** FLUSH_BLOCK when the token buffer is full. */
  method FlushBlock(s: DeflateState)
    requires s.Arrays() && s.InputOk() && Output(s, s.Pos()) && !Space(s) && (s.blockStart >= 0 ==> s.strstart - s.blockStart <= 0xFFFF)
    modifies s`blocks, s`cuts, s`tokens, s`blockStart
    ensures Output(s, s.Pos()) && Space(s) && s.tokens == []
    ensures |s.cuts| == |s.blocks| + 1 && s.cuts[|s.blocks|] == s.Pos()
    ensures |s.blocks| == |old(s.blocks)| + 1 && s.blocks[..|s.blocks| - 1] == old(s.blocks)
    ensures s.blocks[|s.blocks| - 1].tokens == old(s.tokens) && Tallied(s) == old(Tallied(s))
  {
    hide OutputOk, AllTokens;
    PutBlock(s);
    assert forall i :: 0 <= i < |s.blocks| - 1 ==> s.blocks[i] == s.blocks[..|s.blocks| - 1][i];
  }

  /** FLUSH_BLOCK for the last block. */
  method FlushLast(s: DeflateState)
    requires s.Arrays() && s.InputOk() && Output(s, s.Pos()) && s.Pos() == |s.data| && (s.blockStart >= 0 ==> s.strstart - s.blockStart <= 0xFFFF)
    modifies s`blocks, s`cuts, s`tokens, s`blockStart
    ensures BlocksOk(s.blocks, s.cuts, s.data) && s.cuts[|s.blocks|] == |s.data| && |s.blocks| >= 1
    ensures Small(s.blocks, s.litBufsize) && AllFull(s.blocks[..|s.blocks| - 1], s.litBufsize)
    ensures AllTokens(s.blocks) == old(Tallied(s)) && Expands([], AllTokens(s.blocks), s.data)
    ensures s.blocks[..|s.blocks| - 1] == old(s.blocks) && s.blocks[|s.blocks| - 1].tokens == old(s.tokens)
  {
    hide OutputOk, AllTokens, BlocksOk, Expands;
    PutBlock(s);
    Finished(s.blocks, s.cuts, s.data);
  }

  lemma TallyLiteralKeeps(blocks: seq<Block>, cuts: seq<nat>, tokens: seq<Token>, data: seq<byte>, upTo: nat)
    requires OutputOk(blocks, cuts, tokens, data, upTo) && upTo < |data|
    ensures OutputOk(blocks, cuts, tokens + [Literal(data[upTo])], data, upTo + 1)
  {
    hide Expands, BlocksOk;
    OutputCuts(blocks, cuts, tokens, data, upTo);
    EmitLiteral(data[..cuts[|blocks|]], tokens, data, upTo);
  }

  lemma TallyMatchKeeps(blocks: seq<Block>, cuts: seq<nat>, tokens: seq<Token>, data: seq<byte>, upTo: nat, dist: nat, len: nat)
    requires OutputOk(blocks, cuts, tokens, data, upTo) && Repeats(data, upTo, dist, len)
    requires MIN_MATCH <= len <= MAX_MATCH && dist <= MAX_DIST
    ensures OutputOk(blocks, cuts, tokens + [Match(len, dist)], data, upTo + len)
  {
    hide Expands, BlocksOk;
    OutputCuts(blocks, cuts, tokens, data, upTo);
    EmitMatch(data[..cuts[|blocks|]], tokens, data, upTo, dist, len);
  }

  /** _tr_tally_lit, for the input byte at upTo. */
  method TallyLiteral(s: DeflateState, c: byte, ghost upTo: nat) returns (full: bool)
    requires Output(s, upTo) && Space(s) && upTo < |s.data| && c == s.data[upTo]
    modifies s`tokens
    ensures Output(s, upTo + 1) && s.tokens == old(s.tokens) + [Literal(c)] && full == !Space(s)
  {
    OutputCuts(s.blocks, s.cuts, s.tokens, s.data, upTo);
    hide OutputOk;
    TallyLiteralKeeps(s.blocks, s.cuts, s.tokens, s.data, upTo);
    s.tokens := s.tokens + [Literal(c)];
    full := |s.tokens| == s.litBufsize - 1;
  }

  /** _tr_tally_dist, for a repetition in the input at upTo. */
  method TallyMatch(s: DeflateState, dist: nat, len: nat, ghost upTo: nat) returns (full: bool)
    requires Output(s, upTo) && Space(s) && Repeats(s.data, upTo, dist, len) && MIN_MATCH <= len <= MAX_MATCH && dist <= MAX_DIST
    modifies s`tokens
    ensures Output(s, upTo + len) && s.tokens == old(s.tokens) + [Match(len, dist)] && full == !Space(s)
  {
    OutputCuts(s.blocks, s.cuts, s.tokens, s.data, upTo);
    hide OutputOk;
    TallyMatchKeeps(s.blocks, s.cuts, s.tokens, s.data, upTo, dist, len);
    s.tokens := s.tokens + [Match(len, dist)];
    full := |s.tokens| == s.litBufsize - 1;
  }

  /** len bytes at the position p, window index at, repeat those at the window index start. */
  ghost predicate GoodMatch(data: seq<byte>, p: nat, at: int, start: int, len: nat) {
    len <= MAX_MATCH && 1 <= at - start <= MAX_DIST && Repeats(data, p, at - start, len)
  }

  /** The state between two rounds of deflate_slow: one byte may be held back, and a match may be pending there. */
  ghost predicate BetweenRounds(s: DeflateState)
    reads s, s.window, s.head, s.prev
  {
    && s.Ready() && s.strstart + s.lookahead <= WINDOW_SIZE
    && (s.matchAvailable ==> s.strstart >= 1)
    && Output(s, s.Pos() - (if s.matchAvailable then 1 else 0)) && Space(s)
    && 2 <= s.matchLength
    && (s.matchLength >= MIN_MATCH ==>
          s.matchAvailable && s.matchLength <= s.lookahead + 1 &&
          GoodMatch(s.data, s.Pos() - 1, s.strstart - 1, s.matchStart, s.matchLength))
  }

  /** Like Ready, but the string at strstart is inserted already. */
  ghost predicate Inserted(s: DeflateState, n: nat)
    reads s, s.window, s.head, s.prev
  {
    && s.Arrays() && s.strstart < n && WindowOk(s.window[..], s.data, s.base, n)
    && ChainsOk(s.head[..], s.prev[..], s.data, s.base, s.strstart + 1)
    && (s.strstart + 1 + MIN_MATCH <= n ==> Carries(s.insH, s.data[s.Pos() + 1], s.data[s.Pos() + 2]))
  }

  /** Inserts the string at strstart, if enough bytes are left for one. */
  method InsertHere(s: DeflateState, n: nat) returns (hashHead: nat)
    requires s.Arrays() && s.strstart < n && WindowOk(s.window[..], s.data, s.base, n)
    requires ChainsOk(s.head[..], s.prev[..], s.data, s.base, s.strstart)
    requires s.strstart + MIN_MATCH <= n ==> Carries(s.insH, s.data[s.Pos()], s.data[s.Pos() + 1])
    requires s.strstart + MIN_MATCH > n ==> s.base + n == |s.data|
    modifies s`insH, s.head, s.prev
    ensures Inserted(s, n)
    ensures s.strstart + MIN_MATCH <= n ==> ChainLink(hashHead, s.data, s.base, s.strstart, HashOf(s.data, s.Pos()))
    ensures s.strstart + MIN_MATCH > n ==> hashHead == 0
  {
    hide ChainsOk, Carries, ChainLink, Idx, HashAt;
    hashHead := 0;
    if s.strstart + MIN_MATCH <= n {
      hashHead := s.InsertString(n);
    } else {
      SkipKeeps(s.head[..], s.prev[..], s.data, s.base, s.strstart);
    }
  }

  /** The middle of a round: the string at strstart is inserted, the pending match has moved to prevLength and
      prevMatch, and matchLength and matchStart tell of the one at strstart. */
  ghost predicate Choosing(s: DeflateState)
    reads s, s.window, s.head, s.prev
  {
    && Inserted(s, s.strstart + s.lookahead) && s.InputOk() && s.strstart + s.lookahead <= WINDOW_SIZE
    && (s.lookahead >= MIN_LOOKAHEAD || s.nextIn == [])
    && (s.matchAvailable ==> s.strstart >= 1)
    && Output(s, s.Pos() - (if s.matchAvailable then 1 else 0)) && Space(s)
    && 2 <= s.prevLength
    && (s.prevLength >= MIN_MATCH ==>
          s.matchAvailable && s.prevLength <= s.lookahead + 1 &&
          GoodMatch(s.data, s.Pos() - 1, s.strstart - 1, s.prevMatch, s.prevLength))
  }

  /** Inserts the string at strstart and looks for a match there. */
  method ChooseMatch(s: DeflateState)
    requires BetweenRounds(s) && s.lookahead > 0 && (s.lookahead >= MIN_LOOKAHEAD || s.nextIn == [])
    requires s.strstart + MIN_LOOKAHEAD <= WINDOW_SIZE
    modifies s`insH, s.head, s.prev, s`prevLength, s`prevMatch, s`matchLength, s`matchStart
    ensures Choosing(s) && 2 <= s.matchLength && s.prevLength == old(s.matchLength) && s.prevMatch == old(s.matchStart)
    ensures s.matchLength > s.prevLength ==>
      s.matchLength <= s.lookahead && GoodMatch(s.data, s.Pos(), s.strstart, s.matchStart, s.matchLength)
    ensures Chosen(s)
  {
    hide ChainsOk, Carries, ChainLink, Idx, HashAt, HashOf, OutputOk, Repeats, WindowOk, Chosen;
    InputEnd(s.window[..], s.data, s.base, s.strstart + s.lookahead);
    var hashHead := InsertHere(s, s.strstart + s.lookahead);
    LookForMatch(s, hashHead);
  }

  /** The match at strstart is the one that is to be found, or there is none to be found and it is no longer
      than the pending one. */
  ghost predicate Chosen(s: DeflateState)
    reads s
  {
    s.Pos() <= |s.data| &&
    var m := Look(s.data, Par(s), s.base, s.Pos(), s.prevLength);
    if m == NoMatch then s.matchLength <= s.prevLength else s.matchLength == m.len && s.base + s.matchStart == m.at
  }

  /** Looks for a match longer than the pending one. */
  method LookForMatch(s: DeflateState, hashHead: nat)
    requires Inserted(s, s.strstart + s.lookahead) && s.InputOk() && s.strstart + MIN_LOOKAHEAD <= WINDOW_SIZE
    requires 2 <= s.matchLength <= MAX_MATCH && (s.lookahead >= MIN_LOOKAHEAD || s.nextIn == [])
    requires s.lookahead >= MIN_MATCH ==> ChainLink(hashHead, s.data, s.base, s.strstart, HashOf(s.data, s.Pos()))
    requires s.lookahead < MIN_MATCH ==> hashHead == 0
    modifies s`prevLength, s`prevMatch, s`matchLength, s`matchStart
    ensures s.prevLength == old(s.matchLength) && s.prevMatch == old(s.matchStart) && 2 <= s.matchLength
    ensures s.matchLength > s.prevLength ==>
      s.matchLength <= s.lookahead && GoodMatch(s.data, s.Pos(), s.strstart, s.matchStart, s.matchLength)
    ensures Chosen(s)
  {
    hide ChainsOk, Carries, Idx, HashAt, HashOf, Repeats, Latest, Search, WindowOk, NiceFor, NoneLonger, StringAt, Look;
    InputReach(s);
    LookIs(s.data, Par(s), s.base, s.Pos(), s.matchLength);
    s.prevLength, s.prevMatch := s.matchLength, s.matchStart;
    s.matchLength := MIN_MATCH - 1;
    if hashHead != 0 && s.prevLength < s.maxLazy && s.strstart - hashHead <= MAX_DIST {
      s.matchLength := FindLongest(s, hashHead);
      if s.matchLength <= 5 && (s.filtered || (s.matchLength == MIN_MATCH && s.strstart - s.matchStart > TOO_FAR)) {
        s.matchLength := MIN_MATCH - 1;
      }
    }
  }

  lemma InputEnd(win: seq<byte>, data: seq<byte>, base: nat, n: nat)
    requires WindowOk(win, data, base, n)
    ensures base + n <= |data| && (data[base + n..] == [] <==> base + n == |data|)
  {
  }

  /** Inserts the strings inside a match, and moves strstart to its last byte but one; then past it. */
  method InsertRest(s: DeflateState, n: nat)
    requires s.prevLength >= 1 && Inserted(s, n) && s.strstart + s.prevLength + 1 <= n
    requires s.strstart + s.prevLength + MIN_MATCH > n ==> s.base + n == |s.data|
    modifies s`insH, s`strstart, s`prevLength, s.head, s.prev
    ensures s.prevLength == 0 && s.strstart == old(s.strstart + s.prevLength) && Inserted(s, n)
  {
    hide ChainsOk, Carries, ChainLink, Idx, HashAt, WindowOk;
    var more := true;
    while more
      invariant more == (s.prevLength != 0)
      invariant s.strstart + s.prevLength == old(s.strstart + s.prevLength) && Inserted(s, n)
      decreases s.prevLength
    {
      s.strstart := s.strstart + 1;
      var _ := InsertHere(s, n);
      s.prevLength := s.prevLength - 1;
      more := s.prevLength != 0;
    }
  }

  /** Tallies the pending match and moves past it. */
  method SkipPrevious(s: DeflateState) returns (full: bool)
    requires Choosing(s) && s.prevLength >= MIN_MATCH
    modifies s`insH, s`strstart, s`prevLength, s.head, s.prev, s`lookahead, s`tokens
    ensures s.strstart + s.lookahead + 1 == old(s.strstart + s.lookahead) && s.lookahead < old(s.lookahead)
    ensures Inserted(s, s.strstart + s.lookahead + 1) && Output(s, s.Pos() + 1) && full == !Space(s) && s.strstart == old(s.strstart + s.prevLength) - 2
    ensures s.tokens == old(s.tokens) + [Match(old(s.prevLength), old(s.strstart - 1 - s.prevMatch))]
  {
    hide ChainsOk, Carries, OutputOk, Repeats, WindowOk;
    InputEnd(s.window[..], s.data, s.base, s.strstart + s.lookahead);
    var n := s.strstart + s.lookahead;
    full := TallyMatch(s, s.strstart - 1 - s.prevMatch, s.prevLength, s.Pos() - 1);
    s.lookahead := s.lookahead - (s.prevLength - 1);
    s.prevLength := s.prevLength - 2;
    InsertRest(s, n);
  }

  /** Puts out the pending match. */
  method EmitPrevious(s: DeflateState)
    requires Choosing(s) && s.prevLength >= MIN_MATCH && s.strstart + MIN_LOOKAHEAD <= WINDOW_SIZE
    modifies s`insH, s`strstart, s`prevLength, s.head, s.prev, s`lookahead, s`tokens, s`matchAvailable, s`matchLength,
             s`blocks, s`cuts, s`blockStart
    ensures BetweenRounds(s) && s.strstart + s.lookahead == old(s.strstart + s.lookahead) && s.lookahead < old(s.lookahead)
    ensures s.strstart == old(s.strstart) - 1 + old(s.prevLength) && !s.matchAvailable && s.matchLength == 2
    ensures Tallied(s) == old(Tallied(s)) + [Match(old(s.prevLength), old(s.strstart - 1 - s.prevMatch))]
  {
    hide ChainsOk, Carries, OutputOk, Repeats, WindowOk, AllTokens;
    var full := SkipPrevious(s);
    s.matchAvailable := false;
    s.matchLength := MIN_MATCH - 1;
    s.strstart := s.strstart + 1;
    if full {
      FlushBlock(s);
    }
  }

  /** Puts out the byte held back. */
  method PutHeld(s: DeflateState)
    requires s.Arrays() && s.InputOk() && 1 <= s.strstart && s.strstart + MIN_LOOKAHEAD <= WINDOW_SIZE
    requires Output(s, s.Pos() - 1) && Space(s)
    modifies s`tokens, s`blocks, s`cuts, s`blockStart
    ensures Output(s, s.Pos()) && Space(s) && s.Pos() <= |s.data| && Tallied(s) == old(Tallied(s)) + [Literal(s.data[s.Pos() - 1])]
  {
    hide OutputOk, WindowOk, AllTokens;
    InputReach(s);
    ByteAt(s.window[..], s.data, s.base, s.strstart + s.lookahead, s.strstart - 1);
    var full := TallyLiteral(s, s.window[s.strstart - 1], s.Pos() - 1);
    if full {
      FlushBlock(s);
    }
  }

  /** Puts out the byte held back, or begins to hold one back. */
  method Advance(s: DeflateState)
    requires Choosing(s) && s.strstart + MIN_LOOKAHEAD <= WINDOW_SIZE && 2 <= s.matchLength && (s.prevLength < MIN_MATCH || s.matchLength > s.prevLength)
    requires s.matchLength > s.prevLength ==>
      s.matchLength <= s.lookahead && GoodMatch(s.data, s.Pos(), s.strstart, s.matchStart, s.matchLength)
    modifies s`strstart, s`lookahead, s`tokens, s`matchAvailable, s`blocks, s`cuts, s`blockStart
    ensures BetweenRounds(s) && s.strstart + s.lookahead == old(s.strstart + s.lookahead) && s.lookahead < old(s.lookahead)
    ensures s.strstart == old(s.strstart) + 1 && s.matchAvailable
    ensures Tallied(s) == old(Tallied(s)) + if old(s.matchAvailable) then [Literal(s.data[old(s.Pos()) - 1])] else []
  {
    hide ChainsOk, Carries, OutputOk, Repeats, WindowOk, AllTokens;
    if s.matchAvailable {
      PutHeld(s);
    } else {
      s.matchAvailable := true;
    }
    s.strstart := s.strstart + 1;
    s.lookahead := s.lookahead - 1;
  }

  /** What lazy evaluation knows between two rounds. */
  ghost function View(s: DeflateState): Lazy
    reads s
  {
    var pending := s.matchLength >= MIN_MATCH && s.strstart - 1 - s.matchStart >= 0;
    Lazy(s.Pos(), s.base, s.matchAvailable, if pending then s.matchLength else 2, if pending then s.strstart - 1 - s.matchStart else 0)
  }

  /** Keeps enough lookahead for the next match; false at the end of the input. */
  method KeepLookahead(s: DeflateState) returns (more: bool)
    requires BetweenRounds(s) && s.Filled() && LazyOk(s.data, View(s))
    modifies s, s.window, s.head, s.prev
    ensures BetweenRounds(s) && s.Pos() == old(s.Pos()) && more == (s.lookahead > 0) && s.strstart + MIN_LOOKAHEAD <= WINDOW_SIZE
    ensures s.lookahead >= MIN_LOOKAHEAD || s.nextIn == []
    ensures s.Filled() && Tallied(s) == old(Tallied(s)) && View(s) == Refilled(s.data, old(View(s)))
  {
    hide ChainsOk, Carries, OutputOk, Repeats, WindowOk, AllTokens;
    InputReach(s);
    if s.lookahead < MIN_LOOKAHEAD {
      s.FillWindow();
    }
    more := s.lookahead > 0;
  }

  /** One round: choose between the pending match, the byte held back, and waiting. */
  method Round(s: DeflateState)
    requires BetweenRounds(s) && s.lookahead > 0 && (s.lookahead >= MIN_LOOKAHEAD || s.nextIn == [])
    requires s.strstart + MIN_LOOKAHEAD <= WINDOW_SIZE && s.Filled() && LazyOk(s.data, View(s)) && s.Pos() < |s.data|
    modifies s, s.head, s.prev
    ensures BetweenRounds(s) && s.Pos() > old(s.Pos()) && s.Pos() <= |s.data| && s.Filled()
    ensures View(s) == Step(s.data, Par(s), old(View(s)))
    ensures Tallied(s) == old(Tallied(s)) + StepTokens(s.data, Par(s), old(View(s)))
  {
    hide ChainsOk, Carries, Output, Inserted, Repeats, WindowOk, AllTokens, Look, DeflateState.KeyOk;
    ChooseMatch(s);
    if s.prevLength >= MIN_MATCH && s.matchLength <= s.prevLength {
      EmitPrevious(s);
    } else {
      Advance(s);
    }
    InputEnd(s.window[..], s.data, s.base, s.strstart + s.lookahead);
  }

  /** All rounds: what has been tallied in the end lacks no more than the byte held back. */
  method Rounds(s: DeflateState)
    requires s.Ready() && s.Started()
    modifies s, s.window, s.head, s.prev
    ensures BetweenRounds(s) && s.Pos() == |s.data| && s.strstart + MIN_LOOKAHEAD <= WINDOW_SIZE
    ensures LazyTokens(s.data, Par(s), LazyStart) == Tallied(s) + if s.matchAvailable then [Literal(s.data[s.Pos() - 1])] else []
  {
    hide ChainsOk, Carries, OutputOk, Repeats, BlocksOk, WindowOk, Expands, AllTokens, Step, StepTokens, Refilled, LazyTokens, DeflateState.KeyOk;
    StartsOk(s.data);
    NothingTallied();
    InputReach(s);
    while true
      invariant BetweenRounds(s) && s.Pos() <= |s.data| && s.Filled() && LazyOk(s.data, View(s))
      invariant Tallied(s) + LazyTokens(s.data, Par(s), View(s)) == LazyTokens(s.data, Par(s), LazyStart)
      decreases |s.data| - s.Pos()
    {
      LazyMore(s.data, Par(s), View(s));
      var more := KeepLookahead(s);
      InputReach(s);
      if !more {
        break;
      }
      Round(s);
    }
  }

  /** deflate_slow, run to the end of the input. Its tokens are those of lazy evaluation; all blocks but the last
      fill the token buffer; the blocks expand to the whole input, and the raw bytes of each block are the part
      of the input it stands for. */
  method DeflateSlow(s: DeflateState)
    requires s.Ready() && s.Started()
    modifies s, s.window, s.head, s.prev
    ensures BlocksOk(s.blocks, s.cuts, s.data) && s.cuts[|s.blocks|] == |s.data| && |s.blocks| >= 1
    ensures Small(s.blocks, s.litBufsize) && AllFull(s.blocks[..|s.blocks| - 1], s.litBufsize)
    ensures Expands([], AllTokens(s.blocks), s.data)
    ensures AllTokens(s.blocks) == LazyTokens(s.data, Par(s), LazyStart)
  {
    hide ChainsOk, Carries, OutputOk, Repeats, BlocksOk, WindowOk, Expands, AllTokens, LazyTokens, DeflateState.KeyOk;
    Rounds(s);
    InputReach(s);
    if s.matchAvailable {
      LastByte(s.window[..], s.data, s.base, s.strstart);
      var _ := TallyLiteral(s, s.window[s.strstart - 1], s.Pos() - 1);
      s.matchAvailable := false;
    }
    FlushLast(s);
  }

  lemma ByteAt(win: seq<byte>, data: seq<byte>, base: nat, n: nat, i: nat)
    requires WindowOk(win, data, base, n) && i < n
    ensures base + i < |data| && win[i] == data[base + i]
  {
  }

  lemma LastByte(win: seq<byte>, data: seq<byte>, base: nat, n: nat)
    requires WindowOk(win, data, base, n) && n >= 1
    ensures win[n - 1] == data[base + n - 1]
  {
  }

  lemma StartsOk(data: seq<byte>)
    ensures OutputOk([], [0], [], data, 0)
  {
  }

  lemma Finished(blocks: seq<Block>, cuts: seq<nat>, data: seq<byte>)
    requires OutputOk(blocks, cuts, [], data, |data|) && cuts[|blocks|] == |data|
    ensures BlocksOk(blocks, cuts, data) && Expands([], AllTokens(blocks), data)
  {
    BlocksExpand(blocks, cuts, data);
    assert data[..|data|] == data;
  }
}
