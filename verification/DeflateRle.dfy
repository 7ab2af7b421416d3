/** deflate_rle and deflate_huff of deflate.c. */
module DeflateRle {
  import opened Lz77
  import opened LazyParsing
  import opened DeflateWindow
  import opened LongestMatch
  import opened DeflateSlow

  /** The state between two rounds: everything before strstart has been tallied. */
  ghost predicate Eager(s: DeflateState)
    reads s, s.window
  {
    Current(s) && Space(s)
  }

  /** The same, but the token buffer may be full. */
  ghost predicate Current(s: DeflateState)
    reads s, s.window
  {
    && s.Arrays() && s.InputOk() && s.strstart + s.lookahead <= WINDOW_SIZE && Output(s, s.Pos())
    && (s.base > 0 ==> s.strstart > 0)
  }

  // ----- What is to be found -----

  /** How often the byte before p repeats from p on. */
  ghost function RunAt(data: seq<byte>, p: nat): nat
    requires p <= |data|
  {
    if p == 0 then 0 else Common(data, p, p - 1, Reach(data, p))
  }

  /** Every run of three or more is taken. */
  ghost function RleTokens(data: seq<byte>, p: nat): seq<Token>
    requires p <= |data|
    decreases |data| - p
  {
    if p == |data| then []
    else if RunAt(data, p) >= MIN_MATCH then [Match(RunAt(data, p), 1)] + RleTokens(data, p + RunAt(data, p))
    else [Literal(data[p])] + RleTokens(data, p + 1)
  }

  ghost function Literals(data: seq<byte>): (r: seq<Token>)
    ensures |r| == |data| && forall i :: 0 <= i < |r| ==> r[i] == Literal(data[i])
  {
    seq(|data|, i requires 0 <= i < |data| => Literal(data[i]))
  }

  lemma ShortRun(data: seq<byte>, p: nat)
    requires p <= |data|
    ensures p == 0 || |data| - p < MIN_MATCH ==> RunAt(data, p) < MIN_MATCH
  {
  }

  lemma RleMore(data: seq<byte>, p: nat)
    requires p <= |data|
    ensures p == |data| ==> RleTokens(data, p) == []
    ensures p < |data| && RunAt(data, p) >= MIN_MATCH ==> RleTokens(data, p) == [Match(RunAt(data, p), 1)] + RleTokens(data, p + RunAt(data, p))
    ensures p < |data| && RunAt(data, p) < MIN_MATCH ==> RleTokens(data, p) == [Literal(data[p])] + RleTokens(data, p + 1)
  {
    hide RunAt;
  }

  /** A run in the window is a run in the input, as far as the lookahead goes. */
  lemma RunInData(win: seq<byte>, data: seq<byte>, base: nat, at: nat, n: nat, run: nat)
    requires WindowOk(win, data, base, at + n) && 0 < at && MIN_MATCH <= n && (n > MAX_MATCH || base + at + n == |data|) && run <= MAX_MATCH
    requires run == 0 || (MIN_MATCH <= run && WindowRepeats(win, at, 1, run))
    requires run == 0 ==> !WindowRepeats(win, at, 1, MIN_MATCH)
    requires 0 < run < MAX_MATCH ==> at + run < |win| && win[at + run] != win[at + run - 1]
    ensures if run == 0 then RunAt(data, base + at) < MIN_MATCH else RunAt(data, base + at) == if run > n then n else run
  {
    hide Repeats, WindowRepeats, WindowOk, Common, RunAt;
    if run == 0 {
      NoRunInData(win, data, base, at, n);
    } else {
      RunIs(win, data, base, at, n, run, if run > n then n else run);
    }
  }

  lemma NoRunInData(win: seq<byte>, data: seq<byte>, base: nat, at: nat, n: nat)
    requires WindowOk(win, data, base, at + n) && 0 < at && MIN_MATCH <= n && !WindowRepeats(win, at, 1, MIN_MATCH)
    ensures base + at <= |data| && RunAt(data, base + at) < MIN_MATCH
  {
    hide Repeats, WindowRepeats, WindowOk, Common;
    WindowEnd(win, data, base, at + n);
    NotInData(win, data, base, at + n, at, at - 1, 2);
    CommonLess(data, base + at, base + at - 1, Reach(data, base + at), 2);
  }

  lemma RunIs(win: seq<byte>, data: seq<byte>, base: nat, at: nat, n: nat, run: nat, len: nat)
    requires WindowOk(win, data, base, at + n) && 0 < at && (n > MAX_MATCH || base + at + n == |data|) && run <= MAX_MATCH
    requires WindowRepeats(win, at, 1, run) && len == if run > n then n else run
    requires run < MAX_MATCH ==> at + run < |win| && win[at + run] != win[at + run - 1]
    ensures base + at <= |data| && RunAt(data, base + at) == len
  {
    hide Repeats, WindowRepeats, WindowOk, Common;
    WindowEnd(win, data, base, at + n);
    var p, reach := base + at, Reach(data, base + at);
    RepeatsInData(win, data, base, at + n, at, 1, run, len);
    if len < reach {
      LastDiffers(win, at, run);
      NotInData(win, data, base, at + n, at, at - 1, run);
    }
    CommonIs(data, p, p - 1, reach, len);
  }

  lemma WindowEnd(win: seq<byte>, data: seq<byte>, base: nat, n: nat)
    requires WindowOk(win, data, base, n)
    ensures base + n <= |data|
  {
  }

  lemma LastDiffers(win: seq<byte>, at: nat, run: nat)
    requires 0 < at && at + run < |win| && win[at + run] != win[at + run - 1]
    ensures NoLonger(win, at, at - 1, run)
  {
  }

  /** How often the byte before strstart repeats from strstart on; 0 if less than three times. The end is
      tested only every eighth comparison. */
  method ScanRun(window: array<byte>, strstart: nat) returns (len: nat)
    requires window.Length == WINDOW_SIZE && 0 < strstart && strstart + MAX_MATCH < WINDOW_SIZE
    ensures len == 0 || MIN_MATCH <= len <= MAX_MATCH
    ensures len > 0 ==> WindowRepeats(window[..], strstart, 1, len)
    ensures len == 0 ==> !WindowRepeats(window[..], strstart, 1, MIN_MATCH)
    ensures 0 < len < MAX_MATCH ==> window[strstart + len] != window[strstart + len - 1]
  {
    len := 0;
    var prev := window[strstart - 1];
    if prev == window[strstart] && prev == window[strstart + 1] && prev == window[strstart + 2] {
      var strend := strstart + MAX_MATCH;
      var scan := strstart + 3;
      while prev == window[scan] && ((scan - (strstart + 2)) % 8 != 0 || scan < strend)
        invariant strstart + 3 <= scan <= strend && prev == window[scan - 1]
        invariant WindowRepeats(window[..], strstart, 1, scan - strstart)
        decreases strend - scan
      {
        scan := scan + 1;
      }
      len := MAX_MATCH - (strend - scan);
    } else if WindowRepeats(window[..], strstart, 1, MIN_MATCH) {
      RunOfThree(window[..], strstart);
      assert false;
    }
  }

  lemma RunOfThree(win: seq<byte>, at: nat)
    requires WindowRepeats(win, at, 1, MIN_MATCH)
    ensures win[at - 1] == win[at] == win[at + 1] == win[at + 2]
  {
    assert win[at] == win[at - 1] && win[at + 1] == win[at] && win[at + 2] == win[at + 1];
  }

  /** The length of the run at strstart within the lookahead, or 0. */
  method RunLength(s: DeflateState) returns (len: nat)
    requires Eager(s) && s.lookahead > 0 && s.strstart + MAX_MATCH < WINDOW_SIZE
    requires s.lookahead > MAX_MATCH || s.nextIn == []
    ensures len <= s.lookahead && len <= MAX_MATCH && s.Pos() <= |s.data|
    ensures if len >= MIN_MATCH then len == RunAt(s.data, s.Pos()) else RunAt(s.data, s.Pos()) < MIN_MATCH
    ensures len >= MIN_MATCH ==> Repeats(s.data, s.Pos(), 1, len)
  {
    hide WindowOk, WindowRepeats, Repeats, Output, RunAt;
    InputReach(s);
    ShortRun(s.data, s.Pos());
    len := 0;
    if s.lookahead >= MIN_MATCH && s.strstart > 0 {
      var run := ScanRun(s.window, s.strstart);
      len := if run > s.lookahead then s.lookahead else run;
      RunInData(s.window[..], s.data, s.base, s.strstart, s.lookahead, run);
      if len > 0 {
        RepeatsInData(s.window[..], s.data, s.base, s.strstart + s.lookahead, s.strstart, 1, run, len);
      }
    }
  }

  /** Tallies one literal at strstart. */
  method StepLiteral(s: DeflateState) returns (full: bool)
    requires Eager(s) && s.lookahead > 0
    modifies s`tokens, s`strstart, s`lookahead
    ensures Current(s) && full == !Space(s) && s.Pos() == old(s.Pos()) + 1 <= |s.data|
    ensures s.tokens == old(s.tokens) + [Literal(s.data[s.Pos() - 1])]
  {
    hide OutputOk;
    full := TallyLiteral(s, s.window[s.strstart], s.Pos());
    s.lookahead := s.lookahead - 1;
    s.strstart := s.strstart + 1;
  }

  /** Tallies the run found at strstart. */
  method TakeRun(s: DeflateState, len: nat) returns (full: bool)
    requires Eager(s) && MIN_MATCH <= len <= MAX_MATCH && len <= s.lookahead && Repeats(s.data, s.Pos(), 1, len)
    modifies s`tokens, s`strstart, s`lookahead, s`matchLength
    ensures Current(s) && full == !Space(s) && s.Pos() == old(s.Pos()) + len <= |s.data|
    ensures s.tokens == old(s.tokens) + [Match(len, 1)]
  {
    hide OutputOk, Repeats, WindowOk;
    InputEnd(s.window[..], s.data, s.base, s.strstart + s.lookahead);
    s.matchLength := len;
    full := TallyMatch(s, 1, s.matchLength, s.Pos());
    s.lookahead := s.lookahead - s.matchLength;
    s.strstart := s.strstart + s.matchLength;
    s.matchLength := 0;
  }

  /** Tallies the run at strstart, or a literal if there is none. */
  method StepRun(s: DeflateState)
    requires Eager(s) && s.lookahead > 0 && s.strstart + MAX_MATCH < WINDOW_SIZE
    requires s.lookahead > MAX_MATCH || s.nextIn == []
    modifies s
    ensures Eager(s) && old(s.Pos()) < s.Pos() <= |s.data|
    ensures Tallied(s) + RleTokens(s.data, s.Pos()) == old(Tallied(s)) + RleTokens(s.data, old(s.Pos()))
  {
    hide OutputOk, Repeats, WindowOk, AllTokens, RunAt, RleTokens, Small, AllFull;
    InputEnd(s.window[..], s.data, s.base, s.strstart + s.lookahead);
    RleMore(s.data, s.Pos());
    var full;
    var len := RunLength(s);
    if len >= MIN_MATCH {
      full := TakeRun(s, len);
    } else {
      full := StepLiteral(s);
    }
    if full {
      FlushBlock(s);
    }
  }

  method KeepFilled(s: DeflateState, enough: nat) returns (more: bool)
    requires Eager(s) && enough < MIN_LOOKAHEAD
    modifies s, s.window, s.head, s.prev
    ensures Eager(s) && s.Pos() == old(s.Pos()) && s.blocks == old(s.blocks) && s.cuts == old(s.cuts) && s.tokens == old(s.tokens) && more == (s.lookahead > 0)
    ensures s.lookahead > enough || s.strstart + MIN_LOOKAHEAD <= WINDOW_SIZE
    ensures !more ==> s.Pos() == |s.data|
    ensures s.lookahead > enough || s.nextIn == []
  {
    hide OutputOk, WindowOk, Small, AllFull, DeflateState.KeyOk;
    if s.lookahead <= enough {
      s.FillWindow();
    }
    more := s.lookahead > 0;
    InputEnd(s.window[..], s.data, s.base, s.strstart + s.lookahead);
  }

  /** deflate_rle, run to the end of the input. */
  method DeflateRle(s: DeflateState)
    requires s.Ready() && s.Started()
    modifies s, s.window, s.head, s.prev
    ensures BlocksOk(s.blocks, s.cuts, s.data) && s.cuts[|s.blocks|] == |s.data| && |s.blocks| >= 1
    ensures Small(s.blocks, s.litBufsize) && AllFull(s.blocks[..|s.blocks| - 1], s.litBufsize)
    ensures Expands([], AllTokens(s.blocks), s.data)
    ensures AllTokens(s.blocks) == RleTokens(s.data, 0)
  {
    hide OutputOk, BlocksOk, AllTokens, Expands, WindowOk, RleTokens;
    StartsOk(s.data);
    NothingTallied();
    while true
      invariant Eager(s) && s.Pos() <= |s.data|
      invariant Tallied(s) + RleTokens(s.data, s.Pos()) == RleTokens(s.data, 0)
      decreases |s.data| - s.Pos()
    {
      var more := KeepFilled(s, MAX_MATCH);
      if !more {
        break;
      }
      StepRun(s);
    }
    RleMore(s.data, s.Pos());
    FlushLast(s);
  }

  /** deflate_huff, run to the end of the input. */
  method DeflateHuff(s: DeflateState)
    requires s.Ready() && s.Started()
    modifies s, s.window, s.head, s.prev
    ensures BlocksOk(s.blocks, s.cuts, s.data) && s.cuts[|s.blocks|] == |s.data| && |s.blocks| >= 1
    ensures Small(s.blocks, s.litBufsize) && AllFull(s.blocks[..|s.blocks| - 1], s.litBufsize)
    ensures Expands([], AllTokens(s.blocks), s.data)
    ensures AllTokens(s.blocks) == Literals(s.data)
  {
    hide OutputOk, BlocksOk, AllTokens, Expands, WindowOk;
    StartsOk(s.data);
    NothingTallied();
    while true
      invariant Eager(s) && s.Pos() <= |s.data|
      invariant |s.cuts| == |s.blocks| + 1 && s.Pos() - s.cuts[|s.blocks|] == |s.tokens|
      invariant Tallied(s) == Literals(s.data[..s.Pos()])
      decreases |s.data| - s.Pos()
    {
      var more := KeepFilled(s, 0);
      if !more {
        break;
      }
      s.matchLength := 0;
      var full := StepLiteral(s);
      if full {
        FlushBlock(s);
      }
    }
    assert s.data[..s.Pos()] == s.data;
    FlushLast(s);
  }
}
