/** The sliding window of deflate.c: reading input, sliding, and inserting strings. */
module DeflateWindow {
  import opened Lz77
  import opened HashChains

  const WINDOW_SIZE: nat := 65536   // 2 * W_SIZE

  /** The first n bytes of the window are the input from position base on. */
  ghost predicate WindowOk(win: seq<byte>, data: seq<byte>, base: nat, n: nat) {
    n <= |win| == WINDOW_SIZE && base + n <= |data| && forall i :: 0 <= i < n ==> win[i] == data[base + i]
  }

  /** A block handed to _tr_flush_block: its tokens, and its raw bytes if they are still in the window. */
  datatype Raw = Bytes(bytes: seq<byte>) | TooOld
  datatype Block = Block(tokens: seq<Token>, raw: Raw)

  class DeflateState {
    const window: array<byte>
    const head: array<nat>
    const prev: array<nat>
    var strstart: nat
    var lookahead: nat
    var blockStart: int
    var matchLength: nat
    var matchStart: int
    var prevLength: nat
    var prevMatch: int
    var matchAvailable: bool
    var insH: bv16
    var nextIn: seq<byte>
    var tokens: seq<Token>
    var blocks: seq<Block>
    const litBufsize: nat
    const goodMatch: nat
    const maxLazy: nat
    const niceMatch: nat
    const maxChain: nat
    const filtered: bool
    /** The whole input, and the position of window[0] in it. */
    ghost const data: seq<byte>
    ghost var base: nat
    /** Where the flushed blocks begin and end in the input. */
    ghost var cuts: seq<nat>

    /** lm_init, with all of the input available. */
    constructor (input: seq<byte>, litBufsize: nat, goodMatch: nat, maxLazy: nat, niceMatch: nat, maxChain: nat, filtered: bool)
      requires 2 <= litBufsize <= 0x8000 && maxChain >= 4 && niceMatch >= 1
      ensures Ready() && Started() && data == input && fresh(window) && fresh(head) && fresh(prev)
      ensures this.litBufsize == litBufsize && this.goodMatch == goodMatch && this.maxLazy == maxLazy
      ensures this.niceMatch == niceMatch && this.maxChain == maxChain && this.filtered == filtered
    {
      window := new byte[WINDOW_SIZE](_ => 0);
      head := new nat[HASH_SIZE](_ => 0);
      prev := new nat[W_SIZE](_ => 0);
      strstart, lookahead, blockStart := 0, 0, 0;
      matchLength, prevLength, matchStart, prevMatch, matchAvailable, insH := 2, 2, 0, 0, false, 0;
      nextIn, tokens, blocks := input, [], [];
      this.litBufsize, this.goodMatch, this.maxLazy := litBufsize, goodMatch, maxLazy;
      this.niceMatch, this.maxChain, this.filtered := niceMatch, maxChain, filtered;
      data, base, cuts := input, 0, [0];
    }

    /** The state right after lm_init. */
    ghost predicate Started()
      reads this
    {
      base == 0 && strstart == 0 && lookahead == 0 && blockStart == 0 && matchLength == 2 && !matchAvailable && tokens == [] && blocks == [] && cuts == [0]
    }

    ghost predicate Arrays() {
      && window.Length == WINDOW_SIZE && head.Length == HASH_SIZE && prev.Length == W_SIZE && head != prev
      && window as object != head && window as object != prev
      && 2 <= litBufsize <= 0x8000 && maxChain >= 4 && niceMatch >= 1
    }

    /** Position in the input of strstart. */
    ghost function Pos(): nat
      reads this
    {
      base + strstart
    }

    ghost predicate InputOk()
      reads this, window
    {
      && WindowOk(window[..], data, base, strstart + lookahead)
      && nextIn == data[base + strstart + lookahead..]
    }

    /** The hash key is ready for the string at strstart, if there is one. */
    ghost predicate KeyOk()
      reads this
    {
      lookahead >= MIN_MATCH && Pos() + lookahead <= |data| ==> Carries(insH, data[Pos()], data[Pos() + 1])
    }

    /** As much of the input as fits has been read, unless nothing has been read yet. */
    ghost predicate Filled()
      reads this
    {
      nextIn == [] || strstart + lookahead == WINDOW_SIZE || strstart + lookahead == 0
    }

    ghost predicate Ready()
      reads this, window, head, prev
    {
      Arrays() && InputOk() && KeyOk() && ChainsOk(head[..], prev[..], data, base, strstart)
    }

    /** slide_hash. */
    method SlideHash()
      requires Arrays()
      modifies head, prev
      ensures forall i :: 0 <= i < HASH_SIZE ==> head[i] == Slid(old(head[i]))
      ensures forall i :: 0 <= i < W_SIZE ==> prev[i] == Slid(old(prev[i]))
    {
      var n := HASH_SIZE;
      while n != 0
        invariant 0 <= n <= HASH_SIZE && prev[..] == old(prev[..])
        invariant forall i :: 0 <= i < n ==> head[i] == old(head[i])
        invariant forall i :: n <= i < HASH_SIZE ==> head[i] == Slid(old(head[i]))
      {
        n := n - 1;
        head[n] := Slid(head[n]);
      }
      n := W_SIZE;
      while n != 0
        invariant 0 <= n <= W_SIZE
        invariant forall i :: 0 <= i < HASH_SIZE ==> head[i] == Slid(old(head[i]))
        invariant forall i :: 0 <= i < n ==> prev[i] == old(prev[i])
        invariant forall i :: n <= i < W_SIZE ==> prev[i] == Slid(old(prev[i]))
      {
        n := n - 1;
        prev[n] := Slid(prev[n]);
      }
    }

    /** Moves the upper half of the window to the lower one. */
    method MoveDown(count: nat)
      requires Arrays() && count <= W_SIZE
      modifies window
      ensures forall i :: 0 <= i < count ==> window[i] == old(window[i + W_SIZE])
    {
      for i := 0 to count
        invariant forall j :: 0 <= j < i ==> window[j] == old(window[j + W_SIZE])
        invariant forall j :: i <= j < WINDOW_SIZE ==> window[j] == old(window[j])
      {
        window[i] := window[i + W_SIZE];
      }
    }

    /** The slide of fill_window, when strstart is too far up. */
    method Slide(more: nat)
      requires Arrays() && InputOk()
      requires strstart >= W_SIZE + MAX_DIST && more == WINDOW_SIZE - lookahead - strstart && strstart + lookahead <= WINDOW_SIZE
      modifies this`matchStart, this`strstart, this`blockStart, this`base, window, head, prev
      ensures InputOk()
      ensures old(ChainsOk(head[..], prev[..], data, base, strstart)) ==> ChainsOk(head[..], prev[..], data, base, strstart)
      ensures base == old(base) + W_SIZE && strstart == old(strstart) - W_SIZE
      ensures matchStart == old(matchStart) - W_SIZE && blockStart == old(blockStart) - W_SIZE
    {
      hide ChainsOk, WindowOk;
      ghost var win, n := window[..], strstart + lookahead - W_SIZE;
      MoveDown(W_SIZE - more);
      WindowMoved(win, window[..], data, base + W_SIZE, n);
      SlideChains();
      matchStart := matchStart - W_SIZE;
      strstart := strstart - W_SIZE;
      blockStart := blockStart - W_SIZE;
      base := base + W_SIZE;
    }

    /** slide_hash keeps the chains. */
    method SlideChains()
      requires Arrays() && strstart >= W_SIZE
      modifies head, prev
      ensures old(ChainsOk(head[..], prev[..], data, base, strstart)) ==> ChainsOk(head[..], prev[..], data, base + W_SIZE, strstart - W_SIZE)
    {
      hide ChainsOk, Slid;
      ghost var hd, pv := head[..], prev[..];
      SlideHash();
      assert forall i :: 0 <= i < HASH_SIZE ==> head[..][i] == Slid(hd[i]);
      assert forall i :: 0 <= i < W_SIZE ==> prev[..][i] == Slid(pv[i]);
      if ChainsOk(hd, pv, data, base, strstart) {
        SlideKeeps(hd, pv, head[..], prev[..], data, base, strstart);
      }
    }

    /** read_buf: copies input to the end of the window. */
    method ReadBuf(size: nat) returns (n: nat)
      requires Arrays() && InputOk() && strstart + lookahead + size <= WINDOW_SIZE
      modifies this`nextIn, this`lookahead, window
      ensures InputOk() && lookahead == old(lookahead) + n && |nextIn| == |old(nextIn)| - n
      ensures n == if old(|nextIn|) < size then old(|nextIn|) else size
    {
      n := if |nextIn| < size then |nextIn| else size;
      var at := strstart + lookahead;
      ghost var win := window[..];
      CopyIn(at, n);
      MoreWindow(win, window[..], data, base, at, nextIn, n);
      nextIn := nextIn[n..];
      lookahead := lookahead + n;
    }

    /** zmemcpy from the input into the window. */
    method CopyIn(at: nat, n: nat)
      requires at + n <= window.Length && n <= |nextIn|
      modifies window
      ensures forall j :: 0 <= j < at ==> window[j] == old(window[j])
      ensures forall j :: at <= j < at + n ==> window[j] == nextIn[j - at]
    {
      for i := 0 to n
        invariant forall j :: 0 <= j < at ==> window[j] == old(window[j])
        invariant forall j :: at <= j < at + i ==> window[j] == nextIn[j - at]
      {
        window[at + i] := nextIn[i];
      }
    }
  
    /** Initializes the hash key from the first two bytes. */
    method InitKey()
      requires Arrays() && InputOk() && lookahead >= MIN_MATCH
      modifies this`insH
      ensures InputOk() && KeyOk()
    {
      hide Carries;
      UpdateStarts(window[strstart], window[strstart + 1]);
      insH := window[strstart] as bv16;
      insH := UpdateHash(insH, window[strstart + 1]);
    }

    /** One round of fill_window: slide if the window is almost full, then read. */
    method FillRound() returns (ended: bool)
      requires Arrays() && InputOk() && lookahead < MIN_LOOKAHEAD && strstart + lookahead <= WINDOW_SIZE
      modifies this`matchStart, this`strstart, this`blockStart, this`base, this`nextIn, this`lookahead, this`insH, window, head, prev
      ensures InputOk() && strstart + lookahead <= WINDOW_SIZE
      ensures old(Ready()) ==> Ready()
      ensures strstart + (if lookahead < MIN_LOOKAHEAD then MIN_LOOKAHEAD else lookahead) <= WINDOW_SIZE
      ensures ended ==> nextIn == []
      ensures !ended ==> |nextIn| < |old(nextIn)|
      ensures nextIn == [] || strstart + lookahead == WINDOW_SIZE
      ensures base == old(base) + if old(strstart) >= W_SIZE + MAX_DIST then W_SIZE else 0
      ensures Pos() == old(Pos()) && base + matchStart == old(base + matchStart) && base + blockStart == old(base + blockStart)
      ensures (old(strstart) >= 1 ==> strstart >= 1) && lookahead >= old(lookahead)
    {
      hide ChainsOk, WindowOk, Carries;
      var more := WINDOW_SIZE - lookahead - strstart;
      if strstart >= W_SIZE + MAX_DIST {
        Slide(more);
        more := more + W_SIZE;
      }
      if |nextIn| == 0 {
        return true;
      }
      var n := ReadBuf(more);
      if lookahead >= MIN_MATCH {
        InitKey();
      }
      return false;
    }

    /** fill_window. */
    method FillWindow()
      requires Arrays() && InputOk() && lookahead < MIN_LOOKAHEAD && strstart + lookahead <= WINDOW_SIZE
      modifies this`matchStart, this`strstart, this`blockStart, this`base, this`nextIn, this`lookahead, this`insH, window, head, prev
      ensures InputOk() && strstart + lookahead <= WINDOW_SIZE
      ensures old(Ready()) ==> Ready()
      ensures strstart + MIN_LOOKAHEAD <= WINDOW_SIZE
      ensures lookahead >= MIN_LOOKAHEAD || nextIn == []
      ensures nextIn == [] || strstart + lookahead == WINDOW_SIZE
      ensures base == old(base) + if old(strstart) >= W_SIZE + MAX_DIST then W_SIZE else 0
      ensures Pos() == old(Pos()) && base + matchStart == old(base + matchStart) && base + blockStart == old(base + blockStart)
      ensures (old(strstart) >= 1 ==> strstart >= 1) && lookahead >= old(lookahead)
    {
      hide ChainsOk, InputOk, KeyOk;
      var ended := FillRound();
      while !ended && lookahead < MIN_LOOKAHEAD && |nextIn| != 0
        invariant InputOk() && strstart + lookahead <= WINDOW_SIZE
        invariant old(Ready()) ==> Ready()
        invariant strstart + (if lookahead < MIN_LOOKAHEAD then MIN_LOOKAHEAD else lookahead) <= WINDOW_SIZE
        invariant ended ==> nextIn == []
        invariant lookahead >= MIN_LOOKAHEAD ==> nextIn == [] || strstart + lookahead == WINDOW_SIZE
        invariant base == old(base) + if old(strstart) >= W_SIZE + MAX_DIST then W_SIZE else 0
        invariant strstart < W_SIZE + MAX_DIST || lookahead >= MIN_LOOKAHEAD || nextIn == []
        invariant Pos() == old(Pos()) && base + matchStart == old(base + matchStart) && base + blockStart == old(base + blockStart)
        invariant (old(strstart) >= 1 ==> strstart >= 1) && lookahead >= old(lookahead)
        decreases |nextIn|
      {
        ended := FillRound();
      }
    }

    /** INSERT_STRING at strstart, with n valid bytes in the window; matchHead is the previous head of the chain. */
    method InsertString(ghost n: nat) returns (matchHead: nat)
      requires Arrays() && WindowOk(window[..], data, base, n) && strstart + MIN_MATCH <= n
      requires Carries(insH, data[Pos()], data[Pos() + 1]) && ChainsOk(head[..], prev[..], data, base, strstart)
      modifies this`insH, head, prev
      ensures ChainsOk(head[..], prev[..], data, base, strstart + 1)
      ensures Carries(insH, data[Pos() + 1], data[Pos() + 2])
      ensures insH == ((data[Pos()] as bv16) << 12) ^ ((data[Pos() + 1] as bv16) << 6) ^ (data[Pos() + 2] as bv16)
      ensures head[..] == old(head[..])[insH as nat := strstart] && matchHead == old(head[..])[insH as nat]
      ensures ChainLink(matchHead, data, base, strstart, Idx(HashAt(data, Pos())))
    {
      hide Idx, UpdateHash, Carries, Hash3, Slot;
      ghost var hd: seq<nat>, pv: seq<nat> := head[..], prev[..];
      assert window[strstart + 2] == data[Pos() + 2];
      UpdateRolls(insH, data[Pos()], data[Pos() + 1], data[Pos() + 2]);
      InsertKeeps(hd, pv, data, base, strstart);
      insH := UpdateHash(insH, window[strstart + (MIN_MATCH - 1)]);
      assert insH == HashAt(data, Pos());
      HashIs(data, Pos(), insH);
      matchHead := head[Idx(insH)];
      prev[Slot(strstart)] := matchHead;
      head[Idx(insH)] := strstart;
      assert prev[..] == pv[Slot(strstart) := matchHead] && head[..] == hd[Idx(insH) := strstart];
    }
  }

  /** The key in bits, and as an index. */
  lemma HashIs(data: seq<byte>, p: nat, h: bv16)
    requires p + MIN_MATCH <= |data| && h == HashAt(data, p)
    ensures h == ((data[p] as bv16) << 12) ^ ((data[p + 1] as bv16) << 6) ^ (data[p + 2] as bv16) && Idx(h) == h as nat
  {
  }

  lemma WindowMoved(win: seq<byte>, win': seq<byte>, data: seq<byte>, base: nat, n: nat)
    requires base >= W_SIZE && WindowOk(win, data, base - W_SIZE, n + W_SIZE) && |win'| == |win| && n <= W_SIZE
    requires forall i :: 0 <= i < n ==> win'[i] == win[i + W_SIZE]
    ensures WindowOk(win', data, base, n)
  {
  }

  /** The next n bytes of the input are in the window. */
  lemma MoreWindow(was: seq<byte>, win: seq<byte>, data: seq<byte>, base: nat, at: nat, nextIn: seq<byte>, n: nat)
    requires WindowOk(was, data, base, at) && nextIn == data[base + at..] && n <= |nextIn| && |win| == |was| && at + n <= |win|
    requires forall j :: 0 <= j < at ==> win[j] == was[j]
    requires forall j :: at <= j < at + n ==> win[j] == nextIn[j - at]
    ensures WindowOk(win, data, base, at + n) && nextIn[n..] == data[base + at + n..]
  {
  }
}
