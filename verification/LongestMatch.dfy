/** longest_match of deflate.c. */
module LongestMatch {
  import opened Lz77
  import opened HashChains
  import opened LazyParsing
  import opened DeflateWindow

  /** The window bytes [at, at + len) repeat those dist back. */
  ghost predicate WindowRepeats(win: seq<byte>, at: nat, dist: int, len: nat) {
    1 <= dist <= at && at + len <= |win| && forall i :: at <= i < at + len ==> win[i] == win[i - dist]
  }

  /** The strings at cur and at strstart do not agree for more than best bytes. */
  ghost predicate NoLonger(win: seq<byte>, strstart: nat, cur: nat, best: nat) {
    !WindowRepeats(win, strstart, strstart - cur, best + 1)
  }

  lemma NoLongerMono(win: seq<byte>, strstart: nat, cur: nat, best: nat, more: nat)
    requires NoLonger(win, strstart, cur, best) && best <= more
    ensures NoLonger(win, strstart, cur, more)
  {
  }

  /** How far the string at curMatch agrees with the one at strstart, the first three bytes being equal.
      The end is tested only every eighth comparison. */
  method ScanMatch(window: array<byte>, strstart: nat, curMatch: nat) returns (len: nat)
    requires window.Length == WINDOW_SIZE && curMatch < strstart && strstart + MIN_LOOKAHEAD <= WINDOW_SIZE
    requires WindowRepeats(window[..], strstart, strstart - curMatch, MIN_MATCH)
    ensures MIN_MATCH <= len <= MAX_MATCH && WindowRepeats(window[..], strstart, strstart - curMatch, len)
    ensures len < MAX_MATCH ==> NoLonger(window[..], strstart, curMatch, len)
  {
    var strend := strstart + MAX_MATCH;
    var scan := strstart + 3;
    var match_ := curMatch + 3;
    while window[scan] == window[match_] && ((scan - (strstart + 2)) % 8 != 0 || scan < strend)
      invariant strstart + 3 <= scan <= strend && match_ == scan - (strstart - curMatch)
      invariant WindowRepeats(window[..], strstart, strstart - curMatch, scan - strstart)
      decreases strend - scan
    {
      scan, match_ := scan + 1, match_ + 1;
    }
    len := MAX_MATCH - (strend - scan);
    assert len < MAX_MATCH ==> window[..][strstart + len] != window[..][strstart + len - (strstart - curMatch)];
  }

  /** The third byte need not be compared: it follows from the equal hash keys. */
  lemma ThirdFollows(win: seq<byte>, data: seq<byte>, base: nat, n: nat, strstart: nat, cur: nat)
    requires WindowOk(win, data, base, n) && strstart + MIN_MATCH <= n && 0 < cur < strstart
    requires StringAt(data, base + cur, HashOf(data, base + strstart))
    requires win[cur] == win[strstart] && win[cur + 1] == win[strstart + 1]
    ensures WindowRepeats(win, strstart, strstart - cur, MIN_MATCH)
  {
    hide Idx, Hash3;
    IdxInjective(HashAt(data, base + cur), HashAt(data, base + strstart));
    ThirdByte(data[base + cur], data[base + cur + 1], data[base + cur + 2], data[base + strstart + 2]);
  }

  /** Equal bytes in the window are equal input bytes, as far as the lookahead goes. */
  lemma RepeatsInData(win: seq<byte>, data: seq<byte>, base: nat, n: nat, at: nat, dist: int, len: nat, k: nat)
    requires WindowOk(win, data, base, n) && WindowRepeats(win, at, dist, len) && k <= len && at + k <= n
    ensures Repeats(data, base + at, dist, k)
  {
    forall i | base + at <= i < base + at + k ensures data[i] == data[i - dist] {
      assert win[i - base] == win[i - base - dist];
    }
  }

  /** The length of the match at curMatch, or 0 if it cannot be longer than bestLen. */
  method TryMatch(s: DeflateState, curMatch: nat, bestLen: nat) returns (len: nat)
    requires s.Arrays() && s.InputOk() && 2 <= bestLen <= MAX_MATCH && 0 < curMatch < s.strstart
    requires s.lookahead >= MIN_MATCH && s.strstart + MIN_LOOKAHEAD <= WINDOW_SIZE
    requires StringAt(s.data, s.base + curMatch, HashOf(s.data, s.Pos()))
    ensures len <= MAX_MATCH && (len != 0 ==> WindowRepeats(s.window[..], s.strstart, s.strstart - curMatch, len))
    ensures len < MAX_MATCH && bestLen < MAX_MATCH ==> NoLonger(s.window[..], s.strstart, curMatch, if len > bestLen then len else bestLen)
  {
    hide Idx, HashAt;
    var scan, match_ := s.strstart, curMatch;
    if s.window[match_ + bestLen] != s.window[scan + bestLen] ||
       s.window[match_ + bestLen - 1] != s.window[scan + bestLen - 1] ||
       s.window[match_] != s.window[scan] || s.window[match_ + 1] != s.window[scan + 1] {
      Differ(s.window[..], scan, match_, bestLen);
      return 0;
    }
    ThirdFollows(s.window[..], s.data, s.base, s.strstart + s.lookahead, s.strstart, curMatch);
    len := ScanMatch(s.window, s.strstart, curMatch);
    if len < bestLen {
      NoLongerMono(s.window[..], s.strstart, curMatch, len, bestLen);
    }
  }

  /** A candidate that is skipped cannot be longer. */
  lemma Differ(win: seq<byte>, scan: nat, cur: nat, best: nat)
    requires cur < scan && scan + best < |win| && best >= 1
    requires win[cur + best] != win[scan + best] || win[cur + best - 1] != win[scan + best - 1] || win[cur] != win[scan] || win[cur + 1] != win[scan + 1]
    ensures NoLonger(win, scan, cur, best)
  {
    var dist := scan - cur;
    assert win[scan + best - dist] == win[cur + best] && win[scan + best - 1 - dist] == win[cur + best - 1];
    assert win[scan - dist] == win[cur] && win[scan + 1 - dist] == win[cur + 1];
  }

  ghost function Par(s: DeflateState): Params {
    Params(s.goodMatch, s.maxLazy, s.niceMatch, s.maxChain, s.filtered)
  }

  function Limit(strstart: nat): nat {
    if strstart > MAX_DIST then strstart - MAX_DIST else 0
  }

  function Min(a: nat, b: nat): nat {
    if a <= b then a else b
  }

  /** The match at cur, as TryMatch tells it, on the input: only bytes behind the lookahead can make it longer. */
  lemma CandidateLength(win: seq<byte>, data: seq<byte>, base: nat, at: nat, n: nat, cur: nat, bestLen: nat, len: nat)
    requires WindowOk(win, data, base, at + n) && cur < at && at + MIN_LOOKAHEAD <= |win| && (n >= MIN_LOOKAHEAD || base + at + n == |data|)
    requires (bestLen < Reach(data, base + at) || bestLen == Reach(data, base + at) == MAX_MATCH) && len <= MAX_MATCH && (len != 0 ==> WindowRepeats(win, at, at - cur, len))
    requires len < MAX_MATCH && bestLen < MAX_MATCH ==> NoLonger(win, at, cur, if len > bestLen then len else bestLen)
    ensures var c, reach := Common(data, base + at, base + cur, Reach(data, base + at)), Reach(data, base + at);
      (c > bestLen <==> len > bestLen) && (len > bestLen ==> c == Min(len, reach))
  {
    hide WindowOk, WindowRepeats, Common, Repeats;
    var p, q, reach := base + at, base + cur, Reach(data, base + at);
    if len > bestLen {
      RepeatsInData(win, data, base, at + n, at, at - cur, len, Min(len, reach));
      if len < reach {
        NotInData(win, data, base, at + n, at, cur, len);
      }
      CommonIs(data, p, q, reach, Min(len, reach));
    } else if bestLen < reach {
      NotInData(win, data, base, at + n, at, cur, bestLen);
      CommonLess(data, p, q, reach, bestLen);
    }
  }

  /** Equal input bytes within the lookahead are equal window bytes. */
  lemma NotInData(win: seq<byte>, data: seq<byte>, base: nat, n: nat, at: nat, cur: nat, best: nat)
    requires WindowOk(win, data, base, n) && NoLonger(win, at, cur, best) && cur < at && at + best + 1 <= n
    ensures !Repeats(data, base + at, at - cur, best + 1)
  {
    if Repeats(data, base + at, at - cur, best + 1) {
      forall i | at <= i < at + best + 1 ensures win[i] == win[i - (at - cur)] {
        assert data[base + i] == data[base + i - (at - cur)];
      }
    }
  }

  /** What has been found so far, on the input. */
  ghost function SoFar(prevLength: nat, bestLen: nat, at: int, reach: nat): Found {
    if bestLen > prevLength && at >= 0 then Found(Min(bestLen, reach), at) else Found(prevLength, 0)
  }

  /** The state of the search: what is left of it gives the result of the whole. If the pending match is as
      long as the rest of the input, there is nothing left to find. */
  ghost predicate Searching(data: seq<byte>, base: nat, strstart: nat, first: nat, n: nat, nice: nat, prevLength: nat,
                            cur: nat, chainLength: nat, bestLen: nat, matchStart: int, more: bool)
    requires 0 < first < strstart && base + strstart + MIN_MATCH <= |data|
  {
    var p, reach := base + strstart, Reach(data, base + strstart);
    && (more ==> 0 < cur < strstart && strstart - cur <= MAX_DIST && chainLength >= 1 && StringAt(data, base + cur, HashOf(data, p)))
    && prevLength <= bestLen <= MAX_MATCH && (bestLen > prevLength ==> matchStart >= 0)
    && (prevLength < reach ==>
          && (more ==> bestLen < reach || bestLen == reach == MAX_MATCH)
          && Search(data, base, p, base + first, n, nice, Found(prevLength, 0)) ==
               var found := SoFar(prevLength, bestLen, base + matchStart, reach);
               if more then Search(data, base, p, base + cur, chainLength, nice, found) else found)
  }

  lemma SearchStart(data: seq<byte>, base: nat, strstart: nat, first: nat, n: nat, nice: nat, prevLength: nat, matchStart: int)
    requires 0 < first < strstart && base + strstart + MIN_MATCH <= |data| && prevLength <= MAX_MATCH && n >= 1
    requires strstart - first <= MAX_DIST && StringAt(data, base + first, HashOf(data, base + strstart))
    ensures Searching(data, base, strstart, first, n, nice, prevLength, first, n, prevLength, matchStart, true)
  {
    hide Search, HashOf, StringAt;
  }

  /** One step of the search, on the input. */
  lemma SearchStep(data: seq<byte>, base: nat, strstart: nat, first: nat, n: nat, nice: nat, prevLength: nat,
                   cur: nat, chainLength: nat, bestLen: nat, matchStart: int, len: nat, next: nat, more: bool)
    requires 0 < first < strstart && base + strstart + MIN_MATCH <= |data|
    requires Searching(data, base, strstart, first, n, nice, prevLength, cur, chainLength, bestLen, matchStart, true) && len <= MAX_MATCH
    requires prevLength < Reach(data, base + strstart) ==>
      var c, reach := Common(data, base + strstart, base + cur, Reach(data, base + strstart)), Reach(data, base + strstart);
      (c > bestLen <==> len > bestLen) && (len > bestLen ==> c == Min(len, reach)) && (len > reach || len == reach < MAX_MATCH ==> reach >= nice)
    requires base + next == Latest(data, base, base + cur, HashOf(data, base + strstart))
    requires more == (!(len > bestLen && Min(len, Reach(data, base + strstart)) >= nice) && next > Limit(strstart) && chainLength > 1)
    ensures Searching(data, base, strstart, first, n, nice, prevLength, next, if next > Limit(strstart) then chainLength - 1 else chainLength,
                      if len > bestLen then len else bestLen, if len > bestLen then cur else matchStart, more)
  {
    hide HashOf, StringAt, Common, Reach, Latest;
  }
  /** The limit of the search: nice_match, or what is left of the input. */
  lemma NiceSame(data: seq<byte>, par: Params, p: nat, n: nat, len: nat)
    requires p + n <= |data| && (n >= MIN_LOOKAHEAD || p + n == |data|) && len <= MAX_MATCH
    ensures len >= Min(par.niceMatch, n) <==> Min(len, Reach(data, p)) >= NiceFor(data, par, p)
    ensures len > Reach(data, p) || len == Reach(data, p) < MAX_MATCH ==> Reach(data, p) >= NiceFor(data, par, p)
  {
  }

  /** The body of the loop: looks at one string, and moves on along the chain. */
  method NextCandidate(s: DeflateState, curMatch0: nat, chainLength0: nat, bestLen0: nat, niceMatch: nat, limit: nat, ghost first: nat, ghost n: nat)
    returns (curMatch: nat, chainLength: nat, bestLen: nat, more: bool)
    requires s.Arrays() && s.InputOk() && ChainsOk(s.head[..], s.prev[..], s.data, s.base, s.strstart + 1)
    requires s.lookahead >= MIN_MATCH && s.strstart + MIN_LOOKAHEAD <= WINDOW_SIZE && 2 <= s.prevLength && limit == Limit(s.strstart)
    requires (s.lookahead >= MIN_LOOKAHEAD || s.nextIn == []) && niceMatch == Min(s.niceMatch, s.lookahead) && 0 < first < s.strstart
    requires Searching(s.data, s.base, s.strstart, first, n, NiceFor(s.data, Par(s), s.Pos()), s.prevLength,
                       curMatch0, chainLength0, bestLen0, s.matchStart, true)
    modifies s`matchStart
    ensures Searching(s.data, s.base, s.strstart, first, n, NiceFor(s.data, Par(s), s.Pos()), s.prevLength,
                      curMatch, chainLength, bestLen, s.matchStart, more)
    ensures more ==> curMatch < curMatch0
  {
    hide Idx, HashAt, HashOf, Slot, HeadsOk, WindowRepeats, WindowOk, NoLonger, StringAt, Search, Common, Reach, NiceFor, Latest, ChainLink;
    curMatch, chainLength, bestLen := curMatch0, chainLength0, bestLen0;
    ghost var start := s.matchStart;
    var l := TryMatch(s, curMatch, bestLen);
    var longer := l > bestLen;
    if longer {
      s.matchStart := curMatch;
      bestLen := l;
    }
    CandidateFacts(s, curMatch0, bestLen0, l);
    InputReach(s);
    var next := s.prev[Slot(curMatch)];
    NextInChain(s.prev[..], s.data, s.base, s.strstart, curMatch);
    SearchStep(s.data, s.base, s.strstart, first, n, NiceFor(s.data, Par(s), s.Pos()), s.prevLength, curMatch0, chainLength0, bestLen0, start, l, next,
               !(longer && l >= niceMatch) && next > limit && chainLength0 > 1);
    if longer && l >= niceMatch {
      more := false;
    } else {
      curMatch := next;
      chainLength := if curMatch > limit then chainLength - 1 else chainLength;
      more := curMatch > limit && chainLength != 0;
    }
  }

  /** What comparing with the string at cur tells about the input. */
  lemma CandidateFacts(s: DeflateState, cur: nat, bestLen: nat, len: nat)
    requires s.Arrays() && s.InputOk() && cur < s.strstart && s.strstart + MIN_LOOKAHEAD <= WINDOW_SIZE
    requires (s.lookahead >= MIN_LOOKAHEAD || s.nextIn == []) && len <= MAX_MATCH
    requires len != 0 ==> WindowRepeats(s.window[..], s.strstart, s.strstart - cur, len)
    requires len < MAX_MATCH && bestLen < MAX_MATCH ==> NoLonger(s.window[..], s.strstart, cur, if len > bestLen then len else bestLen)
    ensures var reach, nice := Reach(s.data, s.Pos()), NiceFor(s.data, Par(s), s.Pos());
      && (bestLen < reach || bestLen == reach == MAX_MATCH ==>
            var c := Common(s.data, s.Pos(), s.base + cur, reach);
            (c > bestLen <==> len > bestLen) && (len > bestLen ==> c == Min(len, reach)))
      && (len > reach || len == reach < MAX_MATCH ==> reach >= nice)
      && (len >= Min(s.niceMatch, s.lookahead) <==> Min(len, reach) >= nice)
  {
    hide WindowRepeats, NoLonger, Common, Repeats;
    NiceSame(s.data, Par(s), s.Pos(), s.lookahead, len);
    if bestLen < Reach(s.data, s.Pos()) || bestLen == Reach(s.data, s.Pos()) == MAX_MATCH {
      CandidateLength(s.window[..], s.data, s.base, s.strstart, s.lookahead, cur, bestLen, len);
    }
  }

  /** No candidate repeats for longer than len. */
  ghost predicate NoneLonger(data: seq<byte>, base: nat, p: nat, cand: nat, n: nat, len: nat)
    requires p + MIN_MATCH <= |data|
  {
    forall q: nat :: base < q && Candidate(data, p, cand, n, q) ==> !Repeats(data, p, p - q, len + 1)
  }

  /** Walks the hash chain from curMatch0. A result above prev_length is the result of the search on the input:
      a true repetition at matchStart. Otherwise there is nothing longer to find, and matchStart means nothing. */
  method FindLongest(s: DeflateState, curMatch0: nat) returns (len: nat)
    requires s.Arrays() && s.InputOk() && ChainsOk(s.head[..], s.prev[..], s.data, s.base, s.strstart + 1)
    requires s.lookahead >= MIN_MATCH && s.strstart + MIN_LOOKAHEAD <= WINDOW_SIZE && 2 <= s.prevLength <= MAX_MATCH
    requires s.lookahead >= MIN_LOOKAHEAD || s.nextIn == []
    requires 0 < curMatch0 < s.strstart && s.strstart - curMatch0 <= MAX_DIST && StringAt(s.data, s.base + curMatch0, HashOf(s.data, s.Pos()))
    modifies s`matchStart
    ensures 2 <= len <= s.lookahead && len <= MAX_MATCH
    ensures var r := Search(s.data, s.base, s.Pos(), s.base + curMatch0, ChainFor(Par(s), s.prevLength), NiceFor(s.data, Par(s), s.Pos()), Found(s.prevLength, 0));
      if len > s.prevLength then r.len == len && r.at == s.base + s.matchStart else r.len == s.prevLength
    ensures len > s.prevLength ==>
      1 <= s.strstart - s.matchStart <= MAX_DIST && Repeats(s.data, s.Pos(), s.strstart - s.matchStart, len)
    ensures len < NiceFor(s.data, Par(s), s.Pos()) && len < MAX_MATCH ==>
      NoneLonger(s.data, s.base, s.Pos(), s.base + curMatch0, ChainFor(Par(s), s.prevLength), len)
  {
    hide Idx, HashAt, HashOf, Slot, ChainsOk, Searching, Search, StringAt, Repeats, ChainLink, NiceFor, WindowOk, Candidate, NoneLonger;
    var chainLength: nat := s.maxChain;
    var bestLen: nat := s.prevLength;
    var niceMatch := s.niceMatch;
    var limit := Limit(s.strstart);
    if s.prevLength >= s.goodMatch {
      chainLength := chainLength / 4;
    }
    if niceMatch > s.lookahead {
      niceMatch := s.lookahead;
    }
    var curMatch: nat := curMatch0;
    var more := true;
    InputReach(s);
    SearchStart(s.data, s.base, s.strstart, curMatch, chainLength, NiceFor(s.data, Par(s), s.Pos()), bestLen, s.matchStart);
    while more
      invariant Searching(s.data, s.base, s.strstart, curMatch0, ChainFor(Par(s), s.prevLength), NiceFor(s.data, Par(s), s.Pos()), s.prevLength,
                          curMatch, chainLength, bestLen, s.matchStart, more)
      decreases if more then curMatch + 1 else 0
    {
      curMatch, chainLength, bestLen, more := NextCandidate(s, curMatch, chainLength, bestLen, niceMatch, limit, curMatch0, ChainFor(Par(s), s.prevLength));
    }
    len := if bestLen <= s.lookahead then bestLen else s.lookahead;
    SearchEnd(s.data, s.base, s.strstart, s.lookahead, curMatch0, ChainFor(Par(s), s.prevLength), NiceFor(s.data, Par(s), s.Pos()),
              s.prevLength, curMatch, chainLength, bestLen, s.matchStart);
  }

  lemma InputReach(s: DeflateState)
    requires s.Arrays() && s.InputOk()
    ensures s.Pos() + s.lookahead <= |s.data| && (s.nextIn == [] <==> s.Pos() + s.lookahead == |s.data|)
  {
  }

  /** What the search has found when it ends. */
  lemma SearchEnd(data: seq<byte>, base: nat, strstart: nat, lookahead: nat, first: nat, n: nat, nice: nat, prevLength: nat,
                  cur: nat, chainLength: nat, bestLen: nat, matchStart: int)
    requires 0 < first < strstart && strstart - first <= MAX_DIST && MIN_MATCH <= lookahead && base + strstart + lookahead <= |data|
    requires lookahead >= MIN_LOOKAHEAD || base + strstart + lookahead == |data|
    requires StringAt(data, base + first, HashOf(data, base + strstart))
    requires Searching(data, base, strstart, first, n, nice, prevLength, cur, chainLength, bestLen, matchStart, false)
    ensures prevLength <= bestLen <= MAX_MATCH
    ensures var len, p, r := Min(bestLen, lookahead), base + strstart, Search(data, base, base + strstart, base + first, n, nice, Found(prevLength, 0));
      && (if len > prevLength then r.len == len && r.at == base + matchStart else r.len == prevLength)
      && (len > prevLength ==> 1 <= strstart - matchStart <= MAX_DIST && Repeats(data, p, strstart - matchStart, len))
      && (len < nice && len < MAX_MATCH ==> NoneLonger(data, base, p, base + first, n, len))
  {
    hide Search, StringAt, Repeats, HashOf, Common;
    var len, p := Min(bestLen, lookahead), base + strstart;
    if prevLength >= Reach(data, p) {
      SearchStuck(data, base, p, base + first, n, nice, Found(prevLength, 0));
    }
    SearchSound(data, base, p, base + first, n, nice, Found(prevLength, 0));
    if len < nice && len < MAX_MATCH {
      var cand := base + first;
      forall q: nat | base < q && Candidate(data, p, cand, n, q)
        ensures !Repeats(data, p, p - q, len + 1)
      {
        SearchBest(data, base, p, cand, n, nice, Found(prevLength, 0), q);
        NotLonger(data, p, q, len);
      }
    }
  }

  /** The link of a string within reach leads to the latest older string with the same hash. */
  lemma NextInChain(prev: seq<nat>, data: seq<byte>, base: nat, strstart: nat, cur: nat)
    requires PrevsOk(prev, data, base, strstart + 1) && 0 < cur < strstart && strstart - cur <= MAX_DIST
    requires base + strstart + MIN_MATCH <= |data| && StringAt(data, base + cur, HashOf(data, base + strstart))
    ensures base + prev[Slot(cur)] == Latest(data, base, base + cur, HashOf(data, base + strstart)) && prev[Slot(cur)] < cur
  {
    hide Idx, HashAt, Slot;
  }
}
