/** What deflate_slow is to find, on the input alone: lazy evaluation of the matches that a search among the
    earlier strings with the same hash comes upon. */
module LazyParsing {
  import opened Lz77
  import opened HashChains

  const TOO_FAR: nat := 4096

  datatype Params = Params(goodMatch: nat, maxLazy: nat, niceMatch: nat, maxChain: nat, filtered: bool)
  /** A length, and where in the input the bytes stood before. */
  datatype Found = Found(len: nat, at: nat)

  /** How far the strings at p and q agree, over at most n bytes. */
  ghost function Common(data: seq<byte>, p: nat, q: nat, n: nat): (r: nat)
    requires q < p && p + n <= |data|
    ensures r <= n && Repeats(data, p, p - q, r) && (r < n ==> data[p + r] != data[q + r])
    decreases n
  {
    if n == 0 || data[p] != data[q] then 0 else 1 + Common(data, p + 1, q + 1, n - 1)
  }

  /** The longest match there could be at p. */
  ghost function Reach(data: seq<byte>, p: nat): (r: nat)
    requires p <= |data|
    ensures p + r <= |data| && r <= MAX_MATCH
  {
    if |data| - p < MAX_MATCH then |data| - p else MAX_MATCH
  }

  lemma CommonIs(data: seq<byte>, p: nat, q: nat, n: nat, len: nat)
    requires q < p && len <= n && p + n <= |data| && Repeats(data, p, p - q, len) && (len < n ==> !Repeats(data, p, p - q, len + 1))
    ensures Common(data, p, q, n) == len
  {
  }

  lemma CommonLess(data: seq<byte>, p: nat, q: nat, n: nat, len: nat)
    requires q < p && len < n && p + n <= |data| && !Repeats(data, p, p - q, len + 1)
    ensures Common(data, p, q, n) <= len
  {
  }

  lemma NotLonger(data: seq<byte>, p: nat, q: nat, len: nat)
    requires q < p <= |data| && Common(data, p, q, Reach(data, p)) <= len < MAX_MATCH
    ensures !Repeats(data, p, p - q, len + 1)
  {
  }

  // ----- The search -----

  ghost function HashOf(data: seq<byte>, p: nat): nat
    requires p + MIN_MATCH <= |data|
  {
    Idx(HashAt(data, p))
  }

  /** The search among cand and the strings before it that have the hash of the one at p, at most n of them,
      latest first. It ends with the first one of length nice. */
  ghost function Search(data: seq<byte>, base: nat, p: nat, cand: nat, n: nat, nice: nat, best: Found): (r: Found)
    requires base < cand < p && p + MIN_MATCH <= |data|
    ensures r == best || (best.len < r.len <= Reach(data, p) && base < r.at <= cand)
    decreases n
  {
    var len := Common(data, p, cand, Reach(data, p));
    var now := if len > best.len then Found(len, cand) else best;
    var next := Latest(data, base, cand, HashOf(data, p));
    if (len > best.len && len >= nice) || next == base || p - next >= MAX_DIST || n <= 1 then now
    else Search(data, base, p, next, n - 1, nice, now)
  }

  /** What is found is a repetition within reach. */
  lemma {:induction false} SearchSound(data: seq<byte>, base: nat, p: nat, cand: nat, n: nat, nice: nat, best: Found)
    requires base < cand < p && p + MIN_MATCH <= |data| && p - cand <= MAX_DIST
    ensures var r := Search(data, base, p, cand, n, nice, best);
      r != best ==> p - r.at <= MAX_DIST && Repeats(data, p, p - r.at, r.len)
    decreases n
  {
    hide Idx, HashAt, Latest, StringAt, Repeats, Common, Reach;
    var len := Common(data, p, cand, Reach(data, p));
    var now := if len > best.len then Found(len, cand) else best;
    var next := Latest(data, base, cand, HashOf(data, p));
    if !((len > best.len && len >= nice) || next == base || p - next >= MAX_DIST || n <= 1) {
      SearchSound(data, base, p, next, n - 1, nice, now);
    }
  }

  /** How many strings with hash h begin behind q and before p. */
  ghost function Between(data: seq<byte>, q: nat, p: nat, h: nat): nat
    decreases p
  {
    if p <= q + 1 then 0 else Between(data, q, p - 1, h) + if StringAt(data, p - 1, h) then 1 else 0
  }

  lemma {:induction false} BetweenSkips(data: seq<byte>, q: nat, m: nat, p: nat, h: nat)
    requires q <= m < p && forall u :: m < u < p ==> !StringAt(data, u, h)
    ensures Between(data, q, p, h) == Between(data, q, m + 1, h)
    decreases p
  {
    hide StringAt;
    if m + 1 < p {
      BetweenSkips(data, q, m, p - 1, h);
    }
  }

  /** q is one of the first n strings with the hash of the one at p, counted from cand down, and within reach. */
  ghost predicate Candidate(data: seq<byte>, p: nat, cand: nat, n: nat, q: nat)
    requires p + MIN_MATCH <= |data|
  {
    q <= cand && StringAt(data, q, HashOf(data, p)) && (q == cand || p - q < MAX_DIST) && Between(data, q, cand + 1, HashOf(data, p)) < n
  }

  /** No candidate agrees for longer than the result, unless that is long enough to end the search; and none
      that is later agrees for as long. */
  lemma {:induction false} SearchBest(data: seq<byte>, base: nat, p: nat, cand: nat, n: nat, nice: nat, best: Found, q: nat)
    requires base < cand < p && p + MIN_MATCH <= |data| && base < q && Candidate(data, p, cand, n, q)
    requires StringAt(data, cand, HashOf(data, p))
    ensures var r := Search(data, base, p, cand, n, nice, best);
      && (r.len < nice ==> Common(data, p, q, Reach(data, p)) <= r.len)
      && (r != best && q > r.at ==> Common(data, p, q, Reach(data, p)) < r.len)
    decreases n
  {
    hide Idx, HashAt, Latest, StringAt, Repeats;
    var h := HashOf(data, p);
    var len := Common(data, p, cand, Reach(data, p));
    var now := if len > best.len then Found(len, cand) else best;
    var next := Latest(data, base, cand, h);
    if q < cand {
      assert q <= next;
      BetweenSkips(data, q, next, cand, h);
      if !(len > best.len && len >= nice) {
        SearchBest(data, base, p, next, n - 1, nice, now, q);
      }
    } else if !((len > best.len && len >= nice) || next == base || p - next >= MAX_DIST || n <= 1) {
      assert Search(data, base, p, cand, n, nice, best) == Search(data, base, p, next, n - 1, nice, now);
    }
  }

  /** Nothing can be longer than the reach. */
  lemma {:induction false} SearchStuck(data: seq<byte>, base: nat, p: nat, cand: nat, n: nat, nice: nat, best: Found)
    requires base < cand < p && p + MIN_MATCH <= |data| && best.len >= Reach(data, p)
    ensures Search(data, base, p, cand, n, nice, best) == best
  {
  }

  // ----- The choice at one position -----

  /** No match: length 2, as MIN_MATCH - 1 stands for it. */
  const NoMatch: Found := Found(2, 0)

  function ChainFor(par: Params, prevLen: nat): nat {
    if prevLen >= par.goodMatch then par.maxChain / 4 else par.maxChain
  }

  ghost function NiceFor(data: seq<byte>, par: Params, p: nat): nat
    requires p <= |data|
  {
    if par.niceMatch > |data| - p then |data| - p else par.niceMatch
  }

  /** A short match is not worth its bits if the data is filtered, or if it is far back. */
  predicate Discarded(par: Params, p: nat, m: Found) {
    m.len <= 5 && (par.filtered || (m.len == MIN_MATCH && p - m.at > TOO_FAR))
  }

  /** The match at p that is longer than the pending one and worth taking, or none. */
  ghost function Look(data: seq<byte>, par: Params, base: nat, p: nat, prevLen: nat): (r: Found)
    requires base <= p <= |data|
    ensures r == NoMatch || (prevLen < r.len <= Reach(data, p) && r.len >= MIN_MATCH && base < r.at < p)
  {
    if p + MIN_MATCH > |data| || prevLen >= par.maxLazy then NoMatch
    else
      var first := Latest(data, base, p, HashOf(data, p));
      if first == base || p - first > MAX_DIST then NoMatch
      else
        var m := Search(data, base, p, first, ChainFor(par, prevLen), NiceFor(data, par, p), Found(prevLen, 0));
        if m.len <= prevLen || m.len < MIN_MATCH || Discarded(par, p, m) then NoMatch else m
  }

  lemma LookIs(data: seq<byte>, par: Params, base: nat, p: nat, prevLen: nat)
    requires base <= p <= |data| && prevLen >= 2
    ensures p + MIN_MATCH > |data| || prevLen >= par.maxLazy ==> Look(data, par, base, p, prevLen) == NoMatch
    ensures p + MIN_MATCH <= |data| && prevLen < par.maxLazy ==>
      var first := Latest(data, base, p, HashOf(data, p));
      Look(data, par, base, p, prevLen) ==
        if first == base || p - first > MAX_DIST then NoMatch
        else
          var m := Search(data, base, p, first, ChainFor(par, prevLen), NiceFor(data, par, p), Found(prevLen, 0));
          if m.len <= prevLen || Discarded(par, p, m) then NoMatch else m
  {
    hide Search, Latest, HashOf;
  }

  lemma LookSound(data: seq<byte>, par: Params, base: nat, p: nat, prevLen: nat)
    requires base <= p <= |data|
    ensures var r := Look(data, par, base, p, prevLen);
      r != NoMatch ==> p - r.at <= MAX_DIST && Repeats(data, p, p - r.at, r.len)
  {
    hide Idx, HashAt, Repeats, StringAt, Common, Reach;
    if p + MIN_MATCH <= |data| {
      var first := Latest(data, base, p, HashOf(data, p));
      if first != base && p - first <= MAX_DIST {
        SearchSound(data, base, p, first, ChainFor(par, prevLen), NiceFor(data, par, p), Found(prevLen, 0));
      }
    }
  }

  /** An earlier string that the search is to take into account: with the same hash, less than the greatest
      distance back, and with fewer than n strings of that hash in between. */
  ghost predicate InReach(data: seq<byte>, base: nat, p: nat, n: nat, q: nat)
    requires p + MIN_MATCH <= |data|
  {
    && base < q < p && p - q < MAX_DIST && StringAt(data, q, HashOf(data, p))
    && Between(data, q, p, HashOf(data, p)) < n
  }

  lemma ReachIsCandidate(data: seq<byte>, base: nat, p: nat, n: nat, q: nat)
    requires p + MIN_MATCH <= |data| && base <= p && InReach(data, base, p, n, q)
    ensures var first := Latest(data, base, p, HashOf(data, p)); q <= first && p - first < MAX_DIST && Candidate(data, p, first, n, q)
  {
    hide Idx, HashAt, StringAt;
    var h := HashOf(data, p);
    var first := Latest(data, base, p, h);
    assert q <= first;
    BetweenSkips(data, q, first, p, h);
  }

  /** What Look passes over: no string in reach repeats for longer than the pending match and the new one,
      unless one of these is long enough to end the search, or the repetition is a short one that is not
      worth its bits. */
  lemma LookBest(data: seq<byte>, par: Params, base: nat, p: nat, prevLen: nat, q: nat, m: nat)
    requires base <= p && p + MIN_MATCH <= |data| && 2 <= prevLen < par.maxLazy
    requires InReach(data, base, p, ChainFor(par, prevLen), q) && Repeats(data, p, p - q, m) && m <= MAX_MATCH
    ensures var best := if Look(data, par, base, p, prevLen).len > prevLen then Look(data, par, base, p, prevLen).len else prevLen;
      m <= best || best >= par.niceMatch || par.niceMatch <= 5 || (par.filtered && m <= 5) || (m == 3 && p - q > 4096)
  {
    hide Idx, HashAt, StringAt, Latest;
    var first := Latest(data, base, p, HashOf(data, p));
    var nice := NiceFor(data, par, p);
    ReachIsCandidate(data, base, p, ChainFor(par, prevLen), q);
    SearchBest(data, base, p, first, ChainFor(par, prevLen), nice, Found(prevLen, 0), q);
    AtLeast(data, p, q, m);
  }

  lemma AtLeast(data: seq<byte>, p: nat, q: nat, m: nat)
    requires q < p <= |data| && Repeats(data, p, p - q, m) && m <= MAX_MATCH
    ensures Common(data, p, q, Reach(data, p)) >= m
  {
  }

  // ----- The rounds -----

  /** Between two rounds: the position; where the window begins; whether the byte before is held back; and the
      match pending there, by length and distance, of length 2 if there is none. */
  datatype Lazy = Lazy(pos: nat, base: nat, available: bool, len: nat, dist: nat)

  const LazyStart: Lazy := Lazy(0, 0, false, 2, 0)

  ghost predicate LazyOk(data: seq<byte>, v: Lazy) {
    v.base <= v.pos <= |data| && (v.base == 0 || v.pos - v.base >= MAX_DIST) && 2 <= v.len && (v.available ==> v.pos >= 1) && (v.len >= MIN_MATCH ==> v.available && v.pos - 1 + v.len <= |data|)
  }

  /** The window moves on when there is no room left for a whole match behind pos. */
  ghost function NextBase(data: seq<byte>, base: nat, pos: nat): (r: nat)
    requires base <= pos <= |data| && (base == 0 || pos - base >= MAX_DIST)
    ensures base <= r <= pos && (r == 0 || pos - r >= MAX_DIST)
  {
    if pos - base > W_SIZE + MAX_DIST || (pos - base == W_SIZE + MAX_DIST && |data| - pos < MIN_LOOKAHEAD) then base + W_SIZE else base
  }

  /** The beginning of a round: the window is filled. */
  ghost function Refilled(data: seq<byte>, v: Lazy): (r: Lazy)
    requires LazyOk(data, v)
    ensures LazyOk(data, r) && r == v.(base := r.base)
  {
    v.(base := NextBase(data, v.base, v.pos))
  }

  /** The match found in this round. */
  ghost function Next(data: seq<byte>, par: Params, v: Lazy): (r: Found)
    requires LazyOk(data, v)
    ensures r == NoMatch || (v.len < r.len && v.pos + r.len <= |data| && r.len >= MIN_MATCH && r.at < v.pos)
  {
    Look(data, par, v.base, v.pos, v.len)
  }

  /** A pending match that the next one does not beat is taken; otherwise the next one is pending. */
  ghost function Step(data: seq<byte>, par: Params, v: Lazy): (r: Lazy)
    requires LazyOk(data, v) && v.pos < |data|
    ensures LazyOk(data, r) && r.pos > v.pos
  {
    var m := Next(data, par, v);
    if v.len >= MIN_MATCH && m.len <= v.len then Lazy(v.pos - 1 + v.len, v.base, false, 2, 0)
    else Lazy(v.pos + 1, v.base, true, m.len, if m.len >= MIN_MATCH then v.pos - m.at else 0)
  }

  ghost function StepTokens(data: seq<byte>, par: Params, v: Lazy): seq<Token>
    requires LazyOk(data, v)
  {
    if v.len >= MIN_MATCH && Next(data, par, v).len <= v.len then [Match(v.len, v.dist)]
    else if v.available then [Literal(data[v.pos - 1])]
    else []
  }

  /** All tokens from here to the end of the input. */
  ghost function LazyTokens(data: seq<byte>, par: Params, v: Lazy): seq<Token>
    requires LazyOk(data, v)
    decreases |data| - v.pos
  {
    if v.pos < |data| then
      var w := Refilled(data, v);
      StepTokens(data, par, w) + LazyTokens(data, par, Step(data, par, w))
    else if v.available then [Literal(data[v.pos - 1])]
    else []
  }

  lemma LazyMore(data: seq<byte>, par: Params, v: Lazy)
    requires LazyOk(data, v)
    ensures v.pos < |data| ==>
      LazyTokens(data, par, v) == StepTokens(data, par, Refilled(data, v)) + LazyTokens(data, par, Step(data, par, Refilled(data, v)))
    ensures v.pos == |data| ==> LazyTokens(data, par, v) == if v.available then [Literal(data[v.pos - 1])] else []
  {
    hide Step, StepTokens, Refilled;
  }

  /** The same for the match found in a round, wherever the window begins: a repetition of an earlier string
      is passed over only for a match as long, for a limit of the search, or because it is short. */
  lemma NextBest(data: seq<byte>, par: Params, v: Lazy, q: nat, m: nat)
    requires LazyOk(data, v) && v.pos + MIN_MATCH <= |data| && v.len < par.maxLazy
    requires 1 <= q < v.pos && v.pos - q < 32506 && 3 <= m <= 258 && Repeats(data, v.pos, v.pos - q, m)
    requires Between(data, q, v.pos, HashOf(data, v.pos)) < ChainFor(par, v.len)
    ensures var best := if Next(data, par, v).len > v.len then Next(data, par, v).len else v.len;
      m <= best || best >= par.niceMatch || par.niceMatch <= 5 || (par.filtered && m <= 5) || (m == 3 && v.pos - q > 4096)
  {
    hide Look, Idx, Hash3;
    var p := v.pos;
    assert data[p] == data[p - (p - q)] && data[p + 1] == data[p + 1 - (p - q)] && data[p + 2] == data[p + 2 - (p - q)];
    LookBest(data, par, v.base, p, v.len, q, m);
  }

  /** A match that is found becomes a token, with its length and distance, unless the next position has a
      longer one: then its first byte does. */
  lemma FoundIsUsed(data: seq<byte>, par: Params, v: Lazy)
    requires LazyOk(data, v) && v.pos < |data| && Next(data, par, v) != NoMatch
    ensures var m, w := Next(data, par, v), Refilled(data, Step(data, par, v));
      && w.pos < |data|
      && (Next(data, par, w).len <= m.len ==>
            StepTokens(data, par, w) == [Match(m.len, v.pos - m.at)] && Step(data, par, w).pos == v.pos + m.len)
      && (Next(data, par, w).len > m.len ==>
            StepTokens(data, par, w) == [Literal(data[v.pos])] && Step(data, par, w).len == Next(data, par, w).len)
  {
    hide Look;
  }

  // ----- An example: 300 equal bytes at level 9 -----

  /** At level 9. */
  const Best: Params := Params(32, 258, 258, 4096, false)

  /** In a run, the string before has the same hash and agrees to the end. */
  lemma RunLook(data: seq<byte>, p: nat, prevLen: nat)
    requires |data| <= W_SIZE && (forall i :: 0 <= i < |data| ==> data[i] == data[0]) && 2 <= p && p + MIN_MATCH <= |data| && prevLen == 2
    ensures Look(data, Best, 0, p, prevLen) == Found(Reach(data, p), p - 1)
  {
    hide Idx, Hash3, Search, Reach;
    var h := HashOf(data, p);
    assert HashAt(data, p - 1) == HashAt(data, p);
    assert StringAt(data, p - 1, h);
    assert Latest(data, 0, p, h) == p - 1;
    LookIs(data, Best, 0, p, prevLen);
    RunSearch(data, p, 4096, NiceFor(data, Best, p));
  }

  lemma RunSearch(data: seq<byte>, p: nat, n: nat, nice: nat)
    requires (forall i :: 0 <= i < |data| ==> data[i] == data[0]) && 2 <= p && p + MIN_MATCH <= |data| && nice == NiceFor(data, Best, p)
    ensures Search(data, 0, p, p - 1, n, nice, Found(2, 0)) == Found(Reach(data, p), p - 1)
  {
    hide Idx, HashAt, Latest, Repeats;
    CommonIs(data, p, p - 1, Reach(data, p), Reach(data, p)) by {
      RunRepeats(data, p, Reach(data, p));
    }
  }

  lemma RunRepeats(data: seq<byte>, p: nat, len: nat)
    requires (forall i :: 0 <= i < |data| ==> data[i] == data[0]) && 1 <= p && p + len <= |data|
    ensures Repeats(data, p, 1, len)
  {
  }

  /** Where there is nothing longer than the pending match to find. */
  lemma RunRest(data: seq<byte>, p: nat, prevLen: nat)
    requires p <= |data| && prevLen >= 2 && (prevLen >= 258 || prevLen >= Reach(data, p) || p < 2)
    ensures Look(data, Best, 0, p, prevLen) == NoMatch
  {
    hide Idx, HashAt, Search, Reach;
    LookIs(data, Best, 0, p, prevLen);
  }

  /** Two literals and two matches. */
  lemma RunTokens(data: seq<byte>)
    requires |data| == 300 && forall i :: 0 <= i < |data| ==> data[i] == data[0]
    ensures LazyTokens(data, Best, LazyStart) == [Literal(data[0]), Literal(data[0]), Match(258, 1), Match(40, 1)]
  {
    hide Look, LazyTokens;
    var v1, v2, v3 := Lazy(1, 0, true, 2, 0), Lazy(2, 0, true, 2, 0), Lazy(3, 0, true, 258, 1);
    var v4, v5, v6 := Lazy(260, 0, false, 2, 0), Lazy(261, 0, true, 40, 1), Lazy(300, 0, false, 2, 0);
    RunRest(data, 0, 2);
    RunRest(data, 1, 2);
    RunLook(data, 2, 2);
    RunRest(data, 3, 258);
    RunLook(data, 260, 2);
    RunRest(data, 261, 40);
    LazyMore(data, Best, LazyStart);
    LazyMore(data, Best, v1);
    LazyMore(data, Best, v2);
    LazyMore(data, Best, v3);
    LazyMore(data, Best, v4);
    LazyMore(data, Best, v5);
    LazyMore(data, Best, v6);
  }
}
