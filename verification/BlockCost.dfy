/** The frequencies that _tr_tally counts, and why the predicted length of a block is exact. */
module BlockCost {
  import opened Sums
  import opened Lz77
  import opened BitStreams
  import opened HuffmanCost
  import opened HuffmanTree
  import opened BitLengths
  import opened TokenCodes
  import opened CodeItems
  import opened CodeRuns
  import opened TreeSender
  import opened BlockData

  ghost function Bump(freq: seq<nat>, s: nat): (r: seq<nat>)
    ensures |r| == |freq|
  {
    if s < |freq| then freq[s := freq[s] + 1] else freq
  }

  /** One more of a symbol costs its length. */
  lemma CostBump(freq: seq<nat>, active: set<nat>, len: seq<nat>, s: nat)
    requires |freq| == |len| && s < |freq|
    ensures Cost(Bump(freq, s), active, len) == Cost(freq, active, len) + (if s in active then len[s] else 0)
  {
    hide CostVec, Sum;
    var v := CostVec(freq, active, len);
    var x := if s in active then (freq[s] + 1) * len[s] else 0;
    assert CostVec(Bump(freq, s), active, len) == v[s := x];
    SumUpdate(v, s, x);
    assert s in active ==> x == freq[s] * len[s] + len[s];
  }

  ghost function Zero(n: nat): (r: seq<nat>)
    ensures |r| == n && forall i :: 0 <= i < n ==> r[i] == 0
  {
    seq(n, _ => 0)
  }

  lemma {:induction false} CostZero(n: nat, active: set<nat>, len: seq<nat>)
    requires |len| == n
    ensures Cost(Zero(n), active, len) == 0
  {
    hide CostVec;
    var v := CostVec(Zero(n), active, len);
    forall i | 0 <= i < |v|
      ensures v[i] == 0
    {
      assert Zero(n)[i] * len[i] == 0;
    }
    SumZero(v);
  }

  /** The literal or length symbol of a token. */
  ghost function LSym(t: Tables, tok: Token): (r: nat)
    requires TablesOk(t) && Codable(tok)
    ensures r < 286
  {
    match tok
    case Literal(b) => LitSym(b)
    case Match(_, _) => LCode(t, tok) + LITERALS + 1
  }

  ghost predicate AllCodable(tokens: seq<Token>) {
    forall i :: 0 <= i < |tokens| ==> Codable(tokens[i])
  }

  /** dyn_ltree[].Freq after the first k tokens; the end of the block is counted from the start. */
  ghost function LFreq(t: Tables, tokens: seq<Token>, k: nat): (r: seq<nat>)
    requires TablesOk(t) && AllCodable(tokens) && k <= |tokens|
    ensures |r| == 573
  {
    if k == 0 then Zero(573)[END_BLOCK := 1] else Bump(LFreq(t, tokens, k - 1), LSym(t, tokens[k - 1]))
  }

  /** dyn_dtree[].Freq after the first k tokens. */
  ghost function DFreq(t: Tables, tokens: seq<Token>, k: nat): (r: seq<nat>)
    requires TablesOk(t) && AllCodable(tokens) && k <= |tokens|
    ensures |r| == 61
  {
    if k == 0 then Zero(61)
    else
      var f := DFreq(t, tokens, k - 1);
      if tokens[k - 1].Match? then Bump(f, DistCodeOf(t, tokens[k - 1])) else f
  }

  /** _tr_tally for all tokens of a block, after init_block. */
  method Tally(t: Tables, tokens: seq<Token>, lfc: array<nat>, dfc: array<nat>)
    requires TablesOk(t) && AllCodable(tokens) && lfc.Length == 573 && dfc.Length == 61
    modifies lfc, dfc
    ensures lfc[..] == LFreq(t, tokens, |tokens|) && dfc[..] == DFreq(t, tokens, |tokens|)
  {
    hide TablesOk;
    for n := 0 to 573
      invariant forall i :: 0 <= i < n ==> lfc[i] == 0
    {
      lfc[n] := 0;
    }
    for n := 0 to 61
      invariant lfc[..] == Zero(573)
      invariant forall i :: 0 <= i < n ==> dfc[i] == 0
    {
      dfc[n] := 0;
    }
    lfc[END_BLOCK] := 1;
    for k := 0 to |tokens|
      invariant lfc[..] == LFreq(t, tokens, k) && dfc[..] == DFreq(t, tokens, k)
    {
      match tokens[k] {
        case Literal(b) =>
          lfc[LitSym(b)] := lfc[LitSym(b)] + 1;
        case Match(_, _) =>
          var lcode := LCode(t, tokens[k]) + LITERALS + 1;
          lfc[lcode] := lfc[lcode] + 1;
          var dcode := DistCodeOf(t, tokens[k]);
          dfc[dcode] := dfc[dcode] + 1;
      }
    }
  }

  /** The counters stay within the number of tokens. */
  lemma {:induction false} TotalBounded(t: Tables, tokens: seq<Token>, k: nat, l: set<nat>, d: set<nat>)
    requires TablesOk(t) && AllCodable(tokens) && k <= |tokens|
    ensures Total(LFreq(t, tokens, k), l) <= k + 1 && Total(DFreq(t, tokens, k), d) <= k
  {
    hide TablesOk, Cost;
    if k == 0 {
      CostZero(573, l, Ones(573));
      CostZero(61, d, Ones(61));
      assert Zero(573)[END_BLOCK := 1] == Bump(Zero(573), END_BLOCK);
      CostBump(Zero(573), l, Ones(573), END_BLOCK);
    } else {
      TotalBounded(t, tokens, k - 1, l, d);
      CostBump(LFreq(t, tokens, k - 1), l, Ones(573), LSym(t, tokens[k - 1]));
      if tokens[k - 1].Match? {
        CostBump(DFreq(t, tokens, k - 1), d, Ones(61), DistCodeOf(t, tokens[k - 1]));
      }
    }
  }

  /** Symbols that occur have a frequency. */
  lemma {:induction false} Occurs(t: Tables, tokens: seq<Token>, k: nat, i: nat)
    requires TablesOk(t) && AllCodable(tokens) && i < k <= |tokens|
    ensures LFreq(t, tokens, k)[LSym(t, tokens[i])] > 0
    ensures tokens[i].Match? ==> DFreq(t, tokens, k)[DistCodeOf(t, tokens[i])] > 0
  {
    hide TablesOk;
    if i < k - 1 {
      Occurs(t, tokens, k - 1, i);
    }
  }

  lemma {:induction false} EndOccurs(t: Tables, tokens: seq<Token>, k: nat)
    requires TablesOk(t) && AllCodable(tokens) && k <= |tokens|
    ensures LFreq(t, tokens, k)[END_BLOCK] > 0
  {
    hide TablesOk;
    if k > 0 {
      EndOccurs(t, tokens, k - 1);
    }
  }

  /** Lengths with extra bits, as the cost of a tree counts them. */
  ghost predicate Costs(wl: seq<nat>, wd: seq<nat>, lc: Code, dc: Code) {
    && |wl| == 573 && |wd| == 61
    && (forall s :: 0 <= s < |lc.lens| && s < 286 && lc.lens[s] > 0 ==> wl[s] == lc.lens[s] + LExtra(s))
    && (forall c :: 0 <= c < |dc.lens| && c < D_CODES && dc.lens[c] > 0 ==> wd[c] == dc.lens[c] + TokenCodes.Extra(true, c))
  }

  ghost function LExtra(s: nat): nat {
    if s > 256 then TokenCodes.Extra(false, s - 257) else 0
  }

  /** The bits of a token are the lengths and extra bits of its symbols. */
  lemma TokenCost(t: Tables, lc: Code, dc: Code, tok: Token, wl: seq<nat>, wd: seq<nat>)
    requires TablesOk(t) && TokenOk(t, lc, dc, tok) && Costs(wl, wd, lc, dc)
    ensures TokenBits(t, lc, dc, tok).n == wl[LSym(t, tok)] + (if tok.Match? then wd[DistCodeOf(t, tok)] else 0)
  {
    hide TablesOk, First;
    if tok.Match? {
      LenExtraIs(t, tok);
      DistExtraIs(t, tok);
    }
  }

  /** Counting the tokens one by one, the cost grows by the bits of each. */
  lemma {:induction false} CostSoFar(t: Tables, lc: Code, dc: Code, tokens: seq<Token>, k: nat, wl: seq<nat>, wd: seq<nat>, l: set<nat>, d: set<nat>)
    requires TablesOk(t) && AllCodable(tokens) && TokensOk(t, lc, dc, tokens) && Coded(lc, END_BLOCK) && k <= |tokens| && Costs(wl, wd, lc, dc)
    requires END_BLOCK in l && (forall i :: 0 <= i < |tokens| ==> LSym(t, tokens[i]) in l)
    requires forall i :: 0 <= i < |tokens| && tokens[i].Match? ==> DistCodeOf(t, tokens[i]) in d
    ensures Cost(LFreq(t, tokens, k), l, wl) + Cost(DFreq(t, tokens, k), d, wd) + DataBits(t, lc, dc, tokens, k).n
            == DataBits(t, lc, dc, tokens, 0).n + lc.lens[END_BLOCK]
  {
    hide TablesOk, Cost, TokenBits;
    if k == 0 {
      CostZero(573, l, wl);
      CostZero(61, d, wd);
      assert Zero(573)[END_BLOCK := 1] == Bump(Zero(573), END_BLOCK);
      CostBump(Zero(573), l, wl, END_BLOCK);
    } else {
      CostSoFar(t, lc, dc, tokens, k - 1, wl, wd, l, d);
      var tok := tokens[k - 1];
      assert TokenOk(t, lc, dc, tok);
      NextToken(t, lc, dc, tokens, k - 1);
      CatSize(TokenBits(t, lc, dc, tok), DataBits(t, lc, dc, tokens, k));
      TokenCost(t, lc, dc, tok, wl, wd);
      CostBump(LFreq(t, tokens, k - 1), l, wl, LSym(t, tok));
      if tok.Match? {
        CostBump(DFreq(t, tokens, k - 1), d, wd, DistCodeOf(t, tok));
      }
    }
  }

  /** The cost of the counted frequencies is exactly the number of bits that compress_block sends. */
  lemma DataCost(t: Tables, lc: Code, dc: Code, tokens: seq<Token>, wl: seq<nat>, wd: seq<nat>, l: set<nat>, d: set<nat>)
    requires TablesOk(t) && AllCodable(tokens) && TokensOk(t, lc, dc, tokens) && Coded(lc, END_BLOCK) && Costs(wl, wd, lc, dc)
    requires END_BLOCK in l && (forall i :: 0 <= i < |tokens| ==> LSym(t, tokens[i]) in l)
    requires forall i :: 0 <= i < |tokens| && tokens[i].Match? ==> DistCodeOf(t, tokens[i]) in d
    ensures DataBits(t, lc, dc, tokens, 0).n == Cost(LFreq(t, tokens, |tokens|), l, wl) + Cost(DFreq(t, tokens, |tokens|), d, wd)
  {
    hide TablesOk, Cost, TokenBits;
    CostSoFar(t, lc, dc, tokens, |tokens|, wl, wd, l, d);
    LastBits(t, lc, dc, tokens);
  }

  /** bl_tree[].Freq after the runs. */
  ghost function RFreq(runs: seq<Run>): (r: seq<nat>)
    ensures |r| == 39
  {
    if runs == [] then Zero(39) else Bump(RFreq(runs[..|runs| - 1]), Symbol(runs[|runs| - 1]))
  }

  lemma {:induction false} RFreqCounts(runs: seq<Run>, s: nat)
    requires s < 39 && forall i :: 0 <= i < |runs| ==> ValidRun(runs[i])
    ensures RFreq(runs)[s] == Count(runs, s)
  {
    if runs != [] {
      RFreqCounts(runs[..|runs| - 1], s);
    }
  }

  /** scan_tree has counted exactly the runs. */
  lemma CountedRuns(freq: seq<nat>, runs: seq<Run>)
    requires |freq| == 39 && Counted(freq, Zero(39), runs) && forall i :: 0 <= i < |runs| ==> ValidRun(runs[i])
    ensures freq == RFreq(runs)
  {
    forall s | 0 <= s < 39
      ensures freq[s] == RFreq(runs)[s]
    {
      RFreqCounts(runs, s);
    }
  }

  ghost function RExtra(s: nat): nat {
    if s == 16 then 2 else if s == 17 then 3 else if s == 18 then 7 else 0
  }

  ghost predicate RunCosts(w: seq<nat>, c: Code) {
    |w| == 39 && forall s :: 0 <= s < |c.lens| && s < 19 && c.lens[s] > 0 ==> w[s] == c.lens[s] + RExtra(s)
  }

  lemma RunCost(c: Code, r: Run, w: seq<nat>)
    requires SendableRun(c, r) && RunCosts(w, c)
    ensures RunBits(c, r).n == w[Symbol(r)]
  {
  }

  /** The cost of the bit length frequencies is the number of bits that send_tree sends. */
  lemma {:induction false} RunsCost(c: Code, runs: seq<Run>, w: seq<nat>, active: set<nat>)
    requires Sendable(c, runs) && RunCosts(w, c) && forall i :: 0 <= i < |runs| ==> Symbol(runs[i]) in active
    ensures RunsBits(c, runs).n == Cost(RFreq(runs), active, w)
  {
    hide Cost, RunBits, RunCosts;
    WSize(w, c);
    if runs == [] {
      CostZero(39, active, w);
    } else {
      var n := |runs| - 1;
      assert SendableRun(c, runs[n]);
      RunsCost(c, runs[..n], w, active);
      CatSize(RunsBits(c, runs[..n]), RunBits(c, runs[n]));
      RunCost(c, runs[n], w);
      SymbolSmall(runs[n]);
      CostBump(RFreq(runs[..n]), active, w, Symbol(runs[n]));
    }
  }

  lemma WSize(w: seq<nat>, c: Code)
    requires RunCosts(w, c)
    ensures |w| == 39
  {
  }

  lemma SymbolSmall(r: Run)
    requires ValidRun(r)
    ensures Symbol(r) < 19
  {
  }

  lemma {:induction false} RunTotal(runs: seq<Run>, active: set<nat>)
    requires forall i :: 0 <= i < |runs| ==> ValidRun(runs[i])
    ensures Total(RFreq(runs), active) <= |runs|
  {
    hide Cost;
    if runs == [] {
      CostZero(39, active, Ones(39));
    } else {
      var n := |runs| - 1;
      RunTotal(runs[..n], active);
      SymbolSmall(runs[n]);
      CostBump(RFreq(runs[..n]), active, Ones(39), Symbol(runs[n]));
    }
  }

  lemma {:induction false} RunOccurs(runs: seq<Run>, i: nat)
    requires i < |runs| && forall j :: 0 <= j < |runs| ==> ValidRun(runs[j])
    ensures Symbol(runs[i]) < 19 && RFreq(runs)[Symbol(runs[i])] > 0
  {
    SymbolSmall(runs[i]);
    if i < |runs| - 1 {
      RunOccurs(runs[..|runs| - 1], i);
    }
  }
}
