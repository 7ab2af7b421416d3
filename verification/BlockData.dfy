/** compress_block of trees.c: the tokens of a block as bits. */
module BlockData {
  import opened Sums
  import opened Lz77
  import opened BitStreams
  import opened BitWriter
  import opened TokenCodes
  import opened CodeItems

  const LITERALS: nat := 256

  function LitSym(b: byte): (r: nat)
    ensures r < 256
  {
    b as nat
  }

  lemma LitSymBack(b: byte)
    ensures (LitSym(b) as bv8) == b
  {
  }

  /** A match as it can be coded. */
  predicate Codable(tok: Token) {
    tok.Match? ==> 3 <= tok.len <= 258 && 1 <= tok.dist <= 32768
  }

  /** The length code and the distance code of a match. */
  function LCode(t: Tables, tok: Token): (r: nat)
    requires TablesOk(t) && tok.Match? && Codable(tok)
    ensures r < LENGTH_CODES
  {
    t.lengthCode[tok.len - 3]
  }

  function DistCodeOf(t: Tables, tok: Token): (r: nat)
    requires TablesOk(t) && tok.Match? && Codable(tok)
    ensures r < D_CODES
  {
    assert Covers(true, t.baseDist, DCode(t.distCode, tok.dist - 1), tok.dist - 1);
    DCode(t.distCode, tok.dist - 1)
  }

  /** The symbols of the token have codes. */
  ghost predicate TokenOk(t: Tables, lc: Code, dc: Code, tok: Token)
    requires TablesOk(t)
  {
    && Codable(tok)
    && match tok
       case Literal(b) => Coded(lc, LitSym(b))
       case Match(_, _) => Coded(lc, LCode(t, tok) + LITERALS + 1) && Coded(dc, DistCodeOf(t, tok))
  }

  /** n extra bits with value x. */
  function Extras(x: nat, n: nat): BitString {
    if n == 0 then Empty else BitString(x, n)
  }

  /** The extra bits of the length and of the distance: how many, and their value. */
  ghost function LenExtra(t: Tables, tok: Token): (r: BitString)
    requires TablesOk(t) && tok.Match? && Codable(tok)
  {
    LengthCovered(t, tok);
    var code := LCode(t, tok);
    if code == 28 then Empty else Extras(tok.len - 3 - t.baseLength[code], Extra(false, code))
  }

  ghost function DistExtra(t: Tables, tok: Token): (r: BitString)
    requires TablesOk(t) && tok.Match? && Codable(tok)
  {
    LengthCovered(t, tok);
    var code := DistCodeOf(t, tok);
    Extras(tok.dist - 1 - t.baseDist[code], Extra(true, code))
  }

  /** The length of a match: its code and extra bits. */
  ghost function LenBits(t: Tables, lc: Code, tok: Token): BitString
    requires TablesOk(t) && tok.Match? && Codable(tok) && Coded(lc, LCode(t, tok) + LITERALS + 1)
  {
    Cat(SymBits(lc, LCode(t, tok) + LITERALS + 1), LenExtra(t, tok))
  }

  ghost function DistBits(t: Tables, dc: Code, tok: Token): BitString
    requires TablesOk(t) && tok.Match? && Codable(tok) && Coded(dc, DistCodeOf(t, tok))
  {
    Cat(SymBits(dc, DistCodeOf(t, tok)), DistExtra(t, tok))
  }

  ghost function TokenBits(t: Tables, lc: Code, dc: Code, tok: Token): BitString
    requires TablesOk(t) && TokenOk(t, lc, dc, tok)
  {
    match tok
    case Literal(b) => SymBits(lc, LitSym(b))
    case Match(_, _) => Cat(LenBits(t, lc, tok), DistBits(t, dc, tok))
  }

  ghost predicate TokensOk(t: Tables, lc: Code, dc: Code, tokens: seq<Token>)
    requires TablesOk(t)
  {
    forall i :: 0 <= i < |tokens| ==> TokenOk(t, lc, dc, tokens[i])
  }

  /** All tokens from the k-th on, and the end of the block. */
  ghost function DataBits(t: Tables, lc: Code, dc: Code, tokens: seq<Token>, k: nat): BitString
    requires TablesOk(t) && TokensOk(t, lc, dc, tokens) && k <= |tokens| && Coded(lc, END_BLOCK)
    decreases |tokens| - k
  {
    if k == |tokens| then SymBits(lc, END_BLOCK) else Cat(TokenBits(t, lc, dc, tokens[k]), DataBits(t, lc, dc, tokens, k + 1))
  }

  /** The extra bits as the decoder needs them. */
  lemma LenExtraIs(t: Tables, tok: Token)
    requires TablesOk(t) && tok.Match? && Codable(tok)
    ensures var code := LCode(t, tok);
      && code < LENGTH_CODES && |t.baseLength| == LENGTH_CODES
      && (code == 28 ==> LenExtra(t, tok) == Extras(0, 0) && tok.len == 258)
      && (code < 28 ==> t.baseLength[code] <= tok.len - 3 && tok.len - 3 - t.baseLength[code] < Pow2(Extra(false, code)) && Extra(false, code) <= 13
                        && LenExtra(t, tok) == Extras(tok.len - 3 - t.baseLength[code], Extra(false, code)))
  {
    hide First, Extra, Pow2;
    LengthCovered(t, tok);
    if LCode(t, tok) < 28 {
      ExtraProper(false, t.baseLength, LCode(t, tok), tok.len - 3);
    }
  }

  lemma DistExtraIs(t: Tables, tok: Token)
    requires TablesOk(t) && tok.Match? && Codable(tok)
    ensures var code := DistCodeOf(t, tok);
      && code < D_CODES && |t.baseDist| == D_CODES && t.baseDist[code] <= tok.dist - 1
      && tok.dist - 1 - t.baseDist[code] < Pow2(Extra(true, code)) && Extra(true, code) <= 13
      && DistExtra(t, tok) == Extras(tok.dist - 1 - t.baseDist[code], Extra(true, code))
  {
    hide First, Extra, Pow2;
    LengthCovered(t, tok);
    ExtraProper(true, t.baseDist, DistCodeOf(t, tok), tok.dist - 1);
  }

  lemma ExtraProper(dist: bool, base: seq<nat>, code: nat, value: nat)
    requires Covers(dist, base, code, value)
    ensures value - base[code] < Pow2(Extra(dist, code)) && Extra(dist, code) <= 13 && (Extra(dist, code) == 0 ==> value == base[code])
  {
    assert Pow2(0) == 1;
  }

  lemma LengthCovered(t: Tables, tok: Token)
    requires TablesOk(t) && tok.Match? && Codable(tok)
    ensures LCode(t, tok) == 28 ==> tok.len == 258
    ensures LCode(t, tok) < 28 ==> Covers(false, t.baseLength, LCode(t, tok), tok.len - 3)
    ensures tok.len == 258 ==> LCode(t, tok) == 28
    ensures Covers(true, t.baseDist, DistCodeOf(t, tok), tok.dist - 1)
    ensures LCode(t, tok) < 28 ==> t.baseLength[LCode(t, tok)] <= tok.len - 3
    ensures t.baseDist[DistCodeOf(t, tok)] <= tok.dist - 1
  {
    hide First, Extra, Pow2;
  }

  /** compress_block for one match. */
  method SendMatch(w: Writer, t: Tables, lc: Code, dc: Code, tok: Token)
    requires w.Valid() && TablesOk(t) && CodeOk(lc) && CodeOk(dc) && TokenOk(t, lc, dc, tok) && tok.Match?
    modifies w
    ensures w.Valid() && w.Stream() == Cat(old(w.Stream()), TokenBits(t, lc, dc, tok))
  {
    hide TablesOk, CodeOk, Cat, Covers, Extra, Coded, SymBits, Proper;
    LengthCovered(t, tok);
    ghost var was := w.Stream();
    var lcode := LCode(t, tok);
    CatAssoc(was, LenBits(t, lc, tok), DistBits(t, dc, tok));
    SendLength(w, t, lc, tok, lcode);
    SendDistance(w, t, dc, tok);
  }

  method SendLength(w: Writer, t: Tables, lc: Code, tok: Token, code: nat)
    requires w.Valid() && TablesOk(t) && CodeOk(lc) && tok.Match? && Codable(tok) && code == LCode(t, tok) && Coded(lc, code + LITERALS + 1)
    modifies w
    ensures w.Valid() && w.Stream() == Cat(old(w.Stream()), LenBits(t, lc, tok))
  {
    hide CodeOk, Cat, Covers, Coded, SymBits, Pow2, First;
    LengthCovered(t, tok);
    ghost var was := w.Stream();
    var extra := ExtraBits(false, code);
    CatAssoc(was, SymBits(lc, code + LITERALS + 1), LenExtra(t, tok));
    SendCode(w, code + LITERALS + 1, lc);
    if extra != 0 {
      ExtraProper(false, t.baseLength, code, tok.len - 3);
      w.SendBits(tok.len - 3 - t.baseLength[code], extra);
    } else {
      CatEmpty(w.Stream());
    }
  }

  method SendDistance(w: Writer, t: Tables, dc: Code, tok: Token)
    requires w.Valid() && TablesOk(t) && CodeOk(dc) && tok.Match? && Codable(tok) && Coded(dc, DistCodeOf(t, tok))
    modifies w
    ensures w.Valid() && w.Stream() == Cat(old(w.Stream()), DistBits(t, dc, tok))
  {
    hide CodeOk, Cat, Covers, Coded, SymBits, Pow2, First;
    LengthCovered(t, tok);
    ghost var was := w.Stream();
    var dist := tok.dist - 1;
    var code := DistCodeOf(t, tok);
    var extra := ExtraBits(true, code);
    CatAssoc(was, SymBits(dc, code), DistExtra(t, tok));
    SendCode(w, code, dc);
    ExtraProper(true, t.baseDist, code, dist);
    if extra != 0 {
      w.SendBits(dist - t.baseDist[code], extra);
    } else {
      CatEmpty(w.Stream());
    }
  }

  /** compress_block */
  method CompressBlock(w: Writer, t: Tables, lc: Code, dc: Code, tokens: seq<Token>)
    requires w.Valid() && TablesOk(t) && CodeOk(lc) && CodeOk(dc) && TokensOk(t, lc, dc, tokens) && Coded(lc, END_BLOCK)
    modifies w
    ensures w.Valid() && w.Stream() == Cat(old(w.Stream()), DataBits(t, lc, dc, tokens, 0))
  {
    hide TablesOk, CodeOk, Cat, Coded, SymBits, DataBits, TokenBits;
    ghost var whole := Cat(w.Stream(), DataBits(t, lc, dc, tokens, 0));
    var lx := 0;
    while lx < |tokens|
      invariant lx <= |tokens| && w.Valid() && Cat(w.Stream(), DataBits(t, lc, dc, tokens, lx)) == whole
    {
      NextToken(t, lc, dc, tokens, lx);
      CatAssoc(w.Stream(), TokenBits(t, lc, dc, tokens[lx]), DataBits(t, lc, dc, tokens, lx + 1));
      match tokens[lx] {
        case Literal(b) =>
          LiteralBits(t, lc, dc, tokens[lx]);
          SendCode(w, LitSym(b), lc);
        case Match(_, _) =>
          SendMatch(w, t, lc, dc, tokens[lx]);
      }
      lx := lx + 1;
    }
    LastBits(t, lc, dc, tokens);
    SendCode(w, END_BLOCK, lc);
  }

  lemma LiteralBits(t: Tables, lc: Code, dc: Code, tok: Token)
    requires TablesOk(t) && TokenOk(t, lc, dc, tok) && tok.Literal?
    ensures Coded(lc, LitSym(tok.lit)) && TokenBits(t, lc, dc, tok) == SymBits(lc, LitSym(tok.lit))
  {
  }

  lemma NextToken(t: Tables, lc: Code, dc: Code, tokens: seq<Token>, k: nat)
    requires TablesOk(t) && TokensOk(t, lc, dc, tokens) && k < |tokens| && Coded(lc, END_BLOCK)
    ensures TokenOk(t, lc, dc, tokens[k])
    ensures DataBits(t, lc, dc, tokens, k) == Cat(TokenBits(t, lc, dc, tokens[k]), DataBits(t, lc, dc, tokens, k + 1))
  {
  }

  lemma LastBits(t: Tables, lc: Code, dc: Code, tokens: seq<Token>)
    requires TablesOk(t) && TokensOk(t, lc, dc, tokens) && Coded(lc, END_BLOCK)
    ensures DataBits(t, lc, dc, tokens, |tokens|) == SymBits(lc, END_BLOCK)
  {
  }
}
