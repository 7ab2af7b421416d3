/** How the encoder spells its tokens. */
module TokenItems {
  import opened Sums
  import opened Lz77
  import opened BitStreams
  import opened BitWriter
  import opened CanonicalCode
  import opened DecodeTable
  import opened TokenCodes
  import opened CodeItems
  import opened BlockData
  import opened InflateItems

  ghost function ItemFor(t: Tables, tok: Token): Item
    requires TablesOk(t) && Codable(tok)
  {
    match tok
    case Literal(b) => Lit(LitSym(b))
    case Match(len, dist) =>
      LengthCovered(t, tok);
      var code, dcode := LCode(t, tok), DistCodeOf(t, tok);
      Pair(code + 257, if code == 28 then 0 else len - 3 - t.baseLength[code], dcode, dist - 1 - t.baseDist[dcode])
  }

  lemma ItemForToken(t: Tables, lc: Code, dc: Code, tok: Token, rest: BitString)
    requires TablesOk(t) && CodeOk(lc) && CodeOk(dc) && TokenOk(t, lc, dc, tok)
    ensures var item := ItemFor(t, tok);
      && ItemOk(lc.lens, dc.lens, item) && HasMeaning(item) && Meaning(item) == tok
      && Spelled(lc.lens, dc.lens, item, rest) == Cat(TokenBits(t, lc, dc, tok), rest)
  {
    hide Cat, SymBits, Extra, Pow2, First, CodeOk, CodeBits;
    match tok
    case Literal(b) =>
      LitSymBack(b);
      SymProper(lc, LitSym(b));
    case Match(len, dist) =>
      LenExtraIs(t, tok);
      DistExtraIs(t, tok);
      LengthCovered(t, tok);
      OneBit();
      var lb, db := LenBits(t, lc, tok), DistBits(t, dc, tok);
      var code, dcode := LCode(t, tok), DistCodeOf(t, tok);
      SymProper(lc, code + 257);
      SymProper(dc, dcode);
      ExtrasNumber(if code == 28 then 0 else len - 3 - t.baseLength[code], if code == 28 then 0 else Extra(false, code));
      ExtrasNumber(dist - 1 - t.baseDist[dcode], Extra(true, dcode));
      CatAssoc(lb, db, rest);
      CatAssoc(SymBits(lc, code + 257), LenExtra(t, tok), Cat(db, rest));
      CatAssoc(SymBits(dc, dcode), DistExtra(t, tok), rest);
  }

  lemma ExtrasNumber(x: nat, n: nat)
    requires x < Pow2(n)
    ensures Extras(x, n) == BitString(x, n)
  {
    OneBit();
  }

  ghost function ItemsFor(t: Tables, tokens: seq<Token>): seq<Item>
    requires TablesOk(t) && forall i :: 0 <= i < |tokens| ==> Codable(tokens[i])
  {
    seq(|tokens|, i requires 0 <= i < |tokens| => ItemFor(t, tokens[i]))
  }

  /** compress_block spells the tokens and the end of the block. */
  lemma {:induction false} TokensSpelled(t: Tables, lc: Code, dc: Code, tokens: seq<Token>, k: nat, tail: BitString)
    requires TablesOk(t) && CodeOk(lc) && CodeOk(dc) && TokensOk(t, lc, dc, tokens) && Coded(lc, END_BLOCK) && k <= |tokens|
    ensures Used(lc.lens, END_BLOCK) && forall i :: 0 <= i < |tokens| ==> Codable(tokens[i])
    ensures var items := ItemsFor(t, tokens)[k..];
      && ItemsOk(lc.lens, dc.lens, items) && Meanings(items) == tokens[k..]
      && DataSpelled(lc.lens, dc.lens, items, tail) == Cat(DataBits(t, lc, dc, tokens, k), tail)
    decreases |tokens| - k
  {
    hide Cat, TablesOk, CodeOk, Spelled, SymBits, TokenBits, ItemFor, ItemOk, HasMeaning, Meaning, CodeBits, Codable;
    SymProper(lc, END_BLOCK);
    forall i | 0 <= i < |tokens| ensures Codable(tokens[i]) {
      CodableToken(t, lc, dc, tokens[i]);
    }
    var items := ItemsFor(t, tokens)[k..];
    if k == |tokens| {
      LastBits(t, lc, dc, tokens);
      EndSpelled(lc, dc, tail);
    } else {
      TokensSpelled(t, lc, dc, tokens, k + 1, tail);
      var after := Cat(DataBits(t, lc, dc, tokens, k + 1), tail);
      NextToken(t, lc, dc, tokens, k);
      CatAssoc(TokenBits(t, lc, dc, tokens[k]), DataBits(t, lc, dc, tokens, k + 1), tail);
      ItemForToken(t, lc, dc, tokens[k], after);
      assert items[0] == ItemFor(t, tokens[k]) && items[1..] == ItemsFor(t, tokens)[k + 1..];
      EndOk(lc.lens, dc.lens);
      FirstItem(lc.lens, dc.lens, items, Spelled(lc.lens, dc.lens, End, tail));
    }
  }

  lemma CodableToken(t: Tables, lc: Code, dc: Code, tok: Token)
    requires TablesOk(t) && TokenOk(t, lc, dc, tok)
    ensures Codable(tok)
  {
  }

  lemma EndSpelled(lc: Code, dc: Code, tail: BitString)
    requires CodeOk(lc) && Coded(lc, END_BLOCK)
    ensures Used(lc.lens, END_BLOCK) && Spelled(lc.lens, dc.lens, End, tail) == Cat(SymBits(lc, END_BLOCK), tail)
  {
    hide Cat, CodeOk, CodeBits;
    SymProper(lc, END_BLOCK);
  }
}
