/** The meaning of LZ77 tokens: literals, and matches copied byte by byte from the output so far. */
module Lz77 {
  type byte = bv8

  const MIN_MATCH: nat := 3
  const MAX_MATCH: nat := 258
  const W_SIZE: nat := 32768
  const MIN_LOOKAHEAD: nat := 262   // MAX_MATCH + MIN_MATCH + 1
  const MAX_DIST: nat := 32506      // W_SIZE - MIN_LOOKAHEAD

  datatype Token = Literal(lit: byte) | Match(len: nat, dist: nat)

  /** out[i] = out[i - dist], len times. */
  function CopyMatch(out: seq<byte>, len: nat, dist: nat): (r: seq<byte>)
    requires 1 <= dist <= |out|
    ensures |r| == |out| + len && out <= r
    decreases len
  {
    if len == 0 then out else CopyMatch(out + [out[|out| - dist]], len - 1, dist)
  }

  /** A match as the format allows it after the given output. */
  predicate ValidToken(out: seq<byte>, t: Token) {
    t.Match? ==> MIN_MATCH <= t.len <= MAX_MATCH && 1 <= t.dist <= W_SIZE && t.dist <= |out|
  }

  function Apply(out: seq<byte>, t: Token): (r: seq<byte>)
    requires ValidToken(out, t)
    ensures out <= r
  {
    match t
    case Literal(b) => out + [b]
    case Match(len, dist) => CopyMatch(out, len, dist)
  }

  /** The tokens are valid one after the other and turn out into result. */
  ghost predicate Expands(out: seq<byte>, tokens: seq<Token>, result: seq<byte>)
    decreases |tokens|
  {
    if tokens == [] then result == out
    else ValidToken(out, tokens[0]) && Expands(Apply(out, tokens[0]), tokens[1..], result)
  }

  lemma {:induction false} ExpandsMore(out: seq<byte>, tokens: seq<Token>, mid: seq<byte>, t: Token)
    requires Expands(out, tokens, mid) && ValidToken(mid, t)
    ensures Expands(out, tokens + [t], Apply(mid, t))
    decreases |tokens|
  {
    hide Apply, ValidToken, CopyMatch;
    if tokens == [] {
      assert (tokens + [t])[1..] == [];
    } else {
      ExpandsMore(Apply(out, tokens[0]), tokens[1..], mid, t);
      assert (tokens + [t])[1..] == tokens[1..] + [t];
    }
  }

  lemma {:induction false} ExpandsJoin(out: seq<byte>, a: seq<Token>, mid: seq<byte>, b: seq<Token>, result: seq<byte>)
    requires Expands(out, a, mid) && Expands(mid, b, result)
    ensures Expands(out, a + b, result)
    decreases |a|
  {
    hide Apply, ValidToken, CopyMatch;
    if a == [] {
      assert a + b == b;
    } else {
      ExpandsJoin(Apply(out, a[0]), a[1..], mid, b, result);
      assert (a + b)[1..] == a[1..] + b;
    }
  }

  /** The len bytes of data at p repeat those dist back. */
  ghost predicate Repeats(data: seq<byte>, p: nat, dist: int, len: nat) {
    1 <= dist <= p && p + len <= |data| && forall i :: p <= i < p + len ==> data[i] == data[i - dist]
  }

  /** Copying a repetition reproduces the data, also where source and target overlap. */
  lemma {:induction false} CopyRepeats(data: seq<byte>, p: nat, dist: nat, len: nat)
    requires Repeats(data, p, dist, len)
    ensures CopyMatch(data[..p], len, dist) == data[..p + len]
    decreases len
  {
    if len != 0 {
      assert data[p] == data[p - dist];
      assert data[..p] + [data[p - dist]] == data[..p + 1];
      CopyRepeats(data, p + 1, dist, len - 1);
    }
  }

  /** Emitting a literal or a repetition of the data extends the expansion along the data. */
  lemma EmitLiteral(start: seq<byte>, tokens: seq<Token>, data: seq<byte>, p: nat)
    requires p < |data| && Expands(start, tokens, data[..p])
    ensures Expands(start, tokens + [Literal(data[p])], data[..p + 1])
  {
    ExpandsMore(start, tokens, data[..p], Literal(data[p]));
    assert data[..p] + [data[p]] == data[..p + 1];
  }

  lemma EmitMatch(start: seq<byte>, tokens: seq<Token>, data: seq<byte>, p: nat, dist: nat, len: nat)
    requires Repeats(data, p, dist, len) && Expands(start, tokens, data[..p])
    requires MIN_MATCH <= len <= MAX_MATCH && dist <= MAX_DIST
    ensures Expands(start, tokens + [Match(len, dist)], data[..p + len])
  {
    CopyRepeats(data, p, dist, len);
    ExpandsMore(start, tokens, data[..p], Match(len, dist));
  }
}
