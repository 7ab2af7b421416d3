/** The hash chains of deflate.c: head[h] is the latest string with hash h, prev links each string to the
    latest older one with the same hash. Window index v stands for the input position base + v. */
module HashChains {
  import opened Lz77

  const HASH_SIZE: nat := 65536   // memLevel 9: hash_bits 16, hash_shift 6

  /** UPDATE_HASH with hash_shift 6 and hash_mask 0xFFFF. */
  function UpdateHash(h: bv16, c: byte): bv16 {
    (h << 6) ^ (c as bv16)
  }

  function Hash3(a: byte, b: byte, c: byte): bv16 {
    ((a as bv16) << 12) ^ ((b as bv16) << 6) ^ (c as bv16)
  }

  function Idx(h: bv16): (r: nat)
    ensures r < HASH_SIZE
  {
    h as nat
  }

  lemma IdxInjective(g: bv16, h: bv16)
    ensures Idx(g) == Idx(h) ==> g == h
  {
    assert (Idx(g) as bv16) == g && (Idx(h) as bv16) == h;
  }

  /** Equal keys and equal first two bytes force the third: why longest_match may skip it. */
  lemma ThirdByte(a: byte, b: byte, c: byte, d: byte)
    ensures Hash3(a, b, c) == Hash3(a, b, d) ==> c == d
  {
  }

  /** h carries the two bytes a, b; whatever came before them is shifted out by the next update. */
  predicate Carries(h: bv16, a: byte, b: byte) {
    (h << 6) == ((a as bv16) << 12) ^ ((b as bv16) << 6)
  }

  lemma UpdateRolls(h: bv16, a: byte, b: byte, c: byte)
    requires Carries(h, a, b)
    ensures UpdateHash(h, c) == Hash3(a, b, c) && Carries(UpdateHash(h, c), b, c)
  {
  }

  lemma UpdateStarts(a: byte, b: byte)
    ensures Carries(UpdateHash(a as bv16, b), a, b)
  {
  }

  ghost function HashAt(data: seq<byte>, p: nat): bv16
    requires p + MIN_MATCH <= |data|
  {
    Hash3(data[p], data[p + 1], data[p + 2])
  }

  function Slot(v: nat): (r: nat)
    ensures r < W_SIZE
  {
    v % W_SIZE
  }

  lemma SlotsDiffer(u: nat, v: nat)
    requires u < v < u + W_SIZE
    ensures Slot(u) != Slot(v)
  {
  }

  /** A string with hash h begins at p. */
  ghost predicate StringAt(data: seq<byte>, p: nat, h: nat) {
    p + MIN_MATCH <= |data| && Idx(HashAt(data, p)) == h
  }

  /** Where the latest string with hash h begins before p and behind base; base if there is none. */
  ghost function Latest(data: seq<byte>, base: nat, p: nat, h: nat): (q: nat)
    requires base <= p
    ensures base <= q <= p && (q > base ==> q < p && StringAt(data, q, h))
    ensures forall u :: q < u < p ==> !StringAt(data, u, h)
  {
    if p <= base + 1 then base else if StringAt(data, p - 1, h) then p - 1 else Latest(data, base, p - 1, h)
  }

  /** v is the latest string before s whose hash is h. The one at window index 0 is not told from nil. */
  ghost predicate ChainLink(v: nat, data: seq<byte>, base: nat, s: nat, h: nat) {
    base + v == Latest(data, base, base + s, h)
  }

  ghost predicate HeadsOk(head: seq<nat>, data: seq<byte>, base: nat, s: nat) {
    |head| == HASH_SIZE && forall h :: 0 <= h < HASH_SIZE ==> ChainLink(head[h], data, base, s, h)
  }

  /** prev is valid for the strings before s that lie less than a window back. */
  ghost predicate PrevsOk(prev: seq<nat>, data: seq<byte>, base: nat, s: nat) {
    |prev| == W_SIZE &&
    forall v: nat :: v < s <= v + W_SIZE && base + v + MIN_MATCH <= |data| ==>
      ChainLink(prev[Slot(v)], data, base, v, Idx(HashAt(data, base + v)))
  }

  ghost predicate ChainsOk(head: seq<nat>, prev: seq<nat>, data: seq<byte>, base: nat, s: nat) {
    HeadsOk(head, data, base, s) && PrevsOk(prev, data, base, s)
  }

  /** INSERT_STRING. */
  lemma InsertKeeps(head: seq<nat>, prev: seq<nat>, data: seq<byte>, base: nat, s: nat)
    requires ChainsOk(head, prev, data, base, s) && base + s + MIN_MATCH <= |data|
    ensures var h := Idx(HashAt(data, base + s));
            ChainsOk(head[h := s], prev[Slot(s) := head[h]], data, base, s + 1)
  {
    hide Idx, HashAt, Slot;
    var h := Idx(HashAt(data, base + s));
    var head', prev' := head[h := s], prev[Slot(s) := head[h]];
    forall g | 0 <= g < HASH_SIZE ensures ChainLink(head'[g], data, base, s + 1, g) {
      assert ChainLink(head[g], data, base, s, g);
    }
    forall v: nat | v < s + 1 <= v + W_SIZE && base + v + MIN_MATCH <= |data|
      ensures ChainLink(prev'[Slot(v)], data, base, v, Idx(HashAt(data, base + v)))
    {
      if v == s {
        assert ChainLink(head[h], data, base, s, h);
      } else {
        SlotsDiffer(v, s);
      }
    }
  }

  /** A position too close to the end of the input to be inserted. */
  lemma SkipKeeps(head: seq<nat>, prev: seq<nat>, data: seq<byte>, base: nat, s: nat)
    requires ChainsOk(head, prev, data, base, s) && base + s + MIN_MATCH > |data|
    ensures ChainsOk(head, prev, data, base, s + 1)
  {
    hide Idx, HashAt, Slot;
    forall g | 0 <= g < HASH_SIZE ensures ChainLink(head[g], data, base, s + 1, g) {
      assert ChainLink(head[g], data, base, s, g);
    }
  }

  function Slid(m: nat): nat {
    if m >= W_SIZE then m - W_SIZE else 0
  }

  lemma SlidLink(v: nat, data: seq<byte>, base: nat, s: nat, h: nat)
    requires ChainLink(v, data, base, s, h) && s >= W_SIZE
    ensures ChainLink(Slid(v), data, base + W_SIZE, s - W_SIZE, h)
  {
  }

  lemma SlotSlides(v: nat)
    ensures Slot(v + W_SIZE) == Slot(v)
  {
  }

  /** slide_hash: sliding the window by W_SIZE keeps the chains. */
  lemma SlideKeeps(head: seq<nat>, prev: seq<nat>, head': seq<nat>, prev': seq<nat>, data: seq<byte>, base: nat, s: nat)
    requires ChainsOk(head, prev, data, base, s) && s >= W_SIZE
    requires |head'| == |head| && forall i :: 0 <= i < |head| ==> head'[i] == Slid(head[i])
    requires |prev'| == |prev| && forall i :: 0 <= i < |prev| ==> prev'[i] == Slid(prev[i])
    ensures ChainsOk(head', prev', data, base + W_SIZE, s - W_SIZE)
  {
    hide Idx, HashAt, Slot;
    forall g | 0 <= g < HASH_SIZE ensures ChainLink(head'[g], data, base + W_SIZE, s - W_SIZE, g) {
      SlidLink(head[g], data, base, s, g);
    }
    forall v: nat | v < s - W_SIZE <= v + W_SIZE && base + W_SIZE + v + MIN_MATCH <= |data|
      ensures ChainLink(prev'[Slot(v)], data, base + W_SIZE, v, Idx(HashAt(data, base + W_SIZE + v)))
    {
      SlotSlides(v);
      SlidLink(prev[Slot(v + W_SIZE)], data, base, v + W_SIZE, Idx(HashAt(data, base + (v + W_SIZE))));
    }
  }
}
