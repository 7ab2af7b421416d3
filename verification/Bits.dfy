/** Shifts and masks on unbounded naturals, as repeated halving and doubling. */
module Bits {
  import opened Sums

  /** x << n */
  function Shl(x: nat, n: nat): nat {
    if n == 0 then x else 2 * Shl(x, n - 1)
  }

  /** x >> n */
  function Shr(x: nat, n: nat): nat
    decreases n
  {
    if n == 0 then x else Shr(x / 2, n - 1)
  }

  /** x & ((1 << n) - 1) */
  function Low(x: nat, n: nat): (r: nat)
    ensures r < Pow2(n)
    decreases n
  {
    if n == 0 then 0 else x % 2 + 2 * Low(x / 2, n - 1)
  }

  lemma {:induction false} Split(x: nat, n: nat)
    ensures x == Shl(Shr(x, n), n) + Low(x, n)
    decreases n
  {
    if n != 0 {
      Split(x / 2, n - 1);
    }
  }

  lemma {:induction false} Join(q: nat, r: nat, n: nat)
    requires r < Pow2(n)
    ensures Shr(Shl(q, n) + r, n) == q && Low(Shl(q, n) + r, n) == r
    decreases n
  {
    if n != 0 {
      Join(q, r / 2, n - 1);
      assert (Shl(q, n) + r) / 2 == Shl(q, n - 1) + r / 2;
      assert (Shl(q, n) + r) % 2 == r % 2;
    }
  }

  lemma {:induction false} ShlPow2(a: nat, b: nat)
    ensures Shl(Pow2(a), b) == Pow2(a + b)
  {
    if b != 0 {
      ShlPow2(a, b - 1);
    }
  }

  lemma {:induction false} ShlAdd(x: nat, y: nat, n: nat)
    ensures Shl(x + y, n) == Shl(x, n) + Shl(y, n) && Shl(0, n) == 0
  {
    if n != 0 {
      ShlAdd(x, y, n - 1);
    }
  }

  lemma {:induction false} ShlShl(x: nat, a: nat, b: nat)
    ensures Shl(Shl(x, a), b) == Shl(x, a + b)
  {
    if b != 0 {
      ShlShl(x, a, b - 1);
    }
  }

  lemma {:induction false} ShrShr(x: nat, a: nat, b: nat)
    ensures Shr(Shr(x, a), b) == Shr(x, a + b)
    decreases a
  {
    if a != 0 {
      ShrShr(x / 2, a - 1, b);
    }
  }

  lemma {:induction false} LowLow(x: nat, a: nat, b: nat)
    requires b <= a
    ensures Low(Low(x, a), b) == Low(x, b)
    decreases b
  {
    if b != 0 {
      LowLow(x / 2, a - 1, b - 1);
      assert Low(x, a) / 2 == Low(x / 2, a - 1) && Low(x, a) % 2 == x % 2;
    }
  }

  lemma {:induction false} LowSmall(x: nat, n: nat)
    requires x < Pow2(n)
    ensures Low(x, n) == x && Shr(x, n) == 0
    decreases n
  {
    if n != 0 {
      LowSmall(x / 2, n - 1);
    }
  }

  lemma {:induction false} ShlMono(x: nat, y: nat, n: nat)
    ensures x <= y <==> Shl(x, n) <= Shl(y, n)
    ensures x < y <==> Shl(x, n) < Shl(y, n)
  {
    if n != 0 {
      ShlMono(x, y, n - 1);
    }
  }

  /** Shr is division: the largest q with q << n at most x. */
  lemma ShrBounds(x: nat, n: nat, q: nat)
    ensures Shr(x, n) == q <==> Shl(q, n) <= x < Shl(q + 1, n)
  {
    Split(x, n);
    ShlAdd(Shr(x, n), 1, n);
    ShlAdd(q, 1, n);
    ShlPow2(0, n);
    hide Shl, Shr, Low;
    ShlMono(Shr(x, n), q, n);
    ShlMono(q, Shr(x, n), n);
    if Shl(q, n) <= x < Shl(q + 1, n) {
      Join(q, x - Shl(q, n), n);
    }
  }

  /** The next bit up. */
  lemma {:induction false} LowNext(x: nat, n: nat)
    ensures Low(x, n + 1) == Low(x, n) + (if Shr(x, n) % 2 == 1 then Pow2(n) else 0)
    ensures Shr(x, n + 1) == Shr(x, n) / 2
    decreases n
  {
    if n != 0 {
      LowNext(x / 2, n - 1);
    } else {
      assert Low(x / 2, 0) == 0;
    }
  }

  /** Cutting a window out of the bits. */
  lemma {:induction false} LowShr(x: nat, a: nat, b: nat)
    ensures Shr(Low(x, a + b), a) == Low(Shr(x, a), b)
    decreases a
  {
    if a != 0 {
      LowShr(x / 2, a - 1, b);
      assert Low(x, a + b) / 2 == Low(x / 2, a - 1 + b);
    }
  }

  lemma ShlOne(k: nat)
    ensures Shl(1, k) == Pow2(k)
  {
    ShlPow2(0, k);
  }
}
