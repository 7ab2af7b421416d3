/** adler32.c: the modulo is deferred over NMAX bytes, or done by shifts, and checksums are combined. */
module Adler32 {
  import opened Blocks

  const BASE: nat := 65521
  const NMAX: nat := 5552
  const LIMIT: nat := 0x1_0000_0000   // unsigned long has at least 32 bits

  /** The first sum, not reduced: a plus all bytes. */
  function Sum1(a: nat, s: seq<byte>): nat {
    if s == [] then a else Sum1(a, s[..|s| - 1]) + s[|s| - 1]
  }

  /** The second sum, not reduced: b plus the first sum after every byte. */
  function Sum2(a: nat, b: nat, s: seq<byte>): nat {
    if s == [] then b else Sum2(a, b, s[..|s| - 1]) + Sum1(a, s)
  }

  function Pack(a: nat, b: nat): nat {
    a + 0x1_0000 * b
  }

  /** The definition in section 8.2 of RFC 1950, continuing from an earlier checksum. */
  function Adler(adler: nat, s: seq<byte>): nat {
    Pack(Sum1(adler % 0x1_0000, s) % BASE, Sum2(adler % 0x1_0000, adler / 0x1_0000, s) % BASE)
  }

  lemma SumsOf(a: nat, b: nat, s: seq<byte>, c: byte)
    ensures Sum1(a, s + [c]) == Sum1(a, s) + c && Sum2(a, b, s + [c]) == Sum2(a, b, s) + Sum1(a, s) + c
  {
    assert (s + [c])[..|s|] == s;
  }

  /** A known answer: the checksum of "Wikipedia". */
  lemma KnownAdler()
    ensures Adler(1, [87, 105, 107, 105, 112, 101, 100, 105, 97]) == 0x11E6_0398
  {
    hide Sum1, Sum2;
    NoSums(1, 0);
    SumsOf(1, 0, [], 87);
    SumsOf(1, 0, [] + [87], 105);
    SumsOf(1, 0, [] + [87] + [105], 107);
    SumsOf(1, 0, [] + [87] + [105] + [107], 105);
    SumsOf(1, 0, [] + [87] + [105] + [107] + [105], 112);
    SumsOf(1, 0, [] + [87] + [105] + [107] + [105] + [112], 101);
    SumsOf(1, 0, [] + [87] + [105] + [107] + [105] + [112] + [101], 100);
    SumsOf(1, 0, [] + [87] + [105] + [107] + [105] + [112] + [101] + [100], 105);
    SumsOf(1, 0, [] + [87] + [105] + [107] + [105] + [112] + [101] + [100] + [105], 97);
    assert [] + [87] + [105] + [107] + [105] + [112] + [101] + [100] + [105] + [97] == [87, 105, 107, 105, 112, 101, 100, 105, 97];
  }

  lemma NoSums(a: nat, b: nat)
    ensures Sum1(a, []) == a && Sum2(a, b, []) == b
  {
  }

  predicate Valid(adler: nat) {
    adler % 0x1_0000 < BASE && adler / 0x1_0000 < BASE
  }

  lemma PackParts(a: nat, b: nat)
    requires a < BASE && b < BASE
    ensures Pack(a, b) % 0x1_0000 == a && Pack(a, b) / 0x1_0000 == b && Valid(Pack(a, b)) && Pack(a, b) < LIMIT
  {
  }

  /** An addition that does not leave 32 bits. */
  function Add(a: nat, b: nat): (r: nat)
    requires a + b < LIMIT
    ensures r == a + b
  {
    (a + b) % LIMIT
  }

  /** CHOP: 65536 is 15 modulo BASE. */
  function Chop(a: nat): (r: nat)
    ensures r % BASE == a % BASE
  {
    Shifted(a % 0x1_0000 + 15 * (a / 0x1_0000), a / 0x1_0000);
    a % 0x1_0000 + 15 * (a / 0x1_0000)
  }

  lemma Shifted(r: nat, q: nat)
    ensures (r + BASE * q) % BASE == r % BASE
  {
  }

  function Once(a: nat): (r: nat)
    requires a < 2 * BASE
    ensures r == a % BASE
  {
    if a >= BASE then a - BASE else a
  }

  /** MOD28 and MOD, with or without divisions. */
  function Mod28(a: nat, noDivide: bool): (r: nat)
    requires a < 0x1000_0000
    ensures r == a % BASE
  {
    if noDivide then Once(Chop(a)) else a % BASE
  }

  function Mod(a: nat, noDivide: bool): (r: nat)
    requires a < LIMIT
    ensures r == a % BASE
  {
    if noDivide then
      assert Chop(a) <= 0xffff + 15 * 0xffff;
      Mod28(Chop(a), true)
    else a % BASE
  }

  /** MOD63: 2^32 is 225 modulo BASE. */
  function Mod63(a: nat, noDivide: bool): (r: nat)
    requires a < 0x8000_0000_0000_0000
    ensures r == a % BASE
  {
    if noDivide then
      var tmp := a / LIMIT;
      var b := a % LIMIT + 225 * tmp;
      assert a == b + BASE * (65551 * tmp);
      Shifted(b, 65551 * tmp);
      Once(Chop(Chop(b)))
    else a % BASE
  }

  /** The most that n bytes can make of the second sum. */
  function Most(n: nat): nat {
    if n == 0 then BASE - 1 else Most(n - 1) + (BASE - 1 + 255 * n)
  }

  lemma {:induction false} MostIs(n: nat)
    ensures 2 * Most(n) == 2 * (BASE - 1) * (n + 1) + 255 * (n * (n + 1))
  {
    if n != 0 {
      MostIs(n - 1);
      assert n * (n + 1) == (n - 1) * n + 2 * n;
    }
  }

  lemma {:induction false} MostFits(n: nat)
    requires n <= NMAX
    ensures Most(n) < LIMIT
    decreases NMAX - n
  {
    if n == NMAX {
      MostIs(NMAX);
    } else {
      MostFits(n + 1);
    }
  }

  lemma {:induction false} SumsBound(a: nat, b: nat, s: seq<byte>)
    requires a < BASE && b < BASE
    ensures Sum1(a, s) <= BASE - 1 + 255 * |s| && Sum2(a, b, s) <= Most(|s|)
  {
    if s != [] {
      SumsBound(a, b, s[..|s| - 1]);
    }
  }

  /** Reducing before going on does not matter. */
  lemma {:induction false} SumsReduced(a: nat, b: nat, s: seq<byte>)
    ensures Sum1(a % BASE, s) % BASE == Sum1(a, s) % BASE
    ensures Sum2(a % BASE, b % BASE, s) % BASE == Sum2(a, b, s) % BASE
  {
    if s != [] {
      SumsReduced(a, b, s[..|s| - 1]);
      Added(Sum1(a % BASE, s[..|s| - 1]), Sum1(a, s[..|s| - 1]), s[|s| - 1], s[|s| - 1]);
      Added(Sum2(a % BASE, b % BASE, s[..|s| - 1]), Sum2(a, b, s[..|s| - 1]), Sum1(a % BASE, s), Sum1(a, s));
    }
  }

  lemma Added(x: nat, y: nat, u: nat, v: nat)
    requires x % BASE == y % BASE && u % BASE == v % BASE
    ensures (x + u) % BASE == (y + v) % BASE
  {
    ModSum(x, u);
    ModSum(y, v);
  }

  lemma ModSum(x: nat, u: nat)
    ensures (x + u) % BASE == (x % BASE + u % BASE) % BASE
  {
    assert x + u == (x % BASE + u % BASE) + BASE * (x / BASE + u / BASE);
    Shifted(x % BASE + u % BASE, x / BASE + u / BASE);
  }

  lemma {:induction false} SumsJoin(a: nat, b: nat, s: seq<byte>, t: seq<byte>)
    ensures Sum1(a, s + t) == Sum1(Sum1(a, s), t)
    ensures Sum2(a, b, s + t) == Sum2(Sum1(a, s), Sum2(a, b, s), t)
    decreases |t|
  {
    if t == [] {
      assert s + t == s;
    } else {
      assert (s + t)[..|s + t| - 1] == s + t[..|t| - 1];
      SumsJoin(a, b, s, t[..|t| - 1]);
    }
  }

  /** One byte, or one 16 bytes: no reduction. */
  method AddBytes(a: nat, b: nat, buf: seq<byte>, from: nat, n: nat, ghost start: nat, ghost a0: nat, ghost b0: nat) returns (a': nat, b': nat)
    requires start <= from && from + n <= |buf| && from + n - start <= NMAX && a0 < BASE && b0 < BASE
    requires a == Sum1(a0, buf[start..from]) && b == Sum2(a0, b0, buf[start..from])
    ensures a' == Sum1(a0, buf[start..from + n]) && b' == Sum2(a0, b0, buf[start..from + n])
  {
    a', b' := a, b;
    for i := 0 to n
      invariant a' == Sum1(a0, buf[start..from + i]) && b' == Sum2(a0, b0, buf[start..from + i])
    {
      var s := buf[start..from + i + 1];
      assert s[..|s| - 1] == buf[start..from + i];
      SumsBound(a0, b0, s);
      MostFits(|s|);
      a' := Add(a', buf[from + i]);
      b' := Add(b', a');
    }
  }

  /** The sums so far, reduced. */
  ghost predicate Upto(a: nat, b: nat, adler: nat, buf: seq<byte>, i: nat)
    requires i <= |buf|
  {
    && a == Sum1(adler % 0x1_0000, buf[..i]) % BASE
    && b == Sum2(adler % 0x1_0000, adler / 0x1_0000, buf[..i]) % BASE
  }

  lemma UptoMore(a: nat, b: nat, adler: nat, buf: seq<byte>, i: nat, j: nat)
    requires i <= j <= |buf| && Upto(a, b, adler, buf, i)
    ensures Upto(Sum1(a, buf[i..j]) % BASE, Sum2(a, b, buf[i..j]) % BASE, adler, buf, j)
  {
    var a0, b0 := adler % 0x1_0000, adler / 0x1_0000;
    assert buf[..j] == buf[..i] + buf[i..j];
    SumsJoin(a0, b0, buf[..i], buf[i..j]);
    SumsReduced(Sum1(a0, buf[..i]), Sum2(a0, b0, buf[..i]), buf[i..j]);
  }

  /** adler32_z; None stands for a null buffer. */
  method Adler32Z(adler0: nat, buffer: Option<seq<byte>>, noDivide: bool) returns (r: nat)
    requires Valid(adler0) && adler0 < LIMIT
    ensures buffer == None ==> r == 1
    ensures buffer.Some? ==> r == Adler(adler0, buffer.value) && Valid(r) && r < LIMIT
  {
    if buffer == None {
      return 1;
    }
    var buf := buffer.value;
    hide Sum1, Sum2, Most, Pack;
    var a, b;
    if |buf| < 16 {
      a, b := ShortSums(adler0 % 0x1_0000, adler0 / 0x1_0000, buf, noDivide);
    } else {
      a, b := LongSums(adler0, buf, noDivide);
    }
    PackParts(a, b);
    r := Pack(a, b);
  }

  /** Less than 16 bytes: one byte is treated specially. */
  method ShortSums(a0: nat, b0: nat, buf: seq<byte>, noDivide: bool) returns (a: nat, b: nat)
    requires a0 < BASE && b0 < BASE && |buf| < 16
    ensures a == Sum1(a0, buf) % BASE && b == Sum2(a0, b0, buf) % BASE
  {
    hide Sum1, Sum2, Most, Once, Mod28;
    if |buf| == 1 {
      OneByte(a0, b0, buf);
      a := Once(Add(a0, buf[0]));
      b := Once(Add(b0, a));
    } else {
      SumsNone(a0, b0, buf, 0);
      a, b := AddBytes(a0, b0, buf, 0, |buf|, 0, a0, b0);
      assert buf[0..|buf|] == buf;
      SumsBound(a0, b0, buf);
      ShortBound(|buf|);
      a := Once(a);
      b := Mod28(b, noDivide);
    }
  }

  lemma OneByte(a: nat, b: nat, s: seq<byte>)
    requires |s| == 1
    ensures Sum1(a, s) == a + s[0] && Sum2(a, b, s) % BASE == (b + (a + s[0]) % BASE) % BASE
  {
    assert s[..0] == [];
    assert Sum2(a, b, s) == b + Sum1(a, s);
    Added(b, b, a + s[0], (a + s[0]) % BASE);
  }

  lemma ShortBound(n: nat)
    requires n < 16
    ensures Most(n) < 0x1000_0000
  {
    MostIs(n);
    assert n * (n + 1) <= 15 * 16;
  }

  /** Blocks of NMAX bytes, then the rest. */
  method LongSums(adler0: nat, buf: seq<byte>, noDivide: bool) returns (a: nat, b: nat)
    requires Valid(adler0)
    ensures a == Sum1(adler0 % 0x1_0000, buf) % BASE && b == Sum2(adler0 % 0x1_0000, adler0 / 0x1_0000, buf) % BASE
  {
    hide Upto;
    a, b := adler0 % 0x1_0000, adler0 / 0x1_0000;
    var i: nat := 0;
    UptoStart(adler0, buf);
    while |buf| - i >= NMAX
      invariant i <= |buf| && a < BASE && b < BASE && Upto(a, b, adler0, buf, i)
    {
      a, b := SumBlock(a, b, adler0, buf, i, NMAX, noDivide);
      i := i + NMAX;
    }
    if i < |buf| {
      a, b := SumBlock(a, b, adler0, buf, i, |buf| - i, noDivide);
      i := |buf|;
    }
    UptoEnd(a, b, adler0, buf);
  }

  lemma UptoStart(adler: nat, buf: seq<byte>)
    requires Valid(adler)
    ensures Upto(adler % 0x1_0000, adler / 0x1_0000, adler, buf, 0)
  {
  }

  lemma UptoEnd(a: nat, b: nat, adler: nat, buf: seq<byte>)
    requires Upto(a, b, adler, buf, |buf|)
    ensures a == Sum1(adler % 0x1_0000, buf) % BASE && b == Sum2(adler % 0x1_0000, adler / 0x1_0000, buf) % BASE
  {
    assert buf[..|buf|] == buf;
  }

  /** At most NMAX bytes, in sixteens and then singly, with one reduction at the end. */
  method SumBlock(a0: nat, b0: nat, ghost adler: nat, buf: seq<byte>, start: nat, n: nat, noDivide: bool) returns (a: nat, b: nat)
    requires n <= NMAX && start + n <= |buf| && a0 < BASE && b0 < BASE && Upto(a0, b0, adler, buf, start)
    ensures a < BASE && b < BASE && Upto(a, b, adler, buf, start + n)
  {
    hide Upto, Sum1, Sum2, Most;
    a, b := a0, b0;
    var i := start;
    SumsNone(a0, b0, buf, start);
    while start + n - i >= 16
      invariant start <= i <= start + n && a == Sum1(a0, buf[start..i]) && b == Sum2(a0, b0, buf[start..i])
    {
      a, b := AddBytes(a, b, buf, i, 16, start, a0, b0);
      i := i + 16;
    }
    a, b := AddBytes(a, b, buf, i, start + n - i, start, a0, b0);
    SumsBound(a0, b0, buf[start..start + n]);
    MostFits(n);
    UptoMore(a0, b0, adler, buf, start, start + n);
    a := Mod(a, noDivide);
    b := Mod(b, noDivide);
  }

  lemma SumsNone(a: nat, b: nat, buf: seq<byte>, i: nat)
    requires i <= |buf|
    ensures Sum1(a, buf[i..i]) == a && Sum2(a, b, buf[i..i]) == b
  {
  }

  /** A larger first sum adds up over the length. */
  lemma {:induction false} Sum2Shift(a: nat, d: nat, b: nat, e: nat, s: seq<byte>)
    ensures Sum1(a + d, s) == Sum1(a, s) + d
    ensures Sum2(a + d, b + e, s) == Sum2(a, b, s) + e + d * |s|
  {
    if s != [] {
      Sum2Shift(a, d, b, e, s[..|s| - 1]);
      assert d * |s| == d * (|s| - 1) + d;
    }
  }

  lemma ModProduct(x: nat, y: nat)
    ensures ((x % BASE) * (y % BASE)) % BASE == (x * y) % BASE
  {
    var q, r, p, s := x / BASE, x % BASE, y / BASE, y % BASE;
    assert x == BASE * q + r && y == BASE * p + s;
    assert x * y == r * s + BASE * (q * y + r * p) by {
      assert x * y == BASE * (q * y) + r * y;
      assert r * y == BASE * (r * p) + r * s;
    }
    Shifted(r * s, q * y + r * p);
  }

  lemma ProductBound(x: nat, y: nat)
    requires x < BASE && y < 0x1_0000
    ensures x * y < LIMIT
  {
    ProductMono(x, BASE - 1, y);
  }

  lemma {:induction false} ProductMono(x: nat, k: nat, y: nat)
    requires x <= k
    ensures x * y <= k * y
  {
    if x < k {
      ProductMono(x, k - 1, y);
      assert k * y == (k - 1) * y + y;
    }
  }

  /** The product in the formula. */
  function Product(x: nat, y: nat): nat {
    x * y
  }

  function Twice(a: nat): (r: nat)
    requires a < 3 * BASE
    ensures r == a % BASE
  {
    Once(if a >= BASE then a - BASE else a)
  }

  function Thrice(a: nat): (r: nat)
    requires a < 4 * BASE
    ensures r == a % BASE
  {
    Once(if a >= 2 * BASE then a - 2 * BASE else a)
  }

  /** The two sums of the combined checksum, from those of the parts. */
  function Combined(adler1: nat, adler2: nat, len2: nat): (r: nat)
    requires Valid(adler1) && Valid(adler2)
  {
    var rem := len2 % BASE;
    Pack((adler1 % 0x1_0000 + adler2 % 0x1_0000 + BASE - 1) % BASE,
         (Product(rem, adler1 % 0x1_0000) % BASE + adler1 / 0x1_0000 + adler2 / 0x1_0000 + BASE - rem) % BASE)
  }

  /** adler32_combine_ */
  method Combine(adler1: nat, adler2: nat, len2: int, noDivide: bool) returns (r: nat)
    requires adler1 < LIMIT && adler2 < LIMIT && Valid(adler1) && Valid(adler2) && len2 < 0x8000_0000_0000_0000
    ensures len2 < 0 ==> r == 0xffff_ffff
    ensures len2 >= 0 ==> r == Combined(adler1, adler2, len2)
  {
    if len2 < 0 {
      return 0xffff_ffff;
    }
    hide Product, Pack;
    var rem := Mod63(len2, noDivide);
    var sum1 := adler1 % 0x1_0000;
    ProductFits(rem, sum1);
    var sum2 := Mod(Product(rem, sum1), noDivide);
    sum1 := sum1 + (adler2 % 0x1_0000 + BASE - 1);
    sum2 := sum2 + (adler1 / 0x1_0000 + adler2 / 0x1_0000 + BASE - rem);
    r := Pack(Twice(sum1), Thrice(sum2));
  }

  lemma ProductFits(x: nat, y: nat)
    requires x < BASE && y < 0x1_0000
    ensures Product(x, y) < LIMIT
  {
    ProductBound(x, y);
  }

  /** The formula gives the checksum of the concatenation. */
  lemma CombineJoins(s: seq<byte>, t: seq<byte>)
    ensures Valid(Adler(1, s)) && Valid(Adler(1, t)) && Adler(1, s + t) == Combined(Adler(1, s), Adler(1, t), |t|)
  {
    hide Sum1, Sum2;
    SumsJoin(1, 0, s, t);
    var d, e := Sum1(1, s) - 1, Sum2(1, 0, s);
    FirstSum(1, s);
    Sum2Shift(1, d, 0, e, t);
    var n, x, u, v := |t|, Sum1(1, s), Sum1(1, t), Sum2(1, 0, t);
    PackParts(x % BASE, e % BASE);
    PackParts(u % BASE, v % BASE);
    FirstCongruence(x, u);
    SecondCongruence(v, e, x, n);
  }

  lemma {:induction false} FirstSum(a: nat, s: seq<byte>)
    ensures Sum1(a, s) >= a
  {
    if s != [] {
      FirstSum(a, s[..|s| - 1]);
    }
  }

  lemma FirstCongruence(x: nat, u: nat)
    requires x >= 1
    ensures (u + (x - 1)) % BASE == (x % BASE + u % BASE + BASE - 1) % BASE
  {
    var q, p := x / BASE, u / BASE;
    assert u + (x - 1) + BASE == (x % BASE + u % BASE + BASE - 1) + BASE * (q + p);
    Shifted(x % BASE + u % BASE + BASE - 1, q + p);
    Shifted(u + (x - 1), 1);
  }

  lemma SecondCongruence(v: nat, e: nat, x: nat, n: nat)
    requires x >= 1
    ensures (v + e + (x - 1) * n) % BASE == (Product(n % BASE, x % BASE) % BASE + e % BASE + v % BASE + BASE - n % BASE) % BASE
  {
    ModProduct(n, x);
    var p := n * x;
    assert (x - 1) * n == p - n;
    assert p >= n by {
      assert (x - 1) * n >= 0;
    }
    SumCongruence(v, e, p, n);
  }

  lemma SumCongruence(v: nat, e: nat, p: nat, n: nat)
    requires p >= n
    ensures (v + e + (p - n)) % BASE == (p % BASE + e % BASE + v % BASE + BASE - n % BASE) % BASE
  {
    var total := v + e + (p - n);
    var small := p % BASE + e % BASE + v % BASE + BASE - n % BASE;
    var k := v / BASE + e / BASE + p / BASE;
    assert total + BASE * (1 + n / BASE) == small + BASE * k;
    Shifted(small, k);
    Shifted(total, 1 + n / BASE);
  }

  method CombineAdlers(s: seq<byte>, t: seq<byte>, noDivide: bool) returns (r: nat)
    requires |t| < 0x8000_0000_0000_0000
    ensures r == Adler(1, s + t)
  {
    hide Adler, Combined;
    CombineJoins(s, t);
    AdlerValid(1, s);
    AdlerValid(1, t);
    r := Combine(Adler(1, s), Adler(1, t), |t|, noDivide);
  }

  lemma AdlerValid(adler: nat, s: seq<byte>)
    ensures Valid(Adler(adler, s)) && Adler(adler, s) < LIMIT
  {
    hide Sum1, Sum2;
    PackParts(Sum1(adler % 0x1_0000, s) % BASE, Sum2(adler % 0x1_0000, adler / 0x1_0000, s) % BASE);
  }
}
