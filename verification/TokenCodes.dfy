/** The codes for match lengths and distances: tr_static_init of trees.c against the decoder's tables. */
module TokenCodes {
  import opened Sums
  import opened DecodeTable

  const LENGTH_CODES: nat := 29
  const D_CODES: nat := 30
  const END_BLOCK: nat := 256
  const EXTRA_L: seq<nat> := [0, 0, 0, 0, 0, 0, 0, 0, 1, 1, 1, 1, 2, 2, 2, 2, 3, 3, 3, 3, 4, 4, 4, 4, 5, 5, 5, 5, 0]
  const EXTRA_D: seq<nat> := [0, 0, 0, 0, 1, 1, 2, 2, 3, 3, 4, 4, 5, 5, 6, 6, 7, 7, 8, 8, 9, 9, 10, 10, 11, 11, 12, 12, 13, 13]

  /** The extra bits of a length or distance code. */
  function Extra(dist: bool, code: nat): nat {
    if dist then (if code < 4 then 0 else code / 2 - 1)
    else if code < 8 || code == 28 then 0 else code / 4 - 1
  }

  /** extra_lbits and extra_dbits */
  lemma ExtraTables(code: nat)
    ensures code < LENGTH_CODES ==> EXTRA_L[code] == Extra(false, code)
    ensures code < D_CODES ==> EXTRA_D[code] == Extra(true, code)
  {
  }

  /** The number of extra bits, from the tables. */
  method ExtraBits(dist: bool, code: nat) returns (n: nat)
    requires code < Codes(dist)
    ensures n == Extra(dist, code)
  {
    hide Extra;
    ExtraTables(code);
    n := if dist then EXTRA_D[code] else EXTRA_L[code];
  }

  function Codes(dist: bool): nat {
    if dist then D_CODES else LENGTH_CODES
  }

  /** The first value of a code, if every code covers 2^extra values. */
  function First(dist: bool, code: nat): nat {
    if code == 0 then 0 else First(dist, code - 1) + Pow2(Extra(dist, code - 1))
  }

  /** The tables of trees.c. */
  datatype Tables = Tables(lengthCode: seq<nat>, baseLength: seq<nat>, distCode: seq<nat>, baseDist: seq<nat>)

  /** The code covers the value. */
  predicate Covers(dist: bool, base: seq<nat>, code: nat, value: nat) {
    code < Codes(dist) && code < |base| && base[code] <= value < base[code] + Pow2(Extra(dist, code))
  }

  function DCode(distCode: seq<nat>, dist: nat): nat
    requires |distCode| == 512 && dist < 32768
  {
    if dist < 256 then distCode[dist] else distCode[256 + dist / 128]
  }

  ghost predicate TablesOk(t: Tables) {
    && |t.lengthCode| == 256 && |t.baseLength| == LENGTH_CODES && |t.distCode| == 512 && |t.baseDist| == D_CODES
    && (forall lc :: 0 <= lc < 255 ==> t.lengthCode[lc] < 28 && Covers(false, t.baseLength, t.lengthCode[lc], lc))
    && t.lengthCode[255] == 28
    && (forall c :: 0 <= c < 28 ==> t.baseLength[c] == First(false, c))
    && (forall c :: 0 <= c < D_CODES ==> t.baseDist[c] == First(true, c))
    && (forall d: nat :: d < 32768 ==> Covers(true, t.baseDist, DCode(t.distCode, d), d))
  }

  /** The inner loop: code for the 2^bits table positions from `from` on. */
  method Fill(table: array<nat>, from: nat, code: nat, bits: nat)
    requires from + Pow2(bits) <= table.Length
    modifies table
    ensures forall i :: 0 <= i < table.Length ==> table[i] == if from <= i < from + Pow2(bits) then code else old(table[i])
  {
    for n := 0 to Pow2(bits)
      invariant forall i :: 0 <= i < table.Length ==> table[i] == if from <= i < from + n then code else old(table[i])
    {
      table[from + n] := code;
    }
  }

  lemma TwoCodes(dist: bool, c: nat, k: nat)
    requires Extra(dist, c) == Extra(dist, c + 1) == k
    ensures First(dist, c + 2) == First(dist, c) + Pow2(k + 1)
  {
    hide Extra;
  }

  lemma FourCodes(dist: bool, c: nat, k: nat)
    requires Extra(dist, c) == Extra(dist, c + 1) == Extra(dist, c + 2) == Extra(dist, c + 3) == k
    ensures First(dist, c + 4) == First(dist, c) + Pow2(k + 2)
  {
    hide First, Extra;
    TwoCodes(dist, c, k);
    TwoCodes(dist, c + 2, k);
  }

  lemma Powers()
    ensures Pow2(1) == 2 && Pow2(2) == 4 && Pow2(3) == 8 && Pow2(4) == 16 && Pow2(5) == 32 && Pow2(6) == 64 && Pow2(7) == 128
    ensures Pow2(8) == 256 && Pow2(9) == 512 && Pow2(10) == 1024 && Pow2(11) == 2048 && Pow2(12) == 4096 && Pow2(13) == 8192 && Pow2(14) == 16384
  {
  }

  lemma FirstZero(dist: bool)
    ensures First(dist, 0) == 0
  {
  }

  lemma LengthEnds()
    ensures First(false, 8) == 8 && First(false, 28) == 256
  {
    hide First, Pow2;
    FirstZero(false);
    Powers();
    FourCodes(false, 0, 0);
    FourCodes(false, 4, 0);
    FourCodes(false, 8, 1);
    FourCodes(false, 12, 2);
    FourCodes(false, 16, 3);
    FourCodes(false, 20, 4);
    FourCodes(false, 24, 5);
  }

  lemma DistEnds()
    ensures First(true, 16) == 256 && First(true, 30) == 32768
  {
    hide First, Pow2;
    FirstZero(true);
    Powers();
    FourCodes(true, 0, 0);
    TwoCodes(true, 4, 1);
    TwoCodes(true, 6, 2);
    TwoCodes(true, 8, 3);
    TwoCodes(true, 10, 4);
    TwoCodes(true, 12, 5);
    TwoCodes(true, 14, 6);
    TwoCodes(true, 16, 7);
    TwoCodes(true, 18, 8);
    TwoCodes(true, 20, 9);
    TwoCodes(true, 22, 10);
    TwoCodes(true, 24, 11);
    TwoCodes(true, 26, 12);
    TwoCodes(true, 28, 13);
  }

  lemma {:induction false} FirstMono(dist: bool, c: nat, d: nat)
    requires c <= d
    ensures First(dist, c) <= First(dist, d)
    decreases d
  {
    if c < d {
      FirstMono(dist, c, d - 1);
    }
  }

  /** The entries below `value` are filled, for the codes below `code`. */
  ghost predicate Done(dist: bool, table: seq<nat>, base: seq<nat>, code: nat, value: nat) {
    && |table| >= 256 && |base| == Codes(dist) && code <= Codes(dist) && value == First(dist, code) && value <= 256
    && (forall c :: 0 <= c < code ==> base[c] == First(dist, c))
    && (forall v :: 0 <= v < value ==> table[v] < code && Covers(dist, base, table[v], v))
  }

  lemma DoneStep(dist: bool, was: seq<nat>, table: seq<nat>, base: seq<nat>, code: nat, value: nat)
    requires Done(dist, was, base, code, value) && code < Codes(dist) && value + Pow2(Extra(dist, code)) <= 256 && |table| == |was|
    requires forall i :: 0 <= i < |table| ==> table[i] == if value <= i < value + Pow2(Extra(dist, code)) then code else was[i]
    ensures Done(dist, table, base[code := value], code + 1, value + Pow2(Extra(dist, code)))
  {
    hide Pow2, Extra;
    var base', n := base[code := value], Pow2(Extra(dist, code));
    forall v | 0 <= v < value + n
      ensures table[v] < code + 1 && Covers(dist, base', table[v], v)
    {
      if v < value {
        assert Covers(dist, base, was[v], v) && was[v] < code;
      }
    }
  }

  lemma DoneRoom(dist: bool, code: nat, value: nat, end: nat)
    requires value == First(dist, code) && code < end && First(dist, end) == 256
    ensures value + Pow2(Extra(dist, code)) <= 256
  {
    FirstMono(dist, code + 1, end);
  }

  lemma DoneFacts(dist: bool, table: seq<nat>, base: seq<nat>, code: nat)
    requires Done(dist, table, base, code, 256)
    ensures forall c :: 0 <= c < code ==> base[c] == First(dist, c)
    ensures forall v :: 0 <= v < 256 ==> table[v] < code && Covers(dist, base, table[v], v)
  {
  }

  /** Fills the entries for the codes below end. */
  method InitDirect(dist: bool, table: array<nat>, base: array<nat>, end: nat)
    requires table.Length >= 256 && base.Length == Codes(dist) >= end && table != base && First(dist, end) == 256
    modifies table, base
    ensures Done(dist, table[..], base[..], end, 256)
  {
    hide Pow2, Extra, Done, First;
    var value: nat := 0;
    DoneStart(dist, table[..], base[..]);
    for code := 0 to end
      invariant Done(dist, table[..], base[..], code, value) && value == First(dist, code)
    {
      DoneRoom(dist, code, value, end);
      ghost var was := table[..];
      var extra := ExtraBits(dist, code);
      Fill(table, value, code, extra);
      DoneStep(dist, was, table[..], base[..], code, value);
      FirstNext(dist, code);
      base[code] := value;
      value := value + Pow2(extra);
    }
  }

  lemma FirstNext(dist: bool, code: nat)
    ensures First(dist, code + 1) == First(dist, code) + Pow2(Extra(dist, code))
  {
  }

  lemma DoneStart(dist: bool, table: seq<nat>, base: seq<nat>)
    requires |table| >= 256 && |base| == Codes(dist)
    ensures Done(dist, table, base, 0, 0) && First(dist, 0) == 0
  {
  }

  /** The length half of tr_static_init. */
  method InitLengths() returns (lengthCode: array<nat>, baseLength: array<nat>)
    ensures lengthCode.Length == 256 && baseLength.Length == LENGTH_CODES
    ensures forall lc :: 0 <= lc < 255 ==> lengthCode[lc] < 28 && Covers(false, baseLength[..], lengthCode[lc], lc)
    ensures lengthCode[255] == 28 && forall c :: 0 <= c < 28 ==> baseLength[c] == First(false, c)
  {
    hide Covers, Done, First, Pow2;
    lengthCode, baseLength := new nat[256](_ => 0), new nat[LENGTH_CODES](_ => 0);
    LengthEnds();
    InitDirect(false, lengthCode, baseLength, 28);
    DoneFacts(false, lengthCode[..], baseLength[..], 28);
    ghost var table := lengthCode[..];
    lengthCode[255] := 28;
    assert forall lc :: 0 <= lc < 255 ==> lengthCode[lc] == table[lc];
  }

  /** The distances up to 256, one entry each. */
  method InitNear(distCode: array<nat>, baseDist: array<nat>)
    requires distCode.Length == 512 && baseDist.Length == D_CODES && distCode != baseDist
    modifies distCode, baseDist
    ensures forall c :: 0 <= c < 16 ==> baseDist[c] == First(true, c)
    ensures forall d :: 0 <= d < 256 ==> distCode[d] < 16 && Covers(true, baseDist[..], distCode[d], d)
  {
    hide Covers, Done, First, Pow2;
    DistEnds();
    InitDirect(true, distCode, baseDist, 16);
    DoneFacts(true, distCode[..], baseDist[..], 16);
  }

  /** The code of the 128 distances from 128 * i on. */
  ghost predicate CoversFar(base: seq<nat>, code: nat, i: nat) {
    code < D_CODES && code < |base| && base[code] <= 128 * i && 128 * i + 128 <= base[code] + Pow2(Extra(true, code))
  }

  /** The entries up to position 256 + dist are filled, for the codes below `code`. */
  ghost predicate FarOk(distCode: seq<nat>, base: seq<nat>, near: seq<nat>, code: nat, dist: nat) {
    && |distCode| == 512 == |near| && |base| == D_CODES && 16 <= code <= D_CODES
    && 128 * dist == First(true, code) && 2 <= dist <= 256
    && (forall c :: 0 <= c < code ==> base[c] == First(true, c))
    && (forall d :: 0 <= d < 256 ==> distCode[d] == near[d])
    && (forall i :: 258 <= i < 256 + dist ==> CoversFar(base, distCode[i], i - 256) && distCode[i] < code)
  }

  lemma FarStep(was: seq<nat>, distCode: seq<nat>, base: seq<nat>, near: seq<nat>, code: nat, dist: nat)
    requires FarOk(was, base, near, code, dist) && code < D_CODES && |distCode| == 512 && 256 + dist + Pow2(Extra(true, code) - 7) <= 512
    requires Extra(true, code) >= 7
    requires forall i :: 0 <= i < 512 ==> distCode[i] == if 256 + dist <= i < 256 + dist + Pow2(Extra(true, code) - 7) then code else was[i]
    ensures FarOk(distCode, base[code := 128 * dist], near, code + 1, dist + Pow2(Extra(true, code) - 7))
  {
    hide Pow2, Extra;
    var base', n := base[code := 128 * dist], Pow2(Extra(true, code) - 7);
    FarPower(Extra(true, code));
    FarCovers(code, dist);
    forall i | 258 <= i < 256 + dist + n
      ensures CoversFar(base', distCode[i], i - 256) && distCode[i] < code + 1
    {
      if i < 256 + dist {
        assert CoversFar(base, was[i], i - 256) && was[i] < code;
      }
    }
  }

  lemma FarRoom(code: nat, dist: nat)
    requires 16 <= code < D_CODES && 128 * dist == First(true, code)
    ensures Extra(true, code) >= 7 && dist + Pow2(Extra(true, code) - 7) <= 256
  {
    hide Pow2, First;
    FarPower(Extra(true, code));
    FarCovers(code, dist);
    FirstMono(true, code + 1, 30);
    DistEnds();
  }

  /** The farther distances, one entry for 128 of them. */
  method InitFar(distCode: array<nat>, baseDist: array<nat>)
    requires distCode.Length == 512 && baseDist.Length == D_CODES && distCode != baseDist
    requires forall c :: 0 <= c < 16 ==> baseDist[c] == First(true, c)
    modifies distCode, baseDist
    ensures forall c :: 0 <= c < D_CODES ==> baseDist[c] == First(true, c)
    ensures forall d :: 0 <= d < 256 ==> distCode[d] == old(distCode[d])
    ensures forall i :: 258 <= i < 512 ==> CoversFar(baseDist[..], distCode[i], i - 256)
  {
    hide Pow2, Extra, FarOk;
    var dist: nat := 2;
    ghost var near := distCode[..];
    FarStart(distCode[..], baseDist[..]);
    for code := 16 to D_CODES
      invariant FarOk(distCode[..], baseDist[..], near, code, dist)
    {
      FarLimits(distCode[..], baseDist[..], near, code, dist);
      FarRoom(code, dist);
      ghost var was := distCode[..];
      var extra := ExtraBits(true, code);
      Fill(distCode, 256 + dist, code, extra - 7);
      FarStep(was, distCode[..], baseDist[..], near, code, dist);
      baseDist[code] := 128 * dist;
      dist := dist + Pow2(extra - 7);
    }
    FarFacts(distCode[..], baseDist[..], near, dist);
  }

  lemma FarStart(distCode: seq<nat>, base: seq<nat>)
    requires |distCode| == 512 && |base| == D_CODES && forall c :: 0 <= c < 16 ==> base[c] == First(true, c)
    ensures FarOk(distCode, base, distCode, 16, 2)
  {
    hide First;
    DistEnds();
  }

  lemma FarLimits(distCode: seq<nat>, base: seq<nat>, near: seq<nat>, code: nat, dist: nat)
    requires FarOk(distCode, base, near, code, dist)
    ensures 128 * dist == First(true, code) && 16 <= code <= D_CODES && dist <= 256
  {
  }

  lemma FarFacts(distCode: seq<nat>, base: seq<nat>, near: seq<nat>, dist: nat)
    requires FarOk(distCode, base, near, D_CODES, dist)
    ensures forall c :: 0 <= c < D_CODES ==> base[c] == First(true, c)
    ensures forall d :: 0 <= d < 256 ==> distCode[d] == near[d]
    ensures forall i :: 258 <= i < 512 ==> CoversFar(base, distCode[i], i - 256)
  {
    hide First;
    DistEnds();
  }

  lemma FarPower(k: nat)
    requires k >= 7
    ensures Pow2(k) == 128 * Pow2(k - 7)
  {
    assert Pow2(k) == 2 * Pow2(k - 1) && Pow2(k - 1) == 2 * Pow2(k - 2) && Pow2(k - 2) == 2 * Pow2(k - 3) && Pow2(k - 3) == 2 * Pow2(k - 4);
    assert Pow2(k - 4) == 2 * Pow2(k - 5) && Pow2(k - 5) == 2 * Pow2(k - 6) && Pow2(k - 6) == 2 * Pow2(k - 7);
  }

  lemma FarCovers(code: nat, dist: nat)
    requires 16 <= code < D_CODES
    ensures First(true, code + 1) == First(true, code) + Pow2(Extra(true, code)) && Extra(true, code) >= 7
  {
  }

  /** tr_static_init */
  method TrStaticInit() returns (t: Tables)
    ensures TablesOk(t)
  {
    hide Covers, CoversFar, First, Pow2;
    var lengthCode, baseLength := InitLengths();
    var distCode, baseDist := new nat[512](_ => 0), new nat[D_CODES](_ => 0);
    InitNear(distCode, baseDist);
    NearStays(distCode[..], baseDist[..]);
    ghost var near, base := distCode[..], baseDist[..];
    InitFar(distCode, baseDist);
    t := Tables(lengthCode[..], baseLength[..], distCode[..], baseDist[..]);
    forall d: nat | d < 32768
      ensures Covers(true, t.baseDist, DCode(t.distCode, d), d)
    {
      if d < 256 {
        assert near[d] == t.distCode[d];
        SameBase(base, t.baseDist, near[d], d);
      } else {
        FarInside(t.baseDist, t.distCode[256 + d / 128], d);
      }
    }
  }

  lemma NearStays(distCode: seq<nat>, base: seq<nat>)
    requires |distCode| == 512 && forall d :: 0 <= d < 256 ==> distCode[d] < 16 && Covers(true, base, distCode[d], d)
    ensures forall d :: 0 <= d < 256 ==> distCode[d] < 16
  {
  }

  lemma SameBase(a: seq<nat>, b: seq<nat>, code: nat, d: nat)
    requires Covers(true, a, code, d) && |a| == |b| && code < |a| && a[code] == b[code]
    ensures Covers(true, b, code, d)
  {
  }

  lemma FarInside(base: seq<nat>, code: nat, d: nat)
    requires CoversFar(base, code, d / 128)
    ensures Covers(true, base, code, d)
  {
  }

  /** The decoder's tables give back every length and distance. */
  lemma DecoderAgrees(t: Tables, c: nat)
    requires TablesOk(t)
    ensures c < 28 ==> LBASE[c] == t.baseLength[c] + 3 && LEXT[c] == 16 + Extra(false, c)
    ensures LBASE[28] == 258 && LEXT[28] == 16 && Extra(false, 28) == 0
    ensures c < D_CODES ==> DBASE[c] == t.baseDist[c] + 1 && DEXT[c] == 16 + Extra(true, c)
  {
    hide Covers, DCode, Extra, First;
    BasesAndExtras(c);
  }

  lemma BasesAndExtras(c: nat)
    ensures c < 28 ==> LBASE[c] == First(false, c) + 3 && LEXT[c] == 16 + Extra(false, c)
    ensures LBASE[28] == 258 && LEXT[28] == 16 && Extra(false, 28) == 0
    ensures c < D_CODES ==> DBASE[c] == First(true, c) + 1 && DEXT[c] == 16 + Extra(true, c)
  {
    hide Extra, Base;
    LengthExtras(c);
    if c < 28 {
      LengthBases(c);
      FirstIsBase(false, c);
    }
    if c < D_CODES {
      DistBases(c);
      DistExtras(c);
      FirstIsBase(true, c);
    }
  }

  /** Small powers of two, by cases. */
  function SmallPower(e: nat): nat {
    if e == 0 then 1 else if e == 1 then 2 else if e == 2 then 4 else if e == 3 then 8 else if e == 4 then 16 else if e == 5 then 32
    else if e == 6 then 64 else if e == 7 then 128 else if e == 8 then 256 else if e == 9 then 512 else if e == 10 then 1024
    else if e == 11 then 2048 else if e == 12 then 4096 else 8192
  }

  lemma SmallPow(e: nat)
    requires e <= 13
    ensures SmallPower(e) == Pow2(e)
  {
    hide Pow2;
    Powers();
    PowZero();
  }

  lemma PowZero()
    ensures Pow2(0) == 1
  {
  }

  /** The first value of a code in closed form. */
  function Base(dist: bool, c: nat): nat {
    var s := SmallPower(Extra(dist, c));
    if dist then (if c < 4 then c else if c % 2 == 0 then 2 * s else 3 * s)
    else if c < 8 then c
    else if c % 4 == 0 then 4 * s else if c % 4 == 1 then 5 * s else if c % 4 == 2 then 6 * s else 7 * s
  }

  lemma {:induction false} FirstIsBase(dist: bool, c: nat)
    requires c < if dist then D_CODES else 28
    ensures First(dist, c) == Base(dist, c)
  {
    hide Pow2, SmallPower;
    if c == 0 {
      SmallPow(0);
    } else {
      FirstIsBase(dist, c - 1);
      SmallPow(Extra(dist, c - 1));
      SmallPow(Extra(dist, c));
      NextExtra(dist, c);
    }
  }

  /** The extra bits grow by one when the codes of a group are used up. */
  lemma NextExtra(dist: bool, c: nat)
    requires 0 < c && c < if dist then D_CODES else 28
    ensures Base(dist, c) == Base(dist, c - 1) + SmallPower(Extra(dist, c - 1))
  {
    hide SmallPower;
    var e := Extra(dist, c);
    if e != Extra(dist, c - 1) {
      SmallDouble(e);
    }
    if e <= 1 {
      SmallOne();
    }
  }

  lemma SmallOne()
    ensures SmallPower(0) == 1 && SmallPower(1) == 2
  {
  }

  lemma SmallDouble(e: nat)
    requires 1 <= e <= 13
    ensures SmallPower(e) == 2 * SmallPower(e - 1)
  {
  }

  lemma LengthBases(c: nat)
    requires c < 28
    ensures LBASE[c] == Base(false, c) + 3
  {
  }

  lemma DistBases(c: nat)
    requires c < D_CODES
    ensures DBASE[c] == Base(true, c) + 1
  {
  }

  lemma LengthExtras(c: nat)
    ensures c < 28 ==> LEXT[c] == 16 + Extra(false, c)
    ensures LBASE[28] == 258 && LEXT[28] == 16 && Extra(false, 28) == 0
  {
  }

  lemma DistExtras(c: nat)
    requires c < D_CODES
    ensures DEXT[c] == 16 + Extra(true, c)
  {
  }
}
