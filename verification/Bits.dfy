/** Unsigned machine arithmetic on mathematical naturals: bitwise operators, the masking
    trick of both ring buffers, and the two bit-smearing round-up helpers. */
module Bits {

  type pos = x: nat | x > 0 witness 1

  const TWO_63 := 0x8000_0000_0000_0000
  const TWO_64 := 0x1_0000_0000_0000_0000

  function Pow2(k: nat): (r: nat)
    ensures r > 0
  {
    if k == 0 then 1 else 2 * Pow2(k - 1)
  }

  function BitAnd(a: nat, b: nat): nat {
    if a == 0 || b == 0 then 0
    else 2 * BitAnd(a / 2, b / 2) + (if a % 2 == 1 && b % 2 == 1 then 1 else 0)
  }

  function BitOr(a: nat, b: nat): nat
    decreases a + b
  {
    if a == 0 then b else if b == 0 then a
    else 2 * BitOr(a / 2, b / 2) + (if a % 2 == 1 || b % 2 == 1 then 1 else 0)
  }

  // ---------------------------------------------------------------- masking

  lemma {:induction false} HalfMod(x: nat, p: pos, half: pos)
    requires p == 2 * half
    ensures x % p == 2 * ((x / 2) % half) + x % 2
  {
    var q, r := (x / 2) / half, (x / 2) % half;
    assert x / 2 == q * half + r;
    assert x == q * p + (2 * r + x % 2) by {
      assert q * (2 * half) == 2 * (q * half);
    }
    ModUnique(x, p, q, 2 * r + x % 2);
  }

  lemma ModUnique(x: int, n: int, q: int, r: int)
    requires 0 <= r < n && x == q * n + r
    ensures x % n == r && x / n == q
  {
    var q', r' := x / n, x % n;
    assert x == q' * n + r';
    assert (q - q') * n == r' - r by { MulSub(q, q', n); }
    if q > q' {
      MulAtLeast(q - q', n);
    } else if q < q' {
      MulAtLeast(q' - q, n);
      MulSub(q', q, n);
    }
  }

  lemma MulSub(a: int, b: int, n: int)
    ensures (a - b) * n == a * n - b * n
  {
  }

  lemma MulAtLeast(a: int, n: int)
    requires a >= 1 && n >= 0
    ensures a * n >= n
  {
  }

  lemma MulLe(a: int, b: int, n: nat)
    requires a <= b
    ensures a * n <= b * n
  {
  }

  lemma MulSplit(total: nat, part: nat, n: nat)
    requires part <= total
    ensures 0 <= part * n && 0 <= (total - part) * n && (total - part) * n + part * n == total * n
  {
  }

  /** a * n by repeated addition, for invariants that must stay free of products. */
  function Times(a: nat, n: nat): nat { if a == 0 then 0 else Times(a - 1, n) + n }

  lemma {:induction false} TimesIs(a: nat, n: nat)
    ensures Times(a, n) == a * n
  {
    if a > 0 {
      TimesIs(a - 1, n);
      MulAdd(a - 1, 1, n);
    }
  }

  lemma {:induction false} TimesAdd(a: nat, b: nat, n: nat)
    ensures Times(a + b, n) == Times(a, n) + Times(b, n)
  {
    if b > 0 {
      TimesAdd(a, b - 1, n);
    }
  }

  lemma MulAdd(a: int, b: int, n: int)
    ensures (a + b) * n == a * n + b * n
  {
  }

  lemma AndEven(a: nat, m: nat, b: nat)
    requires m == 2 * b
    ensures BitAnd(a, m) == 2 * BitAnd(a / 2, b)
  {
    assert m / 2 == b && m % 2 == 0;
    if a == 0 || b == 0 {
      assert BitAnd(a / 2, b) == 0;
    }
  }

  lemma AndOdd(a: nat, m: nat, b: nat)
    requires m == 2 * b + 1
    ensures BitAnd(a, m) == 2 * BitAnd(a / 2, b) + a % 2
  {
    assert m / 2 == b && m % 2 == 1;
    if a == 0 {
      assert BitAnd(a / 2, b) == 0;
    }
  }

  /** The cursor mask of both buffers is the remainder by their power-of-two capacity. */
  lemma {:induction false} MaskIsMod(x: nat, k: nat)
    ensures BitAnd(x, Pow2(k) - 1) == x % Pow2(k)
  {
    if k > 0 {
      MaskIsMod(x / 2, k - 1);
      MaskDoubles(x, Pow2(k), Pow2(k - 1));
    } else {
      assert BitAnd(x, 0) == 0;
      ModUnique(x, 1, x, 0);
    }
  }

  lemma MaskDoubles(x: nat, p: pos, half: pos)
    requires p == 2 * half && BitAnd(x / 2, half - 1) == (x / 2) % half
    ensures BitAnd(x, p - 1) == x % p
  {
    AndOdd(x, p - 1, half - 1);
    HalfMod(x, p, half);
  }

  lemma {:induction false} Pow2Divides(i: nat, k: nat)
    requires i <= k
    ensures Pow2(k) == Pow2(k - i) * Pow2(i)
  {
    if i > 0 {
      Pow2Divides(i - 1, k);
      assert Pow2(k - (i - 1)) == 2 * Pow2(k - i);
      assert 2 * Pow2(k - i) * Pow2(i - 1) == Pow2(k - i) * (2 * Pow2(i - 1));
    }
  }

  lemma {:induction false} Pow2Monotone(i: nat, k: nat)
    requires i <= k
    ensures Pow2(i) <= Pow2(k)
    decreases k
  {
    if i < k {
      Pow2Monotone(i, k - 1);
    }
  }

  lemma Pow2Of64()
    ensures Pow2(64) == TWO_64 && Pow2(63) == TWO_63
  {
    assert Pow2(4) == 16;
    Pow2Divides(4, 8);
    Pow2Divides(8, 16);
    Pow2Divides(16, 32);
    Pow2Divides(32, 64);
  }

  /** Wrapping a cursor at 64 bits never changes the cell it selects. */
  lemma {:induction false} WrapKeepsCell(x: int, k: nat)
    requires k <= 64
    ensures (x % TWO_64) % Pow2(k) == x % Pow2(k)
  {
    Pow2Of64();
    Pow2Divides(k, 64);
    ModOfMod(x, Pow2(64 - k), Pow2(k));
  }

  lemma ModOfMod(x: int, m: nat, p: nat)
    requires m > 0 && p > 0
    ensures m * p > 0 && (x % (m * p)) % p == x % p
  {
    MulAtLeast(m, p);
    var q, y := x / (m * p), x % (m * p);
    var q2, r := y / p, y % p;
    assert x == q * (m * p) + y && y == q2 * p + r;
    MulAssoc(q, m, p);
    MulAdd(q * m, q2, p);
    ModUnique(x, p, q * m + q2, r);
  }

  lemma MulAssoc(a: int, b: int, c: int)
    ensures a * (b * c) == (a * b) * c
  {
  }

  lemma WrapAdd(a: int, b: int)
    ensures (a % TWO_64 + b) % TWO_64 == (a + b) % TWO_64
  {
    ModUnique(a + b, TWO_64, a / TWO_64 + (a % TWO_64 + b) / TWO_64, (a % TWO_64 + b) % TWO_64);
  }

  /** Unsigned 64-bit subtraction of wrapped cursors is the true distance. */
  lemma WrappedDistance(hi: int, lo: int)
    requires 0 <= hi - lo < TWO_64
    ensures (hi % TWO_64 - lo % TWO_64) % TWO_64 == hi - lo
  {
    var a, b := hi % TWO_64, lo % TWO_64;
    var qa, qb := hi / TWO_64, lo / TWO_64;
    assert a - b == (hi - lo) - (qa - qb) * TWO_64;
    ModUnique(a - b, TWO_64, qb - qa, hi - lo);
  }

  // ------------------------------------------------------------- round-up

  /** v >> s */
  function Shr(v: nat, s: nat): nat { if s == 0 then v else Shr(v / 2, s - 1) }

  function Smear(v: nat, s: nat): nat { BitOr(v, Shr(v, s)) }

  function SmearAll(v: nat): nat {
    Smear(Smear(Smear(Smear(Smear(Smear(v, 1), 2), 4), 8), 16), 32)
  }

  /** `next_pow2` of the block recorder: no case for zero, so v - 1 wraps there. */
  function NextPow2(v: nat): nat
    requires v < TWO_64
  {
    (SmearAll((v - 1) % TWO_64) + 1) % TWO_64
  }

  /** `next_power_of_2` of the history buffer. */
  function NextPowerOf2(v: nat): nat
    requires v < TWO_64
  {
    if v == 0 then 1 else (SmearAll(v - 1) + 1) % TWO_64
  }

  /** Number of significant bits. */
  function BitLen(v: nat): nat { if v == 0 then 0 else 1 + BitLen(v / 2) }

  lemma {:induction false} BitLenBounds(v: nat)
    ensures v < Pow2(BitLen(v))
    ensures v > 0 ==> Pow2(BitLen(v) - 1) <= v
  {
    if v > 0 {
      BitLenBounds(v / 2);
      if v / 2 == 0 { assert v == 1; }
    }
  }

  lemma {:induction false} ShrZero(v: nat, s: nat)
    requires v < Pow2(s)
    ensures Shr(v, s) == 0
  {
    if s > 0 {
      ShrZero(v / 2, s - 1);
    }
  }

  lemma {:induction false} ShrShr(v: nat, i: nat, j: nat)
    ensures Shr(Shr(v, i), j) == Shr(v, i + j)
  {
    if i > 0 {
      ShrShr(v / 2, i - 1, j);
    }
  }

  lemma {:induction false} ShrOnes(m: nat, i: nat)
    requires i <= m
    ensures Shr(Pow2(m) - 1, i) == Pow2(m - i) - 1
  {
    if i > 0 {
      assert (Pow2(m) - 1) / 2 == Pow2(m - 1) - 1;
      ShrOnes(m - 1, i - 1);
    }
  }

  lemma {:induction false} ShrOr(a: nat, b: nat, j: nat)
    ensures Shr(BitOr(a, b), j) == BitOr(Shr(a, j), Shr(b, j))
  {
    if j > 0 {
      assert BitOr(a, b) / 2 == BitOr(a / 2, b / 2);
      ShrOr(a / 2, b / 2, j - 1);
    }
  }

  lemma {:induction false} FillLow(a: nat, k: nat, m: nat)
    requires Shr(a, k) == Pow2(m) - 1
    ensures BitOr(a, Pow2(k) - 1) == Pow2(m + k) - 1
  {
    if k > 0 {
      FillLow(a / 2, k - 1, m);
      var ones := Pow2(k) - 1;
      assert ones / 2 == Pow2(k - 1) - 1 && ones % 2 == 1;
    }
  }

  lemma {:induction false} ShrTop(v: nat, n: nat)
    requires Pow2(n) <= v < Pow2(n + 1)
    ensures Shr(v, n) == 1
  {
    if n > 0 {
      ShrTop(v / 2, n - 1);
    }
  }

  /** The top m of v's n bits are ones. */
  ghost predicate TopOnes(v: nat, n: nat, m: nat) {
    m <= n && Shr(v, n - m) == Pow2(m) - 1
  }

  /** One smearing step doubles the run of leading ones, until the word is full. */
  lemma SmearDoubles(v: nat, n: nat, s: nat)
    requires v < Pow2(n) && TopOnes(v, n, Min(s, n))
    ensures TopOnes(Smear(v, s), n, Min(2 * s, n)) && Smear(v, s) < Pow2(n)
  {
    ShrLe(v, s);
    OrBound(v, Shr(v, s), n);
    if s <= n {
      SmearDoublesOnce(v, n, s, Min(2 * s, n));
    } else {
      Pow2Monotone(n, s);
      ShrZero(v, s);
      assert Smear(v, s) == v;
    }
  }

  lemma SmearDoublesOnce(v: nat, n: nat, s: nat, m2: nat)
    requires s <= n && Shr(v, n - s) == Pow2(s) - 1 && m2 == Min(2 * s, n)
    ensures Shr(BitOr(v, Shr(v, s)), n - m2) == Pow2(m2) - 1
  {
    var j, k := n - m2, m2 - s;
    var a := Shr(v, j);
    assert Shr(Shr(v, s), j) == Pow2(k) - 1 by {
      ShrShr(v, s, j);
      ShrShr(v, n - s, s - k);
      ShrOnes(s, s - k);
    }
    assert Shr(a, k) == Pow2(s) - 1 by { ShrShr(v, j, k); }
    FillLow(a, k, s);
    ShrOr(v, Shr(v, s), j);
  }

  lemma {:induction false} ShrLe(v: nat, s: nat)
    ensures Shr(v, s) <= v
  {
    if s > 0 {
      ShrLe(v / 2, s - 1);
    }
  }

  lemma {:induction false} OrBound(a: nat, b: nat, n: nat)
    requires a < Pow2(n) && (b < Pow2(n) || b <= a)
    ensures BitOr(a, b) < Pow2(n)
  {
    if n > 0 {
      OrBound(a / 2, b / 2, n - 1);
    }
  }

  function Min(a: int, b: int): int { if a <= b then a else b }

  function Max(a: int, b: int): int { if a >= b then a else b }

  lemma SmearZero()
    ensures SmearAll(0) == 0
  {
    ShrZero(0, 1); ShrZero(0, 2); ShrZero(0, 4);
    ShrZero(0, 8); ShrZero(0, 16); ShrZero(0, 32);
  }

  /** Six smears fill every bit below the leading one of a 64-bit word. */
  lemma SmearFills(v: nat)
    requires v < TWO_64
    ensures SmearAll(v) == Pow2(BitLen(v)) - 1
  {
    var n := BitLen(v);
    BitLenBounds(v);
    if v == 0 {
      SmearZero();
    } else {
      Pow2Of64();
      if n > 64 { Pow2Monotone(64, n - 1); }
      ShrTop(v, n - 1);
      SmearDoubles(v, n, 1);
      var v1 := Smear(v, 1);
      SmearDoubles(v1, n, 2);
      var v2 := Smear(v1, 2);
      SmearDoubles(v2, n, 4);
      var v3 := Smear(v2, 4);
      SmearDoubles(v3, n, 8);
      var v4 := Smear(v3, 8);
      SmearDoubles(v4, n, 16);
      var v5 := Smear(v4, 16);
      SmearDoubles(v5, n, 32);
      assert TopOnes(Smear(v5, 32), n, n);
    }
  }

  /** For every 64-bit argument: both helpers return the least power of two that is at
      least v when one fits in 64 bits, both overflow to zero above 2^63, and they
      differ exactly at zero. */
  lemma RoundUp(v: nat)
    requires v < TWO_64
    ensures 1 <= v <= TWO_63 ==>
              && (exists k: nat :: k <= 63 && NextPow2(v) == Pow2(k))
              && v <= NextPow2(v)
              && (forall j: nat :: v <= Pow2(j) ==> NextPow2(v) <= Pow2(j))
    ensures v > TWO_63 ==> NextPow2(v) == 0
    ensures NextPow2(v) == NextPowerOf2(v) <==> v != 0
  {
    RoundUpValue(v);
    RoundUpCases(v, NextPow2(v), NextPowerOf2(v));
  }

  lemma RoundUpCases(v: nat, a: nat, b: nat)
    requires v < TWO_64
    requires a == Pow2(BitLen((v - 1) % TWO_64)) % TWO_64
    requires b == if v == 0 then 1 else Pow2(BitLen(v - 1)) % TWO_64
    ensures 1 <= v <= TWO_63 ==>
              && (exists k: nat :: k <= 63 && a == Pow2(k))
              && v <= a
              && (forall j: nat :: v <= Pow2(j) ==> a <= Pow2(j))
    ensures v > TWO_63 ==> a == 0
    ensures a == b <==> v != 0
  {
    Pow2Of64();
    if v == 0 {
      ModUnique(v - 1, TWO_64, -1, TWO_64 - 1);
      BitLenIs(TWO_64 - 1, 64);
      ModUnique(Pow2(64), TWO_64, 1, 0);
    } else if v > TWO_63 {
      ModUnique(v - 1, TWO_64, 0, v - 1);
      BitLenIs(v - 1, 64);
      ModUnique(Pow2(64), TWO_64, 1, 0);
    } else {
      ModUnique(v - 1, TWO_64, 0, v - 1);
      RoundUpLeast(v);
      ModUnique(Pow2(BitLen(v - 1)), TWO_64, 0, Pow2(BitLen(v - 1)));
    }
  }

  lemma RoundUpValue(v: nat)
    requires v < TWO_64
    ensures NextPow2(v) == Pow2(BitLen((v - 1) % TWO_64)) % TWO_64
    ensures NextPowerOf2(v) == if v == 0 then 1 else Pow2(BitLen(v - 1)) % TWO_64
    ensures v > 0 ==> (v - 1) % TWO_64 == v - 1
    ensures v == 0 ==> (v - 1) % TWO_64 == TWO_64 - 1
  {
    if v == 0 {
      RoundUpZero();
    } else {
      RoundUpPositive(v);
    }
  }

  lemma RoundUpPositive(v: nat)
    requires 0 < v < TWO_64
    ensures (v - 1) % TWO_64 == v - 1
    ensures NextPow2(v) == NextPowerOf2(v) == Pow2(BitLen(v - 1)) % TWO_64
  {
    ModUnique(v - 1, TWO_64, 0, v - 1);
    SmearFills(v - 1);
  }

  lemma RoundUpZero()
    ensures (0 - 1) % TWO_64 == TWO_64 - 1
    ensures NextPow2(0) == Pow2(BitLen(TWO_64 - 1)) % TWO_64 && NextPowerOf2(0) == 1
  {
    ModUnique(0 - 1, TWO_64, -1, TWO_64 - 1);
    SmearFills(TWO_64 - 1);
  }

  lemma RoundUpLeast(v: nat)
    requires 1 <= v <= TWO_63
    ensures BitLen(v - 1) <= 63 && v <= Pow2(BitLen(v - 1)) <= TWO_63
    ensures forall j: nat :: v <= Pow2(j) ==> Pow2(BitLen(v - 1)) <= Pow2(j)
  {
    Pow2Of64();
    var n := BitLen(v - 1);
    BitLenBounds(v - 1);
    if n > 63 {
      Pow2Monotone(63, n - 1);
      assert false;
    }
    Pow2Monotone(n, 63);
    forall j: nat | v <= Pow2(j) ensures Pow2(n) <= Pow2(j) {
      if j < n {
        Pow2Monotone(j, n - 1);
        assert false;
      }
      Pow2Monotone(n, j);
    }
  }

  lemma {:induction false} BitLenIs(v: nat, n: nat)
    requires n > 0 && Pow2(n - 1) <= v < Pow2(n)
    ensures BitLen(v) == n
  {
    BitLenBounds(v);
    var m := BitLen(v);
    if m < n {
      Pow2Monotone(m, n - 1);
    } else if m > n {
      Pow2Monotone(n, m - 1);
    }
  }
}
