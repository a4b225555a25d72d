/** The batch-plus-tail NEON loops against the scalar sample arithmetic. A vector register
    is a short sequence of lanes. */
module Vector {

  import opened Bits
  import opened Bytes
  import opened Pcm
  import opened Dsp

  // ------------------------------------------------------------- batch bounds

  /** `count & ~(2^k - 1)u`: the mask is 32 bits wide, so higher bits of a 64-bit count
      are cleared as well. */
  function BatchEnd(n: nat, k: nat): nat
    requires k <= 32
  {
    MaskFits(k);
    BitAnd(n, 0x1_0000_0000 - Pow2(k))
  }

  lemma MaskFits(k: nat)
    requires k <= 32
    ensures Pow2(k) <= 0x1_0000_0000
  {
    Pow2Monotone(k, 32);
    ByteWidths();
  }

  /** And-ing with 2^j - 2^k drops the low k of the low j bits. */
  lemma {:induction false} HighMask(a: nat, j: nat, k: nat, m: nat, p: pos, q: pos)
    requires k <= j && p == Pow2(j) && q == Pow2(k) && m == p - q
    ensures BitAnd(a, m) == a % p - a % q
    decreases k
  {
    if k == 0 {
      MaskIsMod(a, j);
      ModUnique(a, q, a, 0);
    } else {
      var p', q' := Pow2(j - 1), Pow2(k - 1);
      HighMask(a / 2, j - 1, k - 1, p' - q', p', q');
      AndEven(a, m, p' - q');
      RemaindersDouble(a, p, q, p', q');
    }
  }

  lemma RemaindersDouble(a: nat, p: pos, q: pos, p': pos, q': pos)
    requires p == 2 * p' && q == 2 * q'
    ensures a % p - a % q == 2 * ((a / 2) % p' - (a / 2) % q')
  {
    HalfMod(a, p, p');
    HalfMod(a, q, q');
  }

  /** The vector loop covers the whole batches of the count modulo 2^32; the scalar tail
      takes the rest, also of a count past 2^32. */
  lemma BatchEndIs(n: nat, k: nat)
    requires k <= 32
    ensures BatchEnd(n, k) == n % 0x1_0000_0000 - n % Pow2(k)
    ensures BatchEnd(n, k) <= n && BatchEnd(n, k) % Pow2(k) == 0
  {
    ByteWidths();
    BatchEndFor(n, k, 32);
  }

  lemma BatchEndFor(n: nat, k: nat, j: nat)
    requires k <= j && k <= 32 && Pow2(j) == 0x1_0000_0000
    ensures BatchEnd(n, k) == n % 0x1_0000_0000 - n % Pow2(k)
    ensures BatchEnd(n, k) <= n && BatchEnd(n, k) % Pow2(k) == 0
  {
    MaskedBatches(n, j, k);
  }

  lemma MaskedBatches(n: nat, j: nat, k: nat)
    requires k <= j
    ensures Pow2(k) <= Pow2(j)
    ensures BitAnd(n, Pow2(j) - Pow2(k)) == n % Pow2(j) - n % Pow2(k) <= n
    ensures (n % Pow2(j) - n % Pow2(k)) % Pow2(k) == 0
  {
    Pow2Monotone(k, j);
    Pow2Divides(k, j);
    RemainderSplits(n, Pow2(j - k), Pow2(k), Pow2(j));
    HighMask(n, j, k, Pow2(j) - Pow2(k), Pow2(j), Pow2(k));
  }

  lemma RemainderSplits(n: nat, a: pos, p: pos, ap: pos)
    requires ap == a * p
    ensures 0 <= n % ap - n % p <= n && (n % ap - n % p) % p == 0
  {
    ModOfMod(n, a, p);
    WholeBatches(n % ap, p);
    ModLe(n, ap);
  }

  lemma ModLe(n: nat, p: pos)
    ensures n % p <= n
  {
    MulLe(0, n / p, p);
  }

  lemma WholeBatches(m: nat, p: pos)
    ensures 0 <= m - m % p <= m && (m - m % p) % p == 0
  {
    ModUnique(m - m % p, p, m / p, 0);
  }

  lemma NextBatch(i: nat, end: nat, lanes: pos)
    requires i < end && i % lanes == 0 && end % lanes == 0
    ensures i + lanes <= end && (i + lanes) % lanes == 0
  {
    if i / lanes + 1 > end / lanes {
      MulLe(end / lanes, i / lanes, lanes);
    }
    MulLe(i / lanes + 1, Max(i / lanes + 1, end / lanes), lanes);
    MulAdd(i / lanes, 1, lanes);
    ModUnique(i + lanes, lanes, i / lanes + 1, 0);
  }

  // -------------------------------------------------------------- 16-bit gain

  /** The scalar product before its clamp. */
  function Unclamped(gain: real, v: int): int { Trunc(v as real * gain) }

  /** vcvtq_s32_f32: truncate, saturating. */
  function ConvertSaturating(r: real): int { Clamp(Trunc(r), -0x8000_0000, 0x7FFF_FFFF) }

  /** vqmovn_s32 */
  function NarrowSaturating(v: int): int { Clamp(v, -0x8000, 0x7FFF) }

  /** One lane of the 16-bit gain: saturating to 32 and then to 16 bits is the one
      scalar clamp. */
  function Lane16(gain: real, v: int): (r: int)
    ensures r == Scale(2, gain, v)
  {
    NarrowSaturating(ConvertSaturating(v as real * gain))
  }

  /** Equal to the scalar gain of every sample, whatever the count. */
  method GainVector16(src: array<int>, dst: array<int>, n: nat, gain: real)
    requires n <= src.Length && n <= dst.Length && src != dst
    modifies dst
    ensures dst[..n] == Amplify(2, gain, src[..n])
    ensures dst[n..] == old(dst[n..])
  {
    var i: nat := 0;
    var end := BatchEnd(n, 3);
    BatchEndIs(n, 3);
    assert Pow2(3) == 8;
    while i < end
      invariant i <= end && i % 8 == 0
      invariant forall j :: 0 <= j < i ==> dst[j] == Scale(2, gain, src[j])
      invariant forall j :: i <= j < dst.Length ==> dst[j] == old(dst[j])
    {
      NextBatch(i, end, 8);
      forall j | i <= j < i + 8 { dst[j] := Lane16(gain, src[j]); }
      i := i + 8;
    }
    while i < n
      invariant i <= n
      invariant forall j :: 0 <= j < i ==> dst[j] == Scale(2, gain, src[j])
      invariant forall j :: i <= j < dst.Length ==> dst[j] == old(dst[j])
    {
      dst[i] := Clamp(Unclamped(gain, src[i]), -0x8000, 0x7FFF);
      i := i + 1;
    }
  }

  // ------------------------------------------------------------ deinterleave

  /** vld2q and vst1q of val[0]: 8 lanes for 16-bit samples, 4 for 32-bit ones. */
  method DownmixVector(src: array<int>, dst: array<int>, frames: nat, wide: bool)
    requires 2 * frames <= src.Length && frames <= dst.Length && src != dst
    modifies dst
    ensures dst[..frames] == Downmix(src[..], frames)
    ensures dst[frames..] == old(dst[frames..])
  {
    var f: nat := 0;
    var lanes, k := if wide then 4 else 8, if wide then 2 else 3;
    var end := BatchEnd(frames, k);
    BatchEndIs(frames, k);
    assert Pow2(k) == lanes by { assert Pow2(2) == 4 && Pow2(3) == 8; }
    while f < end
      invariant f <= end && f % lanes == 0
      invariant forall j :: 0 <= j < f ==> dst[j] == src[2 * j]
      invariant forall j :: f <= j < dst.Length ==> dst[j] == old(dst[j])
    {
      NextBatch(f, end, lanes);
      forall j | f <= j < f + lanes { dst[j] := src[2 * j]; }
      f := f + lanes;
    }
    while f < frames
      invariant f <= frames
      invariant forall j :: 0 <= j < f ==> dst[j] == src[2 * j]
      invariant forall j :: f <= j < dst.Length ==> dst[j] == old(dst[j])
    {
      dst[f] := src[f * 2];
      f := f + 1;
    }
  }

  // --------------------------------------------------------- 32-bit Q14 gain

  /** The gain in Q14: clamped to int32_t after scaling by 2^14. */
  function GainQ14(gain: real): int {
    var scaled := gain * 16384.0;
    Trunc(if scaled < -2147483648.0 then -2147483648.0 else if scaled > 2147483647.0 then 2147483647.0 else scaled)
  }

  /** Widened product, shifted right by 14. */
  function Product14(gain: real, v: int): int { (v * GainQ14(gain)) / 16384 }

  /** vmovn_s64: keeps the low 32 bits, does not saturate. */
  function Narrow32(v: int): (r: int)
    ensures -0x8000_0000 <= r < 0x8000_0000
  {
    (v + 0x8000_0000) % 0x1_0000_0000 - 0x8000_0000
  }

  function ScaleQ14(gain: real, v: int): int { Narrow32(Product14(gain, v)) }

  /** The fixed-point gain without its functions: the gain times 2^14, cut to an integer
      toward zero and to 32 bits; the product with it divided by 2^14, rounded down; and of
      that the low 32 bits, signed. */
  lemma ScaleQ14Is(gain: real, v: int) returns (q: int, a: int)
    ensures var g := gain * 16384.0;
      && (0.0 <= g <= 2147483647.0 ==> 0 <= q && q as real <= g < q as real + 1.0)
      && (-2147483648.0 <= g <= 0.0 ==> q <= 0 && q as real - 1.0 < g <= q as real)
      && (g > 2147483647.0 ==> q == 2147483647) && (g < -2147483648.0 ==> q == -2147483648)
    ensures a * 16384 <= v * q < a * 16384 + 16384
    ensures -0x8000_0000 <= ScaleQ14(gain, v) < 0x8000_0000
    ensures (a - ScaleQ14(gain, v)) % 0x1_0000_0000 == 0
  {
    q := GainQ14(gain);
    RegisterIs(gain * 16384.0, q);
    a := (v * q) / 16384;
    NarrowIs(a);
  }

  lemma RegisterIs(g: real, q: int)
    requires q == Trunc(if g < -2147483648.0 then -2147483648.0 else if g > 2147483647.0 then 2147483647.0 else g)
    ensures 0.0 <= g <= 2147483647.0 ==> 0 <= q && q as real <= g < q as real + 1.0
    ensures -2147483648.0 <= g <= 0.0 ==> q <= 0 && q as real - 1.0 < g <= q as real
    ensures (g > 2147483647.0 ==> q == 2147483647) && (g < -2147483648.0 ==> q == -2147483648)
  {
  }

  lemma NarrowIs(a: int)
    ensures -0x8000_0000 <= Narrow32(a) < 0x8000_0000 && (a - Narrow32(a)) % 0x1_0000_0000 == 0
  {
    var u := a + 0x8000_0000;
    assert a - Narrow32(a) == (u / 0x1_0000_0000) * 0x1_0000_0000;
    ModUnique(a - Narrow32(a), 0x1_0000_0000, u / 0x1_0000_0000, 0);
  }

  /** Whole batches in fixed point, the tail with the scalar arithmetic. */
  method GainVector32(src: array<int>, dst: array<int>, n: nat, gain: real)
    requires n <= src.Length && n <= dst.Length && src != dst
    modifies dst
    ensures BatchEnd(n, 2) <= n
    ensures forall j :: 0 <= j < n ==>
              dst[j] == if j < BatchEnd(n, 2) then ScaleQ14(gain, src[j]) else Scale(4, gain, src[j])
    ensures dst[n..] == old(dst[n..])
  {
    var i: nat := 0;
    var end := BatchEnd(n, 2);
    BatchEndIs(n, 2);
    assert Pow2(2) == 4;
    var gainFp := GainQ14(gain);
    while i < end
      invariant i <= end && i % 4 == 0
      invariant forall j :: 0 <= j < i ==> dst[j] == ScaleQ14(gain, src[j])
      invariant forall j :: i <= j < dst.Length ==> dst[j] == old(dst[j])
    {
      NextBatch(i, end, 4);
      forall j | i <= j < i + 4 { dst[j] := Narrow32((src[j] * gainFp) / 16384); }
      i := i + 4;
    }
    while i < n
      invariant end <= i <= n
      invariant forall j :: 0 <= j < i ==>
                  dst[j] == if j < end then ScaleQ14(gain, src[j]) else Scale(4, gain, src[j])
      invariant forall j :: i <= j < dst.Length ==> dst[j] == old(dst[j])
    {
      dst[i] := Clamp(Unclamped(gain, src[i]), -0x8000_0000, 0x7FFF_FFFF);
      i := i + 1;
    }
  }

  /** Gains that the Q14 register can hold. */
  predicate GainFits(gain: real) { -2147483648.0 <= gain * 16384.0 <= 2147483647.0 }

  function Abs(v: int): nat { if v < 0 then -v else v }

  predicate Saturates(gain: real, v: int) { !(-0x8000_0000 <= Unclamped(gain, v) < 0x8000_0000) }

  /** x * y with the signs the error analysis needs. */
  lemma ProductSign(x: real, y: real) returns (p: real)
    ensures p == x * y
    ensures (x >= 0.0 && y >= 0.0) || (x <= 0.0 && y <= 0.0) ==> p >= 0.0
    ensures (x >= 0.0 && y <= 0.0) || (x <= 0.0 && y >= 0.0) ==> p <= 0.0
  {
    p := x * y;
  }

  lemma ProductBound(x: real, y: real) returns (p: real)
    requires -1.0 < y < 1.0
    ensures p == x * y
    ensures x >= 0.0 ==> -x <= p <= x
    ensures x <= 0.0 ==> x <= p <= -x
  {
    p := x * y;
    var up := ProductSign(x, 1.0 - y);
    var down := ProductSign(x, 1.0 + y);
    assert up == x - p && down == x + p;
  }

  /** What is left of the gain below 1/2^14, with the gain's own sign. */
  lemma GainSplits(gain: real) returns (q: int, e: real)
    requires GainFits(gain)
    ensures q == GainQ14(gain) && gain * 16384.0 == q as real + e
    ensures gain >= 0.0 ==> 0.0 <= e < 1.0
    ensures gain < 0.0 ==> -1.0 < e <= 0.0
  {
    q := GainQ14(gain);
    e := gain * 16384.0 - q as real;
  }

  /** The fixed-point product against the exact one, in units of 1/2^14. */
  lemma ProductError(gain: real, v: int) returns (exact: real, p: int, err: real)
    requires GainFits(gain)
    ensures exact == v as real * gain && p == v * GainQ14(gain)
    ensures exact * 16384.0 == p as real + err
    ensures -(Abs(v) as real) <= err <= Abs(v) as real
    ensures exact > 0.0 ==> err >= 0.0
    ensures exact < 0.0 ==> err <= 0.0
    ensures exact == 0.0 ==> v == 0 || gain == 0.0
  {
    var q, e := GainSplits(gain);
    var x := v as real;
    exact := ProductSign(x, gain);
    p := v * q;
    err := ProductBound(x, e);
    var err' := ProductSign(x, e);
    assert x * (gain * 16384.0) == exact * 16384.0;
    assert x * (q as real + e) == x * (q as real) + err;
    assert x * (q as real) == p as real;
    if x != 0.0 && gain != 0.0 {
      NonZero(x, gain);
    }
  }

  lemma NonZero(x: real, y: real)
    requires x != 0.0 && y != 0.0
    ensures x * y != 0.0
  {
  }

  /** Before narrowing, the fixed-point result of a sample differs from the unclamped
      scalar one by at most |v| / 2^14 + 1: it is never larger for a positive product and
      at most 1 smaller for a negative one. */
  lemma Q14Error(gain: real, v: int)
    requires GainFits(gain)
    ensures var a, t := Product14(gain, v), Unclamped(gain, v);
      && Abs(a - t) as real <= Abs(v) as real / 16384.0 + 1.0
      && (v as real * gain >= 0.0 ==> a <= t)
      && (v as real * gain < 0.0 ==> t - 1 <= a)
  {
    var exact, p, err := ProductError(gain, v);
    FloorDiv(p);
    if exact == 0.0 {
      assert v == 0 || gain == 0.0;
      assert GainQ14(0.0) == 0;
      assert p == 0;
    }
    Q14Cases(exact, p, err, Abs(v));
  }

  lemma FloorDiv(p: int)
    ensures p as real / 16384.0 - 1.0 < (p / 16384) as real <= p as real / 16384.0
  {
    assert p == (p / 16384) * 16384 + p % 16384;
  }

  lemma Q14Cases(exact: real, p: int, err: real, m: nat)
    requires exact * 16384.0 == p as real + err && -(m as real) <= err <= m as real
    requires p as real / 16384.0 - 1.0 < (p / 16384) as real <= p as real / 16384.0
    requires exact > 0.0 ==> err >= 0.0
    requires exact < 0.0 ==> err <= 0.0
    requires exact == 0.0 ==> p == 0
    ensures Abs(p / 16384 - Trunc(exact)) as real <= m as real / 16384.0 + 1.0
    ensures exact >= 0.0 ==> p / 16384 <= Trunc(exact)
    ensures exact < 0.0 ==> Trunc(exact) - 1 <= p / 16384
  {
    var a, t := p / 16384, Trunc(exact);
    assert exact == p as real / 16384.0 + err / 16384.0;
  }

  /** The fixed-point result survives the narrowing exactly when -2^45 <= v * q < 2^45,
      for every gain and sample. */
  lemma Q14NarrowsIff(gain: real, v: int)
    ensures ScaleQ14(gain, v) == Product14(gain, v)
       <==> -0x2000_0000_0000 <= v * GainQ14(gain) < 0x2000_0000_0000
  {
    NarrowIff(v * GainQ14(gain));
  }

  lemma NarrowIff(p: int)
    ensures Narrow32(p / 16384) == p / 16384 <==> -0x2000_0000_0000 <= p < 0x2000_0000_0000
  {
    FloorDiv(p);
    var a := p / 16384;
    if -0x8000_0000 <= a < 0x8000_0000 {
      assert Narrow32(a) == a;
    }
  }

  /** A sample that the scalar gain does not saturate fails to survive only at a scalar
      result of -2^31, and then flips to +2^31 - 1. A sample clipped by more than the error
      bound never survives. */
  lemma Q14Failures(gain: real, v: int)
    requires GainFits(gain)
    ensures !Saturates(gain, v) && ScaleQ14(gain, v) != Product14(gain, v) ==>
              Unclamped(gain, v) == -0x8000_0000 && ScaleQ14(gain, v) == 0x7FFF_FFFF
    ensures Unclamped(gain, v) as real >= 2147483648.0 + Abs(v) as real / 16384.0 + 1.0 ==>
              ScaleQ14(gain, v) != Product14(gain, v)
    ensures Unclamped(gain, v) as real < -2147483648.0 - Abs(v) as real / 16384.0 - 1.0 ==>
              ScaleQ14(gain, v) != Product14(gain, v)
  {
    Q14Error(gain, v);
    if !Saturates(gain, v) {
      Q14Upper(gain, v);
      NarrowCases(v * GainQ14(gain));
    }
  }

  lemma Q14Upper(gain: real, v: int)
    requires GainFits(gain) && !Saturates(gain, v)
    ensures -0x8000_0001 <= Product14(gain, v) <= 0x7FFF_FFFF
    ensures Unclamped(gain, v) > -0x8000_0000 ==> Product14(gain, v) >= -0x8000_0000
  {
    Q14Error(gain, v);
    var exact, p, err := ProductError(gain, v);
    if exact < 0.0 {
      NegativeProduct(exact, p, err, Abs(v));
    } else {
      NonNegativeProduct(exact, p, err, v, gain);
    }
  }

  lemma NegativeProduct(exact: real, p: int, err: real, m: nat)
    requires exact < 0.0 && err <= 0.0 && exact * 16384.0 == p as real + err && -(m as real) <= err
    ensures p / 16384 <= m / 16384 + 1
  {
    FloorDiv(p);
    assert p <= m;
  }

  lemma NonNegativeProduct(exact: real, p: int, err: real, v: int, gain: real)
    requires exact >= 0.0 && exact == v as real * gain && p == v * GainQ14(gain) && GainFits(gain)
    ensures p >= 0
  {
  }

  lemma NarrowCases(p: int)
    requires -0x8000_0001 <= p / 16384 <= 0x7FFF_FFFF
    ensures Narrow32(p / 16384) == p / 16384 <==> p >= -0x2000_0000_0000
    ensures Narrow32(p / 16384) != p / 16384 ==> p / 16384 == -0x8000_0001 && Narrow32(p / 16384) == 0x7FFF_FFFF
  {
  }

  /** The two gain paths agree to |v| / 2^14 + 1 on every sample that survives the
      narrowing, clipped or not. */
  lemma Q14NearScalar(gain: real, v: int)
    requires GainFits(gain) && InRange(4, v)
    requires -0x2000_0000_0000 <= v * GainQ14(gain) < 0x2000_0000_0000
    ensures Abs(ScaleQ14(gain, v) - Scale(4, gain, v)) as real <= Abs(v) as real / 16384.0 + 1.0
  {
    Q14NarrowsIff(gain, v);
    SaturatingIsNear(gain, v);
  }

  /** On samples the scalar gain does not saturate, being within the bound and surviving the
      narrowing are the same. */
  lemma Q14NearIff(gain: real, v: int)
    requires GainFits(gain) && InRange(4, v) && !Saturates(gain, v)
    ensures Abs(ScaleQ14(gain, v) - Scale(4, gain, v)) as real <= Abs(v) as real / 16384.0 + 1.0
       <==> -0x2000_0000_0000 <= v * GainQ14(gain) < 0x2000_0000_0000
  {
    Q14NarrowsIff(gain, v);
    if -0x2000_0000_0000 <= v * GainQ14(gain) < 0x2000_0000_0000 {
      Q14NearScalar(gain, v);
    } else {
      Q14Failures(gain, v);
    }
  }

  /** The saturating narrow that the comment in the code names would agree to that bound on
      every sample. */
  lemma SaturatingIsNear(gain: real, v: int)
    requires GainFits(gain) && InRange(4, v)
    ensures Abs(ClampTo(4, Product14(gain, v)) - Scale(4, gain, v)) as real <= Abs(v) as real / 16384.0 + 1.0
  {
    Q14Error(gain, v);
    ClampNear(Product14(gain, v), Unclamped(gain, v));
  }

  lemma ClampNear(a: int, b: int)
    ensures Abs(ClampTo(4, a) - ClampTo(4, b)) <= Abs(a - b)
  {
  }

  /** The narrowing wraps a clipped sample: four times 2^30 gives 0, not full scale. */
  lemma Q14WrapsClipped()
    ensures GainFits(4.0) && InRange(4, 0x4000_0000)
    ensures Scale(4, 4.0, 0x4000_0000) == 0x7FFF_FFFF && ScaleQ14(4.0, 0x4000_0000) == 0
  {
    assert GainQ14(4.0) == 65536;
    assert Product14(4.0, 0x4000_0000) == 0x1_0000_0000;
  }

  /** The narrowing is not the saturating one its comment names: here the scalar path
      gives exactly -2^31 without saturating and the fixed-point path gives 2^31 - 1. */
  lemma Q14FlipsSign()
    ensures var gain, v := 32769.0 / 16384.0, -1073709057;
      && GainFits(gain) && !Saturates(gain, v)
      && Scale(4, gain, v) == -0x8000_0000 && ScaleQ14(gain, v) == 0x7FFF_FFFF
  {
    var gain, v := 32769.0 / 16384.0, -1073709057;
    assert GainQ14(gain) == 32769;
    assert v * 32769 == -0x2000_0000_0001;
    assert v as real * gain == -2147483648.0 - 1.0 / 16384.0;
  }

  /** Past the gains the register holds the bound does not hold. */
  lemma Q14OutOfRange()
    ensures var gain, v := 200000.0, 1;
      && !GainFits(gain) && !Saturates(gain, v)
      && Abs(ScaleQ14(gain, v) - Scale(4, gain, v)) as real > Abs(v) as real / 16384.0 + 1.0
  {
    assert GainQ14(200000.0) == 0x7FFF_FFFF;
  }
}
