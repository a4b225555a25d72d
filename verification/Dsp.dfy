/** The sample arithmetic of the capture path over real numbers, and what it adds up to
    over a whole capture session. */
module Dsp {

  import opened Bits
  import opened Bytes
  import opened Pcm

  /** Conversion of a float to an integer type: truncation toward zero. */
  function Trunc(r: real): int {
    if r >= 0.0 then r.Floor else -((-r).Floor)
  }

  /** One sample, scaled and clamped. */
  function Scale(w: width, gain: real, v: int): (r: int)
    ensures InRange(w, r)
  {
    ClampTo(w, Trunc(v as real * gain))
  }

  /** The integer a real value is emitted as: rounded toward zero, and the nearer limit when
      it is outside the sample range. */
  ghost predicate Emits(w: width, y: real, r: int) {
    var half := if w == 2 then 0x8000 else if w == 3 then 0x80_0000 else 0x8000_0000;
    && (0.0 <= y <= (half - 1) as real ==> 0 <= r && r as real <= y < r as real + 1.0)
    && (-(half as real) <= y <= 0.0 ==> r <= 0 && r as real - 1.0 < y <= r as real)
    && (y > (half - 1) as real ==> r == half - 1)
    && (y < -(half as real) ==> r == -half)
  }

  /** Every value is emitted as one integer, and one in range as itself. */
  lemma EmitsOne(w: width, y: real, r: int, s: int)
    requires Emits(w, y, r)
    ensures Emits(w, y, s) ==> s == r
    ensures InRange(w, s) && y == s as real ==> s == r
  {
  }

  lemma RoundedIn(w: width, y: real)
    ensures Emits(w, y, ClampTo(w, Trunc(y)))
  {
  }

  /** A sample after the gain has the sign of the product and is less than 1 from it toward
      zero, or the nearer limit when the product is out of range. */
  lemma ScaleIs(w: width, gain: real, v: int)
    ensures var half := if w == 2 then 0x8000 else if w == 3 then 0x80_0000 else 0x8000_0000;
      var r, y := Scale(w, gain, v), v as real * gain;
      && (0.0 <= y <= (half - 1) as real ==> 0 <= r && r as real <= y < r as real + 1.0)
      && (-(half as real) <= y <= 0.0 ==> r <= 0 && r as real - 1.0 < y <= r as real)
      && (y > (half - 1) as real ==> r == half - 1)
      && (y < -(half as real) ==> r == -half)
    ensures Emits(w, v as real * gain, Scale(w, gain, v))
  {
    RoundedIn(w, v as real * gain);
  }

  function Amplify(w: width, gain: real, xs: seq<int>): (ys: seq<int>)
    ensures |ys| == |xs| && AllInRange(w, ys)
  {
    seq(|xs|, i requires 0 <= i < |xs| => Scale(w, gain, xs[i]))
  }

  /** A gain of exactly 1, which the code skips, changes nothing. */
  lemma UnityGain(w: width, xs: seq<int>)
    requires AllInRange(w, xs)
    ensures Amplify(w, 1.0, xs) == xs
  {
  }

  /** Range of the type the product is converted to before the clamp: int32_t at 16 and 24
      bits, int64_t at 32. */
  predicate CastFits(w: width, v: int) {
    if w == 4 then -0x8000_0000_0000_0000 <= v < 0x8000_0000_0000_0000
    else -0x8000_0000 <= v < 0x8000_0000
  }

  function CastLimit(w: width): int { if w == 4 then 0x8000_0000_0000_0000 else 0x8000_0000 }

  ghost predicate GainCastFits(w: width, gain: real, v: int) { CastFits(w, Trunc(v as real * gain)) }

  /** The conversion is defined for every sample exactly for these gains: up to 65536 at 16
      bits, 256 at 24 bits and 2^32 at 32 bits, and a little above, since the fraction is cut
      off. */
  lemma GainCastsIff(w: width, gain: real)
    ensures (forall v | InRange(w, v) :: GainCastFits(w, gain, v))
       <==> if gain >= 0.0 then Half(w) as real * gain < (CastLimit(w) + 1) as real
            else Half(w) as real * -gain < CastLimit(w) as real
  {
    var p := LowestProduct(w, gain);
    if -((CastLimit(w) + 1) as real) < p < CastLimit(w) as real {
      forall v | InRange(w, v) ensures GainCastFits(w, gain, v) {
        OneProduct(w, gain, v);
      }
    }
  }

  /** The same in figures: every product cut to an integer is in the type's range for exactly
      these gains. */
  lemma GainCastsAt(w: width, gain: real)
    ensures w == 2 ==> ((forall v | -0x8000 <= v < 0x8000 :: -2147483649.0 < Product(v, gain) < 2147483648.0)
                        <==> -65536.0 < gain && 32768.0 * gain < 2147483649.0)
    ensures w == 3 ==> ((forall v | -0x80_0000 <= v < 0x80_0000 :: -2147483649.0 < Product(v, gain) < 2147483648.0)
                        <==> -256.0 < gain && 8388608.0 * gain < 2147483649.0)
    ensures w == 4 ==> ((forall v | -0x8000_0000 <= v < 0x8000_0000 ::
                           -9223372036854775809.0 < Product(v, gain) < 9223372036854775808.0)
                        <==> -4294967296.0 < gain && 2147483648.0 * gain < 9223372036854775809.0)
    ensures forall v | InRange(w, v) :: GainCastFits(w, gain, v)
              <==> if w == 4 then -9223372036854775809.0 < Product(v, gain) < 9223372036854775808.0
                   else -2147483649.0 < Product(v, gain) < 2147483648.0
  {
    GainCastsIff(w, gain);
    var low, high := -((CastLimit(w) + 1) as real), CastLimit(w) as real;
    forall v | InRange(w, v) ensures GainCastFits(w, gain, v) <==> low < Product(v, gain) < high {
      TruncFits(w, Product(v, gain));
    }
  }

  ghost function Product(v: int, gain: real): real { v as real * gain }

  lemma OneProduct(w: width, gain: real, v: int)
    requires InRange(w, v)
    requires -((CastLimit(w) + 1) as real) < -(Half(w) as real * gain) < CastLimit(w) as real
    ensures GainCastFits(w, gain, v)
  {
    BetweenExtremes(v as real, gain, Half(w) as real, CastLimit(w) as real);
    TruncFits(w, v as real * gain);
  }

  lemma LowestProduct(w: width, gain: real) returns (p: real)
    ensures p == -(Half(w) as real * gain)
    ensures GainCastFits(w, gain, -Half(w)) <==> -((CastLimit(w) + 1) as real) < p < CastLimit(w) as real
    ensures gain >= 0.0 ==> p <= 0.0
    ensures gain < 0.0 ==> p == Half(w) as real * -gain > 0.0
  {
    p := (-Half(w)) as real * gain;
    TruncFits(w, p);
  }

  lemma TruncFits(w: width, p: real)
    ensures CastFits(w, Trunc(p)) <==> -((CastLimit(w) + 1) as real) < p < CastLimit(w) as real
  {
  }

  lemma BetweenExtremes(v: real, g: real, h: real, limit: real)
    requires -h <= v <= h - 1.0 && 1.0 <= h <= limit
    requires -(limit + 1.0) < -(h * g) < limit
    ensures -(limit + 1.0) < v * g < limit
  {
    var p, q := v * g, h * g;
    if g >= 0.0 {
      TopProduct(v, g, h, p, q);
      AnyProduct(v, g, h, p, q);
    } else {
      NegateProduct(v, g);
      NegateProduct(h, g);
      AnyProduct(v, -g, h, -p, -q);
    }
  }

  lemma AnyProduct(v: real, g: real, h: real, p: real, q: real)
    requires 0.0 <= g && -h <= v <= h && p == v * g && q == h * g
    ensures -q <= p <= q
  {
    assert (h + v) * g == q + p && (h - v) * g == q - p;
    Nonnegative(h + v, g);
    Nonnegative(h - v, g);
  }

  lemma Nonnegative(a: real, g: real)
    requires 0.0 <= a && 0.0 <= g
    ensures 0.0 <= a * g
  {
  }

  /** The largest sample is one less than the magnitude of the smallest. */
  lemma TopProduct(v: real, g: real, h: real, p: real, q: real)
    requires 0.0 <= g && v <= h - 1.0 && 1.0 <= h && p == v * g && q == h * g
    ensures p <= q - g && (g <= 1.0 ==> p <= h - 1.0)
  {
    var r := (h - 1.0) * g;
    assert r == q - g && (h - 1.0 - v) * g == r - p && (h - 1.0) * (1.0 - g) == h - 1.0 - r;
    Nonnegative(h - 1.0 - v, g);
    if g <= 1.0 {
      Nonnegative(h - 1.0, 1.0 - g);
    }
  }

  lemma NegateProduct(v: real, g: real)
    ensures v * -g == -(v * g)
  {
  }

  // ------------------------------------------------------------------ downmix

  /** The stride-2 copy of `frames` samples. */
  function Downmix(xs: seq<int>, frames: nat): (ys: seq<int>)
    requires 2 * frames <= |xs| + 1
    ensures |ys| == frames
  {
    seq(frames, f requires 0 <= f < frames => xs[2 * f])
  }

  /** Sample f is input sample 2 * f. */
  lemma DownmixAt(xs: seq<int>, frames: nat, f: nat)
    requires 2 * frames <= |xs| + 1 && f < frames
    ensures 2 * f < |xs| && Downmix(xs, frames)[f] == xs[2 * f]
  {
  }

  /** The first sample of every frame. */
  function LeftChannel(xs: seq<int>, channels: nat): (ys: seq<int>)
    requires channels >= 1
    ensures |ys| == |xs| / channels
  {
    seq(|xs| / channels, f requires 0 <= f < |xs| / channels =>
      FrameStart(|xs|, channels, f); xs[f * channels])
  }

  lemma FrameStart(n: nat, channels: nat, f: nat)
    requires channels >= 1 && f < n / channels
    ensures 0 <= f * channels < n
  {
    MulLe(f + 1, n / channels, channels);
    MulAdd(f, 1, channels);
    MulLe(0, f, channels);
    assert (n / channels) * channels <= n;
  }

  /** The downmix is the left channel of every buffer exactly for stereo input. */
  lemma DownmixIsLeftIffStereo(channels: nat)
    requires channels >= 2
    ensures (forall xs: seq<int> | |xs| % channels == 0 ::
               DownmixIsLeft(xs, channels)) <==> channels == 2
  {
    if channels == 2 {
      forall xs: seq<int> | |xs| % channels == 0 ensures DownmixIsLeft(xs, channels) {}
    } else {
      var xs := seq(2 * channels, i => i);
      ModUnique(2 * channels, channels, 2, 0);
      var f := 1;
      assert f * channels == channels;
      assert Downmix(xs, 2)[f] == 2 && LeftChannel(xs, channels)[f] == channels;
      assert !DownmixIsLeft(xs, channels);
    }
  }

  ghost predicate DownmixIsLeft(xs: seq<int>, channels: nat)
    requires channels >= 2
  {
    TwicePerFrame(|xs|, channels);
    Downmix(xs, |xs| / channels) == LeftChannel(xs, channels)
  }

  lemma TwicePerFrame(n: nat, channels: nat)
    requires channels >= 2
    ensures 2 * (n / channels) <= n
  {
    assert n == (n / channels) * channels + n % channels;
    MulLe(0, n / channels, channels - 2);
    assert (n / channels) * channels == (n / channels) * (channels - 2) + 2 * (n / channels);
  }

  // --------------------------------------------------------------- DC removal

  const ALPHA: real := 0.999

  /** Previous input and previous output of one channel. */
  datatype Dc = Dc(x: real, y: real)

  const DcZero := Dc(0.0, 0.0)

  function DcFilter(s: Dc, x: int): Dc {
    Dc(x as real, x as real - s.x + ALPHA * s.y)
  }

  /** The estimate of the offset that the last sample was compared with. */
  function Offset(s: Dc): real { s.x - s.y }

  /** The estimate the next sample is compared with. */
  function Estimate(s: Dc): real { s.x - ALPHA * s.y }

  /** Exponential moving average from a start value: each sample pulls it 1/1000 of the
      way. */
  function Average(start: real, xs: seq<int>): real {
    if xs == [] then start
    else ALPHA * Average(start, xs[..|xs| - 1]) + (1.0 - ALPHA) * xs[|xs| - 1] as real
  }

  function DcAfter(s: Dc, xs: seq<int>): Dc {
    if xs == [] then s else DcFilter(DcAfter(s, xs[..|xs| - 1]), xs[|xs| - 1])
  }

  /** From any state, which after a reset means from 0, the filter's output is the input
      minus the average of the samples before it. */
  lemma {:induction false} DcIsAverageRemoval(s: Dc, xs: seq<int>)
    requires xs != []
    ensures DcAfter(s, xs).x == xs[|xs| - 1] as real
    ensures DcAfter(s, xs).y == xs[|xs| - 1] as real - Average(Estimate(s), xs[..|xs| - 1])
    ensures Estimate(DcZero) == 0.0
  {
    var init := xs[..|xs| - 1];
    if init != [] {
      DcIsAverageRemoval(s, init);
    }
  }

  ghost predicate Bounded(lo: real, hi: real, xs: seq<int>) {
    forall i :: 0 <= i < |xs| ==> lo <= xs[i] as real <= hi
  }

  /** The average never leaves an interval that holds its start and every sample. */
  lemma {:induction false} AverageBounded(lo: real, hi: real, start: real, xs: seq<int>)
    requires lo <= start <= hi && Bounded(lo, hi, xs)
    ensures lo <= Average(start, xs) <= hi
  {
    if xs != [] {
      AverageBounded(lo, hi, start, xs[..|xs| - 1]);
    }
  }

  /** ALPHA to the n. */
  function Decay(n: nat): real { if n == 0 then 1.0 else ALPHA * Decay(n - 1) }

  function Constant(c: int, n: nat): seq<int> { seq(n, _ => c) }

  lemma {:induction false} AverageOfConstant(c: int, n: nat)
    ensures Average(0.0, Constant(c, n)) == c as real * (1.0 - Decay(n))
  {
    if n > 0 {
      assert Constant(c, n)[..n - 1] == Constant(c, n - 1);
      AverageOfConstant(c, n - 1);
    }
  }

  lemma {:induction false} DecayBound(n: nat)
    ensures 0.0 < Decay(n) && Decay(n) * (1000 + n) as real <= 1000.0
  {
    if n > 0 {
      DecayBound(n - 1);
      var d, m := Decay(n - 1), (1000 + n) as real;
      assert Decay(n) * m == 0.999 * (d * m);
      assert d * m == d * (m - 1.0) + d;
      assert d * 1000.0 <= d * (m - 1.0);
    }
  }

  /** A constant input c decays as ALPHA^n * c. */
  lemma ConstantDecays(c: int, n: nat)
    ensures DcAfter(DcZero, Constant(c, n + 1)).y == Decay(n) * c as real
  {
    var xs := Constant(c, n + 1);
    assert xs[..n] == Constant(c, n);
    DcIsAverageRemoval(DcZero, xs);
    AverageOfConstant(c, n);
  }

  /** After 1000 * |c| frames of a constant c the emitted sample is exactly zero. */
  lemma ConstantSilenced(w: width, c: int, n: nat)
    requires -(n as int) <= 1000 * c <= n
    ensures Quantise(w, DcAfter(DcZero, Constant(c, n + 1)).y) == 0
  {
    ConstantDecays(c, n);
    var t := DecayBelowOne(c, n);
    QuantiseSmall(w, t);
  }

  lemma QuantiseSmall(w: width, y: real)
    requires -1.0 < y < 1.0
    ensures Quantise(w, y) == 0
  {
  }

  lemma DecayBelowOne(c: int, n: int) returns (t: real)
    requires n >= 0 && -n <= 1000 * c <= n
    ensures t == Decay(n) * c as real && -1.0 < t < 1.0
  {
    DecayBound(n);
    var d, m, r := Decay(n), (1000 + n) as real, c as real;
    t := BelowOne(d, r, m);
    var u := BelowOne(d, 0.0 - r, m);
    Negate(d, r, t, u);
  }

  lemma Negate(d: real, r: real, t: real, u: real)
    requires t == d * r && u == d * (0.0 - r)
    ensures u == 0.0 - t
  {
  }

  lemma BelowOne(d: real, r: real, m: real) returns (t: real)
    requires 0.0 < d && d * m <= 1000.0 && 1000.0 + 1000.0 * r <= m
    ensures t == d * r && t < 1.0
  {
    t := d * r;
    ScaledLe(d, 1000.0 + 1000.0 * r, m);
    Expand(d, r);
    LinearBelow(d, t, d * m);
  }

  lemma LinearBelow(d: real, t: real, p: real)
    requires 0.0 < d && 1000.0 * d + 1000.0 * t <= p <= 1000.0
    ensures t < 1.0
  {
  }

  lemma ScaledLe(d: real, a: real, b: real)
    requires 0.0 < d && a <= b
    ensures d * a <= d * b
  {
  }

  lemma Expand(d: real, r: real)
    ensures d * (1000.0 + 1000.0 * r) == 1000.0 * d + 1000.0 * (d * r)
  {
  }

  /** The emitted sample. */
  function Quantise(w: width, y: real): (r: int)
    ensures InRange(w, r)
  {
    ClampTo(w, Trunc(y))
  }

  // -------------------------------------------------- channels and chunking

  /** The interleaved loop: sample i belongs to channel i % channels. */
  function DcProcess(w: width, st: seq<Dc>, xs: seq<int>): (r: (seq<Dc>, seq<int>))
    requires |st| > 0
    ensures |r.0| == |st| && |r.1| == |xs| && AllInRange(w, r.1)
  {
    if xs == [] then (st, [])
    else
      var n := |xs| - 1;
      var (st', ys) := DcProcess(w, st, xs[..n]);
      var ch := n % |st|;
      var next := DcFilter(st'[ch], xs[n]);
      (st'[ch := next], ys + [Quantise(w, next.y)])
  }

  /** The samples of one channel. */
  function Column(xs: seq<int>, ch: nat, channels: pos): seq<int> {
    if xs == [] then []
    else
      var rest := Column(xs[..|xs| - 1], ch, channels);
      if (|xs| - 1) % channels == ch then rest + [xs[|xs| - 1]] else rest
  }

  /** Each channel's state depends on its own column alone. */
  lemma {:induction false} DcChannels(w: width, st: seq<Dc>, xs: seq<int>, ch: nat)
    requires ch < |st|
    ensures DcProcess(w, st, xs).0[ch] == DcAfter(st[ch], Column(xs, ch, |st|))
  {
    if xs != [] {
      DcChannels(w, st, xs[..|xs| - 1], ch);
      var c := Column(xs[..|xs| - 1], ch, |st|);
      if (|xs| - 1) % |st| == ch {
        assert (c + [xs[|xs| - 1]])[..|c|] == c;
      }
    }
  }

  ghost predicate AllZero(st: seq<Dc>) { forall c :: 0 <= c < |st| ==> st[c] == DcZero }

  lemma {:induction false} DcPrefix(w: width, st: seq<Dc>, xs: seq<int>, n: nat)
    requires |st| > 0 && n <= |xs|
    ensures DcProcess(w, st, xs[..n]).1 == DcProcess(w, st, xs).1[..n]
    decreases |xs|
  {
    if n == |xs| {
      assert xs[..n] == xs;
    } else {
      var init := xs[..|xs| - 1];
      DcPrefix(w, st, init, n);
      assert init[..n] == xs[..n];
    }
  }

  /** Output sample i is input sample i minus the average of the earlier samples of the same
      channel, quantised: no other channel enters. */
  lemma DcOutput(w: width, st: seq<Dc>, xs: seq<int>, i: nat)
    requires |st| > 0 && i < |xs|
    ensures DcProcess(w, st, xs).1[i]
         == Quantise(w, xs[i] as real - Average(Estimate(st[i % |st|]), Column(xs[..i], i % |st|, |st|)))
  {
    DcPrefix(w, st, xs, i + 1);
    assert xs[..i + 1] == xs[..i] + [xs[i]];
    DcLast(w, st, xs[..i], xs[i], i % |st|);
  }

  lemma DcLast(w: width, st: seq<Dc>, xs: seq<int>, x: int, ch: nat)
    requires |st| > 0 && ch == |xs| % |st|
    ensures |DcProcess(w, st, xs + [x]).1| == |xs| + 1
    ensures DcProcess(w, st, xs + [x]).1[|xs|]
         == Quantise(w, x as real - Average(Estimate(st[ch]), Column(xs, ch, |st|)))
  {
    var c := Column(xs, ch, |st|);
    DcSnoc(w, st, xs, x);
    DcChannels(w, st, xs, ch);
    DcAfterSnoc(st[ch], c, x);
    DcIsAverageRemoval(st[ch], c + [x]);
    assert (c + [x])[..|c|] == c;
  }

  /** The emitted samples without the filter's state: each is its own term of
      y[i] = x[i] - x[i - c] + 0.999 * y[i - c] over the interleaved input of c channels, the
      terms before the first being the state at the start, rounded and limited. */
  lemma {:induction false} DcRecurrence(w: width, st: seq<Dc>, xs: seq<int>) returns (ys: seq<real>)
    requires |st| > 0
    ensures |ys| == |xs| == |DcProcess(w, st, xs).1|
    ensures IsRecurrence(st, xs, ys)
    ensures forall i :: 0 <= i < |xs| ==> Emits(w, ys[i], DcProcess(w, st, xs).1[i])
    ensures LastTerms(st, xs, ys, DcProcess(w, st, xs).0)
  {
    if xs == [] {
      ys := [];
    } else {
      var init, x := xs[..|xs| - 1], xs[|xs| - 1];
      var before := DcRecurrence(w, st, init);
      var s := DcProcess(w, st, init).0;
      ys := NextTerm(st, init, before, s, x);
      assert init + [x] == xs;
      DcSnoc(w, st, init, x);
      RoundedIn(w, ys[|init|]);
    }
  }

  ghost predicate IsRecurrence(st: seq<Dc>, xs: seq<int>, ys: seq<real>) {
    |ys| == |xs| && forall i :: 0 <= i < |xs| ==> IsTerm(st, xs, ys, i)
  }

  ghost predicate IsTerm(st: seq<Dc>, xs: seq<int>, ys: seq<real>, i: nat)
    requires i < |xs| == |ys|
  {
    var c := |st|;
    ys[i] == xs[i] as real - (if i < c then st[i].x else xs[i - c] as real)
             + 0.999 * (if i < c then st[i].y else ys[i - c])
  }

  /** What each channel's state remembers. */
  ghost predicate LastTerms(st: seq<Dc>, xs: seq<int>, ys: seq<real>, now: seq<Dc>) {
    var n, c := |xs|, |st|;
    && |now| == c > 0 && |ys| == n
    && (forall j :: 0 <= j < n && n - c <= j ==> now[j % c] == Dc(xs[j] as real, ys[j]))
    && (forall ch :: n <= ch < c ==> now[ch] == st[ch])
  }

  lemma NextTerm(st: seq<Dc>, xs: seq<int>, ys: seq<real>, now: seq<Dc>, x: int) returns (ys': seq<real>)
    requires |st| > 0 && IsRecurrence(st, xs, ys) && LastTerms(st, xs, ys, now)
    ensures var n, ch := |xs|, |xs| % |st|;
      && ys' == ys + [DcFilter(now[ch], x).y]
      && IsRecurrence(st, xs + [x], ys')
      && LastTerms(st, xs + [x], ys', now[ch := DcFilter(now[ch], x)])
  {
    var s := Remembered(st, xs, ys, now);
    ys' := ys + [DcFilter(s, x).y];
    forall i | 0 <= i < |xs + [x]| ensures IsTerm(st, xs + [x], ys', i) {
      if i < |xs| {
        assert IsTerm(st, xs, ys, i);
      }
    }
    Remember(st, xs, ys, now, x, ys'[|xs|]);
  }

  lemma Remembered(st: seq<Dc>, xs: seq<int>, ys: seq<real>, now: seq<Dc>) returns (s: Dc)
    requires LastTerms(st, xs, ys, now)
    ensures s == now[|xs| % |st|]
    ensures s == if |xs| < |st| then st[|xs|] else Dc(xs[|xs| - |st|] as real, ys[|xs| - |st|])
  {
    var n, c := |xs|, |st|;
    s := now[n % c];
    if n >= c {
      ModUnique(n, c, (n - c) / c + 1, (n - c) % c);
      assert now[(n - c) % c] == Dc(xs[n - c] as real, ys[n - c]);
    } else {
      ModUnique(n, c, 0, n);
    }
  }

  lemma Remember(st: seq<Dc>, xs: seq<int>, ys: seq<real>, now: seq<Dc>, x: int, y: real)
    requires LastTerms(st, xs, ys, now)
    ensures LastTerms(st, xs + [x], ys + [y], now[|xs| % |st| := Dc(x as real, y)])
  {
    var n, c := |xs|, |st|;
    var next := now[n % c := Dc(x as real, y)];
    forall j | 0 <= j < n + 1 && n + 1 - c <= j ensures next[j % c] == Dc((xs + [x])[j] as real, (ys + [y])[j]) {
      if j < n {
        CellsDistinct(j, n, c);
      }
    }
    forall ch | n + 1 <= ch < c ensures next[ch] == st[ch] {
      ModUnique(n, c, 0, n);
    }
  }

  /** Without Quantise: the emitted sample has the sign of the sample minus its channel's
      average and is less than 1 from that toward zero, or the nearer limit. */
  lemma DcEmitted(w: width, st: seq<Dc>, xs: seq<int>, i: nat) returns (y: real, r: int)
    requires |st| > 0 && i < |xs|
    ensures y == xs[i] as real - Average(Estimate(st[i % |st|]), Column(xs[..i], i % |st|, |st|))
    ensures r == DcProcess(w, st, xs).1[i]
    ensures var half := if w == 2 then 0x8000 else if w == 3 then 0x80_0000 else 0x8000_0000;
      && (0.0 <= y <= (half - 1) as real ==> 0 <= r && r as real <= y < r as real + 1.0)
      && (-(half as real) <= y <= 0.0 ==> r <= 0 && r as real - 1.0 < y <= r as real)
      && (y > (half - 1) as real ==> r == half - 1)
      && (y < -(half as real) ==> r == -half)
  {
    DcOutput(w, st, xs, i);
    y := xs[i] as real - Average(Estimate(st[i % |st|]), Column(xs[..i], i % |st|, |st|));
    r := Quantise(w, y);
    RoundedIn(w, y);
  }

  /** The first sample of a channel whose state was reset is emitted unchanged. */
  lemma FirstAfterReset(w: width, st: seq<Dc>, xs: seq<int>, ch: nat)
    requires ch < |st| && ch < |xs| && st[ch] == Dc(0.0, 0.0) && InRange(w, xs[ch])
    ensures DcProcess(w, st, xs).1[ch] == xs[ch]
  {
    var ys := DcRecurrence(w, st, xs);
    FirstTerm(w, st, xs, ys, DcProcess(w, st, xs).1[ch], ch);
  }

  lemma FirstTerm(w: width, st: seq<Dc>, xs: seq<int>, ys: seq<real>, r: int, ch: nat)
    requires ch < |st| && ch < |xs| && st[ch] == Dc(0.0, 0.0) && InRange(w, xs[ch])
    requires IsRecurrence(st, xs, ys) && Emits(w, ys[ch], r)
    ensures r == xs[ch]
  {
    assert IsTerm(st, xs, ys, ch);
    EmitsOne(w, ys[ch], r, xs[ch]);
  }

  lemma DcAfterSnoc(s: Dc, c: seq<int>, x: int)
    ensures DcAfter(s, c + [x]) == DcFilter(DcAfter(s, c), x)
  {
    assert (c + [x])[..|c|] == c;
  }

  lemma DcSnoc(w: width, st: seq<Dc>, xs: seq<int>, x: int)
    requires |st| > 0
    ensures var (st', ys) := DcProcess(w, st, xs);
      var ch := |xs| % |st|;
      var next := DcFilter(st'[ch], x);
      DcProcess(w, st, xs + [x]) == (st'[ch := next], ys + [Quantise(w, next.y)])
  {
    assert (xs + [x])[..|xs|] == xs;
  }

  ghost predicate SplitsAs(w: width, st: seq<Dc>, a: seq<int>, b: seq<int>, whole: seq<int>)
    requires |st| > 0
  {
    var (s1, y1) := DcProcess(w, st, a);
    var (s2, y2) := DcProcess(w, s1, b);
    DcProcess(w, st, whole) == (s2, y1 + y2)
  }

  /** Splitting the input at a frame boundary changes neither output nor final state. */
  lemma {:induction false} DcSplit(w: width, st: seq<Dc>, a: seq<int>, b: seq<int>)
    requires |st| > 0 && |a| % |st| == 0
    ensures SplitsAs(w, st, a, b, a + b)
    decreases |b|
  {
    if b == [] {
      assert a + b == a;
      var (s1, y1) := DcProcess(w, st, a);
      assert DcProcess(w, s1, []) == (s1, []) && y1 + [] == y1;
    } else {
      var init, last := b[..|b| - 1], b[|b| - 1];
      DcSplit(w, st, a, init);
      DcSplitLast(w, st, a, init, last);
      assert (a + init) + [last] == a + b && init + [last] == b;
    }
  }

  lemma DcSplitLast(w: width, st: seq<Dc>, a: seq<int>, b: seq<int>, x: int)
    requires |st| > 0 && |a| % |st| == 0 && SplitsAs(w, st, a, b, a + b)
    ensures SplitsAs(w, st, a, b + [x], (a + b) + [x])
  {
    var (s1, y1) := DcProcess(w, st, a);
    var (s2, y2) := DcProcess(w, s1, b);
    SameChannel(|a|, |b|, |st|);
    DcSnoc(w, st, a + b, x);
    DcSnoc(w, s1, b, x);
    var q := [Quantise(w, DcFilter(s2[|b| % |st|], x).y)];
    assert (y1 + y2) + q == y1 + (y2 + q);
  }

  lemma SameChannel(a: nat, b: nat, n: pos)
    requires a % n == 0
    ensures (a + b) % n == b % n
  {
    MulAdd(a / n, b / n, n);
    ModUnique(a + b, n, a / n + b / n, b % n);
  }

  // ------------------------------------------------------------- whole sessions

  /** Settings fixed over a session. `channels` is what the device delivers. */
  datatype Settings = Settings(w: width, channels: pos, mono: bool, gain: real, dc: bool) {
    predicate Downmixing() { mono && channels >= 2 }

    function OutChannels(): pos { if Downmixing() then 1 else channels }
  }

  /** Samples handed to the consumers for one chunk of whole frames: the four gain and DC
      branches of the callback, after the downmix. */
  function Chunk(cfg: Settings, st: seq<Dc>, xs: seq<int>): (r: (seq<Dc>, seq<int>))
    requires |st| == cfg.OutChannels() && AllInRange(cfg.w, xs)
    ensures |r.0| == |st| && AllInRange(cfg.w, r.1) && |r.1| == |Mixed(cfg, xs)|
  {
    Shaped(cfg, st, Mixed(cfg, xs))
  }

  /** The gain, unless it is 1, and the DC removal if it is on. */
  function Shaped(cfg: Settings, st: seq<Dc>, a: seq<int>): (r: (seq<Dc>, seq<int>))
    requires |st| > 0
    ensures |r.0| == |st| && |r.1| == |a|
    ensures AllInRange(cfg.w, a) ==> AllInRange(cfg.w, r.1)
  {
    var b := if cfg.gain != 1.0 then Amplify(cfg.w, cfg.gain, a) else a;
    if cfg.dc then DcProcess(cfg.w, st, b) else (st, b)
  }

  function Mixed(cfg: Settings, xs: seq<int>): (ys: seq<int>)
    ensures |ys| == (if cfg.Downmixing() then |xs| / cfg.channels else |xs|)
    ensures AllInRange(cfg.w, xs) ==> AllInRange(cfg.w, ys)
  {
    if cfg.Downmixing() then
      TwicePerFrame(|xs|, cfg.channels);
      Downmix(xs, |xs| / cfg.channels)
    else xs
  }

  ghost predicate WholeFrames(cfg: Settings, chunks: seq<seq<int>>) {
    forall i :: 0 <= i < |chunks| ==> |chunks[i]| % cfg.channels == 0 && AllInRange(cfg.w, chunks[i])
  }

  /** The callback over a run of chunks. */
  function Session(cfg: Settings, st: seq<Dc>, chunks: seq<seq<int>>): (r: (seq<Dc>, seq<int>))
    requires |st| == cfg.OutChannels() && WholeFrames(cfg, chunks)
    ensures |r.0| == |st| && AllInRange(cfg.w, r.1)
  {
    if chunks == [] then (st, [])
    else
      var (st', ys) := Session(cfg, st, chunks[..|chunks| - 1]);
      var (st2, zs) := Chunk(cfg, st', chunks[|chunks| - 1]);
      (st2, ys + zs)
  }

  lemma QuotientSplits(a: nat, b: nat, n: pos)
    requires a % n == 0 && b % n == 0
    ensures (a + b) % n == 0 && (a + b) / n == a / n + b / n
  {
    MulAdd(a / n, b / n, n);
    ModUnique(a + b, n, a / n + b / n, 0);
  }

  lemma MixedSplits(cfg: Settings, a: seq<int>, b: seq<int>)
    requires |a| % cfg.channels == 0 && |b| % cfg.channels == 0
    ensures cfg.channels == 2 || !cfg.Downmixing() ==> Mixed(cfg, a + b) == Mixed(cfg, a) + Mixed(cfg, b)
    ensures |Mixed(cfg, a)| % cfg.OutChannels() == 0
  {
    ModUnique(|Mixed(cfg, a)|, 1, |Mixed(cfg, a)|, 0);
    if cfg.Downmixing() && cfg.channels == 2 {
      QuotientSplits(|a|, |b|, 2);
      DownmixSplits(a, b, |a| / 2, |b| / 2);
    }
  }

  lemma DownmixSplits(a: seq<int>, b: seq<int>, m: nat, n: nat)
    requires |a| == 2 * m && |b| == 2 * n
    ensures Downmix(a + b, m + n) == Downmix(a, m) + Downmix(b, n)
  {
    var x, y := Downmix(a + b, m + n), Downmix(a, m) + Downmix(b, n);
    forall f | 0 <= f < m + n ensures x[f] == y[f] {}
  }

  ghost predicate CutsAgree(cfg: Settings, a: seq<int>, b: seq<int>) {
    Mixed(cfg, a + b) == Mixed(cfg, a) + Mixed(cfg, b)
  }

  /** The mixed samples are independent of where the input is cut into whole frames exactly
      for stereo input or without the downmix. */
  lemma MixedCutsIff(cfg: Settings)
    ensures (forall a, b | WholeFrames(cfg, [a, b]) :: CutsAgree(cfg, a, b))
       <==> cfg.channels == 2 || !cfg.Downmixing()
  {
    if cfg.channels == 2 || !cfg.Downmixing() {
      forall a, b | WholeFrames(cfg, [a, b]) ensures CutsAgree(cfg, a, b) {
        assert [a, b][0] == a && [a, b][1] == b;
        MixedSplits(cfg, a, b);
      }
    } else {
      var c := cfg.channels;
      var a, b := seq(c, i => if i == 2 then 1 else 0), seq(c, _ => 0);
      ModUnique(c, c, 1, 0);
      ModUnique(2 * c, c, 2, 0);
      assert WholeFrames(cfg, [a, b]);
      assert Mixed(cfg, a + b)[1] == 1 && (Mixed(cfg, a) + Mixed(cfg, b))[1] == 0;
      assert !CutsAgree(cfg, a, b);
    }
  }

  /** Where the input is cut into chunks of whole frames makes no difference, for any
      gain, with or without DC removal, and with the downmix on stereo input. */
  lemma ChunkSplits(cfg: Settings, st: seq<Dc>, a: seq<int>, b: seq<int>)
    requires cfg.channels == 2 || !cfg.Downmixing()
    requires |st| == cfg.OutChannels() && AllInRange(cfg.w, a) && AllInRange(cfg.w, b)
    requires |a| % cfg.channels == 0 && |b| % cfg.channels == 0
    ensures AllInRange(cfg.w, a + b)
    ensures var (s1, y1) := Chunk(cfg, st, a);
      var (s2, y2) := Chunk(cfg, s1, b);
      Chunk(cfg, st, a + b) == (s2, y1 + y2)
  {
    MixedSplits(cfg, a, b);
    var ma, mb := Mixed(cfg, a), Mixed(cfg, b);
    assert Amplify(cfg.w, cfg.gain, ma + mb) == Amplify(cfg.w, cfg.gain, ma) + Amplify(cfg.w, cfg.gain, mb);
    var ga := if cfg.gain != 1.0 then Amplify(cfg.w, cfg.gain, ma) else ma;
    var gb := if cfg.gain != 1.0 then Amplify(cfg.w, cfg.gain, mb) else mb;
    if cfg.dc {
      DcSplit(cfg.w, st, ga, gb);
    }
  }

  lemma FlattenWhole(cfg: Settings, chunks: seq<seq<int>>)
    requires WholeFrames(cfg, chunks)
    ensures |Flatten(chunks)| % cfg.channels == 0 && AllInRange(cfg.w, Flatten(chunks))
  {
    if chunks != [] {
      var init, last := chunks[..|chunks| - 1], chunks[|chunks| - 1];
      FlattenWhole(cfg, init);
      QuotientSplits(|Flatten(init)|, |last|, cfg.channels);
    }
  }

  /** A session's output and final filter state are those of one chunk holding all its
      input. */
  lemma {:induction false} ChunkingIrrelevant(cfg: Settings, st: seq<Dc>, chunks: seq<seq<int>>)
    requires cfg.channels == 2 || !cfg.Downmixing()
    requires |st| == cfg.OutChannels() && WholeFrames(cfg, chunks)
    ensures AllInRange(cfg.w, Flatten(chunks))
    ensures Session(cfg, st, chunks) == Chunk(cfg, st, Flatten(chunks))
  {
    FlattenWhole(cfg, chunks);
    if chunks == [] {
      assert Mixed(cfg, []) == [];
    } else {
      var init, last := chunks[..|chunks| - 1], chunks[|chunks| - 1];
      ChunkingIrrelevant(cfg, st, init);
      FlattenWhole(cfg, init);
      ChunkSplits(cfg, st, Flatten(init), last);
    }
  }

  /** What the session is meant to emit: downmix, gain, and per channel the removal of the
      running average, which starts from the filter state the session starts from. */
  function Reference(cfg: Settings, st: seq<Dc>, xs: seq<int>, i: nat): int
    requires |st| == cfg.OutChannels() && i < |Mixed(cfg, xs)|
  {
    var amplified := Amplify(cfg.w, cfg.gain, Mixed(cfg, xs));
    var c := cfg.OutChannels();
    if cfg.dc then
      Quantise(cfg.w, amplified[i] as real - Average(Estimate(st[i % c]), Column(amplified[..i], i % c, c)))
    else amplified[i]
  }

  /** However the input is cut, sample i of a session is the reference sample. */
  lemma SessionIsReference(cfg: Settings, st: seq<Dc>, chunks: seq<seq<int>>, i: nat)
    requires cfg.channels == 2 || !cfg.Downmixing()
    requires |st| == cfg.OutChannels() && WholeFrames(cfg, chunks)
    ensures |Session(cfg, st, chunks).1| == |Mixed(cfg, Flatten(chunks))|
    ensures i < |Mixed(cfg, Flatten(chunks))| ==>
              Session(cfg, st, chunks).1[i] == Reference(cfg, st, Flatten(chunks), i)
  {
    ChunkingIrrelevant(cfg, st, chunks);
    if i < |Mixed(cfg, Flatten(chunks))| {
      ChunkIsReference(cfg, st, Flatten(chunks), i);
    }
  }

  lemma ChunkIsReference(cfg: Settings, st: seq<Dc>, xs: seq<int>, i: nat)
    requires |st| == cfg.OutChannels() && AllInRange(cfg.w, xs)
    requires i < |Mixed(cfg, xs)|
    ensures |Chunk(cfg, st, xs).1| == |Mixed(cfg, xs)|
    ensures Chunk(cfg, st, xs).1[i] == Reference(cfg, st, xs, i)
  {
    var m := Mixed(cfg, xs);
    var amplified := Amplify(cfg.w, cfg.gain, m);
    if cfg.gain == 1.0 {
      UnityGain(cfg.w, m);
    }
    if cfg.dc {
      DcOutput(cfg.w, st, amplified, i);
      assert Chunk(cfg, st, xs).1 == DcProcess(cfg.w, st, amplified).1;
    } else {
      assert Chunk(cfg, st, xs).1 == amplified;
    }
  }

  /** The i-th sample that the gain is applied to: with the downmix on every second one, which
      for stereo is the left one of frame i. */
  function Picked(mono: bool, channels: pos, xs: seq<int>, i: nat): int
    requires (if mono && channels >= 2 then 2 * i else i) < |xs|
  {
    xs[if mono && channels >= 2 then 2 * i else i]
  }

  ghost predicate EmitsAll(w: width, ys: seq<real>, out: seq<int>) {
    |out| == |ys| && forall i :: 0 <= i < |ys| ==> Emits(w, ys[i], out[i])
  }

  /** Every picked sample times the gain, emitted. */
  ghost predicate GainOf(w: width, mono: bool, channels: pos, gain: real, xs: seq<int>, amp: seq<int>) {
    && |amp| == (if mono && channels >= 2 then |xs| / channels else |xs|)
    && (mono && channels >= 2 ==> 2 * |amp| <= |xs|)
    && forall i :: 0 <= i < |amp| ==> EmitsProduct(w, gain, Picked(mono, channels, xs, i), amp[i])
  }

  ghost predicate EmitsProduct(w: width, gain: real, v: int, r: int) { Emits(w, v as real * gain, r) }

  /** One chunk in plain terms: each picked sample times the gain, emitted; and with DC
      removal the recurrence over those, emitted. */
  lemma ChunkPlain(cfg: Settings, st: seq<Dc>, xs: seq<int>) returns (amp: seq<int>, ys: seq<real>)
    requires |st| == (if cfg.mono && cfg.channels >= 2 then 1 else cfg.channels) && AllInRange(cfg.w, xs)
    ensures GainOf(cfg.w, cfg.mono, cfg.channels, cfg.gain, xs, amp)
    ensures !cfg.dc ==> Chunk(cfg, st, xs).1 == amp
    ensures cfg.dc ==> IsRecurrence(st, amp, ys) && EmitsAll(cfg.w, ys, Chunk(cfg, st, xs).1)
  {
    var a := Mixed(cfg, xs);
    amp := AmplifiedPlain(cfg, xs, a);
    ys := DcRecurrence(cfg.w, st, amp);
    if cfg.gain == 1.0 {
      UnityGain(cfg.w, a);
    }
    assert Chunk(cfg, st, xs) == if cfg.dc then DcProcess(cfg.w, st, amp) else (st, amp);
  }

  lemma AmplifiedPlain(cfg: Settings, xs: seq<int>, a: seq<int>) returns (amp: seq<int>)
    requires a == Mixed(cfg, xs)
    ensures amp == Amplify(cfg.w, cfg.gain, a) && GainOf(cfg.w, cfg.mono, cfg.channels, cfg.gain, xs, amp)
  {
    if cfg.mono && cfg.channels >= 2 {
      TwicePerFrame(|xs|, cfg.channels);
    }
    amp := Amplify(cfg.w, cfg.gain, a);
    forall i | 0 <= i < |amp| ensures EmitsProduct(cfg.w, cfg.gain, Picked(cfg.mono, cfg.channels, xs, i), amp[i]) {
      assert a[i] == Picked(cfg.mono, cfg.channels, xs, i);
      AmplifyAt(cfg.w, cfg.gain, a, i);
    }
  }

  lemma AmplifyAt(w: width, gain: real, xs: seq<int>, i: nat)
    requires i < |xs|
    ensures EmitsProduct(w, gain, xs[i], Amplify(w, gain, xs)[i])
  {
    ScaleIs(w, gain, xs[i]);
  }

  /** A whole session in plain terms, for any cuts: with the downmix of stereo input on, each
      left sample, else each sample, times the gain, emitted; and with DC removal the
      recurrence over those, emitted. */
  lemma SessionPlain(cfg: Settings, st: seq<Dc>, chunks: seq<seq<int>>) returns (amp: seq<int>, ys: seq<real>)
    requires !cfg.mono || cfg.channels <= 2
    requires |st| == (if cfg.mono && cfg.channels == 2 then 1 else cfg.channels) && WholeFrames(cfg, chunks)
    ensures GainOf(cfg.w, cfg.mono, cfg.channels, cfg.gain, Flatten(chunks), amp)
    ensures !cfg.dc ==> Session(cfg, st, chunks).1 == amp
    ensures cfg.dc ==> IsRecurrence(st, amp, ys) && EmitsAll(cfg.w, ys, Session(cfg, st, chunks).1)
  {
    ChunkingIrrelevant(cfg, st, chunks);
    amp, ys := ChunkPlain(cfg, st, Flatten(chunks));
  }
}
