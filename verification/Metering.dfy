/** Peak and sum of squares over one period: the scalar loop and the two vector loops. */
module Metering {

  import opened Bits
  import opened Pcm
  import opened Vector

  function Square(v: int): nat { v * v }

  lemma SquareBound(v: int)
    requires InRange(2, v)
    ensures Square(v) <= 0x4000_0000
  {
    var a := Abs(v);
    MulLe(a, 0x8000, a);
    MulLe(a, 0x8000, 0x8000);
    assert v * v == a * a;
  }

  function SumSquares(xs: seq<int>): nat {
    if xs == [] then 0 else SumSquares(xs[..|xs| - 1]) + Square(xs[|xs| - 1])
  }

  /** Metering works on the upper 16 bits of 32-bit samples. */
  function Shifted(xs: seq<int>): (ys: seq<int>)
    ensures |ys| == |xs| && (AllInRange(4, xs) ==> AllInRange(2, ys))
  {
    seq(|xs|, i requires 0 <= i < |xs| => xs[i] / 0x1_0000)
  }

  /** vabsq_s16: the most negative value has no positive counterpart and is kept. */
  function Abs16(v: int): int { if v == -0x8000 then v else Abs(v) }

  /** Magnitude of sample j as metered: by a 16-bit lane below `end`, exactly from there. */
  function Magnitude(xs: seq<int>, end: nat, j: nat): int
    requires j < |xs|
  {
    if j < end then Abs16(xs[j]) else Abs(xs[j])
  }

  /** p is the largest metered magnitude, or 0 when there is none above 0. */
  ghost predicate IsPeak(p: int, xs: seq<int>, end: nat) {
    && p >= 0 && (forall j :: 0 <= j < |xs| ==> Magnitude(xs, end, j) <= p)
    && (p == 0 || exists j :: 0 <= j < |xs| && Magnitude(xs, end, j) == p)
  }

  lemma PeakGrows(p: int, xs: seq<int>, end: nat, v: int)
    requires IsPeak(p, xs, end)
    ensures var m := Magnitude(xs + [v], end, |xs|);
      IsPeak(if m > p then m else p, xs + [v], end)
  {
    var ys := xs + [v];
    forall j | 0 <= j < |xs| ensures Magnitude(ys, end, j) == Magnitude(xs, end, j) {}
    var m := Magnitude(ys, end, |xs|);
    if m <= p && p != 0 {
      var j :| 0 <= j < |xs| && Magnitude(xs, end, j) == p;
      assert Magnitude(ys, end, j) == p;
    }
  }

  /** Shifting keeps the upper half: the 65536 values from one multiple of 65536 on are
      metered as its quotient. */
  lemma ShiftedIs(xs: seq<int>, i: nat)
    requires i < |xs|
    ensures |Shifted(xs)| == |xs|
    ensures Shifted(xs)[i] * 0x1_0000 <= xs[i] < Shifted(xs)[i] * 0x1_0000 + 0x1_0000
  {
  }

  /** A peak is the least bound of all magnitudes. */
  lemma PeakIs(p: int, xs: seq<int>)
    ensures IsPeak(p, xs, 0) <==>
              && p >= 0 && (forall j :: 0 <= j < |xs| ==> -p <= xs[j] <= p)
              && (p == 0 || exists j :: 0 <= j < |xs| && (xs[j] == p || xs[j] == -p))
  {
    forall j | 0 <= j < |xs| ensures Magnitude(xs, 0, j) == if xs[j] < 0 then -xs[j] else xs[j] {}
    if p > 0 {
      if j :| 0 <= j < |xs| && (xs[j] == p || xs[j] == -p) {
        assert Magnitude(xs, 0, j) == p;
      }
      if j :| 0 <= j < |xs| && Magnitude(xs, 0, j) == p {
        assert xs[j] == p || xs[j] == -p;
      }
    }
  }

  /** The sum is additive, and of one sample it is v * v. */
  lemma {:induction false} SumIs(xs: seq<int>, ys: seq<int>, v: int)
    ensures SumSquares([]) == 0 && SumSquares([v]) == v * v
    ensures SumSquares(xs + ys) == SumSquares(xs) + SumSquares(ys)
    decreases |ys|
  {
    SumGrows([], v);
    assert [] + [v] == [v];
    if ys == [] {
      assert xs + ys == xs;
    } else {
      var init, last := ys[..|ys| - 1], ys[|ys| - 1];
      SumIs(xs, init, v);
      SumGrows(xs + init, last);
      assert (xs + init) + [last] == xs + ys;
    }
  }

  lemma SumGrows(xs: seq<int>, v: int)
    ensures SumSquares(xs + [v]) == SumSquares(xs) + Square(v)
  {
    assert (xs + [v])[..|xs|] == xs;
  }

  /** What the loops meter: samples as they are, or shifted if `wide`. */
  function Metered(xs: seq<int>, wide: bool): seq<int> { if wide then Shifted(xs) else xs }

  /** The scalar loop, from a running peak and sum: the whole of it in the plain build, the
      tail in the vector build. */
  method Tail(xs: seq<int>, wide: bool, start: nat, ghost end: nat, peak0: int, sum0: int)
    returns (peak: int, sum: int)
    requires end <= start <= |xs|
    requires IsPeak(peak0, Metered(xs, wide)[..start], end) && sum0 == SumSquares(Metered(xs, wide)[..start])
    ensures IsPeak(peak, Metered(xs, wide), end) && sum == SumSquares(Metered(xs, wide))
  {
    peak, sum := peak0, sum0;
    var i := start;
    ghost var ys := Metered(xs, wide);
    while i < |xs|
      invariant start <= i <= |xs|
      invariant IsPeak(peak, ys[..i], end) && sum == SumSquares(ys[..i])
    {
      var s := if wide then xs[i] / 0x1_0000 else xs[i];
      var m := if s < 0 then -s else s;
      assert ys[..i + 1] == ys[..i] + [s];
      PeakGrows(peak, ys[..i], end, s);
      SumGrows(ys[..i], s);
      if m > peak { peak := m; }
      sum := sum + s * s;
      i := i + 1;
    }
    assert ys[..|xs|] == ys;
  }

  method MeterScalar(xs: seq<int>, wide: bool) returns (peak: int, sum: int)
    ensures IsPeak(peak, Metered(xs, wide), 0) && sum == SumSquares(Metered(xs, wide))
  {
    assert Metered(xs, wide)[..0] == [];
    peak, sum := Tail(xs, wide, 0, 0, 0, 0);
  }

  // ------------------------------------------------------------- vector loops

  /** Two's complement 64-bit addition. */
  function Add64(a: int, b: int): int { (a + b + TWO_63) % TWO_64 - TWO_63 }

  lemma Add64Exact(a: int, b: int)
    requires -TWO_63 <= a + b < TWO_63
    ensures Add64(a, b) == a + b
  {
    ModUnique(a + b + TWO_63, TWO_64, 0, a + b + TWO_63);
  }

  lemma Sum8(xs: seq<int>, i: nat)
    requires i + 8 <= |xs|
    ensures SumSquares(xs[..i + 8]) == SumSquares(xs[..i])
      + (Square(xs[i]) + Square(xs[i + 1])) + (Square(xs[i + 2]) + Square(xs[i + 3]))
      + (Square(xs[i + 4]) + Square(xs[i + 5])) + (Square(xs[i + 6]) + Square(xs[i + 7]))
  {
    Sum4(xs, i);
    Sum4(xs, i + 4);
  }

  lemma Sum4(xs: seq<int>, i: nat)
    requires i + 4 <= |xs|
    ensures SumSquares(xs[..i + 4]) == SumSquares(xs[..i])
      + (Square(xs[i]) + Square(xs[i + 1])) + (Square(xs[i + 2]) + Square(xs[i + 3]))
  {
    Sum1(xs, i);
    Sum1(xs, i + 1);
    Sum1(xs, i + 2);
    Sum1(xs, i + 3);
  }

  lemma Sum1(xs: seq<int>, i: nat)
    requires i < |xs|
    ensures SumSquares(xs[..i + 1]) == SumSquares(xs[..i]) + Square(xs[i])
  {
    assert xs[..i + 1] == xs[..i] + [xs[i]];
    SumGrows(xs[..i], xs[i]);
  }

  ghost predicate Below(m: int, peaks: seq<int>) { exists l :: 0 <= l < |peaks| && m <= peaks[l] }

  ghost predicate Held(p: int, xs: seq<int>, i: nat, end: nat) {
    p == 0 || (p > 0 && exists j :: 0 <= j < i && j < |xs| && Magnitude(xs, end, j) == p)
  }

  /** Every sample below i is bounded by some lane, and every lane holds one of them or 0. */
  ghost predicate Lanes(peaks: seq<int>, xs: seq<int>, i: nat, end: nat) {
    && i <= |xs|
    && (forall j :: 0 <= j < i ==> Below(Magnitude(xs, end, j), peaks))
    && (forall l :: 0 <= l < |peaks| ==> Held(peaks[l], xs, i, end))
  }

  /** vmaxq of the running peaks with a batch of magnitudes. */
  function MaxLanes(peaks: seq<int>, batch: seq<int>): (r: seq<int>)
    requires |peaks| == |batch|
    ensures |r| == |peaks|
    ensures forall l :: 0 <= l < |r| ==> r[l] == Max(peaks[l], batch[l])
  {
    seq(|peaks|, l requires 0 <= l < |peaks| => Max(peaks[l], batch[l]))
  }

  lemma LanesGrow(peaks: seq<int>, xs: seq<int>, i: nat, end: nat, batch: seq<int>)
    requires Lanes(peaks, xs, i, end) && |batch| == |peaks| && i + |peaks| <= |xs|
    requires forall l :: 0 <= l < |batch| ==> batch[l] == Magnitude(xs, end, i + l)
    ensures Lanes(MaxLanes(peaks, batch), xs, i + |peaks|, end)
  {
    var r, n := MaxLanes(peaks, batch), |peaks|;
    forall j | 0 <= j < i + n ensures Below(Magnitude(xs, end, j), r) {
      if j < i {
        assert Below(Magnitude(xs, end, j), peaks);
        var l :| 0 <= l < n && Magnitude(xs, end, j) <= peaks[l];
        assert Magnitude(xs, end, j) <= r[l];
      } else {
        assert batch[j - i] <= r[j - i];
      }
    }
    forall l | 0 <= l < n ensures Held(r[l], xs, i + n, end) {
      assert Held(peaks[l], xs, i, end);
      assert batch[l] == Magnitude(xs, end, i + l);
    }
  }

  /** p is the largest lane, or 0 when no lane is above 0. */
  ghost predicate LargestLane(p: int, lanes: seq<int>) {
    && p >= 0 && (forall l :: 0 <= l < |lanes| ==> lanes[l] <= p)
    && (p == 0 || exists l :: 0 <= l < |lanes| && lanes[l] == p)
  }

  /** Folding the upper half of the lanes onto the lower one keeps the largest. */
  lemma Folded(lanes: seq<int>, half: nat, p: int)
    requires |lanes| == 2 * half && LargestLane(p, MaxLanes(lanes[..half], lanes[half..]))
    ensures LargestLane(p, lanes)
  {
    var lo, hi := lanes[..half], lanes[half..];
    var r := MaxLanes(lo, hi);
    forall l | 0 <= l < |lanes| ensures lanes[l] <= p {
      if l < half {
        assert lanes[l] == lo[l] <= r[l];
      } else {
        assert lanes[l] == hi[l - half] <= r[l - half];
      }
    }
    if p != 0 {
      var l :| 0 <= l < half && r[l] == p;
      assert lanes[l] == lo[l] && lanes[half + l] == hi[l];
    }
  }

  /** The largest lane is the peak of the batches. */
  lemma Reduced(peaks: seq<int>, xs: seq<int>, i: nat, end: nat, p: int)
    requires Lanes(peaks, xs, i, end) && LargestLane(p, peaks)
    ensures IsPeak(p, xs[..i], end)
  {
    var ys := xs[..i];
    forall j | 0 <= j < i ensures Magnitude(ys, end, j) <= p {
      assert Below(Magnitude(xs, end, j), peaks);
      assert Magnitude(ys, end, j) == Magnitude(xs, end, j);
    }
    if p != 0 {
      var l :| 0 <= l < |peaks| && peaks[l] == p;
      assert Held(peaks[l], xs, i, end);
      var j :| 0 <= j < i && Magnitude(xs, end, j) == p;
      assert Magnitude(ys, end, j) == p;
    }
  }

  /** The registers after i samples: each sum lane is at most i * 2^29, far from
      overflow for any 32-bit count. */
  ghost predicate Registers(vpeak: seq<int>, vsum: (int, int), xs: seq<int>, i: nat, end: nat) {
    && Lanes(vpeak, xs, i, end)
    && 0 <= vsum.0 <= i * 0x2000_0000 && 0 <= vsum.1 <= i * 0x2000_0000
    && vsum.0 + vsum.1 == SumSquares(xs[..i])
  }

  method Batch16(xs: seq<int>, i: nat, ghost end: nat, vpeak: seq<int>, vsum: (int, int))
    returns (vpeak': seq<int>, vsum': (int, int))
    requires AllInRange(2, xs) && i + 8 <= end <= |xs| && end < 0x1_0000_0000
    requires |vpeak| == 8 && Registers(vpeak, vsum, xs, i, end)
    ensures |vpeak'| == 8 && Registers(vpeak', vsum', xs, i + 8, end)
  {
    var v := xs[i..i + 8];
    var va := seq(8, l requires 0 <= l < 8 => Abs16(v[l]));
    LanesGrow(vpeak, xs, i, end, va);
    vpeak' := MaxLanes(vpeak, va);
    vsum' := AddPairs(vsum, i * 0x2000_0000, v[0], v[1], v[2], v[3]);
    vsum' := AddPairs(vsum', i * 0x2000_0000 + 0x8000_0000, v[4], v[5], v[6], v[7]);
    Sum8(xs, i);
  }

  /** 16-bit vector metering: the sum is exact for every count, no lane overflows, and the
      peak is exact except that the lanes do not see -32768. */
  method MeterVector16(xs: seq<int>) returns (peak: int, sum: int)
    requires AllInRange(2, xs)
    ensures IsPeak(peak, xs, BatchEnd(|xs|, 3)) && sum == SumSquares(xs)
  {
    var i: nat := 0;
    var end := BatchEnd(|xs|, 3);
    BatchEndIs(|xs|, 3);
    assert Pow2(3) == 8;
    var vpeak := [0, 0, 0, 0, 0, 0, 0, 0];
    var vsum := (0, 0);
    while i < end
      invariant i <= end && i % 8 == 0
      invariant |vpeak| == 8 && Registers(vpeak, vsum, xs, i, end)
    {
      NextBatch(i, end, 8);
      vpeak, vsum := Batch16(xs, i, end, vpeak, vsum);
      i := i + 8;
    }
    peak := Reduce16(vpeak);
    Reduced(vpeak, xs, i, end, peak);
    peak, sum := Tail(xs, false, i, end, peak, vsum.0 + vsum.1);
  }

  method Reduce16(vpeak: seq<int>) returns (peak: int)
    requires |vpeak| == 8
    ensures LargestLane(peak, vpeak)
  {
    var pk4 := MaxLanes(vpeak[..4], vpeak[4..]);
    peak := 0;
    for j := 0 to 4
      invariant peak >= 0 && forall l :: 0 <= l < j ==> pk4[l] <= peak
      invariant peak == 0 || exists l :: 0 <= l < j && pk4[l] == peak
    {
      if pk4[j] > peak { peak := pk4[j]; }
    }
    Folded(vpeak, 4, peak);
  }

  /** vpadalq_s32 of four squares: adjacent pairs into the two 64-bit lanes. */
  function AddPairs(vsum: (int, int), ghost bound: nat, a: int, b: int, c: int, d: int): (r: (int, int))
    requires 0 <= vsum.0 <= bound && 0 <= vsum.1 <= bound && bound + 0x8000_0000 < TWO_63
    requires InRange(2, a) && InRange(2, b) && InRange(2, c) && InRange(2, d)
    ensures r == (vsum.0 + (Square(a) + Square(b)), vsum.1 + (Square(c) + Square(d)))
    ensures r.0 <= bound + 0x8000_0000 && r.1 <= bound + 0x8000_0000
  {
    SquareBound(a); SquareBound(b); SquareBound(c); SquareBound(d);
    Add64Exact(vsum.0, Square(a) + Square(b));
    Add64Exact(vsum.1, Square(c) + Square(d));
    (Add64(vsum.0, Square(a) + Square(b)), Add64(vsum.1, Square(c) + Square(d)))
  }

  /** vmlal_s32 of two squares, one into each lane. */
  function AddSquares(vsum: (int, int), ghost bound: nat, a: int, b: int): (r: (int, int))
    requires 0 <= vsum.0 <= bound && 0 <= vsum.1 <= bound && bound + 0x4000_0000 < TWO_63
    requires InRange(2, a) && InRange(2, b)
    ensures r == (vsum.0 + Square(a), vsum.1 + Square(b))
    ensures r.0 <= bound + 0x4000_0000 && r.1 <= bound + 0x4000_0000
  {
    SquareBound(a); SquareBound(b);
    Add64Exact(vsum.0, Square(a));
    Add64Exact(vsum.1, Square(b));
    (Add64(vsum.0, Square(a)), Add64(vsum.1, Square(b)))
  }

  method Batch32(xs: seq<int>, i: nat, vpeak: seq<int>, vsum: (int, int))
    returns (vpeak': seq<int>, vsum': (int, int))
    requires AllInRange(4, xs) && i + 4 <= |xs| && i < 0x1_0000_0000
    requires |vpeak| == 4 && Registers(vpeak, vsum, Shifted(xs), i, 0)
    ensures |vpeak'| == 4 && Registers(vpeak', vsum', Shifted(xs), i + 4, 0)
  {
    var shifted := Shifted(xs[i..i + 4]);
    var va := seq(4, l requires 0 <= l < 4 => Abs(shifted[l]));
    LanesGrow(vpeak, Shifted(xs), i, 0, va);
    vpeak' := MaxLanes(vpeak, va);
    vsum' := AddSquares(vsum, i * 0x2000_0000, shifted[0], shifted[1]);
    vsum' := AddSquares(vsum', i * 0x2000_0000 + 0x4000_0000, shifted[2], shifted[3]);
    Sum4(Shifted(xs), i);
  }

  /** std::max of the two lanes that are left: the lanes of magnitudes are never negative. */
  method Reduce32(vpeak: seq<int>) returns (peak: int)
    requires |vpeak| == 4 && forall l :: 0 <= l < 4 ==> vpeak[l] >= 0
    ensures LargestLane(peak, vpeak)
  {
    var pk2 := MaxLanes(vpeak[..2], vpeak[2..]);
    peak := Max(pk2[0], pk2[1]);
    Folded(vpeak, 2, peak);
  }

  /** 32-bit vector metering equals the scalar loop for every count and every sample. */
  method MeterVector32(xs: seq<int>) returns (peak: int, sum: int)
    requires AllInRange(4, xs)
    ensures IsPeak(peak, Shifted(xs), 0) && sum == SumSquares(Shifted(xs))
  {
    var i: nat := 0;
    var end := BatchEnd(|xs|, 2);
    BatchEndIs(|xs|, 2);
    assert Pow2(2) == 4;
    var vpeak := [0, 0, 0, 0];
    var vsum := (0, 0);
    ghost var ys := Shifted(xs);
    while i < end
      invariant i <= end && i % 4 == 0
      invariant |vpeak| == 4 && Registers(vpeak, vsum, ys, i, 0)
    {
      NextBatch(i, end, 4);
      vpeak, vsum := Batch32(xs, i, vpeak, vsum);
      i := i + 4;
    }
    assert forall l :: 0 <= l < 4 ==> Held(vpeak[l], ys, i, 0);
    peak := Reduce32(vpeak);
    Reduced(vpeak, ys, i, 0, peak);
    peak, sum := Tail(xs, true, i, 0, peak, vsum.0 + vsum.1);
  }

  // ------------------------------------------------- what the peak is worth

  /** The level stored: capped at 32767. */
  function Stored(peak: int): int { Min(peak, 32767) }

  ghost predicate Wrapped(xs: seq<int>, end: nat, j: int) {
    0 <= j < end && j < |xs| && xs[j] == -0x8000
  }

  /** The stored peak of the 16-bit vector loop is the scalar one exactly when no -32768
      falls into a batch, or some other sample is at full scale as well. */
  lemma PeakAgreesIff(xs: seq<int>, end: nat, vector: int, scalar: int)
    requires AllInRange(2, xs) && IsPeak(vector, xs, end) && IsPeak(scalar, xs, 0)
    ensures Stored(vector) == Stored(scalar) <==>
              (forall j :: !Wrapped(xs, end, j))
              || (exists j :: 0 <= j < |xs| && !Wrapped(xs, end, j) && Abs(xs[j]) >= 32767)
  {
    forall j | 0 <= j < |xs|
      ensures Magnitude(xs, 0, j) == Abs(xs[j]) <= 0x8000
      ensures Magnitude(xs, end, j) == if Wrapped(xs, end, j) then -0x8000 else Abs(xs[j])
    {
    }
    if forall j :: !Wrapped(xs, end, j) {
      SamePeak(xs, end, vector, scalar);
    } else {
      var w :| Wrapped(xs, end, w);
      assert Magnitude(xs, 0, w) == 0x8000 <= scalar;
      FullScaleElsewhere(xs, end, vector);
    }
  }

  lemma SamePeak(xs: seq<int>, end: nat, vector: int, scalar: int)
    requires IsPeak(vector, xs, end) && IsPeak(scalar, xs, 0)
    requires forall j :: 0 <= j < |xs| ==> Magnitude(xs, end, j) == Magnitude(xs, 0, j)
    ensures vector == scalar
  {
    if vector != 0 {
      var j :| 0 <= j < |xs| && Magnitude(xs, end, j) == vector;
      assert Magnitude(xs, 0, j) <= scalar;
    }
    if scalar != 0 {
      var j :| 0 <= j < |xs| && Magnitude(xs, 0, j) == scalar;
      assert Magnitude(xs, end, j) <= vector;
    }
  }

  lemma FullScaleElsewhere(xs: seq<int>, end: nat, vector: int)
    requires IsPeak(vector, xs, end)
    requires forall j :: 0 <= j < |xs| ==>
               Magnitude(xs, end, j) == if Wrapped(xs, end, j) then -0x8000 else Abs(xs[j])
    ensures vector >= 32767 <==>
              exists j :: 0 <= j < |xs| && !Wrapped(xs, end, j) && Abs(xs[j]) >= 32767
  {
    if vector >= 32767 {
      var j :| 0 <= j < |xs| && Magnitude(xs, end, j) == vector;
      assert !Wrapped(xs, end, j);
    }
    if j :| 0 <= j < |xs| && !Wrapped(xs, end, j) && Abs(xs[j]) >= 32767 {
      assert Magnitude(xs, end, j) <= vector;
    }
  }
}
