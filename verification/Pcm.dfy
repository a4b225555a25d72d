/** Interleaved little-endian PCM at 2, 3 or 4 bytes a sample. */
module Pcm {

  import opened Bits
  import opened Bytes

  /** Bytes per sample of the three formats. */
  type width = w: int | 2 <= w <= 4 witness 2

  function Half(w: width): (h: int)
    ensures h > 0
  {
    if w == 2 then 0x8000 else if w == 3 then 0x80_0000 else 0x8000_0000
  }

  predicate InRange(w: width, v: int) { -Half(w) <= v < Half(w) }

  ghost predicate AllInRange(w: width, xs: seq<int>) {
    forall i :: 0 <= i < |xs| ==> InRange(w, xs[i])
  }

  function Clamp(v: int, lo: int, hi: int): int {
    if v < lo then lo else if v > hi then hi else v
  }

  function ClampTo(w: width, v: int): (r: int)
    ensures InRange(w, r)
  {
    Clamp(v, -Half(w), Half(w) - 1)
  }

  /** Two's complement little-endian load, what reinterpreting as int16_t or int32_t does. */
  function Load(p: seq<byte>): (v: int)
    requires 2 <= |p| <= 4
    ensures InRange(|p|, v)
  {
    FieldBound(p);
    var u := FromLe(p);
    if u >= Half(|p|) then u - 2 * Half(|p|) else u
  }

  function Store(w: width, v: int): (p: seq<byte>)
    requires InRange(w, v)
    ensures |p| == w
  {
    Le(v % (2 * Half(w)), w)
  }

  lemma FieldBound(p: seq<byte>)
    requires 2 <= |p| <= 4
    ensures FromLe(p) < 2 * Half(|p|)
  {
    assert p[1..][1..] == p[2..];
    if |p| >= 3 { assert p[2..][1..] == p[3..]; }
    if |p| == 4 { assert p[3..][1..] == []; }
  }

  lemma StoreLoad(w: width, v: int)
    requires InRange(w, v)
    ensures Load(Store(w, v)) == v
  {
    var n := 2 * Half(w);
    var u: nat := if v < 0 then v + n else v;
    ModUnique(v, n, if v < 0 then -1 else 0, u);
    assert Pow2(8 * w) == n by { ByteWidths(); }
    LeRoundTrip(u, w);
  }

  /** The sample of a field, from its bytes: low byte first, negative from 0x80 in the high
      byte on. */
  lemma LoadBytes(p: seq<byte>)
    requires 2 <= |p| <= 4
    ensures |p| == 2 ==>
      Load(p) == p[0] as int + 0x100 * p[1] as int - (if p[1] >= 0x80 then 0x1_0000 else 0)
    ensures |p| == 3 ==>
      Load(p) == p[0] as int + 0x100 * p[1] as int + 0x1_0000 * p[2] as int
                 - (if p[2] >= 0x80 then 0x100_0000 else 0)
    ensures |p| == 4 ==>
      Load(p) == p[0] as int + 0x100 * p[1] as int + 0x1_0000 * p[2] as int + 0x100_0000 * p[3] as int
                 - (if p[3] >= 0x80 then 0x1_0000_0000 else 0)
  {
    FieldDigits(p);
  }

  lemma FieldDigits(p: seq<byte>)
    requires 2 <= |p| <= 4
    ensures FromLe(p) == p[0] as int + 0x100 * p[1] as int
                         + (if |p| >= 3 then 0x1_0000 * p[2] as int else 0)
                         + (if |p| == 4 then 0x100_0000 * p[3] as int else 0)
  {
    assert FromLe(p) == p[0] as int + 256 * FromLe(p[1..]);
    assert FromLe(p[1..]) == p[1] as int + 256 * FromLe(p[2..]) by { assert p[1..][1..] == p[2..]; }
    if |p| >= 3 {
      assert FromLe(p[2..]) == p[2] as int + 256 * FromLe(p[3..]) by { assert p[2..][1..] == p[3..]; }
    }
    if |p| == 4 {
      assert FromLe(p[3..]) == p[3] as int by { assert p[3..][1..] == []; }
    }
  }

  /** The bytes of a sample: the digits of v to base 256, two's complement, low one first. */
  lemma StoreBytes(w: width, v: int)
    requires InRange(w, v)
    ensures |Store(w, v)| == w
    ensures Store(w, v)[0] as int == v % 0x100 && Store(w, v)[1] as int == (v / 0x100) % 0x100
    ensures w >= 3 ==> Store(w, v)[2] as int == (v / 0x1_0000) % 0x100
    ensures w == 4 ==> Store(w, v)[3] as int == (v / 0x100_0000) % 0x100
  {
    var p := Store(w, v);
    StoreLoad(w, v);
    LoadBytes(p);
    var sign := if p[w - 1] >= 0x80 then 0x100 else 0;
    var t3 := if w == 4 then p[3] as int - sign else 0;
    var t2 := if w == 3 then p[2] as int - sign else if w == 4 then p[2] as int + 0x100 * t3 else 0;
    var t1 := if w == 2 then p[1] as int - sign else p[1] as int + 0x100 * t2;
    Digits(v);
    Digit(v, p[0], t1);
    Digit(t1, p[1], if w == 2 then (if sign > 0 then -1 else 0) else t2);
    if w >= 3 {
      Digit(t2, p[2], if w == 3 then (if sign > 0 then -1 else 0) else t3);
    }
    if w == 4 {
      Digit(t3, p[3], if sign > 0 then -1 else 0);
    }
  }

  lemma Digit(v: int, b: int, t: int)
    requires 0 <= b < 0x100 && v == b + 0x100 * t
    ensures v % 0x100 == b && v / 0x100 == t
  {
  }

  lemma Digits(v: int)
    ensures v / 0x1_0000 == (v / 0x100) / 0x100 && v / 0x100_0000 == (v / 0x1_0000) / 0x100
  {
  }

  lemma ByteWidths()
    ensures Pow2(16) == 0x1_0000 && Pow2(24) == 0x100_0000 && Pow2(32) == 0x1_0000_0000
  {
    assert Pow2(4) == 16;
    Pow2Divides(4, 8); Pow2Divides(8, 16); Pow2Divides(8, 24); Pow2Divides(16, 32);
  }

  lemma {:induction false} FieldIsLe(p: seq<byte>)
    ensures Le(FromLe(p), |p|) == p
  {
    if p != [] {
      FieldIsLe(p[1..]);
      var rest := FromLe(p[1..]);
      assert FromLe(p) == p[0] + 256 * rest;
      assert FromLe(p) % 256 == p[0] && FromLe(p) / 256 == rest;
      assert p == [p[0]] + p[1..];
    }
  }

  lemma LoadStore(p: seq<byte>)
    requires 2 <= |p| <= 4
    ensures Store(|p|, Load(p)) == p
  {
    FieldBound(p);
    FieldIsLe(p);
    var u, n := FromLe(p), 2 * Half(|p|);
    ModUnique(Load(p), n, if u >= Half(|p|) then -1 else 0, u);
  }

  // ------------------------------------------------- the 24-bit bit operations

  function AsInt32(u: nat): int { if u >= 0x8000_0000 then u - 0x1_0000_0000 else u }

  /** Unpacking as written: or the shifted bytes together, then or in the sign bits. */
  function Unpack24(p0: byte, p1: byte, p2: byte): int {
    var v := BitOr(BitOr(p0, Shl(p1, 8)), Shl(p2, 16));
    if BitAnd(v, 0x80_0000) != 0 then AsInt32(BitOr(v, 0xFF00_0000)) else v
  }

  /** Packing as written: v & 0xFF, (v >> 8) & 0xFF, (v >> 16) & 0xFF. */
  function Pack24(v: int): seq<byte> {
    [v % 0x100, (v / 0x100) % 0x100, (v / 0x1_0000) % 0x100]
  }

  /** v << s */
  function Shl(v: nat, s: nat): nat { if s == 0 then v else 2 * Shl(v, s - 1) }

  lemma {:induction false} OrDisjoint(a: nat, b: nat, k: nat)
    requires a < Pow2(k)
    ensures BitOr(a, Shl(b, k)) == a + Shl(b, k)
  {
    if k > 0 {
      OrDisjoint(a / 2, b, k - 1);
    }
  }

  lemma {:induction false} ShlIsMul(b: nat, k: nat)
    ensures Shl(b, k) == b * Pow2(k)
  {
    if k > 0 {
      ShlIsMul(b, k - 1);
    }
  }

  lemma {:induction false} BitTest(v: nat, k: nat)
    ensures BitAnd(v, Pow2(k)) == if Shr(v, k) % 2 == 1 then Pow2(k) else 0
  {
    if k > 0 {
      BitTest(v / 2, k - 1);
    } else if v > 0 {
      assert BitAnd(v / 2, 0) == 0;
    }
  }

  lemma Unpack24Value(p0: byte, p1: byte, p2: byte)
    ensures var v := p0 + p1 * 0x100 + p2 * 0x1_0000;
      && FromLe([p0, p1, p2]) == v < 0x100_0000
      && Unpack24(p0, p1, p2) == if v >= 0x80_0000 then v - 0x100_0000 else v
  {
    var v := p0 + p1 * 0x100 + p2 * 0x1_0000;
    OrBytes(p0, p1, p2);
    SignBit(v);
    LeOf3(p0, p1, p2);
  }

  lemma OrBytes(p0: byte, p1: byte, p2: byte)
    ensures BitOr(BitOr(p0, Shl(p1, 8)), Shl(p2, 16)) == p0 + p1 * 0x100 + p2 * 0x1_0000
  {
    ByteWidths();
    assert Pow2(8) == 0x100 by { assert Pow2(4) == 16; Pow2Divides(4, 8); }
    ShlIsMul(p1, 8);
    ShlIsMul(p2, 16);
    OrDisjoint(p0, p1, 8);
    OrDisjoint(p0 + p1 * 0x100, p2, 16);
  }

  lemma SignBit(v: nat)
    requires v < 0x100_0000
    ensures BitAnd(v, 0x80_0000) == if v >= 0x80_0000 then 0x80_0000 else 0
    ensures BitOr(v, 0xFF00_0000) == v + 0xFF00_0000
  {
    ByteWidths();
    assert Pow2(23) == 0x80_0000;
    BitTest(v, 23);
    if v < 0x80_0000 { ShrZero(v, 23); } else { ShrTop(v, 23); }
    ShlIsMul(0xFF, 24);
    OrDisjoint(v, 0xFF, 24);
  }

  /** The bit operations are the plain two's complement load and store, so unpacking and
      packing are inverse to each other on all byte triples and all 24-bit samples. */
  lemma Unpack24IsLoad(p0: byte, p1: byte, p2: byte)
    ensures Unpack24(p0, p1, p2) == Load([p0, p1, p2])
    ensures Pack24(Unpack24(p0, p1, p2)) == [p0, p1, p2]
  {
    Unpack24Value(p0, p1, p2);
    var p, v := [p0, p1, p2], Unpack24(p0, p1, p2);
    Pack24IsLe(v);
    LoadStore(p);
  }

  lemma Pack24IsLe(v: int)
    requires InRange(3, v)
    ensures Pack24(v) == Store(3, v)
  {
    var q, u := v / 0x100_0000, v % 0x100_0000;
    var b0, b1, b2 := u % 256, (u / 256) % 256, u / 0x1_0000;
    BytesOf(v, q, b0, b1, b2);
    LeOf3(b0, b1, b2);
  }

  lemma BytesOf(v: int, q: int, b0: byte, b1: byte, b2: byte)
    requires v == q * 0x100_0000 + b2 * 0x1_0000 + b1 * 0x100 + b0
    ensures v % 0x100 == b0 && (v / 0x100) % 0x100 == b1 && (v / 0x1_0000) % 0x100 == b2
  {
    assert v / 0x100 == q * 0x1_0000 + b2 * 0x100 + b1;
    assert v / 0x1_0000 == q * 0x100 + b2;
  }

  lemma LeOf3(b0: byte, b1: byte, b2: byte)
    ensures var v := b0 + 0x100 * b1 + 0x1_0000 * b2;
      FromLe([b0, b1, b2]) == v && Le(v, 3) == [b0, b1, b2]
  {
    assert [b0, b1, b2][1..] == [b1, b2] && [b1, b2][1..] == [b2] && [b2][1..] == [];
    assert FromLe([b2]) == b2;
    assert FromLe([b1, b2]) == b1 + 256 * b2;
    FieldIsLe([b0, b1, b2]);
  }

  lemma Pack24IsStore(v: int)
    requires InRange(3, v)
    ensures Pack24(v) == Store(3, v)
    ensures var p := Pack24(v); Unpack24(p[0], p[1], p[2]) == v
  {
    Pack24IsLe(v);
    var p := Pack24(v);
    Unpack24IsLoad(p[0], p[1], p[2]);
    StoreLoad(3, v);
  }

  // ------------------------------------------------------- sample sequences

  lemma OneFewer(n: nat, w: width)
    requires n >= w
    ensures (n - w) / w == n / w - 1 && (n - w) % w == n % w
  {
    ModUnique(n - w, w, n / w - 1, n % w);
  }

  function Decode(w: width, b: seq<byte>): (xs: seq<int>)
    ensures AllInRange(w, xs)
  {
    if |b| < w then [] else Decode(w, b[..|b| - w]) + [Load(b[|b| - w..])]
  }

  lemma {:induction false} DecodeLength(w: width, b: seq<byte>)
    ensures |Decode(w, b)| == |b| / w
  {
    if |b| >= w {
      OneFewer(|b|, w);
      DecodeLength(w, b[..|b| - w]);
    } else {
      ModUnique(|b|, w, 0, |b|);
    }
  }

  /** Sample i is the field at byte i * w. */
  lemma {:induction false} DecodeAt(w: width, b: seq<byte>, n: nat, i: nat)
    requires |b| == n * w && i < n
    ensures |Decode(w, b)| == n && 0 <= i * w && i * w + w <= |b|
    ensures Decode(w, b)[i] == Load(b[i * w..i * w + w])
  {
    DecodeLength(w, b);
    ModUnique(|b|, w, n, 0);
    MulLe(0, i, w);
    MulAdd(i, 1, w);
    MulLe(i + 1, n, w);
    MulAdd(n - 1, 1, w);
    MulLe(0, n - 1, w);
    var init, last := b[..|b| - w], b[|b| - w..];
    DecodeLength(w, init);
    ModUnique(|init|, w, n - 1, 0);
    assert Decode(w, b) == Decode(w, init) + [Load(last)];
    if i < n - 1 {
      MulLe(i + 1, n - 1, w);
      DecodeAt(w, init, n - 1, i);
      assert init[i * w..i * w + w] == b[i * w..i * w + w];
    } else {
      assert i == n - 1 && i * w + w == |b|;
      assert b[i * w..i * w + w] == last;
    }
  }

  /** Sample i fills the bytes from i * w on. */
  lemma EncodeAt(w: width, xs: seq<int>, i: nat)
    requires AllInRange(w, xs) && i < |xs|
    ensures 0 <= i * w && i * w + w <= |Encode(w, xs)| == |xs| * w
    ensures Encode(w, xs)[i * w..i * w + w] == Store(w, xs[i])
  {
    var b := Encode(w, xs);
    EncodeLength(w, xs);
    DecodeEncode(w, xs);
    DecodeAt(w, b, |xs|, i);
    LoadStore(b[i * w..i * w + w]);
  }

  function Encode(w: width, xs: seq<int>): seq<byte>
    requires AllInRange(w, xs)
  {
    if xs == [] then [] else Encode(w, xs[..|xs| - 1]) + Store(w, xs[|xs| - 1])
  }

  lemma {:induction false} EncodeLength(w: width, xs: seq<int>)
    requires AllInRange(w, xs)
    ensures |Encode(w, xs)| == |xs| * w
  {
    if xs != [] {
      EncodeLength(w, xs[..|xs| - 1]);
      MulAdd(|xs| - 1, 1, w);
    }
  }

  lemma DecodeSnoc(w: width, b: seq<byte>, p: seq<byte>)
    requires |p| == w
    ensures Decode(w, b + p) == Decode(w, b) + [Load(p)]
  {
    assert (b + p)[..|b|] == b && (b + p)[|b|..] == p;
  }

  lemma EncodeSnoc(w: width, xs: seq<int>, v: int)
    requires AllInRange(w, xs) && InRange(w, v)
    ensures AllInRange(w, xs + [v]) && Encode(w, xs + [v]) == Encode(w, xs) + Store(w, v)
  {
    assert (xs + [v])[..|xs|] == xs;
  }

  lemma {:induction false} DecodeEncode(w: width, xs: seq<int>)
    requires AllInRange(w, xs)
    ensures Decode(w, Encode(w, xs)) == xs
  {
    if xs != [] {
      var init, last := xs[..|xs| - 1], xs[|xs| - 1];
      DecodeEncode(w, init);
      DecodeSnoc(w, Encode(w, init), Store(w, last));
      StoreLoad(w, last);
    }
  }

  lemma {:induction false} EncodeDecode(w: width, b: seq<byte>)
    requires |b| % w == 0
    ensures Encode(w, Decode(w, b)) == b
  {
    if |b| >= w {
      var init, last := b[..|b| - w], b[|b| - w..];
      OneFewer(|b|, w);
      EncodeDecode(w, init);
      EncodeDecodeOne(w, init, last);
      assert b == init + last;
    }
  }

  lemma EncodeDecodeOne(w: width, b: seq<byte>, p: seq<byte>)
    requires |p| == w && Encode(w, Decode(w, b)) == b
    ensures Encode(w, Decode(w, b + p)) == b + p
  {
    DecodeSnoc(w, b, p);
    EncodeSnoc(w, Decode(w, b), Load(p));
    LoadStore(p);
  }

  lemma {:induction false} EncodeAppend(w: width, a: seq<int>, b: seq<int>)
    requires AllInRange(w, a) && AllInRange(w, b)
    ensures AllInRange(w, a + b) && Encode(w, a + b) == Encode(w, a) + Encode(w, b)
    decreases |b|
  {
    if b == [] {
      assert a + b == a;
    } else {
      var init, last := b[..|b| - 1], b[|b| - 1];
      EncodeAppend(w, a, init);
      EncodeAppendOne(w, a, init, last);
      assert a + b == (a + init) + [last] && b == init + [last];
    }
  }

  lemma EncodeAppendOne(w: width, a: seq<int>, b: seq<int>, x: int)
    requires AllInRange(w, a + b) && AllInRange(w, a) && AllInRange(w, b) && InRange(w, x)
    requires Encode(w, a + b) == Encode(w, a) + Encode(w, b)
    ensures AllInRange(w, (a + b) + [x]) && AllInRange(w, b + [x])
    ensures Encode(w, (a + b) + [x]) == Encode(w, a) + Encode(w, b + [x])
  {
    EncodeSnoc(w, a + b, x);
    EncodeSnoc(w, b, x);
    JoinedBytes(Encode(w, a), Encode(w, b), Store(w, x));
  }

  lemma JoinedBytes(a: seq<byte>, b: seq<byte>, c: seq<byte>)
    ensures (a + b) + c == a + (b + c)
  {
  }
}
