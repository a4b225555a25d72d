/** Byte buffers: block copies, little-endian fields, and the correspondence between a
    circular buffer and the unbounded stream it carries. */
module Bytes {

  import opened Bits

  type byte = x: int | 0 <= x < 256

  /** memcpy / memmove. */
  method CopyBytes(dst: array<byte>, d: nat, src: array<byte>, s: nat, n: nat)
    requires d + n <= dst.Length && s + n <= src.Length
    modifies dst
    ensures dst[..] == Splice(old(dst[..]), d, old(src[s..s + n]))
  {
    forall i | 0 <= i < n {
      dst[d + i] := src[s + i];
    }
  }

  /** a with the cells from d on overwritten by b. */
  function Splice<T>(a: seq<T>, d: nat, b: seq<T>): seq<T>
    requires d + |b| <= |a|
  {
    a[..d] + b + a[d + |b|..]
  }

  function Flatten<T>(parts: seq<seq<T>>): seq<T> {
    if parts == [] then [] else Flatten(parts[..|parts| - 1]) + parts[|parts| - 1]
  }

  lemma FlattenSnoc<T>(parts: seq<seq<T>>, x: seq<T>)
    ensures Flatten(parts + [x]) == Flatten(parts) + x
  {
    assert (parts + [x])[..|parts|] == parts;
  }

  ghost predicate Uniform<T>(parts: seq<seq<T>>, n: nat) {
    forall i :: 0 <= i < |parts| ==> |parts[i]| == n
  }

  lemma {:induction false} FlattenLength<T>(parts: seq<seq<T>>, n: nat)
    requires Uniform(parts, n)
    ensures |Flatten(parts)| == Times(|parts|, n)
  {
    if parts != [] {
      FlattenLength(parts[..|parts| - 1], n);
    }
  }

  lemma {:induction false} FlattenSlice<T>(parts: seq<seq<T>>, n: nat, i: nat)
    requires Uniform(parts, n) && i < |parts|
    ensures Times(i, n) + n <= |Flatten(parts)|
    ensures parts[i] == Flatten(parts)[Times(i, n)..Times(i, n) + n]
  {
    var k := |parts| - 1;
    var init := parts[..k];
    FlattenLength(init, n);
    if i < k {
      FlattenSlice(init, n, i);
      assert Flatten(parts)[..|Flatten(init)|] == Flatten(init);
    }
  }

  /** Pieces of equal length are consecutive slices of what they add up to. */
  lemma FlattenUniform<T>(parts: seq<seq<T>>, n: nat, i: nat)
    requires Uniform(parts, n) && i < |parts|
    ensures |Flatten(parts)| == |parts| * n && (i + 1) * n <= |parts| * n && i * n <= (i + 1) * n
    ensures parts[i] == Flatten(parts)[i * n..(i + 1) * n]
  {
    FlattenSlice(parts, n, i);
    FlattenUniformLength(parts, n);
    TimesIs(i, n);
    TimesIs(i + 1, n);
  }

  lemma FlattenUniformLength<T>(parts: seq<seq<T>>, n: nat)
    requires Uniform(parts, n)
    ensures |Flatten(parts)| == |parts| * n
  {
    FlattenLength(parts, n);
    TimesIs(|parts|, n);
  }

  // ------------------------------------------------------ little-endian fields

  function Le(v: nat, n: nat): (s: seq<byte>)
    ensures |s| == n
  {
    if n == 0 then [] else [v % 256] + Le(v / 256, n - 1)
  }

  function FromLe(s: seq<byte>): nat {
    if s == [] then 0 else s[0] + 256 * FromLe(s[1..])
  }

  lemma {:induction false} LeRoundTrip(v: nat, n: nat)
    requires v < Pow2(8 * n)
    ensures FromLe(Le(v, n)) == v
  {
    if n > 0 {
      assert Pow2(8 * n) == 256 * Pow2(8 * n - 8) by {
        assert Pow2(8) == 256 by { assert Pow2(4) == 16; Pow2Divides(4, 8); }
        Pow2Divides(8 * n - 8, 8 * n);
      }
      LeRoundTrip(v / 256, n - 1);
    }
  }

  /** Byte k of a field, low byte first. */
  lemma {:induction false} LeAt(v: nat, n: nat, k: nat)
    requires k < n
    ensures Le(v, n)[k] as int == (v / Pow2(8 * k)) % 256
  {
    if k == 0 {
      assert v / Pow2(0) == v;
    } else {
      LeAt(v / 256, n - 1, k - 1);
      ByteShift(v, k);
    }
  }

  lemma ByteShift(v: nat, k: pos)
    ensures (v / 256) / Pow2(8 * k - 8) == v / Pow2(8 * k)
  {
    assert Pow2(8) == 256 by { assert Pow2(4) == 16; Pow2Divides(4, 8); }
    Pow2Divides(8, 8 * k);
    DivTwice(v, 256, Pow2(8 * k - 8), Pow2(8 * k));
  }

  lemma DivTwice(v: nat, a: pos, b: pos, ab: pos)
    requires ab == b * a
    ensures (v / a) / b == v / ab
  {
    var q, r := v / a, v % a;
    var q', r' := q / b, q % b;
    assert v == q * a + r && q == q' * b + r';
    MulAdd(q' * b, r', a);
    MulAssoc(q', b, a);
    MulLe(r' + 1, b, a);
    MulAdd(r', 1, a);
    MulLe(0, r', a);
    ModUnique(v, ab, q', r' * a + r);
  }

  // ------------------------------------------------------ rings and streams

  lemma ModSlide(p: nat, i: nat, n: nat)
    requires 0 < n && i < n
    ensures (p + i) % n == if p % n + i < n then p % n + i else p % n + i - n
  {
    var q := p / n;
    assert p == q * n + p % n;
    if p % n + i < n {
      ModUnique(p + i, n, q, p % n + i);
    } else {
      assert (q + 1) * n == q * n + n;
      ModUnique(p + i, n, q + 1, p % n + i - n);
    }
  }

  /** Positions closer than the ring length never share a cell. */
  lemma CellsDistinct(p: nat, q: nat, n: nat)
    requires p < q < p + n
    ensures p % n != q % n
  {
    ModSlide(p, q - p, n);
  }

  /** The ring cells of positions lo..hi hold the stream's bytes at those positions. */
  ghost predicate Mirrors<T>(ring: seq<T>, stream: seq<T>, lo: nat, hi: nat)
    requires |ring| > 0
  {
    && lo <= hi <= |stream|
    && forall p :: lo <= p < hi ==> ring[p % |ring|] == stream[p]
  }

  /** p % n by repeated subtraction. */
  function Slot(p: nat, n: pos): (r: nat)
    ensures r < n
  {
    if p < n then p else Slot(p - n, n)
  }

  lemma {:induction false} SlotIs(p: nat, n: pos)
    ensures Slot(p, n) == p % n
  {
    if p >= n {
      SlotIs(p - n, n);
      ModUnique(p, n, (p - n) / n + 1, (p - n) % n);
    } else {
      ModUnique(p, n, 0, p);
    }
  }

  /** Mirrors one position at a time, for invariants that mostly pass it on. */
  ghost predicate Tracks<T>(ring: seq<T>, stream: seq<T>, lo: nat, hi: nat)
    requires |ring| > 0
    decreases hi - lo
  {
    && lo <= hi <= |stream|
    && (lo < hi ==> ring[Slot(lo, |ring|)] == stream[lo] && Tracks(ring, stream, lo + 1, hi))
  }

  lemma {:induction false} TracksIs<T>(ring: seq<T>, stream: seq<T>, lo: nat, hi: nat)
    requires |ring| > 0
    ensures Tracks(ring, stream, lo, hi) <==> Mirrors(ring, stream, lo, hi)
    decreases hi - lo
  {
    if lo < hi <= |stream| {
      TracksIs(ring, stream, lo + 1, hi);
      SlotIs(lo, |ring|);
      TracksSplit(ring, stream, lo, hi);
    }
  }

  lemma TracksSplit<T>(ring: seq<T>, stream: seq<T>, lo: nat, hi: nat)
    requires |ring| > 0 && lo < hi <= |stream|
    ensures Mirrors(ring, stream, lo, hi) <==> ring[lo % |ring|] == stream[lo] && Mirrors(ring, stream, lo + 1, hi)
  {
    if ring[lo % |ring|] == stream[lo] && Mirrors(ring, stream, lo + 1, hi) {
      forall p | lo <= p < hi ensures ring[p % |ring|] == stream[p] {}
    }
  }

  /** The n cells from a cursor on. */
  function ReadRing(ring: seq<byte>, from: nat, n: nat): (r: seq<byte>)
    requires |ring| > 0
    ensures |r| == n
  {
    seq(n, i requires 0 <= i < n => ring[(from + i) % |ring|])
  }

  lemma RunCell(p: nat, hi: nat, k: nat, n: nat)
    requires n > 0 && hi % n + k <= n && hi <= p < hi + k
    ensures p % n == hi % n + (p - hi)
  {
    ModSlide(hi, p - hi, n);
  }

  lemma KeptCell(p: nat, hi: nat, k: nat, n: nat)
    requires n > 0 && hi % n + k <= n && hi + k - n <= p < hi
    ensures p % n < hi % n || hi % n + k <= p % n < n
  {
    if hi - p < n {
      ModSlide(p, hi - p, n);
    }
  }

  /** Appending a run that does not wrap keeps all but what it overwrites. */
  lemma MirrorsSplice<T>(ring: seq<T>, stream: seq<T>, lo: nat, data: seq<T>, lo': nat)
    requires |ring| > 0 && Mirrors(ring, stream, lo, |stream|)
    requires |stream| % |ring| + |data| <= |ring|
    requires lo <= lo' <= |stream| + |data| <= lo' + |ring|
    ensures Mirrors(Splice(ring, |stream| % |ring|, data), stream + data, lo', |stream| + |data|)
  {
    var n, pos, hi, k := |ring|, |stream| % |ring|, |stream|, |data|;
    var ring' := Splice(ring, pos, data);
    forall p | lo' <= p < hi + k ensures ring'[p % n] == (stream + data)[p] {
      var c := p % n;
      if p >= hi {
        RunCell(p, hi, k, n);
        assert ring'[c] == data[c - pos];
      } else {
        KeptCell(p, hi, k, n);
        assert ring'[c] == ring[c];
      }
    }
  }

  /** A read that does not wrap returns the stream. */
  lemma MirrorsRead<T>(ring: seq<T>, stream: seq<T>, lo: nat, hi: nat, p: nat, n: nat)
    requires |ring| > 0 && Mirrors(ring, stream, lo, hi)
    requires lo <= p && p + n <= hi && p % |ring| + n <= |ring|
    ensures ring[p % |ring|..p % |ring| + n] == stream[p..p + n]
  {
    var c := p % |ring|;
    var a, b := ring[c..c + n], stream[p..p + n];
    forall i | 0 <= i < n ensures a[i] == b[i] {
      RunCell(p + i, p, n, |ring|);
      var q, cell := p + i, (p + i) % |ring|;
      assert ring[cell] == stream[q];
      assert a[i] == ring[c + i] && b[i] == stream[q];
    }
  }

  /** Scaling a position and a ring by the frame size scales the cell. */
  lemma ScaledCell(f: nat, cap: nat, b: nat)
    requires cap > 0 && b > 0
    ensures cap * b > 0 && (f * b) % (cap * b) == (f % cap) * b
  {
    var q, r := f / cap, f % cap;
    assert f == q * cap + r;
    assert f * b == q * (cap * b) + r * b by {
      assert (q * cap + r) * b == (q * cap) * b + r * b;
      assert (q * cap) * b == q * (cap * b);
    }
    assert r * b < cap * b by {
      assert (cap - r) * b == cap * b - r * b;
      MulAtLeast(cap - r, b);
    }
    ModUnique(f * b, cap * b, q, r * b);
  }
}
