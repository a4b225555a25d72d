/** The per-sample loops of the capture callback over raw little-endian buffers: each
    equals decode, transform, encode. */
module SampleLoops {

  import opened Bits
  import opened Bytes
  import opened Pcm
  import opened Dsp

  /** Reads one sample: unpacked from three bytes, or a typed load. */
  method LoadSample(w: width, a: array<byte>, p: nat) returns (v: int)
    requires p + w <= a.Length
    ensures v == Load(a[p..p + w])
  {
    if w == 3 {
      Unpack24IsLoad(a[p], a[p + 1], a[p + 2]);
      assert a[p..p + 3] == [a[p], a[p + 1], a[p + 2]];
      v := Unpack24(a[p], a[p + 1], a[p + 2]);
    } else {
      v := Load(a[p..p + w]);
    }
  }

  /** Writes one sample: packed into three bytes, or a typed store. */
  method StoreSample(w: width, a: array<byte>, p: nat, v: int)
    requires p + w <= a.Length && InRange(w, v)
    modifies a
    ensures a[..] == Splice(old(a[..]), p, Store(w, v))
  {
    if w == 3 {
      Pack24IsStore(v);
      var d := Pack24(v);
      a[p], a[p + 1], a[p + 2] := d[0], d[1], d[2];
      assert a[..] == Splice(old(a[..]), p, d);
    } else {
      var d := Store(w, v);
      forall i | 0 <= i < w { a[p + i] := d[i]; }
    }
  }

  /** What a buffer is after its first samples were rewritten as ys. */
  ghost predicate Rewritten(w: width, now: seq<byte>, before: seq<byte>, p: nat, ys: seq<int>) {
    && AllInRange(w, ys) && |now| == |before| && p <= |now| && p == |ys| * w
    && now[..p] == Encode(w, ys) && now[p..] == before[p..]
  }

  lemma RewriteNext(w: width, now: seq<byte>, before: seq<byte>, p: nat, ys: seq<int>, y: int)
    requires Rewritten(w, now, before, p, ys) && InRange(w, y) && p + w <= |now|
    ensures Rewritten(w, Splice(now, p, Store(w, y)), before, p + w, ys + [y])
  {
    EncodeSnoc(w, ys, y);
    MulAdd(|ys|, 1, w);
    var next := Splice(now, p, Store(w, y));
    assert next[..p + w] == now[..p] + Store(w, y);
    assert next[p + w..] == now[p..][w..] && before[p + w..] == before[p..][w..];
  }

  /** The first n samples of a buffer. */
  function Samples(w: width, b: seq<byte>, n: nat): (xs: seq<int>)
    requires 0 <= n * w <= |b|
    ensures |xs| == n && AllInRange(w, xs)
  {
    ModUnique(n * w, w, n, 0);
    DecodeLength(w, b[..n * w]);
    Decode(w, b[..n * w])
  }

  lemma SamplesNext(w: width, b: seq<byte>, i: nat)
    requires 0 <= (i + 1) * w <= |b|
    ensures 0 <= i * w && i * w + w == (i + 1) * w
    ensures Samples(w, b, i + 1) == Samples(w, b, i) + [Load(b[i * w..i * w + w])]
  {
    MulLe(0, i, w);
    MulAdd(i, 1, w);
    DecodeSnoc(w, b[..i * w], b[i * w..i * w + w]);
    assert b[..i * w + w] == b[..i * w] + b[i * w..i * w + w];
  }

  lemma {:induction false} SampleAt(w: width, b: seq<byte>, n: nat, i: nat)
    requires i < n && 0 <= n * w <= |b|
    ensures 0 <= i * w && i * w + w <= |b|
    ensures Samples(w, b, n)[i] == Load(b[i * w..i * w + w])
  {
    MulLe(0, i, w);
    MulLe(i + 1, n, w);
    MulLe(0, n - 1, w);
    MulLe(n - 1, n, w);
    SamplesNext(w, b, n - 1);
    if i < n - 1 {
      SampleAt(w, b, n - 1, i);
    }
  }

  lemma SamplesPrefix(w: width, b: seq<byte>, n: nat, m: nat)
    requires m <= n && 0 <= n * w <= |b|
    ensures 0 <= m * w <= |b| && Samples(w, b, m) == Samples(w, b, n)[..m]
  {
    MulLe(0, m, w);
    MulLe(m, n, w);
    forall i | 0 <= i < m ensures Samples(w, b, m)[i] == Samples(w, b, n)[i] {
      SampleAt(w, b, m, i);
      SampleAt(w, b, n, i);
    }
  }

  method ApplyGain(w: width, src: array<byte>, dst: array<byte>, count: nat, gain: real)
    requires 0 <= count * w <= src.Length && count * w <= dst.Length && src != dst
    modifies dst
    ensures Rewritten(w, dst[..], old(dst[..]), count * w, Amplify(w, gain, Samples(w, src[..], count)))
  {
    var p: nat := 0;
    ghost var b, d := src[..], dst[..];
    for i := 0 to count
      invariant Amplified(w, gain, b, d, i, p, dst[..])
    {
      AmplifyNext(w, gain, b, d, i, p, dst[..], count);
      GainSample(w, src, dst, p, gain);
      p := p + w;
    }
  }

  method GainSample(w: width, src: array<byte>, dst: array<byte>, p: nat, gain: real)
    requires p + w <= src.Length && p + w <= dst.Length && src != dst
    modifies dst
    ensures dst[..] == Splice(old(dst[..]), p, Store(w, Scale(w, gain, Load(src[..][p..p + w]))))
  {
    var v := LoadSample(w, src, p);
    assert src[p..p + w] == src[..][p..p + w];
    StoreSample(w, dst, p, Scale(w, gain, v));
  }

  ghost predicate Amplified(w: width, gain: real, b: seq<byte>, d: seq<byte>, i: nat, p: nat, now: seq<byte>) {
    0 <= i * w <= |b| && p == i * w && Rewritten(w, now, d, p, Amplify(w, gain, Samples(w, b, i)))
  }

  lemma AmplifyNext(w: width, gain: real, b: seq<byte>, d: seq<byte>, i: nat, p: nat, now: seq<byte>, count: nat)
    requires Amplified(w, gain, b, d, i, p, now) && i < count && count * w <= |b| && count * w <= |d|
    ensures p + w <= |b| && p + w <= |d|
    ensures Amplified(w, gain, b, d, i + 1, p + w,
                      Splice(now, p, Store(w, Scale(w, gain, Load(b[p..p + w])))))
  {
    MulLe(i + 1, count, w);
    SamplesNext(w, b, i);
    var v := Load(b[p..p + w]);
    var ys := Amplify(w, gain, Samples(w, b, i));
    RewriteNext(w, now, d, p, ys, Scale(w, gain, v));
    assert Amplify(w, gain, Samples(w, b, i + 1)) == ys + [Scale(w, gain, v)];
  }

  /** Keeps every other sample. */
  method ApplyDownmix(w: width, src: array<byte>, dst: array<byte>, frames: nat)
    requires 0 <= (2 * frames) * w <= src.Length && 0 <= frames * w <= dst.Length && src != dst
    modifies dst
    ensures Rewritten(w, dst[..], old(dst[..]), frames * w, Downmix(Samples(w, src[..], 2 * frames), frames))
  {
    var p: nat, q: nat := 0, 0;
    ghost var b, d := src[..], dst[..];
    for f := 0 to frames
      invariant Deinterleaved(w, b, d, frames, f, p, q, dst[..])
    {
      DeinterleaveNext(w, b, d, frames, f, p, q, dst[..]);
      CopyBytes(dst, p, src, q, w);
      assert src[q..q + w] == b[q..q + w];
      p, q := p + w, q + 2 * w;
    }
  }

  ghost predicate Deinterleaved(w: width, b: seq<byte>, d: seq<byte>, frames: nat, f: nat, p: nat, q: nat, now: seq<byte>) {
    && f <= frames && 0 <= (2 * frames) * w <= |b| && p == f * w && q == (2 * f) * w
    && Rewritten(w, now, d, p, Downmix(Samples(w, b, 2 * frames), f))
  }

  lemma DeinterleaveNext(w: width, b: seq<byte>, d: seq<byte>, frames: nat, f: nat, p: nat, q: nat, now: seq<byte>)
    requires Deinterleaved(w, b, d, frames, f, p, q, now) && f < frames && frames * w <= |d|
    ensures p + w <= |d| && q + w <= |b|
    ensures Deinterleaved(w, b, d, frames, f + 1, p + w, q + 2 * w, Splice(now, p, b[q..q + w]))
  {
    MulAdd(f, 1, w);
    MulAdd(2 * f, 2, w);
    MulLe(f + 1, frames, w);
    SampleAt(w, b, 2 * frames, 2 * f);
    var xs := Samples(w, b, 2 * frames);
    RewriteNext(w, now, d, p, Downmix(xs, f), xs[2 * f]);
    LoadStore(b[q..q + w]);
    assert Downmix(xs, f + 1) == Downmix(xs, f) + [xs[2 * f]];
  }

  /** One sample of the filter, in place: the arithmetic in the order it is written. */
  method DcSample(w: width, data: array<byte>, p: nat, s: Dc) returns (next: Dc)
    requires p + w <= data.Length
    modifies data
    ensures next == DcFilter(s, Load(old(data[p..p + w])))
    ensures data[..] == Splice(old(data[..]), p, Store(w, Quantise(w, next.y)))
  {
    var x := LoadSample(w, data, p);
    var y := x as real - s.x + ALPHA * s.y;
    next := Dc(x as real, y);
    StoreSample(w, data, p, ClampTo(w, Trunc(y)));
  }

  /** The in-place filter over whole interleaved frames. */
  method ApplyDcRemove(w: width, data: array<byte>, frames: nat, channels: pos, st: seq<Dc>) returns (st': seq<Dc>)
    requires |st| == channels && 0 <= (frames * channels) * w <= data.Length
    modifies data
    ensures var (s2, ys) := DcProcess(w, st, Samples(w, old(data[..]), frames * channels));
      && st' == s2 && Rewritten(w, data[..], old(data[..]), (frames * channels) * w, ys)
  {
    ghost var b := data[..];
    st' := st;
    ghost var ys: seq<int> := [];
    var p: nat, i: nat := 0, 0;     // i == f * channels + ch
    for f := 0 to frames
      invariant i == f * channels
      invariant Processed(w, st, b, i, p, st', ys, data[..])
    {
      for ch := 0 to channels
        invariant i == f * channels + ch
        invariant Processed(w, st, b, i, p, st', ys, data[..])
      {
        IndexInFrame(f, ch, frames, channels);
        ProcessNext(w, st, b, i, p, st', ys, data[..], ch, frames * channels);
        var next := DcSample(w, data, p, st'[ch]);
        st' := st'[ch := next];
        ys := ys + [Quantise(w, next.y)];
        i, p := i + 1, p + w;
      }
      MulAdd(f, 1, channels);
    }
  }

  ghost predicate Processed(w: width, st: seq<Dc>, b: seq<byte>, i: nat, p: nat, st': seq<Dc>, ys: seq<int>, now: seq<byte>)
    requires |st| > 0
  {
    && 0 <= i * w <= |b| && p == i * w && DcProcess(w, st, Samples(w, b, i)) == (st', ys)
    && Rewritten(w, now, b, p, ys)
  }

  lemma ProcessNext(w: width, st: seq<Dc>, b: seq<byte>, i: nat, p: nat, st': seq<Dc>, ys: seq<int>, now: seq<byte>,
                    ch: nat, count: nat)
    requires |st| > 0 && Processed(w, st, b, i, p, st', ys, now)
    requires i < count && count * w <= |b| && ch < |st| && i % |st| == ch
    ensures |st'| == |st| && p + w <= |b| && now[p..p + w] == b[p..p + w]
    ensures var next := DcFilter(st'[ch], Load(b[p..p + w]));
      var y := Quantise(w, next.y);
      Processed(w, st, b, i + 1, p + w, st'[ch := next], ys + [y], Splice(now, p, Store(w, y)))
  {
    MulLe(i + 1, count, w);
    SamplesNext(w, b, i);
    var x := Load(b[p..p + w]);
    DcSnoc(w, st, Samples(w, b, i), x);
    var next := DcFilter(st'[ch], x);
    RewriteNext(w, now, b, p, ys, Quantise(w, next.y));
    assert now[p..p + w] == now[p..][..w] && b[p..p + w] == b[p..][..w];
  }

  lemma IndexInFrame(f: nat, ch: nat, frames: nat, channels: pos)
    requires f < frames && ch < channels
    ensures 0 <= f * channels && f * channels + ch < frames * channels
    ensures (f * channels + ch) % channels == ch
  {
    MulLe(0, f, channels);
    MulAdd(f, 1, channels);
    MulLe(f + 1, frames, channels);
    ModUnique(f * channels + ch, channels, f, ch);
  }
}
