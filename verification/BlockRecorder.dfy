/** The block recorder's own code: one thread at a time over its arrays. Interleavings of the
    two threads are the subject of RecorderProtocol. */
module Recorder {

  import opened Bits
  import opened Bytes
  import opened Pcm
  import opened RecorderProtocol
  import SampleLoops
  import Proofs = RecorderProofs
  import Results = RecorderResults

  // ------------------------------------------------------- ring copies that wrap

  /** Both memcpy calls of a push. */
  function PutRing(ring: seq<byte>, pos: nat, data: seq<byte>): seq<byte>
    requires pos <= |ring| && |data| <= |ring|
  {
    var first := Min(|data|, |ring| - pos);
    Splice(Splice(ring, pos, data[..first]), 0, data[first..])
  }

  lemma PutTracks(ring: seq<byte>, stream: seq<byte>, lo: nat, data: seq<byte>, pos: nat)
    requires |ring| > 0 && Tracks(ring, stream, lo, |stream|) && |stream| + |data| <= lo + |ring|
    requires pos == Slot(|stream|, |ring|)
    ensures Tracks(PutRing(ring, pos, data), stream + data, lo, |stream + data|)
  {
    SlotIs(|stream|, |ring|);
    TracksIs(ring, stream, lo, |stream|);
    var ring', stream' := PutMirrors(ring, stream, lo, data, pos);
    TracksIs(ring', stream', lo, |stream'|);
  }

  lemma PutMirrors(ring: seq<byte>, stream: seq<byte>, lo: nat, data: seq<byte>, pos: nat)
    returns (ring': seq<byte>, stream': seq<byte>)
    requires |ring| > 0 && Mirrors(ring, stream, lo, |stream|) && |stream| + |data| <= lo + |ring|
    requires pos == |stream| % |ring|
    ensures |data| <= |ring| && ring' == PutRing(ring, pos, data) && |ring'| == |ring| && stream' == stream + data
    ensures Mirrors(ring', stream', lo, |stream'|)
  {
    var first := Min(|data|, |ring| - pos);
    var a, b := data[..first], data[first..];
    MirrorsSplice(ring, stream, lo, a, lo);
    var once := Splice(ring, pos, a);
    ring', stream' := PutRing(ring, pos, data), stream + data;
    assert (stream + a) + b == stream + data;
    if b == [] {
      assert Splice(once, 0, b) == once;
    } else {
      ModSlide(|stream|, first, |ring|);
      assert |stream + a| % |ring| == 0;
      MirrorsSplice(once, stream + a, lo, b, lo);
    }
  }

  /** The two memcpy calls of a drain return the stream. */
  lemma GetTracks(ring: seq<byte>, stream: seq<byte>, lo: nat, n: nat, pos: nat)
    requires |ring| > 0 && Tracks(ring, stream, lo, |stream|) && lo + n <= |stream| && n <= |ring|
    requires pos == Slot(lo, |ring|)
    ensures var first := Min(n, |ring| - pos);
      ring[pos..pos + first] + ring[..n - first] == stream[lo..lo + n]
  {
    TracksIs(ring, stream, lo, |stream|);
    SlotIs(lo, |ring|);
    GetMirrors(ring, stream, lo, n, pos, Min(n, |ring| - pos));
  }

  lemma GetMirrors(ring: seq<byte>, stream: seq<byte>, lo: nat, n: nat, pos: nat, first: nat)
    requires |ring| > 0 && Mirrors(ring, stream, lo, |stream|) && lo + n <= |stream| && n <= |ring|
    requires pos == lo % |ring| && first == Min(n, |ring| - pos)
    ensures ring[pos..pos + first] + ring[..n - first] == stream[lo..lo + n]
  {
    MirrorsRead(ring, stream, lo, |stream|, lo, first);
    assert stream[lo..lo + n] == stream[lo..lo + first] + stream[lo + first..lo + n];
    if first < n {
      ModSlide(lo, first, |ring|);
      MirrorsRead(ring, stream, lo, |stream|, lo + first, n - first);
      assert ring[0..n - first] == ring[..n - first];
    }
  }

  method CopyToRing(ring: array<byte>, pos: nat, data: array<byte>, bytes: nat)
    requires ring != data && pos < ring.Length && bytes <= ring.Length && bytes <= data.Length
    modifies ring
    ensures ring[..] == PutRing(old(ring[..]), pos, data[..bytes])
  {
    var first := Min(bytes, ring.Length - pos);
    ghost var period := data[..bytes];
    CopyBytes(ring, pos, data, 0, first);
    assert data[0..first] == period[..first];
    if first < bytes {
      CopyBytes(ring, 0, data, first, bytes - first);
      assert data[first..bytes] == period[first..];
    } else {
      assert period[first..] == [] && Splice(ring[..], 0, []) == ring[..];
    }
  }

  method CopyFromRing(ring: array<byte>, pos: nat, out: array<byte>, at: nat, chunk: nat)
    requires ring != out && pos < ring.Length && chunk <= ring.Length && at + chunk <= out.Length
    modifies out
    ensures var first := Min(chunk, ring.Length - pos);
      out[..at + chunk] == old(out[..at]) + (ring[..][pos..pos + first] + ring[..][..chunk - first])
  {
    var first := Min(chunk, ring.Length - pos);
    CopyBytes(out, at, ring, pos, first);
    if first < chunk {
      CopyBytes(out, at + first, ring, 0, chunk - first);
    }
    assert ring[pos..pos + first] == ring[..][pos..pos + first];
    assert ring[0..chunk - first] == ring[..][..chunk - first];
  }

  /** How many whole frames are buffered. */
  method FramesIn(used: nat, bpf: pos) returns (frameBytes: nat, frames: nat)
    ensures frameBytes == Times(frames, bpf) && frameBytes <= used < frameBytes + bpf
  {
    ModUnique(used - used % bpf, bpf, used / bpf, 0);
    MulLe(0, used / bpf, bpf);
    frameBytes := used - used % bpf;
    frames := frameBytes / bpf;
    TimesIs(frames, bpf);
  }

  // ------------------------------------------------------------ samples in files

  /** The integer handed to libsndfile for a sample: 24-bit ones are left-justified. */
  function FileSample(w: width, v: int): int { if w == 3 then v * 256 else v }

  function FileSamples(w: width, bytes: seq<byte>): seq<int> {
    if |bytes| < w then []
    else FileSamples(w, bytes[..|bytes| - w]) + [FileSample(w, Pcm.Load(bytes[|bytes| - w..]))]
  }

  /** They are the decoded samples, one by one. */
  lemma {:induction false} FileSamplesAre(w: width, bytes: seq<byte>)
    ensures |FileSamples(w, bytes)| == |Decode(w, bytes)| == |bytes| / w
    ensures forall i :: 0 <= i < |bytes| / w ==> FileSamples(w, bytes)[i] == FileSample(w, Decode(w, bytes)[i])
  {
    if |bytes| >= w {
      OneFewer(|bytes|, w);
      FileSamplesAre(w, bytes[..|bytes| - w]);
      DecodeLength(w, bytes[..|bytes| - w]);
    } else {
      ModUnique(|bytes|, w, 0, |bytes|);
    }
  }

  lemma FileSamplesSnoc(w: width, bytes: seq<byte>, p: seq<byte>)
    requires |p| == w
    ensures FileSamples(w, bytes + p) == FileSamples(w, bytes) + [FileSample(w, Pcm.Load(p))]
  {
    assert (bytes + p)[..|bytes|] == bytes && (bytes + p)[|bytes|..] == p;
  }

  /** n samples of bytes give n file samples. */
  lemma {:induction false} FileSamplesCount(w: width, bytes: seq<byte>, n: nat)
    requires |bytes| == Times(n, w)
    ensures |FileSamples(w, bytes)| == n
  {
    if n > 0 {
      FileSamplesCount(w, bytes[..|bytes| - w], n - 1);
    }
  }

  lemma {:induction false} FileSamplesAppend(w: width, a: seq<byte>, b: seq<byte>, n: nat)
    requires |b| == Times(n, w)
    ensures FileSamples(w, a + b) == FileSamples(w, a) + FileSamples(w, b)
  {
    if n == 0 {
      assert a + b == a;
    } else {
      var init, last := b[..|b| - w], b[|b| - w..];
      FileSamplesAppend(w, a, init, n - 1);
      FileSamplesSnoc(w, a + init, last);
      assert a + b == (a + init) + last;
    }
  }

  /** File sample i in terms of its bytes: the signed value, and for three bytes the signed
      value of four of which the low one is 0. */
  lemma FileSampleAt(w: width, b: seq<byte>, n: nat, i: nat)
    requires |b| == n * w && i < n
    ensures |FileSamples(w, b)| == n && 0 <= i * w && i * w + w <= |b|
    ensures var x, at := FileSamples(w, b)[i], i * w;
      && (w == 2 ==> x == b[at] as int + 0x100 * b[at + 1] as int - (if b[at + 1] >= 0x80 then 0x1_0000 else 0))
      && (w == 3 ==> x == 0x100 * b[at] as int + 0x1_0000 * b[at + 1] as int + 0x100_0000 * b[at + 2] as int
                          - (if b[at + 2] >= 0x80 then 0x1_0000_0000 else 0))
      && (w == 4 ==> x == b[at] as int + 0x100 * b[at + 1] as int + 0x1_0000 * b[at + 2] as int
                          + 0x100_0000 * b[at + 3] as int - (if b[at + 3] >= 0x80 then 0x1_0000_0000 else 0))
  {
    FileSampleLoad(w, b, n, i);
    Pcm.LoadBytes(b[i * w..i * w + w]);
  }

  /** No two sample values go to the file as the same integer, so the file determines the
      bytes. */
  lemma FilesDetermineBytes(w: width, a: seq<byte>, b: seq<byte>)
    requires |a| % w == 0 && |b| % w == 0 && FileSamples(w, a) == FileSamples(w, b)
    ensures a == b
  {
    var x, y := Decode(w, a), Decode(w, b);
    FileSamplesAre(w, a);
    FileSamplesAre(w, b);
    forall i | 0 <= i < |x| ensures x[i] == y[i] {
      assert FileSamples(w, a)[i] == FileSamples(w, b)[i];
    }
    assert x == y;
    EncodeDecode(w, a);
    EncodeDecode(w, b);
  }

  /** The 24-bit unpacking loop. */
  method UnpackTriples(buffer: array<byte>, off: nat, count: nat) returns (xs: seq<int>)
    requires off + count * 3 <= buffer.Length
    ensures xs == FileSamples(3, buffer[off..off + count * 3])
  {
    xs := [];
    ghost var b := buffer[off..off + count * 3];
    for s := 0 to count
      invariant |xs| == s && forall k :: 0 <= k < s ==> IsFileSample(3, b, k, xs[k])
    {
      var v := UnpackTriple(buffer, off + s * 3);
      assert b[s * 3..s * 3 + 3] == buffer[off + s * 3..off + s * 3 + 3];
      xs := xs + [v];
    }
    OneByOne(3, b, count, xs);
  }

  /** x is the file sample of the field at byte k * w. */
  ghost predicate IsFileSample(w: width, b: seq<byte>, k: nat, x: int) {
    0 <= k * w && k * w + w <= |b| && x == FileSample(w, Pcm.Load(b[k * w..k * w + w]))
  }

  method UnpackTriple(buffer: array<byte>, at: nat) returns (x: int)
    requires at + 3 <= buffer.Length
    ensures x == Pcm.Load(buffer[at..at + 3]) * 256
  {
    var v := SampleLoops.LoadSample(3, buffer, at);
    x := v * 256;
  }

  lemma OneByOne(w: width, b: seq<byte>, n: nat, xs: seq<int>)
    requires |b| == n * w && |xs| == n && forall k :: 0 <= k < n ==> IsFileSample(w, b, k, xs[k])
    ensures xs == FileSamples(w, b)
  {
    FileSamplesAre(w, b);
    ModUnique(|b|, w, n, 0);
    var ys := FileSamples(w, b);
    forall k | 0 <= k < n ensures xs[k] == ys[k] {
      assert IsFileSample(w, b, k, xs[k]);
      FileSampleLoad(w, b, n, k);
    }
  }

  lemma FileSampleLoad(w: width, b: seq<byte>, n: nat, i: nat)
    requires |b| == n * w && i < n
    ensures |FileSamples(w, b)| == n && 0 <= i * w && i * w + w <= |b|
    ensures FileSamples(w, b)[i] == FileSample(w, Pcm.Load(b[i * w..i * w + w]))
  {
    FileSamplesAre(w, b);
    Pcm.DecodeAt(w, b, n, i);
  }

  /** The samples of one batch of n bytes: unpacked for 24-bit samples, a reinterpreted
      pointer otherwise. */
  method Unpack(w: width, buffer: array<byte>, off: nat, count: nat, n: nat) returns (xs: seq<int>)
    requires n == count * w && off + n <= buffer.Length
    ensures xs == FileSamples(w, buffer[off..off + n])
  {
    if w == 3 {
      xs := UnpackTriples(buffer, off, count);
    } else {
      xs := Decode(w, buffer[off..off + n]);
      Unshifted(w, buffer[off..off + n]);
    }
  }

  lemma Unshifted(w: width, bytes: seq<byte>)
    requires w != 3
    ensures Decode(w, bytes) == FileSamples(w, bytes)
  {
    FileSamplesAre(w, bytes);
  }

  // ------------------------------------------------------------------ recorder

  ghost predicate InFiles(w: width, stream: seq<byte>, filed: nat, closed: seq<seq<int>>, open: seq<int>) {
    filed <= |stream| && Flatten(closed) + open == FileSamples(w, stream[..filed])
  }

  ghost predicate Counted(cfg: Config, total: nat, filed: nat, blocks: nat, inOpen: nat) {
    filed == Times(total, cfg.bpf) && Times(blocks, cfg.blockFrames) + inOpen <= total
  }

  ghost predicate FileSizes(cfg: Config, channels: pos, full: nat,
                            closed: seq<seq<int>>, open: Option<seq<int>>, inBlock: nat) {
    && (open.Some? ==> 0 < inBlock <= cfg.blockFrames && |open.value| == Times(inBlock, channels))
    && (forall i :: 0 <= i < |closed| ==> 0 < |closed[i]| <= full)
  }

  /** From one pair of file list and counter to a later one, only full blocks were closed,
      and each was counted. */
  ghost predicate Rotated(full: nat, closed0: seq<seq<int>>, blocks0: nat, closed: seq<seq<int>>, blocks: nat) {
    && closed0 <= closed && |closed| - |closed0| == blocks - blocks0
    && forall i :: |closed0| <= i < |closed| ==> |closed[i]| == full
  }

  lemma RotatedOn(full: nat, c0: seq<seq<int>>, b0: nat, c1: seq<seq<int>>, b1: nat, c2: seq<seq<int>>, b2: nat)
    requires Rotated(full, c0, b0, c1, b1) && Rotated(full, c1, b1, c2, b2)
    ensures Rotated(full, c0, b0, c2, b2)
  {
    forall i | |c0| <= i < |c2| ensures |c2[i]| == full {
      if i < |c1| {
        assert c1[i] == c2[i];
      }
    }
  }

  class BlockRecorder {
    const cfg: Config
    const channels: pos
    const sampleBytes: width
    const ring: array<byte>
    const writeBuffer: array<byte>
    var ringWrite: nat
    var ringRead: nat
    var bufferUsed: nat
    var recording: bool
    var running: bool
    var closed: seq<seq<int>>      // finished files
    var open: Option<seq<int>>     // sndfile_
    var framesInBlock: nat
    var total: nat
    var blocks: nat
    ghost const exponent: nat
    ghost const fullBlock: nat     // samples of a full file
    ghost var Accepted: seq<byte>  // every period that was not dropped
    ghost var Frames: nat          // and how many frames that is
    ghost var Taken: nat           // how much of it has left the ring
    ghost var Filed: nat           // and how much is in files

    ghost predicate Shape()
    {
      && 1 <= cfg.bpf <= cfg.oneSecond && 1 <= cfg.blockFrames
      && exponent <= 63 && cfg.cap == Pow2(exponent)
      && ring.Length == cfg.cap && writeBuffer.Length == 2 * cfg.Threshold() && ring != writeBuffer
    }

    ghost predicate Format() {
      cfg.bpf == Times(channels, sampleBytes) && fullBlock == Times(cfg.blockFrames, channels)
    }

    ghost predicate Cursors()
      reads `ringWrite, `ringRead, `Accepted, `Frames, `Taken
    {
      && ringWrite == |Accepted| % TWO_64 && ringRead == Taken % TWO_64
      && Taken <= |Accepted| <= Taken + cfg.cap
      && |Accepted| == Times(Frames, cfg.bpf)
    }

    ghost predicate RingHolds()
      requires Shape()
      reads `ringWrite, `ringRead, `Accepted, `Frames, `Taken, ring
    {
      Cursors() && Tracks(ring[..], Accepted, Taken, |Accepted|)
    }

    function OpenSamples(): seq<int>
      reads `open
    {
      if open.Some? then open.value else []
    }

    function FramesInOpen(): nat
      reads `open, `framesInBlock
    {
      if open.Some? then framesInBlock else 0
    }

    /** The files hold exactly the first `total` accepted frames, in order. */
    ghost predicate FilesHold()
      reads `closed, `open, `framesInBlock, `total, `blocks, `Accepted, `Filed
    {
      && InFiles(sampleBytes, Accepted, Filed, closed, OpenSamples())
      && Counted(cfg, total, Filed, blocks, FramesInOpen())
      && FileSizes(cfg, channels, fullBlock, closed, open, framesInBlock)
    }

    /** No full file is left open. */
    predicate HasSpace()
      reads `open, `framesInBlock
    {
      open.Some? ==> framesInBlock < cfg.blockFrames
    }

    /** The write buffer holds the part of a frame between the files and the ring. */
    ghost predicate Carries()
      requires Shape()
      reads `bufferUsed, `Accepted, `Taken, `Filed, writeBuffer
    {
      && bufferUsed < cfg.bpf && Buffered()
    }

    ghost predicate Buffered()
      reads `bufferUsed, `Accepted, `Taken, `Filed, writeBuffer
    {
      && Filed + bufferUsed == Taken <= |Accepted| && bufferUsed <= writeBuffer.Length
      && writeBuffer[..bufferUsed] == Accepted[Filed..Taken]
    }

    ghost predicate Valid()
      reads this, ring, writeBuffer
    {
      Shape() && Format() && RingHolds() && FilesHold() && HasSpace() && Carries()
    }

    constructor (rate: nat, channels: pos, sampleBytes: width, duration: nat)
      requires 1 <= rate < 0x1_0000_0000 && channels < 0x1_0000 && 1 <= duration
      ensures Valid() && fresh(ring) && fresh(writeBuffer)
      ensures Accepted == [] && closed == [] && open.None? && !recording && !running
      ensures cfg.Valid() && cfg.bpf == Times(channels, sampleBytes) && cfg.oneSecond == Times(rate, cfg.bpf)
      ensures cfg.blockFrames == Times(duration, rate)
      ensures ring.Length == cfg.cap && writeBuffer.Length == 2 * (if cfg.oneSecond > 65536 then cfg.oneSecond else 65536)
      ensures this.channels == channels && this.sampleBytes == sampleBytes
      ensures fullBlock == Times(cfg.blockFrames, channels)
    {
      var bpf: pos := channels * sampleBytes;
      Proofs.ConfigureValid(rate, bpf, duration);
      var c := Configure(rate, bpf, duration);
      ghost var k := Proofs.RingSize(c);
      TimesIs(channels, sampleBytes);
      TimesIs(c.blockFrames, channels);
      TimesIs(rate, bpf);
      TimesIs(duration, rate);
      cfg, exponent, fullBlock := c, k, Times(c.blockFrames, channels);
      this.channels, this.sampleBytes := channels, sampleBytes;
      ring := new byte[c.cap](_ => 0);
      writeBuffer := new byte[2 * c.Threshold()](_ => 0);
      ringWrite, ringRead, bufferUsed := 0, 0, 0;
      recording, running := false, false;
      closed, open, framesInBlock, total, blocks := [], None, 0, 0, 0;
      Accepted, Frames, Taken, Filed := [], 0, 0, 0;
      new;
      assert Accepted[..0] == [];
    }

    method Start()
      requires Valid() && !running
      modifies this`recording, this`running
      ensures Valid() && recording && running
    {
      recording, running := true, true;
    }

    lemma Cursor(at: nat)
      requires Shape()
      ensures BitAnd(at % TWO_64, cfg.cap - 1) == Slot(at, cfg.cap)
    {
      MaskIsMod(at % TWO_64, exponent);
      WrapKeepsCell(at, exponent);
      SlotIs(at, cfg.cap);
    }

    lemma Distance()
      requires Shape() && RingHolds()
      ensures (ringWrite - ringRead) % TWO_64 == |Accepted| - Taken
    {
      Pow2Of64();
      Pow2Monotone(exponent, 63);
      WrappedDistance(|Accepted|, Taken);
    }

    /** Whether a period of this size finds room. */
    ghost predicate HasRoom(bytes: nat)
      reads `Accepted, `Taken
    {
      |Accepted| + bytes <= Taken + cfg.cap
    }

    /** frames * cfg.bpf */
    function PeriodBytes(frames: nat): nat { Times(frames, cfg.bpf) }

    /** Copies a period that fits to the cells after the accepted bytes. */
    method CopyPeriod(data: array<byte>, bytes: nat)
      requires Shape() && RingHolds() && HasRoom(bytes) && data != ring && bytes <= data.Length
      modifies ring
      ensures Tracks(ring[..], Accepted + data[..bytes], Taken, |Accepted| + bytes)
    {
      var pos := BitAnd(ringWrite, cfg.cap - 1);
      Cursor(|Accepted|);
      ghost var before, period := ring[..], data[..bytes];
      CopyToRing(ring, pos, data, bytes);
      PutTracks(before, Accepted, Taken, period, pos);
    }

    /** Unsigned w - r. */
    method Unread() returns (n: nat)
      requires Shape() && RingHolds()
      ensures n == |Accepted| - Taken
    {
      var w, r := ringWrite, ringRead;
      n := (w - r) % TWO_64;
      Distance();
    }

    /** Moves the write cursor past a copied period. */
    method Accept(bytes: nat, ghost frameCount: nat, ghost period: seq<byte>)
      requires Shape() && Cursors() && HasRoom(bytes) && |period| == bytes == PeriodBytes(frameCount)
      requires Tracks(ring[..], Accepted + period, Taken, |Accepted| + bytes)
      modifies this`ringWrite, this`Accepted, this`Frames
      ensures RingHolds() && Accepted == old(Accepted) + period
    {
      WrapAdd(|Accepted|, bytes);
      TimesAdd(Frames, frameCount, cfg.bpf);
      ringWrite := (ringWrite + bytes) % TWO_64;
      Accepted, Frames := Accepted + period, Frames + frameCount;
    }

    /** Takes the whole period, or drops the whole of it exactly when it does not fit or
        the recorder is stopped. */
    method Push(data: array<byte>, frameCount: nat)
      requires Valid() && data != ring && data != writeBuffer
      requires PeriodBytes(frameCount) <= data.Length
      modifies this`ringWrite, this`Accepted, this`Frames, ring
      ensures Valid()
      ensures Accepted == old(Accepted) +
                (if recording && old(HasRoom(PeriodBytes(frameCount))) then data[..PeriodBytes(frameCount)] else [])
    {
      if !recording { return; }
      var bytes := PeriodBytes(frameCount);
      var used := Unread();
      var avail := cfg.cap - used;
      if bytes > avail { return; }
      ghost var period := data[..bytes];
      CopyPeriod(data, bytes);
      StillCarried(Accepted, period, Filed, Taken);
      Accept(bytes, frameCount, period);
    }

    /** Copies the next bytes of the ring behind the buffered ones. */
    method CopyChunk(chunk: nat)
      requires Shape() && RingHolds() && Carries()
      requires Taken + chunk <= |Accepted| && bufferUsed + chunk <= writeBuffer.Length
      modifies writeBuffer
      ensures writeBuffer[..bufferUsed + chunk] == Accepted[Filed..Taken + chunk]
    {
      var pos := ReadCell();
      CopyFrom(pos, chunk);
    }

    method CopyFrom(pos: nat, chunk: nat)
      requires ring.Length > 0 && ring != writeBuffer && Buffered()
      requires |Accepted| <= Taken + ring.Length && Tracks(ring[..], Accepted, Taken, |Accepted|)
      requires pos == Slot(Taken, ring.Length)
      requires Taken + chunk <= |Accepted| && bufferUsed + chunk <= writeBuffer.Length
      modifies writeBuffer
      ensures writeBuffer[..bufferUsed + chunk] == Accepted[Filed..Taken + chunk]
    {
      GetTracks(ring[..], Accepted, Taken, chunk, pos);
      Adjoin(Accepted, Filed, Taken, Taken + chunk);
      CopyFromRing(ring, pos, writeBuffer, bufferUsed, chunk);
    }

    method ReadCell() returns (pos: nat)
      requires Shape() && RingHolds()
      ensures pos == Slot(Taken, cfg.cap)
    {
      pos := BitAnd(ringRead, cfg.cap - 1);
      Cursor(Taken);
    }

    /** Moves what fits of the pending bytes to the write buffer; at least one if any is
        pending. */
    method TakeChunk() returns (chunk: nat)
      requires Valid()
      modifies this`ringRead, this`bufferUsed, this`Taken, writeBuffer
      ensures Shape() && Format() && RingHolds() && FilesHold() && HasSpace()
      ensures chunk == Min(|Accepted| - old(Taken), writeBuffer.Length - old(bufferUsed))
      ensures chunk == 0 <==> old(Taken) == |Accepted|
      ensures Taken == old(Taken) + chunk && bufferUsed == old(bufferUsed) + chunk <= writeBuffer.Length
      ensures Buffered() && (chunk == 0 ==> Valid())
    {
      var avail := Unread();
      if avail == 0 { return 0; }
      BufferHasRoom();
      chunk := Min(avail, writeBuffer.Length - bufferUsed);
      Take(chunk);
    }

    method Take(chunk: nat)
      requires Shape() && RingHolds() && Carries()
      requires Taken + chunk <= |Accepted| && bufferUsed + chunk <= writeBuffer.Length
      modifies this`ringRead, this`bufferUsed, this`Taken, writeBuffer
      ensures RingHolds() && Buffered()
      ensures Taken == old(Taken) + chunk && bufferUsed == old(bufferUsed) + chunk
    {
      CopyChunk(chunk);
      bufferUsed := bufferUsed + chunk;
      Release(chunk);
    }

    lemma BufferHasRoom()
      requires Shape() && bufferUsed < cfg.bpf
      ensures bufferUsed < writeBuffer.Length
    {
    }

    /** Moves the read cursor past copied bytes. */
    method Release(chunk: nat)
      requires Shape() && RingHolds() && Taken + chunk <= |Accepted|
      modifies this`ringRead, this`Taken
      ensures RingHolds() && Taken == old(Taken) + chunk
    {
      WrapAdd(Taken, chunk);
      TracksFrom(ring[..], Accepted, Taken, chunk);
      ringRead := (ringRead + chunk) % TWO_64;
      Taken := Taken + chunk;
    }

    /** The buffer from `off` on continues the files; `whole` bytes of it, the whole
        frames, are to be written. */
    ghost predicate Batching(off: nat, whole: nat)
      reads `bufferUsed, `Accepted, `Taken, `Filed, writeBuffer
    {
      && off <= bufferUsed <= writeBuffer.Length && Filed + (bufferUsed - off) == Taken <= |Accepted|
      && writeBuffer[off..bufferUsed] == Accepted[Filed..Taken]
      && off + whole <= bufferUsed < off + whole + cfg.bpf
    }

    /** Closes the file in progress, if any. */
    method CloseCurrentFile()
      requires Shape() && Format() && FilesHold()
      modifies this`closed, this`open
      ensures FilesHold() && open.None?
      ensures closed == old(closed) + old(if open.Some? then [open.value] else [])
      ensures old(open.Some?) && framesInBlock == cfg.blockFrames ==> |old(open.value)| == fullBlock
    {
      if open.Some? {
        ClosedGrows(cfg, channels, fullBlock, closed, open.value, framesInBlock);
        FlattenSnoc(closed, open.value);
        closed := closed + [open.value];
        open := None;
        assert Flatten(closed) + [] == Flatten(closed);
      }
    }

    /** Unpacks the next `batch` frames of the buffer. */
    method UnpackBatch(off: nat, remaining: nat, ghost whole: nat, batch: nat) returns (n: nat, xs: seq<int>)
      requires Format() && Batching(off, whole) && whole == Times(remaining, cfg.bpf) && batch <= remaining
      ensures n == Times(batch, cfg.bpf) && n <= whole && whole - n == Times(remaining - batch, cfg.bpf)
      ensures Filed + n <= |Accepted| && xs == FileSamples(sampleBytes, Accepted[Filed..Filed + n])
      ensures off + n <= bufferUsed && Filed + n <= Taken
      ensures writeBuffer[off + n..bufferUsed] == Accepted[Filed + n..Taken]
    {
      BatchBytes(cfg.bpf, channels, sampleBytes, remaining, batch);
      n := batch * cfg.bpf;
      SliceOfSlice(writeBuffer[..], Accepted, off, bufferUsed, Filed, Taken, n);
      xs := Unpack(sampleBytes, writeBuffer, off, batch * channels, n);
    }

    /** Writes frames to the open file, opening one first if none is. */
    method Append(batch: nat, ghost n: nat, xs: seq<int>)
      requires Format() && FilesHold() && 0 < batch && FramesInOpen() + batch <= cfg.blockFrames
      requires n == Times(batch, cfg.bpf) && Filed + n <= |Accepted|
      requires xs == FileSamples(sampleBytes, Accepted[Filed..Filed + n])
      modifies this`open, this`framesInBlock, this`total, this`Filed
      ensures FilesHold() && Filed == old(Filed) + n
    {
      var file, inBlock := OpenSamples(), FramesInOpen();
      ghost var file', inBlock', total', filed' :=
        Appended(cfg, sampleBytes, channels, fullBlock, Accepted, total, blocks, closed, file, inBlock, Filed, batch, n, xs);
      open, framesInBlock, total := Some(file + xs), inBlock + batch, total + batch;
      Filed := filed';
    }

    /** Writes what the block has room for. */
    method WriteBatch(off: nat, remaining: nat, ghost whole: nat) returns (batch: nat, n: nat)
      requires Shape() && Format() && FilesHold() && HasSpace()
      requires Batching(off, whole) && whole == Times(remaining, cfg.bpf) && remaining > 0
      modifies this`open, this`framesInBlock, this`total, this`Filed
      ensures FilesHold() && 0 < batch <= remaining
      ensures n <= whole && whole - n == Times(remaining - batch, cfg.bpf) && Batching(off + n, whole - n)
    {
      var space := cfg.blockFrames - FramesInOpen();
      batch := Min(remaining, space);
      var xs: seq<int>;
      n, xs := UnpackBatch(off, remaining, whole, batch);
      Append(batch, n, xs);
    }

    /** Cuts the buffered whole frames into files: every file closed here is a full block. */
    method WriteFrames(frames: nat, ghost whole: nat)
      requires Shape() && Format() && FilesHold() && HasSpace() && Batching(0, whole) && whole == Times(frames, cfg.bpf)
      modifies this`open, this`framesInBlock, this`total, this`Filed, this`closed, this`blocks
      ensures FilesHold() && HasSpace() && Batching(whole, 0)
      ensures Rotated(fullBlock, old(closed), old(blocks), closed, blocks)
    {
      var src: nat, remaining: nat := 0, frames;
      ghost var left: nat := whole;
      while remaining > 0
        invariant FilesHold() && HasSpace() && Batching(src, left)
        invariant left == Times(remaining, cfg.bpf) && src + left == whole
        invariant Rotated(fullBlock, old(closed), old(blocks), closed, blocks)
      {
        src, remaining, left := WriteAndRotate(src, remaining, left, old(closed), old(blocks));
      }
    }

    method WriteAndRotate(off: nat, remaining: nat, ghost whole: nat, ghost closed0: seq<seq<int>>, ghost blocks0: nat)
      returns (next: nat, left: nat, ghost wholeLeft: nat)
      requires Shape() && Format() && FilesHold() && HasSpace()
      requires Batching(off, whole) && whole == Times(remaining, cfg.bpf) && remaining > 0
      requires Rotated(fullBlock, closed0, blocks0, closed, blocks)
      modifies this`open, this`framesInBlock, this`total, this`Filed, this`closed, this`blocks
      ensures FilesHold() && HasSpace() && left < remaining
      ensures wholeLeft == Times(left, cfg.bpf) && next + wholeLeft == off + whole && Batching(next, wholeLeft)
      ensures Rotated(fullBlock, closed0, blocks0, closed, blocks)
    {
      var batch, n := WriteBatch(off, remaining, whole);
      next, left, wholeLeft := off + n, remaining - batch, whole - n;
      RotateSince(closed0, blocks0);
    }

    method RotateSince(ghost closed0: seq<seq<int>>, ghost blocks0: nat)
      requires Shape() && Format() && FilesHold() && Rotated(fullBlock, closed0, blocks0, closed, blocks)
      modifies this`open, this`closed, this`blocks
      ensures FilesHold() && HasSpace() && Rotated(fullBlock, closed0, blocks0, closed, blocks)
    {
      ghost var closed1, blocks1 := closed, blocks;
      Rotate();
      RotatedOn(fullBlock, closed0, blocks0, closed1, blocks1, closed, blocks);
    }

    predicate IsFull()
      reads `open, `framesInBlock
    {
      open.Some? && framesInBlock >= cfg.blockFrames
    }

    /** Closes the file once it is a full block. */
    method Rotate()
      requires Shape() && Format() && FilesHold()
      modifies this`open, this`closed, this`blocks
      ensures FilesHold() && HasSpace()
      ensures old(IsFull()) ==>
                closed == old(closed) + [old(OpenSamples())] && |old(OpenSamples())| == fullBlock && blocks == old(blocks) + 1
      ensures !old(IsFull()) ==> closed == old(closed) && blocks == old(blocks)
    {
      if IsFull() {
        BlockCounted(cfg, total, Filed, blocks, framesInBlock);
        CloseCurrentFile();
        blocks := blocks + 1;
      }
    }

    /** Moves the partial frame to the front of the buffer. */
    method KeepLeftover(frameBytes: nat)
      requires Shape() && frameBytes <= bufferUsed && bufferUsed - frameBytes < cfg.bpf
      requires Batching(frameBytes, 0)
      modifies this`bufferUsed, writeBuffer
      ensures Carries()
    {
      var leftover := bufferUsed - frameBytes;
      if leftover > 0 {
        CopyBytes(writeBuffer, 0, writeBuffer, frameBytes, leftover);
      }
      bufferUsed := leftover;
      assert writeBuffer[..leftover] == old(writeBuffer[frameBytes..bufferUsed]);
    }

    /** One round of the drain loop: false, and nothing done, exactly when the ring is
        empty. */
    method DrainOnce() returns (more: bool)
      requires Valid()
      modifies this`ringRead, this`bufferUsed, this`Taken, writeBuffer
      modifies this`open, this`framesInBlock, this`total, this`Filed, this`closed, this`blocks
      ensures Valid() && Rotated(fullBlock, old(closed), old(blocks), closed, blocks)
      ensures more <==> old(Taken) < |Accepted|
      ensures if more then old(Taken) < Taken else old(Taken) == Taken
    {
      var chunk := TakeChunk();
      if chunk == 0 { return false; }
      FileBuffered();
      return true;
    }

    /** Files the whole frames of the buffer and keeps the rest, if it holds any. */
    method FileBuffered()
      requires Shape() && Format() && RingHolds() && FilesHold() && HasSpace() && Buffered()
      modifies this`bufferUsed, writeBuffer
      modifies this`open, this`framesInBlock, this`total, this`Filed, this`closed, this`blocks
      ensures Valid() && Rotated(fullBlock, old(closed), old(blocks), closed, blocks)
    {
      var frameBytes, frames := FramesIn(bufferUsed, cfg.bpf);
      if frames == 0 { return; }
      FileFrames(frames, frameBytes);
    }

    method FileFrames(frames: nat, frameBytes: nat)
      requires Shape() && Format() && RingHolds() && FilesHold() && HasSpace() && Batching(0, frameBytes)
      requires frameBytes == Times(frames, cfg.bpf)
      modifies this`bufferUsed, writeBuffer
      modifies this`open, this`framesInBlock, this`total, this`Filed, this`closed, this`blocks
      ensures Valid() && Rotated(fullBlock, old(closed), old(blocks), closed, blocks)
    {
      WriteFrames(frames, frameBytes);
      KeepLeftover(frameBytes);
    }

    /** One drain pass empties the ring into files, and terminates. Periods being whole
        frames, no partial frame is left over either. */
    method Drain()
      requires Valid()
      modifies this`ringRead, this`bufferUsed, this`Taken, writeBuffer
      modifies this`open, this`framesInBlock, this`total, this`Filed, this`closed, this`blocks
      ensures Valid() && Rotated(fullBlock, old(closed), old(blocks), closed, blocks)
      ensures Taken == |Accepted| && Filed == |Accepted| && bufferUsed == 0
    {
      while true
        invariant Valid() && Rotated(fullBlock, old(closed), old(blocks), closed, blocks)
        decreases |Accepted| - Taken
      {
        ghost var closed1, blocks1 := closed, blocks;
        var more := DrainOnce();
        RotatedOn(fullBlock, old(closed), old(blocks), closed1, blocks1, closed, blocks);
        if !more { break; }
      }
      NoPartialFrame(Frames, total, bufferUsed, cfg.bpf);
    }

    /** The writer's last pass: it drains the ring and closes the file in progress. */
    method Finish()
      requires Valid()
      modifies this`ringRead, this`bufferUsed, this`Taken, writeBuffer
      modifies this`open, this`framesInBlock, this`total, this`Filed, this`closed, this`blocks
      ensures Valid() && open.None? && Flatten(closed) == FileSamples(sampleBytes, Accepted)
      ensures Taken == |Accepted| && bufferUsed == 0
    {
      Drain();
      CloseCurrentFile();
      Whole(Accepted, Flatten(closed));
    }

    /** Ends recording: after the join every accepted sample is in a closed file. */
    method Stop()
      requires Valid()
      modifies this`recording, this`running, this`ringRead, this`bufferUsed, this`Taken, writeBuffer
      modifies this`open, this`framesInBlock, this`total, this`Filed, this`closed, this`blocks
      ensures Valid() && !recording && !running
      ensures old(running) ==> open.None? && Flatten(closed) == FileSamples(sampleBytes, Accepted)
      ensures if old(running) then Taken == |Accepted| && bufferUsed == 0 else Taken == old(Taken)
    {
      recording := false;
      if running {
        running := false;
        Finish();
      }
    }

    /** Samples in files, then those of the bytes still buffered and still in the ring. */
    ghost function Held(): seq<int>
      requires Valid()
      reads this, ring, writeBuffer
    {
      Flatten(closed) + OpenSamples()
      + FileSamples(sampleBytes, writeBuffer[..bufferUsed] + ReadRing(ring[..], ringRead, (ringWrite - ringRead) % TWO_64))
    }

    /** Nothing is lost and nothing is held twice. */
    lemma HeldIsAccepted()
      requires Valid()
      ensures Held() == FileSamples(sampleBytes, Accepted)
    {
      Distance();
      TracksTail(ring[..], Accepted, Taken, exponent);
      var rest := FramesLeft(total, Frames, channels, sampleBytes, cfg.bpf);
      HeldSplits(sampleBytes, Accepted, Filed, Taken, rest);
    }

    /** As long as only full blocks were closed, file i holds exactly the samples of accepted
        frames [i * B, (i + 1) * B). */
    lemma BlockIs(i: nat)
      requires Valid() && i < |closed| && Uniform(closed, fullBlock)
      ensures var lo, hi := PeriodBytes(Times(i, cfg.blockFrames)), PeriodBytes(Times(i + 1, cfg.blockFrames));
        lo <= hi <= |Accepted| && closed[i] == FileSamples(sampleBytes, Accepted[lo..hi])
    {
      FlattenSlice(closed, fullBlock, i);
      BlockSlice(sampleBytes, channels, cfg.bpf, cfg.blockFrames, fullBlock, i, Accepted, total, Filed,
                 Flatten(closed), OpenSamples());
    }

    /** blocks_written_ first, then total_frames_written_. */
    method GetStats() returns (blocksWritten: nat, totalFrames: nat)
      requires Valid()
      ensures blocksWritten * cfg.blockFrames <= totalFrames
      ensures totalFrames * cfg.bpf + bufferUsed + (|Accepted| - Taken) == |Accepted|
      ensures blocksWritten == blocks && totalFrames == total
    {
      blocksWritten, totalFrames := blocks, total;
      TimesIs(blocks, cfg.blockFrames);
      TimesIs(total, cfg.bpf);
    }
  }

  lemma SliceOfSlice(a: seq<byte>, b: seq<byte>, i: nat, j: nat, k: nat, l: nat, n: nat)
    requires i <= j <= |a| && k <= l <= |b| && a[i..j] == b[k..l] && n <= j - i
    ensures a[i..i + n] == b[k..k + n] && a[i + n..j] == b[k + n..l]
  {
    assert a[i..j][..n] == a[i..i + n] && b[k..l][..n] == b[k..k + n];
    assert a[i..j][n..] == a[i + n..j] && b[k..l][n..] == b[k + n..l];
  }

  lemma BatchBytes(bpf: nat, channels: pos, w: width, remaining: nat, batch: nat)
    requires bpf == Times(channels, w) && batch <= remaining
    ensures Times(batch, bpf) == batch * bpf <= Times(remaining, bpf)
    ensures Times(remaining, bpf) - Times(batch, bpf) == Times(remaining - batch, bpf)
    ensures 0 <= batch * channels && (batch * channels) * w == batch * bpf
  {
    TimesIs(batch, bpf);
    TimesIs(remaining, bpf);
    TimesIs(remaining - batch, bpf);
    TimesIs(channels, w);
    MulSplit(remaining, batch, bpf);
    MulAssoc(batch, channels, w);
    MulLe(0, batch, channels);
  }

  lemma InFilesGrow(w: width, channels: pos, bpf: nat, stream: seq<byte>, total: nat, batch: nat,
                    filed: nat, n: nat, closed: seq<seq<int>>, open: seq<int>, xs: seq<int>)
    requires bpf == Times(channels, w) && filed == Times(total, bpf) && n == Times(batch, bpf)
    requires filed + n <= |stream|
    requires InFiles(w, stream, filed, closed, open) && xs == FileSamples(w, stream[filed..filed + n])
    ensures |xs| == Times(batch, channels) && InFiles(w, stream, filed + n, closed, open + xs)
  {
    TimesTimes(batch, channels, w, bpf);
    FileSamplesCount(w, stream[filed..filed + n], Times(batch, channels));
    FilesAppend(w, stream, filed, n, Times(batch, channels), Flatten(closed), open, xs);
  }

  /** What batch more frames in the open file keep. */
  lemma Appended(cfg: Config, w: width, channels: pos, full: nat, stream: seq<byte>, total: nat, blocks: nat,
                 closed: seq<seq<int>>, open: seq<int>, inBlock: nat, filed: nat, batch: nat, n: nat, xs: seq<int>)
    returns (open': seq<int>, inBlock': nat, total': nat, filed': nat)
    requires cfg.bpf == Times(channels, w) && 0 < batch && inBlock + batch <= cfg.blockFrames
    requires InFiles(w, stream, filed, closed, open) && Counted(cfg, total, filed, blocks, inBlock)
    requires FileSizes(cfg, channels, full, closed, None, 0) && |open| == Times(inBlock, channels)
    requires n == Times(batch, cfg.bpf) && filed + n <= |stream| && xs == FileSamples(w, stream[filed..filed + n])
    ensures open' == open + xs && inBlock' == inBlock + batch && total' == total + batch && filed' == filed + n
    ensures InFiles(w, stream, filed', closed, open')
    ensures Counted(cfg, total', filed', blocks, inBlock')
    ensures FileSizes(cfg, channels, full, closed, Some(open'), inBlock')
  {
    open', inBlock', total', filed' := open + xs, inBlock + batch, total + batch, filed + n;
    CountGrows(cfg, total, filed, blocks, inBlock, batch, n);
    InFilesGrow(w, channels, cfg.bpf, stream, total, batch, filed, n, closed, open, xs);
    FileGrows(cfg, channels, full, closed, open, inBlock, batch, xs);
  }

  lemma FilesAppend(w: width, stream: seq<byte>, filed: nat, n: nat, count: nat,
                    closed: seq<int>, open: seq<int>, xs: seq<int>)
    requires n == Times(count, w) && filed + n <= |stream|
    requires closed + open == FileSamples(w, stream[..filed]) && xs == FileSamples(w, stream[filed..filed + n])
    ensures closed + (open + xs) == FileSamples(w, stream[..filed + n])
  {
    var a, b := stream[..filed], stream[filed..filed + n];
    assert stream[..filed + n] == a + b;
    FileSamplesAppend(w, a, b, count);
    Associate(closed, open, xs);
  }

  lemma CountGrows(cfg: Config, total: nat, filed: nat, blocks: nat, inOpen: nat, batch: nat, n: nat)
    requires Counted(cfg, total, filed, blocks, inOpen) && n == Times(batch, cfg.bpf)
    ensures Counted(cfg, total + batch, filed + n, blocks, inOpen + batch)
  {
    TimesAdd(total, batch, cfg.bpf);
  }

  lemma BlockCounted(cfg: Config, total: nat, filed: nat, blocks: nat, inOpen: nat)
    requires Counted(cfg, total, filed, blocks, inOpen) && inOpen >= cfg.blockFrames
    ensures Counted(cfg, total, filed, blocks + 1, 0)
  {
    assert Times(blocks + 1, cfg.blockFrames) == Times(blocks, cfg.blockFrames) + cfg.blockFrames;
  }

  lemma FileGrows(cfg: Config, channels: pos, full: nat, closed: seq<seq<int>>, open: seq<int>,
                  inBlock: nat, batch: nat, xs: seq<int>)
    requires 0 < batch && inBlock + batch <= cfg.blockFrames
    requires |open| == Times(inBlock, channels) && |xs| == Times(batch, channels)
    requires FileSizes(cfg, channels, full, closed, None, 0)
    ensures FileSizes(cfg, channels, full, closed, Some(open + xs), inBlock + batch)
  {
    TimesAdd(inBlock, batch, channels);
  }

  lemma ClosedGrows(cfg: Config, channels: pos, full: nat, closed: seq<seq<int>>, open: seq<int>, inBlock: nat)
    requires FileSizes(cfg, channels, full, closed, Some(open), inBlock) && full == Times(cfg.blockFrames, channels)
    ensures FileSizes(cfg, channels, full, closed + [open], None, inBlock)
    ensures inBlock == cfg.blockFrames ==> |open| == full
  {
    TimesAdd(inBlock, cfg.blockFrames - inBlock, channels);
    assert Times(inBlock, channels) >= channels;
  }

  /** Cutting samples is cutting bytes: the k samples of b, behind those of a. */
  lemma FileMiddle(w: width, a: seq<byte>, b: seq<byte>, z: seq<byte>, k: nat, m: nat, n: nat)
    requires |a| == Times(k, w) && |b| == Times(m, w) && |z| == Times(n, w)
    ensures |FileSamples(w, (a + b) + z)| == k + m + n
    ensures FileSamples(w, (a + b) + z)[k..k + m] == FileSamples(w, b)
  {
    FileSamplesAppend(w, a, b, m);
    FileSamplesAppend(w, a + b, z, n);
    FileSamplesCount(w, a, k);
    FileSamplesCount(w, b, m);
    FileSamplesCount(w, z, n);
    Middle(FileSamples(w, a), FileSamples(w, b), FileSamples(w, z));
  }

  lemma Middle(a: seq<int>, b: seq<int>, z: seq<int>)
    ensures ((a + b) + z)[|a|..|a| + |b|] == b
  {
  }

  lemma ThreeParts(bytes: seq<byte>, lo: nat, hi: nat)
    requires lo <= hi <= |bytes|
    ensures (bytes[..lo] + bytes[lo..hi]) + bytes[hi..] == bytes
  {
  }

  lemma PrefixSlice<T>(a: seq<T>, n: nat, lo: nat, hi: nat)
    requires lo <= hi <= n <= |a|
    ensures a[..n][lo..hi] == a[lo..hi]
  {
  }

  lemma BlockSlice(w: width, channels: pos, bpf: nat, blockFrames: nat, full: nat, i: nat,
                   stream: seq<byte>, total: nat, filed: nat, closed: seq<int>, open: seq<int>)
    requires bpf == Times(channels, w) && full == Times(blockFrames, channels)
    requires filed == Times(total, bpf) <= |stream| && closed + open == FileSamples(w, stream[..filed])
    requires Times(i, full) + full <= |closed|
    ensures var lo, hi := Times(Times(i, blockFrames), bpf), Times(Times(i + 1, blockFrames), bpf);
      lo <= hi <= filed
      && closed[Times(i, full)..Times(i, full) + full] == FileSamples(w, stream[lo..hi])
  {
    BlockEdge(w, channels, bpf, blockFrames, full, i);
    BlockEdge(w, channels, bpf, blockFrames, full, i + 1);
    TimesTimes(total, channels, w, bpf);
    SamplesOfBlock(w, stream[..filed], Times(i, full), full, Times(total, channels), closed, open);
    PrefixSlice(stream, filed, Times(Times(i, blockFrames), bpf), Times(Times(i + 1, blockFrames), bpf));
  }

  lemma SamplesOfBlock(w: width, bytes: seq<byte>, k: nat, full: nat, n: nat, closed: seq<int>, open: seq<int>)
    requires |bytes| == Times(n, w) && closed + open == FileSamples(w, bytes) && k + full <= |closed|
    ensures Times(k, w) <= Times(k + full, w) <= |bytes|
    ensures closed[k..k + full] == FileSamples(w, bytes[Times(k, w)..Times(k + full, w)])
  {
    FileSamplesCount(w, bytes, n);
    TimesAdd(k, full, w);
    TimesAdd(k + full, n - (k + full), w);
    var lo, hi := Times(k, w), Times(k + full, w);
    ThreeParts(bytes, lo, hi);
    FileMiddle(w, bytes[..lo], bytes[lo..hi], bytes[hi..], k, full, n - (k + full));
    SliceOfSum(closed, open, k, k + full);
  }

  lemma SliceOfSum(a: seq<int>, b: seq<int>, lo: nat, hi: nat)
    requires lo <= hi <= |a|
    ensures (a + b)[lo..hi] == a[lo..hi]
  {
  }

  /** Where block i starts, in bytes, by frames and by samples. */
  lemma BlockEdge(w: width, channels: pos, bpf: nat, blockFrames: nat, full: nat, i: nat)
    requires bpf == Times(channels, w) && full == Times(blockFrames, channels)
    ensures Times(Times(i, blockFrames), bpf) == Times(Times(i, full), w)
  {
    TimesTimes(Times(i, blockFrames), channels, w, bpf);
    TimesTimes(i, blockFrames, channels, full);
  }

  /** (a * b) * c == a * (b * c) */
  lemma {:induction false} TimesTimes(a: nat, b: nat, c: nat, bc: nat)
    requires bc == Times(b, c)
    ensures Times(a, bc) == Times(Times(a, b), c)
  {
    if a > 0 {
      TimesTimes(a - 1, b, c, bc);
      TimesAdd(Times(a - 1, b), b, c);
    }
  }

  /** The samples between the files and the end of the stream. */
  lemma FramesLeft(total: nat, frames: nat, channels: pos, w: width, bpf: pos) returns (samples: nat)
    requires bpf == Times(channels, w) && Times(total, bpf) <= Times(frames, bpf)
    ensures Times(frames, bpf) - Times(total, bpf) == Times(samples, w)
  {
    if total > frames {
      TimesAdd(frames, total - frames, bpf);
      assert false;
    }
    TimesAdd(total, frames - total, bpf);
    TimesTimes(frames - total, channels, w, bpf);
    samples := Times(frames - total, channels);
  }

  lemma Associate(a: seq<int>, b: seq<int>, c: seq<int>)
    ensures (a + b) + c == a + (b + c)
  {
  }

  lemma NoPartialFrame(frames: nat, total: nat, used: nat, bpf: pos)
    requires Times(frames, bpf) == Times(total, bpf) + used && used < bpf
    ensures used == 0
  {
    TimesIs(frames, bpf);
    TimesIs(total, bpf);
    ModUnique(frames * bpf, bpf, total, used);
    ModUnique(frames * bpf, bpf, frames, 0);
  }

  /** Reading the ring from the read cursor on gives what is left of the stream. */
  lemma TracksTail(ring: seq<byte>, stream: seq<byte>, lo: nat, k: nat)
    requires k <= 63 && |ring| == Pow2(k) && Tracks(ring, stream, lo, |stream|)
    ensures ReadRing(ring, lo % TWO_64, |stream| - lo) == stream[lo..]
  {
    TracksIs(ring, stream, lo, |stream|);
    Results.MirroredTail(ring, stream, lo, k);
  }

  /** The ring still tracks what is left of the stream. */
  lemma {:induction false} TracksFrom(ring: seq<byte>, stream: seq<byte>, lo: nat, n: nat)
    requires |ring| > 0 && Tracks(ring, stream, lo, |stream|) && lo + n <= |stream|
    ensures Tracks(ring, stream, lo + n, |stream|)
  {
    if n > 0 {
      TracksFrom(ring, stream, lo, n - 1);
    }
  }

  lemma Whole(bytes: seq<byte>, samples: seq<int>)
    ensures bytes[..|bytes|] == bytes && samples + [] == samples
  {
  }

  lemma Adjoin(stream: seq<byte>, lo: nat, mid: nat, hi: nat)
    requires lo <= mid <= hi <= |stream|
    ensures stream[lo..mid] + stream[mid..hi] == stream[lo..hi]
  {
  }

  lemma HeldSplits(w: width, stream: seq<byte>, filed: nat, taken: nat, rest: nat)
    requires filed <= taken <= |stream| && |stream| - filed == Times(rest, w)
    ensures FileSamples(w, stream[..filed]) + FileSamples(w, stream[filed..taken] + stream[taken..]) == FileSamples(w, stream)
  {
    var a, b := stream[..filed], stream[filed..];
    assert stream == a + b && stream[filed..taken] + stream[taken..] == b;
    FileSamplesAppend(w, a, b, rest);
  }

  /** Appending to the stream changes none of its earlier slices. */
  lemma StillCarried(stream: seq<byte>, more: seq<byte>, lo: nat, hi: nat)
    requires lo <= hi <= |stream|
    ensures (stream + more)[lo..hi] == stream[lo..hi] && (stream + more)[..lo] == stream[..lo]
  {
  }
}
