/** The overwriting sample history behind clips: a masked circular buffer that refines an
    unbounded byte history. Cursors are 64-bit and wrap. */
module History {

  import opened Bits
  import opened Bytes

  /** First frame to copy when `back` frames before the write cursor are wanted. */
  function StartIndex(wp: nat, back: nat, cap: nat): nat
    requires cap > 0
  {
    if wp >= back then wp - back else cap - ((back - wp) % cap)
  }

  /** Even when the loaded cursor has wrapped past zero, the start index selects the
      cell of the frame `back` frames before the true cursor. */
  lemma StartCell(written: nat, back: nat, k: nat)
    requires k <= 63 && back <= written
    ensures StartIndex(written % TWO_64, back, Pow2(k)) % Pow2(k) == (written - back) % Pow2(k)
  {
    WrapKeepsCell(written, k);
    StartFrom(written % TWO_64, written, back, Pow2(k));
  }

  lemma StartFrom(wp: nat, written: nat, back: nat, cap: pos)
    requires wp % cap == written % cap && back <= written
    ensures StartIndex(wp, back, cap) % cap == (written - back) % cap
  {
    ModSub(wp, written, back, cap);
    if wp < back {
      WrappedBack(back - wp, cap);
    }
  }

  /** cap - m % cap is -m modulo cap. */
  lemma WrappedBack(m: pos, cap: pos)
    ensures (cap - m % cap) % cap == (-(m as int)) % cap
  {
    var q, r := m / cap, m % cap;
    MulSub(0, q, cap);
    MulSub(0, q + 1, cap);
    MulAdd(q, 1, cap);
    if r == 0 {
      ModUnique(-(m as int), cap, 0 - q, 0);
      ModUnique(cap, cap, 1, 0);
    } else {
      ModUnique(-(m as int), cap, 0 - (q + 1), cap - r);
      ModUnique(cap - r, cap, 0, cap - r);
    }
  }

  lemma ModSub(a: int, b: int, d: int, n: int)
    requires n > 0 && a % n == b % n
    ensures (a - d) % n == (b - d) % n
  {
    var q := a / n - b / n;
    assert a == (a / n) * n + a % n && b == (b / n) * n + b % n;
    assert a - b == q * n by { MulSub(a / n, b / n, n); }
    var y := (b - d) % n;
    assert b - d == ((b - d) / n) * n + y;
    assert ((b - d) / n + q) * n == ((b - d) / n) * n + q * n;
    ModUnique(a - d, n, (b - d) / n + q, y);
  }

  /** The masked frame cell, scaled to bytes, is the byte position modulo the byte ring. */
  lemma FrameCell(f: nat, k: nat, bpf: nat)
    requires k <= 63 && bpf >= 1
    ensures BitAnd(f % TWO_64, Pow2(k) - 1) == f % Pow2(k) < Pow2(k)
    ensures Pow2(k) * bpf > 0 && (f * bpf) % (Pow2(k) * bpf) == (f % Pow2(k)) * bpf
  {
    MaskIsMod(f % TWO_64, k);
    WrapKeepsCell(f, k);
    ScaledCell(f, Pow2(k), bpf);
  }

  lemma SameCell(start: nat, first: nat, i: nat, k: nat)
    requires k <= 63 && start % Pow2(k) == first % Pow2(k)
    ensures BitAnd((start + i) % TWO_64, Pow2(k) - 1) == (first + i) % Pow2(k) < Pow2(k)
  {
    MaskIsMod((start + i) % TWO_64, k);
    WrapKeepsCell(start + i, k);
    ModSub(start, first, -(i as int), Pow2(k));
  }

  /** One non-wrapping copy into the buffer extends the mirrored stream. */
  lemma WriteStep(before: seq<byte>, s: seq<byte>, f: nat, k: nat, bpf: nat, batch: nat, chunk: seq<byte>)
    requires k <= 63 && bpf >= 1 && |before| == Pow2(k) * bpf > 0 && |s| == f * bpf
    requires batch <= Pow2(k) - f % Pow2(k) && |chunk| == batch * bpf
    requires Mirrors(before, s, Max(0, |s| - |before|), |s|)
    ensures 0 <= (f % Pow2(k)) * bpf && (f % Pow2(k)) * bpf + |chunk| <= |before|
    ensures |s + chunk| == (f + batch) * bpf
    ensures Mirrors(Splice(before, (f % Pow2(k)) * bpf, chunk), s + chunk,
                    Max(0, |s + chunk| - |before|), |s + chunk|)
  {
    FrameCell(f, k, bpf);
    MulAdd(f % Pow2(k), batch, bpf);
    MulLe(f % Pow2(k) + batch, Pow2(k), bpf);
    MulAdd(f, batch, bpf);
    MirrorsSplice(before, s, Max(0, |s| - |before|), chunk, Max(0, |s| + |chunk| - |before|));
  }

  /** One non-wrapping copy out of the buffer returns the stream at that frame. */
  lemma ReadStep(buf: seq<byte>, s: seq<byte>, frames: nat, k: nat, bpf: nat, a: nat, batch: nat,
                 pos: int, at: int, n: int)
    requires k <= 63 && bpf >= 1 && |buf| == Pow2(k) * bpf > 0 && |s| == frames * bpf
    requires frames - Pow2(k) <= a && a + batch <= frames && batch <= Pow2(k) - a % Pow2(k)
    requires Mirrors(buf, s, Max(0, |s| - |buf|), |s|)
    requires pos == (a % Pow2(k)) * bpf && at == a * bpf && n == batch * bpf
    ensures 0 <= pos && 0 <= n && pos + n <= |buf| && 0 <= at && at + n <= |s|
    ensures buf[pos..pos + n] == s[at..at + n]
  {
    FrameCell(a, k, bpf);
    ReadBounds(frames, Pow2(k), bpf, a, a % Pow2(k), batch);
    MulLe(0, batch, bpf);
    ReadNewest(buf, s, at, pos, n);
  }

  lemma ReadNewest(buf: seq<byte>, s: seq<byte>, at: nat, pos: nat, n: nat)
    requires |buf| > 0 && pos == at % |buf| && pos + n <= |buf| && |s| - |buf| <= at && at + n <= |s|
    requires Mirrors(buf, s, Max(0, |s| - |buf|), |s|)
    ensures buf[pos..pos + n] == s[at..at + n]
  {
    MirrorsRead(buf, s, Max(0, |s| - |buf|), |s|, at, n);
  }

  lemma ReadBounds(frames: nat, cap: nat, bpf: nat, a: nat, cell: nat, batch: nat)
    requires frames - cap <= a && a + batch <= frames && batch <= cap - cell
    ensures 0 <= cell * bpf && cell * bpf + batch * bpf <= cap * bpf
    ensures 0 <= a * bpf && a * bpf + batch * bpf == (a + batch) * bpf <= frames * bpf
    ensures frames * bpf - cap * bpf <= a * bpf
  {
    MulAdd(cell, batch, bpf);
    MulLe(cell + batch, cap, bpf);
    MulLe(0, cell, bpf);
    MulLe(0, a, bpf);
    MulAdd(a, batch, bpf);
    MulLe(a + batch, frames, bpf);
    MulLe(frames - cap, a, bpf);
    MulSub(frames, cap, bpf);
  }

  lemma CapacityExponent(capacity: nat) returns (k: nat)
    requires capacity <= TWO_63
    ensures k <= 63 && NextPowerOf2(capacity) == Pow2(k) && capacity <= Pow2(k)
  {
    RoundUp(capacity);
    if capacity == 0 {
      k := 0;
    } else {
      k :| k <= 63 && NextPow2(capacity) == Pow2(k);
    }
  }

  /** The first d bytes of out are the stream's from `from` on, the rest is untouched. */
  ghost predicate CopiedOut(out: seq<byte>, before: seq<byte>, stream: seq<byte>, from: nat, d: nat) {
    && d <= |out| == |before| && from + d <= |stream|
    && out[..d] == stream[from..from + d] && out[d..] == before[d..]
  }

  lemma CopiedMore(out: seq<byte>, next: seq<byte>, before: seq<byte>, stream: seq<byte>, from: nat, d: nat, n: nat)
    requires CopiedOut(out, before, stream, from, d) && d + n <= |out| && from + d + n <= |stream|
    requires next == Splice(out, d, stream[from + d..from + d + n])
    ensures CopiedOut(next, before, stream, from, d + n)
  {
    assert next[..d + n] == out[..d] + stream[from + d..from + d + n];
    assert stream[from..from + d + n] == stream[from..from + d] + stream[from + d..from + d + n];
    assert next[d + n..] == out[d..][n..] && before[d + n..] == before[d..][n..];
  }

  class RingBuffer {
    const capacityFrames: nat
    const capacityMask: nat
    const bytesPerFrame: nat
    const buffer: array<byte>
    var writePos: nat
    var totalWritten: nat
    ghost const exponent: nat
    ghost var Stream: seq<byte>   // every byte ever written
    ghost var Frames: nat         // and how many frames that is

    ghost predicate Shape() {
      && bytesPerFrame >= 1
      && exponent <= 63 && capacityFrames == Pow2(exponent) && capacityMask == capacityFrames - 1
      && buffer.Length == Bytes(capacityFrames) > 0
    }

    /** frames * bytesPerFrame */
    function Bytes(frames: nat): nat { Times(frames, bytesPerFrame) }

    lemma BytesIs(frames: nat)
      ensures Bytes(frames) == frames * bytesPerFrame
    {
      TimesIs(frames, bytesPerFrame);
    }

    /** The buffer holds the newest bytes of s, which is `frames` frames long. */
    ghost predicate Holds(s: seq<byte>, frames: nat)
      requires Shape()
      reads buffer
    {
      && |s| == Bytes(frames)
      && Tracks(buffer[..], s, Max(0, |s| - buffer.Length), |s|)
    }

    ghost predicate Valid()
      reads this, buffer
    {
      && Shape() && Holds(Stream, Frames)
      && writePos == totalWritten == Frames % TWO_64
    }

    /** Zero-filled buffer whose capacity is the request rounded up to a power of two. */
    constructor (capacity: nat, channels: nat, bytesPerSample: nat)
      requires capacity <= TWO_63 && channels >= 1 && bytesPerSample >= 1
      ensures Valid() && Stream == [] && Frames == 0 && fresh(buffer)
      ensures bytesPerFrame == Times(channels, bytesPerSample)
      ensures capacityFrames == NextPowerOf2(capacity) && capacity <= capacityFrames
    {
      ghost var k := CapacityExponent(capacity);
      MulAtLeast(channels, bytesPerSample);
      TimesIs(channels, bytesPerSample);
      var cap, bpf := NextPowerOf2(capacity), channels * bytesPerSample;
      MulAtLeast(cap, bpf);
      TimesIs(cap, bpf);
      exponent := k;
      capacityFrames := cap;
      capacityMask := cap - 1;
      bytesPerFrame := bpf;
      buffer := new byte[cap * bpf](_ => 0);
      writePos, totalWritten := 0, 0;
      Stream, Frames := [], 0;
    }

    /** The masked cursor of a frame. */
    lemma IndexIs(frames: nat)
      requires Shape()
      ensures BitAnd(frames % TWO_64, capacityMask) == Slot(frames, capacityFrames)
    {
      FrameCell(frames, exponent, bytesPerFrame);
      SlotIs(frames, capacityFrames);
    }

    /** Copies `batch` frames that do not wrap to the cells after stream s. */
    method CopyIn(ghost s: seq<byte>, ghost frames: nat, idx: nat, batch: nat,
                  data: array<byte>, src: nat, n: nat)
      requires Shape() && Holds(s, frames) && data != buffer
      requires idx == Slot(frames, capacityFrames) && batch <= capacityFrames - idx
      requires n == Bytes(batch) && src + n <= data.Length
      modifies buffer
      ensures Holds(s + data[src..src + n], frames + batch)
    {
      SlotIs(frames, capacityFrames);
      BytesIs(capacityFrames);
      BytesIs(frames);
      BytesIs(batch);
      BytesIs(frames + batch);
      ghost var t := s + data[src..src + n];
      TracksIs(buffer[..], s, Max(0, |s| - buffer.Length), |s|);
      WriteStep(buffer[..], s, frames, exponent, bytesPerFrame, batch, data[src..src + n]);
      CopyBytes(buffer, idx * bytesPerFrame, data, src, n);
      TracksIs(buffer[..], t, Max(0, |t| - buffer.Length), |t|);
    }

    /** Appends frames; the buffer then mirrors the newest bytes of the longer stream,
        also when more than a bufferful is written. */
    method Write(data: array<byte>, frameCount: nat)
      requires Valid() && data != buffer
      requires Bytes(frameCount) <= data.Length
      modifies this, buffer
      ensures Valid()
      ensures Stream == old(Stream) + data[..Bytes(frameCount)]
      ensures Frames == old(Frames) + frameCount
    {
      var pos := writePos;
      var remaining: nat := frameCount;
      var src: nat := 0;
      ghost var bytes := Bytes(frameCount);
      ghost var s, frames := Stream, Frames;
      while remaining > 0
        modifies buffer
        invariant frames + remaining == Frames + frameCount
        invariant src + Bytes(remaining) == bytes
        invariant pos == frames % TWO_64
        invariant s == Stream + data[..src]
        invariant Holds(s, frames)
      {
        var batch, n;
        batch, n, pos := WriteBatch(s, frames, pos, remaining, data, src);
        s, frames := s + data[src..src + n], frames + batch;
        src := src + n;
        remaining := remaining - batch;
      }
      StoreCursors(pos, frameCount, s);
    }

    /** The cursor, the total, and the history they stand for. */
    method StoreCursors(pos: nat, frameCount: nat, ghost s: seq<byte>)
      requires Shape() && Holds(s, Frames + frameCount) && totalWritten == Frames % TWO_64
      requires pos == (Frames + frameCount) % TWO_64
      modifies this
      ensures Valid() && Stream == s && Frames == old(Frames) + frameCount
    {
      WrapAdd(Frames, frameCount);
      writePos := pos;
      totalWritten := (totalWritten + frameCount) % TWO_64;
      Stream, Frames := s, Frames + frameCount;
    }

    /** Copies what does not wrap, and moves the cursor past it. */
    method WriteBatch(ghost s: seq<byte>, ghost frames: nat, pos: nat, remaining: nat, data: array<byte>, src: nat)
      returns (batch: nat, n: nat, next: nat)
      requires Shape() && Holds(s, frames) && data != buffer && pos == frames % TWO_64
      requires remaining > 0 && src + Bytes(remaining) <= data.Length
      modifies buffer
      ensures 0 < batch <= remaining && n == Bytes(batch) && n + Bytes(remaining - batch) == Bytes(remaining)
      ensures next == (frames + batch) % TWO_64 && Holds(s + data[src..src + n], frames + batch)
    {
      var idx := BitAnd(pos, capacityMask);
      IndexIs(frames);
      batch := Min(remaining, capacityFrames - idx);
      TimesAdd(batch, remaining - batch, bytesPerFrame);
      n := Bytes(batch);
      CopyIn(s, frames, idx, batch, data, src, n);
      WrapAdd(frames, batch);
      next := (pos + batch) % TWO_64;
    }

    /** What `available_frames` reports. It is min(Frames, capacity) until the 64-bit
        total wraps. */
    function AvailableFrames(): nat
      reads this
    {
      Min(totalWritten, capacityFrames)
    }

    /** The buffer makes all it holds available: until the total wraps, every frame written, or
        the newest capacityFrames of them. */
    lemma AvailableIs()
      requires Valid() && Frames < 0x1_0000_0000_0000_0000
      ensures AvailableFrames() == if Frames < capacityFrames then Frames else capacityFrames
    {
      ModUnique(Frames, TWO_64, 0, Frames);
    }

    /** Frames a read of `count` frames, `offset` frames back from the head, returns. */
    function Readable(offset: nat, count: nat): nat
      reads this
    {
      if offset >= AvailableFrames() then 0 else Min(count, AvailableFrames() - offset)
    }

    /** The stream's bytes of the `n` frames that end `offset` frames before the head. */
    ghost function Window(offset: nat, n: nat): seq<byte>
      requires Valid() && offset + n <= Frames
      reads this, buffer
    {
      TimesAdd(Frames - offset - n, n, bytesPerFrame);
      TimesAdd(Frames - offset, offset, bytesPerFrame);
      Stream[Bytes(Frames - offset - n)..Bytes(Frames - offset)]
    }

    /** Byte i of a window is byte i of the history from the frame it starts at. */
    lemma WindowIs(offset: nat, n: nat)
      requires Valid() && offset + n <= Frames
      ensures 0 <= n * bytesPerFrame == |Window(offset, n)|
      ensures var at := (Frames - offset - n) * bytesPerFrame;
        && 0 <= at && at + n * bytesPerFrame <= |Stream|
        && Window(offset, n) == Stream[at..at + n * bytesPerFrame]
    {
      BytesIs(n);
      BytesIs(Frames - offset - n);
      WindowAt(offset, n, Frames - offset - n);
    }

    /** Copies the newest frames that end `offset` frames back; the rest of `out` is
        untouched, and the wrap-around start is never needed. */
    method Read(out: array<byte>, offset: nat, count: nat) returns (readable: nat)
      requires Valid() && out != buffer && Bytes(count) <= out.Length
      modifies out
      ensures Valid()
      ensures readable == Readable(offset, count)
      ensures Frames < 0x1_0000_0000_0000_0000 ==>
                var held := if Frames < capacityFrames then Frames else capacityFrames;
                readable == if offset + count <= held then count else if offset <= held then held - offset else 0
      ensures readable > 0 ==> offset + readable <= Frames && offset + readable <= writePos
      ensures Bytes(readable) <= out.Length
      ensures readable > 0 ==> out[..Bytes(readable)] == Window(offset, readable)
      ensures out[Bytes(readable)..] == old(out[Bytes(readable)..])
    {
      var total := totalWritten;
      var avail := Min(total, capacityFrames);
      WhenUnwrapped(avail);
      if offset >= avail {
        return 0;
      }
      readable := Min(count, avail - offset);
      WithinTotal(offset + readable);
      TimesAdd(readable, count - readable, bytesPerFrame);
      CopyBack(out, offset, readable);
    }

    /** The frames that end `offset` frames back, from the start index on. */
    method CopyBack(out: array<byte>, offset: nat, readable: nat)
      requires Valid() && out != buffer && Bytes(readable) <= out.Length
      requires offset + readable <= Frames && offset + readable <= capacityFrames
      modifies out
      ensures Valid() && out[..Bytes(readable)] == Window(offset, readable)
      ensures out[Bytes(readable)..] == old(out[Bytes(readable)..])
    {
      var start := Start(offset + readable);
      ghost var first := Frames - offset - readable;   // absolute index of the first frame
      WindowAt(offset, readable, first);
      CopyWindow(out, start, first, readable);
    }

    lemma WindowAt(offset: nat, readable: nat, first: nat)
      requires Valid() && first + readable + offset == Frames
      ensures Bytes(first) + Bytes(readable) <= |Stream|
      ensures Window(offset, readable) == Stream[Bytes(first)..Bytes(first) + Bytes(readable)]
    {
      TimesAdd(first, readable, bytesPerFrame);
      TimesAdd(first + readable, offset, bytesPerFrame);
    }

    lemma WhenUnwrapped(avail: nat)
      requires Valid() && avail == AvailableFrames()
      ensures Frames < 0x1_0000_0000_0000_0000 ==> avail == if Frames < capacityFrames then Frames else capacityFrames
    {
      if Frames < 0x1_0000_0000_0000_0000 {
        AvailableIs();
      }
    }

    lemma WithinTotal(back: nat)
      requires Valid() && back <= AvailableFrames()
      ensures back <= Frames && back <= writePos && back <= capacityFrames
    {
    }

    /** The copy loop, from the start index on. */
    method CopyWindow(out: array<byte>, start: nat, ghost first: nat, readable: nat)
      requires Valid() && out != buffer && Bytes(readable) <= out.Length
      requires first + readable <= Frames <= first + capacityFrames && Bytes(first) + Bytes(readable) <= |Stream|
      requires Slot(start, capacityFrames) == Slot(first, capacityFrames)
      modifies out
      ensures CopiedOut(out[..], old(out[..]), Stream, Bytes(first), Bytes(readable))
    {
      ghost var before := out[..];
      var copied: nat, d: nat := 0, 0;
      while copied < readable
        invariant copied <= readable && d == Bytes(copied)
        invariant CopiedOut(out[..], before, Stream, Bytes(first), d)
      {
        var batch, n := CopyBatch(out, d, start, first, copied, readable, before);
        copied := copied + batch;
        d := d + n;
      }
    }

    /** One run of the window, up to the end of the buffer. */
    method CopyBatch(out: array<byte>, d: nat, start: nat, ghost first: nat, copied: nat, readable: nat,
                     ghost before: seq<byte>) returns (batch: nat, n: nat)
      requires Valid() && out != buffer && copied < readable && d == Bytes(copied) && Bytes(readable) <= out.Length
      requires first + readable <= Frames <= first + capacityFrames
      requires Slot(start, capacityFrames) == Slot(first, capacityFrames)
      requires CopiedOut(out[..], before, Stream, Bytes(first), d)
      modifies out
      ensures 0 < batch <= readable - copied && n == Bytes(batch) && d + n == Bytes(copied + batch) <= Bytes(readable)
      ensures CopiedOut(out[..], before, Stream, Bytes(first), d + n)
    {
      ghost var now := out[..];
      var idx := Cell(start, first, copied);
      batch := Min(readable - copied, capacityFrames - idx);
      n := Bytes(batch);
      ghost var from, at := NextBytes(first, copied, batch, readable);
      CopyOut(out, d, first + copied, at, idx, batch, n);
      CopiedMore(now, out[..], before, Stream, from, d, n);
    }

    method Cell(start: nat, ghost first: nat, i: nat) returns (idx: nat)
      requires Shape() && Slot(start, capacityFrames) == Slot(first, capacityFrames)
      ensures idx == Slot(first + i, capacityFrames) < capacityFrames
    {
      CellIs(start, first, i);
      idx := BitAnd((start + i) % TWO_64, capacityMask);
    }

    lemma NextBytes(first: nat, copied: nat, batch: nat, readable: nat) returns (from: nat, at: nat)
      requires copied + batch <= readable
      ensures from == Bytes(first) && at == Bytes(first + copied) == from + Bytes(copied)
      ensures Bytes(copied) + Bytes(batch) == Bytes(copied + batch) <= Bytes(readable)
    {
      from, at := Bytes(first), Bytes(first + copied);
      TimesAdd(first, copied, bytesPerFrame);
      TimesAdd(copied, batch, bytesPerFrame);
      TimesAdd(copied + batch, readable - copied - batch, bytesPerFrame);
    }

    /** The start index selects the cell of the frame `back` frames before the head. */
    method Start(back: nat) returns (start: nat)
      requires Valid() && back <= Frames
      ensures Slot(start, capacityFrames) == Slot(Frames - back, capacityFrames)
    {
      var wp := writePos;
      start := StartIndex(wp, back, capacityFrames);
      StartCell(Frames, back, exponent);
      SlotIs(start, capacityFrames);
      SlotIs(Frames - back, capacityFrames);
    }

    lemma CellIs(start: nat, first: nat, i: nat)
      requires Shape() && Slot(start, capacityFrames) == Slot(first, capacityFrames)
      ensures BitAnd((start + i) % TWO_64, capacityMask) == Slot(first + i, capacityFrames)
    {
      SlotIs(start, capacityFrames);
      SlotIs(first, capacityFrames);
      SlotIs(first + i, capacityFrames);
      SameCell(start, first, i, exponent);
    }

    /** Copies `batch` stored frames that do not wrap to out. */
    method CopyOut(out: array<byte>, d: nat, ghost frame: nat, ghost from: nat,
                   idx: nat, batch: nat, n: nat)
      requires Valid() && out != buffer
      requires frame + batch <= Frames <= frame + capacityFrames
      requires idx == Slot(frame, capacityFrames) && batch <= capacityFrames - idx
      requires from == Bytes(frame) && n == Bytes(batch) && d + n <= out.Length
      modifies out
      ensures from + n <= |Stream|
      ensures out[..] == Splice(old(out[..]), d, Stream[from..from + n])
    {
      SlotIs(frame, capacityFrames);
      BytesIs(frame);
      BytesIs(batch);
      BytesIs(capacityFrames);
      BytesIs(Frames);
      TracksIs(buffer[..], Stream, Max(0, |Stream| - buffer.Length), |Stream|);
      ReadStep(buffer[..], Stream, Frames, exponent, bytesPerFrame, frame, batch, idx * bytesPerFrame, from, n);
      CopyBytes(out, d, buffer, idx * bytesPerFrame, n);
    }
  }
}
