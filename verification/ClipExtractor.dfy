/** The clip extractor's own code, one thread at a time, and the window of history a clip
    holds. Interleavings of callers and worker are the subject of ClipProtocol. */
module Clips {

  import opened Bits
  import opened Bytes
  import opened Pcm
  import opened History
  import opened RecorderProtocol
  import Recorder

  /** Offsets in seconds relative to the time of the request. */
  datatype Request = Request(id: nat, start: int, end: int)

  /** Frames a clip asks for. */
  function Wanted(start: int, end: int, rate: nat): nat
    requires start < end
  {
    MulLe(0, end - start, rate);
    (end - start) * rate
  }

  lemma WantsNone(start: int, end: int, rate: nat, want: nat)
    requires start < end && want == Wanted(start, end, rate)
    ensures want == 0 <==> rate == 0
  {
    if rate > 0 {
      MulAtLeast(end - start, rate);
    }
  }

  class ClipExtractor {
    const ring: RingBuffer
    const rate: nat
    const channels: pos
    const sampleBytes: width
    var running: bool
    var nextId: nat
    var queue: seq<Request>
    var results: map<nat, Option<seq<int>>>   // samples of the clip file, or no file

    ghost predicate Formatted()
      reads ring, ring.buffer
    {
      ring.Valid() && ring.bytesPerFrame == channels * sampleBytes
    }

    ghost predicate Valid()
      reads this, ring, ring.buffer
    {
      Formatted() && Ticketed(nextId, queue, results)
    }

    constructor (ring: RingBuffer, rate: nat, channels: pos, sampleBytes: width)
      requires ring.Valid() && ring.bytesPerFrame == channels * sampleBytes
      ensures Valid() && this.ring == ring && this.rate == rate
      ensures this.channels == channels && this.sampleBytes == sampleBytes
      ensures !running && nextId == 1 && queue == [] && results == map[]
    {
      this.ring, this.rate, this.channels, this.sampleBytes := ring, rate, channels, sampleBytes;
      running, nextId, queue, results := false, 1, [], map[];
    }

    /** The clip of a request served now: the newest frames, as many as asked for and
        held; no file for an empty range or an empty buffer. */
    ghost function ClipOf(req: Request): Option<seq<int>>
      requires Formatted()
      reads ring, ring.buffer
    {
      if req.start >= req.end || ring.Readable(0, Wanted(req.start, req.end, rate)) == 0 then None
      else Some(FileSamples(ring.Window(0, ring.Readable(0, Wanted(req.start, req.end, rate)))))
    }

    /** A clip's file holds the samples of the clip of the history. */
    lemma ClipOfHistory(req: Request)
      requires Formatted() && req.start < req.end
      ensures var clip := Clip(ring.Stream, ring.bytesPerFrame, ring.Frames, ring.AvailableFrames(),
                               Wanted(req.start, req.end, rate));
        && clip.Some?
        && ClipOf(req) == if ring.AvailableFrames() == 0 || rate == 0 then None else Some(FileSamples(clip.value))
    {
      var want := Wanted(req.start, req.end, rate);
      WantsNone(req.start, req.end, rate, want);
      ClipWindow(ring, want);
    }

    /** What the clip of a request is, from the history alone: no file for an empty range or
        when nothing was written; else the samples of the newest frames, as many as the range
        has and the buffer holds. */
    lemma ClipPlain(req: Request) returns (n: nat)
      requires Formatted() && rate >= 1 && ring.Frames < 0x1_0000_0000_0000_0000
      ensures req.start >= req.end || ring.Frames == 0 ==> ClipOf(req) == None
      ensures req.start < req.end && ring.Frames > 0 ==>
        && 0 < n == (var held := if ring.Frames < ring.capacityFrames then ring.Frames else ring.capacityFrames;
                     if (req.end - req.start) * rate < held then (req.end - req.start) * rate else held)
        && 0 <= n * ring.bytesPerFrame <= |ring.Stream|
        && ClipOf(req) == Some(FileSamples(ring.Stream[|ring.Stream| - n * ring.bytesPerFrame..]))
    {
      n := 0;
      if req.start < req.end {
        ring.AvailableIs();
        MulAtLeast(req.end - req.start, rate);
        n := ring.Readable(0, Wanted(req.start, req.end, rate));
        NewestBytes(n);
      }
    }

    lemma NewestBytes(n: nat)
      requires Formatted() && n <= ring.Frames
      ensures 0 <= n * ring.bytesPerFrame <= |ring.Stream|
      ensures ring.Window(0, n) == ring.Stream[|ring.Stream| - n * ring.bytesPerFrame..]
    {
      ring.BytesIs(n);
      TimesAdd(ring.Frames - n, n, ring.bytesPerFrame);
    }

    /** A request for a range that ends in the past, all of it held, gets as many frames
        ending now. */
    lemma PastRequestEndsNow(req: Request)
      requires Formatted() && rate >= 1
      requires req.start < req.end < 0 && Wanted(req.start, req.end, rate) <= ring.AvailableFrames()
      ensures var late := Between(ring.Stream, ring.bytesPerFrame,
                                  ring.Frames + req.start * rate - req.end * rate, ring.Frames);
        late.Some? && ClipOf(req) == Some(FileSamples(late.value))
    {
      ClipOfHistory(req);
      ClipWindow(ring, Wanted(req.start, req.end, rate));
      ClipMoved(ring.Stream, ring.bytesPerFrame, ring.Frames, ring.Frames, ring.AvailableFrames(),
                req.start, req.end, rate);
      MulAtLeast(req.end - req.start, rate);
    }

    function FileSamples(bytes: seq<byte>): seq<int> { Recorder.FileSamples(sampleBytes, bytes) }

    /** The sleep before the read is the caller's: the ring is as it is after it. */
    method ExtractClip(req: Request) returns (clip: Option<seq<int>>)
      requires Formatted()
      ensures clip == ClipOf(req)
    {
      var totalSeconds := req.end - req.start;
      if totalSeconds <= 0 { return None; }
      var totalFrames := Wanted(req.start, req.end, rate);
      var samples := new byte[ring.Bytes(totalFrames)](_ => 0);
      var read := ring.Read(samples, 0, totalFrames);
      if read == 0 { return None; }
      ring.BytesIs(read);
      MulLe(0, read, channels);
      MulAssoc(read, channels, sampleBytes);
      var file := Recorder.Unpack(sampleBytes, samples, 0, read * channels, ring.Bytes(read));
      assert samples[0..ring.Bytes(read)] == samples[..ring.Bytes(read)];
      return Some(file);
    }

    method RequestClip(start: int, end: int) returns (id: nat)
      requires Valid()
      modifies this`nextId, this`queue
      ensures Valid()
      ensures id == old(nextId) && nextId == id + 1
      ensures queue == old(queue) + [Request(id, start, end)]
    {
      id := nextId;
      nextId := nextId + 1;
      queue := queue + [Request(id, start, end)];
    }

    /** The return of a synchronous caller: its own result, erased, or nothing. */
    method TakeResult(id: nat) returns (clip: Option<seq<int>>)
      requires Valid()
      modifies this`results
      ensures Valid()
      ensures clip == if id in old(results) then old(results)[id] else None
      ensures results == old(results) - {id}
    {
      if id !in results {
        assert results - {id} == results;
        return None;
      }
      clip := results[id];
      results := results - {id};
    }

    /** The results after serving a queue front to back. */
    ghost function Served(q: seq<Request>, r: map<nat, Option<seq<int>>>): map<nat, Option<seq<int>>>
      requires Formatted()
      reads ring, ring.buffer
    {
      if q == [] then r else Served(q[1..], r[q[0].id := ClipOf(q[0])])
    }

    /** The worker loop up to its next wait, or its exit once stopped. */
    method ServeQueue()
      requires Valid()
      modifies this`queue, this`results
      ensures Valid() && queue == [] && results == Served(old(queue), old(results))
    {
      while queue != []
        invariant Valid()
        invariant Served(queue, results) == Served(old(queue), old(results))
        decreases |queue|
      {
        var req := queue[0];
        queue := queue[1..];
        var clip := ExtractClip(req);
        results := results[req.id := clip];
      }
    }

    /** Serving the queue gives every queued request its own clip under its own id and
        changes no result already there; nothing else gets a result. */
    lemma ServedIs(id: nat)
      requires Valid()
      ensures forall i :: 0 <= i < |queue| && queue[i].id == id ==>
                id !in results && id in Served(queue, results) && Served(queue, results)[id] == ClipOf(queue[i])
      ensures id in results ==> id in Served(queue, results) && Served(queue, results)[id] == results[id]
      ensures id in Served(queue, results) ==> id in results || exists i :: 0 <= i < |queue| && queue[i].id == id
    {
      ServedEach(queue, results, id);
    }

    lemma {:induction false} ServedEach(q: seq<Request>, r: map<nat, Option<seq<int>>>, id: nat)
      requires Formatted() && DistinctIds(q)
      ensures forall i :: 0 <= i < |q| && q[i].id == id ==>
                id in Served(q, r) && Served(q, r)[id] == ClipOf(q[i])
      ensures (forall i :: 0 <= i < |q| ==> q[i].id != id) ==>
                (id in Served(q, r) <==> id in r) && (id in r ==> Served(q, r)[id] == r[id])
    {
      if q != [] {
        var rest, r' := q[1..], r[q[0].id := ClipOf(q[0])];
        assert forall i :: 0 <= i < |rest| ==> rest[i] == q[i + 1];
        ServedEach(rest, r', id);
        forall i | 0 <= i < |q| && q[i].id == id
          ensures id in Served(q, r) && Served(q, r)[id] == ClipOf(q[i])
        {
          if i > 0 {
            assert rest[i - 1] == q[i];
          } else {
            assert forall j :: 0 <= j < |rest| ==> rest[j].id != id;
          }
        }
      }
    }
  }

  /** Ids are drawn in order: those queued are distinct, and queued or answered ids are
      below the next one, never both. */
  ghost predicate Ticketed(nextId: nat, queue: seq<Request>, results: map<nat, Option<seq<int>>>) {
    && DistinctIds(queue)
    && (forall i :: 0 <= i < |queue| ==> queue[i].id < nextId && queue[i].id !in results)
    && (forall id :: id in results ==> id < nextId)
  }

  ghost predicate DistinctIds(q: seq<Request>) {
    forall i, j :: 0 <= i < j < |q| ==> q[i].id != q[j].id
  }

  // ------------------------------------------------------------- clip window

  lemma TimesLe(a: nat, b: nat, bpf: nat)
    requires a <= b
    ensures Times(a, bpf) <= Times(b, bpf)
  {
    TimesAdd(a, b - a, bpf);
  }

  /** Absolute frames a to b of a history, if it holds them. */
  function Between(history: seq<byte>, bpf: nat, a: int, b: int): Option<seq<byte>> {
    if 0 <= a <= b && Times(b, bpf) <= |history| then
      TimesLe(a, b, bpf);
      Some(history[Times(a, bpf)..Times(b, bpf)])
    else None
  }

  /** The clip at a head of `head` frames of which `avail` are held. */
  function Clip(history: seq<byte>, bpf: nat, head: nat, avail: nat, want: nat): Option<seq<byte>> {
    Between(history, bpf, head - Min(want, avail), head)
  }

  /** What the extractor reads, at any head: the clip of the history written so far. */
  lemma ClipWindow(ring: RingBuffer, want: nat)
    requires ring.Valid()
    ensures ring.AvailableFrames() <= ring.Frames && ring.Readable(0, want) <= ring.Frames
    ensures |ring.Stream| == Times(ring.Frames, ring.bytesPerFrame)
    ensures Clip(ring.Stream, ring.bytesPerFrame, ring.Frames, ring.AvailableFrames(), want)
         == Some(ring.Window(0, ring.Readable(0, want)))
  {
    TotalLe(ring.Frames);
    TimesLe(ring.Frames - ring.Readable(0, want), ring.Frames, ring.bytesPerFrame);
  }

  lemma TotalLe(frames: nat)
    ensures frames % TWO_64 <= frames
  {
  }

  /** Held in full, the clip is the requested range moved by as much as the head is past the
      end of that range. */
  lemma ClipMoved(history: seq<byte>, bpf: nat, T: int, head: nat, avail: nat, start: int, end: int, rate: nat)
    requires start < end && Wanted(start, end, rate) <= avail <= head && |history| == Times(head, bpf)
    ensures var moved := head - (T + end * rate);
      Clip(history, bpf, head, avail, Wanted(start, end, rate))
      == Between(history, bpf, T + start * rate + moved, T + end * rate + moved)
  {
    MulSub(end, start, rate);
  }

  ghost predicate ClipIs(history: seq<byte>, bpf: nat, head: nat, avail: nat, want: nat, from: int, to: int) {
    Clip(history, bpf, head, avail, want) == Between(history, bpf, from, to)
  }

  lemma RangeSize(T: int, start: int, end: int, rate: pos)
    requires start < end
    ensures T + start * rate == T + end * rate - Wanted(start, end, rate) && Wanted(start, end, rate) > 0
  {
    MulSub(end, start, rate);
    MulAtLeast(end - start, rate);
  }

  /** For a request made at head T and read at head `head`: the clip is the requested range
      of the history, whatever was recorded, if and only if the head has advanced by the end
      offset and all of the range is still held. */
  lemma ClipExactIff(bpf: pos, T: int, head: nat, avail: nat, start: int, end: int, rate: pos)
    requires start < end && avail <= head
    ensures var want, from, to := Wanted(start, end, rate), T + start * rate, T + end * rate;
      (forall history: seq<byte> | |history| == Times(head, bpf) :: ClipIs(history, bpf, head, avail, want, from, to))
      <==> head == to && want <= avail
  {
    RangeSize(T, start, end, rate);
    ExactIff(bpf, head, avail, Wanted(start, end, rate), T + start * rate, T + end * rate);
  }

  lemma ExactIff(bpf: pos, head: nat, avail: nat, want: pos, from: int, to: int)
    requires avail <= head && from == to - want
    ensures (forall history: seq<byte> | |history| == Times(head, bpf) :: ClipIs(history, bpf, head, avail, want, from, to))
            <==> head == to && want <= avail
  {
    if !(head == to && want <= avail) {
      WrongRange(bpf, head, avail, want, to);
      assert !ClipIs(EndMarked(Times(head, bpf)), bpf, head, avail, want, from, to);
    }
  }

  /** Zeros, and a 1 in the last byte. */
  function EndMarked(n: nat): (history: seq<byte>)
    ensures |history| == n
  {
    seq(n, i => if i == n - 1 then 1 else 0)
  }

  lemma WrongRange(bpf: pos, head: nat, avail: nat, want: pos, to: int)
    requires avail <= head && !(head == to && want <= avail)
    ensures var history := EndMarked(Times(head, bpf));
      Clip(history, bpf, head, avail, want) != Between(history, bpf, to - want, to)
  {
    LastByteTells(EndMarked(Times(head, bpf)), bpf, head, Min(want, avail), to, want);
  }

  lemma BetweenBytes(history: seq<byte>, bpf: nat, from: int, to: int, n: nat)
    requires from == to - n && Between(history, bpf, from, to).Some?
    ensures 0 <= from && Times(n, bpf) <= Times(to, bpf) <= |history|
    ensures Between(history, bpf, from, to).value == history[Times(to, bpf) - Times(n, bpf)..Times(to, bpf)]
  {
    TimesAdd(from, n, bpf);
  }

  /** Only the last byte of this history is 1, so only a range up to the head ends with it. */
  lemma LastByteTells(history: seq<byte>, bpf: pos, head: nat, n: nat, to: int, want: pos)
    requires |history| == Times(head, bpf) && n <= head && n <= want
    requires forall i :: 0 <= i < |history| ==> history[i] == if i == |history| - 1 then 1 else 0
    requires to != head || n != want
    ensures Between(history, bpf, head - n, head) != Between(history, bpf, to - want, to)
  {
    var x, y := Between(history, bpf, head - n, head), Between(history, bpf, to - want, to);
    TimesLe(head - n, head, bpf);
    BetweenBytes(history, bpf, head - n, head, n);
    if y.Some? {
      BetweenBytes(history, bpf, to - want, to, want);
      TimesGrows(n, want, bpf);
      if n == want {
        if to < head {
          TimesGrows(to, head, bpf);
          TimesGrows(0, want, bpf);
          assert x.value[|x.value| - 1] == 1 && y.value[|y.value| - 1] == 0;
        } else {
          TimesGrows(head, to, bpf);
        }
      }
    }
  }

  lemma TimesGrows(a: nat, b: nat, bpf: pos)
    requires a <= b
    ensures a < b ==> Times(a, bpf) < Times(b, bpf)
  {
    TimesAdd(a, b - a, bpf);
    if a < b {
      TimesAtLeast(b - a, bpf);
    }
  }

  lemma TimesAtLeast(n: pos, bpf: pos)
    ensures Times(n, bpf) >= bpf
  {
    TimesIs(n, bpf);
    MulAtLeast(n, bpf);
  }

  /** With a negative end offset nothing is waited for. At the request's own head the clip is
      that of the request moved up to end now, -end * rate frames too late, and for some
      history it is not the requested range. */
  lemma PastRangeIsMissed(bpf: pos, T: nat, avail: nat, start: int, end: int, rate: pos)
    requires start < end < 0 && avail <= T
    ensures Wanted(start, end, rate) == Wanted(start - end, 0, rate)
    ensures forall history: seq<byte> | |history| == Times(T, bpf) && Wanted(start, end, rate) <= avail ::
      Clip(history, bpf, T, avail, Wanted(start, end, rate))
      == Between(history, bpf, T + start * rate - end * rate, T)
    ensures var want, from, to := Wanted(start, end, rate), T + start * rate, T + end * rate;
      to < T &&
      !(forall history: seq<byte> | |history| == Times(T, bpf) :: ClipIs(history, bpf, T, avail, want, from, to))
  {
    MulLe(end, -1, rate);
    ClipExactIff(bpf, T, T, avail, start, end, rate);
    forall history: seq<byte> | |history| == Times(T, bpf) && Wanted(start, end, rate) <= avail
      ensures Clip(history, bpf, T, avail, Wanted(start, end, rate))
           == Between(history, bpf, T + start * rate - end * rate, T)
    {
      ClipMoved(history, bpf, T, T, avail, start, end, rate);
    }
  }

  /** With the head advanced by the end offset, a range reaching back too far is cut to the
      frames still held. */
  lemma ClipCut(history: seq<byte>, bpf: nat, T: int, head: nat, avail: nat, start: int, end: int, rate: nat)
    requires start < end && avail <= head && head == T + end * rate
    ensures Clip(history, bpf, head, avail, Wanted(start, end, rate))
         == Between(history, bpf, Max(T + start * rate, head - avail), T + end * rate)
  {
    MulSub(end, start, rate);
  }
}
