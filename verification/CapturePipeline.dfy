/** The capture callback: transforms a period, hands the same bytes to the history, the
    block recorder and the publisher, and meters them. */
module Pipeline {

  import opened Bits
  import opened Bytes
  import opened Pcm
  import opened Dsp
  import opened SampleLoops
  import opened History
  import opened Recorder
  import opened Publisher
  import opened RecorderProtocol
  import opened RecorderResults
  import Metering

  lemma RewrittenSamples(w: width, now: seq<byte>, before: seq<byte>, p: nat, ys: seq<int>)
    requires Rewritten(w, now, before, p, ys)
    ensures Samples(w, now, |ys|) == ys
  {
    DecodeEncode(w, ys);
  }

  lemma SamplesEncode(w: width, b: seq<byte>, n: nat)
    requires 0 <= n * w <= |b|
    ensures Encode(w, Samples(w, b, n)) == b[..n * w]
  {
    ModUnique(n * w, w, n, 0);
    EncodeDecode(w, b[..n * w]);
  }

  lemma SamplesOfCopy(w: width, a: seq<byte>, b: seq<byte>, n: nat)
    requires 0 <= n * w <= |a| && n * w <= |b| && a[..n * w] == b[..n * w]
    ensures Samples(w, a, n) == Samples(w, b, n)
  {
  }

  /** The recorder's writer between two periods: not scheduled, or still asleep; woken if
      the flush threshold is reached; or still in its drain loop, which ends with the ring
      empty. */
  datatype Turn = Asleep | Wakes | Drains

  class CapturePipeline {
    const sampleBytes: width
    const channels: pos
    const downmixMono: bool
    const history: RingBuffer
    const recorder: BlockRecorder
    const publisher: SamplePublisher
    const monoBuffer: array<byte>
    ghost const bytesPerFrame: nat    // of what is fanned out
    ghost const seal: nat
    var gainBuffer: array<byte>
    var gain: real
    var dcRemove: bool
    var dc: seq<Dc>          // dc_prev_x_ and dc_prev_y_
    var running: bool
    var peakLevel: int
    var totalFrames: nat
    ghost var Account: Books

    /** The settings the next period is processed with. */
    function Current(): Settings
      reads `gain, `dcRemove
    {
      Settings(sampleBytes, channels, downmixMono, gain, dcRemove)
    }

    function OutChannels(): pos { if downmixMono && channels >= 2 then 1 else channels }

    ghost predicate Apart()
      reads `gainBuffer, publisher`shm
    {
      && monoBuffer != gainBuffer
      && history.buffer != monoBuffer && history.buffer != gainBuffer
      && recorder.ring != monoBuffer && recorder.ring != gainBuffer
      && recorder.writeBuffer != monoBuffer && recorder.writeBuffer != gainBuffer
      && publisher.shm != monoBuffer && publisher.shm != gainBuffer
      && history.buffer != recorder.ring && history.buffer != recorder.writeBuffer
      && publisher.shm != history.buffer && publisher.shm != recorder.ring && publisher.shm != recorder.writeBuffer
    }

    ghost predicate HistoryOk()
      reads history, history.buffer
    {
      history.Valid() && history.bytesPerFrame == bytesPerFrame
    }

    ghost predicate RecorderOk()
      reads recorder, recorder.ring, recorder.writeBuffer
    {
      recorder.Valid() && recorder.sampleBytes == sampleBytes && recorder.cfg.bpf == bytesPerFrame
    }

    ghost predicate PublisherOk()
      reads publisher, publisher.shm
    {
      publisher.Valid() && publisher.shm != null && publisher.format.BytesPerFrame() == bytesPerFrame
    }

    ghost predicate Consumers()
      reads history, history.buffer, recorder, recorder.ring, recorder.writeBuffer, publisher, publisher.shm
    {
      HistoryOk() && RecorderOk() && PublisherOk()
    }

    /** Consumers(), k unfoldings away: a method that only passes the consumers on does not
        look into them. */
    ghost predicate Sealed(k: nat)
      reads history, history.buffer, recorder, recorder.ring, recorder.writeBuffer, publisher, publisher.shm
    {
      if k == 0 then Consumers() else Sealed(k - 1)
    }

    lemma {:induction false} SealedIs(k: nat)
      ensures Sealed(k) <==> Consumers()
    {
      if k > 0 {
        SealedIs(k - 1);
      }
    }

    ghost predicate Valid()
      reads `gainBuffer, `dc, history, history.buffer, recorder, recorder.ring, recorder.writeBuffer, publisher, publisher.shm
    {
      && Apart() && seal > 9 && Sealed(seal)
      && |dc| == OutChannels() && bytesPerFrame == Times(OutChannels(), sampleBytes)
    }

    /** The books balance with what the history and the recorder were given. */
    ghost predicate Balanced()
      reads `Account, `gain, `dcRemove, `dc, history, recorder
    {
      Balance(seal, Account, Current(), dc, history.Stream, recorder.Accepted)
    }

    /** Wires up consumers sized for the output channels. */
    constructor (sampleBytes: width, channels: pos, downmixMono: bool, period: nat, gain: real, dcRemove: bool,
                 history: RingBuffer, recorder: BlockRecorder, publisher: SamplePublisher, ghost bpf: nat)
      requires bpf == Times(if downmixMono && channels >= 2 then 1 else channels, sampleBytes)
      requires history.Valid() && history.bytesPerFrame == bpf && history.Stream == []
      requires recorder.Valid() && recorder.sampleBytes == sampleBytes && recorder.cfg.bpf == bpf && recorder.Accepted == []
      requires publisher.Valid() && publisher.shm != null && publisher.format.BytesPerFrame() == bpf
      requires history.buffer != recorder.ring && history.buffer != recorder.writeBuffer
      requires publisher.shm != history.buffer && publisher.shm != recorder.ring && publisher.shm != recorder.writeBuffer
      ensures Valid() && Balanced() && Account == Books([], dc, [], []) && !running && AllZero(dc)
      ensures this.gain == gain && this.dcRemove == dcRemove
      ensures this.sampleBytes == sampleBytes && this.channels == channels && this.downmixMono == downmixMono
      ensures this.history == history && this.recorder == recorder && this.publisher == publisher
      ensures fresh(gainBuffer) && fresh(monoBuffer)
      ensures downmixMono && channels >= 2 ==> monoBuffer.Length == Times(period, sampleBytes)
    {
      var outCh: pos := if downmixMono && channels >= 2 then 1 else channels;
      this.sampleBytes, this.channels, this.downmixMono := sampleBytes, channels, downmixMono;
      bytesPerFrame, seal := bpf, 10;
      this.history, this.recorder, this.publisher := history, recorder, publisher;
      monoBuffer := new byte[if downmixMono && channels >= 2 then Times(period, sampleBytes) else 0](_ => 0);
      gainBuffer := new byte[Times(Times(period, channels), sampleBytes)](_ => 0);
      this.gain, this.dcRemove, dc := gain, dcRemove, seq(outCh, _ => DcZero);
      running, peakLevel, totalFrames := false, 0, 0;
      Account := Books([], seq(outCh, _ => DcZero), [], []);
      new;
      SealedIs(seal);
      NewEpoch(seal, [], Current(), dc, []);
    }

    // ------------------------------------------------------------- transform

    /** Downmix, gain and DC removal; the source period is only read. */
    method Transform(data: array<byte>, sampleCount: nat) returns (out: array<byte>, outSamples: nat)
      requires |dc| == OutChannels() && sampleCount % channels == 0
      requires 0 <= sampleCount * sampleBytes <= data.Length
      requires Current().Downmixing() ==> (sampleCount / channels) * sampleBytes <= monoBuffer.Length
      requires data != monoBuffer && data != gainBuffer && monoBuffer != gainBuffer
      modifies this`gainBuffer, this`dc, gainBuffer, monoBuffer
      ensures gainBuffer == old(gainBuffer) || fresh(gainBuffer)
      ensures out == data || out == monoBuffer || out == gainBuffer
      ensures data[..] == old(data[..])
      ensures var (st, ys) := Chunk(Current(), old(dc), Samples(sampleBytes, old(data[..]), sampleCount));
        && dc == st && outSamples == |ys| && 0 <= outSamples * sampleBytes <= out.Length
        && Samples(sampleBytes, out[..], outSamples) == ys
    {
      var cur, curSamples := Mix(data, sampleCount);
      ghost var xs := Samples(sampleBytes, data[..], sampleCount);
      ghost var mixed := Mixed(Current(), xs);
      assert Samples(sampleBytes, cur[..], curSamples) == mixed;
      outSamples := curSamples;
      var dataSize: nat := curSamples * sampleBytes;
      out := Shape(cur, curSamples, dataSize);
    }

    /** Gain and DC removal, each if it is on. */
    method Shape(cur: array<byte>, n: nat, dataSize: nat) returns (out: array<byte>)
      requires |dc| == OutChannels() && n % OutChannels() == 0
      requires cur != gainBuffer && dataSize == n * sampleBytes <= cur.Length
      modifies this`gainBuffer, this`dc, gainBuffer
      ensures gainBuffer == old(gainBuffer) || fresh(gainBuffer)
      ensures (out == cur || out == gainBuffer) && dataSize <= out.Length && cur[..] == old(cur[..])
      ensures var (st, ys) := Shaped(Current(), old(dc), Samples(sampleBytes, old(cur[..]), n));
        dc == st && Samples(sampleBytes, out[..], n) == ys
    {
      out := cur;
      if gain != 1.0 {
        out := AmplifyOut(cur, n, dataSize);
      }
      if dcRemove {
        out := FilterOut(cur, out, n, dataSize);
      }
    }

    /** The gain, from the period into the scratch buffer. */
    method AmplifyOut(cur: array<byte>, n: nat, dataSize: nat) returns (out: array<byte>)
      requires cur != gainBuffer && dataSize == n * sampleBytes <= cur.Length
      modifies this`gainBuffer, gainBuffer
      ensures out == gainBuffer && (gainBuffer == old(gainBuffer) || fresh(gainBuffer)) && dataSize <= out.Length
      ensures Samples(sampleBytes, out[..], n) == Amplify(sampleBytes, gain, Samples(sampleBytes, old(cur[..]), n))
    {
      Reserve(dataSize);
      ghost var before, xs := gainBuffer[..], Samples(sampleBytes, cur[..], n);
      ApplyGain(sampleBytes, cur, gainBuffer, n, gain);
      RewrittenSamples(sampleBytes, gainBuffer[..], before, dataSize, Amplify(sampleBytes, gain, xs));
      out := gainBuffer;
    }

    /** Grows the scratch buffer when a period needs more. */
    method Reserve(size: nat)
      modifies this`gainBuffer
      ensures gainBuffer.Length >= size
      ensures gainBuffer == old(gainBuffer) || fresh(gainBuffer)
    {
      if gainBuffer.Length < size {
        gainBuffer := new byte[size](_ => 0);
      }
    }

    method Mix(data: array<byte>, sampleCount: nat) returns (cur: array<byte>, curSamples: nat)
      requires sampleCount % channels == 0 && 0 <= sampleCount * sampleBytes <= data.Length
      requires Current().Downmixing() ==> (sampleCount / channels) * sampleBytes <= monoBuffer.Length
      requires data != monoBuffer
      modifies monoBuffer
      ensures cur == data || cur == monoBuffer
      ensures 0 <= curSamples * sampleBytes <= cur.Length && curSamples % OutChannels() == 0
      ensures Samples(sampleBytes, cur[..], curSamples) == Mixed(Current(), Samples(sampleBytes, data[..], sampleCount))
    {
      if downmixMono && channels >= 2 {
        var frames := sampleCount / channels;
        ghost var xs := Samples(sampleBytes, data[..], sampleCount);
        TwicePerFrame(sampleCount, channels);
        MulLe(0, 2 * frames, sampleBytes);
        MulLe(2 * frames, sampleCount, sampleBytes);
        MulLe(0, frames, sampleBytes);
        ghost var before := monoBuffer[..];
        ApplyDownmix(sampleBytes, data, monoBuffer, frames);
        SamplesPrefix(sampleBytes, data[..], sampleCount, 2 * frames);
        assert Downmix(xs[..2 * frames], frames) == Downmix(xs, frames);
        RewrittenSamples(sampleBytes, monoBuffer[..], before, frames * sampleBytes, Downmix(xs, frames));
        ModUnique(frames, 1, frames, 0);
        return monoBuffer, frames;
      }
      return data, sampleCount;
    }

    /** DC removal in place in the scratch buffer, copying the period there first unless
        the gain already did. */
    method FilterOut(cur: array<byte>, src: array<byte>, n: nat, dataSize: nat) returns (out: array<byte>)
      requires src == cur || src == gainBuffer
      requires cur != gainBuffer && dataSize == n * sampleBytes <= src.Length
      requires |dc| == OutChannels() && n % OutChannels() == 0
      modifies this`gainBuffer, this`dc, gainBuffer
      ensures out == gainBuffer && (gainBuffer == old(gainBuffer) || fresh(gainBuffer))
      ensures dataSize <= out.Length
      ensures var (st, ys) := DcProcess(sampleBytes, old(dc), Samples(sampleBytes, old(src[..]), n));
        dc == st && Samples(sampleBytes, out[..], n) == ys
    {
      out := CopyOnce(cur, src, n, dataSize);
      ghost var before, st := gainBuffer[..], dc;
      var c := OutChannels();
      var frames := WholeFrameCount(n, c);
      dc := ApplyDcRemove(sampleBytes, gainBuffer, frames, c, dc);
      RewrittenSamples(sampleBytes, gainBuffer[..], before, dataSize,
                       DcProcess(sampleBytes, st, Samples(sampleBytes, before, n)).1);
    }

    method CopyOnce(cur: array<byte>, src: array<byte>, ghost n: nat, dataSize: nat) returns (out: array<byte>)
      requires src == cur || src == gainBuffer
      requires cur != gainBuffer && dataSize == n * sampleBytes <= src.Length
      modifies this`gainBuffer, gainBuffer
      ensures out == gainBuffer && (gainBuffer == old(gainBuffer) || fresh(gainBuffer))
      ensures dataSize <= out.Length && Samples(sampleBytes, out[..], n) == Samples(sampleBytes, old(src[..]), n)
    {
      out := src;
      if out == cur {
        Reserve(dataSize);
        CopyBytes(gainBuffer, 0, cur, 0, dataSize);
        assert cur[0..dataSize] == cur[..][..dataSize];
        SamplesOfCopy(sampleBytes, gainBuffer[..], cur[..], n);
        out := gainBuffer;
      }
    }

    // ---------------------------------------------------------------- fan-out

    method FeedHistory(out: array<byte>, frames: nat, ghost n: nat)
      requires HistoryOk() && out != history.buffer && n == Times(frames, bytesPerFrame) <= out.Length
      modifies history, history.buffer
      ensures HistoryOk() && history.Stream == old(history.Stream) + out[..n]
    {
      history.Write(out, frames);
    }

    method FeedRecorder(out: array<byte>, frames: nat, ghost n: nat)
      requires RecorderOk() && out != recorder.ring && out != recorder.writeBuffer
      requires n == Times(frames, bytesPerFrame) <= out.Length
      modifies recorder`ringWrite, recorder`Accepted, recorder`Frames, recorder.ring
      ensures RecorderOk()
      ensures recorder.Accepted == old(recorder.Accepted) + (if old(Keeps(n)) then out[..n] else [])
    {
      recorder.Push(out, frames);
    }

    method FeedPublisher(out: array<byte>, frames: nat, timestamp: nat, ghost n: nat)
      requires PublisherOk() && out != publisher.shm && n == Times(frames, bytesPerFrame) <= out.Length
      requires timestamp < TWO_64
      modifies publisher`writeCounter, publisher`Published, publisher`LastStamp, publisher.shm
      ensures PublisherOk()
      ensures publisher.Published == old(publisher.Published) + 1 && publisher.LastStamp == timestamp
      ensures Shared() == Overlaid(old(Shared()), out[..n])
    {
      publisher.Publish(out, frames, timestamp);
    }

    /** The same bytes to the history, the recorder and the publisher. */
    method FanOut(out: array<byte>, frames: nat, timestamp: nat, ghost n: nat)
      requires Apart() && Sealed(seal) && timestamp < TWO_64
      requires out != history.buffer && out != recorder.ring && out != recorder.writeBuffer && out != publisher.shm
      requires n == Times(frames, bytesPerFrame) <= out.Length
      modifies history, history.buffer, recorder`ringWrite, recorder`Accepted, recorder`Frames, recorder.ring
      modifies publisher`writeCounter, publisher`Published, publisher`LastStamp, publisher.shm
      ensures Sealed(seal) && history.Stream == old(history.Stream) + out[..n]
      ensures recorder.Accepted == old(recorder.Accepted) + (if old(Keeps(n)) then out[..n] else [])
      ensures publisher.Published == old(publisher.Published) + 1 && publisher.LastStamp == timestamp
      ensures Shared() == Overlaid(old(Shared()), out[..n])
      ensures |Shared()| == |old(Shared())| && forall i :: 0 <= i < |Shared()| ==>
                Shared()[i] == if i < n then out[i] else old(Shared())[i]
    {
      SealedIs(seal);
      FeedAll(out, frames, timestamp, n);
      SealedIs(seal);
      OverlaidAt(old(Shared()), out[..n]);
    }

    method FeedAll(out: array<byte>, frames: nat, timestamp: nat, ghost n: nat)
      requires Apart() && Consumers() && timestamp < TWO_64
      requires out != history.buffer && out != recorder.ring && out != recorder.writeBuffer && out != publisher.shm
      requires n == Times(frames, bytesPerFrame) <= out.Length
      modifies history, history.buffer, recorder`ringWrite, recorder`Accepted, recorder`Frames, recorder.ring
      modifies publisher`writeCounter, publisher`Published, publisher`LastStamp, publisher.shm
      ensures Consumers() && history.Stream == old(history.Stream) + out[..n]
      ensures recorder.Accepted == old(recorder.Accepted) + (if old(Keeps(n)) then out[..n] else [])
      ensures publisher.Published == old(publisher.Published) + 1 && publisher.LastStamp == timestamp
      ensures Shared() == Overlaid(old(Shared()), out[..n])
    {
      FeedHistory(out, frames, n);
      FeedRecorder(out, frames, n);
      FeedPublisher(out, frames, timestamp, n);
    }

    /** Whether the recorder will take a period of that many bytes. */
    ghost predicate Keeps(bytes: nat)
      reads recorder
    {
      recorder.recording && recorder.HasRoom(bytes)
    }

    /** The sample region that other processes read. */
    ghost function Shared(): seq<byte>
      reads publisher, publisher.shm
    {
      if publisher.shm == null || publisher.shm.Length < HEADER_SIZE then [] else publisher.shm[HEADER_SIZE..]
    }

    /** They are the bytes of the region from byte 64 on. */
    lemma SharedIs()
      requires PublisherOk()
      ensures |Shared()| == publisher.format.DataSize() && publisher.shm.Length == 64 + |Shared()|
      ensures forall i :: 0 <= i < |Shared()| ==> Shared()[i] == publisher.shm[64 + i]
    {
    }

    // --------------------------------------------------------------- callback

    /** Whether a buffer is none of the pipeline's own. */
    ghost predicate Foreign(data: array<byte>)
      reads `gainBuffer, publisher`shm
    {
      && data != monoBuffer && data != gainBuffer && data != history.buffer
      && data != recorder.ring && data != recorder.writeBuffer && data != publisher.shm
    }

    /** Filter state and bytes that the next period, of n samples, turns into. */
    ghost function Output(data: array<byte>, n: nat): (seq<Dc>, seq<byte>)
      requires |dc| == OutChannels() && Times(n, sampleBytes) <= data.Length
      reads `gain, `dcRemove, `dc, data
    {
      Emitted(seal, Current(), dc, Input(data, n))
    }

    ghost function Input(data: array<byte>, n: nat): (xs: seq<int>)
      requires Times(n, sampleBytes) <= data.Length
      reads data
      ensures AllInRange(sampleBytes, xs)
    {
      Decode(sampleBytes, data[..Times(n, sampleBytes)])
    }

    /** A period of whole frames that fits the pipeline's buffers. */
    ghost predicate Fits(data: array<byte>, sampleCount: nat, frames: nat)
      reads `gainBuffer, publisher`shm
    {
      && Foreign(data) && sampleCount == Times(frames, channels) && Times(sampleCount, sampleBytes) <= data.Length
      && (downmixMono && channels >= 2 ==> Times(frames, sampleBytes) <= monoBuffer.Length)
    }

    /** One captured period: the history and the shared region get the output, the recorder
        gets all of it or, without room, nothing; the meter sees the output too. */
    method OnAudioChunk(data: array<byte>, sampleCount: nat, timestamp: nat, ghost frames: nat)
      requires Valid() && Fits(data, sampleCount, frames) && timestamp < TWO_64
      modifies this`gainBuffer, this`dc, this`peakLevel, this`totalFrames, gainBuffer, monoBuffer
      modifies history, history.buffer, recorder`ringWrite, recorder`Accepted, recorder`Frames, recorder.ring
      modifies publisher`writeCounter, publisher`Published, publisher`LastStamp, publisher.shm
      ensures Valid() && data[..] == old(data[..]) && (gainBuffer == old(gainBuffer) || fresh(gainBuffer))
      ensures var (st, bytes) := old(Output(data, sampleCount));
        && dc == st && history.Stream == old(history.Stream) + bytes
        && recorder.Accepted == old(recorder.Accepted) + (if old(Keeps(|Output(data, sampleCount).1|)) then bytes else [])
        && Shared() == Overlaid(old(Shared()), bytes)
        && IsLevel(peakLevel, Metering.Metered(Decode(sampleBytes, bytes), sampleBytes == 4))
      ensures publisher.Published == old(publisher.Published) + 1 && publisher.LastStamp == timestamp
      ensures totalFrames == old(totalFrames) + frames
    {
      var out, frameCount, size := Process(data, sampleCount, frames);
      Deliver(out, frameCount, timestamp, size);
      totalFrames := totalFrames + frameCount;
    }

    /** What follows the transform: the consumers, then the meter. */
    method Deliver(out: array<byte>, frames: nat, timestamp: nat, size: nat)
      requires Apart() && Sealed(seal) && timestamp < TWO_64
      requires out != history.buffer && out != recorder.ring && out != recorder.writeBuffer && out != publisher.shm
      requires size == Times(frames, bytesPerFrame) <= out.Length
      modifies history, history.buffer, recorder`ringWrite, recorder`Accepted, recorder`Frames, recorder.ring
      modifies publisher`writeCounter, publisher`Published, publisher`LastStamp, publisher.shm, this`peakLevel
      ensures Sealed(seal) && history.Stream == old(history.Stream) + out[..size]
      ensures recorder.Accepted == old(recorder.Accepted) + (if old(Keeps(size)) then out[..size] else [])
      ensures publisher.Published == old(publisher.Published) + 1 && publisher.LastStamp == timestamp
      ensures Shared() == Overlaid(old(Shared()), out[..size])
      ensures IsLevel(peakLevel, Metering.Metered(Decode(sampleBytes, out[..size]), sampleBytes == 4))
    {
      FanOut(out, frames, timestamp, size);
      Meter(out, size);
    }

    /** The transform, with its output in bytes. */
    method Process(data: array<byte>, sampleCount: nat, ghost frames: nat)
      returns (out: array<byte>, frameCount: nat, size: nat)
      requires |dc| == OutChannels() && bytesPerFrame == Times(OutChannels(), sampleBytes)
      requires Fits(data, sampleCount, frames) && monoBuffer != gainBuffer
      modifies this`gainBuffer, this`dc, gainBuffer, monoBuffer
      ensures gainBuffer == old(gainBuffer) || fresh(gainBuffer)
      ensures out == data || out == monoBuffer || out == gainBuffer
      ensures data[..] == old(data[..]) && |dc| == OutChannels() && dc == old(Output(data, sampleCount)).0
      ensures frameCount == frames && size == Times(frames, bytesPerFrame) <= out.Length
      ensures out[..size] == old(Output(data, sampleCount)).1
    {
      InputWhole(data, sampleCount, frames);
      TimesIs(frames, sampleBytes);
      EmittedIs(seal, Current(), dc, Input(data, sampleCount));
      frameCount := sampleCount / channels;
      ghost var n := PeriodSize(Current(), Input(data, sampleCount), frameCount, bytesPerFrame);
      var outSamples: nat;
      out, outSamples := Transform(data, sampleCount);
      SamplesEncode(sampleBytes, out[..], outSamples);
      size := outSamples * sampleBytes;
    }

    /** The callback that capture invokes: the books stay balanced over any run of periods. */
    method Captured(data: array<byte>, sampleCount: nat, timestamp: nat, ghost frames: nat)
      requires Valid() && Balanced() && Fits(data, sampleCount, frames) && timestamp < TWO_64
      modifies this`gainBuffer, this`dc, this`peakLevel, this`totalFrames, gainBuffer, monoBuffer
      modifies history, history.buffer, recorder`ringWrite, recorder`Accepted, recorder`Frames, recorder.ring
      modifies publisher`writeCounter, publisher`Published, publisher`LastStamp, publisher.shm
      modifies this`Account
      ensures Valid() && Balanced() && (gainBuffer == old(gainBuffer) || fresh(gainBuffer))
      ensures Account == old(Account.Enter(Input(data, sampleCount), Output(data, sampleCount).1,
                                           Keeps(|Output(data, sampleCount).1|)))
    {
      ghost var xs, bytes := Input(data, sampleCount), Output(data, sampleCount).1;
      ghost var kept := Keeps(|bytes|);
      InputWhole(data, sampleCount, frames);
      BalanceGrows(seal, Account, Current(), dc, history.Stream, recorder.Accepted, xs, kept);
      Account := Account.Enter(xs, bytes, kept);
      OnAudioChunk(data, sampleCount, timestamp, frames);
    }

    /** A period's output is as many frames as the period. */
    lemma OutputSize(data: array<byte>, sampleCount: nat, frames: nat)
      requires |dc| == OutChannels() && bytesPerFrame == Times(OutChannels(), sampleBytes)
      requires Fits(data, sampleCount, frames)
      ensures |Output(data, sampleCount).1| == Times(frames, bytesPerFrame)
    {
      InputWhole(data, sampleCount, frames);
      EmittedIs(seal, Current(), dc, Input(data, sampleCount));
      var n := PeriodSize(Current(), Input(data, sampleCount), frames, bytesPerFrame);
      EncodeLength(sampleBytes, Chunk(Current(), dc, Input(data, sampleCount)).1);
    }

    /** What the recorder's writer does between two periods. */
    method WriterTurn(turn: Turn)
      requires Valid() && Balanced()
      modifies recorder`ringRead, recorder`bufferUsed, recorder`Taken, recorder.writeBuffer
      modifies recorder`open, recorder`framesInBlock, recorder`total, recorder`Filed, recorder`closed, recorder`blocks
      ensures Valid() && Balanced() && (recorder.running ==> Drained(turn))
    {
      SealedIs(seal);
      RunWriter(turn);
      SealedIs(seal);
    }

    /** What a turn leaves in the ring. */
    ghost predicate Drained(turn: Turn)
      reads recorder`Accepted, recorder`Taken
    {
      && |recorder.Accepted| >= recorder.Taken
      && (turn.Wakes? ==> |recorder.Accepted| < recorder.Taken + recorder.cfg.Threshold())
      && (turn.Drains? ==> |recorder.Accepted| == recorder.Taken)
    }

    method RunWriter(turn: Turn)
      requires RecorderOk()
      modifies recorder`ringRead, recorder`bufferUsed, recorder`Taken, recorder.writeBuffer
      modifies recorder`open, recorder`framesInBlock, recorder`total, recorder`Filed, recorder`closed, recorder`blocks
      ensures RecorderOk() && (recorder.running ==> Drained(turn))
    {
      var pending := recorder.Unread();
      if recorder.running && (turn.Drains? || (turn.Wakes? && pending >= recorder.cfg.Threshold())) {
        recorder.Drain();
      }
    }

    /** Whether a period surely fits after such a turn: behind any fill below the flush
        threshold, or into the empty ring. */
    ghost predicate RoomAfter(turn: Turn, frames: nat) {
      var n := Times(frames, bytesPerFrame);
      || (turn.Wakes? && n + recorder.cfg.Threshold() <= recorder.cfg.cap + 1)
      || (turn.Drains? && n <= recorder.cfg.cap)
    }

    lemma RoomAfterIs(turn: Turn, frames: nat)
      requires bytesPerFrame == Times(OutChannels(), sampleBytes)
      ensures var n := frames * (OutChannels() * sampleBytes);
        var threshold := if recorder.cfg.oneSecond > 65536 then recorder.cfg.oneSecond else 65536;
        RoomAfter(turn, frames) <==>
          (turn == Wakes && n + threshold <= recorder.cfg.cap + 1) || (turn == Drains && n <= recorder.cfg.cap)
    {
      TimesIs(OutChannels(), sampleBytes);
      TimesIs(frames, bytesPerFrame);
    }

    ghost predicate AlwaysRoom(turns: seq<Turn>, frames: nat) {
      forall j :: 0 <= j < |turns| ==> RoomAfter(turns[j], frames)
    }

    /** A run of periods with a turn of the writer before each: if each turn makes room, none
        is dropped. */
    method CaptureAll(periods: seq<array<byte>>, turns: seq<Turn>, sampleCount: nat, timestamp: nat,
                      ghost frames: nat, ghost contents: seq<seq<byte>>)
      requires Valid() && Balanced() && timestamp < TWO_64
      requires |turns| == |periods| && AllFit(periods, sampleCount, frames)
      requires Contents(periods, Times(sampleCount, sampleBytes), contents)
      modifies this`gainBuffer, this`dc, this`peakLevel, this`totalFrames, gainBuffer, monoBuffer
      modifies history, history.buffer, recorder`ringWrite, recorder`Accepted, recorder`Frames, recorder.ring
      modifies publisher`writeCounter, publisher`Published, publisher`LastStamp, publisher.shm
      modifies recorder`ringRead, recorder`bufferUsed, recorder`Taken, recorder.writeBuffer
      modifies recorder`open, recorder`framesInBlock, recorder`total, recorder`Filed, recorder`closed, recorder`blocks
      modifies this`Account
      ensures Valid() && Balanced()
      ensures Entered(old(Account), Account, contents, |periods|, sampleBytes)
      ensures recorder.recording && recorder.running && NoDrops(old(Account.log)) && AlwaysRoom(turns, frames) ==>
                NoDrops(Account.log)
    {
      ghost var keeps := recorder.recording && recorder.running && NoDrops(Account.log) && AlwaysRoom(turns, frames);
      var i: nat := 0;
      while i < |periods|
        invariant i <= |periods| && Valid() && Balanced() && (gainBuffer == old(gainBuffer) || fresh(gainBuffer))
        invariant AllFit(periods, sampleCount, frames) && Contents(periods, Times(sampleCount, sampleBytes), contents)
        invariant Entered(old(Account), Account, contents, i, sampleBytes)
        invariant keeps ==> NoDrops(Account.log)
      {
        CaptureNext(periods, turns, i, sampleCount, timestamp, frames, contents, old(Account), keeps);
        i := i + 1;
      }
    }

    ghost predicate AllFit(periods: seq<array<byte>>, sampleCount: nat, frames: nat)
      reads `gainBuffer, publisher`shm
    {
      forall j :: 0 <= j < |periods| ==> Fits(periods[j], sampleCount, frames)
    }

    method CaptureNext(periods: seq<array<byte>>, turns: seq<Turn>, i: nat, sampleCount: nat, timestamp: nat,
                       ghost frames: nat, ghost contents: seq<seq<byte>>, ghost before: Books, ghost keeps: bool)
      requires Valid() && Balanced() && i < |periods| == |turns| && timestamp < TWO_64
      requires AllFit(periods, sampleCount, frames) && Contents(periods, Times(sampleCount, sampleBytes), contents)
      requires Entered(before, Account, contents, i, sampleBytes)
      requires keeps ==> recorder.recording && recorder.running && NoDrops(Account.log) && AlwaysRoom(turns, frames)
      modifies this`gainBuffer, this`dc, this`peakLevel, this`totalFrames, gainBuffer, monoBuffer
      modifies history, history.buffer, recorder`ringWrite, recorder`Accepted, recorder`Frames, recorder.ring
      modifies publisher`writeCounter, publisher`Published, publisher`LastStamp, publisher.shm
      modifies recorder`ringRead, recorder`bufferUsed, recorder`Taken, recorder.writeBuffer
      modifies recorder`open, recorder`framesInBlock, recorder`total, recorder`Filed, recorder`closed, recorder`blocks
      modifies this`Account
      ensures Valid() && Balanced() && (gainBuffer == old(gainBuffer) || fresh(gainBuffer))
      ensures AllFit(periods, sampleCount, frames) && Contents(periods, Times(sampleCount, sampleBytes), contents)
      ensures Entered(before, Account, contents, i + 1, sampleBytes) && (keeps ==> NoDrops(Account.log))
    {
      ghost var books := Account;
      ghost var bytes, kept := TurnAndCapture(periods[i], turns[i], sampleCount, timestamp, frames, contents[i]);
      OneEntered(before, books, Account, contents, i, sampleBytes, bytes, kept);
    }

    /** The writer's turn, then one period. */
    method TurnAndCapture(data: array<byte>, turn: Turn, sampleCount: nat, timestamp: nat, ghost frames: nat,
                          ghost content: seq<byte>) returns (ghost bytes: seq<byte>, ghost kept: bool)
      requires Valid() && Balanced() && Fits(data, sampleCount, frames) && timestamp < TWO_64
      requires data[..Times(sampleCount, sampleBytes)] == content
      modifies this`gainBuffer, this`dc, this`peakLevel, this`totalFrames, gainBuffer, monoBuffer
      modifies history, history.buffer, recorder`ringWrite, recorder`Accepted, recorder`Frames, recorder.ring
      modifies publisher`writeCounter, publisher`Published, publisher`LastStamp, publisher.shm
      modifies recorder`ringRead, recorder`bufferUsed, recorder`Taken, recorder.writeBuffer
      modifies recorder`open, recorder`framesInBlock, recorder`total, recorder`Filed, recorder`closed, recorder`blocks
      modifies this`Account
      ensures Valid() && Balanced() && (gainBuffer == old(gainBuffer) || fresh(gainBuffer))
      ensures Account == old(Account).Enter(Decode(sampleBytes, content), bytes, kept)
      ensures recorder.recording && recorder.running && RoomAfter(turn, frames) ==> kept
    {
      WriterTurn(turn);
      OutputSize(data, sampleCount, frames);
      bytes := Output(data, sampleCount).1;
      kept := Keeps(|bytes|);
      Captured(data, sampleCount, timestamp, frames);
    }

    lemma InputWhole(data: array<byte>, sampleCount: nat, frames: nat)
      requires Fits(data, sampleCount, frames)
      ensures |Input(data, sampleCount)| == sampleCount && sampleCount % channels == 0
      ensures sampleCount / channels == frames && 0 <= sampleCount * sampleBytes <= data.Length
      ensures Input(data, sampleCount) == Samples(sampleBytes, data[..], sampleCount)
    {
      TimesIs(sampleCount, sampleBytes);
      TimesIs(frames, channels);
      ModUnique(sampleCount, channels, frames, 0);
      ModUnique(Times(sampleCount, sampleBytes), sampleBytes, sampleCount, 0);
      DecodeLength(sampleBytes, data[..Times(sampleCount, sampleBytes)]);
      assert data[..][..Times(sampleCount, sampleBytes)] == data[..Times(sampleCount, sampleBytes)];
    }

    method Meter(out: array<byte>, size: nat)
      requires size <= out.Length
      modifies this`peakLevel
      ensures IsLevel(peakLevel, Metering.Metered(Decode(sampleBytes, out[..size]), sampleBytes == 4))
    {
      var peak, sum := Metering.MeterScalar(Decode(sampleBytes, out[..size]), sampleBytes == 4);
      peakLevel := Metering.Stored(peak);
    }

    /** The linear gain for the periods from now on. */
    method SetGain(linear: real)
      requires Valid() && Balanced()
      modifies this`gain, this`Account
      ensures Valid() && Balanced() && gain == linear
      ensures Account == Books(old(Account).log, dc, history.Stream, [])
    {
      BalanceIs(seal, Account, Current(), dc, history.Stream, recorder.Accepted);
      gain := linear;
      NewEpoch(seal, Account.log, Current(), dc, history.Stream);
      Account := Books(Account.log, dc, history.Stream, []);
    }

    /** Switching DC removal off also resets the filter. */
    method SetDcRemove(enabled: bool)
      requires Valid() && Balanced()
      modifies this`dcRemove, this`dc, this`Account
      ensures Valid() && Balanced() && dcRemove == enabled
      ensures if enabled then dc == old(dc) else forall c :: 0 <= c < |dc| ==> dc[c] == Dc(0.0, 0.0)
      ensures Account == Books(old(Account).log, dc, history.Stream, [])
    {
      BalanceIs(seal, Account, Current(), dc, history.Stream, recorder.Accepted);
      dcRemove := enabled;
      if !enabled {
        dc := seq(OutChannels(), _ => DcZero);
      }
      NewEpoch(seal, Account.log, Current(), dc, history.Stream);
      Account := Books(Account.log, dc, history.Stream, []);
    }

    method Start()
      requires Valid() && Balanced() && (running || !recorder.running)
      modifies this`running, recorder`recording, recorder`running
      ensures Valid() && Balanced() && running && (!old(running) ==> recorder.recording && recorder.running)
    {
      if running { return; }
      SealedIs(seal);
      recorder.Start();
      SealedIs(seal);
      running := true;
    }

    /** Joins the recorder's writer: the closed files then hold all it accepted. */
    method StopRecorder()
      requires RecorderOk() && recorder.running
      modifies recorder`recording, recorder`running, recorder`ringRead, recorder`bufferUsed, recorder`Taken
      modifies recorder`open, recorder`framesInBlock, recorder`total, recorder`Filed, recorder`closed, recorder`blocks
      modifies recorder.writeBuffer
      ensures RecorderOk() && !recorder.recording && recorder.open.None?
      ensures Flatten(recorder.closed) == FileSamples(sampleBytes, recorder.Accepted)
    {
      recorder.Stop();
    }

    /** Capture stops first, the recorder after it: then the closed files hold every kept
        period, and the whole history if none was dropped. */
    method Stop()
      requires Valid() && Balanced() && (running ==> recorder.running)
      modifies this`running
      modifies recorder`recording, recorder`running, recorder`ringRead, recorder`bufferUsed, recorder`Taken
      modifies recorder`open, recorder`framesInBlock, recorder`total, recorder`Filed, recorder`closed, recorder`blocks
      modifies recorder.writeBuffer
      ensures Valid() && Balanced() && !running
      ensures old(running) ==> !recorder.recording && recorder.open.None?
      ensures old(running) ==> Flatten(recorder.closed) == FileSamples(sampleBytes, Kept(Account.log))
      ensures old(running) && NoDrops(Account.log) ==>
                Flatten(recorder.closed) == FileSamples(sampleBytes, history.Stream)
    {
      if !running { return; }
      running := false;
      SealedIs(seal);
      StopRecorder();
      SealedIs(seal);
      BalanceIs(seal, Account, Current(), dc, history.Stream, recorder.Accepted);
    }

    /** Start, a run of periods, stop. */
    method CaptureAndStop(periods: seq<array<byte>>, turns: seq<Turn>, sampleCount: nat, timestamp: nat,
                          ghost frames: nat, ghost contents: seq<seq<byte>>)
      requires Valid() && Balanced() && !running && !recorder.running && timestamp < TWO_64
      requires |turns| == |periods| && AllFit(periods, sampleCount, frames)
      requires Contents(periods, Times(sampleCount, sampleBytes), contents)
      modifies this`running, recorder`recording, recorder`running
      modifies this`gainBuffer, this`dc, this`peakLevel, this`totalFrames, gainBuffer, monoBuffer
      modifies history, history.buffer, recorder`ringWrite, recorder`Accepted, recorder`Frames, recorder.ring
      modifies publisher`writeCounter, publisher`Published, publisher`LastStamp, publisher.shm
      modifies recorder`ringRead, recorder`bufferUsed, recorder`Taken, recorder.writeBuffer
      modifies recorder`open, recorder`framesInBlock, recorder`total, recorder`Filed, recorder`closed, recorder`blocks
      modifies this`Account
      ensures Valid() && Balanced() && !running
      ensures Entered(old(Account), Account, contents, |periods|, sampleBytes)
      ensures Flatten(recorder.closed) == FileSamples(sampleBytes, Kept(Account.log))
      ensures NoDrops(old(Account.log)) && AlwaysRoom(turns, frames) ==>
                Flatten(recorder.closed) == FileSamples(sampleBytes, history.Stream)
    {
      Start();
      CaptureAll(periods, turns, sampleCount, timestamp, frames, contents);
      Stop();
    }

    // ------------------------------------------------------------ main results

    /** Until the settings change, the history grows by the reference output of all the
        samples captured, however they were cut into periods. */
    lemma HistoryIsReference(i: nat)
      requires Balanced() && (channels == 2 || !Current().Downmixing())
      requires i < |Mixed(Current(), Flatten(Account.chunks))|
      ensures |Account.start| <= |history.Stream| && |Account.state| == OutChannels()
      ensures var xs := Decode(sampleBytes, history.Stream[|Account.start|..]);
        && |xs| == |Mixed(Current(), Flatten(Account.chunks))|
        && xs[i] == Reference(Current(), Account.state, Flatten(Account.chunks), i)
    {
      BalanceIs(seal, Account, Current(), dc, history.Stream, recorder.Accepted);
      var ys := Session(Current(), Account.state, Account.chunks).1;
      assert history.Stream[|Account.start|..] == Encode(sampleBytes, ys);
      DecodeEncode(sampleBytes, ys);
      SessionIsReference(Current(), Account.state, Account.chunks, i);
    }

    /** Sample for sample the closed files are the reference output of what was captured
        since the settings last changed. */
    ghost predicate FilesAreReference()
      reads `Account, `gain, `dcRemove, recorder`closed
    {
      var xs, files := Flatten(Account.chunks), Flatten(recorder.closed);
      && |Account.state| == OutChannels() && |files| == |Mixed(Current(), xs)|
      && forall i :: 0 <= i < |files| ==>
           files[i] == FileSample(sampleBytes, Reference(Current(), Account.state, xs, i))
    }

    /** So they are when nothing was captured before and nothing was dropped. */
    lemma FiledReference()
      requires Balanced() && (channels == 2 || !Current().Downmixing()) && Account.start == []
      requires Flatten(recorder.closed) == FileSamples(sampleBytes, history.Stream)
      ensures FilesAreReference()
    {
      HistoryLength();
      assert history.Stream[0..] == history.Stream;
      FileSamplesAre(sampleBytes, history.Stream);
      var xs, files := Flatten(Account.chunks), Flatten(recorder.closed);
      forall i | 0 <= i < |files|
        ensures files[i] == FileSample(sampleBytes, Reference(Current(), Account.state, xs, i))
      {
        HistoryIsReference(i);
      }
    }

    /** The same in plain terms: of the samples captured since the settings changed each one,
        or with the downmix of stereo each left one, times the gain, emitted; and with DC
        removal the recurrence over those, emitted. */
    lemma HistoryPlain() returns (amp: seq<int>, ys: seq<real>)
      requires Balanced() && (!downmixMono || channels <= 2)
      ensures |Account.start| <= |history.Stream|
      ensures GainOf(sampleBytes, downmixMono, channels, gain, Flatten(Account.chunks), amp)
      ensures var out := Decode(sampleBytes, history.Stream[|Account.start|..]);
        && (!dcRemove ==> out == amp)
        && (dcRemove ==> IsRecurrence(Account.state, amp, ys) && EmitsAll(sampleBytes, ys, out))
    {
      BalanceIs(seal, Account, Current(), dc, history.Stream, recorder.Accepted);
      var out := Session(Current(), Account.state, Account.chunks).1;
      assert history.Stream[|Account.start|..] == Encode(sampleBytes, out);
      DecodeEncode(sampleBytes, out);
      amp, ys := SessionPlain(Current(), Account.state, Account.chunks);
    }

    lemma HistoryLength()
      requires Balanced() && (channels == 2 || !Current().Downmixing())
      ensures |Account.start| <= |history.Stream| && |Account.state| == OutChannels()
      ensures |Decode(sampleBytes, history.Stream[|Account.start|..])| == |Mixed(Current(), Flatten(Account.chunks))|
    {
      BalanceIs(seal, Account, Current(), dc, history.Stream, recorder.Accepted);
      var ys := Session(Current(), Account.state, Account.chunks).1;
      assert history.Stream[|Account.start|..] == Encode(sampleBytes, ys);
      DecodeEncode(sampleBytes, ys);
      ChunkingIrrelevant(Current(), Account.state, Account.chunks);
    }

    /** A clip and the archive agree: with no period dropped, the newest frames of the
        history are the newest samples of the files, the write buffer and the ring. */
    lemma ClipMatchesArchive(count: nat)
      requires Valid() && Consumers() && Balanced() && NoDrops(Account.log)
      ensures var n := history.Readable(0, count);
        && n <= history.Frames
        && IsSuffix(FileSamples(sampleBytes, history.Window(0, n)), recorder.Held())
    {
      NothingMissing();
      HeldByRecorder();
      NewestSuffix(history.Readable(0, count));
    }

    lemma NothingMissing()
      requires Balanced() && NoDrops(Account.log)
      ensures history.Stream == recorder.Accepted
    {
      BalanceIs(seal, Account, Current(), dc, history.Stream, recorder.Accepted);
    }

    lemma NewestSuffix(n: nat)
      requires HistoryOk() && bytesPerFrame == Times(OutChannels(), sampleBytes) && n <= history.AvailableFrames()
      ensures n <= history.Frames
      ensures IsSuffix(FileSamples(sampleBytes, history.Window(0, n)), FileSamples(sampleBytes, history.Stream))
    {
      NewestFrames(n);
      SuffixSamples(sampleBytes, OutChannels(), bytesPerFrame, history.Stream, history.Frames, n);
    }

    lemma HeldByRecorder()
      requires RecorderOk()
      ensures recorder.Held() == FileSamples(sampleBytes, recorder.Accepted)
    {
      recorder.HeldIsAccepted();
    }

    lemma NewestFrames(n: nat)
      requires HistoryOk() && n <= history.AvailableFrames()
      ensures n <= history.Frames && |history.Stream| == Times(history.Frames, bytesPerFrame)
      ensures Times(history.Frames - n, bytesPerFrame) <= |history.Stream|
      ensures history.Window(0, n) == history.Stream[Times(history.Frames - n, bytesPerFrame)..]
    {
      TimesAdd(history.Frames - n, n, bytesPerFrame);
    }
  }

  lemma {:induction false} NothingDropped(log: seq<Offer>)
    requires NoDrops(log)
    ensures Kept(log) == Flatten(Periods(log))
  {
    if log != [] {
      var init, last := log[..|log| - 1], log[|log| - 1];
      NothingDropped(init);
      assert log == init + [last];
      LogGrowsBy(init, last);
    }
  }

  ghost predicate NoDrops(log: seq<Offer>) {
    forall i :: 0 <= i < |log| ==> log[i].kept
  }

  /** Between two states of the books k periods of these contents were entered. */
  ghost predicate Entered(before: Books, now: Books, contents: seq<seq<byte>>, k: nat, w: width) {
    && now.state == before.state && now.start == before.start && k <= |contents|
    && |now.chunks| == |before.chunks| + k && now.chunks[..|before.chunks|] == before.chunks
    && forall j :: 0 <= j < k ==> now.chunks[|before.chunks| + j] == Decode(w, contents[j])
  }

  lemma OneEntered(before: Books, now: Books, next: Books, contents: seq<seq<byte>>, k: nat, w: width,
                   bytes: seq<byte>, kept: bool)
    requires Entered(before, now, contents, k, w) && k < |contents|
    requires next == now.Enter(Decode(w, contents[k]), bytes, kept)
    ensures Entered(before, next, contents, k + 1, w)
    ensures NoDrops(now.log) && kept ==> NoDrops(next.log)
  {
  }

  /** The chunks of a capture are its decoded periods. */
  ghost predicate AreInputs(chunks: seq<seq<int>>, contents: seq<seq<byte>>, w: width) {
    |chunks| == |contents| && forall j :: 0 <= j < |chunks| ==> chunks[j] == Decode(w, contents[j])
  }

  lemma AllEntered(before: Books, now: Books, contents: seq<seq<byte>>, w: width)
    requires Entered(before, now, contents, |contents|, w) && before.chunks == []
    ensures AreInputs(now.chunks, contents, w)
  {
    forall j | 0 <= j < |now.chunks| ensures now.chunks[j] == Decode(w, contents[j]) {
      assert now.chunks[|before.chunks| + j] == now.chunks[j];
    }
  }

  /** The first n bytes of every period. */
  ghost predicate Contents(periods: seq<array<byte>>, n: nat, contents: seq<seq<byte>>)
    reads periods
  {
    && |contents| == |periods|
    && forall j :: 0 <= j < |periods| ==> n <= periods[j].Length && periods[j][..n] == contents[j]
  }

  method WholeFrameCount(n: nat, channels: pos) returns (frames: nat)
    requires n % channels == 0
    ensures frames * channels == n
  {
    frames := n / channels;
  }

  ghost predicate IsSuffix(a: seq<int>, b: seq<int>) {
    |a| <= |b| && a == b[|b| - |a|..]
  }

  lemma SuffixSamples(w: width, channels: pos, bpf: nat, stream: seq<byte>, frames: nat, n: nat)
    requires bpf == Times(channels, w) && |stream| == Times(frames, bpf) && n <= frames
    ensures Times(frames - n, bpf) <= |stream|
    ensures IsSuffix(FileSamples(w, stream[Times(frames - n, bpf)..]), FileSamples(w, stream))
  {
    TimesAdd(frames - n, n, bpf);
    TimesTimes(n, channels, w, bpf);
    var cut := Times(frames - n, bpf);
    assert stream == stream[..cut] + stream[cut..];
    FileSamplesAppend(w, stream[..cut], stream[cut..], Times(n, channels));
  }

  /** level is the stored peak of these samples. */
  ghost predicate IsLevel(level: int, xs: seq<int>) {
    exists p :: Metering.IsPeak(p, xs, 0) && level == Metering.Stored(p)
  }

  /** The level shows the largest magnitude of the samples metered, as they are or their upper
      halves, up to 32767. */
  lemma LevelIs(level: int, xs: seq<int>, wide: bool)
    requires IsLevel(level, Metering.Metered(xs, wide))
    ensures 0 <= level <= 32767
    ensures forall j :: 0 <= j < |xs| ==>
              var s := if wide then xs[j] / 0x1_0000 else xs[j];
              level == 32767 || -level <= s <= level
    ensures level > 0 ==> exists j :: 0 <= j < |xs| && Reaches(level, if wide then xs[j] / 0x1_0000 else xs[j])
  {
    var ys := Metering.Metered(xs, wide);
    var p :| Metering.IsPeak(p, ys, 0) && level == Metering.Stored(p);
    Metering.PeakIs(p, ys);
    forall j | 0 <= j < |xs| ensures ys[j] == if wide then xs[j] / 0x1_0000 else xs[j] {}
    if p > 0 {
      var j :| 0 <= j < |ys| && (ys[j] == p || ys[j] == -p);
      assert Reaches(level, if wide then xs[j] / 0x1_0000 else xs[j]);
    }
  }

  ghost predicate Reaches(level: int, s: int) {
    s == level || s == -level || (level == 32767 && (s > 32767 || s < -32767))
  }

  lemma SessionSnoc(cfg: Settings, st0: seq<Dc>, chunks: seq<seq<int>>, xs: seq<int>)
    requires |st0| == cfg.OutChannels() && WholeFrames(cfg, chunks)
    requires |xs| % cfg.channels == 0 && AllInRange(cfg.w, xs)
    ensures WholeFrames(cfg, chunks + [xs])
    ensures var (st, ys) := Session(cfg, st0, chunks);
      var (st2, zs) := Chunk(cfg, st, xs);
      Session(cfg, st0, chunks + [xs]) == (st2, ys + zs)
  {
    assert (chunks + [xs])[..|chunks|] == chunks;
  }

  /** The ghost books of a capture: every period as fanned out and whether the recorder
      kept it; and, since the settings last changed, the filter state and the history
      then and the periods captured since. */
  datatype Books = Books(log: seq<Offer>, state: seq<Dc>, start: seq<byte>, chunks: seq<seq<int>>) {
    function Enter(xs: seq<int>, bytes: seq<byte>, kept: bool): Books {
      Books(log + [Offer(bytes, kept)], state, start, chunks + [xs])
    }
  }

  /** The history is everything fanned out; the recorder's stream is the same with whole
      dropped periods left out; and since the settings last changed the history grew by
      the session's output. */
  ghost predicate Agrees(b: Books, cfg: Settings, dc: seq<Dc>, stream: seq<byte>, accepted: seq<byte>) {
    && stream == Flatten(Periods(b.log)) && accepted == Kept(b.log)
    && |b.state| == cfg.OutChannels() && WholeFrames(cfg, b.chunks)
    && dc == Session(cfg, b.state, b.chunks).0
    && stream == b.start + Encode(cfg.w, Session(cfg, b.state, b.chunks).1)
  }

  /** Agrees, k unfoldings away. */
  ghost predicate Balance(k: nat, b: Books, cfg: Settings, dc: seq<Dc>, stream: seq<byte>, accepted: seq<byte>) {
    if k == 0 then Agrees(b, cfg, dc, stream, accepted) else Balance(k - 1, b, cfg, dc, stream, accepted)
  }

  /** State and bytes after a chunk, k unfoldings away. */
  ghost function Emitted(k: nat, cfg: Settings, st: seq<Dc>, xs: seq<int>): (seq<Dc>, seq<byte>)
    requires |st| == cfg.OutChannels() && AllInRange(cfg.w, xs)
  {
    if k == 0 then (Chunk(cfg, st, xs).0, Encode(cfg.w, Chunk(cfg, st, xs).1)) else Emitted(k - 1, cfg, st, xs)
  }

  lemma {:induction false} EmittedIs(k: nat, cfg: Settings, st: seq<Dc>, xs: seq<int>)
    requires |st| == cfg.OutChannels() && AllInRange(cfg.w, xs)
    ensures Emitted(k, cfg, st, xs) == (Chunk(cfg, st, xs).0, Encode(cfg.w, Chunk(cfg, st, xs).1))
  {
    if k > 0 {
      EmittedIs(k - 1, cfg, st, xs);
    }
  }

  /** Balanced books say where everything went. */
  lemma {:induction false} BalanceIs(k: nat, b: Books, cfg: Settings, dc: seq<Dc>, stream: seq<byte>, accepted: seq<byte>)
    ensures Balance(k, b, cfg, dc, stream, accepted) <==> Agrees(b, cfg, dc, stream, accepted)
    ensures Balance(k, b, cfg, dc, stream, accepted) && NoDrops(b.log) ==> stream == accepted
  {
    if k > 0 {
      BalanceIs(k - 1, b, cfg, dc, stream, accepted);
    } else if NoDrops(b.log) {
      NothingDropped(b.log);
    }
  }

  lemma NewEpoch(k: nat, log: seq<Offer>, cfg: Settings, dc: seq<Dc>, stream: seq<byte>)
    requires |dc| == cfg.OutChannels() && stream == Flatten(Periods(log))
    ensures Balance(k, Books(log, dc, stream, []), cfg, dc, stream, Kept(log))
  {
    BalanceIs(k, Books(log, dc, stream, []), cfg, dc, stream, Kept(log));
    assert stream + [] == stream;
  }

  lemma BalanceGrows(k: nat, b: Books, cfg: Settings, dc: seq<Dc>, stream: seq<byte>, accepted: seq<byte>,
                     xs: seq<int>, kept: bool)
    requires Balance(k, b, cfg, dc, stream, accepted)
    requires |dc| == cfg.OutChannels() && |xs| % cfg.channels == 0 && AllInRange(cfg.w, xs)
    ensures var (st, bytes) := Emitted(k, cfg, dc, xs);
      Balance(k, b.Enter(xs, bytes, kept), cfg, st, stream + bytes, accepted + (if kept then bytes else []))
  {
    BalanceIs(k, b, cfg, dc, stream, accepted);
    EmittedIs(k, cfg, dc, xs);
    var (st, bytes) := Emitted(k, cfg, dc, xs);
    LogGrowsBy(b.log, Offer(bytes, kept));
    SessionSnoc(cfg, b.state, b.chunks, xs);
    EncodeBehind(cfg.w, b.start, stream, Session(cfg, b.state, b.chunks).1, Chunk(cfg, dc, xs).1);
    BalanceIs(k, b.Enter(xs, bytes, kept), cfg, st, stream + bytes, accepted + (if kept then bytes else []));
  }

  lemma EncodeBehind(w: width, start: seq<byte>, stream: seq<byte>, ys: seq<int>, zs: seq<int>)
    requires AllInRange(w, ys) && AllInRange(w, zs) && stream == start + Encode(w, ys)
    ensures AllInRange(w, ys + zs) && stream + Encode(w, zs) == start + Encode(w, ys + zs)
  {
    EncodeAppend(w, ys, zs);
    assert (start + Encode(w, ys)) + Encode(w, zs) == start + (Encode(w, ys) + Encode(w, zs));
  }

  /** A period's bytes, counted in samples and in frames. */
  lemma PeriodSize(cfg: Settings, xs: seq<int>, frames: nat, bpf: nat) returns (n: nat)
    requires |xs| % cfg.channels == 0 && frames == |xs| / cfg.channels && bpf == Times(cfg.OutChannels(), cfg.w)
    ensures n == |Mixed(cfg, xs)| * cfg.w == Times(frames, bpf)
  {
    n := Times(frames, bpf);
    TimesIs(frames, bpf);
    TimesIs(cfg.OutChannels(), cfg.w);
    MulAssoc(frames, cfg.OutChannels(), cfg.w);
    assert |xs| == frames * cfg.channels;
  }

  lemma LogGrowsBy(log: seq<Offer>, o: Offer)
    ensures Flatten(Periods(log + [o])) == Flatten(Periods(log)) + o.data
    ensures Kept(log + [o]) == Kept(log) + (if o.kept then o.data else [])
  {
    PeriodsSnoc(log, o);
    FlattenSnoc(Periods(log), o.data);
    assert (log + [o])[..|log|] == log;
  }

  /** Every consumer is sized for the output channels: one when downmixing, else all. */
  method Initialize(sampleBytes: width, channels: pos, downmixMono: bool, rate: nat, period: nat,
                    ringSeconds: nat, blockSeconds: nat, gain: real, dcRemove: bool) returns (p: CapturePipeline)
    requires channels < 0x1_0000 && 1 <= rate < 0x1_0000_0000 && period < 0x1_0000_0000 && 1 <= blockSeconds
    requires 0 <= ringSeconds * rate <= TWO_63
    ensures fresh(p) && p.Valid() && p.Balanced() && !p.running && p.gain == gain && p.dcRemove == dcRemove
    ensures p.sampleBytes == sampleBytes && p.channels == channels && p.downmixMono == downmixMono
    ensures p.Account == Books([], p.dc, [], []) && AllZero(p.dc)
    ensures fresh(p.history) && fresh(p.history.buffer) && fresh(p.recorder) && fresh(p.recorder.ring)
    ensures fresh(p.recorder.writeBuffer) && fresh(p.publisher) && p.publisher.shm != null && fresh(p.publisher.shm)
    ensures fresh(p.gainBuffer) && fresh(p.monoBuffer)
    ensures downmixMono && channels >= 2 ==> p.monoBuffer.Length == Times(period, sampleBytes)
    ensures !p.recorder.running && !p.recorder.recording && p.recorder.closed == []
    ensures p.history.capacityFrames == NextPowerOf2(ringSeconds * rate)
    ensures p.recorder.cfg.Valid() && p.recorder.cfg.oneSecond == Times(rate, p.recorder.cfg.bpf)
    ensures p.recorder.cfg.blockFrames == Times(blockSeconds, rate)
    ensures p.publisher.format == Format(rate, p.OutChannels(), 8 * sampleBytes, period) && p.publisher.Published == 0
  {
    var outCh: pos := if downmixMono && channels >= 2 then 1 else channels;
    var history := new RingBuffer(ringSeconds * rate, outCh, sampleBytes);
    p := Wire(sampleBytes, channels, downmixMono, rate, period, blockSeconds, gain, dcRemove, outCh, history);
  }

  method Wire(sampleBytes: width, channels: pos, downmixMono: bool, rate: nat, period: nat, blockSeconds: nat,
              gain: real, dcRemove: bool, outCh: pos, history: RingBuffer) returns (p: CapturePipeline)
    requires channels < 0x1_0000 && 1 <= rate < 0x1_0000_0000 && period < 0x1_0000_0000 && 1 <= blockSeconds
    requires outCh == if downmixMono && channels >= 2 then 1 else channels
    requires history.Valid() && history.bytesPerFrame == Times(outCh, sampleBytes) && history.Stream == []
    ensures fresh(p) && p.Valid() && p.Balanced() && !p.running && p.gain == gain && p.dcRemove == dcRemove
    ensures p.sampleBytes == sampleBytes && p.channels == channels && p.downmixMono == downmixMono
    ensures p.Account == Books([], p.dc, [], []) && AllZero(p.dc) && p.history == history
    ensures fresh(p.recorder) && fresh(p.recorder.ring) && fresh(p.recorder.writeBuffer)
    ensures fresh(p.publisher) && p.publisher.shm != null && fresh(p.publisher.shm)
    ensures fresh(p.gainBuffer) && fresh(p.monoBuffer)
    ensures downmixMono && channels >= 2 ==> p.monoBuffer.Length == Times(period, sampleBytes)
    ensures !p.recorder.running && !p.recorder.recording && p.recorder.closed == []
    ensures p.recorder.cfg.Valid() && p.recorder.cfg.oneSecond == Times(rate, p.recorder.cfg.bpf)
    ensures p.recorder.cfg.blockFrames == Times(blockSeconds, rate)
    ensures p.publisher.format == Format(rate, p.OutChannels(), 8 * sampleBytes, period) && p.publisher.Published == 0
  {
    var recorder := Record(rate, outCh, sampleBytes, blockSeconds);
    var publisher := Share(rate, outCh, sampleBytes, period);
    p := new CapturePipeline(sampleBytes, channels, downmixMono, period, gain, dcRemove,
                             history, recorder, publisher, Times(outCh, sampleBytes));
  }

  method Record(rate: nat, outCh: pos, sampleBytes: width, blockSeconds: nat) returns (recorder: BlockRecorder)
    requires outCh < 0x1_0000 && 1 <= rate < 0x1_0000_0000 && 1 <= blockSeconds
    ensures fresh(recorder) && recorder.Valid() && fresh(recorder.ring) && fresh(recorder.writeBuffer)
    ensures recorder.sampleBytes == sampleBytes && recorder.cfg.bpf == Times(outCh, sampleBytes)
    ensures recorder.Accepted == [] && recorder.closed == [] && !recorder.recording && !recorder.running
    ensures recorder.cfg.Valid() && recorder.cfg.oneSecond == Times(rate, recorder.cfg.bpf)
    ensures recorder.cfg.blockFrames == Times(blockSeconds, rate)
  {
    recorder := new BlockRecorder(rate, outCh, sampleBytes, blockSeconds);
  }

  method Share(rate: nat, outCh: pos, sampleBytes: width, period: nat) returns (publisher: SamplePublisher)
    requires outCh < 0x1_0000 && rate < 0x1_0000_0000 && period < 0x1_0000_0000
    ensures fresh(publisher) && publisher.Valid() && publisher.shm != null && fresh(publisher.shm)
    ensures publisher.format == Format(rate, outCh, 8 * sampleBytes, period) && publisher.Published == 0
    ensures publisher.format.BytesPerFrame() == Times(outCh, sampleBytes)
  {
    var format := Format(rate, outCh, 8 * sampleBytes, period);
    publisher := new SamplePublisher(format);
    var region := new byte[HEADER_SIZE + format.DataSize()](_ => 0);
    publisher.Initialize(region);
    assert format.bits / 8 == sampleBytes;
  }

  /** A whole capture: wiring, start, periods with some turn of the writer before each, and
      stop. The closed files hold every kept period; when each turn makes room for a period
      none is dropped, and the files are the reference output of all that was captured. */
  method Capture(sampleBytes: width, channels: pos, downmixMono: bool, rate: nat, period: nat,
                 ringSeconds: nat, blockSeconds: nat, gain: real, dcRemove: bool,
                 periods: seq<array<byte>>, turns: seq<Turn>, timestamp: nat, ghost contents: seq<seq<byte>>)
    returns (p: CapturePipeline)
    requires channels < 0x1_0000 && 1 <= rate < 0x1_0000_0000 && period < 0x1_0000_0000 && 1 <= blockSeconds
    requires 0 <= ringSeconds * rate <= TWO_63 && timestamp < TWO_64
    requires |turns| == |periods| && Contents(periods, Times(Times(period, channels), sampleBytes), contents)
    ensures fresh(p) && p.Valid() && p.Balanced() && !p.running
    ensures p.Current() == Settings(sampleBytes, channels, downmixMono, gain, dcRemove)
    ensures AllZero(p.Account.state) && p.Account.start == [] && AreInputs(p.Account.chunks, contents, sampleBytes)
    ensures Flatten(p.recorder.closed) == FileSamples(sampleBytes, Kept(p.Account.log))
    ensures p.AlwaysRoom(turns, period) ==>
              Flatten(p.recorder.closed) == FileSamples(sampleBytes, p.history.Stream)
    ensures p.AlwaysRoom(turns, period) && (!downmixMono || channels <= 2) ==>
              p.FilesAreReference()
  {
    p := Initialize(sampleBytes, channels, downmixMono, rate, period, ringSeconds, blockSeconds, gain, dcRemove);
    ghost var empty := p.Account;
    p.CaptureAndStop(periods, turns, Times(period, channels), timestamp, period, contents);
    AllEntered(empty, p.Account, contents, sampleBytes);
    if Flatten(p.recorder.closed) == FileSamples(sampleBytes, p.history.Stream) && (!downmixMono || channels <= 2) {
      p.FiledReference();
    }
  }
}
