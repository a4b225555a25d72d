/** The block recorder as two threads, a stopping thread and a statistics reader over
    shared variables: every byte copy, cursor access, file operation and flag access is
    one step, and a run is any sequence of enabled steps. */
module RecorderProtocol {

  import opened Bits
  import opened Bytes

  datatype Option<T> = None | Some(value: T)

  /** Sizes fixed at construction. */
  datatype Config = Config(bpf: nat, oneSecond: nat, blockFrames: nat, cap: pos) {
    function Threshold(): nat { Max(oneSecond, 65536) }

    function BlockBytes(): nat { blockFrames * bpf }

    ghost predicate Valid() {
      && 1 <= bpf <= oneSecond <= 0x4_0000_0000_0000 && 1 <= blockFrames
      && cap == NextPow2(4 * oneSecond)
    }
  }

  /** What the constructor computes from the stream format and the block duration. */
  function Configure(rate: nat, bpf: nat, duration: nat): Config
    requires 4 * (rate * bpf) < TWO_64 && NextPow2(4 * (rate * bpf)) > 0
  {
    var cap: pos := NextPow2(4 * (rate * bpf));
    Config(bpf, rate * bpf, duration * rate, cap)
  }

  datatype Offer = Offer(data: seq<byte>, kept: bool)

  datatype Producer =
    | PIdle
    | PChecked(data: seq<byte>)              // recording_ was true; cursors not loaded yet
    | PCopying(data: seq<byte>, done: nat)   // space was found; copying into the ring

  datatype Writer =
    | WOff
    | WWaiting                               // on writer_cv_
    | WLoading                               // head of the drain loop
    | WCopying(chunk: nat, done: nat)        // copying out of the ring
    | WBatching(off: nat, frames: nat)       // src offset, src_remaining
    | WClosing(off: nat, frames: nat)        // the block is full
    | WCounting(off: nat, frames: nat)       // closed, blocks_written_ not yet increased
    | WChecking | WCheckingEmpty             // the two halves of the exit test
    | WExiting | WDone

  datatype Stats = SIdle | SBlocks(blocks: nat) | SBoth(blocks: nat, total: nat)

  /** The fields after `stats` are history: the offered periods and their fate, the bytes
      published into the ring, how many of them were taken out, how many a failed open
      discarded, and whether capture was joined before the writer was told to stop. */
  datatype State = State(
    ring: seq<byte>, ringWrite: nat, ringRead: nat,
    buffer: seq<byte>, used: nat,
    closed: seq<seq<byte>>, open: Option<seq<byte>>, inBlock: nat,
    total: nat, blocks: nat, recording: bool, running: bool,
    producer: Producer, writer: Writer, stats: Stats,
    offers: seq<Offer>, accepted: seq<byte>, drained: nat, lost: nat,
    captureStopped: bool, orderly: bool)

  datatype Step =
    | Start
    | Push(data: seq<byte>) | LoadCursors | CopyIn | PublishWrite
    | Wake | Load | CopyOut | PublishRead
    | WriteBatch | OpenFails | CloseBlock | CountBlock | KeepPartial
    | CheckRunning | CheckEmpty | CloseLast
    | StopCapture | StopRecording | StopWriter
    | ReadBlocks | ReadTotal | ReportDone

  function Init(c: Config): State {
    State(seq(c.cap, _ => 0), 0, 0, seq(2 * c.Threshold(), _ => 0), 0,
          [], None, 0, 0, 0, false, false, PIdle, WOff, SIdle, [], [], 0, 0, false, false)
  }

  /** Unsigned w - r. */
  function Pending(s: State): nat { (s.ringWrite - s.ringRead) % TWO_64 }

  /** The condition the writer waits for. */
  predicate WaitOver(c: Config, s: State) {
    Pending(s) >= c.Threshold() || !s.running
  }

  /** Ring cell of byte i of an n-byte copy at a cursor: up to two memcpy calls. */
  function CopyCell(c: Config, cursor: nat, n: nat, i: nat): int {
    var pos := BitAnd(cursor, c.cap - 1);
    var first := Min(n, c.cap - pos);
    if i < first then pos + i else i - first
  }

  function OpenBytes(s: State): seq<byte> { if s.open.Some? then s.open.value else [] }

  /** Frames already in the file the next batch goes to. */
  function FramesInOpen(s: State): nat { if s.open.Some? then s.inBlock else 0 }

  predicate Enabled(c: Config, s: State, step: Step)
    requires c.bpf >= 1
  {
    match step
    case Start => s.writer.WOff?
    case Push(data) => s.producer.PIdle? && !s.captureStopped && |data| % c.bpf == 0
    case LoadCursors => s.producer.PChecked?
    case CopyIn =>
      && s.producer.PCopying? && s.producer.done < |s.producer.data|
      && 0 <= CopyCell(c, s.ringWrite, |s.producer.data|, s.producer.done) < |s.ring|
    case PublishWrite => s.producer.PCopying? && s.producer.done == |s.producer.data|
    case Wake => s.writer.WWaiting? && WaitOver(c, s)
    case Load => s.writer.WLoading? && s.used <= |s.buffer|
    case CopyOut =>
      && s.writer.WCopying? && s.writer.done < s.writer.chunk && s.used + s.writer.done < |s.buffer|
      && 0 <= CopyCell(c, s.ringRead, s.writer.chunk, s.writer.done) < |s.ring|
    case PublishRead => s.writer.WCopying? && s.writer.done == s.writer.chunk
    case WriteBatch =>
      s.writer.WBatching? && s.writer.frames > 0 && FramesInOpen(s) <= c.blockFrames
      && s.writer.off + s.writer.frames * c.bpf <= |s.buffer|
    case OpenFails => s.writer.WBatching? && s.writer.frames > 0 && s.open.None? && s.writer.off <= s.used
    case CloseBlock => s.writer.WClosing? && s.open.Some?
    case CountBlock => s.writer.WCounting?
    case KeepPartial => s.writer.WBatching? && s.writer.frames == 0 && s.writer.off <= s.used <= |s.buffer|
    case CheckRunning => s.writer.WChecking?
    case CheckEmpty => s.writer.WCheckingEmpty?
    case CloseLast => s.writer.WExiting?
    case StopCapture => s.producer.PIdle?
    case StopRecording => true
    case StopWriter => s.running && !s.recording
    case ReadBlocks => s.stats.SIdle?
    case ReadTotal => s.stats.SBlocks?
    case ReportDone => s.stats.SBoth?
  }

  function Next(c: Config, s: State, step: Step): State
    requires c.bpf >= 1 && Enabled(c, s, step)
  {
    match step
    case Start => s.(recording := true, running := true, writer := WWaiting)
    case Push(data) =>
      if s.recording then s.(producer := PChecked(data))
      else s.(offers := s.offers + [Offer(data, false)])
    case LoadCursors =>
      var data := s.producer.data;
      if |data| > c.cap - Pending(s)
      then s.(producer := PIdle, offers := s.offers + [Offer(data, false)])
      else s.(producer := PCopying(data, 0))
    case CopyIn =>
      var p := s.producer;
      s.(ring := s.ring[CopyCell(c, s.ringWrite, |p.data|, p.done) := p.data[p.done]],
         producer := PCopying(p.data, p.done + 1))
    case PublishWrite =>
      var data := s.producer.data;
      s.(ringWrite := (s.ringWrite + |data|) % TWO_64, producer := PIdle,
         accepted := s.accepted + data, offers := s.offers + [Offer(data, true)])
    case Wake => s.(writer := WLoading)
    case Load =>
      if Pending(s) == 0 then s.(writer := WChecking)
      else s.(writer := WCopying(Min(Pending(s), |s.buffer| - s.used), 0))
    case CopyOut =>
      var w := s.writer;
      s.(buffer := s.buffer[s.used + w.done := s.ring[CopyCell(c, s.ringRead, w.chunk, w.done)]],
         writer := WCopying(w.chunk, w.done + 1))
    case PublishRead =>
      var n := s.used + s.writer.chunk;
      s.(used := n, ringRead := (s.ringRead + s.writer.chunk) % TWO_64, drained := s.drained + s.writer.chunk,
         writer := if n / c.bpf == 0 then WLoading else WBatching(0, n / c.bpf))
    case WriteBatch => BatchStep(c, s)
    case OpenFails => s.(lost := s.lost + (s.used - s.writer.off), used := 0, writer := WChecking)
    case CloseBlock =>
      s.(closed := s.closed + [s.open.value], open := None, writer := WCounting(s.writer.off, s.writer.frames))
    case CountBlock => s.(blocks := s.blocks + 1, writer := WBatching(s.writer.off, s.writer.frames))
    case KeepPartial =>
      s.(buffer := Splice(s.buffer, 0, s.buffer[s.writer.off..s.used]),
         used := s.used - s.writer.off, writer := WLoading)
    case CheckRunning => s.(writer := if s.running then WWaiting else WCheckingEmpty)
    case CheckEmpty => s.(writer := if s.ringWrite == s.ringRead then WExiting else WWaiting)
    case CloseLast =>
      s.(closed := if s.open.Some? then s.closed + [s.open.value] else s.closed, open := None, writer := WDone)
    case StopCapture => s.(captureStopped := true)
    case StopRecording => s.(recording := false)
    case StopWriter => s.(running := false, orderly := s.captureStopped)
    case ReadBlocks => s.(stats := SBlocks(s.blocks))
    case ReadTotal => s.(stats := SBoth(s.stats.blocks, s.total))
    case ReportDone => s.(stats := SIdle)
  }

  /** Opens a file when none is open and writes what the block still has room for. */
  function BatchStep(c: Config, s: State): State
    requires c.bpf >= 1 && Enabled(c, s, WriteBatch)
  {
    var off, frames := s.writer.off, s.writer.frames;
    var batch := Min(frames, c.blockFrames - FramesInOpen(s));
    var n := batch * c.bpf;
    MulSplit(frames, batch, c.bpf);
    var inBlock := FramesInOpen(s) + batch;
    s.(open := Some(OpenBytes(s) + s.buffer[off..off + n]), inBlock := inBlock, total := s.total + batch,
       writer := if inBlock >= c.blockFrames then WClosing(off + n, frames - batch)
                 else WBatching(off + n, frames - batch))
  }

  ghost predicate Legal(c: Config, s: State, steps: seq<Step>)
    requires c.bpf >= 1
    decreases |steps|
  {
    steps == [] || (Enabled(c, s, steps[0]) && Legal(c, Next(c, s, steps[0]), steps[1..]))
  }

  ghost function Run(c: Config, s: State, steps: seq<Step>): State
    requires c.bpf >= 1 && Legal(c, s, steps)
    decreases |steps|
  {
    if steps == [] then s else Run(c, Next(c, s, steps[0]), steps[1..])
  }

  /** Concatenation of the periods that were not dropped. */
  function Kept(offers: seq<Offer>): seq<byte> {
    if offers == [] then []
    else
      var last := offers[|offers| - 1];
      Kept(offers[..|offers| - 1]) + (if last.kept then last.data else [])
  }

  /** What is in files. */
  function FileBytes(s: State): seq<byte> { Flatten(s.closed) + OpenBytes(s) }

  /** Bytes in write_buffer_ that have left the ring but are in no file yet. */
  function Carry(s: State): seq<byte> {
    if s.used > |s.buffer| then []
    else if (s.writer.WBatching? || s.writer.WClosing? || s.writer.WCounting?) && s.writer.off <= s.used
    then s.buffer[s.writer.off..s.used]
    else s.buffer[..s.used]
  }

  /** The ring's unread bytes, read off the ring itself. */
  function RingBytes(s: State): seq<byte> {
    if |s.ring| == 0 then [] else ReadRing(s.ring, s.ringRead, Pending(s))
  }

  /** a is b with some elements left out. */
  ghost predicate Subsequence<T(!new)>(a: seq<T>, b: seq<T>)
    decreases |b|
  {
    a == [] || (b != [] &&
      ((a[|a| - 1] == b[|b| - 1] && Subsequence(a[..|a| - 1], b[..|b| - 1]))
       || Subsequence(a, b[..|b| - 1])))
  }
}
