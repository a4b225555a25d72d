/** The recorder's code and its state machine: whatever the code does to its arrays, a run of
    the machine in which one thread moves alone does to the shared variables. */
module RecorderSolo {

  import opened Bits
  import opened Bytes
  import opened RecorderProtocol
  import opened RecorderProofs
  import opened RecorderResults
  import opened RecorderStop
  import Recorder

  // --------------------------------------------------------------- solo runs

  predicate ProducerStep(step: Step) {
    step.Push? || step.LoadCursors? || step.CopyIn? || step.PublishWrite?
  }

  ghost predicate OnlyProducer(steps: seq<Step>) {
    forall i :: 0 <= i < |steps| ==> ProducerStep(steps[i])
  }

  /** What the producer leaves alone. */
  predicate SameWriterSide(s: State, s': State) {
    && s'.writer == s.writer && s'.drained == s.drained && s'.lost == s.lost
    && s'.recording == s.recording && s'.running == s.running && s'.captureStopped == s.captureStopped
  }

  /** The producer alone takes the whole period or none of it, exactly as push does. */
  lemma SoloPush(c: Config, s: State, data: seq<byte>) returns (steps: seq<Step>, s': State)
    requires Inv(c, s) && s.producer.PIdle? && !s.captureStopped && |data| % c.bpf == 0
    ensures Legal(c, s, steps) && Run(c, s, steps) == s' && OnlyProducer(steps)
    ensures Inv(c, s') && s'.producer.PIdle? && SameWriterSide(s, s')
    ensures s'.accepted == s.accepted + (if s.recording && |s.accepted| + |data| <= s.drained + c.cap then data else [])
  {
    NextInv(c, s, Push(data));
    s' := Next(c, s, Push(data));
    var rest := [];
    if s.recording {
      rest, s' := LoadAndCopy(c, s', data);
    }
    steps := Before(c, s, Push(data), rest);
  }

  lemma LoadAndCopy(c: Config, s: State, data: seq<byte>) returns (steps: seq<Step>, s': State)
    requires Inv(c, s) && s.producer == PChecked(data)
    ensures Legal(c, s, steps) && Run(c, s, steps) == s' && OnlyProducer(steps)
    ensures Inv(c, s') && s'.producer.PIdle? && SameWriterSide(s, s')
    ensures s'.accepted == s.accepted + (if |s.accepted| + |data| <= s.drained + c.cap then data else [])
  {
    var loaded := Loaded(c, s, data);
    var rest;
    rest, s' := Settled(c, loaded, data);
    steps := Before(c, s, LoadCursors, rest);
  }

  /** From the load of the cursors on. */
  lemma Settled(c: Config, s: State, data: seq<byte>) returns (steps: seq<Step>, s': State)
    requires Inv(c, s) && (s.producer == PCopying(data, 0) || s.producer.PIdle?)
    ensures Legal(c, s, steps) && Run(c, s, steps) == s' && OnlyProducer(steps)
    ensures Inv(c, s') && s'.producer.PIdle? && SameWriterSide(s, s')
    ensures s'.accepted == s.accepted + (if s.producer.PCopying? then data else [])
  {
    if s.producer.PCopying? {
      steps, s' := CopyRest(c, s);
    } else {
      steps, s' := [], s;
    }
  }

  lemma Loaded(c: Config, s: State, data: seq<byte>) returns (s': State)
    requires Inv(c, s) && s.producer == PChecked(data)
    ensures s' == Next(c, s, LoadCursors) && Inv(c, s') && SameWriterSide(s, s') && s'.accepted == s.accepted
    ensures s'.producer == if |s.accepted| + |data| <= s.drained + c.cap then PCopying(data, 0) else PIdle
  {
    PendingIs(c, s);
    NextInv(c, s, LoadCursors);
    s' := Next(c, s, LoadCursors);
  }

  lemma {:induction false} CopyRest(c: Config, s: State) returns (steps: seq<Step>, s': State)
    requires Inv(c, s) && s.producer.PCopying?
    ensures Legal(c, s, steps) && Run(c, s, steps) == s' && OnlyProducer(steps)
    ensures Inv(c, s') && s'.producer.PIdle? && SameWriterSide(s, s')
    ensures s'.accepted == s.accepted + s.producer.data
    decreases |s.producer.data| - s.producer.done
  {
    var data, done := s.producer.data, s.producer.done;
    var rest := [];
    if done < |data| {
      CopyCellIs(c, |s.accepted|, |data|, done);
      NextInv(c, s, CopyIn);
      rest, s' := CopyRest(c, Next(c, s, CopyIn));
      steps := Before(c, s, CopyIn, rest);
    } else {
      NextInv(c, s, PublishWrite);
      s' := Next(c, s, PublishWrite);
      steps := Before(c, s, PublishWrite, rest);
    }
  }

  /** Inside the drain loop. */
  predicate InLoop(w: Writer) {
    w.WLoading? || w.WCopying? || w.WBatching? || w.WClosing? || w.WCounting?
  }

  predicate WriterSide(s: State, s': State) { SameInput(s, s') && s'.captureStopped == s.captureStopped }

  lemma LoopMoves(c: Config, s: State) returns (step: Step, s': State)
    requires Inv(c, s) && InLoop(s.writer)
    ensures Enabled(c, s, step) && s' == Next(c, s, step) && Inv(c, s')
    ensures s'.drained <= |s'.accepted| && Less(Work(s'), Work(s))
    ensures WriterSide(s, s') && (InLoop(s'.writer) || (s'.writer.WChecking? && s'.drained == |s'.accepted|))
  {
    PendingIs(c, s);
    step := WriterCanStep(c, s);
    StepLessens(c, s, step);
    StaysInLoop(c, s, step);
    NextInv(c, s, step);
    s' := Next(c, s, step);
  }

  lemma StaysInLoop(c: Config, s: State, step: Step)
    requires c.bpf >= 1 && InLoop(s.writer) && WriterStep(step) && Enabled(c, s, step)
    requires Pending(s) == |s.accepted| - s.drained
    ensures var s' := Next(c, s, step);
      WriterSide(s, s') && (InLoop(s'.writer) || (s'.writer.WChecking? && s'.drained == |s'.accepted|))
  {
    match step
    case Load => assert WriterSide(s, Next(c, s, Load));
    case CopyOut => assert WriterSide(s, Next(c, s, CopyOut));
    case PublishRead => assert WriterSide(s, Next(c, s, PublishRead));
    case WriteBatch => assert WriterSide(s, Next(c, s, WriteBatch));
    case CloseBlock => assert WriterSide(s, Next(c, s, CloseBlock));
    case CountBlock => assert WriterSide(s, Next(c, s, CountBlock));
    case KeepPartial => assert WriterSide(s, Next(c, s, KeepPartial));
  }

  /** The writer alone leaves its loop with the ring empty. */
  lemma {:induction false} SoloDrain(c: Config, s: State) returns (steps: seq<Step>, s': State)
    requires Inv(c, s) && InLoop(s.writer)
    ensures Legal(c, s, steps) && Run(c, s, steps) == s'
    ensures Inv(c, s') && s'.writer.WChecking? && s'.drained == |s'.accepted| && WriterSide(s, s')
    decreases |s.accepted| - s.drained, Work(s).1, Work(s).2, Work(s).3
  {
    var step, next := LoopMoves(c, s);
    s' := next;
    var rest := [];
    if InLoop(next.writer) {
      rest, s' := SoloDrain(c, next);
    }
    steps := Before(c, s, step, rest);
  }

  /** Woken, the writer drains the ring and goes back to sleep. */
  lemma SoloWake(c: Config, s: State) returns (steps: seq<Step>, s': State)
    requires Inv(c, s) && s.running && s.writer.WWaiting? && WaitOver(c, s)
    ensures Legal(c, s, steps) && Run(c, s, steps) == s'
    ensures Inv(c, s') && s'.writer.WWaiting? && s'.drained == |s'.accepted| && WriterSide(s, s')
  {
    NextInv(c, s, Wake);
    var drain, drained := SoloDrain(c, Next(c, s, Wake));
    NextInv(c, drained, CheckRunning);
    s' := Next(c, drained, CheckRunning);
    var check := Before(c, drained, CheckRunning, []);
    Append(c, Next(c, s, Wake), drain, check);
    steps := Before(c, s, Wake, drain + check);
  }

  /** Told to stop, the writer files everything and exits. */
  lemma SoloStop(c: Config, s: State) returns (steps: seq<Step>, s': State)
    requires Inv(c, s) && s.running && s.writer.WWaiting? && s.lost == 0
    ensures Legal(c, s, steps) && Run(c, s, steps) == s'
    ensures Inv(c, s') && s'.writer.WDone? && s'.lost == 0 && !s'.recording && !s'.running
    ensures s'.producer == s.producer && s'.accepted == s.accepted && s'.drained == |s'.accepted|
    ensures Flatten(s'.closed) == s'.accepted
  {
    NextInv(c, s, StopRecording);
    var quiet := Next(c, s, StopRecording);
    NextInv(c, quiet, StopWriter);
    var stopped := Next(c, quiet, StopWriter);
    var rest;
    rest, s' := WriterExits(c, stopped);
    DoneComplete(c, s');
    steps := Before(c, quiet, StopWriter, rest);
    steps := Before(c, s, StopRecording, steps);
  }

  // -------------------------------------------------------- code and machine

  /** The code's state is the machine's: same periods accepted, same bytes taken out, same
      flags. */
  ghost predicate Tied(r: Recorder.BlockRecorder, s: State)
    reads r, r.ring, r.writeBuffer
  {
    && r.Valid() && Inv(r.cfg, s) && s.lost == 0 && s.producer.PIdle?
    && s.accepted == r.Accepted && s.drained == r.Taken
    && s.recording == r.recording && s.running == r.running
    && (s.writer.WOff? || s.writer.WWaiting? || s.writer.WDone?) && (s.running <==> s.writer.WWaiting?)
  }

  /** Then the cursors, the frames filed and the buffered bytes are the same, and the code's
      files hold the samples of the machine's. */
  lemma TiedMeans(r: Recorder.BlockRecorder, s: State)
    requires Tied(r, s)
    ensures s.ringWrite == r.ringWrite && s.ringRead == r.ringRead
    ensures s.total == r.total && s.used == r.bufferUsed
    ensures s.buffer[..s.used] == r.writeBuffer[..r.bufferUsed]
    ensures Flatten(r.closed) + r.OpenSamples() == Recorder.FileSamples(r.sampleBytes, FileBytes(s))
  {
    TiedCursors(r, s);
    var machine := MachinePlaces(r.cfg, s);
    var code := CodePlaces(r, s.accepted, s.drained);
    SamePlaces(r.cfg.bpf, s.accepted, s.drained, machine, code);
  }

  /** Frames filed, bytes buffered, how many bytes have been filed, and which are buffered. */
  datatype Places = Places(frames: nat, used: nat, filed: nat, carry: seq<byte>)

  ghost predicate Placed(p: Places, bpf: nat, stream: seq<byte>, taken: nat) {
    && p.used < bpf && p.filed == Times(p.frames, bpf) && p.filed + p.used == taken <= |stream|
    && p.carry == stream[p.filed..taken]
  }

  lemma SamePlaces(bpf: pos, stream: seq<byte>, taken: nat, a: Places, b: Places)
    requires Placed(a, bpf, stream, taken) && Placed(b, bpf, stream, taken)
    ensures a == b
  {
    TimesIs(a.frames, bpf);
    TimesIs(b.frames, bpf);
    ModUnique(taken, bpf, a.frames, a.used);
    ModUnique(taken, bpf, b.frames, b.used);
  }

  lemma TiedCursors(r: Recorder.BlockRecorder, s: State)
    requires r.Valid() && CursorInv(r.cfg, s) && s.accepted == r.Accepted && s.drained == r.Taken
    ensures s.ringWrite == r.ringWrite && s.ringRead == r.ringRead
  {
  }

  lemma MachinePlaces(c: Config, s: State) returns (p: Places)
    requires c.bpf >= 1 && WriterInv(c, s) && StreamInv(c, s) && BlockInv(c, s) && s.lost == 0
    requires s.writer.WOff? || s.writer.WWaiting? || s.writer.WDone?
    ensures Placed(p, c.bpf, s.accepted, s.drained)
    ensures p.frames == s.total && p.used == s.used <= |s.buffer| && p.carry == s.buffer[..s.used]
    ensures FileBytes(s) == s.accepted[..p.filed]
  {
    Parts(FileBytes(s), s.buffer[..s.used], s.accepted, s.drained);
    TimesIs(s.total, c.bpf);
    p := Places(s.total, s.used, |FileBytes(s)|, s.buffer[..s.used]);
  }

  lemma CodePlaces(r: Recorder.BlockRecorder, stream: seq<byte>, taken: nat) returns (p: Places)
    requires r.Valid() && stream == r.Accepted && taken == r.Taken
    ensures Placed(p, r.cfg.bpf, stream, taken)
    ensures p.frames == r.total && p.used == r.bufferUsed <= r.writeBuffer.Length
    ensures p.carry == r.writeBuffer[..r.bufferUsed]
    ensures Flatten(r.closed) + r.OpenSamples() == Recorder.FileSamples(r.sampleBytes, stream[..p.filed])
  {
    p := Places(r.total, r.bufferUsed, r.Filed, r.writeBuffer[..r.bufferUsed]);
  }

  lemma Parts(files: seq<byte>, carry: seq<byte>, stream: seq<byte>, taken: nat)
    requires taken <= |stream| && files + carry == stream[..taken]
    ensures |files| + |carry| == taken && files == stream[..|files|] && carry == stream[|files|..taken]
  {
    assert files == (files + carry)[..|files|] && carry == (files + carry)[|files|..];
  }

  lemma NewTied(r: Recorder.BlockRecorder)
    requires r.Valid() && r.cfg.Valid() && r.Accepted == [] && !r.recording && !r.running
    ensures Tied(r, Init(r.cfg))
  {
    InitInv(r.cfg);
  }

  method TiedStart(r: Recorder.BlockRecorder, ghost s: State) returns (ghost s': State)
    requires Tied(r, s) && s.writer.WOff?
    modifies r`recording, r`running
    ensures Legal(r.cfg, s, [Start]) && s' == Run(r.cfg, s, [Start])
    ensures Tied(r, s') && s'.running
  {
    NextInv(r.cfg, s, Start);
    s' := Next(r.cfg, s, Start);
    r.Start();
  }

  /** A push of the code is a run of the producer's steps. */
  method TiedPush(r: Recorder.BlockRecorder, data: array<byte>, frameCount: nat, ghost s: State)
    returns (ghost steps: seq<Step>, ghost s': State)
    requires Tied(r, s) && !s.captureStopped && data != r.ring && data != r.writeBuffer
    requires r.PeriodBytes(frameCount) <= data.Length
    modifies r`ringWrite, r`Accepted, r`Frames, r.ring
    ensures Legal(r.cfg, s, steps) && s' == Run(r.cfg, s, steps) && OnlyProducer(steps)
    ensures Tied(r, s') && !s'.captureStopped
  {
    WholePeriod(frameCount, r.cfg.bpf);
    steps, s' := SoloPush(r.cfg, s, data[..r.PeriodBytes(frameCount)]);
    r.Push(data, frameCount);
  }

  lemma WholePeriod(frames: nat, bpf: pos)
    ensures Times(frames, bpf) % bpf == 0
  {
    TimesIs(frames, bpf);
    ModUnique(frames * bpf, bpf, frames, 0);
  }

  /** A drain of the code is a run from a wake-up to the next wait. */
  method TiedDrain(r: Recorder.BlockRecorder, ghost s: State) returns (ghost steps: seq<Step>, ghost s': State)
    requires Tied(r, s) && s.running && WaitOver(r.cfg, s)
    modifies r`ringRead, r`bufferUsed, r`Taken, r.writeBuffer
    modifies r`open, r`framesInBlock, r`total, r`Filed, r`closed, r`blocks
    ensures Legal(r.cfg, s, steps) && s' == Run(r.cfg, s, steps)
    ensures Tied(r, s') && s'.running && s'.captureStopped == s.captureStopped
  {
    steps, s' := SoloWake(r.cfg, s);
    r.Drain();
  }

  /** Stop with its join is a run to the writer's exit, with the same closed files. */
  method TiedStop(r: Recorder.BlockRecorder, ghost s: State) returns (ghost steps: seq<Step>, ghost s': State)
    requires Tied(r, s) && s.running
    modifies r`recording, r`running, r`ringRead, r`bufferUsed, r`Taken, r.writeBuffer
    modifies r`open, r`framesInBlock, r`total, r`Filed, r`closed, r`blocks
    ensures Legal(r.cfg, s, steps) && s' == Run(r.cfg, s, steps)
    ensures Tied(r, s') && s'.writer.WDone?
    ensures Flatten(r.closed) == Recorder.FileSamples(r.sampleBytes, Flatten(s'.closed))
  {
    steps, s' := SoloStop(r.cfg, s);
    r.Stop();
  }
}
