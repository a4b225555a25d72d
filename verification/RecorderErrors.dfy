/** What a file that cannot be opened does to the frames after it. */
module RecorderErrors {

  import opened Bits
  import opened Bytes
  import opened RecorderProtocol
  import opened RecorderProofs
  import opened RecorderResults
  import opened RecorderSizing

  /** Position in the accepted stream of the next byte that goes to a file. */
  function NextFiled(s: State): int { s.drained - |Carry(s)| }

  /** Files continue at a frame boundary of the accepted stream exactly as long as failed
      opens have discarded whole frames. */
  lemma AlignedIff(c: Config, steps: seq<Step>)
    requires Reached(c, steps)
    ensures var s := After(c, steps);
      0 <= NextFiled(s) <= |s.accepted| && (NextFiled(s) % c.bpf == 0 <==> s.lost % c.bpf == 0)
  {
    Reach(c, steps);
    var s := After(c, steps);
    SameRemainder(NextFiled(s), s.total, s.lost, c.bpf);
  }

  lemma SameRemainder(a: int, m: nat, r: nat, n: pos)
    requires a == m * n + r
    ensures a % n == 0 <==> r % n == 0
  {
    MulAdd(m, r / n, n);
    ModUnique(a, n, m + r / n, r % n);
  }

  /** Some run discards part of a frame. */
  ghost predicate CanShift(c: Config)
    requires c.bpf >= 1
  {
    exists steps :: Shifts(c, steps)
  }

  ghost predicate Shifts(c: Config, steps: seq<Step>)
    requires c.bpf >= 1
  {
    Reached(c, steps) && After(c, steps).lost % c.bpf != 0
  }

  /** The write buffer, two thresholds long, can be filled up in the middle of a frame. */
  predicate Splits(c: Config)
    requires c.bpf >= 1
  {
    (2 * c.Threshold()) % c.bpf != 0 && Fill(c) > 2 * c.Threshold()
  }

  /** Without that, nothing but whole frames ever leaves the ring. */
  ghost predicate WholeInv(c: Config, s: State)
    requires c.bpf >= 1
  {
    && s.lost % c.bpf == 0 && s.drained % c.bpf == 0
    && match s.writer
       case WCopying(chunk, done) => s.used == 0 && chunk % c.bpf == 0
       case WBatching(off, frames) => s.used == off + frames * c.bpf
       case WClosing(off, frames) => s.used == off + frames * c.bpf
       case WCounting(off, frames) => s.used == off + frames * c.bpf
       case _ => s.used == 0
  }

  ghost predicate KeepsWhole(c: Config, s: State, step: Step)
    requires c.bpf >= 1 && Enabled(c, s, step)
  {
    WholeInv(c, Next(c, s, step))
  }

  lemma WholeStep(c: Config, s: State, step: Step)
    requires Inv(c, s) && WholeInv(c, s) && Enabled(c, s, step) && !Splits(c)
    ensures KeepsWhole(c, s, step)
  {
    match step
    case Load => WholeLoad(c, s);
    case PublishRead => WholePublish(c, s);
    case WriteBatch => WholeBatch(c, s);
    case OpenFails => WholeDiscard(c, s);
    case _ => WholeMove(c, s, step);
  }

  lemma WholeMove(c: Config, s: State, step: Step)
    requires c.bpf >= 1 && WholeInv(c, s) && Enabled(c, s, step)
    requires !step.Load? && !step.PublishRead? && !step.WriteBatch? && !step.OpenFails?
    ensures KeepsWhole(c, s, step)
  {
    match step
    case Push(data) => WholeProduce(c, s, step);
    case LoadCursors => WholeProduce(c, s, step);
    case CopyIn => WholeProduce(c, s, step);
    case PublishWrite => WholeProduce(c, s, step);
    case CloseBlock => WholeClose(c, s, CloseBlock);
    case CountBlock => WholeClose(c, s, CountBlock);
    case KeepPartial => WholeKeep(c, s);
    case _ => WholeControl(c, s, step);
  }

  lemma WholeProduce(c: Config, s: State, step: Step)
    requires c.bpf >= 1 && WholeInv(c, s) && Enabled(c, s, step)
    requires step.Push? || step.LoadCursors? || step.CopyIn? || step.PublishWrite?
    ensures KeepsWhole(c, s, step)
  {
  }

  lemma WholeClose(c: Config, s: State, step: Step)
    requires c.bpf >= 1 && WholeInv(c, s) && Enabled(c, s, step)
    requires step.CloseBlock? || step.CountBlock?
    ensures KeepsWhole(c, s, step)
  {
    var s' := Next(c, s, step);
    assert s'.writer.off == s.writer.off && s'.writer.frames == s.writer.frames && s'.used == s.used;
  }

  lemma WholeKeep(c: Config, s: State)
    requires c.bpf >= 1 && WholeInv(c, s) && Enabled(c, s, KeepPartial)
    ensures KeepsWhole(c, s, KeepPartial)
  {
    assert s.writer.frames * c.bpf == 0;
  }

  lemma WholeControl(c: Config, s: State, step: Step)
    requires c.bpf >= 1 && WholeInv(c, s) && Enabled(c, s, step)
    requires step in {Start, Wake, CopyOut, CheckRunning, CheckEmpty, CloseLast, StopCapture, StopRecording, StopWriter,
                      ReadBlocks, ReadTotal, ReportDone}
    ensures KeepsWhole(c, s, step)
  {
  }

  lemma WholeLoad(c: Config, s: State)
    requires Inv(c, s) && WholeInv(c, s) && Enabled(c, s, Load) && !Splits(c)
    ensures KeepsWhole(c, s, Load)
  {
    PendingIs(c, s);
    DifferenceWhole(|s.accepted|, s.drained, c.bpf);
    WholeFramesFit(Pending(s), c.cap, c.bpf);
    WholeChunk(Pending(s), 2 * c.Threshold(), c.bpf);
  }

  lemma WholeChunk(pending: nat, room: nat, bpf: pos)
    requires pending % bpf == 0 && (room % bpf == 0 || pending <= room)
    ensures Min(pending, room) % bpf == 0
  {
  }

  lemma WholePublish(c: Config, s: State)
    requires c.bpf >= 1 && WholeInv(c, s) && WriterInv(c, s) && Enabled(c, s, PublishRead)
    ensures KeepsWhole(c, s, PublishRead)
  {
    SumWhole(s.drained, s.writer.chunk, c.bpf);
    WholeQuotient(s.writer.chunk, c.bpf);
  }

  lemma WholeQuotient(n: pos, bpf: pos)
    requires n % bpf == 0
    ensures n / bpf > 0 && n == (n / bpf) * bpf
  {
    if n / bpf <= 0 {
      MulLe(n / bpf, 0, bpf);
    }
  }

  lemma SumWhole(a: nat, b: nat, n: pos)
    requires a % n == 0 && b % n == 0
    ensures (a + b) % n == 0
  {
    MulAdd(a / n, b / n, n);
    ModUnique(a + b, n, a / n + b / n, 0);
  }

  lemma WholeBatch(c: Config, s: State)
    requires c.bpf >= 1 && WholeInv(c, s) && Enabled(c, s, WriteBatch)
    ensures KeepsWhole(c, s, WriteBatch)
  {
    var batch := Min(s.writer.frames, c.blockFrames - FramesInOpen(s));
    MulSplit(s.writer.frames, batch, c.bpf);
  }

  lemma WholeDiscard(c: Config, s: State)
    requires c.bpf >= 1 && WholeInv(c, s) && Enabled(c, s, OpenFails)
    ensures KeepsWhole(c, s, OpenFails)
  {
    ModUnique(s.writer.frames * c.bpf, c.bpf, s.writer.frames, 0);
    SumWhole(s.lost, s.writer.frames * c.bpf, c.bpf);
  }

  lemma {:induction false} WholeRun(c: Config, s: State, steps: seq<Step>)
    requires Inv(c, s) && WholeInv(c, s) && Legal(c, s, steps) && !Splits(c)
    ensures WholeInv(c, Run(c, s, steps))
    decreases |steps|
  {
    if steps != [] {
      WholeStep(c, s, steps[0]);
      NextInv(c, s, steps[0]);
      WholeRun(c, Next(c, s, steps[0]), steps[1..]);
    }
  }

  /** The writer finishes its copy while everything else stands still. */
  lemma CopyAllOut(c: Config, steps: seq<Step>) returns (longer: seq<Step>)
    requires Reached(c, steps) && After(c, steps).writer.WCopying?
    ensures Reached(c, longer)
    ensures var s, s' := After(c, steps), After(c, longer);
      var chunk := s.writer.chunk;
      s' == s.(buffer := s'.buffer, writer := WCopying(chunk, chunk))
    decreases |After(c, steps).buffer| - After(c, steps).writer.done
  {
    Reach(c, steps);
    var s := After(c, steps);
    var chunk, done := s.writer.chunk, s.writer.done;
    if done < chunk {
      CopyCellIs(c, s.drained, chunk, done);
      var next := Then(c, steps, CopyOut);
      longer := CopyAllOut(c, next);
    } else {
      longer := steps;
    }
  }

  /** Fill the ring past the write buffer, drain once, and fail to open the file. */
  lemma ShiftRun(c: Config) returns (steps: seq<Step>)
    requires c.Valid() && Splits(c)
    ensures Shifts(c, steps)
  {
    var n := 2 * c.Threshold();
    steps := BufferFilled(c, n);
    steps := CopyAllOut(c, steps);
    SomeFrames(n, c.bpf);
    steps := Then(c, steps, PublishRead);
    steps := Then(c, steps, OpenFails);
    assert After(c, steps).lost == n;
  }

  /** The first chunk taken out of a full ring fills the write buffer. */
  lemma BufferFilled(c: Config, n: nat) returns (steps: seq<Step>)
    requires c.Valid() && Splits(c) && n == 2 * c.Threshold()
    ensures Reached(c, steps)
    ensures var s := After(c, steps);
      s.writer == WCopying(n, 0) && s.used == 0 && s.open.None? && s.lost == 0
  {
    var most := LargestWhole(c.cap, c.bpf);
    steps := Filled(c, seq(most, _ => 0));
    PendingOf(c, steps);
    Reach(c, steps);
    steps := FirstChunk(c, steps);
  }

  lemma FirstChunk(c: Config, steps: seq<Step>) returns (longer: seq<Step>)
    requires Reached(c, steps)
    requires var s := After(c, steps);
      && s.writer.WWaiting? && s.used == 0 && s.open.None? && s.lost == 0 && |s.buffer| == 2 * c.Threshold()
      && Pending(s) > 2 * c.Threshold()
    ensures Reached(c, longer)
    ensures var s := After(c, longer);
      s.writer == WCopying(2 * c.Threshold(), 0) && s.used == 0 && s.open.None? && s.lost == 0
  {
    longer := Then(c, steps, Wake);
    longer := Then(c, longer, Load);
  }

  lemma SomeFrames(n: nat, bpf: pos)
    requires n >= bpf
    ensures n / bpf > 0
  {
    var most := LargestWhole(n, bpf);
    if n / bpf <= 0 {
      MulLe(n / bpf, 0, bpf);
    }
  }

  /** Which formats a failed open can leave shifted: those whose frame size does not divide
      the write buffer and whose ring holds more than the write buffer does. */
  lemma CanShiftIff(c: Config)
    requires c.Valid()
    ensures CanShift(c) <==> Splits(c)
  {
    if Splits(c) {
      var steps := ShiftRun(c);
      assert Shifts(c, steps);
    } else {
      forall steps | Reached(c, steps) ensures !Shifts(c, steps) {
        InitInv(c);
        ModUnique(0, c.bpf, 0, 0);
        WholeRun(c, Init(c), steps);
      }
    }
  }

  /** 24-bit mono at 16 kHz is such a format, as at every rate in this range. */
  lemma MonoTriplesShift(rate: nat, duration: pos)
    requires 10923 <= rate <= 21845
    ensures 4 * (rate * 3) < TWO_64 && NextPow2(4 * (rate * 3)) > 0
    ensures Configure(rate, 3, duration).Valid() && CanShift(Configure(rate, 3, duration))
  {
    ConfigureValid(rate, 3, duration);
    TriplesShift(Configure(rate, 3, duration));
  }

  lemma TriplesShift(c: Config)
    requires c.Valid() && c.bpf == 3 && 32768 < c.oneSecond <= 65536
    ensures CanShift(c)
  {
    var k := RingSize(c);
    assert Pow2(4) == 16;
    Pow2Divides(4, 8); Pow2Divides(8, 16);
    assert Pow2(17) == 131072 && Pow2(18) == 262144;
    if k <= 17 { Pow2Monotone(k, 17); } else { Pow2Monotone(18, k); }
    CanShiftIff(c);
  }
}
