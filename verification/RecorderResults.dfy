/** The recorder's guarantees, for every sequence of steps of its threads. */
module RecorderResults {

  import opened Bits
  import opened Bytes
  import opened RecorderProtocol
  import opened RecorderProofs

  ghost predicate Reached(c: Config, steps: seq<Step>) {
    c.Valid() && Legal(c, Init(c), steps)
  }

  ghost function After(c: Config, steps: seq<Step>): State
    requires Reached(c, steps)
  {
    Run(c, Init(c), steps)
  }

  lemma Reach(c: Config, steps: seq<Step>)
    requires Reached(c, steps)
    ensures Inv(c, After(c, steps))
  {
    InitInv(c);
    RunInv(c, Init(c), steps);
  }

  // --------------------------------------------------------- gapless recording

  /** The periods handed to push, in order. */
  function Pushed(steps: seq<Step>): seq<seq<byte>> {
    if steps == [] then []
    else (if steps[0].Push? then [steps[0].data] else []) + Pushed(steps[1..])
  }

  function Periods(offers: seq<Offer>): seq<seq<byte>> {
    if offers == [] then [] else Periods(offers[..|offers| - 1]) + [offers[|offers| - 1].data]
  }

  /** The periods the log has an outcome for, then the one still being copied. */
  function Logged(s: State): seq<seq<byte>> {
    Periods(s.offers) + (if s.producer.PIdle? then [] else [s.producer.data])
  }

  lemma {:induction false} LogIsComplete(c: Config, s: State, steps: seq<Step>)
    requires c.bpf >= 1 && Legal(c, s, steps)
    ensures Logged(Run(c, s, steps)) == Logged(s) + Pushed(steps)
    decreases |steps|
  {
    if steps != [] {
      var s' := Next(c, s, steps[0]);
      LogIsComplete(c, s', steps[1..]);
      LogStep(c, s, steps[0]);
    }
  }

  lemma PeriodsSnoc(offers: seq<Offer>, o: Offer)
    ensures Periods(offers + [o]) == Periods(offers) + [o.data]
  {
    assert (offers + [o])[..|offers|] == offers;
  }

  ghost predicate LogGrows(c: Config, s: State, step: Step)
    requires c.bpf >= 1 && Enabled(c, s, step)
  {
    Logged(Next(c, s, step)) == Logged(s) + (if step.Push? then [step.data] else [])
  }

  lemma LogStep(c: Config, s: State, step: Step)
    requires c.bpf >= 1 && Enabled(c, s, step)
    ensures LogGrows(c, s, step)
  {
    match step
    case Push(data) => PushLog(c, s, data);
    case LoadCursors => LoadLog(c, s);
    case PublishWrite => PublishLog(c, s);
    case _ => QuietLog(c, s, step);
  }

  lemma PushLog(c: Config, s: State, data: seq<byte>)
    requires c.bpf >= 1 && Enabled(c, s, Push(data))
    ensures LogGrows(c, s, Push(data))
  {
    PeriodsSnoc(s.offers, Offer(data, false));
  }

  lemma LoadLog(c: Config, s: State)
    requires c.bpf >= 1 && Enabled(c, s, LoadCursors)
    ensures LogGrows(c, s, LoadCursors)
  {
    PeriodsSnoc(s.offers, Offer(s.producer.data, false));
  }

  lemma PublishLog(c: Config, s: State)
    requires c.bpf >= 1 && Enabled(c, s, PublishWrite)
    ensures LogGrows(c, s, PublishWrite)
  {
    PeriodsSnoc(s.offers, Offer(s.producer.data, true));
  }

  lemma QuietLog(c: Config, s: State, step: Step)
    requires c.bpf >= 1 && Enabled(c, s, step)
    requires !step.Push? && !step.LoadCursors? && !step.PublishWrite?
    ensures LogGrows(c, s, step)
  {
    var s' := Next(c, s, step);
    assert s'.offers == s.offers && s'.producer.PIdle? == s.producer.PIdle?;
    assert !s.producer.PIdle? ==> s'.producer.data == s.producer.data;
  }

  lemma RingIsTail(c: Config, s: State)
    requires Inv(c, s)
    ensures RingBytes(s) == s.accepted[s.drained..]
  {
    PendingIs(c, s);
    var k := RingSize(c);
    MirroredTail(s.ring, s.accepted, s.drained, k);
  }

  lemma MirroredTail(ring: seq<byte>, stream: seq<byte>, lo: nat, k: nat)
    requires k <= 63 && |ring| == Pow2(k) && lo <= |stream| && Mirrors(ring, stream, lo, |stream|)
    ensures ReadRing(ring, lo % TWO_64, |stream| - lo) == stream[lo..]
  {
    var cells, tail := ReadRing(ring, lo % TWO_64, |stream| - lo), stream[lo..];
    forall i | 0 <= i < |cells| ensures cells[i] == tail[i] {
      CursorCell(lo, i, k);
      var p := lo + i;
      assert ring[p % |ring|] == stream[p];
    }
  }

  lemma CursorCell(cursor: nat, i: nat, k: nat)
    requires k <= 63
    ensures (cursor % TWO_64 + i) % Pow2(k) == (cursor + i) % Pow2(k)
  {
    WrapKeepsCell(cursor, k);
    ModShift(cursor % TWO_64, cursor, i, Pow2(k));
  }

  lemma ModShift(a: nat, b: nat, i: nat, n: pos)
    requires a % n == b % n
    ensures (a + i) % n == (b + i) % n
  {
    var q := a / n - b / n;
    MulSub(a / n, b / n, n);
    MulAdd((b + i) / n, q, n);
    ModUnique(a + i, n, (b + i) / n + q, (b + i) % n);
  }

  /** Every sample of every period that push did not drop is in exactly one place, in
      order: closed files, open file, write buffer, ring. A failed open only ever takes
      samples out of that order. */
  lemma Gapless(c: Config, steps: seq<Step>)
    requires Reached(c, steps)
    ensures var s := After(c, steps);
      var held := FileBytes(s) + Carry(s) + RingBytes(s);
      && Logged(s) == Pushed(steps)
      && (s.lost == 0 ==> held == Kept(s.offers))
      && |held| + s.lost == |Kept(s.offers)|
      && Subsequence(held, Kept(s.offers))
  {
    Reach(c, steps);
    var s := After(c, steps);
    LogIsComplete(c, Init(c), steps);
    assert Logged(Init(c)) == [];
    RingIsTail(c, s);
    var head, tail := s.accepted[..s.drained], s.accepted[s.drained..];
    assert s.accepted == head + tail;
    SubsequenceAppend(FileBytes(s) + Carry(s), head, tail);
  }

  /** The cells the two threads may touch never coincide, whatever each has last seen of
      the other's cursor, and all lie in the ring. */
  lemma SpscSafety(c: Config, steps: seq<Step>, i: nat, j: nat)
    requires Reached(c, steps)
    ensures var s := After(c, steps);
      && Pending(s) == |s.accepted| - s.drained <= c.cap
      && (s.producer.PCopying? && i < |s.producer.data| ==>
            0 <= CopyCell(c, s.ringWrite, |s.producer.data|, i) < |s.ring|)
      && (s.writer.WCopying? && j < s.writer.chunk ==>
            0 <= CopyCell(c, s.ringRead, s.writer.chunk, j) < |s.ring|)
      && (s.producer.PCopying? && i < |s.producer.data| && s.writer.WCopying? && j < s.writer.chunk ==>
            CopyCell(c, s.ringWrite, |s.producer.data|, i) != CopyCell(c, s.ringRead, s.writer.chunk, j))
  {
    Reach(c, steps);
    var s := After(c, steps);
    PendingIs(c, s);
    RegionsApart(c, s, i, j);
  }

  lemma RegionsApart(c: Config, s: State, i: nat, j: nat)
    requires c.Valid() && CursorInv(c, s) && ProducerInv(c, s) && WriterInv(c, s)
    ensures s.producer.PCopying? && i < |s.producer.data| ==>
              CopyCell(c, s.ringWrite, |s.producer.data|, i) == (|s.accepted| + i) % c.cap
    ensures s.writer.WCopying? && j < s.writer.chunk ==>
              CopyCell(c, s.ringRead, s.writer.chunk, j) == (s.drained + j) % c.cap
    ensures s.producer.PCopying? && i < |s.producer.data| && s.writer.WCopying? && j < s.writer.chunk ==>
              (|s.accepted| + i) % c.cap != (s.drained + j) % c.cap
  {
    var p := s.producer.PCopying? && i < |s.producer.data|;
    var w := s.writer.WCopying? && j < s.writer.chunk;
    if p { CopyCellIs(c, |s.accepted|, |s.producer.data|, i); }
    if w { CopyCellIs(c, s.drained, s.writer.chunk, j); }
    if p && w { CellsDistinct(s.drained + j, |s.accepted| + i, c.cap); }
  }

  // ---------------------------------------------------------- block accounting

  /** File i holds exactly accepted frames [i * B, (i + 1) * B); the file being written
      continues from there; after exit only the last one may be short, and no file is
      empty, and a short last file ends with what was filed last. The frame counter agrees
      at every step, and no statistics snapshot shows more blocks than frames. */
  lemma BlockAccounting(c: Config, steps: seq<Step>)
    requires Reached(c, steps)
    ensures var s, b := After(c, steps), c.BlockBytes();
      && 0 < b && s.blocks <= |s.closed| <= s.blocks + 1
      && (forall i :: 0 <= i < s.blocks ==> |s.closed[i]| == b)
      && (forall i :: 0 <= i < |s.closed| ==> 0 < |s.closed[i]| <= b)
      && (s.open.Some? ==> 0 < |s.open.value| <= b)
      && (s.writer.WCounting? ==> s.total == (s.blocks + 1) * c.blockFrames)
      && (!s.writer.WCounting? && !s.writer.WDone? ==> s.total == s.blocks * c.blockFrames + FramesInOpen(s))
      && (s.writer.WDone? ==> s.total == |s.closed| * c.blockFrames
                              || s.blocks * c.blockFrames < s.total < |s.closed| * c.blockFrames)
      && (s.stats.SBoth? ==> s.stats.blocks * c.blockFrames <= s.stats.total)
    ensures var s, b := After(c, steps), c.BlockBytes();
      s.lost == 0 ==> forall i :: 0 <= i < s.blocks ==> BlockIs(s, i, b)
    ensures var s, b := After(c, steps), c.BlockBytes();
      s.lost == 0 && |s.closed| == s.blocks ==>
        && 0 <= s.blocks * b <= s.drained - |Carry(s)| <= |s.accepted|
        && OpenBytes(s) == s.accepted[s.blocks * b..s.drained - |Carry(s)|]
    ensures var s, b := After(c, steps), c.BlockBytes();
      s.lost == 0 && |s.closed| == s.blocks + 1 ==>
        && 0 <= s.blocks * b <= s.drained - |Carry(s)| <= |s.accepted|
        && s.closed[s.blocks] == s.accepted[s.blocks * b..s.drained - |Carry(s)|]
  {
    Reach(c, steps);
    var s, b := After(c, steps), c.BlockBytes();
    BlockSizes(c, s);
    FrameCount(c, s);
    if s.lost == 0 {
      forall i | 0 <= i < s.blocks ensures BlockIs(s, i, b) {
        FullBlock(c, s, i);
      }
      if |s.closed| == s.blocks {
        OpenBlock(c, s);
      } else {
        LastBlock(c, s);
      }
    }
  }

  ghost predicate NoStats(steps: seq<Step>) {
    forall i :: 0 <= i < |steps| ==> !steps[i].ReadBlocks? && !steps[i].ReadTotal? && !steps[i].ReportDone?
  }

  /** A statistics snapshot: the block counter as it is when it is read, and the frame counter
      as it is when that is read, whatever the other threads do in between. */
  lemma SnapshotIs(c: Config, steps: seq<Step>, between: seq<Step>)
    requires Reached(c, steps) && After(c, steps).stats.SIdle? && NoStats(between)
    requires Legal(c, Next(c, After(c, steps), ReadBlocks), between)
    ensures var s := After(c, steps);
      var s' := Run(c, Next(c, s, ReadBlocks), between);
      Enabled(c, s', ReadTotal) && Next(c, s', ReadTotal).stats == SBoth(s.blocks, s'.total)
  {
    StatsKept(c, Next(c, After(c, steps), ReadBlocks), between);
  }

  lemma {:induction false} StatsKept(c: Config, s: State, steps: seq<Step>)
    requires c.bpf >= 1 && Legal(c, s, steps) && NoStats(steps)
    ensures Run(c, s, steps).stats == s.stats
    decreases |steps|
  {
    if steps != [] {
      StatsStep(c, s, steps[0]);
      forall i | 0 <= i < |steps[1..]|
        ensures !steps[1..][i].ReadBlocks? && !steps[1..][i].ReadTotal? && !steps[1..][i].ReportDone?
      {
        assert steps[1..][i] == steps[i + 1];
      }
      StatsKept(c, Next(c, s, steps[0]), steps[1..]);
    }
  }

  lemma StatsStep(c: Config, s: State, step: Step)
    requires c.bpf >= 1 && Enabled(c, s, step) && !step.ReadBlocks? && !step.ReadTotal? && !step.ReportDone?
    ensures Next(c, s, step).stats == s.stats
  {
    match step
    case Push(_) | LoadCursors | CopyIn | PublishWrite => ProducerKeepsStats(c, s, step);
    case Load | CopyOut | PublishRead | WriteBatch | OpenFails | CloseBlock | CountBlock | KeepPartial =>
      WriterKeepsStats(c, s, step);
    case _ =>
  }

  lemma ProducerKeepsStats(c: Config, s: State, step: Step)
    requires c.bpf >= 1 && Enabled(c, s, step)
    requires step.Push? || step.LoadCursors? || step.CopyIn? || step.PublishWrite?
    ensures Next(c, s, step).stats == s.stats
  {
  }

  lemma WriterKeepsStats(c: Config, s: State, step: Step)
    requires c.bpf >= 1 && Enabled(c, s, step)
    requires step in {Load, CopyOut, PublishRead, WriteBatch, OpenFails, CloseBlock, CountBlock, KeepPartial}
    ensures Next(c, s, step).stats == s.stats
  {
  }

  lemma BlockSizes(c: Config, s: State)
    requires BlockInv(c, s) && c.bpf >= 1
    ensures var b := c.BlockBytes();
      && s.blocks <= |s.closed| <= s.blocks + 1
      && (forall i :: 0 <= i < s.blocks ==> |s.closed[i]| == b)
      && (forall i :: 0 <= i < |s.closed| ==> 0 < |s.closed[i]| <= b)
      && (s.open.Some? ==> 0 < |s.open.value| <= b)
  {
    if s.open.Some? {
      MulAtLeast(s.inBlock, c.bpf);
      MulLe(s.inBlock, c.blockFrames, c.bpf);
    }
    forall i | 0 <= i < s.blocks ensures |s.closed[i]| == c.BlockBytes() {
      assert s.closed[i] == s.closed[..s.blocks][i];
    }
  }

  lemma OpenBlock(c: Config, s: State)
    requires StreamInv(c, s) && BlockInv(c, s) && s.lost == 0 && |s.closed| == s.blocks
    ensures var b := c.BlockBytes();
      && 0 <= s.blocks * b <= s.drained - |Carry(s)| <= |s.accepted|
      && OpenBytes(s) == s.accepted[s.blocks * b..s.drained - |Carry(s)|]
  {
    assert s.closed[..s.blocks] == s.closed;
    FlattenUniformLength(s.closed, c.BlockBytes());
    OpenIsRest(Flatten(s.closed), OpenBytes(s), Carry(s), s.accepted[..s.drained]);
    MulLe(0, s.blocks, c.BlockBytes());
  }

  lemma LastBlock(c: Config, s: State)
    requires StreamInv(c, s) && BlockInv(c, s) && s.lost == 0 && |s.closed| == s.blocks + 1
    ensures var b := c.BlockBytes();
      && 0 <= s.blocks * b <= s.drained - |Carry(s)| <= |s.accepted|
      && s.closed[s.blocks] == s.accepted[s.blocks * b..s.drained - |Carry(s)|]
  {
    var full, last := s.closed[..s.blocks], s.closed[s.blocks];
    assert s.closed == full + [last] && s.open.None?;
    FlattenSnoc(full, last);
    assert FileBytes(s) == Flatten(full) + last;
    LastIsRest(full, last, Carry(s), s.accepted, s.drained, c.BlockBytes());
  }

  lemma LastIsRest(full: seq<seq<byte>>, last: seq<byte>, carry: seq<byte>, all: seq<byte>, n: nat, b: nat)
    requires Uniform(full, b) && n <= |all| && Flatten(full) + last + carry == all[..n]
    ensures 0 <= |full| * b <= n - |carry| && last == all[|full| * b..n - |carry|]
  {
    FlattenUniformLength(full, b);
    RestOf(Flatten(full), last, carry, all, n);
  }

  lemma RestOf(files: seq<byte>, last: seq<byte>, carry: seq<byte>, all: seq<byte>, n: nat)
    requires n <= |all| && files + last + carry == all[..n]
    ensures |files| <= n - |carry| && last == all[|files|..n - |carry|]
  {
    OpenIsRest(files, last, carry, all[..n]);
    assert all[..n][|files|..n - |carry|] == all[|files|..n - |carry|];
  }

  lemma FrameCount(c: Config, s: State)
    requires BlockInv(c, s)
    ensures s.writer.WCounting? ==> s.total == (s.blocks + 1) * c.blockFrames
    ensures !s.writer.WCounting? && !s.writer.WDone? ==> s.total == s.blocks * c.blockFrames + FramesInOpen(s)
    ensures s.writer.WDone? ==> s.total == |s.closed| * c.blockFrames
                                || s.blocks * c.blockFrames < s.total < |s.closed| * c.blockFrames
  {
  }

  ghost predicate BlockIs(s: State, i: nat, b: nat) {
    && i < |s.closed| && 0 <= i * b <= (i + 1) * b <= |s.accepted|
    && s.closed[i] == s.accepted[i * b..(i + 1) * b]
  }

  lemma OpenIsRest(files: seq<byte>, open: seq<byte>, carry: seq<byte>, all: seq<byte>)
    requires files + open + carry == all
    ensures |files| <= |all| - |carry| && open == all[|files|..|all| - |carry|]
  {
  }

  lemma FullBlock(c: Config, s: State, i: nat)
    requires StreamInv(c, s) && BlockInv(c, s) && s.lost == 0 && i < s.blocks
    ensures BlockIs(s, i, c.BlockBytes())
  {
    var b := c.BlockBytes();
    var full, rest := s.closed[..s.blocks], s.closed[s.blocks..];
    FlattenUniform(full, b, i);
    assert full[i] == s.closed[i];
    assert s.closed == full + rest;
    FlattenAppend(full, rest);
    MulLe(0, i, b);
    Reassociate(Flatten(full), Flatten(rest), OpenBytes(s), Carry(s));
    SliceOfPrefix(Flatten(full), Flatten(rest) + OpenBytes(s) + Carry(s), s.accepted, s.drained, i * b, (i + 1) * b);
  }

  lemma Reassociate(a: seq<byte>, b: seq<byte>, open: seq<byte>, carry: seq<byte>)
    ensures ((a + b) + open) + carry == a + (b + open + carry)
  {
  }

  lemma SliceOfPrefix(a: seq<byte>, more: seq<byte>, all: seq<byte>, n: nat, lo: int, hi: int)
    requires n <= |all| && a + more == all[..n] && 0 <= lo <= hi <= |a|
    ensures |a| <= n && all[lo..hi] == a[lo..hi]
  {
    assert (a + more)[..|a|] == a;
    assert all[..n][..|a|] == all[..|a|];
    assert all[..|a|][lo..hi] == all[lo..hi];
  }

  lemma {:induction false} FlattenAppend<T>(a: seq<seq<T>>, b: seq<seq<T>>)
    ensures Flatten(a + b) == Flatten(a) + Flatten(b)
    decreases |b|
  {
    if b == [] {
      assert a + b == a;
    } else {
      var init, last := b[..|b| - 1], b[|b| - 1];
      FlattenAppend(a, init);
      assert a + b == (a + init) + [last];
      FlattenSnoc(a + init, last);
    }
  }

  // ------------------------------------------------------- drain and shutdown

  ghost predicate Draining(s: State) {
    !s.writer.WOff? && !s.writer.WWaiting? && !s.writer.WDone?
  }

  predicate WriterStep(step: Step) {
    step in {Load, CopyOut, PublishRead, WriteBatch, CloseBlock, CountBlock, KeepPartial,
             CheckRunning, CheckEmpty, CloseLast}
  }

  /** Unread ring bytes, phase, and the work left inside the phase. */
  function Work(s: State): (nat, nat, nat, nat)
    requires |s.accepted| >= s.drained
  {
    var pending := |s.accepted| - s.drained;
    match s.writer
    case WBatching(_, frames) => (pending, 6, frames, 0)
    case WCounting(_, frames) => (pending, 6, frames, 1)
    case WClosing(_, frames) => (pending, 6, frames, 2)
    case WLoading => (pending, 5, 0, 0)
    case WCopying(chunk, done) => (pending, 4, if done <= chunk then chunk - done else 0, 0)
    case WChecking => (pending, 3, 0, 0)
    case WCheckingEmpty => (pending, 2, 0, 0)
    case WExiting => (pending, 1, 0, 0)
    case _ => (pending, 0, 0, 0)
  }

  predicate Less(a: (nat, nat, nat, nat), b: (nat, nat, nat, nat)) {
    a.0 < b.0 || (a.0 == b.0 && (a.1 < b.1 || (a.1 == b.1 && (a.2 < b.2 || (a.2 == b.2 && a.3 < b.3)))))
  }

  ghost predicate TakesBytes(c: Config, s: State)
    requires c.bpf >= 1
  {
    Enabled(c, s, Load) && Next(c, s, Load).writer.WCopying? && Next(c, s, Load).writer.chunk > 0
  }

  /** A draining writer always has a step, takes at least one byte whenever the ring is
      not empty, and every writer step, a failed open included, lessens the work: a
      drain pass ends unless the producer keeps adding. */
  lemma DrainProgress(c: Config, steps: seq<Step>)
    requires Reached(c, steps)
    ensures var s := After(c, steps);
      && (Draining(s) ==> exists step :: WriterStep(step) && Enabled(c, s, step))
      && (s.writer.WLoading? && Pending(s) > 0 ==> TakesBytes(c, s))
      && |s.accepted| >= s.drained
      && forall step | WriterStep(step) || step.OpenFails? :: Lessens(c, s, step)
  {
    Reach(c, steps);
    var s := After(c, steps);
    PendingIs(c, s);
    if Draining(s) {
      var step := WriterCanStep(c, s);
    }
    forall step | WriterStep(step) || step.OpenFails? ensures Lessens(c, s, step) {
      StepLessens(c, s, step);
    }
  }

  ghost predicate Lessens(c: Config, s: State, step: Step)
    requires c.bpf >= 1 && s.drained <= |s.accepted|
  {
    Enabled(c, s, step) ==>
      var s' := Next(c, s, step);
      s'.drained <= |s'.accepted| && Less(Work(s'), Work(s))
  }

  lemma StepLessens(c: Config, s: State, step: Step)
    requires c.bpf >= 1 && s.drained <= |s.accepted| && WriterInv(c, s) && BlockInv(c, s)
    requires WriterStep(step) || step.OpenFails?
    ensures Lessens(c, s, step)
  {
    match step
    case WriteBatch => BatchLessens(c, s);
    case Load | CopyOut | PublishRead => CopyLessens(c, s, step);
    case CloseBlock | CountBlock | KeepPartial | OpenFails => FileLessens(c, s, step);
    case _ => CheckLessens(c, s, step);
  }

  lemma CopyLessens(c: Config, s: State, step: Step)
    requires c.bpf >= 1 && s.drained <= |s.accepted| && WriterInv(c, s)
    requires step in {Load, CopyOut, PublishRead}
    ensures Lessens(c, s, step)
  {
    match step
    case Load => assert Lessens(c, s, Load);
    case CopyOut => assert Lessens(c, s, CopyOut);
    case PublishRead => assert Lessens(c, s, PublishRead);
  }

  lemma FileLessens(c: Config, s: State, step: Step)
    requires c.bpf >= 1 && s.drained <= |s.accepted|
    requires step in {CloseBlock, CountBlock, KeepPartial, OpenFails}
    ensures Lessens(c, s, step)
  {
    match step
    case CloseBlock => assert Lessens(c, s, CloseBlock);
    case CountBlock => assert Lessens(c, s, CountBlock);
    case KeepPartial => assert Lessens(c, s, KeepPartial);
    case OpenFails => assert Lessens(c, s, OpenFails);
  }

  lemma CheckLessens(c: Config, s: State, step: Step)
    requires c.bpf >= 1 && s.drained <= |s.accepted|
    requires step in {CheckRunning, CheckEmpty, CloseLast}
    ensures Lessens(c, s, step)
  {
    match step
    case CheckRunning => assert Lessens(c, s, CheckRunning);
    case CheckEmpty => assert Lessens(c, s, CheckEmpty);
    case CloseLast => assert Lessens(c, s, CloseLast);
  }

  lemma BatchLessens(c: Config, s: State)
    requires c.bpf >= 1 && s.drained <= |s.accepted| && WriterInv(c, s) && BlockInv(c, s)
    ensures Lessens(c, s, WriteBatch)
  {
    if Enabled(c, s, WriteBatch) {
      var batch, n := BatchSplit(c, s);
    }
  }

  lemma WriterCanStep(c: Config, s: State) returns (step: Step)
    requires Inv(c, s) && Draining(s)
    ensures WriterStep(step) && Enabled(c, s, step)
  {
    match s.writer
    case WLoading => step := Load;
    case WCopying(chunk, done) =>
      if done < chunk {
        CopyCellIs(c, s.drained, chunk, done) by { var k := RingSize(c); }
        step := CopyOut;
      } else {
        step := PublishRead;
      }
    case WBatching(_, frames) => step := if frames > 0 then WriteBatch else KeepPartial;
    case WClosing(_, _) => step := CloseBlock;
    case WCounting(_, _) => step := CountBlock;
    case WChecking => step := CheckRunning;
    case WCheckingEmpty => step := CheckEmpty;
    case WExiting => step := CloseLast;
  }

  /** Once the writer has exited and no open ever failed, the files are everything that
      was accepted exactly when nothing was published after the exit test found the
      ring empty; and nothing can have been if capture was joined first, as the
      pipeline's stop does. */
  lemma ShutdownComplete(c: Config, steps: seq<Step>)
    requires Reached(c, steps)
    ensures var s := After(c, steps);
      s.writer.WDone? && s.lost == 0 ==>
        && s.open.None?
        && (Flatten(s.closed) == Kept(s.offers) <==> Pending(s) == 0)
        && (Pending(s) == 0 ==> s.used == 0)
        && (s.orderly ==> Pending(s) == 0)
  {
    Reach(c, steps);
    var s := After(c, steps);
    PendingIs(c, s);
    if s.writer.WDone? && s.lost == 0 {
      DoneComplete(c, s);
    }
  }

  lemma DoneComplete(c: Config, s: State)
    requires Inv(c, s) && s.writer.WDone? && s.lost == 0
    ensures Flatten(s.closed) == Kept(s.offers) <==> s.drained == |s.accepted|
    ensures s.drained == |s.accepted| ==> s.used == 0
  {
    assert FileBytes(s) == Flatten(s.closed) && Carry(s) == s.buffer[..s.used];
    assert s.accepted[..|s.accepted|] == s.accepted;
    if s.drained == |s.accepted| {
      NoPartialFrame(s.total, c.bpf, s.used, |s.accepted|);
      assert Flatten(s.closed) + [] == s.accepted;
    } else {
      assert |Flatten(s.closed)| < |s.accepted|;
    }
  }

  lemma NoPartialFrame(frames: nat, bpf: nat, used: nat, total: nat)
    requires bpf > 0 && used < bpf && frames * bpf + used == total && total % bpf == 0
    ensures used == 0
  {
    ModUnique(total, bpf, frames, used);
  }
}
