/** What the ring and flush-threshold sizes imply: when a drop means the writer was awake,
    which formats leave it asleep, and what stopping in the wrong order loses. */
module RecorderSizing {

  import opened Bits
  import opened Bytes
  import opened RecorderProtocol
  import opened RecorderProofs
  import opened RecorderResults

  lemma {:induction false} Extend(c: Config, s: State, steps: seq<Step>, x: Step)
    requires c.bpf >= 1 && Legal(c, s, steps) && Enabled(c, Run(c, s, steps), x)
    ensures Legal(c, s, steps + [x]) && Run(c, s, steps + [x]) == Next(c, Run(c, s, steps), x)
    decreases |steps|
  {
    if steps == [] {
      assert (steps + [x])[1..] == [];
    } else {
      Extend(c, Next(c, s, steps[0]), steps[1..], x);
      assert (steps + [x])[1..] == steps[1..] + [x];
    }
  }

  lemma Then(c: Config, steps: seq<Step>, x: Step) returns (longer: seq<Step>)
    requires Reached(c, steps) && Enabled(c, After(c, steps), x)
    ensures longer == steps + [x] && Reached(c, longer)
    ensures After(c, longer) == Next(c, After(c, steps), x)
  {
    Extend(c, Init(c), steps, x);
    longer := steps + [x];
  }

  /** The producer finishes its copy while everything else stands still. */
  lemma CopyAll(c: Config, steps: seq<Step>) returns (longer: seq<Step>)
    requires Reached(c, steps) && After(c, steps).producer.PCopying?
    ensures Reached(c, longer)
    ensures var s, s' := After(c, steps), After(c, longer);
      var data := s.producer.data;
      s' == s.(ring := s'.ring, producer := PCopying(data, |data|))
    decreases |After(c, steps).producer.data| - After(c, steps).producer.done
  {
    Reach(c, steps);
    var s := After(c, steps);
    var data, done := s.producer.data, s.producer.done;
    if done < |data| {
      CopyCellIs(c, |s.accepted|, |data|, done);
      var next := Then(c, steps, CopyIn);
      longer := CopyAll(c, next);
    } else {
      longer := steps;
    }
  }

  // ------------------------------------------------------------------ margins

  /** How far the ring exceeds the flush threshold, for every stream format. */
  lemma Margins(c: Config)
    requires c.Valid()
    ensures c.oneSecond >= 65536 ==> c.cap - c.Threshold() >= 3 * c.oneSecond
    ensures c.oneSecond > 16384 ==> c.cap - c.Threshold() >= 65536
    ensures 8192 < c.oneSecond <= 16384 ==> c.cap == c.Threshold() == 65536
    ensures c.oneSecond <= 8192 ==> c.cap < c.Threshold()
  {
    var k := RingSize(c);
    RoundUp(4 * c.oneSecond);
    assert Pow2(4) == 16;
    Pow2Divides(4, 8); Pow2Divides(8, 16);
    assert Pow2(16) == 65536 && Pow2(15) == 32768 && Pow2(17) == 131072;
    if k <= 15 { Pow2Monotone(k, 15); } else { Pow2Monotone(16, k); }
    if k > 16 { Pow2Monotone(17, k); }
  }

  /** A period is dropped only while the writer's wait is over, provided it is at most one
      byte longer than the margin. */
  lemma DropMeansWriterEnabled(c: Config, steps: seq<Step>)
    requires Reached(c, steps) && Enabled(c, After(c, steps), LoadCursors)
    requires |After(c, steps).producer.data| <= c.cap - c.Threshold() + 1
    ensures var s := After(c, steps);
      Next(c, s, LoadCursors).producer.PIdle? ==> WaitOver(c, s)
  {
    PendingOf(c, steps);
  }

  lemma PendingOf(c: Config, steps: seq<Step>)
    requires Reached(c, steps)
    ensures var s := After(c, steps);
      && s.drained <= |s.accepted| && Pending(s) == |s.accepted| - s.drained <= c.cap
      && s.accepted == Kept(s.offers) && |s.accepted| % c.bpf == 0
  {
    Reach(c, steps);
    PendingIs(c, After(c, steps));
  }

  // ------------------------------------------------------- drops while asleep

  /** The most whole frames the ring can hold, in bytes. */
  function Fill(c: Config): int
    requires c.bpf >= 1
  {
    (c.cap / c.bpf) * c.bpf
  }

  /** The most of them that leave the writer asleep. */
  function Quiet(c: Config): int
    requires c.bpf >= 1
  {
    (Min(c.Threshold() - 1, c.cap) / c.bpf) * c.bpf
  }

  /** A run without failed opens at whose end a running but sleeping recorder drops an
      n-byte period. */
  ghost predicate DropsAsleep(c: Config, n: nat, steps: seq<Step>) {
    && Reached(c, steps)
    && var s := After(c, steps);
       && s.lost == 0 && s.running && s.writer.WWaiting? && !WaitOver(c, s)
       && s.producer == PChecked(seq(n, _ => 0))
       && Next(c, s, LoadCursors).producer.PIdle?
  }

  /** Between drain passes the writer has taken whole frames out of the ring. */
  ghost predicate WholeTaken(c: Config, s: State)
    requires c.bpf >= 1
  {
    s.lost == 0 && BetweenPasses(s.writer) ==> s.drained % c.bpf == 0
  }

  predicate BetweenPasses(w: Writer) {
    w.WOff? || w.WWaiting? || w.WChecking? || w.WCheckingEmpty? || w.WExiting? || w.WDone?
  }

  lemma WholeTakenStep(c: Config, s: State, step: Step)
    requires Inv(c, s) && WholeTaken(c, s) && Enabled(c, s, step)
    ensures WholeTaken(c, Next(c, s, step))
  {
    match step
    case OpenFails => MulAtLeast(s.writer.frames, c.bpf);
    case Load => WholeTakenLoad(c, s);
    case PublishRead => assert WholeTaken(c, Next(c, s, PublishRead));
    case _ => WholeTakenSame(c, s, step);
  }

  /** The writer leaves the drain loop when the ring is empty, all whole periods. */
  lemma WholeTakenLoad(c: Config, s: State)
    requires c.Valid() && CursorInv(c, s) && |s.accepted| % c.bpf == 0 && Enabled(c, s, Load)
    ensures WholeTaken(c, Next(c, s, Load))
  {
    PendingIs(c, s);
  }

  lemma WholeTakenSame(c: Config, s: State, step: Step)
    requires c.bpf >= 1 && WholeTaken(c, s) && Enabled(c, s, step)
    requires !step.OpenFails? && !step.Load? && !step.PublishRead?
    ensures WholeTaken(c, Next(c, s, step))
  {
    assert Next(c, s, step).drained == s.drained && Next(c, s, step).lost == s.lost;
    assert BetweenPasses(Next(c, s, step).writer) ==> BetweenPasses(s.writer);
  }

  lemma {:induction false} WholeTakenRun(c: Config, s: State, steps: seq<Step>)
    requires Inv(c, s) && WholeTaken(c, s) && Legal(c, s, steps)
    ensures WholeTaken(c, Run(c, s, steps))
    decreases |steps|
  {
    if steps != [] {
      WholeTakenStep(c, s, steps[0]);
      NextInv(c, s, steps[0]);
      WholeTakenRun(c, Next(c, s, steps[0]), steps[1..]);
    }
  }

  /** Exactly the whole-frame periods longer than what the largest quiet fill leaves free
      can be dropped without the writer having been woken. */
  lemma DropsAsleepIff(c: Config, n: nat)
    requires c.Valid() && n % c.bpf == 0
    ensures (exists steps :: DropsAsleep(c, n, steps)) <==> n > c.cap - Quiet(c)
  {
    if n > c.cap - Quiet(c) {
      var steps := SleepRun(c, n);
    } else {
      forall steps | Reached(c, steps) ensures !DropsAsleep(c, n, steps) {
        NoSleepyDrop(c, n, steps);
      }
    }
  }

  /** So no run drops a period asleep that is no longer than the margin plus one byte. */
  lemma NeverDroppedAsleep(c: Config, n: nat)
    requires c.Valid() && n % c.bpf == 0 && n <= c.cap - c.Threshold() + 1
    ensures !exists steps :: DropsAsleep(c, n, steps)
  {
    DropsAsleepIff(c, n);
    var most := LargestWhole(Min(c.Threshold() - 1, c.cap), c.bpf);
  }

  lemma NoSleepyDrop(c: Config, n: nat, steps: seq<Step>)
    requires Reached(c, steps) && n <= c.cap - Quiet(c)
    ensures !DropsAsleep(c, n, steps)
  {
    PendingOf(c, steps);
    InitInv(c);
    ModUnique(0, c.bpf, 0, 0);
    WholeTakenRun(c, Init(c), steps);
    var s := After(c, steps);
    if DropsAsleep(c, n, steps) {
      DifferenceWhole(|s.accepted|, s.drained, c.bpf);
      WholeFramesFit(|s.accepted| - s.drained, Min(c.Threshold() - 1, c.cap), c.bpf);
    }
  }

  lemma DifferenceWhole(a: nat, b: nat, n: pos)
    requires a % n == 0 && b % n == 0 && b <= a
    ensures (a - b) % n == 0
  {
    MulSub(a / n, b / n, n);
    ModUnique(a - b, n, a / n - b / n, 0);
  }

  lemma SleepRun(c: Config, n: nat) returns (steps: seq<Step>)
    requires c.Valid() && n % c.bpf == 0 && n > c.cap - Quiet(c)
    ensures DropsAsleep(c, n, steps)
  {
    var most := LargestWhole(Min(c.Threshold() - 1, c.cap), c.bpf);
    var quiet, data := seq(most, _ => 0), seq(n, _ => 0);
    steps := Filled(c, quiet);
    steps := Then(c, steps, Push(data));
    PendingOf(c, steps);
  }

  lemma LargestWhole(n: nat, bpf: pos) returns (most: nat)
    ensures most == (n / bpf) * bpf <= n < most + bpf && most % bpf == 0
  {
    MulLe(0, n / bpf, bpf);
    most := (n / bpf) * bpf;
    ModUnique(most, bpf, n / bpf, 0);
  }

  /** From the start, one whole period published while the writer sleeps. */
  lemma Filled(c: Config, data: seq<byte>) returns (steps: seq<Step>)
    requires c.Valid() && |data| % c.bpf == 0 && |data| <= c.cap
    ensures Reached(c, steps)
    ensures var s := After(c, steps);
      && s.accepted == data && s.drained == 0 && s.lost == 0 && s.used == 0 && s.open.None?
      && s.running && s.recording && !s.captureStopped && s.writer.WWaiting? && s.producer.PIdle?
  {
    steps := PushOne(c, data);
    steps := CopyAll(c, steps);
    steps := Then(c, steps, PublishWrite);
    assert [] + data == data;
  }

  // --------------------------------------------------------------- starvation

  /** Some run that has not been stopped wakes the writer. */
  ghost predicate CanWake(c: Config) {
    exists steps :: WakesIn(c, steps)
  }

  ghost predicate WakesIn(c: Config, steps: seq<Step>) {
    Reached(c, steps) && var s := After(c, steps); s.running && s.writer.WWaiting? && WaitOver(c, s)
  }

  ghost predicate Asleep(s: State) {
    && (s.writer.WOff? || s.running ==> s.drained == 0 && s.closed == [] && s.open.None? && s.used == 0)
    && (s.running ==> s.writer.WWaiting?)
  }

  lemma AsleepStep(c: Config, s: State, step: Step)
    requires Inv(c, s) && Asleep(s) && Enabled(c, s, step) && Fill(c) < c.Threshold()
    ensures Asleep(Next(c, s, step))
  {
    if step.Wake? {
      PendingIs(c, s);
      if s.running {
        WholeFramesFit(|s.accepted|, c.cap, c.bpf);
      }
    } else {
      AsleepOther(c, s, step);
    }
  }

  lemma AsleepOther(c: Config, s: State, step: Step)
    requires c.bpf >= 1 && Asleep(s) && Enabled(c, s, step) && !step.Wake? && (step.Start? ==> s.writer.WOff?)
    ensures Asleep(Next(c, s, step))
  {
    var s' := Next(c, s, step);
    if s.writer.WOff? || s.writer.WWaiting? {
      AtRest(c, s, step);
    } else {
      assert !s'.writer.WOff? && s'.running ==> s.running;
    }
  }

  /** A writer that is not in its loop files nothing. */
  lemma AtRest(c: Config, s: State, step: Step)
    requires c.bpf >= 1 && Enabled(c, s, step) && !step.Wake? && (s.writer.WOff? || s.writer.WWaiting?)
    ensures var s' := Next(c, s, step);
      && s'.drained == s.drained && s'.closed == s.closed && s'.open == s.open && s'.used == s.used
      && (step.Start? || (s'.writer == s.writer && (s'.running ==> s.running)))
  {
    match step
    case Push(_) | LoadCursors | CopyIn | PublishWrite => ProducerOnly(c, s, step);
    case _ =>
  }

  lemma ProducerOnly(c: Config, s: State, step: Step)
    requires c.bpf >= 1 && Enabled(c, s, step)
    requires step.Push? || step.LoadCursors? || step.CopyIn? || step.PublishWrite?
    ensures var s' := Next(c, s, step);
      && s'.drained == s.drained && s'.closed == s.closed && s'.open == s.open && s'.used == s.used
      && s'.writer == s.writer && s'.running == s.running
  {
  }

  lemma WholeFramesFit(n: nat, cap: nat, bpf: nat)
    requires bpf > 0 && n % bpf == 0 && n <= cap
    ensures n <= (cap / bpf) * bpf
  {
    if n / bpf > cap / bpf {
      MulLe(cap / bpf + 1, n / bpf, bpf);
      MulAdd(cap / bpf, 1, bpf);
    }
    MulLe(n / bpf, Max(cap / bpf, n / bpf), bpf);
  }

  lemma {:induction false} AsleepRun(c: Config, s: State, steps: seq<Step>)
    requires Inv(c, s) && Asleep(s) && Legal(c, s, steps) && Fill(c) < c.Threshold()
    ensures Asleep(Run(c, s, steps)) && Inv(c, Run(c, s, steps))
    decreases |steps|
  {
    if steps != [] {
      AsleepStep(c, s, steps[0]);
      NextInv(c, s, steps[0]);
      AsleepRun(c, Next(c, s, steps[0]), steps[1..]);
    }
  }

  /** The writer can wake before it is stopped exactly when a ring full of whole frames
      reaches the flush threshold. Formats below 8193 bytes a second never do. */
  lemma CanWakeIff(c: Config)
    requires c.Valid()
    ensures CanWake(c) <==> Fill(c) >= c.Threshold()
    ensures c.oneSecond <= 8192 ==> !CanWake(c)
  {
    if Fill(c) >= c.Threshold() {
      var steps := FillRun(c);
      assert WakesIn(c, steps);
    } else {
      forall steps | Reached(c, steps) ensures !WakesIn(c, steps) {
        StarvedUntilStopped(c, steps);
      }
    }
    Margins(c);
    WholeFrames(c.cap, c.bpf);
  }

  /** Such a recorder writes nothing at all until it is stopped. */
  lemma StarvedUntilStopped(c: Config, steps: seq<Step>)
    requires Reached(c, steps) && Fill(c) < c.Threshold()
    ensures var s := After(c, steps);
      s.running ==> !WaitOver(c, s) && FileBytes(s) == [] && s.drained == 0
  {
    InitInv(c);
    AsleepRun(c, Init(c), steps);
    PendingOf(c, steps);
    WholeFramesFit(|After(c, steps).accepted|, Max(c.cap, |After(c, steps).accepted|), c.bpf);
  }

  /** From the start, one push of a whole period that fits. */
  lemma PushOne(c: Config, data: seq<byte>) returns (steps: seq<Step>)
    requires c.Valid() && |data| % c.bpf == 0 && |data| <= c.cap
    ensures Reached(c, steps)
    ensures var s := Init(c).(recording := true, running := true, writer := WWaiting);
      After(c, steps) == s.(producer := PCopying(data, 0))
  {
    InitInv(c);
    PendingIs(c, Init(c));
    steps := Then(c, [], Start);
    steps := Then(c, steps, Push(data));
    steps := Then(c, steps, LoadCursors);
  }

  lemma FillRun(c: Config) returns (steps: seq<Step>)
    requires c.Valid() && Fill(c) >= c.Threshold()
    ensures WakesIn(c, steps)
  {
    WholeFrames(c.cap, c.bpf);
    ModUnique(Fill(c), c.bpf, c.cap / c.bpf, 0);
    var data := seq(Fill(c), _ => 0);
    steps := Filled(c, data);
    PendingOf(c, steps);
  }

  // -------------------------------------------------------------- stop order

  /** Stopping the recorder while the capture thread is inside push can leave an accepted
      period in the ring for ever. */
  lemma LatePublishIsLost(c: Config) returns (steps: seq<Step>)
    requires c.Valid()
    ensures Reached(c, steps)
    ensures var s := After(c, steps);
      && s.writer.WDone? && s.lost == 0 && !s.orderly && s.closed == []
      && Kept(s.offers) == seq(c.bpf, _ => 0) && Pending(s) == c.bpf > 0
  {
    var frame := seq(c.bpf, _ => 0);
    var k := RingSize(c);
    ModUnique(c.bpf, c.bpf, 1, 0);
    steps := PushOne(c, frame);
    steps := StopEarly(c, steps);
    steps := CopyAll(c, steps);
    steps := Then(c, steps, PublishWrite);
    PendingOf(c, steps);
    assert After(c, steps).accepted == frame;
  }

  lemma StopEarly(c: Config, steps: seq<Step>) returns (longer: seq<Step>)
    requires Reached(c, steps)
    requires var s := After(c, steps);
      && s.writer.WWaiting? && s.recording && s.running && !s.captureStopped && s.open.None?
      && s.ringWrite == s.ringRead == 0 && s.used == 0
    ensures Reached(c, longer)
    ensures After(c, longer) == After(c, steps).(recording := false, running := false, writer := WDone, orderly := false)
  {
    longer := Then(c, steps, StopRecording);
    longer := Then(c, longer, StopWriter);
    longer := ExitEmpty(c, longer);
  }

  lemma ExitEmpty(c: Config, steps: seq<Step>) returns (longer: seq<Step>)
    requires Reached(c, steps)
    requires var s := After(c, steps);
      s.writer.WWaiting? && !s.running && s.open.None? && s.ringWrite == s.ringRead == 0 && s.used == 0
    ensures Reached(c, longer) && After(c, longer) == After(c, steps).(writer := WDone)
  {
    longer := Then(c, steps, Wake);
    longer := Then(c, longer, Load);
    longer := ExitChecked(c, longer);
  }

  lemma ExitChecked(c: Config, steps: seq<Step>) returns (longer: seq<Step>)
    requires Reached(c, steps)
    requires var s := After(c, steps);
      s.writer.WChecking? && !s.running && s.open.None? && s.ringWrite == s.ringRead
    ensures Reached(c, longer) && After(c, longer) == After(c, steps).(writer := WDone)
  {
    longer := Then(c, steps, CheckRunning);
    longer := Then(c, longer, CheckEmpty);
    longer := Then(c, longer, CloseLast);
  }
}
