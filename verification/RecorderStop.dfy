/** What decides, at the moment the writer is told to stop, whether the files will hold
    everything that was accepted. */
module RecorderStop {

  import opened Bits
  import opened Bytes
  import opened RecorderProtocol
  import opened RecorderProofs
  import opened RecorderResults

  /** A push under way that can still put bytes into the ring: room for them was found, or
      the recording flag was read as set and they are not too long for the empty ring. */
  predicate LatePush(c: Config, s: State) {
    match s.producer
    case PIdle => false
    case PChecked(data) => 0 < |data| <= c.cap
    case PCopying(data, _) => 0 < |data|
  }

  /** If these steps from s let the writer exit, and no open failed, nothing accepted is
      missing from the files. */
  ghost predicate CompleteIfDone(c: Config, s: State, steps: seq<Step>)
    requires c.bpf >= 1
  {
    Legal(c, s, steps) ==>
      var done := Run(c, s, steps);
      done.writer.WDone? && done.lost == 0 ==> Flatten(done.closed) == Kept(done.offers)
  }

  /** Whatever happens after the writer was told to stop, the files come out complete: that
      is so exactly when no push that can still put bytes into the ring is under way then. */
  lemma StopIsCompleteIff(c: Config, steps: seq<Step>)
    requires Reached(c, steps) && Enabled(c, After(c, steps), StopWriter) && After(c, steps).lost == 0
    ensures (forall more :: CompleteIfDone(c, Next(c, After(c, steps), StopWriter), more))
       <==> !LatePush(c, After(c, steps))
  {
    Reach(c, steps);
    var s := After(c, steps);
    NextInv(c, s, StopWriter);
    var stopped := Next(c, s, StopWriter);
    if LatePush(c, s) {
      var more := LossyRun(c, stopped);
      assert !CompleteIfDone(c, stopped, more);
    } else {
      forall more | Legal(c, stopped, more) ensures CompleteIfDone(c, stopped, more) {
        StoppedRun(c, stopped, more);
        var done := Run(c, stopped, more);
        if done.writer.WDone? && done.lost == 0 {
          DoneComplete(c, done);
        }
      }
    }
  }

  // ------------------------------------------------------------ no late push

  ghost predicate Stopped(s: State) {
    && !s.running && !s.recording && !s.writer.WOff?
    && (s.writer.WExiting? || s.writer.WDone? ==> s.drained == |s.accepted|)
  }

  lemma StoppedStep(c: Config, s: State, step: Step)
    requires Inv(c, s) && Stopped(s) && !LatePush(c, s) && Enabled(c, s, step)
    ensures Stopped(Next(c, s, step)) && !LatePush(c, Next(c, s, step))
  {
    match step
    case LoadCursors => PendingIs(c, s);
    case CheckEmpty => EmptyIs(c, s);
    case _ =>
  }

  lemma EmptyIs(c: Config, s: State)
    requires c.Valid() && CursorInv(c, s)
    ensures s.ringWrite == s.ringRead <==> s.drained == |s.accepted|
  {
    PendingIs(c, s);
    ModUnique(0, TWO_64, 0, 0);
  }

  lemma {:induction false} StoppedRun(c: Config, s: State, steps: seq<Step>)
    requires Inv(c, s) && Stopped(s) && !LatePush(c, s) && Legal(c, s, steps)
    ensures Inv(c, Run(c, s, steps)) && Stopped(Run(c, s, steps))
    decreases |steps|
  {
    if steps != [] {
      StoppedStep(c, s, steps[0]);
      NextInv(c, s, steps[0]);
      StoppedRun(c, Next(c, s, steps[0]), steps[1..]);
    }
  }

  // --------------------------------------------------------------- late push

  /** The writer alone, then the push. */
  lemma LossyRun(c: Config, s: State) returns (steps: seq<Step>)
    requires Inv(c, s) && Stopped(s) && LatePush(c, s) && s.lost == 0
    ensures !CompleteIfDone(c, s, steps)
  {
    var drain, empty := WriterExits(c, s);
    var push, done := PushFinishes(c, empty);
    steps := drain + push;
    Append(c, s, drain, push);
    DoneComplete(c, done);
  }

  lemma {:induction false} Append(c: Config, s: State, a: seq<Step>, b: seq<Step>)
    requires c.bpf >= 1 && Legal(c, s, a) && Legal(c, Run(c, s, a), b)
    ensures Legal(c, s, a + b) && Run(c, s, a + b) == Run(c, Run(c, s, a), b)
    decreases |a|
  {
    if a == [] {
      assert [] + b == b;
    } else {
      Append(c, Next(c, s, a[0]), a[1..], b);
      assert (a + b)[1..] == a[1..] + b;
    }
  }

  lemma Before(c: Config, s: State, x: Step, rest: seq<Step>) returns (steps: seq<Step>)
    requires c.bpf >= 1 && Enabled(c, s, x) && Legal(c, Next(c, s, x), rest)
    ensures steps == [x] + rest && Legal(c, s, steps) && Run(c, s, steps) == Run(c, Next(c, s, x), rest)
  {
    steps := [x] + rest;
    assert steps[1..] == rest;
  }

  /** What the writer leaves alone. */
  predicate SameInput(s: State, s': State) {
    && s'.producer == s.producer && s'.accepted == s.accepted && s'.lost == s.lost
    && s'.running == s.running && s'.recording == s.recording
  }

  /** Phase of a stopped writer; with bytes in the ring the exit test leads back to the
      drain loop. */
  function Phase(s: State): nat
    requires s.drained <= |s.accepted|
  {
    var more := s.drained < |s.accepted|;
    match s.writer
    case WOff | WDone => 0
    case WExiting => 1
    case WCheckingEmpty => if more then 8 else 2
    case WChecking => if more then 9 else 3
    case WWaiting => 7
    case WCopying(_, _) => 4
    case WLoading => 5
    case WBatching(_, _) | WClosing(_, _) | WCounting(_, _) => 6
  }

  predicate Advances(s: State, s': State)
    requires s.drained <= |s.accepted|
  {
    && SameInput(s, s') && s'.drained <= |s'.accepted|
    && (s'.drained > s.drained
        || (s'.drained == s.drained && Phase(s') < Phase(s))
        || (s'.drained == s.drained && Phase(s') == Phase(s) && Less(Work(s'), Work(s))))
  }

  lemma WriterMoves(c: Config, s: State) returns (step: Step)
    requires Inv(c, s) && Stopped(s) && !s.writer.WDone?
    ensures Enabled(c, s, step) && Stopped(Next(c, s, step)) && Advances(s, Next(c, s, step))
  {
    if s.writer.WWaiting? {
      step := Wake;
    } else {
      step := WriterCanStep(c, s);
      StepLessens(c, s, step);
      PendingIs(c, s);
      EmptyIs(c, s);
      StepAdvances(c, s, step);
    }
  }

  ghost predicate EmptyTest(s: State) {
    && (Pending(s) == 0 <==> s.drained == |s.accepted|)
    && (s.ringWrite == s.ringRead <==> s.drained == |s.accepted|)
  }

  lemma StepAdvances(c: Config, s: State, step: Step)
    requires c.bpf >= 1 && s.drained <= |s.accepted| && EmptyTest(s) && WriterInv(c, s) && Stopped(s)
    requires WriterStep(step) && Enabled(c, s, step) && Lessens(c, s, step)
    ensures Stopped(Next(c, s, step)) && Advances(s, Next(c, s, step))
  {
    match step
    case Load => assert Advances(s, Next(c, s, Load));
    case CopyOut => assert Advances(s, Next(c, s, CopyOut));
    case PublishRead => assert Advances(s, Next(c, s, PublishRead));
    case WriteBatch => assert Advances(s, Next(c, s, WriteBatch));
    case _ => ShortAdvances(c, s, step);
  }

  lemma ShortAdvances(c: Config, s: State, step: Step)
    requires c.bpf >= 1 && s.drained <= |s.accepted| && EmptyTest(s) && Stopped(s)
    requires step in {CloseBlock, CountBlock, KeepPartial, CheckRunning, CheckEmpty, CloseLast}
    requires Enabled(c, s, step) && Lessens(c, s, step)
    ensures Stopped(Next(c, s, step)) && Advances(s, Next(c, s, step))
  {
    match step
    case CloseBlock => assert Advances(s, Next(c, s, CloseBlock));
    case CountBlock => assert Advances(s, Next(c, s, CountBlock));
    case KeepPartial => assert Advances(s, Next(c, s, KeepPartial));
    case CheckRunning => assert Advances(s, Next(c, s, CheckRunning));
    case CheckEmpty => assert Advances(s, Next(c, s, CheckEmpty));
    case CloseLast => assert Advances(s, Next(c, s, CloseLast));
  }

  lemma {:induction false} WriterExits(c: Config, s: State) returns (steps: seq<Step>, done: State)
    requires Inv(c, s) && Stopped(s)
    ensures Legal(c, s, steps) && Run(c, s, steps) == done
    ensures Inv(c, done) && Stopped(done) && done.writer.WDone? && SameInput(s, done)
    decreases |s.accepted| - s.drained, Phase(s), Work(s).2, Work(s).3
  {
    if s.writer.WDone? {
      steps, done := [], s;
    } else {
      var step := WriterMoves(c, s);
      NextInv(c, s, step);
      var rest;
      rest, done := WriterExits(c, Next(c, s, step));
      steps := Before(c, s, step, rest);
    }
  }

  lemma {:induction false} PushFinishes(c: Config, s: State) returns (steps: seq<Step>, done: State)
    requires Inv(c, s) && s.writer.WDone? && s.drained == |s.accepted| && LatePush(c, s)
    ensures Legal(c, s, steps) && Run(c, s, steps) == done
    ensures Inv(c, done) && done.writer.WDone? && done.lost == s.lost && done.drained < |done.accepted|
    decreases if s.producer.PCopying? then |s.producer.data| - s.producer.done else |s.producer.data| + 1
  {
    PendingIs(c, s);
    var step := PushMoves(c, s);
    NextInv(c, s, step);
    var next := Next(c, s, step);
    if step.PublishWrite? {
      done := next;
      steps := Before(c, s, step, []);
    } else {
      var rest;
      rest, done := PushFinishes(c, next);
      steps := Before(c, s, step, rest);
    }
  }

  lemma PushMoves(c: Config, s: State) returns (step: Step)
    requires Inv(c, s) && LatePush(c, s) && Pending(s) == 0
    ensures step.LoadCursors? || step.CopyIn? || step.PublishWrite?
    ensures Enabled(c, s, step)
    ensures step.LoadCursors? ==> s.producer.PChecked? && Next(c, s, step).producer.PCopying?
  {
    match s.producer
    case PChecked(_) => step := LoadCursors;
    case PCopying(data, done) =>
      if done < |data| {
        CopyCellIs(c, |s.accepted|, |data|, done);
        step := CopyIn;
      } else {
        step := PublishWrite;
      }
  }
}
