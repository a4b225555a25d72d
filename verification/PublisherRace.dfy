/** The shared data region while a reader in another process copies it: the publisher
    stores data bytes first and the counter last, the reader loads the counter first and
    the data bytes after. Every byte store and load is one step. */
module PublisherRace {

  import opened Bits
  import opened Bytes

  datatype Writer = WIdle | WStoring(done: nat)

  /** `seen` is the unwrapped number of the publication whose counter was loaded. */
  datatype Reader = RIdle | RCopying(seen: nat, out: seq<byte>, origins: seq<Origin>)

  /** History of one byte copied: the publication its cell was from (0: none), how many were
      finished by then, and how many bytes of the next one were stored. */
  datatype Origin = Origin(source: nat, finished: nat, done: nat)

  /** data and counter are shared. begun holds, for every publication begun, the bytes it
      stores; finished counts those whose counter is stored; stamps says which publication
      stored each cell; last is the counter the reader loaded last, lastSeen its unwrapped
      number. */
  datatype State = State(
    data: seq<byte>, counter: nat,
    writer: Writer, reader: Reader, last: nat,
    begun: seq<seq<byte>>, finished: nat, stamps: seq<nat>, lastSeen: nat)

  datatype Step = Begin(period: seq<byte>) | StoreByte | StoreCounter | LoadCounter | LoadByte | Finish

  function Init(size: nat): State {
    State(seq(size, _ => 0), 0, WIdle, RIdle, 0, [], 0, seq(size, _ => 0), 0)
  }

  predicate Enabled(s: State, step: Step) {
    match step
    case Begin(period) => s.writer.WIdle?
    case StoreByte =>
      s.writer.WStoring? && s.begun != [] && s.writer.done < |s.begun[|s.begun| - 1]|
      && s.writer.done < |s.data| && s.writer.done < |s.stamps|
    case StoreCounter =>
      s.writer.WStoring? && s.begun != [] && s.writer.done == |s.begun[|s.begun| - 1]|
    case LoadCounter => s.reader.RIdle?
    case LoadByte => s.reader.RCopying? && |s.reader.out| < |s.data| && |s.reader.out| < |s.stamps|
    case Finish => s.reader.RCopying? && |s.reader.out| == |s.data|
  }

  function OriginNow(s: State, j: nat): Origin
    requires j < |s.stamps|
  {
    Origin(s.stamps[j], s.finished, if s.writer.WStoring? then s.writer.done else 0)
  }

  function Next(s: State, step: Step): State
    requires Enabled(s, step)
  {
    match step
    case Begin(period) =>
      s.(writer := WStoring(0), begun := s.begun + [period[..Min(|period|, |s.data|)]])
    case StoreByte =>
      var i := s.writer.done;
      s.(data := s.data[i := s.begun[|s.begun| - 1][i]], stamps := s.stamps[i := |s.begun|], writer := WStoring(i + 1))
    case StoreCounter => s.(counter := (s.finished + 1) % TWO_64, finished := s.finished + 1, writer := WIdle)
    case LoadCounter =>
      if s.counter == s.last then s
      else s.(reader := RCopying(s.finished, [], []), last := s.counter, lastSeen := s.finished)
    case LoadByte =>
      var j := |s.reader.out|;
      s.(reader := s.reader.(out := s.reader.out + [s.data[j]], origins := s.reader.origins + [OriginNow(s, j)]))
    case Finish => s.(reader := RIdle)
  }

  ghost predicate Legal(s: State, steps: seq<Step>)
    decreases |steps|
  {
    steps == [] || (Enabled(s, steps[0]) && Legal(Next(s, steps[0]), steps[1..]))
  }

  ghost function Run(s: State, steps: seq<Step>): State
    requires Legal(s, steps)
    decreases |steps|
  {
    if steps == [] then s else Run(Next(s, steps[0]), steps[1..])
  }

  /** Byte b at position j was stored by publication n (numbered from 1). */
  predicate Stored(begun: seq<seq<byte>>, n: nat, j: nat, b: byte) {
    1 <= n <= |begun| && j < |begun[n - 1]| && begun[n - 1][j] == b
  }

  predicate Covers(begun: seq<seq<byte>>, n: nat, j: nat) {
    1 <= n <= |begun| && j < |begun[n - 1]|
  }

  /** Publication n had stored byte j when a byte of this origin was read. */
  predicate HadStored(begun: seq<seq<byte>>, o: Origin, n: nat, j: nat) {
    Covers(begun, n, j) && (n <= o.finished || (n == o.finished + 1 && j < o.done))
  }

  /** Byte b at j is from the newest publication that had stored j. */
  ghost predicate Explained(begun: seq<seq<byte>>, o: Origin, j: nat, b: byte) {
    && o.finished + (if o.done > 0 then 1 else 0) <= |begun|
    && (forall n: nat :: HadStored(begun, o, n, j) ==> n <= o.source)
    && (o.source > 0 ==> HadStored(begun, o, o.source, j) && Stored(begun, o.source, j, b))
  }

  ghost predicate WriterInv(s: State) {
    && s.counter == s.finished % TWO_64
    && (forall n :: 0 <= n < |s.begun| ==> |s.begun[n]| <= |s.data|)
    && match s.writer
       case WIdle => s.finished == |s.begun|
       case WStoring(done) => s.finished + 1 == |s.begun| && done <= |s.begun[|s.begun| - 1]|
  }

  ghost predicate CellsInv(s: State) {
    |s.stamps| == |s.data| && forall j :: 0 <= j < |s.data| ==> Explained(s.begun, OriginNow(s, j), j, s.data[j])
  }

  ghost predicate ReaderInv(s: State) {
    && s.lastSeen <= s.finished && s.last == s.lastSeen % TWO_64
    && match s.reader
       case RIdle => true
       case RCopying(seen, out, origins) =>
         && seen == s.lastSeen && |origins| == |out| <= |s.data|
         && (forall j :: 0 <= j < |out| ==> Explained(s.begun, origins[j], j, out[j]) && seen <= origins[j].finished)
  }

  ghost predicate Inv(s: State) {
    WriterInv(s) && CellsInv(s) && ReaderInv(s)
  }

  lemma ExplainedKept(a: seq<seq<byte>>, b: seq<seq<byte>>, o: Origin, j: nat, x: byte)
    requires a <= b && Explained(a, o, j, x)
    ensures Explained(b, o, j, x)
  {
    forall n: nat | HadStored(b, o, n, j) ensures n <= o.source {
      assert HadStored(a, o, n, j);
    }
  }

  lemma ReaderKept(s: State, s': State)
    requires ReaderInv(s) && s.begun <= s'.begun && s'.reader == s.reader && |s'.data| == |s.data|
    requires s'.last == s.last && s'.lastSeen == s.lastSeen && s.finished <= s'.finished
    ensures ReaderInv(s')
  {
    if s.reader.RCopying? {
      forall j | 0 <= j < |s.reader.out| ensures Explained(s'.begun, s.reader.origins[j], j, s.reader.out[j]) {
        ExplainedKept(s.begun, s'.begun, s.reader.origins[j], j, s.reader.out[j]);
      }
    }
  }

  lemma BeginInv(s: State, period: seq<byte>)
    requires Inv(s) && Enabled(s, Begin(period))
    ensures Inv(Next(s, Begin(period)))
  {
    var s' := Next(s, Begin(period));
    forall j | 0 <= j < |s'.data| ensures Explained(s'.begun, OriginNow(s', j), j, s'.data[j]) {
      assert OriginNow(s', j) == OriginNow(s, j);
      ExplainedKept(s.begun, s'.begun, OriginNow(s, j), j, s.data[j]);
    }
    ReaderKept(s, s');
  }

  lemma StoreByteInv(s: State)
    requires Inv(s) && Enabled(s, StoreByte)
    ensures Inv(Next(s, StoreByte))
  {
    var s' := Next(s, StoreByte);
    var i := s.writer.done;
    forall j | 0 <= j < |s'.data| ensures Explained(s'.begun, OriginNow(s', j), j, s'.data[j]) {
      assert Explained(s.begun, OriginNow(s, j), j, s.data[j]);
      if j != i {
        forall n | HadStored(s'.begun, OriginNow(s', j), n, j) ensures n <= s'.stamps[j] {
          assert HadStored(s.begun, OriginNow(s, j), n, j);
        }
      }
    }
    ReaderKept(s, s');
  }

  /** Once its counter is stored the publication in progress is one of the finished ones. */
  lemma StoreCounterInv(s: State)
    requires Inv(s) && Enabled(s, StoreCounter)
    ensures Inv(Next(s, StoreCounter))
  {
    var s' := Next(s, StoreCounter);
    forall j | 0 <= j < |s'.data| ensures Explained(s'.begun, OriginNow(s', j), j, s'.data[j]) {
      assert Explained(s.begun, OriginNow(s, j), j, s.data[j]);
      forall n | HadStored(s'.begun, OriginNow(s', j), n, j) ensures n <= s'.stamps[j] {
        assert HadStored(s.begun, OriginNow(s, j), n, j);
      }
    }
    ReaderKept(s, s');
  }

  lemma LoadByteInv(s: State)
    requires Inv(s) && Enabled(s, LoadByte)
    ensures Inv(Next(s, LoadByte))
  {
    var s' := Next(s, LoadByte);
    var j := |s.reader.out|;
    assert Explained(s.begun, OriginNow(s, j), j, s.data[j]);
    SameCells(s, s');
  }

  lemma SameCells(s: State, s': State)
    requires CellsInv(s) && s'.data == s.data && s'.begun == s.begun && s'.writer == s.writer
    requires s'.stamps == s.stamps && s'.finished == s.finished
    ensures CellsInv(s')
  {
    forall j | 0 <= j < |s'.data| ensures Explained(s'.begun, OriginNow(s', j), j, s'.data[j]) {
      assert OriginNow(s', j) == OriginNow(s, j);
    }
  }

  lemma NextInv(s: State, step: Step)
    requires Inv(s) && Enabled(s, step)
    ensures Inv(Next(s, step))
  {
    match step
    case Begin(period) => BeginInv(s, period);
    case StoreByte => StoreByteInv(s);
    case StoreCounter => StoreCounterInv(s);
    case LoadByte => LoadByteInv(s);
    case _ => SameCells(s, Next(s, step));
  }

  lemma {:induction false} RunInv(s: State, steps: seq<Step>)
    requires Inv(s) && Legal(s, steps)
    ensures Inv(Run(s, steps)) && |Run(s, steps).data| == |s.data|
    ensures s.lastSeen <= Run(s, steps).lastSeen && s.finished <= Run(s, steps).finished
    decreases |steps|
  {
    if steps != [] {
      NextInv(s, steps[0]);
      RunInv(Next(s, steps[0]), steps[1..]);
    }
  }

  lemma InitInv(size: nat)
    ensures Inv(Init(size))
  {
    var s := Init(size);
    forall j | 0 <= j < |s.data| ensures Explained(s.begun, OriginNow(s, j), j, s.data[j]) {}
  }

  // ------------------------------------------------------------ main results

  /** No publication after `seen` had stored byte j when it was read. */
  ghost predicate NoneLater(begun: seq<seq<byte>>, o: Origin, seen: nat, j: nat) {
    forall n :: n > seen ==> !HadStored(begun, o, n, j)
  }

  /** In every interleaving: each byte read is from the newest publication that had stored
      it, so from none older than the counter seen where that publication reaches the byte,
      and from exactly that publication if and only if it reaches the byte and no later one
      had stored it. With no later publication begun the copy is exact. */
  lemma Freshness(size: nat, steps: seq<Step>)
    requires Legal(Init(size), steps)
    ensures var s := Run(Init(size), steps);
      s.reader.RCopying? ==>
        var seen, out, origins := s.reader.seen, s.reader.out, s.reader.origins;
        && seen <= s.finished <= |s.begun| && s.last == seen % TWO_64 && |origins| == |out|
        && (forall j :: 0 <= j < |out| ==>
              && Explained(s.begun, origins[j], j, out[j])
              && (Covers(s.begun, seen, j) ==> origins[j].source >= seen)
              && (seen >= 1 ==>
                    (origins[j].source == seen <==>
                       Covers(s.begun, seen, j) && NoneLater(s.begun, origins[j], seen, j))))
  {
    InitInv(size);
    RunInv(Init(size), steps);
    var s := Run(Init(size), steps);
    if s.reader.RCopying? && s.reader.seen >= 1 {
      forall j | 0 <= j < |s.reader.out|
        ensures Covers(s.begun, s.reader.seen, j) ==> s.reader.origins[j].source >= s.reader.seen
        ensures s.reader.origins[j].source == s.reader.seen <==>
                  Covers(s.begun, s.reader.seen, j) && NoneLater(s.begun, s.reader.origins[j], s.reader.seen, j)
      {
        SourceIs(s.begun, s.reader.origins[j], s.reader.seen, j, s.reader.out[j]);
      }
    }
  }

  lemma SourceIs(begun: seq<seq<byte>>, o: Origin, seen: pos, j: nat, b: byte)
    requires Explained(begun, o, j, b) && seen <= o.finished
    ensures Covers(begun, seen, j) ==> o.source >= seen
    ensures o.source == seen <==> Covers(begun, seen, j) && NoneLater(begun, o, seen, j)
  {
    assert Covers(begun, seen, j) ==> HadStored(begun, o, seen, j);
  }

  /** With no later publication begun, what was read of the one seen is exact. */
  lemma ExactWhileNewest(size: nat, steps: seq<Step>)
    requires Legal(Init(size), steps)
    ensures var s := Run(Init(size), steps);
      s.reader.RCopying? && 1 <= s.reader.seen == |s.begun| ==>
        var n := Min(|s.reader.out|, |s.begun[s.reader.seen - 1]|);
        s.reader.out[..n] == s.begun[s.reader.seen - 1][..n]
  {
    Freshness(size, steps);
    var s := Run(Init(size), steps);
    if s.reader.RCopying? && 1 <= s.reader.seen == |s.begun| {
      forall j | 0 <= j < Min(|s.reader.out|, |s.begun[s.reader.seen - 1]|)
        ensures s.reader.out[j] == s.begun[s.reader.seen - 1][j]
      {
        assert Covers(s.begun, s.reader.seen, j);
        assert Explained(s.begun, s.reader.origins[j], j, s.reader.out[j]);
      }
    }
  }

  /** With periods that always fill the region, byte j of the copy is byte j of the
      publication seen or of a later one: of the one seen if and only if no later one was
      finished, nor one in progress past byte j, when it was read. A completed copy with no
      publication begun since is exactly that period. */
  lemma FullPeriods(size: nat, steps: seq<Step>)
    requires Legal(Init(size), steps)
    requires forall i :: 0 <= i < |steps| && steps[i].Begin? ==> |steps[i].period| >= size
    ensures var s := Run(Init(size), steps);
      s.reader.RCopying? && s.reader.seen >= 1 ==>
        var seen, out, origins := s.reader.seen, s.reader.out, s.reader.origins;
        && |origins| == |out|
        && (forall j :: 0 <= j < |out| ==>
              && seen <= origins[j].source && Stored(s.begun, origins[j].source, j, out[j])
              && (origins[j].source == seen <==> origins[j].finished == seen && origins[j].done <= j))
        && (|out| == size && seen == |s.begun| ==> out == s.begun[seen - 1])
  {
    InitInv(size);
    RunInv(Init(size), steps);
    ExactWhileNewest(size, steps);
    AllFull(Init(size), steps, size);
    var s := Run(Init(size), steps);
    if s.reader.RCopying? && s.reader.seen >= 1 {
      var seen, out, origins := s.reader.seen, s.reader.out, s.reader.origins;
      forall j | 0 <= j < |out|
        ensures seen <= origins[j].source && Stored(s.begun, origins[j].source, j, out[j])
        ensures origins[j].source == seen <==> origins[j].finished == seen && origins[j].done <= j
      {
        FullSource(s.begun, origins[j], seen, j, out[j], size);
      }
    }
  }

  lemma FullSource(begun: seq<seq<byte>>, o: Origin, seen: pos, j: nat, b: byte, size: nat)
    requires Explained(begun, o, j, b) && seen <= o.finished && Uniform(begun, size) && j < size
    ensures seen <= o.source && Stored(begun, o.source, j, b)
    ensures o.source == seen <==> o.finished == seen && o.done <= j
  {
    SourceIs(begun, o, seen, j, b);
    assert HadStored(begun, o, o.finished, j);
    if j < o.done {
      assert HadStored(begun, o, o.finished + 1, j);
    }
  }

  lemma {:induction false} AllFull(s: State, steps: seq<Step>, size: nat)
    requires Legal(s, steps) && |s.data| == size && Uniform(s.begun, size)
    requires forall i :: 0 <= i < |steps| && steps[i].Begin? ==> |steps[i].period| >= size
    ensures Uniform(Run(s, steps).begun, size)
    decreases |steps|
  {
    if steps != [] {
      forall i | 0 <= i < |steps[1..]| && steps[1..][i].Begin? ensures |steps[1..][i].period| >= size {
        assert steps[1..][i] == steps[i + 1];
      }
      AllFull(Next(s, steps[0]), steps[1..], size);
    }
  }

  /** No store waits for its cell to exist. */
  lemma StoresInBounds(size: nat, steps: seq<Step>)
    requires Legal(Init(size), steps)
    ensures var s := Run(Init(size), steps);
      s.writer.WStoring? && s.begun != [] && s.writer.done < |s.begun[|s.begun| - 1]| ==> Enabled(s, StoreByte)
    ensures var s := Run(Init(size), steps);
      |s.data| == size && (s.reader.RCopying? && |s.reader.out| < size ==> Enabled(s, LoadByte))
  {
    InitInv(size);
    RunInv(Init(size), steps);
  }

  /** The counters a reader accepts never go back, over the rest of any run. */
  lemma CountersMonotone(size: nat, before: seq<Step>, after: seq<Step>)
    requires Legal(Init(size), before) && Legal(Run(Init(size), before), after)
    ensures Run(Init(size), before).lastSeen <= Run(Run(Init(size), before), after).lastSeen
    ensures var s := Run(Run(Init(size), before), after);
      s.finished < TWO_64 ==> s.last == s.lastSeen && Run(Init(size), before).last <= s.last
  {
    InitInv(size);
    RunInv(Init(size), before);
    RunInv(Run(Init(size), before), after);
    SmallMod(Run(Init(size), before).lastSeen);
    SmallMod(Run(Run(Init(size), before), after).lastSeen);
  }

  lemma SmallMod(n: nat)
    ensures n < TWO_64 ==> n % TWO_64 == n
  {
  }

  // ------------------------------------------------- what the guarantees need

  lemma {:induction false} Extend(s: State, steps: seq<Step>, x: Step)
    requires Legal(s, steps) && Enabled(Run(s, steps), x)
    ensures Legal(s, steps + [x]) && Run(s, steps + [x]) == Next(Run(s, steps), x)
    decreases |steps|
  {
    if steps == [] {
      assert (steps + [x])[1..] == [];
    } else {
      Extend(Next(s, steps[0]), steps[1..], x);
      assert (steps + [x])[1..] == steps[1..] + [x];
    }
  }

  ghost predicate Reached(size: nat, s: State) {
    exists steps :: Legal(Init(size), steps) && Run(Init(size), steps) == s
  }

  lemma Then(size: nat, s: State, x: Step)
    requires Reached(size, s) && Enabled(s, x)
    ensures Reached(size, Next(s, x))
  {
    var steps :| Legal(Init(size), steps) && Run(Init(size), steps) == s;
    Extend(Init(size), steps, x);
  }

  lemma StoreAll(size: nat, s: State) returns (s': State)
    requires Reached(size, s) && s.writer.WStoring? && s.begun != [] && |s.data| == |s.stamps|
    requires s.writer.done <= |s.begun[|s.begun| - 1]| == |s.data|
    requires forall i :: 0 <= i < s.writer.done ==> s.data[i] == s.begun[|s.begun| - 1][i]
    ensures Reached(size, s') && s'.data == s.begun[|s.begun| - 1] && |s'.stamps| == |s.stamps|
    ensures s' == s.(data := s'.data, stamps := s'.stamps, writer := WStoring(|s.data|))
    decreases |s.data| - s.writer.done
  {
    if s.writer.done < |s.data| {
      Then(size, s, StoreByte);
      s' := StoreAll(size, Next(s, StoreByte));
    } else {
      s' := s;
    }
  }

  lemma LoadUpTo(size: nat, s: State, n: nat) returns (s': State)
    requires Reached(size, s) && s.reader.RCopying? && |s.reader.out| <= n <= |s.data| == |s.stamps|
    ensures Reached(size, s') && s'.reader.RCopying? && s'.reader.out == s.reader.out + s.data[|s.reader.out|..n]
    ensures s' == s.(reader := s'.reader)
    decreases n - |s.reader.out|
  {
    if |s.reader.out| < n {
      Then(size, s, LoadByte);
      s' := LoadUpTo(size, Next(s, LoadByte), n);
    } else {
      s' := s;
    }
  }

  /** Once the next publication has begun a completed copy may mix the two periods, in a
      region of any size from two bytes on. */
  lemma MixedCopy(a: seq<byte>, b: seq<byte>) returns (s: State)
    requires |a| == |b| >= 2
    ensures Reached(|a|, s) && s.reader.RCopying? && s.begun == [a, b]
    ensures s.reader.out == a[..1] + b[1..]
    ensures a[0] != b[0] && a[|a| - 1] != b[|a| - 1] ==> s.reader.out != a && s.reader.out != b
  {
    var size := |a|;
    s := Init(size);
    assert Legal(Init(size), []) && Run(Init(size), []) == s;
    s := PeriodStored(size, s, a);
    Then(size, s, StoreCounter);
    s := Next(s, StoreCounter);
    Then(size, s, LoadCounter);
    s := Next(s, LoadCounter);
    s := LoadUpTo(size, s, 1);
    assert s.reader.out == a[..1];
    s := PeriodStored(size, s, b);
    s := LoadUpTo(size, s, size);
    assert s.reader.out == a[..1] + b[1..] by { assert b[1..size] == b[1..]; }
    assert s.reader.out[0] == a[0] && s.reader.out[size - 1] == b[size - 1];
  }

  lemma PeriodStored(size: nat, s: State, a: seq<byte>) returns (s': State)
    requires Reached(size, s) && s.writer.WIdle? && |a| == |s.data| == |s.stamps|
    ensures Reached(size, s') && s'.data == a && |s'.stamps| == |a|
    ensures s' == s.(data := a, stamps := s'.stamps, writer := WStoring(|a|), begun := s.begun + [a])
  {
    assert a[..|a|] == a;
    Then(size, s, Begin(a));
    s' := StoreAll(size, Next(s, Begin(a)));
  }

  /** The counter cell while the first k bytes of old + 1 have replaced those of old. */
  function TornCounter(n: nat, k: nat): nat
    requires k <= 8
  {
    FromLe(Le(n + 1, 8)[..k] + Le(n, 8)[k..])
  }

  /** The counter must be stored as one word: copied byte by byte, low byte first, every
      intermediate value is the old or the new counter exactly unless the low byte
      carries, and then a reader sees it go back. */
  lemma TornCounterIff(n: nat)
    requires n + 1 < TWO_64
    ensures (forall k :: 0 <= k <= 8 ==> TornCounter(n, k) == n || TornCounter(n, k) == n + 1)
            <==> n % 256 != 255
    ensures n % 256 == 255 ==> TornCounter(n, 1) < n
  {
    var a, b := Le(n, 8), Le(n + 1, 8);
    CounterBytes(n);
    CounterBytes(n + 1);
    if n % 256 != 255 {
      assert (n + 1) / 256 == n / 256 && a[1..] == b[1..];
      forall k | 0 <= k <= 8 ensures TornCounter(n, k) == n || TornCounter(n, k) == n + 1 {
        SameTail(a, b, k);
      }
    } else {
      LowByteCarried(a, b);
      assert TornCounter(n, 1) == FromLe(b[..1] + a[1..]);
    }
  }

  lemma CounterBytes(n: nat)
    requires n < TWO_64
    ensures FromLe(Le(n, 8)) == n && |Le(n, 8)| == 8
    ensures Le(n, 8)[0] as int == n % 256 && Le(n, 8)[1..] == Le(n / 256, 7)
  {
    Pow2Of64();
    LeRoundTrip(n, 8);
  }

  lemma SameTail(a: seq<byte>, b: seq<byte>, k: nat)
    requires |a| == |b| && k <= |a| && a != [] && a[1..] == b[1..]
    ensures b[..k] + a[k..] == if k == 0 then a else b
  {
    var r := b[..k] + a[k..];
    forall i | 1 <= i < |a| ensures r[i] == b[i] == a[i] {
      assert a[1..][i - 1] == b[1..][i - 1];
    }
  }

  lemma LowByteCarried(a: seq<byte>, b: seq<byte>)
    requires |a| == |b| > 0 && a[0] == 255 && b[0] == 0
    ensures FromLe(b[..1] + a[1..]) == FromLe(a) - 255
  {
    assert (b[..1] + a[1..])[1..] == a[1..];
  }
}
