/** The history buffer with its reader and its writer running at the same time. The
    reader's mutex does not exclude the writer, so every byte copy and every cursor
    access of one thread may fall between two steps of the other. */
module HistoryRace {

  import opened Bits
  import opened Bytes
  import opened History

  datatype Params = Params(exponent: nat, bpf: nat) {
    ghost predicate Valid() { exponent <= 63 && bpf >= 1 }

    function Cap(): (c: nat) ensures c > 0 { Pow2(exponent) }

    function Cells(): int { Cap() * bpf }
  }

  datatype Writer =
    | WIdle
    | WCopying(data: seq<byte>, done: nat)   // inside the memcpy loop
    | WStored(frames: nat)                   // write_pos_ stored, total_written_ not yet

  datatype Reader =
    | RIdle
    | RLoadedTotal(offset: nat, readable: nat, totalSeen: nat)
    | RCopying(offset: nat, readable: nat, totalSeen: nat, wpSeen: nat, start: nat, out: seq<byte>, origins: seq<Origin>)

  /** History of one byte copied out: which byte of the stream its cell held, and how many
      the writer had copied in by then. */
  datatype Origin = Origin(source: nat, written: nat)

  /** cells, wp and total are the shared variables. stream, frames, published and stamps are
      history: every byte copied in, the unwrapped values of wp and total, and which byte
      of the stream each cell holds. */
  datatype State = State(
    cells: seq<byte>, wp: nat, total: nat,
    writer: Writer, reader: Reader,
    stream: seq<byte>, frames: nat, published: nat, stamps: seq<nat>)

  datatype Step =
    | BeginWrite(data: seq<byte>) | CopyIn | StoreWp | AddTotal
    | BeginRead(offset: nat, count: nat) | LoadWp | CopyOut | EndRead

  function Init(p: Params): State
    requires p.Cells() >= 0
  {
    State(seq(p.Cells(), _ => 0), 0, 0, WIdle, RIdle, [], 0, 0, seq(p.Cells(), _ => 0))
  }

  /** Cell of byte i of a copy that starts at frame cursor `from`. */
  function CellAt(p: Params, from: nat, i: nat): nat
    requires p.bpf >= 1
  {
    BitAnd((from + i / p.bpf) % TWO_64, p.Cap() - 1) * p.bpf + i % p.bpf
  }

  predicate InBounds(s: State, cell: nat) { cell < |s.cells| && cell < |s.stamps| }

  predicate Enabled(p: Params, s: State, step: Step)
    requires p.bpf >= 1
  {
    match step
    case BeginWrite(data) => s.writer.WIdle? && |data| % p.bpf == 0
    case CopyIn => s.writer.WCopying? && s.writer.done < |s.writer.data| && InBounds(s, CellAt(p, s.wp, s.writer.done))
    case StoreWp => s.writer.WCopying? && s.writer.done == |s.writer.data|
    case AddTotal => s.writer.WStored?
    case BeginRead(offset, count) => s.reader.RIdle?
    case LoadWp => s.reader.RLoadedTotal?
    case CopyOut =>
      s.reader.RCopying? && |s.reader.out| < s.reader.readable * p.bpf && InBounds(s, CellAt(p, s.reader.start, |s.reader.out|))
    case EndRead => s.reader.RCopying? && |s.reader.out| >= s.reader.readable * p.bpf
  }

  function Next(p: Params, s: State, step: Step): State
    requires p.bpf >= 1 && Enabled(p, s, step)
  {
    match step
    case BeginWrite(data) => s.(writer := WCopying(data, 0))
    case CopyIn =>
      var b := s.writer.data[s.writer.done];
      var cell := CellAt(p, s.wp, s.writer.done);
      s.(cells := s.cells[cell := b], stream := s.stream + [b], stamps := s.stamps[cell := |s.stream|],
         writer := WCopying(s.writer.data, s.writer.done + 1))
    case StoreWp =>
      var n := |s.writer.data| / p.bpf;
      s.(wp := (s.wp + n) % TWO_64, frames := s.frames + n, writer := WStored(n))
    case AddTotal =>
      s.(total := (s.total + s.writer.frames) % TWO_64, published := s.published + s.writer.frames, writer := WIdle)
    case BeginRead(offset, count) =>
      var avail := Min(s.total, p.Cap());
      if offset >= avail then s
      else s.(reader := RLoadedTotal(offset, Min(count, avail - offset), s.published))
    case LoadWp =>
      var r := s.reader;
      s.(reader := RCopying(r.offset, r.readable, r.totalSeen, s.frames,
                            StartIndex(s.wp, r.offset + r.readable, p.Cap()), [], []))
    case CopyOut =>
      var cell := CellAt(p, s.reader.start, |s.reader.out|);
      s.(reader := s.reader.(out := s.reader.out + [s.cells[cell]],
                             origins := s.reader.origins + [Origin(s.stamps[cell], |s.stream|)]))
    case EndRead => s.(reader := RIdle)
  }

  ghost predicate Legal(p: Params, s: State, steps: seq<Step>)
    requires p.bpf >= 1
    decreases |steps|
  {
    steps == [] || (Enabled(p, s, steps[0]) && Legal(p, Next(p, s, steps[0]), steps[1..]))
  }

  ghost function Run(p: Params, s: State, steps: seq<Step>): State
    requires p.bpf >= 1 && Legal(p, s, steps)
    decreases |steps|
  {
    if steps == [] then s else Run(p, Next(p, s, steps[0]), steps[1..])
  }

  /** First byte of the requested window: `offset + readable` frames before the write
      cursor the reader loaded. */
  ghost function From(p: Params, r: Reader): int
    requires r.RCopying?
  {
    (r.wpSeen - r.offset - r.readable) * p.bpf
  }

  ghost predicate WriterInv(p: Params, s: State) {
    && s.published <= s.frames && 0 <= s.frames * p.bpf
    && match s.writer
       case WIdle => s.published == s.frames && |s.stream| == s.frames * p.bpf
       case WCopying(data, done) =>
         && s.published == s.frames && p.bpf >= 1 && |data| % p.bpf == 0
         && done <= |data| && |s.stream| == s.frames * p.bpf + done
       case WStored(n) => s.published + n == s.frames && |s.stream| == s.frames * p.bpf
  }

  ghost predicate CellsInv(p: Params, s: State) {
    && |s.cells| == p.Cells() > 0
    && s.wp == s.frames % TWO_64 && s.total == s.published % TWO_64
    && Mirrors(s.cells, s.stream, Max(0, |s.stream| - |s.cells|), |s.stream|)
    && Stamped(s)
  }

  ghost predicate Stamped(s: State)
    requires |s.cells| > 0
  {
    && |s.stamps| == |s.cells|
    && forall q :: Max(0, |s.stream| - |s.cells|) <= q < |s.stream| ==> s.stamps[q % |s.stamps|] == q
  }

  /** A byte asked for at stream position `at` came from its own slot's newest byte. */
  ghost predicate Explained(s: State, at: int, b: byte, r: Origin)
    requires |s.cells| > 0
  {
    && at <= r.source < r.written <= |s.stream| && r.written <= r.source + |s.cells|
    && r.source % |s.cells| == at % |s.cells| && b == s.stream[r.source]
  }

  ghost predicate ReaderInv(p: Params, s: State) {
    && |s.cells| > 0
    && match s.reader
       case RIdle => true
       case RLoadedTotal(offset, readable, totalSeen) =>
         totalSeen <= s.published && offset + readable <= Min(totalSeen, p.Cap())
       case RCopying(offset, readable, totalSeen, wpSeen, start, out, origins) =>
         var from := From(p, s.reader);
         && totalSeen <= wpSeen <= s.frames && offset + readable <= Min(totalSeen, p.Cap())
         && start % p.Cap() == (wpSeen - offset - readable) % p.Cap()
         && 0 <= from && from + readable * p.bpf <= |s.stream| && |out| == |origins| <= readable * p.bpf
         && (forall j :: 0 <= j < |out| ==> Explained(s, from + j, out[j], origins[j]))
  }

  ghost predicate Inv(p: Params, s: State) {
    p.Valid() && WriterInv(p, s) && CellsInv(p, s) && ReaderInv(p, s)
  }

  // ------------------------------------------------------------------ proofs

  /** A copy's byte cell is its byte position modulo the byte ring. */
  lemma CellIs(p: Params, from: nat, frame: nat, i: nat)
    requires p.Valid() && from % p.Cap() == frame % p.Cap()
    ensures p.Cells() > 0 && 0 <= frame * p.bpf
    ensures CellAt(p, from, i) == (frame * p.bpf + i) % p.Cells()
  {
    var f, b := i / p.bpf, i % p.bpf;
    assert i == f * p.bpf + b;
    SameCell(from, frame, f, p.exponent);
    ScaledCell(frame + f, p.Cap(), p.bpf);
    MulAdd(frame, f, p.bpf);
    MulLe(0, frame, p.bpf);
    MulLe((frame + f) % p.Cap() + 1, p.Cap(), p.bpf);
    MulAdd((frame + f) % p.Cap(), 1, p.bpf);
    ModSlide((frame + f) * p.bpf, b, p.Cells());
  }

  lemma InitInv(p: Params)
    requires p.Valid()
    ensures p.Cells() > 0 && Inv(p, Init(p))
  {
    MulAtLeast(p.Cap(), p.bpf);
  }

  lemma CopyInInv(p: Params, s: State)
    requires Inv(p, s) && Enabled(p, s, CopyIn)
    ensures Inv(p, Next(p, s, CopyIn))
  {
    WrapKeepsCell(s.frames, p.exponent);
    CellIs(p, s.wp, s.frames, s.writer.done);
    var s' := Next(p, s, CopyIn);
    var b := s.writer.data[s.writer.done];
    var n := |s.cells|;
    MirrorsSplice(s.cells, s.stream, Max(0, |s.stream| - n), [b], Max(0, |s.stream| + 1 - n));
    assert Splice(s.cells, |s.stream| % n, [b]) == s'.cells;
    StampsGrow(s.stamps, |s.stream|);
    if s.reader.RCopying? {
      StreamGrows(p, s, s');
    }
  }

  lemma StampsGrow(stamps: seq<nat>, len: nat)
    requires stamps != [] && forall q :: Max(0, len - |stamps|) <= q < len ==> stamps[q % |stamps|] == q
    ensures var n := |stamps|; var stamps' := stamps[len % n := len];
      forall q :: Max(0, len + 1 - n) <= q < len + 1 ==> stamps'[q % n] == q
  {
    var n := |stamps|;
    var stamps' := stamps[len % n := len];
    forall q | Max(0, len + 1 - n) <= q < len + 1 ensures stamps'[q % n] == q {
      if q < len {
        CellsDistinct(q, len, n);
      }
    }
  }

  /** What the reader has copied stays explained as the stream grows. */
  lemma StreamGrows(p: Params, s: State, s': State)
    requires Inv(p, s) && s.reader.RCopying? && s'.reader == s.reader
    requires |s.cells| == |s'.cells| && s.stream <= s'.stream && s.frames <= s'.frames
    ensures ReaderInv(p, s')
  {
    var r, from := s.reader, From(p, s.reader);
    forall j | 0 <= j < |r.out| ensures Explained(s', from + j, r.out[j], r.origins[j]) {
      assert Explained(s, from + j, r.out[j], r.origins[j]);
    }
  }

  lemma StoreWpInv(p: Params, s: State)
    requires Inv(p, s) && Enabled(p, s, StoreWp)
    ensures Inv(p, Next(p, s, StoreWp))
  {
    var s' := Next(p, s, StoreWp);
    var n := |s.writer.data| / p.bpf;
    WrapAdd(s.frames, n);
    MulAdd(s.frames, n, p.bpf);
    assert n * p.bpf == |s.writer.data|;
    if s.reader.RCopying? {
      StreamGrows(p, s, s');
    }
  }

  lemma AddTotalInv(p: Params, s: State)
    requires Inv(p, s) && Enabled(p, s, AddTotal)
    ensures Inv(p, Next(p, s, AddTotal))
  {
    var s' := Next(p, s, AddTotal);
    WrapAdd(s.published, s.writer.frames);
    if s.reader.RCopying? {
      StreamGrows(p, s, s');
    }
  }

  lemma LoadWpInv(p: Params, s: State)
    requires Inv(p, s) && Enabled(p, s, LoadWp)
    ensures Inv(p, Next(p, s, LoadWp))
  {
    var r := s.reader;
    var back := r.offset + r.readable;
    StartCell(s.frames, back, p.exponent);
    MulLe(0, s.frames - back, p.bpf);
    MulAdd(s.frames - back, r.readable, p.bpf);
    MulLe(s.frames - r.offset, s.frames, p.bpf);
    MulLe(0, r.readable, p.bpf);
  }

  lemma CopyOutInv(p: Params, s: State)
    requires Inv(p, s) && Enabled(p, s, CopyOut)
    ensures Inv(p, Next(p, s, CopyOut))
  {
    var s' := Next(p, s, CopyOut);
    var r := s.reader;
    var i, n, from := |r.out|, |s.cells|, From(p, r);
    CellIs(p, r.start, r.wpSeen - r.offset - r.readable, i);
    var q := Newest(from + i, |s.stream|, n);
    assert Explained(s', from + i, s'.reader.out[i], s'.reader.origins[i]);
    forall j | 0 <= j < |s'.reader.out| ensures Explained(s', from + j, s'.reader.out[j], s'.reader.origins[j]) {
      if j < i {
        assert Explained(s, from + j, r.out[j], r.origins[j]);
      }
    }
  }

  /** Newest position of at's slot below len. */
  lemma Newest(at: nat, len: nat, n: nat) returns (q: nat)
    requires n > 0 && at < len
    ensures at <= q < len <= q + n && q % n == at % n
  {
    q := at;
    while q + n < len
      invariant at <= q < len && q % n == at % n
      decreases len - q
    {
      ModUnique(q + n, n, q / n + 1, q % n);
      q := q + n;
    }
  }

  lemma NextInv(p: Params, s: State, step: Step)
    requires Inv(p, s) && Enabled(p, s, step)
    ensures Inv(p, Next(p, s, step))
  {
    match step
    case BeginWrite(data) => BeginWriteInv(p, s, data);
    case CopyIn => CopyInInv(p, s);
    case StoreWp => StoreWpInv(p, s);
    case AddTotal => AddTotalInv(p, s);
    case BeginRead(offset, count) => BeginReadInv(p, s, offset, count);
    case LoadWp => LoadWpInv(p, s);
    case CopyOut => CopyOutInv(p, s);
    case EndRead => EndReadInv(p, s);
  }

  lemma BeginWriteInv(p: Params, s: State, data: seq<byte>)
    requires Inv(p, s) && Enabled(p, s, BeginWrite(data))
    ensures Inv(p, Next(p, s, BeginWrite(data)))
  {
    if s.reader.RCopying? {
      StreamGrows(p, s, Next(p, s, BeginWrite(data)));
    }
  }

  lemma BeginReadInv(p: Params, s: State, offset: nat, count: nat)
    requires Inv(p, s) && Enabled(p, s, BeginRead(offset, count))
    ensures Inv(p, Next(p, s, BeginRead(offset, count)))
  {
  }

  lemma EndReadInv(p: Params, s: State)
    requires Inv(p, s) && Enabled(p, s, EndRead)
    ensures Inv(p, Next(p, s, EndRead))
  {
  }

  lemma {:induction false} RunInv(p: Params, s: State, steps: seq<Step>)
    requires Inv(p, s) && Legal(p, s, steps)
    ensures Inv(p, Run(p, s, steps))
    decreases |steps|
  {
    if steps != [] {
      NextInv(p, s, steps[0]);
      RunInv(p, Next(p, s, steps[0]), steps[1..]);
    }
  }

  // ------------------------------------------------------------ main results

  /** In every interleaving: the cursor loaded is never behind the total loaded, so the
      start subtraction cannot underflow; every byte copied belongs to the requested slot,
      is never older than requested, and is the requested one exactly when the writer had
      not passed its slot when it was read. */
  lemma ConcurrentRead(p: Params, steps: seq<Step>)
    requires p.Valid() && p.Cells() >= 0 && Legal(p, Init(p), steps)
    ensures var s := Run(p, Init(p), steps);
      s.reader.RCopying? ==>
        var r, from := s.reader, From(p, s.reader);
        && r.offset + r.readable <= r.totalSeen <= r.wpSeen
        && 0 <= from && from + |r.out| <= |s.stream| && |s.cells| == p.Cells() > 0 && |r.origins| == |r.out|
        && (forall j :: 0 <= j < |r.out| ==> Explained(s, from + j, r.out[j], r.origins[j]))
        && (forall j :: 0 <= j < |r.out| ==>
              (r.origins[j].source == from + j <==> r.origins[j].written <= from + j + p.Cells()))
  {
    InitInv(p);
    RunInv(p, Init(p), steps);
    var s := Run(p, Init(p), steps);
    if s.reader.RCopying? {
      var r, from := s.reader, From(p, s.reader);
      forall j | 0 <= j < |r.out|
        ensures r.origins[j].source == from + j <==> r.origins[j].written <= from + j + p.Cells()
      {
        assert Explained(s, from + j, r.out[j], r.origins[j]);
        if from + j < r.origins[j].source < from + j + p.Cells() {
          CellsDistinct(from + j, r.origins[j].source, p.Cells());
        }
      }
    }
  }

  /** So as long as the writer has copied in no byte of a frame at or past start + capacity,
      what was copied is the history. */
  lemma UndisturbedRead(p: Params, steps: seq<Step>)
    requires p.Valid() && p.Cells() >= 0 && Legal(p, Init(p), steps)
    ensures var s := Run(p, Init(p), steps);
      s.reader.RCopying? && |s.stream| <= From(p, s.reader) + p.Cells() ==>
        var from := From(p, s.reader);
        0 <= from && from + |s.reader.out| <= |s.stream| && s.reader.out == s.stream[from..from + |s.reader.out|]
  {
    ConcurrentRead(p, steps);
    var s := Run(p, Init(p), steps);
    if s.reader.RCopying? && |s.stream| <= From(p, s.reader) + p.Cells() {
      var r, from := s.reader, From(p, s.reader);
      forall j | 0 <= j < |r.out| ensures r.out[j] == s.stream[from + j] {
        assert Explained(s, from + j, r.out[j], r.origins[j]);
      }
    }
  }

  /** How much a read sets out to copy: as many frames as asked for of those that the buffer
      then held up to `offset` before its head, and nothing when it held no more than
      `offset`. */
  lemma ReadableSeen(p: Params, steps: seq<Step>, offset: nat, count: nat)
    requires p.Valid() && p.Cells() >= 0 && Legal(p, Init(p), steps)
    requires Enabled(p, Run(p, Init(p), steps), BeginRead(offset, count))
    requires Run(p, Init(p), steps).published < 0x1_0000_0000_0000_0000
    ensures var s := Run(p, Init(p), steps);
      var held := if s.published < Pow2(p.exponent) then s.published else Pow2(p.exponent);
      Next(p, s, BeginRead(offset, count)).reader ==
        if held <= offset then RIdle
        else RLoadedTotal(offset, if offset + count <= held then count else held - offset, s.published)
  {
    InitInv(p);
    RunInv(p, Init(p), steps);
    var s := Run(p, Init(p), steps);
    ModUnique(s.published, TWO_64, 0, s.published);
  }

  /** No copy waits for its cell to exist: the bounds in the copy steps hold of every byte
      either thread may still have to copy. */
  lemma CopiesInBounds(p: Params, steps: seq<Step>, i: nat)
    requires p.Valid() && p.Cells() >= 0 && Legal(p, Init(p), steps)
    ensures var s := Run(p, Init(p), steps);
      && (s.writer.WCopying? ==> InBounds(s, CellAt(p, s.wp, i)))
      && (s.reader.RCopying? ==> InBounds(s, CellAt(p, s.reader.start, i)))
  {
    InitInv(p);
    RunInv(p, Init(p), steps);
    var s := Run(p, Init(p), steps);
    WriterCell(p, s, i);
    if s.reader.RCopying? {
      CellIs(p, s.reader.start, s.reader.wpSeen - s.reader.offset - s.reader.readable, i);
    }
  }

  lemma WriterCell(p: Params, s: State, i: nat)
    requires Inv(p, s)
    ensures InBounds(s, CellAt(p, s.wp, i))
  {
    WrapKeepsCell(s.frames, p.exponent);
    CellIs(p, s.wp, s.frames, i);
  }

  // ---------------------------------------------------------- overtaken read

  lemma {:induction false} Extend(p: Params, s: State, steps: seq<Step>, x: Step)
    requires p.bpf >= 1 && Legal(p, s, steps) && Enabled(p, Run(p, s, steps), x)
    ensures Legal(p, s, steps + [x]) && Run(p, s, steps + [x]) == Next(p, Run(p, s, steps), x)
    decreases |steps|
  {
    if steps == [] {
      assert (steps + [x])[1..] == [];
    } else {
      Extend(p, Next(p, s, steps[0]), steps[1..], x);
      assert (steps + [x])[1..] == steps[1..] + [x];
    }
  }

  ghost predicate Reached(p: Params, s: State) {
    p.Valid() && p.Cells() >= 0 && exists steps :: Legal(p, Init(p), steps) && Run(p, Init(p), steps) == s
  }

  lemma Then(p: Params, s: State, x: Step)
    requires Reached(p, s) && Enabled(p, s, x)
    ensures Reached(p, Next(p, s, x))
  {
    var steps :| Legal(p, Init(p), steps) && Run(p, Init(p), steps) == s;
    Extend(p, Init(p), steps, x);
  }

  lemma ReachedInv(p: Params, s: State)
    requires Reached(p, s)
    ensures Inv(p, s)
  {
    var steps :| Legal(p, Init(p), steps) && Run(p, Init(p), steps) == s;
    InitInv(p);
    RunInv(p, Init(p), steps);
  }

  /** The writer copies a whole period in. */
  lemma CopyAllIn(p: Params, s: State) returns (s': State)
    requires Reached(p, s) && s.writer.WCopying?
    ensures Reached(p, s') && s'.writer == WCopying(s.writer.data, |s.writer.data|)
    ensures s'.stream == s.stream + s.writer.data[Min(s.writer.done, |s.writer.data|)..]
    ensures s' == s.(cells := s'.cells, stamps := s'.stamps, stream := s'.stream, writer := s'.writer)
    decreases |s.writer.data| - s.writer.done
  {
    ReachedInv(p, s);
    if s.writer.done < |s.writer.data| {
      WriterCell(p, s, s.writer.done);
      Then(p, s, CopyIn);
      s' := CopyAllIn(p, Next(p, s, CopyIn));
    } else {
      s' := s;
    }
  }

  /** Without that condition the history is not returned: in a buffer of any size the writer
      can overtake a read between its cursor load and its copy. */
  lemma OvertakenRead(p: Params) returns (s: State)
    requires p.Valid()
    ensures Reached(p, s) && s.reader.RCopying? && From(p, s.reader) == 0
    ensures |s.reader.out| == 1 <= |s.stream| && s.reader.out[0] != s.stream[0]
  {
    InitInv(p);
    MulAtLeast(p.Cap(), p.bpf);
    s := OneFrameWritten(p);
    Then(p, s, BeginRead(0, 1));
    s := Next(p, s, BeginRead(0, 1));
    Then(p, s, LoadWp);
    s := Next(p, s, LoadWp);
    var lap := seq(p.Cells(), _ => 1 as byte);
    ModUnique(p.Cells(), p.bpf, p.Cap(), 0);
    Then(p, s, BeginWrite(lap));
    s := CopyAllIn(p, Next(p, s, BeginWrite(lap)));
    s := FirstByteRead(p, s);
  }

  lemma OneFrameWritten(p: Params) returns (s: State)
    requires p.Valid() && p.Cells() > 0
    ensures Reached(p, s) && s.writer.WIdle? && s.reader.RIdle?
    ensures s.stream == seq(p.bpf, _ => 0) && s.total == s.wp == s.frames == s.published == 1
  {
    s := Init(p);
    assert Legal(p, s, []) && Run(p, s, []) == s;
    var frame := seq(p.bpf, _ => 0 as byte);
    ModUnique(p.bpf, p.bpf, 1, 0);
    Then(p, s, BeginWrite(frame));
    s := CopyAllIn(p, Next(p, s, BeginWrite(frame)));
    Then(p, s, StoreWp);
    s := Next(p, s, StoreWp);
    Then(p, s, AddTotal);
    s := Next(p, s, AddTotal);
  }

  lemma FirstByteRead(p: Params, s: State) returns (s': State)
    requires Reached(p, s) && s.reader.RCopying? && s.reader.out == [] && s.reader.readable > 0
    requires From(p, s.reader) == 0
    requires |s.stream| == p.bpf + p.Cells() && s.stream[0] == 0
    requires forall q :: p.bpf <= q < |s.stream| ==> s.stream[q] == 1
    ensures Reached(p, s') && s'.reader.RCopying? && From(p, s'.reader) == 0
    ensures |s'.reader.out| == 1 && s'.stream == s.stream && s'.reader.out[0] != s'.stream[0]
  {
    ReachedInv(p, s);
    MulAtLeast(s.reader.readable, p.bpf);
    CellIs(p, s.reader.start, s.reader.wpSeen - s.reader.offset - s.reader.readable, 0);
    Then(p, s, CopyOut);
    s' := Next(p, s, CopyOut);
    ReachedInv(p, s');
    assert Explained(s', 0, s'.reader.out[0], s'.reader.origins[0]);
    assert s'.reader.origins == [Origin(s'.reader.origins[0].source, |s.stream|)];
  }
}
