/** What every interleaving of the recorder's threads keeps. */
module RecorderProofs {

  import opened Bits
  import opened Bytes
  import opened RecorderProtocol

  // -------------------------------------------------------------- invariant

  ghost predicate CursorInv(c: Config, s: State) {
    && |s.ring| == c.cap
    && |s.buffer| == 2 * c.Threshold()
    && s.drained <= |s.accepted| <= s.drained + c.cap
    && s.ringWrite == |s.accepted| % TWO_64 && s.ringRead == s.drained % TWO_64
    && Mirrors(s.ring, s.accepted, s.drained, |s.accepted|)
    && s.accepted == Kept(s.offers)
  }

  ghost predicate ProducerInv(c: Config, s: State)
    requires |s.ring| > 0 && c.bpf >= 1
  {
    && |s.accepted| % c.bpf == 0
    && (s.captureStopped ==> s.producer.PIdle?)
    && match s.producer
       case PIdle => true
       case PChecked(data) => |data| % c.bpf == 0
       case PCopying(data, done) =>
         && |data| % c.bpf == 0 && done <= |data|
         && |s.accepted| + |data| <= s.drained + c.cap
         && Mirrors(s.ring, s.accepted + data[..done], s.drained, |s.accepted| + done)
  }

  ghost predicate WriterInv(c: Config, s: State) {
    && s.used <= |s.buffer|
    && match s.writer
       case WCopying(chunk, done) =>
         && s.used < c.bpf && 0 < chunk && done <= chunk && s.used + chunk <= |s.buffer|
         && s.drained + chunk <= |s.accepted|
         && s.buffer[s.used..s.used + done] == s.accepted[s.drained..s.drained + done]
       case WBatching(off, frames) => BatchInv(c, s, off, frames)
       case WClosing(off, frames) => BatchInv(c, s, off, frames)
       case WCounting(off, frames) => BatchInv(c, s, off, frames)
       case _ => s.used < c.bpf
  }

  /** src and src_remaining cover the whole frames left in the buffer. */
  ghost predicate BatchInv(c: Config, s: State, off: nat, frames: nat) {
    0 <= frames * c.bpf && off + frames * c.bpf <= s.used < off + frames * c.bpf + c.bpf
  }

  ghost predicate ControlInv(s: State) {
    && (s.writer.WCheckingEmpty? || s.writer.WExiting? || s.writer.WDone? ==> !s.running)
    && (s.writer.WOff? ==> !s.running && !s.orderly)
    && (s.orderly ==> s.captureStopped && !s.running)
    && ((s.writer.WExiting? || s.writer.WDone?) && s.orderly ==> s.drained == |s.accepted|)
  }

  /** Every byte taken out of the ring is in a file, in the carry, or was discarded by a
      failed open. */
  ghost predicate StreamInv(c: Config, s: State) {
    && s.drained <= |s.accepted|
    && |FileBytes(s)| + |Carry(s)| + s.lost == s.drained
    && Subsequence(FileBytes(s) + Carry(s), s.accepted[..s.drained])
    && (s.lost == 0 ==> FileBytes(s) + Carry(s) == s.accepted[..s.drained])
  }

  /** Full blocks first; the open file is neither empty nor, between batches, full. */
  ghost predicate BlockInv(c: Config, s: State) {
    && 0 < c.blockFrames && 0 < c.BlockBytes()
    && s.blocks <= |s.closed| && Uniform(s.closed[..s.blocks], c.BlockBytes())
    && |FileBytes(s)| == s.total * c.bpf
    && (s.open.Some? ==> |s.open.value| == s.inBlock * c.bpf && 0 < s.inBlock)
    && match s.writer
       case WClosing(_, _) =>
         s.open.Some? && s.inBlock == c.blockFrames && AtBatch(c, s)
       case WCounting(_, _) =>
         && s.open.None? && |s.closed| == s.blocks + 1 && |s.closed[s.blocks]| == c.BlockBytes()
         && s.total == (s.blocks + 1) * c.blockFrames
       case WDone =>
         && s.open.None?
         && (AtBatch(c, s) || LastShort(c, s))
       case _ => (s.open.Some? ==> s.inBlock < c.blockFrames) && AtBatch(c, s)
  }

  ghost predicate AtBatch(c: Config, s: State) {
    |s.closed| == s.blocks && s.total == s.blocks * c.blockFrames + FramesInOpen(s)
  }

  ghost predicate LastShort(c: Config, s: State) {
    && |s.closed| == s.blocks + 1
    && 0 < |s.closed[s.blocks]| < c.BlockBytes()
    && s.blocks * c.blockFrames < s.total < (s.blocks + 1) * c.blockFrames
  }

  ghost predicate StatsInv(c: Config, s: State) {
    && s.blocks * c.blockFrames <= s.total
    && match s.stats
       case SIdle => true
       case SBlocks(b) => b * c.blockFrames <= s.total
       case SBoth(b, t) => b * c.blockFrames <= t <= s.total
  }

  ghost predicate Inv(c: Config, s: State) {
    && c.Valid()
    && CursorInv(c, s) && ProducerInv(c, s) && WriterInv(c, s) && ControlInv(s)
    && StreamInv(c, s) && BlockInv(c, s) && StatsInv(c, s)
  }

  // ------------------------------------------------------------ arithmetic

  lemma RingSize(c: Config) returns (k: nat)
    requires c.Valid()
    ensures k <= 63 && c.cap == Pow2(k) && 4 * c.oneSecond <= c.cap <= TWO_63
  {
    RoundUp(4 * c.oneSecond);
    Pow2Of64();
    k :| k <= 63 && NextPow2(4 * c.oneSecond) == Pow2(k);
    Pow2Monotone(k, 63);
  }

  /** The byte-wise copy cell is the cursor's position modulo the ring. */
  lemma CopyCellIs(c: Config, cursor: nat, n: nat, i: nat)
    requires c.Valid() && i < n <= c.cap
    ensures CopyCell(c, cursor % TWO_64, n, i) == (cursor + i) % c.cap
    ensures 0 <= (cursor + i) % c.cap < c.cap
  {
    var k := RingSize(c);
    MaskIsMod(cursor % TWO_64, k);
    WrapKeepsCell(cursor, k);
    ModSlide(cursor, i, c.cap);
  }

  /** The constructor's sizes for a 32-bit rate and frames of up to 65535 channels of 4
      bytes. */
  lemma ConfigureValid(rate: nat, bpf: nat, duration: nat)
    requires 1 <= rate < 0x1_0000_0000 && 1 <= bpf < 0x4_0000 && 1 <= duration
    ensures 4 * (rate * bpf) < TWO_64 && NextPow2(4 * (rate * bpf)) > 0
    ensures var c := Configure(rate, bpf, duration);
      c.Valid() && c.bpf == bpf && c.oneSecond == rate * bpf && c.blockFrames == duration * rate
  {
    MulLe(rate, 0x1_0000_0000, bpf);
    MulAtLeast(rate, bpf);
    MulAtLeast(duration, rate);
    RoundUp(4 * (rate * bpf));
  }

  lemma InitInv(c: Config)
    requires c.Valid()
    ensures Inv(c, Init(c))
  {
    var k := RingSize(c);
    MulAtLeast(c.blockFrames, c.bpf);
  }

  /** Unsigned w - r is the true number of unread bytes. */
  lemma PendingIs(c: Config, s: State)
    requires c.Valid() && CursorInv(c, s)
    ensures Pending(s) == |s.accepted| - s.drained <= c.cap
  {
    var k := RingSize(c);
    WrappedDistance(|s.accepted|, s.drained);
  }

  // ----------------------------------------------------------- subsequences

  lemma {:induction false} SubsequenceAppend<T(!new)>(a: seq<T>, b: seq<T>, x: seq<T>)
    requires Subsequence(a, b)
    ensures Subsequence(a + x, b + x)
    decreases |x|
  {
    if x == [] {
      assert a + x == a && b + x == b;
    } else {
      var init, last := x[..|x| - 1], x[|x| - 1];
      SubsequenceAppend(a, b, init);
      assert (a + x)[..|a + x| - 1] == a + init && (b + x)[..|b + x| - 1] == b + init;
    }
  }

  lemma {:induction false} SubsequenceCut<T(!new)>(a: seq<T>, x: seq<T>, b: seq<T>)
    requires Subsequence(a + x, b)
    ensures Subsequence(a, b)
    decreases |x| + |b|
  {
    if x == [] {
      assert a + x == a;
    } else if a != [] {
      var init, bi := x[..|x| - 1], b[..|b| - 1];
      assert (a + x)[..|a + x| - 1] == a + init;
      if Subsequence(a + x, bi) {
        SubsequenceCut(a, x, bi);
      } else {
        SubsequenceCut(a, init, bi);
      }
    }
  }

  // ---------------------------------------------------------- producer steps

  /** Nothing the producer or the controller does disturbs the writer's side. */
  lemma WriterFrame(c: Config, s: State, s': State)
    requires WriterInv(c, s) && StreamInv(c, s) && BlockInv(c, s) && s.accepted <= s'.accepted
    requires s'.buffer == s.buffer && s'.used == s.used && s'.writer == s.writer
    requires s'.drained == s.drained && s'.lost == s.lost
    requires s'.closed == s.closed && s'.open == s.open && s'.inBlock == s.inBlock
    requires s'.total == s.total && s'.blocks == s.blocks
    ensures WriterInv(c, s') && StreamInv(c, s') && BlockInv(c, s')
  {
    assert s'.accepted[..s.drained] == s.accepted[..s.drained];
    if s.writer.WCopying? {
      var n := s.drained + s.writer.done;
      assert s'.accepted[s.drained..n] == s.accepted[s.drained..n];
    }
  }

  lemma KeptSnoc(offers: seq<Offer>, o: Offer)
    ensures Kept(offers + [o]) == Kept(offers) + (if o.kept then o.data else [])
  {
    assert (offers + [o])[..|offers|] == offers;
  }

  lemma PushInv(c: Config, s: State, data: seq<byte>)
    requires Inv(c, s) && Enabled(c, s, Push(data))
    ensures Inv(c, Next(c, s, Push(data)))
  {
    KeptSnoc(s.offers, Offer(data, false));
    WriterFrame(c, s, Next(c, s, Push(data)));
  }

  lemma LoadCursorsInv(c: Config, s: State)
    requires Inv(c, s) && Enabled(c, s, LoadCursors)
    ensures Inv(c, Next(c, s, LoadCursors))
  {
    LoadCursorsProducer(c, s);
    ProducerMoved(c, s, Next(c, s, LoadCursors));
  }

  /** A step of the producer. */
  lemma ProducerMoved(c: Config, s: State, s': State)
    requires Inv(c, s) && CursorInv(c, s') && ProducerInv(c, s') && s'.accepted == s.accepted
    requires s'.buffer == s.buffer && s'.used == s.used && s'.writer == s.writer
    requires s'.drained == s.drained && s'.lost == s.lost
    requires s'.closed == s.closed && s'.open == s.open && s'.inBlock == s.inBlock
    requires s'.total == s.total && s'.blocks == s.blocks && s'.stats == s.stats
    requires s'.captureStopped == s.captureStopped && s'.running == s.running && s'.orderly == s.orderly
    ensures Inv(c, s')
  {
    WriterFrame(c, s, s');
  }

  lemma LoadCursorsProducer(c: Config, s: State)
    requires c.Valid() && CursorInv(c, s) && ProducerInv(c, s) && Enabled(c, s, LoadCursors)
    ensures CursorInv(c, Next(c, s, LoadCursors)) && ProducerInv(c, Next(c, s, LoadCursors))
  {
    var data := s.producer.data;
    PendingIs(c, s);
    KeptSnoc(s.offers, Offer(data, false));
    assert s.accepted + data[..0] == s.accepted;
  }

  lemma CopyInInv(c: Config, s: State)
    requires Inv(c, s) && Enabled(c, s, CopyIn)
    ensures Inv(c, Next(c, s, CopyIn))
  {
    var s' := Next(c, s, CopyIn);
    CopyInByte(c, s);
    ProducerMoved(c, s, s');
  }

  lemma CopyInByte(c: Config, s: State)
    requires c.Valid() && CursorInv(c, s) && ProducerInv(c, s) && Enabled(c, s, CopyIn)
    ensures CursorInv(c, Next(c, s, CopyIn)) && ProducerInv(c, Next(c, s, CopyIn))
  {
    var k := RingSize(c);
    var data, done := s.producer.data, s.producer.done;
    CopyCellIs(c, |s.accepted|, |data|, done);
    RingTakes(s.ring, s.accepted, data, done, s.drained);
  }

  lemma RingTakes(ring: seq<byte>, stream: seq<byte>, data: seq<byte>, done: nat, lo: nat)
    requires |ring| > 0 && done < |data| && lo <= |stream| && |stream| + |data| <= lo + |ring|
    requires Mirrors(ring, stream + data[..done], lo, |stream| + done)
    ensures var ring' := ring[(|stream| + done) % |ring| := data[done]];
      && Mirrors(ring', stream + data[..done + 1], lo, |stream| + done + 1)
      && Mirrors(ring', stream, lo, |stream|)
  {
    var long := stream + data[..done];
    var ring' := ring[(|stream| + done) % |ring| := data[done]];
    MirrorsSplice(ring, long, lo, [data[done]], lo);
    assert Splice(ring, |long| % |ring|, [data[done]]) == ring';
    assert long + [data[done]] == stream + data[..done + 1];
    MirrorsPrefix(ring', stream, data[..done + 1], lo);
  }

  lemma MirrorsPrefix(ring: seq<byte>, stream: seq<byte>, more: seq<byte>, lo: nat)
    requires |ring| > 0 && lo <= |stream| && Mirrors(ring, stream + more, lo, |stream| + |more|)
    ensures Mirrors(ring, stream, lo, |stream|)
  {
    forall p | lo <= p < |stream| ensures ring[p % |ring|] == stream[p] {
      assert (stream + more)[p] == stream[p];
    }
  }

  lemma PublishWriteInv(c: Config, s: State)
    requires Inv(c, s) && Enabled(c, s, PublishWrite)
    ensures Inv(c, Next(c, s, PublishWrite))
  {
    PublishCursor(c, s);
    WriterFrame(c, s, Next(c, s, PublishWrite));
  }

  lemma PublishCursor(c: Config, s: State)
    requires c.Valid() && CursorInv(c, s) && ProducerInv(c, s) && Enabled(c, s, PublishWrite)
    ensures CursorInv(c, Next(c, s, PublishWrite)) && ProducerInv(c, Next(c, s, PublishWrite))
  {
    var data := s.producer.data;
    assert data[..s.producer.done] == data;
    KeptSnoc(s.offers, Offer(data, true));
    WrapAdd(|s.accepted|, |data|);
    ModSum(|s.accepted|, |data|, c.bpf);
  }

  lemma ModSum(a: nat, b: nat, n: nat)
    requires n > 0 && a % n == 0 && b % n == 0
    ensures (a + b) % n == 0
  {
    MulAdd(a / n, b / n, n);
    ModUnique(a + b, n, a / n + b / n, 0);
  }

  // ------------------------------------------------------------ writer steps

  /** The writer leaves the producer's side alone, up to freeing ring space. */
  lemma ProducerFrame(c: Config, s: State, s': State)
    requires c.Valid() && CursorInv(c, s) && ProducerInv(c, s)
    requires s'.ring == s.ring && s'.ringWrite == s.ringWrite && s'.producer == s.producer
    requires s'.accepted == s.accepted && s'.offers == s.offers && s'.captureStopped == s.captureStopped
    requires |s'.buffer| == |s.buffer|
    requires s.drained <= s'.drained <= |s.accepted| && s'.ringRead == s'.drained % TWO_64
    ensures CursorInv(c, s') && ProducerInv(c, s')
  {
  }

  /** A step between the waiting, loading and batching states that touches no file. */
  lemma FileFrame(c: Config, s: State, s': State)
    requires BlockInv(c, s) && StatsInv(c, s)
    requires s'.closed == s.closed && s'.open == s.open && s'.inBlock == s.inBlock
    requires s'.total == s.total && s'.blocks == s.blocks && s'.stats == s.stats
    requires !s.writer.WClosing? && !s.writer.WCounting? && !s.writer.WDone?
    requires !s'.writer.WClosing? && !s'.writer.WCounting? && !s'.writer.WDone?
    ensures BlockInv(c, s') && StatsInv(c, s')
  {
    assert FileBytes(s') == FileBytes(s);
  }

  /** A writer step that only moves bytes between buffer and files. */
  lemma StreamSame(c: Config, s: State, s': State)
    requires StreamInv(c, s) && s'.accepted == s.accepted && s'.drained == s.drained && s'.lost == s.lost
    requires FileBytes(s') + Carry(s') == FileBytes(s) + Carry(s)
    ensures StreamInv(c, s')
  {
    assert |FileBytes(s') + Carry(s')| == |FileBytes(s) + Carry(s)|;
  }

  lemma LoadInv(c: Config, s: State)
    requires Inv(c, s) && Enabled(c, s, Load)
    ensures Inv(c, Next(c, s, Load))
  {
    LoadWriter(c, s);
    WriterMoved(c, s, Next(c, s, Load));
  }

  /** A step of the writer that takes nothing out of the ring and touches no file. */
  lemma WriterMoved(c: Config, s: State, s': State)
    requires Inv(c, s) && WriterInv(c, s') && ControlInv(s') && Carry(s') == Carry(s)
    requires s'.ring == s.ring && s'.ringWrite == s.ringWrite && s'.ringRead == s.ringRead
    requires s'.producer == s.producer && s'.accepted == s.accepted && s'.offers == s.offers
    requires s'.captureStopped == s.captureStopped && |s'.buffer| == |s.buffer|
    requires s'.drained == s.drained && s'.lost == s.lost
    requires s'.closed == s.closed && s'.open == s.open && s'.inBlock == s.inBlock
    requires s'.total == s.total && s'.blocks == s.blocks && s'.stats == s.stats
    requires !s.writer.WClosing? && !s.writer.WCounting? && !s.writer.WDone?
    requires !s'.writer.WClosing? && !s'.writer.WCounting? && !s'.writer.WDone?
    ensures Inv(c, s')
  {
    StreamSame(c, s, s');
    WriterTook(c, s, s');
  }

  /** A step of the writer that touches no file. */
  lemma WriterTook(c: Config, s: State, s': State)
    requires Inv(c, s) && WriterInv(c, s') && ControlInv(s') && StreamInv(c, s')
    requires s'.ring == s.ring && s'.ringWrite == s.ringWrite && s'.ringRead == s'.drained % TWO_64
    requires s'.producer == s.producer && s'.accepted == s.accepted && s'.offers == s.offers
    requires s'.captureStopped == s.captureStopped && |s'.buffer| == |s.buffer|
    requires s.drained <= s'.drained <= |s.accepted|
    requires s'.closed == s.closed && s'.open == s.open && s'.inBlock == s.inBlock
    requires s'.total == s.total && s'.blocks == s.blocks && s'.stats == s.stats
    requires !s.writer.WClosing? && !s.writer.WCounting? && !s.writer.WDone?
    requires !s'.writer.WClosing? && !s'.writer.WCounting? && !s'.writer.WDone?
    ensures Inv(c, s')
  {
    ProducerFrame(c, s, s');
    FileFrame(c, s, s');
  }

  lemma LoadWriter(c: Config, s: State)
    requires c.Valid() && CursorInv(c, s) && WriterInv(c, s) && Enabled(c, s, Load)
    ensures WriterInv(c, Next(c, s, Load)) && Carry(Next(c, s, Load)) == Carry(s)
  {
    var s' := Next(c, s, Load);
    PendingIs(c, s);
    if s'.writer.WCopying? {
      assert s.buffer[s.used..s.used] == [] && s.accepted[s.drained..s.drained] == [];
    }
  }

  lemma CopyOutInv(c: Config, s: State)
    requires Inv(c, s) && Enabled(c, s, CopyOut)
    ensures Inv(c, Next(c, s, CopyOut))
  {
    var s' := Next(c, s, CopyOut);
    CopyOutByte(c, s);
    WriterMoved(c, s, s');
  }

  lemma CopyOutByte(c: Config, s: State)
    requires c.Valid() && CursorInv(c, s) && WriterInv(c, s) && Enabled(c, s, CopyOut)
    ensures WriterInv(c, Next(c, s, CopyOut)) && Carry(Next(c, s, CopyOut)) == Carry(s)
  {
    var done, u, d := s.writer.done, s.used, s.drained;
    var k := RingSize(c);
    CopyCellIs(c, d, s.writer.chunk, done);
    assert s.ring[(d + done) % c.cap] == s.accepted[d + done];
    CopyOutKeeps(c, s, Next(c, s, CopyOut));
  }

  lemma CopyOutKeeps(c: Config, s: State, s': State)
    requires WriterInv(c, s) && s.writer.WCopying? && s.writer.done < s.writer.chunk
    requires s'.buffer == s.buffer[s.used + s.writer.done := s.accepted[s.drained + s.writer.done]]
    requires s'.used == s.used && s'.drained == s.drained && s'.accepted == s.accepted
    requires s'.writer == WCopying(s.writer.chunk, s.writer.done + 1)
    ensures WriterInv(c, s') && Carry(s') == Carry(s)
  {
    LongerCopy(s.buffer, s.used, s.accepted, s.drained, s.writer.done);
  }

  lemma LongerCopy(buffer: seq<byte>, u: nat, stream: seq<byte>, d: nat, done: nat)
    requires u + done < |buffer| && d + done < |stream|
    requires buffer[u..u + done] == stream[d..d + done]
    ensures var buffer' := buffer[u + done := stream[d + done]];
      buffer'[u..u + done + 1] == stream[d..d + done + 1] && buffer'[..u] == buffer[..u]
  {
    var b := stream[d + done];
    var buffer' := buffer[u + done := b];
    assert buffer'[u..u + done + 1] == buffer[u..u + done] + [b];
    assert stream[d..d + done + 1] == stream[d..d + done] + [b];
  }

  lemma PublishReadInv(c: Config, s: State)
    requires Inv(c, s) && Enabled(c, s, PublishRead)
    ensures Inv(c, Next(c, s, PublishRead))
  {
    PublishReadCursor(c, s);
    PublishReadStream(c, s);
    PublishReadWriter(c, s);
    WriterTook(c, s, Next(c, s, PublishRead));
  }

  lemma PublishReadCursor(c: Config, s: State)
    requires CursorInv(c, s) && WriterInv(c, s) && c.bpf >= 1 && Enabled(c, s, PublishRead)
    ensures var s' := Next(c, s, PublishRead);
      s.drained <= s'.drained <= |s.accepted| && s'.ringRead == s'.drained % TWO_64
  {
    WrapAdd(s.drained, s.writer.chunk);
  }

  lemma PublishReadWriter(c: Config, s: State)
    requires WriterInv(c, s) && c.bpf >= 1 && Enabled(c, s, PublishRead)
    ensures WriterInv(c, Next(c, s, PublishRead))
  {
    WholeFrames(s.used + s.writer.chunk, c.bpf);
  }

  lemma WholeFrames(n: nat, bpf: nat)
    requires bpf > 0
    ensures 0 <= (n / bpf) * bpf <= n < (n / bpf) * bpf + bpf
    ensures n / bpf == 0 ==> n < bpf
  {
    MulLe(0, n / bpf, bpf);
  }

  lemma PublishReadStream(c: Config, s: State)
    requires WriterInv(c, s) && StreamInv(c, s) && c.bpf >= 1 && Enabled(c, s, PublishRead)
    ensures StreamInv(c, Next(c, s, PublishRead))
  {
    var s' := Next(c, s, PublishRead);
    var u, n := s.used, s'.used;
    SplitAt(s.buffer, u, n);
    assert Carry(s') == s.buffer[..n];
    StreamExtended(c, s, s', s.buffer[u..n]);
  }

  lemma SplitAt(b: seq<byte>, i: nat, j: nat)
    requires i <= j <= |b|
    ensures b[..j] == b[..i] + b[i..j] && b[0..j] == b[..j]
  {
  }

  lemma StreamExtended(c: Config, s: State, s': State, taken: seq<byte>)
    requires StreamInv(c, s) && s'.accepted == s.accepted && s'.lost == s.lost
    requires FileBytes(s') == FileBytes(s) && Carry(s') == Carry(s) + taken
    requires s'.drained == s.drained + |taken| <= |s.accepted| && taken == s.accepted[s.drained..s'.drained]
    ensures StreamInv(c, s')
  {
    var moved := FileBytes(s) + Carry(s);
    assert FileBytes(s') + Carry(s') == moved + taken;
    assert s.accepted[..s'.drained] == s.accepted[..s.drained] + taken;
    SubsequenceAppend(moved, s.accepted[..s.drained], taken);
  }

  lemma WriteBatchInv(c: Config, s: State)
    requires Inv(c, s) && Enabled(c, s, WriteBatch)
    ensures Inv(c, Next(c, s, WriteBatch))
  {
    var s' := Next(c, s, WriteBatch);
    ProducerFrame(c, s, s');
    WriteBatchFiles(c, s);
  }

  lemma WriteBatchFiles(c: Config, s: State)
    requires WriterInv(c, s) && StreamInv(c, s) && BlockInv(c, s) && StatsInv(c, s)
    requires c.bpf >= 1 && Enabled(c, s, WriteBatch)
    ensures var s' := Next(c, s, WriteBatch);
      WriterInv(c, s') && StreamInv(c, s') && BlockInv(c, s') && StatsInv(c, s')
  {
    var s' := Next(c, s, WriteBatch);
    var batch, n := BatchSplit(c, s);
    BatchMoves(c, s, s', n);
    BatchFills(c, s, s', batch);
  }

  /** The shape of a batch: how many frames and bytes move, and what is left. */
  lemma BatchSplit(c: Config, s: State) returns (batch: nat, n: nat)
    requires WriterInv(c, s) && c.bpf >= 1 && Enabled(c, s, WriteBatch)
    requires FramesInOpen(s) < c.blockFrames
    ensures batch == Min(s.writer.frames, c.blockFrames - FramesInOpen(s)) > 0 && n == batch * c.bpf
    ensures var s', off, frames := Next(c, s, WriteBatch), s.writer.off, s.writer.frames;
      && off + n <= s.used
      && s'.buffer == s.buffer && s'.used == s.used && s'.closed == s.closed
      && OpenBytes(s') == OpenBytes(s) + s.buffer[off..off + n] && s'.open.Some?
      && s'.inBlock == FramesInOpen(s) + batch && s'.total == s.total + batch
      && BatchInv(c, s', off + n, frames - batch)
      && s'.writer == (if s'.inBlock >= c.blockFrames then WClosing(off + n, frames - batch)
                       else WBatching(off + n, frames - batch))
  {
    var frames := s.writer.frames;
    batch := Min(frames, c.blockFrames - FramesInOpen(s));
    MulSplit(frames, batch, c.bpf);
    n := batch * c.bpf;
  }

  lemma BatchMoves(c: Config, s: State, s': State, n: nat)
    requires StreamInv(c, s) && s.writer.WBatching? && s.writer.off + n <= s.used <= |s.buffer|
    requires s'.writer.WBatching? || s'.writer.WClosing?
    requires s'.writer.off == s.writer.off + n
    requires s'.buffer == s.buffer && s'.used == s.used && s'.closed == s.closed
    requires OpenBytes(s') == OpenBytes(s) + s.buffer[s.writer.off..s.writer.off + n]
    requires s'.accepted == s.accepted && s'.drained == s.drained && s'.lost == s.lost
    ensures StreamInv(c, s')
  {
    var batch := s.buffer[s.writer.off..s.writer.off + n];
    assert Carry(s) == batch + Carry(s');
    Regroup(Flatten(s.closed), OpenBytes(s), batch, Carry(s'));
    StreamSame(c, s, s');
  }

  lemma Regroup(files: seq<byte>, open: seq<byte>, batch: seq<byte>, rest: seq<byte>)
    ensures (files + (open + batch)) + rest == (files + open) + (batch + rest)
  {
  }

  lemma BatchFills(c: Config, s: State, s': State, batch: nat)
    requires BlockInv(c, s) && StatsInv(c, s) && s.writer.WBatching?
    requires 0 < batch <= c.blockFrames - FramesInOpen(s)
    requires s'.inBlock == FramesInOpen(s) + batch && s'.total == s.total + batch
    requires s'.closed == s.closed && s'.blocks == s.blocks && s'.stats == s.stats && s'.open.Some?
    requires |OpenBytes(s')| == |OpenBytes(s)| + batch * c.bpf
    requires if s'.inBlock >= c.blockFrames then s'.writer.WClosing? else s'.writer.WBatching?
    ensures BlockInv(c, s') && StatsInv(c, s')
  {
    MulAdd(FramesInOpen(s), batch, c.bpf);
    MulAdd(s.total, batch, c.bpf);
  }

  lemma OpenFailsInv(c: Config, s: State)
    requires Inv(c, s) && Enabled(c, s, OpenFails)
    ensures Inv(c, Next(c, s, OpenFails))
  {
    var s' := Next(c, s, OpenFails);
    SubsequenceCut(FileBytes(s), Carry(s), s.accepted[..s.drained]);
    assert Carry(s') == [] && FileBytes(s') + Carry(s') == FileBytes(s);
    MulAtLeast(s.writer.frames, c.bpf);
    ProducerFrame(c, s, s');
    FileFrame(c, s, s');
  }

  lemma CloseBlockInv(c: Config, s: State)
    requires Inv(c, s) && Enabled(c, s, CloseBlock)
    ensures Inv(c, Next(c, s, CloseBlock))
  {
    var s' := Next(c, s, CloseBlock);
    FileClosed(c, s, s');
    StreamSame(c, s, s');
    ProducerFrame(c, s, s');
    BlockClosed(c, s, s');
  }

  lemma FileClosed(c: Config, s: State, s': State)
    requires s.open.Some? && s'.open.None? && s'.closed == s.closed + [s.open.value]
    ensures FileBytes(s') == FileBytes(s)
  {
    FlattenSnoc(s.closed, s.open.value);
  }

  lemma BlockClosed(c: Config, s: State, s': State)
    requires BlockInv(c, s) && StatsInv(c, s) && s.writer.WClosing? && s'.writer.WCounting?
    requires s.open.Some? && s'.open.None? && s'.closed == s.closed + [s.open.value]
    requires s'.total == s.total && s'.blocks == s.blocks && s'.stats == s.stats
    requires FileBytes(s') == FileBytes(s)
    ensures BlockInv(c, s') && StatsInv(c, s')
  {
    MulAdd(s.blocks, 1, c.blockFrames);
    assert s'.closed[..s.blocks] == s.closed[..s.blocks];
  }

  lemma CountBlockInv(c: Config, s: State)
    requires Inv(c, s) && Enabled(c, s, CountBlock)
    ensures Inv(c, Next(c, s, CountBlock))
  {
    var s' := Next(c, s, CountBlock);
    StreamSame(c, s, s');
    ProducerFrame(c, s, s');
    BlockCounted(c, s, s');
  }

  lemma BlockCounted(c: Config, s: State, s': State)
    requires BlockInv(c, s) && StatsInv(c, s) && s.writer.WCounting? && s'.writer.WBatching?
    requires s'.open == s.open && s'.closed == s.closed && s'.inBlock == s.inBlock
    requires s'.total == s.total && s'.blocks == s.blocks + 1 && s'.stats == s.stats
    ensures BlockInv(c, s') && StatsInv(c, s')
  {
    assert s.closed[..s.blocks + 1] == s.closed;
    assert FileBytes(s') == FileBytes(s);
  }

  lemma KeepPartialInv(c: Config, s: State)
    requires Inv(c, s) && Enabled(c, s, KeepPartial)
    ensures Inv(c, Next(c, s, KeepPartial))
  {
    var s' := Next(c, s, KeepPartial);
    assert Carry(s') == Carry(s);
    StreamSame(c, s, s');
    ProducerFrame(c, s, s');
    FileFrame(c, s, s');
    assert 0 * c.bpf == 0;
  }

  lemma CloseLastInv(c: Config, s: State)
    requires Inv(c, s) && Enabled(c, s, CloseLast)
    ensures Inv(c, Next(c, s, CloseLast))
  {
    var s' := Next(c, s, CloseLast);
    if s.open.Some? {
      FileClosed(c, s, s');
    }
    StreamSame(c, s, s');
    ProducerFrame(c, s, s');
    LastClosed(c, s, s');
  }

  lemma LastClosed(c: Config, s: State, s': State)
    requires BlockInv(c, s) && StatsInv(c, s) && s.writer.WExiting? && s'.writer.WDone? && s'.open.None?
    requires s'.closed == (if s.open.Some? then s.closed + [s.open.value] else s.closed)
    requires s'.total == s.total && s'.blocks == s.blocks && s'.stats == s.stats
    requires FileBytes(s') == FileBytes(s)
    ensures BlockInv(c, s') && StatsInv(c, s')
  {
    if s.open.Some? {
      MulAdd(s.blocks, 1, c.blockFrames);
      assert s'.closed[..s.blocks] == s.closed[..s.blocks];
      MulLe(s.inBlock + 1, c.blockFrames, c.bpf);
      MulAdd(s.inBlock, 1, c.bpf);
      MulAtLeast(s.inBlock, c.bpf);
    }
  }

  lemma WakeInv(c: Config, s: State, step: Step)
    requires Inv(c, s) && Enabled(c, s, step)
    requires step.Start? || step.Wake? || step.CheckRunning? || step.CheckEmpty?
    ensures Inv(c, Next(c, s, step))
  {
    var s' := Next(c, s, step);
    assert Carry(s') == Carry(s);
    PendingIs(c, s);
    ModUnique(0, TWO_64, 0, 0);
    WriterMoved(c, s, s');
  }

  lemma StopInv(c: Config, s: State, step: Step)
    requires Inv(c, s) && Enabled(c, s, step)
    requires step.StopCapture? || step.StopRecording? || step.StopWriter?
    ensures Inv(c, Next(c, s, step))
  {
    WriterFrame(c, s, Next(c, s, step));
  }

  lemma StatsReadInv(c: Config, s: State, step: Step)
    requires Inv(c, s) && Enabled(c, s, step)
    requires step.ReadBlocks? || step.ReadTotal? || step.ReportDone?
    ensures Inv(c, Next(c, s, step))
  {
    WriterFrame(c, s, Next(c, s, step));
  }

  lemma NextInv(c: Config, s: State, step: Step)
    requires Inv(c, s) && Enabled(c, s, step)
    ensures Inv(c, Next(c, s, step))
  {
    match step
    case Push(_) | LoadCursors | CopyIn | PublishWrite => ProducerStepInv(c, s, step);
    case Load | CopyOut | PublishRead => DrainStepInv(c, s, step);
    case WriteBatch | OpenFails | CloseBlock | CountBlock | KeepPartial | CloseLast => FileStepInv(c, s, step);
    case Start | Wake | CheckRunning | CheckEmpty => WakeInv(c, s, step);
    case StopCapture | StopRecording | StopWriter => StopInv(c, s, step);
    case ReadBlocks | ReadTotal | ReportDone => StatsReadInv(c, s, step);
  }

  lemma ProducerStepInv(c: Config, s: State, step: Step)
    requires Inv(c, s) && Enabled(c, s, step)
    requires step.Push? || step.LoadCursors? || step.CopyIn? || step.PublishWrite?
    ensures Inv(c, Next(c, s, step))
  {
    match step
    case Push(data) => PushInv(c, s, data);
    case LoadCursors => LoadCursorsInv(c, s);
    case CopyIn => CopyInInv(c, s);
    case PublishWrite => PublishWriteInv(c, s);
  }

  lemma DrainStepInv(c: Config, s: State, step: Step)
    requires Inv(c, s) && Enabled(c, s, step)
    requires step.Load? || step.CopyOut? || step.PublishRead?
    ensures Inv(c, Next(c, s, step))
  {
    match step
    case Load => LoadInv(c, s);
    case CopyOut => CopyOutInv(c, s);
    case PublishRead => PublishReadInv(c, s);
  }

  lemma FileStepInv(c: Config, s: State, step: Step)
    requires Inv(c, s) && Enabled(c, s, step)
    requires step in {WriteBatch, OpenFails, CloseBlock, CountBlock, KeepPartial, CloseLast}
    ensures Inv(c, Next(c, s, step))
  {
    match step
    case WriteBatch => WriteBatchInv(c, s);
    case OpenFails => OpenFailsInv(c, s);
    case CloseBlock => CloseBlockInv(c, s);
    case CountBlock => CountBlockInv(c, s);
    case KeepPartial => KeepPartialInv(c, s);
    case CloseLast => CloseLastInv(c, s);
  }

  lemma {:induction false} RunInv(c: Config, s: State, steps: seq<Step>)
    requires Inv(c, s) && Legal(c, s, steps)
    ensures Inv(c, Run(c, s, steps))
    decreases |steps|
  {
    if steps != [] {
      NextInv(c, s, steps[0]);
      RunInv(c, Next(c, s, steps[0]), steps[1..]);
    }
  }
}
