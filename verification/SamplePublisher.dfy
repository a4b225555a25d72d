/** The shared-memory publisher: header layout, and the byte region after each publication. */
module Publisher {

  import opened Bits
  import opened Bytes
  import opened Pcm

  const HEADER_SIZE := 64
  const MAGIC := 0x4155_4449

  datatype Format = Format(sampleRate: nat, channels: nat, bits: nat, periodFrames: nat) {
    ghost predicate Fits() {
      && sampleRate < 0x1_0000_0000 && periodFrames < 0x1_0000_0000
      && channels < 0x1_0000 && bits < 0x1_0000
    }

    function BytesPerFrame(): nat { Times(channels, bits / 8) }

    /** frames * BytesPerFrame() */
    function Bytes(frames: nat): nat { Times(frames, BytesPerFrame()) }

    /** Room for one period. */
    function DataSize(): nat { Bytes(periodFrames) }
  }

  /** The fields that initialize writes once. */
  ghost predicate FormatHolds(f: Format, r: seq<byte>) {
    && |r| >= HEADER_SIZE && r[0..4] == Le(MAGIC, 4) && r[4..8] == Le(f.sampleRate, 4)
    && r[8..10] == Le(f.channels, 2) && r[10..12] == Le(f.bits, 2)
    && r[12..16] == Le(f.periodFrames, 4) && r[32..64] == seq(32, _ => 0)
  }

  /** The whole header, with the two fields that each publication updates. */
  ghost predicate HeaderHolds(f: Format, counter: nat, timestamp: nat, r: seq<byte>) {
    FormatHolds(f, r) && r[16..24] == Le(counter, 8) && r[24..32] == Le(timestamp, 8)
  }

  lemma {:induction false} ZeroField(n: nat)
    ensures Le(0, n) == seq(n, _ => 0)
  {
    if n > 0 {
      ZeroField(n - 1);
      assert seq(n, _ => 0) == [0 as byte] + seq(n - 1, _ => 0);
    }
  }

  /** A reader at the documented offsets recovers every field. */
  lemma HeaderReadsBack(f: Format, counter: nat, timestamp: nat, r: seq<byte>)
    requires f.Fits() && counter < TWO_64 && timestamp < TWO_64 && HeaderHolds(f, counter, timestamp, r)
    ensures && FromLe(r[0..4]) == MAGIC && FromLe(r[4..8]) == f.sampleRate && FromLe(r[8..10]) == f.channels
            && FromLe(r[10..12]) == f.bits && FromLe(r[12..16]) == f.periodFrames
            && FromLe(r[16..24]) == counter && FromLe(r[24..32]) == timestamp
  {
    ByteWidths();
    Pow2Of64();
    LeRoundTrip(MAGIC, 4); LeRoundTrip(f.sampleRate, 4); LeRoundTrip(f.periodFrames, 4);
    LeRoundTrip(f.channels, 2); LeRoundTrip(f.bits, 2);
    LeRoundTrip(counter, 8); LeRoundTrip(timestamp, 8);
  }

  lemma SliceKept(before: seq<byte>, at: nat, x: seq<byte>, lo: nat, hi: nat)
    requires at + |x| <= |before| && lo <= hi <= |before| && (hi <= at || at + |x| <= lo)
    ensures Splice(before, at, x)[lo..hi] == before[lo..hi]
  {
  }

  lemma SlicePut(before: seq<byte>, at: nat, x: seq<byte>)
    requires at + |x| <= |before|
    ensures Splice(before, at, x)[at..at + |x|] == x
  {
  }

  /** Writes outside the constant fields keep them. */
  lemma FormatKept(f: Format, r: seq<byte>, at: nat, x: seq<byte>)
    requires FormatHolds(f, r) && at + |x| <= |r| && ((16 <= at && at + |x| <= 32) || HEADER_SIZE <= at)
    ensures FormatHolds(f, Splice(r, at, x))
  {
    SliceKept(r, at, x, 0, 4); SliceKept(r, at, x, 4, 8); SliceKept(r, at, x, 8, 10);
    SliceKept(r, at, x, 10, 12); SliceKept(r, at, x, 12, 16); SliceKept(r, at, x, 32, 64);
  }

  /** initialize: a zeroed header, then the five fields in order. */
  lemma Initialized(f: Format, r0: seq<byte>, r1: seq<byte>, r2: seq<byte>, r3: seq<byte>, r4: seq<byte>, r5: seq<byte>)
    requires |r0| >= HEADER_SIZE && forall i :: 0 <= i < HEADER_SIZE ==> r0[i] == 0
    requires r1 == Splice(r0, 0, Le(MAGIC, 4)) && r2 == Splice(r1, 4, Le(f.sampleRate, 4))
    requires r3 == Splice(r2, 8, Le(f.channels, 2)) && r4 == Splice(r3, 10, Le(f.bits, 2))
    requires r5 == Splice(r4, 12, Le(f.periodFrames, 4))
    ensures HeaderHolds(f, 0, 0, r5) && r5[HEADER_SIZE..] == r0[HEADER_SIZE..]
  {
    FieldsWritten(f, r0, r1, r2, r3, r4, r5);
    TailKept(r0, 0, Le(MAGIC, 4)); TailKept(r1, 4, Le(f.sampleRate, 4)); TailKept(r2, 8, Le(f.channels, 2));
    TailKept(r3, 10, Le(f.bits, 2)); TailKept(r4, 12, Le(f.periodFrames, 4));
    ZeroTail(r0, r5);
  }

  lemma FieldsWritten(f: Format, r0: seq<byte>, r1: seq<byte>, r2: seq<byte>, r3: seq<byte>, r4: seq<byte>, r5: seq<byte>)
    requires |r0| >= HEADER_SIZE
    requires r1 == Splice(r0, 0, Le(MAGIC, 4)) && r2 == Splice(r1, 4, Le(f.sampleRate, 4))
    requires r3 == Splice(r2, 8, Le(f.channels, 2)) && r4 == Splice(r3, 10, Le(f.bits, 2))
    requires r5 == Splice(r4, 12, Le(f.periodFrames, 4))
    ensures r5[0..4] == Le(MAGIC, 4) && r5[4..8] == Le(f.sampleRate, 4)
    ensures r5[8..10] == Le(f.channels, 2) && r5[10..12] == Le(f.bits, 2) && r5[12..16] == Le(f.periodFrames, 4)
  {
    SlicePut(r0, 0, Le(MAGIC, 4)); SlicePut(r1, 4, Le(f.sampleRate, 4)); SlicePut(r2, 8, Le(f.channels, 2));
    SlicePut(r3, 10, Le(f.bits, 2)); SlicePut(r4, 12, Le(f.periodFrames, 4));
    SliceKept(r1, 4, Le(f.sampleRate, 4), 0, 4); SliceKept(r2, 8, Le(f.channels, 2), 0, 4);
    SliceKept(r2, 8, Le(f.channels, 2), 4, 8); SliceKept(r3, 10, Le(f.bits, 2), 0, 4);
    SliceKept(r3, 10, Le(f.bits, 2), 4, 8); SliceKept(r3, 10, Le(f.bits, 2), 8, 10);
    SliceKept(r4, 12, Le(f.periodFrames, 4), 0, 4); SliceKept(r4, 12, Le(f.periodFrames, 4), 4, 8);
    SliceKept(r4, 12, Le(f.periodFrames, 4), 8, 10); SliceKept(r4, 12, Le(f.periodFrames, 4), 10, 12);
  }

  lemma ZeroTail(r0: seq<byte>, r5: seq<byte>)
    requires |r0| >= HEADER_SIZE && |r5| == |r0| && r5[16..] == r0[16..]
    requires forall i :: 0 <= i < HEADER_SIZE ==> r0[i] == 0
    ensures r5[16..24] == Le(0, 8) && r5[24..32] == Le(0, 8) && r5[32..64] == seq(32, _ => 0)
    ensures r5[HEADER_SIZE..] == r0[HEADER_SIZE..]
  {
    ZeroField(8);
    assert r5[16..24] == r5[16..][..8] && r5[24..32] == r5[16..][8..16] && r5[32..64] == r5[16..][16..48];
    var zeros := r0[16..];
    assert forall i :: 0 <= i < 48 ==> zeros[i] == 0;
    assert zeros[..8] == Le(0, 8) && zeros[8..16] == Le(0, 8) && zeros[16..48] == seq(32, _ => 0);
    assert r5[HEADER_SIZE..] == r5[16..][48..] && r0[HEADER_SIZE..] == r0[16..][48..];
  }

  lemma TailKept(r: seq<byte>, at: nat, x: seq<byte>)
    requires at + |x| <= 16 <= |r|
    ensures Splice(r, at, x)[16..] == r[16..]
  {
  }

  /** publish: timestamp, data, counter. */
  lemma PublicationWritten(f: Format, counter: nat, timestamp: nat, data: seq<byte>,
                           r0: seq<byte>, r1: seq<byte>, r2: seq<byte>, r3: seq<byte>)
    requires FormatHolds(f, r0) && HEADER_SIZE + |data| <= |r0|
    requires r1 == Splice(r0, 24, Le(timestamp, 8)) && r2 == Splice(r1, HEADER_SIZE, data)
    requires r3 == Splice(r2, 16, Le(counter, 8))
    ensures HeaderHolds(f, counter, timestamp, r3)
    ensures r3[HEADER_SIZE..] == data + r0[HEADER_SIZE + |data|..]
  {
    FormatKept(f, r0, 24, Le(timestamp, 8));
    FormatKept(f, r1, HEADER_SIZE, data);
    FormatKept(f, r2, 16, Le(counter, 8));
    SlicePut(r0, 24, Le(timestamp, 8));
    SliceKept(r1, HEADER_SIZE, data, 24, 32);
    SliceKept(r2, 16, Le(counter, 8), 24, 32);
    SlicePut(r2, 16, Le(counter, 8));
    PublishedData(r0, Le(timestamp, 8), Le(counter, 8), data);
  }

  lemma PublishedData(r0: seq<byte>, ts: seq<byte>, c: seq<byte>, data: seq<byte>)
    requires |ts| == |c| == 8 && HEADER_SIZE + |data| <= |r0|
    ensures Splice(Splice(Splice(r0, 24, ts), HEADER_SIZE, data), 16, c)[HEADER_SIZE..]
         == data + r0[HEADER_SIZE + |data|..]
  {
    var r1 := Splice(r0, 24, ts);
    var r2 := Splice(r1, HEADER_SIZE, data);
    var r3 := Splice(r2, 16, c);
    assert r3[HEADER_SIZE..] == r2[HEADER_SIZE..];
    assert r2[HEADER_SIZE..] == data + r1[HEADER_SIZE + |data|..];
    assert r1[HEADER_SIZE + |data|..] == r0[HEADER_SIZE + |data|..];
  }

  /** A region after a period was copied over its front, cut to the region. */
  function Overlaid(region: seq<byte>, period: seq<byte>): seq<byte> {
    var n := Min(|period|, |region|);
    period[..n] + region[n..]
  }

  /** Byte i of the region is byte i of the period as far as that goes, and what it was from
      there on. */
  lemma OverlaidAt(region: seq<byte>, period: seq<byte>)
    ensures |Overlaid(region, period)| == |region|
    ensures forall i :: 0 <= i < |region| ==> Overlaid(region, period)[i] == if i < |period| then period[i] else region[i]
    ensures |period| >= |region| ==> Overlaid(region, period) == period[..|region|]
  {
  }

  /** Bytes of a frame, of several frames, and of the sample region. */
  lemma FormatSizes(f: Format, frames: nat)
    ensures f.BytesPerFrame() == f.channels * (f.bits / 8)
    ensures f.Bytes(frames) == frames * (f.channels * (f.bits / 8))
    ensures f.DataSize() == f.periodFrames * (f.channels * (f.bits / 8))
  {
    TimesIs(f.channels, f.bits / 8);
    TimesIs(frames, f.BytesPerFrame());
    TimesIs(f.periodFrames, f.BytesPerFrame());
  }

  /** The header byte by byte, every field with its low byte first. */
  lemma HeaderBytes(f: Format, counter: nat, timestamp: nat, r: seq<byte>, k: nat)
    requires HeaderHolds(f, counter, timestamp, r)
    ensures |r| >= 64 && r[..4] == [0x49, 0x44, 0x55, 0x41]
    ensures k < 4 ==> r[4 + k] as int == (f.sampleRate / Pow2(8 * k)) % 256
    ensures k < 4 ==> r[12 + k] as int == (f.periodFrames / Pow2(8 * k)) % 256
    ensures k < 2 ==> r[8 + k] as int == (f.channels / Pow2(8 * k)) % 256
    ensures k < 2 ==> r[10 + k] as int == (f.bits / Pow2(8 * k)) % 256
    ensures k < 8 ==> r[16 + k] as int == (counter / Pow2(8 * k)) % 256
    ensures k < 8 ==> r[24 + k] as int == (timestamp / Pow2(8 * k)) % 256
    ensures k < 32 ==> r[32 + k] == 0
  {
    MagicBytes(r);
    if k < 4 { FieldByte(r, 4, 4, f.sampleRate, k); FieldByte(r, 12, 4, f.periodFrames, k); }
    if k < 2 { FieldByte(r, 8, 2, f.channels, k); FieldByte(r, 10, 2, f.bits, k); }
    if k < 8 { FieldByte(r, 16, 8, counter, k); FieldByte(r, 24, 8, timestamp, k); }
    if k < 32 { assert r[32 + k] == r[32..64][k]; }
  }

  lemma MagicBytes(r: seq<byte>)
    requires |r| >= 4 && r[0..4] == Le(MAGIC, 4)
    ensures r[..4] == [0x49, 0x44, 0x55, 0x41]
  {
    assert Le(MAGIC, 4) == [0x49, 0x44, 0x55, 0x41] by {
      assert Le(0x41, 1) == [0x41 as byte] + Le(0, 0);
      assert Le(0x4155, 2) == [0x55 as byte] + Le(0x41, 1);
      assert Le(0x41_5544, 3) == [0x44 as byte] + Le(0x4155, 2);
    }
    assert r[..4] == r[0..4];
  }

  lemma FieldByte(r: seq<byte>, at: nat, n: nat, v: nat, k: nat)
    requires at + n <= |r| && r[at..at + n] == Le(v, n) && k < n
    ensures r[at + k] as int == (v / Pow2(8 * k)) % 256
  {
    LeAt(v, n, k);
    assert r[at + k] == r[at..at + n][k];
  }

  lemma RegionBytes(r: seq<byte>, before: seq<byte>, period: seq<byte>)
    requires |r| == 64 + |before| && r[64..] == Overlaid(before, period)
    ensures forall i :: 0 <= i < |before| ==> r[64 + i] == if i < |period| then period[i] else before[i]
  {
    OverlaidAt(before, period);
    forall i | 0 <= i < |before| ensures r[64 + i] == Overlaid(before, period)[i] {
      assert r[64 + i] == r[64..][i];
    }
  }

  class SamplePublisher {
    const format: Format
    var shm: array?<byte>
    var writeCounter: nat
    ghost var Published: nat     // publications so far, unwrapped
    ghost var LastStamp: nat

    ghost predicate Valid()
      reads this, shm
    {
      && format.Fits() && writeCounter == Published % TWO_64 && LastStamp < TWO_64
      && (shm != null ==>
            && shm.Length == HEADER_SIZE + format.DataSize()
            && HeaderHolds(format, writeCounter, LastStamp, shm[..]))
    }

    /** The sample region. */
    function Data(): seq<byte>
      requires Valid() && shm != null
      reads this, shm
    {
      shm[HEADER_SIZE..]
    }

    constructor (format: Format)
      requires format.Fits()
      ensures Valid() && shm == null && Published == 0 && LastStamp == 0 && this.format == format
    {
      this.format := format;
      shm, writeCounter, Published, LastStamp := null, 0, 0, 0;
    }

    /** Maps the region and writes the header over whatever it held. */
    method Initialize(region: array<byte>)
      requires Valid() && Published == 0 && LastStamp == 0
      requires region.Length == HEADER_SIZE + format.DataSize()
      modifies this`shm, region
      ensures writeCounter == 0 && region[16..24] == Le(0, 8) && region[24..32] == Le(0, 8)
      ensures Valid() && shm == region && Published == 0
      ensures region[HEADER_SIZE..] == old(region[HEADER_SIZE..])
    {
      WriteHeader(region);
      ModUnique(0, TWO_64, 0, 0);
      shm := region;
    }

    method WriteHeader(region: array<byte>)
      requires format.Fits() && region.Length >= HEADER_SIZE
      modifies region
      ensures HeaderHolds(format, 0, 0, region[..])
      ensures region[HEADER_SIZE..] == old(region[HEADER_SIZE..])
    {
      forall i | 0 <= i < HEADER_SIZE { region[i] := 0; }
      ghost var r0 := region[..];
      assert r0[HEADER_SIZE..] == old(region[HEADER_SIZE..]);
      PutField(region, 0, MAGIC, 4);
      ghost var r1 := region[..];
      PutField(region, 4, format.sampleRate, 4);
      ghost var r2 := region[..];
      PutField(region, 8, format.channels, 2);
      ghost var r3 := region[..];
      PutField(region, 10, format.bits, 2);
      ghost var r4 := region[..];
      PutField(region, 12, format.periodFrames, 4);
      Initialized(format, r0, r1, r2, r3, r4, region[..]);
      assert region[..][HEADER_SIZE..] == region[HEADER_SIZE..];
    }

    /** Copies at most one period of data, and only then stores the counter. The bytes
        behind a short period keep what they held. */
    method Publish(data: array<byte>, frameCount: nat, timestamp: nat)
      requires Valid() && timestamp < TWO_64 && data != shm
      requires format.Bytes(frameCount) <= data.Length
      modifies this`writeCounter, this`Published, this`LastStamp, shm
      ensures Valid()
      ensures shm == null ==> Published == old(Published)
      ensures shm != null ==> Published == old(Published) + 1 && LastStamp == timestamp
      ensures shm != null ==> Data() == Overlaid(old(Data()), data[..format.Bytes(frameCount)])
      ensures shm != null ==> writeCounter == (old(writeCounter) + 1) % 0x1_0000_0000_0000_0000
      ensures shm != null ==> shm.Length >= 64 && shm[16..24] == Le(writeCounter, 8) && shm[24..32] == Le(timestamp, 8)
      ensures shm != null ==> shm.Length == 64 + format.DataSize() && forall i :: 0 <= i < format.DataSize() ==>
                shm[64 + i] == if i < format.Bytes(frameCount) then data[i] else old(shm[64 + i])
    {
      if shm == null { return; }
      var bytes := format.Bytes(frameCount);
      ghost var period := data[..bytes];
      var maxBytes := shm.Length - HEADER_SIZE;
      if bytes > maxBytes { bytes := maxBytes; }
      ghost var before := Data();
      writeCounter := (writeCounter + 1) % TWO_64;
      WrapAdd(Published, 1);
      Published, LastStamp := Published + 1, timestamp;
      WritePublication(shm, data, bytes, timestamp);
      assert data[..bytes] == period[..bytes];
      RegionBytes(shm[..], before, period);
    }

    /** Timestamp, data, and only then the counter. */
    method WritePublication(region: array<byte>, data: array<byte>, bytes: nat, timestamp: nat)
      requires data != region && bytes <= data.Length && HEADER_SIZE + bytes <= region.Length
      requires FormatHolds(format, region[..])
      modifies region
      ensures HeaderHolds(format, writeCounter, timestamp, region[..])
      ensures region[HEADER_SIZE..] == data[..bytes] + old(region[HEADER_SIZE..])[bytes..]
    {
      ghost var r0, sent, before := region[..], data[..bytes], region[HEADER_SIZE..];
      PutField(region, 24, timestamp, 8);
      ghost var r1 := region[..];
      assert data[0..bytes] == sent;
      CopyBytes(region, HEADER_SIZE, data, 0, bytes);
      ghost var r2 := region[..];
      PutField(region, 16, writeCounter, 8);
      PublicationWritten(format, writeCounter, timestamp, sent, r0, r1, r2, region[..]);
      assert region[..][HEADER_SIZE..] == region[HEADER_SIZE..] && r0[HEADER_SIZE + bytes..] == before[bytes..];
    }
  }

  /** memcpy of a little-endian field. */
  method PutField(region: array<byte>, at: nat, v: nat, n: nat)
    requires at + n <= region.Length
    modifies region
    ensures region[..] == Splice(old(region[..]), at, Le(v, n))
  {
    var field := Le(v, n);
    forall i | 0 <= i < n { region[at + i] := field[i]; }
  }
}
