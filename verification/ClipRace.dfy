/** A clip cut from the history while the capture thread goes on writing it. */
module ClipRace {

  import opened Bits
  import opened Bytes
  import opened RecorderProtocol
  import opened HistoryRace
  import Clips

  /** A read of the newest frames, at most `want` of them, that has copied all it set out
      to. */
  ghost predicate ClipRead(p: Params, s: HistoryRace.State, want: nat) {
    && s.reader.RCopying? && s.reader.offset == 0 && s.reader.readable <= want
    && |s.reader.out| == s.reader.readable * p.bpf
  }

  /** Its bytes are those of `want` frames of the history from frame `from` on. */
  ghost predicate IsRange(p: Params, s: HistoryRace.State, from: int, want: nat)
    requires s.reader.RCopying?
  {
    && |s.reader.origins| == want * p.bpf
    && forall j :: 0 <= j < |s.reader.origins| ==> s.reader.origins[j].source == from * p.bpf + j
  }

  /** The writer had not reached the cells of these frames again when they were read. */
  ghost predicate NotOvertaken(p: Params, s: HistoryRace.State, from: int)
    requires s.reader.RCopying?
  {
    forall j :: 0 <= j < |s.reader.origins| ==> s.reader.origins[j].written <= from * p.bpf + j + p.Cells()
  }

  /** In every interleaving with the writer: a clip whose cursor was loaded when the head had
      advanced by the end offset since the request at T is made of the requested bytes if
      and only if the whole range was held when it was requested of the buffer and no byte of
      it was overtaken before it was copied. It then equals the requested range. */
  lemma ClipExactIff(p: Params, steps: seq<HistoryRace.Step>, T: int, start: int, end: int, rate: pos)
    requires p.Valid() && p.Cells() >= 0 && HistoryRace.Legal(p, HistoryRace.Init(p), steps) && start < end
    ensures var s, want, from := HistoryRace.Run(p, HistoryRace.Init(p), steps), Clips.Wanted(start, end, rate), T + start * rate;
      ClipRead(p, s, want) && s.reader.wpSeen == T + end * rate ==>
        && (IsRange(p, s, from, want) <==> s.reader.readable == want && NotOvertaken(p, s, from))
        && (IsRange(p, s, from, want) ==>
              Clips.Between(s.stream, p.bpf, from, T + end * rate) == Some(s.reader.out))
  {
    var s := HistoryRace.Run(p, HistoryRace.Init(p), steps);
    Clips.RangeSize(T, start, end, rate);
    ConcurrentRead(p, steps);
    var want := Clips.Wanted(start, end, rate);
    if ClipRead(p, s, want) && s.reader.wpSeen == T + end * rate {
      RangeIff(p, s, T + end * rate, want);
    }
  }

  lemma RangeIff(p: Params, s: HistoryRace.State, to: int, want: pos)
    requires p.Valid() && ClipRead(p, s, want) && s.reader.wpSeen == to
    requires var r, from := s.reader, From(p, s.reader);
      && 0 <= from && from + |r.out| <= |s.stream| && |s.cells| == p.Cells() > 0 && |r.origins| == |r.out|
      && (forall j :: 0 <= j < |r.out| ==> Explained(s, from + j, r.out[j], r.origins[j]))
      && (forall j :: 0 <= j < |r.out| ==>
            (r.origins[j].source == from + j <==> r.origins[j].written <= from + j + p.Cells()))
    ensures IsRange(p, s, to - want, want) <==> s.reader.readable == want && NotOvertaken(p, s, to - want)
    ensures IsRange(p, s, to - want, want) ==> Clips.Between(s.stream, p.bpf, to - want, to) == Some(s.reader.out)
  {
    var r := s.reader;
    if r.readable < want {
      MulLe(r.readable + 1, want, p.bpf);
      MulAdd(r.readable, 1, p.bpf);
    } else {
      assert From(p, r) == (to - want) * p.bpf;
      if IsRange(p, s, to - want, want) {
        RangeBytes(p, s, to, want);
      }
    }
  }

  lemma RangeBytes(p: Params, s: HistoryRace.State, to: int, want: pos)
    requires p.Valid() && ClipRead(p, s, want) && s.reader.wpSeen == to && s.reader.readable == want
    requires var r, from := s.reader, (to - want) * p.bpf;
      && From(p, r) == from && 0 <= from && from + |r.out| <= |s.stream| && |s.cells| > 0 && |r.origins| == |r.out|
      && (forall j :: 0 <= j < |r.out| ==> Explained(s, from + j, r.out[j], r.origins[j]))
    requires IsRange(p, s, to - want, want)
    ensures Clips.Between(s.stream, p.bpf, to - want, to) == Some(s.reader.out)
  {
    var r, from := s.reader, (to - want) * p.bpf;
    if to < want {
      MulLe(to - want, -1, p.bpf);
    }
    MulAdd(to - want, want, p.bpf);
    TimesIs(to - want, p.bpf);
    TimesIs(to, p.bpf);
    Clips.TimesLe(to - want, to, p.bpf);
    var range := s.stream[from..from + want * p.bpf];
    forall j | 0 <= j < |r.out| ensures r.out[j] == range[j] {
      assert Explained(s, from + j, r.out[j], r.origins[j]);
    }
    assert range == r.out;
  }

  /** So it is exact whenever the whole range was held and the writer stays less than a
      buffer ahead of its start until the copy is done. */
  lemma QuietClipIsExact(p: Params, steps: seq<HistoryRace.Step>, T: int, start: int, end: int, rate: pos)
    requires p.Valid() && p.Cells() >= 0 && HistoryRace.Legal(p, HistoryRace.Init(p), steps) && start < end
    ensures var s, want := HistoryRace.Run(p, HistoryRace.Init(p), steps), Clips.Wanted(start, end, rate);
      ClipRead(p, s, want) && s.reader.wpSeen == T + end * rate && s.reader.readable == want
      && |s.stream| <= (T + start * rate) * p.bpf + p.Cells() ==>
        Clips.Between(s.stream, p.bpf, T + start * rate, T + end * rate) == Some(s.reader.out)
  {
    ClipExactIff(p, steps, T, start, end, rate);
    ConcurrentRead(p, steps);
    var s := HistoryRace.Run(p, HistoryRace.Init(p), steps);
    if s.reader.RCopying? && |s.stream| <= (T + start * rate) * p.bpf + p.Cells() {
      WrittenSoFar(p, s, T + start * rate);
    }
  }

  lemma WrittenSoFar(p: Params, s: HistoryRace.State, from: int)
    requires s.reader.RCopying? && |s.cells| > 0 && |s.reader.origins| == |s.reader.out|
    requires forall j :: 0 <= j < |s.reader.out| ==>
               Explained(s, From(p, s.reader) + j, s.reader.out[j], s.reader.origins[j])
    requires |s.stream| <= from * p.bpf + p.Cells()
    ensures NotOvertaken(p, s, from)
  {
    forall j | 0 <= j < |s.reader.origins| ensures s.reader.origins[j].written <= from * p.bpf + j + p.Cells() {
      assert Explained(s, From(p, s.reader) + j, s.reader.out[j], s.reader.origins[j]);
    }
  }
}
