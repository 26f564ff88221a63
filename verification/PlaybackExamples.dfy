/** Runs in which the start-of-playback machine misses what it is for, one for each
    way it can: the conditions of the lemmas named below are met. */
module PlaybackExamples {
  import opened Common
  import opened Timespec
  import opened Playback
  import opened PlaybackRuns
  import opened PlaybackSync
  import opened PlaybackGate
  import opened PlaybackNotices
  import opened PlaybackRestart

  /** CD quality, no latency, no output buffer. */
  const CD := Config(44100, 16, 2, 0, 0, 0, Timespec(0, 0))

  const START := Timespec(1, 0)
  /** One sample period and a little after the start. */
  const ONE_LATE := Timespec(1, 22676)
  /** More than 2^64 / 44100 nanoseconds after it. */
  const FAR_LATE := Timespec(418294, 516433325)

  function Reading(bytes: Bytes, first: Timespec, now: Timespec): Env {
    Env(Data(bytes), true, Clock.Reading(first), Clock.Reading(now))
  }

  lemma OneSampleLate()
    ensures CD.Valid() && CD.Frame() == 4
    ensures LateBytes(CD, ONE_LATE, START) == 4
    ensures Earliest(CD, 4, ONE_LATE) == ONE_LATE
  {
  }

  /** State after one read at the given time, with `due` bytes to ignore. */
  function Scheduled(bytes: Bytes, earliest: Timespec, due: nat): State {
    State(bytes, 1, due, 0, false, START, earliest, false, false, false, true, [], bytes, [], [])
  }

  lemma FirstCall(bytes: Bytes, first: Timespec, now: Timespec, due: nat)
    requires first.Normal() && first.Nanos() > START.Nanos() && LateBytes(CD, first, START) == due
    requires |bytes| > 0 && Earliest(CD, |bytes|, first) == first
    ensures Step(CD, Init([], START), Play(Reading(bytes, first, now)))
            == Commence(CD, Scheduled(bytes, first, due), false, Reading(bytes, first, now)).0
  {
    hide LateBytes, Earliest, Commence;
    assert [] + bytes == bytes;
    assert Schedule(CD, Received(Init([], START), bytes), first) == Scheduled(bytes, first, due);
  }

  /** The one sample due is ignored, and that is the whole buffer. */
  function AfterDrain(sample: Bytes): State {
    State([], 1, 4, 4, false, START, ONE_LATE, false, false, false, true, [], sample, sample, [])
  }

  lemma SampleDrained(sample: Bytes, now: Timespec)
    requires |sample| == 4
    ensures Step(CD, Init([], START), Play(Reading(sample, ONE_LATE, now))) == AfterDrain(sample)
  {
    OneSampleLate();
    FirstCall(sample, ONE_LATE, now, 4);
    var s := Scheduled(sample, ONE_LATE, 4);
    hide LateBytes, Earliest, Step, HoldsBack, DeltaMs;
    assert [] + sample[..4] == sample && sample[4..] == [];
    assert Drop(s, 4) == AfterDrain(sample);
  }

  /** After the drain a call writes or waits as the gate says, nothing else. */
  lemma AfterDrainGate(sample: Bytes, bytes: Bytes, isNew: bool, now: Timespec)
    requires |sample| == 4
    ensures var s := AfterDrain(sample).(isNew := isNew);
            var t := Step(CD, s, Play(Reading(bytes, ONE_LATE, now)));
            var r := Received(s, bytes);
            t == if HoldsBack(CD, DeltaMs(START, now)) then r else Emit(r, isNew, true)
  {
    hide HoldsBack, DeltaMs, Schedule, DropStep;
  }

  /** `ExactDrainLosesSync`: one sample is due and read alone, the next one is written
      right after it, and everything is one sample period early. */
  lemma ExactDrainHappens(a: Bytes, b: Bytes, n: nat)
    requires |a| == |b| == 4
    ensures var events := [Play(Reading(a, ONE_LATE, ONE_LATE)), Play(Reading(b, ONE_LATE, ONE_LATE))];
            var t := Run(CD, Init([], START), events);
            && EventsOk(events)
            && t.sink == [Audio(b, false, true)] && t.startTs == START && t.removed == 4
            && Due(CD, t.startTs, 1, n) == Due(CD, START, 0, n) - NS_PER_SEC
  {
    var e, f := Play(Reading(a, ONE_LATE, ONE_LATE)), Play(Reading(b, ONE_LATE, ONE_LATE));
    RunOfTwo(CD, Init([], START), e, f);
    SampleDrained(a, ONE_LATE);
    AfterDrainGate(a, b, false, ONE_LATE);
    assert DeltaMs(START, ONE_LATE) == 0;
    hide Step, Run, DeltaMs;
    assert [] + b == b;
  }

  lemma MissedByASecond()
    ensures DeltaMs(START, Timespec(2, 0)) == -1000 && HoldsBack(CD, -1000)
  {
  }

  /** `MissedStartStarves`: the same drain, but the next call comes a second later.
      The sample stays in the buffer, and no later call ever writes audio. */
  lemma MissedStartHappens(a: Bytes, b: Bytes, later: seq<Event>)
    requires |a| == |b| == 4 && Missed(START, later)
    ensures var events := [Play(Reading(a, ONE_LATE, ONE_LATE)), Play(Reading(b, ONE_LATE, Timespec(2, 0)))];
            var t := Run(CD, Init([], START), events);
            && EventsOk(events)
            && t.evbuf == b && t.sink == []
            && forall w <- Run(CD, t, later).sink :: !w.Audio?
  {
    var e, f := Play(Reading(a, ONE_LATE, ONE_LATE)), Play(Reading(b, ONE_LATE, Timespec(2, 0)));
    OneSampleLate();
    RunOfTwo(CD, Init([], START), e, f);
    SampleDrained(a, ONE_LATE);
    AfterDrainGate(a, b, false, Timespec(2, 0));
    MissedByASecond();
    hide Step, Run, DeltaMs, HoldsBack;
    assert [] + b == b;
    Starves(a, b, later);
    hide Missed;
  }

  lemma Starves(a: Bytes, b: Bytes, later: seq<Event>)
    requires Missed(START, later)
    ensures forall w <- Run(CD, Received(AfterDrain(a), b), later).sink :: !w.Audio?
  {
    hide *;
    DrainedWaits(a, b);
    NoLatency();
    NoAudioOnceMissed(CD, START, Received(AfterDrain(a), b), later);
  }

  lemma NoAudioOnceMissed(c: Config, start: Timespec, s: State, events: seq<Event>)
    requires c.Valid() && Waiting(start, s) && 0 <= Window(c) < TWO63 && Missed(start, events)
    ensures forall w <- Run(c, s, events).sink :: !w.Audio?
  {
    MissedStartStarves(c, start, s, events);
    hide Run, Missed;
  }

  lemma DrainedWaits(a: Bytes, b: Bytes)
    ensures Waiting(START, Received(AfterDrain(a), b))
  {
    var t := Received(AfterDrain(a), b);
    assert t.sink == [];
  }

  lemma NoLatency()
    ensures CD.Valid() && Window(CD) == 0
  {
  }

  /** `FirstReadingDecides`: a notice raised after the drain is used up by that call and
      lost. */
  lemma NoticeLost(a: Bytes, b: Bytes)
    requires |a| == |b| == 4
    ensures var s := Run(CD, Init([], START), [Play(Reading(a, ONE_LATE, ONE_LATE)), Notify]);
            var call := Play(Reading(b, ONE_LATE, Timespec(2, 0)));
            && s.isNew && !Step(CD, s, call).isNew && Step(CD, s, call).sink == []
            && Notices(CD, s, [call]) == Tally(0, 0, 1)
  {
    var e, call := Play(Reading(a, ONE_LATE, ONE_LATE)), Play(Reading(b, ONE_LATE, Timespec(2, 0)));
    RunOfTwo(CD, Init([], START), e, Notify);
    SampleDrained(a, ONE_LATE);
    var s := AfterDrain(a).(isNew := true);
    assert Step(CD, AfterDrain(a), Notify) == s;
    AfterDrainGate(a, b, true, Timespec(2, 0));
    MissedByASecond();
    hide Step, Run, DeltaMs, HoldsBack;
    NoticesBalance(CD, s, [call]);
    assert Notices(CD, s, [call]) == TallyOf(CD, s, call) by {
      OneTally(CD, s, call);
    }
    assert Reads(s, call) && !WritesNow(CD, s, call.env);
  }

  lemma OneTally(c: Config, s: State, e: Event)
    ensures Notices(c, s, [e]) == TallyOf(c, s, e)
  {
    hide TallyOf, Step;
    assert [e][1..] == [];
  }

  lemma FarLate()
    ensures FAR_LATE.Normal() && LateBytes(CD, FAR_LATE, START) == 4 && Earliest(CD, 8, FAR_LATE) == FAR_LATE
    ensures !NoWrap(CD, FAR_LATE, START)
  {
  }

  /** `LateStartKeepsSync`: 418293 seconds late the 64-bit product has wrapped; one
      sample is ignored, the start moves by all of the lateness, and the output is
      days late. */
  lemma WrapHappens(a: Bytes, n: nat)
    requires |a| == 8
    ensures var t := Step(CD, Init([], START), Play(Reading(a, FAR_LATE, FAR_LATE)));
            && t.sink == [Audio(a[4..], false, true)] && t.removed == 4 && t.startTs == FAR_LATE
            && !OnTime(CD, START, t.startTs, 1, n)
  {
    OneSampleLate();
    FarLate();
    FirstCall(a, FAR_LATE, FAR_LATE, 4);
    var s := Scheduled(a, FAR_LATE, 4);
    assert Release(s, false).startTs == FAR_LATE && Release(s, false).sink == [Audio(a[4..], false, true)];
    assert LateSamples(CD, FAR_LATE.Nanos() - START.Nanos()) == 1;
    MovedStart(CD, START, FAR_LATE, 1, n);
    hide LateBytes, Earliest, Step, HoldsBack, DeltaMs, Release;
  }

  const ATEND := Play(Env(Eof, true, Clock.Failed, Clock.Failed))

  /** `SecondStreamUnsynced`: a stream that is written and ends, and one that follows it.
      Its first call writes at once, without the mark, although the start time is
      set. */
  lemma SecondStreamHappens(a: Bytes, b: Bytes, primed: Bytes, d: Bytes)
    requires |a| == |b| == 4
    ensures var events := [Play(Reading(a, ONE_LATE, ONE_LATE)), Play(Reading(b, ONE_LATE, ONE_LATE))];
            var ended := Step(CD, Run(CD, Init([], START), events), ATEND);
            var t := Step(CD, Restart(ended, primed), Play(Reading(d, ONE_LATE, ONE_LATE)));
            && !ended.open && ended.startTs.sec != 0
            && t.sink == [Audio(primed + d, false, false)]
  {
    var e, f := Play(Reading(a, ONE_LATE, ONE_LATE)), Play(Reading(b, ONE_LATE, ONE_LATE));
    RunOfTwo(CD, Init([], START), e, f);
    SampleDrained(a, ONE_LATE);
    AfterDrainGate(a, b, false, ONE_LATE);
    assert DeltaMs(START, ONE_LATE) == 0;
    hide Run, DeltaMs, PlayStep;
    var written := Emit(Received(AfterDrain(a), b), false, true);
    FinishesAtEnd(CD, written);
    SecondStreamWritesAtOnce(CD, Restart(Finish(written), primed), d, Reading(d, ONE_LATE, ONE_LATE));
  }

  lemma FinishesAtEnd(c: Config, s: State)
    requires s.open && !s.paused && !s.stopping
    ensures Step(c, s, ATEND) == Finish(s)
  {
  }

  /** Two of the four bytes due are read and ignored, then the stream ends. */
  function HalfDrained(half: Bytes): State {
    State([], 1, 4, 2, false, START, ONE_LATE, false, false, false, true, [], half, half, [])
  }

  lemma HalfSampleDrained(half: Bytes)
    requires |half| == 2
    ensures Step(CD, Init([], START), Play(Reading(half, ONE_LATE, ONE_LATE))) == HalfDrained(half)
  {
    OneSampleLate();
    FirstCall(half, ONE_LATE, ONE_LATE, 4);
    var s := Scheduled(half, ONE_LATE, 4);
    hide LateBytes, Earliest, Step, HoldsBack, DeltaMs;
    assert [] + half[..2] == half && half[2..] == [];
    assert Drop(s, 2) == HalfDrained(half);
  }

  /** `SecondStreamCarriesOn`: the second stream loses the two bytes left to ignore, in
      the middle of its first sample. */
  lemma SecondStreamLosesBytes(half: Bytes, d: Bytes)
    requires |half| == 2 && |d| == 4
    ensures var ended := Step(CD, Step(CD, Init([], START), Play(Reading(half, ONE_LATE, ONE_LATE))), ATEND);
            var t := Step(CD, Restart(ended, []), Play(Reading(d, ONE_LATE, ONE_LATE)));
            && !ended.open
            && t.dropped == d[..2] && t.sink == [Audio(d[2..], false, true)]
  {
    HalfSampleDrained(half);
    FinishesAtEnd(CD, HalfDrained(half));
    var s := Restart(Finish(HalfDrained(half)), []);
    DropsTwoMore(s, d);
    hide Step;
  }

  lemma DropsTwoMore(s: State, d: Bytes)
    requires s.open && !s.paused && !s.stopping && !s.isNew && s.readCount == 1 && !s.written && s.startTs.sec != 0
    requires s.toRemove == 4 && s.removed == 2 && s.evbuf == s.dropped == [] && s.sink == [] && |d| == 4
    ensures var t := Step(CD, s, Play(Reading(d, ONE_LATE, ONE_LATE)));
            t.dropped == d[..2] && t.sink == [Audio(d[2..], false, true)]
  {
    hide Schedule, HoldsBack, DeltaMs;
    var r := Received(s, d);
    assert r.evbuf == d;
    assert Release(r, false).dropped == d[..2] && Release(r, false).sink == [Audio(d[2..], false, true)];
  }
}
