/** A second stream in the same process: setup() makes a new buffer, but the counters
    of play() are static variables and no code clears them or the stop flag. */
module PlaybackRestart {
  import opened Common
  import opened Timespec
  import opened Playback
  import opened PlaybackRuns
  import opened PlaybackGate

  /** Everything but the buffer is kept; the histories start afresh. */
  function Restart(s: State, primed: Bytes): State {
    s.(evbuf := primed, open := true, sink := [], got := primed, dropped := [], lost := [])
  }

  /** What a first stream would start from, under the same flags. */
  function Fresh(s: State, start: Timespec, primed: Bytes): State {
    Init(primed, start).(paused := s.paused, stopping := s.stopping, isNew := s.isNew)
  }

  // ---------- When it delivers what a first stream would ----------

  /** Before the first read nothing has changed but the flags. */
  predicate Untouched(start: Timespec, s: State) {
    s.readCount == 0 ==>
      s.toRemove == 0 && s.removed == 0 && !s.written && s.startTs == start && s.earliest == Timespec(0, 0)
  }

  lemma ReadingTouches(c: Config, s: State, metadata: bool, env: Env)
    requires s.readCount > 0
    ensures AfterRead(c, s, metadata, env).0.readCount > 0
  {
    hide Commence, Earliest, LateBytes;
    CommenceKeeps(c, s, metadata, env);
    if env.first.Reading? {
      CommenceKeeps(c, Schedule(c, s, env.first.ts), metadata, env);
    }
  }

  lemma UntouchedStep(c: Config, start: Timespec, s: State, e: Event)
    requires Untouched(start, s)
    ensures Untouched(start, Step(c, s, e))
  {
    hide AfterRead;
    if e.Play? && e.env.read.Data? {
      ReadingTouches(c, Received(s, e.env.read.bytes), s.isNew, e.env);
    }
  }

  lemma {:induction false} UntouchedRun(c: Config, start: Timespec, s: State, events: seq<Event>)
    requires Untouched(start, s)
    ensures Untouched(start, Run(c, s, events))
    decreases |events|
  {
    hide Step, Untouched;
    if events != [] {
      UntouchedStep(c, start, s, events[0]);
      UntouchedRun(c, start, Step(c, s, events[0]), events[1..]);
    }
  }

  /** Without a start time, the counters do not matter. */
  predicate SameUnscheduled(s: State, t: State) {
    && s.startTs.sec == 0 == t.startTs.sec
    && s.evbuf == t.evbuf && s.sink == t.sink && s.open == t.open
    && s.paused == t.paused && s.stopping == t.stopping && s.isNew == t.isNew
  }

  lemma SameUnscheduledStep(c: Config, s: State, t: State, e: Event)
    requires SameUnscheduled(s, t)
    ensures SameUnscheduled(Step(c, s, e), Step(c, t, e))
  {
    hide DropStep, GateStep, Schedule;
  }

  lemma {:induction false} SameUnscheduledRun(c: Config, s: State, t: State, events: seq<Event>)
    requires SameUnscheduled(s, t)
    ensures SameUnscheduled(Run(c, s, events), Run(c, t, events))
    decreases |events|
  {
    hide Step, SameUnscheduled;
    if events != [] {
      SameUnscheduledStep(c, s, t, events[0]);
      SameUnscheduledRun(c, Step(c, s, events[0]), Step(c, t, events[0]), events[1..]);
    }
  }

  /** Whatever is primed and whatever happens, the sink gets the same. */
  predicate DeliversAsFresh(c: Config, start: Timespec, s: State, primed: Bytes, later: seq<Event>) {
    Run(c, Restart(s, primed), later).sink == Run(c, Fresh(s, start, primed), later).sink
  }

  lemma AlikeIf(c: Config, start: Timespec, s: State, primed: Bytes, later: seq<Event>)
    requires Inv(c, start, s) && Untouched(start, s)
    requires s.readCount == 0 || start.sec == 0 || s.stopping
    ensures DeliversAsFresh(c, start, s, primed, later)
  {
    var second, anew := Restart(s, primed), Fresh(s, start, primed);
    assert start.sec == 0 ==> s.startTs == start;
    hide Inv, Run;
    if s.stopping {
      PauseOutranksStop(c, second, later);
      PauseOutranksStop(c, anew, later);
    } else if start.sec == 0 {
      SameUnscheduledRun(c, second, anew, later);
    } else {
      assert second == anew;
    }
  }

  /** A call that tells the two apart: enough is primed to end any drop, the clock
      for a schedule fails, and the start is now. */
  function Probe(start: Timespec): Event {
    Play(Env(Data([0]), true, Failed, Reading(start)))
  }

  function ProbePrimed(s: State): Bytes {
    seq(s.toRemove, i => 0)
  }

  lemma FreshWaits(c: Config, s: State, start: Timespec)
    requires s.open && !s.paused && !s.stopping && s.readCount == 0 && start.sec != 0 && s.startTs == start
    ensures Step(c, s, Probe(start)).sink == s.sink
  {
  }

  lemma StartIsNow(c: Config, start: Timespec)
    ensures !HoldsBack(c, DeltaMs(start, start))
  {
  }

  lemma OldWrites(c: Config, s: State, start: Timespec)
    requires s.open && !s.paused && !s.stopping && s.readCount > 0
    requires s.removed <= s.toRemove <= |s.evbuf| && (!s.written ==> s.startTs == start)
    ensures |Step(c, s, Probe(start)).sink| == |s.sink| + 1
  {
    StartIsNow(c, start);
    hide HoldsBack, DeltaMs, Schedule;
  }

  lemma ApartOtherwise(c: Config, start: Timespec, s: State)
    requires Inv(c, start, s) && start.Normal()
    requires s.readCount > 0 && start.sec != 0 && !s.stopping
    ensures EventsOk([Resume, Probe(start)])
    ensures !DeliversAsFresh(c, start, s, ProbePrimed(s), [Resume, Probe(start)])
  {
    var second, anew := Restart(s, ProbePrimed(s)), Fresh(s, start, ProbePrimed(s));
    RunOfTwo(c, second, Resume, Probe(start));
    RunOfTwo(c, anew, Resume, Probe(start));
    OldWrites(c, second.(paused := false), start);
    FreshWaits(c, anew.(paused := false), start);
    assert Step(c, second, Resume) == second.(paused := false) && Step(c, anew, Resume) == anew.(paused := false);
    hide Inv, Run, PlayStep;
  }

  /** After any first stream: the second one delivers, for everything primed and
      everything that happens later, what a first stream would under the same flags,
      if and only if the first one never read data, there is no start time, or a
      STOP came. */
  lemma RestartIsFresh(c: Config, first: Bytes, start: Timespec, events: seq<Event>)
    requires c.Valid() && start.Normal() && EventsOk(events)
    ensures var s := Run(c, Init(first, start), events);
            (forall primed, later | EventsOk(later) :: DeliversAsFresh(c, start, s, primed, later))
            <==> s.readCount == 0 || start.sec == 0 || s.stopping
  {
    var s := Run(c, Init(first, start), events);
    InitInv(c, first, start);
    RunInv(c, start, Init(first, start), events);
    UntouchedRun(c, start, Init(first, start), events);
    hide Inv, Run, Untouched, DeliversAsFresh, EventsOk;
    if s.readCount == 0 || start.sec == 0 || s.stopping {
      forall primed, later | EventsOk(later)
        ensures DeliversAsFresh(c, start, s, primed, later)
      {
        AlikeIf(c, start, s, primed, later);
      }
    } else {
      ApartOtherwise(c, start, s);
    }
  }

  // ---------- After a stream that was played ----------

  /** Nothing is scheduled, marked or ignored. */
  predicate Unsynced(s: State) {
    && s.written && s.readCount > 0 && s.dropped == []
    && s.got == Delivered(s.sink) + s.evbuf + s.lost
    && (s.open ==> s.lost == [])
    && (forall i :: 0 <= i < |s.sink| && s.sink[i].Audio? ==> !s.sink[i].sync)
  }

  lemma UnsyncedRead(c: Config, s: State, bytes: Bytes, env: Env)
    requires Unsynced(s) && s.open
    ensures Unsynced(AfterRead(c, Received(s, bytes), s.isNew, env).0)
  {
    hide Schedule, DropStep, GateStep, Delivered;
    DeliveredSnoc(s.sink, Audio(s.evbuf + bytes, s.isNew, false));
    var t := Emit(Received(s, bytes), s.isNew, false);
    assert t.got == s.got + bytes == Delivered(t.sink) + t.evbuf + t.lost;
  }

  lemma UnsyncedStep(c: Config, s: State, e: Event)
    requires Unsynced(s)
    ensures Unsynced(Step(c, s, e))
  {
    hide AfterRead, Delivered;
    if e.Play? && s.open {
      DeliveredSnoc(s.sink, EndOfStream(s.evbuf));
      DeliveredSnoc(s.sink, Failure);
      if e.env.read.Data? {
        UnsyncedRead(c, s, e.env.read.bytes, e.env);
      }
    }
  }

  lemma {:induction false} UnsyncedRun(c: Config, s: State, events: seq<Event>)
    requires Unsynced(s)
    ensures Unsynced(Run(c, s, events))
    decreases |events|
  {
    hide Step, Unsynced;
    if events != [] {
      UnsyncedStep(c, s, events[0]);
      UnsyncedRun(c, Step(c, s, events[0]), events[1..]);
    }
  }

  /** After a first stream that wrote audio: the second is written as it is read, from
      its first byte, without a schedule and without a SYNC mark, whatever the start
      time. */
  lemma SecondStreamUnsynced(c: Config, first: Bytes, start: Timespec, earlier: seq<Event>,
                             primed: Bytes, events: seq<Event>)
    requires c.Valid() && start.Normal() && EventsOk(earlier)
    requires Run(c, Init(first, start), earlier).written
    ensures var s := Restart(Run(c, Init(first, start), earlier), primed);
            var t := Run(c, s, events);
            && primed + Consumed(c, s, events) == Delivered(t.sink) + t.evbuf + t.lost
            && (forall i :: 0 <= i < |t.sink| && t.sink[i].Audio? ==> !t.sink[i].sync)
            && t.toRemove == s.toRemove && t.earliest == s.earliest
  {
    var s := Restart(Run(c, Init(first, start), earlier), primed);
    InitInv(c, first, start);
    RunInv(c, start, Init(first, start), earlier);
    assert [] + primed + [] == primed;
    assert Unsynced(s);
    hide Run, Inv, Consumed;
    UnsyncedRun(c, s, events);
    GotIsConsumed(c, s, events);
    ScheduleIsFinal(c, s, events);
  }

  /** ... and each of its calls that reads data writes at once. */
  lemma SecondStreamWritesAtOnce(c: Config, s: State, bytes: Bytes, env: Env)
    requires s.written && s.readCount > 0 && s.open && !s.paused && !s.stopping && env.read == Data(bytes)
    ensures PlayStep(c, s, env).0.sink == s.sink + [Audio(s.evbuf + bytes, s.isNew, false)]
  {
  }

  // ---------- After a stream that read data ----------

  /** The second stream goes on with what the first one left to ignore. */
  predicate CarriedOn(s: State, t: State) {
    && t.readCount > 0 && t.toRemove == s.toRemove && t.earliest == s.earliest
    && s.removed <= t.removed <= t.toRemove && |t.dropped| == t.removed - s.removed
    && (t.written ==> t.removed == t.toRemove)
    && (t.removed < t.toRemove ==> t.startTs.sec != 0)
    && t.got == t.dropped + Delivered(t.sink) + t.evbuf + t.lost
    && (t.open ==> t.lost == [])
    && (t.open && !t.written ==> t.sink == [])
  }

  lemma EmitCarriesOn(s: State, t: State, metadata: bool, sync: bool)
    requires CarriedOn(s, t) && t.open && t.removed == t.toRemove
    ensures CarriedOn(s, Emit(t, metadata, sync))
  {
    DeliveredSnoc(t.sink, Audio(t.evbuf, metadata, sync));
  }

  lemma DropCarriesOn(s: State, t: State, n: nat)
    requires CarriedOn(s, t) && t.open && !t.written && n <= |t.evbuf| && t.removed + n <= t.toRemove
    ensures CarriedOn(s, Drop(t, n))
  {
    assert t.got == t.dropped + t.evbuf;
    SplitPrefix(t.dropped, t.evbuf, n);
    assert Drop(t, n).got == Drop(t, n).dropped + Drop(t, n).evbuf;
  }

  lemma ReleaseCarriesOn(s: State, t: State, metadata: bool)
    requires CarriedOn(s, t) && t.open && !t.written && 0 < t.toRemove - t.removed < |t.evbuf|
    ensures CarriedOn(s, Release(t, metadata))
  {
    hide Delivered;
    var need := t.toRemove - t.removed;
    DropCarriesOn(s, t, need);
    var d := Drop(t, need).(startTs := t.earliest);
    assert CarriedOn(s, d);
    EmitCarriesOn(s, d, metadata, true);
  }

  lemma CommenceCarriesOn(c: Config, s: State, t: State, metadata: bool, env: Env)
    requires CarriedOn(s, t) && t.open
    ensures CarriedOn(s, Commence(c, t, metadata, env).0)
  {
    assert t.written || t.startTs.sec == 0 ==> t.removed == t.toRemove;
    assert t.removed <= t.toRemove;
    hide HoldsBack, DeltaMs, Emit, Delivered, CarriedOn, Drop, Release;
    var need := t.toRemove - t.removed;
    if need == 0 {
      EmitCarriesOn(s, t, metadata, false);
      EmitCarriesOn(s, t, metadata, true);
    } else if need < |t.evbuf| {
      ReleaseCarriesOn(s, t, metadata);
    } else {
      DropCarriesOn(s, t, |t.evbuf|);
    }
  }

  lemma ReceivedCarriesOn(s: State, t: State, bytes: Bytes)
    requires CarriedOn(s, t) && t.open
    ensures CarriedOn(s, Received(t, bytes))
  {
    hide Delivered;
  }

  lemma EndCarriesOn(s: State, t: State)
    requires CarriedOn(s, t) && t.open
    ensures CarriedOn(s, Finish(t)) && CarriedOn(s, Break(t))
  {
    DeliveredSnoc(t.sink, EndOfStream(t.evbuf));
    DeliveredSnoc(t.sink, Failure);
    hide Delivered;
  }

  lemma FlagsCarryOn(s: State, t: State, paused: bool, stopping: bool, isNew: bool)
    requires CarriedOn(s, t)
    ensures CarriedOn(s, t.(paused := paused, stopping := stopping, isNew := isNew))
  {
    hide Delivered;
  }

  lemma CallCarriesOn(c: Config, s: State, t: State, env: Env)
    requires CarriedOn(s, t) && t.open
    ensures CarriedOn(s, PlayStep(c, t, env).0)
  {
    assert t.readCount > 0;
    hide Commence, CarriedOn, Finish, Break;
    EndCarriesOn(s, t);
    if env.read.Data? {
      var r := Received(t, env.read.bytes);
      ReceivedCarriesOn(s, t, env.read.bytes);
      CommenceCarriesOn(c, s, r, t.isNew, env);
    }
  }

  lemma StepCarriesOn(c: Config, s: State, t: State, e: Event)
    requires CarriedOn(s, t)
    ensures CarriedOn(s, Step(c, t, e))
  {
    hide PlayStep, CarriedOn;
    FlagsCarryOn(s, t, e.Pause? || (t.paused && !e.Resume?), t.stopping || e.Stop?, t.isNew || e.Notify?);
    if e.Play? && t.open {
      CallCarriesOn(c, s, t, e.env);
    }
  }

  lemma {:induction false} RunCarriesOn(c: Config, s: State, t: State, events: seq<Event>)
    requires CarriedOn(s, t)
    ensures CarriedOn(s, Run(c, t, events))
    decreases |events|
  {
    hide Step, CarriedOn;
    if events != [] {
      StepCarriesOn(c, s, t, events[0]);
      RunCarriesOn(c, s, Step(c, t, events[0]), events[1..]);
    }
  }

  /** After every first stream that read data: the second one keeps the old schedule
      and ignores, of its own audio, exactly what the first one left to ignore; the
      rest is delivered in order. */
  lemma SecondStreamCarriesOn(c: Config, first: Bytes, start: Timespec, earlier: seq<Event>,
                              primed: Bytes, events: seq<Event>)
    requires c.Valid() && start.Normal() && EventsOk(earlier)
    requires Run(c, Init(first, start), earlier).readCount > 0
    ensures var s := Run(c, Init(first, start), earlier);
            var t := Run(c, Restart(s, primed), events);
            && t.toRemove == s.toRemove && t.earliest == s.earliest && s.removed <= s.toRemove
            && primed + Consumed(c, Restart(s, primed), events) == t.dropped + Delivered(t.sink) + t.evbuf + t.lost
            && |t.dropped| <= s.toRemove - s.removed
            && (t.written ==> |t.dropped| == s.toRemove - s.removed)
  {
    var s := Run(c, Init(first, start), earlier);
    InitInv(c, first, start);
    RunInv(c, start, Init(first, start), earlier);
    var second := Restart(s, primed);
    assert [] + [] + primed + [] == primed;
    assert CarriedOn(s, second);
    hide Run, Inv, Consumed, Delivered;
    RunCarriesOn(c, s, second, events);
    GotIsConsumed(c, second, events);
  }

  /** After a stream that was stopped: the second one ends with its first call that is
      not paused, and what was primed is all it ever gives. */
  lemma SecondStreamStopped(c: Config, s: State, primed: Bytes, events: seq<Event>)
    requires s.stopping
    ensures var t := Run(c, Restart(s, primed), events);
            t.sink == if Heard(s.paused, events) then [EndOfStream(primed)] else []
  {
    PauseOutranksStop(c, Restart(s, primed), events);
  }
}
