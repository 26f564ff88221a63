/** Holding audio back until the start is near, and the flags the command thread
    sets. */
module PlaybackGate {
  import opened Common
  import opened Timespec
  import opened Playback
  import opened PlaybackRuns

  function Window(c: Config): int {
    c.latencyMs + c.inputWriteMs
  }

  /** The unsigned comparison lets exactly the window [0, latency + input_write]
      through if and only if that sum is in [0, 2^63).  A larger or negative sum
      opens the gate to other times. */
  lemma GateIsWindow(c: Config)
    requires c.Valid()
    ensures (forall d | -TWO63 <= d < TWO63 :: !HoldsBack(c, d) <==> 0 <= d <= Window(c))
            <==> 0 <= Window(c) < TWO63
  {
    var w := Window(c);
    if 0 <= w < TWO63 {
      forall d | -TWO63 <= d < TWO63
        ensures !HoldsBack(c, d) <==> 0 <= d <= w
      {
        assert d % TWO64 == if d >= 0 then d else d + TWO64;
      }
    } else if w < 0 {
      assert !HoldsBack(c, 0);
    } else if w < TWO64 {
      assert !HoldsBack(c, -TWO63);
    } else {
      assert w % TWO64 == w - TWO64;
      assert HoldsBack(c, TWO63 - 1);
    }
  }

  predicate InI64(d: int) {
    -TWO63 <= d < TWO63
  }

  /** The milliseconds the gate compares are the time to go in nanoseconds, cut off
      toward zero. */
  lemma DeltaIsWholeMs(start: Timespec, now: Timespec)
    ensures var ns, ms := start.Nanos() - now.Nanos(), DeltaMs(start, now);
            && (ns >= 0 ==> ms * NS_PER_MS <= ns < (ms + 1) * NS_PER_MS)
            && (ns < 0 ==> (ms - 1) * NS_PER_MS < ns <= ms * NS_PER_MS)
            && (InI64(ms) <==> InReach(start, now))
  {
  }

  /** The difference in milliseconds fits an int64_t. */
  predicate InReach(start: Timespec, now: Timespec) {
    -(TWO63 + 1) * NS_PER_MS < start.Nanos() - now.Nanos() < TWO63 * NS_PER_MS
  }

  /** The gate in nanoseconds: it lets a call through exactly from the end of the window
      before the start up to one millisecond after the start. */
  lemma GateInNanos(c: Config, start: Timespec, now: Timespec)
    requires c.Valid() && 0 <= Window(c) < TWO63 && InReach(start, now)
    ensures !HoldsBack(c, DeltaMs(start, now)) <==>
            -NS_PER_MS < start.Nanos() - now.Nanos() < (Window(c) + 1) * NS_PER_MS
  {
    DeltaIsWholeMs(start, now);
    GateIsWindow(c);
    hide HoldsBack, DeltaMs;
    var d := DeltaMs(start, now);
    assert !HoldsBack(c, d) <==> 0 <= d <= Window(c);
  }

  /** A first write that did not move the start time came through the gate, so
      the call's clock lay inside the window. */
  lemma FirstWriteInWindow(c: Config, start: Timespec, s: State, env: Env)
    requires c.Valid() && Inv(c, start, s) && s.open && env.Valid() && start.sec != 0
    requires 0 <= Window(c) < TWO63
    requires env.now.Reading? ==> InReach(start, env.now.ts)
    requires !s.written && PlayStep(c, s, env).0.written && PlayStep(c, s, env).0.startTs == start
    ensures env.now.Reading?
    ensures -NS_PER_MS < start.Nanos() - env.now.ts.Nanos() < (Window(c) + 1) * NS_PER_MS
  {
    assert s.startTs == start;
    var r := Received(s, env.read.bytes);
    var q := if r.readCount == 1 then Schedule(c, r, env.first.ts) else r;
    assert q.startTs == start && !q.written;
    ReceivedInv(c, start, s, env.read.bytes);
    if r.readCount == 1 {
      ScheduleInv(c, start, r, env.first.ts);
    }
    CommenceInWindow(c, start, q, s.isNew, env);
  }

  lemma CommenceInWindow(c: Config, start: Timespec, s: State, metadata: bool, env: Env)
    requires c.Valid() && Inv(c, start, s) && start.sec != 0 && !s.written
    requires 0 <= Window(c) < TWO63
    requires env.now.Reading? ==> InReach(start, env.now.ts)
    requires Commence(c, s, metadata, env).0.written && Commence(c, s, metadata, env).0.startTs == start
    ensures env.now.Reading?
    ensures -NS_PER_MS < start.Nanos() - env.now.ts.Nanos() < (Window(c) + 1) * NS_PER_MS
  {
    assert s.startTs == start && (s.toRemove > 0 ==> start != s.earliest);
    hide Inv, DeltaMs, Drop, HoldsBack;
    if env.now.Reading? {
      GateInNanos(c, start, env.now.ts);
    }
  }

  /** Every difference the calls of a run can compute fits an int64_t. */
  predicate InRange(start: Timespec, events: seq<Event>) {
    forall e <- events :: e.Play? && e.env.now.Reading? ==> InReach(start, e.env.now.ts)
  }

  lemma StepInWindow(c: Config, start: Timespec, s: State, e: Event)
    requires c.Valid() && Inv(c, start, s) && start.sec != 0 && (e.Play? ==> e.env.Valid())
    requires 0 <= Window(c) < TWO63 && InRange(start, [e])
    requires !s.written && Step(c, s, e).written && Step(c, s, e).startTs == start
    ensures e.Play? && e.env.now.Reading?
    ensures -NS_PER_MS < start.Nanos() - e.env.now.ts.Nanos() < (Window(c) + 1) * NS_PER_MS
  {
    assert e in [e];
    hide Inv, PlayStep;
    FirstWriteInWindow(c, start, s, e.env);
  }

  lemma {:induction false} FirstWriteFrom(c: Config, start: Timespec, s: State, events: seq<Event>) returns (k: nat)
    requires c.Valid() && Inv(c, start, s) && EventsOk(events) && start.sec != 0 && !s.written
    requires 0 <= Window(c) < TWO63 && InRange(start, events)
    requires Run(c, s, events).written && Run(c, s, events).startTs == start
    ensures k < |events| && events[k].Play? && events[k].env.now.Reading?
    ensures !Run(c, s, events[..k]).written && Run(c, s, events[..k + 1]).written
    ensures -NS_PER_MS < start.Nanos() - events[k].env.now.ts.Nanos() < (Window(c) + 1) * NS_PER_MS
    decreases |events|
  {
    hide Inv, Step;
    var next, rest := Step(c, s, events[0]), events[1..];
    StepInv(c, start, s, events[0]);
    PrefixRun(c, s, events, 0);
    if next.written {
      WrittenRun(c, next, rest);
      StepInWindow(c, start, s, events[0]);
      assert rest[..0] == [];
      return 0;
    }
    k := FirstWriteFrom(c, start, next, rest);
    PrefixRun(c, s, events, k);
    PrefixRun(c, s, events, k + 1);
    k := k + 1;
  }

  /** Over every run from priming on: if audio was written and the start did not
      move, the call that wrote first (number k) read a clock inside the window. */
  lemma FirstWriteOfRun(c: Config, primed: Bytes, start: Timespec, events: seq<Event>) returns (k: nat)
    requires c.Valid() && start.Normal() && EventsOk(events) && start.sec != 0
    requires 0 <= Window(c) < TWO63 && InRange(start, events)
    requires var s := Run(c, Init(primed, start), events); s.written && s.startTs == start
    ensures k < |events| && events[k].Play? && events[k].env.now.Reading?
    ensures !Run(c, Init(primed, start), events[..k]).written && Run(c, Init(primed, start), events[..k + 1]).written
    ensures -NS_PER_MS < start.Nanos() - events[k].env.now.ts.Nanos() < (Window(c) + 1) * NS_PER_MS
  {
    InitInv(c, primed, start);
    hide Inv, Run;
    k := FirstWriteFrom(c, start, Init(primed, start), events);
  }

  /** Every clock reading from here on is past `start` by a millisecond or more. */
  predicate Missed(start: Timespec, events: seq<Event>) {
    forall e <- events :: e.Play? && e.env.now.Reading? ==>
      NS_PER_MS <= e.env.now.ts.Nanos() - start.Nanos() < (TWO63 + 1) * NS_PER_MS
  }

  /** A clock that does not go back keeps a missed start missed: the gate stays shut. */
  lemma MissedStaysMissed(c: Config, start: Timespec, t0: Timespec, t1: Timespec)
    requires c.Valid() && 0 <= Window(c) < TWO63
    requires NS_PER_MS <= t0.Nanos() - start.Nanos() && t0.Nanos() <= t1.Nanos() && InReach(start, t1)
    ensures HoldsBack(c, DeltaMs(start, t1))
  {
    GateInNanos(c, start, t1);
  }

  /** Nothing left to ignore, nothing written yet, start time not moved. */
  predicate Waiting(start: Timespec, s: State) {
    Drained(start, s) && !s.written && start.sec != 0 && forall w <- s.sink :: !w.Audio?
  }

  lemma WaitingStep(c: Config, start: Timespec, s: State, e: Event)
    requires c.Valid() && Waiting(start, s) && 0 <= Window(c) < TWO63
    requires Missed(start, [e])
    ensures Waiting(start, Step(c, s, e))
  {
    hide DeltaMs, HoldsBack, Schedule;
    if e.Play? && e.env.now.Reading? {
      assert e in [e];
      GateInNanos(c, start, e.env.now.ts);
    }
  }

  /** Once the start has been missed while waiting, for instance after a drop that
      ended exactly at the end of the buffer, no audio is ever written again: the
      negative difference compares as a huge number and the data only piles up
      until EOF, STOP or a read error. */
  lemma {:induction false} MissedStartStarves(c: Config, start: Timespec, s: State, events: seq<Event>)
    requires c.Valid() && Waiting(start, s) && 0 <= Window(c) < TWO63
    requires Missed(start, events)
    ensures Waiting(start, Run(c, s, events))
    decreases |events|
  {
    hide Step, Waiting;
    if events != [] {
      WaitingStep(c, start, s, events[0]);
      MissedStartStarves(c, start, Step(c, s, events[0]), events[1..]);
    }
  }

  // ---------- Flags ----------

  lemma PausedStep(c: Config, s: State, e: Event)
    requires s.paused && !e.Resume?
    ensures var t := Step(c, s, e);
            t == s.(stopping := s.stopping || e.Stop?, isNew := s.isNew || e.Notify?)
  {
    hide AfterRead, Finish, Break;
  }

  /** While paused nothing moves, not even on STOP: play() tests the pause flag
      first.  The STOP is remembered. */
  lemma {:induction false} PausedNothingMoves(c: Config, s: State, events: seq<Event>)
    requires s.paused && Resume !in events
    ensures var t := Run(c, s, events);
            t == s.(stopping := s.stopping || Stop in events, isNew := s.isNew || Notify in events)
    decreases |events|
  {
    hide Step;
    if events != [] {
      PausedStep(c, s, events[0]);
      PausedNothingMoves(c, Step(c, s, events[0]), events[1..]);
    }
  }

  /** Some call of the run comes while the pause flag is clear. */
  predicate Heard(paused: bool, events: seq<Event>)
    decreases |events|
  {
    events != []
    && ((events[0].Play? && !paused) || Heard(PausedAfter(paused, events[0]), events[1..]))
  }

  function PausedAfter(paused: bool, e: Event): bool {
    e.Pause? || (paused && !e.Resume?)
  }

  lemma StoppedStep(c: Config, s: State, e: Event)
    requires s.open && s.stopping
    ensures var t := Step(c, s, e);
            && t.stopping && t.paused == PausedAfter(s.paused, e)
            && (e.Play? && !s.paused ==> !t.open && t.sink == s.sink + [EndOfStream(s.evbuf)] && t.evbuf == [])
            && (!(e.Play? && !s.paused) ==> t.open && t.sink == s.sink && t.evbuf == s.evbuf)
  {
    hide AfterRead;
  }

  lemma {:induction false} ClosedRun(c: Config, s: State, events: seq<Event>)
    requires !s.open
    ensures var t := Run(c, s, events); !t.open && t.sink == s.sink && t.evbuf == s.evbuf
    decreases |events|
  {
    if events != [] {
      ClosedRun(c, Step(c, s, events[0]), events[1..]);
    }
  }

  /** After STOP the stream ends if and only if some call comes while the pause flag is
      clear: the first such call writes what is buffered with the EOF flag, and
      nothing follows.  Until then nothing is read and nothing written. */
  lemma {:induction false} PauseOutranksStop(c: Config, s: State, events: seq<Event>)
    requires s.open && s.stopping
    ensures var t := Run(c, s, events);
            && (t.open <==> !Heard(s.paused, events))
            && t.sink == (if Heard(s.paused, events) then s.sink + [EndOfStream(s.evbuf)] else s.sink)
            && t.evbuf == (if Heard(s.paused, events) then [] else s.evbuf)
    decreases |events|
  {
    hide Step;
    if events != [] {
      var next := Step(c, s, events[0]);
      StoppedStep(c, s, events[0]);
      if next.open {
        PauseOutranksStop(c, next, events[1..]);
      } else {
        ClosedRun(c, next, events[1..]);
      }
    }
  }
}
