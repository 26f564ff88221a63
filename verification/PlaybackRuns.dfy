/** What every run of setup() and play() keeps. */
module PlaybackRuns {
  import opened Common
  import opened Timespec
  import opened Playback

  /** Kept by every step; `start` is the requested start time. */
  ghost predicate Inv(c: Config, start: Timespec, s: State) {
    && Stream(s) && Counters(c, start, s) && Sink(start, s)
  }

  /** Conservation: nothing read is lost, invented or reordered. */
  ghost predicate Stream(s: State) {
    && s.got == s.dropped + Delivered(s.sink) + s.evbuf + s.lost
    && |s.dropped| == s.removed
    && (s.lost != [] ==> s.sink != [] && s.sink[|s.sink| - 1].Failure?)
  }

  ghost predicate Counters(c: Config, start: Timespec, s: State) {
    && s.startTs.Normal() && s.earliest.Normal()
    && s.removed <= s.toRemove
    && (s.readCount == 0 ==> s.toRemove == 0 && !s.written)
    && (!s.written ==> s.startTs == start)
    && (s.written ==> s.removed == s.toRemove)
    && (start.sec == 0 ==> s.toRemove == 0)
    && (s.toRemove > 0 ==> s.toRemove == LateBytes(c, s.earliest, start))
    && (s.startTs != start ==> s.startTs == s.earliest && s.toRemove > 0)
  }

  ghost predicate Sink(start: Timespec, s: State) {
    && (s.written <==> s.sink != [] && s.sink[0].Audio?)
    && (forall i :: 0 <= i < |s.sink| - 1 ==> s.sink[i].Audio?)
    && (forall i :: 0 <= i < |s.sink| && s.sink[i].Audio? ==> (s.sink[i].sync <==> i == 0 && start.sec != 0))
    && (s.open <==> s.sink == [] || s.sink[|s.sink| - 1].Audio?)
    && (!s.open ==> s.evbuf == [])
  }

  lemma DeliveredSnoc(sink: seq<Write>, w: Write)
    ensures Delivered(sink + [w]) == Delivered(sink) + if w.Failure? then [] else w.data
  {
    assert (sink + [w])[..|sink|] == sink;
  }

  lemma InitInv(c: Config, primed: Bytes, start: Timespec)
    requires start.Normal()
    ensures Inv(c, start, Init(primed, start))
  {
  }

  lemma FinishInv(c: Config, start: Timespec, s: State)
    requires Inv(c, start, s) && s.open
    ensures Inv(c, start, Finish(s))
  {
    hide LateBytes;
    DeliveredSnoc(s.sink, EndOfStream(s.evbuf));
  }

  lemma BreakInv(c: Config, start: Timespec, s: State)
    requires Inv(c, start, s) && s.open
    ensures Inv(c, start, Break(s))
  {
    hide LateBytes;
    DeliveredSnoc(s.sink, Failure);
  }

  lemma EmitInv(c: Config, start: Timespec, s: State, metadata: bool, sync: bool)
    requires Stream(s) && Sink(start, s) && s.open
    requires sync <==> !s.written && start.sec != 0
    ensures Stream(Emit(s, metadata, sync)) && Sink(start, Emit(s, metadata, sync))
  {
    DeliveredSnoc(s.sink, Audio(s.evbuf, metadata, sync));
  }

  lemma DropInv(s: State, n: nat)
    requires Stream(s) && s.sink == [] && s.lost == [] && n <= |s.evbuf|
    ensures Stream(Drop(s, n))
  {
    assert s.got == s.dropped + s.evbuf;
    SplitPrefix(s.dropped, s.evbuf, n);
    assert Drop(s, n).got == Drop(s, n).dropped + Drop(s, n).evbuf;
  }

  lemma SplitPrefix(a: Bytes, b: Bytes, n: nat)
    requires n <= |b|
    ensures a + b == (a + b[..n]) + b[n..]
  {
  }

  lemma EmitPhaseInv(c: Config, start: Timespec, s: State, metadata: bool, sync: bool)
    requires Inv(c, start, s) && s.open && s.readCount > 0 && s.removed == s.toRemove
    requires sync <==> !s.written && start.sec != 0
    ensures Inv(c, start, Emit(s, metadata, sync))
  {
    hide LateBytes;
    EmitInv(c, start, s, metadata, sync);
  }

  lemma DropAllInv(c: Config, start: Timespec, s: State)
    requires Inv(c, start, s) && s.open && s.sink == [] && s.toRemove - s.removed >= |s.evbuf|
    requires s.readCount > 0
    ensures Inv(c, start, Drop(s, |s.evbuf|))
  {
    hide LateBytes;
    DropInv(s, |s.evbuf|);
  }

  lemma ReleaseInv(c: Config, start: Timespec, s: State, metadata: bool)
    requires Inv(c, start, s) && s.open && s.sink == []
    requires 0 < s.toRemove - s.removed < |s.evbuf| && s.readCount > 0 && start.sec != 0
    ensures Inv(c, start, Release(s, metadata))
  {
    hide LateBytes, Delivered;
    var need := s.toRemove - s.removed;
    DropInv(s, need);
    var d := Drop(s, need).(startTs := s.earliest);
    assert Stream(d) && Sink(start, d);
    EmitInv(c, start, d, metadata, true);
  }

  /** Dropping: the first write, if it comes, comes once the drop is complete. */
  lemma DropStepInv(c: Config, start: Timespec, s: State, metadata: bool, env: Env)
    requires Inv(c, start, s) && s.open && s.readCount > 0
    requires !s.written && start.sec != 0 && s.toRemove > s.removed
    ensures Inv(c, start, DropStep(s, metadata, env).0)
  {
    assert s.sink == [];
    hide Inv, Release, Drop;
    var need := s.toRemove - s.removed;
    if need >= |s.evbuf| {
      DropAllInv(c, start, s);
    } else {
      ReleaseInv(c, start, s, metadata);
    }
  }

  lemma GateStepInv(c: Config, start: Timespec, s: State, metadata: bool, env: Env)
    requires Inv(c, start, s) && s.open && s.readCount > 0
    requires !s.written && start.sec != 0 && s.toRemove == s.removed
    ensures Inv(c, start, GateStep(c, s, metadata, env).0)
  {
    hide Inv, HoldsBack, DeltaMs, Emit;
    EmitPhaseInv(c, start, s, metadata, true);
  }

  lemma CommenceInv(c: Config, start: Timespec, s: State, metadata: bool, env: Env)
    requires Inv(c, start, s) && s.open && s.readCount > 0
    ensures Inv(c, start, Commence(c, s, metadata, env).0)
  {
    assert s.written ==> s.removed == s.toRemove;
    assert !s.written ==> s.startTs == start;
    assert start.sec == 0 ==> s.toRemove == 0;
    assert s.removed <= s.toRemove;
    hide Inv, DropStep, GateStep, Emit;
    if s.written || s.startTs.sec == 0 {
      EmitPhaseInv(c, start, s, metadata, false);
    } else if s.toRemove > s.removed {
      DropStepInv(c, start, s, metadata, env);
    } else {
      GateStepInv(c, start, s, metadata, env);
    }
  }

  lemma ReceivedInv(c: Config, start: Timespec, s: State, bytes: Bytes)
    requires Inv(c, start, s) && s.open
    ensures Inv(c, start, Received(s, bytes))
  {
    hide LateBytes;
    assert s.lost == [];
  }

  /** The late bytes are fixed at the first read, before anything is dropped. */
  lemma ScheduleInv(c: Config, start: Timespec, s: State, first: Timespec)
    requires c.Valid() && Inv(c, start, s) && s.open && first.Normal()
    requires s.readCount == 1 && start.sec != 0 && !s.written && s.toRemove == 0
    ensures Inv(c, start, Schedule(c, s, first))
    ensures Schedule(c, s, first).open && Schedule(c, s, first).readCount == 1
  {
    hide LateBytes, Earliest;
  }

  lemma AfterReadInv(c: Config, start: Timespec, s: State, metadata: bool, env: Env)
    requires c.Valid() && Inv(c, start, s) && s.open && s.readCount > 0 && env.Valid()
    requires s.readCount == 1 ==> !s.written && s.toRemove == 0
    ensures Inv(c, start, AfterRead(c, s, metadata, env).0)
  {
    assert !s.written ==> s.startTs == start;
    hide Inv, Schedule, Commence;
    if s.readCount == 1 && s.startTs.sec != 0 {
      if env.first.Reading? {
        ScheduleInv(c, start, s, env.first.ts);
        CommenceInv(c, start, Schedule(c, s, env.first.ts), metadata, env);
      }
    } else {
      CommenceInv(c, start, s, metadata, env);
    }
  }

  lemma PlayInv(c: Config, start: Timespec, s: State, env: Env)
    requires c.Valid() && Inv(c, start, s) && s.open && env.Valid()
    ensures Inv(c, start, PlayStep(c, s, env).0)
  {
    assert s.readCount == 0 ==> !s.written && s.toRemove == 0;
    hide Inv, AfterRead, Finish, Break;
    FinishInv(c, start, s);
    if !s.paused && !s.stopping {
      if env.read.Data? {
        ReceivedInv(c, start, s, env.read.bytes);
        AfterReadInv(c, start, Received(s, env.read.bytes), s.isNew, env);
      } else {
        BreakInv(c, start, s);
      }
    }
  }

  lemma StepInv(c: Config, start: Timespec, s: State, e: Event)
    requires c.Valid() && Inv(c, start, s)
    requires e.Play? ==> e.env.Valid()
    ensures Inv(c, start, Step(c, s, e))
  {
    if e.Play? && s.open {
      hide PlayStep;
      PlayInv(c, start, s, e.env);
    }
  }

  lemma {:induction false} RunInv(c: Config, start: Timespec, s: State, events: seq<Event>)
    requires c.Valid() && Inv(c, start, s) && EventsOk(events)
    ensures Inv(c, start, Run(c, s, events))
    decreases |events|
  {
    hide Step, Inv;
    if events != [] {
      StepInv(c, start, s, events[0]);
      RunInv(c, start, Step(c, s, events[0]), events[1..]);
    }
  }

  lemma RunOfTwo(c: Config, s: State, a: Event, b: Event)
    ensures Run(c, s, [a, b]) == Step(c, Step(c, s, a), b)
  {
    hide Step;
    var s' := Step(c, s, a);
    assert [a, b][1..] == [b] && [b][1..] == [];
    assert Run(c, s', [b]) == Run(c, Step(c, s', b), []);
  }

  /** The run up to position k + 1 starts with one step. */
  lemma PrefixRun(c: Config, s: State, events: seq<Event>, k: nat)
    requires k < |events|
    ensures Run(c, s, events[..k + 1]) == Run(c, Step(c, s, events[0]), events[1..][..k])
    ensures Run(c, s, events[..0]) == s
  {
    hide Step;
    assert events[..k + 1][1..] == events[1..][..k];
  }

  /** After the first write the start time stays. */
  lemma WrittenStep(c: Config, s: State, e: Event)
    requires s.written
    ensures Step(c, s, e).written && Step(c, s, e).startTs == s.startTs
  {
    hide Schedule;
    if e.Play? && e.env.first.Reading? && e.env.read.Data? {
      ScheduleKeepsStart(c, Received(s, e.env.read.bytes), e.env.first.ts);
    }
  }

  lemma ScheduleKeepsStart(c: Config, s: State, first: Timespec)
    ensures Schedule(c, s, first).startTs == s.startTs && Schedule(c, s, first).written == s.written
  {
  }

  lemma {:induction false} WrittenRun(c: Config, s: State, events: seq<Event>)
    requires s.written
    ensures Run(c, s, events).startTs == s.startTs
    decreases |events|
  {
    hide Step;
    if events != [] {
      WrittenStep(c, s, events[0]);
      WrittenRun(c, Step(c, s, events[0]), events[1..]);
    }
  }

  // ---------- Conservation ----------

  /** What play() took from the descriptor, call by call, in one run. */
  function Consumed(c: Config, s: State, events: seq<Event>): Bytes
    decreases |events|
  {
    if events == [] then []
    else
      var e := events[0];
      (if e.Play? && s.open && !s.paused && !s.stopping && e.env.read.Data? then e.env.read.bytes else [])
      + Consumed(c, Step(c, s, e), events[1..])
  }

  /** Call by call, in order. */
  lemma {:induction false} ConsumedInOrder(c: Config, s: State, a: seq<Event>, b: seq<Event>)
    ensures Consumed(c, s, a + b) == Consumed(c, s, a) + Consumed(c, Run(c, s, a), b)
    decreases |a|
  {
    hide Step;
    if a == [] {
      assert a + b == b;
    } else {
      assert (a + b)[1..] == a[1..] + b;
      ConsumedInOrder(c, Step(c, s, a[0]), a[1..], b);
    }
  }

  lemma DropStepGot(s: State, metadata: bool, env: Env)
    requires s.toRemove > s.removed
    ensures DropStep(s, metadata, env).0.got == s.got
  {
  }

  lemma CommenceGot(c: Config, s: State, metadata: bool, env: Env)
    ensures Commence(c, s, metadata, env).0.got == s.got
  {
    hide DropStep, HoldsBack, DeltaMs;
    if s.toRemove > s.removed {
      DropStepGot(s, metadata, env);
    }
  }

  lemma AfterReadGot(c: Config, s: State, metadata: bool, env: Env)
    ensures AfterRead(c, s, metadata, env).0.got == s.got
  {
    hide Commence, LateBytes, Earliest;
    CommenceGot(c, s, metadata, env);
    if env.first.Reading? {
      CommenceGot(c, Schedule(c, s, env.first.ts), metadata, env);
    }
  }

  lemma StepGot(c: Config, s: State, e: Event)
    ensures Step(c, s, e).got == s.got + Consumed(c, s, [e])
  {
    hide AfterRead;
    if e.Play? && s.open && !s.paused && !s.stopping && e.env.read.Data? {
      AfterReadGot(c, Received(s, e.env.read.bytes), s.isNew, e.env);
    }
  }

  lemma {:induction false} GotIsConsumed(c: Config, s: State, events: seq<Event>)
    ensures Run(c, s, events).got == s.got + Consumed(c, s, events)
    decreases |events|
  {
    hide Step;
    if events != [] {
      StepGot(c, s, events[0]);
      GotIsConsumed(c, Step(c, s, events[0]), events[1..]);
    }
  }

  /** Every byte read during setup() and play() is, in order: ignored at the
      start, written to the sink, still buffered, or lost to a read error that
      closed the source.  What is ignored never exceeds what is due, and is all
      of it by the first audio write. */
  lemma Conservation(c: Config, primed: Bytes, start: Timespec, events: seq<Event>)
    requires c.Valid() && start.Normal() && EventsOk(events)
    ensures var i := Init(primed, start);
            var s := Run(c, i, events);
            && primed + Consumed(c, i, events) == s.dropped + Delivered(s.sink) + s.evbuf + s.lost
            && |s.dropped| == s.removed <= s.toRemove
            && (s.sink != [] && s.sink[0].Audio? ==> s.removed == s.toRemove)
            && (s.lost != [] ==> s.sink != [] && s.sink[|s.sink| - 1] == Failure)
  {
    InitInv(c, primed, start);
    RunInv(c, start, Init(primed, start), events);
    GotIsConsumed(c, Init(primed, start), events);
  }

  /** With a start time, the SYNC mark is on the first write if that is audio, and
      on no other; without one there is no mark.  EOF, STOP and read errors end
      the output: nothing follows them. */
  lemma SyncDiscipline(c: Config, primed: Bytes, start: Timespec, events: seq<Event>, i: nat)
    requires c.Valid() && start.Normal() && EventsOk(events)
    requires i < |Run(c, Init(primed, start), events).sink|
    ensures var sink := Run(c, Init(primed, start), events).sink;
            && (sink[i].Audio? ==> (sink[i].sync <==> i == 0 && start.sec != 0))
            && (!sink[i].Audio? ==> i == |sink| - 1)
            && (Run(c, Init(primed, start), events).open <==> sink[|sink| - 1].Audio?)
  {
    InitInv(c, primed, start);
    RunInv(c, start, Init(primed, start), events);
  }

  // ---------- A late start ----------

  /** Time of input sample n in units of 1/rate nanoseconds, if sample `first`
      is played at `start`. */
  function Due(c: Config, start: Timespec, first: nat, n: nat): int {
    start.Nanos() * c.rate + (n - first) * NS_PER_SEC
  }

  /** Sample n, played in a stream that starts with sample d at `actual`, is at
      least on its requested time and less than one sample period after it. */
  predicate OnTime(c: Config, start: Timespec, actual: Timespec, d: nat, n: nat) {
    0 <= Due(c, actual, d, n) - Due(c, start, 0, n) < NS_PER_SEC
  }

  /** The uint64_t product of the sample computation stays in range. */
  predicate NoWrap(c: Config, earliest: Timespec, start: Timespec) {
    c.rate * (earliest.Nanos() - start.Nanos()) < TWO64
  }

  lemma LateSamplesBound(c: Config, lateNs: nat)
    requires c.Valid()
    ensures 0 <= c.rate * lateNs - LateSamples(c, lateNs) * NS_PER_SEC < NS_PER_SEC <==> c.rate * lateNs < TWO64
  {
    var p := c.rate * lateNs;
    assert p == p / TWO64 * TWO64 + p % TWO64;
    assert LateSamples(c, lateNs) * NS_PER_SEC == p % TWO64 - p % TWO64 % NS_PER_SEC;
  }

  /** Whenever audio has been written after a drop of d samples: the drop is whole
      frames, the output is the input from sample d on, and it is on time exactly
      if the start time was moved and the product did not wrap.  If it was not
      moved, every sample is d sample periods early. */
  lemma LateStart(c: Config, primed: Bytes, start: Timespec, events: seq<Event>, n: nat)
    requires c.Valid() && start.Normal() && EventsOk(events)
    requires var s := Run(c, Init(primed, start), events); s.written && s.toRemove > 0
    ensures var s := Run(c, Init(primed, start), events);
            var d := s.removed / c.Frame();
            && s.removed == d * c.Frame() && d > 0
            && s.removed <= |s.got| && Delivered(s.sink) <= s.got[s.removed..]
            && s.startTs in {start, s.earliest} && start != s.earliest
            && (OnTime(c, start, s.startTs, d, n) <==> s.startTs != start && NoWrap(c, s.earliest, start))
            && (s.startTs == start ==> Due(c, s.startTs, d, n) == Due(c, start, 0, n) - d * NS_PER_SEC)
  {
    InitInv(c, primed, start);
    RunInv(c, start, Init(primed, start), events);
    LateStartAt(c, start, Run(c, Init(primed, start), events), n);
  }

  lemma LateStartAt(c: Config, start: Timespec, s: State, n: nat)
    requires c.Valid() && Inv(c, start, s) && s.written && s.toRemove > 0
    ensures var d := s.removed / c.Frame();
            && s.removed == d * c.Frame() && d > 0
            && s.removed <= |s.got| && Delivered(s.sink) <= s.got[s.removed..]
            && s.startTs in {start, s.earliest} && start != s.earliest
            && (OnTime(c, start, s.startTs, d, n) <==> s.startTs != start && NoWrap(c, s.earliest, start))
            && (s.startTs == start ==> Due(c, s.startTs, d, n) == Due(c, start, 0, n) - d * NS_PER_SEC)
  {
    DropIsWholeFrames(c, start, s);
    var d := s.removed / c.Frame();
    hide Inv, LateSamples, Delivered, Due;
    MovedStart(c, start, s.earliest, d, n);
    UnmovedStart(c, start, d, n);
  }

  /** Moved by the lateness, less a remainder below one sample period. */
  lemma MovedStart(c: Config, start: Timespec, earliest: Timespec, d: nat, n: nat)
    requires c.Valid() && earliest.Nanos() > start.Nanos()
    requires d == LateSamples(c, earliest.Nanos() - start.Nanos())
    ensures OnTime(c, start, earliest, d, n) <==> NoWrap(c, earliest, start)
  {
    var late := earliest.Nanos() - start.Nanos();
    LateSamplesBound(c, late);
    assert earliest.Nanos() * c.rate - start.Nanos() * c.rate == c.rate * late;
  }

  lemma UnmovedStart(c: Config, start: Timespec, d: nat, n: nat)
    ensures Due(c, start, d, n) == Due(c, start, 0, n) - d * NS_PER_SEC
  {
  }

  lemma DropIsWholeFrames(c: Config, start: Timespec, s: State)
    requires c.Valid() && Inv(c, start, s) && s.written && s.toRemove > 0
    ensures s.earliest.Nanos() > start.Nanos() && s.startTs in {start, s.earliest}
    ensures var d := s.removed / c.Frame();
            s.removed == d * c.Frame() && 0 < d == LateSamples(c, s.earliest.Nanos() - start.Nanos())
    ensures s.removed <= |s.got| && Delivered(s.sink) <= s.got[s.removed..]
  {
    hide Sink, LateSamples;
    AfterPrefix(s.got, s.dropped, Delivered(s.sink), s.evbuf + s.lost);
    assert s.toRemove == LateBytes(c, s.earliest, start) == s.removed;
    hide Inv, Counters, Stream, Delivered;
    StobIsFrames(c, LateSamples(c, s.earliest.Nanos() - start.Nanos()));
  }

  lemma AfterPrefix(got: Bytes, a: Bytes, b: Bytes, rest: Bytes)
    requires got == a + b + rest
    ensures |a| <= |got| && b <= got[|a|..]
  {
  }

  /** The first read fixes the earliest start and the bytes to ignore. */
  lemma FirstRead(c: Config, s: State, bytes: Bytes, env: Env)
    requires c.Valid() && env.Valid() && s.open && s.readCount == 0 && s.toRemove == 0
    requires s.startTs.Normal() && s.startTs.sec != 0 && env.first.Reading?
    requires env.read == Data(bytes) && !s.paused && !s.stopping
    ensures var t := PlayStep(c, s, env).0;
            && t.earliest == Earliest(c, |s.evbuf| + |bytes|, env.first.ts)
            && t.toRemove == LateBytes(c, t.earliest, s.startTs)
  {
    hide Earliest, Commence;
    CommenceKeeps(c, Schedule(c, Received(s, bytes), env.first.ts), s.isNew, env);
  }

  lemma CommenceKeeps(c: Config, s: State, metadata: bool, env: Env)
    ensures var t := Commence(c, s, metadata, env).0;
            t.earliest == s.earliest && t.toRemove == s.toRemove && t.readCount == s.readCount
  {
    hide DropStep, HoldsBack, DeltaMs;
    if s.toRemove > s.removed {
      DropStepKeeps(s, metadata, env);
    }
  }

  lemma DropStepKeeps(s: State, metadata: bool, env: Env)
    requires s.toRemove > s.removed
    ensures var t := DropStep(s, metadata, env).0;
            t.earliest == s.earliest && t.toRemove == s.toRemove && t.readCount == s.readCount
  {
    if s.toRemove - s.removed < |s.evbuf| {
      assert Release(s, metadata).earliest == s.earliest;
    }
  }

  lemma StepKeeps(c: Config, s: State, e: Event)
    requires s.readCount > 0
    ensures var t := Step(c, s, e);
            t.earliest == s.earliest && t.toRemove == s.toRemove && t.readCount > 0
  {
    hide Commence, Schedule;
    if e.Play? && e.env.read.Data? {
      CommenceKeeps(c, Received(s, e.env.read.bytes), s.isNew, e.env);
    }
  }

  /** ... and no later call changes them. */
  lemma {:induction false} ScheduleIsFinal(c: Config, s: State, events: seq<Event>)
    requires s.readCount > 0
    ensures var t := Run(c, s, events);
            t.earliest == s.earliest && t.toRemove == s.toRemove && t.readCount > 0
    decreases |events|
  {
    hide Step;
    if events != [] {
      StepKeeps(c, s, events[0]);
      ScheduleIsFinal(c, Step(c, s, events[0]), events[1..]);
    }
  }

  /** While data is being ignored, only the total received decides: short of the
      due bytes, all of it is dropped; beyond them, the rest is written with the
      mark and the start time moves; exactly at them, nothing is written and the
      start time stays where it was. */
  lemma DropDecision(c: Config, start: Timespec, s: State, metadata: bool, env: Env)
    requires Inv(c, start, s) && s.open && !s.written && start.sec != 0
    requires s.toRemove > s.removed && env.drainOk
    ensures var t := Commence(c, s, metadata, env).0;
            && (|s.got| <= s.toRemove ==>
                  t.sink == [] && t.evbuf == [] && t.dropped == s.got && t.startTs == start)
            && (|s.got| > s.toRemove ==>
                  && t.sink == [Audio(s.got[s.toRemove..], metadata, true)]
                  && t.dropped == s.got[..s.toRemove] && t.startTs == s.earliest)
  {
    assert s.sink == [] && s.got == s.dropped + s.evbuf && |s.dropped| == s.removed && s.startTs == start;
    hide Inv, Drop, Release, HoldsBack, DeltaMs;
    var need := s.toRemove - s.removed;
    if need < |s.evbuf| {
      ReleaseSplits(s, metadata);
    } else {
      DropAll(s);
    }
  }

  lemma DropAll(s: State)
    requires s.got == s.dropped + s.evbuf
    ensures var t := Drop(s, |s.evbuf|);
            t.sink == s.sink && t.evbuf == [] && t.dropped == s.got && t.startTs == s.startTs
  {
  }

  lemma ReleaseSplits(s: State, metadata: bool)
    requires 0 < s.toRemove - s.removed < |s.evbuf|
    requires s.sink == [] && s.got == s.dropped + s.evbuf && |s.dropped| == s.removed
    ensures var t := Release(s, metadata);
            && t.sink == [Audio(s.got[s.toRemove..], metadata, true)]
            && t.dropped == s.got[..s.toRemove] && t.startTs == s.earliest
  {
    var need := s.toRemove - s.removed;
    assert s.got[s.toRemove..] == s.evbuf[need..];
    assert s.got[..s.toRemove] == s.dropped + s.evbuf[..need];
  }

  /** Everything due is gone, and no start has been signalled with a moved time. */
  predicate Drained(start: Timespec, s: State) {
    s.removed == s.toRemove && s.startTs == start && s.readCount > 0
  }

  lemma DrainedStep(c: Config, start: Timespec, s: State, e: Event)
    requires Drained(start, s)
    ensures Drained(start, Step(c, s, e))
  {
    hide HoldsBack, DeltaMs, Schedule;
  }

  /** A drop that ends exactly at the end of the buffer never moves the start
      time, whatever happens later: if audio is ever written, it plays d sample
      periods early. */
  lemma {:induction false} ExactDrainLosesSync(c: Config, start: Timespec, s: State, events: seq<Event>, n: nat)
    requires c.Valid() && Inv(c, start, s) && EventsOk(events)
    requires Drained(start, s) && s.toRemove > 0
    ensures var t := Run(c, s, events);
            && t.startTs == start
            && (t.written ==> Due(c, t.startTs, t.removed / c.Frame(), n)
                              == Due(c, start, 0, n) - (t.removed / c.Frame()) * NS_PER_SEC
                              && t.removed / c.Frame() > 0)
    decreases |events|
  {
    hide Step, Inv, Due;
    if events == [] {
      if s.written {
        LateStartAt(c, start, s, n);
      }
    } else {
      DrainedStep(c, start, s, events[0]);
      StepKeeps(c, s, events[0]);
      StepInv(c, start, s, events[0]);
      ExactDrainLosesSync(c, start, Step(c, s, events[0]), events[1..], n);
    }
  }
}
