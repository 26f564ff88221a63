/** When a late start keeps sync, told from the sizes of the reads alone. */
module PlaybackSync {
  import opened Common
  import opened Timespec
  import opened Playback
  import opened PlaybackRuns

  /** This call receives the last of the `due` bytes and not one more, and ignores
      them. */
  predicate EndsExactly(s: State, e: Event, due: nat) {
    && e.Play? && s.open && !s.paused && !s.stopping
    && e.env.read.Data? && e.env.drainOk
    && |s.got| + |e.env.read.bytes| == due
  }

  /** Some call of the run does. */
  predicate Meets(c: Config, s: State, events: seq<Event>, due: nat)
    decreases |events|
  {
    events != [] && (EndsExactly(s, events[0], due) || Meets(c, Step(c, s, events[0]), events[1..], due))
  }

  /** Not past it: nothing written, and something still to ignore if that is known
      already. */
  predicate Ahead(s: State, due: nat) {
    !s.written && (s.readCount == 0 || (s.toRemove == due && s.removed < due))
  }

  /** Where one call or flag change can lead from there. */
  predicate Advances(start: Timespec, s: State, e: Event, t: State, due: nat) {
    if EndsExactly(s, e, due) then Drained(start, t) && |t.got| >= due
    else Ahead(t, due) || (t.written && t.startTs != start && |t.got| >= due)
  }

  /** The drop, once the bytes due are known. */
  lemma DropAdvances(c: Config, start: Timespec, q: State, metadata: bool, env: Env, due: nat)
    requires Inv(c, start, q) && q.open && !q.written && start.sec != 0 && q.readCount > 0
    requires q.toRemove == due && q.removed < due
    requires Inv(c, start, Commence(c, q, metadata, env).0)
    ensures var t := Commence(c, q, metadata, env).0;
            && (env.drainOk && |q.got| == due ==> Drained(start, t) && |t.got| >= due)
            && (!(env.drainOk && |q.got| == due) ==>
                  Ahead(t, due) || (t.written && t.startTs != start && |t.got| >= due))
  {
    var t := Commence(c, q, metadata, env).0;
    assert q.startTs == start && q.earliest != start && |t.dropped| == t.removed;
    assert t.written <==> t.sink != [] && t.sink[0].Audio?;
    CommenceGot(c, q, metadata, env);
    CommenceKeeps(c, q, metadata, env);
    hide Inv, DropStep;
    if env.drainOk {
      DropDecision(c, start, q, metadata, env);
    } else {
      Undrained(q, metadata, env);
    }
  }

  lemma Undrained(q: State, metadata: bool, env: Env)
    requires !env.drainOk && q.toRemove > q.removed
    ensures DropStep(q, metadata, env).0 == q
  {
  }

  lemma CallAdvances(c: Config, start: Timespec, s: State, env: Env, due: nat)
    requires c.Valid() && Inv(c, start, s) && start.sec != 0 && env.Valid()
    requires Ahead(s, due) && s.open && !s.paused && !s.stopping && env.read.Data? && due > 0
    requires PlayStep(c, s, env).0.toRemove == due && Inv(c, start, PlayStep(c, s, env).0)
    ensures Advances(start, s, Play(env), PlayStep(c, s, env).0, due)
  {
    assert s.startTs == start && (s.readCount == 0 ==> s.toRemove == 0 == s.removed);
    var r := Received(s, env.read.bytes);
    ReceivedInv(c, start, s, env.read.bytes);
    if r.readCount == 1 {
      FirstAdvances(c, start, s, env, due);
    } else {
      hide Inv, Commence;
      DropAdvances(c, start, r, s.isNew, env, due);
    }
  }

  lemma FirstAdvances(c: Config, start: Timespec, s: State, env: Env, due: nat)
    requires c.Valid() && Inv(c, start, s) && start.sec != 0 && env.Valid()
    requires s.readCount == 0 && s.open && !s.paused && !s.stopping && env.read.Data? && due > 0
    requires PlayStep(c, s, env).0.toRemove == due && Inv(c, start, PlayStep(c, s, env).0)
    ensures Advances(start, s, Play(env), PlayStep(c, s, env).0, due)
  {
    assert s.startTs == start && s.toRemove == 0 == s.removed && !s.written;
    var r := Received(s, env.read.bytes);
    ReceivedInv(c, start, s, env.read.bytes);
    if env.first.Reading? {
      ScheduleInv(c, start, r, env.first.ts);
      var q := Schedule(c, r, env.first.ts);
      assert q.removed == 0 && !q.written && q.got == r.got;
      CommenceKeeps(c, q, s.isNew, env);
      hide Inv, Commence, Schedule;
      DropAdvances(c, start, q, s.isNew, env, due);
    }
  }

  lemma StepAdvances(c: Config, start: Timespec, s: State, e: Event, due: nat)
    requires c.Valid() && Inv(c, start, s) && start.sec != 0 && (e.Play? ==> e.env.Valid())
    requires Ahead(s, due) && due > 0
    requires Step(c, s, e).readCount > 0 ==> Step(c, s, e).toRemove == due
    ensures Advances(start, s, e, Step(c, s, e), due)
  {
    StepInv(c, start, s, e);
    if e.Play? && s.open && !s.paused && !s.stopping && e.env.read.Data? {
      ReadCounts(c, s, e.env);
      hide Inv, PlayStep;
      CallAdvances(c, start, s, e.env, due);
    } else {
      hide Inv, AfterRead;
    }
  }

  lemma ReadCounts(c: Config, s: State, env: Env)
    requires s.open && !s.paused && !s.stopping && env.read.Data?
    ensures PlayStep(c, s, env).0.readCount > 0
  {
    hide Commence, Schedule;
    var r := Received(s, env.read.bytes);
    CommenceKeeps(c, r, s.isNew, env);
    if env.first.Reading? {
      CommenceKeeps(c, Schedule(c, r, env.first.ts), s.isNew, env);
      assert Schedule(c, r, env.first.ts).readCount == r.readCount by {
        ScheduleCounts(c, r, env.first.ts);
      }
    }
  }

  lemma ScheduleCounts(c: Config, s: State, first: Timespec)
    ensures Schedule(c, s, first).readCount == s.readCount
  {
  }

  /** Past the due bytes no call can end exactly at them. */
  lemma {:induction false} PastDue(c: Config, s: State, events: seq<Event>, due: nat)
    requires EventsOk(events) && |s.got| >= due
    ensures !Meets(c, s, events, due)
    decreases |events|
  {
    hide Step;
    if events != [] {
      StepGot(c, s, events[0]);
      PastDue(c, Step(c, s, events[0]), events[1..], due);
    }
  }

  lemma {:induction false} DrainedRun(c: Config, start: Timespec, s: State, events: seq<Event>)
    requires Drained(start, s)
    ensures Run(c, s, events).startTs == start
    decreases |events|
  {
    hide Step;
    if events != [] {
      DrainedStep(c, start, s, events[0]);
      DrainedRun(c, start, Step(c, s, events[0]), events[1..]);
    }
  }

  /** The start time moves exactly when no call's data ends with the due bytes. */
  lemma {:induction false} MovesUnlessMet(c: Config, start: Timespec, s: State, events: seq<Event>, due: nat)
    requires c.Valid() && Inv(c, start, s) && start.sec != 0 && EventsOk(events)
    requires Ahead(s, due) && due > 0
    requires var t := Run(c, s, events); t.written && t.toRemove == due
    ensures Run(c, s, events).startTs == start <==> Meets(c, s, events, due)
    decreases |events|
  {
    hide Inv, Step, Drained;
    if events != [] {
      var e, rest := events[0], events[1..];
      var next := Step(c, s, e);
      StepInv(c, start, s, e);
      if next.readCount > 0 {
        ScheduleIsFinal(c, next, rest);
      }
      StepAdvances(c, start, s, e, due);
      if EndsExactly(s, e, due) {
        DrainedRun(c, start, next, rest);
      } else if Ahead(next, due) {
        MovesUnlessMet(c, start, next, rest, due);
      } else {
        WrittenRun(c, next, rest);
        PastDue(c, next, rest, due);
      }
    }
  }

  /** A late start keeps every sample on time if and only if the 64-bit product did
      not wrap and no read ended exactly at the bytes due to be ignored. */
  lemma LateStartKeepsSync(c: Config, primed: Bytes, start: Timespec, events: seq<Event>, n: nat)
    requires c.Valid() && start.Normal() && EventsOk(events)
    requires var s := Run(c, Init(primed, start), events); s.written && s.toRemove > 0
    ensures var i := Init(primed, start);
            var s := Run(c, i, events);
            OnTime(c, start, s.startTs, s.removed / c.Frame(), n) <==>
            NoWrap(c, s.earliest, start) && !Meets(c, i, events, s.toRemove)
  {
    var i := Init(primed, start);
    var s := Run(c, i, events);
    InitInv(c, primed, start);
    RunInv(c, start, i, events);
    assert start.sec != 0 && Ahead(i, s.toRemove);
    hide Inv, Run, OnTime, NoWrap;
    LateStart(c, primed, start, events, n);
    MovesUnlessMet(c, start, i, events, s.toRemove);
  }
}
