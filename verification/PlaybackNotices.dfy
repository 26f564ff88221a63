/** What becomes of a metadata notice: play() clears it on every call that reads
    data, and hands it to the input module only with a write. */
module PlaybackNotices {
  import opened Timespec
  import opened Playback
  import opened PlaybackRuns

  /** This call reads data. */
  predicate Reads(s: State, e: Event) {
    e.Play? && s.open && !s.paused && !s.stopping && e.env.read.Data?
  }

  /** The bytes to ignore as this call knows them. */
  function BytesDue(c: Config, s: State, env: Env): nat
    requires env.read.Data?
  {
    if s.readCount == 0 && s.startTs.sec != 0 && env.first.Reading?
    then
      var earliest := Earliest(c, |s.evbuf| + |env.read.bytes|, env.first.ts);
      if earliest.Nanos() > s.startTs.Nanos() then LateBytes(c, earliest, s.startTs) else s.toRemove
    else s.toRemove
  }

  /** When such a call writes: playback has begun or has no start time, or more
      data is there than has to be ignored, or nothing has to be ignored and the
      start is near. */
  predicate WritesNow(c: Config, s: State, env: Env)
    requires env.read.Data?
  {
    && (s.readCount == 0 && s.startTs.sec != 0 ==> env.first.Reading?)
    && (|| s.written
        || s.startTs.sec == 0
        || (var due := BytesDue(c, s, env);
            if due > s.removed then env.drainOk && |s.evbuf| + |env.read.bytes| > due - s.removed
            else env.now.Reading? && !HoldsBack(c, DeltaMs(s.startTs, env.now.ts))))
  }

  /** The sink got nothing, or one audio write with this mark. */
  predicate Wrote(s: State, t: State, metadata: bool, wrote: bool) {
    if wrote then
      |t.sink| == |s.sink| + 1 && t.sink[..|s.sink|] == s.sink
      && t.sink[|s.sink|].Audio? && t.sink[|s.sink|].metadata == metadata
    else t.sink == s.sink
  }

  lemma EmitWrites(s: State, metadata: bool, sync: bool)
    ensures var t := Emit(s, metadata, sync); t.isNew == s.isNew && Wrote(s, t, metadata, true)
  {
  }

  lemma DropStepWrites(s: State, metadata: bool, env: Env)
    requires s.toRemove > s.removed
    ensures var t := DropStep(s, metadata, env).0;
            t.isNew == s.isNew && Wrote(s, t, metadata, env.drainOk && |s.evbuf| > s.toRemove - s.removed)
  {
    var need := s.toRemove - s.removed;
    if need < |s.evbuf| {
      var d := Drop(s, need).(startTs := s.earliest);
      assert d.sink == s.sink && d.isNew == s.isNew;
      EmitWrites(d, metadata, true);
      hide Emit, Drop;
    }
  }

  lemma CommenceWrites(c: Config, s: State, metadata: bool, env: Env)
    ensures var t := Commence(c, s, metadata, env).0;
            var wrote := s.written || s.startTs.sec == 0
                         || (if s.toRemove > s.removed then env.drainOk && |s.evbuf| > s.toRemove - s.removed
                             else env.now.Reading? && !HoldsBack(c, DeltaMs(s.startTs, env.now.ts)));
            t.isNew == s.isNew && Wrote(s, t, metadata, wrote)
  {
    EmitWrites(s, metadata, false);
    EmitWrites(s, metadata, true);
    hide DropStep, Emit, HoldsBack, DeltaMs, Wrote;
    assert Wrote(s, s, metadata, false) by { NoWrite(s, metadata); }
    if s.toRemove > s.removed {
      DropStepWrites(s, metadata, env);
    }
  }

  lemma NoWrite(s: State, metadata: bool)
    ensures Wrote(s, s, metadata, false)
  {
  }

  /** A call that reads data uses the notice up.  It writes, and passes the notice
      on, if and only if `WritesNow` holds before the call. */
  lemma NoticeFate(c: Config, s: State, env: Env)
    requires Reads(s, Play(env))
    ensures !PlayStep(c, s, env).0.isNew
    ensures Wrote(s, PlayStep(c, s, env).0, s.isNew, WritesNow(c, s, env))
    ensures PlayStep(c, s, env).0.sink != s.sink <==> WritesNow(c, s, env)
  {
    var r := Received(s, env.read.bytes);
    NoWrite(s, s.isNew);
    hide Commence, HoldsBack, DeltaMs, LateBytes, Earliest;
    if r.readCount == 1 && s.startTs.sec != 0 {
      if env.first.Reading? {
        var q := Schedule(c, r, env.first.ts);
        assert q.toRemove == BytesDue(c, s, env) && q.sink == s.sink && q.startTs == s.startTs;
        CommenceWrites(c, q, s.isNew, env);
      }
    } else {
      CommenceWrites(c, r, s.isNew, env);
    }
  }

  // ---------- Whole runs ----------

  /** Audio writes that carry the notice. */
  function Marked(sink: seq<Write>): nat {
    if sink == [] then 0
    else
      var last := sink[|sink| - 1];
      Marked(sink[..|sink| - 1]) + if last.Audio? && last.metadata then 1 else 0
  }

  /** Notices of a run: raised while none was pending, passed on, thrown away. */
  datatype Tally = Tally(raised: nat, passed: nat, lost: nat) {
    function Plus(t: Tally): Tally {
      Tally(raised + t.raised, passed + t.passed, lost + t.lost)
    }
  }

  function TallyOf(c: Config, s: State, e: Event): Tally {
    if e.Notify? && !s.isNew then Tally(1, 0, 0)
    else if Reads(s, e) && s.isNew then if WritesNow(c, s, e.env) then Tally(0, 1, 0) else Tally(0, 0, 1)
    else Tally(0, 0, 0)
  }

  function Notices(c: Config, s: State, events: seq<Event>): Tally
    decreases |events|
  {
    if events == [] then Tally(0, 0, 0)
    else TallyOf(c, s, events[0]).Plus(Notices(c, Step(c, s, events[0]), events[1..]))
  }

  function One(b: bool): nat {
    if b then 1 else 0
  }

  lemma MarkedSnoc(sink: seq<Write>, w: Write)
    ensures Marked(sink + [w]) == Marked(sink) + One(w.Audio? && w.metadata)
  {
    assert (sink + [w])[..|sink|] == sink;
  }

  lemma WroteMarked(s: State, t: State, metadata: bool, wrote: bool)
    requires Wrote(s, t, metadata, wrote)
    ensures Marked(t.sink) == Marked(s.sink) + One(wrote && metadata)
  {
    if wrote {
      var w := t.sink[|s.sink|];
      assert t.sink == s.sink + [w];
      MarkedSnoc(s.sink, w);
    }
  }

  lemma StepNotices(c: Config, s: State, e: Event)
    ensures var t, n := Step(c, s, e), TallyOf(c, s, e);
            && One(s.isNew) + n.raised == n.passed + n.lost + One(t.isNew)
            && Marked(t.sink) == Marked(s.sink) + n.passed
  {
    hide WritesNow, Marked, Wrote, AfterRead;
    if Reads(s, e) {
      NoticeFate(c, s, e.env);
      WroteMarked(s, PlayStep(c, s, e.env).0, s.isNew, WritesNow(c, s, e.env));
    } else if e.Play? {
      MarkedSnoc(s.sink, EndOfStream(s.evbuf));
      MarkedSnoc(s.sink, Failure);
    }
  }

  /** In every run each notice raised is passed on once, lost or still pending; the
      writes that carry one are exactly those passed on. */
  lemma {:induction false} NoticesBalance(c: Config, s: State, events: seq<Event>)
    ensures var t, n := Run(c, s, events), Notices(c, s, events);
            && One(s.isNew) + n.raised == n.passed + n.lost + One(t.isNew)
            && Marked(t.sink) == Marked(s.sink) + n.passed
    decreases |events|
  {
    hide Step, TallyOf, Marked;
    if events != [] {
      StepNotices(c, s, events[0]);
      NoticesBalance(c, Step(c, s, events[0]), events[1..]);
    }
  }

  /** Position of the first call that reads data, or the length. */
  function FirstReading(c: Config, s: State, events: seq<Event>): (k: nat)
    ensures k <= |events|
    decreases |events|
  {
    if events == [] || Reads(s, events[0]) then 0
    else 1 + FirstReading(c, Step(c, s, events[0]), events[1..])
  }

  lemma {:induction false} FirstReadingReads(c: Config, s: State, events: seq<Event>)
    ensures var k := FirstReading(c, s, events);
            k < |events| ==> Reads(Run(c, s, events[..k]), events[k])
    decreases |events|
  {
    hide Step, Reads;
    var k := FirstReading(c, s, events);
    if events != [] && k < |events| {
      if k > 0 {
        FirstReadingReads(c, Step(c, s, events[0]), events[1..]);
        PrefixRun(c, s, events, k - 1);
      } else {
        PrefixRun(c, s, events, 0);
      }
    }
  }

  lemma NoReadKeeps(c: Config, s: State, e: Event)
    requires !Reads(s, e) && !e.Notify?
    ensures Step(c, s, e).isNew == s.isNew && Marked(Step(c, s, e).sink) == Marked(s.sink)
  {
    StepNotices(c, s, e);
    hide Marked, Step;
  }

  lemma {:induction false} NoneWithout(c: Config, s: State, events: seq<Event>)
    requires !s.isNew && Notify !in events
    ensures !Run(c, s, events).isNew && Marked(Run(c, s, events).sink) == Marked(s.sink)
    decreases |events|
  {
    hide Step, Marked;
    if events != [] {
      StepNotices(c, s, events[0]);
      NoneWithout(c, Step(c, s, events[0]), events[1..]);
    }
  }

  /** One notice: the first call that reads data decides.  It reaches the input
      module if and only if that call meets `WritesNow`; no later call brings it
      back. */
  lemma {:induction false} FirstReadingDecides(c: Config, s: State, events: seq<Event>)
    requires s.isNew && Notify !in events
    ensures var t, k := Run(c, s, events), FirstReading(c, s, events);
            if k == |events| then t.isNew && Marked(t.sink) == Marked(s.sink)
            else
              var at := Run(c, s, events[..k]);
              && !t.isNew && Reads(at, events[k])
              && Marked(t.sink) == Marked(s.sink) + One(WritesNow(c, at, events[k].env))
    decreases |events|
  {
    FirstReadingReads(c, s, events);
    hide Step, Reads, Marked, WritesNow;
    if events != [] {
      var e, next, rest := events[0], Step(c, s, events[0]), events[1..];
      if Reads(s, e) {
        PrefixRun(c, s, events, 0);
        StepNotices(c, s, e);
        NoneWithout(c, next, rest);
      } else {
        NoReadKeeps(c, s, e);
        FirstReadingDecides(c, next, rest);
        var k := FirstReading(c, next, rest);
        PrefixRun(c, s, events, if k < |rest| then k else 0);
      }
    }
  }
}
