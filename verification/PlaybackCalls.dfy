/** What one call of play() makes of each answer it can get, and its return code. */
module PlaybackCalls {
  import opened Common
  import opened Timespec
  import opened Playback
  import opened PlaybackRuns
  import opened PlaybackNotices

  /** Without data: EAGAIN changes nothing, end of file hands over what is buffered and
      closes the source, an error tells the sink and throws it away. */
  lemma ReadOutcomes(c: Config, s: State, env: Env)
    requires s.open && !s.paused && !s.stopping
    ensures env.read.Again? ==> PlayStep(c, s, env) == (s, 0)
    ensures env.read.Eof? ==>
              PlayStep(c, s, env) == (s.(sink := s.sink + [EndOfStream(s.evbuf)], evbuf := [], open := false), -1)
    ensures env.read.Broken? ==>
              PlayStep(c, s, env)
              == (s.(sink := s.sink + [Failure], evbuf := [], lost := s.evbuf, open := false), -1)
  {
  }

  predicate IsAgain(e: Event) {
    e.Play? && e.env.read.Again?
  }

  function WithoutAgain(events: seq<Event>): seq<Event> {
    if events == [] then []
    else (if IsAgain(events[0]) then [] else [events[0]]) + WithoutAgain(events[1..])
  }

  lemma StoppingKept(c: Config, s: State, e: Event)
    requires !e.Stop?
    ensures Step(c, s, e).stopping == s.stopping
  {
  }

  /** Calls that find nothing to read do not matter, however many there are, as long as
      no STOP waits to be seen. */
  lemma {:induction false} AgainIsIrrelevant(c: Config, s: State, events: seq<Event>)
    requires !s.stopping && Stop !in events
    ensures Run(c, s, events) == Run(c, s, WithoutAgain(events))
    decreases |events|
  {
    hide Step;
    if events != [] {
      var e, rest := events[0], events[1..];
      var next := Step(c, s, e);
      StoppingKept(c, s, e);
      AgainIsIrrelevant(c, next, rest);
      if IsAgain(e) {
        AgainStep(c, s, e);
        assert [] + WithoutAgain(rest) == WithoutAgain(rest);
      } else {
        assert ([e] + WithoutAgain(rest))[1..] == WithoutAgain(rest);
      }
    }
  }

  lemma AgainStep(c: Config, s: State, e: Event)
    requires !s.stopping && IsAgain(e)
    ensures Step(c, s, e) == s
  {
  }

  /** A call that reads data fails if a clock or the buffer does when it is needed. */
  predicate DataCallFails(c: Config, s: State, env: Env)
    requires env.read.Data?
  {
    && s.startTs.sec != 0
    && (|| (s.readCount == 0 && env.first.Failed?)
        || (!s.written && if BytesDue(c, s, env) > s.removed then !env.drainOk else env.now.Failed?))
  }

  /** -1 ends the input loop: on STOP, end of file, an error, or a failing call; in all
      other cases, also while paused, it is 0. */
  lemma ReturnCode(c: Config, s: State, env: Env)
    ensures PlayStep(c, s, env).1 ==
            if !s.paused && (s.stopping || env.read.Eof? || env.read.Broken?
                             || (env.read.Data? && DataCallFails(c, s, env)))
            then -1 else 0
  {
    hide HoldsBack, DeltaMs, LateBytes, Earliest;
    if env.read.Data? {
      var r := Received(s, env.read.bytes);
      CommenceReturns(c, r, s.isNew, env);
      if r.readCount == 1 && s.startTs.sec != 0 && env.first.Reading? {
        var q := Schedule(c, r, env.first.ts);
        assert q.toRemove == BytesDue(c, s, env) && q.removed == s.removed && q.startTs == s.startTs;
        CommenceReturns(c, q, s.isNew, env);
      }
      hide Commence;
    }
  }

  lemma CommenceReturns(c: Config, s: State, metadata: bool, env: Env)
    ensures Commence(c, s, metadata, env).1 ==
            if !s.written && s.startTs.sec != 0 && (if s.toRemove > s.removed then !env.drainOk else env.now.Failed?)
            then -1 else 0
  {
    hide HoldsBack, DeltaMs;
  }
}
