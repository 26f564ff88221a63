/** The read callback of the command pipe in src/mass.c, and the prepared metadata
    the input thread fetches.  What runs under the lock is one atomic step. */
module CommandPipe {
  import opened Common
  import opened CommandItems
  import opened CommandFraming

  /** One evbuffer_read(): data, nothing yet, an error, or end of file, after
      which the pipe is reopened or not. */
  datatype PipeRead = Data(chunk: string) | Again | Broken | Hangup(reopened: bool)

  /** The buffer, the prepared data, whether the pipe is still read, and the flags
      shared with the input thread. */
  datatype State = State(buf: string, prepared: Prepared, open: bool, isNew: bool, paused: bool, stopping: bool,
                         calls: seq<Call>)

  /** What the callback asks of the player and the input module. */
  datatype Call = SetVolume(volume: int) | Authorize(pin: string) | FlushInput

  /** The calls one batch of messages leads to, in order. */
  function Calls(p: Prepared, mask: set<Msg>): seq<Call> {
    (if VolumeMsg in mask then [SetVolume(p.volume)] else [])
    + (if PinMsg in mask && p.pin.Some? then [Authorize(DevicePin(p.pin.value))] else [])
    + (if StopMsg in mask then [FlushInput] else [])
  }

  /** Acting on the messages of one batch; `playing` is the player status, asked
      for once. */
  function Handle(s: State, mask: set<Msg>, playing: bool): State {
    var paused := if PauseMsg in mask && playing then true else s.paused;
    s.(isNew := s.isNew || MetadataMsg in mask || PictureMsg in mask,
       paused := if PlayMsg in mask && !playing then false else paused,
       stopping := s.stopping || StopMsg in mask,
       calls := s.calls + Calls(s.prepared, mask))
  }

  /** One callback. */
  function ReadStep(o: Oracle, s: State, read: PipeRead, playing: bool): State {
    match read
    case Again => s
    case Broken => s.(open := false, buf := "")
    case Hangup(reopened) => s.(open := reopened)
    case Data(chunk) =>
      if |s.buf + chunk| > BUFFER_MAX then s.(buf := "")
      else
        var r := Parse(o, s.prepared, s.buf + chunk);
        if r.ok then Handle(s.(buf := r.left, prepared := r.prepared), r.mask, playing)
        else s.(prepared := r.prepared, open := false, buf := "")
  }

  /** A run of callbacks; a closed pipe is not read. */
  function Run(o: Oracle, s: State, tape: seq<PipeRead>, playing: bool): State
    decreases |tape|
  {
    if tape == [] || !s.open then s
    else Run(o, ReadStep(o, s, tape[0], playing), tape[1..], playing)
  }

  /** An error, or an end of file after which the pipe cannot be reopened. */
  predicate Ends(read: PipeRead) {
    read.Broken? || (read.Hangup? && !read.reopened)
  }

  predicate Endless(tape: seq<PipeRead>) {
    forall read <- tape :: !Ends(read)
  }

  /** The data a run reads, up to the read that ends it. */
  function Chunks(tape: seq<PipeRead>): seq<string> {
    if tape == [] || Ends(tape[0]) then []
    else (if tape[0].Data? then [tape[0].chunk] else []) + Chunks(tape[1..])
  }

  /** No read of the run meets a full buffer. */
  predicate Roomy(o: Oracle, p: Prepared, buf: string, chunks: seq<string>)
    decreases |chunks|
  {
    chunks == [] || (|buf + chunks[0]| <= BUFFER_MAX
      && var r := Parse(o, p, buf + chunks[0]); (r.ok ==> Roomy(o, r.prepared, r.left, chunks[1..])))
  }

  /** A stream of lines short enough to leave room for one more read never meets a
      full buffer, whatever the reads. */
  lemma {:induction false} ShortLinesAreRoomy(o: Oracle, p: Prepared, buf: string, chunks: seq<string>)
    requires ExtractItem(buf) == None && ShortLines(buf + Concat(chunks), BUFFER_MAX - PIPE_READ_MAX)
    requires forall chunk <- chunks :: |chunk| <= PIPE_READ_MAX
    ensures Roomy(o, p, buf, chunks)
    decreases |chunks|
  {
    hide ExtractItem, Parse, Lines, ShortLines;
    ShortStart(buf, Concat(chunks), BUFFER_MAX - PIPE_READ_MAX);
    if chunks != [] {
      var first, tail := buf + chunks[0], Concat(chunks[1..]);
      var r := Parse(o, p, first);
      if r.ok {
        ParseAppliesLines(o, p, first);
        ParseLeavesNoLine(o, p, first);
        assert buf + Concat(chunks) == first + tail;
        ShortRest(first, tail, BUFFER_MAX - PIPE_READ_MAX);
        ShortLinesAreRoomy(o, r.prepared, r.left, chunks[1..]);
      }
    }
  }

  lemma FeedUnfolds(o: Oracle, p: Prepared, buf: string, chunk: string, rest: seq<string>)
    ensures var r := Parse(o, p, buf + chunk);
            && (Roomy(o, p, buf, [chunk] + rest) <==>
                  |buf + chunk| <= BUFFER_MAX && (r.ok ==> Roomy(o, r.prepared, r.left, rest)))
            && Feed(o, p, buf, [chunk] + rest)
               == if !r.ok then r
                  else var f := Feed(o, r.prepared, r.left, rest); f.(mask := r.mask + f.mask)
  {
    hide Parse;
    assert ([chunk] + rest)[1..] == rest;
  }

  lemma EndlessUnfolds(tape: seq<PipeRead>)
    requires tape != []
    ensures Endless(tape) <==> !Ends(tape[0]) && Endless(tape[1..])
  {
    assert tape == [tape[0]] + tape[1..];
  }

  /** A read that neither brings data nor ends the pipe changes nothing. */
  lemma IdleRead(o: Oracle, s: State, read: PipeRead, playing: bool)
    requires s.open && !read.Data? && !Ends(read)
    ensures ReadStep(o, s, read, playing) == s
  {
  }

  lemma DataRead(o: Oracle, s: State, read: PipeRead, playing: bool)
    requires s.open && read.Data? && |s.buf + read.chunk| <= BUFFER_MAX
    ensures var r, t := Parse(o, s.prepared, s.buf + read.chunk), ReadStep(o, s, read, playing);
            t == if r.ok then Handle(s.(buf := r.left, prepared := r.prepared), r.mask, playing)
                 else s.(prepared := r.prepared, open := false, buf := "")
  {
    hide Parse, Handle;
  }

  lemma ClosedRun(o: Oracle, s: State, tape: seq<PipeRead>, playing: bool)
    requires !s.open
    ensures Run(o, s, tape, playing) == s
  {
  }

  /** Whatever else the reads are, a run comes to the framed parse of its data. */
  lemma {:induction false} RunIsFeed(o: Oracle, s: State, tape: seq<PipeRead>, playing: bool)
    requires s.open && Roomy(o, s.prepared, s.buf, Chunks(tape))
    ensures var t, f := Run(o, s, tape, playing), Feed(o, s.prepared, s.buf, Chunks(tape));
            t.prepared == f.prepared && (t.open <==> f.ok && Endless(tape)) && (t.open ==> t.buf == f.left)
    decreases |tape|
  {
    hide Parse, ReadStep, Handle, Endless, Roomy, Feed;
    NothingFed(o, s.prepared, s.buf);
    if tape == [] {
      NothingEnds();
    } else {
      var read, rest := tape[0], tape[1..];
      var next := ReadStep(o, s, read, playing);
      EndlessUnfolds(tape);
      if Ends(read) {
        EndingRead(o, s, read, playing);
        ClosedRun(o, next, rest, playing);
      } else if read.Data? {
        FeedUnfolds(o, s.prepared, s.buf, read.chunk, Chunks(rest));
        DataRead(o, s, read, playing);
        var r := Parse(o, s.prepared, s.buf + read.chunk);
        if r.ok {
          HandleKeeps(s.(buf := r.left, prepared := r.prepared), r.mask, playing);
          RunIsFeed(o, next, rest, playing);
        } else {
          ClosedRun(o, next, rest, playing);
        }
      } else {
        IdleRead(o, s, read, playing);
        assert Chunks(tape) == Chunks(rest);
        RunIsFeed(o, next, rest, playing);
      }
    }
  }

  lemma NothingFed(o: Oracle, p: Prepared, buf: string)
    ensures Feed(o, p, buf, []) == Parsed(p, {}, buf, true)
  {
  }

  lemma NothingEnds()
    ensures Endless([])
  {
  }

  lemma EndingRead(o: Oracle, s: State, read: PipeRead, playing: bool)
    requires s.open && Ends(read)
    ensures ReadStep(o, s, read, playing) == s.(open := false, buf := ReadStep(o, s, read, playing).buf)
  {
  }

  // ---------- What the calls come to ----------

  function LastVolume(calls: seq<Call>): Option<int> {
    if calls == [] then None
    else if calls[|calls| - 1].SetVolume? then Some(calls[|calls| - 1].volume)
    else LastVolume(calls[..|calls| - 1])
  }

  function LastPin(calls: seq<Call>): Option<string> {
    if calls == [] then None
    else if calls[|calls| - 1].Authorize? then Some(calls[|calls| - 1].pin)
    else LastPin(calls[..|calls| - 1])
  }

  /** Equal in all but how often the player was called: the volume and the PIN it
      has in the end are the same, and whether its input was flushed. */
  predicate SameEffect(s: State, t: State) {
    && s.(calls := []) == t.(calls := [])
    && LastVolume(s.calls) == LastVolume(t.calls)
    && LastPin(s.calls) == LastPin(t.calls)
    && (FlushInput in s.calls <==> FlushInput in t.calls)
  }

  lemma CallsSnoc(calls: seq<Call>, c: Call)
    ensures LastVolume(calls + [c]) == if c.SetVolume? then Some(c.volume) else LastVolume(calls)
    ensures LastPin(calls + [c]) == if c.Authorize? then Some(c.pin) else LastPin(calls)
  {
    assert (calls + [c])[..|calls|] == calls;
  }

  /** What one batch adds. */
  lemma CallsOfBatch(calls: seq<Call>, p: Prepared, mask: set<Msg>)
    ensures var after := calls + Calls(p, mask);
            && LastVolume(after) == (if VolumeMsg in mask then Some(p.volume) else LastVolume(calls))
            && LastPin(after) == (if PinMsg in mask && p.pin.Some? then Some(DevicePin(p.pin.value)) else LastPin(calls))
            && (FlushInput in after <==> FlushInput in calls || StopMsg in mask)
  {
    hide LastVolume, LastPin, DevicePin;
    var a := if VolumeMsg in mask then [SetVolume(p.volume)] else [];
    var b := if PinMsg in mask && p.pin.Some? then [Authorize(DevicePin(p.pin.value))] else [];
    var c := if StopMsg in mask then [FlushInput] else [];
    AtMostOne(calls, a);
    AtMostOne(calls + a, b);
    AtMostOne(calls + a + b, c);
    assert calls + Calls(p, mask) == calls + a + b + c;
  }

  lemma AtMostOne(calls: seq<Call>, more: seq<Call>)
    requires |more| <= 1
    ensures more == [] ==> calls + more == calls
    ensures more != [] ==>
              && LastVolume(calls + more) == (if more[0].SetVolume? then Some(more[0].volume) else LastVolume(calls))
              && LastPin(calls + more) == (if more[0].Authorize? then Some(more[0].pin) else LastPin(calls))
    ensures FlushInput in calls + more <==> FlushInput in calls || FlushInput in more
  {
    if more != [] {
      assert more == [more[0]];
      CallsSnoc(calls, more[0]);
    }
  }

  /** Volume and PIN change only with their messages. */
  predicate Keeps(p: Prepared, q: Prepared, mask: set<Msg>) {
    (VolumeMsg !in mask ==> q.volume == p.volume) && (PinMsg !in mask ==> q.pin == p.pin)
    && (PinMsg in mask ==> q.pin.Some?)
  }

  lemma ItemKeeps(o: Oracle, p: Prepared, item: string)
    ensures var (q, msg) := ParseItem(o, p, item); msg.Some? ==> Keeps(p, q, {msg.value})
  {
    hide Meaning, FirstCommand, PinText;
  }

  lemma {:induction false} ParseKeeps(o: Oracle, p: Prepared, buf: string)
    ensures var r := Parse(o, p, buf); r.ok ==> Keeps(p, r.prepared, r.mask)
    decreases |buf|
  {
    hide ParseItem, ExtractItem;
    if ExtractItem(buf).Some? {
      var (item, rest) := ExtractItem(buf).value;
      ExtractShorter(buf);
      ItemKeeps(o, p, item);
      ParseKeeps(o, ParseItem(o, p, item).0, rest);
    }
  }

  lemma {:induction false} FeedKeeps(o: Oracle, p: Prepared, buf: string, chunks: seq<string>)
    ensures var f := Feed(o, p, buf, chunks); f.ok ==> Keeps(p, f.prepared, f.mask)
    decreases |chunks|
  {
    hide Parse;
    if chunks != [] {
      var r := Parse(o, p, buf + chunks[0]);
      ParseKeeps(o, p, buf + chunks[0]);
      if r.ok {
        FeedKeeps(o, r.prepared, r.left, chunks[1..]);
      }
    }
  }

  /** Two batches after each other have the effect of one. */
  lemma HandleTwice(s: State, buf: string, p: Prepared, a: set<Msg>, b: set<Msg>, playing: bool)
    requires Keeps(s.prepared, p, b) && (PinMsg in a ==> s.prepared.pin.Some?)
    ensures SameEffect(Handle(Handle(s, a, playing).(buf := buf, prepared := p), b, playing),
                       Handle(s.(buf := buf, prepared := p), a + b, playing))
  {
    hide LastVolume, LastPin, DevicePin, Calls;
    CallsOfBatch(s.calls, s.prepared, a);
    CallsOfBatch(s.calls + Calls(s.prepared, a), p, b);
    CallsOfBatch(s.calls, p, a + b);
  }

  /** While the player status does not change, a run has the effect of one batch of
      all its messages, whether the pipe is closed in the end or not. */
  lemma {:induction false} RunHandlesAll(o: Oracle, s: State, tape: seq<PipeRead>, playing: bool)
    requires s.open && Roomy(o, s.prepared, s.buf, Chunks(tape)) && Feed(o, s.prepared, s.buf, Chunks(tape)).ok
    ensures var f := Feed(o, s.prepared, s.buf, Chunks(tape));
            SameEffect(Run(o, s, tape, playing).(buf := f.left, open := true),
                       Handle(s.(buf := f.left, prepared := f.prepared), f.mask, playing))
    decreases |tape|
  {
    hide Parse, Handle, SameEffect, Keeps, ReadStep, Feed, Roomy;
    NothingFed(o, s.prepared, s.buf);
    HandleNothing(s, playing);
    if tape != [] {
      var read, rest := tape[0], tape[1..];
      var next := ReadStep(o, s, read, playing);
      if Ends(read) {
        EndingRead(o, s, read, playing);
        ClosedRun(o, next, rest, playing);
      } else if read.Data? {
        FeedUnfolds(o, s.prepared, s.buf, read.chunk, Chunks(rest));
        DataRead(o, s, read, playing);
        var r := Parse(o, s.prepared, s.buf + read.chunk);
        HandleKeeps(s.(buf := r.left, prepared := r.prepared), r.mask, playing);
        RunHandlesAll(o, next, rest, playing);
        BatchBefore(o, s, read.chunk, Chunks(rest), Run(o, next, rest, playing), playing);
      } else {
        IdleRead(o, s, read, playing);
        assert Chunks(tape) == Chunks(rest);
        RunHandlesAll(o, next, rest, playing);
      }
    }
  }

  /** One batch before a run that has the effect of one batch. */
  lemma BatchBefore(o: Oracle, s: State, chunk: string, chunks: seq<string>, t: State, playing: bool)
    requires Parse(o, s.prepared, s.buf + chunk).ok
    requires var r := Parse(o, s.prepared, s.buf + chunk); Feed(o, r.prepared, r.left, chunks).ok
    requires var r := Parse(o, s.prepared, s.buf + chunk);
             var f := Feed(o, r.prepared, r.left, chunks);
             SameEffect(t.(buf := f.left, open := true),
                        Handle(Handle(s.(buf := r.left, prepared := r.prepared), r.mask, playing)
                                 .(buf := f.left, prepared := f.prepared), f.mask, playing))
    ensures var r := Parse(o, s.prepared, s.buf + chunk);
            var f := Feed(o, r.prepared, r.left, chunks);
            SameEffect(t.(buf := f.left, open := true),
                       Handle(s.(buf := f.left, prepared := f.prepared), r.mask + f.mask, playing))
  {
    hide Parse, Handle, SameEffect, Keeps, Feed;
    var r := Parse(o, s.prepared, s.buf + chunk);
    var f := Feed(o, r.prepared, r.left, chunks);
    var parsed := s.(buf := r.left, prepared := r.prepared);
    FeedKeeps(o, r.prepared, r.left, chunks);
    PinIsThere(o, s.prepared, s.buf + chunk);
    HandleTwice(parsed, f.left, f.prepared, r.mask, f.mask, playing);
    SameEffectTrans(t.(buf := f.left, open := true),
                    Handle(Handle(parsed, r.mask, playing).(buf := f.left, prepared := f.prepared), f.mask, playing),
                    Handle(s.(buf := f.left, prepared := f.prepared), r.mask + f.mask, playing));
  }

  lemma PinIsThere(o: Oracle, p: Prepared, buf: string)
    ensures var r := Parse(o, p, buf); r.ok && PinMsg in r.mask ==> r.prepared.pin.Some?
  {
    ParseKeeps(o, p, buf);
    hide Parse;
  }

  lemma SameEffectTrans(s: State, t: State, u: State)
    requires SameEffect(s, t) && SameEffect(t, u)
    ensures SameEffect(s, u) && SameEffect(u, s)
  {
    hide LastVolume, LastPin;
  }

  lemma HandleNothing(s: State, playing: bool)
    ensures SameEffect(s, Handle(s, {}, playing))
  {
    assert s.calls + [] == s.calls;
  }

  lemma HandleKeeps(s: State, mask: set<Msg>, playing: bool)
    ensures var t := Handle(s, mask, playing); t.buf == s.buf && t.prepared == s.prepared && t.open == s.open
  {
  }

  /** Whatever the reads, empty ones and reopened ends of file among them, the effect
      at the end is the same for the same stream, as long as no read meets a full
      buffer and the player status does not change.  After a bad line that is the
      prepared data; without one, flags, volume, PIN and flush too, and the unread
      rest if the pipe is still open. */
  lemma RunsAgree(o: Oracle, s: State, a: seq<PipeRead>, b: seq<PipeRead>, playing: bool)
    requires s.open && ExtractItem(s.buf) == None && Concat(Chunks(a)) == Concat(Chunks(b))
    requires Roomy(o, s.prepared, s.buf, Chunks(a)) && Roomy(o, s.prepared, s.buf, Chunks(b))
    ensures var t, u := Run(o, s, a, playing), Run(o, s, b, playing);
            && t.prepared == u.prepared
            && (Endless(a) == Endless(b) ==> t.open == u.open)
            && (t.open && u.open ==> SameEffect(t, u))
            && (Feed(o, s.prepared, s.buf, Chunks(a)).ok ==>
                  SameEffect(t.(buf := "", open := true), u.(buf := "", open := true)))
  {
    hide Run, Feed, Roomy, Handle, SameEffect, Endless;
    RunIsFeed(o, s, a, playing);
    RunIsFeed(o, s, b, playing);
    AnyTwoChunkings(o, s.prepared, s.buf, Chunks(a), Chunks(b));
    var f := Feed(o, s.prepared, s.buf, Chunks(a));
    if f.ok {
      var all := Handle(s.(buf := f.left, prepared := f.prepared), f.mask, playing);
      RunHandlesAll(o, s, a, playing);
      RunHandlesAll(o, s, b, playing);
      EffectsMeet(Run(o, s, a, playing), Run(o, s, b, playing), f.left, all);
    }
  }

  lemma EffectsMeet(s: State, t: State, buf: string, all: State)
    requires SameEffect(s.(buf := buf, open := true), all) && SameEffect(t.(buf := buf, open := true), all)
    ensures SameEffect(s.(buf := buf, open := true), t.(buf := buf, open := true))
    ensures SameEffect(s.(buf := "", open := true), t.(buf := "", open := true))
    ensures s.open && t.open && s.buf == t.buf == buf ==> SameEffect(s, t)
  {
    hide LastVolume, LastPin;
  }

  /** Reads of the size the program asks for. */
  predicate SmallReads(tape: seq<PipeRead>) {
    forall read <- tape :: read.Data? ==> |read.chunk| <= PIPE_READ_MAX
  }

  lemma {:induction false} SmallChunks(tape: seq<PipeRead>)
    requires SmallReads(tape)
    ensures forall chunk <- Chunks(tape) :: |chunk| <= PIPE_READ_MAX
  {
    if tape != [] {
      SmallChunks(tape[1..]);
      assert tape == [tape[0]] + tape[1..];
    }
  }

  /** The same from what a sender can see: reads as large as the program asks for,
      and no line above 1048576 - 65536 bytes. */
  lemma ShortLinesAgree(o: Oracle, s: State, a: seq<PipeRead>, b: seq<PipeRead>, playing: bool)
    requires s.open && ExtractItem(s.buf) == None && Concat(Chunks(a)) == Concat(Chunks(b))
    requires ShortLines(s.buf + Concat(Chunks(a)), BUFFER_MAX - PIPE_READ_MAX)
    requires SmallReads(a) && SmallReads(b)
    ensures var t, u := Run(o, s, a, playing), Run(o, s, b, playing);
            && t.prepared == u.prepared
            && (Endless(a) == Endless(b) ==> t.open == u.open)
            && (t.open && u.open ==> SameEffect(t, u))
            && (Feed(o, s.prepared, s.buf, Chunks(a)).ok ==>
                  SameEffect(t.(buf := "", open := true), u.(buf := "", open := true)))
  {
    hide Run, Roomy, SameEffect, ShortLines, Concat, Chunks, Feed, Endless, ExtractItem;
    SmallChunks(a);
    SmallChunks(b);
    ShortLinesAreRoomy(o, s.prepared, s.buf, Chunks(a));
    ShortLinesAreRoomy(o, s.prepared, s.buf, Chunks(b));
    RunsAgree(o, s, a, b, playing);
  }

  lemma EmptyHasNoItem()
    ensures ExtractItem("") == None
  {
  }

  /** After every callback the buffer holds no complete line. */
  lemma BufferHasNoLine(o: Oracle, s: State, read: PipeRead, playing: bool)
    requires ExtractItem(s.buf) == None
    ensures ExtractItem(ReadStep(o, s, read, playing).buf) == None
  {
    EmptyHasNoItem();
    if read.Data? && Parse(o, s.prepared, s.buf + read.chunk).ok {
      ParseLeavesNoLine(o, s.prepared, s.buf + read.chunk);
    }
  }

  // ---------- One line, one effect ----------

  /** What each message does when it comes alone. */
  lemma OneMessage(s: State, msg: Msg, playing: bool)
    ensures Handle(s, {msg}, playing) ==
            match msg
            case MetadataMsg => s.(isNew := true)
            case PictureMsg => s.(isNew := true)
            case ProgressMsg => s
            case PartialMsg => s
            case VolumeMsg => s.(calls := s.calls + [SetVolume(s.prepared.volume)])
            case PinMsg => if s.prepared.pin.Some? then s.(calls := s.calls + [Authorize(DevicePin(s.prepared.pin.value))]) else s
            case PauseMsg => if playing then s.(paused := true) else s
            case PlayMsg => if playing then s else s.(paused := false)
            case StopMsg => s.(stopping := true, calls := s.calls + [FlushInput])
  {
    assert s.calls + [] == s.calls;
  }

  lemma OneLineParses(o: Oracle, p: Prepared, line: string)
    requires NEWLINE !in line
    ensures var (q, msg) := ParseItem(o, p, line);
            Parse(o, p, line + [NEWLINE])
            == match msg case None => Parsed(q, {}, "", false) case Some(m) => Parsed(q, {m}, "", true)
  {
    LineTaken(line, "");
    assert line + [NEWLINE] + "" == line + [NEWLINE];
    EmptyHasNoItem();
    hide ParseItem, ExtractItem;
    var (q, _) := ParseItem(o, p, line);
    assert Parse(o, q, "") == Parsed(q, {}, "", true);
  }

  /** An open pipe with an empty buffer reads one line. */
  lemma OneLine(o: Oracle, s: State, line: string, playing: bool)
    requires s.open && s.buf == "" && NEWLINE !in line && |line| < BUFFER_MAX
    ensures var (q, msg) := ParseItem(o, s.prepared, line);
            ReadStep(o, s, Data(line + [NEWLINE]), playing) ==
            match msg
            case None => s.(prepared := q, open := false)
            case Some(m) => Handle(s.(prepared := q), {m}, playing)
  {
    OneLineParses(o, s.prepared, line);
    hide ParseItem, Handle, Parse;
    assert "" + (line + [NEWLINE]) == line + [NEWLINE];
  }

  /** A volume that parses is stored and set; one that does not closes the pipe. */
  lemma VolumeAtCallback(o: Oracle, s: State, value: string, playing: bool)
    requires s.open && s.buf == "" && '\0' !in value && '\n' !in value && |"VOLUME=" + value| < BUFFER_MAX
    ensures var t := ReadStep(o, s, Data("VOLUME=" + value + "\n"), playing);
            match o.atoi(value)
            case None => t == s.(open := false)
            case Some(v) => t == s.(prepared := s.prepared.(volume := v), calls := s.calls + [SetVolume(v)])
                            && LastVolume(t.calls) == Some(v)
  {
    VolumeLine(o, s.prepared, value);
    hide ParseItem, ReadStep, Handle, LastVolume;
    OneLine(o, s, "VOLUME=" + value, playing);
    if o.atoi(value).Some? {
      var v := o.atoi(value).value;
      OneMessage(s.(prepared := s.prepared.(volume := v)), VolumeMsg, playing);
      CallsSnoc(s.calls, SetVolume(v));
    }
  }

  lemma CommandLiterals()
    ensures CommandItem(SendMeta) == "ACTION=SENDMETA" && CommandItem(StopCmd) == "ACTION=STOP"
    ensures CommandItem(PauseCmd) == "ACTION=PAUSE" && CommandItem(PlayCmd) == "ACTION=PLAY"
  {
  }

  /** A command that comes alone. */
  lemma CommandAtCallback(o: Oracle, s: State, c: Command, playing: bool)
    requires s.open && s.buf == ""
    ensures ReadStep(o, s, Data(CommandLine(c)), playing) ==
            match c
            case SendMeta => s.(isNew := true)
            case StopCmd => s.(stopping := true, calls := s.calls + [FlushInput])
            case PauseCmd => if playing then s.(paused := true) else s
            case PlayCmd => if playing then s else s.(paused := false)
  {
    CommandMeans(o, s.prepared, c);
    PlainCommand(c);
    OneMessage(s, MsgOf(c), playing);
    hide ParseItem, ReadStep, Handle, CommandItem;
    OneLine(o, s, CommandItem(c), playing);
  }

  /** Artwork that could be fetched raises the notice like SENDMETA; plain metadata does
      not. */
  lemma ArtworkAtCallback(o: Oracle, s: State, value: string, playing: bool)
    requires s.open && s.buf == "" && '\0' !in value && '\n' !in value && |"ARTWORK=" + value| < BUFFER_MAX
    ensures ReadStep(o, s, Data("ARTWORK=" + value + "\n"), playing).isNew <==> s.isNew || o.artwork(value).Some?
  {
    ArtworkLine(o, s.prepared, value);
    hide ParseItem, ReadStep, Handle;
    OneLine(o, s, "ARTWORK=" + value, playing);
    OneMessage(s.(prepared := s.prepared.(meta := s.prepared.meta.(artworkUrl := o.artwork(value)))), PictureMsg, playing);
  }

  lemma TitleAtCallback(o: Oracle, s: State, value: string, playing: bool)
    requires s.open && s.buf == "" && '\0' !in value && '\n' !in value && |"TITLE=" + value| < BUFFER_MAX
    ensures ReadStep(o, s, Data("TITLE=" + value + "\n"), playing)
            == s.(prepared := s.prepared.(meta := s.prepared.meta.(title := Some(value))))
  {
    TextLines(o, s.prepared, value);
    hide ParseItem, ReadStep, Handle;
    OneLine(o, s, "TITLE=" + value, playing);
    OneMessage(s.(prepared := s.prepared.(meta := s.prepared.meta.(title := Some(value)))), PartialMsg, playing);
  }

  /** The reads that bring no data, and the one that brings too much: everything
      buffered is thrown away, the pipe is read on. */
  lemma OtherReads(o: Oracle, s: State, chunk: string, playing: bool)
    ensures ReadStep(o, s, Again, playing) == s
    ensures ReadStep(o, s, Broken, playing) == s.(open := false, buf := "")
    ensures ReadStep(o, s, Hangup(true), playing) == s.(open := true)
    ensures ReadStep(o, s, Hangup(false), playing) == s.(open := false)
    ensures |s.buf| + |chunk| > 1048576 ==> ReadStep(o, s, Data(chunk), playing) == s.(buf := "")
  {
    hide Parse, Handle;
  }

  // ---------- What does depend on the reads ----------

  /** PAUSE and PLAY do not follow each other: in a run that reads both, while the
      player status does not change, they pause a playing player and start a
      stopped one, whichever came first. */
  lemma PauseAndPlayTogether(o: Oracle, s: State, tape: seq<PipeRead>, playing: bool)
    requires s.open && Roomy(o, s.prepared, s.buf, Chunks(tape))
    requires var f := Feed(o, s.prepared, s.buf, Chunks(tape)); f.ok && PauseMsg in f.mask && PlayMsg in f.mask
    ensures Run(o, s, tape, playing).paused == playing
  {
    RunHandlesAll(o, s, tape, playing);
    hide Run, Feed, Roomy, LastVolume, LastPin, Calls, Chunks;
  }

  /** "ACTION=" and the command, without its newline. */
  function CommandItem(c: Command): string {
    KeyText(Action) + [SEP] + CommandText(c)
  }

  function CommandLine(c: Command): string {
    CommandItem(c) + [NEWLINE]
  }

  lemma CommandMeans(o: Oracle, p: Prepared, c: Command)
    ensures ParseItem(o, p, CommandItem(c)) == (p, Some(MsgOf(c)))
  {
    MeaningOfLine(Action, CommandText(c));
    CommandOrderIrrelevant(COMMAND_ORDER, CommandText(c), c);
    InCommandOrder(c);
    hide Meaning, FirstCommand;
  }

  lemma PlainCommand(c: Command)
    ensures NEWLINE !in CommandItem(c) && |CommandLine(c)| <= 16
  {
  }

  lemma LineTaken(line: string, rest: string)
    requires NEWLINE !in line
    ensures ExtractItem(line + [NEWLINE] + rest) == Some((line, rest))
  {
    var buf := line + [NEWLINE] + rest;
    IndexOfIs(buf, NEWLINE, |line|);
    assert buf[..|line|] == line && buf[|line| + 1..] == rest;
  }

  lemma CommandParses(o: Oracle, p: Prepared, c: Command, rest: string)
    ensures var r := Parse(o, p, rest);
            Parse(o, p, CommandLine(c) + rest) == r.(mask := {MsgOf(c)} + r.mask)
  {
    CommandMeans(o, p, c);
    PlainCommand(c);
    LineTaken(CommandItem(c), rest);
    hide ParseItem, CommandItem, ExtractItem;
  }

  lemma OneCommand(o: Oracle, p: Prepared, c: Command)
    ensures Parse(o, p, CommandLine(c)) == Parsed(p, {MsgOf(c)}, "", true)
  {
    hide CommandLine, ParseItem;
    EmptyHasNoItem();
    assert Parse(o, p, "") == Parsed(p, {}, "", true);
    CommandParses(o, p, c, "");
    assert CommandLine(c) + "" == CommandLine(c);
  }

  lemma TwoCommands(o: Oracle, p: Prepared, a: Command, b: Command)
    ensures Parse(o, p, CommandLine(a) + CommandLine(b)) == Parsed(p, {MsgOf(a), MsgOf(b)}, "", true)
  {
    hide CommandLine, Parse;
    CommandParses(o, p, a, CommandLine(b));
    OneCommand(o, p, b);
  }

  /** PAUSE and PLAY in one read, in either order, leave the pause flag at whether the
      player was playing; so the last of them wins if and only if it is PAUSE for a
      playing player or PLAY for another.  Read apart, with any status of the player
      at either read, the last one wins if and only if the status at its own read
      lets it, or it asks for what the flag said anyway and the first one had no
      effect. */
  lemma LastCommandWins(o: Oracle, s: State, first: Command, second: Command, before: bool, between: bool)
    requires s.open && s.buf == "" && first != second
    requires first in {PauseCmd, PlayCmd} && second in {PauseCmd, PlayCmd}
    ensures var together := ReadStep(o, s, Data(CommandLine(first) + CommandLine(second)), before);
            && together.paused == before
            && (together.paused == (second == PauseCmd) <==> (second == PauseCmd) == before)
    ensures var once := ReadStep(o, s, Data(CommandLine(first)), before);
            var twice := ReadStep(o, once, Data(CommandLine(second)), between);
            && once.open && twice.open
            && (twice.paused == (second == PauseCmd) <==>
                || (second == PauseCmd) == between
                || (s.paused == (second == PauseCmd) && (first == PauseCmd) != before))
  {
    PlainCommand(first);
    PlainCommand(second);
    TwoCommands(o, s.prepared, first, second);
    OneCommand(o, s.prepared, first);
    OneCommand(o, s.prepared, second);
    hide Parse, CommandLine, Calls;
    var both := CommandLine(first) + CommandLine(second);
    assert "" + both == both && "" + CommandLine(first) == CommandLine(first);
    assert "" + CommandLine(second) == CommandLine(second);
  }

  lemma ParsedShorter(o: Oracle, p: Prepared, buf: string)
    ensures |Parse(o, p, buf).left| <= |buf|
    decreases |buf|
  {
    hide ParseItem, ExtractItem;
    if ExtractItem(buf).Some? {
      ExtractShorter(buf);
      ParsedShorter(o, ParseItem(o, p, ExtractItem(buf).value.0).0, ExtractItem(buf).value.1);
    }
  }

  /** A line that is not understood takes whatever was understood before it in the
      same batch with it: all flags and calls.  The data stored stays.  Read
      separately, the lines before it are acted on. */
  lemma BadLineDropsCommands(o: Oracle, s: State, good: string, bad: string, playing: bool)
    requires s.open && |s.buf + good + bad| <= BUFFER_MAX
    requires var r := Parse(o, s.prepared, s.buf + good); r.ok && !Parse(o, r.prepared, r.left + bad).ok
    ensures var r := Parse(o, s.prepared, s.buf + good);
            var together := ReadStep(o, s, Data(good + bad), playing);
            var apart := ReadStep(o, ReadStep(o, s, Data(good), playing), Data(bad), playing);
            && together == s.(prepared := apart.prepared, open := false, buf := "")
            && apart == Handle(s.(prepared := r.prepared), r.mask, playing).(prepared := apart.prepared, open := false, buf := "")
  {
    hide Parse, Handle;
    var r := Parse(o, s.prepared, s.buf + good);
    ParseAppend(o, s.prepared, s.buf + good, bad);
    ParsedShorter(o, s.prepared, s.buf + good);
    assert s.buf + (good + bad) == s.buf + good + bad;
    HandleKeeps(s.(buf := r.left, prepared := r.prepared), r.mask, playing);
    HandleIgnoresBuffer(s.(prepared := r.prepared), r.left, r.mask, playing);
  }

  lemma HandleIgnoresBuffer(s: State, buf: string, mask: set<Msg>, playing: bool)
    ensures Handle(s.(buf := buf), mask, playing) == Handle(s, mask, playing).(buf := buf)
  {
  }

  /** For instance a STOP. */
  lemma BadLineDropsStop(o: Oracle, s: State, bad: string, playing: bool)
    requires s.open && s.buf == "" && !Parse(o, s.prepared, bad).ok
    requires |CommandLine(StopCmd) + bad| <= BUFFER_MAX
    ensures !s.stopping ==> !ReadStep(o, s, Data(CommandLine(StopCmd) + bad), playing).stopping
    ensures ReadStep(o, ReadStep(o, s, Data(CommandLine(StopCmd)), playing), Data(bad), playing).stopping
  {
    var stop := CommandLine(StopCmd);
    OneCommand(o, s.prepared, StopCmd);
    hide CommandLine, Parse, Calls;
    assert "" + stop == stop && "" + bad == bad;
    BadLineDropsCommands(o, s, stop, bad, playing);
  }

  lemma BlankLineIsBad(o: Oracle, p: Prepared)
    ensures !Parse(o, p, [NEWLINE]).ok
  {
    LineTaken("", "");
    assert "" + [NEWLINE] + "" == [NEWLINE];
    EmptyItemIsBad(o, p);
    hide ParseItem, ExtractItem;
  }

  lemma EmptyItemIsBad(o: Oracle, p: Prepared)
    ensures ParseItem(o, p, "").1 == None
  {
    JoinSplit("");
  }

  /** ... before an empty line. */
  lemma BlankLineDropsStop(o: Oracle, s: State, playing: bool)
    requires s.open && s.buf == ""
    ensures !s.stopping ==> !ReadStep(o, s, Data(CommandLine(StopCmd) + [NEWLINE]), playing).stopping
    ensures ReadStep(o, ReadStep(o, s, Data(CommandLine(StopCmd)), playing), Data([NEWLINE]), playing).stopping
  {
    BlankLineIsBad(o, s.prepared);
    PlainCommand(StopCmd);
    hide CommandLine, Parse;
    BadLineDropsStop(o, s, [NEWLINE], playing);
  }

  // ---------- The object ----------

  class Pipe {
    const oracle: Oracle
    var buf: string
    var prepared: Prepared
    var open: bool
    var isNew: bool
    var paused: bool
    var stopping: bool
    var calls: seq<Call>

    function Abs(): State
      reads this
    {
      State(buf, prepared, open, isNew, paused, stopping, calls)
    }

    constructor (oracle: Oracle)
      ensures this.oracle == oracle && Abs() == State("", Prepared(NOTHING, 0, None), true, false, false, false, [])
    {
      this.oracle := oracle;
      buf, prepared, open := "", Prepared(NOTHING, 0, None), true;
      isNew, paused, stopping, calls := false, false, false, [];
    }

    /** Takes one line out of the buffer. */
    method TakeItem() returns (item: Option<string>)
      modifies this`buf
      ensures match ExtractItem(old(buf))
              case None => item == None && buf == old(buf)
              case Some((line, rest)) => item == Some(line) && buf == rest
    {
      var pos := IndexOf(buf, NEWLINE);
      if pos == |buf| {
        return None;
      }
      item := Some(buf[..pos]);
      buf := buf[pos + 1..];
    }

    /** pipe_metadata_parse: drains the buffer line by line. */
    method ParseAll() returns (ok: bool, mask: set<Msg>)
      modifies this`buf, this`prepared
      ensures var r := Parse(oracle, old(prepared), old(buf));
              prepared == r.prepared && buf == r.left && ok == r.ok && (ok ==> mask == r.mask)
    {
      hide ParseItem;
      mask, ok := {}, true;
      var item := TakeItem();
      while item.Some?
        invariant ok
        invariant item.Some? ==>
                    var (q, msg) := ParseItem(oracle, prepared, item.value);
                    var rest := Parse(oracle, q, buf);
                    Parse(oracle, old(prepared), old(buf)) ==
                      if msg.None? then Parsed(q, Parse(oracle, old(prepared), old(buf)).mask, buf, false)
                      else rest.(mask := mask + ({msg.value} + rest.mask))
        invariant item.None? ==> Parse(oracle, old(prepared), old(buf)) == Parsed(prepared, mask, buf, true)
        decreases |buf|, item.Some?
      {
        var (q, msg) := ParseItem(oracle, prepared, item.value);
        prepared := q;
        if msg.None? {
          return false, mask;
        }
        mask := mask + {msg.value};
        item := TakeItem();
      }
    }

    /** The callback: pipe_metadata_read_cb. */
    method ReadCallback(read: PipeRead, playing: bool)
      requires open
      modifies this
      ensures Abs() == ReadStep(oracle, old(Abs()), read, playing)
    {
      hide Parse;
      match read {
        case Again =>
        case Broken =>
          open, buf := false, "";
        case Hangup(reopened) =>
          open := reopened;
        case Data(chunk) =>
          buf := buf + chunk;
          if |buf| > BUFFER_MAX {
            buf := "";
            return;
          }
          var ok, mask := ParseAll();
          if !ok {
            open, buf := false, "";
            return;
          }
          Act(mask, playing);
      }
    }

    /** The rest of the callback acts on the messages of the batch. */
    method Act(mask: set<Msg>, playing: bool)
      modifies this`isNew, this`paused, this`stopping, this`calls
      ensures Abs() == Handle(old(Abs()), mask, playing)
    {
      hide DevicePin, Calls;
      if MetadataMsg in mask || PictureMsg in mask {
        isNew := true;
      }
      CallPlayer(mask);
      if PauseMsg in mask && playing {
        paused := true;
      }
      if PlayMsg in mask && !playing {
        paused := false;
      }
      if StopMsg in mask {
        stopping := true;
      }
    }

    method CallPlayer(mask: set<Msg>)
      modifies this`calls
      ensures calls == old(calls) + Calls(prepared, mask)
    {
      hide DevicePin;
      var asked := [];
      if VolumeMsg in mask {
        asked := [SetVolume(prepared.volume)];
      }
      if PinMsg in mask && prepared.pin.Some? {
        asked := asked + [Authorize(DevicePin(prepared.pin.value))];
      }
      if StopMsg in mask {
        asked := asked + [FlushInput];
      }
      calls := calls + asked;
    }

    /** metadata_get: hands the prepared metadata over and forgets it. */
    method MetadataGet() returns (metadata: Metadata)
      modifies this`prepared
      ensures metadata == old(prepared.meta) && prepared == old(prepared).(meta := NOTHING)
    {
      metadata := prepared.meta;
      prepared := prepared.(meta := NOTHING);
    }
  }
}
