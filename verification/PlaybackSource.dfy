/** The input source object: the static variables of play() and the shared flags,
    updated in place.  Its methods are proved against the machine of Playback. */
module PlaybackSource {
  import opened Common
  import opened Timespec
  import opened Playback
  import opened PlaybackRuns

  /** PRIMED_AUDIO_DURATION_MS * STOB(rate, bits, channels), in C's int. */
  function PrimingProduct(c: Config): nat {
    PRIMED_MS * c.Stob(c.rate)
  }

  /** The int product overflows for two of the eight accepted qualities. */
  lemma PrimingOverflow(c: Config)
    requires c.Valid()
    ensures PrimingProduct(c) < TWO31 <==> !(c.rate >= 88200 && c.bits == 32)
  {
    StobIsFrames(c, c.rate);
  }

  /** The bytes of the successful reads among the first k answers. */
  function Joined(tape: seq<Read>, k: nat): Bytes
    requires k <= |tape|
  {
    if k == 0 then [] else Joined(tape, k - 1) + if tape[k - 1].Data? then tape[k - 1].bytes else []
  }

  /** In order: each successful read comes after everything read before it. */
  lemma JoinedPiece(tape: seq<Read>, j: nat)
    requires j < |tape|
    ensures Joined(tape, j) <= Joined(tape, j + 1)
    ensures Joined(tape, j + 1)[|Joined(tape, j)|..] == if tape[j].Data? then tape[j].bytes else []
  {
  }

  lemma {:induction false} JoinedPrefix(tape: seq<Read>, j: nat, k: nat)
    requires j <= k <= |tape|
    ensures Joined(tape, j) <= Joined(tape, k)
  {
    if j < k {
      JoinedPrefix(tape, j, k - 1);
      JoinedPiece(tape, k - 1);
    }
  }

  /** Everything a run has received, wherever it is by now. */
  function InStream(s: State): Bytes {
    s.dropped + Delivered(s.sink) + s.evbuf + s.lost
  }

  lemma PrimedFirst(c: Config, primed: Bytes, start: Timespec, events: seq<Event>)
    requires c.Valid() && start.Normal() && EventsOk(events)
    ensures primed <= InStream(Run(c, Init(primed, start), events))
  {
    Conservation(c, primed, start, events);
    hide Run, Consumed, Delivered;
  }

  /** From the descriptor to the sink: read number j of the priming loop stands in what
      the run ignores, delivers, buffers or loses, right behind the reads before it. */
  lemma PrimingReadInStream(c: Config, tape: seq<Read>, used: nat, start: Timespec, events: seq<Event>, j: nat)
    requires c.Valid() && start.Normal() && EventsOk(events)
    requires j < used <= |tape| && tape[j].Data?
    ensures var all := InStream(Run(c, Init(Joined(tape, used), start), events));
            var at := |Joined(tape, j)|;
            at + |tape[j].bytes| <= |all| && all[at..at + |tape[j].bytes|] == tape[j].bytes
  {
    hide *;
    PrimedFirst(c, Joined(tape, used), start, events);
    JoinedPiece(tape, j);
    JoinedPrefix(tape, j + 1, used);
    InMiddle(InStream(Run(c, Init(Joined(tape, used), start), events)),
             Joined(tape, used), Joined(tape, j + 1), Joined(tape, j), tape[j].bytes);
  }

  lemma InMiddle(all: Bytes, primed: Bytes, upTo: Bytes, before: Bytes, piece: Bytes)
    requires primed <= all && upTo <= primed && before <= upTo && upTo[|before|..] == piece
    ensures |before| + |piece| <= |all| && all[|before|..|before| + |piece|] == piece
  {
    assert all[..|upTo|] == upTo;
    assert all[|before|..|upTo|] == all[..|upTo|][|before|..];
  }

  /** How many answers the priming loop takes, having counted the first k: one
      more read follows as long as the bytes counted before are below `limit`. */
  function PrimingReads(tape: seq<Read>, k: nat, limit: nat): (used: nat)
    requires k <= |tape|
    ensures k <= used <= |tape|
    decreases |tape| - k
  {
    if k == |tape| then k
    else if tape[k].Data? && |Joined(tape, k)| < limit then PrimingReads(tape, k + 1, limit)
    else k + 1
  }

  /** Exactly: the loop goes on while a read succeeded and the bytes before it were short
      of the limit, and takes the first answer for which that fails. */
  lemma {:induction false} PrimingStops(tape: seq<Read>, k: nat, limit: nat)
    requires k <= |tape|
    ensures var used := PrimingReads(tape, k, limit);
            && (k < |tape| ==> k < used)
            && (forall j :: k <= j < used - 1 ==> tape[j].Data? && |Joined(tape, j)| < limit)
            && (k < used ==> used == |tape| || !tape[used - 1].Data? || |Joined(tape, used - 1)| >= limit)
    decreases |tape| - k
  {
    hide Joined;
    if k < |tape| && tape[k].Data? && |Joined(tape, k)| < limit {
      PrimingStops(tape, k + 1, limit);
    }
  }

  /** The limit is four and a half seconds of audio. */
  lemma PrimingLimit(c: Config)
    requires c.Valid()
    ensures 2 * (PrimingProduct(c) / 1000) == 9 * c.Stob(c.rate)
    ensures c.Stob(c.rate) == c.rate * (if c.bits == 16 then 4 else 8)
  {
    StobIsFrames(c, c.rate);
  }

  /** Priming overshoots its limit by less than two reads, and stops short of it
      only when the descriptor has nothing more to give. */
  lemma {:induction false} PrimingBound(tape: seq<Read>, k: nat, limit: nat)
    requires k <= |tape| && (forall r <- tape :: ReadOk(r)) && |Joined(tape, k)| < limit + STDIN_READ_MAX
    ensures var used := PrimingReads(tape, k, limit);
            && |Joined(tape, used)| < limit + 2 * STDIN_READ_MAX
            && (|Joined(tape, used)| >= limit || used == |tape| || !tape[used - 1].Data?)
    decreases |tape| - k
  {
    if k < |tape| {
      assert tape[k] in tape && |Joined(tape, k + 1)| <= |Joined(tape, k)| + STDIN_READ_MAX;
      if tape[k].Data? && |Joined(tape, k)| < limit {
        PrimingBound(tape, k + 1, limit);
      }
    }
  }

  class Source {
    const c: Config

    var evbuf: Bytes
    var readCount: nat
    var toRemove: nat
    var removed: nat
    var written: bool
    var startTs: Timespec
    var earliest: Timespec
    var paused: bool
    var stopping: bool
    var isNew: bool
    var open: bool

    var sink: seq<Write>
    ghost var got: Bytes
    ghost var dropped: Bytes
    ghost var lost: Bytes

    ghost function Abs(): State
      reads this
    {
      State(evbuf, readCount, toRemove, removed, written, startTs, earliest,
            paused, stopping, isNew, open, sink, got, dropped, lost)
    }

    predicate Valid()
      reads this
    {
      c.Valid() && startTs.Normal() && earliest.Normal()
    }

    constructor (c: Config, startTs: Timespec)
      requires c.Valid() && startTs.Normal()
      ensures this.c == c && Valid() && Abs() == Init([], startTs)
    {
      this.c, this.startTs, earliest := c, startTs, Timespec(0, 0);
      evbuf, readCount, toRemove, removed, written := [], 0, 0, 0, false;
      paused, stopping, isNew, open := false, false, false, true;
      sink, got, dropped, lost := [], [], [], [];
    }

    /** Primes the buffer.  `tape` is what the descriptor will answer, and would
        block at its end; `limit` is the quotient of the priming product where
        C defines it, and anything where the product overflows. */
    method Setup(tape: seq<Read>, limit: nat) returns (ret: int, used: nat)
      requires Valid() && Abs() == Init([], startTs)
      requires PrimingProduct(c) < TWO31 ==> limit == PrimingProduct(c) / 1000
      modifies this
      ensures Valid() && used == PrimingReads(tape, 0, limit)
      ensures Abs() == Init(Joined(tape, used), old(startTs))
      ensures ret == if used > 0 && tape[used - 1].Broken? then -1 else 0
    {
      assert Joined(tape, 0) == [];
      hide Joined, Init;
      var primed := 0;
      var last;
      last, used := ReadInto(tape, 0);
      while last.Data? && primed < limit
        invariant Valid() && used <= |tape|
        invariant Abs() == Init(Joined(tape, used), old(startTs))
        invariant last.Data? ==> used > 0 && last == tape[used - 1] && primed == |Joined(tape, used - 1)|
        invariant last.Data? ==> PrimingReads(tape, 0, limit) == PrimingReads(tape, used - 1, limit)
        invariant !last.Data? ==> used == PrimingReads(tape, 0, limit)
        invariant !last.Data? ==> (last.Broken? <==> used > 0 && tape[used - 1].Broken?)
        decreases |tape| - used, last.Data?
      {
        primed := primed + |last.bytes|;
        last, used := ReadInto(tape, used);
      }
      ret := if last.Broken? then -1 else 0;
    }

    /** One evbuffer_read() of the priming loop; past the tape it would block. */
    method ReadInto(tape: seq<Read>, used: nat) returns (last: Read, next: nat)
      requires Valid() && used <= |tape| && Abs() == Init(Joined(tape, used), startTs)
      modifies this`evbuf, this`got
      ensures if used < |tape| then last == tape[used] && next == used + 1 else last == Again && next == used
      ensures Abs() == Init(Joined(tape, next), startTs)
      ensures last.Data? ==> |Joined(tape, next)| == |Joined(tape, used)| + |last.bytes|
    {
      if used == |tape| {
        return Again, used;
      }
      last, next := tape[used], used + 1;
      if last.Data? {
        evbuf := evbuf + last.bytes;
        got := got + last.bytes;
      }
    }

    /** One call by the input loop; -1 ends it. */
    method Play(env: Env) returns (ret: int)
      requires Valid() && env.Valid() && open
      modifies this
      ensures Valid()
      ensures (Abs(), ret) == PlayStep(c, old(Abs()), env)
    {
      hide Finish, Break, Received, AfterRead;
      if paused {
        return 0;
      }
      if stopping {
        EndStream();
        return -1;
      }
      if env.read.Eof? {
        EndStream();
        return -1;
      } else if env.read.Again? {
        return 0;
      } else if env.read.Broken? {
        FailStream();
        return -1;
      }
      var metadata := Take(env.read.bytes);
      ret := Proceed(metadata, env);
    }

    /** Data arrived; the metadata notice is used up. */
    method Take(bytes: Bytes) returns (metadata: bool)
      modifies this`evbuf, this`got, this`readCount, this`isNew
      ensures metadata == old(isNew)
      ensures Abs() == Received(old(Abs()), bytes)
    {
      evbuf := evbuf + bytes;
      got := got + bytes;
      readCount := readCount + 1;
      metadata := isNew;
      isNew := false;
    }

    /** input_write() with the error flag, then stop(). */
    method FailStream()
      modifies this`sink, this`evbuf, this`open, this`lost
      ensures Abs() == Break(old(Abs()))
    {
      sink := sink + [Failure];
      lost := evbuf;
      evbuf, open := [], false;
    }

    /** input_write() with the EOF flag, then stop(). */
    method EndStream()
      modifies this`sink, this`evbuf, this`open
      ensures Abs() == Finish(old(Abs()))
    {
      sink := sink + [EndOfStream(evbuf)];
      evbuf, open := [], false;
    }

    method Proceed(metadata: bool, env: Env) returns (ret: int)
      requires Valid() && env.Valid()
      modifies this
      ensures Valid()
      ensures (Abs(), ret) == AfterRead(c, old(Abs()), metadata, env)
    {
      hide Commence, Schedule;
      if readCount == 1 && startTs.sec != 0 {
        if env.first.Failed? {
          return -1;
        }
        ScheduleStart(env.first.ts);
      }
      ret := Begin(metadata, env);
    }

    /** How late the start is, decided once. */
    method ScheduleStart(first: Timespec)
      requires Valid() && first.Normal()
      modifies this`earliest, this`toRemove
      ensures Valid() && Abs() == Schedule(c, old(Abs()), first)
    {
      hide LateBytes;
      earliest := EarliestPacket(first);
      if Cmp(earliest, startTs) > 0 {
        toRemove := BytesLate();
      }
    }

    method EarliestPacket(first: Timespec) returns (ts: Timespec)
      requires Valid() && first.Normal()
      ensures ts == Earliest(c, |evbuf|, first)
    {
      if |evbuf| > c.Stob(c.bufferMs * c.rate) / 1000 {
        ts := Add(first, c.pairing);
      } else {
        ts := Add(first, OutputBufferTs(c.bufferMs));
        ts := Add(ts, c.pairing);
      }
    }

    method BytesLate() returns (n: nat)
      requires earliest.Nanos() > startTs.Nanos()
      ensures n == LateBytes(c, earliest, startTs)
    {
      var duration := Sub(earliest, startTs);
      var nsecToRemove := duration.sec * NS_PER_SEC + duration.nsec;
      var samplesToRemove := c.rate * nsecToRemove % TWO64 / NS_PER_SEC;
      n := c.Stob(samplesToRemove);
    }

    /** From the decision on: ignore, hold back or write. */
    method Begin(metadata: bool, env: Env) returns (ret: int)
      requires Valid() && env.Valid()
      modifies this
      ensures Valid()
      ensures (Abs(), ret) == Commence(c, old(Abs()), metadata, env)
    {
      hide HoldsBack, DeltaMs;
      var sync := false;
      if !written && startTs.sec != 0 {
        if toRemove > 0 && toRemove > removed {
          var buflen := |evbuf|;
          if !env.drainOk {
            return -1;
          }
          if toRemove - removed > buflen {
            Drain(buflen);
            return 0;
          }
          Drain(toRemove - removed);
          if |evbuf| == 0 {
            return 0;
          }
          startTs := earliest;
        } else {
          if env.now.Failed? {
            return -1;
          }
          var deltaMs := DeltaMs(startTs, env.now.ts);
          if HoldsBack(c, deltaMs) {
            return 0;
          }
        }
        sync := true;
      }
      InputWrite(metadata, sync);
      return 0;
    }

    method Drain(n: nat)
      requires n <= |evbuf|
      modifies this`evbuf, this`dropped, this`removed
      ensures Abs() == Drop(old(Abs()), n)
    {
      dropped := dropped + evbuf[..n];
      evbuf := evbuf[n..];
      removed := removed + n;
    }

    method InputWrite(metadata: bool, sync: bool)
      modifies this`sink, this`evbuf, this`written
      ensures Abs() == Emit(old(Abs()), metadata, sync)
    {
      sink := sink + [Audio(evbuf, metadata, sync)];
      evbuf := [];
      written := true;
    }
  }
}
