/** The start-of-playback machine of src/mass.c: setup() primes the source buffer,
    play() is called once per iteration of the input loop, and the command thread
    sets flags in between.  One call of play() and one flag change are each one
    atomic step. */
module Playback {
  import opened Common
  import opened Timespec

  const STDIN_READ_MAX := 65536
  const PRIMED_MS := 4500

  /** What stays fixed while the program runs. */
  datatype Config = Config(rate: nat, bits: nat, channels: nat, latencyMs: nat,
                           inputWriteMs: int, bufferMs: nat, pairing: Timespec) {
    /** The values mass_init() lets through, and the ranges of the C types. */
    predicate Valid() {
      && rate in {44100, 48000, 88200, 96000}
      && bits in {16, 32}
      && channels == 2
      && latencyMs < TWO64
      && -TWO63 <= inputWriteMs < TWO63
      && pairing.Normal()
    }

    /** Bytes of `samples` sample periods. */
    function Stob(samples: nat): nat {
      samples * channels * bits / 8
    }

    /** Bytes of one sample period. */
    function Frame(): (r: nat)
      requires Valid()
      ensures r == if bits == 16 then 4 else 8
    {
      channels * bits / 8
    }
  }

  lemma StobIsFrames(c: Config, samples: nat)
    requires c.Valid()
    ensures c.Stob(samples) == samples * c.Frame()
    ensures c.Stob(samples) / c.Frame() == samples
  {
    if c.bits == 16 {
      assert samples * 2 * 16 / 8 == samples * 4;
    } else {
      assert samples * 2 * 32 / 8 == samples * 8;
    }
  }

  /** One evbuffer_read() of at most STDIN_READ_MAX bytes. */
  datatype Read = Data(bytes: Bytes) | Again | Eof | Broken

  predicate ReadOk(r: Read) {
    r.Data? ==> 0 < |r.bytes| <= STDIN_READ_MAX
  }

  /** What the outside world answers during one call of play(). */
  datatype Env = Env(read: Read, drainOk: bool, first: Clock, now: Clock) {
    predicate Valid() {
      ReadOk(read) && ClockOk(first) && ClockOk(now)
    }
  }

  /** One input_write(): the sink takes the whole buffer. */
  datatype Write =
    | Audio(data: Bytes, metadata: bool, sync: bool)
    | EndOfStream(data: Bytes)
    | Failure

  /** The variables of play() and the flags, with the history of the stream:
      `got` is everything read, `dropped` everything ignored, `lost` what a read
      error threw away, `sink` every input_write() so far. */
  datatype State = State(
    evbuf: Bytes, readCount: nat, toRemove: nat, removed: nat, written: bool,
    startTs: Timespec, earliest: Timespec,
    paused: bool, stopping: bool, isNew: bool, open: bool,
    sink: seq<Write>, got: Bytes, dropped: Bytes, lost: Bytes)

  function Init(primed: Bytes, startTs: Timespec): State {
    State(primed, 0, 0, 0, false, startTs, Timespec(0, 0), false, false, false, true, [], primed, [], [])
  }

  // ---------- The arithmetic of play() ----------

  /** The earliest moment a packet can be played: the output buffer counts only
      when it is not yet covered by primed data. */
  function Earliest(c: Config, buffered: nat, first: Timespec): (r: Timespec)
    ensures first.Normal() && c.pairing.Normal() ==> r.Normal()
    ensures r.Nanos() == first.Nanos() + c.pairing.Nanos()
                         + if buffered > c.Stob(c.bufferMs * c.rate) / 1000 then 0 else c.bufferMs * NS_PER_MS
  {
    if buffered > c.Stob(c.bufferMs * c.rate) / 1000
    then Add(first, c.pairing)
    else Add(Add(first, OutputBufferTs(c.bufferMs)), c.pairing)
  }

  /** Samples in `lateNs` nanoseconds; the product is a uint64_t and wraps. */
  function LateSamples(c: Config, lateNs: nat): nat {
    c.rate * lateNs % TWO64 / NS_PER_SEC
  }

  function LateBytes(c: Config, earliest: Timespec, start: Timespec): nat {
    if earliest.Nanos() > start.Nanos()
    then c.Stob(LateSamples(c, earliest.Nanos() - start.Nanos()))
    else 0
  }

  /** Milliseconds from `now` to `start`, truncated toward zero by the cast. */
  function DeltaMs(start: Timespec, now: Timespec): int {
    var ns := Sub(start, now).Nanos();
    if ns >= 0 then ns / NS_PER_MS else -(-ns / NS_PER_MS)
  }

  /** The test that keeps waiting: int64_t against uint64_t, so both sides are
      taken modulo 2^64. */
  predicate HoldsBack(c: Config, deltaMs: int) {
    deltaMs % TWO64 > (c.latencyMs + c.inputWriteMs) % TWO64
  }

  // ---------- One call of play() ----------

  /** EOF or STOP: the sink gets what is buffered and the source is closed. */
  function Finish(s: State): State {
    s.(sink := s.sink + [EndOfStream(s.evbuf)], evbuf := [], open := false)
  }

  /** A read error: the sink is told, the buffered bytes are freed. */
  function Break(s: State): State {
    s.(sink := s.sink + [Failure], evbuf := [], lost := s.evbuf, open := false)
  }

  function Emit(s: State, metadata: bool, sync: bool): State {
    s.(sink := s.sink + [Audio(s.evbuf, metadata, sync)], evbuf := [], written := true)
  }

  function Drop(s: State, n: nat): State
    requires n <= |s.evbuf|
  {
    s.(evbuf := s.evbuf[n..], removed := s.removed + n, dropped := s.dropped + s.evbuf[..n])
  }

  /** Fixed at the first read: how late playback is. */
  function Schedule(c: Config, s: State, first: Timespec): State {
    var earliest := Earliest(c, |s.evbuf|, first);
    s.(earliest := earliest,
       toRemove := if earliest.Nanos() > s.startTs.Nanos() then LateBytes(c, earliest, s.startTs) else s.toRemove)
  }

  /** Too late: ignore what should have been played already. */
  function DropStep(s: State, metadata: bool, env: Env): (State, int)
    requires s.toRemove > s.removed
  {
    var need := s.toRemove - s.removed;
    if !env.drainOk then (s, -1)
    else if need > |s.evbuf| then (Drop(s, |s.evbuf|), 0)
    else if need == |s.evbuf| then (Drop(s, need), 0)
    else (Release(s, metadata), 0)
  }

  /** The last of the drop leaves data: the start time moves to the earliest one. */
  function Release(s: State, metadata: bool): State
    requires 0 < s.toRemove - s.removed < |s.evbuf|
  {
    Emit(Drop(s, s.toRemove - s.removed).(startTs := s.earliest), metadata, true)
  }

  /** Not too late: hold the data back until the start is near. */
  function GateStep(c: Config, s: State, metadata: bool, env: Env): (State, int) {
    if env.now.Failed? then (s, -1)
    else if HoldsBack(c, DeltaMs(s.startTs, env.now.ts)) then (s, 0)
    else (Emit(s, metadata, true), 0)
  }

  function Commence(c: Config, s: State, metadata: bool, env: Env): (State, int) {
    if s.written || s.startTs.sec == 0 then (Emit(s, metadata, false), 0)
    else if s.toRemove > s.removed then DropStep(s, metadata, env)
    else GateStep(c, s, metadata, env)
  }

  /** The part of play() after a successful read. */
  function AfterRead(c: Config, s: State, metadata: bool, env: Env): (State, int) {
    if s.readCount == 1 && s.startTs.sec != 0 then
      if env.first.Failed? then (s, -1)
      else Commence(c, Schedule(c, s, env.first.ts), metadata, env)
    else Commence(c, s, metadata, env)
  }

  function Received(s: State, bytes: Bytes): State {
    s.(evbuf := s.evbuf + bytes, got := s.got + bytes, readCount := s.readCount + 1, isNew := false)
  }

  function PlayStep(c: Config, s: State, env: Env): (State, int) {
    if s.paused then (s, 0)
    else if s.stopping then (Finish(s), -1)
    else match env.read
      case Eof => (Finish(s), -1)
      case Again => (s, 0)
      case Broken => (Break(s), -1)
      case Data(bytes) => AfterRead(c, Received(s, bytes), s.isNew, env)
  }

  // ---------- Whole runs ----------

  /** A call of play() by the input loop, or a step of the command thread. */
  datatype Event = Play(env: Env) | Pause | Resume | Stop | Notify

  predicate EventsOk(events: seq<Event>) {
    forall e <- events :: e.Play? ==> e.env.Valid()
  }

  /** The input loop does not call play() again once the source is closed. */
  function Step(c: Config, s: State, e: Event): State {
    match e
    case Play(env) => if s.open then PlayStep(c, s, env).0 else s
    case Pause => s.(paused := true)
    case Resume => s.(paused := false)
    case Stop => s.(stopping := true)
    case Notify => s.(isNew := true)
  }

  function Run(c: Config, s: State, events: seq<Event>): State
    decreases |events|
  {
    if events == [] then s else Run(c, Step(c, s, events[0]), events[1..])
  }

  function Delivered(sink: seq<Write>): Bytes {
    if sink == [] then []
    else Delivered(sink[..|sink| - 1]) + if sink[|sink| - 1].Failure? then [] else sink[|sink| - 1].data
  }
}
