/** Clock values, as src/misc.c and src/cliap2.c compute with them.  Seconds are
    unbounded integers here; nothing in the modelled code comes near 2^63. */
module Timespec {

  const NS_PER_SEC := 1_000_000_000
  const NS_PER_MS := 1_000_000

  datatype Timespec = Timespec(sec: int, nsec: int) {
    /** What clock_gettime promises of the values it returns. */
    predicate Normal() {
      0 <= nsec < NS_PER_SEC
    }

    /** The reading as one number of nanoseconds. */
    function Nanos(): int {
      sec * NS_PER_SEC + nsec
    }
  }

  /** One clock_gettime call: what it read, or its error return. */
  datatype Clock = Reading(ts: Timespec) | Failed

  predicate ClockOk(c: Clock) {
    c.Reading? ==> c.ts.Normal()
  }

  function Add(a: Timespec, b: Timespec): (r: Timespec)
    ensures r.Nanos() == a.Nanos() + b.Nanos()
    ensures a.Normal() && b.Normal() ==> r.Normal()
  {
    var sum := Timespec(a.sec + b.sec, a.nsec + b.nsec);
    if sum.nsec >= NS_PER_SEC then Timespec(sum.sec + 1, sum.nsec - NS_PER_SEC) else sum
  }

  /** The subtraction play() uses; its text is not in this repository, and a
      normalising subtraction is assumed. */
  function Sub(a: Timespec, b: Timespec): (r: Timespec)
    ensures r.Nanos() == a.Nanos() - b.Nanos()
    ensures a.Normal() && b.Normal() ==> r.Normal()
  {
    if a.nsec < b.nsec
    then Timespec(a.sec - b.sec - 1, NS_PER_SEC + a.nsec - b.nsec)
    else Timespec(a.sec - b.sec, a.nsec - b.nsec)
  }

  function Cmp(a: Timespec, b: Timespec): (r: int)
    requires a.Normal() && b.Normal()
    ensures r == -1 || r == 0 || r == 1
    ensures r < 0 <==> a.Nanos() < b.Nanos()
    ensures r > 0 <==> a.Nanos() > b.Nanos()
    ensures r == 0 <==> a == b
  {
    if a.sec < b.sec then -1
    else if a.sec > b.sec then 1
    else if a.nsec < b.nsec then -1
    else if a.nsec > b.nsec then 1
    else 0
  }

  /** start_buffer_ms as a timespec. */
  function OutputBufferTs(ms: nat): (r: Timespec)
    ensures r.Normal() && r.Nanos() == ms * NS_PER_MS
  {
    Timespec(ms / 1000, ms % 1000 * 1000 * 1000)
  }

  /** A timespec object that C code writes through a pointer. */
  class Cell {
    var sec: int
    var nsec: int

    constructor (ts: Timespec)
      ensures Value() == ts
    {
      sec, nsec := ts.sec, ts.nsec;
    }

    function Value(): Timespec
      reads this
    {
      Timespec(sec, nsec)
    }
  }

  /** Writes t1 - t2 through `result`, which may be t1, t2 or both: nothing here
      says that the three are different objects. */
  method Subtract(result: Cell, t1: Cell, t2: Cell)
    modifies result
    ensures result.Value().Nanos() == old(t1.Value().Nanos()) - old(t2.Value().Nanos())
    ensures old(t1.Value().Normal()) && old(t2.Value().Normal()) ==> result.Value().Normal()
  {
    if t1.nsec < t2.nsec {
      result.sec := t1.sec - t2.sec - 1;
      result.nsec := NS_PER_SEC + t1.nsec - t2.nsec;
    } else {
      result.sec := t1.sec - t2.sec;
      result.nsec := t1.nsec - t2.nsec;
    }
  }
}
