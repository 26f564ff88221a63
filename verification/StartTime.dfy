/** The start-time arithmetic of src/cliap2.c: NTP timestamps (section 6 of
    RFC 5905: 32-bit seconds since 1900, 32-bit binary fraction) and the
    conversion of a requested NTP start time to the player's clock. */
module StartTime {
  import opened Common
  import opened Timespec

  /** Seconds from 1900-01-01 to 1970-01-01. */
  const NTP_EPOCH_DELTA := 0x83aa_7e80
  /** The odd part of 10^9; NS_PER_SEC == 512 * FIVE_POW_9. */
  const FIVE_POW_9 := 1_953_125
  const WORST_FRAC := 17

  datatype Ntp = Ntp(sec: int, frac: int) {
    /** Both halves fit their 32-bit fields. */
    predicate Valid() {
      0 <= sec < TWO32 && 0 <= frac < TWO32
    }
  }

  function FracOfNanos(nsec: int): int {
    nsec * TWO32 / NS_PER_SEC
  }

  function NanosOfFrac(frac: int): int {
    frac * NS_PER_SEC / TWO32
  }

  /** The seconds are stored in a uint32_t, so they wrap; the fraction is the
      exact floor of the double product. */
  function TimespecToNtp(ts: Timespec): (r: Ntp)
    ensures ts.Normal() ==> r.Valid()
  {
    Ntp((ts.sec + NTP_EPOCH_DELTA) % TWO32, FracOfNanos(ts.nsec))
  }

  /** The subtraction is done on 32-bit unsigned values and wraps. */
  function NtpToTimespec(ns: Ntp): (r: Timespec)
    ensures ns.Valid() ==> r.Normal() && 0 <= r.sec < TWO32
  {
    Timespec((ns.sec - NTP_EPOCH_DELTA) % TWO32, NanosOfFrac(ns.frac))
  }

  /** The number printed for --ntp and read back from --ntpstart. */
  function Pack(ns: Ntp): int {
    ns.sec * TWO32 + ns.frac
  }

  function Unpack(t: int): (r: Ntp)
    requires 0 <= t < TWO32 * TWO32
    ensures r.Valid()
  {
    Ntp(t / TWO32, t % TWO32)
  }

  lemma PackUnpack(ns: Ntp)
    requires ns.Valid()
    ensures 0 <= Pack(ns) < TWO32 * TWO32
    ensures Unpack(Pack(ns)) == ns
  {
    assert Pack(ns) / TWO32 == ns.sec;
  }

  lemma UnpackPack(t: int)
    requires 0 <= t < TWO32 * TWO32
    ensures Pack(Unpack(t)) == t
  {
  }

  /** 2^23 has an inverse modulo 5^9, so n * 2^32 is a whole number of 10^9 only
      when n is a multiple of 5^9. */
  lemma WholeFraction(n: int)
    ensures n * TWO32 % NS_PER_SEC == 0 <==> n % FIVE_POW_9 == 0
  {
    if n % FIVE_POW_9 == 0 {
      var k := n / FIVE_POW_9;
      assert n * TWO32 == (k * 0x80_0000) * NS_PER_SEC;
    }
    if n * TWO32 % NS_PER_SEC == 0 {
      var q := n * TWO32 / NS_PER_SEC;
      assert n * 0x80_0000 == q * FIVE_POW_9;
      // 1241897 is the inverse of 2^23 modulo 5^9
      assert 1_241_897 * 0x80_0000 == 5_333_907 * FIVE_POW_9 + 1;
      assert n == (q * 1_241_897 - n * 5_333_907) * FIVE_POW_9;
    }
  }

  /** Nanoseconds to fraction and back: exact on multiples of 5^9, one less on
      everything else. */
  lemma NanosRoundTrip(n: int)
    requires 0 <= n < NS_PER_SEC
    ensures 0 <= FracOfNanos(n) < TWO32
    ensures NanosOfFrac(FracOfNanos(n)) == if n % FIVE_POW_9 == 0 then n else n - 1
  {
    WholeFraction(n);
    assert n * TWO32 == FracOfNanos(n) * NS_PER_SEC + n * TWO32 % NS_PER_SEC;
  }

  /** Fraction to nanoseconds and back loses between 0 and 5 units of 2^-32 s:
      the remainder of the first division, rounded up to whole nanoseconds. */
  lemma FracRoundTrip(f: int)
    requires 0 <= f < TWO32
    ensures 0 <= NanosOfFrac(f) < NS_PER_SEC
    ensures 0 <= f - FracOfNanos(NanosOfFrac(f)) <= 5
    ensures f - FracOfNanos(NanosOfFrac(f)) == (f * NS_PER_SEC % TWO32 + NS_PER_SEC - 1) / NS_PER_SEC
  {
    var q, r := NanosOfFrac(f), f * NS_PER_SEC % TWO32;
    assert f * NS_PER_SEC == q * TWO32 + r;
    var up := (r + NS_PER_SEC - 1) / NS_PER_SEC;
    assert q * TWO32 == (f - up) * NS_PER_SEC + (up * NS_PER_SEC - r);
  }

  /** A loss of 5 does happen. */
  lemma FracRoundTripWorstCase()
    ensures FracOfNanos(NanosOfFrac(WORST_FRAC)) == WORST_FRAC - 5
  {
  }

  /** Later nanoseconds never get an earlier fraction, and different ones get
      different fractions; the way back keeps the order too. */
  lemma FractionsMonotone(m: int, n: int)
    ensures m < n ==> FracOfNanos(m) < FracOfNanos(n)
    ensures m <= n ==> NanosOfFrac(m) <= NanosOfFrac(n)
  {
    if m < n {
      var qm, qn := FracOfNanos(m), FracOfNanos(n);
      assert qm * NS_PER_SEC <= m * TWO32 && n * TWO32 < (qn + 1) * NS_PER_SEC;
    }
    if m <= n {
      var qm, qn := NanosOfFrac(m), NanosOfFrac(n);
      assert qm * TWO32 <= m * NS_PER_SEC && n * NS_PER_SEC < (qn + 1) * TWO32;
    }
  }

  /** Round trip of a whole timestamp: the second comes back exactly when it lies
      in [0, 2^32), although the NTP second wraps on the way. */
  lemma TimespecRoundTrip(ts: Timespec)
    requires ts.Normal()
    ensures var back := NtpToTimespec(TimespecToNtp(ts));
            && (back.sec == ts.sec <==> 0 <= ts.sec < TWO32)
            && (back.nsec == ts.nsec <==> ts.nsec % FIVE_POW_9 == 0)
            && (back.nsec == ts.nsec || back.nsec == ts.nsec - 1)
  {
    NanosRoundTrip(ts.nsec);
    var wrapped := (ts.sec + NTP_EPOCH_DELTA) % TWO32;
    var k := (ts.sec + NTP_EPOCH_DELTA) / TWO32;
    assert wrapped - NTP_EPOCH_DELTA == ts.sec - k * TWO32;
    assert (ts.sec - k * TWO32) % TWO32 == ts.sec % TWO32;
  }

  /** A 32-bit second counts from 1900 up to here. */
  predicate InFirstEra(ts: Timespec) {
    ts.Normal() && 0 <= ts.sec + SECONDS_1900_TO_1970 < TWO32
  }

  /** 70 years, 17 of them leap years. */
  const SECONDS_1900_TO_1970 := (70 * 365 + 17) * 24 * 60 * 60

  /** The NTP number is the time since 1900 in units of 2^-32 seconds, rounded
      down. */
  lemma NtpIsTimeSince1900(ts: Timespec)
    requires InFirstEra(ts)
    ensures var t := Pack(TimespecToNtp(ts));
            t * NS_PER_SEC <= (ts.Nanos() + SECONDS_1900_TO_1970 * NS_PER_SEC) * TWO32 < (t + 1) * NS_PER_SEC
  {
    var f := FracOfNanos(ts.nsec);
    assert f * NS_PER_SEC <= ts.nsec * TWO32 < (f + 1) * NS_PER_SEC;
  }

  /** Within an era later times have greater numbers, and one nanosecond is
      enough. */
  lemma NtpKeepsOrder(a: Timespec, b: Timespec)
    requires InFirstEra(a) && InFirstEra(b)
    ensures a.Nanos() < b.Nanos() <==> Pack(TimespecToNtp(a)) < Pack(TimespecToNtp(b))
  {
    NtpIsTimeSince1900(a);
    NtpIsTimeSince1900(b);
    hide TimespecToNtp, Pack;
  }

  // ---------- Too soon ----------

  /** Milliseconds left, as the code computes them. */
  function LagMs(lag: Timespec): int {
    AsInt32(lag.sec * 1000) + lag.nsec / NS_PER_MS
  }

  /** The pairing latency the code compares with; its seconds are not multiplied by
      1000. */
  function PairingMs(pairing: Timespec): int {
    pairing.sec + pairing.nsec / NS_PER_MS
  }

  function TooSoon(lag: Timespec, pairing: Timespec): bool {
    LagMs(lag) < PairingMs(pairing)
  }

  /** The lag is the time left in whole milliseconds, rounded down, if and only if
      the seconds fit; that is within 24 days of the start. */
  lemma LagIsTimeLeft(lag: Timespec)
    requires lag.Normal()
    ensures LagMs(lag) == lag.Nanos() / NS_PER_MS <==> -TWO31 <= lag.sec * 1000 < TWO31
  {
    assert lag.Nanos() == lag.sec * 1000 * NS_PER_MS + lag.nsec;
  }

  /** A start is too soon if less time is left than the number compared with. */
  lemma TooSoonIs(lag: Timespec, pairing: Timespec)
    requires lag.Normal() && -TWO31 <= lag.sec * 1000 < TWO31
    ensures TooSoon(lag, pairing) <==> lag.Nanos() < PairingMs(pairing) * NS_PER_MS
  {
    LagIsTimeLeft(lag);
    hide LagMs;
    var ms := lag.Nanos() / NS_PER_MS;
    assert ms * NS_PER_MS <= lag.Nanos() < (ms + 1) * NS_PER_MS;
  }

  /** The comparison is with the pairing latency if and only if that is less than a
      second; otherwise a start well inside it passes, for instance this one. */
  lemma PairingInSecondsSlips(pairing: Timespec)
    requires pairing.Normal() && 0 <= pairing.sec && PairingMs(pairing) < TWO31
    ensures PairingMs(pairing) == pairing.Nanos() / NS_PER_MS <==> pairing.sec == 0
    ensures var ms := PairingMs(pairing);
            var lag := Timespec(ms / 1000, ms % 1000 * NS_PER_MS);
            && lag.Normal() && !TooSoon(lag, pairing)
            && (pairing.sec > 0 ==> lag.Nanos() < pairing.Nanos())
  {
    assert pairing.Nanos() == pairing.sec * 1000 * NS_PER_MS + pairing.nsec;
    var ms := PairingMs(pairing);
    var lag := Timespec(ms / 1000, ms % 1000 * NS_PER_MS);
    LagIsTimeLeft(lag);
    assert lag.Nanos() == ms * NS_PER_MS;
  }

  // ---------- The player's clock ----------

  /** Where the requested start lies on the player's clock: each reading is one
      clock_gettime call (CLOCK_MONOTONIC for `now` and for `mono`, CLOCK_REALTIME
      for `wall`).  Every failing read leaves `ts` alone; a start that is too soon
      is stored and reported. */
  method GetStartTs(ts: Cell, ntpstart: int, now: Clock, mono: Clock, wall: Clock, bufferMs: nat, pairing: Timespec)
    returns (ret: int)
    requires 0 <= ntpstart < TWO32 * TWO32
    requires ClockOk(now) && ClockOk(mono) && ClockOk(wall)
    modifies ts
    ensures now.Failed? || mono.Failed? || wall.Failed? ==> ts.Value() == old(ts.Value()) && ret == -1
    ensures now.Reading? && mono.Reading? && wall.Reading? ==>
              && ts.Value().Normal()
              && ts.Value().Nanos() == StartNanos(ntpstart, mono.ts, wall.ts, bufferMs)
              && ret == if TooSoon(Sub(ts.Value(), now.ts), pairing) then -1 else 0
  {
    if now.Failed? {
      return -1;
    }
    var startTs := new Cell(NtpToTimespec(Unpack(ntpstart)));
    if mono.Failed? || wall.Failed? {
      return -1;
    }
    var monoCell := new Cell(mono.ts);
    var delta := new Cell(wall.ts);
    Subtract(delta, delta, monoCell);
    Subtract(ts, startTs, delta);
    var latency := new Cell(OutputBufferTs(bufferMs));
    Subtract(ts, ts, latency);
    var lag := new Cell(ts.Value());
    var nowCell := new Cell(now.ts);
    Subtract(lag, lag, nowCell);
    SameNanos(lag.Value(), Sub(ts.Value(), now.ts));
    ret := if TooSoon(lag.Value(), pairing) then -1 else 0;
  }

  /** On normalised values the nanosecond count says everything. */
  lemma SameNanos(a: Timespec, b: Timespec)
    requires a.Normal() && b.Normal() && a.Nanos() == b.Nanos()
    ensures a == b
  {
    assert a.sec * NS_PER_SEC <= a.Nanos() < (a.sec + 1) * NS_PER_SEC;
  }

  /** The requested time, less the offset between the two clocks, less the
      output buffer. */
  function StartNanos(ntpstart: int, mono: Timespec, wall: Timespec, bufferMs: nat): int
    requires 0 <= ntpstart < TWO32 * TWO32
  {
    NtpToTimespec(Unpack(ntpstart)).Nanos() - (wall.Nanos() - mono.Nanos()) - bufferMs * NS_PER_MS
  }

  /** End to end: a sender that names the instant `at` of its own clock through
      an NTP number gets that instant, moved to the player's clock and advanced
      by the buffer, to within one nanosecond; exactly when the nanoseconds are a
      multiple of 5^9. */
  lemma StartTimeEndToEnd(at: Timespec, mono: Timespec, wall: Timespec, bufferMs: nat)
    requires at.Normal() && 0 <= at.sec < TWO32
    ensures TimespecToNtp(at).Valid()
    ensures var t := Pack(TimespecToNtp(at));
            && 0 <= t < TWO32 * TWO32
            && StartNanos(t, mono, wall, bufferMs)
               == at.Nanos() - (wall.Nanos() - mono.Nanos()) - bufferMs * NS_PER_MS
                  - (if at.nsec % FIVE_POW_9 == 0 then 0 else 1)
  {
    PackUnpack(TimespecToNtp(at));
    TimespecRoundTrip(at);
    NanosRoundTrip(at.nsec);
  }
}
