/** Repeat suppression in src/logger.c, and the djb_hash of src/misc.c it uses to
    recognise a repeated message. */
module Logger {
  import opened Common

  const REPEAT_MAX := 10
  const CONTENT_SIZE := 2048

  // ---------- The hash ----------

  function DjbFrom(hash: nat, data: Bytes): (h: nat)
    ensures hash < TWO32 ==> h < TWO32
    decreases |data|
  {
    if data == [] then hash else DjbFrom((hash * 32 + hash + data[0] as int) % TWO32, data[1..])
  }

  function DjbHash(data: Bytes): (h: nat)
    ensures h < TWO32
  {
    DjbFrom(5381, data)
  }

  method ComputeDjbHash(data: Bytes) returns (hash: nat)
    ensures hash == DjbHash(data)
  {
    hash := 5381;
    var i := 0;
    while i < |data|
      invariant 0 <= i <= |data| && DjbHash(data) == DjbFrom(hash, data[i..])
    {
      hash := (hash * 32 + hash + data[i] as int) % TWO32;
      i := i + 1;
    }
  }

  /** 33 is odd, so a step can be undone modulo 2^32. */
  lemma DjbStepInjective(g: nat, h: nat, c: byte)
    requires g < TWO32 && h < TWO32
    requires (g * 32 + g + c as int) % TWO32 == (h * 32 + h + c as int) % TWO32
    ensures g == h
  {
    var q := (g * 33 + c as int) / TWO32 - (h * 33 + c as int) / TWO32;
    assert (g - h) * 33 == q * TWO32;
    // 33 * 1041204193 == 8 * 2^32 + 1
    assert (g - h) * (8 * TWO32 + 1) == 1_041_204_193 * q * TWO32;
    assert g - h == (1_041_204_193 * q - 8 * (g - h)) * TWO32;
  }

  lemma {:induction false} DjbFromInjective(g: nat, h: nat, data: Bytes)
    requires g < TWO32 && h < TWO32 && DjbFrom(g, data) == DjbFrom(h, data)
    ensures g == h
    decreases |data|
  {
    if data != [] {
      DjbFromInjective((g * 32 + g + data[0] as int) % TWO32, (h * 32 + h + data[0] as int) % TWO32, data[1..]);
      DjbStepInjective(g, h, data[0]);
    }
  }

  lemma {:induction false} DjbSplit(hash: nat, a: Bytes, b: Bytes)
    ensures DjbFrom(hash, a + b) == DjbFrom(DjbFrom(hash, a), b)
    decreases |a|
  {
    if a == [] {
      assert a + b == b;
    } else {
      assert (a + b)[1..] == a[1..] + b;
      DjbSplit((hash * 32 + hash + a[0] as int) % TWO32, a[1..], b);
    }
  }

  /** Messages of equal length that differ in one byte have different hashes. */
  lemma OneByteChangesHash(a: Bytes, c: byte, d: byte, b: Bytes)
    requires c != d
    ensures DjbHash(a + [c] + b) != DjbHash(a + [d] + b)
  {
    DjbSplit(5381, a + [c], b);
    DjbSplit(5381, a + [d], b);
    DjbSplit(5381, a, [c]);
    DjbSplit(5381, a, [d]);
    var h := DjbFrom(5381, a);
    LastBytesDiffer(h, c, d);
    hide DjbFrom;
    if DjbFrom(DjbFrom(h, [c]), b) == DjbFrom(DjbFrom(h, [d]), b) {
      DjbFromInjective(DjbFrom(h, [c]), DjbFrom(h, [d]), b);
    }
  }

  lemma SameResidue(x: nat, c: byte, d: byte)
    ensures (x + c as int) % TWO32 == (x + d as int) % TWO32 ==> c == d
  {
    if (x + c as int) % TWO32 == (x + d as int) % TWO32 {
      var q := (x + c as int) / TWO32 - (x + d as int) / TWO32;
      assert c as int - d as int == q * TWO32;
    }
  }

  lemma LastBytesDiffer(h: nat, c: byte, d: byte)
    requires h < TWO32 && c != d
    ensures DjbFrom(h, [c]) != DjbFrom(h, [d])
  {
    LastByte(h, c);
    LastByte(h, d);
    hide DjbFrom;
    SameResidue(h * 32 + h, c, d);
  }

  lemma LastByte(h: nat, c: byte)
    requires h < TWO32
    ensures DjbFrom(h, [c]) == (h * 32 + h + c as int) % TWO32
  {
    assert [c][1..] == [];
  }

  /** Different messages can have the same hash, and are then taken for repeats:
      "Ab" and "BA". */
  lemma HashCollision()
    ensures DjbHash([65, 98]) == DjbHash([66, 65])
  {
    hide DjbFrom;
    TwoBytes(5381, 65, 98);
    TwoBytes(5381, 66, 65);
  }

  lemma TwoBytes(h: nat, c: byte, d: byte)
    requires h < TWO32
    ensures DjbFrom(h, [c, d]) == ((h * 33 + c as int) % TWO32 * 33 + d as int) % TWO32
  {
    assert [c] + [d] == [c, d];
    DjbSplit(h, [c], [d]);
    LastByte(h, c);
    LastByte((h * 33 + c as int) % TWO32, d);
  }

  // ---------- Repeat suppression ----------

  datatype State = State(counter: nat, lastHash: nat)

  const INITIAL := State(0, 0)

  datatype Line = Original(content: Bytes) | Repeating

  /** repeat_count. */
  function Count(s: State, content: Bytes): State {
    var hash := DjbHash(content);
    State(if hash == s.lastHash then (s.counter + 1) % TWO32 else 0, hash)
  }

  /** What vlogger_writer writes for a counter value; nothing, or one line. */
  function Lines(counter: nat, content: Bytes): seq<Line> {
    if AsInt32(counter) == REPEAT_MAX then [Repeating]
    else if AsInt32(counter) > REPEAT_MAX then []
    else [Original(content)]
  }

  function After(cs: seq<Bytes>): State {
    if cs == [] then INITIAL else Count(After(cs[..|cs| - 1]), cs[|cs| - 1])
  }

  lemma NextMessage(cs: seq<Bytes>, content: Bytes)
    ensures After(cs + [content]) == Count(After(cs), content)
    ensures Log(cs + [content]) == Log(cs) + Lines(Count(After(cs), content).counter, content)
  {
    var all := cs + [content];
    assert all[..|all| - 1] == cs && all[..|all|] == all;
    hide DjbHash;
  }

  /** What the i-th of a sequence of messages leads to. */
  function Output(cs: seq<Bytes>, i: nat): seq<Line>
    requires i < |cs|
  {
    Lines(After(cs[..i + 1]).counter, cs[i])
  }

  function Log(cs: seq<Bytes>): seq<Line> {
    if cs == [] then [] else Log(cs[..|cs| - 1]) + Output(cs, |cs| - 1)
  }

  /** Messages before i in its run of equal hashes. */
  function RunIndex(cs: seq<Bytes>, i: nat): nat
    requires i < |cs|
  {
    if i > 0 && DjbHash(cs[i - 1]) == DjbHash(cs[i]) then RunIndex(cs, i - 1) + 1 else 0
  }

  /** The counter is the position in the run, whatever came before, with one
      exception: a first run of hash 0 counts from 1, because 0 is what the
      "last hash" starts with. */
  lemma {:induction false} CounterIsRunIndex(cs: seq<Bytes>, i: nat)
    requires i < |cs|
    ensures var early := if RunIndex(cs, i) == i && DjbHash(cs[i]) == 0 then 1 else 0;
            After(cs[..i + 1]) == State((RunIndex(cs, i) + early) % TWO32, DjbHash(cs[i]))
  {
    hide DjbHash;
    assert cs[..i + 1][..i] == cs[..i];
    if i > 0 {
      CounterIsRunIndex(cs, i - 1);
      var earlier := if RunIndex(cs, i - 1) == i - 1 && DjbHash(cs[i - 1]) == 0 then 1 else 0;
      CountsOn(RunIndex(cs, i - 1) + earlier);
      assert cs[..i - 1 + 1] == cs[..i];
    } else {
      assert After(cs[..0]) == INITIAL;
    }
  }

  lemma CountsOn(n: nat)
    ensures (n % TWO32 + 1) % TWO32 == (n + 1) % TWO32
  {
  }

  /** Positions a to a + k - 1 have equal hashes, and the run starts at a. */
  predicate IsRun(cs: seq<Bytes>, a: nat, k: nat) {
    && a + k <= |cs|
    && (forall j :: a < j < a + k ==> DjbHash(cs[j - 1]) == DjbHash(cs[j]))
    && (k > 0 ==> if a > 0 then DjbHash(cs[a - 1]) != DjbHash(cs[a]) else DjbHash(cs[0]) != 0)
  }

  lemma {:induction false} RunIndexInRun(cs: seq<Bytes>, a: nat, k: nat, j: nat)
    requires IsRun(cs, a, k) && j < k
    ensures RunIndex(cs, a + j) == j
    ensures DjbHash(cs[a + j]) == DjbHash(cs[a])
  {
    hide DjbHash;
    if j > 0 {
      RunIndexInRun(cs, a, k, j - 1);
      assert DjbHash(cs[a + j - 1]) == DjbHash(cs[a + j]);
    }
  }

  /** What one message of a run leads to: the first ten are written, the eleventh
      becomes the notice, the following ones are dropped until the int counter
      turns negative after 2^31 messages. */
  lemma RunOutput(cs: seq<Bytes>, a: nat, k: nat, j: nat)
    requires IsRun(cs, a, k) && j < k
    ensures var n := j % TWO32;
            Output(cs, a + j) ==
              if n < 10 || n >= TWO31 then [Original(cs[a + j])]
              else if n == 10 then [Repeating] else []
  {
    hide DjbHash, After;
    RunIndexInRun(cs, a, k, j);
    CounterIsRunIndex(cs, a + j);
  }

  /** A whole run of up to 2^31 messages adds min(k, 10) original lines, one notice
      if there are more than ten, and nothing else, whatever was logged before. */
  lemma {:induction false} RunAdds(cs: seq<Bytes>, a: nat, k: nat)
    requires IsRun(cs, a, k) && k <= TWO31
    ensures Log(cs[..a + k]) == Log(cs[..a]) + Originals(cs, a, if k < 10 then k else 10)
                                + if k > 10 then [Repeating] else []
  {
    hide DjbHash, Output;
    if k > 0 {
      assert IsRun(cs, a, k - 1);
      RunAdds(cs, a, k - 1);
      RunOutput(cs, a, k, k - 1);
      assert cs[..a + k][..a + k - 1] == cs[..a + k - 1];
      OutputPrefix(cs, a + k);
    }
  }

  lemma {:induction false} RunIndexFromStart(cs: seq<Bytes>, j: nat)
    requires j < |cs| && forall i :: 0 <= i <= j ==> DjbHash(cs[i]) == DjbHash(cs[0])
    ensures RunIndex(cs, j) == j
  {
    hide DjbHash;
    if j > 0 {
      RunIndexFromStart(cs, j - 1);
    }
  }

  /** The exception: a first run of hash 0 is one line short, because its first
      message already counts as a repeat. */
  lemma {:induction false} FirstRunOfZeroAdds(cs: seq<Bytes>, k: nat)
    requires k <= |cs| && k < TWO31 && forall i :: 0 <= i < k ==> DjbHash(cs[i]) == 0
    ensures Log(cs[..k]) == Originals(cs, 0, if k < 9 then k else 9)
                            + if k > 9 then [Repeating] else []
  {
    hide DjbHash, Output, After;
    if k > 0 {
      FirstRunOfZeroAdds(cs, k - 1);
      RunIndexFromStart(cs, k - 1);
      CounterIsRunIndex(cs, k - 1);
      OutputOfCounter(cs, k - 1, k);
      assert cs[..k][..k - 1] == cs[..k - 1];
      OutputPrefix(cs, k);
    }
  }

  lemma OutputOfCounter(cs: seq<Bytes>, i: nat, n: nat)
    requires i < |cs| && After(cs[..i + 1]).counter == n % TWO32 && n < TWO32
    ensures Output(cs, i) == Lines(n, cs[i])
  {
    hide After;
  }

  /** Such a message exists: "glif.hc". */
  lemma HashZeroHappens()
    ensures DjbHash([103, 108] + [105, 102] + [46, 104] + [99]) == 0
  {
    hide DjbFrom;
    var gl, fi, dh, c: Bytes := [103, 108], [105, 102], [46, 104], [99];
    TwoBytes(5381, 103, 108);
    assert DjbFrom(5381, gl) == 5863416;
    TwoBytes(5863416, 105, 102);
    assert DjbFrom(5863416, fi) == 2090296295;
    TwoBytes(2090296295, 46, 104);
    assert DjbFrom(2090296295, dh) == 4294967293;
    LastByte(4294967293, 99);
    assert DjbFrom(4294967293, c) == 0;
    FourParts(5381, gl, fi, dh, c);
  }

  lemma FourParts(h: nat, a: Bytes, b: Bytes, c: Bytes, d: Bytes)
    ensures DjbFrom(h, a + b + c + d) == DjbFrom(DjbFrom(DjbFrom(DjbFrom(h, a), b), c), d)
  {
    hide DjbFrom;
    DjbSplit(h, a, b);
    DjbSplit(h, a + b, c);
    DjbSplit(h, a + b + c, d);
  }

  lemma OutputPrefix(cs: seq<Bytes>, n: nat)
    requires 0 < n <= |cs|
    ensures Output(cs[..n], n - 1) == Output(cs, n - 1)
  {
    assert cs[..n][..n] == cs[..n];
  }

  function Originals(cs: seq<Bytes>, a: nat, k: nat): seq<Line>
    requires a + k <= |cs|
  {
    if k == 0 then [] else Originals(cs, a, k - 1) + [Original(cs[a + k - 1])]
  }

  // ---------- The writer ----------

  /** vsnprintf into the content buffer: an error, or the full text. */
  datatype Formatted = Failed | Text(bytes: Bytes)

  function Encode(s: string): Bytes {
    seq(|s|, i requires 0 <= i < |s| => (s[i] as int % 256) as byte)
  }

  function Content(f: Formatted): (c: Bytes)
    ensures f.Text? ==> |c| < CONTENT_SIZE
  {
    match f
    case Failed => Encode("(LOGGING SKIPPED - error printing log message)\n")
    case Text(bytes) =>
      if |bytes| >= CONTENT_SIZE then bytes[..CONTENT_SIZE - 8] + Encode("...\n") else bytes
  }

  /** A message that fits is logged as it is, a longer one as its first 2040 bytes and
      three dots, and a formatting error as a fixed text; 2047 bytes fit, 2048 do not. */
  lemma ContentIs(b: Bytes)
    ensures |b| < 2048 ==> Content(Text(b)) == b
    ensures |b| >= 2048 ==> Content(Text(b)) == b[..2040] + [46, 46, 46, 10]
    ensures Content(Failed) == Encode("(LOGGING SKIPPED - error printing log message)\n")
  {
    assert "...\n"[0] as int == 46 && "...\n"[3] as int == 10;
    assert Encode("...\n") == [46, 46, 46, 10];
  }

  /** The bytes of a text are its characters. */
  lemma EncodeIs(s: string, i: nat)
    requires i < |s| && s[i] as int < 256
    ensures |Encode(s)| == |s| && Encode(s)[i] as int == s[i] as int
  {
  }

  /** A message whose hash is not the last one starts a run. */
  lemma NewHashStartsRun(s: State, content: Bytes)
    requires DjbHash(content) != s.lastHash
    ensures Count(s, content) == State(0, DjbHash(content)) && Lines(0, content) == [Original(content)]
  {
  }

  class Writer {
    var counter: nat
    var lastHash: nat
    var contents: seq<Bytes>
    var out: seq<Line>

    /** The log so far is the log of the contents so far. */
    ghost predicate Valid()
      reads this
    {
      State(counter, lastHash) == After(contents) && out == Log(contents)
    }

    constructor ()
      ensures Valid() && contents == []
    {
      counter, lastHash, contents, out := 0, 0, [], [];
    }

    method RepeatCount(content: Bytes) returns (ret: int)
      modifies this`counter, this`lastHash
      ensures State(counter, lastHash) == Count(old(State(counter, lastHash)), content)
      ensures ret == AsInt32(counter)
    {
      var hash := ComputeDjbHash(content);
      if hash == lastHash {
        counter := (counter + 1) % TWO32;
      } else {
        counter := 0;
      }
      lastHash := hash;
      ret := AsInt32(counter);
    }

    method Write(message: Formatted)
      requires Valid()
      modifies this
      ensures Valid() && contents == old(contents) + [Content(message)]
      ensures out == old(out) + Lines(counter, Content(message))
      ensures State(counter, lastHash) == Count(old(State(counter, lastHash)), Content(message))
      ensures message.Text? && |message.bytes| < 2048 && DjbHash(message.bytes) != old(lastHash) ==>
                out == old(out) + [Original(message.bytes)]
    {
      if message.Text? {
        ContentIs(message.bytes);
      }
      var content := Content(message);
      hide DjbHash, Content, After, Log;
      NextMessage(contents, content);
      contents := contents + [content];
      var ret := RepeatCount(content);
      if ret == REPEAT_MAX {
        out := out + [Repeating];
      } else if ret <= REPEAT_MAX {
        out := out + [Original(content)];
      } else {
        assert out + [] == out;
      }
    }
  }
}
