/** Newline framing on the command pipe of src/mass.c, over reads of any size. */
module CommandFraming {
  import opened Common
  import opened CommandItems

  const NEWLINE: char := '\n'
  const PIPE_READ_MAX := 65536
  const BUFFER_MAX := 1048576

  /** extract_item: the first line, without its newline, and what follows. */
  function ExtractItem(buf: string): Option<(string, string)> {
    var i := IndexOf(buf, NEWLINE);
    if i == |buf| then None else Some((buf[..i], buf[i + 1..]))
  }

  /** The complete lines of a buffer, and the rest. */
  function Lines(buf: string): (seq<string>, string)
    decreases |buf|
  {
    match ExtractItem(buf)
    case None => ([], buf)
    case Some((item, rest)) => var (items, left) := Lines(rest); ([item] + items, left)
  }

  function Unlines(items: seq<string>): string {
    if items == [] then "" else items[0] + [NEWLINE] + Unlines(items[1..])
  }

  lemma ExtractIs(buf: string)
    ensures match ExtractItem(buf)
            case None => NEWLINE !in buf
            case Some((item, rest)) => NEWLINE !in item && buf == item + [NEWLINE] + rest
  {
    var i := IndexOf(buf, NEWLINE);
    if i < |buf| {
      assert buf == buf[..i] + [buf[i]] + buf[i + 1..];
    }
  }

  /** Nothing is lost: the lines, each with its newline, and the rest are the
      buffer; no line and no rest has a newline inside. */
  lemma {:induction false} LinesComplete(buf: string)
    ensures var (items, left) := Lines(buf);
            && Unlines(items) + left == buf
            && NEWLINE !in left && forall i :: 0 <= i < |items| ==> NEWLINE !in items[i]
    decreases |buf|
  {
    ExtractIs(buf);
    hide ExtractItem;
    match ExtractItem(buf) {
      case None =>
        assert Unlines([]) + buf == buf;
      case Some((item, rest)) =>
        ExtractShorter(buf);
        LinesComplete(rest);
        var (items, left) := Lines(rest);
        assert ([item] + items)[1..] == items;
        assert Unlines([item] + items) + left == (item + [NEWLINE]) + (Unlines(items) + left);
    }
  }

  // ---------- Parsing what is complete ----------

  /** The result of parsing: prepared data, message mask, what is left in the
      buffer, and whether every item was understood. */
  datatype Parsed = Parsed(prepared: Prepared, mask: set<Msg>, left: string, ok: bool)

  /** pipe_metadata_parse: stops at the first item that is not understood. */
  function Parse(o: Oracle, p: Prepared, buf: string): Parsed
    decreases |buf|
  {
    match ExtractItem(buf)
    case None => Parsed(p, {}, buf, true)
    case Some((item, rest)) =>
      var (q, msg) := ParseItem(o, p, item);
      if msg.None? then Parsed(q, {}, rest, false)
      else var r := Parse(o, q, rest); r.(mask := {msg.value} + r.mask)
  }

  /** A whole run of reads: each chunk is appended and the complete lines parsed.
      After an item that is not understood the pipe is no longer read. */
  function Feed(o: Oracle, p: Prepared, buf: string, chunks: seq<string>): Parsed
    decreases |chunks|
  {
    if chunks == [] then Parsed(p, {}, buf, true)
    else
      var r := Parse(o, p, buf + chunks[0]);
      if !r.ok then r
      else var s := Feed(o, r.prepared, r.left, chunks[1..]); s.(mask := r.mask + s.mask)
  }

  function Concat(chunks: seq<string>): string {
    if chunks == [] then "" else chunks[0] + Concat(chunks[1..])
  }

  /** Two results that agree on everything the receiver can see.  After an error
      the unparsed rest is thrown away with the pipe, so it does not matter. */
  predicate SameOutcome(a: Parsed, b: Parsed) {
    && a.ok == b.ok && a.prepared == b.prepared
    && (a.ok ==> a.left == b.left && a.mask == b.mask)
  }

  lemma ExtractAppend(a: string, b: string)
    requires ExtractItem(a).Some?
    ensures ExtractItem(a + b) == Some((ExtractItem(a).value.0, ExtractItem(a).value.1 + b))
  {
    var i := IndexOf(a, NEWLINE);
    IndexOfIs(a + b, NEWLINE, i);
    assert (a + b)[..i] == a[..i] && (a + b)[i + 1..] == a[i + 1..] + b;
  }

  /** Parsing a first part and then the rest of it with more is parsing all. */
  lemma {:induction false} ParseAppend(o: Oracle, p: Prepared, a: string, b: string)
    ensures var r := Parse(o, p, a);
            if r.ok then
              var s := Parse(o, r.prepared, r.left + b);
              SameOutcome(Parse(o, p, a + b), s.(mask := r.mask + s.mask))
            else SameOutcome(Parse(o, p, a + b), r)
    decreases |a|
  {
    hide ParseItem, ExtractItem;
    if ExtractItem(a).Some? {
      ExtractAppend(a, b);
      var (item, rest) := ExtractItem(a).value;
      var (q, msg) := ParseItem(o, p, item);
      ExtractShorter(a);
      if msg.Some? {
        ParseAppend(o, q, rest, b);
        var r := Parse(o, q, rest);
        if r.ok {
          var s := Parse(o, r.prepared, r.left + b);
          assert {msg.value} + (r.mask + s.mask) == ({msg.value} + r.mask) + s.mask;
        }
      }
    }
  }

  lemma ExtractShorter(buf: string)
    requires ExtractItem(buf).Some?
    ensures |ExtractItem(buf).value.1| < |buf|
  {
  }

  lemma ParseLeavesNoLine(o: Oracle, p: Prepared, buf: string)
    requires Parse(o, p, buf).ok
    ensures ExtractItem(Parse(o, p, buf).left) == None
    decreases |buf|
  {
  }

  /** Framing does not depend on how the stream is cut into reads: the outcome is
      that of parsing everything at once. */
  lemma {:induction false} ChunkingIrrelevant(o: Oracle, p: Prepared, buf: string, chunks: seq<string>)
    requires ExtractItem(buf) == None
    ensures SameOutcome(Feed(o, p, buf, chunks), Parse(o, p, buf + Concat(chunks)))
    decreases |chunks|
  {
    hide ParseItem, ExtractItem;
    if chunks == [] {
      assert buf + Concat(chunks) == buf;
    } else {
      var first, tail := buf + chunks[0], Concat(chunks[1..]);
      assert buf + Concat(chunks) == first + tail;
      var r := Parse(o, p, first);
      ParseAppend(o, p, first, tail);
      if r.ok {
        ParseLeavesNoLine(o, p, first);
        ChunkingIrrelevant(o, r.prepared, r.left, chunks[1..]);
      }
    }
  }

  /** Two ways of cutting the same stream. */
  lemma AnyTwoChunkings(o: Oracle, p: Prepared, buf: string, a: seq<string>, b: seq<string>)
    requires ExtractItem(buf) == None && Concat(a) == Concat(b)
    ensures SameOutcome(Feed(o, p, buf, a), Feed(o, p, buf, b))
  {
    hide Parse, Feed;
    ChunkingIrrelevant(o, p, buf, a);
    ChunkingIrrelevant(o, p, buf, b);
  }

  /** Parsing is applying the complete lines one after the other. */
  function ApplyAll(o: Oracle, p: Prepared, items: seq<string>): (Prepared, bool)
    decreases |items|
  {
    if items == [] then (p, true)
    else
      var (q, msg) := ParseItem(o, p, items[0]);
      if msg.None? then (q, false) else ApplyAll(o, q, items[1..])
  }

  lemma {:induction false} ParseAppliesLines(o: Oracle, p: Prepared, buf: string)
    ensures var (items, left) := Lines(buf);
            && (Parse(o, p, buf).prepared, Parse(o, p, buf).ok) == ApplyAll(o, p, items)
            && (Parse(o, p, buf).ok ==> Parse(o, p, buf).left == left)
    decreases |buf|
  {
    hide ParseItem, ExtractItem;
    if ExtractItem(buf).Some? {
      var (item, rest) := ExtractItem(buf).value;
      ExtractShorter(buf);
      ParseAppliesLines(o, ParseItem(o, p, item).0, rest);
      var (items, _) := Lines(rest);
      assert ([item] + items)[1..] == items;
    }
  }

  /** Discarding needs a line that is already longer than the difference of the
      two limits before the read that overflows. */
  lemma OverflowNeedsLongLine(o: Oracle, p: Prepared, before: string, chunk: string)
    requires Parse(o, p, before).ok && |chunk| <= PIPE_READ_MAX
    requires |Parse(o, p, before).left + chunk| > BUFFER_MAX
    ensures var left := Parse(o, p, before).left;
            |left| > 1048576 - 65536 && NEWLINE !in left
  {
    ParseLeavesNoLine(o, p, before);
    var left := Parse(o, p, before).left;
    assert IndexOf(left, NEWLINE) == |left|;
  }

  // ---------- Short lines ----------

  lemma {:induction false} LinesAppend(a: string, b: string)
    ensures var (items, left) := Lines(a);
            var (more, end) := Lines(left + b);
            Lines(a + b) == (items + more, end)
    decreases |a|
  {
    hide ExtractItem;
    if ExtractItem(a).Some? {
      var (item, rest) := ExtractItem(a).value;
      ExtractShorter(a);
      ExtractAppend(a, b);
      LinesAppend(rest, b);
      var (items, left) := Lines(rest);
      var (more, end) := Lines(left + b);
      assert [item] + (items + more) == ([item] + items) + more;
    } else {
      assert [] + Lines(a + b).0 == Lines(a + b).0;
    }
  }

  /** No line of the stream is longer than `max`, the unfinished last one included. */
  predicate ShortLines(stream: string, max: nat) {
    var (items, left) := Lines(stream);
    |left| <= max && forall item <- items :: |item| <= max
  }

  lemma ShortStart(buf: string, more: string, max: nat)
    requires ExtractItem(buf) == None && ShortLines(buf + more, max)
    ensures |buf| <= max
  {
    var all := buf + more;
    var i := IndexOf(all, NEWLINE);
    assert forall j :: 0 <= j < |buf| ==> all[j] == buf[j];
    if i < |all| {
      var (items, left) := Lines(all);
      assert items[0] == all[..i] && items[0] in items;
    }
  }

  lemma ShortRest(a: string, b: string, max: nat)
    requires ShortLines(a + b, max)
    ensures ShortLines(Lines(a).1 + b, max)
  {
    LinesAppend(a, b);
    hide Lines;
    var (items, left) := Lines(a);
    var more := Lines(left + b).0;
    assert forall item <- more :: item in items + more;
  }
}
