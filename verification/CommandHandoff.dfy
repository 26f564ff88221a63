/** Handing metadata from the command thread to the input thread: every
    interleaving of parsed items and metadata_get() calls, each under the lock. */
module CommandHandoff {
  import opened Common
  import opened CommandItems
  import opened CommandFraming
  import opened CommandPipe

  // ---------- Field by field ----------

  datatype Field = AlbumField | ArtistField | TitleField | ArtworkField | LengthField | PositionField | UpdatedField

  datatype Value = Text(text: Option<string>) | Number(number: int) | Truth(truth: bool)

  function Get(m: Metadata, f: Field): Value {
    match f
    case AlbumField => Text(m.album)
    case ArtistField => Text(m.artist)
    case TitleField => Text(m.title)
    case ArtworkField => Text(m.artworkUrl)
    case LengthField => Number(m.lenMs)
    case PositionField => Number(m.posMs)
    case UpdatedField => Truth(m.posIsUpdated)
  }

  /** The value an item stores in a field, or None if it leaves it alone. */
  function Stores(o: Oracle, item: string, f: Field): Option<Value> {
    match (Meaning(item), f)
    case (Some((Album, value)), AlbumField) => Some(Text(Some(value)))
    case (Some((Artist, value)), ArtistField) => Some(Text(Some(value)))
    case (Some((Title, value)), TitleField) => Some(Text(Some(value)))
    case (Some((Artwork, value)), ArtworkField) => Some(Text(o.artwork(value)))
    case (Some((Duration, value)), LengthField) => Seconds(o.atoi(value))
    case (Some((Progress, value)), PositionField) => Seconds(o.atoi(value))
    case (Some((Progress, value)), UpdatedField) => if o.atoi(value).Some? then Some(Truth(true)) else None
    case _ => None
  }

  function Seconds(n: Option<int>): Option<Value> {
    match n
    case None => None
    case Some(sec) => Some(Number(sec * 1000))
  }

  /** The last value stored in a field by a list of items; zero or null if none. */
  function LastStored(o: Oracle, items: seq<string>, f: Field): Value {
    if items == [] then Get(NOTHING, f)
    else match Stores(o, items[|items| - 1], f)
      case Some(v) => v
      case None => LastStored(o, items[..|items| - 1], f)
  }

  lemma ItemStores(o: Oracle, p: Prepared, item: string, f: Field)
    ensures Get(ParseItem(o, p, item).0.meta, f)
            == match Stores(o, item, f) case Some(v) => v case None => Get(p.meta, f)
  {
    hide Meaning, FirstCommand;
  }

  /** Items parsed one after the other. */
  function Store(o: Oracle, p: Prepared, items: seq<string>): Prepared {
    if items == [] then p else ParseItem(o, Store(o, p, items[..|items| - 1]), items[|items| - 1]).0
  }

  lemma {:induction false} StoreKeepsLast(o: Oracle, p: Prepared, items: seq<string>, f: Field)
    requires p.meta == NOTHING
    ensures Get(Store(o, p, items).meta, f) == LastStored(o, items, f)
  {
    hide ParseItem, Stores, Get;
    if items != [] {
      var n := |items| - 1;
      StoreKeepsLast(o, p, items[..n], f);
      ItemStores(o, Store(o, p, items[..n]), items[n], f);
    }
  }

  // ---------- Interleavings ----------

  /** A locked step of either thread. */
  datatype Event = Item(line: string) | Fetch

  /** What the fetches of a run return, starting from `p`. */
  function Deliveries(o: Oracle, p: Prepared, events: seq<Event>): seq<Metadata>
    decreases |events|
  {
    if events == [] then []
    else match events[0]
      case Item(line) => Deliveries(o, ParseItem(o, p, line).0, events[1..])
      case Fetch => [p.meta] + Deliveries(o, p.(meta := NOTHING), events[1..])
  }

  /** The items between one fetch and the next, one list per fetch; `since` are the
      items seen since the last fetch. */
  function Batches(events: seq<Event>, since: seq<string>): seq<seq<string>>
    decreases |events|
  {
    if events == [] then []
    else match events[0]
      case Item(line) => Batches(events[1..], since + [line])
      case Fetch => [since] + Batches(events[1..], [])
  }

  function ItemsOf(events: seq<Event>): seq<string> {
    if events == [] then []
    else (match events[0] case Item(line) => [line] case Fetch => []) + ItemsOf(events[1..])
  }

  function Flatten(batches: seq<seq<string>>): seq<string> {
    if batches == [] then [] else batches[0] + Flatten(batches[1..])
  }

  /** The items no fetch has seen yet. */
  function Pending(events: seq<Event>, since: seq<string>): seq<string>
    decreases |events|
  {
    if events == [] then since
    else match events[0]
      case Item(line) => Pending(events[1..], since + [line])
      case Fetch => Pending(events[1..], [])
  }

  /** Every item falls into exactly one batch or is pending: the batches and the
      pending items are all items, in order. */
  lemma {:induction false} BatchesPartition(events: seq<Event>, since: seq<string>)
    ensures Flatten(Batches(events, since)) + Pending(events, since) == since + ItemsOf(events)
    decreases |events|
  {
    if events != [] {
      var tail := events[1..];
      if events[0].Item? {
        BatchesPartition(tail, since + [events[0].line]);
        Regroup(since, [events[0].line], ItemsOf(tail));
      } else {
        BatchesPartition(tail, []);
        var rest := Batches(tail, []);
        assert ([since] + rest)[1..] == rest;
        hide Batches, Pending;
        FetchRegroups(since, Flatten(rest), Pending(tail, []), ItemsOf(tail));
      }
    }
  }

  lemma FetchRegroups(since: seq<string>, flat: seq<string>, pending: seq<string>, items: seq<string>)
    requires flat + pending == [] + items
    ensures (since + flat) + pending == since + ([] + items)
  {
    Regroup(since, flat, pending);
  }

  /** For every interleaving, fetch number k returns, field by field, the last value
      stored since the fetch before it, or zero or null; and since an item belongs
      to one batch only, no stored value is delivered twice. */
  lemma {:induction false} FetchReturnsLast(o: Oracle, p: Prepared, events: seq<Event>, since: seq<string>,
                                            start: Prepared, k: nat, f: Field)
    requires start.meta == NOTHING && p == Store(o, start, since)
    requires k < |Batches(events, since)|
    ensures |Deliveries(o, p, events)| == |Batches(events, since)|
    ensures Get(Deliveries(o, p, events)[k], f) == LastStored(o, Batches(events, since)[k], f)
    decreases |events|
  {
    hide ParseItem, Get, LastStored;
    var rest := events[1..];
    match events[0] {
      case Item(line) =>
        assert (since + [line])[..|since|] == since;
        FetchReturnsLast(o, ParseItem(o, p, line).0, rest, since + [line], start, k, f);
      case Fetch =>
        StoreKeepsLast(o, start, since, f);
        var emptied := p.(meta := NOTHING);
        DeliveryCount(o, emptied, rest, []);
        if k > 0 {
          FetchReturnsLast(o, emptied, rest, [], emptied, k - 1, f);
        }
    }
  }

  lemma {:induction false} DeliveryCount(o: Oracle, p: Prepared, events: seq<Event>, since: seq<string>)
    ensures |Deliveries(o, p, events)| == |Batches(events, since)|
    decreases |events|
  {
    hide ParseItem;
    if events != [] {
      match events[0] {
        case Item(line) => DeliveryCount(o, ParseItem(o, p, line).0, events[1..], since + [line]);
        case Fetch => DeliveryCount(o, p.(meta := NOTHING), events[1..], []);
      }
    }
  }

  // ---------- Callbacks and fetches ----------

  /** A callback of the command thread or a metadata_get() of the input thread. */
  datatype Access = Callback(read: PipeRead, playing: bool) | Fetching

  function AccessStep(o: Oracle, s: State, a: Access): State {
    match a
    case Callback(read, playing) => if s.open then ReadStep(o, s, read, playing) else s
    case Fetching => s.(prepared := s.prepared.(meta := NOTHING))
  }

  function AccessRun(o: Oracle, s: State, accesses: seq<Access>): State
    decreases |accesses|
  {
    if accesses == [] then s else AccessRun(o, AccessStep(o, s, accesses[0]), accesses[1..])
  }

  /** What the fetches return. */
  function Fetched(o: Oracle, s: State, accesses: seq<Access>): seq<Metadata>
    decreases |accesses|
  {
    if accesses == [] then []
    else (if accesses[0].Fetching? then [s.prepared.meta] else [])
         + Fetched(o, AccessStep(o, s, accesses[0]), accesses[1..])
  }

  /** The lines up to the first that is not understood, that one included. */
  function Applied(o: Oracle, p: Prepared, items: seq<string>): seq<string>
    decreases |items|
  {
    if items == [] then []
    else
      var (q, msg) := ParseItem(o, p, items[0]);
      [items[0]] + if msg.None? then [] else Applied(o, q, items[1..])
  }

  /** The lines one access parses. */
  function ItemsRead(o: Oracle, s: State, a: Access): seq<string> {
    if a.Callback? && s.open && a.read.Data? && |s.buf + a.read.chunk| <= BUFFER_MAX
    then Applied(o, s.prepared, Lines(s.buf + a.read.chunk).0)
    else []
  }

  function ItemEvents(items: seq<string>): seq<Event> {
    seq(|items|, i requires 0 <= i < |items| => Item(items[i]))
  }

  /** The run seen from the prepared data: one event for each line parsed, and the
      fetches between them. */
  function AsEvents(o: Oracle, s: State, accesses: seq<Access>): seq<Event>
    decreases |accesses|
  {
    if accesses == [] then []
    else ItemEvents(ItemsRead(o, s, accesses[0])) + (if accesses[0].Fetching? then [Fetch] else [])
         + AsEvents(o, AccessStep(o, s, accesses[0]), accesses[1..])
  }

  lemma {:induction false} AppliedDeliveries(o: Oracle, p: Prepared, items: seq<string>, rest: seq<Event>)
    ensures Deliveries(o, p, ItemEvents(Applied(o, p, items)) + rest) == Deliveries(o, ApplyAll(o, p, items).0, rest)
    decreases |items|
  {
    hide ParseItem;
    if items == [] {
      assert ItemEvents([]) + rest == rest;
    } else {
      var (q, msg) := ParseItem(o, p, items[0]);
      var more := if msg.None? then [] else Applied(o, q, items[1..]);
      assert ItemEvents([items[0]] + more) + rest == [Item(items[0])] + (ItemEvents(more) + rest);
      ItemDelivery(o, p, items[0], ItemEvents(more) + rest);
      if msg.None? {
        assert ItemEvents(more) + rest == rest;
      } else {
        AppliedDeliveries(o, q, items[1..], rest);
      }
    }
  }

  lemma ItemDelivery(o: Oracle, p: Prepared, line: string, rest: seq<Event>)
    ensures Deliveries(o, p, [Item(line)] + rest) == Deliveries(o, ParseItem(o, p, line).0, rest)
  {
    hide ParseItem;
    assert ([Item(line)] + rest)[1..] == rest;
  }

  lemma FetchDelivery(o: Oracle, p: Prepared, rest: seq<Event>)
    ensures Deliveries(o, p, [Fetch] + rest) == [p.meta] + Deliveries(o, p.(meta := NOTHING), rest)
  {
    hide ParseItem;
    assert ([Fetch] + rest)[1..] == rest;
  }

  /** A callback changes the prepared data as its lines do. */
  lemma CallbackApplies(o: Oracle, s: State, a: Access)
    requires a.Callback?
    ensures AccessStep(o, s, a).prepared
            == if s.open && a.read.Data? && |s.buf + a.read.chunk| <= BUFFER_MAX
               then ApplyAll(o, s.prepared, Lines(s.buf + a.read.chunk).0).0 else s.prepared
  {
    hide Parse, Lines, ApplyAll, Calls;
    if a.read.Data? {
      ParseAppliesLines(o, s.prepared, s.buf + a.read.chunk);
    }
  }

  /** The fetches of a run return what the deliveries of its events are. */
  lemma {:induction false} FetchedAreDeliveries(o: Oracle, s: State, accesses: seq<Access>)
    ensures Fetched(o, s, accesses) == Deliveries(o, s.prepared, AsEvents(o, s, accesses))
    decreases |accesses|
  {
    hide AccessStep, Deliveries, ItemEvents, Applied, ApplyAll, Lines;
    if accesses == [] {
      NoDelivery(o, s.prepared);
    } else {
      var a := accesses[0];
      var next := AccessStep(o, s, a);
      FetchedAreDeliveries(o, next, accesses[1..]);
      var rest := AsEvents(o, next, accesses[1..]);
      NoItems();
      if a.Fetching? {
        assert [] + [Fetch] + rest == [Fetch] + rest;
        FetchDelivery(o, s.prepared, rest);
        FetchingClears(o, s, a);
      } else {
        CallbackApplies(o, s, a);
        assert ItemEvents(ItemsRead(o, s, a)) + [] + rest == ItemEvents(ItemsRead(o, s, a)) + rest;
        if s.open && a.read.Data? && |s.buf + a.read.chunk| <= BUFFER_MAX {
          AppliedDeliveries(o, s.prepared, Lines(s.buf + a.read.chunk).0, rest);
        } else {
          assert [] + rest == rest;
        }
      }
    }
  }

  lemma NoItems()
    ensures ItemEvents([]) == []
  {
  }

  lemma NoDelivery(o: Oracle, p: Prepared)
    ensures Deliveries(o, p, []) == []
  {
  }

  lemma FetchingClears(o: Oracle, s: State, a: Access)
    requires a.Fetching?
    ensures AccessStep(o, s, a).prepared == s.prepared.(meta := NOTHING)
  {
  }

  /** For every interleaving of callbacks and fetches, fetch number k returns, field by
      field, the last value stored by a line parsed since the fetch before it, or
      zero or null. */
  lemma EveryFetchReturnsLast(o: Oracle, s: State, accesses: seq<Access>, k: nat, f: Field)
    requires s.prepared.meta == NOTHING && k < |Fetched(o, s, accesses)|
    ensures |Fetched(o, s, accesses)| == |Batches(AsEvents(o, s, accesses), [])|
    ensures Get(Fetched(o, s, accesses)[k], f) == LastStored(o, Batches(AsEvents(o, s, accesses), [])[k], f)
  {
    hide Deliveries, Batches, AsEvents, Fetched, Get, LastStored;
    FetchedAreDeliveries(o, s, accesses);
    DeliveryCount(o, s.prepared, AsEvents(o, s, accesses), []);
    FetchReturnsLast(o, s.prepared, AsEvents(o, s, accesses), [], s.prepared, k, f);
  }

  // ---------- The lines behind the events ----------

  /** The bytes the callbacks read, in order. */
  function Stream(accesses: seq<Access>): string {
    if accesses == [] then ""
    else (if accesses[0].Callback? && accesses[0].read.Data? then accesses[0].read.chunk else "") + Stream(accesses[1..])
  }

  /** Reads of the size the program asks for. */
  predicate SmallCallbacks(accesses: seq<Access>) {
    forall a <- accesses :: a.Callback? && a.read.Data? ==> |a.read.chunk| <= PIPE_READ_MAX
  }

  lemma {:induction false} AppliedAll(o: Oracle, p: Prepared, items: seq<string>)
    requires ApplyAll(o, p, items).1
    ensures Applied(o, p, items) == items
    decreases |items|
  {
    hide ParseItem;
    if items != [] {
      AppliedAll(o, ParseItem(o, p, items[0]).0, items[1..]);
    }
  }

  lemma {:induction false} ItemsOfAppend(items: seq<string>, rest: seq<Event>)
    ensures ItemsOf(ItemEvents(items) + rest) == items + ItemsOf(rest)
  {
    if items == [] {
      assert ItemEvents(items) + rest == rest;
    } else {
      ItemsOfAppend(items[1..], rest);
      assert ItemEvents(items) + rest == [Item(items[0])] + (ItemEvents(items[1..]) + rest);
      assert (ItemEvents(items) + rest)[1..] == ItemEvents(items[1..]) + rest;
    }
  }

  lemma ItemsOfFetch(rest: seq<Event>)
    ensures ItemsOf([Fetch] + rest) == ItemsOf(rest)
  {
    assert ([Fetch] + rest)[1..] == rest;
  }

  /** A closed pipe is not read, and stays closed. */
  lemma {:induction false} ClosedStays(o: Oracle, s: State, accesses: seq<Access>)
    requires !s.open
    ensures !AccessRun(o, s, accesses).open
    decreases |accesses|
  {
    hide ReadStep;
    if accesses != [] {
      ClosedStays(o, AccessStep(o, s, accesses[0]), accesses[1..]);
    }
  }

  /** One callback that leaves the pipe open. */
  lemma CallbackLines(o: Oracle, s: State, a: Access, tail: string)
    requires a.Callback? && a.read.Data? && |a.read.chunk| <= PIPE_READ_MAX && s.open && ExtractItem(s.buf) == None
    requires ShortLines(s.buf + a.read.chunk + tail, BUFFER_MAX - PIPE_READ_MAX)
    requires AccessStep(o, s, a).open
    ensures ItemsRead(o, s, a) == Lines(s.buf + a.read.chunk).0
    ensures AccessStep(o, s, a).buf == Lines(s.buf + a.read.chunk).1
  {
    hide Parse, Lines, ApplyAll, Calls, ShortLines, ExtractItem, Applied;
    var all := s.buf + a.read.chunk;
    assert all + tail == s.buf + (a.read.chunk + tail);
    ShortStart(s.buf, a.read.chunk + tail, BUFFER_MAX - PIPE_READ_MAX);
    ParseAppliesLines(o, s.prepared, all);
    AppliedAll(o, s.prepared, Lines(all).0);
  }

  lemma RestHasNoLine(buf: string)
    ensures ExtractItem(Lines(buf).1) == None
    decreases |buf|
  {
    hide IndexOf;
    if ExtractItem(buf).Some? {
      ExtractShorter(buf);
      RestHasNoLine(ExtractItem(buf).value.1);
    }
  }

  /** As long as the pipe stays open, the items behind the events are the lines of the
      stream, each once and in order, however it is cut and whenever the fetches
      come. */
  lemma {:induction false} EventsAreLines(o: Oracle, s: State, accesses: seq<Access>)
    requires s.open && ExtractItem(s.buf) == None && SmallCallbacks(accesses)
    requires ShortLines(s.buf + Stream(accesses), BUFFER_MAX - PIPE_READ_MAX)
    requires AccessRun(o, s, accesses).open
    ensures ItemsOf(AsEvents(o, s, accesses)) == Lines(s.buf + Stream(accesses)).0
    decreases |accesses|
  {
    hide AccessStep, ItemsRead, ItemEvents, ExtractItem, Lines, ShortLines, ItemsOf;
    if accesses == [] {
      assert s.buf + Stream(accesses) == s.buf;
      NoLines(s.buf);
    } else {
      var a, rest := accesses[0], accesses[1..];
      var next := AccessStep(o, s, a);
      if !next.open {
        ClosedStays(o, next, rest);
      }
      var events := AsEvents(o, next, rest);
      if a.Callback? && a.read.Data? {
        var all := s.buf + a.read.chunk;
        assert s.buf + Stream(accesses) == all + Stream(rest);
        CallbackLines(o, s, a, Stream(rest));
        ShortRest(all, Stream(rest), BUFFER_MAX - PIPE_READ_MAX);
        RestHasNoLine(all);
        EventsAreLines(o, next, rest);
        LinesAppend(all, Stream(rest));
        ItemsOfAppend(ItemsRead(o, s, a), events);
        assert ItemEvents(ItemsRead(o, s, a)) + [] + events == ItemEvents(ItemsRead(o, s, a)) + events;
      } else {
        OtherAccess(o, s, a);
        assert "" + Stream(rest) == Stream(rest);
        EventsAreLines(o, next, rest);
        NoItems();
        ItemsOfFetch(events);
        assert [] + [] + events == events && [] + [Fetch] + events == [Fetch] + events;
      }
    }
  }

  lemma NoLines(buf: string)
    requires ExtractItem(buf) == None
    ensures Lines(buf).0 == [] && ItemsOf([]) == []
  {
  }

  lemma OtherAccess(o: Oracle, s: State, a: Access)
    requires !(a.Callback? && a.read.Data?)
    ensures ItemsRead(o, s, a) == []
    ensures AccessStep(o, s, a).open ==> AccessStep(o, s, a).buf == s.buf
  {
  }
}
