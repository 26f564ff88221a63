/** One line of the command pipe of src/mass.c: key=value, which field or command
    it is, and what it stores. */
module CommandItems {
  import opened Common

  const SEP: char := '='

  /** Index of the first c, or the length. */
  function IndexOf(s: string, c: char): (i: nat)
    ensures i <= |s| && (i < |s| ==> s[i] == c)
    ensures forall j :: 0 <= j < i ==> s[j] != c
  {
    if s == [] || s[0] == c then 0 else 1 + IndexOf(s[1..], c)
  }

  lemma IndexOfIs(s: string, c: char, i: nat)
    requires i <= |s| && (i < |s| ==> s[i] == c) && forall j :: 0 <= j < i ==> s[j] != c
    ensures IndexOf(s, c) == i
  {
  }

  datatype KeyValue = KeyValue(key: string, value: string)

  /** extract_key_value: split at the first `=`. */
  function ExtractKeyValue(s: string): Option<KeyValue> {
    var i := IndexOf(s, SEP);
    if i == |s| then None else Some(KeyValue(s[..i], s[i + 1..]))
  }

  /** Splitting and joining are inverse, for every key without `=`. */
  lemma SplitJoin(key: string, value: string)
    requires SEP !in key
    ensures ExtractKeyValue(key + [SEP] + value) == Some(KeyValue(key, value))
  {
    var s := key + [SEP] + value;
    IndexOfIs(s, SEP, |key|);
    assert s[..|key|] == key && s[|key| + 1..] == value;
  }

  lemma JoinSplit(s: string)
    ensures ExtractKeyValue(s).None? <==> SEP !in s
    ensures match ExtractKeyValue(s)
            case None => true
            case Some(kv) => SEP !in kv.key && s == kv.key + [SEP] + kv.value
  {
    var i := IndexOf(s, SEP);
    if i < |s| {
      assert s[i] in s;
    }
  }

  // ---------- Which item it is ----------

  datatype Key = Album | Artist | Title | Duration | Progress | Artwork | Volume | Pin | Action

  function KeyText(k: Key): string {
    match k
    case Album => "ALBUM"
    case Artist => "ARTIST"
    case Title => "TITLE"
    case Duration => "DURATION"
    case Progress => "PROGRESS"
    case Artwork => "ARTWORK"
    case Volume => "VOLUME"
    case Pin => "PIN"
    case Action => "ACTION"
  }

  /** The order of the tests in parse_mass_item. */
  const KEY_ORDER: seq<Key> := [Album, Artist, Title, Duration, Progress, Artwork, Volume, Pin, Action]

  datatype Command = SendMeta | StopCmd | PauseCmd | PlayCmd

  function CommandText(c: Command): string {
    match c
    case SendMeta => "SENDMETA"
    case StopCmd => "STOP"
    case PauseCmd => "PAUSE"
    case PlayCmd => "PLAY"
  }

  const COMMAND_ORDER: seq<Command> := [SendMeta, StopCmd, PauseCmd, PlayCmd]

  /** The first test that succeeds: strncmp(text, constant, strlen(constant)). */
  function FirstKey(order: seq<Key>, text: string): Option<Key> {
    if order == [] then None
    else if KeyText(order[0]) <= text then Some(order[0])
    else FirstKey(order[1..], text)
  }

  function FirstCommand(order: seq<Command>, text: string): Option<Command> {
    if order == [] then None
    else if CommandText(order[0]) <= text then Some(order[0])
    else FirstCommand(order[1..], text)
  }

  /** No constant is a prefix of another. */
  lemma KeysPrefixFree(a: Key, b: Key)
    requires KeyText(a) <= KeyText(b)
    ensures a == b
  {
    assert KeyText(a)[0] == KeyText(b)[0] && KeyText(a)[1] == KeyText(b)[1] && KeyText(a)[2] == KeyText(b)[2];
    assert |KeyText(a)| > 3 ==> KeyText(a)[3] == KeyText(b)[3];
  }

  lemma CommandsPrefixFree(a: Command, b: Command)
    requires CommandText(a) <= CommandText(b)
    ensures a == b
  {
    assert CommandText(a)[0] == CommandText(b)[0] && CommandText(a)[1] == CommandText(b)[1];
  }

  /** Two prefixes of one text are prefixes of each other. */
  lemma PrefixesCompare(a: string, b: string, text: string)
    requires a <= text && b <= text
    ensures a <= b || b <= a
  {
    if |a| <= |b| {
      assert a == text[..|a|] == b[..|a|];
    } else {
      assert b == text[..|b|] == a[..|b|];
    }
  }

  /** What a text means is decided by the text alone: whatever the order of the
      tests, the one key whose constant is its prefix is found. */
  lemma {:induction false} KeyOrderIrrelevant(order: seq<Key>, text: string, k: Key)
    ensures FirstKey(order, text) == Some(k) <==> k in order && KeyText(k) <= text
  {
    if order != [] {
      KeyOrderIrrelevant(order[1..], text, k);
      assert order == [order[0]] + order[1..];
      if KeyText(order[0]) <= text && KeyText(k) <= text {
        PrefixesCompare(KeyText(order[0]), KeyText(k), text);
        if KeyText(k) <= KeyText(order[0]) {
          KeysPrefixFree(k, order[0]);
        } else {
          KeysPrefixFree(order[0], k);
        }
      }
    }
  }

  lemma {:induction false} CommandOrderIrrelevant(order: seq<Command>, text: string, k: Command)
    ensures FirstCommand(order, text) == Some(k) <==> k in order && CommandText(k) <= text
  {
    if order != [] {
      CommandOrderIrrelevant(order[1..], text, k);
      assert order == [order[0]] + order[1..];
      if CommandText(order[0]) <= text && CommandText(k) <= text {
        PrefixesCompare(CommandText(order[0]), CommandText(k), text);
        if CommandText(k) <= CommandText(order[0]) {
          CommandsPrefixFree(k, order[0]);
        } else {
          CommandsPrefixFree(order[0], k);
        }
      }
    }
  }

  // ---------- What it stores ----------

  /** The struct handed to the input thread; numbers are 0 and strings null until
      something is stored. */
  datatype Metadata = Metadata(album: Option<string>, artist: Option<string>, title: Option<string>,
                               artworkUrl: Option<string>, lenMs: int, posMs: int, posIsUpdated: bool)

  const NOTHING := Metadata(None, None, None, None, 0, 0, false)

  datatype Prepared = Prepared(meta: Metadata, volume: int, pin: Option<string>)

  datatype Msg = MetadataMsg | ProgressMsg | VolumeMsg | PictureMsg | PartialMsg | StopMsg | PauseMsg | PlayMsg | PinMsg

  // ---------- The PIN as text ----------

  function Digits(n: nat): (s: string)
    ensures |s| > 0
  {
    (if n < 10 then "" else Digits(n / 10)) + [('0' as int + n % 10) as char]
  }

  function Zeros(k: nat): string {
    if k == 0 then "" else "0" + Zeros(k - 1)
  }

  /** printf with "%.4u": at least four digits. */
  function PinText(n: nat): string {
    var digits := Digits(n);
    (if |digits| < 4 then Zeros(4 - |digits|) else "") + digits
  }

  /** What is copied into the device's PIN, an array of four characters and a
      terminator. */
  function DevicePin(text: string): (pin: string)
    ensures pin <= text && |pin| == if |text| < 4 then |text| else 4
  {
    if |text| < 4 then text else text[..4]
  }

  /** The number a text of digits stands for. */
  function NumberOf(s: string): int {
    if s == "" then 0 else NumberOf(s[..|s| - 1]) * 10 + (s[|s| - 1] as int - '0' as int)
  }

  predicate AllDigits(s: string) {
    forall c <- s :: '0' <= c <= '9'
  }

  lemma {:induction false} DigitsMean(n: nat)
    ensures AllDigits(Digits(n)) && NumberOf(Digits(n)) == n
    ensures |Digits(n)| <= 4 <==> n <= 9999
    ensures |Digits(n)| <= 3 <==> n <= 999
    ensures |Digits(n)| <= 2 <==> n <= 99
    ensures |Digits(n)| <= 1 <==> n <= 9
  {
    var d := Digits(n);
    if n >= 10 {
      DigitsMean(n / 10);
      assert d[..|d| - 1] == Digits(n / 10);
    } else {
      assert d[..|d| - 1] == "";
    }
  }

  lemma {:induction false} ZerosMean(k: nat, s: string)
    requires AllDigits(s)
    ensures |Zeros(k)| == k && AllDigits(Zeros(k) + s) && NumberOf(Zeros(k) + s) == NumberOf(s)
  {
    if k == 0 {
      assert Zeros(k) + s == s;
    } else {
      ZerosMean(k - 1, s);
      assert Zeros(k) + s == "0" + (Zeros(k - 1) + s);
      LeadingZero(Zeros(k - 1) + s);
    }
  }

  lemma {:induction false} LeadingZero(s: string)
    ensures NumberOf("0" + s) == NumberOf(s)
  {
    if s != "" {
      LeadingZero(s[..|s| - 1]);
      assert ("0" + s)[..|s|] == "0" + s[..|s| - 1];
    }
  }

  lemma {:induction false} FewDigits(s: string)
    requires AllDigits(s) && |s| <= 4
    ensures |s| <= 0 ==> NumberOf(s) < 1
    ensures |s| <= 1 ==> NumberOf(s) < 10
    ensures |s| <= 2 ==> NumberOf(s) < 100
    ensures |s| <= 3 ==> NumberOf(s) < 1000
    ensures NumberOf(s) < 10000
  {
    if s != "" {
      var front := s[..|s| - 1];
      assert s[|s| - 1] in s && forall c <- front :: c in s;
      FewDigits(front);
    }
  }

  /** The text is the number in at least four digits. */
  lemma PinTextMeans(n: nat)
    ensures |PinText(n)| >= 4 && (|PinText(n)| == 4 <==> n <= 9999)
    ensures AllDigits(PinText(n)) && NumberOf(PinText(n)) == n
  {
    var d := Digits(n);
    DigitsMean(n);
    ZerosMean(if |d| < 4 then 4 - |d| else 0, d);
    hide Digits, NumberOf, Zeros, AllDigits;
    assert "" + d == d;
  }

  /** The device gets the number if and only if it has no more than four digits. */
  lemma PinReachesDevice(n: nat)
    ensures NumberOf(DevicePin(PinText(n))) == n <==> n <= 9999
  {
    PinTextMeans(n);
    hide PinText, NumberOf;
    var t := PinText(n);
    var front := t[..4];
    assert forall c <- front :: c in t;
    FewDigits(front);
    if n <= 9999 {
      assert front == t;
    }
  }

  /** Library calls: number parsing, and fetching artwork (the URL of the local
      copy). */
  datatype Oracle = Oracle(atoi: string -> Option<int>, atou: string -> Option<nat>, artwork: string -> Option<string>)

  /** The C string stored in the item's bytes. */
  function CString(bytes: string): string {
    bytes[..IndexOf(bytes, NUL)]
  }

  /** The key and the value of an item, if it has them. */
  function Meaning(item: string): Option<(Key, string)> {
    match ExtractKeyValue(CString(item))
    case None => None
    case Some(kv) =>
      match FirstKey(KEY_ORDER, kv.key)
      case None => None
      case Some(key) => Some((key, kv.value))
  }

  /** parse_mass_item: the message, or None for an error. */
  function ParseItem(o: Oracle, p: Prepared, item: string): (Prepared, Option<Msg>) {
    match Meaning(item)
    case None => (p, None)
    case Some((Album, value)) => (p.(meta := p.meta.(album := Some(value))), Some(PartialMsg))
    case Some((Artist, value)) => (p.(meta := p.meta.(artist := Some(value))), Some(PartialMsg))
    case Some((Title, value)) => (p.(meta := p.meta.(title := Some(value))), Some(PartialMsg))
    case Some((Duration, value)) =>
      (match o.atoi(value)
       case None => (p, None)
       case Some(sec) => (p.(meta := p.meta.(lenMs := sec * 1000)), Some(PartialMsg)))
    case Some((Progress, value)) =>
      (match o.atoi(value)
       case None => (p, None)
       case Some(sec) => (p.(meta := p.meta.(posMs := sec * 1000, posIsUpdated := true)), Some(ProgressMsg)))
    case Some((Artwork, value)) =>
      (match o.artwork(value)
       case None => (p.(meta := p.meta.(artworkUrl := None)), None)
       case Some(local) => (p.(meta := p.meta.(artworkUrl := Some(local))), Some(PictureMsg)))
    case Some((Volume, value)) =>
      (match o.atoi(value)
       case None => (p, None)
       case Some(volume) => (p.(volume := volume), Some(VolumeMsg)))
    case Some((Pin, value)) =>
      (match o.atou(value)
       case None => (p, None)
       case Some(pin) => (p.(pin := Some(PinText(pin))), Some(PinMsg)))
    case Some((Action, value)) =>
      (match FirstCommand(COMMAND_ORDER, value)
       case None => (p, None)
       case Some(SendMeta) => (p, Some(MetadataMsg))
       case Some(StopCmd) => (p, Some(StopMsg))
       case Some(PauseCmd) => (p, Some(PauseMsg))
       case Some(PlayCmd) => (p, Some(PlayMsg)))
  }

  /** A line made of a key constant and a value means just that. */
  lemma MeaningOfLine(key: Key, value: string)
    requires NUL !in value
    ensures Meaning(KeyText(key) + [SEP] + value) == Some((key, value))
  {
    hide KeyText, FirstKey;
    PlainKey(key);
    CStringOfLine(KeyText(key), value);
    SplitJoin(KeyText(key), value);
    KeyOrderIrrelevant(KEY_ORDER, KeyText(key), key);
    assert KEY_ORDER[KeyIndex(key)] == key;
    hide CString, ExtractKeyValue, KeyIndex;
  }

  // ---------- The lines a sender writes ----------

  lemma TextLines(o: Oracle, p: Prepared, value: string)
    requires NUL !in value
    ensures ParseItem(o, p, "ALBUM=" + value) == (p.(meta := p.meta.(album := Some(value))), Some(PartialMsg))
    ensures ParseItem(o, p, "ARTIST=" + value) == (p.(meta := p.meta.(artist := Some(value))), Some(PartialMsg))
    ensures ParseItem(o, p, "TITLE=" + value) == (p.(meta := p.meta.(title := Some(value))), Some(PartialMsg))
  {
    LiteralLine(Album, "ALBUM=", value);
    LiteralLine(Artist, "ARTIST=", value);
    LiteralLine(Title, "TITLE=", value);
    hide Meaning, FirstCommand, PinText;
  }

  /** Times are in seconds and stored in milliseconds. */
  lemma TimeLines(o: Oracle, p: Prepared, value: string)
    requires NUL !in value
    ensures ParseItem(o, p, "DURATION=" + value) ==
            match o.atoi(value)
            case None => (p, None)
            case Some(sec) => (p.(meta := p.meta.(lenMs := 1000 * sec)), Some(PartialMsg))
    ensures ParseItem(o, p, "PROGRESS=" + value) ==
            match o.atoi(value)
            case None => (p, None)
            case Some(sec) => (p.(meta := p.meta.(posMs := 1000 * sec, posIsUpdated := true)), Some(ProgressMsg))
  {
    LiteralLine(Duration, "DURATION=", value);
    LiteralLine(Progress, "PROGRESS=", value);
    hide Meaning, FirstCommand, PinText;
  }

  lemma ArtworkLine(o: Oracle, p: Prepared, value: string)
    requires NUL !in value
    ensures ParseItem(o, p, "ARTWORK=" + value) ==
            (p.(meta := p.meta.(artworkUrl := o.artwork(value))), if o.artwork(value).Some? then Some(PictureMsg) else None)
  {
    LiteralLine(Artwork, "ARTWORK=", value);
    hide Meaning, FirstCommand, PinText;
  }

  /** The volume is stored as it is, without a range check. */
  lemma VolumeLine(o: Oracle, p: Prepared, value: string)
    requires NUL !in value
    ensures var (q, msg) := ParseItem(o, p, "VOLUME=" + value);
            match o.atoi(value)
            case None => q == p && msg == None
            case Some(v) => q == p.(volume := v) && msg == Some(VolumeMsg)
  {
    LiteralLine(Volume, "VOLUME=", value);
    hide Meaning, FirstCommand, PinText;
  }

  lemma PinLine(o: Oracle, p: Prepared, value: string)
    requires NUL !in value
    ensures var (q, msg) := ParseItem(o, p, "PIN=" + value);
            match o.atou(value)
            case None => q == p && msg == None
            case Some(pin) => q == p.(pin := Some(PinText(pin))) && msg == Some(PinMsg)
  {
    LiteralLine(Pin, "PIN=", value);
    hide Meaning, FirstCommand, PinText;
  }

  function MsgOf(c: Command): Msg {
    match c
    case SendMeta => MetadataMsg
    case StopCmd => StopMsg
    case PauseCmd => PauseMsg
    case PlayCmd => PlayMsg
  }

  /** An action is recognised by how it starts; what follows does not matter. */
  lemma ActionValue(o: Oracle, p: Prepared, c: Command, value: string)
    requires NUL !in value && CommandText(c) <= value
    ensures ParseItem(o, p, "ACTION=" + value) == (p, Some(MsgOf(c)))
  {
    hide CommandText, Meaning, FirstCommand, PinText;
    LiteralLine(Action, "ACTION=", value);
    CommandOrderIrrelevant(COMMAND_ORDER, value, c);
    InCommandOrder(c);
  }

  lemma ActionLines(o: Oracle, p: Prepared, rest: string)
    requires NUL !in rest
    ensures ParseItem(o, p, "ACTION=" + ("SENDMETA" + rest)) == (p, Some(MetadataMsg))
    ensures ParseItem(o, p, "ACTION=" + ("STOP" + rest)) == (p, Some(StopMsg))
    ensures ParseItem(o, p, "ACTION=" + ("PAUSE" + rest)) == (p, Some(PauseMsg))
    ensures ParseItem(o, p, "ACTION=" + ("PLAY" + rest)) == (p, Some(PlayMsg))
  {
    hide ParseItem;
    ActionValue(o, p, SendMeta, "SENDMETA" + rest);
    ActionValue(o, p, StopCmd, "STOP" + rest);
    ActionValue(o, p, PauseCmd, "PAUSE" + rest);
    ActionValue(o, p, PlayCmd, "PLAY" + rest);
  }

  lemma InCommandOrder(c: Command)
    ensures c in COMMAND_ORDER
  {
    assert COMMAND_ORDER[0] == SendMeta && COMMAND_ORDER[1] == StopCmd
           && COMMAND_ORDER[2] == PauseCmd && COMMAND_ORDER[3] == PlayCmd;
  }

  lemma LiteralLine(key: Key, start: string, value: string)
    requires NUL !in value && start == KeyText(key) + [SEP]
    ensures Meaning(start + value) == Some((key, value))
  {
    MeaningOfLine(key, value);
  }

  /** Everything else is refused: a line without `=`, a key that starts with none of the
      constants, an action that starts with no command. */
  lemma NoSeparatorRefused(o: Oracle, p: Prepared, item: string)
    requires '\0' !in item && '=' !in item
    ensures ParseItem(o, p, item) == (p, None)
  {
    JoinSplit(item);
    CStringIs(item);
    hide CString, FirstKey, FirstCommand, ExtractKeyValue, PinText;
  }

  lemma UnknownKeyRefused(o: Oracle, p: Prepared, key: string, value: string)
    requires '\0' !in key && '\0' !in value && '=' !in key
    requires forall k :: !(KeyText(k) <= key)
    ensures ParseItem(o, p, key + "=" + value) == (p, None)
  {
    CStringOfLine(key, value);
    SplitJoin(key, value);
    NoKey(KEY_ORDER, key);
    hide CString, FirstKey, FirstCommand, ExtractKeyValue, KeyText, PinText;
  }

  lemma NoKey(order: seq<Key>, text: string)
    requires forall k :: !(KeyText(k) <= text)
    ensures FirstKey(order, text) == None
  {
    hide KeyText;
  }

  lemma UnknownActionRefused(o: Oracle, p: Prepared, value: string)
    requires '\0' !in value && forall c :: !(CommandText(c) <= value)
    ensures ParseItem(o, p, "ACTION=" + value) == (p, None)
  {
    LiteralLine(Action, "ACTION=", value);
    NoCommand(COMMAND_ORDER, value);
    hide Meaning, FirstCommand, CommandText, PinText;
  }

  lemma NoCommand(order: seq<Command>, text: string)
    requires forall c :: !(CommandText(c) <= text)
    ensures FirstCommand(order, text) == None
  {
    hide CommandText;
  }

  lemma CStringIs(item: string)
    requires NUL !in item
    ensures CString(item) == item
  {
    IndexOfIs(item, NUL, |item|);
    assert item[..|item|] == item;
  }

  /** A NUL ends the item: what follows it on the line is not seen. */
  lemma NulEndsItem(o: Oracle, p: Prepared, seen: string, unseen: string)
    requires '\0' !in seen
    ensures ParseItem(o, p, seen + "\0" + unseen) == ParseItem(o, p, seen)
  {
    var item := seen + "\0" + unseen;
    IndexOfIs(item, NUL, |seen|);
    assert item[..|seen|] == seen;
    CStringIs(seen);
    hide CString, FirstKey, FirstCommand, ExtractKeyValue, PinText;
  }

  lemma CStringOfLine(text: string, value: string)
    requires NUL !in text && NUL !in value
    ensures CString(text + [SEP] + value) == text + [SEP] + value
  {
    var item := text + [SEP] + value;
    IndexOfIs(item, NUL, |item|);
    assert item[..|item|] == item;
  }

  function KeyIndex(key: Key): nat {
    match key
    case Album => 0
    case Artist => 1
    case Title => 2
    case Duration => 3
    case Progress => 4
    case Artwork => 5
    case Volume => 6
    case Pin => 7
    case Action => 8
  }

  lemma PlainKey(key: Key)
    ensures SEP !in KeyText(key) && NUL !in KeyText(key)
  {
  }

  /** The range check on the PIN looks at the return code, so every number that
      parses is accepted, of any length. */
  lemma PinIsNotRangeChecked(o: Oracle, p: Prepared, value: string)
    requires NUL !in value
    ensures var (q, msg) := ParseItem(o, p, KeyText(Pin) + [SEP] + value);
            && (msg == Some(PinMsg) <==> o.atou(value).Some?)
            && (o.atou(value).Some? ==> q == p.(pin := Some(PinText(o.atou(value).value))))
  {
    MeaningOfLine(Pin, value);
    hide Meaning;
  }
}
