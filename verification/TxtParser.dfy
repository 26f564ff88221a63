/** parse_keyval of src/cliap2.c: `"key=value" "key=value"` into a key/value list,
    by two nested strtok_r loops that overwrite the string they read. */
module TxtParser {
  import opened Common
  import opened Names
  import opened Tokens
  import KeyValSpec
  import KeyVal
  import KeyValOrder

  const QUOTE: char := '"'

  // ---------- What one call does ----------

  /** One quoted piece: the first two parts become a pair, a third is an error
      (raised after the pair was added). */
  function ParsePair(piece: string, ps: seq<KeyValSpec.Pair>): (seq<KeyValSpec.Pair>, bool) {
    match NextTok(piece, '=')
    case None => (ps, true)
    case Some(key) =>
      match NextTok(key.rest, '=')
      case None => (ps, true)
      case Some(value) => (KeyValSpec.Add(ps, key.token, value.token).0, NextTok(value.rest, '=').None?)
  }

  /** What remains after one more token. */
  function AfterTok(s: string): (rest: string)
    ensures |rest| <= |s|
  {
    match NextTok(s, QUOTE)
    case None => ""
    case Some(t) => t.rest
  }

  /** Every other token is a pair, the ones between are thrown away. */
  function ParsePieces(s: string, ps: seq<KeyValSpec.Pair>): (seq<KeyValSpec.Pair>, int)
    decreases |s|
  {
    match NextTok(s, QUOTE)
    case None => (ps, 0)
    case Some(piece) =>
      var (added, ok) := ParsePair(piece.token, ps);
      if ok then ParsePieces(AfterTok(piece.rest), added) else (added, -1)
  }

  function Parse(s: string, ps: seq<KeyValSpec.Pair>): (seq<KeyValSpec.Pair>, int) {
    if s == "" || s[0] != QUOTE then (ps, -1) else ParsePieces(s[1..], ps)
  }

  // ---------- Printed lists ----------

  /** A pair in the printed form, with the text between it and the next one. */
  datatype Entry = Entry(pair: KeyValSpec.Pair, gap: string) {
    predicate Printable() {
      Plain(pair.name) && Plain(pair.value) && QUOTE !in gap
    }

    function Body(): string {
      pair.name + "=" + pair.value
    }

    function Quoted(): string {
      [QUOTE] + Body() + [QUOTE]
    }
  }

  predicate Plain(s: string) {
    s != "" && QUOTE !in s && '=' !in s
  }

  predicate Printable(es: seq<Entry>) {
    forall e <- es :: e.Printable()
  }

  /** No two quoted pieces touch. */
  predicate Separated(es: seq<Entry>) {
    forall i :: 0 <= i < |es| - 1 ==> es[i].gap != ""
  }

  function Print(es: seq<Entry>): string {
    if es == [] then "" else es[0].Quoted() + es[0].gap + Print(es[1..])
  }

  function AddAll(ps: seq<KeyValSpec.Pair>, es: seq<Entry>): seq<KeyValSpec.Pair>
    decreases |es|
  {
    if es == [] then ps else AddAll(KeyValSpec.Add(ps, es[0].pair.name, es[0].pair.value).0, es[1..])
  }

  lemma ParsePairOfPrinted(e: Entry, ps: seq<KeyValSpec.Pair>)
    requires e.Printable()
    ensures ParsePair(e.Body(), ps) == (KeyValSpec.Add(ps, e.pair.name, e.pair.value).0, true)
  {
    hide NextTok, KeyValSpec.Add;
    FirstPiece(e.pair.name, '=', e.pair.value);
    assert e.pair.name + ['='] + e.pair.value == e.Body();
    WholePiece(e.pair.value, '=');
    EmptyHasNoToken('=');
  }

  lemma EmptyHasNoToken(d: char)
    ensures NextTok("", d) == None
  {
  }

  // ---------- Which pieces are taken for pairs ----------

  /** The pieces that are parsed as pairs.  After a pair without a gap the next body
      is thrown away as text between pairs, and from there on the loop is out of
      step: it parses the gaps, until one of them is empty. */
  function Taken(es: seq<Entry>): seq<string> {
    if es == [] then []
    else [es[0].Body()] + if es[0].gap != "" then Taken(es[1..]) else Passed(es[1..])
  }

  /** The same when the first body is thrown away. */
  function Passed(es: seq<Entry>): seq<string> {
    if es == [] then []
    else if es[0].gap == "" then Taken(es[1..])
    else [es[0].gap] + Passed(es[1..])
  }

  function ParseEach(pieces: seq<string>, ps: seq<KeyValSpec.Pair>): (seq<KeyValSpec.Pair>, int)
    decreases |pieces|
  {
    if pieces == [] then (ps, 0)
    else
      var (added, ok) := ParsePair(pieces[0], ps);
      if ok then ParseEach(pieces[1..], added) else (added, -1)
  }

  lemma EachUnfolds(piece: string, pieces: seq<string>, ps: seq<KeyValSpec.Pair>)
    ensures var (added, ok) := ParsePair(piece, ps);
            ParseEach([piece] + pieces, ps) == if ok then ParseEach(pieces, added) else (added, -1)
  {
    hide ParsePair;
    assert ([piece] + pieces)[1..] == pieces;
  }

  lemma NoPieces(ps: seq<KeyValSpec.Pair>)
    ensures ParsePieces("", ps) == (ps, 0)
  {
  }

  /** An opening quote that is still there is skipped. */
  lemma LeadingQuote(s: string, ps: seq<KeyValSpec.Pair>)
    ensures ParsePieces([QUOTE] + s, ps) == ParsePieces(s, ps)
  {
    SkipsDelimiter(s, QUOTE);
    hide NextTok, ParsePair, AfterTok;
  }

  /** One piece is taken off the front. */
  lemma PieceStep(piece: string, tail: string, ps: seq<KeyValSpec.Pair>)
    requires piece != "" && QUOTE !in piece
    ensures var (added, ok) := ParsePair(piece, ps);
            ParsePieces(piece + [QUOTE] + tail, ps) == if ok then ParsePieces(AfterTok(tail), added) else (added, -1)
  {
    hide NextTok, ParsePair, AfterTok;
    FirstPiece(piece, QUOTE, tail);
  }

  lemma LastPiece(piece: string, ps: seq<KeyValSpec.Pair>)
    requires piece != "" && QUOTE !in piece
    ensures ParsePieces(piece, ps) == ParseEach([piece], ps)
  {
    WholePiece(piece, QUOTE);
    NothingLeft("");
    hide NextTok, ParsePair, AfterTok;
    NoPieces(ParsePair(piece, ps).0);
    EachUnfolds(piece, [], ps);
    assert [piece] + [] == [piece];
  }

  /** One piece is thrown away, its opening quote in front of it or not. */
  lemma ThrownAway(piece: string, tail: string)
    requires piece != "" && QUOTE !in piece
    ensures AfterTok(piece + [QUOTE] + tail) == tail
    ensures AfterTok([QUOTE] + (piece + [QUOTE] + tail)) == tail
  {
    hide NextTok;
    FirstPiece(piece, QUOTE, tail);
    SkipsDelimiter(piece + [QUOTE] + tail, QUOTE);
  }

  lemma NothingLeft(gap: string)
    requires QUOTE !in gap
    ensures AfterTok(gap) == ""
  {
    if gap != "" {
      WholePiece(gap, QUOTE);
    }
  }

  lemma BodyIsPiece(e: Entry)
    requires e.Printable()
    ensures e.Body() != "" && QUOTE !in e.Body()
  {
  }

  /** What follows the first quote of a printed list. */
  function Opened(es: seq<Entry>): string
    requires es != []
  {
    es[0].Body() + [QUOTE] + (es[0].gap + Print(es[1..]))
  }

  lemma PrintOpened(es: seq<Entry>)
    requires es != []
    ensures Print(es) == [QUOTE] + Opened(es)
  {
    var body, gap, rest := es[0].Body(), es[0].gap, Print(es[1..]);
    assert [QUOTE] + body + [QUOTE] + gap + rest == [QUOTE] + (body + [QUOTE] + (gap + rest));
  }

  /** The loop in step: it is about to take a body. */
  lemma {:induction false} ParseTaken(es: seq<Entry>, ps: seq<KeyValSpec.Pair>)
    requires Printable(es)
    ensures ParsePieces(Print(es), ps) == ParseEach(Taken(es), ps)
    decreases |es|
  {
    hide ParsePieces, AfterTok, ParsePair, ParseEach;
    if es == [] {
      NoPieces(ps);
      NothingTaken(ps);
    } else {
      var e, rest := es[0], es[1..];
      PrintOpened(es);
      BodyIsPiece(e);
      LeadingQuote(Opened(es), ps);
      PieceStep(e.Body(), e.gap + Print(rest), ps);
      var added := ParsePair(e.Body(), ps).0;
      if e.gap == "" {
        assert e.gap + Print(rest) == Print(rest);
        ParsePassed(rest, added);
        EachUnfolds(e.Body(), Passed(rest), ps);
      } else {
        GapThrownAway(e.gap, rest, added);
        ParseTaken(rest, added);
        EachUnfolds(e.Body(), Taken(rest), ps);
      }
    }
  }

  lemma NothingTaken(ps: seq<KeyValSpec.Pair>)
    ensures ParseEach([], ps) == (ps, 0)
  {
  }

  /** A gap goes in one token with the opening quote behind it. */
  lemma GapThrownAway(gap: string, es: seq<Entry>, ps: seq<KeyValSpec.Pair>)
    requires gap != "" && QUOTE !in gap
    ensures ParsePieces(AfterTok(gap + Print(es)), ps) == ParsePieces(Print(es), ps)
  {
    hide ParsePieces, AfterTok;
    if es == [] {
      assert gap + Print(es) == gap;
      NothingLeft(gap);
    } else {
      PrintOpened(es);
      hide Print;
      assert gap + ([QUOTE] + Opened(es)) == gap + [QUOTE] + Opened(es);
      ThrownAway(gap, Opened(es));
      LeadingQuote(Opened(es), ps);
    }
  }

  /** The loop out of step: it throws a body away and takes the gap behind it. */
  lemma {:induction false} ParsePassed(es: seq<Entry>, ps: seq<KeyValSpec.Pair>)
    requires Printable(es)
    ensures ParsePieces(AfterTok(Print(es)), ps) == ParseEach(Passed(es), ps)
    decreases |es|
  {
    hide ParsePieces, AfterTok, ParsePair, ParseEach;
    if es == [] {
      NothingLeft("");
      NoPieces(ps);
      NothingTaken(ps);
    } else {
      var e, rest := es[0], es[1..];
      PrintOpened(es);
      BodyIsPiece(e);
      ThrownAway(e.Body(), e.gap + Print(rest));
      if e.gap == "" {
        assert e.gap + Print(rest) == Print(rest);
        ParseTaken(rest, ps);
      } else {
        GapTaken(e.gap, rest, ps);
        if ParsePair(e.gap, ps).1 {
          ParsePassed(rest, ParsePair(e.gap, ps).0);
        }
        EachUnfolds(e.gap, Passed(rest), ps);
      }
    }
  }

  lemma GapTaken(gap: string, es: seq<Entry>, ps: seq<KeyValSpec.Pair>)
    requires gap != "" && QUOTE !in gap && Printable(es)
    ensures var (added, ok) := ParsePair(gap, ps);
            ParsePieces(gap + Print(es), ps) == if ok then ParsePieces(AfterTok(Print(es)), added) else (added, -1)
  {
    hide ParsePieces, AfterTok, ParsePair, ParseEach;
    if es == [] {
      assert gap + Print(es) == gap && [gap] + [] == [gap];
      LastPiece(gap, ps);
      EachUnfolds(gap, [], ps);
      NothingTaken(ParsePair(gap, ps).0);
      NothingLeft("");
      NoPieces(ParsePair(gap, ps).0);
    } else {
      PrintOpened(es);
      BodyIsPiece(es[0]);
      ThrownAway(es[0].Body(), es[0].gap + Print(es[1..]));
      hide Print;
      assert gap + ([QUOTE] + Opened(es)) == gap + [QUOTE] + Opened(es);
      PieceStep(gap, Opened(es), ps);
    }
  }

  /** For every printed list: the call parses exactly the pieces `Taken`, in order,
      and stops at the first one with a second `=`. */
  lemma PrintedPieces(es: seq<Entry>, ps: seq<KeyValSpec.Pair>)
    requires Printable(es) && es != []
    ensures Parse(Print(es), ps) == ParseEach(Taken(es), ps)
  {
    hide ParsePieces, Print, Taken, ParseEach;
    ParseTaken(es, ps);
    PrintOpened(es);
    LeadingQuote(Opened(es), ps);
  }

  // ---------- Printing and parsing back ----------

  lemma {:induction false} EachSeparated(es: seq<Entry>, ps: seq<KeyValSpec.Pair>)
    requires Printable(es) && Separated(es)
    ensures ParseEach(Taken(es), ps) == (AddAll(ps, es), 0)
    decreases |es|
  {
    hide ParseEach, ParsePair, KeyValSpec.Add;
    if es == [] {
      NothingTaken(ps);
    } else {
      var rest := es[1..];
      ParsePairOfPrinted(es[0], ps);
      EachUnfolds(es[0].Body(), Taken(rest), ps);
      assert rest == [] ==> Taken(rest) == Passed(rest);
      assert forall i :: 0 <= i < |rest| - 1 ==> rest[i] == es[i + 1];
      EachSeparated(rest, KeyValSpec.Add(ps, es[0].pair.name, es[0].pair.value).0);
    }
  }

  /** Printing pairs and parsing them back adds them in order. */
  lemma RoundTrip(es: seq<Entry>, ps: seq<KeyValSpec.Pair>)
    requires Printable(es) && Separated(es) && es != []
    ensures Parse(Print(es), ps) == (AddAll(ps, es), 0)
  {
    hide Parse, Print, Taken, ParseEach;
    PrintedPieces(es, ps);
    EachSeparated(es, ps);
  }

  // ---------- Which pairs are kept ----------

  /** The first pair for each case-insensitive key, in order. */
  function Firsts(es: seq<Entry>): seq<KeyValSpec.Pair> {
    if es == [] then []
    else
      var n := |es| - 1;
      var last := es[n].pair;
      if exists j :: 0 <= j < n && SameName(es[j].pair.name, last.name) then Firsts(es[..n])
      else Firsts(es[..n]) + [last]
  }

  lemma {:induction false} AddAllSnoc(ps: seq<KeyValSpec.Pair>, es: seq<Entry>)
    requires es != []
    ensures var n := |es| - 1;
            AddAll(ps, es) == KeyValSpec.Add(AddAll(ps, es[..n]), es[n].pair.name, es[n].pair.value).0
    decreases |es|
  {
    hide KeyValSpec.Add;
    var n := |es| - 1;
    if n > 0 {
      var q := KeyValSpec.Add(ps, es[0].pair.name, es[0].pair.value).0;
      AddAllSnoc(q, es[1..]);
      assert es[1..][..n - 1] == es[..n][1..] && es[..n][0] == es[0];
    }
  }

  predicate Named(es: seq<Entry>, name: string) {
    exists j :: 0 <= j < |es| && SameName(es[j].pair.name, name)
  }

  lemma {:induction false} FirstsWithin(es: seq<Entry>, name: string, p: KeyValSpec.Pair)
    requires p in Firsts(es) && SameName(p.name, name)
    ensures Named(es, name)
  {
    hide Fold;
    var n := |es| - 1;
    if p in Firsts(es[..n]) {
      FirstsWithin(es[..n], name, p);
      var j :| 0 <= j < n && SameName(es[..n][j].pair.name, name);
      assert SameName(es[j].pair.name, name);
    } else {
      assert SameName(es[n].pair.name, name);
    }
  }

  lemma {:induction false} FirstsCover(es: seq<Entry>, name: string) returns (p: KeyValSpec.Pair)
    requires Named(es, name)
    ensures p in Firsts(es) && SameName(p.name, name)
  {
    hide Fold;
    var n := |es| - 1;
    if Named(es[..n], name) {
      p := FirstsCover(es[..n], name);
    } else {
      forall i | 0 <= i < n
        ensures !SameName(es[i].pair.name, name)
      {
        assert es[..n][i] == es[i];
      }
      p := es[n].pair;
    }
  }

  lemma {:induction false} AddAllIsFirsts(es: seq<Entry>)
    ensures AddAll([], es) == Firsts(es)
  {
    hide Fold, SameName;
    if es != [] {
      var n := |es| - 1;
      var last := es[n].pair;
      AddAllIsFirsts(es[..n]);
      AddAllSnoc([], es);
      var ps := Firsts(es[..n]);
      assert Named(es[..n], last.name) <==> exists j :: 0 <= j < n && SameName(es[j].pair.name, last.name) by {
        assert forall j :: 0 <= j < n ==> es[..n][j] == es[j];
      }
      if Named(es[..n], last.name) {
        var p := FirstsCover(es[..n], last.name);
      } else if KeyValSpec.IndexOf(ps, last.name) < |ps| {
        FirstsWithin(es[..n], last.name, ps[KeyValSpec.IndexOf(ps, last.name)]);
      }
      assert last.value[..|last.value|] == last.value;
    }
  }

  /** The promise of the option: a list printed with gaps between the pairs is
      accepted into an empty list, in order, the first pair winning for each
      key. */
  lemma RoundTripKeepsFirsts(es: seq<Entry>)
    requires Printable(es) && Separated(es) && es != []
    ensures Parse(Print(es), []) == (Firsts(es), 0)
  {
    RoundTrip(es, []);
    AddAllIsFirsts(es);
  }

  // ---------- What is refused ----------

  /** Without the opening quote nothing is read. */
  lemma NoOpeningQuote(s: string, ps: seq<KeyValSpec.Pair>)
    requires s == "" || s[0] != '"'
    ensures Parse(s, ps) == (ps, -1)
  {
  }

  /** A second `=` with text behind it ends the call with an error, after the first two
      parts were added as a pair; what follows is not read. */
  lemma TooManyParts(name: string, value: string, more: string, tail: string, ps: seq<KeyValSpec.Pair>)
    requires Plain(name) && Plain(value) && more != "" && QUOTE !in more && more[0] != '='
    ensures Parse("\"" + (name + "=" + value + "=" + more) + "\"" + tail, ps) == (KeyValSpec.Add(ps, name, value).0, -1)
  {
    var piece := name + "=" + value + "=" + more;
    assert "\"" + piece + "\"" + tail == [QUOTE] + (piece + [QUOTE] + tail);
    ThreeParts(name, value, more, ps);
    assert QUOTE !in piece && piece != "";
    hide *;
    PieceStep(piece, tail, ps);
    Opening(piece + [QUOTE] + tail, ps);
  }

  lemma Opening(s: string, ps: seq<KeyValSpec.Pair>)
    ensures Parse([QUOTE] + s, ps) == ParsePieces(s, ps)
  {
    hide ParsePieces;
    assert ([QUOTE] + s)[1..] == s;
  }

  lemma ThreeParts(name: string, value: string, more: string, ps: seq<KeyValSpec.Pair>)
    requires Plain(name) && Plain(value) && more != "" && more[0] != '='
    ensures ParsePair(name + "=" + value + "=" + more, ps) == (KeyValSpec.Add(ps, name, value).0, false)
  {
    hide NextTok, KeyValSpec.Add;
    assert name + "=" + value + "=" + more == name + ['='] + (value + ['='] + more);
    FirstPiece(name, '=', value + ['='] + more);
    FirstPiece(value, '=', more);
    StartsWithToken(more, '=');
  }

  lemma StartsWithToken(s: string, d: char)
    requires s != "" && s[0] != d
    ensures NextTok(s, d).Some?
  {
    LeadingIs(s, d, 0);
    hide Leading, UpTo;
    assert s[0..] == s;
  }

  // ---------- Without a gap ----------

  predicate PlainGaps(es: seq<Entry>) {
    forall e <- es :: '=' !in e.gap
  }

  /** The entries that are kept. */
  function Kept(es: seq<Entry>): (kept: seq<Entry>)
    ensures |kept| <= |es|
  {
    if es == [] then []
    else [es[0]] + if es[0].gap != "" then Kept(es[1..]) else KeptAfterLoss(es[1..])
  }

  /** The first one is lost, and with it all up to the next empty gap. */
  function KeptAfterLoss(es: seq<Entry>): (kept: seq<Entry>)
    ensures |kept| <= |es| && (es != [] ==> |kept| < |es|)
  {
    if es == [] then []
    else if es[0].gap == "" then Kept(es[1..])
    else KeptAfterLoss(es[1..])
  }

  lemma SeparatedUnfolds(e: Entry, rest: seq<Entry>)
    ensures Separated([e] + rest) <==> rest == [] || (e.gap != "" && Separated(rest))
  {
    var es := [e] + rest;
    if Separated(es) && rest != [] {
      assert es[0].gap != "";
      forall i | 0 <= i < |rest| - 1
        ensures rest[i].gap != ""
      {
        assert es[i + 1].gap != "";
      }
    }
    if rest == [] || (e.gap != "" && Separated(rest)) {
      forall i | 0 <= i < |es| - 1
        ensures es[i].gap != ""
      {
        assert es[i] == if i == 0 then e else rest[i - 1];
      }
    }
  }

  lemma {:induction false} KeptAll(es: seq<Entry>)
    ensures |Kept(es)| == |es| <==> Separated(es)
    ensures Separated(es) ==> Kept(es) == es
  {
    if es != [] {
      var e, rest := es[0], es[1..];
      KeptAll(rest);
      assert es == [e] + rest;
      SeparatedUnfolds(e, rest);
      hide Separated;
    }
  }

  lemma PlainPiece(gap: string, ps: seq<KeyValSpec.Pair>)
    requires gap != "" && '=' !in gap
    ensures ParsePair(gap, ps) == (ps, true)
  {
    WholePiece(gap, '=');
    EmptyHasNoToken('=');
    hide NextTok;
  }

  lemma {:induction false} EachKept(es: seq<Entry>, ps: seq<KeyValSpec.Pair>)
    requires Printable(es) && PlainGaps(es)
    ensures ParseEach(Taken(es), ps) == (AddAll(ps, Kept(es)), 0)
    ensures ParseEach(Passed(es), ps) == (AddAll(ps, KeptAfterLoss(es)), 0)
    decreases |es|
  {
    hide ParseEach, ParsePair, KeyValSpec.Add;
    if es == [] {
      NothingTaken(ps);
    } else {
      var e, rest := es[0], es[1..];
      var added := KeyValSpec.Add(ps, e.pair.name, e.pair.value).0;
      ParsePairOfPrinted(e, ps);
      EachKept(rest, added);
      EachKept(rest, ps);
      if e.gap == "" {
        EachUnfolds(e.Body(), Passed(rest), ps);
        AddAllUnfolds(ps, e, KeptAfterLoss(rest));
      } else {
        EachUnfolds(e.Body(), Taken(rest), ps);
        AddAllUnfolds(ps, e, Kept(rest));
        PlainPiece(e.gap, ps);
        EachUnfolds(e.gap, Passed(rest), ps);
      }
    }
  }

  lemma AddAllUnfolds(ps: seq<KeyValSpec.Pair>, e: Entry, es: seq<Entry>)
    ensures AddAll(ps, [e] + es) == AddAll(KeyValSpec.Add(ps, e.pair.name, e.pair.value).0, es)
  {
    hide KeyValSpec.Add;
    assert ([e] + es)[1..] == es;
  }

  /** The gaps decide: for every printed list without `=` in the gaps, the call
      succeeds and adds exactly the entries `Kept`; those are all of them if and
      only if no two quoted pieces touch. */
  lemma GapDecides(es: seq<Entry>, ps: seq<KeyValSpec.Pair>)
    requires Printable(es) && PlainGaps(es) && es != []
    ensures Parse(Print(es), ps) == (AddAll(ps, Kept(es)), 0)
    ensures Kept(es) == es <==> Separated(es)
  {
    hide Parse, Print, Taken, ParseEach;
    PrintedPieces(es, ps);
    EachKept(es, ps);
    KeptAll(es);
  }

  predicate DifferentNames(es: seq<Entry>) {
    forall i, j :: 0 <= i < j < |es| ==> !SameName(es[i].pair.name, es[j].pair.name)
  }

  function Pairs(es: seq<Entry>): seq<KeyValSpec.Pair> {
    seq(|es|, i requires 0 <= i < |es| => es[i].pair)
  }

  lemma {:induction false} FirstsOfDifferent(es: seq<Entry>)
    ensures |Firsts(es)| <= |es|
    ensures DifferentNames(es) ==> Firsts(es) == Pairs(es)
  {
    hide SameName;
    if es != [] {
      FirstsOfDifferent(es[..|es| - 1]);
    }
  }

  /** A list of different names comes back whole if and only if no two quoted pieces
      touch. */
  lemma RoundTripNeedsGaps(es: seq<Entry>)
    requires Printable(es) && PlainGaps(es) && DifferentNames(es) && es != []
    ensures Parse(Print(es), []) == (Pairs(es), 0) <==> Separated(es)
  {
    GapDecides(es, []);
    KeptAll(es);
    AddAllIsFirsts(Kept(es));
    FirstsOfDifferent(Kept(es));
    FirstsOfDifferent(es);
    hide Parse, Print, Kept, AddAll, Firsts, Separated, DifferentNames;
  }

  // ---------- The loops ----------

  /** The variables of a strtok_r loop hold `t`. */
  predicate Cursor(b: seq<char>, tok: Option<nat>, save: nat, t: Option<Tok>) {
    match t
    case None => tok == None && StrAt(b, save, "")
    case Some(Tok(token, rest)) =>
      tok.Some? && StrAt(b, tok.value, token) && StrAt(b, save, rest) && tok.value + |token| <= save
  }

  /** The inner loop: tokenises one piece by `=`.  The third token ends it at the
      latest, so its three rounds are written out.  It writes inside the piece
      only. */
  method ParsePieceInPlace(buf: array<char>, outer: nat, kv: KeyVal.KeyValList, ghost piece: string) returns (ok: bool)
    requires StrAt(buf[..], outer, piece) && kv.Valid()
    modifies buf, kv, kv.nodes
    ensures kv.Valid() && forall i :: 0 <= i < |kv.nodes| ==> kv.nodes[i] in old(kv.nodes) || fresh(kv.nodes[i])
    ensures (kv.Pairs(), ok) == ParsePair(piece, old(kv.Pairs()))
    ensures forall i :: 0 <= i < buf.Length && buf[i] != old(buf[i]) ==> outer <= i < outer + |piece|
  {
    hide NextTok, StrAt, KeyValSpec.Add;
    ghost var t0 := NextTok(piece, '=');
    ghost var t1 := if t0.Some? then NextTok(t0.value.rest, '=') else None;
    ghost var t2 := if t1.Some? then NextTok(t1.value.rest, '=') else None;
    var inner, save := StrTok(buf, outer, '=', piece);
    if inner.None? {
      return true;
    }
    var key := inner.value;
    ghost var before := buf[..];
    inner, save := StrTok(buf, save, '=', t0.value.rest);
    if inner.None? {
      return true;
    }
    StrFrame(before, buf[..], key, t0.value.token);
    var k := ReadStr(buf, key, t0.value.token);
    var v := ReadStr(buf, inner.value, t1.value.token);
    var _ := kv.Add(k, v);
    inner, save := StrTok(buf, save, '=', t1.value.rest);
    ok := inner.None?;
  }

  /** The body of the outer loop: the pair in hand, then on to the next one. */
  method ParseOne(buf: array<char>, outer: nat, save: nat, kv: KeyVal.KeyValList, ghost s: string)
    returns (ok: bool, nextOuter: Option<nat>, nextSave: nat)
    requires Cursor(buf[..], Some(outer), save, NextTok(s, QUOTE)) && kv.Valid()
    modifies buf, kv, kv.nodes
    ensures kv.Valid() && forall i :: 0 <= i < |kv.nodes| ==> kv.nodes[i] in old(kv.nodes) || fresh(kv.nodes[i])
    ensures (kv.Pairs(), ok) == ParsePair(NextTok(s, QUOTE).value.token, old(kv.Pairs()))
    ensures ok ==> Cursor(buf[..], nextOuter, nextSave, NextTok(AfterTok(NextTok(s, QUOTE).value.rest), QUOTE))
  {
    hide NextTok, StrAt, ParsePair;
    ghost var Tok(piece, rest) := NextTok(s, QUOTE).value;
    ghost var before := buf[..];
    ok := ParsePieceInPlace(buf, outer, kv, piece);
    if !ok {
      return false, None, save;
    }
    StrFrame(before, buf[..], save, rest);
    nextOuter, nextSave := StrTok(buf, save, QUOTE, rest);
    nextOuter, nextSave := StrTok(buf, nextSave, QUOTE, AfterTok(rest));
  }

  lemma CursorEnds(b: seq<char>, tok: Option<nat>, save: nat, t: Option<Tok>)
    requires Cursor(b, tok, save, t)
    ensures tok.Some? <==> t.Some?
  {
  }

  method ParseKeyval(buf: array<char>, kv: KeyVal.KeyValList, ghost text: string) returns (ret: int)
    requires StrAt(buf[..], 0, text) && kv.Valid()
    modifies buf, kv, kv.nodes
    ensures kv.Valid() && forall i :: 0 <= i < |kv.nodes| ==> kv.nodes[i] in old(kv.nodes) || fresh(kv.nodes[i])
    ensures (kv.Pairs(), ret) == Parse(text, old(kv.Pairs()))
  {
    hide NextTok, ParsePieces;
    assert if text == "" then buf[0] == NUL else buf[0] == text[0];
    if buf[0] != QUOTE {
      return -1;
    }
    StrTail(buf[..], 0, text, 1);
    var outer, save := StrTok(buf, 1, QUOTE, text[1..]);
    ret := ParseLoop(buf, outer, save, kv, text[1..]);
  }

  method ParseLoop(buf: array<char>, firstOuter: Option<nat>, firstSave: nat, kv: KeyVal.KeyValList, ghost text: string)
    returns (ret: int)
    requires Cursor(buf[..], firstOuter, firstSave, NextTok(text, QUOTE)) && kv.Valid()
    modifies buf, kv, kv.nodes
    ensures kv.Valid() && forall i :: 0 <= i < |kv.nodes| ==> kv.nodes[i] in old(kv.nodes) || fresh(kv.nodes[i])
    ensures (kv.Pairs(), ret) == ParsePieces(text, old(kv.Pairs()))
  {
    hide NextTok, ParsePair, AfterTok, Cursor, KeyVal.KeyValList.Valid, KeyValOrder.PairsOf;
    ghost var s := text;
    var outer, save := firstOuter, firstSave;
    CursorEnds(buf[..], outer, save, NextTok(s, QUOTE));
    while outer.Some?
      invariant kv.Valid()
      invariant forall i :: 0 <= i < |kv.nodes| ==> kv.nodes[i] in old(kv.nodes) || fresh(kv.nodes[i])
      invariant Cursor(buf[..], outer, save, NextTok(s, QUOTE)) && (outer.Some? <==> NextTok(s, QUOTE).Some?)
      invariant ParsePieces(text, old(kv.Pairs())) == ParsePieces(s, kv.Pairs())
      decreases |s|
    {
      ghost var rest := NextTok(s, QUOTE).value.rest;
      var ok;
      ok, outer, save := ParseOne(buf, outer.value, save, kv, s);
      if !ok {
        return -1;
      }
      s := AfterTok(rest);
      CursorEnds(buf[..], outer, save, NextTok(s, QUOTE));
    }
    ret := 0;
  }
}
