/** strtok_r as values: the next token of a string and what is left after it. */
module Tokens {
  import opened Common

  /** Number of leading delimiters. */
  function Leading(s: string, d: char): (n: nat)
    ensures n <= |s| && (n < |s| ==> s[n] != d)
    ensures forall i :: 0 <= i < n ==> s[i] == d
  {
    if s == [] || s[0] != d then 0 else 1 + Leading(s[1..], d)
  }

  /** Length of the longest prefix without delimiters. */
  function UpTo(s: string, d: char): (n: nat)
    ensures n <= |s| && (n < |s| ==> s[n] == d)
    ensures forall i :: 0 <= i < n ==> s[i] != d
  {
    if s == [] || s[0] == d then 0 else 1 + UpTo(s[1..], d)
  }

  datatype Tok = Tok(token: string, rest: string)

  /** Skips delimiters, cuts the token off, and drops the delimiter that ends it. */
  function NextTok(s: string, d: char): (r: Option<Tok>)
    ensures r.Some? ==> r.value.token != "" && d !in r.value.token && |r.value.token| + |r.value.rest| <= |s|
  {
    var from := s[Leading(s, d)..];
    var n := UpTo(from, d);
    if from == "" then None
    else Some(Tok(from[..n], if n < |from| then from[n + 1..] else ""))
  }

  lemma LeadingIs(s: string, d: char, n: nat)
    requires n <= |s| && (n < |s| ==> s[n] != d) && forall i :: 0 <= i < n ==> s[i] == d
    ensures Leading(s, d) == n
  {
  }

  lemma UpToIs(s: string, d: char, n: nat)
    requires n <= |s| && (n < |s| ==> s[n] == d) && forall i :: 0 <= i < n ==> s[i] != d
    ensures UpTo(s, d) == n
  {
  }

  /** A delimiter-free piece is a token, whether a delimiter or the end follows. */
  lemma WholePiece(t: string, d: char)
    requires t != "" && d !in t
    ensures NextTok(t, d) == Some(Tok(t, ""))
  {
    assert t[0] in t;
    LeadingIs(t, d, 0);
    assert t[0..] == t && t[..|t|] == t;
    UpToIs(t, d, |t|);
  }

  lemma FirstPiece(t: string, d: char, rest: string)
    requires t != "" && d !in t
    ensures NextTok(t + [d] + rest, d) == Some(Tok(t, rest))
  {
    var s := t + [d] + rest;
    assert s[0] == t[0] && t[0] in t && s[|t|] == d;
    LeadingIs(s, d, 0);
    assert s[0..] == s;
    forall i | 0 <= i < |t|
      ensures s[i] != d
    {
      assert s[i] == t[i];
    }
    UpToIs(s, d, |t|);
    assert s[..|t|] == t && s[|t| + 1..] == rest;
  }

  lemma SkipsDelimiter(s: string, d: char)
    ensures NextTok([d] + s, d) == NextTok(s, d)
  {
    hide UpTo;
    var n := Leading(s, d);
    assert ([d] + s)[1..] == s;
    assert ([d] + s)[n + 1..] == s[n..];
  }

  lemma NextTokIs(s: string, d: char, a: nat)
    requires a == Leading(s, d)
    ensures var from := s[a..];
            var n := UpTo(from, d);
            NextTok(s, d) == if from == "" then None else Some(Tok(from[..n], if n < |from| then from[n + 1..] else ""))
  {
    hide Leading, UpTo;
  }

  // ---------- The same in a buffer ----------

  /** `text` is the C string at position p. */
  predicate StrAt(b: seq<char>, p: nat, text: string) {
    && p + |text| < |b|
    && (forall i :: 0 <= i < |text| ==> text[i] != NUL && text[i] == b[p + i])
    && b[p + |text|] == NUL
  }

  /** A C string ends with a C string. */
  lemma StrTail(b: seq<char>, p: nat, text: string, i: nat)
    requires StrAt(b, p, text) && i <= |text|
    ensures StrAt(b, p + i, text[i..])
  {
  }

  /** Writing a NUL into a C string makes two of it. */
  lemma StrCut(b: seq<char>, p: nat, text: string, n: nat)
    requires StrAt(b, p, text) && n < |text|
    ensures StrAt(b[p + n := NUL], p, text[..n])
    ensures StrAt(b[p + n := NUL], p + n + 1, text[n + 1..])
  {
  }

  /** Changes elsewhere do not matter. */
  lemma StrFrame(b: seq<char>, c: seq<char>, p: nat, text: string)
    requires StrAt(b, p, text) && |c| == |b|
    requires forall i :: p <= i <= p + |text| && i < |c| ==> c[i] == b[i]
    ensures StrAt(c, p, text)
  {
  }

  /** strtok_r on the string at `start`: the token's position, and where to go on.
      The delimiter that ends the token is overwritten with NUL; nothing else. */
  method StrTok(buf: array<char>, start: nat, d: char, ghost text: string) returns (tok: Option<nat>, save: nat)
    requires StrAt(buf[..], start, text) && d != NUL
    modifies buf
    ensures NextTok(text, d).None? ==> tok == None && StrAt(buf[..], save, "") && buf[..] == old(buf[..])
    ensures NextTok(text, d).Some? ==>
              && var Tok(token, rest) := NextTok(text, d).value;
              && tok.Some? && start <= tok.value
              && StrAt(buf[..], tok.value, token) && StrAt(buf[..], save, rest)
              && tok.value + |token| <= save && save + |rest| == start + |text|
              && forall i :: 0 <= i < buf.Length && buf[i] != old(buf[i]) ==> i == tok.value + |token| < start + |text|
  {
    hide NextTok, Leading, UpTo, StrAt;
    var s := Scan(buf, start, d, true, text);
    ghost var from := text[s - start..];
    LeadingIs(text, d, s - start);
    NextTokIs(text, d, s - start);
    StrTail(buf[..], start, text, s - start);
    if buf[s] == NUL {
      return None, s;
    }
    tok := Some(s);
    save := CutToken(buf, s, d, from);
  }

  /** The second half of strtok_r: the token starts at s. */
  method CutToken(buf: array<char>, s: nat, d: char, ghost from: string) returns (save: nat)
    requires StrAt(buf[..], s, from) && d != NUL
    modifies buf
    ensures var n := UpTo(from, d);
            && StrAt(buf[..], s, from[..n])
            && StrAt(buf[..], save, if n < |from| then from[n + 1..] else "")
            && save == s + if n < |from| then n + 1 else n
    ensures forall i :: 0 <= i < buf.Length && buf[i] != old(buf[i]) ==> i == s + UpTo(from, d) < s + |from|
  {
    hide UpTo, StrAt;
    var e := Scan(buf, s, d, false, from);
    ghost var n := e - s;
    UpToIs(from, d, n);
    ghost var before := buf[..];
    if buf[e] == NUL {
      StrTail(before, s, from, n);
      assert from[..n] == from;
      save := e;
    } else {
      StrCut(before, s, from, n);
      buf[e] := NUL;
      assert buf[..] == before[e := NUL];
      save := e + 1;
    }
  }

  /** strspn (`equal`) or strcspn: first position at or after p where it ends. */
  method Scan(buf: array<char>, p: nat, d: char, equal: bool, ghost text: string) returns (q: nat)
    requires StrAt(buf[..], p, text) && d != NUL
    ensures p <= q <= p + |text| && q < buf.Length
    ensures forall i :: 0 <= i < q - p ==> (text[i] == d) == equal
    ensures q - p < |text| ==> (text[q - p] == d) != equal
    ensures buf[q] == NUL <==> q - p == |text|
  {
    q := p;
    while buf[q] != NUL && (buf[q] == d) == equal
      invariant p <= q <= p + |text|
      invariant forall i :: 0 <= i < q - p ==> (text[i] == d) == equal
      decreases p + |text| - q
    {
      assert q - p < |text| ==> buf[q] == text[q - p];
      q := q + 1;
    }
    assert q - p < |text| ==> buf[q] == text[q - p];
  }

  /** The C string at p as a value. */
  method ReadStr(buf: array<char>, p: nat, ghost text: string) returns (s: string)
    requires StrAt(buf[..], p, text)
    ensures s == text
  {
    s := "";
    var q := p;
    while buf[q] != NUL
      invariant p <= q <= p + |text| && s == text[..q - p]
      invariant q - p < |text| ==> buf[q] == text[q - p]
      decreases p + |text| - q
    {
      s := s + [buf[q]];
      q := q + 1;
    }
  }
}
