/** safe_snreplace of src/misc.c: replace all in place, in a buffer of sz bytes. */
module Replace {
  import opened Common

  // ---------- What replacing means ----------

  /** strstr: where the first occurrence of `pattern` starts. */
  function Find(s: string, pattern: string): (r: Option<nat>)
    ensures r.Some? ==> r.value + |pattern| <= |s| && s[r.value..r.value + |pattern|] == pattern
  {
    if |s| < |pattern| then None
    else if s[..|pattern|] == pattern then Some(0)
    else if s == [] then None
    else match Find(s[1..], pattern)
      case None => None
      case Some(i) => assert s[1..][i..i + |pattern|] == s[i + 1..i + 1 + |pattern|]; Some(i + 1)
  }

  /** ... and no occurrence starts before it. */
  lemma {:induction false} FindIsFirst(s: string, pattern: string, j: nat)
    requires j + |pattern| <= |s| && s[j..j + |pattern|] == pattern
    ensures Find(s, pattern).Some? && Find(s, pattern).value <= j
  {
    if s[..|pattern|] != pattern {
      assert s[1..][j - 1..j - 1 + |pattern|] == s[j..j + |pattern|];
      FindIsFirst(s[1..], pattern, j - 1);
    }
  }

  /** Leftmost, non-overlapping, everywhere; replaced text is not looked at again. */
  function ReplaceAll(s: string, pattern: string, replacement: string): string
    requires pattern != ""
    decreases |s|, 1
  {
    match Find(s, pattern)
    case None => s
    case Some(i) => ReplaceAt(s, pattern, replacement, i)
  }

  function ReplaceAt(s: string, pattern: string, replacement: string, i: nat): string
    requires pattern != "" && i + |pattern| <= |s|
    decreases |s|, 0
  {
    s[..i] + replacement + ReplaceAll(s[i + |pattern|..], pattern, replacement)
  }

  // ---------- What replace-all is ----------

  /** The text between the matches. */
  function Pieces(s: string, pattern: string): (pieces: seq<string>)
    requires pattern != ""
    ensures |pieces| > 0
    decreases |s|
  {
    match Find(s, pattern)
    case None => [s]
    case Some(i) => [s[..i]] + Pieces(s[i + |pattern|..], pattern)
  }

  function Join(pieces: seq<string>, between: string): string
    requires |pieces| > 0
  {
    if |pieces| == 1 then pieces[0] else pieces[0] + between + Join(pieces[1..], between)
  }

  lemma JoinUnfolds(piece: string, pieces: seq<string>, between: string)
    requires |pieces| > 0
    ensures Join([piece] + pieces, between) == piece + between + Join(pieces, between)
  {
    assert ([piece] + pieces)[1..] == pieces;
  }

  /** The string is cut at the matches, the same pieces joined by the replacement are the
      result, and no piece has a match inside. */
  lemma {:induction false} ReplaceAllRejoins(s: string, pattern: string, replacement: string)
    requires pattern != ""
    ensures Join(Pieces(s, pattern), pattern) == s
    ensures Join(Pieces(s, pattern), replacement) == ReplaceAll(s, pattern, replacement)
    ensures forall piece <- Pieces(s, pattern) :: Find(piece, pattern) == None
    decreases |s|
  {
    var f := Find(s, pattern);
    if f.Some? {
      var i := f.value;
      var rest := s[i + |pattern|..];
      FoundFirst(s, pattern, replacement, i);
      PiecesUnfold(s, pattern, i);
      assert s == s[..i] + s[i..i + |pattern|] + rest;
      hide Find, Join, ReplaceAll, Pieces;
      ReplaceAllRejoins(rest, pattern, replacement);
      JoinUnfolds(s[..i], Pieces(rest, pattern), pattern);
      JoinUnfolds(s[..i], Pieces(rest, pattern), replacement);
      NothingBefore(s, pattern, i);
    }
  }

  lemma PiecesUnfold(s: string, pattern: string, i: nat)
    requires pattern != "" && Find(s, pattern) == Some(i)
    ensures Pieces(s, pattern) == [s[..i]] + Pieces(s[i + |pattern|..], pattern)
  {
    hide Find;
  }

  lemma NothingBefore(s: string, pattern: string, i: nat)
    requires pattern != "" && Find(s, pattern) == Some(i)
    ensures Find(s[..i], pattern) == None
  {
    var f := Find(s[..i], pattern);
    if f.Some? {
      assert s[..i][f.value..f.value + |pattern|] == s[f.value..f.value + |pattern|];
      FindIsFirst(s, pattern, f.value);
    }
  }

  // ---------- Replacing one by one ----------

  /** After n replacements: the finished front and the untouched rest.  With an
      empty pattern there is always one more. */
  function Progress(s: string, pattern: string, replacement: string, n: nat): (string, string) {
    if n == 0 then ("", s)
    else
      var (done, rest) := Progress(s, pattern, replacement, n - 1);
      match Find(rest, pattern)
      case None => (done, rest)
      case Some(i) => (done + rest[..i] + replacement, rest[i + |pattern|..])
  }

  /** The whole string after n replacements. */
  function Partial(s: string, pattern: string, replacement: string, n: nat): string {
    var (done, rest) := Progress(s, pattern, replacement, n);
    done + rest
  }

  predicate More(s: string, pattern: string, replacement: string, n: nat) {
    Find(Progress(s, pattern, replacement, n).1, pattern).Some?
  }

  lemma {:induction false} ProgressRest(s: string, pattern: string, replacement: string, n: nat)
    requires pattern != ""
    ensures var (done, rest) := Progress(s, pattern, replacement, n);
            ReplaceAll(s, pattern, replacement) == done + ReplaceAll(rest, pattern, replacement)
  {
    hide Find, ReplaceAll;
    if n == 0 {
      assert "" + ReplaceAll(s, pattern, replacement) == ReplaceAll(s, pattern, replacement);
    } else {
      ProgressRest(s, pattern, replacement, n - 1);
      var (done, rest) := Progress(s, pattern, replacement, n - 1);
      var f := Find(rest, pattern);
      if f.Some? {
        RestStep(done, rest, pattern, replacement, f.value);
      }
    }
  }

  lemma RestStep(done: string, rest: string, pattern: string, replacement: string, i: nat)
    requires pattern != "" && Find(rest, pattern) == Some(i)
    ensures done + ReplaceAll(rest, pattern, replacement)
            == (done + rest[..i] + replacement) + ReplaceAll(rest[i + |pattern|..], pattern, replacement)
  {
    hide Find, ReplaceAll;
    ReplaceAllStep(rest, pattern, replacement, i);
    var tail := ReplaceAll(rest[i + |pattern|..], pattern, replacement);
    Regroup(done, rest[..i] + replacement, tail);
    Regroup(done, rest[..i], replacement);
  }

  lemma ReplaceAllStep(s: string, pattern: string, replacement: string, i: nat)
    requires pattern != "" && Find(s, pattern) == Some(i)
    ensures ReplaceAll(s, pattern, replacement)
            == s[..i] + replacement + ReplaceAll(s[i + |pattern|..], pattern, replacement)
  {
    FoundFirst(s, pattern, replacement, i);
    hide ReplaceAll;
  }

  lemma FoundFirst(s: string, pattern: string, replacement: string, i: nat)
    requires pattern != "" && Find(s, pattern) == Some(i)
    ensures ReplaceAll(s, pattern, replacement) == ReplaceAt(s, pattern, replacement, i)
  {
    hide ReplaceAt, Find;
  }

  /** Replacing one by one, until nothing more is found, arrives at the pure
      replace-all. */
  lemma ProgressIsReplaceAll(s: string, pattern: string, replacement: string, n: nat)
    requires pattern != "" && !More(s, pattern, replacement, n)
    ensures Partial(s, pattern, replacement, n) == ReplaceAll(s, pattern, replacement)
  {
    hide Find, Progress;
    ProgressRest(s, pattern, replacement, n);
  }

  lemma Completes(s: string, pattern: string, replacement: string, n: nat)
    requires !More(s, pattern, replacement, n)
    ensures pattern != "" && Partial(s, pattern, replacement, n) == ReplaceAll(s, pattern, replacement)
    ensures n == 0 ==> ReplaceAll(s, pattern, replacement) == s
  {
    if pattern == "" {
      EmptyPatternNeverEnds(s, replacement, n);
    }
    ProgressIsReplaceAll(s, pattern, replacement, n);
  }

  /** One replacement further; the length changes by the same amount each time. */
  lemma ProgressStep(s: string, pattern: string, replacement: string, n: nat, done: string, rest: string, i: nat)
    requires (done, rest) == Progress(s, pattern, replacement, n) && Find(rest, pattern) == Some(i)
    ensures Progress(s, pattern, replacement, n + 1) == (done + rest[..i] + replacement, rest[i + |pattern|..])
    ensures |Partial(s, pattern, replacement, n + 1)| == |done + rest| + |replacement| - |pattern|
  {
    hide Find;
  }

  /** A replacement at least as long as the pattern never shortens the string. */
  lemma {:induction false} ReplaceAllGrows(s: string, pattern: string, replacement: string)
    requires pattern != ""
    ensures |replacement| >= |pattern| ==> |ReplaceAll(s, pattern, replacement)| >= |s|
    decreases |s|
  {
    var f := Find(s, pattern);
    if f.Some? {
      ReplaceAllGrows(s[f.value + |pattern|..], pattern, replacement);
    }
  }

  /** A replacement shorter than the pattern never lengthens it. */
  lemma {:induction false} PartialShrinks(s: string, pattern: string, replacement: string, n: nat)
    requires |replacement| <= |pattern|
    ensures |Partial(s, pattern, replacement, n)| <= |s|
  {
    hide Find;
    if n > 0 {
      PartialShrinks(s, pattern, replacement, n - 1);
    }
  }

  /** Where the loop gives up, the complete result would not have fitted either,
      provided the original string did. */
  lemma GivesUpRightly(s: string, pattern: string, replacement: string, n: nat, sz: nat)
    requires |Partial(s, pattern, replacement, n)| >= sz
    ensures pattern != "" && |s| < sz ==> |ReplaceAll(s, pattern, replacement)| >= sz
  {
    hide Find, Progress, ReplaceAll;
    if pattern == "" {
      return;
    }
    if |replacement| <= |pattern| {
      PartialShrinks(s, pattern, replacement, n);
    }
    ProgressRest(s, pattern, replacement, n);
    ReplaceAllGrows(Progress(s, pattern, replacement, n).1, pattern, replacement);
  }

  /** With an empty pattern the replacement is put in front again and again; there
      is always one more to put. */
  lemma {:induction false} EmptyPatternNeverEnds(s: string, replacement: string, n: nat)
    ensures More(s, "", replacement, n)
    ensures Progress(s, "", replacement, n).1 == s && |Partial(s, "", replacement, n)| == n * |replacement| + |s|
  {
    if n > 0 {
      EmptyPatternNeverEnds(s, replacement, n - 1);
    }
  }

  /** One-character patterns, as the logger uses them: the character is gone from
      the result unless the replacement brings it back. */
  lemma {:induction false} ReplacesEvery(s: string, c: char, replacement: string, i: nat)
    requires i < |ReplaceAll(s, [c], replacement)|
    ensures var r := ReplaceAll(s, [c], replacement);
            (r[i] != c && r[i] in s) || r[i] in replacement
    decreases |s|
  {
    var f := Find(s, [c]);
    if f.None? {
      var r := ReplaceAll(s, [c], replacement);
      if r[i] == c {
        FindIsFirst(s, [c], i);
      }
    } else {
      var k := f.value;
      var front := s[..k] + replacement;
      if i < k {
        if s[i] == c {
          FindIsFirst(s, [c], i);
        }
      } else if i >= |front| {
        ReplacesEvery(s[k + 1..], c, replacement, i - |front|);
      }
    }
  }

  // ---------- The in-place loop ----------

  /** `text` is the C string stored at the start of the buffer. */
  predicate HoldsString(buf: array<char>, text: string)
    reads buf
  {
    |text| < buf.Length && buf[..|text|] == text && buf[|text|] == NUL && NUL !in text
  }

  method StrLen(buf: array<char>, ghost text: string) returns (n: nat)
    requires HoldsString(buf, text)
    ensures n == |text| < buf.Length
  {
    n := 0;
    while buf[n] != NUL
      invariant n <= |text|
      decreases |text| - n
    {
      n := n + 1;
    }
    assert forall k :: 0 <= k < |text| ==> text[k] in text && buf[k] == text[k];
  }

  /** `n` counts the replacements made.  On 0 there is no further match.  On -1
      the next one would not fit in sz bytes with its terminator, and the string
      is left with the first n matches replaced.  Nothing at or past sz is
      written.  An empty pattern with an empty replacement never terminates. */
  method SafeSnreplace(s: array<char>, sz: nat, pattern: string, replacement: string, ghost text: string)
    returns (ret: int, ghost n: nat)
    requires HoldsString(s, text) && sz <= s.Length
    requires NUL !in replacement && (pattern != "" || replacement != "")
    modifies s
    ensures ret == 0 || ret == -1
    ensures HoldsString(s, Partial(text, pattern, replacement, n))
    ensures ret == 0 <==> !More(text, pattern, replacement, n)
    ensures ret == -1 ==> |Partial(text, pattern, replacement, n + 1)| >= sz
    ensures forall m :: 0 < m <= n ==> |Partial(text, pattern, replacement, m)| < sz
    ensures s[sz..] == old(s[sz..])
    ensures pattern != "" && ret == 0 ==> HoldsString(s, ReplaceAll(text, pattern, replacement))
    ensures pattern != "" && |text| < sz ==> (ret == 0 <==> |ReplaceAll(text, pattern, replacement)| < sz)
  {
    hide Find, Progress, ReplaceAll, HoldsString, Partial, More;
    ProgressZero(text, pattern, replacement);
    StepIs(text, pattern, replacement, 0, "", text);
    assert "" + text == text;
    var sLen := StrLen(s, text);
    sLen := sLen + 1;
    n := 0;
    ghost var done, rest := "", text;
    var ptr := 0;
    var hit := NextHit(s, ptr, sLen, pattern, "", text);
    while hit.Some?
      invariant (done, rest) == Progress(text, pattern, replacement, n)
      invariant HoldsString(s, done + rest) && ptr == |done| && sLen == |done| + |rest| + 1 <= s.Length
      invariant hit == Find(rest, pattern) && (hit.Some? <==> More(text, pattern, replacement, n))
      invariant Partial(text, pattern, replacement, n) == done + rest
      invariant forall m :: 0 < m <= n ==> |Partial(text, pattern, replacement, m)| < sz
      invariant s[sz..] == old(s[sz..])
      decreases if pattern == "" then sz - |done + rest| else |rest|
    {
      ProgressStep(text, pattern, replacement, n, done, rest, hit.value);
      ptr := ptr + hit.value;
      if sLen + |replacement| - |pattern| > sz {
        GivesUpRightly(text, pattern, replacement, n + 1, sz);
        return -1, n;
      }
      ghost var done', rest' := done + rest[..hit.value] + replacement, rest[hit.value + |pattern|..];
      Substitute(s, sLen, ptr, |pattern|, replacement, sz, done, rest, done', rest');
      done, rest, n := done', rest', n + 1;
      StepIs(text, pattern, replacement, n, done, rest);
      sLen := sLen + |replacement| - |pattern|;
      ptr := ptr + |replacement|;
      hit := NextHit(s, ptr, sLen, pattern, done, rest);
    }
    Completes(text, pattern, replacement, n);
    ret := 0;
  }

  lemma StepIs(s: string, pattern: string, replacement: string, n: nat, done: string, rest: string)
    requires Progress(s, pattern, replacement, n) == (done, rest)
    ensures Partial(s, pattern, replacement, n) == done + rest
    ensures More(s, pattern, replacement, n) <==> Find(rest, pattern).Some?
  {
  }

  /** strstr(s + ptr, pattern). */
  method NextHit(s: array<char>, ptr: nat, sLen: nat, pattern: string, ghost done: string, ghost rest: string)
    returns (hit: Option<nat>)
    requires HoldsString(s, done + rest) && ptr == |done| && sLen == |done| + |rest| + 1 <= s.Length
    ensures hit == Find(rest, pattern)
  {
    assert s[ptr..sLen - 1] == s[..sLen - 1][ptr..] == rest;
    hide Find;
    hit := Find(s[ptr..sLen - 1], pattern);
  }

  /** The match at ptr, of length pLen, gives way to the replacement. */
  method Substitute(s: array<char>, sLen: nat, ptr: nat, pLen: nat, replacement: string, sz: nat,
                    ghost done: string, ghost rest: string, ghost done': string, ghost rest': string)
    requires HoldsString(s, done + rest) && sLen == |done| + |rest| + 1 && sz <= s.Length && NUL !in replacement
    requires |done| <= ptr && ptr + pLen < sLen && sLen - pLen + |replacement| <= sz
    requires var k := ptr - |done|; done' == done + rest[..k] + replacement && rest' == rest[k + pLen..]
    modifies s
    ensures HoldsString(s, done' + rest') && |done'| == ptr + |replacement|
    ensures |done'| + |rest'| + 1 == sLen - pLen + |replacement| <= sz
    ensures s[sz..] == old(s[sz..])
  {
    ghost var cur, k := done + rest, ptr - |done|;
    assert cur[..ptr] == done + rest[..k] && cur[ptr + pLen..] == rest[k + pLen..];
    hide HoldsString;
    var src, dst := ptr + pLen, ptr + |replacement|;
    var num := sLen - src;
    ghost var before := s[..];
    Splice(s, ptr, replacement, src, dst, num, cur, cur[..ptr] + replacement + cur[src..]);
    assert s[..][dst + num..][sz - (dst + num)..] == before[dst + num..][sz - (dst + num)..];
  }

  lemma ProgressZero(s: string, pattern: string, replacement: string)
    ensures Progress(s, pattern, replacement, 0) == ("", s)
  {
  }

  /** memmove within the buffer. */
  method Move(s: array<char>, dst: nat, src: nat, num: nat)
    requires dst + num <= s.Length && src + num <= s.Length
    modifies s
    ensures s[dst..dst + num] == old(s[src..src + num])
    ensures s[..dst] == old(s[..dst]) && s[dst + num..] == old(s[dst + num..])
  {
    forall i | 0 <= i < num {
      s[dst + i] := s[src + i];
    }
  }

  /** memcpy into the buffer. */
  method Put(s: array<char>, dst: nat, text: string)
    requires dst + |text| <= s.Length
    modifies s
    ensures s[dst..dst + |text|] == text
    ensures s[..dst] == old(s[..dst]) && s[dst + |text|..] == old(s[dst + |text|..])
  {
    forall i | 0 <= i < |text| {
      s[dst + i] := text[i];
    }
  }

  /** Moves the tail with its terminator, then writes the replacement. */
  method Splice(s: array<char>, ptr: nat, replacement: string, src: nat, dst: nat, num: nat,
                ghost cur: string, ghost after: string)
    requires HoldsString(s, cur) && ptr <= src <= |cur| && num == |cur| + 1 - src
    requires dst == ptr + |replacement| && dst + num <= s.Length && NUL !in replacement
    requires after == cur[..ptr] + replacement + cur[src..]
    modifies s
    ensures HoldsString(s, after) && s[dst..|after|] == cur[src..]
    ensures s[dst + num..] == old(s[dst + num..])
  {
    ghost var b := s[..];
    Move(s, dst, src, num);
    ghost var moved := s[..];
    Put(s, ptr, replacement);
    Spliced(b, moved, s[..], cur, ptr, src, replacement);
    assert s[..][dst..][num..] == moved[dst..][num..];
  }

  lemma Spliced(b: seq<char>, m: seq<char>, c: seq<char>, cur: string, ptr: nat, src: nat, replacement: string)
    requires |cur| < |b| == |m| == |c| && b[..|cur|] == cur && b[|cur|] == NUL && ptr <= src <= |cur|
    requires var dst, num := ptr + |replacement|, |cur| + 1 - src;
             && dst + num <= |b|
             && m[dst..dst + num] == b[src..src + num] && m[..dst] == b[..dst]
             && c[ptr..dst] == replacement && c[..ptr] == m[..ptr] && c[dst..] == m[dst..]
    ensures var dst, end := ptr + |replacement|, ptr + |replacement| + |cur| - src;
            && c[dst..end] == cur[src..] && c[end] == NUL
            && c[..end] == cur[..ptr] + replacement + cur[src..]
  {
    var dst, end := ptr + |replacement|, ptr + |replacement| + |cur| - src;
    assert c[..ptr] == cur[..ptr] by {
      assert m[..ptr] == m[..dst][..ptr] && b[..dst][..ptr] == b[..|cur|][..ptr];
    }
    assert c[dst..end + 1] == cur[src..] + [NUL] by {
      assert c[dst..end + 1] == c[dst..][..end + 1 - dst] && m[dst..end + 1] == m[dst..][..end + 1 - dst];
      assert b[src..|cur| + 1] == b[..|cur|][src..] + [b[|cur|]];
    }
    assert c[dst..end] == c[dst..end + 1][..end - dst] && c[end] == c[dst..end + 1][end - dst];
    assert c[..end] == c[..ptr] + c[ptr..dst] + c[dst..end];
  }
}
