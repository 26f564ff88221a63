/** C strings as the key/value list compares them: strcmp is the strict
    lexicographic order below, strcasecmp compares the folded strings (ASCII
    folding, as in the C locale). */
module Names {
  function Lower(c: char): char {
    if 'A' <= c <= 'Z' then (c as int + 32) as char else c
  }

  function Fold(s: string): string {
    seq(|s|, i requires 0 <= i < |s| => Lower(s[i]))
  }

  /** strcasecmp(a, b) == 0. */
  predicate SameName(a: string, b: string) {
    Fold(a) == Fold(b)
  }

  /** The capital and the small form of one ASCII letter. */
  predicate TwoCases(upper: char, lower: char) {
    'A' <= upper <= 'Z' && lower as int == upper as int + 32
  }

  lemma LowerIs(a: char, b: char)
    ensures Lower(a) == Lower(b) <==> a == b || TwoCases(a, b) || TwoCases(b, a)
  {
  }

  lemma FoldIs(s: string)
    ensures |Fold(s)| == |s| && forall i :: 0 <= i < |s| ==> Fold(s)[i] == Lower(s[i])
  {
  }

  /** Two names are the same if they have the same length and differ at most in the case
      of ASCII letters. */
  lemma SameNameIs(a: string, b: string)
    ensures SameName(a, b) <==>
            |a| == |b| && forall i :: 0 <= i < |a| ==> a[i] == b[i] || TwoCases(a[i], b[i]) || TwoCases(b[i], a[i])
  {
    hide Lower, TwoCases;
    forall i | 0 <= i < |a| && i < |b|
      ensures Lower(a[i]) == Lower(b[i]) <==> a[i] == b[i] || TwoCases(a[i], b[i]) || TwoCases(b[i], a[i])
    {
      LowerIs(a[i], b[i]);
    }
    FoldIs(a);
    FoldIs(b);
    hide Fold;
    if SameName(a, b) {
      forall i | 0 <= i < |a|
        ensures Lower(a[i]) == Lower(b[i])
      {
        assert Fold(a)[i] == Fold(b)[i];
      }
    }
  }

  /** For instance a key of the device's record: "CN" is "cn", and "am" is not "an". */
  lemma SameNameExamples()
    ensures SameName("CN", "cn") && SameName("sF", "Sf") && !SameName("am", "an")
    ensures !SameName("@", "`") && !SameName("[", "{")
  {
    SameNameIs("CN", "cn");
    SameNameIs("sF", "Sf");
    SameNameIs("am", "an");
    SameNameIs("@", "`");
    SameNameIs("[", "{");
    hide SameName;
    assert "am"[1] == 'm' && "an"[1] == 'n';
    assert "@"[0] == '@' && "`"[0] == '`' && "["[0] == '[' && "{"[0] == '{';
  }

  lemma SameNameSymmetric(a: string, b: string)
    ensures SameName(a, b) == SameName(b, a)
  {
  }

  /** strcmp(a, b) < 0. */
  predicate Less(a: string, b: string) {
    if b == [] then false
    else if a == [] then true
    else a[0] < b[0] || (a[0] == b[0] && Less(a[1..], b[1..]))
  }

  /** Decided at the first difference: `a` ends there, or has the smaller character. */
  predicate LessAt(a: string, b: string, k: nat) {
    k <= |a| && k < |b| && a[..k] == b[..k] && (k == |a| || a[k] < b[k])
  }

  lemma {:induction false} LessIs(a: string, b: string)
    ensures Less(a, b) <==> exists k :: 0 <= k <= |a| && LessAt(a, b, k)
  {
    if a == [] || b == [] || a[0] != b[0] {
      assert b != [] && (a == [] || a[0] < b[0]) ==> LessAt(a, b, 0);
      forall k | 0 < k <= |a|
        ensures !LessAt(a, b, k)
      {
        SameStart(a, b, k);
      }
    } else {
      LessIs(a[1..], b[1..]);
      if Less(a, b) {
        var k :| 0 <= k <= |a[1..]| && LessAt(a[1..], b[1..], k);
        LessAtShift(a, b, k);
      }
      if k :| 0 <= k <= |a| && LessAt(a, b, k) {
        assert k > 0;
        LessAtShift(a, b, k - 1);
      }
    }
  }

  lemma SameStart(a: string, b: string, k: nat)
    requires k > 0
    ensures LessAt(a, b, k) ==> a != [] && b != [] && a[0] == b[0]
  {
    if LessAt(a, b, k) {
      assert a[..k][0] == a[0] && b[..k][0] == b[0];
    }
  }

  lemma LessAtShift(a: string, b: string, k: nat)
    requires a != [] && b != [] && a[0] == b[0]
    ensures LessAt(a[1..], b[1..], k) <==> LessAt(a, b, k + 1)
  {
    if k < |a| && k + 1 < |b| {
      assert a[..k + 1] == [a[0]] + a[1..][..k] && b[..k + 1] == [b[0]] + b[1..][..k];
      assert a[..k + 1][1..] == a[1..][..k] && b[..k + 1][1..] == b[1..][..k];
    }
  }

  lemma {:induction false} LessTrans(a: string, b: string, c: string)
    requires Less(a, b) && Less(b, c)
    ensures Less(a, c)
  {
    if a != [] && a[0] == b[0] == c[0] {
      LessTrans(a[1..], b[1..], c[1..]);
    }
  }

  lemma {:induction false} LessIrreflexive(a: string)
    ensures !Less(a, a)
  {
    if a != [] {
      LessIrreflexive(a[1..]);
    }
  }

  lemma LessAsymmetric(a: string, b: string)
    requires Less(a, b)
    ensures !Less(b, a)
  {
    if Less(b, a) {
      LessTrans(a, b, a);
      LessIrreflexive(a);
    }
  }

  lemma {:induction false} LessTotal(a: string, b: string)
    ensures Less(a, b) || Less(b, a) || a == b
  {
    if a != [] && b != [] && a[0] == b[0] {
      LessTotal(a[1..], b[1..]);
      assert a == [a[0]] + a[1..] && b == [b[0]] + b[1..];
    }
  }
}
