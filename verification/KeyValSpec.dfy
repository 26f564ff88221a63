/** The key/value list of src/misc.c as a value: what add, get and remove mean,
    and the case-insensitive map they keep. */
module KeyValSpec {
  import opened Common
  import opened Names

  datatype Pair = Pair(name: string, value: string)

  /** Position of the first pair with this name, or the length. */
  function IndexOf(ps: seq<Pair>, name: string): (i: nat)
    ensures i <= |ps|
    ensures i < |ps| ==> SameName(ps[i].name, name)
    ensures forall j :: 0 <= j < i ==> !SameName(ps[j].name, name)
  {
    if ps == [] then 0
    else if SameName(ps[0].name, name) then 0
    else 1 + IndexOf(ps[1..], name)
  }

  lemma IndexOfIs(ps: seq<Pair>, name: string, i: nat)
    requires i <= |ps| && (i < |ps| ==> SameName(ps[i].name, name))
    requires forall j :: 0 <= j < i ==> !SameName(ps[j].name, name)
    ensures IndexOf(ps, name) == i
  {
  }

  function Get(ps: seq<Pair>, name: string): Option<string> {
    var i := IndexOf(ps, name);
    if i < |ps| then Some(ps[i].value) else None
  }

  /** keyval_add_size: the new list and the return value.  The comparison with a
      stored value looks at the whole of `value`, the copy takes `size` bytes. */
  function AddSize(ps: seq<Pair>, name: string, value: string, size: nat): (seq<Pair>, int)
    requires size <= |value|
  {
    match Get(ps, name)
    case Some(v) => (ps, if v == value then 0 else -1)
    case None => (ps + [Pair(name, value[..size])], 0)
  }

  function Add(ps: seq<Pair>, name: string, value: string): (seq<Pair>, int) {
    AddSize(ps, name, value, |value|)
  }

  function Remove(ps: seq<Pair>, name: string): seq<Pair> {
    var i := IndexOf(ps, name);
    if i < |ps| then ps[..i] + ps[i + 1..] else ps
  }

  /** No two pairs have the same name. */
  ghost predicate Distinct(ps: seq<Pair>) {
    forall i, j :: 0 <= i < j < |ps| ==> !SameName(ps[i].name, ps[j].name)
  }

  // ---------- The map ----------

  /** The list as a map from folded names to the pairs themselves. */
  ghost function ToMap(ps: seq<Pair>): map<string, Pair>
    requires Distinct(ps)
  {
    map i | 0 <= i < |ps| :: Fold(ps[i].name) := ps[i]
  }

  /** keyval_get is lookup. */
  lemma GetIsLookup(ps: seq<Pair>, name: string)
    requires Distinct(ps)
    ensures Get(ps, name) == if Fold(name) in ToMap(ps) then Some(ToMap(ps)[Fold(name)].value) else None
  {
    var i := IndexOf(ps, name);
    if i < |ps| {
      MapHasPair(ps, ps[i]);
    } else if Fold(name) in ToMap(ps) {
      PairOfKey(ps, Fold(name));
    }
  }

  /** Lookups depend only on which pairs there are. */
  lemma GetByMembership(ps: seq<Pair>, qs: seq<Pair>, name: string)
    requires Distinct(ps) && Distinct(qs) && forall p :: p in ps <==> p in qs
    ensures Get(ps, name) == Get(qs, name)
  {
    hide ToMap, Fold;
    GetIsLookup(ps, name);
    GetIsLookup(qs, name);
    var k := Fold(name);
    if k in ToMap(ps) {
      PairOfKey(ps, k);
      MapHasPair(qs, ToMap(ps)[k]);
    } else if k in ToMap(qs) {
      PairOfKey(qs, k);
      MapHasPair(ps, ToMap(qs)[k]);
    }
  }

  lemma AppendDistinct(ps: seq<Pair>, p: Pair)
    requires Distinct(ps) && Fold(p.name) !in ToMap(ps)
    ensures Distinct(ps + [p])
  {
    hide Fold, ToMap;
    forall j | 0 <= j < |ps|
      ensures !SameName(ps[j].name, p.name)
    {
      MapHasPair(ps, ps[j]);
    }
  }

  lemma AppendIsInsert(ps: seq<Pair>, p: Pair)
    requires Distinct(ps) && Fold(p.name) !in ToMap(ps)
    ensures Distinct(ps + [p])
    ensures ToMap(ps + [p]) == ToMap(ps)[Fold(p.name) := p]
  {
    AppendDistinct(ps, p);
    hide Fold, ToMap, Distinct;
    AppendMap(ps, p);
  }

  lemma AppendMap(ps: seq<Pair>, p: Pair)
    requires Distinct(ps) && Distinct(ps + [p])
    ensures ToMap(ps + [p]) == ToMap(ps)[Fold(p.name) := p]
  {
    hide Fold, ToMap, Distinct;
    MapHasPair(ps + [p], p);
    var m, n := ToMap(ps), ToMap(ps + [p]);
    forall k
      ensures k in n <==> k in m || k == Fold(p.name)
      ensures k in m && k != Fold(p.name) ==> n[k] == m[k]
    {
      AppendKey(ps, p, k);
    }
  }

  lemma AppendKey(ps: seq<Pair>, p: Pair, k: string)
    requires Distinct(ps) && Distinct(ps + [p])
    ensures k in ToMap(ps + [p]) ==> k in ToMap(ps) || k == Fold(p.name)
    ensures k in ToMap(ps) ==> k in ToMap(ps + [p])
    ensures k in ToMap(ps) && k != Fold(p.name) ==> ToMap(ps + [p])[k] == ToMap(ps)[k]
  {
    hide Fold, ToMap, Distinct;
    var qs := ps + [p];
    if k in ToMap(ps) {
      PairOfKey(ps, k);
      MapHasPair(qs, ToMap(ps)[k]);
    } else if k in ToMap(qs) {
      PairOfKey(qs, k);
      if ToMap(qs)[k] in ps {
        MapHasPair(ps, ToMap(qs)[k]);
      }
    }
  }

  lemma AppendsDistinct(ps: seq<Pair>, name: string, value: string)
    requires Distinct(ps) && Get(ps, name).None?
    ensures Distinct(ps + [Pair(name, value)])
  {
    GetIsLookup(ps, name);
    AppendDistinct(ps, Pair(name, value));
  }

  /** keyval_add_size inserts at the end when the name is free and otherwise
      leaves the list alone: 0 for an equal value, -1 for another. */
  lemma AddIsInsert(ps: seq<Pair>, name: string, value: string, size: nat)
    requires Distinct(ps) && size <= |value|
    ensures var (qs, ret) := AddSize(ps, name, value, size);
            && Distinct(qs) && ps <= qs
            && (Fold(name) in ToMap(ps) ==> qs == ps && (ret == 0 <==> ToMap(ps)[Fold(name)].value == value))
            && (Fold(name) !in ToMap(ps) ==> ret == 0 && ToMap(qs) == ToMap(ps)[Fold(name) := Pair(name, value[..size])])
  {
    GetIsLookup(ps, name);
    if Fold(name) !in ToMap(ps) {
      AppendIsInsert(ps, Pair(name, value[..size]));
    }
  }

  lemma RemoveDistinct(ps: seq<Pair>, name: string)
    requires Distinct(ps)
    ensures Distinct(Remove(ps, name))
    ensures forall p :: p in Remove(ps, name) <==> p in ps && !SameName(p.name, name)
  {
    hide Fold;
    var i, qs := IndexOf(ps, name), Remove(ps, name);
    if i < |ps| {
      assert forall a :: 0 <= a < |qs| ==> qs[a] == ps[if a < i then a else a + 1];
      forall p | p in ps && p != ps[i]
        ensures p in qs
      {
        var j :| 0 <= j < |ps| && ps[j] == p;
        assert qs[if j < i then j else j - 1] == p;
      }
    }
  }

  lemma MapHasPair(ps: seq<Pair>, p: Pair)
    requires Distinct(ps) && p in ps
    ensures Fold(p.name) in ToMap(ps) && ToMap(ps)[Fold(p.name)] == p
  {
  }

  lemma PairOfKey(ps: seq<Pair>, k: string)
    requires Distinct(ps) && k in ToMap(ps)
    ensures ToMap(ps)[k] in ps && Fold(ToMap(ps)[k].name) == k
  {
  }

  lemma RemoveKey(ps: seq<Pair>, name: string, k: string)
    requires Distinct(ps) && Distinct(Remove(ps, name))
    requires forall p :: p in Remove(ps, name) <==> p in ps && !SameName(p.name, name)
    ensures var qs := Remove(ps, name);
            && (k in ToMap(qs) <==> k in ToMap(ps) && k != Fold(name))
            && (k in ToMap(qs) ==> ToMap(qs)[k] == ToMap(ps)[k])
  {
    hide Remove, ToMap, Fold, Distinct;
    var qs := Remove(ps, name);
    if k in ToMap(qs) {
      PairOfKey(qs, k);
      MapHasPair(ps, ToMap(qs)[k]);
    } else if k in ToMap(ps) && k != Fold(name) {
      PairOfKey(ps, k);
      MapHasPair(qs, ToMap(ps)[k]);
    }
  }

  lemma RemoveMap(ps: seq<Pair>, name: string)
    requires Distinct(ps) && Distinct(Remove(ps, name))
    requires forall p :: p in Remove(ps, name) <==> p in ps && !SameName(p.name, name)
    ensures ToMap(Remove(ps, name)) == ToMap(ps) - {Fold(name)}
  {
    hide Remove, ToMap, Fold, Distinct;
    var m, n := ToMap(ps), ToMap(Remove(ps, name));
    forall k
      ensures k in n <==> k in m && k != Fold(name)
      ensures k in n ==> n[k] == m[k]
    {
      RemoveKey(ps, name, k);
    }
  }

  /** keyval_remove deletes exactly the one name. */
  lemma RemoveIsDelete(ps: seq<Pair>, name: string)
    requires Distinct(ps)
    ensures Distinct(Remove(ps, name))
    ensures ToMap(Remove(ps, name)) == ToMap(ps) - {Fold(name)}
    ensures Get(Remove(ps, name), name) == None
  {
    RemoveDistinct(ps, name);
    hide Remove, ToMap, Fold, Distinct, Get, SameName;
    RemoveMap(ps, name);
    GetIsLookup(Remove(ps, name), name);
  }

  /** What is taken out is the one pair, and the others keep their order. */
  lemma RemoveCutsOut(a: seq<Pair>, p: Pair, b: seq<Pair>, name: string)
    requires Distinct(a + [p] + b) && SameName(p.name, name)
    ensures Remove(a + [p] + b, name) == a + b
  {
    hide Fold;
    var ps := a + [p] + b;
    assert ps[|a|] == p;
    forall j | 0 <= j < |a|
      ensures !SameName(ps[j].name, name)
    {
      assert !SameName(ps[j].name, ps[|a|].name);
    }
    IndexOfIs(ps, name, |a|);
    assert ps[..|a|] == a && ps[|a| + 1..] == b;
  }

  /** Repeating a successful insertion of a new name succeeds exactly when the
      whole value was copied: a truncated copy no longer equals its own source. */
  lemma AddTwice(ps: seq<Pair>, name: string, value: string, size: nat)
    requires Distinct(ps) && size <= |value| && Get(ps, name).None?
    ensures var (once, _) := AddSize(ps, name, value, size);
            var (twice, ret) := AddSize(once, name, value, size);
            twice == once && (ret == 0 <==> size == |value|)
  {
    var once := AddSize(ps, name, value, size).0;
    AddIsInsert(ps, name, value, size);
    GetIsLookup(ps, name);
    GetIsLookup(once, name);
  }

  // ---------- Runs ----------

  datatype Op = AddOp(name: string, value: string) | RemoveOp(name: string)

  function Apply(ps: seq<Pair>, op: Op): seq<Pair> {
    match op
    case AddOp(name, value) => Add(ps, name, value).0
    case RemoveOp(name) => Remove(ps, name)
  }

  function Run(ps: seq<Pair>, ops: seq<Op>): seq<Pair> {
    if ops == [] then ps else Apply(Run(ps, ops[..|ops| - 1]), ops[|ops| - 1])
  }

  /** The same operations on a case-insensitive map. */
  function MapRun(m: map<string, Pair>, ops: seq<Op>): map<string, Pair> {
    if ops == [] then m
    else
      var before := MapRun(m, ops[..|ops| - 1]);
      match ops[|ops| - 1]
      case AddOp(name, value) => if Fold(name) in before then before else before[Fold(name) := Pair(name, value)]
      case RemoveOp(name) => before - {Fold(name)}
  }

  /** Every sequence of operations refines the map. */
  lemma {:induction false} RunRefinesMap(ps: seq<Pair>, ops: seq<Op>)
    requires Distinct(ps)
    ensures Distinct(Run(ps, ops)) && ToMap(Run(ps, ops)) == MapRun(ToMap(ps), ops)
  {
    hide ToMap, Distinct, AddSize, Remove;
    if ops != [] {
      var n := |ops| - 1;
      RunRefinesMap(ps, ops[..n]);
      match ops[n] {
        case AddOp(name, value) =>
          AddIsInsert(Run(ps, ops[..n]), name, value, |value|);
          assert value[..|value|] == value;
        case RemoveOp(name) =>
          RemoveIsDelete(Run(ps, ops[..n]), name);
      }
    }
  }
}
