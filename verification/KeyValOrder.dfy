/** List nodes of src/misc.c and the order keyval_sort puts them in. */
module KeyValOrder {
  import opened Names
  import KeyValSpec

  /** One entry; the strings never change after the entry is made. */
  class Node {
    const name: string
    const value: string
    var next: Node?
    var sort: Node?
    /** False once the node has been freed. */
    ghost var live: bool

    constructor (name: string, value: string)
      ensures this.name == name && this.value == value && next == null && live
    {
      this.name, this.value, next, sort, live := name, value, null, null, true;
    }

    /** The list is walked through this, which demands a node that is not freed. */
    function Next(): Node?
      requires live
      reads this
    {
      next
    }

    method Free()
      requires live
      modifies this`live
      ensures !live
    {
      live := false;
    }
  }

  function At(ns: seq<Node>, i: nat): Node? {
    if i < |ns| then ns[i] else null
  }

  function PairsOf(ns: seq<Node>): (ps: seq<KeyValSpec.Pair>)
    ensures |ps| == |ns|
  {
    seq(|ns|, i requires 0 <= i < |ns| => KeyValSpec.Pair(ns[i].name, ns[i].value))
  }

  lemma PairsWithout(ns: seq<Node>, i: nat)
    requires i < |ns|
    ensures PairsOf(ns[..i] + ns[i + 1..]) == PairsOf(ns)[..i] + PairsOf(ns)[i + 1..]
  {
  }

  lemma WithoutOne(ns: seq<Node>, i: nat)
    requires i < |ns| && forall a, b :: 0 <= a < b < |ns| ==> ns[a] != ns[b]
    ensures forall k :: 0 <= k < |ns| ==> (ns[k] in ns[..i] + ns[i + 1..] <==> k != i)
  {
    var left := ns[..i] + ns[i + 1..];
    forall k | 0 <= k < |ns| && k != i
      ensures ns[k] in left
    {
      assert left[if k < i then k else k - 1] == ns[k];
    }
  }

  predicate Ascending(ns: seq<Node>) {
    forall i, j :: 0 <= i < j < |ns| ==> Less(ns[i].name, ns[j].name)
  }

  predicate DifferentNames(ns: seq<Node>) {
    forall i, j :: 0 <= i < j < |ns| ==> ns[i].name != ns[j].name
  }

  /** Names that differ under strcasecmp differ under strcmp. */
  lemma NamesDiffer(ns: seq<Node>)
    requires KeyValSpec.Distinct(PairsOf(ns))
    ensures DifferentNames(ns)
  {
    forall i, j | 0 <= i < j < |ns|
      ensures ns[i].name != ns[j].name
    {
      assert !SameName(PairsOf(ns)[i].name, PairsOf(ns)[j].name);
    }
  }

  /** `s` is the node with the least name above x's among the first n nodes, or
      null if none of them is above. */
  ghost predicate IsSuccessor(ns: seq<Node>, n: nat, x: Node, s: Node?)
    requires n <= |ns|
  {
    if s == null then forall i :: 0 <= i < n ==> !Less(x.name, ns[i].name)
    else
      && s in ns && Less(x.name, s.name)
      && forall i :: 0 <= i < n && Less(x.name, ns[i].name) ==> !Less(ns[i].name, s.name)
  }

  /** One more node: it replaces the candidate exactly when it lies between. */
  lemma BetterCandidate(ns: seq<Node>, j: nat, x: Node, s: Node?)
    requires j < |ns| && IsSuccessor(ns, j, x, s)
    ensures if Less(x.name, ns[j].name) && (s == null || Less(ns[j].name, s.name))
            then IsSuccessor(ns, j + 1, x, ns[j])
            else IsSuccessor(ns, j + 1, x, s)
  {
    hide Less;
    if Less(x.name, ns[j].name) && (s == null || Less(ns[j].name, s.name)) {
      forall i | 0 <= i < j + 1 && Less(x.name, ns[i].name)
        ensures !Less(ns[i].name, ns[j].name)
      {
        if i == j {
          LessIrreflexive(ns[j].name);
        } else if s != null && Less(ns[i].name, ns[j].name) {
          LessTrans(ns[i].name, ns[j].name, s.name);
        }
      }
    }
  }

  lemma SmallerStill(ns: seq<Node>, i: nat, smallest: Node, okv: Node)
    requires i < |ns| && okv == ns[i] && Less(okv.name, smallest.name)
    requires forall k :: 0 <= k < i ==> !Less(ns[k].name, smallest.name)
    ensures forall k :: 0 <= k <= i ==> !Less(ns[k].name, okv.name)
  {
    hide Less;
    forall k | 0 <= k <= i
      ensures !Less(ns[k].name, okv.name)
    {
      if k == i {
        LessIrreflexive(okv.name);
      } else if Less(ns[k].name, okv.name) {
        LessTrans(ns[k].name, okv.name, smallest.name);
      }
    }
  }

  // ---------- The sorted sequence ----------

  ghost function InsertNode(n: Node, sorted: seq<Node>): seq<Node> {
    if sorted == [] || !Less(sorted[0].name, n.name) then [n] + sorted
    else [sorted[0]] + InsertNode(n, sorted[1..])
  }

  /** The nodes in strcmp order. */
  ghost function SortedNodes(ns: seq<Node>): seq<Node> {
    if ns == [] then [] else InsertNode(ns[0], SortedNodes(ns[1..]))
  }

  lemma {:induction false} InsertKeepsNodes(n: Node, sorted: seq<Node>)
    ensures multiset(InsertNode(n, sorted)) == multiset(sorted) + multiset{n}
  {
    hide Less;
    if sorted != [] && Less(sorted[0].name, n.name) {
      InsertKeepsNodes(n, sorted[1..]);
      assert sorted == [sorted[0]] + sorted[1..];
    }
  }

  lemma {:induction false} InsertNodeSpec(n: Node, sorted: seq<Node>)
    requires Ascending(sorted) && forall m <- sorted :: m.name != n.name
    ensures Ascending(InsertNode(n, sorted))
    ensures multiset(InsertNode(n, sorted)) == multiset(sorted) + multiset{n}
  {
    hide Less;
    InsertKeepsNodes(n, sorted);
    if sorted != [] {
      if Less(sorted[0].name, n.name) {
        var rest := sorted[1..];
        InsertNodeSpec(n, rest);
        var inserted := InsertNode(n, rest);
        forall m | m in inserted
          ensures Less(sorted[0].name, m.name)
        {
          assert m in multiset(inserted);
          assert m in rest || m == n;
        }
        hide InsertNode;
        PrependAscending(sorted[0], inserted);
      } else {
        LessTotal(sorted[0].name, n.name);
        PrependAscending(n, sorted);
      }
    }
  }

  lemma PrependAscending(n: Node, sorted: seq<Node>)
    requires Ascending(sorted) && (sorted != [] ==> Less(n.name, sorted[0].name))
    ensures Ascending([n] + sorted)
  {
    hide Less;
    forall j | 0 < j < |sorted|
      ensures Less(n.name, sorted[j].name)
    {
      LessTrans(n.name, sorted[0].name, sorted[j].name);
    }
  }

  lemma {:induction false} SortedNodesSpec(ns: seq<Node>)
    requires DifferentNames(ns)
    ensures Ascending(SortedNodes(ns)) && multiset(SortedNodes(ns)) == multiset(ns)
    ensures |SortedNodes(ns)| == |ns|
  {
    hide InsertNode, Less;
    if ns != [] {
      SortedNodesSpec(ns[1..]);
      forall m | m in SortedNodes(ns[1..])
        ensures m.name != ns[0].name
      {
        assert m in multiset(ns[1..]);
      }
      InsertNodeSpec(ns[0], SortedNodes(ns[1..]));
      assert ns == [ns[0]] + ns[1..];
    }
    assert |multiset(SortedNodes(ns))| == |multiset(ns)|;
  }

  /** In the sorted sequence the successor pointers form one chain through
      everything: the successor of each node is its neighbour. */
  lemma SuccessorIsNext(ns: seq<Node>, sorted: seq<Node>, k: nat, s: Node?)
    requires Ascending(sorted) && multiset(sorted) == multiset(ns) && k < |sorted|
    requires IsSuccessor(ns, |ns|, sorted[k], s)
    ensures s == At(sorted, k + 1)
  {
    hide Less;
    if s != null {
      assert s in multiset(ns);
      var j :| 0 <= j < |sorted| && sorted[j] == s;
      NotBefore(sorted, k, j);
    }
    if k + 1 < |sorted| {
      assert sorted[k + 1] in multiset(ns);
      var i :| 0 <= i < |ns| && ns[i] == sorted[k + 1];
      assert Less(sorted[k].name, ns[i].name);
    }
  }

  lemma NotBefore(sorted: seq<Node>, k: nat, j: nat)
    requires Ascending(sorted) && k < |sorted| && j < |sorted| && Less(sorted[k].name, sorted[j].name)
    ensures k < j
  {
    hide Less;
    if j < k {
      LessAsymmetric(sorted[j].name, sorted[k].name);
    } else if j == k {
      LessIrreflexive(sorted[k].name);
    }
  }

  lemma SmallestIsFirst(ns: seq<Node>, sorted: seq<Node>, smallest: Node)
    requires Ascending(sorted) && multiset(sorted) == multiset(ns)
    requires smallest in ns && forall k :: 0 <= k < |ns| ==> !Less(ns[k].name, smallest.name)
    ensures sorted != [] && smallest == sorted[0]
  {
    hide Less;
    assert smallest in multiset(sorted);
    var j :| 0 <= j < |sorted| && sorted[j] == smallest;
    assert sorted[0] in multiset(ns);
    var i :| 0 <= i < |ns| && ns[i] == sorted[0];
    assert !Less(ns[i].name, smallest.name);
  }

  /** Everything phase 2 needs to know about the successor pointers. */
  lemma SuccessorChain(ns: seq<Node>, sorted: seq<Node>)
    requires Ascending(sorted) && multiset(sorted) == multiset(ns)
    requires forall k :: 0 <= k < |ns| ==> IsSuccessor(ns, |ns|, ns[k], ns[k].sort)
    ensures forall k {:trigger sorted[k].sort} :: 0 <= k < |sorted| ==> sorted[k].sort == At(sorted, k + 1)
  {
    hide IsSuccessor;
    forall k | 0 <= k < |sorted|
      ensures sorted[k].sort == At(sorted, k + 1)
    {
      assert sorted[k] in multiset(ns);
      var i :| 0 <= i < |ns| && ns[i] == sorted[k];
      assert IsSuccessor(ns, |ns|, ns[i], ns[i].sort);
      SuccessorIsNext(ns, sorted, k, sorted[k].sort);
    }
  }

  lemma SortedFacts(ns: seq<Node>)
    requires KeyValSpec.Distinct(PairsOf(ns))
    ensures var sorted := SortedNodes(ns);
            && Ascending(sorted) && multiset(sorted) == multiset(ns) && |sorted| == |ns|
            && (forall k :: 0 <= k < |sorted| ==> sorted[k] in ns)
            && (forall i, j :: 0 <= i < j < |sorted| ==> sorted[i] != sorted[j])
            && KeyValSpec.Distinct(PairsOf(sorted))
  {
    hide Less, SameName, SortedNodes;
    NamesDiffer(ns);
    SortedNodesSpec(ns);
    var sorted := SortedNodes(ns);
    assert forall k :: 0 <= k < |sorted| ==> sorted[k] in multiset(ns);
    forall i, j | 0 <= i < j < |sorted|
      ensures sorted[i] != sorted[j] && !SameName(sorted[i].name, sorted[j].name)
    {
      LessIrreflexive(sorted[i].name);
      assert sorted[i] in multiset(ns) && sorted[j] in multiset(ns);
      var a :| 0 <= a < |ns| && ns[a] == sorted[i];
      var b :| 0 <= b < |ns| && ns[b] == sorted[j];
      var ps := PairsOf(ns);
      assert a != b && ps[a].name == ns[a].name && ps[b].name == ns[b].name;
      SameNameSymmetric(ns[a].name, ns[b].name);
    }
  }

  /** Sorting does not change what any name looks up. */
  lemma GetAfterSort(ns: seq<Node>, name: string)
    requires KeyValSpec.Distinct(PairsOf(ns))
    ensures KeyValSpec.Get(PairsOf(SortedNodes(ns)), name) == KeyValSpec.Get(PairsOf(ns), name)
  {
    SortedFacts(ns);
    var sorted := SortedNodes(ns);
    hide SortedNodes, Ascending;
    var ps, qs := PairsOf(ns), PairsOf(sorted);
    forall p | p in qs
      ensures p in ps
    {
      var k :| 0 <= k < |sorted| && qs[k] == p;
      assert sorted[k] in ns;
      var i :| 0 <= i < |ns| && ns[i] == sorted[k];
      assert ps[i] == p;
    }
    forall p | p in ps
      ensures p in qs
    {
      var i :| 0 <= i < |ns| && ps[i] == p;
      assert ns[i] in multiset(sorted);
      var k :| 0 <= k < |sorted| && sorted[k] == ns[i];
      assert qs[k] == p;
    }
    KeyValSpec.GetByMembership(ps, qs, name);
  }
}
