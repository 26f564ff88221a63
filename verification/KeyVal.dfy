/** The key/value list of src/misc.c on the heap: a singly linked list with a tail
    pointer, updated in place. */
module KeyVal {
  import opened Common
  import opened Names
  import KeyValSpec
  import opened KeyValOrder

  class KeyValList {
    var head: Node?
    var tail: Node?
    ghost var nodes: seq<Node>

    ghost predicate Valid()
      reads this, nodes
    {
      && Linked()
      && head == (if nodes == [] then null else nodes[0])
      && tail == (if nodes == [] then null else nodes[|nodes| - 1])
      && KeyValSpec.Distinct(PairsOf(nodes))
    }

    /** The chain of next pointers runs through `nodes`, all live, each once. */
    ghost predicate Linked()
      reads this, nodes
    {
      && (forall i, j :: 0 <= i < j < |nodes| ==> nodes[i] != nodes[j])
      && (forall i {:trigger nodes[i].next} :: 0 <= i < |nodes| ==> nodes[i].next == At(nodes, i + 1))
      && (forall i {:trigger nodes[i].live} :: 0 <= i < |nodes| ==> nodes[i].live)
    }

    ghost function Pairs(): seq<KeyValSpec.Pair>
      reads this
    {
      PairsOf(nodes)
    }

    constructor ()
      ensures Valid() && Pairs() == [] && nodes == []
    {
      head, tail, nodes := null, null, [];
    }

    method Get(name: string) returns (value: Option<string>)
      requires Valid()
      ensures value == KeyValSpec.Get(Pairs(), name)
    {
      hide Fold;
      ghost var i := 0;
      var okv := head;
      while okv != null
        invariant 0 <= i <= |nodes| && okv == At(nodes, i)
        invariant forall j :: 0 <= j < i ==> !SameName(nodes[j].name, name)
        decreases |nodes| - i
      {
        if SameName(okv.name, name) {
          KeyValSpec.IndexOfIs(Pairs(), name, i);
          return Some(okv.value);
        }
        okv, i := okv.Next(), i + 1;
      }
      KeyValSpec.IndexOfIs(Pairs(), name, i);
      return None;
    }

    /** keyval_add_size; `value` is the C string whose first `size` characters
        are stored. */
    method AddSize(name: string, value: string, size: nat) returns (ret: int)
      requires Valid() && size <= |value|
      modifies this, nodes
      ensures Valid() && forall i :: 0 <= i < |nodes| ==> nodes[i] in old(nodes) || fresh(nodes[i])
      ensures (Pairs(), ret) == KeyValSpec.AddSize(old(Pairs()), name, value, size)
    {
      var val := Get(name);
      if val.Some? {
        return if val.value == value then 0 else -1;
      }
      KeyValSpec.AppendsDistinct(Pairs(), name, value[..size]);
      hide KeyValSpec.Distinct, KeyValSpec.Get;
      var okv := new Node(name, value[..size]);
      assert PairsOf(nodes + [okv]) == PairsOf(nodes) + [KeyValSpec.Pair(name, value[..size])];
      Append(okv);
      ret := 0;
    }

    method Append(okv: Node)
      requires Valid() && okv !in nodes && okv.next == null && okv.live
      requires KeyValSpec.Distinct(PairsOf(nodes + [okv]))
      modifies this, if nodes == [] then {} else {nodes[|nodes| - 1]}
      ensures Valid() && nodes == old(nodes) + [okv]
    {
      hide KeyValSpec.Distinct, PairsOf;
      if head == null {
        head := okv;
      }
      if tail != null {
        tail.next := okv;
      }
      tail := okv;
      nodes := nodes + [okv];
    }

    method Add(name: string, value: string) returns (ret: int)
      requires Valid()
      modifies this, nodes
      ensures Valid() && forall i :: 0 <= i < |nodes| ==> nodes[i] in old(nodes) || fresh(nodes[i])
      ensures (Pairs(), ret) == KeyValSpec.Add(old(Pairs()), name, value)
    {
      ret := AddSize(name, value, |value|);
    }

    /** Afterwards a node is live exactly if it is still in the list. */
    method Remove(name: string)
      requires Valid()
      modifies this, nodes
      ensures Valid() && forall n <- nodes :: n in old(nodes)
      ensures Pairs() == KeyValSpec.Remove(old(Pairs()), name)
      ensures forall k :: 0 <= k < |old(nodes)| ==> (old(nodes)[k].live <==> old(nodes)[k] in nodes)
    {
      hide KeyValSpec.Distinct, SameName, KeyValSpec.IndexOf;
      var pokv, okv, i := Locate(name);
      if okv != null {
        KeyValSpec.RemoveDistinct(Pairs(), name);
        PairsWithout(nodes, i);
        hide PairsOf;
        ghost var before := nodes;
        Unlink(pokv, okv, i);
        WithoutOne(before, i);
      }
    }

    method Locate(name: string) returns (pokv: Node?, okv: Node?, ghost i: nat)
      requires Valid()
      ensures i == KeyValSpec.IndexOf(Pairs(), name) && okv == At(nodes, i)
      ensures pokv == if i == 0 then null else nodes[i - 1]
    {
      hide KeyValSpec.Distinct, SameName;
      i := 0;
      pokv, okv := null, head;
      while okv != null && !SameName(okv.name, name)
        invariant 0 <= i <= |nodes| && okv == At(nodes, i)
        invariant pokv == if i == 0 then null else nodes[i - 1]
        invariant forall j :: 0 <= j < i ==> !SameName(nodes[j].name, name)
        decreases |nodes| - i
      {
        pokv, okv, i := okv, okv.Next(), i + 1;
      }
      KeyValSpec.IndexOfIs(Pairs(), name, i);
    }

    method Unlink(pokv: Node?, okv: Node, ghost i: nat)
      requires Valid() && i < |nodes| && okv == nodes[i]
      requires pokv == if i == 0 then null else nodes[i - 1]
      requires KeyValSpec.Distinct(PairsOf(nodes[..i] + nodes[i + 1..]))
      modifies this, nodes`next, okv`live
      ensures Valid() && nodes == old(nodes[..i] + nodes[i + 1..]) && !okv.live
    {
      hide KeyValSpec.Distinct, PairsOf;
      ghost var left := nodes[..i] + nodes[i + 1..];
      assert forall k :: 0 <= k < |left| ==> left[k] == nodes[if k < i then k else k + 1];
      if okv == head {
        head := okv.Next();
      }
      if okv == tail {
        tail := pokv;
      }
      if pokv != null {
        pokv.next := okv.Next();
      }
      nodes := left;
      okv.Free();
    }

    /** Every node is freed, and each once: Free() demands a live one. */
    method Clear()
      requires Valid()
      modifies this, nodes`live
      ensures Valid() && Pairs() == []
      ensures forall i :: 0 <= i < |old(nodes)| ==> !old(nodes)[i].live
    {
      ghost var i := 0;
      var okv := head;
      while okv != null
        invariant 0 <= i <= |nodes| && okv == At(nodes, i) && nodes == old(nodes)
        invariant forall j {:trigger nodes[j].live} :: 0 <= j < |nodes| ==> (nodes[j].live <==> i <= j)
        decreases |nodes| - i
      {
        var next := okv.Next();
        okv.Free();
        okv, i := next, i + 1;
      }
      head, tail, nodes := null, null, [];
    }

    /** keyval_sort: afterwards the list holds exactly the same nodes, strictly
        ascending, so every lookup answers as before. */
    method Sort()
      requires Valid()
      modifies this, nodes
      ensures Valid()
      ensures nodes == SortedNodes(old(nodes))
      ensures Ascending(nodes) && multiset(nodes) == multiset(old(nodes))
    {
      if head == null {
        return;
      }
      SortedFacts(nodes);
      ghost var sorted := SortedNodes(nodes);
      hide SortedNodes, KeyValSpec.Distinct, PairsOf, Less, Ascending;
      var newHead := Reorder(sorted);
      Restart(newHead, sorted);
    }

    /** Phases 1 and 2: the next pointers run through the sorted sequence. */
    method Reorder(ghost sorted: seq<Node>) returns (newHead: Node)
      requires Linked() && nodes != [] && head == nodes[0]
      requires Ascending(sorted) && multiset(sorted) == multiset(nodes)
      requires forall k :: 0 <= k < |sorted| ==> sorted[k] in nodes
      modifies this`head, nodes`next, nodes`sort
      ensures sorted != [] && newHead == sorted[0]
      ensures forall k {:trigger sorted[k].next} :: 0 <= k < |sorted| ==> sorted[k].next == At(sorted, k + 1)
      ensures forall k {:trigger sorted[k].live} :: 0 <= k < |sorted| ==> sorted[k].live
    {
      hide Less, Ascending, IsSuccessor;
      newHead := LinkSuccessors();
      SmallestIsFirst(nodes, sorted, newHead);
      SuccessorChain(nodes, sorted);
      Relink();
    }

    /** Between phases 2 and 3: the relinked chain becomes the list. */
    method Restart(newHead: Node, ghost sorted: seq<Node>)
      requires sorted != [] && newHead == sorted[0]
      requires forall k :: 0 <= k < |sorted| ==> sorted[k] in nodes
      requires forall i, j :: 0 <= i < j < |sorted| ==> sorted[i] != sorted[j]
      requires forall k {:trigger sorted[k].next} :: 0 <= k < |sorted| ==> sorted[k].next == At(sorted, k + 1)
      requires forall k {:trigger sorted[k].live} :: 0 <= k < |sorted| ==> sorted[k].live
      requires KeyValSpec.Distinct(PairsOf(sorted))
      modifies this
      ensures Valid() && nodes == sorted
    {
      hide KeyValSpec.Distinct, PairsOf;
      head, nodes := newHead, sorted;
      SetTail();
    }

    /** Phase 1: every node's sort pointer is set to its successor in the order;
        the smallest node is found on the way. */
    method LinkSuccessors() returns (smallest: Node)
      requires Linked() && nodes != [] && head == nodes[0]
      modifies nodes`sort
      ensures forall k :: 0 <= k < |nodes| ==> IsSuccessor(nodes, |nodes|, nodes[k], nodes[k].sort)
      ensures smallest in nodes && forall k :: 0 <= k < |nodes| ==> !Less(nodes[k].name, smallest.name)
    {
      hide Less, IsSuccessor;
      smallest := head;
      LessIrreflexive(head.name);
      ghost var i := 0;
      var okv := head;
      while okv != null
        invariant 0 <= i <= |nodes| && okv == At(nodes, i) && Linked()
        invariant forall k :: 0 <= k < i ==> IsSuccessor(nodes, |nodes|, nodes[k], nodes[k].sort)
        invariant smallest in nodes && forall k :: 0 <= k < i ==> !Less(nodes[k].name, smallest.name)
        decreases |nodes| - i
      {
        FindSuccessor(okv);
        if Less(okv.name, smallest.name) {
          SmallerStill(nodes, i, smallest, okv);
          smallest := okv;
        }
        okv, i := okv.Next(), i + 1;
      }
    }

    method FindSuccessor(okv: Node)
      requires Linked() && nodes != [] && head == nodes[0] && okv in nodes
      modifies okv`sort
      ensures IsSuccessor(nodes, |nodes|, okv, okv.sort)
    {
      hide Less;
      okv.sort := null;
      ghost var j := 0;
      var sokv := head;
      while sokv != null
        invariant 0 <= j <= |nodes| && sokv == At(nodes, j) && Linked()
        invariant IsSuccessor(nodes, j, okv, okv.sort)
        decreases |nodes| - j
      {
        BetterCandidate(nodes, j, okv, okv.sort);
        if Less(okv.name, sokv.name) && (okv.sort == null || Less(sokv.name, okv.sort.name)) {
          okv.sort := sokv;
        }
        sokv, j := sokv.Next(), j + 1;
      }
    }

    /** Phase 2: the list is taken apart from the front, every next pointer
        becoming the sort pointer. */
    method Relink()
      requires Linked() && nodes != [] && head == nodes[0]
      modifies this`head, nodes`next
      ensures head == null && forall n <- nodes :: n.next == n.sort
    {
      ghost var i := 0;
      while head != null
        invariant 0 <= i <= |nodes| && head == At(nodes, i)
        invariant forall k :: 0 <= k < i ==> nodes[k].next == nodes[k].sort
        invariant forall k {:trigger nodes[k].next} :: i <= k < |nodes| ==> nodes[k].next == At(nodes, k + 1)
        decreases |nodes| - i
      {
        var okv := head;
        head := okv.Next();
        okv.next := okv.sort;
        i := i + 1;
      }
    }

    /** Phase 3: walks to the end. */
    method SetTail()
      requires Linked() && nodes != [] && head == nodes[0]
      modifies this`tail
      ensures tail == nodes[|nodes| - 1]
    {
      ghost var i := 0;
      var okv := head;
      while okv != null
        invariant 0 <= i <= |nodes| && okv == At(nodes, i) && Linked()
        invariant i > 0 ==> tail == nodes[i - 1]
        decreases |nodes| - i
      {
        tail := okv;
        okv, i := okv.Next(), i + 1;
      }
    }
  }
}
