/** The pipe watch list of src/mass.c: linked lists of heap-allocated pipes, and
    pipe_watch_update(), which reconciles the list of watched pipes with a
    requested list by unlinking and freeing nodes while it walks over them. */
module WatchList {

  const PIPE_MAX_WATCH := 4

  class Pipe {
    const id: int
    var next: Pipe?
    /** False once pipe_free() has had it: touching it then is an error. */
    ghost var live: bool

    constructor (id: int)
      ensures this.id == id && next == null && live
    {
      this.id, next, live := id, null, true;
    }

    // The methods of this module touch a pipe through these three only, and they
    // demand that it has not been freed.

    function Id(): int
      requires live
      reads this
    {
      id
    }

    function Next(): Pipe?
      requires live
      reads this
    {
      next
    }

    method SetNext(p: Pipe?)
      requires live
      modifies this`next
      ensures next == p
    {
      next := p;
    }
  }

  function At(ps: seq<Pipe>, i: nat): Pipe? {
    if i < |ps| then ps[i] else null
  }

  /** `head` starts a chain of live nodes, exactly `ps`, each once. */
  ghost predicate List(head: Pipe?, ps: seq<Pipe>)
    reads ps
  {
    && head == At(ps, 0)
    && (forall i, j :: 0 <= i < j < |ps| ==> ps[i] != ps[j])
    && (forall i {:trigger ps[i].next} :: 0 <= i < |ps| ==> ps[i].next == At(ps, i + 1))
    && (forall i {:trigger ps[i].live} :: 0 <= i < |ps| ==> ps[i].live)
  }

  predicate UniqueIds(ps: seq<Pipe>) {
    forall i, j :: 0 <= i < j < |ps| ==> ps[i].id != ps[j].id
  }

  predicate HasId(ps: seq<Pipe>, id: int) {
    exists i :: 0 <= i < |ps| && ps[i].id == id
  }

  // ---------- What an update amounts to ----------

  /** The watched pipes that are still wanted, in order. */
  function Wanted(watched: seq<Pipe>, requested: seq<Pipe>): seq<Pipe> {
    if watched == [] then []
    else if HasId(requested, watched[0].id) then [watched[0]] + Wanted(watched[1..], requested)
    else Wanted(watched[1..], requested)
  }

  /** The list after the first k requested pipes: a new one goes to the front, if
      its position is at most PIPE_MAX_WATCH and watch_add() succeeds for it. */
  function Added(list: seq<Pipe>, requested: seq<Pipe>, addOk: seq<bool>, k: nat): seq<Pipe>
    requires k <= |requested| == |addOk|
  {
    if k == 0 then list
    else
      var before := Added(list, requested, addOk, k - 1);
      var p := requested[k - 1];
      if k - 1 <= PIPE_MAX_WATCH && !HasId(before, p.id) && addOk[k - 1] then [p] + before else before
  }

  function Updated(watched: seq<Pipe>, requested: seq<Pipe>, addOk: seq<bool>): seq<Pipe>
    requires |requested| == |addOk|
  {
    Added(Wanted(watched, requested), requested, addOk, |requested|)
  }

  // ---------- Its properties ----------

  /** `w` holds exactly the watched pipes whose id is requested. */
  predicate KeepsRequested(w: seq<Pipe>, watched: seq<Pipe>, requested: seq<Pipe>) {
    && (forall i :: 0 <= i < |w| ==> w[i] in watched && HasId(requested, w[i].id))
    && (forall i :: 0 <= i < |watched| && HasId(requested, watched[i].id) ==> watched[i] in w)
  }

  lemma {:induction false} WantedSpec(watched: seq<Pipe>, requested: seq<Pipe>)
    ensures KeepsRequested(Wanted(watched, requested), watched, requested)
  {
    hide HasId;
    if watched != [] {
      var tail := watched[1..];
      WantedSpec(tail, requested);
      assert watched == [watched[0]] + tail;
      KeepsOneMore(watched[0], tail, Wanted(tail, requested), requested);
      hide KeepsRequested;
    }
  }

  lemma KeepsOneMore(p: Pipe, tail: seq<Pipe>, rest: seq<Pipe>, requested: seq<Pipe>)
    requires KeepsRequested(rest, tail, requested)
    ensures KeepsRequested(if HasId(requested, p.id) then [p] + rest else rest, [p] + tail, requested)
  {
    hide HasId;
    var watched, w := [p] + tail, if HasId(requested, p.id) then [p] + rest else rest;
    forall i | 0 <= i < |w|
      ensures w[i] in watched && HasId(requested, w[i].id)
    {
      if HasId(requested, p.id) && i > 0 {
        assert w[i] == rest[i - 1];
      }
    }
    forall i | 0 <= i < |watched| && HasId(requested, watched[i].id)
      ensures watched[i] in w
    {
      if i > 0 {
        assert watched[i] == tail[i - 1];
      }
    }
  }

  lemma {:induction false} WantedUnique(watched: seq<Pipe>, requested: seq<Pipe>)
    requires UniqueIds(watched)
    ensures UniqueIds(Wanted(watched, requested))
  {
    hide HasId;
    if watched != [] {
      WantedUnique(watched[1..], requested);
      WantedSpec(watched[1..], requested);
      var rest := Wanted(watched[1..], requested);
      forall j | 0 <= j < |rest|
        ensures rest[j].id != watched[0].id
      {
        var i :| 0 <= i < |watched[1..]| && watched[1..][i] == rest[j];
        assert watched[i + 1] == rest[j];
      }
    }
  }

  lemma {:induction false} AddedUnique(list: seq<Pipe>, requested: seq<Pipe>, addOk: seq<bool>, k: nat)
    requires k <= |requested| == |addOk| && UniqueIds(list)
    ensures UniqueIds(Added(list, requested, addOk, k))
  {
    if k > 0 {
      AddedUnique(list, requested, addOk, k - 1);
    }
  }

  /** New pipes stand in front of the old ones, the last one first. */
  lemma {:induction false} AddedInFront(list: seq<Pipe>, requested: seq<Pipe>, addOk: seq<bool>, k: nat)
    returns (positions: seq<nat>)
    requires k <= |requested| == |addOk|
    ensures |Added(list, requested, addOk, k)| == |positions| + |list|
    ensures Added(list, requested, addOk, k)[|positions|..] == list
    ensures forall j :: 0 <= j < |positions| ==>
              positions[j] < k && Added(list, requested, addOk, k)[j] == requested[positions[j]]
    ensures forall i, j :: 0 <= i < j < |positions| ==> positions[j] < positions[i]
  {
    hide HasId;
    if k == 0 {
      return [];
    }
    var before := AddedInFront(list, requested, addOk, k - 1);
    var cur, earlier := Added(list, requested, addOk, k), Added(list, requested, addOk, k - 1);
    if cur == earlier {
      return before;
    }
    positions := [k - 1] + before;
    assert cur == [requested[k - 1]] + earlier;
    assert forall j :: 0 < j < |cur| ==> cur[j] == earlier[j - 1];
  }

  /** Asked for at one of the first k positions, and one of the first five, and
      openable. */
  predicate Openable(requested: seq<Pipe>, addOk: seq<bool>, k: nat, id: int)
    requires k <= |requested| == |addOk|
  {
    exists i :: 0 <= i < k && i < 5 && requested[i].id == id && addOk[i]
  }

  lemma {:induction false} AddedIds(list: seq<Pipe>, requested: seq<Pipe>, addOk: seq<bool>, k: nat, id: int)
    requires k <= |requested| == |addOk|
    ensures HasId(Added(list, requested, addOk, k), id) <==> HasId(list, id) || Openable(requested, addOk, k, id)
  {
    if k > 0 {
      AddedIds(list, requested, addOk, k - 1, id);
      var before := Added(list, requested, addOk, k - 1);
      var p := requested[k - 1];
      PrependIds(p, before, id);
      hide HasId, Added;
      assert Openable(requested, addOk, k, id) <==>
        Openable(requested, addOk, k - 1, id) || (k - 1 <= PIPE_MAX_WATCH && p.id == id && addOk[k - 1]);
    }
  }

  lemma PrependIds(p: Pipe, list: seq<Pipe>, id: int)
    ensures HasId([p] + list, id) <==> p.id == id || HasId(list, id)
  {
    if HasId(list, id) {
      var i :| 0 <= i < |list| && list[i].id == id;
      assert ([p] + list)[i + 1].id == id;
    }
    if p.id == id {
      assert ([p] + list)[0].id == id;
    }
  }

  /** The ids watched afterwards: those watched before and still requested, and
      those requested at positions 0 to 4 that could be opened.  No id twice. */
  lemma UpdatedIds(watched: seq<Pipe>, requested: seq<Pipe>, addOk: seq<bool>, id: int)
    requires |requested| == |addOk| && UniqueIds(watched)
    ensures UniqueIds(Updated(watched, requested, addOk))
    ensures HasId(Updated(watched, requested, addOk), id) <==>
              (HasId(watched, id) && HasId(requested, id)) || Openable(requested, addOk, |requested|, id)
  {
    WantedSpec(watched, requested);
    WantedUnique(watched, requested);
    var wanted := Wanted(watched, requested);
    AddedUnique(wanted, requested, addOk, |requested|);
    AddedIds(wanted, requested, addOk, |requested|, id);
    if HasId(watched, id) && HasId(requested, id) {
      var i :| 0 <= i < |watched| && watched[i].id == id;
      assert watched[i] in wanted;
      var j :| 0 <= j < |wanted| && wanted[j] == watched[i];
      assert wanted[j].id == id;
    }
    if HasId(wanted, id) {
      var j :| 0 <= j < |wanted| && wanted[j].id == id;
      assert wanted[j] in watched;
      var i :| 0 <= i < |watched| && watched[i] == wanted[j];
      assert watched[i].id == id;
    }
  }

  /** The requested pipe at position k was neither added nor freed: watch_add()
      failed for it. */
  predicate Abandoned(list: seq<Pipe>, requested: seq<Pipe>, addOk: seq<bool>, k: nat)
    requires k < |requested| == |addOk|
  {
    k <= PIPE_MAX_WATCH && !HasId(Added(list, requested, addOk, k), requested[k].id) && !addOk[k]
  }

  /** A node is lost only among the first five requests, when it could not be opened and
      its id was neither kept nor opened before. */
  lemma AbandonedIs(list: seq<Pipe>, requested: seq<Pipe>, addOk: seq<bool>, k: nat)
    requires k < |requested| == |addOk|
    ensures Abandoned(list, requested, addOk, k) <==>
            k < 5 && !addOk[k] && !HasId(list, requested[k].id) && !Openable(requested, addOk, k, requested[k].id)
  {
    AddedIds(list, requested, addOk, k, requested[k].id);
    hide Added, HasId, Openable;
  }

  // ---------- The heap ----------

  method PipeFree(p: Pipe)
    requires p.live
    modifies p`live
    ensures !p.live
  {
    p.live := false;
  }

  /** pipelist_find. */
  method Find(list: Pipe?, id: int, ghost ps: seq<Pipe>) returns (p: Pipe?)
    requires List(list, ps)
    ensures p != null <==> HasId(ps, id)
    ensures p != null ==> p in ps && p.id == id
  {
    ghost var i := 0;
    p := list;
    while p != null
      invariant 0 <= i <= |ps| && p == At(ps, i)
      invariant forall j :: 0 <= j < i ==> ps[j].id != id
      decreases |ps| - i
    {
      if id == p.Id() {
        return;
      }
      p, i := p.Next(), i + 1;
    }
  }

  /** pipelist_remove: unlinks the pipe at position k and frees it. */
  method Remove(list: Pipe?, pipe: Pipe, ghost ps: seq<Pipe>, ghost k: nat) returns (newList: Pipe?)
    requires List(list, ps) && UniqueIds(ps) && k < |ps| && ps[k] == pipe
    modifies ps`next, pipe`live
    ensures List(newList, ps[..k] + ps[k + 1..]) && !pipe.live
  {
    ghost var i := 0;
    var prev: Pipe? := null;
    var p := list;
    while p != null && p.Id() != pipe.Id()
      invariant 0 <= i <= k && p == At(ps, i)
      invariant prev == if i == 0 then null else ps[i - 1]
      decreases |ps| - i
    {
      prev, p, i := p, p.Next(), i + 1;
    }
    ghost var rest := ps[..k] + ps[k + 1..];
    assert forall j :: 0 <= j < |rest| ==> rest[j] == ps[if j < k then j else j + 1];
    newList := list;
    if prev == null {
      newList := pipe.Next();
    } else {
      prev.SetNext(pipe.Next());
    }
    PipeFree(pipe);
  }

  /** pipelist_add. */
  method Push(list: Pipe?, pipe: Pipe, ghost ps: seq<Pipe>) returns (newList: Pipe)
    requires List(list, ps) && pipe !in ps && pipe.live
    modifies pipe`next
    ensures List(newList, [pipe] + ps)
  {
    pipe.SetNext(list);
    newList := pipe;
  }

  /** The list while phase 1 stands at position i. */
  function Swept(watched: seq<Pipe>, requested: seq<Pipe>, i: nat): seq<Pipe>
    requires i <= |watched|
  {
    Wanted(watched[..i], requested) + watched[i..]
  }

  lemma {:induction false} WantedSnoc(watched: seq<Pipe>, requested: seq<Pipe>, p: Pipe)
    ensures Wanted(watched + [p], requested)
            == Wanted(watched, requested) + if HasId(requested, p.id) then [p] else []
  {
    hide HasId;
    if watched == [] {
      assert [p][1..] == [];
    } else {
      assert (watched + [p])[1..] == watched[1..] + [p];
      WantedSnoc(watched[1..], requested, p);
    }
  }

  lemma SweptStep(watched: seq<Pipe>, requested: seq<Pipe>, i: nat)
    requires i < |watched|
    ensures var cur, kept := Swept(watched, requested, i), Wanted(watched[..i], requested);
            && |kept| < |cur| && cur[|kept|] == watched[i] && At(cur, |kept| + 1) == At(watched, i + 1)
            && Wanted(watched[..i + 1], requested) == kept + (if HasId(requested, watched[i].id) then [watched[i]] else [])
            && Swept(watched, requested, i + 1)
               == if HasId(requested, watched[i].id) then cur else cur[..|kept|] + cur[|kept| + 1..]
  {
    hide Wanted, HasId;
    assert watched[..i + 1] == watched[..i] + [watched[i]];
    WantedSnoc(watched[..i], requested, watched[i]);
    assert watched[i..] == [watched[i]] + watched[i + 1..];
  }

  lemma SweptUnique(watched: seq<Pipe>, requested: seq<Pipe>, i: nat)
    requires i <= |watched| && UniqueIds(watched)
    ensures UniqueIds(Swept(watched, requested, i))
    ensures forall j :: i <= j < |watched| ==> watched[j] !in Wanted(watched[..i], requested)
  {
    var kept := Wanted(watched[..i], requested);
    WantedSpec(watched[..i], requested);
    WantedUnique(watched[..i], requested);
    hide Wanted, HasId;
    forall a, j | 0 <= a < |kept| && i <= j < |watched|
      ensures kept[a].id != watched[j].id
    {
      var b :| 0 <= b < i && watched[..i][b] == kept[a];
      assert watched[b] == kept[a];
    }
  }

  lemma SweptWithin(watched: seq<Pipe>, requested: seq<Pipe>, i: nat)
    requires i <= |watched|
    ensures forall j :: 0 <= j < |Swept(watched, requested, i)| ==> Swept(watched, requested, i)[j] in watched
  {
    var kept := Wanted(watched[..i], requested);
    WantedSpec(watched[..i], requested);
    hide Wanted, HasId;
    forall a | 0 <= a < |kept|
      ensures kept[a] in watched
    {
      var b :| 0 <= b < i && watched[..i][b] == kept[a];
      assert watched[b] == kept[a];
    }
  }

  /** Everything phase 1 knows at position i. */
  ghost predicate Sweeping(list: Pipe?, pipelist: Pipe?, watched: seq<Pipe>, requested: seq<Pipe>, i: nat)
    requires i <= |watched|
    reads watched, requested
  {
    && (forall j :: 0 <= j < |Swept(watched, requested, i)| ==> Swept(watched, requested, i)[j] in watched)
    && List(list, Swept(watched, requested, i)) && List(pipelist, requested)
    && (forall j :: 0 <= j < |requested| ==> requested[j] !in watched)
    && (forall j :: 0 <= j < i && watched[j] !in Wanted(watched[..i], requested) ==> !watched[j].live)
  }

  lemma SweepSees(list: Pipe?, pipelist: Pipe?, watched: seq<Pipe>, requested: seq<Pipe>, i: nat)
    requires i < |watched| && Sweeping(list, pipelist, watched, requested, i)
    ensures List(pipelist, requested) && watched[i].live && watched[i].next == At(watched, i + 1)
    ensures HasId(requested, watched[i].id) ==> Sweeping(list, pipelist, watched, requested, i + 1)
  {
    hide HasId, Wanted, Swept, List;
    SweptStep(watched, requested, i);
    SweptWithin(watched, requested, i + 1);
    Member(list, Swept(watched, requested, i), |Wanted(watched[..i], requested)|);
  }

  /** Unlinks and frees the pipe at position i. */
  method DropAt(list: Pipe?, pipelist: Pipe?, pipe: Pipe,
                ghost watched: seq<Pipe>, ghost requested: seq<Pipe>, ghost i: nat)
    returns (newList: Pipe?)
    requires i < |watched| && pipe == watched[i] && UniqueIds(watched)
    requires Sweeping(list, pipelist, watched, requested, i) && !HasId(requested, pipe.id)
    modifies watched
    ensures Sweeping(newList, pipelist, watched, requested, i + 1)
  {
    hide HasId, Wanted, Swept, UniqueIds, List;
    ghost var cur, kept := Swept(watched, requested, i), Wanted(watched[..i], requested);
    SweptStep(watched, requested, i);
    SweptUnique(watched, requested, i);
    assert cur[..|kept|] + cur[|kept| + 1..] == Swept(watched, requested, i + 1);
    newList := Remove(list, pipe, cur, |kept|);
    SweptWithin(watched, requested, i + 1);
  }

  /** One round: the successor is saved before the node goes. */
  method DropOne(list: Pipe?, pipelist: Pipe?, pipe: Pipe,
                 ghost watched: seq<Pipe>, ghost requested: seq<Pipe>, ghost i: nat)
    returns (newList: Pipe?, next: Pipe?)
    requires i < |watched| && pipe == watched[i] && UniqueIds(watched)
    requires Sweeping(list, pipelist, watched, requested, i)
    modifies watched
    ensures next == At(watched, i + 1) && Sweeping(newList, pipelist, watched, requested, i + 1)
  {
    hide Wanted, Swept, UniqueIds, List, Sweeping;
    SweepSees(list, pipelist, watched, requested, i);
    next := pipe.Next();
    newList := list;
    var found := Find(pipelist, pipe.Id(), requested);
    if found == null {
      newList := DropAt(list, pipelist, pipe, watched, requested, i);
    }
  }

  /** Phase 1 of pipe_watch_update: unlinks and frees what is no longer wanted,
      and nothing else. */
  method DropUnwanted(list: Pipe?, pipelist: Pipe?, ghost watched: seq<Pipe>, ghost requested: seq<Pipe>)
    returns (newList: Pipe?)
    requires List(list, watched) && List(pipelist, requested) && UniqueIds(watched)
    requires forall i :: 0 <= i < |requested| ==> requested[i] !in watched
    modifies watched
    ensures List(newList, Wanted(watched, requested)) && List(pipelist, requested)
    ensures forall i :: 0 <= i < |watched| ==> (watched[i].live <==> watched[i] in Wanted(watched, requested))
  {
    hide HasId, Wanted, Swept, UniqueIds, List, Sweeping;
    newList := list;
    ghost var i := 0;
    SweepStarts(list, pipelist, watched, requested);
    var pipe := list;
    while pipe != null
      invariant 0 <= i <= |watched| && pipe == At(watched, i)
      invariant Sweeping(newList, pipelist, watched, requested, i)
      decreases |watched| - i
    {
      newList, pipe := DropOne(newList, pipelist, pipe, watched, requested, i);
      i := i + 1;
    }
    SweepDone(newList, pipelist, watched, requested);
  }

  lemma SweepStarts(list: Pipe?, pipelist: Pipe?, watched: seq<Pipe>, requested: seq<Pipe>)
    requires List(list, watched) && List(pipelist, requested)
    requires forall i :: 0 <= i < |requested| ==> requested[i] !in watched
    ensures list == At(watched, 0) && Sweeping(list, pipelist, watched, requested, 0)
  {
    SweptEnds(watched, requested);
    assert forall j :: 0 <= j < |watched| ==> watched[j] in watched;
    Head(list, watched);
    hide List, Swept, Wanted;
  }

  lemma SweepDone(list: Pipe?, pipelist: Pipe?, watched: seq<Pipe>, requested: seq<Pipe>)
    requires Sweeping(list, pipelist, watched, requested, |watched|)
    ensures List(list, Wanted(watched, requested)) && List(pipelist, requested)
    ensures forall i :: 0 <= i < |watched| ==> (watched[i].live <==> watched[i] in Wanted(watched, requested))
  {
    SweptEnds(watched, requested);
    hide List, Swept, Wanted;
    assert watched[..|watched|] == watched;
    AllLive(list, Wanted(watched, requested));
  }

  lemma Head(head: Pipe?, ps: seq<Pipe>)
    requires List(head, ps)
    ensures head == At(ps, 0)
  {
  }

  lemma Member(head: Pipe?, ps: seq<Pipe>, k: nat)
    requires List(head, ps) && k < |ps|
    ensures ps[k].live && ps[k].next == At(ps, k + 1)
  {
  }

  lemma AllLive(head: Pipe?, ps: seq<Pipe>)
    requires List(head, ps)
    ensures forall p <- ps :: p.live
  {
  }

  lemma SweptEnds(watched: seq<Pipe>, requested: seq<Pipe>)
    ensures Swept(watched, requested, 0) == watched
    ensures Swept(watched, requested, |watched|) == Wanted(watched, requested)
  {
    assert watched[..|watched|] == watched;
  }

  // ---------- Phase 2 ----------

  predicate Among(requested: seq<Pipe>, k: nat, p: Pipe)
    requires k <= |requested|
  {
    exists i :: 0 <= i < k && requested[i] == p
  }

  lemma {:induction false} AddedWithin(list: seq<Pipe>, requested: seq<Pipe>, addOk: seq<bool>, k: nat, j: nat)
    requires k <= |requested| == |addOk| && j < |Added(list, requested, addOk, k)|
    ensures var p := Added(list, requested, addOk, k)[j]; p in list || Among(requested, k, p)
  {
    hide HasId;
    if k > 0 {
      var before, cur := Added(list, requested, addOk, k - 1), Added(list, requested, addOk, k);
      if cur == before {
        AddedWithin(list, requested, addOk, k - 1, j);
      } else if j > 0 {
        assert cur[j] == before[j - 1];
        AddedWithin(list, requested, addOk, k - 1, j - 1);
      } else {
        assert requested[k - 1] == cur[j];
      }
    }
  }

  ghost predicate Separate(list: seq<Pipe>, requested: seq<Pipe>) {
    && (forall i, j :: 0 <= i < j < |requested| ==> requested[i] != requested[j])
    && (forall i :: 0 <= i < |requested| ==> requested[i] !in list)
  }

  /** A requested pipe not reached yet is not in the list. */
  lemma NotYetAdded(list: seq<Pipe>, requested: seq<Pipe>, addOk: seq<bool>, k: nat, j: nat)
    requires k <= j < |requested| == |addOk| && Separate(list, requested)
    ensures requested[j] !in Added(list, requested, addOk, k)
  {
    var cur := Added(list, requested, addOk, k);
    hide Added;
    if i :| 0 <= i < |cur| && cur[i] == requested[j] {
      AddedWithin(list, requested, addOk, k, i);
    }
  }

  /** The requested pipe at position j survives: it is watched or abandoned. */
  predicate Survives(list: seq<Pipe>, requested: seq<Pipe>, addOk: seq<bool>, k: nat, j: nat)
    requires j < k <= |requested| == |addOk|
  {
    requested[j] in Added(list, requested, addOk, k) || Abandoned(list, requested, addOk, j)
  }

  /** Everything phase 2 knows at position k. */
  ghost predicate Adding(head: Pipe?, list: seq<Pipe>, requested: seq<Pipe>, addOk: seq<bool>, k: nat)
    requires k <= |requested| == |addOk|
    reads list, requested
  {
    var cur := Added(list, requested, addOk, k);
    && (forall j :: 0 <= j < |cur| ==> cur[j] in list || cur[j] in requested)
    && List(head, cur)
    && (forall j {:trigger requested[j].next} {:trigger requested[j].live} :: k <= j < |requested| ==>
          requested[j].live && requested[j].next == At(requested, j + 1))
    && (forall j {:trigger requested[j].live} :: 0 <= j < k ==>
          (requested[j].live <==> Survives(list, requested, addOk, k, j)))
  }

  lemma SurvivalKept(list: seq<Pipe>, requested: seq<Pipe>, addOk: seq<bool>, k: nat, j: nat)
    requires j < k < |requested| == |addOk| && Separate(list, requested)
    ensures Survives(list, requested, addOk, k + 1, j) == Survives(list, requested, addOk, k, j)
  {
    hide HasId;
    assert requested[j] != requested[k];
  }

  /** Makes the request at position k known to be handled, the list unchanged. */
  lemma AddingStep(head: Pipe?, list: seq<Pipe>, requested: seq<Pipe>, addOk: seq<bool>, k: nat)
    requires k < |requested| == |addOk| && Separate(list, requested)
    requires Rest(list, requested, addOk, k) && List(head, Added(list, requested, addOk, k + 1))
    requires requested[k].live <==> Survives(list, requested, addOk, k + 1, k)
    ensures Adding(head, list, requested, addOk, k + 1)
  {
    hide Added, Survives, HasId, List, Separate;
    var k' := k + 1;
    forall j | 0 <= j < k
      ensures requested[j].live <==> Survives(list, requested, addOk, k', j)
    {
      SurvivalKept(list, requested, addOk, k, j);
    }
    var cur := Added(list, requested, addOk, k');
    forall j | 0 <= j < |cur|
      ensures cur[j] in list || cur[j] in requested
    {
      AddedWithin(list, requested, addOk, k', j);
    }
  }

  /** What phase 2 knows besides the list and the pipe in hand. */
  ghost predicate Rest(list: seq<Pipe>, requested: seq<Pipe>, addOk: seq<bool>, k: nat)
    requires k < |requested| == |addOk|
    reads requested
  {
    && (forall j {:trigger requested[j].next} {:trigger requested[j].live} :: k < j < |requested| ==>
          requested[j].live && requested[j].next == At(requested, j + 1))
    && (forall j {:trigger requested[j].live} :: 0 <= j < k ==>
          (requested[j].live <==> Survives(list, requested, addOk, k, j)))
  }

  /** One round of phase 2; the successor is saved before the node is freed or
      put into the other list. */
  method AddOne(head: Pipe?, pipe: Pipe, ghost list: seq<Pipe>, ghost requested: seq<Pipe>, addOk: seq<bool>, k: nat)
    returns (newHead: Pipe?, next: Pipe?)
    requires k < |requested| == |addOk| && pipe == requested[k] && Separate(list, requested)
    requires Adding(head, list, requested, addOk, k)
    modifies requested
    ensures next == At(requested, k + 1) && Adding(newHead, list, requested, addOk, k + 1)
  {
    ghost var cur := Added(list, requested, addOk, k);
    NotYetAdded(list, requested, addOk, k, k);
    next := pipe.Next();
    newHead := head;
    if k > PIPE_MAX_WATCH {
      Discard(head, pipe, list, requested, addOk, k);
    } else {
      var found := Find(head, pipe.Id(), cur);
      if found == null {
        if addOk[k] {
          newHead := Watch(head, pipe, list, requested, addOk, k);
        }
      } else {
        Discard(head, pipe, list, requested, addOk, k);
      }
    }
    AddingStep(newHead, list, requested, addOk, k);
  }

  method Discard(head: Pipe?, pipe: Pipe, ghost list: seq<Pipe>, ghost requested: seq<Pipe>, ghost addOk: seq<bool>, ghost k: nat)
    requires k < |requested| == |addOk| && pipe == requested[k] && Separate(list, requested)
    requires Adding(head, list, requested, addOk, k)
    requires k > PIPE_MAX_WATCH || HasId(Added(list, requested, addOk, k), pipe.id)
    modifies pipe`live
    ensures Rest(list, requested, addOk, k) && List(head, Added(list, requested, addOk, k + 1))
    ensures pipe.live <==> Survives(list, requested, addOk, k + 1, k)
  {
    hide HasId;
    NotYetAdded(list, requested, addOk, k, k);
    PipeFree(pipe);
  }

  method Watch(head: Pipe?, pipe: Pipe, ghost list: seq<Pipe>, ghost requested: seq<Pipe>, ghost addOk: seq<bool>, ghost k: nat)
    returns (newHead: Pipe)
    requires k < |requested| == |addOk| && pipe == requested[k] && Separate(list, requested)
    requires Adding(head, list, requested, addOk, k)
    requires k <= PIPE_MAX_WATCH && !HasId(Added(list, requested, addOk, k), pipe.id) && addOk[k]
    modifies pipe`next
    ensures Rest(list, requested, addOk, k) && List(newHead, Added(list, requested, addOk, k + 1))
    ensures pipe.live <==> Survives(list, requested, addOk, k + 1, k)
  {
    hide HasId;
    NotYetAdded(list, requested, addOk, k, k);
    newHead := Push(head, pipe, Added(list, requested, addOk, k));
  }

  lemma AddingStarts(head: Pipe?, pipelist: Pipe?, list: seq<Pipe>, requested: seq<Pipe>, addOk: seq<bool>)
    requires List(head, list) && List(pipelist, requested) && |requested| == |addOk|
    ensures Adding(head, list, requested, addOk, 0) && pipelist == At(requested, 0)
  {
  }

  /** Phase 2: looks at every requested pipe once. */
  method AddNew(list: Pipe?, pipelist: Pipe?, addOk: seq<bool>, ghost wanted: seq<Pipe>, ghost requested: seq<Pipe>)
    returns (newList: Pipe?)
    requires List(list, wanted) && List(pipelist, requested) && |requested| == |addOk| && Separate(wanted, requested)
    modifies requested
    ensures Adding(newList, wanted, requested, addOk, |requested|)
  {
    hide Adding, List, Separate;
    AddingStarts(list, pipelist, wanted, requested, addOk);
    newList := list;
    var pipe, count := pipelist, 0;
    while pipe != null
      invariant 0 <= count <= |requested| && pipe == At(requested, count)
      invariant Adding(newList, wanted, requested, addOk, count)
      decreases |requested| - count
    {
      newList, pipe := AddOne(newList, pipe, wanted, requested, addOk, count);
      count := count + 1;
    }
  }

  class Watcher {
    var watchList: Pipe?
    ghost var watched: seq<Pipe>

    ghost predicate Valid()
      reads this, watched
    {
      List(watchList, watched) && UniqueIds(watched)
    }

    /** pipe_watch_update.  `addOk[k]` is whether watch_add() succeeds for the
        requested pipe at position k.  Afterwards the list is live and has unique
        ids; of the nodes of both lists, exactly those in it are alive, except the
        ones for which watch_add() failed, which are neither kept nor freed. */
    method PipeWatchUpdate(pipelist: Pipe?, addOk: seq<bool>, ghost requested: seq<Pipe>)
      requires Valid() && List(pipelist, requested) && |requested| == |addOk|
      requires forall i :: 0 <= i < |requested| ==> requested[i] !in watched
      modifies this, watched, requested
      ensures Valid() && watched == Updated(old(watched), requested, addOk)
      ensures forall i :: 0 <= i < |old(watched)| ==> (old(watched)[i].live <==> old(watched)[i] in watched)
      ensures forall k {:trigger requested[k].live} :: 0 <= k < |requested| ==>
                (requested[k].live <==>
                  requested[k] in watched || Abandoned(Wanted(old(watched), requested), requested, addOk, k))
    {
      ghost var before, wanted := watched, Wanted(watched, requested);
      WantedUnique(before, requested);
      WantedSpec(before, requested);
      hide UniqueIds, HasId, Wanted, Added, Abandoned;
      watchList := DropUnwanted(watchList, pipelist, before, requested);
      assert Separate(wanted, requested) by {
        SeparateFromWanted(before, pipelist, requested);
      }
      watchList := AddNew(watchList, pipelist, addOk, wanted, requested);
      watched := Added(wanted, requested, addOk, |requested|);
      AddedUnique(wanted, requested, addOk, |requested|);
      forall i | 0 <= i < |before|
        ensures before[i] in wanted <==> before[i] in watched
      {
        OldStays(before, requested, addOk, i);
      }
    }
  }

  lemma SeparateFromWanted(watched: seq<Pipe>, pipelist: Pipe?, requested: seq<Pipe>)
    requires List(pipelist, requested) && forall i :: 0 <= i < |requested| ==> requested[i] !in watched
    ensures Separate(Wanted(watched, requested), requested)
  {
    WantedSpec(watched, requested);
    hide Wanted, HasId;
  }

  /** Phase 2 neither removes nor brings back a watched pipe. */
  lemma OldStays(watched: seq<Pipe>, requested: seq<Pipe>, addOk: seq<bool>, i: nat)
    requires |requested| == |addOk| && i < |watched|
    requires forall k :: 0 <= k < |requested| ==> requested[k] !in watched
    ensures watched[i] in Wanted(watched, requested) <==> watched[i] in Updated(watched, requested, addOk)
  {
    hide Wanted, HasId;
    OldStaysAt(Wanted(watched, requested), requested, addOk, |requested|, watched[i]);
  }

  lemma {:induction false} OldStaysAt(list: seq<Pipe>, requested: seq<Pipe>, addOk: seq<bool>, k: nat, p: Pipe)
    requires k <= |requested| == |addOk| && forall j :: 0 <= j < |requested| ==> requested[j] != p
    ensures p in list <==> p in Added(list, requested, addOk, k)
  {
    hide HasId;
    if k > 0 {
      OldStaysAt(list, requested, addOk, k - 1, p);
    }
  }
}
