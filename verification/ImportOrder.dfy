/** orderImportTasks: a depth-first search along parent references that puts every task after
    its parent, or finds out why that cannot be done. */
module ImportOrder {
  import opened Domain
  import opened Document
  import opened Sequences

  datatype OrderError = DuplicateId | MissingParent | ParentCycle

  ghost predicate DistinctIds(tasks: seq<DocTask>) {
    forall i, j | 0 <= i < j < |tasks| :: tasks[i].id != tasks[j].id
  }

  predicate HasId(tasks: seq<DocTask>, id: DocId) { exists t :: t in tasks && t.id == id }

  ghost predicate ParentsPresent(tasks: seq<DocTask>) {
    forall t | t in tasks && Given(t.parent) :: HasId(tasks, t.parent.value)
  }

  /** y is n parent references away from x. */
  ghost predicate Ancestor(tasks: set<DocTask>, x: DocId, y: DocId, n: nat)
    decreases n
  {
    if n == 0 then x == y
    else exists t :: t in tasks && t.id == x && Given(t.parent) && Ancestor(tasks, t.parent.value, y, n - 1)
  }

  ghost predicate Cyclic(tasks: set<DocTask>) { exists x, n: nat :: n > 0 && Ancestor(tasks, x, x, n) }

  /** Each task comes after its parent. */
  ghost predicate ParentsFirst(q: seq<DocTask>) {
    forall i | 0 <= i < |q| && Given(q[i].parent) :: HasId(q[..i], q[i].parent.value)
  }

  ghost predicate Up(byId: map<DocId, DocTask>, id: DocId, parent: DocId) {
    id in byId && Given(byId[id].parent) && byId[id].parent.value == parent
  }

  function Following(stack: seq<DocId>, i: nat, next: DocId): DocId {
    if i + 1 < |stack| then stack[i + 1] else next
  }

  /** A list of ids, each the child of the one after it, and the last the child of `next`. */
  ghost predicate Path(byId: map<DocId, DocTask>, stack: seq<DocId>, next: DocId) {
    NoRepeats(stack) && forall i | 0 <= i < |stack| :: Up(byId, stack[i], Following(stack, i, next))
  }

  /** The index the search works on: every task under its own id. */
  ghost predicate Indexed(byId: map<DocId, DocTask>) { forall id | id in byId :: byId[id].id == id }

  lemma PathStep(byId: map<DocId, DocTask>, stack: seq<DocId>, next: DocId, k: nat)
    requires Indexed(byId) && Path(byId, stack, next) && k < |stack|
    ensures stack[k] in byId && byId[stack[k]].id == stack[k]
    ensures Given(byId[stack[k]].parent) && byId[stack[k]].parent.value
            == if k + 1 < |stack| then stack[k + 1] else next
  {
    assert Up(byId, stack[k], Following(stack, k, next));
  }

  lemma {:induction false} PathIsAncestry(byId: map<DocId, DocTask>, stack: seq<DocId>, next: DocId, k: nat)
    requires Indexed(byId) && Path(byId, stack, next) && k <= |stack|
    ensures Ancestor(byId.Values, if k < |stack| then stack[k] else next, next, |stack| - k)
    decreases |stack| - k
  {
    hide Path, Indexed;
    if k < |stack| {
      PathIsAncestry(byId, stack, next, k + 1);
      PathStep(byId, stack, next, k);
      assert byId[stack[k]] in byId.Values;
    }
  }

  /** What the finished part of the result satisfies. */
  ghost predicate Placed(byId: map<DocId, DocTask>, ordered: seq<DocTask>, visited: set<DocId>) {
    && DistinctIds(ordered) && ParentsFirst(ordered)
    && (forall t | t in ordered :: t.id in byId && byId[t.id] == t)
    && (forall id :: id in visited <==> HasId(ordered, id))
  }

  lemma PlaceNext(byId: map<DocId, DocTask>, ordered: seq<DocTask>, visited: set<DocId>, t: DocTask)
    requires Placed(byId, ordered, visited) && t.id in byId && byId[t.id] == t && t.id !in visited
    requires Given(t.parent) ==> t.parent.value in visited
    ensures Placed(byId, ordered + [t], visited + {t.id})
  {
    var q := ordered + [t];
    assert forall i | 0 <= i < |ordered| :: ordered[i] in ordered;
    forall i | 0 <= i < |q| && Given(q[i].parent) ensures HasId(q[..i], q[i].parent.value) {
      if i < |ordered| {
        assert q[..i] == ordered[..i];
      } else {
        assert q[..i] == ordered;
      }
    }
    forall id ensures id in visited + {t.id} <==> HasId(q, id) {
      if HasId(ordered, id) {
        var u :| u in ordered && u.id == id;
        assert u in q;
      }
      if id == t.id { assert t in q; }
      if HasId(q, id) && id != t.id {
        var u :| u in q && u.id == id;
        assert u in ordered;
      }
    }
  }

  lemma PathGrows(byId: map<DocId, DocTask>, stack: seq<DocId>, t: DocTask)
    requires Path(byId, stack, t.id) && t.id in byId && byId[t.id] == t && Given(t.parent) && t.id !in stack
    ensures Path(byId, stack + [t.id], t.parent.value)
  {
    var more := stack + [t.id];
    forall i | 0 <= i < |more| ensures Up(byId, more[i], Following(more, i, t.parent.value)) {
      if i < |stack| {
        assert Up(byId, stack[i], Following(stack, i, t.id));
      }
    }
  }

  class ParentSearch {
    var visiting: set<DocId>
    var visited: set<DocId>
    var ordered: seq<DocTask>

    constructor ()
      ensures visiting == {} && visited == {} && ordered == []
    {
      visiting, visited, ordered := {}, {}, [];
    }

    /** Visits a task after its parent. `stack` is the search path that led here. */
    method Visit(byId: map<DocId, DocTask>, t: DocTask, ghost stack: seq<DocId>) returns (failed: Option<OrderError>)
      requires Indexed(byId) && t.id in byId && byId[t.id] == t
      requires Path(byId, stack, t.id) && visiting == Elements(stack) && Placed(byId, ordered, visited)
      requires visiting !! visited
      modifies this
      ensures failed.None? ==>
                && visiting == old(visiting) && Placed(byId, ordered, visited)
                && old(visited) + {t.id} <= visited && visiting !! visited
      ensures failed == Some(MissingParent) ==>
                exists u :: u in byId.Values && Given(u.parent) && u.parent.value !in byId
      ensures failed == Some(ParentCycle) ==> Cyclic(byId.Values)
      ensures failed != Some(DuplicateId)
      decreases |byId| - |stack|
    {
      if t.id in visited { return None; }
      if t.id in visiting {
        ghost var k :| 0 <= k < |stack| && stack[k] == t.id;
        PathIsAncestry(byId, stack, t.id, k);
        return Some(ParentCycle);
      }
      visiting := visiting + {t.id};
      if Given(t.parent) {
        if t.parent.value !in byId {
          assert byId[t.id] in byId.Values;
          return Some(MissingParent);
        }
        StackFits(byId, stack, t.id);
        PathGrows(byId, stack, t);
        assert Elements(stack + [t.id]) == visiting;
        failed := Visit(byId, byId[t.parent.value], stack + [t.id]);
        if failed.Some? { return; }
      }
      visiting := visiting - {t.id};
      PlaceNext(byId, ordered, visited, t);
      visited := visited + {t.id};
      ordered := ordered + [t];
      failed := None;
    }
  }

  lemma StackFits(byId: map<DocId, DocTask>, stack: seq<DocId>, id: DocId)
    requires Path(byId, stack, id) && id in byId && id !in stack
    ensures |stack| < |byId|
  {
    NoRepeatsSize(stack);
    assert Elements(stack) + {id} <= byId.Keys;
    SubsetSize(Elements(stack) + {id}, byId.Keys);
  }

  // ----- The whole ordering -----

  ghost predicate WellParented(tasks: seq<DocTask>) {
    DistinctIds(tasks) && ParentsPresent(tasks) && !Cyclic(Elements(tasks))
  }

  /** The first step up from place i, and where it leads. */
  lemma ParentPlace(q: seq<DocTask>, i: nat, y: DocId, n: nat) returns (j: nat)
    requires DistinctIds(q) && ParentsFirst(q) && i < |q| && n > 0 && Ancestor(Elements(q), q[i].id, y, n)
    ensures j < i && Ancestor(Elements(q), q[j].id, y, n - 1)
  {
    var t :| t in Elements(q) && t.id == q[i].id && Given(t.parent) && Ancestor(Elements(q), t.parent.value, y, n - 1);
    var k :| 0 <= k < |q| && q[k] == t;
    assert k == i;
    var u :| u in q[..i] && u.id == t.parent.value;
    j :| 0 <= j < i && q[j] == u;
  }

  /** With every task after its parent, going up always goes left: there is no cycle. */
  lemma {:induction false} AncestorsLeft(q: seq<DocTask>, i: nat, y: DocId, n: nat) returns (k: int)
    requires DistinctIds(q) && ParentsFirst(q) && i < |q| && Ancestor(Elements(q), q[i].id, y, n)
    ensures 0 <= k <= i - n && q[k].id == y
    decreases n
  {
    if n == 0 {
      k := i;
    } else {
      hide *;
      var j := ParentPlace(q, i, y, n);
      k := AncestorsLeft(q, j, y, n - 1);
    }
  }

  lemma OrderedIsAcyclic(q: seq<DocTask>)
    requires DistinctIds(q) && ParentsFirst(q)
    ensures !Cyclic(Elements(q))
  {
    forall x, n: nat | n > 0 && Ancestor(Elements(q), x, x, n) ensures false {
      var t :| t in q && t.id == x && Given(t.parent) && Ancestor(Elements(q), t.parent.value, x, n - 1);
      var i :| 0 <= i < |q| && q[i] == t;
      var k := AncestorsLeft(q, i, x, n);
    }
  }

  /** Two listings of the same elements, neither with a repeat, are permutations. */
  lemma SameElementsPermute<T>(p: seq<T>, q: seq<T>)
    requires NoRepeats(p) && NoRepeats(q) && Elements(p) == Elements(q)
    ensures multiset(p) == multiset(q)
  {
    forall x ensures multiset(p)[x] == multiset(q)[x] {
      if x in Elements(p) {
        var i :| 0 <= i < |p| && p[i] == x;
        var j :| 0 <= j < |q| && q[j] == x;
        OnceInMultiset(p, i);
        OnceInMultiset(q, j);
      } else {
        assert x !in p && x !in q;
      }
    }
  }

  /** The index of these tasks, which have distinct ids. */
  ghost predicate IsIndex(tasks: seq<DocTask>, byId: map<DocId, DocTask>) {
    && DistinctIds(tasks) && Indexed(byId)
    && (forall t | t in tasks :: t.id in byId && byId[t.id] == t)
    && (forall id | id in byId :: byId[id] in tasks)
  }

  lemma IndexOneMore(tasks: seq<DocTask>, byId: map<DocId, DocTask>, t: DocTask)
    requires IsIndex(tasks, byId)
    ensures t.id in byId ==> !DistinctIds(tasks + [t])
    ensures t.id !in byId ==> IsIndex(tasks + [t], byId[t.id := t])
  {
    var more := tasks + [t];
    if t.id in byId {
      var k :| 0 <= k < |tasks| && tasks[k] == byId[t.id];
      assert more[k].id == more[|tasks|].id;
    } else {
      forall k | 0 <= k < |tasks| ensures tasks[k].id != t.id { assert tasks[k] in tasks; }
    }
  }

  lemma DistinctPrefix(tasks: seq<DocTask>, n: nat)
    requires n <= |tasks| && DistinctIds(tasks)
    ensures DistinctIds(tasks[..n])
  {
  }

  lemma IndexIsWhole(tasks: seq<DocTask>, byId: map<DocId, DocTask>)
    requires IsIndex(tasks, byId)
    ensures DistinctIds(tasks) && Indexed(byId)
    ensures byId.Values == Elements(tasks) && forall id :: id in byId <==> HasId(tasks, id)
  {
    forall t | t in tasks ensures t in byId.Values { assert byId[t.id] in byId.Values; }
    forall id ensures id in byId <==> HasId(tasks, id) {
      if id in byId { assert byId[id] in tasks; }
    }
  }

  /** The index of the tasks, unless an id occurs twice. */
  method IndexTasks(tasks: seq<DocTask>) returns (r: Result<map<DocId, DocTask>, OrderError>)
    ensures r.Ok? <==> DistinctIds(tasks)
    ensures r.Err? ==> r.error == DuplicateId
    ensures r.Ok? ==>
              Indexed(r.value) && r.value.Values == Elements(tasks) && forall id :: id in r.value <==> HasId(tasks, id)
  {
    var byId: map<DocId, DocTask> := map[];
    assert IsIndex(tasks[..0], byId);
    hide *;
    for i := 0 to |tasks|
      invariant IsIndex(tasks[..i], byId)
    {
      assert tasks[..i + 1] == tasks[..i] + [tasks[i]];
      IndexOneMore(tasks[..i], byId, tasks[i]);
      if DistinctIds(tasks) { DistinctPrefix(tasks, i + 1); }
      if tasks[i].id in byId { return Err(DuplicateId); }
      byId := byId[tasks[i].id := tasks[i]];
    }
    assert tasks[..|tasks|] == tasks;
    IndexIsWhole(tasks, byId);
    r := Ok(byId);
  }

  /** Succeeds exactly when ids are distinct, every named parent is present and parent
      references do not run in a circle; the result is a permutation with parents first. */
  method OrderImportTasks(tasks: seq<DocTask>) returns (r: Result<seq<DocTask>, OrderError>)
    ensures r.Ok? <==> WellParented(tasks)
    ensures r.Ok? ==> multiset(r.value) == multiset(tasks) && ParentsFirst(r.value)
    ensures r == Err(DuplicateId) <==> !DistinctIds(tasks)
    ensures r == Err(MissingParent) ==> !ParentsPresent(tasks)
    ensures r == Err(ParentCycle) ==> Cyclic(Elements(tasks))
  {
    var indexed := IndexTasks(tasks);
    if indexed.Err? { return Err(DuplicateId); }
    var byId := indexed.value;
    var search := new ParentSearch();
    assert Placed(byId, search.ordered, search.visited);
    for i := 0 to |tasks|
      invariant search.visiting == {} && Placed(byId, search.ordered, search.visited)
      invariant forall k | 0 <= k < i :: tasks[k].id in search.visited
    {
      assert HasId(tasks, tasks[i].id);
      assert byId[tasks[i].id] == tasks[i] by {
        assert byId[tasks[i].id] in byId.Values;
        var k :| 0 <= k < |tasks| && tasks[k] == byId[tasks[i].id];
      }
      var failed := search.Visit(byId, tasks[i], []);
      if failed.Some? {
        if failed == Some(MissingParent) {
          var u :| u in byId.Values && Given(u.parent) && u.parent.value !in byId;
          assert u in tasks && !HasId(tasks, u.parent.value);
          assert !ParentsPresent(tasks);
        } else {
          match failed.value { case ParentCycle => case MissingParent => case DuplicateId => }
          assert failed == Some(ParentCycle) && Cyclic(byId.Values) && byId.Values == Elements(tasks);
        }
        return Err(failed.value);
      }
    }
    AllPlaced(tasks, byId, search.ordered, search.visited);
    r := Ok(search.ordered);
  }

  lemma AllPlaced(tasks: seq<DocTask>, byId: map<DocId, DocTask>, ordered: seq<DocTask>, visited: set<DocId>)
    requires DistinctIds(tasks) && Indexed(byId) && byId.Values == Elements(tasks) && Placed(byId, ordered, visited)
    requires forall k | 0 <= k < |tasks| :: tasks[k].id in visited
    ensures WellParented(tasks) && multiset(ordered) == multiset(tasks) && ParentsFirst(ordered)
  {
    forall t | t in ordered ensures t in tasks { assert byId[t.id] in byId.Values; }
    forall t | t in tasks ensures t in ordered {
      var k :| 0 <= k < |tasks| && tasks[k] == t;
      var u :| u in ordered && u.id == t.id;
      assert u in tasks;
      var j :| 0 <= j < |tasks| && tasks[j] == u;
    }
    assert Elements(tasks) == Elements(ordered);
    SameElementsPermute(ordered, tasks);
    OrderedIsAcyclic(ordered);
    forall t | t in tasks && Given(t.parent) ensures HasId(tasks, t.parent.value) {
      var i :| 0 <= i < |ordered| && ordered[i] == t;
      var u :| u in ordered[..i] && u.id == t.parent.value;
      assert u in ordered && u in tasks;
    }
  }
}
