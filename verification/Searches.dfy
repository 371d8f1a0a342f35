/** The graph searches of the server: longest chain, downstream count and bottleneck ranking. */
module Searches {
  import opened Domain
  import opened Graph
  import opened Sequences

  const MAX_GRAPH_DEPTH := 50

  /** The tasks `id` effectively blocks: its own blocks rows first, then the blocked_by
      rows of others. A task listed in both ways is listed twice. */
  method BlocksTargets(db: Db, id: Id) returns (targets: seq<Id>)
    ensures forall t :: t in targets <==> EffectivelyBlocks(db.rows, id, t)
  {
    targets := [];
    var source := Rows(set r | r in db.rows && r.source == id);
    for i := 0 to |source|
      invariant forall t :: t in targets <==> Row(id, t, Blocks) in source[..i]
    {
      assert source[..i + 1] == source[..i] + [source[i]];
      assert source[i] in source;
      if source[i].kind == Blocks {
        targets := targets + [source[i].target];
      }
    }
    assert source[..|source|] == source;
    var target := Rows(set r | r in db.rows && r.target == id);
    for i := 0 to |target|
      invariant forall t :: t in targets <==> Row(id, t, Blocks) in db.rows || Row(t, id, BlockedBy) in target[..i]
    {
      assert target[..i + 1] == target[..i] + [target[i]];
      assert target[i] in target;
      if target[i].kind == BlockedBy {
        targets := targets + [target[i].source];
      }
    }
    assert target[..|target|] == target;
  }

  /** The tasks that effectively block `id`, read off the same rows the other way round. */
  method BlockerTargets(db: Db, id: Id) returns (targets: seq<Id>)
    ensures forall t :: t in targets <==> EffectivelyBlocks(db.rows, t, id)
  {
    targets := [];
    var source := Rows(set r | r in db.rows && r.source == id);
    for i := 0 to |source|
      invariant forall t :: t in targets <==> Row(id, t, BlockedBy) in source[..i]
    {
      assert source[..i + 1] == source[..i] + [source[i]];
      assert source[i] in source;
      if source[i].kind == BlockedBy {
        targets := targets + [source[i].target];
      }
    }
    assert source[..|source|] == source;
    var target := Rows(set r | r in db.rows && r.target == id);
    for i := 0 to |target|
      invariant forall t :: t in targets <==> Row(id, t, BlockedBy) in db.rows || Row(t, id, Blocks) in target[..i]
    {
      assert target[..i + 1] == target[..i] + [target[i]];
      assert target[i] in target;
      if target[i].kind == Blocks {
        targets := targets + [target[i].source];
      }
    }
    assert target[..|target|] == target;
  }

  // ----- The longest blocks chain -----

  /** The tasks marked as on the current search path. */
  class PathMarks {
    var onStack: set<Id>

    constructor ()
      ensures onStack == {}
    {
      onStack := {};
    }
  }

  ghost predicate Avoids(p: seq<Id>, s: set<Id>) { forall i | 0 <= i < |p| :: p[i] !in s }

  /** A chain the search may return from `id`: it avoids the marked tasks and has at most
      `room` of them. */
  ghost predicate Candidate(db: Db, id: Id, marked: set<Id>, room: int, p: seq<Id>) {
    p != [] && p[0] == id && Chain(db, p) && Avoids(p, marked) && |p| <= room
  }

  lemma CandidateTail(db: Db, id: Id, marked: set<Id>, room: int, p: seq<Id>)
    requires Candidate(db, id, marked, room, p) && |p| > 1
    ensures Candidate(db, p[1], marked + {id}, room - 1, p[1..])
    ensures EffectivelyBlocks(db.rows, id, p[1])
  {
    var q := p[1..];
    assert forall i | 0 <= i < |q| :: q[i] == p[i + 1];
    forall i | 0 <= i < |q| - 1 ensures EffectivelyBlocks(db.rows, q[i], q[i + 1]) {
      assert q[i] == p[i + 1] && q[i + 1] == p[(i + 1) + 1];
    }
  }

  lemma CandidateCons(db: Db, id: Id, next: Id, marked: set<Id>, room: int, q: seq<Id>)
    requires id in db.tasks && id !in marked && EffectivelyBlocks(db.rows, id, next)
    requires Candidate(db, next, marked + {id}, room - 1, q)
    ensures Candidate(db, id, marked, room, [id] + q)
  {
    var p := [id] + q;
    assert forall i | 0 < i < |p| :: p[i] == q[i - 1];
    forall i | 0 <= i < |p| - 1 ensures EffectivelyBlocks(db.rows, p[i], p[i + 1]) {
      if i > 0 { assert EffectivelyBlocks(db.rows, q[i - 1], q[i]); }
    }
  }

  method FindLongestBlocksChain(db: Db, id: Id, marks: PathMarks, depth: nat) returns (path: seq<Id>)
    requires depth <= MAX_GRAPH_DEPTH
    modifies marks
    ensures marks.onStack == old(marks.onStack)
    ensures path != [] ==> Candidate(db, id, marks.onStack, MAX_GRAPH_DEPTH - depth, path)
    ensures forall p :: Candidate(db, id, marks.onStack, MAX_GRAPH_DEPTH - depth, p) ==> |p| <= |path|
    decreases MAX_GRAPH_DEPTH - depth
  {
    ghost var marked := marks.onStack;
    ghost var room := MAX_GRAPH_DEPTH - depth;
    if id in marks.onStack || depth >= MAX_GRAPH_DEPTH {
      return [];
    }
    marks.onStack := marks.onStack + {id};
    if id !in db.tasks {
      marks.onStack := marks.onStack - {id};
      return [];
    }
    var targets := BlocksTargets(db, id);
    var longest: seq<Id> := [];
    for i := 0 to |targets|
      invariant marks.onStack == marked + {id}
      invariant longest != [] ==>
          EffectivelyBlocks(db.rows, id, longest[0]) && Candidate(db, longest[0], marked + {id}, room - 1, longest)
      invariant forall k, p | 0 <= k < i && Candidate(db, targets[k], marked + {id}, room - 1, p) :: |p| <= |longest|
    {
      var child := FindLongestBlocksChain(db, targets[i], marks, depth + 1);
      if |child| > |longest| {
        longest := child;
      }
    }
    path := [id] + longest;
    marks.onStack := marks.onStack - {id};
    if longest != [] {
      CandidateCons(db, id, longest[0], marked, room, longest);
    }
    forall p | Candidate(db, id, marked, room, p) ensures |p| <= |path| {
      if |p| > 1 {
        CandidateTail(db, id, marked, room, p);
        var k :| 0 <= k < |targets| && targets[k] == p[1];
        assert Candidate(db, targets[k], marked + {id}, room - 1, p[1..]);
      }
    }
  }

  /** The search behind GetCriticalPath: the first longest chain over all starting tasks. */
  method CriticalPath(db: Db, starts: seq<Id>) returns (path: seq<Id>)
    ensures Chain(db, path) && |path| <= MAX_GRAPH_DEPTH
    ensures path != [] ==> path[0] in starts
    ensures forall p | Chain(db, p) && p != [] && p[0] in starts && |p| <= MAX_GRAPH_DEPTH :: |p| <= |path|
  {
    path := [];
    for i := 0 to |starts|
      invariant Chain(db, path) && |path| <= MAX_GRAPH_DEPTH
      invariant path != [] ==> path[0] in starts
      invariant forall k, p | 0 <= k < i && Candidate(db, starts[k], {}, MAX_GRAPH_DEPTH, p) :: |p| <= |path|
    {
      var marks := new PathMarks();
      var found := FindLongestBlocksChain(db, starts[i], marks, 0);
      if |found| > |path| {
        path := found;
      }
    }
    forall p | Chain(db, p) && p != [] && p[0] in starts && |p| <= MAX_GRAPH_DEPTH ensures |p| <= |path| {
      var k :| 0 <= k < |starts| && starts[k] == p[0];
      assert Candidate(db, starts[k], {}, MAX_GRAPH_DEPTH, p);
    }
  }

  // ----- Searches with a shared visited set -----

  class Visited {
    var ids: set<Id>

    constructor (start: set<Id>)
      ensures ids == start
    {
      ids := start;
    }
  }

  /** All successors of `from` are visited. */
  ghost predicate Expanded(e: Edges, from: set<Id>, visited: set<Id>) {
    forall p | p in e :: p.0 in from ==> p.1 in visited
  }

  /** Marking t and then everything its own search marked keeps the marked part expanded. */
  lemma ExpandedGrows(e: Edges, before: set<Id>, sofar: set<Id>, t: Id, after: set<Id>)
    requires before <= sofar && t !in sofar && sofar + {t} <= after
    requires Expanded(e, sofar - before, sofar)
    requires Expanded(e, after - (sofar + {t}) + {t}, after)
    ensures Expanded(e, after - before, after)
  {
  }

  lemma CountGrows(before: set<Id>, sofar: set<Id>, t: Id, after: set<Id>)
    requires before <= sofar && t !in sofar && sofar + {t} <= after
    ensures |after - before| == |sofar - before| + 1 + |after - (sofar + {t})|
  {
    assert after - before == (sofar - before) + {t} + (after - (sofar + {t}));
  }

  /** What a search from `id` has marked so far: only reachable tasks, and an exact search has
      marked all successors of what it marked. */
  ghost predicate Explored(e: Edges, id: Id, before: set<Id>, now: set<Id>, exact: bool) {
    && before <= now && (forall x | x in now - before :: Reach(e, id, x))
    && (exact ==> Expanded(e, now - before, now))
  }

  lemma NothingExplored(db: Db, id: Id, ids: set<Id>, exact: bool)
    requires db.ForeignKeys()
    ensures Explored(BlocksEdges(db.rows), id, ids, ids, exact)
    ensures id !in db.tasks ==> Expanded(BlocksEdges(db.rows), {id}, ids)
  {
  }

  /** One more successor, with everything its own search marked. */
  lemma ExploredMore(e: Edges, id: Id, before: set<Id>, sofar: set<Id>, t: Id, after: set<Id>, exact: bool)
    requires Explored(e, id, before, sofar, exact) && (id, t) in e && t !in sofar
    requires Explored(e, t, sofar + {t}, after, exact) && (exact ==> Expanded(e, after - (sofar + {t}) + {t}, after))
    ensures Explored(e, id, before, after, exact)
    ensures |after - before| == |sofar - before| + 1 + |after - (sofar + {t})|
  {
    CountGrows(before, sofar, t, after);
    ReachSelf(e, t);
    forall x | x in after - before ensures Reach(e, id, x) {
      if x !in sofar { ReachStep(e, id, t, x); }
    }
    if exact { ExpandedGrows(e, before, sofar, t, after); }
  }

  lemma AllExplored(db: Db, id: Id, before: set<Id>, now: set<Id>, exact: bool)
    requires Explored(BlocksEdges(db.rows), id, before, now, exact)
    requires forall t | EffectivelyBlocks(db.rows, id, t) :: t in now
    ensures exact ==> Expanded(BlocksEdges(db.rows), now - before + {id}, now)
  {
  }

  /** The path has room for one more task. */
  lemma PathGrows(e: Edges, path: seq<Id>, t: Id)
    requires Trail(e, path) && path != [] && Joined(e, path[|path| - 1], t) && t !in Elements(path)
    ensures Trail(e, path + [t]) && Elements(path + [t]) == Elements(path) + {t} && (path + [t])[0] == path[0]
  {
    assert t in path ==> t in Elements(path);
    TrailGrows(e, path, t);
  }

  lemma PathFits(e: Edges, path: seq<Id>, limit: nat)
    requires Trail(e, path) && path != []
    ensures Short(e, path[0], limit) ==> |path| <= limit
  {
  }

  method CountDownstream(db: Db, id: Id, visited: Visited, depth: nat, ghost path: seq<Id>)
    returns (count: nat)
    requires db.ForeignKeys() && depth <= MAX_GRAPH_DEPTH
    requires |path| == depth + 1 && path[depth] == id && Elements(path) <= visited.ids
    requires Trail(BlocksEdges(db.rows), path)
    modifies visited
    ensures count == |visited.ids - old(visited.ids)|
    ensures var e, exact := BlocksEdges(db.rows), Short(BlocksEdges(db.rows), path[0], MAX_GRAPH_DEPTH);
            && Explored(e, id, old(visited.ids), visited.ids, exact)
            && (exact ==> Expanded(e, visited.ids - old(visited.ids) + {id}, visited.ids))
    decreases MAX_GRAPH_DEPTH - depth
  {
    hide Explored, Expanded, Short, Trail, Elements;
    ghost var e := BlocksEdges(db.rows);
    ghost var before := visited.ids;
    ghost var exact := Short(e, path[0], MAX_GRAPH_DEPTH);
    PathFits(e, path, MAX_GRAPH_DEPTH);
    NothingExplored(db, id, before, exact);
    assert before - before == {};
    if depth >= MAX_GRAPH_DEPTH {
      return 0;
    }
    if id !in db.tasks {
      assert {} + {id} == {id};
      return 0;
    }
    count := 0;
    var targets := BlocksTargets(db, id);
    for i := 0 to |targets|
      invariant before <= visited.ids && forall k | 0 <= k < i :: targets[k] in visited.ids
      invariant count == |visited.ids - before|
      invariant Explored(e, id, before, visited.ids, exact)
    {
      var t := targets[i];
      if t !in visited.ids {
        ghost var sofar := visited.ids;
        assert (id, t) in e;
        PathGrows(e, path, t);
        visited.ids := visited.ids + {t};
        var more := CountDownstream(db, t, visited, depth + 1, path + [t]);
        count := count + 1 + more;
        ExploredMore(e, id, before, sofar, t, visited.ids, exact);
        ExploredKeeps(e, t, sofar + {t}, visited.ids, exact);
      }
    }
    AllExplored(db, id, before, visited.ids, exact);
  }

  lemma ExploredKeeps(e: Edges, id: Id, before: set<Id>, now: set<Id>, exact: bool)
    requires Explored(e, id, before, now, exact)
    ensures before <= now
  {
  }

  /** A count the downstream search may report: never more than the true number of distinct
      transitive dependents, and exactly that number when no repeat-free chain from the task is
      longer than the depth limit, however many tasks there are. */
  ghost predicate Counted(db: Db, id: Id, n: nat) {
    var all := ReachSet(BlocksEdges(db.rows), id);
    n <= |all - {id}| && (Short(BlocksEdges(db.rows), id, MAX_GRAPH_DEPTH) ==> n == |all - {id}|)
  }

  /** In particular the count is exact when at most as many tasks are reachable. */
  lemma CountedOfFew(db: Db, id: Id, n: nat)
    requires Counted(db, id, n) && |ReachSet(BlocksEdges(db.rows), id)| <= 50
    ensures n == |ReachSet(BlocksEdges(db.rows), id) - {id}|
  {
    FewAreShort(BlocksEdges(db.rows), id, MAX_GRAPH_DEPTH);
  }

  /** The count GetBottlenecks reports for a task. */
  method Downstream(db: Db, root: Id) returns (count: nat)
    requires db.ForeignKeys()
    ensures Counted(db, root, count)
  {
    ghost var e := BlocksEdges(db.rows);
    ghost var all := ReachSet(e, root);
    var visited := new Visited({root});
    ghost var start := visited.ids;
    count := CountDownstream(db, root, visited, 0, [root]);
    ghost var found := visited.ids - start;
    forall x | x in found ensures x in all {
      assert Reach(e, root, x);
    }
    SubsetSize(found, all - {root});
    if Short(e, root, MAX_GRAPH_DEPTH) {
      forall x | x in all ensures x in visited.ids {
        var n: nat :| Walk(e, root, x, n);
        ClosedHoldsWalk(e, visited.ids, root, x, n);
      }
      assert found == all - {root};
    }
  }

  // ----- The tasks a collection-wide search starts from -----

  const MAX_GRAPH_TASKS := 500

  /** The graph searches look at tasks of one collection that are not closed. */
  function OpenTasks(db: Db, collection: Id): set<Id> {
    set id | id in db.tasks && db.tasks[id].collection == collection && db.tasks[id].phase != Closed
  }

  function OfPhases(db: Db, collection: Id, phases: set<Phase>): set<Id> {
    set id | id in db.tasks && db.tasks[id].collection == collection && db.tasks[id].phase in phases
  }

  /** One more phase's tasks, never more than the limit in all. */
  method LoadPhase(db: Db, collection: Id, tasks: seq<Id>, phase: Phase, ghost done: set<Phase>) returns (more: seq<Id>)
    requires Partial(tasks, OfPhases(db, collection, done)) && phase !in done
    ensures Partial(more, OfPhases(db, collection, done + {phase}))
  {
    var now := OfPhases(db, collection, {phase});
    ghost var before, after := OfPhases(db, collection, done), OfPhases(db, collection, done + {phase});
    assert after == before + now && before !! now;
    var batch := Rows(now);
    assert Elements(batch) == now;
    var remaining := MAX_GRAPH_TASKS - |tasks|;
    if |batch| > remaining { batch := batch[..remaining]; }
    assert Elements(batch) <= now;
    NoRepeatsConcat(tasks, batch);
    more := tasks + batch;
    assert Elements(more) == Elements(tasks) + Elements(batch);
  }

  /** All of `whole`, or as many of it as the limit allows. */
  ghost predicate Partial(tasks: seq<Id>, whole: set<Id>) {
    && NoRepeats(tasks) && |tasks| <= MAX_GRAPH_TASKS && Elements(tasks) <= whole
    && (Elements(tasks) == whole || |tasks| == MAX_GRAPH_TASKS)
  }

  /** Loads the open tasks phase by phase and gives up when the limit is reached. */
  method LoadOpenTasks(db: Db, collection: Id) returns (loaded: Option<seq<Id>>)
    ensures loaded.None? <==> |OpenTasks(db, collection)| >= MAX_GRAPH_TASKS
    ensures loaded.Some? ==> Elements(loaded.value) == OpenTasks(db, collection) && NoRepeats(loaded.value)
  {
    var phases := [Open, InProgress, OnHold];
    var tasks: seq<Id> := [];
    for k := 0 to 3
      invariant Partial(tasks, OfPhases(db, collection, Elements(phases[..k])))
    {
      tasks := LoadPhase(db, collection, tasks, phases[k], Elements(phases[..k]));
      assert Elements(phases[..k + 1]) == Elements(phases[..k]) + {phases[k]};
    }
    assert phases[..3] == phases;
    assert phases[0] == Open && phases[1] == InProgress && phases[2] == OnHold;
    forall id | id in db.tasks
      ensures db.tasks[id].phase != Closed <==> db.tasks[id].phase in Elements(phases)
    {
      match db.tasks[id].phase case Open => case InProgress => case OnHold => case Closed =>
    }
    assert OfPhases(db, collection, Elements(phases)) == OpenTasks(db, collection);
    NoRepeatsSize(tasks);
    SubsetSize(Elements(tasks), OpenTasks(db, collection));
    loaded := if |tasks| >= MAX_GRAPH_TASKS then None else Some(tasks);
  }

  datatype SearchError = NoSuchTask | TooManyTasks

  predicate Start(db: Db, collection: Id, root: Option<Id>, id: Id) {
    if root.Some? then id == root.value else id in OpenTasks(db, collection)
  }

  /** GetCriticalPath: from one root, or from every open task of the collection. */
  method GetCriticalPath(db: Db, collection: Id, root: Option<Id>) returns (r: Result<seq<Id>, SearchError>)
    ensures r == Err(NoSuchTask) <==> root.Some? && root.value !in db.tasks
    ensures r == Err(TooManyTasks) <==> root.None? && |OpenTasks(db, collection)| >= 500
    ensures r.Ok? ==>
              && Chain(db, r.value) && |r.value| <= 50
              && (r.value != [] ==> Start(db, collection, root, r.value[0]))
              && forall p | Chain(db, p) && p != [] && Start(db, collection, root, p[0]) && |p| <= 50 ::
                   |p| <= |r.value|
  {
    var starts: seq<Id>;
    if root.Some? {
      if root.value !in db.tasks { return Err(NoSuchTask); }
      starts := [root.value];
    } else {
      var loaded := LoadOpenTasks(db, collection);
      if loaded.None? { return Err(TooManyTasks); }
      starts := loaded.value;
    }
    assert forall x :: x in starts <==> Start(db, collection, root, x) by {
      assert forall x :: x in starts <==> x in Elements(starts);
    }
    var path := CriticalPath(db, starts);
    r := Ok(path);
  }

  // ----- Bottlenecks -----

  datatype Bottleneck = Bottleneck(id: Id, direct: nat, downstream: nat)

  ghost predicate Descending(q: seq<Bottleneck>) {
    forall i, j | 0 <= i < j < |q| :: q[i].downstream >= q[j].downstream
  }

  /** The first i places hold the i largest counts, in order. */
  ghost predicate Settled(q: seq<Bottleneck>, i: int) {
    forall x, y | 0 <= x < i && x < y < |q| :: q[x].downstream >= q[y].downstream
  }

  /** Place i holds the largest count seen so far, up to j. */
  ghost predicate Leading(q: seq<Bottleneck>, i: int, j: int) {
    0 <= i < |q| && forall y | i < y < j && y < |q| :: q[i].downstream >= q[y].downstream
  }

  function Swapped<T>(q: seq<T>, i: nat, j: nat): seq<T>
    requires i < |q| && j < |q|
  {
    q[i := q[j]][j := q[i]]
  }

  lemma SwapLeads(q: seq<Bottleneck>, i: nat, j: nat)
    requires i < j < |q| && Settled(q, i) && Leading(q, i, j) && q[j].downstream > q[i].downstream
    ensures Settled(Swapped(q, i, j), i) && Leading(Swapped(q, i, j), i, j + 1)
  {
    var p := Swapped(q, i, j);
    forall x, y | 0 <= x < i && x < y < |p| ensures p[x].downstream >= p[y].downstream {
      assert p[x] == q[x];
      assert p[y] == (if y == i then q[j] else if y == j then q[i] else q[y]);
    }
  }

  lemma SwapPermutes<T>(q: seq<T>, i: nat, j: nat)
    requires i < j < |q|
    ensures multiset(Swapped(q, i, j)) == multiset(q)
  {
    var l, m, r := q[..i], q[i + 1..j], q[j + 1..];
    assert q == l + [q[i]] + m + [q[j]] + r;
    assert Swapped(q, i, j) == l + [q[j]] + m + [q[i]] + r;
  }

  /** The in-place exchange sort. */
  method ExchangeSort(a: array<Bottleneck>)
    modifies a
    ensures Descending(a[..])
    ensures multiset(a[..]) == multiset(old(a[..]))
  {
    for i := 0 to a.Length
      invariant multiset(a[..]) == multiset(old(a[..]))
      invariant Settled(a[..], i)
    {
      for j := i + 1 to a.Length
        invariant multiset(a[..]) == multiset(old(a[..]))
        invariant Settled(a[..], i) && Leading(a[..], i, j)
      {
        if a[j].downstream > a[i].downstream {
          ghost var q := a[..];
          SwapLeads(q, i, j);
          SwapPermutes(q, i, j);
          a[i], a[j] := a[j], a[i];
          assert a[..] == Swapped(q, i, j);
        }
      }
    }
  }

  function DirectlyBlocked(db: Db, id: Id): set<Id> {
    set p | p in BlocksEdges(db.rows) && p.0 == id :: p.1
  }

  /** Distinct direct dependents, by a seen-set over the rows. */
  method CountDirect(db: Db, id: Id) returns (direct: nat)
    ensures direct == |DirectlyBlocked(db, id)|
  {
    var targets := BlocksTargets(db, id);
    var seen: set<Id> := {};
    direct := 0;
    for i := 0 to |targets|
      invariant seen == Elements(targets[..i]) && direct == |seen|
    {
      assert targets[..i + 1] == targets[..i] + [targets[i]];
      if targets[i] !in seen {
        seen := seen + {targets[i]};
        direct := direct + 1;
      }
    }
    assert targets[..|targets|] == targets;
    forall t ensures t in seen <==> t in DirectlyBlocked(db, id) {
      assert t in DirectlyBlocked(db, id) <==> (id, t) in BlocksEdges(db.rows);
    }
    assert seen == DirectlyBlocked(db, id);
  }

  ghost predicate Entry(db: Db, b: Bottleneck, counts: map<Id, nat>) {
    b.id in counts && b.downstream == counts[b.id] && b.direct == |DirectlyBlocked(db, b.id)|
  }

  ghost predicate Listed(q: seq<Bottleneck>, id: Id) { exists b :: b in q && b.id == id }

  /** Each entry is right, and no task is listed twice. */
  ghost predicate Ranked(db: Db, q: seq<Bottleneck>, counts: map<Id, nat>) {
    && (forall b | b in q :: Entry(db, b, counts))
    && (forall i, j | 0 <= i < j < |q| :: q[i].id != q[j].id)
  }

  lemma RankedPermutes(db: Db, q: seq<Bottleneck>, p: seq<Bottleneck>, counts: map<Id, nat>)
    requires Ranked(db, q, counts) && multiset(q) == multiset(p)
    ensures Ranked(db, p, counts) && |p| == |q|
    ensures forall b :: b in p <==> b in q
  {
    assert |multiset(q)| == |q| && |multiset(p)| == |p|;
    assert forall b :: b in q <==> b in multiset(q);
    assert forall b :: b in p <==> b in multiset(p);
    forall i, j | 0 <= i < j < |p| ensures p[i].id != p[j].id {
      if p[i].id == p[j].id {
        assert p[i] in q && p[j] in q && p[i] == p[j];
        TwiceInMultiset(p, i, j);
        var k :| 0 <= k < |q| && q[k] == p[i];
        OnceInMultiset(q, k);
      }
    }
  }

  /** The tasks GetBottlenecks ranks: open, and blocking something. */
  ghost function Blockers(db: Db, among: set<Id>): set<Id> {
    set id | id in among && DirectlyBlocked(db, id) != {}
  }

  /** `found` lists exactly the blocking tasks among these, each with its count. */
  ghost predicate Tallied(db: Db, among: set<Id>, found: seq<Bottleneck>, counts: map<Id, nat>) {
    && counts.Keys == Blockers(db, among)
    && (forall id | id in counts :: Counted(db, id, counts[id]))
    && Ranked(db, found, counts) && |found| == |counts|
    && forall id | id in counts :: Listed(found, id)
  }

  lemma BlockersGrow(db: Db, among: set<Id>, counts: map<Id, nat>, id: Id, n: nat)
    requires id !in among && counts.Keys == Blockers(db, among) && DirectlyBlocked(db, id) != {}
    ensures counts[id := n].Keys == Blockers(db, among + {id})
  {
    assert counts[id := n].Keys == counts.Keys + {id};
  }

  lemma RankOne(db: Db, found: seq<Bottleneck>, counts: map<Id, nat>, b: Bottleneck)
    requires Ranked(db, found, counts) && b.id !in counts && |found| == |counts|
    requires b.direct == |DirectlyBlocked(db, b.id)|
    ensures Ranked(db, found + [b], counts[b.id := b.downstream])
    ensures |found + [b]| == |counts[b.id := b.downstream]|
  {
    assert forall c | c in found + [b] :: c in found || c == b;
    assert forall i | 0 <= i < |found| :: found[i] in found;
  }

  lemma ListOne(found: seq<Bottleneck>, counts: map<Id, nat>, b: Bottleneck)
    requires forall id | id in counts :: Listed(found, id)
    ensures forall id | id in counts[b.id := b.downstream] :: Listed(found + [b], id)
  {
    var q := found + [b];
    forall id | id in counts[b.id := b.downstream] ensures Listed(q, id) {
      if id == b.id {
        assert b in q;
      } else {
        assert Listed(found, id);
        var c :| c in found && c.id == id;
        assert c in q;
      }
    }
  }

  lemma CountOne(db: Db, counts: map<Id, nat>, id: Id, n: nat)
    requires (forall i | i in counts :: Counted(db, i, counts[i])) && Counted(db, id, n)
    ensures var more := counts[id := n]; forall i | i in more :: Counted(db, i, more[i])
  {
    hide Counted;
  }

  lemma TallyOne(db: Db, among: set<Id>, found: seq<Bottleneck>, counts: map<Id, nat>, b: Bottleneck)
    requires Tallied(db, among, found, counts) && b.id !in among
    requires b.direct == |DirectlyBlocked(db, b.id)| && b.direct > 0 && Counted(db, b.id, b.downstream)
    ensures Tallied(db, among + {b.id}, found + [b], counts[b.id := b.downstream])
  {
    assert b.id !in counts;
    hide Counted, Ranked, Listed, Blockers;
    CountOne(db, counts, b.id, b.downstream);
    BlockersGrow(db, among, counts, b.id, b.downstream);
    RankOne(db, found, counts, b);
    ListOne(found, counts, b);
  }

  lemma TallySkip(db: Db, among: set<Id>, found: seq<Bottleneck>, counts: map<Id, nat>, id: Id)
    requires Tallied(db, among, found, counts) && |DirectlyBlocked(db, id)| == 0
    ensures Tallied(db, among + {id}, found, counts)
  {
    assert Blockers(db, among + {id}) == Blockers(db, among) by { NoBlockerMore(db, among, id); }
    hide Blockers, Ranked, Counted, Listed, DirectlyBlocked;
  }

  lemma NoBlockerMore(db: Db, among: set<Id>, id: Id)
    requires |DirectlyBlocked(db, id)| == 0
    ensures Blockers(db, among + {id}) == Blockers(db, among)
  {
    hide DirectlyBlocked;
  }

  lemma NothingTallied(db: Db)
    ensures Tallied(db, {}, [], map[])
  {
  }

  method CountAll(db: Db, ids: seq<Id>) returns (found: seq<Bottleneck>, ghost counts: map<Id, nat>)
    requires db.ForeignKeys() && NoRepeats(ids)
    ensures Tallied(db, Elements(ids), found, counts)
  {
    hide Tallied, Counted, DirectlyBlocked;
    counts, found := map[], [];
    ghost var among: set<Id> := {};
    NothingTallied(db);
    for i := 0 to |ids|
      invariant among == Elements(ids[..i])
      invariant Tallied(db, among, found, counts)
    {
      var id := ids[i];
      assert id !in among;
      assert Elements(ids[..i + 1]) == among + {id};
      var direct := CountDirect(db, id);
      if direct > 0 {
        var downstream := Downstream(db, id);
        TallyOne(db, among, found, counts, Bottleneck(id, direct, downstream));
        counts, found := counts[id := downstream], found + [Bottleneck(id, direct, downstream)];
      } else {
        TallySkip(db, among, found, counts, id);
      }
      among := among + {id};
    }
    assert ids[..|ids|] == ids;
  }

  /** What is cut off counts no more than what is kept. */
  lemma CutKeepsTop(db: Db, sorted: seq<Bottleneck>, cut: nat, counts: map<Id, nat>, id: Id)
    requires cut <= |sorted| && Descending(sorted) && Ranked(db, sorted, counts)
    requires id in counts && Listed(sorted, id)
    ensures Listed(sorted[..cut], id) || forall b | b in sorted[..cut] :: counts[id] <= b.downstream
  {
    var c :| c in sorted && c.id == id;
    var k :| 0 <= k < |sorted| && sorted[k] == c;
    if k < cut {
      assert sorted[..cut][k] == c;
    }
  }

  method SortAndCut(db: Db, found: seq<Bottleneck>, limit: nat, ghost counts: map<Id, nat>)
    returns (items: seq<Bottleneck>)
    requires Ranked(db, found, counts) && forall id | id in counts :: Listed(found, id)
    ensures Ranked(db, items, counts) && Descending(items)
    ensures |items| == if limit < |found| then limit else |found|
    ensures forall id | id in counts :: Listed(items, id) || forall b | b in items :: counts[id] <= b.downstream
  {
    hide Entry;
    var a := new Bottleneck[|found|](i requires 0 <= i < |found| => found[i]);
    assert a[..] == found;
    ExchangeSort(a);
    var sorted := a[..];
    RankedPermutes(db, found, sorted, counts);
    items := if limit < |sorted| then sorted[..limit] else sorted[..|sorted|];
    forall id | id in counts
      ensures Listed(items, id) || forall b | b in items :: counts[id] <= b.downstream
    {
      assert Listed(sorted, id) by {
        var b :| b in found && b.id == id;
        assert b in sorted;
      }
      CutKeepsTop(db, sorted, |items|, counts, id);
    }
    assert forall b | b in items :: b in sorted;
  }

  /** GetBottlenecks: the tasks with the most transitive dependents, by the search's count. */
  method GetBottlenecks(db: Db, collection: Id, limit: int)
    returns (r: Result<seq<Bottleneck>, SearchError>, ghost counts: map<Id, nat>)
    requires db.ForeignKeys()
    ensures r == Err(TooManyTasks) <==> |OpenTasks(db, collection)| >= 500
    ensures r.Err? ==> r.error == TooManyTasks
    ensures r.Ok? ==>
              && counts.Keys == Blockers(db, OpenTasks(db, collection))
              && (forall id | id in counts :: Counted(db, id, counts[id]))
              && Ranked(db, r.value, counts) && Descending(r.value)
    ensures r.Ok? ==>
              var cut := if limit <= 0 then 10 else limit;
              && |r.value| == (if cut < |counts| then cut else |counts|)
              && forall id | id in counts :: Listed(r.value, id)
                  || forall b | b in r.value :: counts[id] <= b.downstream
  {
    hide Counted, Ranked, Listed, Blockers, OpenTasks;
    counts := map[];
    var loaded := LoadOpenTasks(db, collection);
    if loaded.None? { return Err(TooManyTasks), counts; }
    var found: seq<Bottleneck>;
    found, counts := CountAll(db, loaded.value);
    var items := SortAndCut(db, found, if limit <= 0 then 10 else limit, counts);
    r := Ok(items);
  }
}
