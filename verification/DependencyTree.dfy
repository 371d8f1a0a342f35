/** GetDependencyTree: a depth-limited tree over the effective blocks relation, each task
    entering it at most once. */
module DependencyTree {
  import opened Domain
  import opened Graph
  import opened Searches
  import opened Sequences

  datatype Direction = Down | Up | Both

  /** A task with the tasks it blocks and the tasks blocking it that were attached to it. */
  datatype Node = Node(id: Id, blocks: seq<Node>, blockedBy: seq<Node>)

  /** The edges the search follows in a direction. */
  function Followed(rows: set<Row>, dir: Direction): (e: Edges)
    ensures forall a, b :: (a, b) in e <==>
              (dir != Up && EffectivelyBlocks(rows, a, b)) || (dir != Down && EffectivelyBlocks(rows, b, a))
  {
    match dir
    case Down => BlocksEdges(rows)
    case Up => Converse(BlocksEdges(rows))
    case Both => BlocksEdges(rows) + Converse(BlocksEdges(rows))
  }

  /** How often each task occurs in a tree, and in a list of trees. */
  ghost function Ids(n: Node): multiset<Id>
    decreases n, 1
  {
    multiset{n.id} + AllIds(n.blocks) + AllIds(n.blockedBy)
  }

  ghost function AllIds(ns: seq<Node>): multiset<Id>
    decreases ns, 0
  {
    if ns == [] then multiset{} else AllIds(ns[..|ns| - 1]) + Ids(ns[|ns| - 1])
  }

  /** Every child hangs off an effective blocks edge that points the way its list says, and
      only lists of the chosen direction are filled. */
  ghost predicate Attached(rows: set<Row>, dir: Direction, n: Node)
    decreases n
  {
    && (dir == Up ==> n.blocks == []) && (dir == Down ==> n.blockedBy == [])
    && (forall i | 0 <= i < |n.blocks| ::
          EffectivelyBlocks(rows, n.id, n.blocks[i].id) && Attached(rows, dir, n.blocks[i]))
    && (forall i | 0 <= i < |n.blockedBy| ::
          EffectivelyBlocks(rows, n.blockedBy[i].id, n.id) && Attached(rows, dir, n.blockedBy[i]))
  }

  /** The longest path down a tree has at most h edges. */
  ghost predicate Shallow(n: Node, h: int)
    decreases n
  {
    && h >= 0
    && (forall i | 0 <= i < |n.blocks| :: Shallow(n.blocks[i], h - 1))
    && (forall i | 0 <= i < |n.blockedBy| :: Shallow(n.blockedBy[i], h - 1))
  }

  /** Above the limit every neighbour of a node of the tree has been seen. */
  ghost predicate Opened(e: Edges, n: Node, h: int, seen: set<Id>)
    decreases n
  {
    && (h > 0 ==> forall t | Joined(e, n.id, t) :: t in seen)
    && (forall i | 0 <= i < |n.blocks| :: Opened(e, n.blocks[i], h - 1, seen))
    && (forall i | 0 <= i < |n.blockedBy| :: Opened(e, n.blockedBy[i], h - 1, seen))
  }

  ghost predicate AllOpened(e: Edges, ns: seq<Node>, h: int, seen: set<Id>) {
    forall n | n in ns :: Opened(e, n, h, seen)
  }

  ghost predicate AllIn(ids: seq<Id>, seen: set<Id>) { forall t | t in ids :: t in seen }

  lemma {:induction false} OpenedGrows(e: Edges, n: Node, h: int, seen: set<Id>, more: set<Id>)
    requires Opened(e, n, h, seen) && seen <= more
    ensures Opened(e, n, h, more)
    decreases n
  {
    forall i | 0 <= i < |n.blocks| { OpenedGrows(e, n.blocks[i], h - 1, seen, more); }
    forall i | 0 <= i < |n.blockedBy| { OpenedGrows(e, n.blockedBy[i], h - 1, seen, more); }
  }

  lemma AllOpenedGrows(e: Edges, ns: seq<Node>, h: int, seen: set<Id>, more: set<Id>)
    requires AllOpened(e, ns, h, seen) && seen <= more
    ensures AllOpened(e, ns, h, more)
  {
    hide Opened;
    forall n | n in ns { OpenedGrows(e, n, h, seen, more); }
  }

  lemma OpenedWithOne(e: Edges, ns: seq<Node>, child: Option<Node>, h: int, seen: set<Id>, more: set<Id>)
    requires AllOpened(e, ns, h, seen) && seen <= more && (child.Some? ==> Opened(e, child.value, h, more))
    ensures AllOpened(e, With(ns, child), h, more)
  {
    hide Opened;
    AllOpenedGrows(e, ns, h, seen, more);
  }

  lemma OpenedNode(e: Edges, id: Id, blocks: seq<Node>, blockedBy: seq<Node>, down: seq<Id>, up: seq<Id>,
      h: int, seen: set<Id>)
    requires AllOpened(e, blocks, h - 1, seen) && AllOpened(e, blockedBy, h - 1, seen)
    requires forall p | p in e && p.0 == id :: p.1 in down + up
    requires h > 0 ==> AllIn(down, seen) && AllIn(up, seen)
    ensures Opened(e, Node(id, blocks, blockedBy), h, seen)
  {
    forall t | Joined(e, id, t) ensures t in down + up { assert (id, t).1 in down + up; }
    forall i | 0 <= i < |blocks| ensures Opened(e, blocks[i], h - 1, seen) { assert blocks[i] in blocks; }
    forall i | 0 <= i < |blockedBy| ensures Opened(e, blockedBy[i], h - 1, seen) { assert blockedBy[i] in blockedBy; }
  }

  lemma AllInOneMore(ids: seq<Id>, i: nat, seen: set<Id>, more: set<Id>)
    requires i < |ids| && AllIn(ids[..i], seen) && seen <= more && ids[i] in more
    ensures AllIn(ids[..i + 1], more)
  {
  }

  /** The edges of a search, its root, the path that led here, and how long paths may get. */
  datatype Scope = Scope(e: Edges, root: Id, path: seq<Id>, limit: nat)
  {
    /** The search never meets the depth limit. */
    ghost predicate Exact() { Short(e, root, limit) }

    ghost predicate Ok() { Trail(e, path) && (path != [] ==> path[0] == root) }

    /** These tasks may come next on the path. */
    ghost predicate Covers(ids: seq<Id>) {
      forall t | t in ids :: if path == [] then t == root else Joined(e, path[|path| - 1], t)
    }

    function Push(id: Id): Scope { this.(path := path + [id]) }

    /** What a finished search from these tasks leaves behind: the trees hold exactly the newly
        visited tasks, once each, and an exact search has expanded all of them. */
    ghost predicate Done(before: set<Id>, after: set<Id>, trees: multiset<Id>, ids: seq<Id>) {
      && before <= after && trees == multiset(after - before)
      && (Exact() ==> Expanded(e, after - before, after) && forall t | t in ids :: t in after)
    }
  }

  /** Nothing is left to do for a task that is visited, or met beyond the limit. */
  lemma DoneNothing(s: Scope, id: Id, visited: set<Id>)
    requires s.Exact() ==> id in visited
    ensures s.Done(visited, visited, multiset{}, [id])
  {
    assert visited - visited == {};
  }

  lemma CoversOne(s: Scope, ids: seq<Id>, i: nat)
    requires s.Covers(ids) && i < |ids|
    ensures ids[i] in ids && s.Covers([ids[i]])
  {
  }

  lemma DoneCompose(s: Scope, a: set<Id>, b: set<Id>, c: set<Id>, t: multiset<Id>, u: multiset<Id>, p: seq<Id>,
      q: seq<Id>)
    requires s.Done(a, b, t, p) && s.Done(b, c, u, q)
    ensures s.Done(a, c, t + u, p + q) && a <= c
  {
    assert c - a == (b - a) + (c - b) && (b - a) !! (c - b);
  }

  /** A node completes its children's search with its own mark. */
  lemma DoneRoot(s: Scope, id: Id, before: set<Id>, after: set<Id>, t: multiset<Id>, ids: seq<Id>)
    requires id !in before
    requires s.Push(id).Done(before + {id}, after, t, ids)
    requires forall p | p in s.e && p.0 == id :: p.1 in ids
    ensures s.Done(before, after, multiset{id} + t, [id])
  {
    assert after - before == {id} + (after - (before + {id}));
    if s.Exact() {
      assert s.Push(id).Exact();
      assert Expanded(s.e, after - (before + {id}), after);
      assert forall t | t in ids :: t in after;
      forall p | p in s.e && p.0 in after - before ensures p.1 in after {
        if p.0 == id { assert p.1 in ids; } else { assert p.0 in after - (before + {id}); }
      }
    }
  }

  lemma PushOk(s: Scope, id: Id)
    requires s.Ok() && id !in s.path && s.Covers([id])
    ensures s.Push(id).Ok() && (s.Exact() ==> |s.path| < s.limit)
  {
    assert id in [id];
    TrailGrows(s.e, s.path, id);
  }

  /** `ids` are the neighbours of `id` the direction asks for. */
  ghost predicate Neighbours(rows: set<Row>, id: Id, dir: Direction, down: seq<Id>, up: seq<Id>) {
    && (forall t :: t in down <==> dir != Up && EffectivelyBlocks(rows, id, t))
    && (forall t :: t in up <==> dir != Down && EffectivelyBlocks(rows, t, id))
  }

  lemma NeighboursFollowed(db: Db, s: Scope, id: Id, dir: Direction, down: seq<Id>, up: seq<Id>)
    requires db.ForeignKeys() && Neighbours(db.rows, id, dir, down, up)
    requires s.e == Followed(db.rows, dir)
    ensures forall p | p in s.e && p.0 == id :: p.1 in down + up
    ensures Exist(db, down) && s.Push(id).Covers(down)
    ensures Exist(db, up) && s.Push(id).Covers(up)
  {
    forall p | p in s.e && p.0 == id ensures p.1 in down + up {
      assert (p.0, p.1) in s.e;
    }
    forall t | t in down + up ensures (id, t) in s.e && t in db.tasks {
    }
    forall t | t in down ensures t in db.tasks && Joined(s.e, id, t) { assert t in down + up; }
    forall t | t in up ensures t in db.tasks && Joined(s.e, id, t) { assert t in down + up; }
  }

  ghost predicate Exist(db: Db, ids: seq<Id>) { forall t | t in ids :: t in db.tasks }

  /** Trees that may hang below a node: from a given list, well formed, not too deep. */
  ghost predicate Children(rows: set<Row>, dir: Direction, h: int, targets: seq<Id>, nodes: seq<Node>) {
    forall n | n in nodes :: n.id in targets && WellFormed(rows, dir, h, n)
  }

  ghost predicate WellFormed(rows: set<Row>, dir: Direction, h: int, n: Node) {
    Attached(rows, dir, n) && Shallow(n, h)
  }

  lemma NodeShape(rows: set<Row>, dir: Direction, h: int, id: Id, blocks: seq<Node>, blockedBy: seq<Node>,
      down: seq<Id>, up: seq<Id>)
    requires h >= 0 && Neighbours(rows, id, dir, down, up)
    requires Children(rows, dir, h - 1, down, blocks) && Children(rows, dir, h - 1, up, blockedBy)
    ensures WellFormed(rows, dir, h, Node(id, blocks, blockedBy))
  {
    forall i | 0 <= i < |blocks|
      ensures blocks[i].id in down && Attached(rows, dir, blocks[i]) && Shallow(blocks[i], h - 1)
    {
      assert blocks[i] in blocks;
    }
    forall i | 0 <= i < |blockedBy|
      ensures blockedBy[i].id in up && Attached(rows, dir, blockedBy[i]) && Shallow(blockedBy[i], h - 1)
    {
      assert blockedBy[i] in blockedBy;
    }
    hide Children, EffectivelyBlocks;
    if blocks != [] { assert blocks[0].id in down; }
    if blockedBy != [] { assert blockedBy[0].id in up; }
  }

  /** The children with one more, if the search found one. */
  function With(nodes: seq<Node>, child: Option<Node>): seq<Node> {
    if child.Some? then nodes + [child.value] else nodes
  }

  lemma WithOne(rows: set<Row>, dir: Direction, h: int, targets: seq<Id>, nodes: seq<Node>, child: Option<Node>)
    requires Children(rows, dir, h, targets, nodes)
    requires child.Some? ==> child.value.id in targets && WellFormed(rows, dir, h, child.value)
    ensures Children(rows, dir, h, targets, With(nodes, child))
    ensures AllIds(With(nodes, child)) == AllIds(nodes) + IdsOf(child)
  {
    if child.Some? { assert (nodes + [child.value])[..|nodes|] == nodes; }
  }

  lemma DoneWithOne(s: Scope, before: set<Id>, sofar: set<Id>, now: set<Id>, nodes: seq<Node>, child: Option<Node>,
      targets: seq<Id>, i: nat)
    requires i < |targets| && s.Done(before, sofar, AllIds(nodes), targets[..i])
    requires s.Done(sofar, now, IdsOf(child), [targets[i]])
    requires AllIds(With(nodes, child)) == AllIds(nodes) + IdsOf(child)
    ensures s.Done(before, now, AllIds(With(nodes, child)), targets[..i + 1]) && before <= now
  {
    hide Scope.Done;
    DoneCompose(s, before, sofar, now, AllIds(nodes), IdsOf(child), targets[..i], [targets[i]]);
    assert targets[..i + 1] == targets[..i] + [targets[i]];
  }

  /** One list of children. The search goes on with whatever is not visited yet. */
  method BuildChildren(db: Db, targets: seq<Id>, dir: Direction, maxDepth: nat, depth: nat, visited: Visited,
      ghost s: Scope)
    returns (nodes: seq<Node>)
    requires db.ForeignKeys() && depth <= maxDepth + 1 && s.Ok() && Elements(s.path) <= visited.ids && |s.path| == depth
    requires s.e == Followed(db.rows, dir) && s.limit == maxDepth + 1
    requires Exist(db, targets) && s.Covers(targets)
    modifies visited
    ensures s.Done(old(visited.ids), visited.ids, AllIds(nodes), targets)
    ensures Children(db.rows, dir, maxDepth - depth, targets, nodes)
    ensures AllOpened(s.e, nodes, maxDepth - depth, visited.ids) && (depth <= maxDepth ==> AllIn(targets, visited.ids))
    ensures old(visited.ids) <= visited.ids
    decreases maxDepth + 1 - depth, 1
  {
    hide WellFormed, Followed, Scope.Done, Scope.Exact, Scope.Ok, Scope.Covers, AllIds, Ids, IdsOf, Children,
         Opened, AllOpened, AllIn;
    ghost var before := visited.ids;
    nodes := [];
    NoneDone(db.rows, dir, maxDepth - depth, targets, s, before);
    NoneOpened(s.e, maxDepth - depth, before);
    assert targets[..0] == [];
    for i := 0 to |targets|
      invariant before <= visited.ids
      invariant s.Done(before, visited.ids, AllIds(nodes), targets[..i])
      invariant Children(db.rows, dir, maxDepth - depth, targets, nodes)
      invariant AllOpened(s.e, nodes, maxDepth - depth, visited.ids)
      invariant depth <= maxDepth ==> AllIn(targets[..i], visited.ids)
    {
      ghost var sofar := visited.ids;
      CoversOne(s, targets, i);
      var child := BuildDependencyNode(db, targets[i], dir, maxDepth, depth, visited, s);
      WithOne(db.rows, dir, maxDepth - depth, targets, nodes, child);
      DoneWithOne(s, before, sofar, visited.ids, nodes, child, targets, i);
      OpenedWithOne(s.e, nodes, child, maxDepth - depth, sofar, visited.ids);
      if depth <= maxDepth { AllInOneMore(targets, i, sofar, visited.ids); }
      if child.Some? { nodes := nodes + [child.value]; }
    }
    assert targets[..|targets|] == targets;
  }

  lemma NoneOpened(e: Edges, h: int, seen: set<Id>)
    ensures AllOpened(e, [], h, seen) && AllIn([], seen)
  {
  }

  lemma NoneDone(rows: set<Row>, dir: Direction, h: int, targets: seq<Id>, s: Scope, visited: set<Id>)
    ensures Children(rows, dir, h, targets, []) && s.Done(visited, visited, AllIds([]), [])
  {
    assert visited - visited == {};
  }

  ghost function IdsOf(n: Option<Node>): multiset<Id> { if n.Some? then Ids(n.value) else multiset{} }

  lemma NodeIds(id: Id, blocks: seq<Node>, blockedBy: seq<Node>)
    ensures IdsOf(Some(Node(id, blocks, blockedBy))) == multiset{id} + (AllIds(blocks) + AllIds(blockedBy))
    ensures IdsOf(None) == multiset{}
  {
    hide AllIds;
  }

  method BuildDependencyNode(db: Db, id: Id, dir: Direction, maxDepth: nat, depth: nat, visited: Visited,
      ghost s: Scope)
    returns (node: Option<Node>)
    requires db.ForeignKeys() && id in db.tasks && depth <= maxDepth + 1
    requires s.Ok() && Elements(s.path) <= visited.ids && |s.path| == depth
    requires s.e == Followed(db.rows, dir) && s.limit == maxDepth + 1 && s.Covers([id])
    modifies visited
    ensures s.Done(old(visited.ids), visited.ids, IdsOf(node), [id])
    ensures node.None? <==> id in old(visited.ids) || depth > maxDepth
    ensures node.Some? ==> node.value.id == id && WellFormed(db.rows, dir, maxDepth - depth, node.value)
    ensures node.Some? ==> Opened(s.e, node.value, maxDepth - depth, visited.ids)
    ensures old(visited.ids) <= visited.ids && (depth <= maxDepth ==> id in visited.ids)
    decreases maxDepth + 1 - depth, 0
  {
    hide Scope.Done, Scope.Ok, Scope.Covers, Scope.Exact, Neighbours, WellFormed, Children, Followed, Exist,
         AllIds, Ids, IdsOf, Opened, AllOpened, AllIn;
    ghost var before := visited.ids;
    assert id in s.path ==> id in Elements(s.path);
    if id !in visited.ids { PushOk(s, id); }
    if id in visited.ids || depth > maxDepth {
      DoneNothing(s, id, before);
      NodeIds(id, [], []);
      return None;
    }
    visited.ids := visited.ids + {id};
    ghost var marked := visited.ids;
    var blocks, blockedBy, down, up := Neighbourhood(db, id, dir, maxDepth, depth, visited, s);
    NodeShape(db.rows, dir, maxDepth - depth, id, blocks, blockedBy, down, up);
    NodeIds(id, blocks, blockedBy);
    NeighboursFollowed(db, s, id, dir, down, up);
    DoneRoot(s, id, before, visited.ids, AllIds(blocks) + AllIds(blockedBy), down + up);
    OpenedNode(s.e, id, blocks, blockedBy, down, up, maxDepth - depth, visited.ids);
    node := Some(Node(id, blocks, blockedBy));
  }

  /** Both lists of a freshly visited node, each only if the direction asks for it. */
  method Neighbourhood(db: Db, id: Id, dir: Direction, maxDepth: nat, depth: nat, visited: Visited, ghost s: Scope)
    returns (blocks: seq<Node>, blockedBy: seq<Node>, down: seq<Id>, up: seq<Id>)
    requires db.ForeignKeys() && depth <= maxDepth
    requires s.Ok() && Elements(s.path + [id]) <= visited.ids && |s.path| == depth && id !in s.path
    requires s.e == Followed(db.rows, dir) && s.limit == maxDepth + 1 && s.Covers([id])
    modifies visited
    ensures Neighbours(db.rows, id, dir, down, up)
    ensures s.Push(id).Done(old(visited.ids), visited.ids, AllIds(blocks) + AllIds(blockedBy), down + up)
    ensures Children(db.rows, dir, maxDepth - depth - 1, down, blocks)
    ensures Children(db.rows, dir, maxDepth - depth - 1, up, blockedBy)
    ensures AllOpened(s.e, blocks, maxDepth - depth - 1, visited.ids)
    ensures AllOpened(s.e, blockedBy, maxDepth - depth - 1, visited.ids)
    ensures depth < maxDepth ==> AllIn(down, visited.ids) && AllIn(up, visited.ids)
    ensures old(visited.ids) <= visited.ids
    decreases maxDepth + 1 - depth - 1, 2
  {
    hide Scope.Covers, Scope.Exact, Scope.Ok, Expanded, Children, Followed, Exist, Opened, AllOpened;
    ghost var before := visited.ids;
    PushOk(s, id);
    down, up := [], [];
    if dir != Up { down := BlocksTargets(db, id); }
    if dir != Down { up := BlockerTargets(db, id); }
    NeighboursFollowed(db, s, id, dir, down, up);
    blocks := BuildChildren(db, down, dir, maxDepth, depth + 1, visited, s.Push(id));
    ghost var middle := visited.ids;
    blockedBy := BuildChildren(db, up, dir, maxDepth, depth + 1, visited, s.Push(id));
    DoneCompose(s.Push(id), before, middle, visited.ids, AllIds(blocks), AllIds(blockedBy), down, up);
    AllOpenedGrows(s.e, blocks, maxDepth - depth - 1, middle, visited.ids);
  }

  function ClampDepth(asked: int): (d: nat)
    ensures asked < 1 ==> d == 5
    ensures 1 <= asked <= 20 ==> d == asked
    ensures asked > 20 ==> d == 20
  {
    if asked <= 0 then 5 else if asked > 20 then 20 else asked
  }

  /** The tree asked for: each task at most once and each one reachable, no deeper than the
      limit, children only along edges of their label; with each node above the limit, all its
      neighbours; and complete when no repeat-free path from the root is longer than the limit. */
  ghost predicate TreeOf(db: Db, root: Id, dir: Direction, maxDepth: nat, n: Node) {
    var e := Followed(db.rows, dir);
    && n.id == root
    && (forall x :: Ids(n)[x] <= 1)
    && (forall x | x in Ids(n) :: Reach(e, root, x))
    && Attached(db.rows, dir, n) && Shallow(n, maxDepth)
    && Opened(e, n, maxDepth, Members(n))
    && (Short(e, root, maxDepth + 1) ==> Ids(n) == multiset(ReachSet(e, root)))
  }

  ghost function Members(n: Node): set<Id> { set x | x in Ids(n) }

  /** The search from the root. */
  ghost function Whole(e: Edges, root: Id, limit: nat): Scope { Scope(e, root, [], limit) }

  lemma DoneIsTree(db: Db, root: Id, dir: Direction, maxDepth: nat, n: Node, after: set<Id>)
    requires n.id == root && WellFormed(db.rows, dir, maxDepth, n)
    requires var e := Followed(db.rows, dir);
             Whole(e, root, maxDepth + 1).Done({}, after, Ids(n), [root]) && Opened(e, n, maxDepth, after)
    ensures TreeOf(db, root, dir, maxDepth, n)
  {
    var e := Followed(db.rows, dir);
    var all := ReachSet(e, root);
    assert after - {} == after;
    TreeReachable(db.rows, dir, n);
    hide Opened;
    assert Members(n) == after;
    if Short(e, root, maxDepth + 1) {
      assert Whole(e, root, maxDepth + 1).Exact();
      assert root in [root];
      forall x | x in all ensures x in after {
        var k: nat :| Walk(e, root, x, k);
        ClosedHoldsWalk(e, after, root, x, k);
      }
      forall x | x in after ensures x in all {
        assert x in Ids(n);
      }
      assert after == all;
    }
  }

  lemma WholeCoversRoot(e: Edges, root: Id, limit: nat)
    ensures var s := Whole(e, root, limit); s.e == e && s.path == [] && s.limit == limit && s.Ok() && s.Covers([root])
  {
  }

  /** In particular the tree is complete when it has room for all reachable tasks on one path. */
  lemma TreeOfFew(db: Db, root: Id, dir: Direction, maxDepth: nat, n: Node)
    requires TreeOf(db, root, dir, maxDepth, n) && |ReachSet(Followed(db.rows, dir), root)| <= maxDepth + 1
    ensures Ids(n) == multiset(ReachSet(Followed(db.rows, dir), root))
  {
    FewAreShort(Followed(db.rows, dir), root, maxDepth + 1);
  }

  method GetDependencyTree(db: Db, root: Id, dir: Direction, asked: int) returns (r: Result<Node, SearchError>)
    requires db.ForeignKeys()
    ensures root !in db.tasks ==> r == Err(NoSuchTask)
    ensures root in db.tasks ==> r.Ok? && TreeOf(db, root, dir, ClampDepth(asked), r.value)
  {
    hide Scope.Done, Scope.Covers, Scope.Exact, Scope.Ok, WellFormed, Followed, TreeOf, Whole, Opened;
    if root !in db.tasks { return Err(NoSuchTask); }
    var maxDepth := ClampDepth(asked);
    ghost var e := Followed(db.rows, dir);
    var visited := new Visited({});
    WholeCoversRoot(e, root, maxDepth + 1);
    var node := BuildDependencyNode(db, root, dir, maxDepth, 0, visited, Whole(e, root, maxDepth + 1));
    DoneIsTree(db, root, dir, maxDepth, node.value, visited.ids);
    r := Ok(node.value);
  }

  /** Attachment along edges makes every task of the tree reachable from its root. */
  lemma {:induction false} TreeReachable(rows: set<Row>, dir: Direction, n: Node)
    requires Attached(rows, dir, n)
    ensures forall x | x in Ids(n) :: Reach(Followed(rows, dir), n.id, x)
    decreases n, 1
  {
    ReachSelf(Followed(rows, dir), n.id);
    forall i | 0 <= i < |n.blocks| { TreeReachable(rows, dir, n.blocks[i]); }
    forall i | 0 <= i < |n.blockedBy| { TreeReachable(rows, dir, n.blockedBy[i]); }
    ListReachable(rows, dir, n.id, n.blocks);
    ListReachable(rows, dir, n.id, n.blockedBy);
  }

  lemma {:induction false} ListReachable(rows: set<Row>, dir: Direction, id: Id, ns: seq<Node>)
    requires forall i | 0 <= i < |ns| ::
               (id, ns[i].id) in Followed(rows, dir)
               && forall x | x in Ids(ns[i]) :: Reach(Followed(rows, dir), ns[i].id, x)
    ensures forall x | x in AllIds(ns) :: Reach(Followed(rows, dir), id, x)
  {
    if ns != [] {
      var last := ns[|ns| - 1];
      ListReachable(rows, dir, id, ns[..|ns| - 1]);
      forall x | x in Ids(last) ensures Reach(Followed(rows, dir), id, x) {
        ReachStep(Followed(rows, dir), id, last.id, x);
      }
    }
  }
}
