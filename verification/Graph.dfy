/** The effective blocks relation and reachability over a finite set of edges. */
module Graph {
  import opened Domain
  import opened Sequences

  type Edges = set<(Id, Id)>

  /** a blocks b: either task may hold the row that says so. */
  predicate EffectivelyBlocks(rows: set<Row>, a: Id, b: Id) {
    Row(a, b, Blocks) in rows || Row(b, a, BlockedBy) in rows
  }

  function BlocksEdges(rows: set<Row>): (e: Edges)
    ensures forall a, b :: (a, b) in e <==> EffectivelyBlocks(rows, a, b)
  {
    (set r | r in rows && r.kind == Blocks :: (r.source, r.target))
    + (set r | r in rows && r.kind == BlockedBy :: (r.target, r.source))
  }

  function Converse(e: Edges): (c: Edges)
    ensures forall a, b :: (a, b) in c <==> (b, a) in e
  {
    set p | p in e :: (p.1, p.0)
  }

  /** A walk of exactly n edges. */
  ghost predicate Walk(e: Edges, x: Id, y: Id, n: nat)
    decreases n
  {
    if n == 0 then x == y else exists z :: (x, z) in e && Walk(e, z, y, n - 1)
  }

  ghost predicate Reach(e: Edges, x: Id, y: Id) { exists n: nat :: Walk(e, x, y, n) }

  /** A walk of at least one edge. */
  ghost predicate Leads(e: Edges, x: Id, y: Id) { exists n: nat :: n > 0 && Walk(e, x, y, n) }

  ghost predicate Acyclic(e: Edges) { forall x :: !Leads(e, x, x) }

  function Nodes(e: Edges): set<Id> { (set p | p in e :: p.0) + (set p | p in e :: p.1) }

  ghost predicate ClosedUnder(e: Edges, s: set<Id>) { forall p | p in e :: p.0 in s ==> p.1 in s }

  /** Everything reachable from x, x included. */
  ghost function ReachSet(e: Edges, x: Id): (s: set<Id>)
    ensures x in s && ClosedUnder(e, s)
    ensures forall y :: y in s <==> Reach(e, x, y)
  {
    var s := set y | y in Nodes(e) + {x} && Reach(e, x, y);
    assert x in s by { assert Walk(e, x, x, 0); }
    forall y | Reach(e, x, y) ensures y in s {
      var n: nat :| Walk(e, x, y, n);
      if n > 0 { WalkLastEdge(e, x, y, n); }
    }
    forall p | p in e && p.0 in s ensures p.1 in s {
      var n: nat :| Walk(e, x, p.0, n);
      WalkSnoc(e, x, p.0, p.1, n);
    }
    s
  }

  lemma {:induction false} WalkConcat(e: Edges, x: Id, y: Id, z: Id, m: nat, n: nat)
    requires Walk(e, x, y, m) && Walk(e, y, z, n)
    ensures Walk(e, x, z, m + n)
    decreases m
  {
    if m > 0 {
      var w :| (x, w) in e && Walk(e, w, y, m - 1);
      WalkConcat(e, w, y, z, m - 1, n);
    }
  }

  lemma WalkSnoc(e: Edges, x: Id, y: Id, z: Id, n: nat)
    requires Walk(e, x, y, n) && (y, z) in e
    ensures Walk(e, x, z, n + 1)
  {
    assert Walk(e, z, z, 0);
    assert Walk(e, y, z, 1);
    WalkConcat(e, x, y, z, n, 1);
  }

  lemma {:induction false} WalkLastEdge(e: Edges, x: Id, y: Id, n: nat)
    requires n > 0 && Walk(e, x, y, n)
    ensures exists w :: (w, y) in e && Walk(e, x, w, n - 1)
    decreases n
  {
    var z :| (x, z) in e && Walk(e, z, y, n - 1);
    if n > 1 {
      WalkLastEdge(e, z, y, n - 1);
      var w :| (w, y) in e && Walk(e, z, w, n - 2);
    } else {
      assert Walk(e, x, x, 0);
    }
  }

  lemma LeadsTransitive(e: Edges, x: Id, y: Id, z: Id)
    requires Leads(e, x, y) && Leads(e, y, z)
    ensures Leads(e, x, z)
  {
    var m: nat :| m > 0 && Walk(e, x, y, m);
    var n: nat :| n > 0 && Walk(e, y, z, n);
    WalkConcat(e, x, y, z, m, n);
  }

  lemma EdgeLeads(e: Edges, x: Id, y: Id)
    requires (x, y) in e
    ensures Leads(e, x, y)
  {
    assert Walk(e, y, y, 0);
    assert Walk(e, x, y, 1);
  }

  /** A closed set is never left. */
  lemma {:induction false} ClosedHoldsWalk(e: Edges, s: set<Id>, x: Id, y: Id, n: nat)
    requires ClosedUnder(e, s) && x in s && Walk(e, x, y, n)
    ensures y in s
    decreases n
  {
    if n > 0 {
      var z :| (x, z) in e && Walk(e, z, y, n - 1);
      assert (x, z).0 in s;
      ClosedHoldsWalk(e, s, z, y, n - 1);
    }
  }

  lemma ReachStep(e: Edges, x: Id, y: Id, z: Id)
    requires (x, y) in e && Reach(e, y, z)
    ensures Reach(e, x, z)
  {
    var n: nat :| Walk(e, y, z, n);
    assert Walk(e, x, z, n + 1);
  }

  lemma ReachSelf(e: Edges, x: Id)
    ensures Reach(e, x, x)
  {
    assert Walk(e, x, x, 0);
  }

  /** Numbering the nodes so that every edge goes up rules out cycles. */
  lemma {:induction false} RankedWalk(e: Edges, rank: Id -> int, x: Id, y: Id, n: nat)
    requires forall p | p in e :: rank(p.0) < rank(p.1)
    requires Walk(e, x, y, n)
    ensures rank(x) + n <= rank(y)
    decreases n
  {
    if n > 0 {
      var z :| (x, z) in e && Walk(e, z, y, n - 1);
      assert rank((x, z).0) < rank((x, z).1);
      RankedWalk(e, rank, z, y, n - 1);
    }
  }

  lemma RankedIsAcyclic(e: Edges, rank: Id -> int)
    requires forall p | p in e :: rank(p.0) < rank(p.1)
    ensures Acyclic(e)
  {
    forall x ensures !Leads(e, x, x) {
      if Leads(e, x, x) {
        var n: nat :| n > 0 && Walk(e, x, x, n);
        RankedWalk(e, rank, x, x, n);
      }
    }
  }

  predicate Joined(e: Edges, a: Id, b: Id) { (a, b) in e }

  /** A path along the edges that repeats no node. */
  ghost predicate Trail(e: Edges, p: seq<Id>) {
    NoRepeats(p) && forall i | 0 <= i < |p| - 1 :: Joined(e, p[i], p[i + 1])
  }

  /** No repeat-free path from x has more than `limit` nodes. */
  ghost predicate Short(e: Edges, x: Id, limit: nat) {
    forall p | Trail(e, p) && p != [] && p[0] == x :: |p| <= limit
  }

  lemma TrailGrows(e: Edges, p: seq<Id>, y: Id)
    requires Trail(e, p) && y !in p && (p != [] ==> (p[|p| - 1], y) in e)
    ensures Trail(e, p + [y])
  {
  }

  lemma {:induction false} TrailReaches(e: Edges, p: seq<Id>, i: nat)
    requires Trail(e, p) && i < |p|
    ensures p[i] in ReachSet(e, p[0])
  {
    hide ReachSet, Walk, Reach;
    if i > 0 {
      TrailReaches(e, p, i - 1);
      TrailEdge(e, p, i - 1);
      assert (p[i - 1], p[i]).0 in ReachSet(e, p[0]);
    }
  }

  lemma TrailEdge(e: Edges, p: seq<Id>, i: nat)
    requires Trail(e, p) && i + 1 < |p|
    ensures (p[i], p[i + 1]) in e
  {
    assert Joined(e, p[i], p[i + 1]);
  }

  /** Where few nodes are reachable all repeat-free paths are short. */
  lemma FewAreShort(e: Edges, x: Id, limit: nat)
    requires |ReachSet(e, x)| <= limit
    ensures Short(e, x, limit)
  {
    forall p | Trail(e, p) && p != [] && p[0] == x ensures |p| <= limit {
      forall y | y in Elements(p) ensures y in ReachSet(e, x) {
        var i :| 0 <= i < |p| && p[i] == y;
        TrailReaches(e, p, i);
      }
      NoRepeatsSize(p);
      SubsetSize(Elements(p), ReachSet(e, x));
    }
  }

  /** A chain: existing tasks, each effectively blocking the next, none repeated. */
  ghost predicate Chain(db: Db, p: seq<Id>) {
    && (forall i | 0 <= i < |p| :: p[i] in db.tasks)
    && (forall i | 0 <= i < |p| - 1 :: EffectivelyBlocks(db.rows, p[i], p[i + 1]))
    && (forall i, j | 0 <= i < j < |p| :: p[i] != p[j])
  }
}
