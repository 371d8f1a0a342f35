/** What inserting a chain of steps after an anchor does to the dependency graph. */
module Splice {
  import opened Domain
  import opened Graph
  import opened Lifecycle
  import opened Sequences

  /** Fresh steps to be inserted after an existing anchor. */
  ghost predicate Insertable(db: Db, anchor: Id, ids: seq<Id>) {
    db.ForeignKeys() && anchor in db.tasks && ids != [] && FreshIds(db, ids, |ids|)
  }

  ghost function Before(db: Db): Edges { BlocksEdges(db.rows) }

  ghost function After(db: Db, anchor: Id, ids: seq<Id>): Edges
    requires ids != []
  {
    BlocksEdges(SplicedRows(db.rows, anchor, ids))
  }

  /** The edges of the spliced graph, by where they start. */
  lemma EdgesAfter(db: Db, anchor: Id, ids: seq<Id>, a: Id, b: Id)
    requires Insertable(db, anchor, ids) && (a, b) in After(db, anchor, ids)
    ensures || (a in db.tasks && b in db.tasks && (a, b) in Before(db))
            || (a == anchor && b == ids[0])
            || (exists i | 0 <= i < |ids| - 1 :: a == ids[i] && b == ids[i + 1])
            || (a == ids[|ids| - 1] && b in db.tasks && b in DownstreamOf(db.rows, anchor) && (anchor, b) in Before(db))
  {
    var chain := [anchor] + ids;
    if Row(a, b, Blocks) in ChainRows(chain) {
      var i :| 0 <= i < |chain| - 1 && Row(a, b, Blocks) == Link(chain, i);
      if i > 0 { assert a == ids[i - 1] && b == ids[i - 1 + 1]; }
    }
    if b in DownstreamOf(db.rows, anchor) { assert Row(anchor, b, Blocks) in db.rows; }
  }

  /** An edge is either still there, or was the anchor's own and now goes through the chain. */
  lemma EdgeKept(db: Db, anchor: Id, ids: seq<Id>, a: Id, b: Id)
    requires Insertable(db, anchor, ids) && (a, b) in Before(db)
    ensures (a, b) in After(db, anchor, ids) || (a == anchor && (ids[|ids| - 1], b) in After(db, anchor, ids))
  {
    if Row(b, a, BlockedBy) in db.rows {
      assert Row(b, a, BlockedBy) in SplicedRows(db.rows, anchor, ids);
    } else if a == anchor {
      assert b in DownstreamOf(db.rows, anchor) by { assert Row(anchor, b, Blocks) in db.rows; }
      assert ids[|ids| - 1] !in db.tasks;
      assert Row(ids[|ids| - 1], b, Blocks) in SplicedRows(db.rows, anchor, ids);
    }
  }

  lemma ChainEdge(db: Db, anchor: Id, ids: seq<Id>, i: nat)
    requires Insertable(db, anchor, ids) && i < |ids|
    ensures (([anchor] + ids)[i], ids[i]) in After(db, anchor, ids)
  {
    var chain := [anchor] + ids;
    assert Link(chain, i) in ChainRows(chain);
    assert ids[i] !in DownstreamOf(db.rows, anchor) by {
      assert forall r | r in db.rows :: r.target in db.tasks;
    }
    assert Link(chain, i) in SplicedRows(db.rows, anchor, ids);
  }

  /** Along the chain, from the anchor (place 0) or a step to the last step. */
  lemma {:induction false} ChainWalk(db: Db, anchor: Id, ids: seq<Id>, i: nat)
    requires Insertable(db, anchor, ids) && i <= |ids|
    ensures Walk(After(db, anchor, ids), ([anchor] + ids)[i], ids[|ids| - 1], |ids| - i)
    decreases |ids| - i
  {
    var e, chain := After(db, anchor, ids), [anchor] + ids;
    if i < |ids| {
      ChainWalk(db, anchor, ids, i + 1);
      ChainEdge(db, anchor, ids, i);
      assert chain[i + 1] == ids[i];
      assert (chain[i], chain[i + 1]) in e && Walk(e, chain[i + 1], ids[|ids| - 1], |ids| - i - 1);
    }
  }

  // ----- From the old graph to the new -----

  lemma EdgeLeadsAfter(db: Db, anchor: Id, ids: seq<Id>, a: Id, b: Id)
    requires Insertable(db, anchor, ids) && (a, b) in Before(db)
    ensures Leads(After(db, anchor, ids), a, b)
  {
    var e := After(db, anchor, ids);
    EdgeKept(db, anchor, ids, a, b);
    if (a, b) in e {
      EdgeLeads(e, a, b);
    } else {
      ChainWalk(db, anchor, ids, 0);
      WalkSnoc(e, anchor, ids[|ids| - 1], b, |ids|);
    }
  }

  lemma {:induction false} WalkLeadsAfter(db: Db, anchor: Id, ids: seq<Id>, x: Id, y: Id, n: nat)
    requires Insertable(db, anchor, ids) && n > 0 && Walk(Before(db), x, y, n)
    ensures Leads(After(db, anchor, ids), x, y)
    decreases n
  {
    var z :| (x, z) in Before(db) && Walk(Before(db), z, y, n - 1);
    EdgeLeadsAfter(db, anchor, ids, x, z);
    if n > 1 {
      WalkLeadsAfter(db, anchor, ids, z, y, n - 1);
      LeadsTransitive(After(db, anchor, ids), x, z, y);
    }
  }

  // ----- From the new graph back to the old -----

  /** Seen from the old graph, an inserted step stands where the anchor is. */
  function Home(anchor: Id, ids: seq<Id>, x: Id): Id { if x in ids then anchor else x }

  lemma ConsLeads(e: Edges, x: Id, y: Id, z: Id)
    requires (x, y) in e && (y == z || Leads(e, y, z))
    ensures Leads(e, x, z)
  {
    EdgeLeads(e, x, y);
    if y != z { LeadsTransitive(e, x, y, z); }
  }

  lemma {:induction false} WalkLeadsBefore(db: Db, anchor: Id, ids: seq<Id>, x: Id, y: Id, n: nat)
    requires Insertable(db, anchor, ids) && y in db.tasks && n > 0 && Walk(After(db, anchor, ids), x, y, n)
    ensures Leads(Before(db), Home(anchor, ids, x), y)
    decreases n
  {
    var e := After(db, anchor, ids);
    var z :| (x, z) in e && Walk(e, z, y, n - 1);
    if n > 1 { WalkLeadsBefore(db, anchor, ids, z, y, n - 1); }
    EdgesAfter(db, anchor, ids, x, z);
    assert ids[0] in ids && ids[|ids| - 1] in ids;
    if z in db.tasks {
      assert z !in ids && (Home(anchor, ids, x), z) in Before(db);
      ConsLeads(Before(db), Home(anchor, ids, x), z, y);
    } else {
      assert z in ids && Home(anchor, ids, x) == anchor;
    }
  }

  /** Among the tasks that were there before, exactly the same tasks lead to each other. */
  lemma LeadsPreserved(db: Db, anchor: Id, ids: seq<Id>, x: Id, y: Id)
    requires Insertable(db, anchor, ids) && x in db.tasks && y in db.tasks
    ensures Leads(After(db, anchor, ids), x, y) <==> Leads(Before(db), x, y)
  {
    if Leads(Before(db), x, y) {
      var n: nat :| n > 0 && Walk(Before(db), x, y, n);
      WalkLeadsAfter(db, anchor, ids, x, y, n);
    }
    if Leads(After(db, anchor, ids), x, y) {
      var n: nat :| n > 0 && Walk(After(db, anchor, ids), x, y, n);
      WalkLeadsBefore(db, anchor, ids, x, y, n);
      assert x !in ids;
    }
  }

  // ----- Cycles -----

  lemma StepsAreNew(db: Db, anchor: Id, ids: seq<Id>)
    requires Insertable(db, anchor, ids)
    ensures NoRepeats(ids) && forall i | 0 <= i < |ids| :: ids[i] !in db.tasks
  {
  }

  /** A walk that ends in an inserted step came along the chain, or from the anchor. */
  lemma {:induction false} WalkToStep(db: Db, anchor: Id, ids: seq<Id>, x: Id, j: nat, n: nat)
    requires Insertable(db, anchor, ids) && j < |ids| && Walk(After(db, anchor, ids), x, ids[j], n)
    ensures x in db.tasks ==> x == anchor || Leads(Before(db), x, anchor)
    ensures forall i | 0 <= i < |ids| && x == ids[i] :: n == j - i || Leads(Before(db), anchor, anchor)
    decreases n
  {
    hide After, Before, FreshIds;
    var e := After(db, anchor, ids);
    StepsAreNew(db, anchor, ids);
    if n == 0 {
      assert x !in db.tasks;
    } else {
      var z :| (x, z) in e && Walk(e, z, ids[j], n - 1);
      WalkToStep(db, anchor, ids, z, j, n - 1);
      EdgesAfter(db, anchor, ids, x, z);
      if z in db.tasks {
        if x in db.tasks {
          ConsLeads(Before(db), x, z, anchor);
        } else {
          ConsLeads(Before(db), anchor, z, anchor);
        }
      }
    }
  }

  /** Inserting neither creates nor removes cycles. */
  lemma AcyclicPreserved(db: Db, anchor: Id, ids: seq<Id>)
    requires Insertable(db, anchor, ids)
    ensures Acyclic(After(db, anchor, ids)) <==> Acyclic(Before(db))
  {
    var e, e' := Before(db), After(db, anchor, ids);
    forall x | Leads(e, x, x) ensures Leads(e', x, x) {
      var n: nat :| n > 0 && Walk(e, x, x, n);
      WalkLeadsAfter(db, anchor, ids, x, x, n);
    }
    forall x | Leads(e', x, x) ensures exists y :: Leads(e, y, y) {
      var n: nat :| n > 0 && Walk(e', x, x, n);
      var z :| (x, z) in e' && Walk(e', z, x, n - 1);
      EdgesAfter(db, anchor, ids, x, z);
      if x in db.tasks {
        LeadsPreserved(db, anchor, ids, x, x);
      } else {
        var j :| 0 <= j < |ids| && x == ids[j];
        WalkToStep(db, anchor, ids, x, j, n);
        assert Leads(e, anchor, anchor);
      }
    }
  }

  /** Every task the anchor blocked by a blocks row of its own now waits for every step, and
      every step for the anchor. */
  lemma StepsStandBetween(db: Db, anchor: Id, ids: seq<Id>, i: nat, t: Id)
    requires Insertable(db, anchor, ids) && i < |ids| && Row(anchor, t, Blocks) in db.rows
    ensures Leads(After(db, anchor, ids), ids[i], t)
    ensures Leads(After(db, anchor, ids), anchor, ids[i])
  {
    var e, last := After(db, anchor, ids), ids[|ids| - 1];
    ChainWalk(db, anchor, ids, i + 1);
    assert ([anchor] + ids)[i + 1] == ids[i];
    assert t in DownstreamOf(db.rows, anchor);
    assert last !in db.tasks;
    assert Row(last, t, Blocks) in SplicedRows(db.rows, anchor, ids);
    WalkSnoc(e, ids[i], last, t, |ids| - i - 1);
    AnchorLeads(db, anchor, ids, i);
  }

  /** The task is one the anchor blocked by a row of its own, or lies behind one. */
  ghost predicate Behind(db: Db, anchor: Id, t: Id) {
    exists d :: d in DownstreamOf(db.rows, anchor) && (d == t || Leads(Before(db), d, t))
  }

  lemma {:induction false} WalkFromStep(db: Db, anchor: Id, ids: seq<Id>, i: nat, t: Id, n: nat)
    requires Insertable(db, anchor, ids) && i < |ids| && t in db.tasks && n > 0
    requires Walk(After(db, anchor, ids), ids[i], t, n)
    ensures Behind(db, anchor, t)
    decreases n
  {
    hide After, Before, FreshIds;
    var e := After(db, anchor, ids);
    StepsAreNew(db, anchor, ids);
    var z :| (ids[i], z) in e && Walk(e, z, t, n - 1);
    EdgesAfter(db, anchor, ids, ids[i], z);
    if z in db.tasks {
      assert z in DownstreamOf(db.rows, anchor);
      if n > 1 { LeadsPreserved(db, anchor, ids, z, t); }
    } else {
      var k :| 0 <= k < |ids| - 1 && ids[i] == ids[k] && z == ids[k + 1];
      WalkFromStep(db, anchor, ids, k + 1, t, n - 1);
    }
  }

  /** Exactly these tasks wait for the inserted steps. A task the anchor blocks only by a row the
      task holds itself goes on waiting for the anchor alone. */
  lemma StepsBlockExactly(db: Db, anchor: Id, ids: seq<Id>, i: nat, t: Id)
    requires Insertable(db, anchor, ids) && i < |ids| && t in db.tasks
    ensures Leads(After(db, anchor, ids), ids[i], t) <==> Behind(db, anchor, t)
  {
    var e := After(db, anchor, ids);
    if Leads(e, ids[i], t) {
      var n: nat :| n > 0 && Walk(e, ids[i], t, n);
      WalkFromStep(db, anchor, ids, i, t, n);
    }
    if Behind(db, anchor, t) {
      var d :| d in DownstreamOf(db.rows, anchor) && (d == t || Leads(Before(db), d, t));
      StepsStandBetween(db, anchor, ids, i, d);
      if d != t {
        LeadsPreserved(db, anchor, ids, d, t);
        LeadsTransitive(e, ids[i], d, t);
      }
    }
  }

  /** The only row is held by the blocked task: it is blocked by the anchor before and after, and
      does not wait for the steps. */
  lemma OwnRowKeepsAnchorAlone(db: Db, anchor: Id, ids: seq<Id>, t: Id)
    requires Insertable(db, anchor, ids) && t in db.tasks && db.rows == {Row(t, anchor, BlockedBy)}
    ensures (anchor, t) in Before(db) && (anchor, t) in After(db, anchor, ids)
    ensures forall i | 0 <= i < |ids| :: !Leads(After(db, anchor, ids), ids[i], t)
  {
    forall i | 0 <= i < |ids| ensures !Leads(After(db, anchor, ids), ids[i], t) {
      StepsBlockExactly(db, anchor, ids, i, t);
    }
    EdgeKept(db, anchor, ids, anchor, t);
    assert Row(t, anchor, BlockedBy) in SplicedRows(db.rows, anchor, ids);
  }

  lemma {:induction false} AnchorLeads(db: Db, anchor: Id, ids: seq<Id>, i: nat)
    requires Insertable(db, anchor, ids) && i < |ids|
    ensures Leads(After(db, anchor, ids), anchor, ids[i])
    decreases i
  {
    var e := After(db, anchor, ids);
    ChainEdge(db, anchor, ids, i);
    EdgeLeads(e, ([anchor] + ids)[i], ids[i]);
    if i > 0 {
      AnchorLeads(db, anchor, ids, i - 1);
      LeadsTransitive(e, anchor, ids[i - 1], ids[i]);
    }
  }

  /** The insertion keeps every foreign key. */
  lemma InsertKeepsForeignKeys(db: Db, anchor: Id, collection: Id, steps: seq<StepParams>, ids: seq<Id>, now: Time)
    requires Insertable(db, anchor, ids) && |steps| == |ids|
    ensures InsertWrite(db, anchor, collection, steps, ids, now).ForeignKeys()
  {
    var after := InsertWrite(db, anchor, collection, steps, ids, now);
    var chain := [anchor] + ids;
    assert forall i | 0 <= i < |chain| :: chain[i] in after.tasks;
    forall r | r in after.rows ensures r.source in after.tasks && r.target in after.tasks {
      if r in ChainRows(chain) {
        var i :| 0 <= i < |chain| - 1 && r == Link(chain, i);
        assert chain[i] in after.tasks && chain[i + 1] in after.tasks;
      }
    }
    forall id | id in after.tasks && after.tasks[id].parent.Some? ensures after.tasks[id].parent.value in after.tasks {
      if id in ids {
        var i :| 0 <= i < |ids| && ids[i] == id;
        StepTasksAt(steps, collection, ids, now, i);
      }
    }
  }
}
