/** The ephemeral mirror of an external collection's dependency graph. */
module Mirror {
  import opened Domain
  import opened Graph
  import opened Sequences
  import opened Lifecycle
  import opened Searches
  import EntStore

  /** What a mirrored task is created with: its hold, assignee, parent, rank, checks and rows are
      left out. */
  function MirrorParams(t: Task, collection: Id): CreateParams {
    CreateParams(t.title, collection, t.stage, t.phase, None, None, None, t.start,
                 t.details.(rank := None, ci := None), [], [])
  }

  /** The edge an original row stands for, in the mirror's identifiers; none if one end is not
      loaded or the row is no blocks row. */
  ghost predicate Stands(r: Row, idMap: map<Id, Id>, x: Id, y: Id) {
    && r.source in idMap && r.target in idMap
    && ((r.kind == Blocks && x == idMap[r.source] && y == idMap[r.target])
        || (r.kind == BlockedBy && x == idMap[r.target] && y == idMap[r.source]))
  }

  /** The mirror's effective relation is what these rows stand for. */
  ghost predicate Mirrors(mirror: set<Row>, rows: set<Row>, idMap: map<Id, Id>) {
    forall x, y :: EffectivelyBlocks(mirror, x, y) <==> exists r :: r in rows && Stands(r, idMap, x, y)
  }

  ghost predicate Injective(f: map<Id, Id>) { forall a, b | a in f && b in f && f[a] == f[b] :: a == b }

  /** A store that accepts every row between its tasks: nothing in it is held. */
  ghost predicate Unheld(db: Db) { db.ForeignKeys() && forall id | id in db.tasks :: db.tasks[id].hold.None? }

  const NO_CHANGE := UpdateParams(None, None, None, None, false, None, false, None, false, None, false, None, [],
      None, [], [], [])

  /** Every listed task has its twin, and nothing else is in the mirror. */
  ghost predicate Twinned(db: Db, mirror: Db, loaded: seq<Id>, ids: seq<Id>, idMap: map<Id, Id>, collection: Id,
      now: Time)
    requires |ids| == |loaded|
  {
    && mirror.rows == {} && mirror.tasks.Keys == Elements(ids) && idMap.Keys == Elements(loaded)
    && forall i | 0 <= i < |loaded| ::
         loaded[i] in db.tasks && idMap[loaded[i]] == ids[i]
         && mirror.tasks[ids[i]] == NewTask(MirrorParams(db.tasks[loaded[i]], collection), now)
  }

  lemma TwinOne(db: Db, mirror: Db, loaded: seq<Id>, ids: seq<Id>, idMap: map<Id, Id>, collection: Id, now: Time,
      i: nat)
    requires i < |loaded| == |ids| && NoRepeats(ids) && NoRepeats(loaded) && loaded[i] in db.tasks
    requires Twinned(db, mirror, loaded[..i], ids[..i], idMap, collection, now)
    ensures var twin := NewTask(MirrorParams(db.tasks[loaded[i]], collection), now);
            Twinned(db, Db(mirror.tasks[ids[i] := twin], {}), loaded[..i + 1], ids[..i + 1],
                idMap[loaded[i] := ids[i]], collection, now)
  {
    hide NewTask, MirrorParams;
    assert ids[..i + 1] == ids[..i] + [ids[i]] && loaded[..i + 1] == loaded[..i] + [loaded[i]];
    assert forall k | 0 <= k < i :: loaded[..i][k] == loaded[k] && ids[..i][k] == ids[k];
  }

  lemma TwinnedUnheld(db: Db, mirror: Db, loaded: seq<Id>, ids: seq<Id>, idMap: map<Id, Id>, collection: Id, now: Time)
    requires |ids| == |loaded| && Twinned(db, mirror, loaded, ids, idMap, collection, now)
    ensures Unheld(mirror)
  {
    forall id | id in mirror.tasks ensures mirror.tasks[id].hold.None? && mirror.tasks[id].parent.None? {
      var i :| 0 <= i < |ids| && ids[i] == id;
      assert mirror.tasks[ids[i]] == NewTask(MirrorParams(db.tasks[loaded[i]], collection), now);
    }
  }

  lemma TwinnedInjective(db: Db, mirror: Db, loaded: seq<Id>, ids: seq<Id>, idMap: map<Id, Id>, collection: Id,
      now: Time)
    requires |ids| == |loaded| && NoRepeats(ids) && Twinned(db, mirror, loaded, ids, idMap, collection, now)
    ensures Injective(idMap) && forall a | a in idMap :: idMap[a] in mirror.tasks
  {
    hide NewTask, MirrorParams;
    forall a | a in idMap ensures exists i :: 0 <= i < |loaded| && loaded[i] == a && idMap[a] == ids[i] {
      var i :| 0 <= i < |loaded| && loaded[i] == a;
    }
  }

  /** The store takes no task without a title. */
  predicate Titled(db: Db, loaded: seq<Id>) {
    forall i | 0 <= i < |loaded| && loaded[i] in db.tasks :: db.tasks[loaded[i]].title != ""
  }

  lemma TitledOne(db: Db, loaded: seq<Id>, i: nat)
    requires i < |loaded| && loaded[i] in db.tasks && Titled(db, loaded[..i])
    ensures Titled(db, loaded[..i + 1]) <==> db.tasks[loaded[i]].title != ""
    ensures Titled(db, loaded) ==> db.tasks[loaded[i]].title != ""
  {
    assert loaded[..i + 1] == loaded[..i] + [loaded[i]];
    assert loaded[..i + 1][i] == loaded[i];
  }

  /** What creating the next twin does. */
  lemma TwinCreated(db: Db, mirror: Db, loaded: seq<Id>, ids: seq<Id>, idMap: map<Id, Id>, collection: Id, now: Time,
      i: nat)
    requires i < |loaded| == |ids| && NoRepeats(ids) && loaded[i] in db.tasks
    requires Twinned(db, mirror, loaded[..i], ids[..i], idMap, collection, now)
    ensures ids[i] !in mirror.tasks
    ensures var p := MirrorParams(db.tasks[loaded[i]], collection);
            && (StoreCreateCheck(mirror, p, now).None? <==> db.tasks[loaded[i]].title != "")
            && CreateWrite(mirror, ids[i], p, now) == Db(mirror.tasks[ids[i] := NewTask(p, now)], {})
  {
    assert RowsTo(ids[i], [], Blocks) == {} && RowsTo(ids[i], [], BlockedBy) == {};
  }

  /** First pass: every loaded task gets a twin under a fresh identifier, unless one has no title. */
  method CreateTwins(store: EntStore.EntStore, db: Db, loaded: seq<Id>, ids: seq<Id>, collection: Id, now: Time)
    returns (idMap: map<Id, Id>, ok: bool)
    requires |ids| == |loaded| && NoRepeats(ids) && NoRepeats(loaded)
    requires forall i | 0 <= i < |loaded| :: loaded[i] in db.tasks
    requires store.db == Db(map[], {})
    modifies store
    ensures ok <==> Titled(db, loaded)
    ensures ok ==> Twinned(db, store.db, loaded, ids, idMap, collection, now)
  {
    idMap := map[];
    assert Twinned(db, store.db, loaded[..0], ids[..0], idMap, collection, now) && Titled(db, loaded[..0]);
    for i := 0 to |loaded|
      invariant store.db.ForeignKeys() && Titled(db, loaded[..i])
      invariant Twinned(db, store.db, loaded[..i], ids[..i], idMap, collection, now)
    {
      hide *;
      var p := MirrorParams(db.tasks[loaded[i]], collection);
      TitledOne(db, loaded, i);
      TwinCreated(db, store.db, loaded, ids, idMap, collection, now, i);
      TwinOne(db, store.db, loaded, ids, idMap, collection, now, i);
      var created := store.CreateTask(ids[i], p, now);
      if created.Err? { return idMap, false; }
      idMap := idMap[loaded[i] := ids[i]];
    }
    assert ids[..|ids|] == ids && loaded[..|ids|] == loaded;
    ok := true;
  }

  // ----- Second pass: the rows -----

  /** The same tasks, but for their versions and the times of their last updates. */
  ghost predicate Touched(before: map<Id, Task>, after: map<Id, Task>) {
    && after.Keys == before.Keys
    && forall id | id in before ::
         after[id] == before[id].(version := after[id].version, updatedAt := after[id].updatedAt)
  }

  /** Adding rows by an update that changes nothing else always succeeds here. */
  method AddRow(store: EntStore.EntStore, source: Id, target: Id, kind: RelType, now: Time)
    requires Unheld(store.db) && source in store.db.tasks && target in store.db.tasks && kind in {Blocks, BlockedBy}
    modifies store
    ensures Unheld(store.db) && store.db.rows == old(store.db.rows) + {Row(source, target, kind)}
    ensures Touched(old(store.db.tasks), store.db.tasks)
  {
    var p := if kind == Blocks then NO_CHANGE.(addBlocks := [target]) else NO_CHANGE.(addBlockedBy := [target]);
    var before := store.db;
    RowsOfOne(before.rows, source, target, kind);
    var updated := store.UpdateTask(source, p, now);
  }

  lemma RowsOfOne(rows: set<Row>, source: Id, target: Id, kind: RelType)
    ensures kind == Blocks ==>
            UpdateRows(rows, source, NO_CHANGE.(addBlocks := [target])) == rows + {Row(source, target, kind)}
    ensures kind == BlockedBy ==>
            UpdateRows(rows, source, NO_CHANGE.(addBlockedBy := [target])) == rows + {Row(source, target, kind)}
  {
    assert RowsTo(source, [], Blocks) == {} && RowsTo(source, [], BlockedBy) == {};
    assert RowsTo(source, [target], kind) == {Row(source, target, kind)};
  }

  /** A blocks row is stored from both ends, so that searches looking one way find it. */
  method CreateRelationship(store: EntStore.EntStore, r: Row, idMap: map<Id, Id>, now: Time, ghost done: set<Row>)
    requires Unheld(store.db) && r.source in idMap && r.target in idMap
    requires idMap[r.source] in store.db.tasks && idMap[r.target] in store.db.tasks
    requires Mirrors(store.db.rows, done, idMap)
    modifies store
    ensures Unheld(store.db) && Touched(old(store.db.tasks), store.db.tasks)
    ensures Mirrors(store.db.rows, done + {r}, idMap)
  {
    var s, t := idMap[r.source], idMap[r.target];
    ghost var before := store.db.rows;
    match r.kind {
      case Blocks =>
        AddRow(store, s, t, Blocks, now);
        AddRow(store, t, s, BlockedBy, now);
        assert store.db.rows == before + {Row(s, t, Blocks), Row(t, s, BlockedBy)};
      case BlockedBy =>
        AddRow(store, s, t, BlockedBy, now);
        AddRow(store, t, s, Blocks, now);
        assert store.db.rows == before + {Row(s, t, BlockedBy), Row(t, s, Blocks)};
      case _ =>
    }
    MirrorOne(before, store.db.rows, r, idMap, done);
  }

  lemma MirrorOne(before: set<Row>, after: set<Row>, r: Row, idMap: map<Id, Id>, done: set<Row>)
    requires Mirrors(before, done, idMap) && r.source in idMap && r.target in idMap
    requires var s, t := idMap[r.source], idMap[r.target];
             after == before + (if r.kind == Blocks then {Row(s, t, Blocks), Row(t, s, BlockedBy)}
                                else if r.kind == BlockedBy then {Row(s, t, BlockedBy), Row(t, s, Blocks)} else {})
    ensures Mirrors(after, done + {r}, idMap)
  {
    forall x, y
      ensures EffectivelyBlocks(after, x, y) <==> exists q :: q in done + {r} && Stands(q, idMap, x, y)
    {
      assert EffectivelyBlocks(after, x, y) <==> EffectivelyBlocks(before, x, y) || Stands(r, idMap, x, y);
      if Stands(r, idMap, x, y) { assert r in done + {r}; }
      if EffectivelyBlocks(before, x, y) {
        var q :| q in done && Stands(q, idMap, x, y);
        assert q in done + {r};
      }
    }
  }

  lemma SkipRow(mirror: set<Row>, r: Row, idMap: map<Id, Id>, done: set<Row>)
    requires Mirrors(mirror, done, idMap) && !(r.source in idMap && r.target in idMap)
    ensures Mirrors(mirror, done + {r}, idMap)
  {
    forall x, y
      ensures EffectivelyBlocks(mirror, x, y) <==> exists q :: q in done + {r} && Stands(q, idMap, x, y)
    {
      if EffectivelyBlocks(mirror, x, y) {
        var q :| q in done && Stands(q, idMap, x, y);
        assert q in done + {r};
      }
    }
  }

  /** The rows a loaded task is the source of, mirrored one by one. */
  method MirrorRows(store: EntStore.EntStore, rows: seq<Row>, idMap: map<Id, Id>, now: Time, ghost done: set<Row>)
    requires Unheld(store.db) && (forall a | a in idMap :: idMap[a] in store.db.tasks)
            && Mirrors(store.db.rows, done, idMap)
    modifies store
    ensures Unheld(store.db) && Touched(old(store.db.tasks), store.db.tasks)
    ensures Mirrors(store.db.rows, done + Elements(rows), idMap)
  {
    ghost var sofar := done;
    for i := 0 to |rows|
      invariant Unheld(store.db) && Touched(old(store.db.tasks), store.db.tasks)
      invariant sofar == done + Elements(rows[..i]) && Mirrors(store.db.rows, sofar, idMap)
    {
      hide Mirrors;
      var r := rows[i];
      assert rows[..i + 1] == rows[..i] + [r];
      if r.source in idMap && r.target in idMap {
        CreateRelationship(store, r, idMap, now, sofar);
      } else {
        // One end is outside the loaded tasks.
        SkipRow(store.db.rows, r, idMap, sofar);
      }
      sofar := sofar + {r};
    }
    assert rows[..|rows|] == rows;
  }

  method MirrorAll(store: EntStore.EntStore, db: Db, loaded: seq<Id>, idMap: map<Id, Id>, now: Time,
      ghost done: set<Row>)
    requires Unheld(store.db) && store.db.rows == {} && forall a | a in idMap :: idMap[a] in store.db.tasks
    requires done == set r | r in db.rows && r.source in loaded
    modifies store
    ensures Unheld(store.db) && Touched(old(store.db.tasks), store.db.tasks)
    ensures Mirrors(store.db.rows, done, idMap)
  {
    ghost var sofar: set<Row> := {};
    assert Mirrors(store.db.rows, sofar, idMap);
    for i := 0 to |loaded|
      invariant Unheld(store.db) && Touched(old(store.db.tasks), store.db.tasks)
      invariant sofar == set r | r in db.rows && r.source in loaded[..i]
      invariant Mirrors(store.db.rows, sofar, idMap)
    {
      hide Mirrors;
      var rows := Rows(set r | r in db.rows && r.source == loaded[i]);
      MirrorRows(store, rows, idMap, now, sofar);
      assert loaded[..i + 1] == loaded[..i] + [loaded[i]];
      sofar := sofar + Elements(rows);
    }
    assert loaded[..|loaded|] == loaded;
  }

  /** What a task and its twin have in common, and what the twin lacks. */
  predicate IsTwin(t: Task, twin: Task, collection: Id) {
    && twin.collection == collection && twin.title == t.title && twin.stage == t.stage && twin.phase == t.phase
    && twin.start == t.start && twin.hold.None? && twin.assignee.None? && twin.parent.None?
    && twin.details == t.details.(rank := None, ci := None) && twin.remote.None? && twin.pullRequests == []
  }

  /** The mirror has the twins of the loaded tasks and no other tasks. */
  ghost predicate AreTwins(db: Db, mirror: Db, idMap: map<Id, Id>, collection: Id) {
    && (forall a | a in idMap ::
          a in db.tasks && idMap[a] in mirror.tasks && IsTwin(db.tasks[a], mirror.tasks[idMap[a]], collection))
    && mirror.tasks.Keys == Twins(idMap)
  }

  function Twins(idMap: map<Id, Id>): set<Id> { set a | a in idMap :: idMap[a] }

  lemma TwinnedAreTwins(db: Db, mirror: Db, loaded: seq<Id>, ids: seq<Id>, idMap: map<Id, Id>, collection: Id,
      now: Time)
    requires |ids| == |loaded| && Twinned(db, mirror, loaded, ids, idMap, collection, now)
    ensures AreTwins(db, mirror, idMap, collection)
  {
    forall a | a in idMap
      ensures a in db.tasks && idMap[a] in mirror.tasks && IsTwin(db.tasks[a], mirror.tasks[idMap[a]], collection)
    {
      var i :| 0 <= i < |loaded| && loaded[i] == a;
      assert ids[i] in Elements(ids);
    }
    forall x | x in mirror.tasks ensures x in Twins(idMap) {
      var i :| 0 <= i < |ids| && ids[i] == x;
      var a := loaded[i];
      assert a in Elements(loaded) && a in idMap.Keys && idMap[a] == x;
    }
  }

  lemma TwinsTouched(db: Db, before: Db, after: Db, idMap: map<Id, Id>, collection: Id)
    requires AreTwins(db, before, idMap, collection) && Touched(before.tasks, after.tasks)
    ensures AreTwins(db, after, idMap, collection)
  {
    forall a | a in idMap
      ensures a in db.tasks && idMap[a] in after.tasks && IsTwin(db.tasks[a], after.tasks[idMap[a]], collection)
    {
      var x := idMap[a];
      assert IsTwin(db.tasks[a], before.tasks[x], collection);
      assert x in before.tasks && x in after.tasks;
      var t := after.tasks[x];
      assert t == before.tasks[x].(version := t.version, updatedAt := t.updatedAt);
    }
  }

  /** So searches over the whole mirror start from the twins of the open tasks. */
  lemma OpenTasksAgree(db: Db, mirror: Db, idMap: map<Id, Id>, collection: Id, x: Id)
    requires AreTwins(db, mirror, idMap, collection)
    ensures x in OpenTasks(mirror, collection)
            <==> exists a :: a in idMap && idMap[a] == x && a in db.tasks && db.tasks[a].phase != Closed
  {
  }

  /** Loads the graph of the listed tasks, unless one has no title. The mirror's relation is exactly the image, under an
      injective renaming, of the original's relation between listed tasks. */
  method LoadEphemeralStore(db: Db, loaded: seq<Id>, ids: seq<Id>, collection: Id, now: Time)
    returns (store: EntStore.EntStore, idMap: map<Id, Id>, ok: bool)
    requires |ids| == |loaded| && NoRepeats(ids) && NoRepeats(loaded)
    requires forall i | 0 <= i < |loaded| :: loaded[i] in db.tasks
    ensures fresh(store) && (ok <==> Titled(db, loaded))
    ensures ok ==> store.db.ForeignKeys()
    ensures ok ==> IsMirror(db, loaded, store.db, idMap)
    ensures ok ==> AreTwins(db, store.db, idMap, collection)
  {
    store := new EntStore.EntStore();
    idMap, ok := CreateTwins(store, db, loaded, ids, collection, now);
    if !ok { return; }
    TwinnedUnheld(db, store.db, loaded, ids, idMap, collection, now);
    TwinnedInjective(db, store.db, loaded, ids, idMap, collection, now);
    assert store.db.rows == {} && idMap.Keys == Elements(loaded);
    TwinnedAreTwins(db, store.db, loaded, ids, idMap, collection, now);
    ghost var twins := store.db;
    hide Twinned, Mirrors, IsMirror, AreTwins, Touched;
    ghost var done := set r | r in db.rows && r.source in loaded;
    MirrorAll(store, db, loaded, idMap, now, done);
    MirrorsIsImage(db, loaded, store.db, idMap, done);
    TwinsTouched(db, twins, store.db, idMap, collection);
  }

  /** The mirror of the listed tasks. */
  ghost predicate IsMirror(db: Db, loaded: seq<Id>, mirror: Db, idMap: map<Id, Id>) {
    && idMap.Keys == Elements(loaded) && Injective(idMap)
    && (forall a | a in idMap :: idMap[a] in mirror.tasks)
    && (forall a, b | a in idMap && b in idMap ::
          EffectivelyBlocks(mirror.rows, idMap[a], idMap[b]) <==> EffectivelyBlocks(db.rows, a, b))
    && (forall x, y | EffectivelyBlocks(mirror.rows, x, y) ::
          exists a, b :: a in idMap && b in idMap && idMap[a] == x && idMap[b] == y)
  }

  lemma MirrorsIsImage(db: Db, loaded: seq<Id>, mirror: Db, idMap: map<Id, Id>, done: set<Row>)
    requires idMap.Keys == Elements(loaded) && Injective(idMap) && forall a | a in idMap :: idMap[a] in mirror.tasks
    requires done == set r | r in db.rows && r.source in loaded
    requires Mirrors(mirror.rows, done, idMap)
    ensures IsMirror(db, loaded, mirror, idMap)
  {
    forall a, b | a in idMap && b in idMap
      ensures EffectivelyBlocks(mirror.rows, idMap[a], idMap[b]) <==> EffectivelyBlocks(db.rows, a, b)
    {
      if Row(a, b, Blocks) in db.rows { assert Stands(Row(a, b, Blocks), idMap, idMap[a], idMap[b]); }
      if Row(b, a, BlockedBy) in db.rows { assert Stands(Row(b, a, BlockedBy), idMap, idMap[a], idMap[b]); }
      if EffectivelyBlocks(mirror.rows, idMap[a], idMap[b]) {
        var r :| r in done && Stands(r, idMap, idMap[a], idMap[b]);
        assert r == Row(a, b, Blocks) || r == Row(b, a, BlockedBy);
      }
    }
    forall x, y | EffectivelyBlocks(mirror.rows, x, y)
      ensures exists a, b :: a in idMap && b in idMap && idMap[a] == x && idMap[b] == y
    {
      var r :| r in done && Stands(r, idMap, x, y);
      if r.kind == Blocks {
        assert idMap[r.source] == x && idMap[r.target] == y;
      } else {
        assert idMap[r.target] == x && idMap[r.source] == y;
      }
    }
  }

  // ----- What searches see -----

  /** The original restricted to the loaded tasks. */
  ghost function Restricted(db: Db, idMap: map<Id, Id>): Db {
    Db(map id | id in db.tasks && id in idMap :: db.tasks[id],
       set r | r in db.rows && r.source in idMap && r.target in idMap)
  }

  predicate Loaded(p: seq<Id>, idMap: map<Id, Id>) { forall i | 0 <= i < |p| :: p[i] in idMap }

  function Image(p: seq<Id>, idMap: map<Id, Id>): (q: seq<Id>)
    requires Loaded(p, idMap)
    ensures |q| == |p| && forall i | 0 <= i < |p| :: p[i] in idMap && q[i] == idMap[p[i]]
  {
    if p == [] then [] else Image(p[..|p| - 1], idMap) + [idMap[p[|p| - 1]]]
  }

  /** A chain of the restricted original is a chain of the mirror, of the same length. */
  lemma ChainThere(db: Db, loaded: seq<Id>, mirror: Db, idMap: map<Id, Id>, p: seq<Id>)
    requires IsMirror(db, loaded, mirror, idMap) && Chain(Restricted(db, idMap), p)
    ensures Loaded(p, idMap) && Chain(mirror, Image(p, idMap))
  {
    assert forall i | 0 <= i < |p| :: p[i] in Restricted(db, idMap).tasks;
    var q := Image(p, idMap);
    forall i | 0 <= i < |q| ensures q[i] in mirror.tasks { assert p[i] in idMap; }
    forall i, j | 0 <= i < j < |q| ensures q[i] != q[j] { assert p[i] in idMap && p[j] in idMap && p[i] != p[j]; }
    forall i | 0 <= i < |q| - 1 ensures EffectivelyBlocks(mirror.rows, q[i], q[i + 1]) {
      assert EffectivelyBlocks(Restricted(db, idMap).rows, p[i], p[i + 1]);
      assert EffectivelyBlocks(db.rows, p[i], p[i + 1]);
    }
  }

  /** And every chain of the mirror that starts at a twin comes from one. */
  lemma {:induction false} ChainBack(db: Db, loaded: seq<Id>, mirror: Db, idMap: map<Id, Id>, q: seq<Id>, a: Id)
    returns (p: seq<Id>)
    requires IsMirror(db, loaded, mirror, idMap) && Elements(loaded) <= db.tasks.Keys
    requires Chain(mirror, q) && q != [] && a in idMap && q[0] == idMap[a]
    ensures Chain(Restricted(db, idMap), p) && Loaded(p, idMap) && Image(p, idMap) == q && p != [] && p[0] == a
    decreases |q|
  {
    if |q| == 1 {
      p := [a];
      assert Image(p, idMap) == q;
    } else {
      assert EffectivelyBlocks(mirror.rows, q[0], q[1]);
      var b, c :| b in idMap && c in idMap && idMap[b] == q[0] && idMap[c] == q[1];
      TailChain(mirror, q);
      var rest := ChainBack(db, loaded, mirror, idMap, q[1..], c);
      p := [a] + rest;
      assert Image(p, idMap) == q;
      ConsChain(db, idMap, a, rest, q, mirror);
    }
  }

  lemma TailChain(db: Db, q: seq<Id>)
    requires Chain(db, q) && |q| > 1
    ensures Chain(db, q[1..])
  {
    var r := q[1..];
    forall i | 0 <= i < |r| - 1 ensures EffectivelyBlocks(db.rows, r[i], r[i + 1]) {
      assert EffectivelyBlocks(db.rows, q[i + 1], q[i + 1 + 1]);
    }
  }

  lemma ConsChain(db: Db, idMap: map<Id, Id>, a: Id, rest: seq<Id>, q: seq<Id>, mirror: Db)
    requires Chain(Restricted(db, idMap), rest) && rest != [] && a in idMap && a in db.tasks
    requires EffectivelyBlocks(db.rows, a, rest[0]) && rest[0] in idMap
    requires Chain(mirror, q) && Loaded([a] + rest, idMap) && Image([a] + rest, idMap) == q
    ensures Chain(Restricted(db, idMap), [a] + rest)
  {
    var p := [a] + rest;
    forall i | 0 <= i < |p| - 1 ensures EffectivelyBlocks(Restricted(db, idMap).rows, p[i], p[i + 1]) {
      if i > 0 { assert EffectivelyBlocks(Restricted(db, idMap).rows, rest[i - 1], rest[i - 1 + 1]); }
    }
    forall i, j | 0 <= i < j < |p| ensures p[i] != p[j] {
      assert q[i] != q[j];
    }
  }

  /** So the longest chain from a task is as long as the longest chain from its twin: every
      length that occurs on one side occurs on the other. */
  lemma ChainLengthsAgree(db: Db, loaded: seq<Id>, mirror: Db, idMap: map<Id, Id>, a: Id, n: nat)
    requires IsMirror(db, loaded, mirror, idMap) && Elements(loaded) <= db.tasks.Keys && a in idMap && n > 0
    ensures (exists p :: |p| == n && p[0] == a && Chain(Restricted(db, idMap), p))
            <==> (exists q :: |q| == n && q[0] == idMap[a] && Chain(mirror, q))
  {
    if p :| |p| == n && p[0] == a && Chain(Restricted(db, idMap), p) {
      ChainThere(db, loaded, mirror, idMap, p);
      var q := Image(p, idMap);
      assert |q| == n && q[0] == idMap[a];
    }
    if q :| |q| == n && q[0] == idMap[a] && Chain(mirror, q) {
      var p := ChainBack(db, loaded, mirror, idMap, q, a);
      assert |p| == n;
    }
  }

  /** e' is the image of e, and nothing else touches the renamed tasks. */
  ghost predicate EdgeImage(e: Edges, e': Edges, idMap: map<Id, Id>) {
    && Injective(idMap)
    && (forall p | p in e :: p.0 in idMap && p.1 in idMap && (idMap[p.0], idMap[p.1]) in e')
    && (forall p | p in e' :: exists a, b :: a in idMap && b in idMap && (a, b) in e && (idMap[a], idMap[b]) == p)
  }

  lemma MirrorEdges(db: Db, loaded: seq<Id>, mirror: Db, idMap: map<Id, Id>)
    requires IsMirror(db, loaded, mirror, idMap)
    ensures EdgeImage(BlocksEdges(Restricted(db, idMap).rows), BlocksEdges(mirror.rows), idMap)
  {
    var e, e' := BlocksEdges(Restricted(db, idMap).rows), BlocksEdges(mirror.rows);
    forall p | p in e ensures p.0 in idMap && p.1 in idMap && (idMap[p.0], idMap[p.1]) in e' {
      assert (p.0, p.1) in e;
      assert EffectivelyBlocks(db.rows, p.0, p.1);
    }
    forall p | p in e' ensures exists a, b :: a in idMap && b in idMap && (a, b) in e && (idMap[a], idMap[b]) == p {
      assert (p.0, p.1) in e' && EffectivelyBlocks(mirror.rows, p.0, p.1);
      var a, b :| a in idMap && b in idMap && idMap[a] == p.0 && idMap[b] == p.1;
      assert EffectivelyBlocks(Restricted(db, idMap).rows, a, b);
      assert (a, b) in e;
    }
  }

  lemma EdgeThere(e: Edges, e': Edges, idMap: map<Id, Id>, a: Id, b: Id)
    requires EdgeImage(e, e', idMap) && (a, b) in e
    ensures a in idMap && b in idMap && (idMap[a], idMap[b]) in e'
  {
    assert (a, b).0 in idMap && (a, b).1 in idMap && (idMap[(a, b).0], idMap[(a, b).1]) in e';
  }

  lemma EdgeBack(e: Edges, e': Edges, idMap: map<Id, Id>, a: Id, z: Id) returns (c: Id)
    requires EdgeImage(e, e', idMap) && a in idMap && (idMap[a], z) in e'
    ensures c in idMap && idMap[c] == z && (a, c) in e
  {
    var x;
    x, c :| x in idMap && c in idMap && (x, c) in e && (idMap[x], idMap[c]) == (idMap[a], z);
    assert x == a;
  }

  lemma {:induction false} WalkThere(e: Edges, e': Edges, idMap: map<Id, Id>, a: Id, b: Id, n: nat)
    requires EdgeImage(e, e', idMap) && a in idMap && Walk(e, a, b, n)
    ensures b in idMap && Walk(e', idMap[a], idMap[b], n)
    decreases n
  {
    hide EdgeImage, Injective;
    if n > 0 {
      var c :| (a, c) in e && Walk(e, c, b, n - 1);
      EdgeThere(e, e', idMap, a, c);
      WalkThere(e, e', idMap, c, b, n - 1);
    }
  }

  lemma {:induction false} WalkBack(e: Edges, e': Edges, idMap: map<Id, Id>, a: Id, y: Id, n: nat) returns (b: Id)
    requires EdgeImage(e, e', idMap) && a in idMap && Walk(e', idMap[a], y, n)
    ensures b in idMap && idMap[b] == y && Walk(e, a, b, n)
    decreases n
  {
    hide EdgeImage, Injective;
    if n == 0 {
      b := a;
    } else {
      var z :| (idMap[a], z) in e' && Walk(e', z, y, n - 1);
      var c := EdgeBack(e, e', idMap, a, z);
      b := WalkBack(e, e', idMap, c, y, n - 1);
    }
  }

  /** The tasks reachable in the mirror are the twins of the tasks reachable in the restricted
      original, so the exact downstream counts are the same number. */
  lemma ReachSetsAgree(db: Db, loaded: seq<Id>, mirror: Db, idMap: map<Id, Id>, a: Id)
    requires IsMirror(db, loaded, mirror, idMap) && a in idMap
    ensures var there := ReachSet(BlocksEdges(mirror.rows), idMap[a]);
            var here := ReachSet(BlocksEdges(Restricted(db, idMap).rows), a);
            && (forall b | b in here :: b in idMap) && there == (set b | b in here && b in idMap :: idMap[b])
            && |there| == |here|
  {
    var e, e' := BlocksEdges(Restricted(db, idMap).rows), BlocksEdges(mirror.rows);
    var here, there := ReachSet(e, a), ReachSet(e', idMap[a]);
    MirrorEdges(db, loaded, mirror, idMap);
    forall b | b in here ensures b in idMap && idMap[b] in there {
      var n: nat :| Walk(e, a, b, n);
      WalkThere(e, e', idMap, a, b, n);
    }
    forall y | y in there ensures exists b :: b in here && b in idMap && idMap[b] == y {
      var n: nat :| Walk(e', idMap[a], y, n);
      var b := WalkBack(e, e', idMap, a, y, n);
    }
    ImageSize(here, idMap, there);
  }

  lemma {:induction false} ImageSize(s: set<Id>, f: map<Id, Id>, t: set<Id>)
    requires s <= f.Keys && Injective(f) && t == set b | b in s && b in f :: f[b]
    ensures |t| == |s|
    decreases s
  {
    if s != {} {
      var x := Pick(s);
      var s' := s - {x};
      var t' := set b | b in s' && b in f :: f[b];
      ImageSize(s', f, t');
      assert t == t' + {f[x]} && f[x] !in t';
    }
  }
}
