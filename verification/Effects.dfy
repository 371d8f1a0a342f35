/** What each task request does to the tables, column by column and row by row, said without the
    functions that carry it out. */
module Effects {
  import opened Domain
  import opened Graph
  import opened Sequences
  import opened Lifecycle

  /** Every other task stays as it is. */
  ghost predicate OthersStay(before: Db, after: Db, id: Id) {
    after.tasks.Keys == before.tasks.Keys + {id}
    && forall x | x in before.tasks && x != id :: after.tasks[x] == before.tasks[x]
  }

  /** A column that a request may set or clear; clearing wins. */
  predicate SetOrCleared<T(==)>(clear: bool, sent: Option<T>, was: Option<T>, becomes: Option<T>) {
    && (clear ==> becomes.None?)
    && (!clear && sent.Some? ==> becomes == sent)
    && (!clear && sent.None? ==> becomes == was)
  }

  /** A column that a request may set. */
  predicate SetOrKept<T(==)>(sent: Option<T>, was: T, becomes: T) {
    becomes == match sent case Some(v) => v case None => was
  }

  // ----- Update -----

  /** A hold is cleared, set or kept; and a deferred hold that is not renewed is lifted by a
      start date. */
  predicate HoldUpdated(p: UpdateParams, was: Option<HoldReason>, becomes: Option<HoldReason>) {
    if p.clearHold then becomes.None?
    else if p.hold.Some? then becomes == p.hold
    else if was == Some(Deferred) && p.start.Some? && !p.clearStart then becomes.None?
    else becomes == was
  }

  /** Every key sent has the value sent, and every other key the one it had. */
  ghost predicate RemoteMerged(sent: Option<map<string, Json>>, was: Option<map<string, Json>>,
      becomes: Option<map<string, Json>>)
  {
    if sent.None? then becomes == was else
    && becomes.Some?
    && (forall k | k in sent.value :: k in becomes.value && becomes.value[k] == sent.value[k])
    && (forall k | k !in sent.value ::
          if was.Some? && k in was.value then k in becomes.value && becomes.value[k] == was.value[k]
          else k !in becomes.value)
  }

  ghost predicate TaskUpdated(p: UpdateParams, now: Time, was: Task, becomes: Task) {
    && SetOrKept(p.title, was.title, becomes.title)
    && SetOrKept(p.details, was.details, becomes.details)
    && SetOrCleared(p.clearAssignee, p.assignee, was.assignee, becomes.assignee)
    && SetOrCleared(p.clearParent, p.parent, was.parent, becomes.parent)
    && SetOrCleared(p.clearStart, p.start, was.start, becomes.start)
    && SetOrKept(p.stage, was.stage, becomes.stage)
    && (p.stage.None? ==> becomes.phase == was.phase)
    && (p.stage.Some? ==> PhaseFits(becomes.stage, becomes.phase))
    && HoldUpdated(p, was.hold, becomes.hold)
    && RemoteMerged(p.remote, was.remote, becomes.remote)
    && becomes.pullRequests == was.pullRequests + p.pullRequests
    && becomes.collection == was.collection && becomes.createdAt == was.createdAt && becomes.closedAt == was.closedAt
    && becomes.updatedAt == now && becomes.version == was.version + 1
  }

  /** Open before work starts, in progress while it goes on, closed after. */
  predicate PhaseFits(s: Stage, ph: Phase) {
    match ph
    case Open => s == Triage || s == Accepted
    case InProgress => s == Working || s == InReview || s == InQa || s == Deploying
    case OnHold => false
    case Closed => s == Completed || s == WontFix || s == Duplicate || s == Cancelled
  }

  lemma PhaseForStageFits(s: Stage)
    ensures forall ph :: PhaseFits(s, ph) <==> ph == PhaseForStage(s)
    ensures IsTerminal(s) <==> PhaseFits(s, Closed)
    ensures MayHold(s) <==> s == Accepted || PhaseFits(s, InProgress)
  {
  }

  /** The task keeps the rows it does not name, and gets those it names; removing wins. */
  ghost predicate RowsUpdated(before: Db, id: Id, p: UpdateParams, after: Db) {
    forall a, b, k :: Row(a, b, k) in after.rows <==>
      && !(a == id && b in p.removeRelationships)
      && (Row(a, b, k) in before.rows
          || (a == id && k == Blocks && b in p.addBlocks) || (a == id && k == BlockedBy && b in p.addBlockedBy))
  }

  ghost predicate UpdateDone(before: Db, id: Id, p: UpdateParams, now: Time, after: Db) {
    && id in before.tasks && OthersStay(before, after, id)
    && TaskUpdated(p, now, before.tasks[id], after.tasks[id])
    && RowsUpdated(before, id, p, after)
  }

  /** The states a task may be written in: held only in accepted or active stages, and not as
      deferred with its start still to come. */
  predicate WritableState(stage: Stage, hold: Option<HoldReason>, start: Option<Time>, now: Time) {
    hold.Some? ==>
      && stage != Triage && stage != Completed && stage != WontFix && stage != Duplicate && stage != Cancelled
      && !(hold == Some(Deferred) && start.Some? && start.value > now)
  }

  predicate Writable(t: Task, now: Time) { WritableState(t.stage, t.hold, t.start, now) }

  /** The update of the row that is there: all columns and rows. */
  lemma UpdateWriteDone(db: Db, id: Id, p: UpdateParams, now: Time)
    requires id in db.tasks && (p.version.Some? ==> p.version.value == db.tasks[id].version)
    ensures UpdateDone(db, id, p, now, UpdateWrite(db, id, db.tasks[id], p, now))
  {
    var t := db.tasks[id];
    UpdateRowDone(t, p, now);
    RowsOfUpdate(db, id, p, UpdateWrite(db, id, t, p, now));
    hide TaskUpdated, RowsUpdated, UpdateRow, UpdateRows;
  }

  lemma UpdateRowDone(t: Task, p: UpdateParams, now: Time)
    requires p.version.Some? ==> p.version.value == t.version
    ensures TaskUpdated(p, now, t, UpdateRow(t, t, p, now))
  {
    var u := UpdateRow(t, t, p, now);
    if p.stage.Some? { PhaseForStageFits(p.stage.value); }
    assert t.pullRequests + [] == t.pullRequests;
  }

  lemma RowsOfUpdate(before: Db, id: Id, p: UpdateParams, after: Db)
    requires after.rows == UpdateRows(before.rows, id, p)
    ensures RowsUpdated(before, id, p, after)
  {
    forall a, b, k ensures Row(a, b, k) in after.rows <==>
      && !(a == id && b in p.removeRelationships)
      && (Row(a, b, k) in before.rows
          || (a == id && k == Blocks && b in p.addBlocks) || (a == id && k == BlockedBy && b in p.addBlockedBy))
    {
      assert Row(a, b, k) in RowsTo(id, p.addBlocks, Blocks) <==> a == id && k == Blocks && b in p.addBlocks;
      assert Row(a, b, k) in RowsTo(id, p.addBlockedBy, BlockedBy)
             <==> a == id && k == BlockedBy && b in p.addBlockedBy;
    }
  }

  /** An update is refused as invalid exactly if it empties the title or the row it would leave
      may not be written. */
  lemma UpdateRefusedIff(db: Db, id: Id, p: UpdateParams, now: Time, u: Task)
    requires id in db.tasks && TaskUpdated(p, now, db.tasks[id], u)
    ensures UpdateLoad(db, id, p, now) == Err(InvalidArgument) <==> p.title == Some("") || !Writable(u, now)
    ensures UpdateLoad(db, id, p, now).Ok? <==> p.title != Some("") && Writable(u, now)
  {
    hide RemoteMerged;
  }

  // ----- Claim -----

  ghost predicate ClaimDone(before: Db, id: Id, assignee: Id, now: Time, after: Db) {
    && id in before.tasks && OthersStay(before, after, id) && after.rows == before.rows
    && after.tasks[id] == before.tasks[id].(assignee := Some(assignee), stage := Working, phase := InProgress,
                                            hold := None, updatedAt := now, version := before.tasks[id].version + 1)
  }

  lemma ClaimWriteDone(db: Db, id: Id, assignee: Id, now: Time)
    requires id in db.tasks
    ensures ClaimDone(db, id, assignee, now, ClaimWrite(db, id, assignee, db.tasks[id], now))
  {
  }

  // ----- Close -----

  /** The task is closed in the stage asked for; its hold, its assignee and the rest stay. */
  ghost predicate CloseDone(before: Db, id: Id, stage: Stage, now: Time, after: Db) {
    && id in before.tasks && OthersStay(before, after, id) && after.rows == before.rows
    && after.tasks[id] == before.tasks[id].(stage := stage, phase := Closed, closedAt := Some(now),
                                            updatedAt := now, version := before.tasks[id].version + 1)
  }

  lemma CloseWriteDone(db: Db, id: Id, stage: Stage, now: Time)
    requires id in db.tasks
    ensures CloseDone(db, id, stage, now, CloseWrite(db, id, stage, db.tasks[id], now))
  {
  }

  /** What closing does for others: a task is blocked afterwards exactly if something else still
      blocks it, or the closed task does and was not completed. */
  lemma CloseReleases(before: Db, id: Id, stage: Stage, now: Time, after: Db, t: Id)
    requires CloseDone(before, id, stage, now, after)
    ensures Blocked(after, t) <==>
              || (exists b :: b != id && Holds(before, b, t))
              || (EffectivelyBlocks(before.rows, id, t) && stage != Completed)
  {
    forall b ensures Holds(after, b, t) <==>
      (b != id && Holds(before, b, t)) || (b == id && EffectivelyBlocks(before.rows, id, t) && stage != Completed)
    {
    }
    BlockedIff(after, t);
  }

  lemma BlockedIff(db: Db, t: Id)
    ensures Blocked(db, t) <==> exists b :: Holds(db, b, t)
  {
    if Blocked(db, t) {
      var b :| b in db.tasks && EffectivelyBlocks(db.rows, b, t) && db.tasks[b].stage != Completed;
      assert Holds(db, b, t);
    }
    if b :| Holds(db, b, t) { assert b in db.tasks && EffectivelyBlocks(db.rows, b, t); }
  }

  /** b blocks t and is not completed. */
  predicate Holds(db: Db, b: Id, t: Id) {
    b in db.tasks && EffectivelyBlocks(db.rows, b, t) && db.tasks[b].stage != Completed
  }

  /** So only completing releases the tasks that wait for this one. */
  lemma UnfinishedCloseKeepsBlocking(before: Db, id: Id, stage: Stage, now: Time, after: Db, t: Id)
    requires CloseDone(before, id, stage, now, after) && stage != Completed && EffectivelyBlocks(before.rows, id, t)
    ensures Blocked(after, t)
  {
    CloseReleases(before, id, stage, now, after, t);
  }

  // ----- Create -----

  /** The new task has the columns asked for and starts at version 1, and the relation grows by
      exactly the edges asked for, each in the direction asked for. */
  ghost predicate CreateDone(before: Db, id: Id, p: CreateParams, now: Time, after: Db) {
    && OthersStay(before, after, id)
    && after.tasks[id] == Task(
         collection := p.collection, parent := p.parent, title := p.title,
         stage := p.stage, phase := p.phase, hold := p.hold,
         assignee := p.assignee, start := p.start, closedAt := None,
         createdAt := now, updatedAt := now, pullRequests := [], remote := None,
         details := p.details, version := 1)
    && (forall a, b :: EffectivelyBlocks(after.rows, a, b) <==>
          || EffectivelyBlocks(before.rows, a, b)
          || (a == id && b in p.blocks) || (b == id && a in p.blockedBy))
    && (forall a, b, k | k != Blocks && k != BlockedBy :: Row(a, b, k) in after.rows <==> Row(a, b, k) in before.rows)
  }

  lemma CreateWriteDone(db: Db, id: Id, p: CreateParams, now: Time)
    requires id !in db.tasks
    ensures CreateDone(db, id, p, now, CreateWrite(db, id, p, now))
  {
    var after := CreateWrite(db, id, p, now);
    forall a, b, k ensures Row(a, b, k) in after.rows <==>
      || Row(a, b, k) in db.rows
      || (a == id && k == Blocks && b in p.blocks) || (a == id && k == BlockedBy && b in p.blockedBy)
    {
      assert Row(a, b, k) in RowsTo(id, p.blocks, Blocks) <==> a == id && k == Blocks && b in p.blocks;
      assert Row(a, b, k) in RowsTo(id, p.blockedBy, BlockedBy) <==> a == id && k == BlockedBy && b in p.blockedBy;
    }
  }

  /** A creation is refused exactly if its task may not be written, has no title, or names a
      task that does not exist. */
  lemma CreateRefusedIff(db: Db, p: CreateParams, now: Time)
    ensures StoreCreateCheck(db, p, now) == Some(InvalidArgument)
            <==> p.title == "" || !WritableState(p.stage, p.hold, p.start, now)
    ensures StoreCreateCheck(db, p, now) == None <==>
              && p.title != "" && WritableState(p.stage, p.hold, p.start, now)
              && (p.parent.Some? ==> p.parent.value in db.tasks)
              && forall t | t in p.blocks || t in p.blockedBy :: t in db.tasks
    ensures StoreCreateCheck(db, p, now) in {None, Some(InvalidArgument), Some(ForeignKey)}
  {
  }

  /** The server lets a creation through exactly if the store would and its texts will do and it is
      not to be working. */
  lemma CreateAllowedIff(db: Db, p: CreateParams, now: Time)
    ensures CreateCheck(db, p, now).None? <==>
              && p.stage != Working && HasText(p.title) && |p.title| <= 512 && |p.details.description| <= 65536
              && WritableState(p.stage, p.hold, p.start, now)
              && (p.parent.Some? ==> p.parent.value in db.tasks)
              && forall t | t in p.blocks || t in p.blockedBy :: t in db.tasks
  {
    hide NameOk, HasText, WritableState;
    NameOkIff(p.title);
    CreateRefusedIff(db, p, now);
  }

  // ----- Insert -----

  /** And an insertion exactly if there are steps, all texts will do and the anchor is in the
      collection. */
  lemma InsertAllowedIff(db: Db, anchor: Id, collection: Id, steps: seq<StepParams>)
    ensures InsertCheck(db, anchor, collection, steps).None? <==>
              && steps != [] && anchor in db.tasks && db.tasks[anchor].collection == collection
              && forall s | s in steps :: HasText(s.title) && |s.title| <= 512 && |s.details.description| <= 65536
  {
    hide NameOk, HasText;
    forall s: StepParams { NameOkIff(s.title); }
  }

  predicate IsStep(s: StepParams, collection: Id, now: Time, t: Task) {
    && t.title == s.title && t.details == s.details && t.collection == collection
    && t.stage == Triage && t.phase == Open && t.hold.None? && t.assignee.None? && t.parent.None?
    && t.start.None? && t.closedAt.None? && t.createdAt == now && t.updatedAt == now
    && t.pullRequests == [] && t.remote.None? && t.version == 1
  }

  /** The anchor's blocks rows now lead to the first step only, each step's to the next one, and
      the last step's to where the anchor's led. No other row changes. */
  ghost predicate RowsSpliced(before: set<Row>, anchor: Id, ids: seq<Id>, after: set<Row>) {
    && (forall a, b, k | k != Blocks :: Row(a, b, k) in after <==> Row(a, b, k) in before)
    && (forall a, b | a != anchor && a !in ids :: Row(a, b, Blocks) in after <==> Row(a, b, Blocks) in before)
    && (forall b :: Row(anchor, b, Blocks) in after <==> ids != [] && b == ids[0])
    && (forall i, b | 0 <= i < |ids| ::
          Row(ids[i], b, Blocks) in after
          <==> if i == |ids| - 1 then Row(anchor, b, Blocks) in before else b == Next(ids, i))
  }

  function Next(ids: seq<Id>, i: nat): Id
    requires i + 1 < |ids|
  {
    ids[i + 1]
  }

  ghost predicate TasksInserted(before: Db, anchor: Id, collection: Id, steps: seq<StepParams>, ids: seq<Id>,
      now: Time, after: Db)
  {
    && |ids| == |steps| && anchor in before.tasks
    && after.tasks.Keys == before.tasks.Keys + Elements(ids)
    && after.tasks[anchor] == before.tasks[anchor].(updatedAt := now, version := before.tasks[anchor].version + 1)
    && (forall x | x in before.tasks && x != anchor :: after.tasks[x] == before.tasks[x])
    && (forall i | 0 <= i < |ids| :: ids[i] in after.tasks && IsStep(steps[i], collection, now, after.tasks[ids[i]]))
  }

  ghost predicate InsertDone(before: Db, anchor: Id, collection: Id, steps: seq<StepParams>, ids: seq<Id>,
      now: Time, after: Db)
  {
    TasksInserted(before, anchor, collection, steps, ids, now, after)
    && RowsSpliced(before.rows, anchor, ids, after.rows)
  }

  lemma SplicedRowsDone(db: Db, anchor: Id, ids: seq<Id>)
    requires db.ForeignKeys() && anchor in db.tasks && ids != [] && FreshIds(db, ids, |ids|)
    ensures RowsSpliced(db.rows, anchor, ids, SplicedRows(db.rows, anchor, ids))
  {
    hide SplicedRows, Spliced, FreshIds;
    var after := SplicedRows(db.rows, anchor, ids);
    forall a, b, k
      ensures k != Blocks ==> (Row(a, b, k) in after <==> Row(a, b, k) in db.rows)
      ensures a != anchor && a !in ids ==> (Row(a, b, Blocks) in after <==> Row(a, b, Blocks) in db.rows)
      ensures Row(anchor, b, Blocks) in after <==> b == ids[0]
    {
      SplicedRowIs(db, anchor, ids, a, b, k);
      SplicedRowIs(db, anchor, ids, a, b, Blocks);
      SplicedRowIs(db, anchor, ids, anchor, b, Blocks);
      SplicedElsewhere(db, anchor, ids, a, b);
    }
    forall i, b | 0 <= i < |ids|
      ensures Row(ids[i], b, Blocks) in after
              <==> if i == |ids| - 1 then Row(anchor, b, Blocks) in db.rows else b == Next(ids, i)
    {
      SplicedRowIs(db, anchor, ids, ids[i], b, Blocks);
      SplicedFromStep(db, anchor, ids, i, b);
    }
  }

  lemma SplicedElsewhere(db: Db, anchor: Id, ids: seq<Id>, a: Id, b: Id)
    requires anchor in db.tasks && ids != [] && FreshIds(db, ids, |ids|)
    ensures Spliced(db.rows, anchor, ids, a, b) ==> a == anchor || a in ids
    ensures Spliced(db.rows, anchor, ids, anchor, b) <==> b == ids[0]
  {
  }

  lemma SplicedFromStep(db: Db, anchor: Id, ids: seq<Id>, i: nat, b: Id)
    requires db.ForeignKeys() && anchor in db.tasks && ids != [] && FreshIds(db, ids, |ids|) && i < |ids|
    ensures Row(ids[i], b, Blocks) !in db.rows
    ensures Spliced(db.rows, anchor, ids, ids[i], b)
            <==> if i == |ids| - 1 then Row(anchor, b, Blocks) in db.rows else b == Next(ids, i)
  {
    assert ids[i] !in db.tasks;
  }

  /** The blocks rows of the chain, by where they start. */
  ghost predicate Spliced(rows: set<Row>, anchor: Id, ids: seq<Id>, a: Id, b: Id)
    requires ids != []
  {
    || (a == anchor && b == ids[0])
    || (exists i | 0 <= i < |ids| - 1 :: a == ids[i] && b == Next(ids, i))
    || (a == ids[|ids| - 1] && Row(anchor, b, Blocks) in rows)
  }

  lemma SplicedRowIs(db: Db, anchor: Id, ids: seq<Id>, a: Id, b: Id, k: RelType)
    requires db.ForeignKeys() && anchor in db.tasks && ids != [] && FreshIds(db, ids, |ids|)
    ensures Row(a, b, k) in SplicedRows(db.rows, anchor, ids) <==>
      (Row(a, b, k) in db.rows && !(a == anchor && k == Blocks)) || (k == Blocks && Spliced(db.rows, anchor, ids, a, b))
  {
    var chain, last := [anchor] + ids, ids[|ids| - 1];
    var down := DownstreamOf(db.rows, anchor);
    assert forall t :: t in down <==> Row(anchor, t, Blocks) in db.rows by {
      forall t | Row(anchor, t, Blocks) in db.rows ensures t in down { }
    }
    ChainRowIs(anchor, ids, a, b, k);
    assert ids[0] !in down;
  }

  lemma ChainRowIs(anchor: Id, ids: seq<Id>, a: Id, b: Id, k: RelType)
    requires ids != []
    ensures Row(a, b, k) in ChainRows([anchor] + ids) <==>
      k == Blocks && ((a == anchor && b == ids[0]) || exists i | 0 <= i < |ids| - 1 :: a == ids[i] && b == Next(ids, i))
  {
    var chain := [anchor] + ids;
    if Row(a, b, k) in ChainRows(chain) {
      var i :| 0 <= i < |chain| - 1 && Link(chain, i) == Row(a, b, k);
      if i > 0 { assert a == ids[i - 1] && b == Next(ids, i - 1); }
    }
    if k == Blocks && a == anchor && b == ids[0] { assert Link(chain, 0) == Row(a, b, k); }
    if i :| 0 <= i < |ids| - 1 && a == ids[i] && b == Next(ids, i) && k == Blocks {
      assert Link(chain, i + 1) == Row(a, b, k);
    }
  }

  lemma InsertWriteDone(db: Db, anchor: Id, collection: Id, steps: seq<StepParams>, ids: seq<Id>, now: Time)
    requires db.ForeignKeys() && anchor in db.tasks && steps != [] && FreshIds(db, ids, |steps|)
    ensures InsertDone(db, anchor, collection, steps, ids, now, InsertWrite(db, anchor, collection, steps, ids, now))
  {
    hide TasksInserted, RowsSpliced, SplicedRows, StepTasks;
    SplicedRowsDone(db, anchor, ids);
    InsertedTasksDone(db, anchor, collection, steps, ids, now);
  }

  lemma InsertedTasksDone(db: Db, anchor: Id, collection: Id, steps: seq<StepParams>, ids: seq<Id>, now: Time)
    requires anchor in db.tasks && steps != [] && FreshIds(db, ids, |steps|)
    ensures TasksInserted(db, anchor, collection, steps, ids, now, InsertWrite(db, anchor, collection, steps, ids, now))
  {
    hide SplicedRows, StepTasks, IsStep, StepTask;
    forall i | 0 <= i < |ids|
      ensures ids[i] in ids && IsStep(steps[i], collection, now, StepTasks(steps, collection, ids, now)[ids[i]])
    {
      StepTasksAt(steps, collection, ids, now, i);
      StepTaskIsStep(steps[i], collection, now);
    }
  }

  lemma StepTaskIsStep(s: StepParams, collection: Id, now: Time)
    ensures IsStep(s, collection, now, StepTask(s, collection, now))
  {
  }
}
