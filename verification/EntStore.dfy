/** The store's operations as they run when nothing comes between their load and their write:
    transactions over the task and relationship tables, each a working copy that is either
    committed whole or dropped. */
module EntStore {
  import opened Domain
  import opened Graph
  import opened Lifecycle
  import opened Effects
  import opened Searches
  import opened Sequences

  datatype Reason = ReasonTriage | ReasonTerminal | ReasonHeld | ReasonFutureStart | ReasonBlocked

  /** The loop over a task's rows that looks for a blocker that is not completed. A blocker
      that no longer exists does not count. */
  method HasUnsatisfiedBlocker(db: Db, id: Id) returns (blocked: bool)
    ensures blocked <==> Blocked(db, id)
  {
    var blockers := BlockerTargets(db, id);
    for i := 0 to |blockers|
      invariant forall k | 0 <= k < i :: !(blockers[k] in db.tasks && db.tasks[blockers[k]].stage != Completed)
    {
      if blockers[i] in db.tasks && db.tasks[blockers[i]].stage != Completed {
        assert EffectivelyBlocks(db.rows, blockers[i], id);
        return true;
      }
    }
    return false;
  }

  /** The order in which reasons are reported. */
  function Place(r: Reason): int {
    match r
    case ReasonTriage => 0
    case ReasonTerminal => 1
    case ReasonHeld => 2
    case ReasonFutureStart => 3
    case ReasonBlocked => 4
  }

  /** The reasons a task is not available, in order and each at most once. */
  method ComputeAvailability(db: Db, id: Id, now: Time) returns (reasons: seq<Reason>)
    requires id in db.tasks
    ensures ReasonTriage in reasons <==> db.tasks[id].stage == Triage
    ensures ReasonTerminal in reasons <==> IsTerminal(db.tasks[id].stage)
    ensures ReasonHeld in reasons <==> db.tasks[id].hold.Some?
    ensures ReasonFutureStart in reasons <==> InFuture(db.tasks[id].start, now)
    ensures ReasonBlocked in reasons <==> Blocked(db, id)
    ensures reasons == [] <==> Available(db, id, now)
    ensures Reported(reasons, 5)
  {
    hide Blocked, Reported, Report;
    var t := db.tasks[id];
    NoneReported();
    reasons := Report([], t.stage == Triage, ReasonTriage);
    reasons := Report(reasons, IsTerminal(t.stage), ReasonTerminal);
    reasons := Report(reasons, t.hold.Some?, ReasonHeld);
    reasons := Report(reasons, InFuture(t.start, now), ReasonFutureStart);
    var blocked := HasUnsatisfiedBlocker(db, id);
    reasons := Report(reasons, blocked, ReasonBlocked);
    assert reasons != [] ==> reasons[0] in reasons;
  }

  /** These reasons stand in order, and come before place n. */
  ghost predicate Reported(reasons: seq<Reason>, n: int) {
    && (forall r | r in reasons :: Place(r) < n)
    && forall i, j | 0 <= i < j < |reasons| :: Place(reasons[i]) < Place(reasons[j])
  }

  lemma NoneReported()
    ensures Reported([], 0)
  {
  }

  /** Appends a reason that applies. */
  function Report(reasons: seq<Reason>, applies: bool, r: Reason): (more: seq<Reason>)
    ensures forall x :: x in more <==> x in reasons || (applies && x == r)
    ensures Reported(reasons, Place(r)) ==> Reported(more, Place(r) + 1)
  {
    if applies then reasons + [r] else reasons
  }

  /** What GetReadyTasks lists without its include-unblocked option. */
  ghost predicate Ready(db: Db, id: Id, now: Time) {
    && id in db.tasks
    && db.tasks[id].phase == Open && db.tasks[id].stage == Accepted && db.tasks[id].hold.None?
    && Available(db, id, now)
  }

  datatype ReadyFilter = ReadyFilter(
    includeUnblocked: bool, collection: Option<Id>, assignee: Option<Id>, unassigned: bool,
    minPriority: Option<Priority>)
  {
    predicate Admits(t: Task) {
      && (collection.Some? ==> t.collection == collection.value)
      && (assignee.Some? ==> t.assignee == assignee)
      && (unassigned ==> t.assignee.None?)
      && (minPriority.Some?
          ==> t.details.priority.Some? && Urgency(t.details.priority.value) <= Urgency(minPriority.value))
    }

    /** What the query selects before availability is looked at. */
    predicate Queries(t: Task) {
      t.phase == Open && (includeUnblocked || (t.stage == Accepted && t.hold.None?)) && Admits(t)
    }
  }

  function Urgency(p: Priority): int {
    match p case Urgent => 0 case High => 1 case Normal => 2 case Low => 3
  }

  /** With the include-unblocked option every open task that is not blocked is listed, whatever
      else keeps it from being available. */
  ghost predicate Offered(db: Db, f: ReadyFilter, id: Id, now: Time) {
    && id in db.tasks && f.Queries(db.tasks[id])
    && (if f.includeUnblocked then !Blocked(db, id) else Available(db, id, now))
  }

  /** What is offered, column by column. The priorities from urgent down to the least one asked
      for are admitted. */
  lemma OfferedIff(db: Db, f: ReadyFilter, id: Id, now: Time)
    ensures Offered(db, f, id, now) <==>
              && id in db.tasks
              && var t := db.tasks[id];
              && t.phase == Open && !Blocked(db, id)
              && (!f.includeUnblocked ==>
                    t.stage == Accepted && t.hold.None? && (t.start.Some? ==> t.start.value <= now))
              && f.collection in {None, Some(t.collection)} && f.assignee in {None, t.assignee}
              && !(f.unassigned && t.assignee.Some?)
              && match f.minPriority
                 case None => true
                 case Some(Urgent) => t.details.priority == Some(Urgent)
                 case Some(High) => t.details.priority in {Some(Urgent), Some(High)}
                 case Some(Normal) => t.details.priority in {Some(Urgent), Some(High), Some(Normal)}
                 case Some(Low) => t.details.priority != None
  {
    hide Blocked;
  }

  /** Without the option the list has the ready tasks the filter admits. */
  lemma OfferedIsReady(db: Db, f: ReadyFilter, id: Id, now: Time)
    requires !f.includeUnblocked
    ensures Offered(db, f, id, now) <==> Ready(db, id, now) && f.Admits(db.tasks[id])
  {
  }

  /** The unpaged list of ready tasks. */
  method GetReadyTasks(db: Db, f: ReadyFilter, now: Time) returns (ready: seq<Id>)
    ensures NoRepeats(ready) && forall id :: id in ready <==> Offered(db, f, id, now)
  {
    var candidates := Rows(set id | id in db.tasks && f.Queries(db.tasks[id]));
    ready := [];
    for i := 0 to |candidates|
      invariant NoRepeats(ready)
      invariant forall id :: id in ready <==> id in candidates[..i] && Offered(db, f, id, now)
    {
      assert candidates[..i + 1] == candidates[..i] + [candidates[i]];
      assert candidates[i] in candidates && candidates[i] !in candidates[..i];
      hide Available, Blocked;
      var reasons := ComputeAvailability(db, candidates[i], now);
      if reasons == [] { AvailableIsUnblocked(db, candidates[i], now); }
      if reasons == [] || (f.includeUnblocked && ReasonBlocked !in reasons) {
        ready := ready + [candidates[i]];
      }
    }
    assert candidates[..|candidates|] == candidates;
  }

  lemma AvailableIsUnblocked(db: Db, id: Id, now: Time)
    requires id in db.tasks && Available(db, id, now)
    ensures !Blocked(db, id)
  {
  }

  /** Rows of one kind from one task, added one by one unless already there. */
  method AddRows(rows: set<Row>, tasks: map<Id, Task>, id: Id, targets: seq<Id>, kind: RelType)
    returns (ok: bool, more: set<Row>)
    requires forall r | r in rows :: r.target in tasks
    ensures ok <==> forall t | t in targets :: t in tasks
    ensures ok ==> more == rows + RowsTo(id, targets, kind)
  {
    more := rows;
    for i := 0 to |targets|
      invariant forall t | t in targets[..i] :: t in tasks
      invariant more == rows + RowsTo(id, targets[..i], kind)
    {
      var row := Row(id, targets[i], kind);
      assert targets[..i + 1] == targets[..i] + [targets[i]];
      assert RowsTo(id, targets[..i + 1], kind) == RowsTo(id, targets[..i], kind) + {row};
      if row !in more {
        if targets[i] !in tasks {
          assert targets[i] in targets;
          return false, rows;
        }
        more := more + {row};
      } else {
        assert row in rows || row in RowsTo(id, targets[..i], kind);
      }
    }
    assert targets[..|targets|] == targets;
    ok := true;
  }

  /** Creates the steps one by one; the store refuses an empty title, and then the transaction
      is rolled back. */
  method CreateSteps(steps: seq<StepParams>, collection: Id, ids: seq<Id>, now: Time)
    returns (inserted: map<Id, Task>, ok: bool)
    requires |ids| == |steps|
    ensures ok <==> forall s | s in steps :: s.title != ""
    ensures ok ==> inserted == StepTasks(steps, collection, ids, now)
  {
    inserted := map[];
    for i := 0 to |steps|
      invariant forall s | s in steps[..i] :: s.title != ""
      invariant inserted == StepTasks(steps[..i], collection, ids[..i], now)
    {
      if steps[i].title == "" {
        assert steps[i] in steps;
        return inserted, false;
      }
      inserted := inserted[ids[i] := StepTask(steps[i], collection, now)];
      assert steps[..i + 1][..i] == steps[..i] && ids[..i + 1][..i] == ids[..i];
      assert steps[..i + 1] == steps[..i] + [steps[i]];
    }
    assert steps[..|steps|] == steps && ids[..|steps|] == ids;
    ok := true;
  }

  /** The row edits of InsertTasksAfter: the chain, the last step's rows, and the removal of
      the anchor's own. */
  method Splice(rows: set<Row>, anchor: Id, ids: seq<Id>) returns (spliced: set<Row>)
    requires ids != []
    ensures spliced == SplicedRows(rows, anchor, ids)
  {
    var downstream := Rows(DownstreamOf(rows, anchor));
    var chain := [anchor] + ids;
    spliced := rows;
    for i := 0 to |chain| - 1
      invariant spliced == rows + set k | 0 <= k < i :: Link(chain, k)
    {
      spliced := spliced + {Link(chain, i)};
    }
    assert spliced == rows + ChainRows(chain);
    var last := ids[|ids| - 1];
    ghost var chained := spliced;
    for i := 0 to |downstream|
      invariant spliced == chained + RowsTo(last, downstream[..i], Blocks)
    {
      assert downstream[..i + 1] == downstream[..i] + [downstream[i]];
      spliced := spliced + {Row(last, downstream[i], Blocks)};
    }
    assert downstream[..|downstream|] == downstream;
    spliced := set r | r in spliced && !(r.source == anchor && r.target in downstream && r.kind == Blocks);
  }

  /** What an update that goes through leaves. */
  lemma UpdateAccepted(db: Db, id: Id, p: UpdateParams, now: Time)
    requires id in db.tasks && (p.version.Some? ==> p.version.value == db.tasks[id].version)
    ensures var after := UpdateWrite(db, id, db.tasks[id], p, now);
            UpdateDone(db, id, p, now, after)
            && (UpdateLoad(db, id, p, now).Ok? ==> p.title != Some("") && Writable(after.tasks[id], now))
  {
    UpdateWriteDone(db, id, p, now);
    UpdateRowDone(db.tasks[id], p, now);
    UpdateRefusedIff(db, id, p, now, UpdateRow(db.tasks[id], db.tasks[id], p, now));
  }

  class EntStore {
    var db: Db

    constructor ()
      ensures db == Db(map[], {})
    {
      db := Db(map[], {});
    }

    /** Creates one task under a fresh identifier, with its relationship rows. */
    method CreateTask(id: Id, p: CreateParams, now: Time) returns (r: Result<Task, Error>)
      requires db.ForeignKeys() && id !in db.tasks
      modifies this
      ensures db.ForeignKeys()
      ensures match StoreCreateCheck(old(db), p, now)
              case Some(e) => r == Err(e) && db == old(db)
              case None => db == CreateWrite(old(db), id, p, now) && r == Ok(NewTask(p, now))
      ensures r.Ok? ==> CreateDone(old(db), id, p, now, db) && r.value == db.tasks[id]
      ensures r.Err? ==> db == old(db)
      ensures r == Err(InvalidArgument) <==> p.title == "" || !WritableState(p.stage, p.hold, p.start, now)
      ensures r.Ok? <==>
                && p.title != "" && WritableState(p.stage, p.hold, p.start, now)
                && (p.parent.Some? ==> p.parent.value in old(db).tasks)
                && forall t | t in p.blocks || t in p.blockedBy :: t in old(db).tasks
    {
      hide CreateDone;
      CreateRefusedIff(db, p, now);
      CreateWriteDone(db, id, p, now);
      if !StateOk(p.stage, p.hold, p.start, false, now) { return Err(InvalidArgument); }
      if p.title == "" { return Err(InvalidArgument); }
      var t := NewTask(p, now);
      var tasks := db.tasks[id := t];
      var ok := p.parent.None? || p.parent.value in db.tasks;
      if !ok { return Err(ForeignKey); }
      var rows;
      ok, rows := AddRows(db.rows, db.tasks, id, p.blocks, Blocks);
      if !ok { return Err(ForeignKey); }
      ok, rows := AddRows(rows, db.tasks, id, p.blockedBy, BlockedBy);
      if !ok { return Err(ForeignKey); }
      db := Db(tasks, rows);
      r := Ok(t);
    }

    /** Updates one task. With nothing in between, a request that sends no version never meets
        a conflict, so the second attempt it would have is not needed. */
    method UpdateTask(id: Id, p: UpdateParams, now: Time) returns (r: Result<Task, Error>)
      requires db.ForeignKeys()
      modifies this
      ensures db.ForeignKeys()
      ensures match UpdateLoad(old(db), id, p, now)
              case Err(e) => r == Err(e) && db == old(db)
              case Ok(t) =>
                if p.version.Some? && p.version.value != t.version then r == Err(Conflict) && db == old(db)
                else if !UpdateKeysOk(old(db), p) then r == Err(ForeignKey) && db == old(db)
                else db == UpdateWrite(old(db), id, t, p, now) && r == Ok(db.tasks[id])
      ensures r.Ok? ==> UpdateDone(old(db), id, p, now, db) && r.value == db.tasks[id]
      ensures r.Ok? ==> p.title != Some("") && Writable(db.tasks[id], now)
      ensures r.Err? ==> db == old(db)
      ensures r == Err(NotFound) <==> id !in old(db).tasks
    {
      hide UpdateDone;
      if id in db.tasks && (p.version.Some? ==> p.version.value == db.tasks[id].version) {
        UpdateAccepted(db, id, p, now);
      }
      if id !in db.tasks { return Err(NotFound); }
      var prior := db.tasks[id];
      if !UpdateValid(prior, p, now) { return Err(InvalidArgument); }
      if p.title == Some("") { return Err(InvalidArgument); }
      if !VersionGuard(db, id, p.version, prior) { return Err(Conflict); }
      var tasks := db.tasks[id := UpdateRow(db.tasks[id], prior, p, now)];
      if !p.clearParent && p.parent.Some? && p.parent.value !in db.tasks { return Err(ForeignKey); }
      var ok, rows := AddRows(db.rows, db.tasks, id, p.addBlocks, Blocks);
      if !ok { return Err(ForeignKey); }
      ok, rows := AddRows(rows, db.tasks, id, p.addBlockedBy, BlockedBy);
      if !ok { return Err(ForeignKey); }
      ghost var added := rows;
      for i := 0 to |p.removeRelationships|
        invariant rows == set x | x in added && !(x.source == id && x.target in p.removeRelationships[..i])
      {
        rows := set x | x in rows && !(x.source == id && x.target == p.removeRelationships[i]);
        assert p.removeRelationships[..i + 1] == p.removeRelationships[..i] + [p.removeRelationships[i]];
      }
      assert p.removeRelationships[..|p.removeRelationships|] == p.removeRelationships;
      db := Db(tasks, rows);
      r := Ok(tasks[id]);
    }

    /** Claims one task. It succeeds exactly for a ready, unassigned task whose version is the
        one sent, if one was sent. */
    method ClaimTask(id: Id, assignee: Id, given: Given, now: Time) returns (r: Result<Task, Error>)
      requires db.ForeignKeys()
      modifies this
      ensures db.ForeignKeys()
      ensures r.Ok? <==>
                && Ready(old(db), id, now) && old(db).tasks[id].assignee.None?
                && (given.None? || given.value == old(db).tasks[id].version)
      ensures r.Ok? ==> db == ClaimWrite(old(db), id, assignee, old(db).tasks[id], now) && r.value == db.tasks[id]
      ensures r.Ok? ==> ClaimDone(old(db), id, assignee, now, db)
      ensures r.Err? ==> db == old(db)
      ensures r == Err(NotFound) <==> id !in old(db).tasks
      ensures r == Err(AlreadyClosed) <==> id in old(db).tasks && old(db).tasks[id].phase == Closed
      ensures r == Err(AlreadyClaimed) <==>
                && id in old(db).tasks && old(db).tasks[id].phase != Closed
                && Available(old(db), id, now) && old(db).tasks[id].assignee.Some?
      ensures r == Err(Conflict) <==>
                && Ready(old(db), id, now) && old(db).tasks[id].assignee.None?
                && given.Some? && given.value != old(db).tasks[id].version
      ensures r.Err? ==>
                match ClaimLoad(old(db), id, now)
                case Err(e) => r.error == e
                case Ok(_) =>
                  match ClaimDiagnose(old(db), id, now)
                  case Some(e) => r.error == e
                  case None => r.error == Conflict
    {
      BlockerConditionsAgree(db, id);
      if id !in db.tasks { return Err(NotFound); }
      var prior := db.tasks[id];
      if prior.phase == Closed { return Err(AlreadyClosed); }
      var reasons := ComputeAvailability(db, id, now);
      if reasons != [] { return Err(Unavailable); }
      if prior.assignee.Some? { return Err(AlreadyClaimed); }
      if ClaimGuard(db, id, given, prior, now) {
        db := ClaimWrite(db, id, assignee, prior, now);
        return Ok(db.tasks[id]);
      }
      var current := db.tasks[id];
      if current.assignee.Some? { return Err(AlreadyClaimed); }
      if current.phase == Closed { return Err(AlreadyClosed); }
      if current.phase != Open || current.stage != Accepted || current.hold.Some? { return Err(Unavailable); }
      reasons := ComputeAvailability(db, id, now);
      if reasons != [] { return Err(Unavailable); }
      // Only a wrong version is left; without one the guard would have held.
      assert given.Some?;
      return Err(Conflict);
    }

    method CloseTask(id: Id, stage: Stage, given: Given, now: Time) returns (r: Result<Task, Error>)
      requires db.ForeignKeys()
      modifies this
      ensures db.ForeignKeys()
      ensures match CloseLoad(old(db), id, stage)
              case Err(e) => r == Err(e) && db == old(db)
              case Ok(t) =>
                if given.Some? && given.value != t.version then r == Err(Conflict) && db == old(db)
                else db == CloseWrite(old(db), id, stage, t, now) && r == Ok(db.tasks[id])
      ensures r.Ok? <==>
                && stage in {Completed, WontFix, Duplicate, Cancelled}
                && id in old(db).tasks && old(db).tasks[id].phase != Closed
                && (given.None? || given.value == old(db).tasks[id].version)
      ensures r == Err(InvalidArgument) <==> stage !in {Completed, WontFix, Duplicate, Cancelled}
      ensures r == Err(NotFound) <==> stage in {Completed, WontFix, Duplicate, Cancelled} && id !in old(db).tasks
      ensures r == Err(AlreadyClosed) <==>
                && stage in {Completed, WontFix, Duplicate, Cancelled}
                && id in old(db).tasks && old(db).tasks[id].phase == Closed
      ensures r.Ok? ==> CloseDone(old(db), id, stage, now, db) && r.value == db.tasks[id]
      ensures r.Err? ==> db == old(db)
    {
      if !IsTerminal(stage) { return Err(InvalidArgument); }
      if id !in db.tasks { return Err(NotFound); }
      var prior := db.tasks[id];
      if prior.phase == Closed { return Err(AlreadyClosed); }
      if VersionGuard(db, id, given, prior) {
        db := CloseWrite(db, id, stage, prior, now);
        return Ok(db.tasks[id]);
      }
      assert given.Some?;
      return Err(Conflict);
    }

    /** Splices a chain of new triage tasks between the anchor and what it blocks. */
    method InsertTasksAfter(anchor: Id, collection: Id, steps: seq<StepParams>, ids: seq<Id>, now: Time)
      returns (failed: Option<Error>)
      requires FreshIds(db, ids, |steps|)
      modifies this
      ensures failed == StoreInsertCheck(old(db), anchor, collection, steps)
      ensures failed.Some? ==> db == old(db)
      ensures failed.None? ==> db == InsertWrite(old(db), anchor, collection, steps, ids, now)
      ensures failed.None? <==>
                && steps != [] && anchor in old(db).tasks && old(db).tasks[anchor].collection == collection
                && forall s | s in steps :: s.title != ""
      ensures failed.None? && old(db).ForeignKeys() ==> InsertDone(old(db), anchor, collection, steps, ids, now, db)
    {
      hide SplicedRows, StepTasks, InsertDone, Db.ForeignKeys;
      if steps == [] { return Some(InvalidArgument); }
      if anchor !in db.tasks || db.tasks[anchor].collection != collection { return Some(NotFound); }
      assert ids != [] && |ids| == |steps|;
      if db.ForeignKeys() { InsertWriteDone(db, anchor, collection, steps, ids, now); }
      var inserted, ok := CreateSteps(steps, collection, ids, now);
      if !ok { return Some(InvalidArgument); }
      var rows := Splice(db.rows, anchor, ids);
      var t := db.tasks[anchor];
      var bumped := db.tasks[anchor := t.(version := t.version + 1, updatedAt := now)];
      db := Db(bumped + inserted, rows);
      failed := None;
    }
  }
}
