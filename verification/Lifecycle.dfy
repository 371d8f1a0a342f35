/** What each task request reads, checks and writes. A request first loads the task it works
    on, then issues one guarded write; the functions here give the two halves separately, so
    that other requests can come in between. */
module Lifecycle {
  import opened Domain
  import opened Graph
  import opened Sequences

  datatype Error =
    | NotFound | Conflict | AlreadyClosed | AlreadyClaimed | Unavailable | InvalidArgument | ForeignKey

  /** A version sent with a request. A string that is no version numeral never matches a
      stored version; it is represented by a negative number. */
  type Given = Option<int>

  datatype UpdateParams = UpdateParams(
    version: Given, title: Option<string>, stage: Option<Stage>,
    hold: Option<HoldReason>, clearHold: bool,
    assignee: Option<Id>, clearAssignee: bool,
    parent: Option<Id>, clearParent: bool,
    start: Option<Time>, clearStart: bool,
    remote: Option<map<string, Json>>, pullRequests: seq<PullRequest>, details: Option<Details>,
    addBlocks: seq<Id>, addBlockedBy: seq<Id>, removeRelationships: seq<Id>)

  datatype CreateParams = CreateParams(
    title: string, collection: Id, stage: Stage, phase: Phase, hold: Option<HoldReason>,
    assignee: Option<Id>, parent: Option<Id>, start: Option<Time>, details: Details,
    blocks: seq<Id>, blockedBy: seq<Id>)

  // ----- Names -----

  const MAX_NAME := 512
  const MAX_DESCRIPTION := 65536

  /** Unicode's white space. */
  predicate IsSpace(c: char) {
    var n := c as int;
    9 <= n <= 13 || n in {0x20, 0x85, 0xA0, 0x1680, 0x2028, 0x2029, 0x202F, 0x205F, 0x3000} || 0x2000 <= n <= 0x200A
  }

  predicate Blank(s: string) { forall i | 0 <= i < |s| :: IsSpace(s[i]) }

  /** validateTaskName. */
  predicate NameOk(name: string) { !Blank(name) && |name| <= MAX_NAME }

  /** validateTaskDescription. */
  predicate DescriptionOk(description: string) { |description| <= MAX_DESCRIPTION }

  ghost predicate HasText(s: string) { exists k :: 0 <= k < |s| && !IsSpace(s[k]) }

  lemma NameOkIff(name: string)
    ensures NameOk(name) <==> HasText(name) && |name| <= 512
    ensures NameOk(name) ==> name != ""
  {
  }

  // ----- State checks -----

  predicate InFuture(start: Option<Time>, now: Time) { start.Some? && start.value > now }

  /** validateTaskStateForWrite. */
  predicate StateOk(stage: Stage, hold: Option<HoldReason>, start: Option<Time>, clearing: bool, now: Time) {
    hold.None? || (MayHold(stage) && !(hold == Some(Deferred) && InFuture(start, now) && !clearing))
  }

  /** What every stored task satisfies. A closed task may still carry its hold reason. */
  predicate TaskInv(t: Task, now: Time) {
    && t.phase == PhaseForStage(t.stage)
    && (t.stage == Triage ==> t.hold.None?)
    && !(t.hold == Some(Deferred) && InFuture(t.start, now))
  }

  ghost predicate DbInv(db: Db, now: Time) { forall id | id in db.tasks :: TaskInv(db.tasks[id], now) }

  // ----- Blockers and availability -----

  /** Some effective blocker is not completed. */
  ghost predicate Blocked(db: Db, id: Id) {
    exists b :: b in db.tasks && EffectivelyBlocks(db.rows, b, id) && db.tasks[b].stage != Completed
  }

  /** The two NOT EXISTS conditions the guarded write adds. */
  predicate NoUnsatisfiedBlocker(db: Db, id: Id) {
    && !(exists r | r in db.rows ::
           r.source == id && r.kind == BlockedBy && r.target in db.tasks && db.tasks[r.target].stage != Completed)
    && !(exists r | r in db.rows ::
           r.target == id && r.kind == Blocks && r.source in db.tasks && db.tasks[r.source].stage != Completed)
  }

  lemma BlockerConditionsAgree(db: Db, id: Id)
    ensures NoUnsatisfiedBlocker(db, id) <==> !Blocked(db, id)
  {
    if Blocked(db, id) {
      var b :| b in db.tasks && EffectivelyBlocks(db.rows, b, id) && db.tasks[b].stage != Completed;
      assert Row(id, b, BlockedBy) in db.rows || Row(b, id, Blocks) in db.rows;
    }
    if !NoUnsatisfiedBlocker(db, id) {
      if r :| r in db.rows && (r.source == id && r.kind == BlockedBy && r.target in db.tasks
                               && db.tasks[r.target].stage != Completed) {
        assert r == Row(id, r.target, BlockedBy);
        assert EffectivelyBlocks(db.rows, r.target, id);
      } else {
        var r :| r in db.rows && r.target == id && r.kind == Blocks && r.source in db.tasks
            && db.tasks[r.source].stage != Completed;
        assert r == Row(r.source, id, Blocks);
        assert EffectivelyBlocks(db.rows, r.source, id);
      }
    }
  }

  ghost predicate Available(db: Db, id: Id, now: Time)
    requires id in db.tasks
  {
    var t := db.tasks[id];
    && t.stage != Triage && !IsTerminal(t.stage) && t.hold.None? && !InFuture(t.start, now)
    && !Blocked(db, id)
  }

  // ----- Update -----

  function Effective<T>(clear: bool, given: Option<T>, current: Option<T>): Option<T> {
    if clear then None else if given.Some? then given else current
  }

  /** Giving a start date lifts a deferred hold that is not renewed in the same request. */
  predicate LiftsHold(prior: Task, p: UpdateParams) {
    && !p.clearStart && p.start.Some? && p.hold.None?
    && Effective(p.clearHold, p.hold, prior.hold) == Some(Deferred)
  }

  function HoldAfter(prior: Task, p: UpdateParams): Option<HoldReason> {
    if LiftsHold(prior, p) then None else Effective(p.clearHold, p.hold, prior.hold)
  }

  function StageAfter(prior: Task, p: UpdateParams): Stage { if p.stage.Some? then p.stage.value else prior.stage }

  predicate UpdateValid(prior: Task, p: UpdateParams, now: Time) {
    StateOk(StageAfter(prior, p), HoldAfter(prior, p), Effective(p.clearStart, p.start, prior.start), p.clearStart, now)
  }

  function UpdateLoad(db: Db, id: Id, p: UpdateParams, now: Time): Result<Task, Error> {
    if id !in db.tasks then Err(NotFound)
    else if !UpdateValid(db.tasks[id], p, now) || p.title == Some("") then Err(InvalidArgument)
    else Ok(db.tasks[id])
  }

  function Expected(given: Given, prior: Task): int { if given.Some? then given.value else prior.version }

  /** The WHERE clause of the UPDATE. */
  predicate VersionGuard(db: Db, id: Id, given: Given, prior: Task) {
    id in db.tasks && db.tasks[id].version == Expected(given, prior)
  }

  /** The SET clause: columns not mentioned keep the value of the row that is there, merged
      columns are computed from the row that was loaded. */
  function UpdateRow(cur: Task, prior: Task, p: UpdateParams, now: Time): Task {
    cur.(
      title := if p.title.Some? then p.title.value else cur.title,
      stage := StageAfter(cur, p),
      phase := if p.stage.Some? then PhaseForStage(p.stage.value) else cur.phase,
      hold := if !p.clearHold && p.hold.None? && LiftsHold(prior, p) then None
              else Effective(p.clearHold, p.hold, cur.hold),
      assignee := Effective(p.clearAssignee, p.assignee, cur.assignee),
      parent := Effective(p.clearParent, p.parent, cur.parent),
      start := Effective(p.clearStart, p.start, cur.start),
      pullRequests := if p.pullRequests == [] then cur.pullRequests else prior.pullRequests + p.pullRequests,
      remote := if p.remote.None? then cur.remote
                else Some((if prior.remote.Some? then prior.remote.value else map[]) + p.remote.value),
      details := if p.details.Some? then p.details.value else cur.details,
      updatedAt := now,
      version := Expected(p.version, prior) + 1)
  }

  predicate UpdateKeysOk(db: Db, p: UpdateParams) {
    && (!p.clearParent && p.parent.Some? ==> p.parent.value in db.tasks)
    && (forall t | t in p.addBlocks :: t in db.tasks)
    && (forall t | t in p.addBlockedBy :: t in db.tasks)
  }

  function RowsTo(id: Id, targets: seq<Id>, kind: RelType): set<Row> { set t | t in targets :: Row(id, t, kind) }

  function UpdateRows(rows: set<Row>, id: Id, p: UpdateParams): set<Row> {
    var added := rows + RowsTo(id, p.addBlocks, Blocks) + RowsTo(id, p.addBlockedBy, BlockedBy);
    set r | r in added && !(r.source == id && r.target in p.removeRelationships)
  }

  function UpdateWrite(db: Db, id: Id, prior: Task, p: UpdateParams, now: Time): Db
    requires id in db.tasks
  {
    Db(db.tasks[id := UpdateRow(db.tasks[id], prior, p, now)], UpdateRows(db.rows, id, p))
  }

  // ----- Claim -----

  ghost function ClaimLoad(db: Db, id: Id, now: Time): Result<Task, Error> {
    if id !in db.tasks then Err(NotFound)
    else if db.tasks[id].phase == Closed then Err(AlreadyClosed)
    else if !Available(db, id, now) then Err(Unavailable)
    else if db.tasks[id].assignee.Some? then Err(AlreadyClaimed)
    else Ok(db.tasks[id])
  }

  /** The WHERE clause of the claiming UPDATE. */
  predicate ClaimGuard(db: Db, id: Id, given: Given, prior: Task, now: Time) {
    && VersionGuard(db, id, given, prior)
    && var t := db.tasks[id];
    && t.assignee.None? && t.phase == Open && t.stage == Accepted && t.hold.None? && !InFuture(t.start, now)
    && NoUnsatisfiedBlocker(db, id)
  }

  function ClaimWrite(db: Db, id: Id, assignee: Id, prior: Task, now: Time): Db
    requires id in db.tasks
  {
    db.(tasks := db.tasks[id := db.tasks[id].(
      assignee := Some(assignee), phase := InProgress, stage := Working, hold := None,
      updatedAt := now, version := prior.version + 1)])
  }

  /** Why a claim whose write matched no row failed; None when only the version can be it. */
  ghost function ClaimDiagnose(db: Db, id: Id, now: Time): Option<Error> {
    if id !in db.tasks then Some(NotFound)
    else
      var t := db.tasks[id];
      if t.assignee.Some? then Some(AlreadyClaimed)
      else if t.phase == Closed then Some(AlreadyClosed)
      else if t.phase != Open || t.stage != Accepted || t.hold.Some? then Some(Unavailable)
      else if !Available(db, id, now) then Some(Unavailable)
      else None
  }

  // ----- Close -----

  function CloseLoad(db: Db, id: Id, stage: Stage): Result<Task, Error> {
    if !IsTerminal(stage) then Err(InvalidArgument)
    else if id !in db.tasks then Err(NotFound)
    else if db.tasks[id].phase == Closed then Err(AlreadyClosed)
    else Ok(db.tasks[id])
  }

  function CloseWrite(db: Db, id: Id, stage: Stage, prior: Task, now: Time): Db
    requires id in db.tasks
  {
    db.(tasks := db.tasks[id := db.tasks[id].(
      phase := Closed, stage := stage, closedAt := Some(now),
      updatedAt := now, version := prior.version + 1)])
  }

  /** What the server lets through: no blank or overlong text, and no move to working. */
  predicate UpdateAllowed(p: UpdateParams) {
    && (p.title.Some? ==> NameOk(p.title.value)) && (p.details.Some? ==> DescriptionOk(p.details.value.description))
    && p.stage != Some(Working)
  }

  predicate StepsAllowed(steps: seq<StepParams>) {
    forall s | s in steps :: NameOk(s.title) && DescriptionOk(s.details.description)
  }

  // ----- Create -----

  function NewTask(p: CreateParams, now: Time): Task {
    Task(p.collection, p.parent, p.title, p.stage, p.phase, p.hold,
         p.assignee, p.start, None, now, now, [], None, p.details, 1)
  }

  predicate CreateKeysOk(db: Db, p: CreateParams) {
    && (p.parent.Some? ==> p.parent.value in db.tasks)
    && (forall t | t in p.blocks :: t in db.tasks)
    && (forall t | t in p.blockedBy :: t in db.tasks)
  }

  /** The store checks the state, the title and the keys. */
  function StoreCreateCheck(db: Db, p: CreateParams, now: Time): Option<Error> {
    if !StateOk(p.stage, p.hold, p.start, false, now) || p.title == "" then Some(InvalidArgument)
    else if !CreateKeysOk(db, p) then Some(ForeignKey)
    else None
  }

  /** The server derives the phase from the stage. It refuses blank or overlong texts and to
      create in working. */
  function ServerParams(p: CreateParams): CreateParams { p.(phase := PhaseForStage(p.stage)) }

  function CreateCheck(db: Db, p: CreateParams, now: Time): Option<Error> {
    if !NameOk(p.title) || !DescriptionOk(p.details.description) || p.stage == Working then Some(InvalidArgument)
    else StoreCreateCheck(db, p, now)
  }

  function CreateWrite(db: Db, id: Id, p: CreateParams, now: Time): Db {
    Db(db.tasks[id := NewTask(p, now)],
       db.rows + RowsTo(id, p.blocks, Blocks) + RowsTo(id, p.blockedBy, BlockedBy))
  }

  // ----- Insert a chain of steps after an anchor -----

  datatype StepParams = StepParams(title: string, details: Details)

  function StepTask(s: StepParams, collection: Id, now: Time): Task {
    NewTask(CreateParams(s.title, collection, Triage, Open, None, None, None, None, s.details, [], []), now)
  }

  /** Fresh identifiers, one a step. */
  predicate FreshIds(db: Db, ids: seq<Id>, n: nat) {
    |ids| == n && NoRepeats(ids) && forall i | 0 <= i < n :: ids[i] !in db.tasks
  }

  /** The store checks the anchor and the titles. */
  function StoreInsertCheck(db: Db, anchor: Id, collection: Id, steps: seq<StepParams>): Option<Error> {
    if steps == [] then Some(InvalidArgument)
    else if anchor !in db.tasks || db.tasks[anchor].collection != collection then Some(NotFound)
    else if exists s | s in steps :: s.title == "" then Some(InvalidArgument)
    else None
  }

  /** The server checks the texts first. */
  function InsertCheck(db: Db, anchor: Id, collection: Id, steps: seq<StepParams>): Option<Error> {
    if !StepsAllowed(steps) then Some(InvalidArgument) else StoreInsertCheck(db, anchor, collection, steps)
  }

  /** The tasks the anchor blocks by a blocks row of its own. */
  function DownstreamOf(rows: set<Row>, anchor: Id): set<Id> {
    set r | r in rows && r.source == anchor && r.kind == Blocks :: r.target
  }

  function Link(chain: seq<Id>, i: nat): Row
    requires i + 1 < |chain|
  {
    Row(chain[i], chain[i + 1], Blocks)
  }

  function ChainRows(chain: seq<Id>): set<Row> {
    set i | 0 <= i < |chain| - 1 :: Link(chain, i)
  }

  function SplicedRows(rows: set<Row>, anchor: Id, ids: seq<Id>): set<Row>
    requires ids != []
  {
    var down := DownstreamOf(rows, anchor);
    rows + ChainRows([anchor] + ids) + (set t | t in down :: Row(ids[|ids| - 1], t, Blocks))
    - (set t | t in down :: Row(anchor, t, Blocks))
  }

  function StepTasks(steps: seq<StepParams>, collection: Id, ids: seq<Id>, now: Time): (m: map<Id, Task>)
    requires |ids| == |steps|
    ensures forall id :: id in m <==> id in ids
  {
    if ids == [] then map[]
    else
      var n := |ids| - 1;
      StepTasks(steps[..n], collection, ids[..n], now)[ids[n] := StepTask(steps[n], collection, now)]
  }

  function InsertWrite(db: Db, anchor: Id, collection: Id, steps: seq<StepParams>, ids: seq<Id>, now: Time): Db
    requires anchor in db.tasks && steps != [] && FreshIds(db, ids, |steps|)
  {
    var t := db.tasks[anchor];
    var bumped := db.tasks[anchor := t.(version := t.version + 1, updatedAt := now)];
    Db(bumped + StepTasks(steps, collection, ids, now), SplicedRows(db.rows, anchor, ids))
  }

  lemma {:induction false} StepTasksAt(steps: seq<StepParams>, collection: Id, ids: seq<Id>, now: Time, i: nat)
    requires |ids| == |steps| && i < |ids| && NoRepeats(ids)
    ensures StepTasks(steps, collection, ids, now)[ids[i]] == StepTask(steps[i], collection, now)
    decreases |ids|
  {
    hide StepTask, StepTasks;
    var n := |ids| - 1;
    StepTasksLast(steps, collection, ids, now);
    if i < n {
      assert ids[..n][i] == ids[i] && steps[..n][i] == steps[i];
      StepTasksAt(steps[..n], collection, ids[..n], now, i);
    }
  }

  lemma StepTasksLast(steps: seq<StepParams>, collection: Id, ids: seq<Id>, now: Time)
    requires |ids| == |steps| > 0
    ensures var n := |ids| - 1;
            StepTasks(steps, collection, ids, now)
            == StepTasks(steps[..n], collection, ids[..n], now)[ids[n] := StepTask(steps[n], collection, now)]
  {
    hide StepTask;
  }

  // ----- The invariant, write by write -----

  /** An update that passed its check when loaded keeps the invariant, even if its write comes
      later, as long as the row is still the one that was loaded. */
  lemma UpdateKeepsInv(t: Task, p: UpdateParams, checked: Time, now: Time)
    requires TaskInv(t, now) && checked <= now && UpdateValid(t, p, checked)
    ensures TaskInv(UpdateRow(t, t, p, now), now)
  {
    var u := UpdateRow(t, t, p, now);
    assert u.hold == HoldAfter(t, p) && u.stage == StageAfter(t, p);
    assert u.start == Effective(p.clearStart, p.start, t.start);
  }

  lemma StepTasksInv(steps: seq<StepParams>, collection: Id, ids: seq<Id>, now: Time, id: Id)
    requires |ids| == |steps| && NoRepeats(ids) && id in ids
    ensures var t := StepTasks(steps, collection, ids, now)[id];
            t.stage == Triage && t.version == 1 && TaskInv(t, now)
  {
    var i :| 0 <= i < |ids| && ids[i] == id;
    StepTasksAt(steps, collection, ids, now, i);
  }
}
