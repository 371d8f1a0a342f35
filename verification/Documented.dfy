/** What an export says of each stored task, and what an import makes of each entry of a
    document, column by column. */
module Documented {
  import opened Domain
  import opened Graph
  import opened Sequences
  import opened Document
  import opened ImportOrder
  import opened RemoteData
  import opened ExportImport
  import opened RoundTrip
  import opened Effects
  import Lifecycle

  // ----- Import -----

  /** A row of the document says that the task was blocked. */
  ghost predicate SaidBlocked(rows: seq<DocRow>, id: DocId) {
    exists r :: r in rows &&
      ((r.kind == Spelled(BlockedBy) && r.source == id) || (r.kind == Spelled(Blocks) && r.target == id))
  }

  /** The field spells this value, or is absent. */
  predicate Says<T(==)>(field: Option<Text<T>>, value: Option<T>) {
    if field.None? || field == Some(Junk("")) then value.None?
    else field.value.Spelled? && value == Some(field.value.value)
  }

  /** The stage and hold a document task comes to. The stages of today stay; of those removed
      since, all are accepted, and what kept the task waiting becomes a hold or its rows. */
  ghost predicate StateSaid(t: DocTask, rows: seq<DocRow>, version: int, now: Time,
      stage: Stage, hold: Option<HoldReason>)
  {
    t.stage.Spelled? &&
    match t.stage.value
    case Native(st) => stage == st && Says(t.hold, hold)
    case Backlog => version == 1 && stage == Accepted && hold == None
    case ReadyStage => version == 1 && stage == Accepted && hold == None
    case WaitingStage => version == 1 && stage == Accepted && hold == Some(WaitingForInput)
    case DeferredStage =>
      version == 1 && stage == Accepted
      && (if t.start.Some? && t.start.value > now then hold == None else hold == Some(Deferred))
    case ScheduledStage =>
      version == 1 && stage == Accepted && (if t.start.Some? then hold == None else hold == Some(Deferred))
    case BlockedStage =>
      version == 1 && stage == Accepted
      && (if SaidBlocked(rows, t.id) then hold == None else hold == Some(WaitingForInput))
  }

  /** The field is absent or names an entry of the map. */
  predicate MapsTo(field: Option<DocId>, ids: map<DocId, Id>, value: Option<Id>) {
    if field.None? || field == Some(Junk("")) then value.None?
    else field.value in ids && value == Some(ids[field.value])
  }

  predicate TimeSaid(said: Time, now: Time, value: Time) { value == if said == ZERO_TIME then now else said }

  ghost predicate TaskSaid(rules: Rules, doc: Doc, t: DocTask, coll: Id, a: Added, now: Time, row: Task) {
    && StateSaid(t, doc.rows, doc.version, now, row.stage, row.hold) && PhaseFits(row.stage, row.phase)
    && row.collection == coll && row.title == t.title && row.version == 1
    && MapsTo(t.assignee, a.userMap, row.assignee) && MapsTo(t.parent, a.taskMap, row.parent)
    && row.start == t.start && row.closedAt == t.closedAt
    && TimeSaid(t.createdAt, now, row.createdAt) && TimeSaid(t.updatedAt, now, row.updatedAt)
    && row.pullRequests == t.pullRequests
    && row.remote == (if t.remote.None? then None else Some(SanitizeMap(rules, t.remote.value, 0)))
    && Says(t.priority, row.details.priority) && Says(t.ci, row.details.ci)
    && row.details == t.details.(priority := row.details.priority, ci := row.details.ci)
  }

  lemma OldBlockerSaid(rows: seq<DocRow>, id: DocId)
    ensures OldBlocker(rows, id) <==> SaidBlocked(rows, id)
  {
  }

  lemma ImportedTaskSaid(rules: Rules, doc: Doc, t: DocTask, coll: Id, a: Added, now: Time, row: Task)
    requires ImportedTask(rules, t, coll, a.taskMap, a.userMap, OldBlocker(doc.rows, t.id), doc.version, now) == Ok(row)
    ensures TaskSaid(rules, doc, t, coll, a, now, row)
  {
    hide OldBlocker, SaidBlocked, SanitizeMap, UrlsAccepted, Lifecycle.StateOk;
    OldBlockerSaid(doc.rows, t.id);
    PhaseForStageFits(row.stage);
  }

  /** Every task of the document is stored as the document says. */
  lemma TasksAreAsSaid(rules: Rules, s: Site, doc: Doc, supply: Supply, now: Time, a: Added, s': Site, t: DocTask)
    requires supply.Fits(s, doc) && IsImport(rules, s, doc, supply, now, a, s') && t in doc.tasks
    ensures t.id in a.taskMap && a.taskMap[t.id] in s'.db.tasks
    ensures TaskSaid(rules, doc, t, supply.coll, a, now, s'.db.tasks[a.taskMap[t.id]])
  {
    hide UsersResolved, RowsImported, CommentsImported, TaskMap, ImportedTask, TaskSaid, OldBlocker, Supply.Fits;
    assert a.taskMap[t.id] in a.taskMap.Values;
    ImportedTaskSaid(rules, doc, t, supply.coll, a, now, a.tasks[a.taskMap[t.id]]);
  }

  /** The document gives the task a state it may be stored in. */
  ghost predicate StateAccepted(doc: Doc, t: DocTask, now: Time) {
    exists stage, hold ::
      StateSaid(t, doc.rows, doc.version, now, stage, hold) && WritableState(stage, hold, t.start, now)
  }

  ghost predicate Readable<T(!new)>(field: Option<Text<T>>) { exists value :: Says(field, value) }

  /** Whether a task of the document can be stored, by what the document says. */
  lemma AcceptedIff(rules: Rules, doc: Doc, t: DocTask, now: Time)
    ensures TaskAccepted(rules, t, OldBlocker(doc.rows, t.id), doc.version, now) <==>
              && StateAccepted(doc, t, now)
              && (forall p | p in t.pullRequests :: rules.validUrl(p.url))
              && (t.remote.Some? ==> ValidateMap(rules, t.remote.value, 0))
              && Readable(t.priority) && Readable(t.ci)
  {
    hide OldBlocker, MigrateTaskState, StateAccepted, Readable, Parse, ValidateMap, Lifecycle.StateOk;
    StateAcceptedIff(doc, t, now);
    ReadableIffParses(t.priority);
    ReadableIffParses(t.ci);
  }

  lemma ReadableIffParses<T(!new)>(field: Option<Text<T>>)
    ensures Parse(field).Ok? <==> Readable(field)
  {
    if Parse(field).Ok? { assert Says(field, Parse(field).value); }
  }

  lemma StateAcceptedIff(doc: Doc, t: DocTask, now: Time)
    ensures var r := MigrateTaskState(t, OldBlocker(doc.rows, t.id), doc.version, now);
            r.Ok? && Lifecycle.StateOk(r.value.0, r.value.1, t.start, false, now) <==> StateAccepted(doc, t, now)
  {
    hide OldBlocker, SaidBlocked;
    OldBlockerSaid(doc.rows, t.id);
    var r := MigrateTaskState(t, OldBlocker(doc.rows, t.id), doc.version, now);
    if r.Ok? {
      assert StateSaid(t, doc.rows, doc.version, now, r.value.0, r.value.1);
    }
    forall stage, hold | StateSaid(t, doc.rows, doc.version, now, stage, hold) ensures r == Ok((stage, hold)) {
    }
  }

  /** What an importable document refers to is there, and what it spells can be read. */
  lemma ImportableRefers(rules: Rules, s: Site, doc: Doc, now: Time)
    requires Importable(rules, s, doc, now)
    ensures forall u | u in doc.users :: u.id.Spelled?
    ensures forall t | t in doc.tasks ::
              && t.id.Spelled? && t.phase.Spelled?
              && (Given(t.assignee) ==> exists u :: u in doc.users && u.id == t.assignee.value)
              && (Given(t.parent) ==> exists d :: d in doc.tasks && d.id == t.parent.value)
    ensures forall c | c in doc.comments ::
              && c.id.Spelled? && c.body != ""
              && (exists t :: t in doc.tasks && t.id == c.task) && exists u :: u in doc.users && u.id == c.author
    ensures forall r | r in doc.rows ::
              && r.kind.Spelled?
              && (exists t :: t in doc.tasks && t.id == r.source) && exists t :: t in doc.tasks && t.id == r.target
  {
    hide AllAccepted, AllTitled, Matched;
  }

  /** The rows of the document between its tasks are stored, and no others. */
  lemma RowsAreAsSaid(rules: Rules, s: Site, doc: Doc, supply: Supply, now: Time, a: Added, s': Site,
      x: Id, y: Id, k: RelType)
    requires supply.Fits(s, doc) && IsImport(rules, s, doc, supply, now, a, s')
    ensures Row(x, y, k) in a.rows <==>
              exists r :: r in doc.rows && r.kind == Spelled(k)
                          && r.source in a.taskMap && a.taskMap[r.source] == x
                          && r.target in a.taskMap && a.taskMap[r.target] == y
    ensures s'.db.rows == s.db.rows + a.rows
  {
    hide UsersResolved, TasksImported, CommentsImported, TaskMap, Supply.Fits;
  }

  predicate CommentSaid(c: DocComment, a: Added, now: Time, row: Comment) {
    && c.task in a.taskMap && row.task == a.taskMap[c.task]
    && c.author in a.userMap && row.author == a.userMap[c.author]
    && row.body == c.body && TimeSaid(c.createdAt, now, row.createdAt) && TimeSaid(c.updatedAt, now, row.updatedAt)
  }

  lemma CommentsAreAsSaid(rules: Rules, s: Site, doc: Doc, supply: Supply, now: Time, a: Added, s': Site, i: nat)
    requires supply.Fits(s, doc) && IsImport(rules, s, doc, supply, now, a, s') && i < |doc.comments|
    ensures supply.comments[i] in s'.comments
    ensures CommentSaid(doc.comments[i], a, now, s'.comments[supply.comments[i]])
  {
    hide UsersResolved, TasksImported, RowsImported, TaskMap;
    assert supply.comments[i] in Elements(supply.comments);
  }

  /** The new collection is a native one with the name, texts and times of the document. */
  lemma CollectionIsAsSaid(rules: Rules, s: Site, doc: Doc, supply: Supply, now: Time, a: Added, s': Site)
    requires supply.Fits(s, doc) && IsImport(rules, s, doc, supply, now, a, s')
    ensures supply.coll in s'.collections
    ensures var c := s'.collections[supply.coll];
            && c.native && c.name == doc.name && c.description == doc.description
            && c.remote == (if doc.remote.None? then None else Some(SanitizeMap(rules, doc.remote.value, 0)))
            && TimeSaid(doc.createdAt, now, c.createdAt) && TimeSaid(doc.updatedAt, now, c.updatedAt)
  {
    hide UsersResolved, TasksImported, RowsImported, CommentsImported, TaskMap, Supply.Fits, SanitizeMap;
  }

  /** Who becomes an existing user: whoever has an address that exactly one existing user has. */
  lemma MatchedIff(users: map<Id, User>, u: User, y: Id)
    ensures UniqueMatch(users, u, y) <==>
              && u.email.Some? && |u.email.value| > 0
              && y in users && users[y].email == u.email
              && forall z | z in users && z != y :: users[z].email != u.email
    ensures UniqueMatch(users, u, y) ==> Matched(users, u)
  {
    if UniqueMatch(users, u, y) {
      assert y in WithEmail(users, u.email);
      forall z | z in users && z != y ensures users[z].email != u.email {
        assert z !in WithEmail(users, u.email);
      }
    }
  }

  // ----- Export -----

  /** What a document says of a stored task: everything, with the remote data sanitized. */
  ghost predicate SaysTask(rules: Rules, id: Id, t: Task, d: DocTask) {
    && d.id == Spelled(id) && d.title == t.title
    && d.phase == Spelled(t.phase) && d.stage == Spelled(Native(t.stage)) && Says(d.hold, t.hold)
    && Says(d.assignee, t.assignee) && Says(d.parent, t.parent)
    && d.start == t.start && d.closedAt == t.closedAt && d.createdAt == t.createdAt && d.updatedAt == t.updatedAt
    && d.pullRequests == t.pullRequests
    && d.remote == (if t.remote.None? then None else Some(SanitizeMap(rules, t.remote.value, 0)))
    && Says(d.priority, t.details.priority) && Says(d.ci, t.details.ci) && d.details == t.details
  }

  lemma ExportSaysAll(rules: Rules, s: Site, coll: Id, l: Listing, doc: Doc, id: Id)
    requires coll in s.collections && IsExport(rules, s, coll, l, doc) && id in TasksOf(s, coll)
    ensures exists d :: d in doc.tasks && SaysTask(rules, id, s.db.tasks[id], d)
  {
    ExportedTask(rules, s, coll, l, doc, id);
    hide IsExport, SanitizeMap, HasId;
    assert SaysTask(rules, id, s.db.tasks[id], TaskExport(rules, id, s.db.tasks[id]));
  }
}
