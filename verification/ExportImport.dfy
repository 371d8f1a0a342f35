/** Exporting a collection to a document and importing a document as a new collection. */
module ExportImport {
  import opened Domain
  import opened Graph
  import opened Sequences
  import opened Document
  import opened ImportOrder
  import opened RemoteData
  import Lifecycle

  /** Instants are counted from the zero time, which stands for "not set". */
  const ZERO_TIME: Time := 0

  datatype Collection = Collection(
    native: bool, name: string, description: string, remote: Option<map<string, Json>>, createdAt: Time,
        updatedAt: Time)

  datatype Comment = Comment(task: Id, author: Id, body: string, createdAt: Time, updatedAt: Time)

  /** All tables an export reads and an import writes. */
  datatype Site = Site(db: Db, collections: map<Id, Collection>, comments: map<Id, Comment>, users: map<Id, User>)

  datatype TransferError = NoSuchCollection | NoSuchUser | FailedPrecondition | InvalidDocument | StoreRefused

  // ----- Export -----

  function Spell<T>(v: Option<T>): Option<Text<T>> { if v.Some? then Some(Spelled(v.value)) else None }

  function TaskExport(rules: Rules, id: Id, t: Task): DocTask {
    DocTask(Spelled(id), t.title, Spelled(t.phase), Spelled(Native(t.stage)), Spell(t.hold),
            Spell(t.details.priority), Spell(t.details.ci), Spell(t.assignee), Spell(t.parent),
            t.start, t.closedAt, t.createdAt, t.updatedAt,
            t.pullRequests, SanitizeRemoteData(rules, t.remote), t.details)
  }

  function CommentExport(id: Id, c: Comment): DocComment {
    DocComment(Spelled(id), Spelled(c.task), Spelled(c.author), c.body, c.createdAt, c.updatedAt)
  }

  function RowExport(r: Row): DocRow { DocRow(Spelled(r.source), Spelled(r.target), Spelled(r.kind)) }

  function TasksOf(s: Site, coll: Id): set<Id> { set id | id in s.db.tasks && s.db.tasks[id].collection == coll }

  function CommentsOf(s: Site, coll: Id): set<Id> {
    set c | c in s.comments && s.comments[c].task in TasksOf(s, coll)
  }

  /** Rows with both ends in the collection; the others are dropped with a warning. */
  function RowsOf(s: Site, coll: Id): set<Row> {
    set r | r in s.db.rows && r.source in TasksOf(s, coll) && r.target in TasksOf(s, coll)
  }

  function UsersOf(s: Site, coll: Id): set<Id> {
    (set t | t in TasksOf(s, coll) && s.db.tasks[t].assignee.Some? :: s.db.tasks[t].assignee.value)
    + (set c | c in CommentsOf(s, coll) :: s.comments[c].author)
  }

  /** The order in which a document lists what it exports. */
  datatype Listing = Listing(tasks: seq<Id>, comments: seq<Id>, rows: seq<Row>, users: seq<Id>)

  ghost predicate Lists<T(!new)>(q: seq<T>, s: set<T>) { NoRepeats(q) && forall x :: x in q <==> x in s }

  ghost predicate IsExport(rules: Rules, s: Site, coll: Id, l: Listing, doc: Doc)
    requires coll in s.collections
  {
    var c := s.collections[coll];
    && Lists(l.tasks, TasksOf(s, coll)) && Lists(l.comments, CommentsOf(s, coll))
    && Lists(l.rows, RowsOf(s, coll)) && Lists(l.users, UsersOf(s, coll))
    && doc.version == 2 && doc.generator == GENERATOR && doc.native == c.native
    && doc.name == c.name && doc.description == c.description
    && doc.remote == SanitizeRemoteData(rules, c.remote)
    && doc.createdAt == c.createdAt && doc.updatedAt == c.updatedAt
    && |doc.tasks| == |l.tasks| && |doc.comments| == |l.comments| && |doc.rows| == |l.rows| && |doc.users| == |l.users|
    && (forall i | 0 <= i < |l.tasks| ::
          l.tasks[i] in s.db.tasks && doc.tasks[i] == TaskExport(rules, l.tasks[i], s.db.tasks[l.tasks[i]]))
    && (forall i | 0 <= i < |l.comments| ::
          l.comments[i] in s.comments && doc.comments[i] == CommentExport(l.comments[i], s.comments[l.comments[i]]))
    && (forall i | 0 <= i < |l.rows| :: doc.rows[i] == RowExport(l.rows[i]))
    && (forall i | 0 <= i < |l.users| ::
          l.users[i] in s.users && doc.users[i] == DocUser(Spelled(l.users[i]), s.users[l.users[i]]))
  }

  method ExportTasks(rules: Rules, s: Site, ids: seq<Id>) returns (out: seq<DocTask>)
    requires forall id | id in ids :: id in s.db.tasks
    ensures |out| == |ids| && forall i | 0 <= i < |ids| :: out[i] == TaskExport(rules, ids[i], s.db.tasks[ids[i]])
  {
    out := [];
    for i := 0 to |ids|
      invariant |out| == i && forall k | 0 <= k < i :: out[k] == TaskExport(rules, ids[k], s.db.tasks[ids[k]])
    {
      out := out + [TaskExport(rules, ids[i], s.db.tasks[ids[i]])];
    }
  }

  method ExportComments(s: Site, ids: seq<Id>) returns (out: seq<DocComment>)
    requires forall id | id in ids :: id in s.comments
    ensures |out| == |ids| && forall i | 0 <= i < |ids| :: out[i] == CommentExport(ids[i], s.comments[ids[i]])
  {
    out := [];
    for i := 0 to |ids|
      invariant |out| == i && forall k | 0 <= k < i :: out[k] == CommentExport(ids[k], s.comments[ids[k]])
    {
      out := out + [CommentExport(ids[i], s.comments[ids[i]])];
    }
  }

  method ExportRows(rows: seq<Row>) returns (out: seq<DocRow>)
    ensures |out| == |rows| && forall i | 0 <= i < |rows| :: out[i] == RowExport(rows[i])
  {
    out := [];
    for i := 0 to |rows|
      invariant |out| == i && forall k | 0 <= k < i :: out[k] == RowExport(rows[k])
    {
      out := out + [RowExport(rows[i])];
    }
  }

  /** Fails if some user the collection mentions is gone. */
  method ExportUsers(s: Site, ids: seq<Id>) returns (r: Result<seq<DocUser>, TransferError>)
    ensures r.Ok? <==> forall i | 0 <= i < |ids| :: ids[i] in s.users
    ensures r.Err? ==> r.error == NoSuchUser
    ensures r.Ok? ==>
              |r.value| == |ids| && forall i | 0 <= i < |ids| ::
                ids[i] in s.users && r.value[i] == DocUser(Spelled(ids[i]), s.users[ids[i]])
  {
    var out: seq<DocUser> := [];
    for i := 0 to |ids|
      invariant |out| == i
      invariant forall k | 0 <= k < i :: ids[k] in s.users && out[k] == DocUser(Spelled(ids[k]), s.users[ids[k]])
    {
      if ids[i] !in s.users { return Err(NoSuchUser); }
      out := out + [DocUser(Spelled(ids[i]), s.users[ids[i]])];
    }
    r := Ok(out);
  }

  method ExportCollection(rules: Rules, s: Site, coll: Id) returns (r: Result<Doc, TransferError>, ghost l: Listing)
    ensures r == Err(NoSuchCollection) <==> coll !in s.collections
    ensures r == Err(FailedPrecondition) <==> coll in s.collections && !s.collections[coll].native
    ensures r.Ok? <==> coll in s.collections && s.collections[coll].native && UsersOf(s, coll) <= s.users.Keys
    ensures r.Ok? ==> IsExport(rules, s, coll, l, r.value)
  {
    l := Listing([], [], [], []);
    if coll !in s.collections { return Err(NoSuchCollection), l; }
    var c := s.collections[coll];
    if !c.native { return Err(FailedPrecondition), l; }
    var taskIds := Rows(TasksOf(s, coll));
    var commentIds := Rows(CommentsOf(s, coll));
    var rowList := Rows(RowsOf(s, coll));
    var userIds := Rows(UsersOf(s, coll));
    l := Listing(taskIds, commentIds, rowList, userIds);
    var tasks := ExportTasks(rules, s, taskIds);
    var comments := ExportComments(s, commentIds);
    var rows := ExportRows(rowList);
    assert (forall i | 0 <= i < |userIds| :: userIds[i] in s.users) <==> UsersOf(s, coll) <= s.users.Keys by {
      assert forall i | 0 <= i < |userIds| :: userIds[i] in userIds;
      assert forall u :: u in UsersOf(s, coll) <==> u in userIds;
    }
    var users := ExportUsers(s, userIds);
    if users.Err? { return Err(NoSuchUser), l; }
    r := Ok(Doc(2, GENERATOR, c.native, c.name, c.description, SanitizeRemoteData(rules, c.remote),
                c.createdAt, c.updatedAt, users.value, tasks, comments, rows));
  }

  // ----- Import: reading the document -----

  /** One fresh identifier for every task, comment and user of the document, and one for the
      collection. */
  datatype Supply = Supply(coll: Id, tasks: seq<Id>, comments: seq<Id>, users: seq<Id>)
  {
    ghost predicate Fits(s: Site, doc: Doc) {
      && |tasks| == |doc.tasks| && |comments| == |doc.comments| && |users| == |doc.users|
      && NoRepeats(tasks) && NoRepeats(comments) && NoRepeats(users)
      && coll !in s.collections && (forall t :: t in s.db.tasks ==> s.db.tasks[t].collection != coll)
      && (forall i | 0 <= i < |tasks| :: tasks[i] !in s.db.tasks)
      && (forall i | 0 <= i < |comments| :: comments[i] !in s.comments)
      && (forall i | 0 <= i < |users| :: users[i] !in s.users)
    }
  }

  function TaskMap(tasks: seq<DocTask>, ids: seq<Id>): map<DocId, Id>
    requires |ids| == |tasks|
  {
    if tasks == [] then map[]
    else
      var n := |tasks| - 1;
      TaskMap(tasks[..n], ids[..n])[tasks[n].id := ids[n]]
  }

  lemma {:induction false} TaskMapAt(tasks: seq<DocTask>, ids: seq<Id>)
    requires |ids| == |tasks| && DistinctIds(tasks)
    ensures forall i | 0 <= i < |tasks| ::
            tasks[i].id in TaskMap(tasks, ids) && TaskMap(tasks, ids)[tasks[i].id] == ids[i]
    ensures forall d | d in TaskMap(tasks, ids) :: HasId(tasks, d)
  {
    if tasks != [] {
      var n := |tasks| - 1;
      TaskMapAt(tasks[..n], ids[..n]);
      forall d | d in TaskMap(tasks, ids) ensures HasId(tasks, d) {
        if d == tasks[n].id {
          assert tasks[n] in tasks;
        } else {
          assert d in TaskMap(tasks[..n], ids[..n]);
          assert HasId(tasks[..n], d);
          var t :| t in tasks[..n] && t.id == d;
          assert t in tasks;
        }
      }
    }
  }

  /** The stage and hold a document task is imported with. */
  function MigrateTaskState(t: DocTask, hasOldBlocker: bool, version: int, now: Time)
    : Result<(Stage, Option<HoldReason>), TransferError>
  {
    if t.stage.Junk? then Err(InvalidDocument)
    else if t.stage.value.Native? then
      if !Given(t.hold) then Ok((t.stage.value.stage, None))
      else if t.hold.value.Junk? then Err(InvalidDocument)
      else Ok((t.stage.value.stage, Some(t.hold.value.value)))
    else if version != 1 then Err(InvalidDocument)
    else
      match t.stage.value
      case WaitingStage => Ok((Accepted, Some(WaitingForInput)))
      case DeferredStage => Ok((Accepted, if Lifecycle.InFuture(t.start, now) then None else Some(Deferred)))
      case ScheduledStage => Ok((Accepted, if t.start.Some? then None else Some(Deferred)))
      case BlockedStage => Ok((Accepted, if hasOldBlocker then None else Some(WaitingForInput)))
      case _ => Ok((Accepted, None))
  }

  /** A blocks or blocked_by row of the document says the task was blocked. */
  predicate OldBlocker(rows: seq<DocRow>, id: DocId) {
    exists r | r in rows ::
      (r.kind == Spelled(BlockedBy) && r.source == id) || (r.kind == Spelled(Blocks) && r.target == id)
  }

  predicate UrlsAccepted(rules: Rules, t: DocTask) {
    && (forall p | p in t.pullRequests :: rules.validUrl(p.url))
    && (t.remote.Some? ==> ValidateMap(rules, t.remote.value, 0))
  }

  /** An optional field: unset if absent or empty, an error if it spells nothing. */
  function Parse<T(==)>(field: Option<Text<T>>): Result<Option<T>, TransferError> {
    if !Given(field) then Ok(None)
    else if field.value.Junk? then Err(InvalidDocument)
    else Ok(Some(field.value.value))
  }

  function MapId(field: Option<DocId>, ids: map<DocId, Id>): Result<Option<Id>, TransferError> {
    if !Given(field) then Ok(None)
    else if field.value !in ids then Err(InvalidDocument)
    else Ok(Some(ids[field.value]))
  }

  function OrNow(t: Time, now: Time): Time { if t == ZERO_TIME then now else t }

  function ImportedTask(rules: Rules, t: DocTask, coll: Id, taskMap: map<DocId, Id>, userMap: map<DocId, Id>,
      hasOldBlocker: bool, version: int, now: Time): Result<Task, TransferError>
  {
    var state := MigrateTaskState(t, hasOldBlocker, version, now);
    var priority, ci := Parse(t.priority), Parse(t.ci);
    var assignee, parent := MapId(t.assignee, userMap), MapId(t.parent, taskMap);
    if state.Err? then Err(InvalidDocument)
    else
      var (stage, hold) := state.value;
      if !Lifecycle.StateOk(stage, hold, t.start, false, now) || !UrlsAccepted(rules, t) then Err(InvalidDocument)
      else if priority.Err? || ci.Err? || assignee.Err? || parent.Err? then Err(InvalidDocument)
      else
        Ok(Task(coll, parent.value, t.title, stage, PhaseForStage(stage), hold, assignee.value, t.start, t.closedAt,
                OrNow(t.createdAt, now), OrNow(t.updatedAt, now),
                t.pullRequests, SanitizeRemoteData(rules, t.remote),
                t.details.(priority := priority.value, ci := ci.value), 1))
  }

  /** Whatever the document, an imported task satisfies the invariant of stored tasks. */
  lemma ImportedTaskLegal(rules: Rules, t: DocTask, coll: Id, taskMap: map<DocId, Id>, userMap: map<DocId, Id>,
      hasOldBlocker: bool, version: int, now: Time)
    ensures var r := ImportedTask(rules, t, coll, taskMap, userMap, hasOldBlocker, version, now);
            r.Ok? ==> Lifecycle.TaskInv(r.value, now) && r.value.version == 1
  {
  }

  predicate HasUser(doc: Doc, id: DocId) { exists u :: u in doc.users && u.id == id }

  /** validateImportReferences. */
  predicate ReferencesOk(doc: Doc) {
    && (forall u | u in doc.users :: u.id.Spelled?)
    && (forall t | t in doc.tasks ::
          && t.phase.Spelled?
          && (t.stage == Junk("") || (t.stage.Spelled? && (t.stage.value.Native? || doc.version == 1)))
          && Parse(t.priority).Ok? && Parse(t.ci).Ok?
          && (Given(t.assignee) ==> HasUser(doc, t.assignee.value)))
    && (forall c | c in doc.comments :: c.id.Spelled? && HasId(doc.tasks, c.task) && HasUser(doc, c.author))
    && (forall r | r in doc.rows :: HasId(doc.tasks, r.source) && HasId(doc.tasks, r.target) && r.kind.Spelled?)
  }

  // ----- Import: users -----

  function WithEmail(users: map<Id, User>, email: Option<string>): set<Id> {
    set y | y in users && users[y].email == email
  }

  /** The one existing user with this user's address, if there is exactly one. */
  ghost predicate UniqueMatch(users: map<Id, User>, u: User, y: Id) {
    u.email.Some? && u.email.value != "" && WithEmail(users, u.email) == {y}
  }

  ghost predicate Matched(users: map<Id, User>, u: User) { exists y :: UniqueMatch(users, u, y) }

  method FindUser(users: map<Id, User>, u: User) returns (found: Option<Id>)
    ensures found.Some? ==> UniqueMatch(users, u, found.value)
    ensures found.None? ==> !Matched(users, u)
  {
    if u.email.None? || u.email.value == "" { return None; }
    var matches := Rows(WithEmail(users, u.email));
    assert Elements(matches) == WithEmail(users, u.email);
    NoRepeatsSize(matches);
    if |matches| != 1 { return None; }
    assert Elements(matches) == {matches[0]};
    found := Some(matches[0]);
  }

  /** x is what a document user with this identifier in reserve is mapped to. */
  ghost predicate Resolves(users: map<Id, User>, u: User, spare: Id, x: Id) {
    if Matched(users, u) then UniqueMatch(users, u, x) else x == spare
  }

  ghost predicate MapsUser(users: map<Id, User>, docUsers: seq<DocUser>, ids: seq<Id>, d: DocId, x: Id) {
    exists i :: 0 <= i < |docUsers| && i < |ids| && docUsers[i].id == d && Resolves(users, docUsers[i].user, ids[i], x)
  }

  ghost predicate CreatesUser(users: map<Id, User>, docUsers: seq<DocUser>, ids: seq<Id>, x: Id, u: User) {
    exists i :: 0 <= i < |docUsers| && i < |ids| && ids[i] == x && docUsers[i].user == u && !Matched(users, u)
  }

  /** Every document user is mapped to the existing user with its address, or to a new one. */
  ghost predicate UsersResolved(users: map<Id, User>, docUsers: seq<DocUser>, ids: seq<Id>,
      userMap: map<DocId, Id>, created: map<Id, User>)
  {
    && (forall i | 0 <= i < |docUsers| :: docUsers[i].id in userMap)
    && (forall d | d in userMap :: MapsUser(users, docUsers, ids, d, userMap[d]))
    && (forall x | x in created :: CreatesUser(users, docUsers, ids, x, created[x]))
    && (forall i | 0 <= i < |docUsers| && i < |ids| && !Matched(users, docUsers[i].user) :: ids[i] in created)
  }

  lemma ResolveOne(users: map<Id, User>, docUsers: seq<DocUser>, ids: seq<Id>, i: nat,
      userMap: map<DocId, Id>, created: map<Id, User>, x: Id)
    requires i < |docUsers| == |ids| && NoRepeats(ids)
    requires UsersResolved(users, docUsers[..i], ids[..i], userMap, created)
    requires Resolves(users, docUsers[i].user, ids[i], x)
    ensures var more := if Matched(users, docUsers[i].user) then created else created[ids[i] := docUsers[i].user];
            UsersResolved(users, docUsers[..i + 1], ids[..i + 1], userMap[docUsers[i].id := x], more)
  {
    hide Matched, UniqueMatch;
    var us, js := docUsers[..i + 1], ids[..i + 1];
    var wider := userMap[docUsers[i].id := x];
    var more := if Matched(users, docUsers[i].user) then created else created[ids[i] := docUsers[i].user];
    assert forall k | 0 <= k < i :: us[k] == docUsers[..i][k] && js[k] == ids[..i][k];
    forall d | d in wider ensures MapsUser(users, us, js, d, wider[d]) {
      if d == docUsers[i].id {
        assert us[i].id == d && Resolves(users, us[i].user, js[i], x);
      } else {
        var k :| 0 <= k < i && docUsers[..i][k].id == d
                 && Resolves(users, docUsers[..i][k].user, ids[..i][k], userMap[d]);
        assert us[k].id == d && Resolves(users, us[k].user, js[k], wider[d]);
      }
    }
    CreateOne(users, docUsers, ids, i, created);
  }

  lemma CreateOne(users: map<Id, User>, docUsers: seq<DocUser>, ids: seq<Id>, i: nat, created: map<Id, User>)
    requires i < |docUsers| == |ids| && NoRepeats(ids)
    requires forall x | x in created :: CreatesUser(users, docUsers[..i], ids[..i], x, created[x])
    ensures var more := if Matched(users, docUsers[i].user) then created else created[ids[i] := docUsers[i].user];
            forall x | x in more :: CreatesUser(users, docUsers[..i + 1], ids[..i + 1], x, more[x])
  {
    hide Matched;
    var us, js := docUsers[..i + 1], ids[..i + 1];
    var more := if Matched(users, docUsers[i].user) then created else created[ids[i] := docUsers[i].user];
    forall y | y in more ensures CreatesUser(users, us, js, y, more[y]) {
      if y in created {
        var k :| 0 <= k < i && ids[..i][k] == y && docUsers[..i][k].user == created[y] && !Matched(users, created[y]);
        assert js[k] == y && us[k].user == more[y];
      } else {
        assert js[i] == y && us[i].user == more[y];
      }
    }
  }

  method ResolveUsers(users: map<Id, User>, docUsers: seq<DocUser>, ids: seq<Id>)
    returns (userMap: map<DocId, Id>, created: map<Id, User>)
    requires |ids| == |docUsers| && NoRepeats(ids)
    ensures UsersResolved(users, docUsers, ids, userMap, created)
  {
    userMap, created := map[], map[];
    for i := 0 to |docUsers|
      invariant UsersResolved(users, docUsers[..i], ids[..i], userMap, created)
    {
      var found := FindUser(users, docUsers[i].user);
      hide UsersResolved, UniqueMatch;
      ResolveOne(users, docUsers, ids, i, userMap, created, if found.Some? then found.value else ids[i]);
      if found.Some? {
        userMap := userMap[docUsers[i].id := found.value];
      } else {
        userMap := userMap[docUsers[i].id := ids[i]];
        created := created[ids[i] := docUsers[i].user];
      }
    }
    assert docUsers[..|docUsers|] == docUsers && ids[..|ids|] == ids;
  }

  // ----- Import: when it succeeds and what it makes -----

  /** The task's own fields can be imported; its references are checked apart. */
  predicate TaskAccepted(rules: Rules, t: DocTask, hasOldBlocker: bool, version: int, now: Time) {
    var state := MigrateTaskState(t, hasOldBlocker, version, now);
    && state.Ok? && Lifecycle.StateOk(state.value.0, state.value.1, t.start, false, now)
    && UrlsAccepted(rules, t) && Parse(t.priority).Ok? && Parse(t.ci).Ok?
  }

  ghost predicate AllAccepted(rules: Rules, doc: Doc, now: Time) {
    forall t | t in doc.tasks :: TaskAccepted(rules, t, OldBlocker(doc.rows, t.id), doc.version, now)
  }

  ghost predicate AllTitled(doc: Doc) { forall t | t in doc.tasks :: t.title != "" }

  ghost predicate Importable(rules: Rules, s: Site, doc: Doc, now: Time) {
    && doc.version in {1, 2} && doc.generator in {"", GENERATOR} && doc.native && doc.name != ""
    && (forall t | t in doc.tasks :: t.id.Spelled?) && WellParented(doc.tasks) && ReferencesOk(doc)
    && AllAccepted(rules, doc, now) && AllTitled(doc)
    && (forall c | c in doc.comments :: c.body != "")
    && (forall u | u in doc.users :: u.user.name != "" || Matched(s.users, u.user))
    && NoRepeats(doc.rows)
  }

  function RowImport(r: DocRow, taskMap: map<DocId, Id>): Row
    requires Resolvable(r, taskMap)
  {
    Row(taskMap[r.source], taskMap[r.target], r.kind.value)
  }

  function CommentImport(c: DocComment, taskMap: map<DocId, Id>, userMap: map<DocId, Id>, now: Time): Comment
    requires c.task in taskMap && c.author in userMap
  {
    Comment(taskMap[c.task], userMap[c.author], c.body, OrNow(c.createdAt, now), OrNow(c.updatedAt, now))
  }

  ghost predicate TasksImported(rules: Rules, doc: Doc, coll: Id, taskMap: map<DocId, Id>, userMap: map<DocId, Id>,
      now: Time, tasks: map<Id, Task>)
  {
    && tasks.Keys == taskMap.Values
    && forall t | t in doc.tasks ::
         && t.id in taskMap
         && var made := ImportedTask(rules, t, coll, taskMap, userMap, OldBlocker(doc.rows, t.id), doc.version, now);
            made.Ok? && tasks[taskMap[t.id]] == made.value
  }

  /** The document row refers to imported tasks and spells a kind. */
  predicate Resolvable(r: DocRow, taskMap: map<DocId, Id>) {
    r.source in taskMap && r.target in taskMap && r.kind.Spelled?
  }

  ghost predicate RowsImported(doc: Doc, taskMap: map<DocId, Id>, rows: set<Row>) {
    && (forall r | r in doc.rows :: Resolvable(r, taskMap) && RowImport(r, taskMap) in rows)
    && (forall x | x in rows :: exists r :: r in doc.rows && Resolvable(r, taskMap) && x == RowImport(r, taskMap))
  }

  ghost predicate CommentsImported(doc: Doc, ids: seq<Id>, taskMap: map<DocId, Id>, userMap: map<DocId, Id>, now: Time,
      comments: map<Id, Comment>)
    requires |ids| == |doc.comments|
  {
    && comments.Keys == Elements(ids)
    && forall i | 0 <= i < |ids| ::
         && doc.comments[i].task in taskMap && doc.comments[i].author in userMap
         && comments[ids[i]] == CommentImport(doc.comments[i], taskMap, userMap, now)
  }

  /** Everything an import adds, over what was there. */
  datatype Added = Added(taskMap: map<DocId, Id>, userMap: map<DocId, Id>,
    tasks: map<Id, Task>, rows: set<Row>, comments: map<Id, Comment>, users: map<Id, User>)

  ghost predicate IsImport(rules: Rules, s: Site, doc: Doc, supply: Supply, now: Time, a: Added, s': Site)
    requires supply.Fits(s, doc)
  {
    && a.taskMap == TaskMap(doc.tasks, supply.tasks)
    && UsersResolved(s.users, doc.users, supply.users, a.userMap, a.users)
    && TasksImported(rules, doc, supply.coll, a.taskMap, a.userMap, now, a.tasks)
    && RowsImported(doc, a.taskMap, a.rows)
    && CommentsImported(doc, supply.comments, a.taskMap, a.userMap, now, a.comments)
    && s' == Site(
         Db(s.db.tasks + a.tasks, s.db.rows + a.rows),
         s.collections[supply.coll := Collection(true, doc.name, doc.description, SanitizeRemoteData(rules, doc.remote),
                                                 OrNow(doc.createdAt, now), OrNow(doc.updatedAt, now))],
         s.comments + a.comments, s.users + a.users)
  }

  lemma AcceptedIsImported(rules: Rules, doc: Doc, t: DocTask, coll: Id, taskMap: map<DocId, Id>,
      userMap: map<DocId, Id>, now: Time)
    requires Given(t.assignee) ==> t.assignee.value in userMap
    requires Given(t.parent) ==> t.parent.value in taskMap
    ensures ImportedTask(rules, t, coll, taskMap, userMap, OldBlocker(doc.rows, t.id), doc.version, now).Ok?
            <==> TaskAccepted(rules, t, OldBlocker(doc.rows, t.id), doc.version, now)
  {
  }

  /** Turns the ordered document tasks into rows to store. */
  method BuildTasks(rules: Rules, doc: Doc, ordered: seq<DocTask>, coll: Id, taskMap: map<DocId, Id>,
      userMap: map<DocId, Id>, now: Time)
    returns (r: Result<seq<Task>, TransferError>)
    requires forall t | t in ordered ::
            (Given(t.assignee) ==> t.assignee.value in userMap) && (Given(t.parent) ==> t.parent.value in taskMap)
    ensures r.Err? ==> r.error in {InvalidDocument, StoreRefused}
    ensures r.Ok? <==> forall t | t in ordered :: TaskAccepted(rules, t, OldBlocker(doc.rows, t.id), doc.version, now)
    ensures r.Ok? ==>
              && |r.value| == |ordered|
              && forall i | 0 <= i < |ordered| ::
                   ImportedTask(rules, ordered[i], coll, taskMap, userMap, OldBlocker(doc.rows, ordered[i].id),
                       doc.version, now)
                   == Ok(r.value[i])
  {
    hide TaskAccepted;
    var out: seq<Task> := [];
    for i := 0 to |ordered|
      invariant |out| == i
      invariant forall k | 0 <= k < i :: TaskAccepted(rules, ordered[k], OldBlocker(doc.rows, ordered[k].id),
              doc.version, now)
      invariant forall k | 0 <= k < i ::
          ImportedTask(rules, ordered[k], coll, taskMap, userMap,
                       OldBlocker(doc.rows, ordered[k].id), doc.version, now) == Ok(out[k])
    {
      hide ImportedTask, OldBlocker;
      assert ordered[i] in ordered;
      AcceptedIsImported(rules, doc, ordered[i], coll, taskMap, userMap, now);
      var made := ImportedTask(rules, ordered[i], coll, taskMap, userMap, OldBlocker(doc.rows, ordered[i].id),
          doc.version, now);
      if made.Err? { return Err(InvalidDocument); }
      out := out + [made.value];
    }
    r := Ok(out);
  }

  // ----- Import: storing it -----

  /** The i-th insert goes through: the title is set and the parent is already there. */
  ghost predicate Storable(tasks: map<Id, Task>, ids: seq<Id>, rows: seq<Task>, i: int)
    requires 0 <= i < |rows| == |ids|
  {
    rows[i].title != "" && (rows[i].parent.Some? ==> rows[i].parent.value in tasks || rows[i].parent.value in ids[..i])
  }

  ghost predicate Stored(ids: seq<Id>, rows: seq<Task>, stored: map<Id, Task>)
    requires |rows| == |ids|
  {
    stored.Keys == Elements(ids) && forall k | 0 <= k < |ids| :: stored[ids[k]] == rows[k]
  }

  lemma StoreOne(ids: seq<Id>, rows: seq<Task>, stored: map<Id, Task>, i: nat)
    requires i < |ids| == |rows| && NoRepeats(ids) && Stored(ids[..i], rows[..i], stored)
    ensures Stored(ids[..i + 1], rows[..i + 1], stored[ids[i] := rows[i]])
  {
    assert ids[..i + 1] == ids[..i] + [ids[i]];
    assert forall k | 0 <= k < i :: ids[..i][k] == ids[k] && rows[..i][k] == rows[k];
  }

  /** Inserts the tasks one by one; the foreign key wants a parent that is already there. */
  method StoreTasks(tasks: map<Id, Task>, ids: seq<Id>, rows: seq<Task>)
    returns (r: Result<map<Id, Task>, TransferError>)
    requires |ids| == |rows| && NoRepeats(ids)
    ensures r.Err? ==> r.error in {InvalidDocument, StoreRefused}
    ensures r.Ok? <==> forall i | 0 <= i < |rows| :: Storable(tasks, ids, rows, i)
    ensures r.Ok? ==> Stored(ids, rows, r.value)
  {
    var stored: map<Id, Task> := map[];
    for i := 0 to |ids|
      invariant Stored(ids[..i], rows[..i], stored)
      invariant forall k | 0 <= k < i :: Storable(tasks, ids, rows, k)
    {
      var t := rows[i];
      if t.title == "" || (t.parent.Some? && t.parent.value !in tasks && t.parent.value !in stored) {
        assert !Storable(tasks, ids, rows, i);
        return Err(StoreRefused);
      }
      assert Storable(tasks, ids, rows, i);
      StoreOne(ids, rows, stored, i);
      hide Stored, Storable;
      stored := stored[ids[i] := t];
    }
    assert ids[..|ids|] == ids && rows[..|ids|] == rows;
    r := Ok(stored);
  }

  method StoreComments(doc: Doc, ids: seq<Id>, taskMap: map<DocId, Id>, userMap: map<DocId, Id>, now: Time)
    returns (r: Result<map<Id, Comment>, TransferError>)
    requires |ids| == |doc.comments| && NoRepeats(ids)
    requires forall c | c in doc.comments :: c.task in taskMap && c.author in userMap
    ensures r.Err? ==> r.error in {InvalidDocument, StoreRefused}
    ensures r.Ok? <==> forall c | c in doc.comments :: c.body != ""
    ensures r.Ok? ==> CommentsImported(doc, ids, taskMap, userMap, now, r.value)
  {
    var stored: map<Id, Comment> := map[];
    for i := 0 to |ids|
      invariant stored.Keys == Elements(ids[..i])
      invariant forall c | c in doc.comments[..i] :: c.body != ""
      invariant forall k | 0 <= k < i ::
          && doc.comments[k].task in taskMap && doc.comments[k].author in userMap
          && stored[ids[k]] == CommentImport(doc.comments[k], taskMap, userMap, now)
    {
      assert doc.comments[i] in doc.comments;
      if doc.comments[i].body == "" { return Err(StoreRefused); }
      assert ids[..i + 1] == ids[..i] + [ids[i]] && doc.comments[..i + 1] == doc.comments[..i] + [doc.comments[i]];
      stored := stored[ids[i] := CommentImport(doc.comments[i], taskMap, userMap, now)];
    }
    assert ids[..|ids|] == ids && doc.comments[..|ids|] == doc.comments;
    r := Ok(stored);
  }

  ghost predicate InjectiveMap<K(!new), V(!new)>(m: map<K, V>) {
    forall a, b | a in m && b in m && m[a] == m[b] :: a == b
  }

  /** Inserts the rows one by one; the unique index refuses a row that is already there. */
  method StoreRows(doc: Doc, taskMap: map<DocId, Id>) returns (r: Result<set<Row>, TransferError>)
    requires InjectiveMap(taskMap) && forall x | x in doc.rows :: Resolvable(x, taskMap)
    ensures r.Err? ==> r.error in {InvalidDocument, StoreRefused}
    ensures r.Ok? <==> NoRepeats(doc.rows)
    ensures r.Ok? ==> RowsImported(doc, taskMap, r.value)
  {
    var stored: set<Row> := {};
    for i := 0 to |doc.rows|
      invariant NoRepeats(doc.rows[..i])
      invariant forall k | 0 <= k < i :: RowImport(doc.rows[k], taskMap) in stored
      invariant forall x | x in stored :: exists k :: 0 <= k < i && x == RowImport(doc.rows[k], taskMap)
    {
      assert forall k | 0 <= k < |doc.rows| :: doc.rows[k] in doc.rows;
      var row := RowImport(doc.rows[i], taskMap);
      if row in stored {
        ghost var k :| 0 <= k < i && row == RowImport(doc.rows[k], taskMap);
        SameRow(doc.rows[k], doc.rows[i], taskMap);
        return Err(StoreRefused);
      }
      assert forall k | 0 <= k < i :: doc.rows[k] != doc.rows[i];
      stored := stored + {row};
    }
    assert doc.rows[..|doc.rows|] == doc.rows;
    forall x | x in stored ensures exists r :: r in doc.rows && Resolvable(r, taskMap) && x == RowImport(r, taskMap) {
      var k :| 0 <= k < |doc.rows| && x == RowImport(doc.rows[k], taskMap);
      assert doc.rows[k] in doc.rows;
    }
    r := Ok(stored);
  }

  lemma SameRow(a: DocRow, b: DocRow, taskMap: map<DocId, Id>)
    requires InjectiveMap(taskMap) && Resolvable(a, taskMap) && Resolvable(b, taskMap)
    requires RowImport(a, taskMap) == RowImport(b, taskMap)
    ensures a == b
  {
  }

  lemma TaskMapInjective(tasks: seq<DocTask>, ids: seq<Id>)
    requires |ids| == |tasks| && DistinctIds(tasks) && NoRepeats(ids)
    ensures var m := TaskMap(tasks, ids); InjectiveMap(m) && m.Values == Elements(ids)
  {
    var m := TaskMap(tasks, ids);
    TaskMapAt(tasks, ids);
    forall d | d in m ensures exists i :: 0 <= i < |tasks| && tasks[i].id == d && m[d] == ids[i] {
      var t :| t in tasks && t.id == d;
      var i :| 0 <= i < |tasks| && tasks[i] == t;
    }
    forall x | x in Elements(ids) ensures x in m.Values {
      var i :| 0 <= i < |ids| && ids[i] == x;
      assert m[tasks[i].id] in m.Values;
    }
  }

  // ----- Import: the whole -----

  /** Every reference of the document resolves, and `ordered` is its tasks, parents first. */
  ghost predicate Mapped(doc: Doc, ordered: seq<DocTask>, taskMap: map<DocId, Id>, userMap: map<DocId, Id>) {
    && InjectiveMap(taskMap) && (forall d :: d in taskMap <==> HasId(doc.tasks, d))
    && (forall t :: t in ordered <==> t in doc.tasks) && DistinctIds(ordered) && ParentsFirst(ordered)
    && (forall t | t in ordered ::
          && t.id in taskMap && (Given(t.assignee) ==> t.assignee.value in userMap)
          && (Given(t.parent) ==> t.parent.value in taskMap))
    && (forall c | c in doc.comments :: c.task in taskMap && c.author in userMap)
    && (forall x | x in doc.rows :: Resolvable(x, taskMap))
  }

  ghost predicate AllNamed(created: map<Id, User>) { forall x | x in created :: created[x].name != "" }

  /** The ordered tasks become rows, and the rows are inserted. */
  method ImportTasks(rules: Rules, s: Site, doc: Doc, ordered: seq<DocTask>, coll: Id, now: Time,
      taskMap: map<DocId, Id>, userMap: map<DocId, Id>)
    returns (r: Result<map<Id, Task>, TransferError>)
    requires Mapped(doc, ordered, taskMap, userMap)
    ensures r.Err? ==> r.error in {InvalidDocument, StoreRefused}
    ensures r.Ok? <==> AllAccepted(rules, doc, now) && AllTitled(doc)
    ensures r.Ok? ==> TasksImported(rules, doc, coll, taskMap, userMap, now, r.value)
  {
    var built := BuildTasks(rules, doc, ordered, coll, taskMap, userMap, now);
    assert built.Ok? <==> AllAccepted(rules, doc, now);
    if built.Err? { return Err(InvalidDocument); }
    var ids := MapIds(ordered, taskMap);
    OrderedTasksStorable(rules, s, doc, ordered, coll, now, taskMap, userMap, ids, built.value);
    var stored := StoreTasks(s.db.tasks, ids, built.value);
    if stored.Err? { return Err(StoreRefused); }
    OrderedTasksImported(rules, doc, ordered, coll, now, taskMap, userMap, ids, built.value, stored.value);
    r := Ok(stored.value);
  }

  /** Everything after the references are checked: tasks, comments and rows are stored. */
  method StoreAll(rules: Rules, s: Site, doc: Doc, ordered: seq<DocTask>, supply: Supply, now: Time,
      taskMap: map<DocId, Id>, userMap: map<DocId, Id>, created: map<Id, User>)
    returns (r: Result<Added, TransferError>)
    requires Mapped(doc, ordered, taskMap, userMap) && |supply.comments| == |doc.comments| && NoRepeats(supply.comments)
    ensures r.Err? ==> r.error in {InvalidDocument, StoreRefused}
    ensures r.Ok? <==>
              && AllAccepted(rules, doc, now) && AllTitled(doc) && AllNamed(created)
              && (forall c | c in doc.comments :: c.body != "") && NoRepeats(doc.rows)
    ensures r.Ok? ==>
              && r.value.taskMap == taskMap && r.value.userMap == userMap && r.value.users == created
              && TasksImported(rules, doc, supply.coll, taskMap, userMap, now, r.value.tasks)
              && RowsImported(doc, taskMap, r.value.rows)
              && CommentsImported(doc, supply.comments, taskMap, userMap, now, r.value.comments)
  {
    var stored := ImportTasks(rules, s, doc, ordered, supply.coll, now, taskMap, userMap);
    if stored.Err? { return Err(stored.error); }
    if exists x | x in created :: created[x].name == "" { return Err(StoreRefused); }
    var comments := StoreComments(doc, supply.comments, taskMap, userMap, now);
    if comments.Err? { return Err(StoreRefused); }
    var rows := StoreRows(doc, taskMap);
    if rows.Err? { return Err(StoreRefused); }
    r := Ok(Added(taskMap, userMap, stored.value, rows.value, comments.value, created));
  }

  method MapIds(ordered: seq<DocTask>, taskMap: map<DocId, Id>) returns (ids: seq<Id>)
    requires forall t | t in ordered :: t.id in taskMap
    ensures |ids| == |ordered| && forall i | 0 <= i < |ids| ::
            ordered[i].id in taskMap && ids[i] == taskMap[ordered[i].id]
  {
    ids := [];
    for i := 0 to |ordered|
      invariant |ids| == i && forall k | 0 <= k < i :: ordered[k].id in taskMap && ids[k] == taskMap[ordered[k].id]
    {
      assert ordered[i] in ordered;
      ids := ids + [taskMap[ordered[i].id]];
    }
  }

  /** What the checks so far say about every reference in the document. */
  lemma MapFacts(s: Site, doc: Doc, supply: Supply, ordered: seq<DocTask>, taskMap: map<DocId, Id>,
      userMap: map<DocId, Id>)
    requires supply.Fits(s, doc) && WellParented(doc.tasks) && ReferencesOk(doc)
    requires multiset(ordered) == multiset(doc.tasks)
    requires taskMap == TaskMap(doc.tasks, supply.tasks) && forall d :: d in userMap <==> HasUser(doc, d)
    requires ParentsFirst(ordered)
    ensures Mapped(doc, ordered, taskMap, userMap)
  {
    TaskMapAt(doc.tasks, supply.tasks);
    TaskMapInjective(doc.tasks, supply.tasks);
    forall d ensures d in taskMap <==> HasId(doc.tasks, d) {
      if HasId(doc.tasks, d) {
        var t :| t in doc.tasks && t.id == d;
        var i :| 0 <= i < |doc.tasks| && doc.tasks[i] == t;
      }
    }
    PermutedDistinct(doc.tasks, ordered);
    forall t | t in ordered ensures t.id in taskMap { assert t in doc.tasks; }
  }

  lemma PermutedDistinct(p: seq<DocTask>, q: seq<DocTask>)
    requires DistinctIds(p) && multiset(p) == multiset(q)
    ensures DistinctIds(q) && |p| == |q| && forall t :: t in p <==> t in q
  {
    assert |multiset(p)| == |p| && |multiset(q)| == |q|;
    assert forall t :: t in p <==> t in multiset(p);
    assert forall t :: t in q <==> t in multiset(q);
    forall i, j | 0 <= i < j < |q| ensures q[i].id != q[j].id {
      if q[i].id == q[j].id {
        assert q[i] in p && q[j] in p;
        var k :| 0 <= k < |p| && p[k] == q[i];
        assert q[i] == q[j];
        TwiceInMultiset(q, i, j);
        OnceInMultiset(p, k);
      }
    }
  }

  /** A parent named by a task stands before it, so its row is already there. */
  lemma ParentStored(rules: Rules, s: Site, doc: Doc, ordered: seq<DocTask>, coll: Id, now: Time,
      taskMap: map<DocId, Id>, userMap: map<DocId, Id>, ids: seq<Id>, row: Task, i: nat)
    requires Mapped(doc, ordered, taskMap, userMap) && |ids| == |ordered| && i < |ordered|
    requires forall k | 0 <= k < |ids| :: ordered[k].id in taskMap && ids[k] == taskMap[ordered[k].id]
    requires ImportedTask(rules, ordered[i], coll, taskMap, userMap, OldBlocker(doc.rows, ordered[i].id), doc.version,
            now)
             == Ok(row)
    ensures row.title == ordered[i].title
    ensures row.parent.Some? ==> row.parent.value in ids[..i]
  {
    if row.parent.Some? {
      assert MapId(ordered[i].parent, taskMap) == Ok(row.parent);
      var u :| u in ordered[..i] && u.id == ordered[i].parent.value;
      var j :| 0 <= j < i && ordered[j] == u;
      assert ids[..i][j] == row.parent.value;
    }
  }

  lemma MappedIdsDiffer(doc: Doc, ordered: seq<DocTask>, taskMap: map<DocId, Id>, userMap: map<DocId, Id>, ids: seq<Id>)
    requires Mapped(doc, ordered, taskMap, userMap) && |ids| == |ordered|
    requires forall k | 0 <= k < |ids| :: ordered[k].id in taskMap && ids[k] == taskMap[ordered[k].id]
    ensures NoRepeats(ids) && forall t :: t in ordered <==> t in doc.tasks
  {
  }

  /** The insertion meets no unknown parent, so only an empty title can stop it. */
  lemma OrderedTasksStorable(rules: Rules, s: Site, doc: Doc, ordered: seq<DocTask>, coll: Id, now: Time,
      taskMap: map<DocId, Id>, userMap: map<DocId, Id>, ids: seq<Id>, rows: seq<Task>)
    requires Mapped(doc, ordered, taskMap, userMap) && |ids| == |ordered| == |rows|
    requires forall i | 0 <= i < |ids| :: ordered[i].id in taskMap && ids[i] == taskMap[ordered[i].id]
    requires forall i | 0 <= i < |ordered| ::
               ImportedTask(rules, ordered[i], coll, taskMap, userMap, OldBlocker(doc.rows, ordered[i].id),
                   doc.version, now)
               == Ok(rows[i])
    ensures NoRepeats(ids)
    ensures (forall i | 0 <= i < |rows| :: Storable(s.db.tasks, ids, rows, i)) <==> AllTitled(doc)
  {
    hide Mapped, ImportedTask, NoRepeats, OldBlocker;
    MappedIdsDiffer(doc, ordered, taskMap, userMap, ids);
    forall i | 0 <= i < |rows| ensures Storable(s.db.tasks, ids, rows, i) <==> ordered[i].title != "" {
      ParentStored(rules, s, doc, ordered, coll, now, taskMap, userMap, ids, rows[i], i);
    }
    if !AllTitled(doc) {
      var t :| t in doc.tasks && t.title == "";
      var i :| 0 <= i < |ordered| && ordered[i] == t;
      assert !Storable(s.db.tasks, ids, rows, i);
    }
  }

  lemma OrderedTasksImported(rules: Rules, doc: Doc, ordered: seq<DocTask>, coll: Id, now: Time,
      taskMap: map<DocId, Id>, userMap: map<DocId, Id>, ids: seq<Id>, rows: seq<Task>, stored: map<Id, Task>)
    requires |ids| == |ordered| == |rows| && Stored(ids, rows, stored)
    requires Mapped(doc, ordered, taskMap, userMap)
    requires forall i | 0 <= i < |ids| :: ordered[i].id in taskMap && ids[i] == taskMap[ordered[i].id]
    requires forall i | 0 <= i < |ordered| ::
               ImportedTask(rules, ordered[i], coll, taskMap, userMap, OldBlocker(doc.rows, ordered[i].id),
                   doc.version, now)
               == Ok(rows[i])
    ensures TasksImported(rules, doc, coll, taskMap, userMap, now, stored)
  {
    hide ImportedTask;
    forall t | t in doc.tasks
      ensures t.id in taskMap
      ensures ImportedTask(rules, t, coll, taskMap, userMap, OldBlocker(doc.rows, t.id), doc.version, now).Ok?
      ensures taskMap[t.id] in stored
      ensures stored[taskMap[t.id]]
              == ImportedTask(rules, t, coll, taskMap, userMap, OldBlocker(doc.rows, t.id), doc.version, now).value
    {
      assert t in ordered;
      var i :| 0 <= i < |ordered| && ordered[i] == t;
      assert ids[i] in Elements(ids);
    }
    forall x | x in taskMap.Values ensures x in stored {
      var d :| d in taskMap && taskMap[d] == x;
      var t :| t in doc.tasks && t.id == d;
    }
    forall x | x in stored ensures x in taskMap.Values {
      var i :| 0 <= i < |ids| && ids[i] == x;
      assert taskMap[ordered[i].id] in taskMap.Values;
    }
  }

  /** ImportCollection: succeeds exactly for an importable document, and adds to the site
      exactly what the document says. */
  method ImportCollection(rules: Rules, s: Site, doc: Doc, supply: Supply, now: Time)
    returns (r: Result<Site, TransferError>, ghost a: Added)
    requires supply.Fits(s, doc)
    ensures r.Ok? <==> Importable(rules, s, doc, now)
    ensures r == Err(FailedPrecondition)
            <==> doc.version in {1, 2} && doc.generator in {"", GENERATOR} && !doc.native
    ensures r.Ok? ==> IsImport(rules, s, doc, supply, now, a, r.value)
  {
    hide Matched, Resolves, WellParented, AllAccepted, AllTitled, ReferencesOk, UsersResolved, ParentsFirst, Mapped;
    hide TasksImported, RowsImported, CommentsImported, SanitizeRemoteData, AllNamed, TaskMap;
    a := Added(map[], map[], map[], {}, map[], map[]);
    if doc.version != 1 && doc.version != 2 { return Err(InvalidDocument), a; }
    if doc.generator != "" && doc.generator != GENERATOR { return Err(InvalidDocument), a; }
    if !doc.native { return Err(FailedPrecondition), a; }
    if exists t | t in doc.tasks :: t.id.Junk? { return Err(InvalidDocument), a; }
    var ordered := OrderImportTasks(doc.tasks);
    if ordered.Err? { return Err(InvalidDocument), a; }
    if doc.name == "" || !ReferencesOk(doc) { return Err(InvalidDocument), a; }
    var taskMap := TaskMap(doc.tasks, supply.tasks);
    var userMap, created := ResolveUsers(s.users, doc.users, supply.users);
    ResolvedUsers(s.users, doc, supply.users, userMap, created);
    MapFacts(s, doc, supply, ordered.value, taskMap, userMap);
    ResolvedNames(s.users, doc, supply.users, userMap, created);
    var stored := StoreAll(rules, s, doc, ordered.value, supply, now, taskMap, userMap, created);
    if stored.Err? { return Err(stored.error), a; }
    var added := stored.value;
    a := added;
    r := Ok(Site(
      Db(s.db.tasks + added.tasks, s.db.rows + added.rows),
      s.collections[supply.coll := Collection(true, doc.name, doc.description, SanitizeRemoteData(rules, doc.remote),
                                              OrNow(doc.createdAt, now), OrNow(doc.updatedAt, now))],
      s.comments + added.comments, s.users + added.users));
  }

  lemma ResolvedUsers(users: map<Id, User>, doc: Doc, ids: seq<Id>, userMap: map<DocId, Id>, created: map<Id, User>)
    requires |ids| == |doc.users| && UsersResolved(users, doc.users, ids, userMap, created)
    ensures forall d :: d in userMap <==> HasUser(doc, d)
  {
    hide Matched, Resolves, CreatesUser;
    forall d ensures d in userMap <==> HasUser(doc, d) {
      if d in userMap {
        assert MapsUser(users, doc.users, ids, d, userMap[d]);
        var i :| 0 <= i < |doc.users| && doc.users[i].id == d;
        assert doc.users[i] in doc.users;
      }
      if HasUser(doc, d) {
        var u :| u in doc.users && u.id == d;
        var i :| 0 <= i < |doc.users| && doc.users[i] == u;
      }
    }
  }

  lemma CreatedUser(users: map<Id, User>, doc: Doc, ids: seq<Id>, userMap: map<DocId, Id>, created: map<Id, User>,
      i: nat)
    requires |ids| == |doc.users| && UsersResolved(users, doc.users, ids, userMap, created) && NoRepeats(ids)
    requires i < |ids| && !Matched(users, doc.users[i].user)
    ensures ids[i] in created && created[ids[i]] == doc.users[i].user
  {
    hide Matched, MapsUser;
    assert CreatesUser(users, doc.users, ids, ids[i], created[ids[i]]);
    var k :| 0 <= k < |doc.users| && k < |ids| && ids[k] == ids[i] && doc.users[k].user == created[ids[i]];
    assert k == i;
  }

  lemma ResolvedNames(users: map<Id, User>, doc: Doc, ids: seq<Id>, userMap: map<DocId, Id>, created: map<Id, User>)
    requires |ids| == |doc.users| && UsersResolved(users, doc.users, ids, userMap, created) && NoRepeats(ids)
    ensures AllNamed(created) <==> forall u | u in doc.users :: u.user.name != "" || Matched(users, u.user)
  {
    hide Matched, MapsUser;
    if forall x | x in created :: created[x].name != "" {
      forall u | u in doc.users ensures u.user.name != "" || Matched(users, u.user) {
        var i :| 0 <= i < |doc.users| && doc.users[i] == u;
        if !Matched(users, doc.users[i].user) {
          CreatedUser(users, doc, ids, userMap, created, i);
          assert ids[i] in created && created[ids[i]] == u.user;
        }
      }
    } else {
      var x :| x in created && created[x].name == "";
      assert CreatesUser(users, doc.users, ids, x, created[x]);
      hide UsersResolved;
      var k :| 0 <= k < |doc.users| && k < |ids| && ids[k] == x && doc.users[k].user == created[x]
          && !Matched(users, created[x]);
      assert doc.users[k] in doc.users;
    }
  }
}
