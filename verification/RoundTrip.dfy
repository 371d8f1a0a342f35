/** Exporting a well-formed collection and importing the document, anywhere and later,
    succeeds and gives the same collection under new identifiers. */
module RoundTrip {
  import opened Domain
  import opened Graph
  import opened Sequences
  import opened Document
  import opened ImportOrder
  import opened RemoteData
  import opened ExportImport
  import Lifecycle

  /** From each task to its parent, inside the collection. */
  function ParentEdges(s: Site, coll: Id): Edges {
    set id | id in TasksOf(s, coll) && s.db.tasks[id].parent.Some? :: (id, s.db.tasks[id].parent.value)
  }

  /** Import accepts the exported task: it is titled, not both held and closed, its links are
      valid, and its remote data has no map right at the depth limit. */
  predicate TaskImportable(rules: Rules, t: Task) {
    && t.title != "" && !(t.hold.Some? && IsTerminal(t.stage))
    && (forall p | p in t.pullRequests :: rules.validUrl(p.url))
    && (t.remote.Some? ==> forall k | k in t.remote.value :: !MapAtLimit(rules, k, t.remote.value[k], 0))
  }

  /** Import of the exported task also leaves its times alone. */
  predicate TaskPortable(rules: Rules, t: Task) {
    TaskImportable(rules, t) && t.createdAt != ZERO_TIME && t.updatedAt != ZERO_TIME
  }

  ghost predicate ParentsInside(s: Site, coll: Id) {
    && (forall id | id in TasksOf(s, coll) && s.db.tasks[id].parent.Some? ::
        s.db.tasks[id].parent.value in TasksOf(s, coll))
    && Acyclic(ParentEdges(s, coll))
  }

  /** The collection, exported, can be imported where these users exist. */
  ghost predicate Portable(rules: Rules, s: Site, coll: Id, users: map<Id, User>)
    requires coll in s.collections
  {
    && s.collections[coll].native && s.collections[coll].name != "" && ParentsInside(s, coll)
    && (forall id | id in TasksOf(s, coll) :: TaskImportable(rules, s.db.tasks[id]))
    && (forall c | c in CommentsOf(s, coll) :: s.comments[c].body != "")
    && (forall u | u in UsersOf(s, coll) :: u in s.users && (s.users[u].name != "" || Matched(users, s.users[u])))
  }

  ghost predicate WellFormed(rules: Rules, s: Site, coll: Id, now: Time) {
    && rules.Ok() && Lifecycle.DbInv(s.db, now)
    && coll in s.collections && s.collections[coll].native
    && s.collections[coll].createdAt != ZERO_TIME && s.collections[coll].updatedAt != ZERO_TIME
    && Portable(rules, s, coll, map[])
    && (forall id | id in TasksOf(s, coll) :: TaskPortable(rules, s.db.tasks[id]))
    && (forall c | c in CommentsOf(s, coll) ::
        s.comments[c].createdAt != ZERO_TIME && s.comments[c].updatedAt != ZERO_TIME)
  }

  // ----- The document of a well-formed collection can be imported -----

  lemma ExportedTask(rules: Rules, s: Site, coll: Id, l: Listing, doc: Doc, id: Id)
    requires coll in s.collections && IsExport(rules, s, coll, l, doc) && id in TasksOf(s, coll)
    ensures TaskExport(rules, id, s.db.tasks[id]) in doc.tasks && HasId(doc.tasks, Spelled(id))
  {
    assert id in l.tasks;
    var i :| 0 <= i < |l.tasks| && l.tasks[i] == id;
    assert doc.tasks[i] == TaskExport(rules, id, s.db.tasks[id]);
  }

  lemma TaskOfDoc(rules: Rules, s: Site, coll: Id, l: Listing, doc: Doc, t: DocTask) returns (id: Id)
    requires coll in s.collections && IsExport(rules, s, coll, l, doc) && t in doc.tasks
    ensures id in TasksOf(s, coll) && t == TaskExport(rules, id, s.db.tasks[id])
  {
    var i :| 0 <= i < |doc.tasks| && doc.tasks[i] == t;
    id := l.tasks[i];
    assert id in l.tasks;
  }

  lemma ExportedUser(rules: Rules, s: Site, coll: Id, l: Listing, doc: Doc, u: Id)
    requires coll in s.collections && IsExport(rules, s, coll, l, doc) && u in UsersOf(s, coll)
    ensures HasUser(doc, Spelled(u))
  {
    assert u in l.users;
    var i :| 0 <= i < |l.users| && l.users[i] == u;
    assert doc.users[i] in doc.users;
  }

  lemma {:induction false} AncestryIsWalk(rules: Rules, s: Site, coll: Id, l: Listing, doc: Doc, x: DocId, y: DocId,
      n: nat)
    requires coll in s.collections && IsExport(rules, s, coll, l, doc) && Ancestor(Elements(doc.tasks), x, y, n)
            && n > 0
    ensures x.Spelled? && y.Spelled? && Walk(ParentEdges(s, coll), x.value, y.value, n)
    decreases n
  {
    var e := ParentEdges(s, coll);
    var t :| t in Elements(doc.tasks) && t.id == x && Given(t.parent)
        && Ancestor(Elements(doc.tasks), t.parent.value, y, n - 1);
    var id := TaskOfDoc(rules, s, coll, l, doc, t);
    var up := s.db.tasks[id].parent.value;
    hide IsExport;
    assert (id, up) in e;
    if n > 1 {
      AncestryIsWalk(rules, s, coll, l, doc, t.parent.value, y, n - 1);
    } else {
      assert Walk(e, up, up, 0);
    }
  }

  lemma CycleLeads(rules: Rules, s: Site, coll: Id, l: Listing, doc: Doc, x: DocId, n: nat)
    requires coll in s.collections && IsExport(rules, s, coll, l, doc) && n > 0
    ensures Ancestor(Elements(doc.tasks), x, x, n) ==> x.Spelled? && Leads(ParentEdges(s, coll), x.value, x.value)
  {
    if Ancestor(Elements(doc.tasks), x, x, n) { AncestryIsWalk(rules, s, coll, l, doc, x, x, n); }
  }

  lemma {:induction false} WalkIsAncestry(rules: Rules, s: Site, coll: Id, l: Listing, doc: Doc, x: Id, y: Id, n: nat)
    requires coll in s.collections && IsExport(rules, s, coll, l, doc) && Walk(ParentEdges(s, coll), x, y, n)
    ensures Ancestor(Elements(doc.tasks), Spelled(x), Spelled(y), n)
    decreases n
  {
    if n > 0 {
      var z :| (x, z) in ParentEdges(s, coll) && Walk(ParentEdges(s, coll), z, y, n - 1);
      ExportedTask(rules, s, coll, l, doc, x);
      var t := TaskExport(rules, x, s.db.tasks[x]);
      hide IsExport, HasId;
      assert t in Elements(doc.tasks) && t.parent == Some(Spelled(z));
      WalkIsAncestry(rules, s, coll, l, doc, z, y, n - 1);
    }
  }

  lemma ExportDistinct(rules: Rules, s: Site, coll: Id, l: Listing, doc: Doc)
    requires coll in s.collections && IsExport(rules, s, coll, l, doc)
    ensures DistinctIds(doc.tasks)
  {
  }

  lemma ParentPresentIff(rules: Rules, s: Site, coll: Id, l: Listing, doc: Doc, id: Id)
    requires coll in s.collections && IsExport(rules, s, coll, l, doc)
    ensures HasId(doc.tasks, Spelled(id)) <==> id in TasksOf(s, coll)
  {
    if id in TasksOf(s, coll) { ExportedTask(rules, s, coll, l, doc, id); }
    if HasId(doc.tasks, Spelled(id)) {
      var t :| t in doc.tasks && t.id == Spelled(id);
      var x := TaskOfDoc(rules, s, coll, l, doc, t);
      assert x == id;
    }
  }

  /** The document's parent pointers are in order exactly if the collection's are. */
  lemma ExportWellParented(rules: Rules, s: Site, coll: Id, l: Listing, doc: Doc)
    requires coll in s.collections && IsExport(rules, s, coll, l, doc)
    ensures WellParented(doc.tasks) <==> ParentsInside(s, coll)
  {
    ExportDistinct(rules, s, coll, l, doc);
    if ParentsInside(s, coll) {
      ParentsInsidePresent(rules, s, coll, l, doc);
      hide IsExport, TaskExport;
      forall x, n: nat | n > 0 ensures !Ancestor(Elements(doc.tasks), x, x, n) {
        CycleLeads(rules, s, coll, l, doc, x, n);
      }
    }
    if WellParented(doc.tasks) { PresentParentsInside(rules, s, coll, l, doc); }
  }

  lemma ParentsInsidePresent(rules: Rules, s: Site, coll: Id, l: Listing, doc: Doc)
    requires coll in s.collections && IsExport(rules, s, coll, l, doc) && ParentsInside(s, coll)
    ensures ParentsPresent(doc.tasks)
  {
    forall t | t in doc.tasks && Given(t.parent) ensures HasId(doc.tasks, t.parent.value) {
      var id := TaskOfDoc(rules, s, coll, l, doc, t);
      ParentPresentIff(rules, s, coll, l, doc, s.db.tasks[id].parent.value);
    }
  }

  lemma PresentParentsInside(rules: Rules, s: Site, coll: Id, l: Listing, doc: Doc)
    requires coll in s.collections && IsExport(rules, s, coll, l, doc) && WellParented(doc.tasks)
    ensures ParentsInside(s, coll)
  {
    forall id | id in TasksOf(s, coll) && s.db.tasks[id].parent.Some?
        ensures s.db.tasks[id].parent.value in TasksOf(s, coll) {
      ExportedTask(rules, s, coll, l, doc, id);
      ParentPresentIff(rules, s, coll, l, doc, s.db.tasks[id].parent.value);
    }
    hide IsExport, HasId, DistinctIds, ParentsPresent;
    forall x ensures !Leads(ParentEdges(s, coll), x, x) {
      if n: nat :| n > 0 && Walk(ParentEdges(s, coll), x, x, n) {
        WalkIsAncestry(rules, s, coll, l, doc, x, x, n);
      }
    }
  }

  lemma ExportTaskReferencesOk(rules: Rules, s: Site, coll: Id, l: Listing, doc: Doc, t: DocTask)
    requires coll in s.collections && IsExport(rules, s, coll, l, doc) && t in doc.tasks
    ensures Given(t.assignee) ==> HasUser(doc, t.assignee.value)
    ensures t.phase.Spelled? && t.stage.Spelled? && t.stage.value.Native? && Parse(t.priority).Ok? && Parse(t.ci).Ok?
  {
    var id := TaskOfDoc(rules, s, coll, l, doc, t);
    if Given(t.assignee) { ExportedUser(rules, s, coll, l, doc, t.assignee.value.value); }
  }

  lemma ExportCommentReferencesOk(rules: Rules, s: Site, coll: Id, l: Listing, doc: Doc, c: DocComment)
    requires coll in s.collections && IsExport(rules, s, coll, l, doc) && c in doc.comments
    ensures c.id.Spelled? && HasId(doc.tasks, c.task) && HasUser(doc, c.author)
  {
    var i :| 0 <= i < |doc.comments| && doc.comments[i] == c;
    assert l.comments[i] in l.comments;
    ExportedTask(rules, s, coll, l, doc, s.comments[l.comments[i]].task);
    ExportedUser(rules, s, coll, l, doc, s.comments[l.comments[i]].author);
  }

  lemma ExportRowReferencesOk(rules: Rules, s: Site, coll: Id, l: Listing, doc: Doc, r: DocRow)
    requires coll in s.collections && IsExport(rules, s, coll, l, doc) && r in doc.rows
    ensures HasId(doc.tasks, r.source) && HasId(doc.tasks, r.target) && r.kind.Spelled?
  {
    var i :| 0 <= i < |doc.rows| && doc.rows[i] == r;
    assert l.rows[i] in l.rows;
    ExportedTask(rules, s, coll, l, doc, l.rows[i].source);
    ExportedTask(rules, s, coll, l, doc, l.rows[i].target);
  }

  lemma ExportUserSpelled(rules: Rules, s: Site, coll: Id, l: Listing, doc: Doc, u: DocUser)
    requires coll in s.collections && IsExport(rules, s, coll, l, doc) && u in doc.users
    ensures u.id.Spelled?
  {
    var i :| 0 <= i < |doc.users| && doc.users[i] == u;
  }

  lemma ExportReferencesOk(rules: Rules, s: Site, coll: Id, l: Listing, doc: Doc)
    requires coll in s.collections && IsExport(rules, s, coll, l, doc)
    ensures ReferencesOk(doc)
  {
    hide IsExport, HasId, HasUser;
    forall t | t in doc.tasks { ExportTaskReferencesOk(rules, s, coll, l, doc, t); }
    forall c | c in doc.comments { ExportCommentReferencesOk(rules, s, coll, l, doc, c); }
    forall r | r in doc.rows { ExportRowReferencesOk(rules, s, coll, l, doc, r); }
    forall u | u in doc.users { ExportUserSpelled(rules, s, coll, l, doc, u); }
  }

  lemma TaskExportAccepted(rules: Rules, id: Id, t: Task, hasOldBlocker: bool, now: Time)
    requires rules.Ok() && Lifecycle.TaskInv(t, now)
    ensures t.title != "" && TaskAccepted(rules, TaskExport(rules, id, t), hasOldBlocker, 2, now)
            <==> TaskImportable(rules, t)
  {
    if t.remote.Some? { SanitizedMapAccepted(rules, t.remote.value, 0); }
    var stage := t.stage;
    match stage case _ => {}
  }

  /** A later clock only makes fewer start dates lie in the future. */
  lemma InvLater(db: Db, now: Time, later: Time)
    requires Lifecycle.DbInv(db, now) && now <= later
    ensures Lifecycle.DbInv(db, later)
  {
  }

  lemma ExportedNames(rules: Rules, s: Site, coll: Id, l: Listing, doc: Doc, users: map<Id, User>)
    requires coll in s.collections && IsExport(rules, s, coll, l, doc)
    ensures (forall u | u in doc.users :: u.user.name != "" || Matched(users, u.user))
            <==> forall u | u in UsersOf(s, coll) ::
                u in s.users && (s.users[u].name != "" || Matched(users, s.users[u]))
  {
    hide Matched, UsersOf, TasksOf, CommentsOf;
    forall u | u in doc.users ensures exists id :: id in UsersOf(s, coll) && id in s.users && u.user == s.users[id] {
      var i :| 0 <= i < |doc.users| && doc.users[i] == u;
      var id := l.users[i];
      assert id in l.users;
      assert id in UsersOf(s, coll) && id in s.users && u.user == s.users[id];
    }
    forall id | id in UsersOf(s, coll) ensures id in s.users && exists u :: u in doc.users && u.user == s.users[id] {
      var i :| 0 <= i < |l.users| && l.users[i] == id;
      assert doc.users[i] in doc.users;
    }
  }

  lemma ExportedBodies(rules: Rules, s: Site, coll: Id, l: Listing, doc: Doc)
    requires coll in s.collections && IsExport(rules, s, coll, l, doc)
    ensures (forall c | c in doc.comments :: c.body != "") <==> forall c | c in CommentsOf(s, coll) ::
            s.comments[c].body != ""
  {
    hide UsersOf, TasksOf, CommentsOf;
    forall c | c in doc.comments ensures exists id :: id in CommentsOf(s, coll) && c.body == s.comments[id].body {
      var i :| 0 <= i < |doc.comments| && doc.comments[i] == c;
      assert l.comments[i] in l.comments;
    }
    forall id | id in CommentsOf(s, coll) ensures exists c :: c in doc.comments && c.body == s.comments[id].body {
      assert id in l.comments;
      var i :| 0 <= i < |l.comments| && l.comments[i] == id;
      assert doc.comments[i] in doc.comments;
    }
  }

  lemma ExportedTasksAccepted(rules: Rules, s: Site, coll: Id, l: Listing, doc: Doc, now: Time)
    requires rules.Ok() && Lifecycle.DbInv(s.db, now)
    requires coll in s.collections && IsExport(rules, s, coll, l, doc)
    ensures AllAccepted(rules, doc, now) && AllTitled(doc)
            <==> forall id | id in TasksOf(s, coll) :: TaskImportable(rules, s.db.tasks[id])
    ensures forall t | t in doc.tasks :: t.id.Spelled?
  {
    forall t | t in doc.tasks
      ensures t.id.Spelled?
      ensures exists id :: id in TasksOf(s, coll) &&
                (t.title != "" && TaskAccepted(rules, t, OldBlocker(doc.rows, t.id), doc.version, now)
                 <==> TaskImportable(rules, s.db.tasks[id]))
    {
      var id := TaskOfDoc(rules, s, coll, l, doc, t);
      TaskExportAccepted(rules, id, s.db.tasks[id], OldBlocker(doc.rows, t.id), now);
    }
    forall id | id in TasksOf(s, coll)
      ensures exists t :: t in doc.tasks &&
                (t.title != "" && TaskAccepted(rules, t, OldBlocker(doc.rows, t.id), doc.version, now)
                 <==> TaskImportable(rules, s.db.tasks[id]))
    {
      ExportedTask(rules, s, coll, l, doc, id);
      var t := TaskExport(rules, id, s.db.tasks[id]);
      TaskExportAccepted(rules, id, s.db.tasks[id], OldBlocker(doc.rows, t.id), now);
    }
    hide TaskAccepted, TaskImportable, IsExport, OldBlocker, TasksOf;
  }

  /** Exactly which collections can be carried over: import accepts the exported document if and
      only if the collection is portable. */
  lemma ImportableIffPortable(rules: Rules, s: Site, coll: Id, l: Listing, doc: Doc, now: Time, s2: Site, later: Time)
    requires rules.Ok() && Lifecycle.DbInv(s.db, now) && now <= later
    requires coll in s.collections && IsExport(rules, s, coll, l, doc)
    ensures Importable(rules, s2, doc, later) <==> Portable(rules, s, coll, s2.users)
  {
    hide WellParented, ReferencesOk, AllAccepted, AllTitled, TaskImportable, ParentsInside, Lifecycle.DbInv, Matched;
    InvLater(s.db, now, later);
    ExportWellParented(rules, s, coll, l, doc);
    ExportReferencesOk(rules, s, coll, l, doc);
    ExportedTasksAccepted(rules, s, coll, l, doc, later);
    ExportedNames(rules, s, coll, l, doc, s2.users);
    ExportedBodies(rules, s, coll, l, doc);
    RowsStayDistinct(l.rows, doc.rows);
  }

  /** A closed task keeps its hold reason, and then its collection cannot be carried over. */
  lemma HeldClosedTaskStops(rules: Rules, s: Site, coll: Id, users: map<Id, User>, id: Id)
    requires coll in s.collections && id in TasksOf(s, coll)
    requires s.db.tasks[id].hold.Some? && s.db.tasks[id].stage == Completed
    ensures !Portable(rules, s, coll, users)
  {
    assert !TaskImportable(rules, s.db.tasks[id]);
  }

  /** Such a task is one close away: closing any held task of the collection stops it. */
  lemma ClosingHeldStops(rules: Rules, s: Site, coll: Id, users: map<Id, User>, id: Id, now: Time)
    requires coll in s.collections && id in TasksOf(s, coll)
    requires s.db.tasks[id].hold.Some? && Lifecycle.CloseLoad(s.db, id, Completed) == Ok(s.db.tasks[id])
    ensures !Portable(rules, s.(db := Lifecycle.CloseWrite(s.db, id, Completed, s.db.tasks[id], now)), coll, users)
  {
    var s' := s.(db := Lifecycle.CloseWrite(s.db, id, Completed, s.db.tasks[id], now));
    HeldClosedTaskStops(rules, s', coll, users, id);
  }

  lemma PortableAnywhere(rules: Rules, s: Site, coll: Id, users: map<Id, User>)
    requires coll in s.collections && Portable(rules, s, coll, map[])
    ensures Portable(rules, s, coll, users)
  {
    hide TaskImportable, ParentsInside;
    assert forall u :: !Matched(map[], u) by {
      forall u, y ensures !UniqueMatch(map[], u, y) {
        assert y !in WithEmail(map[], u.email);
      }
    }
  }

  /** So a well-formed collection can be imported into any site, at any later time. */
  lemma ExportIsImportable(rules: Rules, s: Site, coll: Id, l: Listing, doc: Doc, now: Time, s2: Site, later: Time)
    requires WellFormed(rules, s, coll, now) && IsExport(rules, s, coll, l, doc) && now <= later
    ensures Importable(rules, s2, doc, later)
  {
    PortableAnywhere(rules, s, coll, s2.users);
    hide Portable, Importable;
    ImportableIffPortable(rules, s, coll, l, doc, now, s2, later);
  }

  lemma RowsStayDistinct(rows: seq<Row>, out: seq<DocRow>)
    requires NoRepeats(rows) && |out| == |rows| && forall i | 0 <= i < |rows| :: out[i] == RowExport(rows[i])
    ensures NoRepeats(out)
  {
  }

  // ----- What the import makes of it -----

  function RenameId(id: Option<Id>, f: map<Id, Id>): Option<Id> {
    if id.Some? && id.value in f then Some(f[id.value]) else None
  }

  /** The same task under new identifiers: version 1, remote data sanitized, nothing else
      changed. */
  function Renamed(rules: Rules, t: Task, coll: Id, f: map<Id, Id>, g: map<Id, Id>): Task {
    t.(collection := coll, parent := RenameId(t.parent, f), assignee := RenameId(t.assignee, g),
       remote := SanitizeRemoteData(rules, t.remote), version := 1)
  }

  function RenamedComment(c: Comment, f: map<Id, Id>, g: map<Id, Id>): Comment
    requires c.task in f && c.author in g
  {
    c.(task := f[c.task], author := g[c.author])
  }

  /** What a renaming renames to. */
  function Range(f: map<Id, Id>): set<Id> { set x | x in f :: f[x] }

  /** The renamings of tasks, users and comments. */
  datatype Renaming = Renaming(tasks: map<Id, Id>, users: map<Id, Id>, comments: map<Id, Id>)

  /** Collection `coll` of s and collection `copy` of s' are the same up to renaming, where the
      users that are not in `known` are new. */
  ghost predicate Isomorphic(rules: Rules, s: Site, coll: Id, known: map<Id, User>, s': Site, copy: Id, m: Renaming) {
    && UsersCorrespond(s, coll, known, s', m)
    && TasksCorrespond(rules, s, coll, s', copy, m)
    && RowsCorrespond(s, s', m)
    && CommentsCorrespond(s, coll, s', copy, m)
  }

  /** x is what a user becomes: the one known user with its address or, if there is none, a new
      user with the same record. */
  ghost predicate Becomes(known: map<Id, User>, u: User, after: map<Id, User>, x: Id) {
    if Matched(known, u) then UniqueMatch(known, u, x) else x !in known && x in after && after[x] == u
  }

  /** Every user of the collection becomes some user, no two become the same new user, and there
      are no other new users. */
  ghost predicate UsersCorrespond(s: Site, coll: Id, known: map<Id, User>, s': Site, m: Renaming) {
    && m.users.Keys == UsersOf(s, coll) && m.users.Keys <= s.users.Keys
    && (forall u | u in m.users :: Becomes(known, s.users[u], s'.users, m.users[u]))
    && (forall u, v | u in m.users && v in m.users && m.users[u] == m.users[v] && m.users[u] !in known :: u == v)
    && (forall x | x in s'.users && x !in known :: x in Range(m.users))
  }

  ghost predicate TasksCorrespond(rules: Rules, s: Site, coll: Id, s': Site, copy: Id, m: Renaming) {
    && m.tasks.Keys == TasksOf(s, coll) && InjectiveMap(m.tasks) && Range(m.tasks) == TasksOf(s', copy)
    && forall id | id in m.tasks ::
         id in s.db.tasks && m.tasks[id] in s'.db.tasks
         && s'.db.tasks[m.tasks[id]] == Renamed(rules, s.db.tasks[id], copy, m.tasks, m.users)
  }

  ghost predicate RowsCorrespond(s: Site, s': Site, m: Renaming) {
    forall x, y, k | x in m.tasks && y in m.tasks ::
      Row(x, y, k) in s.db.rows <==> Row(m.tasks[x], m.tasks[y], k) in s'.db.rows
  }

  ghost predicate CommentsCorrespond(s: Site, coll: Id, s': Site, copy: Id, m: Renaming) {
    && m.comments.Keys == CommentsOf(s, coll) && InjectiveMap(m.comments) && Range(m.comments) == CommentsOf(s', copy)
    && forall c | c in m.comments ::
         && c in s.comments && m.comments[c] in s'.comments
         && s.comments[c].task in m.tasks && s.comments[c].author in m.users
         && s'.comments[m.comments[c]] == RenamedComment(s.comments[c], m.tasks, m.users)
  }

  /** What was there before the import is untouched. */
  ghost predicate Extends(s: Site, s': Site) {
    && (forall id | id in s.db.tasks :: id in s'.db.tasks && s'.db.tasks[id] == s.db.tasks[id])
    && (forall r | r in s'.db.rows && r !in s.db.rows :: r.source !in s.db.tasks && r.target !in s.db.tasks)
    && s.db.rows <= s'.db.rows
    && (forall c | c in s.comments :: c in s'.comments && s'.comments[c] == s.comments[c])
    && (forall u | u in s.users :: u in s'.users && s'.users[u] == s.users[u])
    && (forall k | k in s.collections :: k in s'.collections && s'.collections[k] == s.collections[k])
  }

  ghost function IndexOf(q: seq<Id>, x: Id): (i: nat)
    requires x in q
    ensures i < |q| && q[i] == x
  {
    var i :| 0 <= i < |q| && q[i] == x;
    i
  }

  /** Pairs two lists place by place. */
  ghost function Pairing(from: seq<Id>, to: seq<Id>): (m: map<Id, Id>)
    requires |from| == |to|
    ensures m.Keys == Elements(from)
  {
    map x | x in from :: to[IndexOf(from, x)]
  }

  lemma PairingBijective(from: seq<Id>, to: seq<Id>)
    requires |from| == |to| && NoRepeats(from) && NoRepeats(to)
    ensures InjectiveMap(Pairing(from, to)) && Range(Pairing(from, to)) == Elements(to)
    ensures forall i | 0 <= i < |from| :: from[i] in from && Pairing(from, to)[from[i]] == to[i]
  {
    var m := Pairing(from, to);
    forall i | 0 <= i < |from| ensures from[i] in from && m[from[i]] == to[i] {
      assert from[i] in from && IndexOf(from, from[i]) == i;
    }
    forall v | v in to ensures v in Range(m) {
      var i :| 0 <= i < |to| && to[i] == v;
      assert m[from[i]] in Range(m);
    }
  }

  /** The renamings an import of an export performs. */
  ghost function RenamingOf(s: Site, coll: Id, l: Listing, supply: Supply, a: Added): Renaming {
    Renaming(
      map id | id in TasksOf(s, coll) && Spelled(id) in a.taskMap :: a.taskMap[Spelled(id)],
      map u | u in UsersOf(s, coll) && Spelled(u) in a.userMap :: a.userMap[Spelled(u)],
      if |l.comments| == |supply.comments| then Pairing(l.comments, supply.comments) else map[])
  }

  /** The renaming does to x what the import's map does to its spelling. */
  predicate Agrees(x: Id, f: map<Id, Id>, ids: map<DocId, Id>) {
    x in f && Spelled(x) in ids && f[x] == ids[Spelled(x)]
  }

  /** One task there and back. */
  lemma TaskRoundTrip(rules: Rules, s: Site, coll: Id, id: Id, copy: Id, taskMap: map<DocId, Id>,
      userMap: map<DocId, Id>, f: map<Id, Id>, g: map<Id, Id>, hasOldBlocker: bool, now: Time, t: Task)
    requires rules.Ok() && TaskPortable(rules, t) && Lifecycle.TaskInv(t, now)
    requires t.parent.Some? ==> Agrees(t.parent.value, f, taskMap)
    requires t.assignee.Some? ==> Agrees(t.assignee.value, g, userMap)
    ensures ImportedTask(rules, TaskExport(rules, id, t), copy, taskMap, userMap, hasOldBlocker, 2, now)
            == Ok(Renamed(rules, t, copy, f, g))
  {
    hide SanitizeMap, ValidateMap, MapAtLimit, TaskImportable;
    assert TaskImportable(rules, t);
    TaskExportAccepted(rules, id, t, hasOldBlocker, now);
    if t.remote.Some? { SanitizeMapTwice(rules, t.remote.value, 0); }
  }

  /** An import of the export, into a site whose own references are in order. */
  ghost predicate Transfer(rules: Rules, s: Site, coll: Id, l: Listing, doc: Doc, now: Time,
      s2: Site, supply: Supply, later: Time, a: Added, s': Site)
  {
    && WellFormed(rules, s, coll, now) && IsExport(rules, s, coll, l, doc) && now <= later
    && s2.db.ForeignKeys() && (forall c | c in s2.comments :: s2.comments[c].task in s2.db.tasks)
    && supply.Fits(s2, doc) && IsImport(rules, s2, doc, supply, later, a, s')
  }

  lemma TaskMapCovers(rules: Rules, s: Site, coll: Id, l: Listing, doc: Doc, ids: seq<Id>, id: Id)
    requires coll in s.collections && IsExport(rules, s, coll, l, doc) && DistinctIds(doc.tasks)
    requires |ids| == |doc.tasks| && id in TasksOf(s, coll)
    ensures Spelled(id) in TaskMap(doc.tasks, ids)
  {
    hide IsExport, TaskExport, TaskMap;
    TaskMapAt(doc.tasks, ids);
    ExportedTask(rules, s, coll, l, doc, id);
    var t :| t in doc.tasks && t.id == Spelled(id);
    var i :| 0 <= i < |doc.tasks| && doc.tasks[i] == t;
  }

  lemma TaskMapOnly(rules: Rules, s: Site, coll: Id, l: Listing, doc: Doc, ids: seq<Id>, d: DocId)
    requires coll in s.collections && IsExport(rules, s, coll, l, doc) && DistinctIds(doc.tasks)
    requires |ids| == |doc.tasks| && d in TaskMap(doc.tasks, ids)
    ensures d.Spelled? && d.value in TasksOf(s, coll)
  {
    hide IsExport, TaskMap;
    TaskMapAt(doc.tasks, ids);
    var t :| t in doc.tasks && t.id == d;
    var id := TaskOfDoc(rules, s, coll, l, doc, t);
  }

  /** The imported tasks are exactly the collection's, one new identifier for each. */
  ghost predicate Renames(s: Site, coll: Id, taskMap: map<DocId, Id>, ids: seq<Id>) {
    && (forall id | id in TasksOf(s, coll) :: Spelled(id) in taskMap)
    && (forall d | d in taskMap :: d.Spelled? && d.value in TasksOf(s, coll))
    && InjectiveMap(taskMap) && taskMap.Values == Elements(ids)
  }

  lemma TaskMapOfExport(rules: Rules, s: Site, coll: Id, l: Listing, doc: Doc, now: Time, ids: seq<Id>)
    requires WellFormed(rules, s, coll, now) && IsExport(rules, s, coll, l, doc)
    requires |ids| == |doc.tasks| && NoRepeats(ids)
    ensures Renames(s, coll, TaskMap(doc.tasks, ids), ids)
  {
    ExportDistinct(rules, s, coll, l, doc);
    assert DistinctIds(doc.tasks) && coll in s.collections;
    hide WellFormed, IsExport, TaskMap, DistinctIds, WellParented;
    TaskMapInjective(doc.tasks, ids);
    forall id | id in TasksOf(s, coll) { TaskMapCovers(rules, s, coll, l, doc, ids, id); }
    forall d | d in TaskMap(doc.tasks, ids) { TaskMapOnly(rules, s, coll, l, doc, ids, d); }
  }

  lemma UserMapOfExport(rules: Rules, s: Site, coll: Id, l: Listing, doc: Doc,
      users: map<Id, User>, ids: seq<Id>, userMap: map<DocId, Id>, created: map<Id, User>)
    requires coll in s.collections && IsExport(rules, s, coll, l, doc)
    requires |ids| == |doc.users| && UsersResolved(users, doc.users, ids, userMap, created)
    ensures forall u | u in UsersOf(s, coll) :: Spelled(u) in userMap
  {
    ResolvedUsers(users, doc, ids, userMap, created);
    forall u | u in UsersOf(s, coll) ensures Spelled(u) in userMap {
      ExportedUser(rules, s, coll, l, doc, u);
    }
  }

  /** Each task of the collection under its new identifier. */
  lemma TaskIsRenamed(rules: Rules, s: Site, coll: Id, l: Listing, doc: Doc, now: Time, later: Time, copy: Id,
      taskMap: map<DocId, Id>, userMap: map<DocId, Id>, tasks: map<Id, Task>, m: Renaming, id: Id)
    requires WellFormed(rules, s, coll, now) && IsExport(rules, s, coll, l, doc) && now <= later
    requires TasksImported(rules, doc, copy, taskMap, userMap, later, tasks) && id in TasksOf(s, coll)
    requires forall x | x in TasksOf(s, coll) ::
            x in m.tasks && Spelled(x) in taskMap && m.tasks[x] == taskMap[Spelled(x)]
    requires forall u | u in UsersOf(s, coll) ::
            u in m.users && Spelled(u) in userMap && m.users[u] == userMap[Spelled(u)]
    ensures m.tasks[id] in tasks && tasks[m.tasks[id]] == Renamed(rules, s.db.tasks[id], copy, m.tasks, m.users)
    ensures tasks[m.tasks[id]].collection == copy
  {
    assert Renamed(rules, s.db.tasks[id], copy, m.tasks, m.users).collection == copy;
    ExportedTask(rules, s, coll, l, doc, id);
    var t := s.db.tasks[id];
    var out := TaskExport(rules, id, t);
    assert Lifecycle.TaskInv(t, later) && TaskPortable(rules, t);
    assert t.parent.Some? ==> t.parent.value in TasksOf(s, coll);
    if t.assignee.Some? {
      var u := t.assignee.value;
      assert u in UsersOf(s, coll);
      assert u in m.users && Spelled(u) in userMap && m.users[u] == userMap[Spelled(u)];
    }
    hide WellFormed, TaskPortable, TaskExport, ImportedTask, Renamed;
    TaskRoundTrip(rules, s, coll, id, copy, taskMap, userMap, m.tasks, m.users, OldBlocker(doc.rows, out.id), later, t);
    assert out.id == Spelled(id) by { ExportedId(rules, id, t); }
    assert doc.version == 2;
  }

  lemma ExportedId(rules: Rules, id: Id, t: Task)
    ensures TaskExport(rules, id, t).id == Spelled(id)
  {
  }

  /** The pieces of a transfer the lemmas below work with. */
  lemma TransferParts(rules: Rules, s: Site, coll: Id, l: Listing, doc: Doc, now: Time,
      s2: Site, supply: Supply, later: Time, a: Added, s': Site)
    requires Transfer(rules, s, coll, l, doc, now, s2, supply, later, a, s')
    ensures WellFormed(rules, s, coll, now) && coll in s.collections && IsExport(rules, s, coll, l, doc) && now <= later
    ensures TasksImported(rules, doc, supply.coll, a.taskMap, a.userMap, later, a.tasks)
    ensures RowsImported(doc, a.taskMap, a.rows) && UsersResolved(s2.users, doc.users, supply.users, a.userMap, a.users)
    ensures |supply.comments| == |doc.comments| && CommentsImported(doc, supply.comments, a.taskMap, a.userMap, later,
            a.comments)
    ensures s'.db.tasks == s2.db.tasks + a.tasks && s'.db.rows == s2.db.rows + a.rows
            && s'.comments == s2.comments + a.comments
    ensures a.tasks.Keys == a.taskMap.Values && a.taskMap == TaskMap(doc.tasks, supply.tasks)
    ensures |supply.tasks| == |doc.tasks| && NoRepeats(supply.tasks)
    ensures |supply.comments| == |doc.comments| == |l.comments| && NoRepeats(supply.comments) && NoRepeats(l.comments)
    ensures Elements(l.comments) == CommentsOf(s, coll) && |supply.users| == |doc.users|
    ensures forall t :: t in s2.db.tasks ==> s2.db.tasks[t].collection != supply.coll
    ensures forall t :: t in supply.tasks ==> t !in s2.db.tasks
    ensures forall c | c in s2.comments :: s2.comments[c].task in s2.db.tasks
    ensures a.comments.Keys == Elements(supply.comments)
  {
    assert coll in s.collections;
    hide WellFormed, UsersResolved, RowsImported;
    forall t | t in supply.tasks ensures t !in s2.db.tasks {
      var i :| 0 <= i < |supply.tasks| && supply.tasks[i] == t;
    }
  }

  lemma TransferTasks(rules: Rules, s: Site, coll: Id, l: Listing, doc: Doc, now: Time,
      s2: Site, supply: Supply, later: Time, a: Added, s': Site)
    requires Transfer(rules, s, coll, l, doc, now, s2, supply, later, a, s')
    ensures Renames(s, coll, a.taskMap, supply.tasks)
    ensures TasksCorrespond(rules, s, coll, s', supply.coll, RenamingOf(s, coll, l, supply, a))
  {
    hide Transfer, IsImport, WellFormed, IsExport, TasksImported, RowsImported, CommentsImported, UsersResolved,
        Renamed, TaskMap, Supply.Fits;
    TransferParts(rules, s, coll, l, doc, now, s2, supply, later, a, s');
    TaskMapOfExport(rules, s, coll, l, doc, now, supply.tasks);
    UserMapOfExport(rules, s, coll, l, doc, s2.users, supply.users, a.userMap, a.users);
    var m := RenamingOf(s, coll, l, supply, a);
    forall id | id in TasksOf(s, coll)
      ensures m.tasks[id] in a.tasks && a.tasks[m.tasks[id]] == Renamed(rules, s.db.tasks[id], supply.coll, m.tasks,
              m.users)
      ensures a.tasks[m.tasks[id]].collection == supply.coll
    {
      TaskIsRenamed(rules, s, coll, l, doc, now, later, supply.coll, a.taskMap, a.userMap, a.tasks, m, id);
    }
    RenamingKeys(s, coll, l, supply, a);
    NewTasksOnly(s, coll, s2, supply.coll, a.taskMap, a.tasks, m.tasks, s');
  }

  lemma RenamingKeys(s: Site, coll: Id, l: Listing, supply: Supply, a: Added)
    requires Renames(s, coll, a.taskMap, supply.tasks)
    ensures RenamingOf(s, coll, l, supply, a).tasks.Keys == TasksOf(s, coll)
  {
    var f := RenamingOf(s, coll, l, supply, a).tasks;
    forall id ensures id in f <==> id in TasksOf(s, coll) {
      if id in TasksOf(s, coll) { assert Spelled(id) in a.taskMap; }
    }
  }

  /** The tasks of the new collection are exactly the new tasks. */
  lemma NewTasksOnly(s: Site, coll: Id, s2: Site, copy: Id, taskMap: map<DocId, Id>, tasks: map<Id, Task>,
      f: map<Id, Id>, s': Site)
    requires s'.db.tasks == s2.db.tasks + tasks && tasks.Keys == taskMap.Values
    requires forall t :: t in s2.db.tasks ==> s2.db.tasks[t].collection != copy
    requires f.Keys == TasksOf(s, coll) && forall id | id in f ::
            Spelled(id) in taskMap && f[id] == taskMap[Spelled(id)]
    requires forall d | d in taskMap :: d.Spelled? && d.value in TasksOf(s, coll)
    requires InjectiveMap(taskMap)
    requires forall id | id in f :: f[id] in tasks && tasks[f[id]].collection == copy
    ensures InjectiveMap(f) && Range(f) == TasksOf(s', copy)
  {
    forall x, y | x in f && y in f && f[x] == f[y] ensures x == y {
      assert Spelled(x) == Spelled(y);
    }
    forall v ensures v in Range(f) <==> v in TasksOf(s', copy) {
      if v in Range(f) {
        var id :| id in f && f[id] == v;
      }
      if v in TasksOf(s', copy) {
        assert v in tasks && v in taskMap.Values;
        var d :| d in taskMap && taskMap[d] == v;
        assert d == Spelled(d.value);
        assert f[d.value] in Range(f);
      }
    }
  }

  lemma TransferRows(rules: Rules, s: Site, coll: Id, l: Listing, doc: Doc, now: Time,
      s2: Site, supply: Supply, later: Time, a: Added, s': Site)
    requires Transfer(rules, s, coll, l, doc, now, s2, supply, later, a, s')
    requires Renames(s, coll, a.taskMap, supply.tasks)
    ensures RowsCorrespond(s, s', RenamingOf(s, coll, l, supply, a))
  {
    var m := RenamingOf(s, coll, l, supply, a);
    forall x, y, k | x in m.tasks && y in m.tasks
      ensures Row(x, y, k) in s.db.rows <==> Row(m.tasks[x], m.tasks[y], k) in s'.db.rows
    {
      RowRoundTrip(rules, s, coll, l, doc, a.taskMap, a.rows, x, y, k);
      assert m.tasks[x] in a.taskMap.Values && m.tasks[x] in supply.tasks;
      assert m.tasks[x] !in s2.db.tasks;
      assert Row(m.tasks[x], m.tasks[y], k) !in s2.db.rows;
    }
  }

  lemma RowRoundTrip(rules: Rules, s: Site, coll: Id, l: Listing, doc: Doc, taskMap: map<DocId, Id>, rows: set<Row>,
      x: Id, y: Id, k: RelType)
    requires coll in s.collections && IsExport(rules, s, coll, l, doc) && RowsImported(doc, taskMap, rows)
            && InjectiveMap(taskMap)
    requires x in TasksOf(s, coll) && y in TasksOf(s, coll) && Spelled(x) in taskMap && Spelled(y) in taskMap
    ensures Row(x, y, k) in s.db.rows <==> Row(taskMap[Spelled(x)], taskMap[Spelled(y)], k) in rows
  {
    var there := Row(taskMap[Spelled(x)], taskMap[Spelled(y)], k);
    if Row(x, y, k) in s.db.rows {
      assert Row(x, y, k) in l.rows;
      var i :| 0 <= i < |l.rows| && l.rows[i] == Row(x, y, k);
      assert doc.rows[i] in doc.rows && RowImport(doc.rows[i], taskMap) == there;
    }
    if there in rows {
      var r :| r in doc.rows && Resolvable(r, taskMap) && there == RowImport(r, taskMap);
      assert r.source == Spelled(x) && r.target == Spelled(y);
      var i :| 0 <= i < |doc.rows| && doc.rows[i] == r;
      assert l.rows[i] in l.rows && l.rows[i] == Row(x, y, k);
    }
  }

  lemma CommentsRenamed(rules: Rules, s: Site, coll: Id, l: Listing, doc: Doc, now: Time,
      s2: Site, supply: Supply, later: Time, a: Added, s': Site)
    requires Transfer(rules, s, coll, l, doc, now, s2, supply, later, a, s')
    requires Renames(s, coll, a.taskMap, supply.tasks)
    ensures var m := RenamingOf(s, coll, l, supply, a);
            forall c | c in m.comments ::
              && c in s.comments && m.comments[c] in a.comments
              && s.comments[c].task in m.tasks && s.comments[c].author in m.users
              && a.comments[m.comments[c]] == RenamedComment(s.comments[c], m.tasks, m.users)
    ensures var h := RenamingOf(s, coll, l, supply, a).comments;
            h.Keys == CommentsOf(s, coll) && InjectiveMap(h) && Range(h) == a.comments.Keys
  {
    hide Transfer, IsImport, WellFormed, IsExport, TasksImported, RowsImported, CommentsImported, UsersResolved,
        TaskMap, Supply.Fits, TasksOf;
    TransferParts(rules, s, coll, l, doc, now, s2, supply, later, a, s');
    PairingBijective(l.comments, supply.comments);
    UserMapOfExport(rules, s, coll, l, doc, s2.users, supply.users, a.userMap, a.users);
    var m := RenamingOf(s, coll, l, supply, a);
    forall c | c in m.comments
      ensures c in s.comments && m.comments[c] in a.comments
      ensures s.comments[c].task in m.tasks && s.comments[c].author in m.users
      ensures a.comments[m.comments[c]] == RenamedComment(s.comments[c], m.tasks, m.users)
    {
      CommentRoundTrip(rules, s, coll, l, doc, now, supply.comments, a.taskMap, a.userMap, later, a.comments, c);
    }
  }

  lemma TransferComments(rules: Rules, s: Site, coll: Id, l: Listing, doc: Doc, now: Time,
      s2: Site, supply: Supply, later: Time, a: Added, s': Site)
    requires Transfer(rules, s, coll, l, doc, now, s2, supply, later, a, s')
    requires Renames(s, coll, a.taskMap, supply.tasks)
    requires TasksCorrespond(rules, s, coll, s', supply.coll, RenamingOf(s, coll, l, supply, a))
    ensures CommentsCorrespond(s, coll, s', supply.coll, RenamingOf(s, coll, l, supply, a))
  {
    hide Transfer, IsImport, WellFormed, IsExport, TasksImported, RowsImported, CommentsImported, UsersResolved,
         Renamed, TaskMap, Supply.Fits, RenamingOf, TasksOf, CommentsOf, UsersOf;
    var m := RenamingOf(s, coll, l, supply, a);
    TransferParts(rules, s, coll, l, doc, now, s2, supply, later, a, s');
    CommentsRenamed(rules, s, coll, l, doc, now, s2, supply, later, a, s');
    NewCommentTasks(a.comments, m.comments, Range(m.tasks));
    NewCommentsOnly(s2, supply.coll, a.tasks, a.comments, Range(m.tasks), s');
  }

  lemma NewCommentTasks(comments: map<Id, Comment>, h: map<Id, Id>, tasks: set<Id>)
    requires Range(h) == comments.Keys
    requires forall c | c in h :: h[c] in comments && comments[h[c]].task in tasks
    ensures forall c | c in comments :: comments[c].task in tasks
  {
    forall c | c in comments ensures comments[c].task in tasks {
      assert c in Range(h);
    }
  }

  lemma CommentRoundTrip(rules: Rules, s: Site, coll: Id, l: Listing, doc: Doc, now: Time, ids: seq<Id>,
      taskMap: map<DocId, Id>, userMap: map<DocId, Id>, later: Time, comments: map<Id, Comment>, c: Id)
    requires WellFormed(rules, s, coll, now) && IsExport(rules, s, coll, l, doc)
    requires |ids| == |doc.comments| && CommentsImported(doc, ids, taskMap, userMap, later, comments) && c in l.comments
    ensures var i := IndexOf(l.comments, c);
            var was := s.comments[c];
            && c in CommentsOf(s, coll) && was.author in UsersOf(s, coll)
            && Spelled(was.task) in taskMap && Spelled(was.author) in userMap && ids[i] in comments
            && comments[ids[i]] == was.(task := taskMap[Spelled(was.task)], author := userMap[Spelled(was.author)])
  {
    var i := IndexOf(l.comments, c);
    assert c in CommentsOf(s, coll);
    assert doc.comments[i] == CommentExport(c, s.comments[c]);
    assert ids[i] in Elements(ids);
  }

  /** The comments of the new collection are exactly the new comments. */
  lemma NewCommentsOnly(s2: Site, copy: Id, tasks: map<Id, Task>, comments: map<Id, Comment>, copies: set<Id>, s': Site)
    requires s'.comments == s2.comments + comments && s'.db.tasks == s2.db.tasks + tasks
    requires forall t :: t in s2.db.tasks ==> s2.db.tasks[t].collection != copy && t !in tasks
    requires forall c | c in s2.comments :: s2.comments[c].task in s2.db.tasks
    requires copies == TasksOf(s', copy) && forall c | c in comments :: comments[c].task in copies
    ensures comments.Keys == CommentsOf(s', copy)
  {
    forall c ensures c in comments <==> c in CommentsOf(s', copy) {
      if c in comments { assert s'.comments[c] == comments[c]; }
    }
  }

  lemma TransferExtends(rules: Rules, s: Site, coll: Id, l: Listing, doc: Doc, now: Time,
      s2: Site, supply: Supply, later: Time, a: Added, s': Site)
    requires Transfer(rules, s, coll, l, doc, now, s2, supply, later, a, s')
    ensures Extends(s2, s')
  {
    hide Transfer, WellFormed, IsExport, CommentsImported, TasksImported, RowsImported, UsersResolved, TaskMap, Renames;
    TransferParts(rules, s, coll, l, doc, now, s2, supply, later, a, s');
    TransferUserParts(rules, s, coll, l, doc, now, s2, supply, later, a, s');
    TransferFresh(rules, s, coll, l, doc, now, s2, supply, later, a, s');
    TaskMapOfExport(rules, s, coll, l, doc, now, supply.tasks);
    NewRowsApart(s, coll, doc, s2, supply, a);
    NewUsersApart(s2.users, doc.users, supply.users, a);
    assert a.taskMap.Values == Elements(supply.tasks) by { RenamesValues(s, coll, a.taskMap, supply.tasks); }
  }

  lemma RenamesValues(s: Site, coll: Id, taskMap: map<DocId, Id>, ids: seq<Id>)
    requires Renames(s, coll, taskMap, ids)
    ensures taskMap.Values == Elements(ids)
  {
  }

  lemma TransferFresh(rules: Rules, s: Site, coll: Id, l: Listing, doc: Doc, now: Time,
      s2: Site, supply: Supply, later: Time, a: Added, s': Site)
    requires Transfer(rules, s, coll, l, doc, now, s2, supply, later, a, s')
    ensures supply.coll !in s2.collections && s'.collections.Keys == s2.collections.Keys + {supply.coll}
    ensures forall k | k in s2.collections :: s'.collections[k] == s2.collections[k]
    ensures forall c | c in supply.comments :: c !in s2.comments
    ensures s2.db.ForeignKeys()
  {
    hide WellFormed, IsExport, CommentsImported, TasksImported, RowsImported, UsersResolved, TaskMap;
  }

  /** New rows touch new tasks only. */
  lemma NewRowsApart(s: Site, coll: Id, doc: Doc, s2: Site, supply: Supply, a: Added)
    requires RowsImported(doc, a.taskMap, a.rows) && Renames(s, coll, a.taskMap, supply.tasks)
    requires forall t :: t in supply.tasks ==> t !in s2.db.tasks
    ensures forall x | x in a.rows :: x.source !in s2.db.tasks && x.target !in s2.db.tasks
  {
    forall x | x in a.rows ensures x.source !in s2.db.tasks && x.target !in s2.db.tasks {
      var r :| r in doc.rows && Resolvable(r, a.taskMap) && x == RowImport(r, a.taskMap);
      assert a.taskMap[r.source] in a.taskMap.Values && a.taskMap[r.target] in a.taskMap.Values;
      assert x.source in Elements(supply.tasks) && x.target in Elements(supply.tasks);
    }
  }

  lemma NewUsersApart(known: map<Id, User>, docUsers: seq<DocUser>, ids: seq<Id>, a: Added)
    requires UsersResolved(known, docUsers, ids, a.userMap, a.users) && |ids| == |docUsers|
    requires forall i | 0 <= i < |ids| :: ids[i] !in known
    ensures forall u | u in a.users :: u !in known
  {
    hide Matched, MapsUser;
    forall u | u in a.users ensures u !in known { assert CreatesUser(known, docUsers, ids, u, a.users[u]); }
  }

  // ----- Users -----

  /** Which user an exported user becomes. */
  lemma UserBecomes(rules: Rules, s: Site, coll: Id, l: Listing, doc: Doc, known: map<Id, User>, ids: seq<Id>,
      userMap: map<DocId, Id>, created: map<Id, User>, u: Id) returns (i: nat)
    requires coll in s.collections && IsExport(rules, s, coll, l, doc) && NoRepeats(ids)
    requires |ids| == |doc.users| && UsersResolved(known, doc.users, ids, userMap, created)
    requires u in UsersOf(s, coll) && Spelled(u) in userMap
    ensures i < |l.users| == |ids| && l.users[i] == u && u in s.users
    ensures Resolves(known, s.users[u], ids[i], userMap[Spelled(u)])
    ensures !Matched(known, s.users[u]) ==> ids[i] in created && created[ids[i]] == s.users[u]
  {
    hide Matched, Resolves, CreatesUser, TasksOf, CommentsOf, UsersOf;
    assert MapsUser(known, doc.users, ids, Spelled(u), userMap[Spelled(u)]);
    i :| 0 <= i < |doc.users| && i < |ids| && doc.users[i].id == Spelled(u)
         && Resolves(known, doc.users[i].user, ids[i], userMap[Spelled(u)]);
    if !Matched(known, s.users[u]) { CreatedUser(known, doc, ids, userMap, created, i); }
  }

  lemma TransferUserParts(rules: Rules, s: Site, coll: Id, l: Listing, doc: Doc, now: Time,
      s2: Site, supply: Supply, later: Time, a: Added, s': Site)
    requires Transfer(rules, s, coll, l, doc, now, s2, supply, later, a, s')
    ensures coll in s.collections && IsExport(rules, s, coll, l, doc)
    ensures UsersResolved(s2.users, doc.users, supply.users, a.userMap, a.users)
    ensures |supply.users| == |doc.users| == |l.users| && NoRepeats(supply.users)
    ensures forall i | 0 <= i < |supply.users| :: supply.users[i] !in s2.users
    ensures s'.users == s2.users + a.users
    ensures forall u | u in UsersOf(s, coll) :: Spelled(u) in a.userMap
    ensures var g := RenamingOf(s, coll, l, supply, a).users;
            g.Keys == UsersOf(s, coll) && forall u | u in g :: Spelled(u) in a.userMap && g[u] == a.userMap[Spelled(u)]
  {
    hide *;
    TransferParts(rules, s, coll, l, doc, now, s2, supply, later, a, s');
    SuppliedUsers(rules, s, coll, l, doc, now, s2, supply, later, a, s');
    UserMapOfExport(rules, s, coll, l, doc, s2.users, supply.users, a.userMap, a.users);
    RenamedUsers(s, coll, l, supply, a);
  }

  lemma SuppliedUsers(rules: Rules, s: Site, coll: Id, l: Listing, doc: Doc, now: Time,
      s2: Site, supply: Supply, later: Time, a: Added, s': Site)
    requires Transfer(rules, s, coll, l, doc, now, s2, supply, later, a, s')
    ensures |supply.users| == |doc.users| == |l.users| && NoRepeats(supply.users)
    ensures forall i | 0 <= i < |supply.users| :: supply.users[i] !in s2.users
    ensures s'.users == s2.users + a.users
  {
    hide WellFormed, UsersResolved, RowsImported, CommentsImported, TasksImported, UsersOf, CommentsOf, TasksOf,
        RowsOf, TaskMap;
  }

  lemma RenamedUsers(s: Site, coll: Id, l: Listing, supply: Supply, a: Added)
    requires forall u | u in UsersOf(s, coll) :: Spelled(u) in a.userMap
    ensures var g := RenamingOf(s, coll, l, supply, a).users;
            g.Keys == UsersOf(s, coll) && forall u | u in g :: Spelled(u) in a.userMap && g[u] == a.userMap[Spelled(u)]
  {
    hide UsersOf, Pairing;
    var g := RenamingOf(s, coll, l, supply, a).users;
    forall u ensures u in g <==> u in UsersOf(s, coll) {
      if u in UsersOf(s, coll) { assert Spelled(u) in a.userMap; }
    }
  }

  lemma TransferUsers(rules: Rules, s: Site, coll: Id, l: Listing, doc: Doc, now: Time,
      s2: Site, supply: Supply, later: Time, a: Added, s': Site)
    requires Transfer(rules, s, coll, l, doc, now, s2, supply, later, a, s')
    ensures UsersCorrespond(s, coll, s2.users, s', RenamingOf(s, coll, l, supply, a))
  {
    hide Transfer, IsExport, UsersResolved, Matched, UniqueMatch, UsersOf, RenamingOf;
    TransferUserParts(rules, s, coll, l, doc, now, s2, supply, later, a, s');
    var g := RenamingOf(s, coll, l, supply, a).users;
    forall u | u in g ensures u in s.users && Becomes(s2.users, s.users[u], s'.users, g[u]) {
      var i := UserBecomes(rules, s, coll, l, doc, s2.users, supply.users, a.userMap, a.users, u);
    }
    forall u, v | u in g && v in g && g[u] == g[v] && g[u] !in s2.users ensures u == v {
      var i := UserBecomes(rules, s, coll, l, doc, s2.users, supply.users, a.userMap, a.users, u);
      var j := UserBecomes(rules, s, coll, l, doc, s2.users, supply.users, a.userMap, a.users, v);
      MatchIsKnown(s2.users, s.users[u]);
      MatchIsKnown(s2.users, s.users[v]);
      assert supply.users[i] == supply.users[j];
    }
    forall x | x in s'.users && x !in s2.users ensures x in Range(g) {
      NewUserNeeded(rules, s, coll, l, doc, s2.users, supply.users, a.userMap, a.users, x);
    }
  }

  lemma MatchIsKnown(known: map<Id, User>, u: User)
    ensures forall x | UniqueMatch(known, u, x) :: x in known
  {
    forall x | UniqueMatch(known, u, x) ensures x in known {
      assert x in WithEmail(known, u.email);
    }
  }

  /** Every new user is what some user of the collection became. */
  lemma NewUserNeeded(rules: Rules, s: Site, coll: Id, l: Listing, doc: Doc, known: map<Id, User>, ids: seq<Id>,
      userMap: map<DocId, Id>, created: map<Id, User>, x: Id)
    requires coll in s.collections && IsExport(rules, s, coll, l, doc) && NoRepeats(ids)
    requires |ids| == |doc.users| && UsersResolved(known, doc.users, ids, userMap, created) && x in created
    requires forall u | u in UsersOf(s, coll) :: Spelled(u) in userMap
    ensures exists u :: u in UsersOf(s, coll) && userMap[Spelled(u)] == x
  {
    assert CreatesUser(known, doc.users, ids, x, created[x]);
    hide UsersResolved, Matched, UsersOf, TasksOf, CommentsOf;
    var k :| 0 <= k < |doc.users| && k < |ids| && ids[k] == x && doc.users[k].user == created[x]
        && !Matched(known, created[x]);
    var u := l.users[k];
    assert u in l.users && u in UsersOf(s, coll);
    var i := UserBecomes(rules, s, coll, l, doc, known, ids, userMap, created, u);
    assert i == k;
  }

  /** Two users of the collection share an address that exactly one known user has. */
  ghost predicate Merge(s: Site, known: map<Id, User>, u: Id, v: Id)
    requires u in s.users && v in s.users
  {
    u != v && s.users[u].email == s.users[v].email && Matched(known, s.users[u])
  }

  /** Such users become that one user: tasks of the one and of the other become tasks of the same. */
  lemma MergedUsers(s: Site, coll: Id, known: map<Id, User>, s': Site, m: Renaming, u: Id, v: Id, y: Id)
    requires UsersCorrespond(s, coll, known, s', m) && u in m.users && v in m.users
    requires Merge(s, known, u, v) && UniqueMatch(known, s.users[u], y)
    ensures m.users[u] == y && m.users[v] == y
  {
    assert Becomes(known, s.users[u], s'.users, m.users[u]) && Becomes(known, s.users[v], s'.users, m.users[v]);
    assert UniqueMatch(known, s.users[v], y);
    assert m.users[u] in {y} && m.users[v] in {y};
  }

  ghost predicate SomeMerge(s: Site, known: map<Id, User>, users: set<Id>)
    requires users <= s.users.Keys
  {
    exists u, v :: u in users && v in users && Merge(s, known, u, v)
  }

  /** Exactly when users stay apart: the renaming of users is injective if and only if no two
      users of the collection share an address that exactly one user of the receiving site has. */
  lemma UsersStayApartIff(s: Site, coll: Id, known: map<Id, User>, s': Site, m: Renaming)
    requires UsersCorrespond(s, coll, known, s', m)
    ensures InjectiveMap(m.users) <==> !SomeMerge(s, known, UsersOf(s, coll))
  {
    hide Merge, UsersOf;
    var users := UsersOf(s, coll);
    if SomeMerge(s, known, users) {
      var u, v :| u in users && v in users && Merge(s, known, u, v);
      MergedTogether(s, coll, known, s', m, u, v);
    } else {
      forall u, v | u in m.users && v in m.users && m.users[u] == m.users[v] ensures u == v {
        if u != v { SameMeansMerged(s, coll, known, s', m, u, v); }
      }
    }
  }

  lemma MergedTogether(s: Site, coll: Id, known: map<Id, User>, s': Site, m: Renaming, u: Id, v: Id)
    requires UsersCorrespond(s, coll, known, s', m) && u in m.users && v in m.users && Merge(s, known, u, v)
    ensures m.users[u] == m.users[v] && u != v
  {
    var y :| UniqueMatch(known, s.users[u], y);
    MergedUsers(s, coll, known, s', m, u, v, y);
  }

  lemma SameMeansMerged(s: Site, coll: Id, known: map<Id, User>, s': Site, m: Renaming, u: Id, v: Id)
    requires UsersCorrespond(s, coll, known, s', m) && u in m.users && v in m.users
    requires u != v && m.users[u] == m.users[v]
    ensures Merge(s, known, u, v)
  {
    assert Becomes(known, s.users[u], s'.users, m.users[u]) && Becomes(known, s.users[v], s'.users, m.users[v]);
    var x := m.users[u];
    assert x in WithEmail(known, s.users[u].email) && x in WithEmail(known, s.users[v].email);
  }

  /** Nobody loses an assignee, and no task its parent. */
  lemma NothingUnlinked(rules: Rules, s: Site, coll: Id, known: map<Id, User>, s': Site, copy: Id, m: Renaming, id: Id)
    requires Isomorphic(rules, s, coll, known, s', copy, m) && ParentsInside(s, coll) && id in TasksOf(s, coll)
    ensures var t, t' := s.db.tasks[id], s'.db.tasks[m.tasks[id]];
            && (t'.assignee.Some? <==> t.assignee.Some?) && (t'.parent.Some? <==> t.parent.Some?)
            && (t.assignee.Some? ==> BecomesAssignee(s, known, s', t.assignee.value, t'.assignee.value))
            && (t.parent.Some? ==> t'.parent == Some(m.tasks[t.parent.value]))
  {
    var t := s.db.tasks[id];
    if t.assignee.Some? {
      var u := t.assignee.value;
      assert u in UsersOf(s, coll);
      assert Becomes(known, s.users[u], s'.users, m.users[u]);
    }
    hide Becomes;
  }

  ghost predicate BecomesAssignee(s: Site, known: map<Id, User>, s': Site, u: Id, x: Id) {
    u in s.users && Becomes(known, s.users[u], s'.users, x)
  }

  /** The round trip. Exporting a well-formed collection and importing the document into any
      site, then or later, is accepted; and whatever import is made of it, the new collection is
      the old one under new identifiers, and the rest of the site is untouched. */
  lemma ExportImportRoundTrip(rules: Rules, s: Site, coll: Id, l: Listing, doc: Doc, now: Time,
      s2: Site, supply: Supply, later: Time, a: Added, s': Site)
    requires Transfer(rules, s, coll, l, doc, now, s2, supply, later, a, s')
    ensures Importable(rules, s2, doc, later)
    ensures Isomorphic(rules, s, coll, s2.users, s', supply.coll, RenamingOf(s, coll, l, supply, a))
    ensures Extends(s2, s')
    ensures var c, k := s.collections[coll], s'.collections[supply.coll];
            k == c.(remote := SanitizeRemoteData(rules, c.remote))
  {
    hide Importable, Isomorphic, Extends, UsersCorrespond, TasksCorrespond, RowsCorrespond, CommentsCorrespond;
    ExportIsImportable(rules, s, coll, l, doc, now, s2, later);
    TransferUsers(rules, s, coll, l, doc, now, s2, supply, later, a, s');
    TransferTasks(rules, s, coll, l, doc, now, s2, supply, later, a, s');
    TransferRows(rules, s, coll, l, doc, now, s2, supply, later, a, s');
    TransferComments(rules, s, coll, l, doc, now, s2, supply, later, a, s');
    TransferExtends(rules, s, coll, l, doc, now, s2, supply, later, a, s');
    if s.collections[coll].remote.Some? { SanitizeMapTwice(rules, s.collections[coll].remote.value, 0); }
    Assembled(rules, s, coll, s2.users, s', supply.coll, RenamingOf(s, coll, l, supply, a));
  }

  lemma Assembled(rules: Rules, s: Site, coll: Id, known: map<Id, User>, s': Site, copy: Id, m: Renaming)
    requires UsersCorrespond(s, coll, known, s', m) && TasksCorrespond(rules, s, coll, s', copy, m)
    requires RowsCorrespond(s, s', m) && CommentsCorrespond(s, coll, s', copy, m)
    ensures Isomorphic(rules, s, coll, known, s', copy, m)
  {
  }
}
