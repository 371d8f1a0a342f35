/** Update, claim and close as a compare-and-swap protocol. Any number of clients have one
    request each in flight; a request's load and its guarded write are separate steps, and
    creations, insertions and imports are single transactions. */
module Protocol {
  import opened Domain
  import opened Graph
  import opened Lifecycle
  import opened Effects

  type Client = int

  datatype Request =
    | Update(id: Id, p: UpdateParams)
    | Claim(id: Id, assignee: Id, given: Given)
    | Close(id: Id, stage: Stage, given: Given)
  {
    function Version(): Given { if Update? then p.version else given }
  }

  /** A request that has been sent, or that has loaded its task and not yet written. */
  datatype Pending = Sent(req: Request, attempt: nat) | Loaded(req: Request, attempt: nat, prior: Task)

  /** `given` records which versions of which tasks have ever been handed to a client. */
  datatype State = State(db: Db, now: Time, given: set<(Id, int)>, pending: map<Client, Pending>)

  datatype Event =
    | Tick(to: Time)
    | Get(id: Id)
    | Send(client: Client, req: Request)
    | Load(client: Client)
    | Write(client: Client)
    | Create(id: Id, params: CreateParams)
    | Insert(anchor: Id, collection: Id, steps: seq<StepParams>, ids: seq<Id>)
    | Import(tasks: map<Id, Task>, rows: set<Row>)

  // ----- Steps -----

  /** The clock moves forward, fresh identifiers are fresh, and a client sends only a version
      it was given. */
  ghost predicate Enabled(s: State, e: Event) {
    match e
    case Tick(to) => to >= s.now
    case Get(id) => true
    case Send(c, req) => c !in s.pending && (req.Version().Some? ==> (req.id, req.Version().value) in s.given)
    case Load(c) => c in s.pending && s.pending[c].Sent?
    case Write(c) => c in s.pending && s.pending[c].Loaded?
    case Create(id, p) => id !in s.db.tasks
    case Insert(anchor, collection, steps, ids) => FreshIds(s.db, ids, |steps|)
    case Import(tasks, rows) =>
      tasks.Keys !! s.db.tasks.Keys && forall id | id in tasks :: TaskInv(tasks[id], s.now)
  }

  ghost function LoadOf(db: Db, req: Request, now: Time): Result<Task, Error> {
    match req
    case Update(id, p) => UpdateLoad(db, id, p, now)
    case Claim(id, _, _) => ClaimLoad(db, id, now)
    case Close(id, stage, _) => CloseLoad(db, id, stage)
  }

  predicate Guard(db: Db, req: Request, prior: Task, now: Time) {
    match req
    case Update(id, p) => VersionGuard(db, id, p.version, prior)
    case Claim(id, _, given) => ClaimGuard(db, id, given, prior, now)
    case Close(id, _, given) => VersionGuard(db, id, given, prior)
  }

  /** The guarded write matches a row and, for an update, no foreign key fails. */
  ghost predicate Commits(s: State, c: Client) {
    && c in s.pending && s.pending[c].Loaded?
    && Guard(s.db, s.pending[c].req, s.pending[c].prior, s.now)
    && (s.pending[c].req.Update? ==> UpdateKeysOk(s.db, s.pending[c].req.p))
  }

  function WriteOf(db: Db, req: Request, prior: Task, now: Time): Db
    requires req.id in db.tasks
  {
    match req
    case Update(id, p) => UpdateWrite(db, id, prior, p, now)
    case Claim(id, assignee, _) => ClaimWrite(db, id, assignee, prior, now)
    case Close(id, stage, _) => CloseWrite(db, id, stage, prior, now)
  }

  /** A request without a version is tried once more when its write matches no row. */
  ghost predicate Retries(s: State, c: Client)
    requires c in s.pending && s.pending[c].Loaded?
  {
    var p := s.pending[c];
    && !Guard(s.db, p.req, p.prior, s.now) && p.req.Version().None? && p.attempt == 0
    && (p.req.Update? ==> p.req.id in s.db.tasks)
    && (p.req.Claim? ==> ClaimDiagnose(s.db, p.req.id, s.now).None?)
  }

  function Handed(db: Db, ids: set<Id>): set<(Id, int)> {
    set id | id in ids && id in db.tasks :: (id, db.tasks[id].version)
  }

  ghost function Apply(s: State, e: Event): State
    requires Enabled(s, e)
  {
    match e
    case Tick(to) => s.(now := to)
    case Get(id) => s.(given := s.given + Handed(s.db, {id}))
    case Send(c, req) =>
      if req.Update? && !UpdateAllowed(req.p) then s else s.(pending := s.pending[c := Sent(req, 0)])
    case Load(c) =>
      var p := s.pending[c];
      (match LoadOf(s.db, p.req, s.now)
       case Ok(prior) => s.(pending := s.pending[c := Loaded(p.req, p.attempt, prior)])
       case Err(_) => s.(pending := s.pending - {c}))
    case Write(c) =>
      var p := s.pending[c];
      if Commits(s, c) then
        var db := WriteOf(s.db, p.req, p.prior, s.now);
        s.(db := db, given := s.given + Handed(db, {p.req.id}), pending := s.pending - {c})
      else if Retries(s, c) then s.(pending := s.pending[c := Sent(p.req, 1)])
      else s.(pending := s.pending - {c})
    case Create(id, p) =>
      if CreateCheck(s.db, p, s.now).Some? then s
      else
        var db := CreateWrite(s.db, id, ServerParams(p), s.now);
        s.(db := db, given := s.given + Handed(db, {id}))
    case Insert(anchor, collection, steps, ids) =>
      if InsertCheck(s.db, anchor, collection, steps).Some? then s
      else
        var db := InsertWrite(s.db, anchor, collection, steps, ids, s.now);
        s.(db := db, given := s.given + Handed(db, {anchor} + (set i | i in ids)))
    case Import(tasks, rows) => s.(db := Db(s.db.tasks + tasks, s.db.rows + rows))
  }

  // ----- Invariants -----

  /** What is known of a request in flight. A loaded row that still has its version is the
      stored row itself. */
  ghost predicate PendingOk(s: State, p: Pending) {
    && (p.req.Version().Some? ==> (p.req.id, p.req.Version().value) in s.given)
    && (p.req.Update? ==> p.req.p.stage != Some(Working))
    && (p.Loaded? ==>
          && p.req.id in s.db.tasks
          && p.prior.version <= s.db.tasks[p.req.id].version
          && (p.prior.version == s.db.tasks[p.req.id].version ==> p.prior == s.db.tasks[p.req.id])
          && (p.req.Version().Some? ==> p.req.Version().value <= p.prior.version)
          && (p.req.Update? ==> UpdateValid(p.prior, p.req.p, s.now))
          && (p.req.Close? ==> IsTerminal(p.req.stage) && p.prior.phase != Closed))
  }

  ghost predicate GivenOk(s: State) {
    forall g | g in s.given :: g.0 in s.db.tasks && g.1 <= s.db.tasks[g.0].version
  }

  ghost predicate Inv(s: State) {
    && DbInv(s.db, s.now) && GivenOk(s)
    && forall c | c in s.pending :: PendingOk(s, s.pending[c])
  }

  /** Rows only grow in version, and a row that changed has a new version. */
  ghost predicate Advances(db: Db, db': Db) {
    forall id | id in db.tasks ::
      id in db'.tasks
      && (db'.tasks[id] == db.tasks[id] || db'.tasks[id].version == db.tasks[id].version + 1)
  }

  lemma PendingSurvives(s: State, s': State, p: Pending)
    requires PendingOk(s, p) && Advances(s.db, s'.db) && s.given <= s'.given && s.now <= s'.now
    ensures PendingOk(s', p)
  {
    if p.Loaded? {
      var id := p.req.id;
      assert id in s'.db.tasks;
    }
  }

  lemma GivenSurvives(s: State, s': State, ids: set<Id>)
    requires GivenOk(s) && Advances(s.db, s'.db) && s'.given == s.given + Handed(s'.db, ids)
    ensures GivenOk(s')
  {
    forall g | g in s'.given ensures g.0 in s'.db.tasks && g.1 <= s'.db.tasks[g.0].version {
      var (id, v) := g;
      if g in s.given {
        assert id in s.db.tasks && v <= s.db.tasks[id].version;
      } else {
        assert g in Handed(s'.db, ids);
      }
    }
  }

  /** The core of the protocol: a write that commits replaces the very row it loaded. */
  lemma CommittedFromCurrentRow(s: State, c: Client)
    requires Inv(s) && Commits(s, c)
    ensures var p := s.pending[c]; p.req.id in s.db.tasks && p.prior == s.db.tasks[p.req.id]
  {
    assert PendingOk(s, s.pending[c]);
  }

  /** So every committed write is the whole request carried out at once on the stored row: its
      version goes up by exactly one, and no other task changes. */
  lemma CommittedWrite(s: State, c: Client)
    requires Inv(s) && Commits(s, c)
    ensures var req := s.pending[c].req;
            var s' := Apply(s, Write(c));
            && s'.db == WriteOf(s.db, req, s.db.tasks[req.id], s.now)
            && s'.db.tasks[req.id].version == s.db.tasks[req.id].version + 1
            && forall id | id in s.db.tasks && id != req.id :: s'.db.tasks[id] == s.db.tasks[id]
    ensures Advances(s.db, Apply(s, Write(c)).db)
    ensures DbInv(Apply(s, Write(c)).db, s.now)
  {
    CommittedFromCurrentRow(s, c);
    var p := s.pending[c];
    var t := s.db.tasks[p.req.id];
    assert PendingOk(s, p);
    assert TaskInv(t, s.now);
    if p.req.Update? {
      UpdateKeepsInv(t, p.req.p, s.now, s.now);
    }
  }

  lemma InsertedTasks(s: State, anchor: Id, collection: Id, steps: seq<StepParams>, ids: seq<Id>)
    requires DbInv(s.db, s.now) && FreshIds(s.db, ids, |steps|) && InsertCheck(s.db, anchor, collection, steps).None?
    ensures var db := InsertWrite(s.db, anchor, collection, steps, ids, s.now);
            Advances(s.db, db) && DbInv(db, s.now)
            && forall id | id in db.tasks && id !in s.db.tasks :: db.tasks[id].stage == Triage
  {
    var db := InsertWrite(s.db, anchor, collection, steps, ids, s.now);
    assert TaskInv(s.db.tasks[anchor], s.now);
    forall id | id in ids
      ensures TaskInv(db.tasks[id], s.now) && db.tasks[id].stage == Triage && id !in s.db.tasks
    {
      StepTasksInv(steps, collection, ids, s.now, id);
    }
  }

  /** Every step keeps the invariant and advances the rows it changes by one version. */
  lemma StepKeepsInv(s: State, e: Event)
    requires Inv(s) && Enabled(s, e)
    ensures Inv(Apply(s, e)) && Advances(s.db, Apply(s, e).db)
    ensures s.given <= Apply(s, e).given && s.now <= Apply(s, e).now
  {
    hide TaskInv, UpdateValid, StateOk;
    var s' := Apply(s, e);
    StepKeepsDb(s, e);
    match e {
      case Write(c) => if Commits(s, c) { GivenSurvives(s, s', {s.pending[c].req.id}); }
      case Get(id) => GivenSurvives(s, s', {id});
      case Create(id, p) => if CreateCheck(s.db, p, s.now).None? { GivenSurvives(s, s', {id}); }
      case Insert(anchor, collection, steps, ids) =>
        if InsertCheck(s.db, anchor, collection, steps).None? { GivenSurvives(s, s', {anchor} + (set i | i in ids)); }
      case _ => assert s'.given == s.given + Handed(s'.db, {}); GivenSurvives(s, s', {});
    }
    forall c | c in s'.pending ensures PendingOk(s', s'.pending[c]) {
      if c in s.pending && s.pending[c] == s'.pending[c] {
        PendingSurvives(s, s', s'.pending[c]);
      } else {
        NewPending(s, e, c);
      }
    }
  }

  /** The stored tasks alone: what a step does to them and to the invariant. */
  lemma StepKeepsDb(s: State, e: Event)
    requires Inv(s) && Enabled(s, e)
    ensures DbInv(Apply(s, e).db, Apply(s, e).now) && Advances(s.db, Apply(s, e).db)
  {
    match e {
      case Write(c) => if Commits(s, c) { CommittedWrite(s, c); }
      case Insert(anchor, collection, steps, ids) =>
        if InsertCheck(s.db, anchor, collection, steps).None? { InsertedTasks(s, anchor, collection, steps, ids); }
      case _ =>
    }
  }

  lemma NewPending(s: State, e: Event, c: Client)
    requires Inv(s) && Enabled(s, e)
    requires c in Apply(s, e).pending && !(c in s.pending && s.pending[c] == Apply(s, e).pending[c])
    ensures PendingOk(Apply(s, e), Apply(s, e).pending[c])
  {
    if c in s.pending { assert PendingOk(s, s.pending[c]); }
  }

  // ----- Whole runs -----

  /** A run: the states before, between and after its events. */
  ghost predicate IsRun(states: seq<State>, events: seq<Event>) {
    && |states| == |events| + 1
    && forall i | 0 <= i < |events| :: Enabled(states[i], events[i]) && Apply(states[i], events[i]) == states[i + 1]
  }

  lemma {:induction false} RunKeepsInv(states: seq<State>, events: seq<Event>, i: nat)
    requires IsRun(states, events) && Inv(states[0]) && i <= |events|
    ensures Inv(states[i])
    decreases i
  {
    if i > 0 {
      RunKeepsInv(states, events, i - 1);
      StepKeepsInv(states[i - 1], events[i - 1]);
    }
  }

  /** The event writes this task's row: a committed request on it, or an insertion after it. */
  ghost predicate Touches(s: State, e: Event, id: Id) {
    || (e.Write? && Commits(s, e.client) && s.pending[e.client].req.id == id)
    || (e.Insert? && e.anchor == id && InsertCheck(s.db, e.anchor, e.collection, e.steps).None?)
  }

  ghost function CountTouches(states: seq<State>, events: seq<Event>, id: Id, n: nat): nat
    requires n <= |events| <= |states|
  {
    if n == 0 then 0
    else CountTouches(states, events, id, n - 1) + if Touches(states[n - 1], events[n - 1], id) then 1 else 0
  }

  lemma TouchIsOneVersion(s: State, e: Event, id: Id)
    requires Inv(s) && Enabled(s, e) && id in s.db.tasks
    ensures var t' := Apply(s, e).db.tasks;
            && id in t'
            && if Touches(s, e, id) then t'[id].version == s.db.tasks[id].version + 1 else t'[id] == s.db.tasks[id]
  {
    if e.Write? && Commits(s, e.client) { CommittedWrite(s, e.client); }
    if e.Insert? && InsertCheck(s.db, e.anchor, e.collection, e.steps).None? {
      assert id !in e.ids;
    }
  }

  /** No write is lost in any interleaving: a row's version counts exactly the writes that
      were made to it. */
  lemma {:induction false} VersionCountsWrites(states: seq<State>, events: seq<Event>, id: Id, n: nat)
    requires IsRun(states, events) && Inv(states[0]) && n <= |events| && id in states[0].db.tasks
    ensures id in states[n].db.tasks
    ensures states[n].db.tasks[id].version == states[0].db.tasks[id].version + CountTouches(states, events, id, n)
    decreases n
  {
    if n > 0 {
      VersionCountsWrites(states, events, id, n - 1);
      RunKeepsInv(states, events, n - 1);
      TouchIsOneVersion(states[n - 1], events[n - 1], id);
    }
  }

  /** A successful write of one kind on one task. */
  ghost predicate Claimed(s: State, e: Event, id: Id) {
    e.Write? && Commits(s, e.client) && s.pending[e.client].req.Claim? && s.pending[e.client].req.id == id
  }

  ghost predicate ClosedBy(s: State, e: Event, id: Id) {
    e.Write? && Commits(s, e.client) && s.pending[e.client].req.Close? && s.pending[e.client].req.id == id
  }

  ghost predicate Updated(s: State, e: Event, id: Id) {
    e.Write? && Commits(s, e.client) && s.pending[e.client].req.Update? && s.pending[e.client].req.id == id
  }

  /** Conditions of a task that only one kind of update can end. */
  datatype Mark = Assigned | NotAccepted | IsClosed

  predicate Marked(m: Mark, t: Task) {
    match m
    case Assigned => t.assignee.Some?
    case NotAccepted => t.stage != Accepted
    case IsClosed => t.phase == Closed
  }

  /** The update that ends the condition: clearing the assignee, putting the task back to
      accepted, reopening it. */
  predicate Ends(m: Mark, p: UpdateParams) {
    match m
    case Assigned => p.clearAssignee
    case NotAccepted => p.stage == Some(Accepted)
    case IsClosed => p.stage.Some? && !IsTerminal(p.stage.value)
  }

  ghost predicate Ended(m: Mark, s: State, e: Event, id: Id) {
    Updated(s, e, id) && Ends(m, s.pending[e.client].req.p)
  }

  lemma MarkStays(m: Mark, s: State, e: Event, id: Id)
    requires Inv(s) && Enabled(s, e) && id in s.db.tasks && Marked(m, s.db.tasks[id]) && !Ended(m, s, e, id)
    ensures id in Apply(s, e).db.tasks && Marked(m, Apply(s, e).db.tasks[id])
  {
    TouchIsOneVersion(s, e, id);
    if e.Write? && Commits(s, e.client) {
      CommittedWrite(s, e.client);
      assert PendingOk(s, s.pending[e.client]);
    }
  }

  lemma {:induction false} MarkStaysOver(m: Mark, states: seq<State>, events: seq<Event>, id: Id, i: nat, j: nat)
    requires IsRun(states, events) && Inv(states[0]) && i <= j <= |events|
    requires id in states[i].db.tasks && Marked(m, states[i].db.tasks[id])
    requires forall k | i <= k < j :: !Ended(m, states[k], events[k], id)
    ensures id in states[j].db.tasks && Marked(m, states[j].db.tasks[id])
    decreases j
  {
    hide Inv, Enabled, Apply, Marked, Ended;
    if i < j {
      MarkStaysOver(m, states, events, id, i, j - 1);
      RunKeepsInv(states, events, j - 1);
      assert Enabled(states[j - 1], events[j - 1]) && Apply(states[j - 1], events[j - 1]) == states[j];
      MarkStays(m, states[j - 1], events[j - 1], id);
    }
  }

  /** Two successful claims of one task have an update between them that cleared its
      assignee, and one that put it back to accepted. */
  lemma ClaimsAreSeparated(states: seq<State>, events: seq<Event>, id: Id, i: nat, j: nat)
    requires IsRun(states, events) && Inv(states[0]) && i < j < |events|
    requires Claimed(states[i], events[i], id) && Claimed(states[j], events[j], id)
    ensures exists k :: i < k < j && Ended(Assigned, states[k], events[k], id)
    ensures exists k :: i < k < j && Ended(NotAccepted, states[k], events[k], id)
  {
    RunKeepsInv(states, events, i);
    CommittedWrite(states[i], events[i].client);
    if !exists k :: i < k < j && Ended(Assigned, states[k], events[k], id) {
      MarkStaysOver(Assigned, states, events, id, i + 1, j);
      assert false;
    }
    if !exists k :: i < k < j && Ended(NotAccepted, states[k], events[k], id) {
      MarkStaysOver(NotAccepted, states, events, id, i + 1, j);
      assert false;
    }
  }

  /** Two successful closes of one task have a reopening between them. */
  lemma ClosesAreSeparated(states: seq<State>, events: seq<Event>, id: Id, i: nat, j: nat)
    requires IsRun(states, events) && Inv(states[0]) && i < j < |events|
    requires ClosedBy(states[i], events[i], id) && ClosedBy(states[j], events[j], id)
    ensures exists k :: i < k < j && Ended(IsClosed, states[k], events[k], id)
  {
    RunKeepsInv(states, events, i);
    RunKeepsInv(states, events, j);
    CommittedWrite(states[i], events[i].client);
    CommittedFromCurrentRow(states[j], events[j].client);
    assert PendingOk(states[j], states[j].pending[events[j].client]);
    if !exists k :: i < k < j && Ended(IsClosed, states[k], events[k], id) {
      MarkStaysOver(IsClosed, states, events, id, i + 1, j);
      assert false;
    }
  }

  /** At the instant a claim commits, every effective blocker is completed, whatever rows were
      added since the claim loaded the task; and the claim finds the task free and accepted. */
  lemma ClaimCommitsUnblocked(states: seq<State>, events: seq<Event>, id: Id, i: nat)
    requires IsRun(states, events) && Inv(states[0]) && i < |events| && Claimed(states[i], events[i], id)
    ensures !Blocked(states[i].db, id)
    ensures var t := states[i].db.tasks[id];
            t.stage == Accepted && t.assignee.None? && t.hold.None? && !InFuture(t.start, states[i].now)
    ensures var t := states[i + 1].db.tasks[id];
            t.stage == Working && t.assignee == Some(states[i].pending[events[i].client].req.assignee)
  {
    RunKeepsInv(states, events, i);
    BlockerConditionsAgree(states[i].db, id);
    CommittedWrite(states[i], events[i].client);
  }

  /** Over every run: phase follows stage, no triage task is held, and no task is held as
      deferred while its start date is still to come. */
  lemma StatesStayLegal(states: seq<State>, events: seq<Event>, i: nat, id: Id)
    requires IsRun(states, events) && Inv(states[0]) && i <= |events| && id in states[i].db.tasks
    ensures var t := states[i].db.tasks[id];
            && t.phase == PhaseForStage(t.stage)
            && !(t.stage == Triage && t.hold.Some?)
            && !(t.hold == Some(Deferred) && t.start.Some? && t.start.value > states[i].now)
  {
    RunKeepsInv(states, events, i);
    assert TaskInv(states[i].db.tasks[id], states[i].now);
  }

  /** A task enters working only by a claim or an import. */
  lemma WorkingIsClaimedOrImported(states: seq<State>, events: seq<Event>, i: nat, id: Id)
    requires IsRun(states, events) && Inv(states[0]) && i < |events|
    requires id in states[i + 1].db.tasks && states[i + 1].db.tasks[id].stage == Working
    requires id in states[i].db.tasks ==> states[i].db.tasks[id].stage != Working
    ensures Claimed(states[i], events[i], id) || events[i].Import?
  {
    var s, e := states[i], events[i];
    RunKeepsInv(states, events, i);
    assert Apply(s, e) == states[i + 1];
    if e.Write? && Commits(s, e.client) {
      CommittedWrite(s, e.client);
      assert PendingOk(s, s.pending[e.client]);
    }
    if e.Insert? && InsertCheck(s.db, e.anchor, e.collection, e.steps).None? {
      InsertedTasks(s, e.anchor, e.collection, e.steps, e.ids);
    }
  }

  // ----- What the writes of a run do -----

  /** A committed request has done what it asks, column by column, to the row that was stored. */
  lemma CommittedEffect(s: State, c: Client)
    requires Inv(s) && Commits(s, c)
    ensures var db := Apply(s, Write(c)).db;
            match s.pending[c].req
            case Update(id, p) => UpdateDone(s.db, id, p, s.now, db) && p.stage != Some(Working)
            case Claim(id, assignee, _) => ClaimDone(s.db, id, assignee, s.now, db)
            case Close(id, stage, _) => CloseDone(s.db, id, stage, s.now, db)
  {
    hide UpdateDone, ClaimDone, CloseDone, UpdateWrite, ClaimWrite, CloseWrite, DbInv, GivenOk, Advances;
    CommittedWrite(s, c);
    PendingKnown(s, c);
    match s.pending[c].req {
      case Update(id, p) => UpdateWriteDone(s.db, id, p, s.now);
      case Claim(id, assignee, _) => ClaimWriteDone(s.db, id, assignee, s.now);
      case Close(id, stage, _) => CloseWriteDone(s.db, id, stage, s.now);
    }
  }

  lemma PendingKnown(s: State, c: Client)
    requires Inv(s) && Commits(s, c)
    ensures var req := s.pending[c].req;
            && req.id in s.db.tasks
            && (req.Version().Some? ==> req.Version().value == s.db.tasks[req.id].version)
            && (req.Update? ==> req.p.stage != Some(Working))
  {
    assert PendingOk(s, s.pending[c]);
  }

  /** Over every run: an update that goes through sets, clears or keeps each column as asked. */
  lemma UpdatesDoAsAsked(states: seq<State>, events: seq<Event>, id: Id, i: nat)
    requires IsRun(states, events) && Inv(states[0]) && i < |events| && Updated(states[i], events[i], id)
    ensures UpdateDone(states[i].db, id, states[i].pending[events[i].client].req.p, states[i].now, states[i + 1].db)
  {
    hide Inv, Enabled, Apply, UpdateDone;
    RunKeepsInv(states, events, i);
    CommittedEffect(states[i], events[i].client);
    StepOfRun(states, events, i);
  }

  lemma ClaimsDoAsAsked(states: seq<State>, events: seq<Event>, id: Id, i: nat)
    requires IsRun(states, events) && Inv(states[0]) && i < |events| && Claimed(states[i], events[i], id)
    ensures var req := states[i].pending[events[i].client].req;
            ClaimDone(states[i].db, id, req.assignee, states[i].now, states[i + 1].db)
  {
    hide Inv, Enabled, Apply, ClaimDone;
    RunKeepsInv(states, events, i);
    CommittedEffect(states[i], events[i].client);
    StepOfRun(states, events, i);
  }

  /** A close that goes through closes in the stage asked for, and unless that is completed every
      task waiting for this one goes on waiting. */
  lemma ClosesDoAsAsked(states: seq<State>, events: seq<Event>, id: Id, i: nat)
    requires IsRun(states, events) && Inv(states[0]) && i < |events| && ClosedBy(states[i], events[i], id)
    ensures var stage := states[i].pending[events[i].client].req.stage;
            && CloseDone(states[i].db, id, stage, states[i].now, states[i + 1].db)
            && forall t | EffectivelyBlocks(states[i].db.rows, id, t) && stage != Completed ::
                 Blocked(states[i + 1].db, t)
  {
    hide Inv, Enabled, Apply, CloseDone, Blocked, EffectivelyBlocks;
    RunKeepsInv(states, events, i);
    CommittedEffect(states[i], events[i].client);
    StepOfRun(states, events, i);
    var stage := states[i].pending[events[i].client].req.stage;
    forall t | EffectivelyBlocks(states[i].db.rows, id, t) && stage != Completed ensures Blocked(states[i + 1].db, t) {
      UnfinishedCloseKeepsBlocking(states[i].db, id, stage, states[i].now, states[i + 1].db, t);
    }
  }

  lemma StepOfRun(states: seq<State>, events: seq<Event>, i: nat)
    requires IsRun(states, events) && i < |events|
    ensures Enabled(states[i], events[i]) && Apply(states[i], events[i]) == states[i + 1]
  {
  }

  /** A creation that is not refused makes the task asked for, its phase fitting its stage. */
  lemma CreatesDoAsAsked(s: State, id: Id, p: CreateParams)
    requires Enabled(s, Create(id, p)) && CreateCheck(s.db, p, s.now).None?
    ensures var after := Apply(s, Create(id, p)).db;
            exists ph :: PhaseFits(p.stage, ph) && CreateDone(s.db, id, p.(phase := ph), s.now, after)
  {
    hide CreateDone, CreateWrite, CreateCheck;
    CreateWriteDone(s.db, id, ServerParams(p), s.now);
    PhaseForStageFits(p.stage);
    assert PhaseFits(p.stage, PhaseForStage(p.stage));
  }

  lemma InsertsDoAsAsked(s: State, e: Event)
    requires e.Insert? && Enabled(s, e) && s.db.ForeignKeys()
    requires InsertCheck(s.db, e.anchor, e.collection, e.steps).None?
    ensures InsertDone(s.db, e.anchor, e.collection, e.steps, e.ids, s.now, Apply(s, e).db)
  {
    hide InsertDone, InsertWrite, Db.ForeignKeys, StepsAllowed;
    InsertWriteDone(s.db, e.anchor, e.collection, e.steps, e.ids, s.now);
  }

  // ----- Requests that nothing disturbs, and requests that are tried again -----

  /** A request that loads its task and writes before anything else happens goes through exactly
      if its version, if it has one, is the stored one; a claim also needs an open accepted task,
      and an update tasks that exist. */
  lemma UndisturbedCommits(s: State, c: Client)
    requires Enabled(s, Load(c)) && LoadOf(s.db, s.pending[c].req, s.now).Ok?
    ensures var req := s.pending[c].req;
            var t := s.db.tasks[req.id];
            Commits(Apply(s, Load(c)), c) <==>
              && (req.Version().Some? ==> req.Version().value == t.version)
              && (req.Claim? ==> t.phase == Open && t.stage == Accepted)
              && (req.Update? ==> UpdateKeysOk(s.db, req.p))
  {
    hide UpdateValid, UpdateKeysOk, Blocked, NoUnsatisfiedBlocker;
    BlockerConditionsAgree(s.db, s.pending[c].req.id);
  }

  /** A write that matches no row is tried once more exactly if the request was sent without a
      version, was not tried again before, and still could succeed: an updated task exists, and a
      claimed one is free. */
  lemma RetriedIff(s: State, c: Client)
    requires Enabled(s, Write(c)) && !Commits(s, c)
    ensures var p, after := s.pending[c], Apply(s, Write(c));
            c in after.pending <==>
              && p.attempt == 0 && p.req.Version().None? && !Guard(s.db, p.req, p.prior, s.now)
              && (p.req.Update? ==> p.req.id in s.db.tasks)
              && (p.req.Claim? ==> StillFree(s.db, p.req.id, s.now))
    ensures var p, after := s.pending[c], Apply(s, Write(c));
            && after.db == s.db && (c in after.pending ==> after.pending[c] == Sent(p.req, 1))
  {
    hide Guard, Available;
  }

  ghost predicate StillFree(db: Db, id: Id, now: Time) {
    && id in db.tasks
    && var t := db.tasks[id];
    && t.assignee.None? && t.phase == Open && t.stage == Accepted && t.hold.None? && Available(db, id, now)
  }

  /** So no request is tried a third time. */
  lemma {:induction false} TriedTwiceAtMost(states: seq<State>, events: seq<Event>, n: nat, c: Client)
    requires IsRun(states, events) && states[0].pending == map[] && n <= |events| && c in states[n].pending
    ensures states[n].pending[c].attempt <= 1
    decreases n
  {
    hide Commits, Retries, LoadOf, UpdateAllowed, CreateCheck, InsertCheck, CreateWrite, InsertWrite, WriteOf;
    if n > 0 {
      StepOfRun(states, events, n - 1);
      if c in states[n - 1].pending { TriedTwiceAtMost(states, events, n - 1, c); }
    }
  }

  /** The server lets every request through but updates to working and updates with a blank or
      overlong text. */
  lemma SentUnlessRefused(s: State, c: Client, req: Request)
    requires Enabled(s, Send(c, req))
    ensures var after := Apply(s, Send(c, req));
            && after.db == s.db && (c in after.pending ==> after.pending[c] == Sent(req, 0))
            && (c in after.pending <==> req.Update? ==>
                  && req.p.stage != Some(Working)
                  && (req.p.title.Some? ==> HasText(req.p.title.value) && |req.p.title.value| <= 512)
                  && (req.p.details.Some? ==> |req.p.details.value.description| <= 65536))
  {
  }

  /** Whoever reads a task, or writes it, is given the version it has then. */
  lemma VersionsAreGiven(s: State, e: Event, id: Id)
    requires Enabled(s, e) && id in Apply(s, e).db.tasks
    requires e == Get(id) || (e.Write? && Commits(s, e.client) && s.pending[e.client].req.id == id)
             || (e.Create? && e.id == id && CreateCheck(s.db, e.params, s.now).None?)
    ensures (id, Apply(s, e).db.tasks[id].version) in Apply(s, e).given
  {
    hide WriteOf, CreateWrite, CreateCheck, Guard;
  }

  /** A request in flight can always take its next step. */
  lemma PendingGoesOn(s: State, c: Client)
    requires c in s.pending
    ensures Enabled(s, Load(c)) || Enabled(s, Write(c))
  {
  }

  // ----- Versions nobody was given -----

  /** What a write that matches its row does to the version, whatever version the request was
      sent with and whatever was written before. An update always advances it; a claim or close
      exactly if no version was sent, or the one sent is the one the request had loaded. */
  lemma AdvancesIff(db: Db, req: Request, prior: Task, now: Time)
    requires Guard(db, req, prior, now)
    ensures WriteOf(db, req, prior, now).tasks[req.id].version == db.tasks[req.id].version + 1
            <==> req.Update? || (req.Version().Some? ==> req.Version().value == prior.version)
  {
  }

  /** A close sent with a guessed version: the task is updated once between load and write, the
      guess matches, and the write leaves the version where it was. */
  lemma GuessedVersionStands(t: Task, id: Id, now: Time)
    ensures var db := Db(map[id := t.(version := 8)], {});
            var req := Close(id, Completed, Some(8));
            && Guard(db, req, t.(version := 7), now)
            && WriteOf(db, req, t.(version := 7), now).tasks[id].version == 8
  {
  }

  /** With two updates in between, the write takes the version back from 9 to 8. And then a client
      that was given version 8 earlier passes its guard, though the row is not the one it read. */
  lemma GuessedVersionGoesBack(t: Task, id: Id, now: Time)
    requires t.phase != Closed
    ensures var db := Db(map[id := t.(version := 9)], {});
            var req := Close(id, Completed, Some(9));
            var after := WriteOf(db, req, t.(version := 7), now);
            && Guard(db, req, t.(version := 7), now) && after.tasks[id].version == 8
            && VersionGuard(after, id, Some(8), t.(version := 8)) && after.tasks[id] != t.(version := 8)
  {
  }
}
