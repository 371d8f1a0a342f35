/** The decomposition engine: workers that ask a model to split a task, create the subtasks in
    the store group by group, and split those in turn, all at once. A run is any interleaving
    of the workers' steps, with cancellation and failing calls at any point. */
module Decomposer {
  import opened Domain
  import opened Sequences
  import opened Graph
  import opened Lifecycle
  import opened Replies

  datatype Config = Config(maxDepth: nat, concurrency: nat)

  function NewConfig(maxDepth: int, concurrency: int): (c: Config)
    ensures c.maxDepth > 0 && c.concurrency > 0
    ensures maxDepth > 0 ==> c.maxDepth == maxDepth
    ensures concurrency > 0 ==> c.concurrency == concurrency
    ensures maxDepth <= 0 && concurrency <= 0 ==> c == Config(3, 4)
  {
    Config(if maxDepth <= 0 then 3 else maxDepth, if concurrency <= 0 then 4 else concurrency)
  }

  const MAX_RETRIES := 3

  datatype Created = Created(subtask: Subtask, id: Id)

  /** Where a call of decompose stands. A worker in Calling holds a slot of the semaphore. */
  datatype Pc =
    | Entered
    | Waiting(attempt: nat, corrective: bool)
    | Calling(attempt: nat, corrective: bool)
    | Creating(groups: seq<Group>, g: nat, i: nat, prev: seq<Id>, current: seq<Id>, all: seq<Created>)
    | Joining(children: seq<Id>)
    | Returned(failed: bool)

  /** A call of decompose, named by the task it splits. */
  datatype Worker = Worker(depth: nat, calls: nat, pc: Pc)

  /** The history of a created subtask: whose it is, its group's place, and its number in the
      order of creation. */
  datatype Made = Made(parent: Id, group: nat, order: nat)

  datatype State = State(db: Db, workers: map<Id, Worker>, slots: nat, cancelled: bool, made: map<Id, Made>)

  datatype Setup = Setup(config: Config, collection: Id, before: Db, root: Id)

  /** A creation succeeds, is refused, or succeeds with its response lost. */
  datatype Outcome = Success | Refused | Lost

  datatype Event =
    | Cancel
    | Enter(w: Id)
    | Acquire(w: Id)
    | GiveUp(w: Id)
    | Answer(w: Id, reply: Option<Reply>)
    | CallFails(w: Id, transient: bool)
    | Create(w: Id, id: Id, now: Time, outcome: Outcome)
    | Spawn(w: Id)
    | Join(w: Id)

  // ----- Steps -----

  function ParamsFor(u: Setup, t: Subtask, parent: Id, blockers: seq<Id>): CreateParams {
    CreateParams(t.title, u.collection, Triage, Open, None, None, Some(parent), None,
                 Details(t.description, "triage", "", None, None, None, None, [], "", "", None), [], blockers)
  }

  ghost predicate Enabled(u: Setup, s: State, e: Event) {
    e.Cancel? || (e.w in s.workers &&
    var pc := s.workers[e.w].pc;
    match e
    case Cancel => true
    case Enter(w) => pc.Entered?
    case Acquire(w) => pc.Waiting? && s.slots < u.config.concurrency
    case GiveUp(w) => pc.Waiting? && s.cancelled
    case Answer(w, reply) => pc.Calling? && s.slots > 0
    case CallFails(w, transient) => pc.Calling? && s.slots > 0
    case Create(w, id, now, outcome) =>
      pc.Creating? && pc.g < |pc.groups| && pc.i < |pc.groups[pc.g].tasks| && id !in s.db.tasks
    case Spawn(w) => pc.Creating? && pc.g == |pc.groups|
    case Join(w) =>
      pc.Joining? && forall c | c in pc.children :: c in s.workers && s.workers[c].pc.Returned?)
  }

  /** A failed first call is an error; a failed corrective call ends the task as it is. */
  function NoResponse(corrective: bool): Pc { Returned(!corrective) }

  ghost function OnAnswer(corrective: bool, reply: Option<Reply>): Pc {
    if reply.Some? && Valid(reply.value) then
      if reply.value.terminal == Some(true) then Returned(false)
      else Creating(reply.value.groups, 0, 0, [], [], [])
    else if !corrective then Waiting(0, true)
    else Returned(false)
  }

  function OnFailure(attempt: nat, corrective: bool, transient: bool): Pc {
    if transient && attempt < MAX_RETRIES then Waiting(attempt + 1, corrective) else NoResponse(corrective)
  }

  function OnCreated(pc: Pc, id: Id): Pc
    requires pc.Creating? && pc.g < |pc.groups| && pc.i < |pc.groups[pc.g].tasks|
  {
    var tasks := pc.groups[pc.g].tasks;
    var current, all := pc.current + [id], pc.all + [Created(tasks[pc.i], id)];
    if pc.i + 1 < |tasks| then Creating(pc.groups, pc.g, pc.i + 1, pc.prev, current, all)
    else Creating(pc.groups, pc.g + 1, 0, current, [], all)
  }

  /** The subtasks to split further. */
  function ToSplit(all: seq<Created>): (ids: seq<Id>)
    ensures forall id :: id in ids <==> exists c | c in all :: !c.subtask.terminal && c.id == id
  {
    if all == [] then [] else
    var rest := ToSplit(all[1..]);
    assert forall c :: c in all <==> c == all[0] || c in all[1..];
    if all[0].subtask.terminal then rest else [all[0].id] + rest
  }

  ghost function Params(u: Setup, s: State, e: Event): CreateParams
    requires Enabled(u, s, e) && e.Create?
  {
    var pc := s.workers[e.w].pc;
    ParamsFor(u, pc.groups[pc.g].tasks[pc.i], e.w, pc.prev)
  }

  /** The step makes a task in the store. */
  ghost predicate Makes(u: Setup, s: State, e: Event)
    requires Enabled(u, s, e)
  {
    e.Create? && !e.outcome.Refused? && CreateCheck(s.db, Params(u, s, e), e.now).None?
  }

  /** Where the acting worker goes. */
  ghost function NextPc(u: Setup, s: State, e: Event): Pc
    requires Enabled(u, s, e) && !e.Cancel?
  {
    var k := s.workers[e.w];
    match e
    case Enter(w) =>
      if k.depth >= u.config.maxDepth then Returned(false)
      else if s.cancelled then Returned(true)
      else Waiting(0, false)
    case Acquire(w) => Calling(k.pc.attempt, k.pc.corrective)
    case GiveUp(w) => NoResponse(k.pc.corrective)
    case Answer(w, reply) => OnAnswer(k.pc.corrective, reply)
    case CallFails(w, transient) => OnFailure(k.pc.attempt, k.pc.corrective, transient)
    case Create(w, id, now, outcome) =>
      if outcome.Success? && Makes(u, s, e) then OnCreated(k.pc, id) else Returned(true)
    case Spawn(w) => Joining(ToSplit(k.pc.all))
    case Join(w) => Returned(exists c | c in k.pc.children :: s.workers[c].pc.failed)
  }

  function StartAll(ids: seq<Id>, depth: nat): map<Id, Worker> { map id | id in ids :: Worker(depth, 0, Entered) }

  function Started(s: State, e: Event): map<Id, Worker>
    requires e.Spawn? ==> e.w in s.workers && s.workers[e.w].pc.Creating?
  {
    if e.Spawn? then StartAll(ToSplit(s.workers[e.w].pc.all), s.workers[e.w].depth + 1) else map[]
  }

  ghost function Acted(u: Setup, s: State, e: Event): Worker
    requires Enabled(u, s, e) && !e.Cancel?
  {
    var k := s.workers[e.w];
    Worker(k.depth, if e.Acquire? then k.calls + 1 else k.calls, NextPc(u, s, e))
  }

  ghost function MadeBy(u: Setup, s: State, e: Event): map<Id, Made>
    requires Enabled(u, s, e)
  {
    if Makes(u, s, e) then s.made[e.id := Made(e.w, s.workers[e.w].pc.g, |s.made|)] else s.made
  }

  ghost function Apply(u: Setup, s: State, e: Event): State
    requires Enabled(u, s, e)
  {
    if e.Cancel? then s.(cancelled := true) else
    State(if Makes(u, s, e) then CreateWrite(s.db, e.id, Params(u, s, e), e.now) else s.db,
          s.workers[e.w := Acted(u, s, e)] + Started(s, e),
          if e.Acquire? then s.slots + 1 else if e.Answer? || e.CallFails? then s.slots - 1 else s.slots,
          s.cancelled,
          MadeBy(u, s, e))
  }

  /** Run: the root task has just been created. */
  ghost predicate Init(u: Setup, s: State) {
    && (exists depth, width :: u.config == NewConfig(depth, width))
    && u.root !in u.before.tasks && (forall r | r in u.before.rows ::
        r.source in u.before.tasks && r.target in u.before.tasks)
    && (exists t: Task :: t.parent == None && s.db == Db(u.before.tasks[u.root := t], u.before.rows))
    && s.workers == map[u.root := Worker(0, 0, Entered)] && s.slots == 0 && s.made == map[]
  }

  // ----- What every step keeps -----

  predicate InGroup(made: map<Id, Made>, w: Id, g: int, x: Id) {
    x in made && made[x].parent == w && made[x].group == g
  }

  predicate NextGroup(made: map<Id, Made>, x: Id, y: Id) {
    x in made && y in made && made[x].parent == made[y].parent && made[y].group == made[x].group + 1
  }

  ghost predicate TasksOk(u: Setup, s: State) {
    && u.root !in u.before.tasks && u.root !in s.made && s.made.Keys !! u.before.tasks.Keys
    && s.db.tasks.Keys == u.before.tasks.Keys + {u.root} + s.made.Keys
    && (forall r | r in u.before.rows :: r.source in u.before.tasks && r.target in u.before.tasks)
    && u.root in s.workers && s.workers[u.root].depth == 0
    && forall id | id in s.made ::
         && s.db.tasks[id].parent == Some(s.made[id].parent)
         && s.made[id].parent in s.workers
         && s.workers[s.made[id].parent].depth < u.config.maxDepth
  }

  /** The rows are those there before, and one from each subtask to each of the group before. */
  ghost predicate RowsOk(before: set<Row>, rows: set<Row>, made: map<Id, Made>) {
    forall r :: r in rows <==> r in before || (r.kind == BlockedBy && NextGroup(made, r.target, r.source))
  }

  ghost predicate OrderOk(made: map<Id, Made>) {
    && (forall x | x in made :: made[x].order < |made|)
    && (forall x, y | x in made && y in made && made[x].parent == made[y].parent && made[x].group < made[y].group ::
          made[x].order < made[y].order)
  }

  /** No group is left out. */
  ghost predicate NoGaps(made: map<Id, Made>) {
    forall y | y in made && made[y].group > 0 :: exists x :: NextGroup(made, x, y)
  }

  ghost predicate CreatingOk(made: map<Id, Made>, w: Id, pc: Pc)
    requires pc.Creating?
  {
    && pc.g <= |pc.groups| && (forall k | 0 <= k < |pc.groups| :: pc.groups[k].tasks != [])
    && (if pc.g < |pc.groups| then pc.i < |pc.groups[pc.g].tasks| else pc.i == 0)
    && (forall x | x in made && made[x].parent == w :: made[x].group < pc.g || (made[x].group == pc.g && pc.i > 0))
    && (forall x :: x in pc.prev <==> InGroup(made, w, pc.g - 1, x))
    && (forall x :: x in pc.current <==> InGroup(made, w, pc.g, x))
    && (pc.g > 0 ==> pc.prev != [])
    && forall c | c in pc.all :: c.id in made && made[c.id].parent == w
  }

  function Texts(all: seq<Created>): seq<Subtask> { seq(|all|, k requires 0 <= k < |all| => all[k].subtask) }

  /** The subtasks created so far are those of the reply, in its order. */
  ghost predicate Listed(pc: Pc)
    requires pc.Creating?
  {
    && pc.g <= |pc.groups| && (pc.g < |pc.groups| ==> pc.i < |pc.groups[pc.g].tasks|)
    && Texts(pc.all) == Subtasks(pc.groups[..pc.g]) + (if pc.g < |pc.groups| then pc.groups[pc.g].tasks[..pc.i] else [])
  }

  /** What holds of a worker by itself. */
  ghost predicate WorkerOk(u: Setup, made: map<Id, Made>, w: Id, k: Worker) {
    && (w == u.root || w in made)
    && k.depth <= u.config.maxDepth
    && (k.pc.Waiting? || k.pc.Calling? || k.pc.Creating? || k.pc.Joining? ==> k.depth < u.config.maxDepth)
    && (k.pc.Entered? || k.pc.Waiting? || k.pc.Calling? ==> forall x | x in made :: made[x].parent != w)
    && (k.pc.Creating? ==> CreatingOk(made, w, k.pc) && Listed(k.pc))
    && (k.pc.Joining? ==> forall c | c in k.pc.children :: c in made && made[c].parent == w)
    && CallsOk(k)
  }

  /** Each of the two prompts makes at most four calls. */
  predicate CallsOk(k: Worker) {
    match k.pc
    case Entered => k.calls == 0
    case Waiting(attempt, corrective) => attempt <= MAX_RETRIES && k.calls <= (if corrective then 4 else 0) + attempt
    case Calling(attempt, corrective) => attempt <= MAX_RETRIES
        && k.calls <= (if corrective then 4 else 0) + attempt + 1
    case _ => k.calls <= 8
  }

  /** What holds between a worker and the one that started it. */
  predicate FamilyOk(parent: Worker, v: Id, child: Worker) {
    && child.depth == parent.depth + 1
    && match parent.pc
       case Joining(children) => v in children
       case Returned(failed) => child.pc.Returned? && (child.pc.failed ==> failed)
       case _ => false
  }

  ghost predicate WorkersOk(u: Setup, s: State) {
    && (forall w | w in s.workers :: WorkerOk(u, s.made, w, s.workers[w]))
    && (forall v | v in s.workers && v in s.made ::
          s.made[v].parent in s.workers && FamilyOk(s.workers[s.made[v].parent], v, s.workers[v]))
    && forall w | w in s.workers && s.workers[w].pc.Joining? ::
         forall c | c in s.workers[w].pc.children :: c in s.workers
  }

  function Callers(workers: map<Id, Worker>): set<Id> { set w | w in workers && workers[w].pc.Calling? }

  ghost predicate SlotsOk(u: Setup, s: State) {
    s.slots == |Callers(s.workers)| && s.slots <= u.config.concurrency && u.config.concurrency > 0
  }

  ghost predicate Inv(u: Setup, s: State) {
    TasksOk(u, s) && RowsOk(u.before.rows, s.db.rows, s.made) && OrderOk(s.made) && NoGaps(s.made) && WorkersOk(u, s)
        && SlotsOk(u, s)
  }

  lemma InitInv(u: Setup, s: State)
    requires Init(u, s)
    ensures Inv(u, s)
  {
    hide CreatingOk, Listed, FamilyOk;
    assert Callers(s.workers) == {};
  }

  /** Parent and blockers always exist, so a creation the engine asks for is refused exactly if
      the server will not have its texts. */
  lemma RefusedForTexts(u: Setup, s: State, e: Event)
    requires Inv(u, s) && Enabled(u, s, e) && e.Create?
    ensures var pc := s.workers[e.w].pc;
            var st := pc.groups[pc.g].tasks[pc.i];
            CreateCheck(s.db, Params(u, s, e), e.now).None?
            <==> HasText(st.title) && |st.title| <= 512 && |st.description| <= 65536
  {
    hide Inv, CreatingOk, Listed, NameOk, HasText, Makes;
    var pc := s.workers[e.w].pc;
    KeysExist(u, s, e);
    NameOkIff(pc.groups[pc.g].tasks[pc.i].title);
  }

  lemma KeysExist(u: Setup, s: State, e: Event)
    requires Inv(u, s) && Enabled(u, s, e) && e.Create?
    ensures e.w in s.db.tasks && forall t | t in s.workers[e.w].pc.prev :: t in s.db.tasks
  {
    MakerOk(u, s, e);
    WorkerKnown(u, s, e.w);
    TasksKnown(u, s);
    hide Inv, Enabled, TasksOk, Listed, CallsOk;
    var pc := s.workers[e.w].pc;
    forall t | t in pc.prev ensures t in s.db.tasks { assert InGroup(s.made, e.w, pc.g - 1, t); }
  }

  lemma TasksKnown(u: Setup, s: State)
    requires Inv(u, s)
    ensures u.root in s.db.tasks && forall t | t in s.made :: t in s.db.tasks
  {
  }

  /** A reply may pass the parser's check and still be refused by the server: a title of one
      space is not empty, but it is blank. */
  lemma BlankTitlePasses(u: Setup, db: Db, parent: Id, now: Time)
    ensures var st := Subtask("a", " ", "b", true);
            Valid(Reply(None, [Group(1, [st])]))
            && CreateCheck(db, ParamsFor(u, st, parent, []), now) == Some(InvalidArgument)
  {
    var groups := [Group(1, [Subtask("a", " ", "b", true)])];
    assert groups[..0] == [];
    assert Subtasks(groups) == groups[0].tasks;
  }

  lemma NewInOrder(made: map<Id, Made>, w: Id, pc: Pc, id: Id)
    requires OrderOk(made) && pc.Creating? && CreatingOk(made, w, pc) && id !in made
    ensures OrderOk(made[id := Made(w, pc.g, |made|)])
  {
    assert forall x | x in made && made[x].parent == w :: made[x].group <= pc.g;
    hide CreatingOk;
  }

  lemma NewLeavesNoGap(made: map<Id, Made>, w: Id, pc: Pc, id: Id)
    requires NoGaps(made) && pc.Creating? && CreatingOk(made, w, pc) && id !in made
    ensures NoGaps(made[id := Made(w, pc.g, |made|)])
  {
    if pc.g > 0 { assert pc.prev[0] in pc.prev && InGroup(made, w, pc.g - 1, pc.prev[0]); }
    hide CreatingOk;
    var more := made[id := Made(w, pc.g, |made|)];
    forall y | y in more && more[y].group > 0 ensures exists x :: NextGroup(more, x, y) {
      if y == id {
        assert NextGroup(more, pc.prev[0], y);
      } else {
        var x :| NextGroup(made, x, y);
        assert NextGroup(more, x, y);
      }
    }
  }

  lemma NewRows(before: set<Row>, rows: set<Row>, made: map<Id, Made>, w: Id, pc: Pc, id: Id)
    requires RowsOk(before, rows, made) && pc.Creating? && CreatingOk(made, w, pc) && id !in made
    requires forall r | r in before :: r.source != id && r.target != id
    ensures RowsOk(before, rows + RowsTo(id, pc.prev, BlockedBy), made[id := Made(w, pc.g, |made|)])
  {
    var more := made[id := Made(w, pc.g, |made|)];
    var added := RowsTo(id, pc.prev, BlockedBy);
    forall x ensures x in pc.prev <==> NextGroup(more, x, id) {
      assert x in pc.prev <==> InGroup(made, w, pc.g - 1, x);
    }
    forall y ensures !NextGroup(more, id, y) {
      assert y in made && made[y].parent == w ==> made[y].group <= pc.g;
    }
    assert forall x, y | x != id && y != id :: NextGroup(made, x, y) <==> NextGroup(more, x, y);
    assert forall x :: !NextGroup(made, x, id);
    assert forall x :: !NextGroup(made, id, x);
    hide CreatingOk, NextGroup;
    forall r
      ensures r in rows + added <==> r in before || (r.kind == BlockedBy && NextGroup(more, r.target, r.source))
    {
      assert r in added <==> r == Row(id, r.target, BlockedBy) && r.target in pc.prev;
    }
  }

  lemma MakerOk(u: Setup, s: State, e: Event)
    requires Inv(u, s) && Enabled(u, s, e) && e.Create?
    ensures var k := s.workers[e.w];
            k.depth < u.config.maxDepth && k.pc.Creating? && CreatingOk(s.made, e.w, k.pc) && Listed(k.pc)
  {
    hide CreatingOk, TasksOk, RowsOk, OrderOk, NoGaps, SlotsOk;
    assert WorkerOk(u, s.made, e.w, s.workers[e.w]);
  }

  /** What a creation adds to the store and to the history. */
  lemma MakeApplied(u: Setup, s: State, e: Event)
    requires Enabled(u, s, e) && Makes(u, s, e)
    ensures var t, pc := Apply(u, s, e), s.workers[e.w].pc;
            && e.id !in s.db.tasks
            && t.db.tasks == s.db.tasks[e.id := NewTask(Params(u, s, e), e.now)]
            && t.db.tasks[e.id].parent == Some(e.w)
            && t.db.rows == s.db.rows + RowsTo(e.id, pc.prev, BlockedBy)
            && t.made == s.made[e.id := Made(e.w, pc.g, |s.made|)]
  {
    hide CreateCheck, NextPc;
    var p := Params(u, s, e);
    assert RowsTo(e.id, [], Blocks) == {};
  }

  /** The store gets the subtask as the reply words it: a legal triage task of the worker's task;
      every other task stays as it is. */
  lemma CreatedTask(u: Setup, s: State, e: Event)
    requires Enabled(u, s, e) && Makes(u, s, e)
    ensures var t, pc := Apply(u, s, e).db.tasks, s.workers[e.w].pc;
            var st := pc.groups[pc.g].tasks[pc.i];
            && e.id in t && t[e.id].title == st.title && t[e.id].details.description == st.description
            && t[e.id].stage == Triage && t[e.id].parent == Some(e.w) && t[e.id].collection == u.collection
            && TaskInv(t[e.id], e.now)
            && forall id | id in s.db.tasks :: id in t && t[id] == s.db.tasks[id]
  {
    MakeApplied(u, s, e);
  }

  lemma NothingMade(u: Setup, s: State, e: Event)
    requires Enabled(u, s, e) && !Makes(u, s, e)
    ensures var t := Apply(u, s, e); t.db == s.db && t.made == s.made
  {
  }

  lemma StepKeepsGraph(u: Setup, s: State, e: Event)
    requires Inv(u, s) && Enabled(u, s, e)
    ensures var t := Apply(u, s, e); RowsOk(u.before.rows, t.db.rows, t.made) && OrderOk(t.made) && NoGaps(t.made)
  {
    if Makes(u, s, e) {
      var pc := s.workers[e.w].pc;
      MakerOk(u, s, e);
      MakeApplied(u, s, e);
      assert e.id !in s.made && forall r | r in u.before.rows :: r.source != e.id && r.target != e.id;
      hide *;
      NewInOrder(s.made, e.w, pc, e.id);
      NewLeavesNoGap(s.made, e.w, pc, e.id);
      NewRows(u.before.rows, s.db.rows, s.made, e.w, pc, e.id);
    } else {
      NothingMade(u, s, e);
    }
  }

  /** The tasks a worker hands on have no worker yet. */
  lemma SpawnedAreNew(u: Setup, s: State, w: Id, id: Id)
    requires TasksOk(u, s) && WorkersOk(u, s) && w in s.workers && s.workers[w].pc.Creating?
    requires id in ToSplit(s.workers[w].pc.all)
    ensures id !in s.workers && id in s.made && s.made[id].parent == w
  {
    assert WorkerOk(u, s.made, w, s.workers[w]);
    assert id in s.workers ==> FamilyOk(s.workers[w], id, s.workers[id]);
  }

  /** Workers keep their depth, and a step takes none away. */
  ghost predicate Kept(before: map<Id, Worker>, after: map<Id, Worker>) {
    forall w | w in before :: w in after && after[w].depth == before[w].depth
  }

  lemma MapsKept(before: map<Id, Worker>, w: Id, k: Worker, more: map<Id, Worker>)
    requires w in before && k.depth == before[w].depth && more.Keys !! before.Keys
    ensures var after := before[w := k] + more;
            Kept(before, after) && after[w] == k && forall v | v in before && v != w :: after[v] == before[v]
  {
  }

  lemma StartedAreNew(u: Setup, s: State, e: Event)
    requires Inv(u, s) && Enabled(u, s, e)
    ensures Started(s, e).Keys !! s.workers.Keys
  {
    if e.Spawn? {
      forall id | id in ToSplit(s.workers[e.w].pc.all) ensures id !in s.workers { SpawnedAreNew(u, s, e.w, id); }
    }
  }

  /** A step changes the acting worker and starts others; it changes no other worker. */
  lemma StepMovesOne(u: Setup, s: State, e: Event)
    requires Inv(u, s) && Enabled(u, s, e)
    ensures var t := Apply(u, s, e);
            && Kept(s.workers, t.workers)
            && (forall w | w in s.workers && (e.Cancel? || w != e.w) :: t.workers[w] == s.workers[w])
            && (!e.Cancel? ==> t.workers[e.w] == Acted(u, s, e))
  {
    hide Inv, NextPc, Started, Makes, MadeBy;
    if !e.Cancel? {
      StartedAreNew(u, s, e);
      MapsKept(s.workers, e.w, Acted(u, s, e), Started(s, e));
    }
  }

  lemma TasksStay(u: Setup, s: State, t: State)
    requires TasksOk(u, s) && Kept(s.workers, t.workers) && t.made == s.made && t.db.tasks == s.db.tasks
    ensures TasksOk(u, t)
  {
  }

  lemma TaskAdded(u: Setup, s: State, t: State, id: Id, m: Made)
    requires TasksOk(u, s) && Kept(s.workers, t.workers) && id !in s.db.tasks
    requires m.parent in s.workers && s.workers[m.parent].depth < u.config.maxDepth
    requires t.made == s.made[id := m] && t.db.tasks.Keys == s.db.tasks.Keys + {id}
    requires t.db.tasks[id].parent == Some(m.parent) && forall x | x in s.db.tasks :: t.db.tasks[x] == s.db.tasks[x]
    ensures TasksOk(u, t)
  {
  }

  lemma StepKeepsTasks(u: Setup, s: State, e: Event)
    requires Inv(u, s) && Enabled(u, s, e)
    ensures TasksOk(u, Apply(u, s, e))
  {
    hide NextPc, Acted, Started, MadeBy, NewTask, CreateWrite, CreateCheck, CreatingOk,
         WorkersOk, RowsOk, OrderOk, NoGaps, SlotsOk, TasksOk, Kept, Apply;
    StepMovesOne(u, s, e);
    if Makes(u, s, e) {
      MakerOk(u, s, e);
      MakeApplied(u, s, e);
      TaskAdded(u, s, Apply(u, s, e), e.id, Made(e.w, s.workers[e.w].pc.g, |s.made|));
    } else {
      NothingMade(u, s, e);
      TasksStay(u, s, Apply(u, s, e));
    }
  }

  // ----- The workers -----

  lemma CallsCounted(u: Setup, s: State, e: Event)
    requires Inv(u, s) && Enabled(u, s, e) && !e.Cancel?
    ensures CallsOk(Acted(u, s, e))
  {
    hide Inv, Valid, Makes, Params;
    CallsKnown(u, s, e.w);
  }

  lemma CallsKnown(u: Setup, s: State, w: Id)
    requires Inv(u, s) && w in s.workers
    ensures CallsOk(s.workers[w])
  {
    hide TasksOk, RowsOk, OrderOk, NoGaps, SlotsOk, CallsOk, CreatingOk, Listed, FamilyOk;
    assert WorkerOk(u, s.made, w, s.workers[w]);
  }

  /** What another worker makes does not touch this one. */
  lemma WorkerUntouched(u: Setup, made: map<Id, Made>, w: Id, k: Worker, id: Id, m: Made)
    requires WorkerOk(u, made, w, k) && id !in made && m.parent != w
    ensures WorkerOk(u, made[id := m], w, k)
  {
    assert forall g, x :: InGroup(made, w, g, x) <==> InGroup(made[id := m], w, g, x);
    if k.pc.Creating? { CreatingUntouched(made, w, k.pc, id, m); }
    hide CreatingOk, InGroup, CallsOk;
  }

  lemma CreatingUntouched(made: map<Id, Made>, w: Id, pc: Pc, id: Id, m: Made)
    requires pc.Creating? && CreatingOk(made, w, pc) && id !in made && m.parent != w
    ensures CreatingOk(made[id := m], w, pc)
  {
    assert forall g, x :: InGroup(made, w, g, x) <==> InGroup(made[id := m], w, g, x);
    hide InGroup;
  }

  lemma StartsCreating(made: map<Id, Made>, w: Id, reply: Reply)
    requires Valid(reply) && reply.terminal != Some(true) && forall x | x in made :: made[x].parent != w
    ensures CreatingOk(made, w, Creating(reply.groups, 0, 0, [], [], []))
    ensures Listed(Creating(reply.groups, 0, 0, [], [], []))
  {
    assert reply.groups[0].tasks != [];
  }

  lemma ListsOneMore(pc: Pc, id: Id)
    requires pc.Creating? && Listed(pc) && pc.g < |pc.groups|
    requires forall k | 0 <= k < |pc.groups| :: pc.groups[k].tasks != []
    ensures Listed(OnCreated(pc, id))
  {
    var g, tasks, next := pc.g, pc.groups[pc.g].tasks, OnCreated(pc, id);
    assert Texts(next.all) == Texts(pc.all) + [tasks[pc.i]];
    assert tasks[..pc.i] + [tasks[pc.i]] == tasks[..pc.i + 1];
    if pc.i + 1 == |tasks| {
      assert tasks[..pc.i + 1] == tasks;
      assert pc.groups[..g + 1][..g] == pc.groups[..g];
      assert Subtasks(pc.groups[..g + 1]) == Subtasks(pc.groups[..g]) + tasks;
    }
  }

  /** A worker goes on to its subtasks only when all subtasks of the reply are created. */
  lemma SpawnHasAll(u: Setup, s: State, w: Id)
    requires Inv(u, s) && Enabled(u, s, Spawn(w))
    ensures Texts(s.workers[w].pc.all) == Subtasks(s.workers[w].pc.groups)
  {
    var pc := s.workers[w].pc;
    assert WorkerOk(u, s.made, w, s.workers[w]);
    assert pc.groups[..pc.g] == pc.groups;
  }

  lemma CreatesOneMore(made: map<Id, Made>, w: Id, pc: Pc, id: Id)
    requires pc.Creating? && CreatingOk(made, w, pc) && pc.g < |pc.groups| && id !in made
    ensures CreatingOk(made[id := Made(w, pc.g, |made|)], w, OnCreated(pc, id))
  {
    var more := made[id := Made(w, pc.g, |made|)];
    var current := pc.current + [id];
    forall x ensures x in current <==> InGroup(more, w, pc.g, x) { }
    var before, after := pc.g - 1, pc.g + 1;
    forall x ensures InGroup(made, w, before, x) <==> InGroup(more, w, before, x) { }
    forall x ensures !InGroup(more, w, after, x) { }
    assert current[|pc.current|] == id;
  }

  lemma CreatingWorkerOk(u: Setup, made: map<Id, Made>, w: Id, k: Worker)
    requires w == u.root || w in made
    requires k.depth < u.config.maxDepth && CallsOk(k)
    requires k.pc.Returned? || (k.pc.Creating? && CreatingOk(made, w, k.pc) && Listed(k.pc))
    ensures WorkerOk(u, made, w, k)
  {
  }

  lemma MakerActedOk(u: Setup, s: State, e: Event)
    requires Inv(u, s) && Enabled(u, s, e) && Makes(u, s, e)
    ensures WorkerOk(u, MadeBy(u, s, e), e.w, Acted(u, s, e))
  {
    var k := s.workers[e.w];
    MakerOk(u, s, e);
    CallsCounted(u, s, e);
    assert WorkerOk(u, s.made, e.w, k);
    assert e.id !in s.made;
    assert forall k | 0 <= k < |s.workers[e.w].pc.groups| :: s.workers[e.w].pc.groups[k].tasks != [];
    hide Inv, CreatingOk, Listed, CallsOk, NewTask, CreateCheck, WorkerOk, OnCreated, Params;
    CreatesOneMore(s.made, e.w, k.pc, e.id);
    ListsOneMore(k.pc, e.id);
    CreatingWorkerOk(u, MadeBy(u, s, e), e.w, Acted(u, s, e));
  }

  lemma WorkerKnown(u: Setup, s: State, w: Id)
    requires Inv(u, s) && w in s.workers
    ensures WorkerOk(u, s.made, w, s.workers[w])
  {
    hide TasksOk, RowsOk, OrderOk, NoGaps, SlotsOk, WorkerOk, FamilyOk;
  }

  lemma OtherActedOk(u: Setup, s: State, e: Event)
    requires Inv(u, s) && Enabled(u, s, e) && !e.Cancel? && !Makes(u, s, e)
    ensures WorkerOk(u, s.made, e.w, Acted(u, s, e))
  {
    hide Inv, CreatingOk, Listed, CallsOk, Valid, Makes, Params;
    var k := s.workers[e.w];
    CallsCounted(u, s, e);
    WorkerKnown(u, s, e.w);
    if e.Spawn? {
      SpawnedAreMade(u, s, e.w);
    } else if e.Answer? && e.reply.Some? && Valid(e.reply.value) && e.reply.value.terminal != Some(true) {
      StartsCreating(s.made, e.w, e.reply.value);
    }
  }

  lemma SpawnedAreMade(u: Setup, s: State, w: Id)
    requires Inv(u, s) && w in s.workers && s.workers[w].pc.Creating?
    ensures forall c | c in ToSplit(s.workers[w].pc.all) :: c in s.made && s.made[c].parent == w
  {
    forall c | c in ToSplit(s.workers[w].pc.all) ensures c in s.made && s.made[c].parent == w {
      SpawnedAreNew(u, s, w, c);
    }
  }

  lemma EnteredOk(u: Setup, made: map<Id, Made>, w: Id, k: Worker)
    requires w in made && k.depth <= u.config.maxDepth && k.calls == 0 && k.pc.Entered?
    requires forall x | x in made :: made[x].parent != w
    ensures WorkerOk(u, made, w, k)
  {
  }

  lemma StartedOk(u: Setup, s: State, e: Event, id: Id)
    requires Inv(u, s) && Enabled(u, s, e) && e.Spawn? && id in Started(s, e)
    ensures WorkerOk(u, s.made, id, Started(s, e)[id])
    ensures id !in s.workers && id in s.made && s.made[id].parent == e.w
    ensures Started(s, e)[id] == Worker(s.workers[e.w].depth + 1, 0, Entered)
  {
    hide RowsOk, OrderOk, NoGaps, SlotsOk, WorkersOk, CreatingOk, WorkerOk;
    SpawnedAreNew(u, s, e.w, id);
    EnteredOk(u, s.made, id, Started(s, e)[id]);
  }

  lemma StepKeepsWorkerOk(u: Setup, s: State, e: Event, w: Id)
    requires Inv(u, s) && Enabled(u, s, e) && w in Apply(u, s, e).workers
    ensures WorkerOk(u, MadeBy(u, s, e), w, Apply(u, s, e).workers[w])
  {
    StepMovesOne(u, s, e);
    if w in s.workers { assert WorkerOk(u, s.made, w, s.workers[w]); }
    assert Makes(u, s, e) ==> e.id !in s.made;
    hide Inv, CreatingOk, CallsOk, CreateCheck, WorkerOk, NextPc, Acted, Kept;
    if w !in s.workers {
      StartedOk(u, s, e, w);
    } else if !e.Cancel? && w == e.w {
      if Makes(u, s, e) { MakerActedOk(u, s, e); } else { OtherActedOk(u, s, e); }
    } else if Makes(u, s, e) {
      WorkerUntouched(u, s.made, w, s.workers[w], e.id, Made(e.w, s.workers[e.w].pc.g, |s.made|));
    }
  }

  lemma FamilyKnown(u: Setup, s: State, v: Id)
    requires Inv(u, s) && v in s.workers && v in s.made
    ensures var p := s.made[v].parent; p in s.workers && FamilyOk(s.workers[p], v, s.workers[v])
  {
    hide TasksOk, RowsOk, OrderOk, NoGaps, SlotsOk, WorkerOk, FamilyOk;
  }

  lemma ChildMoves(u: Setup, s: State, e: Event, v: Id)
    requires Inv(u, s) && Enabled(u, s, e) && v in s.workers && v in s.made
    ensures var t, p := Apply(u, s, e), s.made[v].parent;
            p in t.workers && FamilyOk(t.workers[p], v, t.workers[v])
  {
    hide Inv, Makes, MadeBy, Started, Apply;
    StepMovesOne(u, s, e);
    FamilyKnown(u, s, v);
    assert v != s.made[v].parent;
  }

  lemma OldWorkerKnown(u: Setup, s: State, e: Event, v: Id)
    requires Inv(u, s) && Enabled(u, s, e) && v in s.workers && v in MadeBy(u, s, e)
    ensures v in s.made && MadeBy(u, s, e)[v] == s.made[v]
  {
    hide RowsOk, OrderOk, NoGaps, SlotsOk, FamilyOk, CreatingOk, Listed, CallsOk, Params, CreateCheck;
    assert WorkerOk(u, s.made, v, s.workers[v]);
  }

  lemma StepKeepsFamily(u: Setup, s: State, e: Event, v: Id)
    requires Inv(u, s) && Enabled(u, s, e)
    requires v in Apply(u, s, e).workers && v in MadeBy(u, s, e)
    ensures var t, p := Apply(u, s, e), MadeBy(u, s, e)[v].parent;
            p in t.workers && FamilyOk(t.workers[p], v, t.workers[v])
  {
    if v in s.workers {
      hide *;
      OldWorkerKnown(u, s, e, v);
      ChildMoves(u, s, e, v);
    } else {
      NewChild(u, s, e, v);
    }
  }

  lemma StartedIsWaitedFor(u: Setup, s: State, e: Event, v: Id)
    requires Enabled(u, s, e) && v in Apply(u, s, e).workers && v !in s.workers
    ensures e.Spawn? && v in Started(s, e) && MadeBy(u, s, e) == s.made
    ensures var k := Acted(u, s, e); k.depth == s.workers[e.w].depth && k.pc.Joining? && v in k.pc.children
  {
    hide Params, CreateCheck, CreateWrite, OnAnswer, OnFailure, OnCreated;
  }

  lemma NewChild(u: Setup, s: State, e: Event, v: Id)
    requires Inv(u, s) && Enabled(u, s, e) && v !in s.workers
    requires v in Apply(u, s, e).workers && v in MadeBy(u, s, e)
    ensures var t, p := Apply(u, s, e), MadeBy(u, s, e)[v].parent;
            p in t.workers && FamilyOk(t.workers[p], v, t.workers[v])
  {
    hide Inv, Acted, Started, MadeBy;
    StepMovesOne(u, s, e);
    StartedIsWaitedFor(u, s, e, v);
    StartedOk(u, s, e, v);
  }

  lemma ChildrenMove(before: map<Id, Worker>, w: Id, k: Worker, more: map<Id, Worker>)
    requires w in before && more.Keys !! before.Keys && forall v | v in more :: more[v].pc.Entered?
    requires forall v | v in before && before[v].pc.Joining? :: forall c | c in before[v].pc.children :: c in before
    requires k.pc.Joining? ==> forall c | c in k.pc.children :: c in more
    ensures var after := before[w := k] + more;
            forall v | v in after && after[v].pc.Joining? :: forall c | c in after[v].pc.children :: c in after
  {
  }

  lemma StepKeepsChildren(u: Setup, s: State, e: Event)
    requires Inv(u, s) && Enabled(u, s, e)
    ensures var t := Apply(u, s, e).workers;
            forall w | w in t && t[w].pc.Joining? :: forall c | c in t[w].pc.children :: c in t
  {
    hide Inv, Makes, MadeBy, Acted, Started;
    ChildrenKnown(u, s);
    if !e.Cancel? {
      StartedAreNew(u, s, e);
      StartedChildren(u, s, e);
      ChildrenMove(s.workers, e.w, Acted(u, s, e), Started(s, e));
    }
  }

  lemma ChildrenKnown(u: Setup, s: State)
    requires Inv(u, s)
    ensures forall w | w in s.workers && s.workers[w].pc.Joining? :: forall c | c in s.workers[w].pc.children ::
            c in s.workers
  {
    hide TasksOk, RowsOk, OrderOk, NoGaps, SlotsOk, WorkerOk, FamilyOk;
  }

  /** A worker that goes on to wait has started exactly those it waits for. */
  lemma StartedChildren(u: Setup, s: State, e: Event)
    requires Enabled(u, s, e) && !e.Cancel?
    ensures forall v | v in Started(s, e) :: Started(s, e)[v].pc.Entered?
    ensures Acted(u, s, e).pc.Joining? ==> forall c | c in Acted(u, s, e).pc.children :: c in Started(s, e)
  {
    hide Makes, Params, Valid;
  }

  lemma CallersMove(before: map<Id, Worker>, w: Id, k: Worker, more: map<Id, Worker>)
    requires w in before && more.Keys !! before.Keys && forall v | v in more :: more[v].pc.Entered?
    ensures var n := |Callers(before)| - if before[w].pc.Calling? then 1 else 0;
            |Callers(before[w := k] + more)| == n + if k.pc.Calling? then 1 else 0
  {
    var after := before[w := k] + more;
    var others := Callers(before) - {w};
    assert forall v :: v in Callers(after) <==> v in others || (v == w && k.pc.Calling?);
    assert Callers(after) == if k.pc.Calling? then others + {w} else others;
    assert Callers(before) == if before[w].pc.Calling? then others + {w} else others;
  }

  lemma CallingChanges(u: Setup, s: State, e: Event)
    requires Inv(u, s) && Enabled(u, s, e) && !e.Cancel?
    ensures e.w in s.workers && (s.workers[e.w].pc.Calling? <==> e.Answer? || e.CallFails?)
    ensures Acted(u, s, e).pc.Calling? <==> e.Acquire?
    ensures e.Acquire? ==> s.slots < u.config.concurrency
    ensures SlotsOk(u, s)
  {
    hide SlotsOk, TasksOk, RowsOk, OrderOk, NoGaps, WorkersOk, Makes, Params;
  }

  lemma StepKeepsSlots(u: Setup, s: State, e: Event)
    requires Inv(u, s) && Enabled(u, s, e)
    ensures SlotsOk(u, Apply(u, s, e))
  {
    if e.Cancel? {
      assert SlotsOk(u, s);
    } else {
      SlotsMove(u, s, e);
    }
  }

  lemma SlotsMove(u: Setup, s: State, e: Event)
    requires Inv(u, s) && Enabled(u, s, e) && !e.Cancel?
    ensures SlotsOk(u, Apply(u, s, e))
  {
    hide Inv, Callers, Acted, MadeBy, Makes;
    CallingChanges(u, s, e);
    StartedAreNew(u, s, e);
    CallersMove(s.workers, e.w, Acted(u, s, e), Started(s, e));
  }

  lemma WorkersFrom(u: Setup, t: State)
    requires forall w | w in t.workers :: WorkerOk(u, t.made, w, t.workers[w])
    requires forall v | v in t.workers && v in t.made ::
               t.made[v].parent in t.workers && FamilyOk(t.workers[t.made[v].parent], v, t.workers[v])
    requires forall w | w in t.workers && t.workers[w].pc.Joining? :: forall c | c in t.workers[w].pc.children ::
            c in t.workers
    ensures WorkersOk(u, t)
  {
    hide WorkerOk, FamilyOk;
  }

  lemma StepKeepsWorkers(u: Setup, s: State, e: Event)
    requires Inv(u, s) && Enabled(u, s, e)
    ensures WorkersOk(u, Apply(u, s, e))
  {
    hide *;
    var t := Apply(u, s, e);
    MadeIs(u, s, e);
    forall w | w in t.workers ensures WorkerOk(u, t.made, w, t.workers[w]) { StepKeepsWorkerOk(u, s, e, w); }
    forall v | v in t.workers && v in t.made
      ensures t.made[v].parent in t.workers && FamilyOk(t.workers[t.made[v].parent], v, t.workers[v]) {
      StepKeepsFamily(u, s, e, v);
    }
    StepKeepsChildren(u, s, e);
    WorkersFrom(u, t);
  }

  lemma MadeIs(u: Setup, s: State, e: Event)
    requires Enabled(u, s, e)
    ensures Apply(u, s, e).made == MadeBy(u, s, e)
  {
  }

  /** Every step keeps the invariant. */
  lemma StepKeepsInv(u: Setup, s: State, e: Event)
    requires Inv(u, s) && Enabled(u, s, e)
    ensures Inv(u, Apply(u, s, e))
  {
    hide TasksOk, RowsOk, OrderOk, NoGaps, WorkersOk, SlotsOk, Apply;
    StepKeepsTasks(u, s, e);
    StepKeepsGraph(u, s, e);
    StepKeepsSlots(u, s, e);
    StepKeepsWorkers(u, s, e);
  }

  // ----- Whole runs -----

  ghost predicate IsRun(u: Setup, states: seq<State>, events: seq<Event>) {
    && |states| == |events| + 1 && Init(u, states[0])
    && forall i | 0 <= i < |events| :: Enabled(u, states[i], events[i])
        && Apply(u, states[i], events[i]) == states[i + 1]
  }

  lemma {:induction false} RunKeepsInv(u: Setup, states: seq<State>, events: seq<Event>, n: nat)
    requires IsRun(u, states, events) && n <= |events|
    ensures Inv(u, states[n])
    decreases n
  {
    if n == 0 {
      InitInv(u, states[0]);
    } else {
      RunKeepsInv(u, states, events, n - 1);
      StepKeepsInv(u, states[n - 1], events[n - 1]);
    }
  }

  /** A state that some run reaches. */
  ghost predicate Reachable(u: Setup, s: State) {
    exists states: seq<State>, events: seq<Event> :: IsRun(u, states, events) && states[|events|] == s
  }

  lemma ReachableInv(u: Setup, s: State)
    requires Reachable(u, s)
    ensures Inv(u, s)
  {
    var states: seq<State>, events: seq<Event> :| IsRun(u, states, events) && states[|events|] == s;
    RunKeepsInv(u, states, events, |events|);
  }

  predicate Siblings(db: Db, a: Id, b: Id) {
    a in db.tasks && b in db.tasks && db.tasks[a].parent == db.tasks[b].parent
  }

  /** Every row the engine adds says that a subtask is blocked by a sibling created before it. */
  lemma RowsPointBack(u: Setup, s: State, r: Row)
    requires Reachable(u, s) && r in s.db.rows && r !in u.before.rows
    ensures r.kind == BlockedBy && Siblings(s.db, r.source, r.target)
    ensures r.source in s.made && r.target in s.made && s.made[r.target].order < s.made[r.source].order
  {
    ReachableInv(u, s);
    hide WorkersOk, SlotsOk, NoGaps;
  }

  /** An edge of the graph was there before, or leads from a group to the next one. */
  lemma EdgesAre(u: Setup, s: State)
    requires Inv(u, s)
    ensures var e, before := BlocksEdges(s.db.rows), BlocksEdges(u.before.rows);
            forall p :: p in e <==> p in before || NextGroup(s.made, p.0, p.1)
    ensures forall p | p in BlocksEdges(u.before.rows) :: p.0 in u.before.tasks && p.1 in u.before.tasks
  {
    assert TasksOk(u, s) && RowsOk(u.before.rows, s.db.rows, s.made);
    hide OrderOk, NoGaps, WorkersOk, SlotsOk, NextGroup;
    var e, before := BlocksEdges(s.db.rows), BlocksEdges(u.before.rows);
    forall a, b ensures (a, b) in e <==> (a, b) in before || NextGroup(s.made, a, b) {
      assert Row(a, b, Blocks) in s.db.rows <==> Row(a, b, Blocks) in u.before.rows;
    }
  }

  /** Over every run the rows are those there before, and one from each subtask to each of the
      group just before its own: no other task is made to wait, and none the other way round. */
  lemma RowsAreExactly(u: Setup, s: State, r: Row)
    requires Reachable(u, s)
    ensures r in s.db.rows <==>
              || r in u.before.rows
              || (r.kind == BlockedBy && r.source in s.made && r.target in s.made
                  && s.made[r.source].parent == s.made[r.target].parent
                  && s.made[r.source].group == s.made[r.target].group + 1)
  {
    hide TasksOk, OrderOk, NoGaps, WorkersOk, SlotsOk, Reachable;
    ReachableInv(u, s);
  }

  /** A walk inside a set that the edges do not leave uses only the edges between its members. */
  lemma {:induction false} WalkWithin(e: Edges, sub: Edges, s: set<Id>, x: Id, y: Id, n: nat)
    requires (forall p | p in e && p.0 in s :: p in sub && p.1 in s) && x in s && Walk(e, x, y, n)
    ensures Walk(sub, x, y, n)
    decreases n
  {
    if n > 0 {
      var z :| (x, z) in e && Walk(e, z, y, n - 1);
      assert (x, z).0 in s;
      WalkWithin(e, sub, s, z, y, n - 1);
    }
  }

  lemma NoCycleThroughMade(u: Setup, s: State, x: Id)
    requires Inv(u, s) && x in s.made
    ensures !Leads(BlocksEdges(s.db.rows), x, x)
  {
    var e := BlocksEdges(s.db.rows);
    EdgesAre(u, s);
    var added := set p | p in e && p.0 in s.made;
    var rank := (i: Id) => if i in s.made then s.made[i].order else 0;
    forall p | p in added ensures p.1 in s.made && rank(p.0) < rank(p.1) {
      assert NextGroup(s.made, p.0, p.1);
    }
    RankedIsAcyclic(added, rank);
    if n: nat :| n > 0 && Walk(e, x, x, n) {
      WalkWithin(e, added, s.made.Keys, x, x, n);
      assert Leads(added, x, x);
    }
  }

  /** The engine closes no cycle: the graph is acyclic exactly if it was before the run. */
  lemma StaysAcyclic(u: Setup, s: State)
    requires Reachable(u, s)
    ensures Acyclic(BlocksEdges(s.db.rows)) <==> Acyclic(BlocksEdges(u.before.rows))
  {
    ReachableInv(u, s);
    EdgesAre(u, s);
    var e, before := BlocksEdges(s.db.rows), BlocksEdges(u.before.rows);
    assert forall p | p in e && p.0 in u.before.tasks.Keys + {u.root} :: p in before;
    forall x ensures Leads(before, x, x) ==> Leads(e, x, x) {
      if n: nat :| n > 0 && Walk(before, x, x, n) {
        WalkWithin(before, e, u.before.tasks.Keys + {x}, x, x, n);
      }
    }
    forall x ensures Leads(e, x, x) ==> Leads(before, x, x) {
      if n: nat :| n > 0 && Walk(e, x, x, n) {
        if x in s.made { NoCycleThroughMade(u, s, x); assert Leads(e, x, x); }
        WalkWithin(e, before, u.before.tasks.Keys + {x}, x, x, n);
      }
    }
  }

  lemma {:induction false} LaterGroupLeads(u: Setup, s: State, x: Id, y: Id)
    requires Inv(u, s) && x in s.made && y in s.made
    requires s.made[x].parent == s.made[y].parent && s.made[x].group < s.made[y].group
    ensures Leads(BlocksEdges(s.db.rows), x, y)
    decreases s.made[y].group
  {
    var e := BlocksEdges(s.db.rows);
    EdgesAre(u, s);
    assert NoGaps(s.made);
    var z :| NextGroup(s.made, z, y);
    hide Inv;
    if s.made[x].group == s.made[z].group {
      assert NextGroup(s.made, x, y) && (x, y).0 == x;
      EdgeLeads(e, x, y);
    } else {
      LaterGroupLeads(u, s, x, z);
      assert NextGroup(s.made, (z, y).0, (z, y).1);
      EdgeLeads(e, z, y);
      LeadsTransitive(e, x, z, y);
    }
  }

  /** Every subtask of a later group is, through the blocks relation, behind every subtask of
      each earlier group of the same decomposition. */
  lemma LaterGroupIsBlocked(u: Setup, s: State, x: Id, y: Id)
    requires Reachable(u, s) && x in s.made && y in s.made
    requires s.made[x].parent == s.made[y].parent && s.made[x].group < s.made[y].group
    ensures Leads(BlocksEdges(s.db.rows), x, y) && Siblings(s.db, x, y)
  {
    ReachableInv(u, s);
    LaterGroupLeads(u, s, x, y);
  }

  /** The n-th parent of the task is the root. */
  ghost predicate AtDepth(tasks: map<Id, Task>, root: Id, id: Id, n: nat)
    decreases n
  {
    if n == 0 then id == root
    else id in tasks && tasks[id].parent.Some? && AtDepth(tasks, root, tasks[id].parent.value, n - 1)
  }

  /** A worker other than the root's was started by the worker of its parent. */
  lemma StartedByParent(u: Setup, s: State, w: Id)
    requires Inv(u, s) && w in s.workers && w != u.root
    ensures w in s.made
    ensures var p := s.made[w].parent;
            && p in s.workers && FamilyOk(s.workers[p], w, s.workers[w])
            && s.workers[w].depth == s.workers[p].depth + 1
            && w in s.db.tasks && s.db.tasks[w].parent == Some(p)
  {
    assert WorkerOk(u, s.made, w, s.workers[w]);
    hide RowsOk, OrderOk, NoGaps, SlotsOk, WorkerOk;
  }

  lemma RootIsTop(u: Setup, s: State)
    requires Inv(u, s)
    ensures u.root in s.workers && s.workers[u.root].depth == 0
  {
  }

  lemma {:induction false} WorkerAtDepth(u: Setup, s: State, w: Id)
    requires Inv(u, s) && w in s.workers
    ensures AtDepth(s.db.tasks, u.root, w, s.workers[w].depth)
    decreases s.workers[w].depth
  {
    hide Inv, FamilyOk;
    if w == u.root {
      RootIsTop(u, s);
    } else {
      StartedByParent(u, s, w);
      var p := s.made[w].parent;
      WorkerAtDepth(u, s, p);
      assert s.workers[w].depth > 0;
    }
  }

  /** No task lies deeper below the root than the maximum depth. */
  lemma DepthIsBounded(u: Setup, s: State, id: Id)
    requires Reachable(u, s) && id in s.db.tasks && id !in u.before.tasks
    ensures exists n: nat :: n <= u.config.maxDepth && AtDepth(s.db.tasks, u.root, id, n)
  {
    ReachableInv(u, s);
    if id == u.root {
      assert AtDepth(s.db.tasks, u.root, id, 0);
    } else {
      var p := s.made[id].parent;
      WorkerAtDepth(u, s, p);
      hide RowsOk, OrderOk, NoGaps, WorkersOk, SlotsOk;
      assert s.db.tasks[id].parent == Some(p) && s.workers[p].depth < u.config.maxDepth;
      hide Inv, TasksOk;
      assert AtDepth(s.db.tasks, u.root, id, s.workers[p].depth + 1);
    }
  }

  /** At most `concurrency` calls are in flight, and no worker makes more than eight. */
  lemma CallsAreBounded(u: Setup, s: State, w: Id)
    requires Reachable(u, s) && w in s.workers
    ensures |Callers(s.workers)| <= u.config.concurrency && s.workers[w].calls <= 8
  {
    hide Reachable, TasksOk, RowsOk, OrderOk, NoGaps, WorkersOk, Callers;
    ReachableInv(u, s);
    CallsKnown(u, s, w);
  }

  // ----- Progress and return -----

  lemma {:induction false} FreshExists(s: set<Id>) returns (id: Id)
    ensures forall x | x in s :: x < id
    decreases s
  {
    if s == {} {
      id := 0;
    } else {
      var x := Pick(s);
      id := FreshExists(s - {x});
      if x >= id { id := x + 1; }
      assert forall y | y in s :: y == x || y in s - {x};
    }
  }

  /** A step other than cancelling. */
  ghost predicate CanStep(u: Setup, s: State, e: Event) { !e.Cancel? && Enabled(u, s, e) }

  lemma SlotsKnown(u: Setup, s: State)
    requires Inv(u, s)
    ensures SlotsOk(u, s)
  {
  }

  lemma CallerIs(s: State, v: Id)
    ensures v in Callers(s.workers) <==> v in s.workers && s.workers[v].pc.Calling?
    ensures s.slots == |Callers(s.workers)| && v in Callers(s.workers) ==> s.slots > 0
  {
    if v in Callers(s.workers) { SubsetSize({v}, Callers(s.workers)); }
  }

  lemma {:induction false} WorkerCanStep(u: Setup, s: State, w: Id)
    requires Inv(u, s) && w in s.workers && !s.workers[w].pc.Returned?
    ensures exists e :: CanStep(u, s, e)
    decreases u.config.maxDepth - s.workers[w].depth
  {
    hide Inv, TasksOk, RowsOk, OrderOk, NoGaps, WorkersOk, Callers, Listed, CallsOk;
    var pc := s.workers[w].pc;
    WorkerKnown(u, s, w);
    SlotsKnown(u, s);
    match pc {
      case Entered => assert CanStep(u, s, Enter(w));
      case Waiting(_, _) =>
        if s.slots < u.config.concurrency {
          assert CanStep(u, s, Acquire(w));
        } else {
          var v := Pick(Callers(s.workers));
          CallerIs(s, v);
          assert CanStep(u, s, Answer(v, None));
        }
      case Calling(_, _) =>
        CallerIs(s, w);
        assert CanStep(u, s, Answer(w, None));
      case Creating(_, _, _, _, _, _) =>
        if pc.g < |pc.groups| {
          var id := FreshExists(s.db.tasks.Keys);
          assert CanStep(u, s, Create(w, id, 0, Success));
        } else {
          assert CanStep(u, s, Spawn(w));
        }
      case Joining(children) =>
        ChildrenKnown(u, s);
        if c :| c in children && !s.workers[c].pc.Returned? {
          FamilyKnown(u, s, c);
          WorkerKnown(u, s, c);
          WorkerCanStep(u, s, c);
        } else {
          assert CanStep(u, s, Join(w));
        }
    }
  }

  /** The semaphore never deadlocks the workers: until Run returns, some worker can go on, even
      when more workers wait than there are slots. */
  lemma NoDeadlock(u: Setup, s: State)
    requires Reachable(u, s) && u.root in s.workers && !s.workers[u.root].pc.Returned?
    ensures exists e :: CanStep(u, s, e)
  {
    ReachableInv(u, s);
    WorkerCanStep(u, s, u.root);
  }

  lemma {:induction false} AllReturned(u: Setup, s: State, w: Id)
    requires Inv(u, s) && s.workers[u.root].pc.Returned? && w in s.workers
    ensures s.workers[w].pc.Returned? && (s.workers[w].pc.failed ==> s.workers[u.root].pc.failed)
    decreases s.workers[w].depth
  {
    if w != u.root {
      StartedByParent(u, s, w);
      hide Inv;
      AllReturned(u, s, s.made[w].parent);
    }
  }

  /** When Run returns nothing is left going, and it reports an error exactly if some worker did. */
  lemma ReturnMeansDone(u: Setup, s: State)
    requires Reachable(u, s) && u.root in s.workers && s.workers[u.root].pc.Returned?
    ensures (forall w | w in s.workers :: s.workers[w].pc.Returned?) && s.slots == 0
    ensures s.workers[u.root].pc.failed
            <==> exists w :: w in s.workers && s.workers[w].pc.Returned? && s.workers[w].pc.failed
  {
    ReachableInv(u, s);
    forall w | w in s.workers
      ensures s.workers[w].pc.Returned? && (s.workers[w].pc.failed ==> s.workers[u.root].pc.failed)
    {
      AllReturned(u, s, w);
    }
    assert Callers(s.workers) == {};
    assert u.root in s.workers;
    hide TasksOk, RowsOk, OrderOk, NoGaps, WorkersOk;
  }
}
