/** Which scope a stage change needs, and what a token without the lifecycle scopes can do. */
module Transitions {
  import opened Domain
  import opened Graph
  import opened Lifecycle
  import opened Effects

  const WILDCARD := "*"
  const TASK_WRITE := "task:write"
  const TASK_CLAIM := "task:claim"
  const TASK_ACCEPT := "task:accept"
  const TASK_CLOSE := "task:close"
  const COLLECTION_ADMIN := "collection:admin"

  /** One row of the table. No set means any stage. */
  datatype Rule = Rule(from: Option<set<Stage>>, to: Option<set<Stage>>, scope: string)
  {
    predicate Matches(a: Stage, b: Stage) {
      (from.None? || a in from.value) && (to.None? || b in to.value)
    }
  }

  const TERMINAL: set<Stage> := {Completed, WontFix, Duplicate, Cancelled}

  const CLOSING := Rule(None, Some(TERMINAL), TASK_CLOSE)
  const ACCEPTING := Rule(Some({Triage}), None, TASK_ACCEPT)
  const REOPENING := Rule(Some(TERMINAL), None, TASK_ACCEPT)
  const CLAIMING := Rule(None, Some({Working}), TASK_CLAIM)
  const DELIVERING := Rule(Some({Working}), Some({InReview, InQa, Deploying}), TASK_WRITE)

  const TRANSITIONS: seq<Rule> := [CLOSING, ACCEPTING, REOPENING, CLAIMING, DELIVERING]

  function FirstMatch(rules: seq<Rule>, a: Stage, b: Stage): string {
    if rules == [] then TASK_WRITE
    else if rules[0].Matches(a, b) then rules[0].scope
    else FirstMatch(rules[1..], a, b)
  }

  /** The scope a move from one stage to another needs; staying is an ordinary write. */
  function TransitionScope(a: Stage, b: Stage): string {
    if a == b then TASK_WRITE else FirstMatch(TRANSITIONS, a, b)
  }

  /** The policy the table implements: entering a terminal stage is a close, leaving triage or
      a terminal stage otherwise is an accept, entering working otherwise is a claim. */
  lemma TransitionPolicy(a: Stage, b: Stage)
    requires a != b
    ensures TransitionScope(a, b) == TASK_CLOSE <==> IsTerminal(b)
    ensures TransitionScope(a, b) == TASK_ACCEPT <==> !IsTerminal(b) && (a == Triage || IsTerminal(a))
    ensures TransitionScope(a, b) == TASK_CLAIM <==> b == Working && a != Triage && !IsTerminal(a)
    ensures TransitionScope(a, b) in {TASK_CLOSE, TASK_ACCEPT, TASK_CLAIM, TASK_WRITE}
  {
    hide FirstMatch;
    FirstOf(DELIVERING, [], a, b);
    FirstOf(CLAIMING, [DELIVERING], a, b);
    FirstOf(REOPENING, [CLAIMING, DELIVERING], a, b);
    FirstOf(ACCEPTING, [REOPENING, CLAIMING, DELIVERING], a, b);
    FirstOf(CLOSING, [ACCEPTING, REOPENING, CLAIMING, DELIVERING], a, b);
    assert TRANSITIONS == [CLOSING] + [ACCEPTING, REOPENING, CLAIMING, DELIVERING];
    assert [ACCEPTING, REOPENING, CLAIMING, DELIVERING] == [ACCEPTING] + [REOPENING, CLAIMING, DELIVERING];
    assert [REOPENING, CLAIMING, DELIVERING] == [REOPENING] + [CLAIMING, DELIVERING];
    assert [CLAIMING, DELIVERING] == [CLAIMING] + [DELIVERING];
    assert [DELIVERING] == [DELIVERING] + [];
  }

  lemma FirstOf(r: Rule, rest: seq<Rule>, a: Stage, b: Stage)
    ensures FirstMatch([r] + rest, a, b) == if r.Matches(a, b) then r.scope else FirstMatch(rest, a, b)
    ensures rest == [] ==> FirstMatch(rest, a, b) == TASK_WRITE
  {
    assert ([r] + rest)[1..] == rest;
  }

  /** RequireScope with authentication enforced: no scopes at all means every scope. */
  predicate HasScope(scopes: seq<string>, scope: string) {
    scopes == [] || WILDCARD in scopes || scope in scopes
  }

  // ----- The server's calls, one after the other -----

  datatype Call =
    | Create(id: Id, stage: Option<Stage>, params: CreateParams)
    | Insert(anchor: Id, collection: Id, steps: seq<StepParams>, ids: seq<Id>)
    | Update(id: Id, p: UpdateParams)
    | Claim(id: Id, assignee: Id, given: Given)
    | Close(id: Id, stage: Option<Stage>, given: Given)
    | Import(tasks: map<Id, Task>, rows: set<Row>)

  /** Identifiers chosen by the server are fresh. */
  predicate Fresh(db: Db, call: Call) {
    match call
    case Create(id, _, _) => id !in db.tasks
    case Insert(_, _, steps, ids) => FreshIds(db, ids, |steps|)
    case Import(tasks, _) => tasks.Keys !! db.tasks.Keys
    case _ => true
  }

  predicate MayMove(scopes: seq<string>, a: Stage, b: Stage) {
    TransitionScope(a, b) != TASK_WRITE ==> HasScope(scopes, TransitionScope(a, b))
  }

  /** The server's own checks: the scope of the call, the scope of its stage change, and no
      entry into working except by a claim. */
  predicate Permitted(db: Db, scopes: seq<string>, call: Call) {
    match call
    case Create(_, stage, _) =>
      HasScope(scopes, TASK_WRITE) && (stage.Some? ==> stage.value != Working && MayMove(scopes, Triage, stage.value))
    case Insert(_, _, _, _) => HasScope(scopes, TASK_WRITE)
    case Update(id, p) =>
      && HasScope(scopes, TASK_WRITE) && id in db.tasks
      && UpdateAllowed(p) && (p.stage.Some? ==> MayMove(scopes, db.tasks[id].stage, p.stage.value))
    case Claim(id, _, _) => HasScope(scopes, TASK_CLAIM) && id in db.tasks
    case Close(id, _, _) => HasScope(scopes, TASK_CLOSE) && id in db.tasks
    case Import(_, _) => HasScope(scopes, COLLECTION_ADMIN)
  }

  /** The tables after a call. A refused or failed call changes nothing. */
  ghost function Perform(db: Db, scopes: seq<string>, call: Call, now: Time): Db
    requires Fresh(db, call)
  {
    if !Permitted(db, scopes, call) then db
    else
      match call
      case Create(id, stage, params) =>
        var p := params.(stage := if stage.Some? then stage.value else Triage);
        if CreateCheck(db, p, now).Some? then db else CreateWrite(db, id, ServerParams(p), now)
      case Insert(anchor, collection, steps, ids) =>
        if InsertCheck(db, anchor, collection, steps).Some? then db
        else InsertWrite(db, anchor, collection, steps, ids, now)
      case Update(id, p) =>
        var loaded := UpdateLoad(db, id, p, now);
        if loaded.Ok? && VersionGuard(db, id, p.version, loaded.value) && UpdateKeysOk(db, p)
        then UpdateWrite(db, id, loaded.value, p, now) else db
      case Claim(id, assignee, given) =>
        var loaded := ClaimLoad(db, id, now);
        if loaded.Ok? && ClaimGuard(db, id, given, loaded.value, now)
        then ClaimWrite(db, id, assignee, loaded.value, now) else db
      case Close(id, stage, given) =>
        var target := if stage.Some? then stage.value else Completed;
        var loaded := CloseLoad(db, id, target);
        if loaded.Ok? && VersionGuard(db, id, given, loaded.value)
        then CloseWrite(db, id, target, loaded.value, now) else db
      case Import(tasks, rows) => Db(db.tasks + tasks, db.rows + rows)
  }

  // ----- What the scopes allow, and what an allowed call does -----

  predicate Can(scopes: seq<string>, scope: string) { |scopes| == 0 || "*" in scopes || scope in scopes }

  /** Closing needs one scope; leaving triage or reopening another; other moves none. */
  predicate CanMove(scopes: seq<string>, a: Stage, b: Stage) {
    || a == b
    || (if PhaseFits(b, Closed) then Can(scopes, "task:close")
        else (a == Triage || PhaseFits(a, Closed)) ==> Can(scopes, "task:accept"))
  }

  lemma MayMoveIff(scopes: seq<string>, a: Stage, b: Stage)
    requires b != Working
    ensures MayMove(scopes, a, b) <==> CanMove(scopes, a, b)
  {
    hide TransitionScope;
    if a == b { SameStageIsWrite(a); } else { TransitionPolicy(a, b); }
  }

  lemma SameStageIsWrite(a: Stage)
    ensures TransitionScope(a, a) == TASK_WRITE
  {
  }

  /** Exactly which calls the server lets a token make. */
  lemma PermittedIff(db: Db, scopes: seq<string>, call: Call)
    ensures Permitted(db, scopes, call) <==>
              match call
              case Create(_, stage, _) =>
                Can(scopes, "task:write") && stage != Some(Working)
                && (stage.Some? ==> CanMove(scopes, Triage, stage.value))
              case Insert(_, _, _, _) => Can(scopes, "task:write")
              case Update(id, p) =>
                && Can(scopes, "task:write") && id in db.tasks && p.stage != Some(Working)
                && (p.stage.Some? ==> CanMove(scopes, db.tasks[id].stage, p.stage.value))
                && (p.title.Some? ==> HasText(p.title.value) && |p.title.value| <= 512)
                && (p.details.Some? ==> |p.details.value.description| <= 65536)
              case Claim(id, _, _) => Can(scopes, "task:claim") && id in db.tasks
              case Close(id, _, _) => Can(scopes, "task:close") && id in db.tasks
              case Import(_, _) => Can(scopes, "collection:admin")
  {
    hide MayMove, CanMove, NameOk;
    match call {
      case Create(_, stage, _) => if stage.Some? && stage.value != Working { MayMoveIff(scopes, Triage, stage.value); }
      case Update(id, p) =>
        if p.title.Some? { NameOkIff(p.title.value); }
        if id in db.tasks && p.stage.Some? && p.stage.value != Working {
          MayMoveIff(scopes, db.tasks[id].stage, p.stage.value);
        }
      case _ =>
    }
  }

  /** A call that is let through and meets no error does what it asks; created tasks are in triage
      and closed ones completed unless the call says otherwise. */
  lemma PerformedAsAsked(db: Db, scopes: seq<string>, call: Call, now: Time)
    requires Fresh(db, call) && Permitted(db, scopes, call) && db.ForeignKeys()
    ensures var after := Perform(db, scopes, call, now);
            match call
            case Create(id, stage, params) =>
              var p := params.(stage := if stage.None? then Triage else stage.value);
              CreateCheck(db, p, now).None? ==> CreateDone(db, id, ServerParams(p), now, after)
            case Insert(anchor, collection, steps, ids) =>
              InsertCheck(db, anchor, collection, steps).None?
              ==> InsertDone(db, anchor, collection, steps, ids, now, after)
            case Update(id, p) =>
              UpdateLoad(db, id, p, now).Ok? && UpdateKeysOk(db, p) && IsCurrent(db, id, p.version)
              ==> UpdateDone(db, id, p, now, after)
            case Claim(id, assignee, given) =>
              ClaimLoad(db, id, now).Ok? && db.tasks[id].phase == Open && db.tasks[id].stage == Accepted
              && IsCurrent(db, id, given)
              ==> ClaimDone(db, id, assignee, now, after)
            case Close(id, stage, given) =>
              var target := if stage.None? then Completed else stage.value;
              PhaseFits(target, Closed) && db.tasks[id].phase != Closed && IsCurrent(db, id, given)
              ==> CloseDone(db, id, target, now, after)
            case Import(tasks, rows) => after == Db(db.tasks + tasks, db.rows + rows)
  {
    hide CreateDone, InsertDone, UpdateDone, UpdateWrite, CreateWrite, InsertWrite, CreateCheck, InsertCheck,
         UpdateKeysOk, UpdateValid, Permitted, Db.ForeignKeys, Blocked, NoUnsatisfiedBlocker;
    PermittedExists(db, scopes, call);
    match call {
      case Create(id, stage, params) =>
        CreateWriteDone(db, id, ServerParams(params.(stage := if stage.None? then Triage else stage.value)), now);
      case Insert(anchor, collection, steps, ids) =>
        if InsertCheck(db, anchor, collection, steps).None? {
          InsertCheckMeans(db, anchor, collection, steps);
          InsertWriteDone(db, anchor, collection, steps, ids, now);
        }
      case Update(id, p) =>
        if IsCurrent(db, id, p.version) { UpdateWriteDone(db, id, p, now); }
      case Claim(id, assignee, _) =>
        BlockerConditionsAgree(db, id);
        ClaimWriteDone(db, id, assignee, now);
      case Close(id, stage, _) =>
        PhaseForStageFits(if stage.None? then Completed else stage.value);
        CloseWriteDone(db, id, if stage.None? then Completed else stage.value, now);
      case Import(_, _) =>
    }
  }

  /** No version was sent, or the stored one. */
  predicate IsCurrent(db: Db, id: Id, given: Given) {
    given.None? || (id in db.tasks && given.value == db.tasks[id].version)
  }

  lemma PermittedExists(db: Db, scopes: seq<string>, call: Call)
    requires Permitted(db, scopes, call)
    ensures call.Update? || call.Claim? || call.Close? ==> call.id in db.tasks
  {
  }

  lemma InsertCheckMeans(db: Db, anchor: Id, collection: Id, steps: seq<StepParams>)
    requires InsertCheck(db, anchor, collection, steps).None?
    ensures anchor in db.tasks && steps != []
  {
  }

  /** A token with some scopes, but none of those that move tasks in and out of triage and
      the terminal stages. */
  predicate Restricted(scopes: seq<string>) {
    scopes != [] && forall s | s in [WILDCARD, TASK_ACCEPT, TASK_CLOSE, COLLECTION_ADMIN] :: s !in scopes
  }

  /** No task leaves triage, none enters, leaves or changes a terminal stage, and whatever is
      new is in triage. */
  ghost predicate Tame(db: Db, db': Db) {
    && (forall id | id in db.tasks ::
          && id in db'.tasks
          && (db.tasks[id].stage == Triage ==> db'.tasks[id].stage == Triage)
          && (IsTerminal(db.tasks[id].stage) ==> db'.tasks[id].stage == db.tasks[id].stage)
          && (IsTerminal(db'.tasks[id].stage) ==> db'.tasks[id].stage == db.tasks[id].stage))
    && (forall id | id in db'.tasks && id !in db.tasks :: db'.tasks[id].stage == Triage)
  }

  lemma RestrictedLacks(scopes: seq<string>)
    requires Restricted(scopes)
    ensures !HasScope(scopes, TASK_ACCEPT) && !HasScope(scopes, TASK_CLOSE) && !HasScope(scopes, COLLECTION_ADMIN)
  {
    var l := [WILDCARD, TASK_ACCEPT, TASK_CLOSE, COLLECTION_ADMIN];
    assert l[0] in l && l[1] in l && l[2] in l && l[3] in l;
  }

  lemma RestrictedMoves(scopes: seq<string>, a: Stage, b: Stage)
    requires Restricted(scopes) && MayMove(scopes, a, b) && a != b
    ensures !IsTerminal(a) && !IsTerminal(b) && a != Triage
  {
    RestrictedLacks(scopes);
    TransitionPolicy(a, b);
    assert TASK_WRITE != TASK_CLOSE && TASK_WRITE != TASK_ACCEPT;
  }

  /** Changing one task is tame if its stage stays, or moves between stages that are neither
      triage nor terminal. */
  lemma OneMoved(db: Db, db': Db, id: Id, t: Task)
    requires id in db.tasks && db'.tasks == db.tasks[id := t]
    requires t.stage == db.tasks[id].stage
             || (db.tasks[id].stage != Triage && !IsTerminal(db.tasks[id].stage) && !IsTerminal(t.stage))
    ensures Tame(db, db')
  {
  }

  lemma UpdateIsTame(db: Db, scopes: seq<string>, call: Call, now: Time)
    requires call.Update? && Permitted(db, scopes, call) && Restricted(scopes)
    requires UpdateLoad(db, call.id, call.p, now).Ok?
    ensures Tame(db, UpdateWrite(db, call.id, db.tasks[call.id], call.p, now))
  {
    hide HasScope, TransitionScope, Restricted, UpdateAllowed, Tame, UpdateRows, MayMove;
    var t := db.tasks[call.id];
    if call.p.stage.Some? && call.p.stage.value != t.stage { RestrictedMoves(scopes, t.stage, call.p.stage.value); }
    OneMoved(db, UpdateWrite(db, call.id, t, call.p, now), call.id, UpdateRow(t, t, call.p, now));
  }

  lemma CreateIsTame(db: Db, scopes: seq<string>, call: Call, now: Time)
    requires call.Create? && Fresh(db, call) && Permitted(db, scopes, call) && Restricted(scopes)
    ensures Tame(db, Perform(db, scopes, call, now))
  {
    hide HasScope, TransitionScope, Restricted, MayMove, CreateCheck;
    if call.stage.Some? && call.stage.value != Triage { RestrictedMoves(scopes, Triage, call.stage.value); }
  }

  lemma InsertIsTame(db: Db, scopes: seq<string>, call: Call, now: Time)
    requires call.Insert? && Fresh(db, call)
    ensures Tame(db, Perform(db, scopes, call, now))
  {
    hide HasScope, StepTasks, SplicedRows, StepsAllowed;
    if InsertCheck(db, call.anchor, call.collection, call.steps).None? {
      forall id | id in call.ids { StepTasksInv(call.steps, call.collection, call.ids, now, id); }
    }
  }

  lemma CallIsTame(db: Db, scopes: seq<string>, call: Call, now: Time)
    requires Fresh(db, call) && Restricted(scopes)
    ensures Tame(db, Perform(db, scopes, call, now))
  {
    hide HasScope, TransitionScope, UpdateWrite, CreateWrite, InsertWrite, Restricted, CreateCheck, InsertCheck,
        UpdateAllowed, MayMove;
    RestrictedLacks(scopes);
    if Permitted(db, scopes, call) {
      match call {
        case Create(_, _, _) => CreateIsTame(db, scopes, call, now);
        case Insert(_, _, _, _) => InsertIsTame(db, scopes, call, now);
        case Update(id, p) =>
          if UpdateLoad(db, id, p, now).Ok? { UpdateIsTame(db, scopes, call, now); }
        case Claim(id, assignee, _) =>
          if ClaimLoad(db, id, now).Ok? { ClaimIsTame(db, id, assignee, now); }
        case _ =>
      }
    }
  }

  lemma ClaimIsTame(db: Db, id: Id, assignee: Id, now: Time)
    requires ClaimLoad(db, id, now).Ok?
    ensures Tame(db, ClaimWrite(db, id, assignee, db.tasks[id], now))
  {
    hide Blocked;
    var t := db.tasks[id];
    OneMoved(db, ClaimWrite(db, id, assignee, t, now), id, ClaimWrite(db, id, assignee, t, now).tasks[id]);
  }

  /** The tables after each call of a serial run. */
  ghost predicate IsSerialRun(dbs: seq<Db>, scopes: seq<string>, calls: seq<Call>, times: seq<Time>) {
    && |dbs| == |calls| + 1 && |times| == |calls|
    && forall i | 0 <= i < |calls| ::
         Fresh(dbs[i], calls[i]) && dbs[i + 1] == Perform(dbs[i], scopes, calls[i], times[i])
  }

  /** Over any serial run of calls by a restricted token, however long. */
  lemma {:induction false} RestrictedRunIsTame(dbs: seq<Db>, scopes: seq<string>, calls: seq<Call>, times: seq<Time>,
      n: nat)
    requires IsSerialRun(dbs, scopes, calls, times) && Restricted(scopes) && n <= |calls|
    ensures Tame(dbs[0], dbs[n])
    decreases n
  {
    if n > 0 {
      RestrictedRunIsTame(dbs, scopes, calls, times, n - 1);
      CallIsTame(dbs[n - 1], scopes, calls[n - 1], times[n - 1]);
    }
  }
}
