/** The entities every part of Farm Table works on: tasks, their stages and holds,
    relationship rows, and the database value a request reads or replaces. */
module Domain {

  datatype Option<+T> = None | Some(value: T)

  datatype Result<+T, +E> = Ok(value: T) | Err(error: E)

  /** A UUID. Its textual form is injective, so a number stands for both. */
  type Id = int

  /** An instant, counted in nanoseconds. */
  type Time = int

  datatype Stage =
    | Triage | Accepted
    | Working | InReview | InQa | Deploying
    | Completed | WontFix | Duplicate | Cancelled

  datatype Phase = Open | InProgress | OnHold | Closed

  datatype HoldReason = WaitingForInput | Deferred

  datatype RelType = Blocks | BlockedBy | RelatesTo | Duplicates | DuplicatedBy

  /** A relationship row. The table has a unique index on all three columns,
      so the table is a set of rows. */
  datatype Row = Row(source: Id, target: Id, kind: RelType)

  /** A decoded JSON value, as stored in a remote_data column. */
  datatype Json =
    | Null
    | Bool(b: bool)
    | Num(n: real)
    | Str(s: string)
    | List(items: seq<Json>)
    | Obj(fields: map<string, Json>)

  datatype PullRequest = PullRequest(id: string, url: string, status: string)

  datatype Priority = Urgent | High | Normal | Low

  datatype CiStatus = Unknown | Pending | Running | Passed | Failed

  /** The columns that requests only ever set or clear. */
  datatype Details = Details(
    description: string, nativeLabel: string, kind: string,
    priority: Option<Priority>, rank: Option<int>, dueDate: Option<Time>,
    acceptance: Option<string>, labels: seq<string>,
    repo: string, branch: string, ci: Option<CiStatus>)

  datatype Task = Task(
    collection: Id, parent: Option<Id>, title: string,
    stage: Stage, phase: Phase, hold: Option<HoldReason>,
    assignee: Option<Id>, start: Option<Time>, closedAt: Option<Time>,
    createdAt: Time, updatedAt: Time,
    pullRequests: seq<PullRequest>, remote: Option<map<string, Json>>,
    details: Details, version: int)

  /** The tables a task request touches. */
  datatype Db = Db(tasks: map<Id, Task>, rows: set<Row>)
  {
    /** Foreign keys: both ends of every row, and every named parent, exist. */
    ghost predicate ForeignKeys() {
      && (forall r :: r in rows ==> r.source in tasks && r.target in tasks)
      && (forall id :: id in tasks && tasks[id].parent.Some? ==> tasks[id].parent.value in tasks)
    }
  }

  function PhaseForStage(s: Stage): Phase {
    match s
    case Triage | Accepted => Open
    case Working | InReview | InQa | Deploying => InProgress
    case Completed | WontFix | Duplicate | Cancelled => Closed
  }

  predicate IsTerminal(s: Stage) {
    s in {Completed, WontFix, Duplicate, Cancelled}
  }

  /** The stages in which a hold reason is allowed. */
  predicate MayHold(s: Stage) {
    s in {Accepted, Working, InReview, InQa, Deploying}
  }
}
