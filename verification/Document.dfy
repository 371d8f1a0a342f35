/** The export document. Its fields are text, so each may spell a value or be junk. */
module Document {
  import opened Domain

  /** A text field: the value it spells, or text that spells none. */
  datatype Text<+T> = Spelled(value: T) | Junk(text: string)

  type DocId = Text<Id>

  /** A stage field of format 1 may also name one of the stages removed since. */
  datatype DocStage =
    | Native(stage: Stage)
    | Backlog | ReadyStage | WaitingStage | DeferredStage | ScheduledStage | BlockedStage

  datatype DocTask = DocTask(
    id: DocId, title: string, phase: Text<Phase>, stage: Text<DocStage>, hold: Option<Text<HoldReason>>,
    priority: Option<Text<Priority>>, ci: Option<Text<CiStatus>>,
    assignee: Option<DocId>, parent: Option<DocId>,
    start: Option<Time>, closedAt: Option<Time>, createdAt: Time, updatedAt: Time,
    pullRequests: seq<PullRequest>, remote: Option<map<string, Json>>, details: Details)

  datatype User = User(name: string, email: Option<string>, kind: string, status: string)

  datatype DocUser = DocUser(id: DocId, user: User)

  datatype DocComment = DocComment(id: DocId, task: DocId, author: DocId, body: string, createdAt: Time,
      updatedAt: Time)

  datatype DocRow = DocRow(source: DocId, target: DocId, kind: Text<RelType>)

  datatype Doc = Doc(
    version: int, generator: string, native: bool,
    name: string, description: string, remote: Option<map<string, Json>>, createdAt: Time, updatedAt: Time,
    users: seq<DocUser>, tasks: seq<DocTask>, comments: seq<DocComment>, rows: seq<DocRow>)

  const GENERATOR := "farmtable"

  /** A field that is present and not the empty string. */
  predicate Given<T(==)>(field: Option<Text<T>>) { field.Some? && field.value != Junk("") }
}
