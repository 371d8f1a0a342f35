/** Two users with one address: a well-formed collection whose assignees are merged by the trip. */
module SharedAddress {
  import opened Domain
  import opened Graph
  import opened Sequences
  import opened Document
  import opened ImportOrder
  import opened RemoteData
  import opened ExportImport
  import opened RoundTrip
  import Lifecycle

  const NONE := Details("", "", "", None, None, None, None, [], "", "", None)

  function Assigned(coll: Id, user: Id): Task {
    Task(coll, None, "t", Accepted, Open, None, Some(user), None, None, 1, 1, [], None, NONE, 1)
  }

  const ADDRESS: Option<string> := Some("a@b")

  const ANN := User("Ann", ADDRESS, "agent", "active")
  const BOB := User("Bob", ADDRESS, "agent", "active")
  const CY := User("Cy", ADDRESS, "agent", "active")

  const HOME := Collection(true, "c", "", None, 1, 1)

  /** Task 1 is Ann's and task 2 is Bob's. */
  const FROM := Site(Db(map[1 := Assigned(5, 11), 2 := Assigned(5, 12)], {}), map[5 := HOME], map[],
      map[11 := ANN, 12 := BOB])

  /** The receiving site knows one user with the address. */
  const INTO := Site(Db(map[], {}), map[], map[], map[21 := CY])

  const ORDER := Listing([1, 2], [], [], [11, 12])

  const SUPPLY := Supply(6, [31, 32], [], [33, 34])

  function Exported(rules: Rules): Doc {
    Doc(2, GENERATOR, true, "c", "", None, 1, 1,
        [DocUser(Spelled(11), ANN), DocUser(Spelled(12), BOB)],
        [TaskExport(rules, 1, Assigned(5, 11)), TaskExport(rules, 2, Assigned(5, 12))], [], [])
  }

  const ADDED := Added(
    map[Spelled(1) := 31, Spelled(2) := 32], map[Spelled(11) := 21, Spelled(12) := 21],
    map[31 := Assigned(6, 21), 32 := Assigned(6, 21)], {}, map[], map[])

  const AFTER := Site(Db(map[31 := Assigned(6, 21), 32 := Assigned(6, 21)], {}), map[6 := HOME], map[], map[21 := CY])

  lemma FromIsWellFormed(rules: Rules)
    requires rules.Ok()
    ensures WellFormed(rules, FROM, 5, 1)
  {
    hide TasksOf, CommentsOf, UsersOf;
    FromParts();
    assert ParentEdges(FROM, 5) == {};
    forall x ensures !Leads({}, x, x) {
    }
  }

  lemma FromParts()
    ensures TasksOf(FROM, 5) == {1, 2} && CommentsOf(FROM, 5) == {} && UsersOf(FROM, 5) == {11, 12}
            && RowsOf(FROM, 5) == {}
  {
    assert TasksOf(FROM, 5) == {1, 2} && CommentsOf(FROM, 5) == {};
  }

  lemma ExportedIsExport(rules: Rules)
    ensures IsExport(rules, FROM, 5, ORDER, Exported(rules))
  {
    hide TasksOf, CommentsOf, UsersOf, RowsOf;
    FromParts();
  }

  lemma MapsTasks(rules: Rules)
    ensures TaskMap(Exported(rules).tasks, [31, 32]) == ADDED.taskMap
    ensures ADDED.taskMap.Values == {31, 32}
  {
    hide TaskExport;
    var tasks := Exported(rules).tasks;
    assert tasks[..1] == [tasks[0]] && [31, 32][..1] == [31];
    assert [tasks[0]][..0] == [] && [31][..0] == [];
    ExportedId(rules, 1, Assigned(5, 11));
    ExportedId(rules, 2, Assigned(5, 12));
    assert TaskMap([tasks[0]], [31]) == map[Spelled(1) := 31];
    assert ADDED.taskMap[Spelled(1)] == 31 && ADDED.taskMap[Spelled(2)] == 32;
  }

  lemma MapsUsers(rules: Rules)
    ensures UsersResolved(INTO.users, Exported(rules).users, [33, 34], ADDED.userMap, map[])
  {
    var users := Exported(rules).users;
    assert WithEmail(INTO.users, ADDRESS) == {21};
    assert UniqueMatch(INTO.users, ANN, 21) && UniqueMatch(INTO.users, BOB, 21);
    assert Resolves(INTO.users, users[0].user, 33, 21) && Resolves(INTO.users, users[1].user, 34, 21);
    assert Matched(INTO.users, users[0].user) && Matched(INTO.users, users[1].user);
  }

  lemma MapsFields(rules: Rules)
    requires rules.Ok()
    ensures TasksImported(rules, Exported(rules), 6, ADDED.taskMap, ADDED.userMap, 1, ADDED.tasks)
  {
    hide TaskMap;
    MapsTasks(rules);
  }

  lemma AddedIsImport(rules: Rules)
    requires rules.Ok()
    ensures SUPPLY.Fits(INTO, Exported(rules))
    ensures IsImport(rules, INTO, Exported(rules), SUPPLY, 1, ADDED, AFTER)
  {
    hide TaskMap, UsersResolved, TasksImported, TaskExport;
    MapsTasks(rules);
    MapsUsers(rules);
    MapsFields(rules);
  }

  /** Ann's task and Bob's task become tasks of the same user. */
  lemma AssigneesMerge(rules: Rules)
    requires rules.Ok()
    ensures Transfer(rules, FROM, 5, ORDER, Exported(rules), 1, INTO, SUPPLY, 1, ADDED, AFTER)
    ensures FROM.db.tasks[1].assignee != FROM.db.tasks[2].assignee
    ensures AFTER.db.tasks[31].assignee == AFTER.db.tasks[32].assignee == Some(21)
  {
    hide WellFormed, IsExport, IsImport, Supply.Fits, Exported;
    FromIsWellFormed(rules);
    ExportedIsExport(rules);
    AddedIsImport(rules);
  }
}
