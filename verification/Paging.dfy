/** Listing tasks in created order by keyset pages, and the remote-id index built on them. */
module Paging {
  import opened Domain
  import opened Sequences

  datatype SortField = Created | Updated

  /** The order of a listing: a time, then the identifier, either way round. */
  datatype Order = Order(field: SortField, desc: bool)

  const OLDEST_FIRST := Order(Created, false)

  function SortTime(t: Task, o: Order): Time { if o.field == Created then t.createdAt else t.updatedAt }

  predicate Before(tasks: map<Id, Task>, a: Id, b: Id, o: Order)
    requires a in tasks && b in tasks
  {
    var s, t := SortTime(tasks[a], o), SortTime(tasks[b], o);
    if o.desc then s > t || (s == t && a > b) else s < t || (s == t && a < b)
  }

  ghost predicate IsFirst(tasks: map<Id, Task>, s: set<Id>, x: Id, o: Order)
    requires s <= tasks.Keys
  {
    x in s && forall y | y in s && y != x :: Before(tasks, x, y, o)
  }

  lemma {:induction false} FirstExists(tasks: map<Id, Task>, s: set<Id>, o: Order)
    requires s <= tasks.Keys && s != {}
    ensures exists x :: IsFirst(tasks, s, x, o)
    decreases s
  {
    var x := Pick(s);
    if s == {x} {
      assert IsFirst(tasks, s, x, o);
    } else {
      FirstExists(tasks, s - {x}, o);
      var y :| IsFirst(tasks, s - {x}, y, o);
      if Before(tasks, y, x, o) {
        assert IsFirst(tasks, s, y, o);
      } else {
        assert Before(tasks, x, y, o);
        forall z | z in s && z != x ensures Before(tasks, x, z, o) {
          assert z in s - {x};
          assert z == y || Before(tasks, y, z, o);
        }
        assert IsFirst(tasks, s, x, o);
      }
    }
  }

  ghost function First(tasks: map<Id, Task>, s: set<Id>, o: Order): (x: Id)
    requires s <= tasks.Keys && s != {}
    ensures IsFirst(tasks, s, x, o)
  {
    FirstExists(tasks, s, o);
    var x :| IsFirst(tasks, s, x, o);
    x
  }

  /** All of s, in order. */
  ghost function Listing(tasks: map<Id, Task>, s: set<Id>, o: Order): seq<Id>
    requires s <= tasks.Keys
    decreases s
  {
    if s == {} then [] else
    var x := First(tasks, s, o);
    [x] + Listing(tasks, s - {x}, o)
  }

  ghost predicate InOrder(tasks: map<Id, Task>, q: seq<Id>, o: Order) {
    && (forall i | 0 <= i < |q| :: q[i] in tasks)
    && forall i, j | 0 <= i < j < |q| :: Before(tasks, q[i], q[j], o)
  }

  /** A listing is in order and has every task of s exactly once. */
  lemma {:induction false} ListingIsOrdered(tasks: map<Id, Task>, s: set<Id>, o: Order)
    requires s <= tasks.Keys
    ensures var q := Listing(tasks, s, o); InOrder(tasks, q, o) && NoRepeats(q) && Elements(q) == s
    decreases s
  {
    if s != {} {
      var x := First(tasks, s, o);
      var rest := Listing(tasks, s - {x}, o);
      ListingIsOrdered(tasks, s - {x}, o);
      var q := [x] + rest;
      assert Elements(q) == {x} + Elements(rest);
      forall i, j | 0 <= i < j < |q| ensures q[i] in tasks && q[j] in tasks && Before(tasks, q[i], q[j], o) {
        assert q[j] == rest[j - 1] && rest[j - 1] in Elements(rest);
      }
    }
  }

  lemma HeadNotInRest(tasks: map<Id, Task>, q: seq<Id>, o: Order)
    requires InOrder(tasks, q, o) && q != []
    ensures q[0] !in Elements(q[1..])
  {
    forall i | 0 <= i < |q[1..]| ensures q[1..][i] != q[0] {
      assert Before(tasks, q[0], q[i + 1], o);
    }
  }

  lemma LaterInOrder(tasks: map<Id, Task>, q: seq<Id>, o: Order, k: nat, i: nat)
    requires InOrder(tasks, q, o) && k < |q| && i < |q|
    ensures Before(tasks, q[k], q[i], o) ==> k < i
  {
    if i < k { assert Before(tasks, q[i], q[k], o); }
  }

  /** There is only one such list. */
  lemma {:induction false} ListingUnique(tasks: map<Id, Task>, s: set<Id>, o: Order, q: seq<Id>)
    requires s <= tasks.Keys && InOrder(tasks, q, o) && Elements(q) == s
    ensures q == Listing(tasks, s, o)
    decreases s
  {
    if q == [] {
      assert Elements(q) == {};
    } else {
      assert q[0] in Elements(q);
      var x, rest := First(tasks, s, o), q[1..];
      assert x in Elements(q);
      var i :| 0 <= i < |q| && q[i] == x;
      assert q[0] == x || Before(tasks, x, q[0], o);
      LaterInOrder(tasks, q, o, i, 0);
      assert q == [x] + rest;
      HeadNotInRest(tasks, q, o);
      assert Elements(q) == {x} + Elements(rest);
      assert forall i | 0 <= i < |rest| :: rest[i] == q[i + 1];
      ListingUnique(tasks, s - {x}, o, rest);
    }
  }

  // ----- Pages -----

  /** The time and identifier of the last task of a page. */
  datatype Cursor = Start | After(time: Time, id: Id)

  /** The keyset predicate. */
  predicate Beyond(t: Task, id: Id, c: Cursor, o: Order) {
    match c
    case Start => true
    case After(time, last) =>
      if o.desc then SortTime(t, o) < time || (SortTime(t, o) == time && id < last)
      else SortTime(t, o) > time || (SortTime(t, o) == time && id > last)
  }

  function Remaining(tasks: map<Id, Task>, s: set<Id>, c: Cursor, o: Order): set<Id>
    requires s <= tasks.Keys
  {
    set id | id in s && Beyond(tasks[id], id, c, o)
  }

  function CursorOf(tasks: map<Id, Task>, id: Id, o: Order): Cursor
    requires id in tasks
  {
    After(SortTime(tasks[id], o), id)
  }

  function Take(q: seq<Id>, limit: nat): seq<Id> { if |q| <= limit then q else q[..limit] }

  /** One page: the first `limit` tasks beyond the cursor. */
  ghost function Page(tasks: map<Id, Task>, s: set<Id>, c: Cursor, limit: nat, o: Order): seq<Id>
    requires s <= tasks.Keys
  {
    Take(Listing(tasks, Remaining(tasks, s, c, o), o), limit)
  }

  /** What lies beyond the k-th task of a listing is the rest of the listing. */
  lemma {:induction false} BeyondIsSuffix(tasks: map<Id, Task>, s: set<Id>, o: Order, k: nat)
    requires s <= tasks.Keys && k < |Listing(tasks, s, o)|
    ensures Listing(tasks, s, o)[k] in tasks
    ensures Listing(tasks, Remaining(tasks, s, CursorOf(tasks, Listing(tasks, s, o)[k], o), o), o)
            == Listing(tasks, s, o)[k + 1..]
  {
    var q := Listing(tasks, s, o);
    ListingIsOrdered(tasks, s, o);
    var beyond := Remaining(tasks, s, CursorOf(tasks, q[k], o), o);
    var rest := q[k + 1..];
    forall x ensures x in beyond <==> x in Elements(rest) {
      if x in Elements(rest) {
        var j :| 0 <= j < |rest| && rest[j] == x;
        assert x == q[k + 1 + j] && x in Elements(q);
        assert Before(tasks, q[k], q[k + 1 + j], o);
      }
      if x in beyond {
        assert x in Elements(q);
        var i :| 0 <= i < |q| && q[i] == x;
        LaterInOrder(tasks, q, o, k, i);
        assert x == rest[i - k - 1];
      }
    }
    assert InOrder(tasks, rest, o) by {
      forall i, j | 0 <= i < j < |rest| ensures rest[i] in tasks && rest[j] in tasks
          && Before(tasks, rest[i], rest[j], o) {
        assert Before(tasks, q[k + 1 + i], q[k + 1 + j], o);
      }
      assert forall i | 0 <= i < |rest| :: rest[i] == q[k + 1 + i];
    }
    assert beyond == Elements(rest);
    ListingUnique(tasks, beyond, o, rest);
  }

  /** A full page ends at a task beyond the cursor; what lies beyond that task is smaller, and is
      the rest of the listing. */
  lemma {:induction false} AfterFullPage(tasks: map<Id, Task>, s: set<Id>, c: Cursor, limit: nat, o: Order)
    requires s <= tasks.Keys && 0 < limit <= |Listing(tasks, Remaining(tasks, s, c, o), o)|
    ensures var q := Listing(tasks, Remaining(tasks, s, c, o), o);
            && q[limit - 1] in tasks
            && Remaining(tasks, s, CursorOf(tasks, q[limit - 1], o), o) < Remaining(tasks, s, c, o)
            && Listing(tasks, Remaining(tasks, s, CursorOf(tasks, q[limit - 1], o), o), o) == q[limit..]
  {
    var now := Remaining(tasks, s, c, o);
    var q := Listing(tasks, now, o);
    ListingIsOrdered(tasks, now, o);
    BeyondIsSuffix(tasks, now, o, limit - 1);
    var last := q[limit - 1];
    assert last in Elements(q);
    hide Listing, Elements;
    assert Remaining(tasks, s, CursorOf(tasks, last, o), o) == Remaining(tasks, now, CursorOf(tasks, last, o), o);
    assert last !in Remaining(tasks, s, CursorOf(tasks, last, o), o);
  }

  /** A client's walk: fetch a page, go on from its last task while pages are full. */
  ghost function WalkPages(tasks: map<Id, Task>, s: set<Id>, c: Cursor, limit: nat, o: Order): seq<seq<Id>>
    requires s <= tasks.Keys && limit > 0
    decreases Remaining(tasks, s, c, o)
  {
    var page := Page(tasks, s, c, limit, o);
    if |page| < limit then [page] else
    AfterFullPage(tasks, s, c, limit, o);
    [page] + WalkPages(tasks, s, CursorOf(tasks, page[limit - 1], o), limit, o)
  }

  ghost function Flatten(pages: seq<seq<Id>>): seq<Id> {
    if pages == [] then [] else pages[0] + Flatten(pages[1..])
  }

  lemma {:induction false} WalkIsRest(tasks: map<Id, Task>, s: set<Id>, c: Cursor, limit: nat, o: Order)
    requires s <= tasks.Keys && limit > 0
    ensures Flatten(WalkPages(tasks, s, c, limit, o)) == Listing(tasks, Remaining(tasks, s, c, o), o)
    decreases Remaining(tasks, s, c, o)
  {
    hide Listing, CursorOf;
    var q, page := Listing(tasks, Remaining(tasks, s, c, o), o), Page(tasks, s, c, limit, o);
    if |page| < limit {
      assert Flatten([page]) == page + Flatten([]) == page;
    } else {
      AfterFullPage(tasks, s, c, limit, o);
      var next := CursorOf(tasks, page[limit - 1], o);
      var rest := WalkPages(tasks, s, next, limit, o);
      WalkIsRest(tasks, s, next, limit, o);
      assert ([page] + rest)[0] == page && ([page] + rest)[1..] == rest;
      assert page + q[limit..] == q;
    }
  }

  /** Fetching pages one after the other yields the whole listing: every matching task exactly
      once, in order, in either direction. */
  lemma {:induction false} PagesConcatenate(tasks: map<Id, Task>, s: set<Id>, limit: nat, o: Order)
    requires s <= tasks.Keys && limit > 0
    ensures var q := Flatten(WalkPages(tasks, s, Start, limit, o));
            SortedBy(tasks, q, o) && NoRepeats(q) && Elements(q) == s
  {
    WalkIsRest(tasks, s, Start, limit, o);
    StartIsAll(tasks, s, o);
    ListingIsOrdered(tasks, s, o);
    InOrderIsSorted(tasks, Listing(tasks, s, o), o);
  }

  /** By creation or by update, oldest or newest first, and by identifier among equals. */
  predicate Precedes(a: Task, x: Id, b: Task, y: Id, o: Order) {
    match o
    case Order(Created, false) => a.createdAt < b.createdAt || (a.createdAt == b.createdAt && x < y)
    case Order(Created, true) => a.createdAt > b.createdAt || (a.createdAt == b.createdAt && x > y)
    case Order(Updated, false) => a.updatedAt < b.updatedAt || (a.updatedAt == b.updatedAt && x < y)
    case Order(Updated, true) => a.updatedAt > b.updatedAt || (a.updatedAt == b.updatedAt && x > y)
  }

  ghost predicate SortedBy(tasks: map<Id, Task>, q: seq<Id>, o: Order) {
    && (forall i | 0 <= i < |q| :: q[i] in tasks)
    && forall i, j | 0 <= i < j < |q| :: Precedes(tasks[q[i]], q[i], tasks[q[j]], q[j], o)
  }

  lemma InOrderIsSorted(tasks: map<Id, Task>, q: seq<Id>, o: Order)
    requires InOrder(tasks, q, o)
    ensures SortedBy(tasks, q, o)
  {
    forall i, j | 0 <= i < j < |q| ensures Before(tasks, q[i], q[j], o) {
    }
  }

  lemma StartIsAll(tasks: map<Id, Task>, s: set<Id>, o: Order)
    requires s <= tasks.Keys
    ensures Remaining(tasks, s, Start, o) == s
  {
  }

  // ----- The query and the index loop -----

  method FindFirst(tasks: map<Id, Task>, s: set<Id>, o: Order) returns (x: Id)
    requires s <= tasks.Keys && s != {}
    ensures IsFirst(tasks, s, x, o)
  {
    var q := Rows(s);
    var y := Pick(s);
    assert y in q;
    x := q[0];
    assert q[0] in s;
    for i := 1 to |q|
      invariant x in s && forall k | 0 <= k < i :: q[k] in s && (q[k] == x || Before(tasks, x, q[k], o))
    {
      assert q[i] in s;
      if Before(tasks, q[i], x, o) { x := q[i]; }
    }
    forall z | z in s && z != x ensures Before(tasks, x, z, o) {
      var k :| 0 <= k < |q| && q[k] == z;
    }
  }

  lemma FirstUnique(tasks: map<Id, Task>, s: set<Id>, x: Id, o: Order)
    requires s <= tasks.Keys && IsFirst(tasks, s, x, o)
    ensures x == First(tasks, s, o)
  {
  }

  /** What a listing may be filtered by. */
  datatype Filter = Filter(
    collection: Option<Id>, phase: Option<Phase>, stage: Option<Stage>, assignee: Option<Id>, unassigned: bool,
    priority: Option<Priority>, kind: Option<string>, parent: Option<Id>)
  {
    predicate Admits(t: Task) {
      && (collection.Some? ==> t.collection == collection.value)
      && (phase.Some? ==> t.phase == phase.value)
      && (stage.Some? ==> t.stage == stage.value)
      && (assignee.Some? ==> t.assignee == assignee)
      && (unassigned ==> t.assignee.None?)
      && (priority.Some? ==> t.details.priority == priority)
      && (kind.Some? ==> t.details.kind == kind.value)
      && (parent.Some? ==> t.parent == parent)
    }
  }

  function Matching(tasks: map<Id, Task>, f: Filter): set<Id> { set id | id in tasks && f.Admits(tasks[id]) }

  /** A task matches if each field of the filter is absent or its own. */
  lemma MatchingIff(tasks: map<Id, Task>, f: Filter, id: Id)
    ensures id in Matching(tasks, f) <==>
              && id in tasks
              && var t := tasks[id];
              && OpenTo(f.collection, Some(t.collection)) && OpenTo(f.phase, Some(t.phase))
              && OpenTo(f.stage, Some(t.stage)) && OpenTo(f.assignee, t.assignee)
              && !(f.unassigned && t.assignee.Some?)
              && OpenTo(f.priority, t.details.priority) && OpenTo(f.kind, Some(t.details.kind))
              && OpenTo(f.parent, t.parent)
  {
  }

  predicate OpenTo<T(==)>(field: Option<T>, own: Option<T>) { field == None || field == own }

  /** The store's query: matching tasks beyond the cursor, in order, at most `limit` of them if a
      limit is given; and how many match in all. */
  method ListTasks(tasks: map<Id, Task>, f: Filter, c: Cursor, limit: int, o: Order) returns (page: seq<Id>, total: nat)
    ensures total == |Matching(tasks, f)|
    ensures page == if limit > 0 then Page(tasks, Matching(tasks, f), c, limit, o)
                    else Listing(tasks, Remaining(tasks, Matching(tasks, f), c, o), o)
  {
    var s := Matching(tasks, f);
    total := |s|;
    var rest := Remaining(tasks, s, c, o);
    ghost var all := Listing(tasks, rest, o);
    page := [];
    while (limit <= 0 || |page| < limit) && rest != {}
      invariant rest <= s && (limit > 0 ==> |page| <= limit)
      invariant page + Listing(tasks, rest, o) == all
      decreases rest
    {
      var x := FindFirst(tasks, rest, o);
      FirstUnique(tasks, rest, x, o);
      assert page + ([x] + Listing(tasks, rest - {x}, o)) == (page + [x]) + Listing(tasks, rest - {x}, o);
      page, rest := page + [x], rest - {x};
    }
    assert rest == {} ==> page == all;
  }

  const EVERYTHING := Filter(None, None, None, None, false, None, None, None)

  /** The remote id a task carries in its remote data, if it is a string. */
  function RemoteId(t: Task): Option<string> {
    if t.remote.Some? && "remote_id" in t.remote.value && t.remote.value["remote_id"].Str?
    then Some(t.remote.value["remote_id"].s) else None
  }

  /** Place i holds the last of these tasks with this remote id. */
  ghost predicate LastWith(tasks: map<Id, Task>, q: seq<Id>, rid: string, i: int)
    requires forall k | 0 <= k < |q| :: q[k] in tasks
  {
    && 0 <= i < |q| && RemoteId(tasks[q[i]]) == Some(rid)
    && forall j | i < j < |q| :: RemoteId(tasks[q[j]]) != Some(rid)
  }

  /** Each remote id among these tasks leads to the last of them that carries it. */
  ghost predicate Indexes(tasks: map<Id, Task>, q: seq<Id>, index: map<string, Id>) {
    && (forall i | 0 <= i < |q| :: q[i] in tasks)
    && (forall rid | rid in index :: exists i :: LastWith(tasks, q, rid, i) && q[i] == index[rid])
    && (forall i | 0 <= i < |q| && RemoteId(tasks[q[i]]).Some? :: RemoteId(tasks[q[i]]).value in index)
  }

  const INDEX_PAGE := 200

  /** The cursor stands after the first n tasks of the listing, and these are indexed. */
  ghost predicate IndexedTo(tasks: map<Id, Task>, s: set<Id>, c: Cursor, n: nat, index: map<string, Id>)
    requires s <= tasks.Keys
  {
    var all := Listing(tasks, s, OLDEST_FIRST);
    && n <= |all|
    && Listing(tasks, Remaining(tasks, s, c, OLDEST_FIRST), OLDEST_FIRST) == all[n..]
    && Indexes(tasks, all[..n], index)
  }

  /** buildRemoteIDIndex: walks all pages of the collection and indexes every task that has a
      remote id. It ends because each full page leaves fewer tasks. */
  method BuildRemoteIdIndex(tasks: map<Id, Task>, collection: Id) returns (index: map<string, Id>)
    ensures var s := Matching(tasks, EVERYTHING.(collection := Some(collection)));
            Indexes(tasks, Listing(tasks, s, OLDEST_FIRST), index)
  {
    index := map[];
    var c, f := Start, EVERYTHING.(collection := Some(collection));
    ghost var s := Matching(tasks, f);
    ghost var all, n := Listing(tasks, s, OLDEST_FIRST), 0;
    StartIsAll(tasks, s, OLDEST_FIRST);
    assert IndexedTo(tasks, s, c, n, index);
    hide *;
    while true
      invariant all == Listing(tasks, s, OLDEST_FIRST) && 0 <= n <= |all|
      invariant IndexedTo(tasks, s, c, n, index)
      decreases |all| - n
    {
      var page, _ := ListTasks(tasks, f, c, INDEX_PAGE, OLDEST_FIRST);
      PageIsNext(tasks, s, c, n, index, page);
      index := AddPage(tasks, all[..n], page, index);
      n := n + |page|;
      if |page| < INDEX_PAGE { break; }
      CursorMoves(tasks, s, n, index);
      assert page[|page| - 1] == all[n - 1];
      c := CursorOf(tasks, page[|page| - 1], OLDEST_FIRST);
    }
  }

  lemma CursorMoves(tasks: map<Id, Task>, s: set<Id>, n: nat, index: map<string, Id>)
    requires s <= tasks.Keys
    requires var all := Listing(tasks, s, OLDEST_FIRST); 0 < n <= |all| && Indexes(tasks, all[..n], index)
    ensures Listing(tasks, s, OLDEST_FIRST)[n - 1] in tasks
    ensures IndexedTo(tasks, s, CursorOf(tasks, Listing(tasks, s, OLDEST_FIRST)[n - 1], OLDEST_FIRST), n, index)
  {
    hide Listing, Remaining, Indexes, CursorOf;
    BeyondIsSuffix(tasks, s, OLDEST_FIRST, n - 1);
  }

  lemma PageIsNext(tasks: map<Id, Task>, s: set<Id>, c: Cursor, n: nat, index: map<string, Id>, page: seq<Id>)
    requires s <= tasks.Keys && IndexedTo(tasks, s, c, n, index)
    requires page == Page(tasks, s, c, INDEX_PAGE, OLDEST_FIRST)
    ensures var all := Listing(tasks, s, OLDEST_FIRST);
            && n + |page| <= |all| && page == all[n..n + |page|] && all[..n] + page == all[..n + |page|]
            && (|page| < INDEX_PAGE ==> all[..n + |page|] == all)
            && (forall i | 0 <= i < |page| :: page[i] in tasks)
            && Indexes(tasks, all[..n], index)
  {
    hide Listing, Remaining, Indexes, NoRepeats;
    ListedExist(tasks, s);
  }

  lemma ListedExist(tasks: map<Id, Task>, s: set<Id>)
    requires s <= tasks.Keys
    ensures var all := Listing(tasks, s, OLDEST_FIRST); forall i | 0 <= i < |all| :: all[i] in tasks
  {
    ListingIsOrdered(tasks, s, OLDEST_FIRST);
  }

  method AddPage(tasks: map<Id, Task>, ghost before: seq<Id>, page: seq<Id>, start: map<string, Id>)
    returns (index: map<string, Id>)
    requires Indexes(tasks, before, start) && forall i | 0 <= i < |page| :: page[i] in tasks
    ensures Indexes(tasks, before + page, index)
  {
    index := start;
    ghost var seen := before;
    for i := 0 to |page|
      invariant seen == before + page[..i]
      invariant Indexes(tasks, seen, index)
    {
      var rid := RemoteId(tasks[page[i]]);
      IndexOne(tasks, seen, page[i], index);
      if rid.Some? { index := index[rid.value := page[i]]; }
      assert before + page[..i + 1] == seen + [page[i]];
      seen := seen + [page[i]];
    }
    assert before + page[..|page|] == before + page;
  }

  lemma IndexOne(tasks: map<Id, Task>, q: seq<Id>, x: Id, index: map<string, Id>)
    requires x in tasks && Indexes(tasks, q, index)
    ensures var rid := RemoteId(tasks[x]);
            Indexes(tasks, q + [x], if rid.Some? then index[rid.value := x] else index)
  {
    var p, rid := q + [x], RemoteId(tasks[x]);
    var more := if rid.Some? then index[rid.value := x] else index;
    forall r | r in more ensures exists i :: LastWith(tasks, p, r, i) && p[i] == more[r] {
      if rid == Some(r) {
        assert LastWith(tasks, p, r, |q|);
      } else {
        var i :| LastWith(tasks, q, r, i) && q[i] == index[r];
        assert LastWith(tasks, p, r, i);
      }
    }
  }

  predicate Carries(t: Task, rid: string) {
    t.remote.Some? && "remote_id" in t.remote.value && t.remote.value["remote_id"] == Str(rid)
  }

  /** What the index says of a collection: every remote id in it leads to the newest task of the
      collection that carries it. */
  lemma IndexMeans(tasks: map<Id, Task>, collection: Id, index: map<string, Id>)
    requires var s := Matching(tasks, EVERYTHING.(collection := Some(collection)));
             Indexes(tasks, Listing(tasks, s, OLDEST_FIRST), index)
    ensures forall id, rid | id in tasks && tasks[id].collection == collection && Carries(tasks[id], rid) ::
              rid in index && index[rid] in tasks
              && (id == index[rid] || tasks[id].createdAt < tasks[index[rid]].createdAt
                  || (tasks[id].createdAt == tasks[index[rid]].createdAt && id < index[rid]))
    ensures forall rid | rid in index ::
              index[rid] in tasks && tasks[index[rid]].collection == collection && Carries(tasks[index[rid]], rid)
  {
    hide Listing, InOrder, SortedBy, Matching, Indexes, Carries;
    var f := EVERYTHING.(collection := Some(collection));
    MatchingExists(tasks, f);
    var q := Listing(tasks, Matching(tasks, f), OLDEST_FIRST);
    ListingOf(tasks, f, q);
    forall id, rid | id in tasks && tasks[id].collection == collection && Carries(tasks[id], rid)
      ensures rid in index && index[rid] in tasks
      ensures id == index[rid] || tasks[id].createdAt < tasks[index[rid]].createdAt
              || (tasks[id].createdAt == tasks[index[rid]].createdAt && id < index[rid])
    {
      MatchingIff(tasks, f, id);
      assert id in Elements(q);
      var k :| 0 <= k < |q| && q[k] == id;
      CarriedIsIndexed(tasks, q, index, k, rid);
    }
    forall rid | rid in index
      ensures index[rid] in tasks && tasks[index[rid]].collection == collection && Carries(tasks[index[rid]], rid)
    {
      var i := IndexedIsCarried(tasks, q, index, rid);
      assert q[i] in Elements(q);
      MatchingIff(tasks, f, q[i]);
    }
  }

  lemma ListingOf(tasks: map<Id, Task>, f: Filter, q: seq<Id>)
    requires q == Listing(tasks, Matching(tasks, f), OLDEST_FIRST)
    ensures SortedBy(tasks, q, OLDEST_FIRST) && Elements(q) == Matching(tasks, f)
  {
    hide Listing, Matching, SortedBy;
    MatchingExists(tasks, f);
    ListingIsOrdered(tasks, Matching(tasks, f), OLDEST_FIRST);
    InOrderIsSorted(tasks, q, OLDEST_FIRST);
  }

  lemma MatchingExists(tasks: map<Id, Task>, f: Filter)
    ensures Matching(tasks, f) <= tasks.Keys
  {
  }

  lemma CarriedIsIndexed(tasks: map<Id, Task>, q: seq<Id>, index: map<string, Id>, k: nat, rid: string)
    requires Indexes(tasks, q, index) && SortedBy(tasks, q, OLDEST_FIRST) && k < |q| && Carries(tasks[q[k]], rid)
    ensures rid in index && index[rid] in tasks
    ensures q[k] == index[rid] || tasks[q[k]].createdAt < tasks[index[rid]].createdAt
            || (tasks[q[k]].createdAt == tasks[index[rid]].createdAt && q[k] < index[rid])
  {
    assert RemoteId(tasks[q[k]]) == Some(rid);
    assert RemoteId(tasks[q[k]]).value in index;
    var i :| LastWith(tasks, q, rid, i) && q[i] == index[rid];
    assert k <= i;
    if k < i { assert Precedes(tasks[q[k]], q[k], tasks[q[i]], q[i], OLDEST_FIRST); }
  }

  lemma IndexedIsCarried(tasks: map<Id, Task>, q: seq<Id>, index: map<string, Id>, rid: string) returns (i: nat)
    requires Indexes(tasks, q, index) && rid in index
    ensures i < |q| && q[i] == index[rid] && q[i] in tasks && Carries(tasks[q[i]], rid)
  {
    i :| LastWith(tasks, q, rid, i) && q[i] == index[rid];
  }
}
