/** The model's replies and the check they must pass before any task is made from them. */
module Replies {
  import opened Domain

  datatype Subtask = Subtask(slug: string, title: string, description: string, terminal: bool)

  datatype Group = Group(num: int, tasks: seq<Subtask>)

  /** A decoded reply: `terminal` may be absent. */
  datatype Reply = Reply(terminal: Option<bool>, groups: seq<Group>)

  datatype Fault =
    | NoGroups | OutOfOrder(num: int) | EmptyGroup(num: int)
    | EmptySlug | DuplicateSlug(slug: string) | EmptyTitle(slug: string) | EmptyDescription(slug: string)

  function Subtasks(groups: seq<Group>): seq<Subtask> {
    if groups == [] then [] else Subtasks(groups[..|groups| - 1]) + groups[|groups| - 1].tasks
  }

  predicate Filled(t: Subtask) { t.slug != "" && t.title != "" && t.description != "" }

  /** Every subtask has its texts, and no two share a slug. */
  ghost predicate Distinct(q: seq<Subtask>) {
    && (forall i | 0 <= i < |q| :: Filled(q[i]))
    && forall i, j | 0 <= i < j < |q| :: q[i].slug != q[j].slug
  }

  /** A terminal reply, or groups that are numbered in order, none of them empty, whose subtasks
      are distinct. */
  ghost predicate Valid(r: Reply) {
    || r.terminal == Some(true)
    || (r.groups != [] && InOrder(r.groups) && Distinct(Subtasks(r.groups)))
  }

  ghost predicate InOrder(groups: seq<Group>) {
    && (forall i | 0 <= i < |groups| :: groups[i].tasks != [] && groups[i].num >= -1)
    && forall i, j | 0 <= i < j < |groups| :: groups[i].num <= groups[j].num
  }

  lemma {:induction false} SubtasksPrefix(groups: seq<Group>, i: nat, k: nat)
    requires i < |groups| && k <= |groups[i].tasks|
    ensures Subtasks(groups[..i]) + groups[i].tasks[..k] <= Subtasks(groups)
    decreases |groups|
  {
    var n := |groups| - 1;
    var front := groups[..n];
    if i == n {
      assert groups[n].tasks[..k] <= groups[n].tasks;
    } else {
      SubtasksPrefix(front, i, k);
      assert front[..i] == groups[..i];
    }
  }

  ghost function Slugs(q: seq<Subtask>): set<string> { set t | t in q :: t.slug }

  lemma OneMore(q: seq<Subtask>, t: Subtask)
    requires Distinct(q)
    ensures Distinct(q + [t])
            <==> t.slug != "" && t.title != "" && t.description != "" && t.slug !in Slugs(q)
    ensures Slugs(q + [t]) == Slugs(q) + {t.slug}
  {
    var more := q + [t];
    assert more[|q|] == t;
    if t.slug in Slugs(q) {
      var j :| 0 <= j < |q| && q[j].slug == t.slug;
      assert more[j] == q[j];
    }
  }

  /** What a valid reply says of the subtasks seen so far. */
  lemma SeenDistinct(r: Reply, i: nat, k: nat)
    requires r.terminal != Some(true) && Valid(r) && i < |r.groups| && k <= |r.groups[i].tasks|
    ensures Distinct(Subtasks(r.groups[..i]) + r.groups[i].tasks[..k])
  {
    SubtasksPrefix(r.groups, i, k);
  }

  lemma OneMoreGroup(groups: seq<Group>, i: nat)
    requires i < |groups| && InOrder(groups[..i])
    ensures Subtasks(groups[..i + 1]) == Subtasks(groups[..i]) + groups[i].tasks
    ensures InOrder(groups[..i + 1])
            <==> groups[i].tasks != [] && groups[i].num >= if i == 0 then -1 else groups[i - 1].num
    ensures InOrder(groups) ==> InOrder(groups[..i + 1])
  {
    assert groups[..i + 1][..i] == groups[..i];
    if i > 0 { assert groups[..i][i - 1] == groups[i - 1] && groups[..i + 1][i - 1] == groups[i - 1]; }
    assert groups[..i + 1][i] == groups[i];
  }

  /** The inner loop: the subtasks of group i, given the slugs of the groups before it. */
  method CheckSubtasks(r: Reply, i: nat, before: set<string>) returns (fault: Option<Fault>, slugs: set<string>)
    requires r.terminal != Some(true) && i < |r.groups|
    requires Distinct(Subtasks(r.groups[..i])) && before == Slugs(Subtasks(r.groups[..i]))
    ensures fault.Some? ==> !Valid(r)
    ensures var q := Subtasks(r.groups[..i]) + r.groups[i].tasks;
            fault.None? ==> Distinct(q) && slugs == Slugs(q)
  {
    hide *;
    var tasks := r.groups[i].tasks;
    slugs := before;
    ghost var seen := Subtasks(r.groups[..i]);
    for k := 0 to |tasks|
      invariant seen == Subtasks(r.groups[..i]) + tasks[..k]
      invariant Distinct(seen) && slugs == Slugs(seen)
    {
      var t := tasks[k];
      OneMore(seen, t);
      seen := seen + [t];
      assert seen == Subtasks(r.groups[..i]) + tasks[..k + 1];
      if Valid(r) { SeenDistinct(r, i, k + 1); }
      if t.slug == "" { return Some(EmptySlug), slugs; }
      if t.slug in slugs { return Some(DuplicateSlug(t.slug)), slugs; }
      slugs := slugs + {t.slug};
      if t.title == "" { return Some(EmptyTitle(t.slug)), slugs; }
      if t.description == "" { return Some(EmptyDescription(t.slug)), slugs; }
    }
    assert tasks[..|tasks|] == tasks;
    return None, slugs;
  }

  /** validateResult: no fault is found exactly in a valid reply. */
  method ValidateResult(r: Reply) returns (fault: Option<Fault>)
    ensures fault.None? <==> Valid(r)
  {
    if r.terminal == Some(true) { return None; }
    if |r.groups| == 0 { return Some(NoGroups); }
    var slugs: set<string> := {};
    assert r.groups[..0] == [];
    assert InOrder([]) && Distinct(Subtasks([])) && slugs == Slugs(Subtasks([]));
    assert Valid(r) <==> InOrder(r.groups) && Distinct(Subtasks(r.groups));
    hide *;
    var prev := -1;
    for i := 0 to |r.groups|
      invariant InOrder(r.groups[..i])
      invariant prev == if i == 0 then -1 else r.groups[i - 1].num
      invariant Distinct(Subtasks(r.groups[..i])) && slugs == Slugs(Subtasks(r.groups[..i]))
    {
      var g := r.groups[i];
      OneMoreGroup(r.groups, i);
      if g.num < prev { return Some(OutOfOrder(g.num)); }
      prev := g.num;
      if |g.tasks| == 0 { return Some(EmptyGroup(g.num)); }
      fault, slugs := CheckSubtasks(r, i, slugs);
      if fault.Some? { return; }
    }
    assert r.groups[..|r.groups|] == r.groups;
    return None;
  }
}
