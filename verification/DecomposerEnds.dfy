/** Every run of the decomposition engine ends: each step uses up some of a budget that depends
    only on the maximum depth and on how many subtasks a reply may have. */
module DecomposerEnds {
  import opened Domain
  import opened Sequences
  import opened Replies
  import opened Decomposer

  // ----- Sums over the workers -----

  ghost function AnyOf<T>(s: set<T>): (x: T)
    requires s != {}
    ensures x in s
  {
    var x :| x in s;
    x
  }

  ghost function Sum(m: map<Id, int>): int
    decreases m.Keys
  {
    if m.Keys == {} then 0 else
    var w := AnyOf(m.Keys);
    m[w] + Sum(m - {w})
  }

  lemma {:induction false} SumWithout(m: map<Id, int>, w: Id)
    requires w in m
    ensures Sum(m) == m[w] + Sum(m - {w})
    decreases m.Keys
  {
    var x := AnyOf(m.Keys);
    if x != w {
      SumWithout(m - {x}, w);
      SumWithout(m - {w}, x);
      assert m - {x} - {w} == m - {w} - {x};
    }
  }

  lemma SumUpdate(m: map<Id, int>, w: Id, n: int)
    requires w in m
    ensures Sum(m[w := n]) == Sum(m) - m[w] + n
  {
    SumWithout(m, w);
    SumWithout(m[w := n], w);
    assert m[w := n] - {w} == m - {w};
  }

  lemma {:induction false} SumMore(m: map<Id, int>, more: map<Id, int>, n: int)
    requires m.Keys !! more.Keys && forall w | w in more :: more[w] == n
    ensures Sum(m + more) == Sum(m) + |more| * n
    decreases more.Keys
  {
    hide Sum;
    if more.Keys == {} {
      assert more == map[] && m + more == m;
    } else {
      var w := AnyOf(more.Keys);
      SumMoreStep(m, more, w, n);
      SumMore(m, more - {w}, n);
      OneSmaller(more, w, n);
    }
  }

  lemma SumMoreStep(m: map<Id, int>, more: map<Id, int>, w: Id, n: int)
    requires m.Keys !! more.Keys && w in more && more[w] == n
    ensures Sum(m + more) == n + Sum(m + (more - {w}))
  {
    hide Sum;
    SumWithout(m + more, w);
    assert (m + more) - {w} == m + (more - {w});
  }

  lemma OneSmaller(more: map<Id, int>, w: Id, n: int)
    requires w in more
    ensures |more| * n == |more - {w}| * n + n
  {
    assert more.Keys == (more - {w}).Keys + {w};
    assert |more.Keys| == |more| && |(more - {w}).Keys| == |more - {w}|;
  }

  lemma {:induction false} SumNonNegative(m: map<Id, int>)
    requires forall w | w in m :: m[w] >= 0
    ensures Sum(m) >= 0
    decreases m.Keys
  {
    if m.Keys != {} {
      SumNonNegative(m - {AnyOf(m.Keys)});
    }
  }

  // ----- The budget -----

  /** Enough for a worker with so many levels below it, when a reply has at most b subtasks. */
  function Budget(b: nat, levels: nat): nat {
    if levels == 0 then 19 else 19 + b * (1 + Budget(b, levels - 1))
  }

  /** What a worker has done itself, creations aside. */
  function Spent(k: Worker): int {
    match k.pc
    case Entered => 0
    case Waiting(_, _) => 1 + 2 * k.calls
    case Calling(_, _) => 2 * k.calls
    case Creating(_, _, _, _, _, _) => 1 + 2 * k.calls
    case Joining(_) => 2 + 2 * k.calls
    case Returned(_) => 3 + 2 * k.calls
  }

  function Below(u: Setup, b: nat, k: Worker): nat {
    if k.depth < u.config.maxDepth then Budget(b, u.config.maxDepth - k.depth - 1) else 0
  }

  /** What a worker and those it may yet start have left to do, at most. */
  function Left(u: Setup, b: nat, k: Worker): int {
    match k.pc
    case Entered => if k.depth <= u.config.maxDepth then Budget(b, u.config.maxDepth - k.depth) else 19
    case Waiting(_, _) => 19 - Spent(k) + b * (1 + Below(u, b, k))
    case Calling(_, _) => 19 - Spent(k) + b * (1 + Below(u, b, k))
    case Creating(groups, _, _, _, _, all) =>
      19 - Spent(k) + |Subtasks(groups)| - |all| + |Subtasks(groups)| * Below(u, b, k)
    case _ => 19 - Spent(k)
  }

  function Costs(u: Setup, b: nat, workers: map<Id, Worker>): map<Id, int> {
    map w | w in workers :: Left(u, b, workers[w])
  }

  ghost function Total(u: Setup, b: nat, s: State): int { Sum(Costs(u, b, s.workers)) }

  /** A reply has at most b subtasks. */
  predicate Modest(b: nat, e: Event) { e.Answer? && e.reply.Some? ==> |Subtasks(e.reply.value.groups)| <= b }

  lemma Product(n: nat, b: nat, c: nat)
    requires n <= b
    ensures 0 <= n * c <= b * c && n * (1 + c) == n + n * c
  {
  }

  lemma {:induction false} ToSplitSize(all: seq<Created>)
    ensures |ToSplit(all)| <= |all|
  {
    if all != [] { ToSplitSize(all[1..]); }
  }

  /** While the worker creates, the created subtasks are the first of the reply. */
  lemma ListedSize(pc: Pc)
    requires pc.Creating? && Listed(pc)
    ensures |pc.all| <= |Subtasks(pc.groups)|
    ensures pc.g == |pc.groups| ==> |pc.all| == |Subtasks(pc.groups)|
  {
    assert |Texts(pc.all)| == |pc.all|;
    if pc.g < |pc.groups| {
      SubtasksPrefix(pc.groups, pc.g, pc.i);
    } else {
      assert pc.groups[..pc.g] == pc.groups;
    }
  }

  lemma LeftNonNegative(u: Setup, b: nat, made: map<Id, Made>, w: Id, k: Worker)
    requires WorkerOk(u, made, w, k)
    ensures Left(u, b, k) >= 0
  {
    if k.pc.Creating? {
      ListedSize(k.pc);
      Product(|Subtasks(k.pc.groups)|, |Subtasks(k.pc.groups)|, Below(u, b, k));
    } else {
      Product(b, b, 1 + Below(u, b, k));
    }
    hide CreatingOk, Listed, Subtasks;
  }

  /** Any step but Spawn brings the acting worker nearer to its end. */
  lemma ActedLess(u: Setup, b: nat, s: State, e: Event)
    requires Inv(u, s) && Enabled(u, s, e) && !e.Cancel? && !e.Spawn? && Modest(b, e)
    ensures Left(u, b, Acted(u, s, e)) < Left(u, b, s.workers[e.w])
  {
    hide Inv, WorkerOk, CreatingOk, Listed, Subtasks, Valid, Makes, Params;
    var k := s.workers[e.w];
    WorkerKnown(u, s, e.w);
    LeftNonNegative(u, b, s.made, e.w, k);
    DepthKnown(u, s, e.w);
    if e.Answer? && e.reply.Some? { Product(|Subtasks(e.reply.value.groups)|, b, Below(u, b, k)); }
    Product(b, b, 1 + Below(u, b, k));
    if k.pc.Creating? {
      CreatingSize(u, s, e.w);
      Product(|Subtasks(k.pc.groups)|, |Subtasks(k.pc.groups)|, Below(u, b, k));
    }
  }

  lemma CreatingSize(u: Setup, s: State, w: Id)
    requires Inv(u, s) && w in s.workers && s.workers[w].pc.Creating?
    ensures |s.workers[w].pc.all| <= |Subtasks(s.workers[w].pc.groups)|
    ensures s.workers[w].pc.g == |s.workers[w].pc.groups| ==>
            |s.workers[w].pc.all| == |Subtasks(s.workers[w].pc.groups)|
  {
    WorkerKnown(u, s, w);
    ListedSize(s.workers[w].pc);
  }

  lemma DepthKnown(u: Setup, s: State, w: Id)
    requires Inv(u, s) && w in s.workers
    ensures s.workers[w].depth <= u.config.maxDepth
    ensures !s.workers[w].pc.Entered? && !s.workers[w].pc.Returned? ==> s.workers[w].depth < u.config.maxDepth
  {
    WorkerKnown(u, s, w);
    hide Inv, CreatingOk, Listed;
  }

  /** Starting workers for the subtasks uses up what their parent had set aside for them. */
  lemma SpawnLess(u: Setup, b: nat, s: State, e: Event)
    requires Inv(u, s) && Enabled(u, s, e) && e.Spawn?
    ensures Left(u, b, Acted(u, s, e)) + |Started(s, e)| * Below(u, b, s.workers[e.w]) < Left(u, b, s.workers[e.w])
    ensures forall w | w in Started(s, e) :: Left(u, b, Started(s, e)[w]) == Below(u, b, s.workers[e.w])
  {
    hide Inv, Subtasks, ToSplit;
    var k := s.workers[e.w];
    DepthKnown(u, s, e.w);
    CreatingSize(u, s, e.w);
    StartedSize(k.pc.all, k.depth + 1);
    Product(|Started(s, e)|, |Subtasks(k.pc.groups)|, Below(u, b, k));
  }

  lemma StartedSize(all: seq<Created>, depth: nat)
    ensures |StartAll(ToSplit(all), depth)| <= |all|
  {
    ToSplitSize(all);
    ListSize(ToSplit(all));
    var m := StartAll(ToSplit(all), depth);
    assert m.Keys == Elements(ToSplit(all));
    assert |m| == |m.Keys|;
  }

  lemma {:induction false} ListSize(q: seq<Id>)
    ensures |Elements(q)| <= |q|
  {
    if q != [] {
      var n := |q| - 1;
      ListSize(q[..n]);
      assert q == q[..n] + [q[n]];
      assert Elements(q) == Elements(q[..n]) + {q[n]};
    }
  }

  lemma CostsSplit(u: Setup, b: nat, workers: map<Id, Worker>, w: Id, k: Worker, more: map<Id, Worker>)
    requires w in workers
    ensures Costs(u, b, workers[w := k] + more) == Costs(u, b, workers)[w := Left(u, b, k)] + Costs(u, b, more)
  {
    hide Left;
  }

  lemma CostsOf(u: Setup, b: nat, workers: map<Id, Worker>)
    ensures var c := Costs(u, b, workers);
            c.Keys == workers.Keys && |c| == |workers| && forall w | w in workers :: c[w] == Left(u, b, workers[w])
  {
    hide Left;
    var c := Costs(u, b, workers);
    assert |c| == |c.Keys| && |workers| == |workers.Keys|;
  }

  lemma CostsMove(u: Setup, b: nat, workers: map<Id, Worker>, w: Id, k: Worker, more: map<Id, Worker>, n: int)
    requires w in workers && more.Keys !! workers.Keys && forall v | v in more :: Left(u, b, more[v]) == n
    ensures Sum(Costs(u, b, workers[w := k] + more))
            == Sum(Costs(u, b, workers)) - Left(u, b, workers[w]) + Left(u, b, k) + |more| * n
  {
    hide Left, Sum, Costs;
    var c, d := Costs(u, b, workers), Costs(u, b, more);
    CostsSplit(u, b, workers, w, k, more);
    CostsOf(u, b, more);
    CostsOf(u, b, workers);
    SumUpdate(c, w, Left(u, b, k));
    SumMore(c[w := Left(u, b, k)], d, n);
  }

  /** Every step but a cancellation uses up part of what is left to do. */
  lemma StepUses(u: Setup, b: nat, s: State, e: Event)
    requires Inv(u, s) && Enabled(u, s, e) && Modest(b, e)
    ensures Total(u, b, Apply(u, s, e)) <= Total(u, b, s) - if e.Cancel? then 0 else 1
  {
    if !e.Cancel? {
      hide Inv, Acted, Started, Left, Below, Costs, Sum, MadeBy, Makes, Modest;
      StartedAreNew(u, s, e);
      if e.Spawn? { SpawnLess(u, b, s, e); } else { ActedLess(u, b, s, e); NoneStarted(s, e); }
      CostsMove(u, b, s.workers, e.w, Acted(u, s, e), Started(s, e),
          if e.Spawn? then Below(u, b, s.workers[e.w]) else 0);
    }
  }

  lemma NoneStarted(s: State, e: Event)
    requires !e.Spawn?
    ensures Started(s, e) == map[]
  {
  }

  ghost function CountSteps(events: seq<Event>): nat {
    if events == [] then 0
    else CountSteps(events[..|events| - 1]) + if events[|events| - 1].Cancel? then 0 else 1
  }

  lemma {:induction false} RunUses(u: Setup, b: nat, states: seq<State>, events: seq<Event>, n: nat)
    requires IsRun(u, states, events) && n <= |events| && forall i | 0 <= i < |events| :: Modest(b, events[i])
    ensures Total(u, b, states[n]) + CountSteps(events[..n]) <= Total(u, b, states[0])
    decreases n
  {
    hide Init, Inv, Enabled, Apply, Total, Modest;
    if n > 0 {
      RunUses(u, b, states, events, n - 1);
      RunKeepsInv(u, states, events, n - 1);
      StepUses(u, b, states[n - 1], events[n - 1]);
      assert events[..n][..n - 1] == events[..n - 1];
      assert Apply(u, states[n - 1], events[n - 1]) == states[n];
    }
  }

  lemma TotalNonNegative(u: Setup, b: nat, s: State)
    requires Inv(u, s)
    ensures Total(u, b, s) >= 0
  {
    hide Inv, Left, Sum, WorkerOk;
    var c := Costs(u, b, s.workers);
    forall w | w in c ensures c[w] >= 0 {
      WorkerKnown(u, s, w);
      LeftNonNegative(u, b, s.made, w, s.workers[w]);
    }
    SumNonNegative(c);
  }

  lemma FirstTotal(u: Setup, b: nat, s: State)
    requires Init(u, s)
    ensures Total(u, b, s) == Budget(b, u.config.maxDepth)
  {
    hide Budget;
    var c := Costs(u, b, s.workers);
    assert c.Keys == {u.root};
    SumWithout(c, u.root);
    assert (c - {u.root}).Keys == {};
  }

  /** No run has more steps than the budget of its root, so every run ends, if replies have at
      most b subtasks each. Until Run has returned there always is a next step. */
  lemma RunsEnd(u: Setup, b: nat, states: seq<State>, events: seq<Event>)
    requires IsRun(u, states, events) && forall i | 0 <= i < |events| :: Modest(b, events[i])
    ensures CountSteps(events) <= Budget(b, u.config.maxDepth)
  {
    RunUses(u, b, states, events, |events|);
    RunKeepsInv(u, states, events, |events|);
    TotalNonNegative(u, b, states[|events|]);
    FirstTotal(u, b, states[0]);
    assert events[..|events|] == events;
  }
}
