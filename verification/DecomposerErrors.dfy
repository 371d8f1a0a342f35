/** What each step of a worker of the decomposition engine leads to, and when Run reports an
    error: exactly if something went wrong that is an error. */
module DecomposerErrors {
  import opened Domain
  import opened Sequences
  import opened Lifecycle
  import opened Replies
  import opened Decomposer

  /** The call ends its prompt without an answer: it failed for good, or for the fourth time. */
  predicate CallLost(pc: Pc, transient: bool) { pc.Calling? && (!transient || pc.attempt >= 3) }

  /** The events that are errors: cancelled before the work began; the first prompt given up or
      unanswered; a creation that did not come back. Losing the corrective prompt is none. */
  ghost predicate Errs(u: Setup, s: State, e: Event)
    requires Enabled(u, s, e)
  {
    match e
    case Enter(w) => s.workers[w].depth < u.config.maxDepth && s.cancelled
    case GiveUp(w) => !s.workers[w].pc.corrective
    case CallFails(w, transient) => !s.workers[w].pc.corrective && CallLost(s.workers[w].pc, transient)
    case Create(_, _, now, outcome) => outcome != Success || CreateCheck(s.db, Params(u, s, e), now).Some?
    case _ => false
  }

  /** Where a step leaves the worker that takes it. */
  lemma StepLeads(u: Setup, s: State, e: Event)
    requires Inv(u, s) && Enabled(u, s, e) && !e.Cancel?
    ensures var pc, next := s.workers[e.w].pc, Apply(u, s, e).workers[e.w].pc;
            match e
            case Enter(w) =>
              next == if s.workers[w].depth >= u.config.maxDepth then Returned(false)
                      else if s.cancelled then Returned(true) else Waiting(0, false)
            case Acquire(_) => next == Calling(pc.attempt, pc.corrective)
            case GiveUp(_) => next == Returned(!pc.corrective)
            case Answer(_, reply) =>
              if reply.Some? && Valid(reply.value) then
                if reply.value.terminal == Some(true) then next == Returned(false)
                else next == Creating(reply.value.groups, 0, 0, [], [], [])
              else if pc.corrective then next == Returned(false)
              else next == Waiting(0, true)
            case CallFails(_, transient) =>
              if CallLost(pc, transient) then next == Returned(!pc.corrective)
              else next == Waiting(pc.attempt + 1, pc.corrective)
            case Create(_, _, _, _) => next.Returned? ==> next.failed
            case Spawn(_) =>
              next.Joining?
              && forall id :: id in next.children <==> exists c | c in pc.all :: !c.subtask.terminal && c.id == id
            case Join(_) => next == Returned(exists c | c in pc.children :: s.workers[c].pc.failed)
    ensures Errs(u, s, e) ==> Apply(u, s, e).workers[e.w].pc == Returned(true)
    ensures !Errs(u, s, e) && !e.Join? ==> Apply(u, s, e).workers[e.w].pc != Returned(true)
  {
    hide Inv, Valid, Params, CreateCheck, MadeBy, StartAll, Started, ToSplit;
    StepMovesOne(u, s, e);
    if e.Spawn? { assert Acted(u, s, e).pc.children == ToSplit(s.workers[e.w].pc.all); }
  }

  ghost predicate SomeFailed(s: State) { exists w :: w in s.workers && s.workers[w].pc == Returned(true) }

  /** A failed worker stays failed, and a worker fails by an error or because one it waited for
      had failed. */
  lemma FailsOnlyByError(u: Setup, s: State, e: Event)
    requires Inv(u, s) && Enabled(u, s, e)
    ensures SomeFailed(Apply(u, s, e)) <==> SomeFailed(s) || Errs(u, s, e)
  {
    hide Inv, Apply, Errs, Acted, Started;
    var t := Apply(u, s, e);
    StepMovesOne(u, s, e);
    StartedFresh(u, s, e);
    if !e.Cancel? { StepLeads(u, s, e); ActorRuns(u, s, e); }
    if SomeFailed(s) {
      var w :| w in s.workers && s.workers[w].pc == Returned(true);
      assert t.workers[w].pc == Returned(true);
    }
    if Errs(u, s, e) { ErrsActs(u, s, e); assert t.workers[e.w].pc == Returned(true); }
    if SomeFailed(t) {
      var w :| w in t.workers && t.workers[w].pc == Returned(true);
      if !e.Cancel? && w == e.w && e.Join? {
        var c :| c in s.workers[e.w].pc.children && s.workers[c].pc.failed;
        assert s.workers[c].pc == Returned(true);
      }
    }
  }

  /** A worker that acts has not returned, and one that joins waits for workers that have. */
  lemma ActorRuns(u: Setup, s: State, e: Event)
    requires Enabled(u, s, e) && !e.Cancel?
    ensures e.w in s.workers && !s.workers[e.w].pc.Returned?
    ensures e.Join? ==> forall c | c in s.workers[e.w].pc.children :: c in s.workers && s.workers[c].pc.Returned?
  {
  }

  lemma ErrsActs(u: Setup, s: State, e: Event)
    requires Enabled(u, s, e) && Errs(u, s, e)
    ensures !e.Cancel? && !e.Join?
  {
  }

  lemma StartedFresh(u: Setup, s: State, e: Event)
    requires Inv(u, s) && Enabled(u, s, e)
    ensures var t := Apply(u, s, e); forall w | w in t.workers && w !in s.workers :: t.workers[w].pc.Entered?
  {
    hide Inv, Acted, MadeBy, Makes;
  }

  /** Some step of the run so far was an error. */
  ghost predicate Erred(u: Setup, states: seq<State>, events: seq<Event>, n: nat)
    requires IsRun(u, states, events) && n <= |events|
  {
    exists i :: 0 <= i < n && Enabled(u, states[i], events[i]) && Errs(u, states[i], events[i])
  }

  lemma {:induction false} FailedIffErred(u: Setup, states: seq<State>, events: seq<Event>, n: nat)
    requires IsRun(u, states, events) && n <= |events|
    ensures SomeFailed(states[n]) <==> Erred(u, states, events, n)
    decreases n
  {
    hide Init, Inv, Enabled, Apply, Errs, SomeFailed;
    if n == 0 {
      NoneFailedYet(u, states[0]);
    } else {
      FailedIffErred(u, states, events, n - 1);
      RunKeepsInv(u, states, events, n - 1);
      assert Enabled(u, states[n - 1], events[n - 1]) && Apply(u, states[n - 1], events[n - 1]) == states[n];
      FailsOnlyByError(u, states[n - 1], events[n - 1]);
    }
  }

  lemma NoneFailedYet(u: Setup, s: State)
    requires Init(u, s)
    ensures !SomeFailed(s)
  {
  }

  /** Over every run: when Run returns, it reports an error if and only if some step was one. */
  lemma RunReportsErrorIff(u: Setup, states: seq<State>, events: seq<Event>, n: nat)
    requires IsRun(u, states, events) && n <= |events|
    requires u.root in states[n].workers && states[n].workers[u.root].pc.Returned?
    ensures states[n].workers[u.root].pc.failed <==> Erred(u, states, events, n)
  {
    hide Init, Inv, Enabled, Apply, Errs, Erred;
    FailedIffErred(u, states, events, n);
    RunKeepsInv(u, states, events, n);
    if SomeFailed(states[n]) {
      var w :| w in states[n].workers && states[n].workers[w].pc == Returned(true);
      AllReturned(u, states[n], w);
    }
  }
}
