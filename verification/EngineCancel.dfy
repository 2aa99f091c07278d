/** What a cancel reaches: the exact conditions, over every run of the system. */
module EngineCancel {
  import opened StateMachine
  import opened Engine
  import opened EngineInvariant

  /** No goroutine of the run writes results any more. */
  predicate Stopped(s: Sys, r: RunId) {
    r in s.runs && r !in s.starting && (r in s.live ==> s.live[r].cancelled)
  }

  predicate Reconciles(a: Action) {
    a.PartialReconcile? || a.Boot?
  }

  predicate NoReconcile(actions: seq<Action>, i: nat, j: nat)
    requires j <= |actions|
  {
    forall k :: i <= k < j ==> !Reconciles(actions[k])
  }

  predicate RowIs(s: Sys, t: TargetId, r: RunId, st: Status) {
    t in s.targets && s.targets[t] == TargetRow(r, st)
  }

  // ----- rows of a stopped run

  /** A stopped run stays stopped, and a running row of it stays running. */
  lemma StoppedStep(s: Sys, a: Action, r: RunId, t: TargetId)
    requires Inv(s) && Enabled(s, a) && Stopped(s, r) && !Reconciles(a)
    ensures Stopped(Apply(s, a), r)
    ensures RowIs(s, t, r, Running) ==> RowIs(Apply(s, a), t, r, Running)
  {
    NotStartedAgain(s, a, r);
    if r in Apply(s, a).live {
      ContextStep(s, a, r);
    }
    if RowIs(s, t, r, Running) {
      if a.Finish? || a.MarkRunning? {
        OwnRow(s, a.run, a.i);
      }
      RunningRowKept(s, a, r, t);
    }
    hide Apply, Enabled, Inv;
  }

  lemma RunningRowKept(s: Sys, a: Action, r: RunId, t: TargetId)
    requires Enabled(s, a) && Stopped(s, r) && !Reconciles(a) && RowIs(s, t, r, Running)
    requires a.Finish? || a.MarkRunning? ==> s.targets[s.runs[a.run].targets[a.i]].run == a.run
    ensures RowIs(Apply(s, a), t, r, Running)
  {
    hide Counts, RunStatus, Busy, Statuses, Results, AllDone, Distinct, Reconciled, Open;
  }

  lemma {:induction false} StaysRunning(states: seq<Sys>, actions: seq<Action>, i: nat, j: nat, r: RunId, t: TargetId)
    requires Trace(states, actions) && states[0] == INITIAL && i <= j < |states| && NoReconcile(actions, i, j)
    requires Stopped(states[i], r)
    ensures Stopped(states[j], r)
    ensures RowIs(states[i], t, r, Running) ==> RowIs(states[j], t, r, Running)
    decreases j
  {
    hide Enabled, Apply, Inv, Stopped;
    if i == j {
    } else {
      StaysRunning(states, actions, i, j - 1, r, t);
      ReachableInv(states, actions, j - 1);
      StoppedStep(states[j - 1], actions[j - 1], r, t);
    }
  }

  /** Cancelling a run stops it exactly when it is not between its insert and its
      registration; its context is reached exactly when it is live. */
  lemma CancelStops(s: Sys, r: RunId)
    requires Inv(s) && Enabled(s, Cancel(r)) && r in s.runs
    ensures Stopped(Apply(s, Cancel(r)), r) <==> r !in s.starting
    ensures r in Apply(s, Cancel(r)).live && Apply(s, Cancel(r)).live[r].cancelled <==> r in s.live
  {
  }

  /** Where a cancelled run's row ends up.  The run was registered or over when
      CancelRun cancelled it, CancelRun's loop then reaches the row, and until the
      next reconciliation the row is closed exactly when it was not running at that
      moment: a pending row becomes cancelled, a running one stays running, and a
      closed one is as it was. */
  lemma CancelledRow(states: seq<Sys>, actions: seq<Action>, c: nat, i: nat, j: nat, r: RunId, t: TargetId)
    requires Trace(states, actions) && states[0] == INITIAL && c < i < j < |states| && NoReconcile(actions, c, j)
    requires actions[c] == Cancel(r) && r in states[c].runs && r !in states[c].starting
    requires actions[i] == CancelTarget(t) && t in states[i].targets && states[i].targets[t].run == r
    ensures t in states[j].targets
    ensures Terminal(states[j].targets[t].status) <==> states[i].targets[t].status != Running
    ensures states[j].targets[t].status
            == if states[i].targets[t].status == Pending then Cancelled else states[i].targets[t].status
  {
    hide Enabled, Inv, Stopped;
    ReachableInv(states, actions, c);
    assert Enabled(states[c], actions[c]);
    CancelStops(states[c], r);
    hide Apply;
    StaysRunning(states, actions, c + 1, i, r, t);
    assert Enabled(states[i], actions[i]) && states[i + 1] == Apply(states[i], CancelTarget(t));
    CancelTargetEffect(states[i], t);
    StaysRunning(states, actions, i, j, r, t);
    TerminalForever(states, actions, i + 1, j, t);
    RunningIsOpen(states[i].targets[t].status);
  }

  lemma CancelTargetEffect(s: Sys, t: TargetId)
    requires Enabled(s, CancelTarget(t))
    ensures var s' := Apply(s, CancelTarget(t));
            t in s.targets && t in s'.targets
            && s'.targets[t] == if s.targets[t].status == Pending then s.targets[t].(status := Cancelled)
              else s.targets[t]
  {
  }

  lemma RunningIsOpen(st: Status)
    ensures Terminal(st) <==> st != Running && st != Pending
  {
    match st {
      case Pending => case Running => case Success => case Failed =>
      case Timeout => case Cancelled => case Lost => case Skipped =>
    }
  }

  // ----- contexts

  /** A run that has been registered, or lost before it was, is never registered again. */
  lemma {:induction false} NeverAgain(states: seq<Sys>, actions: seq<Action>, i: nat, j: nat, r: RunId)
    requires Trace(states, actions) && i <= j < |states| && r in states[i].runs && r !in states[i].starting
    ensures r in states[j].runs && r !in states[j].starting
    decreases j
  {
    hide Enabled, Apply;
    if i == j {
    } else {
      NeverAgain(states, actions, i, j - 1, r);
      assert Enabled(states[j - 1], actions[j - 1]) && states[j] == Apply(states[j - 1], actions[j - 1]);
      NotStartedAgain(states[j - 1], actions[j - 1], r);
    }
  }

  lemma NotStartedAgain(s: Sys, a: Action, r: RunId)
    requires Enabled(s, a) && r in s.runs && r !in s.starting
    ensures r in Apply(s, a).runs && r !in Apply(s, a).starting
  {
    hide Counts, RunStatus, Busy, Recomputed, LostRuns, MarkLost, Statuses;
  }

  lemma ContextStep(s: Sys, a: Action, r: RunId)
    requires (r in s.live ==> r !in s.starting) && Enabled(s, a) && r in Apply(s, a).live
    ensures r in s.live ==> (Apply(s, a).live[r].cancelled <==> s.live[r].cancelled || a == Cancel(r))
    ensures r !in s.live ==> r in s.starting && !Apply(s, a).live[r].cancelled
  {
    hide Counts, RunStatus, Busy, Recomputed, LostRuns, MarkLost, Statuses;
  }

  /** A live run's context is cancelled exactly when some cancel came while it was
      live: a cancel that came before its registration never reaches it. */
  lemma {:induction false} ContextCancelledExactly(states: seq<Sys>, actions: seq<Action>, j: nat, r: RunId)
    requires Trace(states, actions) && states[0] == INITIAL && j < |states| && r in states[j].live
    ensures states[j].live[r].cancelled <==> exists k :: 0 <= k < j && CancelReaches(states, actions, k, r)
    decreases j
  {
    hide Enabled, Apply, Inv;
    if j == 0 {
    } else {
      var s, a := states[j - 1], actions[j - 1];
      assert Enabled(s, a) && states[j] == Apply(s, a);
      ReachableInv(states, actions, j - 1);
      if r in s.live {
        LiveIsRegistered(s, r);
      }
      ContextStep(s, a, r);
      if r in s.live {
        ContextCancelledExactly(states, actions, j - 1, r);
        assert CancelReaches(states, actions, j - 1, r) <==> a == Cancel(r);
      } else {
        forall k | 0 <= k < j ensures !CancelReaches(states, actions, k, r) {
          ReachableInv(states, actions, k);
          if r in states[k].live {
            LiveIsRegistered(states[k], r);
            NeverAgain(states, actions, k, j - 1, r);
          }
        }
      }
    }
  }

  /** The k-th action cancels the context of r. */
  predicate CancelReaches(states: seq<Sys>, actions: seq<Action>, k: nat, r: RunId)
    requires k < |actions| && k < |states|
  {
    actions[k] == Cancel(r) && r in states[k].live
  }

  lemma LiveIsRegistered(s: Sys, r: RunId)
    requires Inv(s) && r in s.live
    ensures r in s.runs && r !in s.starting
  {
    assert Sound(s, r);
  }

  // ----- results

  /** What a row that was running can hold later. */
  predicate AfterRunning(st: Status) {
    st == Running || CanTransition(Running, st)
  }

  lemma {:induction false} NeverBack(states: seq<Sys>, actions: seq<Action>, i: nat, j: nat, t: TargetId)
    requires Trace(states, actions) && i <= j < |states| && t in states[i].targets &&
      AfterRunning(states[i].targets[t].status)
    ensures t in states[j].targets && AfterRunning(states[j].targets[t].status)
    decreases j
  {
    hide Enabled, Apply;
    if i == j {
    } else {
      NeverBack(states, actions, i, j - 1, t);
      StepIsLawful(states[j - 1], actions[j - 1]);
    }
  }

  /** The result of an executing target is in its row at every later moment, up to
      the next reconciliation, exactly when it is one of the five that follow
      "running" and no cancel had come while the run was live. */
  lemma FinishRecords(states: seq<Sys>, actions: seq<Action>, i: nat, j: nat, r: RunId, n: nat, t: TargetId,
      res: Status)
    requires Trace(states, actions) && states[0] == INITIAL && i < j < |states| && NoReconcile(actions, i, j)
    requires actions[i] == Finish(r, n, res) && res != Running
    requires HasWorker(states[i], r, n) && t == states[i].runs[r].targets[n] && states[i].targets[t].status == Running
    ensures t in states[j].targets
    ensures states[j].targets[t].status == res
       <==> res in {Success, Failed, Timeout, Cancelled, Lost} && forall k :: 0 <= k < i ==>
         !CancelReaches(states, actions, k, r)
  {
    hide Inv;
    var s := states[i];
    assert Enabled(s, actions[i]) && states[i + 1] == Apply(s, actions[i]);
    ReachableInv(states, actions, i);
    Edges(Running, res);
    OwnRow(s, r, n);
    ContextCancelledExactly(states, actions, i, r);
    NeverBack(states, actions, i, j, t);
    hide Enabled, Apply;
    if s.live[r].cancelled {
      LiveIsRegistered(s, r);
      StaysRunning(states, actions, i, j, r, t);
      assert RowIs(states[j], t, r, Running);
    } else if CanTransition(Running, res) {
      FinishEffect(s, r, n, res);
      TerminalForever(states, actions, i + 1, j, t);
    }
  }

  lemma OwnRow(s: Sys, r: RunId, n: nat)
    requires Inv(s) && HasWorker(s, r, n)
    ensures s.targets[s.runs[r].targets[n]].run == r
  {
    assert Owns(s.targets, r, s.runs[r].targets);
  }

  lemma FinishEffect(s: Sys, r: RunId, n: nat, res: Status)
    requires Enabled(s, Finish(r, n, res)) && !s.live[r].cancelled && CanTransition(Running, res)
    requires s.targets[s.runs[r].targets[n]].status == Running
    ensures var t := s.runs[r].targets[n];
            t in Apply(s, Finish(r, n, res)).targets && Apply(s, Finish(r, n, res)).targets[t].status == res &&
              Terminal(res)
  {
  }
}
