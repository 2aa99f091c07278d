/** The engine's own methods, each one atomic step on its tables and maps. */
module JobEngine {
  import opened StateMachine
  import opened Engine
  import opened EngineInvariant

  /** The summary counts the statuses. */
  predicate Tallied(s: Summary, statuses: seq<Status>) {
    && s.total == |statuses|
    && s.pending == multiset(statuses)[Pending] && s.running == multiset(statuses)[Running]
    && s.success == multiset(statuses)[Success] && s.failed == multiset(statuses)[Failed]
    && s.timeout == multiset(statuses)[Timeout] && s.cancelled == multiset(statuses)[Cancelled]
    && s.lost == multiset(statuses)[Lost] && s.skipped == multiset(statuses)[Skipped]
  }

  datatype StartError = EmptyTargets | EmptyCommand | Ok

  class JobEngine {
    var targets: map<TargetId, TargetRow>
    var runs: map<RunId, RunRow>
    var starting: map<RunId, nat>
    var live: map<RunId, LiveRun>
    var up: bool
    ghost var cancelRequested: set<RunId>
    ghost var oddResult: set<RunId>

    ghost function View(): Sys
      reads this
    {
      Sys(targets, runs, starting, live, up, cancelRequested, oddResult)
    }

    constructor ()
      ensures View() == INITIAL
    {
      targets, runs, starting, live, up := map[], map[], map[], map[], false;
      cancelRequested, oddResult := {}, {};
    }

    /** StartRun up to the insert: validate, then persist the run and its
        targets in one transaction.  run and ids are freshly generated. */
    method StartRun(run: RunId, ids: seq<TargetId>, command: string, concurrency: int) returns (err: StartError)
      requires up && run !in runs && Distinct(ids) && forall i :: 0 <= i < |ids| ==> ids[i] !in targets
      modifies this
      ensures err == if ids == [] then EmptyTargets else if command == "" then EmptyCommand else Ok
      ensures err != Ok ==> View() == old(View())
      ensures err == Ok ==> Enabled(old(View()), InsertRun(run, ids, if concurrency <= 0 then 5 else concurrency))
                            && View() == Apply(old(View()),
                              InsertRun(run, ids, if concurrency <= 0 then 5 else concurrency))
      ensures err == Ok ==>
                && run in runs && runs[run].targets == ids && runs[run].status == Pending && !runs[run].ended
                && runs[run].summary == Summary(|ids|, |ids|, 0, 0, 0, 0, 0, 0, 0)
                && (forall i :: 0 <= i < |ids| ==> ids[i] in targets && targets[ids[i]] == TargetRow(run, Pending))
                && starting == old(starting)[run := if concurrency <= 0 then 5 else concurrency]
                && (forall t :: t in old(targets) ==> t in targets && targets[t] == old(targets)[t])
    {
      if |ids| == 0 {
        return EmptyTargets;
      }
      if command == "" {
        return EmptyCommand;
      }
      var limit := if concurrency <= 0 then 5 else concurrency;
      var summary := Summary(|ids|, |ids|, 0, 0, 0, 0, 0, 0, 0);
      runs := runs[run := RunRow(ids, Pending, summary, false)];
      targets := targets + map t | t in ids :: TargetRow(run, Pending);
      starting := starting[run := limit];
      return Ok;
    }

    /** The rest of StartRun: register the live run and launch execute. */
    method Launch(run: RunId)
      requires Enabled(View(), Register(run))
      modifies this
      ensures View() == Apply(old(View()), Register(run))
    {
      live := live[run := LiveRun(false, starting[run], false, seq(|runs[run].targets|, i => Waiting))];
      starting := starting - {run};
    }

    /** execute's first write, under the run's context. */
    method SetRunning(run: RunId)
      requires Enabled(View(), Announce(run))
      modifies this
      ensures View() == Apply(old(View()), Announce(run))
      ensures var n := |old(live)[run].workers|;
              runs == if old(live)[run].cancelled then old(runs)
                      else old(runs)[run := old(runs)[run].(status := Running,
                        summary := Summary(n, 0, n, 0, 0, 0, 0, 0, 0))]
    {
      var n := |live[run].workers|;
      if !live[run].cancelled {
        runs := runs[run := runs[run].(status := Running, summary := Summary(n, 0, n, 0, 0, 0, 0, 0, 0))];
      }
      live := live[run := live[run].(announced := true)];
    }

    /** The guarded transition used by markRunning. */
    method TransitionTarget(id: TargetId, from: Status, to: Status)
      requires id in targets
      modifies this`targets
      ensures targets == Written(old(targets), id, to)
      ensures targets == if || (old(targets)[id].status == Pending && to in {Running, Cancelled, Skipped, Lost})
                            || (old(targets)[id].status == Running && to in {Success, Failed, Timeout, Cancelled, Lost})
                         then old(targets)[id := old(targets)[id].(status := to)] else old(targets)
    {
      Edges(targets[id].status, to);
      var cur := targets[id].status;
      if cur != from {
        if Terminal(cur) {
          return;
        }
      }
      if !CanTransition(cur, to) {
        return;
      }
      targets := targets[id := targets[id].(status := to)];
    }

    method TakeSlot(run: RunId, i: nat)
      requires Enabled(View(), Action.Acquire(run, i))
      modifies this
      ensures View() == Apply(old(View()), Action.Acquire(run, i))
    {
      live := live[run := live[run].(workers := live[run].workers[i := Acquired])];
    }

    /** markRunning, under the background context. */
    method BeginTarget(run: RunId, i: nat)
      requires Enabled(View(), MarkRunning(run, i))
      modifies this
      ensures View() == Apply(old(View()), MarkRunning(run, i))
    {
      TransitionTarget(runs[run].targets[i], Pending, Running);
      live := live[run := live[run].(workers := live[run].workers[i := Executing])];
    }

    /** persistTargetResult: refused when the run's context is cancelled, and
        ignored off the edges of the status machine. */
    method PersistResult(run: RunId, id: TargetId, result: Status)
      requires run in live && id in targets
      modifies this`targets
      ensures targets == if live[run].cancelled then old(targets) else Written(old(targets), id, result)
      ensures old(targets)[id].status == Running ==>
                targets == if !live[run].cancelled && result in {Success, Failed, Timeout, Cancelled, Lost}
                           then old(targets)[id := old(targets)[id].(status := result)] else old(targets)
      ensures old(targets)[id].status == Pending ==>
                targets == if !live[run].cancelled && result in {Running, Cancelled, Skipped, Lost}
                           then old(targets)[id := old(targets)[id].(status := result)] else old(targets)
      ensures Terminal(old(targets)[id].status) ==> targets == old(targets)
    {
      Edges(targets[id].status, result);
      if live[run].cancelled {
        return;
      }
      var cur := targets[id].status;
      if !CanTransition(cur, result) {
        return;
      }
      targets := targets[id := targets[id].(status := result)];
    }

    /** A goroutine whose context ended before it got a slot. */
    method AbandonTarget(run: RunId, i: nat)
      requires Enabled(View(), GiveUp(run, i))
      modifies this
      ensures View() == Apply(old(View()), GiveUp(run, i))
    {
      PersistResult(run, runs[run].targets[i], Cancelled);
      live := live[run := live[run].(workers := live[run].workers[i := Done(Cancelled)])];
    }

    method EndTarget(run: RunId, i: nat, result: Status)
      requires Enabled(View(), Finish(run, i, result))
      modifies this
      ensures View() == Apply(old(View()), Finish(run, i, result))
    {
      PersistResult(run, runs[run].targets[i], result);
      live := live[run := live[run].(workers := live[run].workers[i := Returning(result)])];
      if !CanTransition(Running, result) {
        oddResult := oddResult + {run};
      }
    }

    /** runOne returns, and the slot is released. */
    method LeaveSlot(run: RunId, i: nat)
      requires Enabled(View(), Return(run, i))
      modifies this
      ensures View() == Apply(old(View()), Return(run, i))
    {
      live := live[run := live[run].(workers := live[run].workers[i := Done(live[run].workers[i].result)])];
    }

    /** The end of execute, after all goroutines have returned. */
    method EndRun(run: RunId)
      requires Enabled(View(), FinishRun(run))
      modifies this
      ensures View() == Apply(old(View()), FinishRun(run))
      ensures var st := Results(old(live)[run].workers);
              && run in runs && run !in live && runs[run].ended && runs[run].targets == old(runs)[run].targets
              && runs[run].status == Worst(st) && Tallied(runs[run].summary, st)
    {
      var statuses := Results(live[run].workers);
      var agg := Aggregate(statuses);
      var summary := Summarise(statuses);
      runs := runs[run := runs[run].(status := agg, summary := summary, ended := true)];
      live := live - {run};
    }

    /** CancelRun, first half: cancel the context of a live run. */
    method CancelContext(run: RunId)
      requires up
      modifies this
      ensures View() == Apply(old(View()), Cancel(run))
    {
      if run in live {
        live := live[run := live[run].(cancelled := true)];
      }
      cancelRequested := cancelRequested + {run};
    }

    /** CancelRun, second half, for one row of the run. */
    method CancelPending(id: TargetId)
      requires Enabled(View(), CancelTarget(id))
      modifies this
      ensures View() == Apply(old(View()), CancelTarget(id))
    {
      if targets[id].status == Pending {
        targets := targets[id := targets[id].(status := Cancelled)];
      }
    }

    /** Open targets no live run owns. */
    function Orphans(): set<TargetId>
      reads this
    {
      set t | t in targets && !Terminal(targets[t].status) && targets[t].run !in live
    }

    /** Reconcile: mark every orphan lost, then recompute the runs owning a lost
        target.  Returns how many targets it marked. */
    method Reconcile() returns (n: nat)
      requires Linked(View())
      modifies this
      ensures n == |old(Orphans())|
      ensures var lost := MarkLost(old(targets), old(Orphans()));
              View() == Reconciled(old(View()), old(Orphans()), LostRuns(lost))
    {
      hide Recomputed, LostRuns, Linked, MarkLost;
      ghost var before, orphans := View(), Orphans();
      n := MarkOrphans();
      RecomputeRuns(before, orphans);
    }

    /** The first loop of Reconcile, over the open rows. */
    method MarkOrphans() returns (n: nat)
      modifies this`targets
      ensures targets == MarkLost(old(targets), old(Orphans())) && n == |old(Orphans())|
    {
      hide MarkLost;
      var open := set t | t in targets && targets[t].status in {Pending, Running};
      ghost var rows, orphans := targets, Orphans();
      ghost var marked: set<TargetId> := {};
      MarkNone(rows);
      OpenStatuses();
      n := 0;
      while open != {}
        invariant targets == MarkLost(rows, marked) && n == |marked|
        invariant targets.Keys == rows.Keys && forall t :: t in rows ==> targets[t].run == rows[t].run
        invariant open <= rows.Keys && marked !! open && marked <= orphans
        invariant forall t :: t in orphans ==> t in marked || t in open
        invariant forall t :: t in open && rows[t].run !in live ==> t in orphans
        decreases open
      {
        var t :| t in open;
        open := open - {t};
        if targets[t].run in live {
          continue;
        }
        MarkOne(rows, marked, t);
        targets := targets[t := targets[t].(status := Lost)];
        n := n + 1;
        marked := marked + {t};
      }
      assert marked == orphans;
    }

    /** The second loop of Reconcile, over the runs owning a lost row. */
    method RecomputeRuns(ghost before: Sys, ghost orphans: set<TargetId>)
      requires Linked(before) && View() == before.(targets := MarkLost(before.targets, orphans))
      modifies this`runs
      ensures View() == Reconciled(before, orphans, LostRuns(targets))
    {
      hide LostRuns, Recomputed, MarkLost, Linked;
      var pending := LostRuns(targets);
      ghost var done: set<RunId> := {};
      while pending != {}
        invariant done + pending == LostRuns(targets) && done !! pending
        invariant runs.Keys == before.runs.Keys
        invariant forall r :: r in runs ==>
          runs[r] == if r in done then Recomputed(targets, before.runs[r]) else before.runs[r]
        decreases pending
      {
        var r :| r in pending;
        pending := pending - {r};
        done := done + {r};
        if r in runs {
          MarkLostOwns(before, orphans, r);
          RecomputedIs(targets, r, runs[r]);
          var states := Statuses(targets, runs[r].targets);
          var agg := Aggregate(states);
          if Terminal(agg) {
            var summary := Summarise(states);
            runs := runs[r := RunRow(runs[r].targets, agg, summary, true)];
          }
        }
      }
      assert done == LostRuns(targets);
    }

    /** The boot sequence: memory is empty, so every open target is an orphan. */
    method BootUp() returns (n: nat)
      requires Inv(View()) && !up
      modifies this
      ensures n == |Open(old(View()))|
      ensures View() == Apply(old(View()), Boot)
    {
      assert Orphans() == Open(View());
      n := Reconcile();
      up := true;
    }

    /** Losing the process loses everything but the tables. */
    method Stop()
      modifies this
      ensures View() == Apply(old(View()), Crash)
    {
      starting, live, up := map[], map[], false;
    }
  }

  lemma OpenStatuses()
    ensures forall st: Status :: Terminal(st) <==> st !in {Pending, Running}
  {
    forall st: Status ensures Terminal(st) <==> st !in {Pending, Running} {
      match st {
        case Pending => case Running => case Success => case Failed =>
        case Timeout => case Cancelled => case Lost => case Skipped =>
      }
    }
  }

  lemma MarkNone(rows: map<TargetId, TargetRow>)
    ensures MarkLost(rows, {}) == rows
  {
  }

  lemma MarkOne(rows: map<TargetId, TargetRow>, marked: set<TargetId>, t: TargetId)
    requires t in rows
    ensures t in MarkLost(rows, marked) && MarkLost(rows, marked)[t].run == rows[t].run
    ensures MarkLost(rows, marked + {t}) == MarkLost(rows, marked)[t := MarkLost(rows, marked)[t].(status := Lost)]
  {
  }

  lemma RecomputedIs(targets: map<TargetId, TargetRow>, r: RunId, row: RunRow)
    requires Owns(targets, r, row.targets)
    ensures var sts := Statuses(targets, row.targets);
            Recomputed(targets, row)
            == if Terminal(RunStatus(sts)) then RunRow(row.targets, RunStatus(sts), Counts(sts), true) else row
  {
  }
}
