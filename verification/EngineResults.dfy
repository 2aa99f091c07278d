/** Main results about the job engine, and the claims that fail. */
module EngineResults {
  import opened StateMachine
  import opened Engine
  import opened EngineInvariant

  ghost predicate Reachable(s: Sys) {
    exists states, actions :: Trace(states, actions) && states[0] == INITIAL && states[|states| - 1] == s
  }

  lemma ReachableStep(s: Sys, a: Action)
    requires Reachable(s) && Enabled(s, a)
    ensures Reachable(Apply(s, a))
  {
    var states, actions :| Trace(states, actions) && states[0] == INITIAL && states[|states| - 1] == s;
    var states', actions' := states + [Apply(s, a)], actions + [a];
    hide Enabled, Apply;
    assert Trace(states', actions');
    assert states'[0] == INITIAL && states'[|states'| - 1] == Apply(s, a);
  }

  lemma ReachableStart()
    ensures Reachable(INITIAL)
  {
    assert Trace([INITIAL], []);
    assert [INITIAL][0] == INITIAL && [INITIAL][|[INITIAL]| - 1] == INITIAL;
  }

  lemma {:induction false} BusyCounts(workers: seq<Phase>)
    ensures Busy(workers) == |set i | 0 <= i < |workers| && InSlot(workers[i])|
  {
    var all := set i | 0 <= i < |workers| && InSlot(workers[i]);
    if workers == [] {
    } else {
      var n := |workers| - 1;
      var init := workers[..n];
      BusyCounts(init);
      var some := set i | 0 <= i < |init| && InSlot(init[i]);
      assert all == if InSlot(workers[n]) then some + {n} else some;
    }
  }

  /** In every reachable state: a run has no more targets inside runOne than its
      concurrency; and a run that was never cancelled, whose
      connector results follow the status machine, shows its goroutines' state
      in the database while it is live, and once ended holds the aggregate and
      the counts of its target rows, all of them closed. */
  lemma EveryReachableState(s: Sys)
    requires Reachable(s)
    ensures forall r :: r in s.live ==>
      |set i | 0 <= i < |s.live[r].workers| && InSlot(s.live[r].workers[i])| <= s.live[r].limit
    ensures forall r :: r in s.runs ==>
              Owns(s.targets, r, s.runs[r].targets)
              && (Undisturbed(s, r) ==>
                    (r in s.live ==> AllShown(s.live[r].workers, Statuses(s.targets, s.runs[r].targets)))
                    && (s.runs[r].ended ==> Settled(s.runs[r], Statuses(s.targets, s.runs[r].targets))))
  {
    hide AllShown, Settled, Busy, Statuses, Linked, Enabled, Apply;
    var states, actions :| Trace(states, actions) && states[0] == INITIAL && states[|states| - 1] == s;
    ReachableInv(states, actions, |states| - 1);
    forall r | r in s.live
      ensures |set i | 0 <= i < |s.live[r].workers| && InSlot(s.live[r].workers[i])| <= s.live[r].limit
    {
      assert Sound(s, r);
      BusyCounts(s.live[r].workers);
    }
    LinkedOwns(s);
    forall r | r in s.runs && Undisturbed(s, r) ensures Faithful(s, r) {
    }
  }

  /** The run was inserted with that concurrency. */
  ghost predicate GivenLimit(actions: seq<Action>, j: nat, r: RunId, limit: nat)
    requires j <= |actions|
  {
    exists k, ids :: 0 <= k < j && actions[k] == InsertRun(r, ids, limit)
  }

  /** The semaphore of a live run has just the concurrency its insert was given. */
  lemma {:induction false} LimitIsGiven(states: seq<Sys>, actions: seq<Action>, j: nat, r: RunId)
    requires Trace(states, actions) && states[0] == INITIAL && j < |states|
    ensures r in states[j].starting ==> GivenLimit(actions, j, r, states[j].starting[r])
    ensures r in states[j].live ==> GivenLimit(actions, j, r, states[j].live[r].limit)
    decreases j
  {
    if j == 0 {
    } else {
      hide Enabled, Apply;
      LimitIsGiven(states, actions, j - 1, r);
      assert Enabled(states[j - 1], actions[j - 1]) && states[j] == Apply(states[j - 1], actions[j - 1]);
      LimitStep(states[j - 1], actions[j - 1], r);
    }
  }

  lemma LimitStep(s: Sys, a: Action, r: RunId)
    requires Enabled(s, a)
    ensures var s' := Apply(s, a);
            && (r in s'.starting ==>
                  (r in s.starting && s'.starting[r] == s.starting[r]) || (a.InsertRun? && a.run == r &&
                    s'.starting[r] == a.limit))
            && (r in s'.live ==>
                  || (r in s.live && s'.live[r].limit == s.live[r].limit)
                  || (r in s.starting && s'.live[r].limit == s.starting[r]))
  {
    hide Counts, RunStatus, Busy, Recomputed, LostRuns, MarkLost, Statuses;
  }

  lemma LinkedOwns(s: Sys)
    requires Linked(s)
    ensures forall r :: r in s.runs ==> Owns(s.targets, r, s.runs[r].targets)
  {
  }

  // ----- after a restart

  /** The run is ended, with the aggregate and the counts of its rows, all closed. */
  predicate EndedWell(s: Sys, r: RunId) {
    && r in s.runs && Owns(s.targets, r, s.runs[r].targets)
    && s.runs[r].ended && Settled(s.runs[r], Statuses(s.targets, s.runs[r].targets))
  }

  /** The state a boot leaves.  No target is open; closed targets are as they
      were and open ones are lost; a run owning a lost target is ended with the
      aggregate of its rows, and every other run row is untouched. */
  lemma AfterBoot(s: Sys)
    requires Inv(s) && !s.up
    ensures var s' := Apply(s, Boot);
            Open(s') == {} && s'.targets.Keys == s.targets.Keys && s'.runs.Keys == s.runs.Keys
            && (forall t :: t in s.targets ==>
              s'.targets[t] == if t in Open(s) then s.targets[t].(status := Lost) else s.targets[t])
            && (forall r :: r in s.runs ==> Owns(s'.targets, r, s'.runs[r].targets))
            && (forall r :: r in s.runs && r !in LostRuns(s'.targets) ==> s'.runs[r] == s.runs[r])
            && (forall r :: r in s.runs && r in LostRuns(s'.targets) ==> EndedWell(s', r))
  {
    hide Counts, RunStatus, Statuses, Settled, Recomputed, LostRuns;
    var s' := Apply(s, Boot);
    forall r | r in s.runs
      ensures s'.runs[r].targets == s.runs[r].targets && Owns(s'.targets, r, s.runs[r].targets)
      ensures r in LostRuns(s'.targets) ==> EndedWell(s', r)
    {
      MarkLostOwns(s, Open(s), r);
      AllRowsClosed(s', r, s.runs[r].targets);
      RecomputedSettles(s'.targets, r, s.runs[r]);
    }
  }

  lemma AllRowsClosed(s: Sys, r: RunId, ids: seq<TargetId>)
    requires Open(s) == {} && Owns(s.targets, r, ids)
    ensures var sts := Statuses(s.targets, ids);
            forall i :: 0 <= i < |sts| ==> Terminal(sts[i])
  {
    forall i | 0 <= i < |ids| ensures Terminal(s.targets[ids[i]].status) {
      assert ids[i] !in Open(s);
    }
  }

  /** Some row of the run is open or lost. */
  predicate OwnsUnsettled(s: Sys, r: RunId) {
    exists t :: t in s.targets && s.targets[t].run == r &&
      (!Terminal(s.targets[t].status) || s.targets[t].status == Lost)
  }

  /** The runs that own a lost row after all open rows are marked. */
  lemma LostAfterMarking(s: Sys, r: RunId)
    ensures r in LostRuns(MarkLost(s.targets, Open(s))) <==> OwnsUnsettled(s, r)
  {
    var lost := MarkLost(s.targets, Open(s));
    if t :| t in s.targets && s.targets[t].run == r && (!Terminal(s.targets[t].status) || s.targets[t].status == Lost) {
      assert t in lost && lost[t].status == Lost && lost[t].run == r;
    }
  }

  /** A run is closed after a boot exactly when it was closed before or some row of
      it was open or lost then: a run whose rows were all closed, and none of them
      lost, but whose own row was not yet written at the crash, stays open. */
  lemma ClosedAfterBoot(s: Sys, r: RunId)
    requires Inv(s) && !s.up && r in s.runs
    ensures var s' := Apply(s, Boot);
            r in s'.runs && (Terminal(s'.runs[r].status) <==> Terminal(s.runs[r].status) || OwnsUnsettled(s, r))
  {
    hide Counts, Statuses, LostRuns, Recomputed, Apply, OwnsUnsettled;
    AfterBoot(s);
    LostAfterMarking(s, r);
    BootMarks(s);
    var s' := Apply(s, Boot);
    if r in LostRuns(s'.targets) {
      hide RunStatus;
      RunningWhileOpen(Statuses(s'.targets, s'.runs[r].targets));
    }
  }

  lemma BootMarks(s: Sys)
    requires !s.up
    ensures Apply(s, Boot).targets == MarkLost(s.targets, Open(s))
  {
    hide Counts, RunStatus, Recomputed, LostRuns, Statuses;
  }

  /** Reconciling again marks nothing and changes no row. */
  lemma SecondReconcile(s: Sys)
    requires Inv(s) && !s.up
    ensures var s' := Apply(s, Boot);
            var again := Reconciled(s', Open(s'), LostRuns(MarkLost(s'.targets, Open(s'))));
            Open(s') == {} && again.targets == s'.targets && again.runs == s'.runs
  {
    hide Inv, Reconciled, Open, Settled, LostRuns, MarkLost, Statuses, Owns;
    AfterBoot(s);
    ReconcileFixed(Apply(s, Boot));
  }

  lemma ReconcileFixed(s: Sys)
    requires Open(s) == {}
    requires forall r :: r in s.runs && r in LostRuns(s.targets) ==> EndedWell(s, r)
    ensures var again := Reconciled(s, Open(s), LostRuns(MarkLost(s.targets, Open(s))));
            again.targets == s.targets && again.runs == s.runs
  {
    hide Counts, RunStatus, LostRuns, Statuses, Settled, Recomputed;
    assert MarkLost(s.targets, {}) == s.targets;
    forall r | r in s.runs && r in LostRuns(s.targets) ensures Recomputed(s.targets, s.runs[r]) == s.runs[r] {
      RecomputedFixed(s.targets, r, s.runs[r]);
    }
  }

  lemma RecomputedFixed(targets: map<TargetId, TargetRow>, r: RunId, row: RunRow)
    requires Owns(targets, r, row.targets) && row.ended && Settled(row, Statuses(targets, row.targets))
    ensures Recomputed(targets, row) == row
  {
    hide RunStatus, Counts;
  }

  // ----- what fails

  /** A first run with one target, inserted but not yet registered. */
  lemma OneInserted() returns (s: Sys)
    ensures Reachable(s)
    ensures 0 in s.runs && s == Sys(map[0 := TargetRow(0, Pending)],
      map[0 := RunRow([0], Pending, s.runs[0].summary, false)],
                                    map[0 := 1], map[], true, {}, {})
  {
    hide Counts, Reachable;
    ReachableStart();
    var s0 := Sys(map[], map[], map[], map[], true, {}, {});
    assert Apply(INITIAL, Boot) == s0;
    ReachableStep(INITIAL, Boot);
    s := Apply(s0, InsertRun(0, [0], 1));
    ReachableStep(s0, InsertRun(0, [0], 1));
    assert s.targets == map[0 := TargetRow(0, Pending)];
  }

  /** From there to an executing target, whatever the row's status. */
  lemma OneExecutes(s: Sys) returns (s': Sys)
    requires Reachable(s) && s.starting == map[0 := 1] && s.live == map[] && 0 in s.runs &&
      s.runs[0].targets == [0] && 0 in s.targets
    ensures Reachable(s') && s'.up == s.up && s'.targets == Written(s.targets, 0, Running)
    ensures s'.live == map[0 := LiveRun(false, 1, true, [Executing])]
    ensures s'.runs.Keys == s.runs.Keys && s'.runs[0].targets == [0] && s'.runs[0].status == Running &&
      s'.runs[0].ended == s.runs[0].ended
  {
    hide Counts, Reachable, Written;
    var s2 := Apply(s, Register(0));
    ReachableStep(s, Register(0));
    assert s2.live[0].workers == [Waiting];
    var s3 := Apply(s2, Announce(0));
    ReachableStep(s2, Announce(0));
    assert [Waiting][..0] == [] && Busy([Waiting]) == 0;
    var s4 := Apply(s3, Action.Acquire(0, 0));
    ReachableStep(s3, Action.Acquire(0, 0));
    s' := Apply(s4, MarkRunning(0, 0));
    ReachableStep(s4, MarkRunning(0, 0));
    assert s'.live[0].workers == [Executing];
  }

  lemma OneExecuting() returns (s: Sys)
    ensures Reachable(s) && s.up
    ensures s.targets == map[0 := TargetRow(0, Running)] && s.live == map[0 := LiveRun(false, 1, true, [Executing])]
    ensures s.runs.Keys == {0} && s.runs[0].targets == [0] && s.runs[0].status == Running && !s.runs[0].ended
  {
    hide Reachable;
    var s0 := OneInserted();
    s := OneExecutes(s0);
  }

  /** Cancelling while a target executes: its result is refused, so the run
      ends as cancelled while the row stays running. */
  lemma CancelledRunKeepsRunningRow() returns (s: Sys)
    ensures Reachable(s) && 0 in s.runs && s.runs[0].ended && s.runs[0].status == Cancelled
    ensures s.targets == map[0 := TargetRow(0, Running)] && s.live == map[]
  {
    hide Counts, Reachable;
    var s2 := OneRefused();
    assert Results([Done(Cancelled)]) == [Cancelled];
    SingleRunStatus(Cancelled);
    hide RunStatus;
    s := Apply(s2, FinishRun(0));
    ReachableStep(s2, FinishRun(0));
  }

  /** A goroutine that returned cancelled, its write refused. */
  lemma OneRefused() returns (s: Sys)
    ensures Reachable(s) && s.targets == map[0 := TargetRow(0, Running)] && 0 in s.runs && s.runs[0].targets == [0]
    ensures s.live == map[0 := LiveRun(true, 1, true, [Done(Cancelled)])]
  {
    hide Counts, Reachable, RunStatus;
    var s0 := OneExecuting();
    var s1 := Apply(s0, Cancel(0));
    ReachableStep(s0, Cancel(0));
    var s2 := Apply(s1, Finish(0, 0, Cancelled));
    ReachableStep(s1, Finish(0, 0, Cancelled));
    assert s2.live[0].workers == [Returning(Cancelled)];
    s := OneReturns(s2);
  }

  /** The only goroutine returns. */
  lemma OneReturns(s: Sys) returns (s': Sys)
    requires Reachable(s) && 0 in s.live && 0 in s.runs && s.runs[0].targets == [0] && 0 in s.targets
    requires s.live[0].announced && |s.live[0].workers| == 1 && s.live[0].workers[0].Returning?
    ensures Reachable(s') && s' == s.(live := s.live[0 := s.live[0].(workers := [Done(s.live[0].workers[0].result)])])
  {
    hide Reachable;
    s' := Apply(s, Return(0, 0));
    ReachableStep(s, Return(0, 0));
    assert s.live[0].workers[0 := Done(s.live[0].workers[0].result)] == [Done(s.live[0].workers[0].result)];
  }

  lemma SingleRunStatus(st: Status)
    ensures RunStatus([st]) == LEVELS[Level(st)]
  {
    assert [st][..0] == [] && TopLevel([st][..0]) == 0;
    assert TopLevel([st]) == Level(st);
  }

  /** A crash after the last target's write and before the run's: the boot
      finds no open target, and the run stays running for ever. */
  lemma CrashLeavesRunOpen() returns (s: Sys)
    ensures Reachable(s) && s.up && Open(s) == {} && s.live == map[]
    ensures 0 in s.runs && s.runs[0].status == Running && s.targets == map[0 := TargetRow(0, Success)]
  {
    hide Counts, RunStatus, Recomputed, Reachable;
    var s1 := OneFinished();
    var s2 := Apply(s1, Crash);
    ReachableStep(s1, Crash);
    assert Open(s2) == {};
    s := Apply(s2, Boot);
    ReachableStep(s2, Boot);
    assert s.targets == s2.targets;
  }

  lemma OneFinished() returns (s: Sys)
    ensures Reachable(s) && s.targets == map[0 := TargetRow(0, Success)]
    ensures 0 in s.runs && s.runs[0].status == Running && s.runs[0].targets == [0]
  {
    hide Reachable;
    var s0 := OneExecuting();
    s := Apply(s0, Finish(0, 0, Success));
    ReachableStep(s0, Finish(0, 0, Success));
  }

  /** Cancelling between the insert of a run and its registration: the row is
      cancelled, the context is not, so the command runs and the run ends as a
      success. */
  lemma CancelBeforeRegister() returns (s: Sys)
    ensures Reachable(s) && 0 in s.runs && s.runs[0].ended && s.runs[0].status == Success
    ensures s.targets == map[0 := TargetRow(0, Cancelled)]
  {
    hide Counts, Reachable;
    var s1 := OneInserted();
    var s2 := Apply(s1, Cancel(0));
    ReachableStep(s1, Cancel(0));
    var s3 := Apply(s2, CancelTarget(0));
    ReachableStep(s2, CancelTarget(0));
    assert s3.targets == map[0 := TargetRow(0, Cancelled)];
    var s7 := OneExecutes(s3);
    var s8 := Apply(s7, Finish(0, 0, Success));
    ReachableStep(s7, Finish(0, 0, Success));
    assert s8.live[0].workers == [Returning(Success)];
    var s9 := OneReturns(s8);
    assert Results([Done(Success)]) == [Success];
    SingleRunStatus(Success);
    hide RunStatus;
    s := Apply(s9, FinishRun(0));
    ReachableStep(s9, FinishRun(0));
  }
}
