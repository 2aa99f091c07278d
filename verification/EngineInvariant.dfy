/** What every reachable state of the job engine satisfies. */
module EngineInvariant {
  import opened StateMachine
  import opened Engine

  // ----- bookkeeping

  /** A run's target list and its target rows point at each other. */
  predicate Linked(s: Sys) {
    && (forall r :: r in s.runs ==>
      s.runs[r].targets != [] && Distinct(s.runs[r].targets) && Owns(s.targets, r, s.runs[r].targets))
    && (forall t :: t in s.targets ==> s.targets[t].run in s.runs && t in s.runs[s.targets[t].run].targets)
  }

  predicate Owns(targets: map<TargetId, TargetRow>, r: RunId, ids: seq<TargetId>) {
    forall i :: 0 <= i < |ids| ==> ids[i] in targets && targets[ids[i]].run == r
  }

  /** The semaphore is respected, and memory is about stored, unfinished runs. */
  predicate Sound(s: Sys, r: RunId)
    requires r in s.live
  {
    var lr := s.live[r];
    && r in s.runs && r !in s.starting && !s.runs[r].ended
    && |lr.workers| == |s.runs[r].targets|
    && Busy(lr.workers) <= lr.limit && lr.limit > 0
    && (lr.cancelled ==> r in s.cancelRequested)
  }

  predicate Bookkeeping(s: Sys) {
    && (forall r :: r in s.starting ==> r in s.runs && !s.runs[r].ended && s.starting[r] > 0)
    && (forall r :: r in s.live ==> Sound(s, r))
    && (!s.up ==> s.starting == map[] && s.live == map[])
  }

  // ----- faithfulness

  /** Neither cancelled nor given a result outside the status machine. */
  predicate Undisturbed(s: Sys, r: RunId) { r !in s.cancelRequested && r !in s.oddResult }

  predicate Shows(p: Phase, status: Status) {
    match p
    case Waiting => status == Pending
    case Acquired => status == Pending
    case Executing => status == Running
    case Returning(res) => status == res && Terminal(res)
    case Done(res) => status == res && Terminal(res)
  }

  predicate AllPending(sts: seq<Status>) {
    forall i :: 0 <= i < |sts| ==> sts[i] == Pending
  }

  predicate AllShown(workers: seq<Phase>, sts: seq<Status>) {
    |workers| == |sts| && forall i :: 0 <= i < |sts| ==> Shows(workers[i], sts[i])
  }

  /** A stored run holds the aggregate and the counts of its target rows, all of them closed. */
  predicate Settled(row: RunRow, sts: seq<Status>) {
    row.status == RunStatus(sts) && row.summary == Counts(sts) && forall i :: 0 <= i < |sts| ==> Terminal(sts[i])
  }

  /** The database shows what memory, or the stored result, says. */
  predicate Faithful(s: Sys, r: RunId)
    requires r in s.runs && Owns(s.targets, r, s.runs[r].targets)
  {
    var sts := Statuses(s.targets, s.runs[r].targets);
    && (r in s.starting ==> AllPending(sts))
    && (r in s.live ==> AllShown(s.live[r].workers, sts))
    && (s.runs[r].ended ==> Settled(s.runs[r], sts))
  }

  predicate Inv(s: Sys) {
    && Linked(s)
    && Bookkeeping(s)
    && forall r :: r in s.runs && Undisturbed(s, r) ==> Faithful(s, r)
  }

  lemma InitialInv()
    ensures Inv(INITIAL)
  {
  }

  // ----- counting the semaphore

  lemma {:induction false} BusySplit(a: seq<Phase>, b: seq<Phase>)
    ensures Busy(a + b) == Busy(a) + Busy(b)
  {
    if b == [] {
      assert a + b == a;
    } else {
      assert (a + b)[..|a + b| - 1] == a + b[..|b| - 1];
      BusySplit(a, b[..|b| - 1]);
    }
  }

  function Holds(p: Phase): nat { if InSlot(p) then 1 else 0 }

  lemma BusyUpdate(workers: seq<Phase>, i: nat, p: Phase)
    requires i < |workers|
    ensures Busy(workers[i := p]) == Busy(workers) - Holds(workers[i]) + Holds(p)
  {
    var a, b := workers[..i], workers[i + 1..];
    assert workers == (a + [workers[i]]) + b;
    assert workers[i := p] == (a + [p]) + b;
    BusySplit(a + [workers[i]], b);
    BusySplit(a + [p], b);
    BusyLast(a, workers[i]);
    BusyLast(a, p);
  }

  lemma BusyLast(a: seq<Phase>, p: Phase)
    ensures Busy(a + [p]) == Busy(a) + Holds(p)
  {
    assert (a + [p])[..|a|] == a;
  }

  lemma {:induction false} BusyWaiting(workers: seq<Phase>)
    requires forall i :: 0 <= i < |workers| ==> workers[i] == Waiting
    ensures Busy(workers) == 0
  {
    if workers == [] {
    } else {
      BusyWaiting(workers[..|workers| - 1]);
    }
  }

  // ----- one step of one goroutine

  function WithStatus(targets: map<TargetId, TargetRow>, t: TargetId, st: Status): map<TargetId, TargetRow>
    requires t in targets
  {
    targets[t := targets[t].(status := st)]
  }

  lemma SameStatus(targets: map<TargetId, TargetRow>, t: TargetId)
    requires t in targets
    ensures WithStatus(targets, t, targets[t].status) == targets
  {
  }

  lemma WithStatusLinked(s: Sys, s': Sys, t: TargetId, st: Status)
    requires Linked(s) && t in s.targets && s'.runs == s.runs && s'.targets == WithStatus(s.targets, t, st)
    ensures Linked(s')
  {
    forall q | q in s.runs ensures Owns(s'.targets, q, s'.runs[q].targets) {
      assert Owns(s.targets, q, s.runs[q].targets);
    }
  }

  /** Changing one row leaves the rows of other runs alone. */
  lemma OtherStatuses(s: Sys, q: RunId, t: TargetId, st: Status)
    requires Linked(s) && q in s.runs && t in s.targets && s.targets[t].run != q
    ensures Owns(s.targets, q, s.runs[q].targets) && Owns(WithStatus(s.targets, t, st), q, s.runs[q].targets)
    ensures Statuses(WithStatus(s.targets, t, st), s.runs[q].targets) == Statuses(s.targets, s.runs[q].targets)
  {
    assert Owns(s.targets, q, s.runs[q].targets);
  }

  lemma OwnStatuses(s: Sys, r: RunId, i: nat, st: Status)
    requires Linked(s) && r in s.runs && i < |s.runs[r].targets|
    ensures Owns(s.targets, r, s.runs[r].targets)
    ensures var ids, t := s.runs[r].targets, s.runs[r].targets[i];
            Owns(WithStatus(s.targets, t, st), r, ids)
            && Statuses(WithStatus(s.targets, t, st), ids) == Statuses(s.targets, ids)[i := st]
  {
    assert Owns(s.targets, r, s.runs[r].targets) && Distinct(s.runs[r].targets);
  }

  lemma PhaseStep(s: Sys, r: RunId, i: nat, p: Phase, st: Status, odd: set<RunId>, s': Sys)
    requires Inv(s) && HasWorker(s, r, i)
    requires s' == SetPhase(s, r, i, p).(targets := WithStatus(s.targets, s.runs[r].targets[i], st), oddResult := odd)
    requires Busy(s.live[r].workers[i := p]) <= s.live[r].limit
    requires odd == s.oddResult || odd == s.oddResult + {r}
    requires r !in s.cancelRequested && r !in odd ==> Shows(p, st)
    ensures Inv(s')
  {
    hide Busy, Settled, Shows, Statuses;
    var t := s.runs[r].targets[i];
    assert Sound(s, r) && s.targets[t].run == r;
    WithStatusLinked(s, s', t, st);
    forall q | q in s'.live ensures Sound(s', q) {
      assert Sound(s, q);
    }
    forall q | q in s'.runs && Undisturbed(s', q) ensures Faithful(s', q) {
      assert Faithful(s, q);
      if q != r {
        OtherStatuses(s, q, t, st);
      } else {
        OwnStatuses(s, r, i, st);
      }
    }
  }

  lemma WorkerFacts(s: Sys, r: RunId, i: nat)
    requires Inv(s) && HasWorker(s, r, i)
    ensures var t := s.runs[r].targets[i];
            Busy(s.live[r].workers) <= s.live[r].limit
            && (s.live[r].cancelled ==> r in s.cancelRequested)
            && WithStatus(s.targets, t, s.targets[t].status) == s.targets
            && (Undisturbed(s, r) ==> Shows(s.live[r].workers[i], s.targets[t].status))
  {
    assert Sound(s, r);
    SameStatus(s.targets, s.runs[r].targets[i]);
    if Undisturbed(s, r) {
      assert Faithful(s, r);
      assert Statuses(s.targets, s.runs[r].targets)[i] == s.targets[s.runs[r].targets[i]].status;
    }
  }

  lemma AcquireStep(s: Sys, r: RunId, i: nat)
    requires Inv(s) && Enabled(s, Action.Acquire(r, i))
    ensures Inv(Apply(s, Action.Acquire(r, i)))
  {
    hide Inv, Busy;
    WorkerFacts(s, r, i);
    BusyUpdate(s.live[r].workers, i, Acquired);
    PhaseStep(s, r, i, Acquired, s.targets[s.runs[r].targets[i]].status, s.oddResult, Apply(s, Action.Acquire(r, i)));
  }

  lemma GiveUpStep(s: Sys, r: RunId, i: nat)
    requires Inv(s) && Enabled(s, GiveUp(r, i))
    ensures Inv(Apply(s, GiveUp(r, i)))
  {
    hide Inv, Busy;
    WorkerFacts(s, r, i);
    BusyUpdate(s.live[r].workers, i, Done(Cancelled));
    PhaseStep(s, r, i, Done(Cancelled), s.targets[s.runs[r].targets[i]].status, s.oddResult, Apply(s, GiveUp(r, i)));
  }

  lemma MarkRunningStep(s: Sys, r: RunId, i: nat)
    requires Inv(s) && Enabled(s, MarkRunning(r, i))
    ensures Inv(Apply(s, MarkRunning(r, i)))
  {
    hide Inv, Busy;
    WorkerFacts(s, r, i);
    BusyUpdate(s.live[r].workers, i, Executing);
    var st := s.targets[s.runs[r].targets[i]].status;
    var st' := if CanTransition(st, Running) then Running else st;
    PhaseStep(s, r, i, Executing, st', s.oddResult, Apply(s, MarkRunning(r, i)));
  }

  lemma FinishStep(s: Sys, r: RunId, i: nat, res: Status)
    requires Inv(s) && Enabled(s, Finish(r, i, res))
    ensures Inv(Apply(s, Finish(r, i, res)))
  {
    hide Inv, Busy;
    WorkerFacts(s, r, i);
    BusyUpdate(s.live[r].workers, i, Returning(res));
    var s' := Apply(s, Finish(r, i, res));
    var st := s.targets[s.runs[r].targets[i]].status;
    var st' := if !s.live[r].cancelled && CanTransition(st, res) then res else st;
    PhaseStep(s, r, i, Returning(res), st', s'.oddResult, s');
  }

  lemma ReturnStep(s: Sys, r: RunId, i: nat)
    requires Inv(s) && Enabled(s, Return(r, i))
    ensures Inv(Apply(s, Return(r, i)))
  {
    hide Inv, Busy;
    WorkerFacts(s, r, i);
    var res := s.live[r].workers[i].result;
    BusyUpdate(s.live[r].workers, i, Done(res));
    PhaseStep(s, r, i, Done(res), s.targets[s.runs[r].targets[i]].status, s.oddResult, Apply(s, Return(r, i)));
  }

  // ----- the other steps

  lemma InsertedLinked(s: Sys, s': Sys, r: RunId, ids: seq<TargetId>, row: RunRow)
    requires Linked(s) && r !in s.runs && ids != [] && Distinct(ids) && forall i :: 0 <= i < |ids| ==>
      ids[i] !in s.targets
    requires s'.targets == s.targets + (map t | t in ids :: TargetRow(r, Pending))
    requires row.targets == ids && s'.runs == s.runs[r := row]
    ensures Linked(s')
  {
    hide Distinct, Statuses;
    InsertedStatuses(s, s'.targets, r, ids);
    assert Owns(s'.targets, r, ids);
    forall t | t in s'.targets ensures s'.targets[t].run in s'.runs && t in s'.runs[s'.targets[t].run].targets {
      assert t in s.targets || t in ids;
    }
    hide Owns;
  }

  /** The rows of earlier runs are as they were. */
  lemma InsertedStatuses(s: Sys, targets: map<TargetId, TargetRow>, r: RunId, ids: seq<TargetId>)
    requires Linked(s) && forall i :: 0 <= i < |ids| ==> ids[i] !in s.targets
    requires targets == s.targets + (map t | t in ids :: TargetRow(r, Pending))
    ensures forall q :: q in s.runs ==> Owns(s.targets, q, s.runs[q].targets) && Owns(targets, q, s.runs[q].targets)
    ensures forall q :: q in s.runs ==> Statuses(targets, s.runs[q].targets) == Statuses(s.targets, s.runs[q].targets)
  {
    forall q | q in s.runs
      ensures Owns(s.targets, q, s.runs[q].targets) && Owns(targets, q, s.runs[q].targets)
      ensures Statuses(targets, s.runs[q].targets) == Statuses(s.targets, s.runs[q].targets)
    {
      InsertedOwns(s, targets, r, ids, q);
    }
  }

  lemma InsertedOwns(s: Sys, targets: map<TargetId, TargetRow>, r: RunId, ids: seq<TargetId>, q: RunId)
    requires Linked(s) && q in s.runs && forall i :: 0 <= i < |ids| ==> ids[i] !in s.targets
    requires targets == s.targets + (map t | t in ids :: TargetRow(r, Pending))
    ensures Owns(s.targets, q, s.runs[q].targets) && Owns(targets, q, s.runs[q].targets)
    ensures Statuses(targets, s.runs[q].targets) == Statuses(s.targets, s.runs[q].targets)
  {
    assert Owns(s.targets, q, s.runs[q].targets);
    forall i | 0 <= i < |s.runs[q].targets| ensures s.runs[q].targets[i] !in ids {
    }
  }

  lemma InsertRunStep(s: Sys, r: RunId, ids: seq<TargetId>, limit: nat)
    requires Inv(s) && Enabled(s, InsertRun(r, ids, limit))
    ensures Inv(Apply(s, InsertRun(r, ids, limit)))
  {
    hide Busy, Settled, Counts, AllShown, Linked, Distinct;
    var s' := Apply(s, InsertRun(r, ids, limit));
    assert s'.runs[r].targets == ids;
    InsertedLinked(s, s', r, ids, s'.runs[r]);
    InsertedStatuses(s, s'.targets, r, ids);
    forall q | q in s'.live ensures Sound(s', q) {
      assert Sound(s, q);
    }
    forall q | q in s'.runs && Undisturbed(s', q)
      ensures Owns(s'.targets, q, s'.runs[q].targets) && Faithful(s', q)
    {
      if q != r {
        assert Faithful(s, q);
      } else {
        assert r in s.live ==> Sound(s, r);
      }
    }
  }

  /** A step that changes no target row and no target list, and of runs only r. */
  ghost predicate OnlyRun(s: Sys, s': Sys, r: RunId) {
    && r in s.runs && s'.targets == s.targets && s'.runs.Keys == s.runs.Keys
    && s'.oddResult == s.oddResult && s.cancelRequested <= s'.cancelRequested
    && (forall q :: q in s.runs ==> s'.runs[q].targets == s.runs[q].targets && (q != r ==> s'.runs[q] == s.runs[q]))
    && (forall q :: q != r ==> (q in s'.starting <==> q in s.starting) && (q in s'.live <==> q in s.live))
    && (forall q :: q != r && q in s.live ==> s'.live[q] == s.live[q])
    && (forall q :: q != r && q in s.starting ==> s'.starting[q] == s.starting[q])
  }

  lemma OnlyRunLinked(s: Sys, s': Sys, r: RunId)
    requires Linked(s) && OnlyRun(s, s', r)
    ensures Linked(s')
  {
    hide Distinct;
    forall q | q in s'.runs ensures Owns(s'.targets, q, s'.runs[q].targets) {
      assert Owns(s.targets, q, s.runs[q].targets);
    }
  }

  lemma OnlyRunBookkeeping(s: Sys, s': Sys, r: RunId)
    requires Bookkeeping(s) && OnlyRun(s, s', r)
    requires r in s'.starting ==> !s'.runs[r].ended && s'.starting[r] > 0
    requires r in s'.live ==> Sound(s', r)
    requires !s'.up ==> s'.starting == map[] && s'.live == map[]
    ensures Bookkeeping(s')
  {
    hide Busy;
    forall q | q in s'.live ensures Sound(s', q) {
      if q != r {
        assert Sound(s, q);
      }
    }
  }

  lemma OnlyRunFaithful(s: Sys, s': Sys, r: RunId, q: RunId)
    requires OnlyRun(s, s', r) && q in s.runs && q != r && Owns(s.targets, q, s.runs[q].targets) && Faithful(s, q)
    ensures Owns(s'.targets, q, s'.runs[q].targets) && Faithful(s', q)
  {
    hide Settled, AllShown, Statuses;
  }

  lemma RunStep(s: Sys, s': Sys, r: RunId)
    requires Inv(s) && OnlyRun(s, s', r)
    requires r in s'.starting ==> !s'.runs[r].ended && s'.starting[r] > 0
    requires r in s'.live ==> Sound(s', r)
    requires !s'.up ==> s'.starting == map[] && s'.live == map[]
    requires Owns(s'.targets, r, s'.runs[r].targets) && (Undisturbed(s', r) ==> Faithful(s', r))
    ensures Inv(s')
  {
    hide Faithful, Bookkeeping;
    OnlyRunLinked(s, s', r);
    OnlyRunBookkeeping(s, s', r);
    forall q | q in s'.runs && Undisturbed(s', q)
      ensures Owns(s'.targets, q, s'.runs[q].targets) && Faithful(s', q)
    {
      if q != r {
        OnlyRunFaithful(s, s', r, q);
      }
    }
  }

  lemma RegisterOnly(s: Sys, r: RunId)
    requires Enabled(s, Register(r))
    ensures var s' := Apply(s, Register(r));
            && OnlyRun(s, s', r) && s'.runs == s.runs && s'.up == s.up && r !in s'.starting
            && r in s'.live && s'.live[r].limit == s.starting[r] && !s'.live[r].cancelled
            && |s'.live[r].workers| == |s.runs[r].targets| && Busy(s'.live[r].workers) == 0
            && forall i :: 0 <= i < |s'.live[r].workers| ==> s'.live[r].workers[i] == Waiting
  {
    hide Busy;
    BusyWaiting(Apply(s, Register(r)).live[r].workers);
  }

  lemma RegisterStep(s: Sys, r: RunId)
    requires Inv(s) && Enabled(s, Register(r))
    ensures Inv(Apply(s, Register(r)))
  {
    hide Settled, Apply, OnlyRun, Busy;
    var s' := Apply(s, Register(r));
    RegisterOnly(s, r);
    OnlyRunSame(s, s', r);
    assert Owns(s.targets, r, s.runs[r].targets);
    assert r in s.live ==> Sound(s, r);
    assert Undisturbed(s, r) ==> Faithful(s, r);
    RunStep(s, s', r);
  }

  lemma OnlyRunSame(s: Sys, s': Sys, r: RunId)
    requires OnlyRun(s, s', r)
    ensures r in s.runs && r in s'.runs && s'.targets == s.targets && s'.runs[r].targets == s.runs[r].targets
    ensures s.cancelRequested <= s'.cancelRequested && (Undisturbed(s', r) ==> Undisturbed(s, r))
  {
  }

  lemma AnnounceOnly(s: Sys, r: RunId)
    requires Enabled(s, Announce(r))
    ensures var s' := Apply(s, Announce(r));
            && OnlyRun(s, s', r) && s'.starting == s.starting && s'.up == s.up
            && r in s'.live && s'.live[r] == s.live[r].(announced := true) && r in s'.runs &&
              s'.runs[r].ended == s.runs[r].ended
  {
    hide Counts;
  }

  lemma AnnounceStep(s: Sys, r: RunId)
    requires Inv(s) && Enabled(s, Announce(r))
    ensures Inv(Apply(s, Announce(r)))
  {
    hide Settled, Apply, OnlyRun, Busy;
    var s' := Apply(s, Announce(r));
    AnnounceOnly(s, r);
    OnlyRunSame(s, s', r);
    assert Sound(s, r) && Owns(s.targets, r, s.runs[r].targets);
    assert Undisturbed(s, r) ==> Faithful(s, r);
    RunStep(s, s', r);
  }

  /** An undisturbed run ends with the aggregate and the counts of its rows. */
  lemma FinishRunSettles(s: Sys, r: RunId)
    requires Inv(s) && Enabled(s, FinishRun(r)) && Undisturbed(s, r)
    ensures Owns(s.targets, r, s.runs[r].targets)
    ensures Settled(Apply(s, FinishRun(r)).runs[r], Statuses(s.targets, s.runs[r].targets))
  {
    hide Busy, RunStatus, Counts, Bookkeeping;
    assert Faithful(s, r);
    assert Results(s.live[r].workers) == Statuses(s.targets, s.runs[r].targets);
  }

  lemma FinishRunOnly(s: Sys, r: RunId)
    requires Enabled(s, FinishRun(r))
    ensures var s' := Apply(s, FinishRun(r));
            OnlyRun(s, s', r) && s'.starting == s.starting && r !in s'.live && r in s'.runs && s'.runs[r].ended &&
              s'.up == s.up
  {
    hide Busy, RunStatus, Counts, Results;
  }

  lemma FinishRunStep(s: Sys, r: RunId)
    requires Inv(s) && Enabled(s, FinishRun(r))
    ensures Inv(Apply(s, FinishRun(r)))
    ensures Undisturbed(s, r) ==> Owns(s.targets, r, s.runs[r].targets)
                                  && Settled(Apply(s, FinishRun(r)).runs[r], Statuses(s.targets, s.runs[r].targets))
  {
    hide Settled, Apply, Statuses, Busy;
    var s' := Apply(s, FinishRun(r));
    assert Sound(s, r) && Owns(s.targets, r, s.runs[r].targets);
    FinishRunOnly(s, r);
    if Undisturbed(s, r) {
      FinishRunSettles(s, r);
    }
    RunStep(s, s', r);
  }

  lemma CancelStep(s: Sys, r: RunId)
    requires Inv(s) && Enabled(s, Cancel(r))
    ensures Inv(Apply(s, Cancel(r)))
  {
    hide Busy, Settled, AllShown, Statuses;
    var s' := Apply(s, Cancel(r));
    forall q | q in s'.live ensures Sound(s', q) {
      assert Sound(s, q);
    }
    forall q | q in s'.runs && Undisturbed(s', q) ensures Faithful(s', q) {
      assert q != r && Faithful(s, q);
    }
  }

  lemma CancelTargetStep(s: Sys, t: TargetId)
    requires Inv(s) && Enabled(s, CancelTarget(t))
    ensures Inv(Apply(s, CancelTarget(t)))
  {
    hide Busy, Settled, AllShown, Statuses;
    var s' := Apply(s, CancelTarget(t));
    if s.targets[t].status == Pending {
      WithStatusLinked(s, s', t, Cancelled);
      forall q | q in s'.live ensures Sound(s', q) {
        assert Sound(s, q);
      }
      forall q | q in s'.runs && Undisturbed(s', q) ensures Faithful(s', q) {
        assert Faithful(s, q);
        OtherStatuses(s, q, t, Cancelled);
      }
    }
  }

  lemma CrashStep(s: Sys)
    requires Inv(s)
    ensures Inv(Apply(s, Crash))
  {
    hide Busy, Settled, AllShown, Statuses;
    var s' := Apply(s, Crash);
    forall q | q in s'.runs && Undisturbed(s', q) ensures Faithful(s', q) {
      assert Faithful(s, q);
    }
  }

  // ----- reconciliation

  lemma MarkLostOwns(s: Sys, ts: set<TargetId>, r: RunId)
    requires Linked(s) && r in s.runs
    ensures Owns(s.targets, r, s.runs[r].targets) && Owns(MarkLost(s.targets, ts), r, s.runs[r].targets)
  {
    assert Owns(s.targets, r, s.runs[r].targets);
  }

  /** A settled run has no open target, so marking open targets lost leaves its rows alone. */
  lemma SettledUntouched(s: Sys, ts: set<TargetId>, r: RunId)
    requires Linked(s) && r in s.runs && ts <= Open(s)
    requires Owns(s.targets, r, s.runs[r].targets) && Owns(MarkLost(s.targets, ts), r, s.runs[r].targets)
    requires Settled(s.runs[r], Statuses(s.targets, s.runs[r].targets))
    ensures Statuses(MarkLost(s.targets, ts), s.runs[r].targets) == Statuses(s.targets, s.runs[r].targets)
  {
    var ids := s.runs[r].targets;
    forall i | 0 <= i < |ids| ensures ids[i] !in ts {
      assert Terminal(Statuses(s.targets, ids)[i]);
    }
  }

  /** Recomputing a run settles it, or leaves it as it was. */
  lemma RecomputedSettles(targets: map<TargetId, TargetRow>, r: RunId, row: RunRow)
    requires Owns(targets, r, row.targets)
    ensures var row' := Recomputed(targets, row);
            row'.targets == row.targets &&
              (row' == row || (row'.ended && Settled(row', Statuses(targets, row.targets))))
    ensures var sts := Statuses(targets, row.targets);
            (forall i :: 0 <= i < |sts| ==> Terminal(sts[i])) ==>
              Settled(Recomputed(targets, row), sts) && Recomputed(targets, row).ended
  {
    var sts := Statuses(targets, row.targets);
    RunningWhileOpen(sts);
    hide RunStatus, Counts;
  }

  lemma ReconcileStep(s: Sys, ts: set<TargetId>, rs: set<RunId>)
    requires Inv(s) && !s.up && ts <= Open(s)
    ensures Inv(Reconciled(s, ts, rs))
  {
    hide RunStatus, Counts, LostRuns, Recomputed;
    var s' := Reconciled(s, ts, rs);
    forall r | r in s'.runs
      ensures s'.runs[r].targets == s.runs[r].targets && Owns(s'.targets, r, s'.runs[r].targets)
      ensures Undisturbed(s', r) ==> Faithful(s', r)
    {
      MarkLostOwns(s, ts, r);
      RecomputedSettles(s'.targets, r, s.runs[r]);
      if Undisturbed(s', r) {
        assert Faithful(s, r);
        if s'.runs[r] == s.runs[r] && s.runs[r].ended {
          SettledUntouched(s, ts, r);
        }
      }
    }
  }

  /** Every step keeps the invariant. */
  lemma StepInv(s: Sys, a: Action)
    requires Inv(s) && Enabled(s, a)
    ensures Inv(Apply(s, a))
  {
    match a {
      case InsertRun(r, ids, limit) => InsertRunStep(s, r, ids, limit);
      case Register(r) => RegisterStep(s, r);
      case Announce(r) => AnnounceStep(s, r);
      case Acquire(r, i) => AcquireStep(s, r, i);
      case GiveUp(r, i) => GiveUpStep(s, r, i);
      case MarkRunning(r, i) => MarkRunningStep(s, r, i);
      case Finish(r, i, res) => FinishStep(s, r, i, res);
      case Return(r, i) => ReturnStep(s, r, i);
      case FinishRun(r) => FinishRunStep(s, r);
      case Cancel(r) => CancelStep(s, r);
      case CancelTarget(t) => CancelTargetStep(s, t);
      case Crash => CrashStep(s);
      case PartialReconcile(ts, rs) => ReconcileStep(s, ts, rs);
      case Boot => BootStep(s);
    }
  }

  lemma BootStep(s: Sys)
    requires Inv(s) && Enabled(s, Boot)
    ensures Inv(Apply(s, Boot))
  {
    hide Inv, LostRuns, Reconciled;
    var rs := LostRuns(MarkLost(s.targets, Open(s)));
    ReconcileStep(s, Open(s), rs);
    GoingUp(Reconciled(s, Open(s), rs));
  }

  lemma GoingUp(s: Sys)
    requires Inv(s)
    ensures Inv(s.(up := true))
  {
    hide Settled, AllShown, Statuses, Busy;
    var s' := s.(up := true);
    forall q | q in s'.live ensures Sound(s', q) {
      assert Sound(s, q);
    }
    forall q | q in s'.runs && Undisturbed(s', q) ensures Faithful(s', q) {
      assert Faithful(s, q);
    }
  }

  lemma {:induction false} ReachableInv(states: seq<Sys>, actions: seq<Action>, i: nat)
    requires Trace(states, actions) && states[0] == INITIAL && i < |states|
    ensures Inv(states[i])
  {
    hide Inv, Enabled, Apply;
    if i == 0 {
      InitialInv();
    } else {
      ReachableInv(states, actions, i - 1);
      StepInv(states[i - 1], actions[i - 1]);
    }
  }
}
