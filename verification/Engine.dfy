/** The job engine as a protocol over atomic steps: database transactions on
    runs and targets, goroutines behind a semaphore, cancellation, crash, and
    the reconciliation done at boot. */
module Engine {
  import opened StateMachine

  type TargetId = nat
  type RunId = nat

  datatype TargetRow = TargetRow(run: RunId, status: Status)

  /** A stored run; targets lists the ids of its target rows. */
  datatype RunRow = RunRow(targets: seq<TargetId>, status: Status, summary: Summary, ended: bool)

  /** Where a target's goroutine stands: before the semaphore, holding it,
      running the command, holding it still after the result's write, or returned. */
  datatype Phase = Waiting | Acquired | Executing | Returning(result: Status) | Done(result: Status)

  /** A run's goroutines, in memory only. */
  datatype LiveRun = LiveRun(cancelled: bool, limit: nat, announced: bool, workers: seq<Phase>)

  /** targets and runs are the database; starting (runs inserted by StartRun but
      not yet registered) and live are memory.  cancelRequested and oddResult
      are history: the runs CancelRun was called for, and the runs a connector
      gave a result that does not follow "running". */
  datatype Sys = Sys(targets: map<TargetId, TargetRow>, runs: map<RunId, RunRow>,
                     starting: map<RunId, nat>, live: map<RunId, LiveRun>, up: bool,
                     cancelRequested: set<RunId>, oddResult: set<RunId>)

  datatype Action =
    | InsertRun(run: RunId, ids: seq<TargetId>, limit: nat)
    | Register(run: RunId)
    | Announce(run: RunId)
    | Acquire(run: RunId, i: nat)
    | GiveUp(run: RunId, i: nat)
    | MarkRunning(run: RunId, i: nat)
    | Finish(run: RunId, i: nat, result: Status)
    | Return(run: RunId, i: nat)
    | FinishRun(run: RunId)
    | Cancel(run: RunId)
    | CancelTarget(id: TargetId)
    | Crash
    | PartialReconcile(marked: set<TargetId>, recomputed: set<RunId>)
    | Boot

  predicate Distinct(ids: seq<TargetId>) {
    forall i, j :: 0 <= i < j < |ids| ==> ids[i] != ids[j]
  }

  /** The goroutine holds the semaphore. */
  predicate InSlot(p: Phase) {
    p.Acquired? || p.Executing? || p.Returning?
  }

  /** How many goroutines hold the semaphore. */
  function Busy(workers: seq<Phase>): nat {
    if workers == [] then 0
    else Busy(workers[..|workers| - 1]) + if InSlot(workers[|workers| - 1]) then 1 else 0
  }

  function Open(s: Sys): set<TargetId> {
    set t | t in s.targets && !Terminal(s.targets[t].status)
  }

  /** The runs that own a lost target. */
  function LostRuns(targets: map<TargetId, TargetRow>): set<RunId> {
    set t | t in targets && targets[t].status == Lost :: targets[t].run
  }

  /** The stored statuses of a run's targets. */
  function Statuses(targets: map<TargetId, TargetRow>, ids: seq<TargetId>): seq<Status>
    requires forall i :: 0 <= i < |ids| ==> ids[i] in targets
  {
    seq(|ids|, i requires 0 <= i < |ids| => targets[ids[i]].status)
  }

  predicate HasWorker(s: Sys, run: RunId, i: nat) {
    && run in s.live && run in s.runs && s.live[run].announced
    && i < |s.live[run].workers| && i < |s.runs[run].targets|
    && s.runs[run].targets[i] in s.targets
  }

  predicate AllDone(workers: seq<Phase>) {
    forall i :: 0 <= i < |workers| ==> workers[i].Done?
  }

  function Results(workers: seq<Phase>): seq<Status>
    requires AllDone(workers)
  {
    seq(|workers|, i requires 0 <= i < |workers| => workers[i].result)
  }

  predicate Enabled(s: Sys, a: Action) {
    match a
    case InsertRun(r, ids, limit) =>
      s.up && r !in s.runs && ids != [] && Distinct(ids) && limit > 0 && forall i :: 0 <= i < |ids| ==>
        ids[i] !in s.targets
    case Register(r) => r in s.starting && r in s.runs
    case Announce(r) => r in s.live && r in s.runs && !s.live[r].announced
    case Acquire(r, i) => HasWorker(s, r, i) && s.live[r].workers[i].Waiting? &&
      Busy(s.live[r].workers) < s.live[r].limit
    case GiveUp(r, i) => HasWorker(s, r, i) && s.live[r].workers[i].Waiting? && s.live[r].cancelled
    case MarkRunning(r, i) => HasWorker(s, r, i) && s.live[r].workers[i].Acquired?
    case Finish(r, i, res) => HasWorker(s, r, i) && s.live[r].workers[i].Executing?
    case Return(r, i) => HasWorker(s, r, i) && s.live[r].workers[i].Returning?
    case FinishRun(r) => r in s.live && r in s.runs && s.live[r].announced && AllDone(s.live[r].workers)
    case Cancel(r) => s.up
    case CancelTarget(t) => s.up && t in s.targets && s.targets[t].run in s.cancelRequested
    case Crash => true
    case PartialReconcile(ts, rs) => !s.up && ts <= Open(s) && (rs == {} || ts == Open(s))
    case Boot => !s.up
  }

  /** The guarded write: applied only along an edge of the status machine. */
  function Written(targets: map<TargetId, TargetRow>, t: TargetId, to: Status): map<TargetId, TargetRow>
    requires t in targets
  {
    if CanTransition(targets[t].status, to) then targets[t := targets[t].(status := to)] else targets
  }

  function SetPhase(s: Sys, r: RunId, i: nat, p: Phase): Sys
    requires HasWorker(s, r, i)
  {
    s.(live := s.live[r := s.live[r].(workers := s.live[r].workers[i := p])])
  }

  function MarkLost(targets: map<TargetId, TargetRow>, ts: set<TargetId>): map<TargetId, TargetRow> {
    map t | t in targets :: if t in ts then targets[t].(status := Lost) else targets[t]
  }

  /** The second half of Reconcile for one run: store the aggregate of its rows
      if that is terminal. */
  function Recomputed(targets: map<TargetId, TargetRow>, row: RunRow): RunRow {
    if exists i :: 0 <= i < |row.targets| && row.targets[i] !in targets then row
    else
      var sts := Statuses(targets, row.targets);
      if Terminal(RunStatus(sts)) then RunRow(row.targets, RunStatus(sts), Counts(sts), true) else row
  }

  /** Reconcile restricted to some open targets and some runs owning a lost one. */
  function Reconciled(s: Sys, ts: set<TargetId>, rs: set<RunId>): Sys {
    var targets := MarkLost(s.targets, ts);
    s.(targets := targets,
       runs := map r | r in s.runs ::
                 if r in rs && r in LostRuns(targets) then Recomputed(targets, s.runs[r]) else s.runs[r])
  }

  function Apply(s: Sys, a: Action): Sys
    requires Enabled(s, a)
  {
    match a
    case InsertRun(r, ids, limit) =>
      s.(targets := s.targets + (map t | t in ids :: TargetRow(r, Pending)),
         runs := s.runs[r := RunRow(ids, Pending, Counts([]).(total := |ids|, pending := |ids|), false)],
         starting := s.starting[r := limit])
    case Register(r) =>
      s.(starting := s.starting - {r},
         live := s.live[r := LiveRun(false, s.starting[r], false, seq(|s.runs[r].targets|, i => Waiting))])
    case Announce(r) =>
      var n := |s.live[r].workers|;
      s.(live := s.live[r := s.live[r].(announced := true)],
         // written under the run's context, so refused once it is cancelled
         runs := if s.live[r].cancelled then s.runs
                 else s.runs[r := s.runs[r].(status := Running, summary := Counts([]).(total := n, running := n))])
    case Acquire(r, i) => SetPhase(s, r, i, Acquired)
    case GiveUp(r, i) => SetPhase(s, r, i, Done(Cancelled))  // its write is refused: the context is cancelled
    case MarkRunning(r, i) =>
      SetPhase(s, r, i, Executing).(targets := Written(s.targets, s.runs[r].targets[i], Running))
    case Finish(r, i, res) =>
      SetPhase(s, r, i, Returning(res)).(
        targets := if s.live[r].cancelled then s.targets else Written(s.targets, s.runs[r].targets[i], res),
        oddResult := if CanTransition(Running, res) then s.oddResult else s.oddResult + {r})
    case Return(r, i) => SetPhase(s, r, i, Done(s.live[r].workers[i].result))
    case FinishRun(r) =>
      var results := Results(s.live[r].workers);
      s.(live := s.live - {r},
         runs := s.runs[r := s.runs[r].(status := RunStatus(results), summary := Counts(results), ended := true)])
    case Cancel(r) =>
      s.(cancelRequested := s.cancelRequested + {r},
         live := if r in s.live then s.live[r := s.live[r].(cancelled := true)] else s.live)
    case CancelTarget(t) =>
      if s.targets[t].status == Pending then s.(targets := s.targets[t := s.targets[t].(status := Cancelled)]) else s
    case Crash => s.(starting := map[], live := map[], up := false)
    case PartialReconcile(ts, rs) => Reconciled(s, ts, rs)
    case Boot => Reconciled(s, Open(s), LostRuns(MarkLost(s.targets, Open(s)))).(up := true)
  }

  const INITIAL := Sys(map[], map[], map[], map[], false, {}, {})

  // ----- every step follows the status machine

  /** Rows are never deleted or moved to another run, and a status changes only
      along an edge. */
  predicate Lawful(s: Sys, s': Sys) {
    forall t :: t in s.targets ==>
      t in s'.targets && s'.targets[t].run == s.targets[t].run
      && (s'.targets[t].status == s.targets[t].status || CanTransition(s.targets[t].status, s'.targets[t].status))
  }

  lemma StepIsLawful(s: Sys, a: Action)
    requires Enabled(s, a)
    ensures Lawful(s, Apply(s, a))
  {
    hide RunStatus, Counts, Busy, LostRuns, Recomputed;
  }

  ghost predicate Trace(states: seq<Sys>, actions: seq<Action>) {
    && |states| == |actions| + 1
    && forall i :: 0 <= i < |actions| ==>
      Enabled(states[i], actions[i]) && states[i + 1] == Apply(states[i], actions[i])
  }

  /** Over any run of the system, a row that is terminal keeps its status for
      ever, and is still there. */
  lemma {:induction false} TerminalForever(states: seq<Sys>, actions: seq<Action>, i: nat, j: nat, t: TargetId)
    requires Trace(states, actions) && i <= j < |states|
    requires t in states[i].targets
    ensures t in states[j].targets
    ensures Terminal(states[i].targets[t].status) ==> states[j].targets[t] == states[i].targets[t]
    decreases j
  {
    hide Enabled, Apply;
    if i == j {
    } else {
      TerminalForever(states, actions, i, j - 1, t);
      StepIsLawful(states[j - 1], actions[j - 1]);
    }
  }
}
