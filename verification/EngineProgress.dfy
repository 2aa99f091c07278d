/** A run never deadlocks: it can always go on by its own steps, to its end. */
module EngineProgress {
  import opened StateMachine
  import opened Engine
  import opened EngineInvariant

  /** The steps of the run's own goroutines. */
  predicate Own(a: Action, r: RunId) {
    match a
    case Announce(q) => q == r
    case Acquire(q, _) => q == r
    case MarkRunning(q, _) => q == r
    case Finish(q, _, _) => q == r
    case Return(q, _) => q == r
    case FinishRun(q) => q == r
    case _ => false
  }

  /** How many steps a goroutine is from its return. */
  function Left(p: Phase): nat {
    match p
    case Waiting => 4
    case Acquired => 3
    case Executing => 2
    case Returning(_) => 1
    case Done(_) => 0
  }

  function AllLeft(workers: seq<Phase>): nat {
    if workers == [] then 0 else AllLeft(workers[..|workers| - 1]) + Left(workers[|workers| - 1])
  }

  /** How many of its own steps a live run is from its last one. */
  function Work(s: Sys, r: RunId): nat
    requires r in s.live
  {
    AllLeft(s.live[r].workers) + if s.live[r].announced then 0 else 1
  }

  lemma {:induction false} AllLeftUpdate(workers: seq<Phase>, i: nat, p: Phase)
    requires i < |workers|
    ensures AllLeft(workers[i := p]) == AllLeft(workers) - Left(workers[i]) + Left(p)
  {
    var n := |workers| - 1;
    if i == n {
      assert workers[i := p][..n] == workers[..n];
    } else {
      assert workers[i := p][..n] == workers[..n][i := p];
      AllLeftUpdate(workers[..n], i, p);
    }
  }

  lemma {:induction false} NoneBusy(workers: seq<Phase>)
    requires forall i :: 0 <= i < |workers| ==> !InSlot(workers[i])
    ensures Busy(workers) == 0
  {
    if workers == [] {
    } else {
      NoneBusy(workers[..|workers| - 1]);
    }
  }

  lemma {:induction false} AllLeftZero(workers: seq<Phase>)
    ensures AllLeft(workers) == 0 <==> AllDone(workers)
  {
    if workers == [] {
    } else {
      var n := |workers| - 1;
      AllLeftZero(workers[..n]);
      assert forall i :: 0 <= i < n ==> workers[..n][i] == workers[i];
    }
  }

  /** A goroutine's next step: waiting ones need a slot, the others nothing. */
  predicate NextFor(s: Sys, r: RunId, i: nat, a: Action)
    requires r in s.live && i < |s.live[r].workers|
  {
    match s.live[r].workers[i]
    case Waiting => a == Action.Acquire(r, i)
    case Acquired => a == MarkRunning(r, i)
    case Executing => a.Finish? && a.run == r && a.i == i
    case Returning(_) => a == Return(r, i)
    case Done(_) => false
  }

  lemma NextForWorks(s: Sys, r: RunId, i: nat, a: Action)
    requires r in s.live && i < |s.live[r].workers| && NextFor(s, r, i, a) && Enabled(s, a)
    ensures r in Apply(s, a).live && Work(Apply(s, a), r) == Work(s, r) - 1
  {
    var w, w' := s.live[r].workers, Apply(s, a).live[r].workers;
    AllLeftUpdate(w, i, w'[i]);
  }

  lemma LiveWorkers(s: Sys, r: RunId)
    requires Inv(s) && r in s.live && s.live[r].announced
    ensures forall i :: 0 <= i < |s.live[r].workers| ==> HasWorker(s, r, i)
    ensures s.live[r].limit > 0
  {
    assert Sound(s, r) && Owns(s.targets, r, s.runs[r].targets);
  }

  /** In every state the invariant allows, a live run has a step of its own that is
      enabled and brings it closer to its end: the semaphore cannot deadlock.
      Whatever status res an execution ends with, it is taken. */
  lemma NextOwn(s: Sys, r: RunId, res: Status) returns (a: Action)
    requires Inv(s) && r in s.live
    ensures Enabled(s, a) && Own(a, r)
    ensures a == FinishRun(r) <==> Work(s, r) == 0
    ensures a != FinishRun(r) ==> r in Apply(s, a).live && Work(Apply(s, a), r) == Work(s, r) - 1
  {
    hide Inv, Busy;
    var w := s.live[r].workers;
    RegisteredRun(s, r);
    AllLeftZero(w);
    if !s.live[r].announced {
      return Announce(r);
    }
    LiveWorkers(s, r);
    if AllDone(w) {
      return FinishRun(r);
    }
    if i :| 0 <= i < |w| && InSlot(w[i]) {
      assert HasWorker(s, r, i);
      a := if w[i].Acquired? then MarkRunning(r, i) else if w[i].Executing? then Finish(r, i, res) else Return(r, i);
      NextForWorks(s, r, i, a);
    } else {
      NoneBusy(w);
      var i :| 0 <= i < |w| && !w[i].Done?;
      assert HasWorker(s, r, i);
      a := Action.Acquire(r, i);
      NextForWorks(s, r, i, a);
    }
  }

  lemma RegisteredRun(s: Sys, r: RunId)
    requires Inv(s) && r in s.live
    ensures r in s.runs
  {
    assert Sound(s, r);
  }

  /** The actions lead from s to s', one after the other. */
  predicate Leads(s: Sys, actions: seq<Action>, s': Sys)
    decreases |actions|
  {
    if actions == [] then s == s' else Enabled(s, actions[0]) && Leads(Apply(s, actions[0]), actions[1..], s')
  }

  /** From every reachable state a live run can end by its own steps alone, in one
      more than the work it has left. */
  lemma {:induction false} CanEnd(s: Sys, r: RunId, res: Status) returns (actions: seq<Action>, s': Sys)
    requires Inv(s) && r in s.live
    ensures Leads(s, actions, s') && |actions| == Work(s, r) + 1
    ensures forall i :: 0 <= i < |actions| ==> Own(actions[i], r)
    ensures Inv(s') && r !in s'.live && r in s'.runs && s'.runs[r].ended
    decreases Work(s, r)
  {
    hide Inv, Enabled, Work;
    var a := NextOwn(s, r, res);
    StepInv(s, a);
    if a == FinishRun(r) {
      actions, s' := [a], Apply(s, a);
      Ended(s, r);
    } else {
      var rest;
      hide Apply;
      rest, s' := CanEnd(Apply(s, a), r, res);
      actions := [a] + rest;
      assert actions[1..] == rest;
    }
  }

  lemma Ended(s: Sys, r: RunId)
    requires Enabled(s, FinishRun(r))
    ensures var s' := Apply(s, FinishRun(r)); r !in s'.live && r in s'.runs && s'.runs[r].ended
  {
  }

  /** The same for every state of every run of the system. */
  lemma NeverStuck(states: seq<Sys>, actions: seq<Action>, i: nat, r: RunId, res: Status)
      returns (own: seq<Action>, s': Sys)
    requires Trace(states, actions) && states[0] == INITIAL && i < |states| && r in states[i].live
    ensures Leads(states[i], own, s') && own != [] && (forall k :: 0 <= k < |own| ==> Own(own[k], r))
    ensures r !in s'.live && r in s'.runs && s'.runs[r].ended
  {
    hide Inv, Leads, Own;
    ReachableInv(states, actions, i);
    own, s' := CanEnd(states[i], r, res);
  }
}
