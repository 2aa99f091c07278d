/** The target status machine, and the run-level aggregate of its targets. */
module StateMachine {

  datatype Status = Pending | Running | Success | Failed | Timeout | Cancelled | Lost | Skipped

  datatype Summary = Summary(total: nat, pending: nat, running: nat, success: nat, failed: nat,
                             timeout: nat, cancelled: nat, lost: nat, skipped: nat)

  function Transitions(from: Status): set<Status> {
    match from
    case Pending => {Running, Cancelled, Skipped, Lost}
    case Running => {Success, Failed, Timeout, Cancelled, Lost}
    case _ => {}
  }

  predicate CanTransition(from: Status, to: Status) { to in Transitions(from) }

  predicate Terminal(s: Status) {
    s in {Success, Failed, Timeout, Cancelled, Lost, Skipped}
  }

  /** A status is terminal exactly when nothing follows it, and every status
      can still reach a terminal one. */
  lemma TerminalIsFinal(s: Status)
    ensures Terminal(s) <==> forall t :: !CanTransition(s, t)
    ensures Terminal(s) || (CanTransition(s, Lost) && CanTransition(s, Cancelled))
    ensures Terminal(s) <==> s != Pending && s != Running
  {
    if !Terminal(s) {
      assert CanTransition(s, Lost);
    }
  }

  /** The edges, one by one: a result follows "running" and no other status. */
  lemma Edges(from: Status, to: Status)
    ensures CanTransition(from, to)
       <==> || (from == Pending && to in {Running, Cancelled, Skipped, Lost})
            || (from == Running && to in {Success, Failed, Timeout, Cancelled, Lost})
  {
  }

  // ----- the order behind Aggregate

  /** The levels a run status ranges over, least first: an empty run counts as
      a success, and cancelled ranks below every diagnosed outcome. */
  const LEVELS: seq<Status> := [Success, Cancelled, Lost, Failed, Timeout, Running]

  function Level(s: Status): (n: nat)
    ensures n < |LEVELS|
  {
    match s
    case Success => 0
    case Skipped => 0
    case Cancelled => 1
    case Lost => 2
    case Failed => 3
    case Timeout => 4
    case Pending => 5
    case Running => 5
  }

  function Max(a: nat, b: nat): nat { if a < b then b else a }

  function TopLevel(statuses: seq<Status>): (n: nat)
    ensures n < |LEVELS|
  {
    if statuses == [] then 0 else Max(TopLevel(statuses[..|statuses| - 1]), Level(statuses[|statuses| - 1]))
  }

  /** The run status: the highest level any target is at. */
  function RunStatus(statuses: seq<Status>): Status { LEVELS[TopLevel(statuses)] }

  function Join(a: Status, b: Status): Status { LEVELS[Max(Level(a), Level(b))] }

  lemma {:induction false} TopLevelConcat(a: seq<Status>, b: seq<Status>)
    ensures TopLevel(a + b) == Max(TopLevel(a), TopLevel(b))
  {
    if b == [] {
      assert a + b == a;
    } else {
      var init := b[..|b| - 1];
      assert (a + b)[..|a + b| - 1] == a + init;
      TopLevelConcat(a, init);
    }
  }

  /** Aggregating two groups of targets is joining their run statuses. */
  lemma RunStatusConcat(a: seq<Status>, b: seq<Status>)
    ensures RunStatus(a + b) == Join(RunStatus(a), RunStatus(b))
  {
    hide TopLevel;
    TopLevelConcat(a, b);
  }

  /** The level is reached by some target and exceeded by none. */
  lemma {:induction false} TopLevelIsMaximum(statuses: seq<Status>, n: nat)
    ensures TopLevel(statuses) <= n <==> forall s :: s in statuses ==> Level(s) <= n
  {
    if statuses == [] {
    } else {
      var init, last := statuses[..|statuses| - 1], statuses[|statuses| - 1];
      TopLevelIsMaximum(init, n);
      assert statuses == init + [last];
    }
  }

  /** The order of the targets, and how often a status repeats, do not matter. */
  lemma RunStatusOfSet(a: seq<Status>, b: seq<Status>)
    requires forall s :: s in a <==> s in b
    ensures RunStatus(a) == RunStatus(b)
  {
    TopLevelIsMaximum(a, TopLevel(a));
    TopLevelIsMaximum(a, TopLevel(b));
    TopLevelIsMaximum(b, TopLevel(a));
    TopLevelIsMaximum(b, TopLevel(b));
  }

  /** A run is still running exactly while a target is not terminal. */
  lemma RunningWhileOpen(statuses: seq<Status>)
    ensures Terminal(RunStatus(statuses)) <==> forall s :: s in statuses ==> Terminal(s)
  {
    TopLevelIsMaximum(statuses, 4);
  }

  /** A cancelled target decides the run's status only where every other target
      succeeded, was skipped or was cancelled too. */
  lemma CancelledIsNotHighest(statuses: seq<Status>)
    ensures RunStatus(statuses) == Cancelled
       <==> Cancelled in statuses && forall s :: s in statuses ==> s == Cancelled || s == Success || s == Skipped
  {
    hide TopLevel;
    TopLevelIsMaximum(statuses, 0);
    TopLevelIsMaximum(statuses, 1);
  }

  /** The run status, by what is there: the first of these that some target has. */
  function Worst(statuses: seq<Status>): Status {
    if Pending in statuses || Running in statuses then Running
    else if Timeout in statuses then Timeout
    else if Failed in statuses then Failed
    else if Lost in statuses then Lost
    else if Cancelled in statuses then Cancelled
    else Success
  }

  lemma WorstIsRunStatus(statuses: seq<Status>)
    ensures RunStatus(statuses) == Worst(statuses)
  {
    hide TopLevel;
    TopLevelIsMaximum(statuses, 0);
    TopLevelIsMaximum(statuses, 1);
    TopLevelIsMaximum(statuses, 2);
    TopLevelIsMaximum(statuses, 3);
    TopLevelIsMaximum(statuses, 4);
  }

  // ----- counting

  function Count(statuses: seq<Status>, s: Status): nat { multiset(statuses)[s] }

  function Counts(statuses: seq<Status>): Summary {
    Summary(|statuses|, Count(statuses, Pending), Count(statuses, Running), Count(statuses, Success),
            Count(statuses, Failed), Count(statuses, Timeout), Count(statuses, Cancelled),
            Count(statuses, Lost), Count(statuses, Skipped))
  }

  function Parts(s: Summary): nat {
    s.pending + s.running + s.success + s.failed + s.timeout + s.cancelled + s.lost + s.skipped
  }

  function Add(a: Summary, b: Summary): Summary {
    Summary(a.total + b.total, a.pending + b.pending, a.running + b.running, a.success + b.success,
            a.failed + b.failed, a.timeout + b.timeout, a.cancelled + b.cancelled, a.lost + b.lost,
            a.skipped + b.skipped)
  }

  /** Every target is counted once, and counting is additive. */
  lemma {:induction false} CountsPartition(statuses: seq<Status>)
    ensures Parts(Counts(statuses)) == Counts(statuses).total == |statuses|
  {
    if statuses == [] {
    } else {
      var init, last := statuses[..|statuses| - 1], statuses[|statuses| - 1];
      CountsPartition(init);
      assert statuses == init + [last];
      CountsConcat(init, [last]);
      CountsOne(last);
      hide Counts;
    }
  }

  lemma CountsOne(s: Status)
    ensures Parts(Counts([s])) == 1
  {
  }

  lemma CountsConcat(a: seq<Status>, b: seq<Status>)
    ensures Counts(a + b) == Add(Counts(a), Counts(b))
  {
    assert multiset(a + b) == multiset(a) + multiset(b);
  }

  // ----- the code

  /** One pass of the counting switch. */
  function Tally(s: Summary, status: Status): Summary {
    match status
    case Pending => s.(pending := s.pending + 1)
    case Running => s.(running := s.running + 1)
    case Success => s.(success := s.success + 1)
    case Failed => s.(failed := s.failed + 1)
    case Timeout => s.(timeout := s.timeout + 1)
    case Cancelled => s.(cancelled := s.cancelled + 1)
    case Lost => s.(lost := s.lost + 1)
    case Skipped => s.(skipped := s.skipped + 1)
  }

  lemma TallyStep(statuses: seq<Status>, i: nat, total: nat)
    requires i < |statuses|
    ensures Counts(statuses[..i + 1]).(total := total) == Tally(Counts(statuses[..i]).(total := total), statuses[i])
  {
    assert statuses[..i + 1] == statuses[..i] + [statuses[i]];
    match statuses[i] {
      case Pending => case Running => case Success => case Failed =>
      case Timeout => case Cancelled => case Lost => case Skipped =>
    }
  }

  method Summarise(statuses: seq<Status>) returns (s: Summary)
    ensures s == Counts(statuses)
    ensures s.total == |statuses|
    ensures s.pending == multiset(statuses)[Pending] && s.running == multiset(statuses)[Running]
    ensures s.success == multiset(statuses)[Success] && s.failed == multiset(statuses)[Failed]
    ensures s.timeout == multiset(statuses)[Timeout] && s.cancelled == multiset(statuses)[Cancelled]
    ensures s.lost == multiset(statuses)[Lost] && s.skipped == multiset(statuses)[Skipped]
  {
    s := Summary(|statuses|, 0, 0, 0, 0, 0, 0, 0, 0);
    for i := 0 to |statuses|
      invariant s == Counts(statuses[..i]).(total := |statuses|)
    {
      TallyStep(statuses, i, |statuses|);
      s := Tally(s, statuses[i]);
    }
    assert statuses[..|statuses|] == statuses;
  }

  /** The counters and the switch over them compute the highest level. */
  method Aggregate(statuses: seq<Status>) returns (r: Status)
    ensures r == RunStatus(statuses) == Worst(statuses)
  {
    hide Counts, Tally, TopLevel, Worst;
    WorstIsRunStatus(statuses);
    if |statuses| == 0 {
      EmptyRun();
      return Success;
    }
    EmptyCounts(statuses[..0]);
    var counts := Summary(|statuses|, 0, 0, 0, 0, 0, 0, 0, 0);
    var allSuccess := true;
    for i := 0 to |statuses|
      invariant counts == Counts(statuses[..i]).(total := |statuses|)
      invariant allSuccess <==> forall j :: 0 <= j < i ==> statuses[j] == Success || statuses[j] == Skipped
    {
      TallyStep(statuses, i, |statuses|);
      counts := Tally(counts, statuses[i]);
      if statuses[i] != Success && statuses[i] != Skipped {
        allSuccess := false;
      }
    }
    assert statuses[..|statuses|] == statuses;
    LevelFromCounts(statuses);
    if counts.pending > 0 || counts.running > 0 {
      r := Running;
    } else if allSuccess {
      r := Success;
    } else if counts.cancelled > 0 && counts.failed == 0 && counts.timeout == 0 && counts.lost == 0 {
      r := Cancelled;
    } else if counts.timeout > 0 {
      r := Timeout;
    } else if counts.failed > 0 {
      r := Failed;
    } else if counts.lost > 0 {
      r := Lost;
    } else if counts.cancelled > 0 {
      r := Cancelled;
    } else {
      r := Success;
    }
  }

  lemma EmptyRun()
    ensures TopLevel([]) == 0
  {
  }

  lemma EmptyCounts(none: seq<Status>)
    requires none == []
    ensures Counts(none) == Summary(0, 0, 0, 0, 0, 0, 0, 0, 0)
  {
  }

  lemma LevelFromCounts(statuses: seq<Status>)
    ensures var c := Counts(statuses);
            TopLevel(statuses) ==
            if c.pending > 0 || c.running > 0 then 5 else if c.timeout > 0 then 4 else if c.failed > 0 then 3
            else if c.lost > 0 then 2 else if c.cancelled > 0 then 1 else 0
    ensures var c := Counts(statuses);
            (forall j :: 0 <= j < |statuses| ==> statuses[j] == Success || statuses[j] == Skipped)
            <==> c.pending == c.running == c.timeout == c.failed == c.lost == c.cancelled == 0
  {
    hide TopLevel;
    assert forall s :: s in statuses <==> multiset(statuses)[s] > 0;
    TopLevelIsMaximum(statuses, 0);
    TopLevelIsMaximum(statuses, 1);
    TopLevelIsMaximum(statuses, 2);
    TopLevelIsMaximum(statuses, 3);
    TopLevelIsMaximum(statuses, 4);
  }

  // ----- the client's twin

  function ClientRank(s: Status): int {
    match s
    case Cancelled => 6
    case Timeout => 5
    case Failed => 4
    case Lost => 3
    case Running => 2
    case Pending => 1
    case Skipped => 0
    case Success => -1
  }

  /** The browser's aggregate, which ranks cancelled highest and open targets lowest. */
  method ClientAggregate(statuses: seq<Status>) returns (worst: Status)
    ensures statuses == [] ==> worst == Pending
    ensures statuses != [] ==> worst in statuses && forall s :: s in statuses ==> ClientRank(s) <= ClientRank(worst)
    ensures ClientAgrees(statuses) <==> worst == RunStatus(statuses)
    ensures statuses != [] ==>
              worst == if Cancelled in statuses then Cancelled else if Timeout in statuses then Timeout
                       else if Failed in statuses then Failed else if Lost in statuses then Lost
                       else if Running in statuses then Running else if Pending in statuses then Pending
                       else if Skipped in statuses then Skipped else Success
  {
    if |statuses| == 0 {
      EmptyRun();
      return Pending;
    }
    worst := Success;
    for i := 0 to |statuses|
      invariant worst in statuses[..i] || worst == Success
      invariant forall j :: 0 <= j < i ==> ClientRank(statuses[j]) <= ClientRank(worst)
    {
      if ClientRank(statuses[i]) > ClientRank(worst) {
        worst := statuses[i];
      }
    }
    assert statuses[..|statuses|] == statuses;
    if worst == Success {
      assert statuses[0] == Success;
    }
    ClientWorst(statuses, worst);
  }

  /** When the browser and the server show the same run status: something ran,
      and either all targets are closed with no cancellation beside a worse
      outcome and no skip standing alone, or a target is running and none is
      cancelled or diagnosed. */
  predicate ClientAgrees(statuses: seq<Status>) {
    var diagnosed := Timeout in statuses || Failed in statuses || Lost in statuses;
    if statuses == [] then false
    else if Pending in statuses || Running in statuses then Running in statuses && Cancelled !in statuses && !diagnosed
    else if Cancelled in statuses then !diagnosed
    else diagnosed || Skipped !in statuses
  }

  lemma ClientWorst(statuses: seq<Status>, worst: Status)
    requires worst in statuses && forall s :: s in statuses ==> ClientRank(s) <= ClientRank(worst)
    ensures ClientAgrees(statuses) <==> worst == RunStatus(statuses)
  {
    hide TopLevel;
    TopLevelIsMaximum(statuses, 0);
    TopLevelIsMaximum(statuses, 1);
    TopLevelIsMaximum(statuses, 2);
    TopLevelIsMaximum(statuses, 3);
    TopLevelIsMaximum(statuses, 4);
  }
}
