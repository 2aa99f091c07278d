/** The scheduler's tick over stored jobs, and what it does over any number of
    ticks.  Stored times are UTC instants in nanoseconds. */
module Scheduler {
  import opened Text
  import opened Cron
  import opened CronSearch
  import opened Horizon
  import opened CronText

  datatype Job = Job(id: nat, kind: string, expr: string, enabled: bool, command: string, targets: seq<nat>,
                     lastRun: Option<int>, nextRun: Option<int>)

  // ----- one tick of one job

  predicate Considered(j: Job) { j.enabled && j.kind == "scheduled" && j.expr != "" }

  /** StartRun accepts the job: it has targets and a command. */
  predicate Runnable(j: Job) { j.targets != [] && j.command != "" }

  ghost predicate Due(j: Job, now: int) {
    Considered(j) && ExprOf(j.expr).Some? && j.nextRun.Some? && j.nextRun.value <= now
  }

  ghost predicate Starts(j: Job, now: int) { Due(j, now) && Runnable(j) }

  ghost function Ticked(j: Job, now: int): Job {
    if !Considered(j) || ExprOf(j.expr).None? then j
    else
      var next := Some(NextFire(ExprOf(j.expr).value, now) * NS_PER_MINUTE);
      if j.nextRun.None? then j.(lastRun := None, nextRun := next)
      else if j.nextRun.value <= now then j.(lastRun := Some(now), nextRun := next)
      else j
  }

  /** The runs started for the first n jobs, in listing order; runOf gives the
      fresh id of the run started for a listed job. */
  ghost function StartedRuns(rows: seq<Job>, now: int, n: nat, runOf: nat -> string): seq<string>
    requires n <= |rows|
  {
    if n == 0 then []
    else StartedRuns(rows, now, n - 1, runOf) + if Starts(rows[n - 1], now) then [runOf(n - 1)] else []
  }

  class Scheduler {
    /** The jobs table, in listing order. */
    var jobs: seq<Job>

    /** The body of the pass for one listed job; tells whether a run was started. */
    method TickRow(i: nat, now: int) returns (started: bool)
      requires i < |jobs|
      modifies this
      ensures jobs == old(jobs)[i := Ticked(old(jobs)[i], now)]
      ensures started <==> Starts(old(jobs)[i], now)
      ensures var j := old(jobs)[i];
              var live := j.enabled && j.kind == "scheduled" && j.expr != "" && Parses(j.expr);
              var due := live && j.nextRun.Some? && j.nextRun.value <= now;
              && (started <==> due && j.targets != [] && j.command != "")
              && (due ==> jobs[i].lastRun == Some(now))
              && (live && j.nextRun.None? ==> jobs[i].lastRun == None)
              && (live && (due || j.nextRun.None?) ==>
                    && ExprOf(j.expr).Some?
                    && jobs[i].nextRun == Some(NextFire(ExprOf(j.expr).value, now) * NS_PER_MINUTE))
              && (!due && !(live && j.nextRun.None?) ==> jobs[i] == j)
              && jobs[i] == j.(lastRun := jobs[i].lastRun, nextRun := jobs[i].nextRun)
    {
      hide ExprOf, NextFire, Parses;
      var j := jobs[i];
      ExprExactly(j.expr);
      started := false;
      if !j.enabled || j.kind != "scheduled" || j.expr == "" {
        return;
      }
      var parsed := ParseExpr(j.expr);
      if parsed.None? {
        return;
      }
      var due := false;
      if j.nextRun.None? {
        var next, _ := NextAfter(parsed.value, now);
        jobs := jobs[i := j.(lastRun := None, nextRun := Some(next * NS_PER_MINUTE))];
        return;
      }
      if j.nextRun.value <= now {
        due := true;
      }
      if !due {
        return;
      }
      var next, _ := NextAfter(parsed.value, now);
      // the bookkeeping advances before the start
      jobs := jobs[i := j.(lastRun := Some(now), nextRun := Some(next * NS_PER_MINUTE))];
      started := |j.targets| != 0 && j.command != "";
    }

    /** One pass over all jobs.  Returns the ids of the runs started. */
    method Tick(now: int, runOf: nat -> string) returns (started: seq<string>)
      modifies this
      ensures |jobs| == |old(jobs)| && forall i :: 0 <= i < |jobs| ==> jobs[i] == Ticked(old(jobs)[i], now)
      ensures started == StartedRuns(old(jobs), now, |old(jobs)|, runOf)
    {
      hide Ticked, Starts;
      started := [];
      var rows := jobs;
      for i := 0 to |rows|
        invariant |jobs| == |rows|
        invariant forall k :: 0 <= k < i ==> jobs[k] == Ticked(rows[k], now)
        invariant forall k :: i <= k < |rows| ==> jobs[k] == rows[k]
        invariant started == StartedRuns(rows, now, i, runOf)
      {
        var ok := TickRow(i, now);
        if ok {
          started := started + [runOf(i)];
        }
      }
    }

    /** Seed the next run from an expression; a bad one is refused. */
    method RecomputeNext(i: nat, expr: string, from: int) returns (ok: bool)
      requires i < |jobs|
      modifies this
      ensures ok <==> ExprOf(expr).Some?
      ensures !ok ==> jobs == old(jobs)
      ensures ok ==> jobs == old(jobs)[i := old(jobs)[i].(lastRun := None,
        nextRun := Some(NextFire(ExprOf(expr).value, from) * NS_PER_MINUTE))]
    {
      hide ExprOf, NextFire;
      var parsed := ParseExpr(expr);
      if parsed.None? {
        return false;
      }
      var next, _ := NextAfter(parsed.value, from);
      jobs := jobs[i := jobs[i].(lastRun := None, nextRun := Some(next * NS_PER_MINUTE))];
      return true;
    }
  }

  // ----- any number of ticks

  /** A matching minute of e starts in the half-open window (after, upTo]. */
  ghost predicate MatchIn(e: Expr, after: int, upTo: int) {
    exists x :: After(after, x) && x * NS_PER_MINUTE <= upTo && Matches(e, x)
  }

  /** A job that runs e: considered, startable, and parsing to e. */
  ghost predicate RunsExpr(j: Job, e: Expr) {
    Considered(j) && Runnable(j) && ExprOf(j.expr) == Some(e)
  }

  /** The stored next run is the first matching minute after t. */
  ghost predicate Armed(j: Job, e: Expr, t: int) {
    exists x :: j.nextRun == Some(x * NS_PER_MINUTE) && After(t, x) && Matches(e, x)
                && forall y :: After(t, y) && y < x ==> !Matches(e, y)
  }

  lemma NextFireArms(j: Job, e: Expr, now: int)
    requires FiresEveryYear(e) && ParsedWords(e) && j.nextRun == Some(NextFire(e, now) * NS_PER_MINUTE)
    ensures Armed(j, e, now)
  {
    hide Matches, FiresEveryYear, ParsedWords, NextFire, Limit;
    FiresInWindow(e, now);
    NextFireIsLeast(e, now);
  }

  /** An armed job is due exactly when a matching minute has come since, and is
      otherwise armed as it was. */
  lemma ArmedIsDue(j: Job, e: Expr, last: int, now: int)
    requires Armed(j, e, last) && last <= now
    ensures j.nextRun.Some? && (j.nextRun.value <= now <==> MatchIn(e, last, now))
    ensures j.nextRun.value > now ==> Armed(j, e, now)
  {
    hide Matches;
    var x :| j.nextRun == Some(x * NS_PER_MINUTE) && After(last, x) && Matches(e, x)
             && forall y :: After(last, y) && y < x ==> !Matches(e, y);
  }

  /** One tick, exactly: an armed job starts when a matching minute has come
      since it was armed, and is armed again either way. */
  lemma TickStep(j: Job, e: Expr, last: int, now: int)
    requires RunsExpr(j, e) && FiresEveryYear(e) && Armed(j, e, last) && last <= now
    ensures Starts(j, now) <==> MatchIn(e, last, now)
    ensures RunsExpr(Ticked(j, now), e) && Armed(Ticked(j, now), e, now)
    ensures Ticked(j, now).nextRun.Some? && Ticked(j, now).nextRun.value > now
  {
    hide Armed, MatchIn, FiresEveryYear, ParsedWords, NextFire, ExprOf;
    ParsedWordsOf(j.expr, e);
    ArmedIsDue(j, e, last, now);
    if j.nextRun.value <= now {
      NextFireArms(Ticked(j, now), e, now);
    }
    ArmedIsLater(Ticked(j, now), e, now);
  }

  ghost function Play(j: Job, times: seq<int>): Job {
    if times == [] then j else Ticked(Play(j, times[..|times| - 1]), times[|times| - 1])
  }

  predicate NonDecreasing(times: seq<int>) {
    forall i, k :: 0 <= i <= k < |times| ==> times[i] <= times[k]
  }

  lemma {:induction false} PlayArms(j: Job, e: Expr, seeded: int, times: seq<int>)
    requires RunsExpr(j, e) && FiresEveryYear(e) && Armed(j, e, seeded)
    requires NonDecreasing([seeded] + times)
    ensures var last := ([seeded] + times)[|times|];
            RunsExpr(Play(j, times), e) && Armed(Play(j, times), e, last)
  {
    hide RunsExpr, FiresEveryYear, Armed, Ticked;
    if times == [] {
    } else {
      var init, now := times[..|times| - 1], times[|times| - 1];
      assert [seeded] + init == ([seeded] + times)[..|times|];
      PlayArms(j, e, seeded, init);
      assert ([seeded] + times)[|times| - 1] <= ([seeded] + times)[|times|];
      TickStep(Play(j, init), e, ([seeded] + init)[|init|], now);
    }
  }

  /** Over any ticks with non-decreasing times, a job seeded for an expression
      that fires every year is started at a tick exactly when a matching minute
      has come since the tick before: minutes missed between two ticks collapse
      into one start, none is lost, and two starts are separated by one. */
  lemma StartsExactly(j: Job, e: Expr, seeded: int, times: seq<int>, k: nat)
    requires RunsExpr(j, e) && FiresEveryYear(e) && Armed(j, e, seeded)
    requires NonDecreasing([seeded] + times) && k < |times|
    ensures Starts(Play(j, times[..k]), times[k]) <==> MatchIn(e, ([seeded] + times)[k], times[k])
    ensures var after := Play(j, times[..k + 1]); after.nextRun.Some? && after.nextRun.value > times[k]
  {
    var all := [seeded] + times;
    hide RunsExpr, FiresEveryYear, Armed, Ticked, Starts, MatchIn;
    assert [seeded] + times[..k] == all[..k + 1];
    PlayArms(j, e, seeded, times[..k]);
    assert all[k] <= all[k + 1];
    TickStep(Play(j, times[..k]), e, all[k], times[k]);
    assert times[..k + 1][..k] == times[..k];
    assert Armed(Play(j, times[..k + 1]), e, times[k]);
    ArmedIsLater(Play(j, times[..k + 1]), e, times[k]);
  }

  lemma ArmedIsLater(j: Job, e: Expr, t: int)
    requires Armed(j, e, t)
    ensures j.nextRun.Some? && j.nextRun.value > t
  {
    hide Matches;
  }

  /** A first tick seeds a job without starting it. */
  lemma FirstTickSeeds(j: Job, e: Expr, now: int)
    requires RunsExpr(j, e) && FiresEveryYear(e) && j.nextRun == None
    ensures !Starts(j, now) && RunsExpr(Ticked(j, now), e) && Armed(Ticked(j, now), e, now)
  {
    hide ExprOf, NextFire, FiresEveryYear;
    ParsedWordsOf(j.expr, e);
    NextFireArms(Ticked(j, now), e, now);
  }

  /** A job just ticked is never started again at the same instant, whatever
      the instant, exactly when its expression fires every year.  Otherwise the
      search can give the zero time, which every tick finds due. */
  lemma NoDoubleFire(j: Job, e: Expr)
    requires RunsExpr(j, e) && j.nextRun == None
    ensures (forall now :: now >= 0 ==> !Starts(Ticked(j, now), now)) <==> FiresEveryYear(e)
  {
    hide ExprOf, NextFire, FiresEveryYear, ParsedWords;
    ParsedWordsOf(j.expr, e);
    AlwaysFires(e);
    forall now | now >= 0 ensures Starts(Ticked(j, now), now) <==> NextFire(e, now) == ZERO {
      hide Matches;
      NextFireIsLeast(e, now);
    }
  }

  /** Once the zero time is stored, the job is started at that tick and at every
      later one until the search succeeds again. */
  lemma ZeroTimeFiresEveryTick(j: Job, e: Expr, now: int, later: int)
    requires RunsExpr(j, e) && 0 <= now <= later
    requires j.nextRun == None || j.nextRun.value <= now
    requires NextFire(e, now) == ZERO
    ensures Starts(Ticked(j, now), later)
  {
    hide ExprOf, NextFire;
  }
}
