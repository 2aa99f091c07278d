/** The login rate limiter: a log of attempts, counted over a sliding window. */
module LoginLimiter {
  import opened Text
  import opened Sets

  /** A row of the attempt log; times are integers of one unit. */
  datatype Attempt = Attempt(user: string, ip: string, ok: bool, at: int)

  /** Ten minutes, in milliseconds. */
  const WINDOW: int := 600_000
  const MAX_FAILED: nat := 10

  /** What a login finds once the limiter has let it through. */
  datatype Facts = Facts(known: bool, disabled: bool, passwordOk: bool, totpEnabled: bool, secretOpens: bool,
                         totpOk: bool)

  datatype Verdict = Locked | BadCredentials | Unavailable | LoggedIn

  datatype Flight = Trying(user: string, ip: string) | Ended(verdict: Verdict)

  datatype State = State(log: seq<Attempt>, flights: map<nat, Flight>)

  const EMPTY := State([], map[])

  /** A login is two steps, its check and its record, and others may come between. */
  datatype Action =
    | Begin(flight: nat, username: string, ip: string, now: int)
    | Finish(flight: nat, facts: Facts, now: int)
    | Prune(now: int)

  function Keep(log: seq<Attempt>, p: Attempt -> bool): (kept: seq<Attempt>)
    ensures |kept| <= |log|
    ensures forall i :: 0 <= i < |kept| ==> p(kept[i]) && kept[i] in log
  {
    if log == [] then []
    else
      var n := |log| - 1;
      Keep(log[..n], p) + if p(log[n]) then [log[n]] else []
  }

  function Counted(since: int, user: string, ip: string): Attempt -> bool {
    (a: Attempt) => !a.ok && a.at >= since && (a.user == user || a.ip == ip)
  }

  function Survives(user: string, ip: string): Attempt -> bool {
    (a: Attempt) => !(!a.ok && (a.user == user || a.ip == ip))
  }

  function Since(cut: int): Attempt -> bool {
    (a: Attempt) => !(a.at < cut)
  }

  predicate IsLocked(log: seq<Attempt>, user: string, ip: string, now: int) {
    |Keep(log, Counted(now - WINDOW, user, ip))| >= MAX_FAILED
  }

  function Recorded(log: seq<Attempt>, user: string, ip: string, ok: bool, now: int): seq<Attempt> {
    (if ok then Keep(log, Survives(user, ip)) else log) + [Attempt(user, ip, ok, now)]
  }

  function VerdictOf(f: Facts): Verdict {
    if !f.known || f.disabled || !f.passwordOk then BadCredentials
    else if f.totpEnabled && !f.secretOpens then Unavailable
    else if f.totpEnabled && !f.totpOk then BadCredentials
    else LoggedIn
  }

  /** strings.TrimSpace. */
  function Trim(s: string): (r: string)
    ensures r != "" ==> !IsSpace(r[0]) && !IsSpace(r[|r| - 1])
    decreases |s|
  {
    if s == "" then ""
    else if IsSpace(s[0]) then Trim(s[1..])
    else if IsSpace(s[|s| - 1]) then Trim(s[..|s| - 1])
    else s
  }

  predicate Enabled(s: State, a: Action) {
    match a
    case Begin(f, _, _, _) => f !in s.flights
    case Finish(f, _, _) => f in s.flights && s.flights[f].Trying?
    case Prune(_) => true
  }

  function Apply(s: State, a: Action): State
    requires Enabled(s, a)
  {
    match a
    case Begin(f, username, ip, now) =>
      var user := Trim(username);
      s.(flights := s.flights[f := if IsLocked(s.log, user, ip, now) then Ended(Locked) else Trying(user, ip)])
    case Finish(f, facts, now) =>
      var t, v := s.flights[f], VerdictOf(facts);
      State(if v == Unavailable then s.log
        else Recorded(s.log, t.user, t.ip, v == LoggedIn, now), s.flights[f := Ended(v)])
    case Prune(now) => s.(log := Keep(s.log, Since(now - 2 * WINDOW)))
  }

  // ----- the service

  /** The rows are the old ones, less the failures a success deletes, and then the new one. */
  ghost predicate RowsAre(rows: seq<Attempt>, before: seq<Attempt>, user: string, ip: string, ok: bool, now: int) {
    && rows != [] && rows[|rows| - 1] == Attempt(user, ip, ok, now)
    && (!ok ==> rows[..|rows| - 1] == before)
    && (ok ==> forall a :: multiset(rows[..|rows| - 1])[a]
                 == if !a.ok && (a.user == user || a.ip == ip) then 0 else multiset(before)[a])
  }

  class Service {
    var attempts: seq<Attempt>
    var flights: map<nat, Flight>

    ghost function View(): State
      reads this
    {
      State(attempts, flights)
    }

    constructor ()
      ensures View() == EMPTY
    {
      attempts, flights := [], map[];
    }

    method RecordAttempt(user: string, ip: string, ok: bool, now: int)
      modifies this`attempts
      ensures attempts == Recorded(old(attempts), user, ip, ok, now)
      ensures RowsAre(attempts, old(attempts), user, ip, ok, now)
    {
      hide Keep;
      KeepExactly(attempts, Survives(user, ip));
      if ok {
        attempts := Keep(attempts, Survives(user, ip));
      }
      attempts := attempts + [Attempt(user, ip, ok, now)];
    }

    /** Login as far as the limiter. */
    method LoginBegin(f: nat, username: string, ip: string, now: int)
      requires Enabled(View(), Begin(f, username, ip, now))
      modifies this
      ensures View() == Apply(old(View()), Begin(f, username, ip, now))
      ensures var user := Trim(username);
              var failed := set i | 0 <= i < |attempts| && !attempts[i].ok && attempts[i].at >= now - 600_000
                                    && (attempts[i].user == user || attempts[i].ip == ip);
              flights == old(flights)[f := if |failed| >= 10 then Ended(Locked) else Trying(user, ip)]
      ensures attempts == old(attempts)
    {
      hide Keep, Trim;
      var user := Trim(username);
      LockedExactly(attempts, user, ip, now);
      if IsLocked(attempts, user, ip, now) {
        flights := flights[f := Ended(Locked)];
        return;
      }
      flights := flights[f := Trying(user, ip)];
    }

    /** The rest of Login; facts are what its queries and checks answer. */
    method LoginFinish(f: nat, facts: Facts, now: int) returns (v: Verdict)
      requires Enabled(View(), Finish(f, facts, now))
      modifies this
      ensures View() == Apply(old(View()), Finish(f, facts, now)) && flights[f] == Ended(v)
      ensures v == LoggedIn <==> facts.known && !facts.disabled && facts.passwordOk
                                 && (facts.totpEnabled ==> facts.secretOpens && facts.totpOk)
      ensures v == Unavailable <==> facts.known && !facts.disabled && facts.passwordOk
                                    && facts.totpEnabled && !facts.secretOpens
      ensures v != Locked && (v == Unavailable ==> attempts == old(attempts))
      ensures var t := old(flights)[f];
              v != Unavailable ==> RowsAre(attempts, old(attempts), t.user, t.ip, v == LoggedIn, now)
    {
      var t := flights[f];
      v := BadCredentials;
      if !facts.known {
        RecordAttempt(t.user, t.ip, false, now);
      } else if facts.disabled {
        RecordAttempt(t.user, t.ip, false, now);
      } else if !facts.passwordOk {
        RecordAttempt(t.user, t.ip, false, now);
      } else if facts.totpEnabled && !facts.secretOpens {
        v := Unavailable;
      } else if facts.totpEnabled && !facts.totpOk {
        RecordAttempt(t.user, t.ip, false, now);
      } else {
        RecordAttempt(t.user, t.ip, true, now);
        v := LoggedIn;
      }
      flights := flights[f := Ended(v)];
    }

    method PruneAttempts(now: int)
      modifies this
      ensures View() == Apply(old(View()), Prune(now))
      ensures forall a :: multiset(attempts)[a] == if a.at < now - 1_200_000 then 0 else multiset(old(attempts))[a]
    {
      hide Keep;
      KeepExactly(attempts, Since(now - 2 * WINDOW));
      attempts := Keep(attempts, Since(now - 2 * WINDOW));
    }
  }

  // ----- filters

  lemma KeepAppend(log: seq<Attempt>, a: Attempt, p: Attempt -> bool)
    ensures Keep(log + [a], p) == Keep(log, p) + if p(a) then [a] else []
  {
    assert (log + [a])[..|log|] == log;
  }

  lemma {:induction false} KeepKeep(log: seq<Attempt>, p: Attempt -> bool, q: Attempt -> bool, both: Attempt -> bool)
    requires forall a :: both(a) <==> p(a) && q(a)
    ensures Keep(Keep(log, p), q) == Keep(log, both)
  {
    if log == [] {
    } else {
      var n := |log| - 1;
      KeepKeep(log[..n], p, q, both);
      if p(log[n]) {
        KeepAppend(Keep(log[..n], p), log[n], q);
      } else {
        assert Keep(log, p) == Keep(log[..n], p);
      }
    }
  }

  /** What a filter leaves of each row. */
  lemma {:induction false} KeepRows(log: seq<Attempt>, p: Attempt -> bool)
    ensures forall a :: multiset(Keep(log, p))[a] == if p(a) then multiset(log)[a] else 0
  {
    hide Keep;
    if log == [] {
      KeepNone(p);
    } else {
      var n := |log| - 1;
      assert log == log[..n] + [log[n]];
      KeepRows(log[..n], p);
      KeepAppend(log[..n], log[n], p);
    }
  }

  /** How many rows a filter leaves. */
  lemma {:induction false} KeepSize(log: seq<Attempt>, p: Attempt -> bool)
    ensures |Keep(log, p)| == |set i | 0 <= i < |log| && p(log[i])|
  {
    hide Keep;
    var all := set i | 0 <= i < |log| && p(log[i]);
    if log == [] {
      KeepNone(p);
      assert all == {};
    } else {
      var n := |log| - 1;
      var init := log[..n];
      assert log == init + [log[n]];
      KeepSize(init, p);
      KeepAppend(init, log[n], p);
      var some := set i | 0 <= i < |init| && p(init[i]);
      assert all == if p(log[n]) then some + {n} else some;
    }
  }

  lemma KeepExactly(log: seq<Attempt>, p: Attempt -> bool)
    ensures forall a :: multiset(Keep(log, p))[a] == if p(a) then multiset(log)[a] else 0
    ensures |Keep(log, p)| == |set i | 0 <= i < |log| && p(log[i])|
  {
    KeepRows(log, p);
    KeepSize(log, p);
  }

  /** Locked is ten failures of the user or the address in the last ten minutes. */
  lemma LockedExactly(log: seq<Attempt>, user: string, ip: string, now: int)
    ensures IsLocked(log, user, ip, now)
       <==> |set i | 0 <= i < |log| && !log[i].ok && log[i].at >= now - 600_000
                     && (log[i].user == user || log[i].ip == ip)| >= 10
  {
    var p := Counted(now - WINDOW, user, ip);
    KeepExactly(log, p);
    var failed := set i | 0 <= i < |log| && !log[i].ok && log[i].at >= now - 600_000
                          && (log[i].user == user || log[i].ip == ip);
    assert failed == set i | 0 <= i < |log| && p(log[i]);
  }

  /** Filters commute. */
  lemma KeepSwap(log: seq<Attempt>, p: Attempt -> bool, q: Attempt -> bool)
    ensures Keep(Keep(log, p), q) == Keep(Keep(log, q), p)
  {
    var both := a => p(a) && q(a);
    KeepKeep(log, p, q, both);
    KeepKeep(log, q, p, both);
  }

  lemma {:induction false} KeepFewer(log: seq<Attempt>, p: Attempt -> bool, q: Attempt -> bool)
    requires forall i :: 0 <= i < |log| && p(log[i]) ==> q(log[i])
    ensures |Keep(log, p)| <= |Keep(log, q)|
  {
    if log == [] {
    } else {
      KeepFewer(log[..|log| - 1], p, q);
    }
  }

  /** Removing rows never raises a count. */
  lemma KeepAfterRemoval(log: seq<Attempt>, r: Attempt -> bool, q: Attempt -> bool)
    ensures |Keep(Keep(log, r), q)| <= |Keep(log, q)|
  {
    KeepSwap(log, r, q);
  }

  // ----- any run

  function Exec(s: State, a: Action): State {
    if Enabled(s, a) then Apply(s, a) else s
  }

  function Play(actions: seq<Action>): State {
    if actions == [] then EMPTY else Exec(Play(actions[..|actions| - 1]), actions[|actions| - 1])
  }

  predicate Timely(actions: seq<Action>) {
    forall i, j :: 0 <= i < j < |actions| ==> actions[i].now <= actions[j].now
  }

  predicate NotAfter(log: seq<Attempt>, now: int) {
    forall i :: 0 <= i < |log| ==> log[i].at <= now
  }

  /** The logins the limiter has let through and that have not recorded an outcome yet. */
  function InFlight(s: State): set<nat> {
    set f | f in s.flights && s.flights[f].Trying?
  }

  /** What failures are counted by. */
  datatype Key = ByUser(user: string) | ByIp(ip: string)

  predicate Has(k: Key, user: string, ip: string) {
    match k case ByUser(u) => u == user case ByIp(i) => i == ip
  }

  function InFlightFor(s: State, k: Key): set<nat> {
    set f | f in s.flights && s.flights[f].Trying? && Has(k, s.flights[f].user, s.flights[f].ip)
  }

  function FailedIn(k: Key, lo: int): Attempt -> bool {
    (a: Attempt) => !a.ok && lo <= a.at <= lo + WINDOW && Has(k, a.user, a.ip)
  }

  /** Failures of k in the closed window that starts at lo. */
  function Failures(log: seq<Attempt>, k: Key, lo: int): nat {
    |Keep(log, FailedIn(k, lo))|
  }

  ghost predicate Bounded(s: State, now: int, limit: int) {
    && NotAfter(s.log, now)
    && (forall k :: Failures(s.log, k, now - WINDOW) + |InFlightFor(s, k)| <= limit)
    && (forall k, lo :: Failures(s.log, k, lo) <= limit)
  }

  /** As time passes the window only loses rows. */
  lemma LaterBounded(s: State, now: int, later: int, limit: int)
    requires Bounded(s, now, limit) && now <= later
    ensures Bounded(s, later, limit)
  {
    forall k ensures Failures(s.log, k, later - WINDOW) + |InFlightFor(s, k)| <= limit {
      KeepFewer(s.log, FailedIn(k, later - WINDOW), FailedIn(k, now - WINDOW));
    }
  }

  lemma RemovalBounded(s: State, r: Attempt -> bool, now: int, limit: int)
    requires Bounded(s, now, limit)
    ensures Bounded(s.(log := Keep(s.log, r)), now, limit)
  {
    var s' := s.(log := Keep(s.log, r));
    forall i | 0 <= i < |s'.log| ensures s'.log[i].at <= now {
      assert s'.log[i] in s.log;
    }
    forall k ensures Failures(s'.log, k, now - WINDOW) + |InFlightFor(s', k)| <= limit {
      KeepAfterRemoval(s.log, r, FailedIn(k, now - WINDOW));
      assert InFlightFor(s', k) == InFlightFor(s, k);
    }
    forall k, lo ensures Failures(s'.log, k, lo) <= limit {
      KeepAfterRemoval(s.log, r, FailedIn(k, lo));
      assert Failures(s.log, k, lo) <= limit;
    }
  }

  /** A login let through: fewer than ten failures count against its user or its
      address, and at most most logins are in flight with it. */
  lemma BeginBounded(s: State, f: nat, username: string, ip: string, now: int, most: nat)
    requires Bounded(s, now, 9 + most) && f !in s.flights
    requires |InFlight(Apply(s, Begin(f, username, ip, now)))| <= most
    ensures Bounded(Apply(s, Begin(f, username, ip, now)), now, 9 + most)
  {
    var s' := Apply(s, Begin(f, username, ip, now));
    var user := Trim(username);
    forall k ensures Failures(s'.log, k, now - WINDOW) + |InFlightFor(s', k)| <= 9 + most {
      if s'.flights[f].Trying? && Has(k, user, ip) {
        KeepFewer(s.log, FailedIn(k, now - WINDOW), Counted(now - WINDOW, user, ip));
        SubsetSize(InFlightFor(s', k), InFlight(s'));
      } else {
        assert InFlightFor(s', k) == InFlightFor(s, k);
      }
    }
  }

  lemma RecordBounded(s: State, f: nat, ok: bool, v: Verdict, now: int, limit: int)
    requires Bounded(s, now, limit) && f in s.flights && s.flights[f].Trying?
    ensures var t := s.flights[f];
            Bounded(State(s.log + [Attempt(t.user, t.ip, ok, now)], s.flights[f := Ended(v)]), now, limit)
  {
    var t := s.flights[f];
    var row := Attempt(t.user, t.ip, ok, now);
    var s' := State(s.log + [row], s.flights[f := Ended(v)]);
    forall k ensures Failures(s'.log, k, now - WINDOW) + |InFlightFor(s', k)| <= limit {
      KeepAppend(s.log, row, FailedIn(k, now - WINDOW));
      InFlightLess(s, f, v, s'.log, k);
    }
    forall k, lo ensures Failures(s'.log, k, lo) <= limit {
      KeepAppend(s.log, row, FailedIn(k, lo));
      assert Failures(s.log, k, lo) <= limit;
      if FailedIn(k, lo)(row) {
        KeepFewer(s.log, FailedIn(k, lo), FailedIn(k, now - WINDOW));
        InFlightLess(s, f, v, s'.log, k);
        assert Failures(s.log, k, now - WINDOW) + |InFlightFor(s, k)| <= limit;
      }
    }
  }

  lemma InFlightLess(s: State, f: nat, v: Verdict, log: seq<Attempt>, k: Key)
    requires f in s.flights && s.flights[f].Trying?
    ensures |InFlightFor(State(log, s.flights[f := Ended(v)]), k)|
         == |InFlightFor(s, k)| - if Has(k, s.flights[f].user, s.flights[f].ip) then 1 else 0
  {
    assert InFlightFor(State(log, s.flights[f := Ended(v)]), k) == InFlightFor(s, k) - {f};
  }

  lemma AbandonBounded(s: State, f: nat, v: Verdict, now: int, limit: int)
    requires Bounded(s, now, limit) && f in s.flights
    ensures Bounded(s.(flights := s.flights[f := Ended(v)]), now, limit)
  {
    var s' := s.(flights := s.flights[f := Ended(v)]);
    forall k ensures Failures(s.log, k, now - WINDOW) + |InFlightFor(s', k)| <= limit {
      SubsetSize(InFlightFor(s', k), InFlightFor(s, k));
    }
  }

  lemma FinishBounded(s: State, f: nat, facts: Facts, now: int, limit: int)
    requires Bounded(s, now, limit) && Enabled(s, Finish(f, facts, now))
    ensures Bounded(Apply(s, Finish(f, facts, now)), now, limit)
  {
    hide Bounded;
    var t, v := s.flights[f], VerdictOf(facts);
    if v == Unavailable {
      AbandonBounded(s, f, v, now, limit);
    } else if v == LoggedIn {
      RemovalBounded(s, Survives(t.user, t.ip), now, limit);
      RecordBounded(s.(log := Keep(s.log, Survives(t.user, t.ip))), f, true, v, now, limit);
    } else {
      RecordBounded(s, f, false, v, now, limit);
    }
  }

  lemma ExecBounded(s: State, a: Action, most: nat)
    requires Bounded(s, a.now, 9 + most) && |InFlight(Exec(s, a))| <= most
    ensures Bounded(Exec(s, a), a.now, 9 + most)
  {
    hide Bounded;
    if Enabled(s, a) {
      match a {
        case Begin(f, username, ip, now) => BeginBounded(s, f, username, ip, now, most);
        case Finish(f, facts, now) => FinishBounded(s, f, facts, now, 9 + most);
        case Prune(now) => RemovalBounded(s, Since(now - 2 * WINDOW), now, 9 + most);
      }
    }
  }

  ghost predicate AtMost(actions: seq<Action>, most: nat) {
    forall n :: 0 <= n <= |actions| ==> |InFlight(Play(actions[..n]))| <= most
  }

  lemma EmptyBounded(now: int, limit: nat)
    ensures Bounded(EMPTY, now, limit)
  {
    assert forall k :: InFlightFor(EMPTY, k) == {};
  }

  lemma {:induction false} PlayBounded(actions: seq<Action>, n: nat, most: nat, now: int)
    requires n <= |actions| && Timely(actions) && AtMost(actions, most)
    requires n > 0 ==> actions[n - 1].now <= now
    ensures Bounded(Play(actions[..n]), now, 9 + most)
    decreases n
  {
    hide Bounded, Exec;
    if n == 0 {
      EmptyBounded(now, 9 + most);
    } else {
      var a := actions[n - 1];
      PlayBounded(actions, n - 1, most, a.now);
      assert actions[..n][..n - 1] == actions[..n - 1];
      ExecBounded(Play(actions[..n - 1]), a, most);
      LaterBounded(Play(actions[..n]), a.now, now, 9 + most);
    }
  }

  /** In every run, with at most so many logins between their check and their
      record at any moment, no closed ten-minute window ever holds more than nine
      failures and that many more, for any username and for any address. One login
      at a time gives ten. */
  lemma WindowBound(actions: seq<Action>, most: nat, k: Key, lo: int)
    requires Timely(actions) && AtMost(actions, most)
    ensures Failures(Play(actions).log, k, lo) <= 9 + most
    ensures var log := Play(actions).log;
            |set i | 0 <= i < |log| && !log[i].ok && lo <= log[i].at <= lo + 600_000
                     && (if k.ByUser? then log[i].user == k.user else log[i].ip == k.ip)| <= 9 + most
  {
    hide Play, AtMost, Keep, Bounded;
    var now := if actions == [] then 0 else actions[|actions| - 1].now;
    PlayBounded(actions, |actions|, most, now);
    assert actions[..|actions|] == actions;
    BoundedWindow(Play(actions), now, 9 + most, k, lo);
  }

  lemma BoundedWindow(s: State, now: int, limit: int, k: Key, lo: int)
    requires Bounded(s, now, limit)
    ensures Failures(s.log, k, lo) <= limit
    ensures |set i | 0 <= i < |s.log| && !s.log[i].ok && lo <= s.log[i].at <= lo + 600_000
                     && (if k.ByUser? then s.log[i].user == k.user else s.log[i].ip == k.ip)| <= limit
  {
    hide Keep;
    var p := FailedIn(k, lo);
    KeepExactly(s.log, p);
    assert Failures(s.log, k, lo) <= limit;
    var failed := set i | 0 <= i < |s.log| && !s.log[i].ok && lo <= s.log[i].at <= lo + 600_000
                          && (if k.ByUser? then s.log[i].user == k.user else s.log[i].ip == k.ip);
    assert failed == set i | 0 <= i < |s.log| && p(s.log[i]);
  }

  // ----- recorded, not only stored

  /** The row a step records. */
  function RowOf(s: State, a: Action): seq<Attempt> {
    if a.Finish? && Enabled(s, a) && VerdictOf(a.facts) != Unavailable then
      [Attempt(s.flights[a.flight].user, s.flights[a.flight].ip, VerdictOf(a.facts) == LoggedIn, a.now)]
    else []
  }

  /** Every row a run has recorded, deleted since or not. */
  function History(actions: seq<Action>): seq<Attempt> {
    if actions == [] then []
    else
      var n := |actions| - 1;
      History(actions[..n]) + RowOf(Play(actions[..n]), actions[n])
  }

  /** No success of the window comes after a failure of k in it whose user or
      address it shares. */
  predicate Unwiped(history: seq<Attempt>, k: Key, lo: int) {
    forall i, j :: 0 <= i < j < |history| && FailedIn(k, lo)(history[i]) && Succeeds(history[j], lo) ==>
      history[i].user != history[j].user && history[i].ip != history[j].ip
  }

  /** A success no later than the window. */
  predicate Succeeds(a: Attempt, lo: int) {
    a.ok && a.at <= lo + WINDOW
  }

  lemma {:induction false} KeepAll(log: seq<Attempt>, p: Attempt -> bool, q: Attempt -> bool)
    requires forall i :: 0 <= i < |log| && q(log[i]) ==> p(log[i])
    ensures Keep(Keep(log, p), q) == Keep(log, q)
  {
    if log == [] {
    } else {
      var n := |log| - 1;
      KeepAll(log[..n], p, q);
      if p(log[n]) {
        KeepAppend(Keep(log[..n], p), log[n], q);
      } else {
        assert Keep(log, p) == Keep(log[..n], p);
      }
    }
  }

  lemma {:induction false} KeptIsThere(log: seq<Attempt>, p: Attempt -> bool, a: Attempt)
    ensures a in Keep(log, p) <==> a in log && p(a)
  {
    if log == [] {
    } else {
      var n := |log| - 1;
      KeptIsThere(log[..n], p, a);
      assert log == log[..n] + [log[n]];
    }
  }

  lemma KeepRow(log: seq<Attempt>, row: seq<Attempt>, p: Attempt -> bool)
    requires |row| <= 1
    ensures Keep(log + row, p) == Keep(log, p) + Keep(row, p)
  {
    if row == [] {
      assert log + row == log;
    } else {
      KeepAppend(log, row[0], p);
      assert row == [row[0]] && [] + row == row;
      KeepAppend([], row[0], p);
    }
  }

  /** One step, at a time no later than the window: the window's failures of k are
      stored as they were, with any the step records. */
  lemma WindowStep(s: State, a: Action, k: Key, lo: int)
    requires a.now <= lo + WINDOW
    requires forall r :: r in s.log && FailedIn(k, lo)(r) ==>
               forall w :: w in RowOf(s, a) && w.ok ==> r.user != w.user && r.ip != w.ip
    ensures Keep(Exec(s, a).log, FailedIn(k, lo)) == Keep(s.log, FailedIn(k, lo)) + Keep(RowOf(s, a), FailedIn(k, lo))
  {
    hide Keep, IsLocked, Trim;
    var p := FailedIn(k, lo);
    KeepRow(s.log, RowOf(s, a), p);
    KeepNone(p);
    if Enabled(s, a) {
      match a {
        case Begin(_, _, _, _) =>
        case Prune(now) => KeepAll(s.log, Since(now - 2 * WINDOW), p);
        case Finish(f, facts, now) =>
          var t := s.flights[f];
          if VerdictOf(facts) == LoggedIn {
            var row := Attempt(t.user, t.ip, true, now);
            assert row in RowOf(s, a);
            KeepAll(s.log, Survives(t.user, t.ip), p);
            KeepRow(Keep(s.log, Survives(t.user, t.ip)), [row], p);
          }
      }
    }
  }

  lemma KeepNone(p: Attempt -> bool)
    ensures Keep([], p) == []
  {
  }

  /** Up to the end of the window, what is stored of it is what was recorded of it. */
  lemma {:induction false} WindowStored(actions: seq<Action>, k: Key, lo: int)
    requires Unwiped(History(actions), k, lo) && forall i :: 0 <= i < |actions| ==> actions[i].now <= lo + WINDOW
    ensures Keep(Play(actions).log, FailedIn(k, lo)) == Keep(History(actions), FailedIn(k, lo))
  {
    hide Keep, Exec, RowOf, FailedIn;
    if actions == [] {
    } else {
      var n := |actions| - 1;
      var s, a, p := Play(actions[..n]), actions[n], FailedIn(k, lo);
      var before, row := History(actions[..n]), RowOf(s, a);
      RowAtNow(s, a);
      assert History(actions) == before + row;
      UnwipedPrefix(before, row, k, lo);
      WindowStored(actions[..n], k, lo);
      forall r | r in s.log && p(r) ensures forall w :: w in row && w.ok ==> r.user != w.user && r.ip != w.ip {
        KeptIsThere(s.log, p, r);
        KeptIsThere(before, p, r);
        var i :| 0 <= i < |before| && before[i] == r;
        assert (before + row)[i] == r && (row != [] ==> (before + row)[|before|] == row[0]);
      }
      WindowStep(s, a, k, lo);
      KeepRow(before, row, p);
    }
  }

  lemma RowAtNow(s: State, a: Action)
    ensures |RowOf(s, a)| <= 1 && forall i :: 0 <= i < |RowOf(s, a)| ==> RowOf(s, a)[i].at == a.now
  {
  }

  lemma UnwipedPrefix(before: seq<Attempt>, row: seq<Attempt>, k: Key, lo: int)
    requires Unwiped(before + row, k, lo)
    ensures Unwiped(before, k, lo)
  {
    var all := before + row;
    forall i, j | 0 <= i < j < |before| && FailedIn(k, lo)(before[i]) && Succeeds(before[j], lo)
      ensures before[i].user != before[j].user && before[i].ip != before[j].ip
    {
      assert all[i] == before[i] && all[j] == before[j];
    }
  }

  lemma HistoryUnfold(actions: seq<Action>)
    requires actions != []
    ensures var n := |actions| - 1;
            History(actions) == History(actions[..n]) + RowOf(Play(actions[..n]), actions[n])
  {
  }

  /** Steps after the window record nothing in it. */
  lemma {:induction false} AfterWindow(actions: seq<Action>, n: nat, k: Key, lo: int)
    requires n <= |actions| && forall i :: n <= i < |actions| ==> actions[i].now > lo + WINDOW
    ensures Keep(History(actions), FailedIn(k, lo)) == Keep(History(actions[..n]), FailedIn(k, lo))
    ensures History(actions[..n]) <= History(actions)
    decreases |actions|
  {
    if n == |actions| {
      assert actions[..n] == actions;
    } else {
      hide Keep, RowOf, History, Play;
      var m := |actions| - 1;
      var row, p := RowOf(Play(actions[..m]), actions[m]), FailedIn(k, lo);
      assert actions[..m][..n] == actions[..n];
      AfterWindow(actions[..m], n, k, lo);
      HistoryUnfold(actions);
      RowAtNow(Play(actions[..m]), actions[m]);
      KeepRow(History(actions[..m]), row, p);
      KeptNothing(row, p);
    }
  }

  lemma KeptNothing(row: seq<Attempt>, p: Attempt -> bool)
    requires forall i :: 0 <= i < |row| ==> !p(row[i])
    ensures Keep(row, p) == []
  {
    if Keep(row, p) != [] {
      KeptIsThere(row, p, Keep(row, p)[0]);
    }
  }

  /** Where the window ends in a run. */
  lemma {:induction false} WindowEnd(actions: seq<Action>, end: int) returns (n: nat)
    requires Timely(actions)
    ensures n <= |actions| && forall i :: 0 <= i < |actions| ==> (actions[i].now <= end <==> i < n)
  {
    if actions == [] {
      n := 0;
    } else {
      var m := |actions| - 1;
      if actions[m].now <= end {
        n := m + 1;
      } else {
        n := WindowEnd(actions[..m], end);
        assert forall i :: 0 <= i < m ==> actions[..m][i] == actions[i];
      }
    }
  }

  /** The failures of a window recorded at all, those a success has deleted since
      among them, are no more than nine and the logins in flight, when no success
      of the window comes after one whose user or address it shares. */
  lemma RecordedBound(actions: seq<Action>, most: nat, k: Key, lo: int)
    requires Timely(actions) && AtMost(actions, most) && Unwiped(History(actions), k, lo)
    ensures Failures(History(actions), k, lo) <= 9 + most
  {
    hide Keep, Play, History, FailedIn;
    var n := WindowEnd(actions, lo + WINDOW);
    var early := actions[..n];
    AfterWindow(actions, n, k, lo);
    UnwipedPrefix(History(early), History(actions)[|History(early)|..], k, lo);
    assert History(actions) == History(early) + History(actions)[|History(early)|..];
    WindowStored(early, k, lo);
    forall m | 0 <= m <= |early| ensures |InFlight(Play(early[..m]))| <= most {
      assert early[..m] == actions[..m];
    }
    WindowBound(early, most, k, lo);
  }

  /** Otherwise there is no bound: one login at a time, each miss of one user
      followed by another's success from the same address. */
  lemma {:induction false} MissAndWipe(n: nat) returns (actions: seq<Action>)
    ensures Timely(actions) && AtMost(actions, 1) && (forall i :: 0 <= i < |actions| ==> actions[i].now == 0)
    ensures Failures(History(actions), ByUser("u"), 0) == n
    ensures InFlight(Play(actions)) == {} && (forall f :: f in Play(actions).flights ==> f < 2 * n)
    ensures forall i :: 0 <= i < |Play(actions).log| ==> Play(actions).log[i].ok
  {
    if n == 0 {
      actions := [];
      assert InFlight(EMPTY) == {};
    } else {
      var before := MissAndWipe(n - 1);
      actions := OneWipe(before, 2 * n - 2);
    }
  }

  const RIGHT := Facts(true, false, true, false, false, false)

  /** One more miss, and the success that deletes it. */
  lemma OneWipe(before: seq<Action>, f: nat) returns (actions: seq<Action>)
    requires AtMost(before, 1) && forall i :: 0 <= i < |before| ==> before[i].now == 0
    requires InFlight(Play(before)) == {} && (forall g :: g in Play(before).flights ==> g < f)
    requires forall i :: 0 <= i < |Play(before).log| ==> Play(before).log[i].ok
    ensures AtMost(actions, 1) && forall i :: 0 <= i < |actions| ==> actions[i].now == 0
    ensures Failures(History(actions), ByUser("u"), 0) == Failures(History(before), ByUser("u"), 0) + 1
    ensures InFlight(Play(actions)) == {} && (forall g :: g in Play(actions).flights ==> g < f + 2)
    ensures forall i :: 0 <= i < |Play(actions).log| ==> Play(actions).log[i].ok
  {
    hide AtMost, History, Play, Keep;
    var log := Play(before).log;
    var miss, hit := Attempt("u", "a", false, 0), Attempt("v", "a", true, 0);
    var p := FailedIn(ByUser("u"), 0);
    TrimLetters();
    KeptNothing(log, Counted(-WINDOW, "u", "a"));
    KeptNothing(log, Counted(-WINDOW, "v", "a"));
    var first := OneLogin(before, f, "u", WRONG);
    KeepAppend(log, miss, Counted(-WINDOW, "v", "a"));
    actions := OneLogin(first, f + 1, "v", RIGHT);
    var wiped := Keep(log + [miss], Survives("v", "a"));
    forall i | 0 <= i < |wiped| ensures wiped[i].ok {
      assert wiped[i] in log + [miss] && Survives("v", "a")(wiped[i]);
    }
    KeepAppend(History(before), miss, p);
    KeepAppend(History(before) + [miss], hit, p);
  }

  lemma TrimLetters()
    ensures Trim("u") == "u" && Trim("v") == "v"
  {
  }

  lemma Extended(actions: seq<Action>, a: Action, most: nat)
    requires AtMost(actions, most) && |InFlight(Exec(Play(actions), a))| <= most
    ensures AtMost(actions + [a], most) && Play(actions + [a]) == Exec(Play(actions), a)
    ensures History(actions + [a]) == History(actions) + RowOf(Play(actions), a)
  {
    hide Exec, RowOf;
    var all := actions + [a];
    assert all[..|actions|] == actions && all[..|all|] == all;
    forall n | 0 <= n <= |all| ensures |InFlight(Play(all[..n]))| <= most {
      assert n <= |actions| ==> all[..n] == actions[..n];
    }
  }

  /** One login from address "a", let through and ended at once. */
  lemma OneLogin(before: seq<Action>, f: nat, user: string, facts: Facts) returns (actions: seq<Action>)
    requires AtMost(before, 1) && InFlight(Play(before)) == {} && f !in Play(before).flights
    requires Trim(user) == user && !IsLocked(Play(before).log, user, "a", 0) && VerdictOf(facts) != Unavailable
    ensures actions == before + [Begin(f, user, "a", 0), Finish(f, facts, 0)] && AtMost(actions, 1)
    ensures Play(actions).log == Recorded(Play(before).log, user, "a", VerdictOf(facts) == LoggedIn, 0)
    ensures Play(actions).flights == Play(before).flights[f := Ended(VerdictOf(facts))]
    ensures InFlight(Play(actions)) == {}
    ensures History(actions) == History(before) + [Attempt(user, "a", VerdictOf(facts) == LoggedIn, 0)]
  {
    hide AtMost, History, Play, IsLocked, Keep, Trim;
    var s, a, b := Play(before), Begin(f, user, "a", 0), Finish(f, facts, 0);
    var s1 := Exec(s, a);
    assert s1 == s.(flights := s.flights[f := Trying(user, "a")]);
    assert InFlight(s1) == InFlight(s) + {f};
    Extended(before, a, 1);
    var s2 := Exec(s1, b);
    assert s2.flights == s.flights[f := Ended(VerdictOf(facts))];
    assert InFlight(s2) == InFlight(s1) - {f} == {};
    Extended(before + [a], b, 1);
    actions := before + [a] + [b];
    assert actions == before + [a, b];
  }

  // ----- the bound is reached

  const MISS := Attempt("u", "a", false, 0)
  const WRONG := Facts(true, false, false, false, false, false)

  function Misses(n: nat): (log: seq<Attempt>)
    ensures |log| == n
  {
    if n == 0 then [] else Misses(n - 1) + [MISS]
  }

  /** Of total logins by one user from one address at one moment, the first have
      failed and the rest are in flight. */
  function Spread(failed: nat, total: nat): State {
    State(Misses(failed), Logins(failed, total))
  }

  function Logins(failed: nat, total: nat): (flights: map<nat, Flight>)
    ensures forall f: nat :: f in flights <==> f < total
    ensures forall f: nat :: f in flights ==>
      flights[f] == if f < failed then Ended(BadCredentials) else Trying("u", "a")
  {
    if total == 0 then map[]
    else Logins(failed, total - 1)[total - 1 := if total - 1 < failed then Ended(BadCredentials) else Trying("u", "a")]
  }

  /** The actions lead to that state, with at most so many logins in flight on the way. */
  ghost predicate Leads(actions: seq<Action>, failed: nat, total: nat, most: nat) {
    && (forall i :: 0 <= i < |actions| ==> actions[i].now == 0)
    && AtMost(actions, most) && Play(actions) == Spread(failed, total)
  }

  lemma {:induction false} MissesKept(n: nat, p: Attempt -> bool)
    ensures Keep(Misses(n), p) == if p(MISS) then Misses(n) else []
  {
    hide Keep;
    if n == 0 {
      KeepNone(p);
    } else {
      MissesKept(n - 1, p);
      KeepAppend(Misses(n - 1), MISS, p);
    }
  }

  lemma SpreadFlies(failed: nat, total: nat)
    ensures forall f: nat :: f in InFlight(Spread(failed, total)) <==> failed <= f < total
  {
    hide Logins, Misses;
  }

  lemma {:induction false} SpreadInFlight(failed: nat, total: nat)
    requires failed <= total
    ensures |InFlight(Spread(failed, total))| == total - failed
    decreases total
  {
    hide Spread, InFlight;
    SpreadFlies(failed, total);
    var now := InFlight(Spread(failed, total));
    if failed == total {
      assert now == {};
    } else {
      var fewer := InFlight(Spread(failed, total - 1));
      SpreadInFlight(failed, total - 1);
      SpreadFlies(failed, total - 1);
      assert now == fewer + {total - 1};
    }
  }

  lemma LeadsOn(actions: seq<Action>, a: Action, failed: nat, total: nat, failed': nat, total': nat, most: nat)
    requires Leads(actions, failed, total, most) && a.now == 0
    requires Exec(Spread(failed, total), a) == Spread(failed', total') && failed' <= total' <= failed' + most
    ensures Leads(actions + [a], failed', total', most)
  {
    hide Exec, Spread, AtMost, Play, History, InFlight;
    SpreadInFlight(failed', total');
    Extended(actions, a, most);
  }

  lemma TrimU()
    ensures Trim("u") == "u"
  {}

  /** While fewer than ten have failed, one more login is let through. */
  lemma OneMoreBegins(actions: seq<Action>, failed: nat, total: nat, most: nat)
    requires Leads(actions, failed, total, most) && failed < MAX_FAILED && failed <= total < failed + most
    ensures Leads(actions + [Begin(total, "u", "a", 0)], failed, total + 1, most)
  {
    hide Keep, Misses, Leads, Logins, Trim;
    MissesKept(failed, Counted(-WINDOW, "u", "a"));
    TrimU();
    var s := Exec(Spread(failed, total), Begin(total, "u", "a", 0));
    assert s.flights == Logins(failed, total + 1);
    LeadsOn(actions, Begin(total, "u", "a", 0), failed, total, failed, total + 1, most);
  }

  lemma OneMoreFails(actions: seq<Action>, failed: nat, total: nat, most: nat)
    requires Leads(actions, failed, total, most) && failed < total <= failed + most
    ensures Leads(actions + [Finish(failed, WRONG, 0)], failed + 1, total, most)
  {
    hide Keep, Leads, Logins;
    var s := Exec(Spread(failed, total), Finish(failed, WRONG, 0));
    assert s.flights == Logins(failed + 1, total);
    assert s.log == Misses(failed + 1);
    LeadsOn(actions, Finish(failed, WRONG, 0), failed, total, failed + 1, total, most);
  }

  lemma LeadsNowhere(most: nat)
    ensures Leads([], 0, 0, most)
  {
    assert Spread(0, 0) == EMPTY;
    assert InFlight(EMPTY) == {};
  }

  lemma {:induction false} Reaches(failed: nat, total: nat, most: nat) returns (actions: seq<Action>)
    requires failed <= total <= failed + most && total <= 9 + most && most > 0
    ensures Leads(actions, failed, total, most)
    decreases failed + total
  {
    hide Leads;
    if total == 0 {
      actions := [];
      LeadsNowhere(most);
    } else if failed < MAX_FAILED && failed < total {
      actions := Reaches(failed, total - 1, most);
      OneMoreBegins(actions, failed, total - 1, most);
      actions := actions + [Begin(total - 1, "u", "a", 0)];
    } else {
      actions := Reaches(failed - 1, total, most);
      OneMoreFails(actions, failed - 1, total, most);
      actions := actions + [Finish(failed - 1, WRONG, 0)];
    }
  }

  /** The bound of WindowBound is exact: so many logins in flight do reach it. */
  lemma WindowBoundReached(most: nat) returns (actions: seq<Action>)
    requires most > 0
    ensures Timely(actions) && AtMost(actions, most)
    ensures Failures(Play(actions).log, ByUser("u"), 0) == 9 + most
  {
    actions := Reaches(9 + most, 9 + most, most);
    MissesKept(9 + most, FailedIn(ByUser("u"), 0));
  }

  // ----- pruning cannot be seen

  function Unpruned(actions: seq<Action>): seq<Action> {
    if actions == [] then []
    else
      var n := |actions| - 1;
      Unpruned(actions[..n]) + if actions[n].Prune? then [] else [actions[n]]
  }

  /** The same logins, and the same rows from a time on. */
  predicate Twin(s: State, t: State, since: int) {
    s.flights == t.flights && Keep(s.log, Since(since)) == Keep(t.log, Since(since))
  }

  lemma KeepSuffices(x: seq<Attempt>, y: seq<Attempt>, p: Attempt -> bool, q: Attempt -> bool)
    requires Keep(x, p) == Keep(y, p) && forall a :: q(a) ==> p(a)
    ensures Keep(x, q) == Keep(y, q)
  {
    KeepKeep(x, p, q, q);
    KeepKeep(y, p, q, q);
  }

  lemma TwinAnswers(s: State, t: State, since: int, user: string, ip: string, now: int)
    requires Twin(s, t, since) && since <= now - WINDOW
    ensures IsLocked(s.log, user, ip, now) == IsLocked(t.log, user, ip, now)
  {
    KeepSuffices(s.log, t.log, Since(since), Counted(now - WINDOW, user, ip));
  }

  lemma TwinRecord(s: State, t: State, since: int, user: string, ip: string, ok: bool, now: int)
    requires Twin(s, t, since)
    ensures Keep(Recorded(s.log, user, ip, ok, now), Since(since))
      == Keep(Recorded(t.log, user, ip, ok, now), Since(since))
  {
    KeepSwap(s.log, Survives(user, ip), Since(since));
    KeepSwap(t.log, Survives(user, ip), Since(since));
    var x := if ok then Keep(s.log, Survives(user, ip)) else s.log;
    var y := if ok then Keep(t.log, Survives(user, ip)) else t.log;
    KeepAppend(x, Attempt(user, ip, ok, now), Since(since));
    KeepAppend(y, Attempt(user, ip, ok, now), Since(since));
  }

  lemma TwinStep(s: State, t: State, a: Action)
    requires Twin(s, t, a.now - WINDOW)
    ensures Twin(Exec(s, a), if a.Prune? then t else Exec(t, a), a.now - WINDOW)
  {
    hide Keep, IsLocked, Recorded, Trim;
    match a {
      case Begin(f, username, ip, now) => TwinAnswers(s, t, now - WINDOW, Trim(username), ip, now);
      case Finish(f, facts, now) =>
        if Enabled(s, a) {
          TwinRecord(s, t, now - WINDOW, s.flights[f].user, s.flights[f].ip, VerdictOf(facts) == LoggedIn, now);
        }
      case Prune(now) => KeepKeep(s.log, Since(now - 2 * WINDOW), Since(now - WINDOW), Since(now - WINDOW));
    }
  }

  lemma TwinLater(s: State, t: State, since: int, later: int)
    requires Twin(s, t, since) && since <= later
    ensures Twin(s, t, later)
  {
    KeepSuffices(s.log, t.log, Since(since), Since(later));
  }

  lemma UnprunedStep(actions: seq<Action>)
    requires actions != []
    ensures var n := |actions| - 1;
            var before := Play(Unpruned(actions[..n]));
            Play(Unpruned(actions)) == if actions[n].Prune? then before else Exec(before, actions[n])
  {
    hide Exec;
    var n := |actions| - 1;
    var all, before := Unpruned(actions), Unpruned(actions[..n]);
    if actions[n].Prune? {
      assert all == before;
    } else {
      assert all == before + [actions[n]];
      assert all[..|all| - 1] == before;
    }
  }

  lemma UnprunedNone(since: int)
    ensures Twin(Play([]), Play(Unpruned([])), since)
  {
    assert Unpruned([]) == [];
  }

  lemma {:induction false} PlayTwin(actions: seq<Action>, now: int)
    requires Timely(actions) && (actions != [] ==> actions[|actions| - 1].now <= now)
    ensures Twin(Play(actions), Play(Unpruned(actions)), now - WINDOW)
  {
    hide Twin, Exec, Unpruned;
    if actions == [] {
      UnprunedNone(now - WINDOW);
    } else {
      var n := |actions| - 1;
      var a := actions[n];
      PlayTwin(actions[..n], a.now);
      TwinStep(Play(actions[..n]), Play(Unpruned(actions[..n])), a);
      UnprunedStep(actions);
      TwinLater(Play(actions), Play(Unpruned(actions)), a.now - WINDOW, now - WINDOW);
    }
  }

  /** Pruning cannot be seen: every login of a run ends as it would have without
      the pruning, and so does every later question to the limiter. */
  lemma PruneInvisible(actions: seq<Action>, user: string, ip: string, now: int)
    requires Timely(actions) && forall i :: 0 <= i < |actions| ==> actions[i].now <= now
    ensures Play(actions).flights == Play(Unpruned(actions)).flights
    ensures IsLocked(Play(actions).log, user, ip, now) == IsLocked(Play(Unpruned(actions)).log, user, ip, now)
  {
    PlayTwin(actions, now);
    TwinAnswers(Play(actions), Play(Unpruned(actions)), now - WINDOW, user, ip, now);
  }

  // ----- the lock itself

  /** A success wipes the slate of its user and its address. */
  lemma SuccessUnlocks(log: seq<Attempt>, user: string, ip: string, at: int, now: int)
    ensures !IsLocked(Recorded(log, user, ip, true, at), user, ip, now)
  {
    var left := Keep(log, Survives(user, ip));
    var p := Counted(now - WINDOW, user, ip);
    KeepAppend(left, Attempt(user, ip, true, at), p);
    assert Keep(left, p) == [] by {
      if Keep(left, p) != [] {
        assert Survives(user, ip)(Keep(left, p)[0]) by {
          assert Keep(left, p)[0] in left;
        }
        assert false;
      }
    }
  }

  /** Spaces around a username do not change whose failures are counted. */
  lemma {:induction false} TrimPadded(pre: string, s: string, post: string)
    requires (forall i :: 0 <= i < |pre| ==> IsSpace(pre[i])) && forall i :: 0 <= i < |post| ==> IsSpace(post[i])
    ensures Trim(pre + s + post) == Trim(s)
    decreases |pre| + |s| + |post|
  {
    hide IsSpace;
    var whole := pre + s + post;
    if pre != "" {
      assert whole[1..] == pre[1..] + s + post;
      TrimPadded(pre[1..], s, post);
    } else if s == "" {
      if post != "" {
        assert whole[1..] == "" + "" + post[1..];
        TrimPadded("", "", post[1..]);
      }
    } else if IsSpace(s[0]) {
      assert whole[1..] == "" + s[1..] + post;
      TrimPadded("", s[1..], post);
    } else if post != "" {
      assert whole[0] == s[0] && whole[..|whole| - 1] == "" + s + post[..|post| - 1];
      TrimPadded("", s, post[..|post| - 1]);
    } else {
      assert whole == s;
    }
  }

  /** TrimSpace gives what is left between the outer spaces, and all of it. */
  lemma TrimExactly(pre: string, core: string, post: string)
    requires (forall i :: 0 <= i < |pre| ==> IsSpace(pre[i])) && forall i :: 0 <= i < |post| ==> IsSpace(post[i])
    requires core == "" || (!IsSpace(core[0]) && !IsSpace(core[|core| - 1]))
    ensures Trim(pre + core + post) == core
  {
    TrimPadded(pre, core, post);
  }
}
