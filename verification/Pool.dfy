/** The pool of connected clients and the steps of a concurrent Connect. */
module ClientPool {
  type HostId = string

  /** Where a call of Connect stands. */
  datatype Flight =
    | Dialling(host: HostId)
    | Holding(host: HostId, client: nat)
    | Losing(host: HostId, client: nat, kept: nat)
    | Returned(host: HostId, client: nat)
    | Refused

  /** A pooled client: when it was inserted, when a Connect was last given it, and
      whether its timer, set at its insert, has fired. */
  datatype Entry = Entry(client: nat, inserted: int, lastUsed: int, fired: bool)

  /** hosts lists every client ever dialled; a client is its index there.
      evictions are the timers that fired and whose evict has not run yet. */
  datatype State = State(idle: int, now: int, hosts: seq<HostId>, closed: set<nat>, dropped: set<nat>,
                         entries: map<HostId, Entry>, evictions: multiset<HostId>, flights: map<nat, Flight>)

  function Empty(idle: int): State {
    State(idle, 0, [], {}, {}, map[], multiset{}, map[])
  }

  datatype Action =
    | Lookup(flight: nat, host: HostId)
    | DialOk(flight: nat)
    | DialFailed(flight: nat)
    | Insert(flight: nat)
    | CloseOwn(flight: nat)
    | Drop(client: nat)
    | Fire(host: HostId)
    | Evict(host: HostId)
    | Invalidate(host: HostId)
    | CloseAll
    | Advance(to: int)

  function Deadline(s: State, e: Entry): int {
    e.inserted + s.idle
  }

  /** A timer fires at its deadline or later, and its evict runs later still. */
  predicate Enabled(s: State, a: Action) {
    match a
    case Lookup(f, _) => f !in s.flights
    case DialOk(f) => f in s.flights && s.flights[f].Dialling?
    case DialFailed(f) => f in s.flights && s.flights[f].Dialling?
    case Insert(f) => f in s.flights && s.flights[f].Holding?
    case CloseOwn(f) => f in s.flights && s.flights[f].Losing?
    case Drop(c) => c < |s.hosts|
    case Fire(h) => h in s.entries && !s.entries[h].fired && s.now >= Deadline(s, s.entries[h])
    case Evict(h) => h in s.evictions
    case Invalidate(_) => true
    case CloseAll => true
    case Advance(to) => s.now < to
  }

  /** removeLocked: closes and forgets the pooled client of a host, and stops its
      timer if that has not fired. */
  function Removed(s: State, host: HostId): State {
    if host in s.entries then s.(closed := s.closed + {s.entries[host].client}, entries := s.entries - {host}) else s
  }

  function Apply(s: State, a: Action): State
    requires Enabled(s, a)
  {
    match a
    case Lookup(f, host) =>
      if host in s.entries && s.entries[host].client !in s.dropped then
        s.(entries := s.entries[host := s.entries[host].(lastUsed := s.now)],
           flights := s.flights[f := Returned(host, s.entries[host].client)])
      else
        var r := Removed(s, host);
        r.(flights := r.flights[f := Dialling(host)])
    case DialOk(f) =>
      var host := s.flights[f].host;
      s.(hosts := s.hosts + [host], flights := s.flights[f := Holding(host, |s.hosts|)])
    case DialFailed(f) => s.(flights := s.flights[f := Refused])
    case Insert(f) =>
      var host, c := s.flights[f].host, s.flights[f].client;
      if host in s.entries then s.(flights := s.flights[f := Losing(host, c, s.entries[host].client)])
      else s.(entries := s.entries[host := Entry(c, s.now, s.now, false)], flights := s.flights[f := Returned(host, c)])
    case CloseOwn(f) =>
      var g := s.flights[f];
      s.(closed := s.closed + {g.client}, flights := s.flights[f := Returned(g.host, g.kept)])
    case Drop(c) => s.(dropped := s.dropped + {c})
    case Fire(h) => s.(entries := s.entries[h := s.entries[h].(fired := true)], evictions := s.evictions + multiset{h})
    case Evict(h) => Removed(s, h).(evictions := s.evictions - multiset{h})
    case Invalidate(h) => Removed(s, h)
    case CloseAll => s.(closed := s.closed + Clients(s.entries), entries := map[])
    case Advance(to) => s.(now := to)
  }

  function Clients(entries: map<HostId, Entry>): set<nat> {
    set h | h in entries :: entries[h].client
  }

  // ----- the three places of a client

  predicate Holds(g: Flight, c: nat) {
    (g.Holding? || g.Losing?) && g.client == c
  }

  ghost predicate Held(s: State, c: nat) {
    exists f :: f in s.flights && Holds(s.flights[f], c)
  }

  /** Pooled under its own host id. */
  predicate Pooled(s: State, c: nat) {
    c < |s.hosts| && s.hosts[c] in s.entries && s.entries[s.hosts[c]].client == c
  }

  predicate EntryOk(s: State, h: HostId)
    requires h in s.entries
  {
    var c := s.entries[h].client;
    c < |s.hosts| && s.hosts[c] == h && c !in s.closed
  }

  predicate FlightOk(s: State, g: Flight) {
    match g
    case Holding(h, c) => c < |s.hosts| && s.hosts[c] == h && c !in s.closed && !Pooled(s, c)
    case Losing(h, c, kept) => c < |s.hosts| && s.hosts[c] == h && c !in s.closed && !Pooled(s, c)
                               && kept != c && Handed(s, h, kept)
    case Returned(h, c) => Handed(s, h, c)
    case _ => true
  }

  /** A client a caller of Connect may be given: one for the host asked for, pooled or closed by now. */
  predicate Handed(s: State, h: HostId, c: nat) {
    c < |s.hosts| && s.hosts[c] == h && (Pooled(s, c) || c in s.closed)
  }

  ghost predicate Inv(s: State) {
    && (forall h :: h in s.entries ==> EntryOk(s, h))
    && (forall f :: f in s.flights ==> FlightOk(s, s.flights[f]))
    && (forall f, g, c: nat ::
          f in s.flights && g in s.flights && Holds(s.flights[f], c) && Holds(s.flights[g], c) ==> f == g)
    && (forall c :: 0 <= c < |s.hosts| ==> c in s.closed || Pooled(s, c) || Held(s, c))
    && (forall c :: c in s.closed ==> c < |s.hosts|)
  }

  /** Removing a pooled client moves it, and no other, to the closed ones. */
  lemma RemovedInv(s: State, host: HostId)
    requires Inv(s)
    ensures Inv(Removed(s, host))
  {
    var r := Removed(s, host);
    if host in s.entries {
      assert EntryOk(s, host);
      forall h | h in r.entries ensures EntryOk(r, h) {
        assert EntryOk(s, h);
      }
      forall c | 0 <= c < |r.hosts| ensures c in r.closed || Pooled(r, c) || Held(r, c) {
        if Held(s, c) {
          var f :| f in s.flights && Holds(s.flights[f], c);
          assert f in r.flights;
        }
      }
      forall f | f in r.flights ensures FlightOk(r, r.flights[f]) {
        assert FlightOk(s, s.flights[f]);
        StillHanded(s, r);
      }
    }
  }

  /** A client once handed out stays pooled or closed while no pooled client is forgotten unclosed. */
  lemma StillHanded(s: State, r: State)
    requires s.hosts <= r.hosts && s.closed <= r.closed
    requires forall c :: Pooled(s, c) ==> Pooled(r, c) || c in r.closed
    ensures forall h, c :: Handed(s, h, c) ==> Handed(r, h, c)
  {}

  /** A flight f moves on to g. */
  lemma FlightStep(s: State, f: nat, g: Flight)
    requires Inv(s) && FlightOk(s, g)
    requires f in s.flights ==> forall c: nat :: Holds(s.flights[f], c) ==> Holds(g, c)
    requires forall c: nat, f' :: Holds(g, c) && f' in s.flights && Holds(s.flights[f'], c) ==> f' == f
    ensures Inv(s.(flights := s.flights[f := g]))
  {
    var r := s.(flights := s.flights[f := g]);
    forall c: nat | Held(s, c) ensures Held(r, c) {
      var f' :| f' in s.flights && Holds(s.flights[f'], c);
      assert f' in r.flights && Holds(r.flights[f'], c);
    }
    forall h | h in r.entries ensures EntryOk(r, h) {
      assert EntryOk(s, h);
    }
    forall f' | f' in r.flights ensures FlightOk(r, r.flights[f']) {
      assert f' != f ==> FlightOk(s, s.flights[f']);
      assert forall c :: Pooled(s, c) <==> Pooled(r, c);
    }
  }

  lemma DialOkStep(s: State, f: nat)
    requires Inv(s) && Enabled(s, DialOk(f))
    ensures Inv(Apply(s, DialOk(f)))
  {
    var r := Apply(s, DialOk(f));
    var n := |s.hosts|;
    assert Holds(r.flights[f], n);
    forall h | h in r.entries ensures EntryOk(r, h) {
      assert EntryOk(s, h);
    }
    forall c: nat | Held(s, c) ensures Held(r, c) {
      var f' :| f' in s.flights && Holds(s.flights[f'], c);
      assert f' in r.flights && Holds(r.flights[f'], c);
    }
    forall f' | f' in r.flights ensures FlightOk(r, r.flights[f']) {
      assert f' != f ==> FlightOk(s, s.flights[f']);
      StillHanded(s, r);
    }
    forall f', g, c: nat | f' in r.flights && g in r.flights && Holds(r.flights[f'], c) && Holds(r.flights[g], c)
      ensures f' == g
    {
      assert f' != f ==> FlightOk(s, s.flights[f']);
      assert g != f ==> FlightOk(s, s.flights[g]);
    }
  }

  lemma InsertStep(s: State, f: nat)
    requires Inv(s) && Enabled(s, Insert(f))
    ensures Inv(Apply(s, Insert(f)))
  {
    var host, c := s.flights[f].host, s.flights[f].client;
    assert FlightOk(s, s.flights[f]) && Holds(s.flights[f], c);
    if host in s.entries {
      assert EntryOk(s, host);
      FlightStep(s, f, Losing(host, c, s.entries[host].client));
    } else {
      var r := Apply(s, Insert(f));
      forall h | h in r.entries ensures EntryOk(r, h) {
        assert h != host ==> EntryOk(s, h);
      }
      forall d: nat | Held(s, d) ensures Held(r, d) || Pooled(r, d) {
        var f' :| f' in s.flights && Holds(s.flights[f'], d);
        assert f' != f ==> f' in r.flights && Holds(r.flights[f'], d);
      }
      forall f' | f' in r.flights ensures FlightOk(r, r.flights[f']) {
        InsertFlight(s, f, f');
      }
    }
  }

  lemma InsertFlight(s: State, f: nat, f': nat)
    requires Inv(s) && Enabled(s, Insert(f)) && s.flights[f].host !in s.entries && f' in s.flights
    ensures FlightOk(Apply(s, Insert(f)), Apply(s, Insert(f)).flights[f'])
  {
    var c := s.flights[f].client;
    assert FlightOk(s, s.flights[f]) && FlightOk(s, s.flights[f']) && Holds(s.flights[f], c);
    assert f' != f ==> !Holds(s.flights[f'], c);
    StillHanded(s, Apply(s, Insert(f)));
  }

  lemma CloseOwnStep(s: State, f: nat)
    requires Inv(s) && Enabled(s, CloseOwn(f))
    ensures Inv(Apply(s, CloseOwn(f)))
  {
    var r := Apply(s, CloseOwn(f));
    var c := s.flights[f].client;
    assert FlightOk(s, s.flights[f]) && Holds(s.flights[f], c);
    forall h | h in r.entries ensures EntryOk(r, h) {
      assert EntryOk(s, h);
    }
    forall d: nat | Held(s, d) ensures Held(r, d) || d in r.closed {
      var f' :| f' in s.flights && Holds(s.flights[f'], d);
      assert f' != f ==> f' in r.flights && Holds(r.flights[f'], d);
    }
    forall f' | f' in r.flights ensures FlightOk(r, r.flights[f']) {
      assert FlightOk(s, s.flights[f']);
      assert f' != f ==> !Holds(s.flights[f'], c);
      StillHanded(s, r);
    }
  }

  lemma CloseAllStep(s: State)
    requires Inv(s)
    ensures Inv(Apply(s, CloseAll))
  {
    var r := Apply(s, CloseAll);
    forall c: nat | Held(s, c) ensures Held(r, c) {
      var f :| f in s.flights && Holds(s.flights[f], c);
      assert f in r.flights;
    }
    forall c | c in r.closed ensures c < |s.hosts| {
      if c in Clients(s.entries) {
        var h :| h in s.entries && s.entries[h].client == c;
        assert EntryOk(s, h);
      }
    }
    forall f | f in r.flights ensures FlightOk(r, r.flights[f]) {
      assert FlightOk(s, s.flights[f]);
      StillHanded(s, r);
      forall h | h in s.entries ensures EntryOk(s, h) && Pooled(s, s.entries[h].client) {
        assert EntryOk(s, h);
      }
    }
  }

  /** A step that changes only the times and timers of entries, and flights not at all. */
  lemma SamePoolInv(s: State, r: State)
    requires Inv(s) && r.hosts == s.hosts && r.closed == s.closed && r.flights == s.flights &&
      r.entries.Keys == s.entries.Keys
    requires forall h :: h in s.entries ==> r.entries[h].client == s.entries[h].client
    ensures Inv(r)
  {
    forall h | h in r.entries ensures EntryOk(r, h) {
      assert EntryOk(s, h);
    }
    assert forall c :: Pooled(s, c) <==> Pooled(r, c);
    forall c: nat | Held(s, c) ensures Held(r, c) {
      var f :| f in s.flights && Holds(s.flights[f], c);
      assert f in r.flights;
    }
    forall f | f in r.flights ensures FlightOk(r, r.flights[f]) {
      assert FlightOk(s, s.flights[f]);
      StillHanded(s, r);
    }
  }

  lemma LookupStep(s: State, f: nat, host: HostId)
    requires Inv(s) && Enabled(s, Lookup(f, host))
    ensures Inv(Apply(s, Lookup(f, host)))
  {
    if host in s.entries && s.entries[host].client !in s.dropped {
      var r := s.(entries := s.entries[host := s.entries[host].(lastUsed := s.now)]);
      SamePoolInv(s, r);
      assert EntryOk(r, host);
      FlightStep(r, f, Returned(host, r.entries[host].client));
    } else {
      RemovedInv(s, host);
      FlightStep(Removed(s, host), f, Dialling(host));
    }
  }

  lemma EvictStep(s: State, h: HostId)
    requires Inv(s) && Enabled(s, Evict(h))
    ensures Inv(Apply(s, Evict(h)))
  {
    RemovedInv(s, h);
    SamePoolInv(Removed(s, h), Apply(s, Evict(h)));
  }

  lemma StepInv(s: State, a: Action)
    requires Inv(s) && Enabled(s, a)
    ensures Inv(Apply(s, a))
  {
    hide Inv;
    match a {
      case Lookup(f, host) => LookupStep(s, f, host);
      case DialOk(f) => DialOkStep(s, f);
      case DialFailed(f) => FlightStep(s, f, Refused);
      case Insert(f) => InsertStep(s, f);
      case CloseOwn(f) => CloseOwnStep(s, f);
      case Drop(c) => SamePoolInv(s, Apply(s, a));
      case Fire(h) => SamePoolInv(s, Apply(s, a));
      case Evict(h) => EvictStep(s, h);
      case Invalidate(host) => RemovedInv(s, host);
      case CloseAll => CloseAllStep(s);
      case Advance(to) => SamePoolInv(s, Apply(s, a));
    }
  }

  /** The clock and the timers: one that fired is past its deadline, and its evict
      is still to run. */
  predicate Timed(s: State) {
    s.idle > 0 && forall h :: h in s.entries ==> EntryTimed(s, h)
  }

  predicate EntryTimed(s: State, h: HostId)
    requires h in s.entries
  {
    var e := s.entries[h];
    e.inserted <= e.lastUsed <= s.now && (e.fired ==> Deadline(s, e) <= s.now && h in s.evictions)
  }

  lemma StepTimed(s: State, a: Action)
    requires Timed(s) && Enabled(s, a)
    ensures Timed(Apply(s, a)) && Apply(s, a).now >= s.now && Apply(s, a).idle == s.idle
  {
    hide Clients;
    forall h | h in Apply(s, a).entries ensures EntryTimed(Apply(s, a), h) {
      if h in s.entries {
        assert EntryTimed(s, h);
        EntryStep(s, a, h);
      }
    }
  }

  /** No step rejuvenates an entry, and only its own evict ends a fired one's wait. */
  lemma EntryStep(s: State, a: Action, h: HostId)
    requires h in s.entries && EntryTimed(s, h) && Enabled(s, a) && h in Apply(s, a).entries
    ensures EntryTimed(Apply(s, a), h)
  {
    hide Clients, EntryTimed;
    EntryKept(s, a, h);
    EntryTimedKept(s, Apply(s, a), h, a.Fire? && a.host == h);
  }

  lemma EntryKept(s: State, a: Action, h: HostId)
    requires h in s.entries && Enabled(s, a) && h in Apply(s, a).entries
    ensures var s', e, e' := Apply(s, a), s.entries[h], Apply(s, a).entries[h];
            && s'.idle == s.idle && s'.now >= s.now
            && (h in s.evictions ==> h in s'.evictions)
            && (e' == e || e' == e.(lastUsed := s.now) || (e' == e.(fired := true) && a == Fire(h)))
            && (a == Fire(h) ==> Deadline(s, e) <= s.now && h in s'.evictions)
  {
    hide Clients;
  }

  lemma EntryTimedKept(s: State, s': State, h: HostId, fires: bool)
    requires h in s.entries && h in s'.entries && EntryTimed(s, h) && s'.idle == s.idle && s'.now >= s.now
    requires h in s.evictions ==> h in s'.evictions
    requires var e, e' := s.entries[h], s'.entries[h];
             e' == e || e' == e.(lastUsed := s.now) || (e' == e.(fired := true) && fires)
    requires fires ==> Deadline(s, s.entries[h]) <= s.now && h in s'.evictions
    ensures EntryTimed(s', h)
  {
  }

  ghost predicate Run(trace: seq<State>, actions: seq<Action>) {
    && |trace| == |actions| + 1 && trace[0].idle > 0 && trace[0] == Empty(trace[0].idle)
    && forall i :: 0 <= i < |actions| ==> Enabled(trace[i], actions[i]) && trace[i + 1] == Apply(trace[i], actions[i])
  }

  lemma {:induction false} RunInv(trace: seq<State>, actions: seq<Action>, i: nat)
    requires Run(trace, actions) && i < |trace|
    ensures Inv(trace[i]) && Timed(trace[i]) && trace[i].idle == trace[0].idle
    decreases i
  {
    if i == 0 {
    } else {
      hide Inv, Timed, Apply, Enabled;
      RunInv(trace, actions, i - 1);
      StepInv(trace[i - 1], actions[i - 1]);
      StepTimed(trace[i - 1], actions[i - 1]);
    }
  }

  /** Conservation: in every interleaving, each dialled client is in exactly one
      place, held by exactly one call of Connect, pooled under its own host, or
      closed; and each pool entry is a client of its host. */
  lemma OnePlace(trace: seq<State>, actions: seq<Action>, i: nat, c: nat)
    requires Run(trace, actions) && i < |trace| && c < |trace[i].hosts|
    ensures var s := trace[i];
            && (c in s.closed || Pooled(s, c) || Held(s, c))
            && !(c in s.closed && Pooled(s, c)) && !(c in s.closed && Held(s, c)) && !(Pooled(s, c) && Held(s, c))
            && (forall f, g ::
                  f in s.flights && g in s.flights && Holds(s.flights[f], c) && Holds(s.flights[g], c) ==> f == g)
            && (forall h :: h in s.entries && s.entries[h].client == c ==> h == s.hosts[c])
  {
    RunInv(trace, actions, i);
    var s := trace[i];
    if Pooled(s, c) {
      assert EntryOk(s, s.hosts[c]);
    }
    if f :| f in s.flights && Holds(s.flights[f], c) {
      assert FlightOk(s, s.flights[f]);
    }
    forall h | h in s.entries && s.entries[h].client == c ensures h == s.hosts[c] {
      assert EntryOk(s, h);
    }
  }

  /** A call of Connect that returned gave a client of the host it asked for, and
      no other call still holds it. */
  lemma ReturnedIsOwn(trace: seq<State>, actions: seq<Action>, i: nat, f: nat)
    requires Run(trace, actions) && i < |trace|
    requires f in trace[i].flights && trace[i].flights[f].Returned?
    ensures var s, g := trace[i], trace[i].flights[f];
            g.client < |s.hosts| && s.hosts[g.client] == g.host && !Held(s, g.client)
  {
    var s, g := trace[i], trace[i].flights[f];
    RunInv(trace, actions, i);
    assert FlightOk(s, g);
    OnePlace(trace, actions, i, g.client);
  }

  /** What takes a client out of the pool, and closes it whoever is using it: an
      eviction or invalidation of its host, CloseAll, or a Connect that finds its
      transport dropped. */
  predicate Takes(s: State, a: Action, c: nat) {
    c < |s.hosts| &&
    match a
    case Evict(host) => host == s.hosts[c]
    case Invalidate(host) => host == s.hosts[c]
    case CloseAll => true
    case Lookup(_, host) => host == s.hosts[c] && c in s.dropped
    case _ => false
  }

  lemma LeavesPool(s: State, a: Action, c: nat)
    requires Inv(s) && Enabled(s, a) && Pooled(s, c)
    ensures Takes(s, a, c) <==> !Pooled(Apply(s, a), c)
    ensures Takes(s, a, c) <==> c in Apply(s, a).closed
    ensures !Takes(s, a, c) ==> Apply(s, a).entries[s.hosts[c]].inserted == s.entries[s.hosts[c]].inserted
  {
    hide Apply, Takes, Inv;
    InvEntries(s);
    assert EntryOk(s, s.hosts[c]);
    if a.CloseOwn? {
      CloseOwnElsewhere(s, a.flight, c);
    }
    match a {
      case Lookup(f, host) => LookupKeeps(s, f, host, c);
      case Evict(host) => EvictKeeps(s, host, c);
      case Invalidate(host) => InvalidateKeeps(s, host, c);
      case CloseAll => CloseAllKeeps(s, c);
      case Insert(f) => InsertKeeps(s, f, c);
      case CloseOwn(f) => CloseOwnKeeps(s, f, c);
      case _ => OtherKeeps(s, a, c);
    }
    TakesKeeps(s, a, c);
  }

  lemma InvEntries(s: State)
    requires Inv(s)
    ensures forall h :: h in s.entries ==> EntryOk(s, h)
  {
  }

  lemma CloseOwnElsewhere(s: State, f: nat, c: nat)
    requires Inv(s) && Enabled(s, CloseOwn(f)) && Pooled(s, c)
    ensures s.flights[f].client != c
  {
    assert FlightOk(s, s.flights[f]);
  }

  /** The pooled client c is taken from the pool and closed, or keeps its entry. */
  predicate Keeps(s: State, r: State, c: nat, taken: bool)
    requires Pooled(s, c)
  {
    && |s.hosts| <= |r.hosts| && r.hosts[c] == s.hosts[c]
    && (taken <==> !Pooled(r, c)) && (taken <==> c in r.closed)
    && (Pooled(r, c) ==> r.entries[s.hosts[c]].inserted == s.entries[s.hosts[c]].inserted)
  }

  lemma RemovedKeeps(s: State, host: HostId, c: nat)
    requires Pooled(s, c) && c !in s.closed && (host in s.entries ==> EntryOk(s, host))
    ensures Keeps(s, Removed(s, host), c, host == s.hosts[c])
  {
  }

  lemma LookupKeeps(s: State, f: nat, host: HostId, c: nat)
    requires Pooled(s, c) && c !in s.closed && (host in s.entries ==> EntryOk(s, host)) && Enabled(s, Lookup(f, host))
    ensures Keeps(s, Apply(s, Lookup(f, host)), c, host == s.hosts[c] && c in s.dropped)
  {
    RemovedKeeps(s, host, c);
  }

  lemma EvictKeeps(s: State, host: HostId, c: nat)
    requires Pooled(s, c) && c !in s.closed && (host in s.entries ==> EntryOk(s, host)) && Enabled(s, Evict(host))
    ensures Keeps(s, Apply(s, Evict(host)), c, host == s.hosts[c])
  {
    RemovedKeeps(s, host, c);
    hide Removed;
  }

  lemma InvalidateKeeps(s: State, host: HostId, c: nat)
    requires Pooled(s, c) && c !in s.closed && (host in s.entries ==> EntryOk(s, host))
    ensures Keeps(s, Apply(s, Invalidate(host)), c, host == s.hosts[c])
  {
    RemovedKeeps(s, host, c);
  }

  lemma CloseAllKeeps(s: State, c: nat)
    requires Pooled(s, c) && c !in s.closed
    ensures Keeps(s, Apply(s, CloseAll), c, true)
  {
  }

  lemma InsertKeeps(s: State, f: nat, c: nat)
    requires Pooled(s, c) && c !in s.closed && Enabled(s, Insert(f))
    ensures Keeps(s, Apply(s, Insert(f)), c, false)
  {
  }

  lemma CloseOwnKeeps(s: State, f: nat, c: nat)
    requires Pooled(s, c) && c !in s.closed && Enabled(s, CloseOwn(f)) && s.flights[f].client != c
    ensures Keeps(s, Apply(s, CloseOwn(f)), c, false)
  {
  }

  lemma OtherKeeps(s: State, a: Action, c: nat)
    requires Pooled(s, c) && c !in s.closed && Enabled(s, a)
    requires a.DialOk? || a.DialFailed? || a.Drop? || a.Fire? || a.Advance?
    ensures Keeps(s, Apply(s, a), c, false)
  {
  }

  /** Takes names the steps that take. */
  lemma TakesKeeps(s: State, a: Action, c: nat)
    requires Pooled(s, c)
    ensures Takes(s, a, c) <==> match a
                                case Lookup(_, host) => host == s.hosts[c] && c in s.dropped
                                case Evict(host) => host == s.hosts[c]
                                case Invalidate(host) => host == s.hosts[c]
                                case CloseAll => true
                                case _ => false
  {
  }

  /** A Connect dials exactly when no pooled client of its host is up, and
      otherwise returns one that is. */
  lemma LookupDials(s: State, f: nat, host: HostId)
    requires Inv(s) && Enabled(s, Lookup(f, host))
    ensures var s' := Apply(s, Lookup(f, host));
            var g := s'.flights[f];
            && g.host == host
            && (g.Dialling? <==> forall c: nat :: Pooled(s, c) && s.hosts[c] == host ==> c in s.dropped)
            && (!g.Dialling? ==> g == Returned(host, g.client) && Pooled(s', g.client) && g.client !in s.dropped)
  {
    if host in s.entries {
      assert EntryOk(s, host) && Pooled(s, s.entries[host].client);
    }
  }

  /** CloseAll leaves every client closed exactly when no Connect holds one. */
  lemma CloseAllClosesAll(s: State)
    requires Inv(s)
    ensures (forall c :: 0 <= c < |s.hosts| ==> c in Apply(s, CloseAll).closed) <==>
      (forall f :: f in s.flights ==> !s.flights[f].Holding? && !s.flights[f].Losing?)
  {
    var r := Apply(s, CloseAll);
    CloseAllStep(s);
    if f :| f in s.flights && (s.flights[f].Holding? || s.flights[f].Losing?) {
      assert FlightOk(r, r.flights[f]);
      assert s.flights[f].client !in r.closed;
    } else {
      forall c | 0 <= c < |s.hosts| ensures c in r.closed {
        assert !Held(r, c) && !Pooled(r, c);
      }
    }
  }

  // ----- over any run

  /** A client stays pooled, with its insert time, until a step takes it, and is
      closed from then on. */
  lemma {:induction false} PooledUntilTaken(trace: seq<State>, actions: seq<Action>, i: nat, j: nat, c: nat)
    requires Run(trace, actions) && i <= j < |trace| && Pooled(trace[i], c)
    ensures c < |trace[j].hosts| && trace[j].hosts[c] == trace[i].hosts[c]
    ensures Pooled(trace[j], c) <==> forall k :: i <= k < j ==> !Takes(trace[k], actions[k], c)
    ensures Pooled(trace[j], c) <==> c !in trace[j].closed
    ensures Pooled(trace[j], c) ==>
      trace[j].entries[trace[j].hosts[c]].inserted == trace[i].entries[trace[i].hosts[c]].inserted
    decreases j
  {
    hide Apply, Enabled, Takes, Inv;
    if i == j {
    } else {
      PooledUntilTaken(trace, actions, i, j - 1, c);
      RunStep(trace, actions, j - 1, c);
      if Pooled(trace[j - 1], c) {
        RunInv(trace, actions, j - 1);
        LeavesPool(trace[j - 1], actions[j - 1], c);
      }
    }
    OnePlace(trace, actions, j, c);
  }

  /** Clients are never forgotten or opened again. */
  lemma RunStep(trace: seq<State>, actions: seq<Action>, i: nat, c: nat)
    requires Run(trace, actions) && i < |actions|
    ensures Enabled(trace[i], actions[i]) && trace[i + 1] == Apply(trace[i], actions[i])
    ensures c < |trace[i].hosts| ==> c < |trace[i + 1].hosts| && trace[i + 1].hosts[c] == trace[i].hosts[c]
    ensures c in trace[i].closed ==> c in trace[i + 1].closed
    ensures trace[i].now <= trace[i + 1].now
  {
    RunInv(trace, actions, i);
    StepTimed(trace[i], actions[i]);
  }

  /** The flight pools its client at this step. */
  predicate Inserts(s: State, a: Action, f: nat, c: nat) {
    a == Insert(f) && Enabled(s, a) && s.flights[f].client == c && s.flights[f].host !in s.entries
  }

  /** The eviction is by the client's own timer. */
  predicate OwnTimer(s: State, a: Action, c: nat) {
    Pooled(s, c) && a == Evict(s.hosts[c]) && s.entries[s.hosts[c]].fired
  }

  /** A Connect is given the pooled client by its first lookup. */
  predicate Uses(s: State, a: Action, c: nat) {
    a.Lookup? && Enabled(s, a) && Pooled(s, c) && c !in s.dropped && a.host == s.hosts[c]
  }

  lemma Inserted(trace: seq<State>, actions: seq<Action>, i: nat, f: nat, c: nat)
    requires Run(trace, actions) && i < |actions| && Inserts(trace[i], actions[i], f, c)
    ensures Pooled(trace[i + 1], c)
    ensures trace[i + 1].entries[trace[i + 1].hosts[c]].inserted == trace[i].now
  {
    RunInv(trace, actions, i);
    assert FlightOk(trace[i], trace[i].flights[f]);
  }

  /** No entry is left in the pool for more than late after its deadline; late is 0
      when timers and their evicts are punctual. */
  ghost predicate Late(trace: seq<State>, actions: seq<Action>, late: nat)
    requires |trace| == |actions| + 1
  {
    forall i, h :: 0 <= i < |actions| && actions[i].Advance? && h in trace[i].entries ==>
      actions[i].to <= Deadline(trace[i], trace[i].entries[h]) + late
  }

  predicate Within(s: State, late: nat) {
    forall h :: h in s.entries ==> s.now <= Deadline(s, s.entries[h]) + late
  }

  lemma WithinStep(s: State, a: Action, late: nat)
    requires Within(s, late) && Enabled(s, a) && s.idle > 0
    requires a.Advance? ==> forall h :: h in s.entries ==> a.to <= Deadline(s, s.entries[h]) + late
    ensures Within(Apply(s, a), late)
  {
    hide Clients;
  }

  lemma {:induction false} RunWithin(trace: seq<State>, actions: seq<Action>, late: nat, i: nat)
    requires Run(trace, actions) && Late(trace, actions, late) && i < |trace|
    ensures Within(trace[i], late)
    decreases i
  {
    if i == 0 {
    } else {
      hide Apply, Enabled, Within, Inv;
      RunWithin(trace, actions, late, i - 1);
      RunInv(trace, actions, i - 1);
      WithinStep(trace[i - 1], actions[i - 1], late);
    }
  }

  /** However often it is used, and however late timers are, a client inserted at T
      is not taken by its own timer before T + idle; and if none is later than late,
      it is pooled no longer than to T + idle + late. */
  lemma EvictedOnTime(trace: seq<State>, actions: seq<Action>, late: nat, i: nat, f: nat, c: nat, j: nat)
    requires Run(trace, actions) && i < j < |trace| && Inserts(trace[i], actions[i], f, c)
    ensures var due := trace[i].now + trace[0].idle;
            && (j < |actions| && OwnTimer(trace[j], actions[j], c) ==> due <= trace[j].now)
            && (Late(trace, actions, late) ==>
                  && (trace[j].now > due + late ==> c in trace[j].closed)
                  && (j < |actions| && OwnTimer(trace[j], actions[j], c) ==> trace[j].now <= due + late))
  {
    hide Apply, Enabled, Takes, Inv;
    Inserted(trace, actions, i, f, c);
    PooledUntilTaken(trace, actions, i + 1, j, c);
    RunInv(trace, actions, j);
    assert Pooled(trace[j], c) ==> EntryTimed(trace[j], trace[j].hosts[c]);
    if Late(trace, actions, late) {
      RunWithin(trace, actions, late, j);
    }
  }

  /** A client nothing else takes is evicted by its own timer, between T + idle and
      late after it, once the clock is past that. */
  lemma EvictedByTimer(trace: seq<State>, actions: seq<Action>, late: nat, i: nat, f: nat, c: nat, j: nat)
      returns (k: nat)
    requires Run(trace, actions) && Late(trace, actions, late)
    requires i < j < |trace| && Inserts(trace[i], actions[i], f, c)
    requires trace[j].now > trace[i].now + trace[0].idle + late
    requires forall m :: i < m < j && Takes(trace[m], actions[m], c) && Pooled(trace[m], c) ==>
               OwnTimer(trace[m], actions[m], c)
    ensures i < k < j && OwnTimer(trace[k], actions[k], c)
    ensures var due := trace[i].now + trace[0].idle; due <= trace[k].now <= due + late
  {
    hide Apply, Enabled, Takes, OwnTimer, Late, Inv;
    EvictedOnTime(trace, actions, late, i, f, c, j);
    Inserted(trace, actions, i, f, c);
    PooledUntilTaken(trace, actions, i + 1, j, c);
    k := FirstTaken(trace, actions, i + 1, j, c);
    EvictedOnTime(trace, actions, late, i, f, c, k);
  }

  lemma {:induction false} FirstTaken(trace: seq<State>, actions: seq<Action>, i: nat, j: nat, c: nat) returns (k: nat)
    requires Run(trace, actions) && i <= j < |trace| && Pooled(trace[i], c) && !Pooled(trace[j], c)
    ensures i <= k < j && Pooled(trace[k], c) && Takes(trace[k], actions[k], c)
    decreases j
  {
    hide Apply, Enabled, Takes, Pooled;
    if Pooled(trace[j - 1], c) {
      RunInv(trace, actions, j - 1);
      RunStep(trace, actions, j - 1, c);
      LeavesPool(trace[j - 1], actions[j - 1], c);
      k := j - 1;
    } else {
      k := FirstTaken(trace, actions, i, j - 1, c);
    }
  }

  /** Its own timer closes a client within the idle time of a use only when that
      use came later than its insert, and always when it came later by more than
      the timer is late: with punctual timers, exactly when it came later.  lastUsed
      moves with every use, but no deadline does. */
  lemma EvictedInUse(trace: seq<State>, actions: seq<Action>, late: nat, i: nat, f: nat, c: nat, m: nat, k: nat)
    requires Run(trace, actions) && i < m < k < |actions| && Inserts(trace[i], actions[i], f, c)
    requires Uses(trace[m], actions[m], c) && OwnTimer(trace[k], actions[k], c)
    ensures trace[k].now < trace[m].now + trace[0].idle ==> trace[m].now > trace[i].now
    ensures Late(trace, actions, late) && trace[m].now > trace[i].now + late ==>
              trace[k].now < trace[m].now + trace[0].idle
    ensures trace[m + 1].entries[trace[m].hosts[c]].lastUsed == trace[m].now
    ensures c in trace[k + 1].closed
  {
    hide Late, Inv;
    EvictedOnTime(trace, actions, late, i, f, c, k);
    RunInv(trace, actions, k);
    LeavesPool(trace[k], actions[k], c);
  }

  // ----- what a Connect returns

  lemma {:induction false} DroppedExactly(trace: seq<State>, actions: seq<Action>, i: nat, c: nat)
    requires Run(trace, actions) && i < |trace|
    ensures c in trace[i].dropped <==> exists k :: 0 <= k < i && actions[k] == Drop(c)
    decreases i
  {
    if i == 0 {
    } else {
      DroppedExactly(trace, actions, i - 1, c);
      DropsOnly(trace[i - 1], actions[i - 1], c);
      assert trace[i] == Apply(trace[i - 1], actions[i - 1]);
      hide Apply;
    }
  }

  lemma DropsOnly(s: State, a: Action, c: nat)
    requires Enabled(s, a)
    ensures c in Apply(s, a).dropped <==> c in s.dropped || a == Drop(c)
  {
  }

  /** A flight that lost the race: the step at which it did, with the winner's
      client pooled. */
  lemma {:induction false} LostAt(trace: seq<State>, actions: seq<Action>, i: nat, f: nat) returns (j: nat)
    requires Run(trace, actions) && i < |trace| && f in trace[i].flights && trace[i].flights[f].Losing?
    ensures j < i && actions[j] == Insert(f) && Pooled(trace[j + 1], trace[i].flights[f].kept)
    decreases i
  {
    hide Apply, Enabled, Inv, Pooled;
    NoneLosing(trace, actions, f);
    RunInv(trace, actions, i - 1);
    RunStep(trace, actions, i - 1, 0);
    var s := trace[i - 1];
    if f in s.flights && s.flights[f].Losing? {
      StillLosing(s, actions[i - 1], f);
      j := LostAt(trace, actions, i - 1, f);
    } else {
      BecomesLosing(s, actions[i - 1], f);
      j := i - 1;
    }
  }

  lemma NoneLosing(trace: seq<State>, actions: seq<Action>, f: nat)
    requires Run(trace, actions)
    ensures f !in trace[0].flights
  {
  }

  lemma StillLosing(s: State, a: Action, f: nat)
    requires Enabled(s, a) && f in s.flights && s.flights[f].Losing?
    ensures f in Apply(s, a).flights && (Apply(s, a).flights[f].Losing? ==> Apply(s, a).flights[f] == s.flights[f])
  {
  }

  lemma BecomesLosing(s: State, a: Action, f: nat)
    requires Inv(s) && Enabled(s, a) && !(f in s.flights && s.flights[f].Losing?)
    requires f in Apply(s, a).flights && Apply(s, a).flights[f].Losing?
    ensures a == Insert(f) && Pooled(Apply(s, a), Apply(s, a).flights[f].kept)
  {
    assert a == Insert(f);
    assert EntryOk(s, s.flights[f].host);
  }

  /** Which steps end a Connect with a client. */
  lemma Returns(s: State, a: Action, f: nat)
    requires Inv(s) && Enabled(s, a) && !(f in s.flights && s.flights[f].Returned?)
    requires f in Apply(s, a).flights && Apply(s, a).flights[f].Returned?
    ensures var s', c := Apply(s, a), Apply(s, a).flights[f].client;
            && s'.dropped == s.dropped
            && match a
               case Lookup(g, _) => g == f && c !in s.dropped && c !in s'.closed
               case Insert(g) => g == f && c == s.flights[f].client && c !in s'.closed
               case CloseOwn(g) => g == f && c == s.flights[f].kept && (c in s'.closed <==> c in s.closed)
               case _ => false
  {
    match a {
      case Lookup(g, h) => assert h in s.entries ==> EntryOk(s, h);
      case Insert(g) => assert FlightOk(s, s.flights[g]);
      case CloseOwn(g) => assert FlightOk(s, s.flights[g]);
      case _ =>
    }
  }

  /** When a Connect returns a client that is dropped or closed already.  One given
      by the first lookup is neither.  One it dialled itself is not closed, and is
      dropped exactly when its transport dropped before the insert.  One kept from
      the call that won the race is dropped exactly when its transport has dropped,
      and closed exactly when a step took it between the lost insert and the return. */
  lemma ReturnedStale(trace: seq<State>, actions: seq<Action>, i: nat, f: nat) returns (lost: nat)
    requires Run(trace, actions) && i < |actions| && !(f in trace[i].flights && trace[i].flights[f].Returned?)
    requires f in trace[i + 1].flights && trace[i + 1].flights[f].Returned?
    ensures var s', c := trace[i + 1], trace[i + 1].flights[f].client;
            match actions[i]
            case Lookup(_, _) => c !in s'.dropped && c !in s'.closed
            case Insert(_) => c !in s'.closed && (c in s'.dropped <==> exists k :: 0 <= k < i && actions[k] == Drop(c))
            case CloseOwn(_) =>
              && lost < i && actions[lost] == Insert(f)
              && (c in s'.dropped <==> exists k :: 0 <= k < i && actions[k] == Drop(c))
              && (c in s'.closed <==> exists k :: lost < k < i && Takes(trace[k], actions[k], c))
            case _ => false
  {
    hide Apply, Takes, Enabled, Inv;
    var c := trace[i + 1].flights[f].client;
    RunStep(trace, actions, i, c);
    RunInv(trace, actions, i);
    Returns(trace[i], actions[i], f);
    DroppedExactly(trace, actions, i, c);
    lost := 0;
    if actions[i] == CloseOwn(f) {
      ClosesLosing(trace[i], f);
      lost := LostAt(trace, actions, i, f);
      PooledUntilTaken(trace, actions, lost + 1, i, c);
    }
  }

  lemma ClosesLosing(s: State, f: nat)
    requires Enabled(s, CloseOwn(f))
    ensures f in s.flights && s.flights[f].Losing?
  {
  }

  // ----- and such runs exist

  ghost predicate Reachable(s: State) {
    exists trace, actions :: Run(trace, actions) && trace[|actions|] == s
  }

  lemma Start(idle: int)
    requires idle > 0
    ensures Reachable(Empty(idle))
  {
    assert Run([Empty(idle)], []);
  }

  lemma Then(s: State, a: Action, s': State)
    requires Reachable(s) && Enabled(s, a) && s' == Apply(s, a)
    ensures Reachable(s')
  {
    var trace, actions :| Run(trace, actions) && trace[|actions|] == s;
    var longer, all := trace + [Apply(s, a)], actions + [a];
    assert Run(longer, all) && longer[|all|] == Apply(s, a);
  }

  /** One client, inserted at 0, and used again at the moment its timer fires. */
  lemma UsedAtDeadline(h: HostId, idle: int)
    requires idle > 0
    ensures var s := State(idle, idle, [h], {}, {}, map[h := Entry(0, 0, idle, false)], multiset{},
      map[0 := Returned(h, 0), 1 := Returned(h, 0)]);
            Reachable(s) && Enabled(s, Fire(h))
  {
    hide Reachable;
    Start(idle);
    var s0 := Empty(idle);
    var s1 := s0.(flights := map[0 := Dialling(h)]);
    Then(s0, Lookup(0, h), s1);
    var s2 := s0.(hosts := [h], flights := map[0 := Holding(h, 0)]);
    Then(s1, DialOk(0), s2);
    var s3 := s2.(entries := map[h := Entry(0, 0, 0, false)], flights := map[0 := Returned(h, 0)]);
    Then(s2, Insert(0), s3);
    Then(s3, Advance(idle), s3.(now := idle));
    var s4 := s3.(now := idle, entries := map[h := Entry(0, 0, idle, false)],
      flights := map[0 := Returned(h, 0), 1 := Returned(h, 0)]);
    Then(s3.(now := idle), Lookup(1, h), s4);
  }

  /** Two Connects that raced: the loser closed its own live client and returned
      one whose transport dropped. */
  lemma DroppedReturned(h: HostId, idle: int)
    requires idle > 0
    ensures Reachable(State(idle, 0, [h, h], {1}, {0}, map[h := Entry(0, 0, 0, false)], multiset{},
      map[0 := Returned(h, 0), 1 := Returned(h, 0)]))
  {
    hide Reachable;
    TwoRacing(h, idle);
    var s3 := Empty(idle).(hosts := [h, h], flights := map[0 := Holding(h, 0), 1 := Holding(h, 1)]);
    var s4 := s3.(entries := map[h := Entry(0, 0, 0, false)], flights := map[0 := Returned(h, 0), 1 := Holding(h, 1)]);
    Then(s3, Insert(0), s4);
    var s5 := s4.(dropped := {0});
    Then(s4, Drop(0), s5);
    var s6 := s5.(flights := map[0 := Returned(h, 0), 1 := Losing(h, 1, 0)]);
    Then(s5, Insert(1), s6);
    Then(s6, CloseOwn(1), s6.(closed := {1}, flights := map[0 := Returned(h, 0), 1 := Returned(h, 0)]));
  }

  lemma TwoRacing(h: HostId, idle: int)
    requires idle > 0
    ensures Reachable(Empty(idle).(hosts := [h, h], flights := map[0 := Holding(h, 0), 1 := Holding(h, 1)]))
  {
    hide Reachable;
    Start(idle);
    var s0 := Empty(idle);
    var s1 := s0.(flights := map[0 := Dialling(h)]);
    Then(s0, Lookup(0, h), s1);
    var s2 := s0.(flights := map[0 := Dialling(h), 1 := Dialling(h)]);
    Then(s1, Lookup(1, h), s2);
    var s3 := s0.(hosts := [h], flights := map[0 := Holding(h, 0), 1 := Dialling(h)]);
    Then(s2, DialOk(0), s3);
    Then(s3, DialOk(1), s0.(hosts := [h, h], flights := map[0 := Holding(h, 0), 1 := Holding(h, 1)]));
  }

  // ----- the pool itself

  class Pool {
    const idle: int
    var now: int
    var hosts: seq<HostId>
    var closed: set<nat>
    var dropped: set<nat>
    var entries: map<HostId, Entry>
    var evictions: multiset<HostId>
    /** The calls of Connect, each with its own local variables. */
    var flights: map<nat, Flight>

    ghost function View(): State
      reads this
    {
      State(idle, now, hosts, closed, dropped, entries, evictions, flights)
    }

    /** An idle time that is not positive stands for five minutes, in milliseconds. */
    constructor (idle: int)
      ensures View() == Empty(if idle <= 0 then 300_000 else idle)
    {
      this.idle := if idle <= 0 then 300_000 else idle;
      now, hosts, closed, dropped, entries, evictions, flights := 0, [], {}, {}, map[], multiset{}, map[];
    }

    method RemoveLocked(host: HostId)
      modifies this
      ensures View() == Removed(old(View()), host)
      ensures host !in entries && entries == old(entries) - {host} && flights == old(flights)
      ensures closed == old(closed) + if host in old(entries) then {old(entries)[host].client} else {}
    {
      if host in entries {
        closed := closed + {entries[host].client};
        entries := entries - {host};
      }
    }

    /** Connect up to its dial, under the lock. */
    method ConnectLookup(f: nat, host: HostId)
      requires Enabled(View(), Lookup(f, host))
      modifies this
      ensures View() == Apply(old(View()), Lookup(f, host))
      ensures host in old(entries) && old(entries)[host].client !in dropped ==>
                && flights == old(flights)[f := Returned(host, old(entries)[host].client)] && closed == old(closed)
                && host in entries && entries[host].lastUsed == now && entries[host].client == old(entries)[host].client
      ensures host in old(entries) && old(entries)[host].client in dropped ==>
                && flights == old(flights)[f := Dialling(host)] && entries == old(entries) - {host}
                && closed == old(closed) + {old(entries)[host].client}
      ensures host !in old(entries) ==>
                flights == old(flights)[f := Dialling(host)] && entries == old(entries) && closed == old(closed)
    {
      if host in entries {
        if entries[host].client in dropped {
          RemoveLocked(host);
        } else {
          entries := entries[host := entries[host].(lastUsed := now)];
          flights := flights[f := Returned(host, entries[host].client)];
          return;
        }
      }
      flights := flights[f := Dialling(host)];
    }

    /** The dial, outside the lock; connected is its outcome. */
    method ConnectDial(f: nat, connected: bool)
      requires Enabled(View(), DialOk(f))
      modifies this
      ensures View() == Apply(old(View()), if connected then DialOk(f) else DialFailed(f))
      ensures var host := old(flights)[f].host;
              && hosts == (if connected then old(hosts) + [host] else old(hosts))
              && flights == old(flights)[f := if connected then Holding(host, |old(hosts)|) else Refused]
    {
      if !connected {
        flights := flights[f := Refused];
        return;
      }
      var host := flights[f].host;
      flights := flights[f := Holding(host, |hosts|)];
      hosts := hosts + [host];
    }

    /** Connect after its dial, under the lock again: the first to arrive is kept. */
    method ConnectInsert(f: nat)
      requires Enabled(View(), Insert(f))
      modifies this
      ensures View() == Apply(old(View()), Insert(f))
      ensures var host, c := old(flights)[f].host, old(flights)[f].client;
              && closed == old(closed)
              && (host in old(entries) ==>
                    entries == old(entries) && flights == old(flights)[f := Losing(host, c, entries[host].client)])
              && (host !in old(entries) ==>
                    && entries == old(entries)[host := Entry(c, now, now, false)]
                    && flights == old(flights)[f := Returned(host, c)])
    {
      var host, c := flights[f].host, flights[f].client;
      if host in entries {
        flights := flights[f := Losing(host, c, entries[host].client)];
        return;
      }
      entries := entries[host := Entry(c, now, now, false)];
      flights := flights[f := Returned(host, c)];
    }

    /** The close of the client that lost the race, with the lock released. */
    method ConnectClose(f: nat)
      requires Enabled(View(), CloseOwn(f))
      modifies this
      ensures View() == Apply(old(View()), CloseOwn(f))
      ensures var g := old(flights)[f];
              && closed == old(closed) + {g.client} && entries == old(entries)
              && flights == old(flights)[f := Returned(g.host, g.kept)]
    {
      var g := flights[f];
      closed := closed + {g.client};
      flights := flights[f := Returned(g.host, g.kept)];
    }

    /** evict, which a timer that fired runs: it removes whatever client of the host
        is pooled by then. */
    method EvictHost(host: HostId)
      requires Enabled(View(), Evict(host))
      modifies this
      ensures View() == Apply(old(View()), Evict(host))
    {
      RemoveLocked(host);
      evictions := evictions - multiset{host};
    }

    method InvalidateHost(host: HostId)
      modifies this
      ensures View() == Apply(old(View()), Invalidate(host))
    {
      RemoveLocked(host);
    }

    method CloseAllPooled()
      modifies this
      ensures View() == Apply(old(View()), CloseAll)
      ensures entries == map[] && flights == old(flights)
      ensures forall c :: c in closed <==>
        c in old(closed) || exists h :: h in old(entries) && old(entries)[h].client == c
    {
      var ids := entries.Keys;
      while ids != {}
        invariant ids == entries.Keys
        invariant closed + Clients(entries) == old(closed) + Clients(old(entries))
        invariant View() == old(View()).(closed := closed, entries := entries)
        decreases |ids|
      {
        var id :| id in ids;
        ClientsWithout(entries, id);
        RemoveLocked(id);
        ids := ids - {id};
      }
      assert entries == map[];
    }
  }

  lemma ClientsWithout(m: map<HostId, Entry>, id: HostId)
    requires id in m
    ensures Clients(m) == Clients(m - {id}) + {m[id].client}
  {
    forall v | v in Clients(m) ensures v in Clients(m - {id}) + {m[id].client} {
      var k :| k in m && m[k].client == v;
      assert k != id ==> k in m - {id} && (m - {id})[k] == m[k];
    }
  }
}
