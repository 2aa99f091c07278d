/** Dialling a host through its chain of jump hosts. */
module Dialer {
  import opened Text
  import opened Hosts

  /** What a host's hop meets when it is dialled. */
  datatype Hop = Hop(credential: bool, connects: bool, handshakes: bool)

  type Network = HostId -> Hop

  datatype Failure = HostMissing | TooDeep | AgentBacked | NoCredential | NoJumpHost(id: HostId)
                   | DialFailed | HandshakeFailed

  datatype Dialled = Connected(client: nat) | Failed(why: Failure)

  /** The host can be configured for dialling. */
  predicate Usable(t: Table, net: Network, id: HostId) {
    id in t && t[id].authKind != "agent" && net(id).credential
  }

  predicate Comes(net: Network, id: HostId) {
    net(id).connects && net(id).handshakes
  }

  /** start's whole chain lies within the depth limit, and each host of it can be configured. */
  predicate Ready(t: Table, net: Network, start: HostId, depth: nat, path: seq<HostId>) {
    && Chain(t, start, path)
    && depth + |path| <= MAX_JUMP_DEPTH + 1
    && forall i :: 0 <= i < |path| ==> Usable(t, net, path[i])
  }

  /** Why the walk down from start ended, at cur, before anything was dialled. */
  ghost predicate Stopped(t: Table, net: Network, start: HostId, depth: nat, path: seq<HostId>, cur: HostId,
      why: Failure) {
    && Walked(t, start, path, cur) && cur != ""
    && (forall i :: 0 <= i < |path| ==> Usable(t, net, path[i]))
    && match why
       case TooDeep => depth + |path| == MAX_JUMP_DEPTH + 1
       case NoJumpHost(id) => id == cur && cur !in t && depth + |path| <= MAX_JUMP_DEPTH + 1
       case AgentBacked => depth + |path| <= MAX_JUMP_DEPTH && cur in t && t[cur].authKind == "agent"
       case NoCredential => depth + |path| <= MAX_JUMP_DEPTH && cur in t && t[cur].authKind != "agent" &&
         !net(cur).credential
       case _ => false
  }

  /** The hosts dialled with success, the root first, and the failure that ended the dial. */
  datatype Attempt = Attempt(up: seq<HostId>, failure: Option<Failure>)

  /** A chain dialled from its root: the hops that came up, then the first that did not. */
  predicate FromRoot(net: Network, path: seq<HostId>, a: Attempt) {
    var rest := |path| - |a.up|;
    && 0 <= rest
    && (forall i :: rest <= i < |path| ==> path[i] == a.up[|path| - 1 - i] && Comes(net, path[i]))
    && (rest == 0 ==> a.failure == None)
    && (rest > 0 ==> !Comes(net, path[rest - 1])
                     && a.failure == Some(if net(path[rest - 1]).connects then HandshakeFailed else DialFailed))
  }

  /** What dialling start must come to: a ready chain is dialled from its root, and
      without one nothing is dialled at all. */
  ghost predicate Outcome(t: Table, net: Network, start: HostId, depth: nat, a: Attempt) {
    || (exists path :: Ready(t, net, start, depth, path) && FromRoot(net, path, a))
    || (a.up == [] && a.failure.Some? && exists path, cur :: Stopped(t, net, start, depth, path, cur, a.failure.value))
  }

  lemma {:induction false} WalkedCons(t: Table, id: HostId, path: seq<HostId>, cur: HostId)
    requires id in t && id != "" && Walked(t, t[id].jump, path, cur)
    ensures Walked(t, id, [id] + path, cur)
    decreases |path|
  {
    var whole := [id] + path;
    if path == [] {
      assert whole[..0] == [];
    } else {
      var n := |path| - 1;
      WalkedCons(t, id, path[..n], path[n]);
      assert whole[..n + 1] == [id] + path[..n];
    }
  }

  /** A walk that was stopped leaves no chain ready. */
  lemma StoppedNotReady(t: Table, net: Network, start: HostId, depth: nat, path: seq<HostId>, cur: HostId,
      why: Failure, full: seq<HostId>)
    requires Stopped(t, net, start, depth, path, cur, why)
    ensures !Ready(t, net, start, depth, full)
  {
    if Chain(t, start, full) {
      WalkedPrefix(t, start, path, cur, full);
      assert full[|path|..] != [];
      assert full[|path|..][0] == full[|path|];
      assert full[|path|] == cur;
    }
  }

  /** The attempt at a host, given the attempt at its jump host. */
  function Onward(net: Network, id: HostId, below: Attempt): Attempt {
    if below.failure.Some? then below
    else if !net(id).connects then below.(failure := Some(DialFailed))
    else if !net(id).handshakes then below.(failure := Some(HandshakeFailed))
    else Attempt(below.up + [id], None)
  }

  lemma FromRootCons(net: Network, id: HostId, rest: seq<HostId>, below: Attempt)
    requires FromRoot(net, rest, below)
    ensures FromRoot(net, [id] + rest, Onward(net, id, below))
  {
    var path := [id] + rest;
    var a := Onward(net, id, below);
    var left := |path| - |a.up|;
    forall i | left <= i < |path| ensures path[i] == a.up[|path| - 1 - i] && Comes(net, path[i]) {
      if i > 0 {
        assert path[i] == rest[i - 1];
      }
    }
    if left > 1 {
      assert path[left - 1] == rest[left - 2];
    }
  }

  lemma OutcomeCons(t: Table, net: Network, id: HostId, depth: nat, below: Attempt)
    requires id != "" && Usable(t, net, id) && depth <= MAX_JUMP_DEPTH
    requires Outcome(t, net, t[id].jump, depth + 1, below)
    ensures Outcome(t, net, id, depth, Onward(net, id, below))
  {
    if rest :| Ready(t, net, t[id].jump, depth + 1, rest) && FromRoot(net, rest, below) {
      var path := [id] + rest;
      ConsChain(t, id, rest);
      FromRootCons(net, id, rest, below);
      assert Ready(t, net, id, depth, path);
    } else {
      var path, cur :| Stopped(t, net, t[id].jump, depth + 1, path, cur, below.failure.value);
      WalkedCons(t, id, path, cur);
      assert Stopped(t, net, id, depth, [id] + path, cur, below.failure.value);
    }
  }

  /** With nothing below it, a root is dialled directly. */
  lemma RootOutcome(t: Table, net: Network, depth: nat)
    requires depth <= MAX_JUMP_DEPTH + 1
    ensures Outcome(t, net, "", depth, Attempt([], None))
  {
    assert Ready(t, net, "", depth, []) && FromRoot(net, [], Attempt([], None));
  }

  lemma StoppedHere(t: Table, net: Network, id: HostId, depth: nat, why: Failure)
    requires Stopped(t, net, id, depth, [], id, why)
    ensures Outcome(t, net, id, depth, Attempt([], Some(why)))
  {}

  lemma OutcomeMade(t: Table, net: Network, id: HostId, depth: nat, a: Attempt)
    requires id != "" && Outcome(t, net, id, depth, a)
    ensures a.failure.None? ==> a.up != [] && a.up[|a.up| - 1] == id
  {
    if path :| a.failure.None? && Ready(t, net, id, depth, path) && FromRoot(net, path, a) {
      assert path[0] == id;
    }
  }

  /** The numbers from lo up to, and without, hi. */
  function Numbers(lo: nat, hi: int): (r: set<nat>)
    ensures forall i: nat :: i in r <==> lo <= i < hi
    decreases hi - lo
  {
    if lo >= hi then {} else Numbers(lo, hi - 1) + {hi - 1}
  }

  /** The clients an attempt leaves open, of which n had been made before it: all
      those it made after a success; a failed hop closes just the client below it. */
  function LeftOpen(open: set<nat>, n: nat, a: Attempt): set<nat> {
    open + Numbers(n, n + |a.up| - if a.failure.Some? then 1 else 0)
  }

  class Dialer {
    const hosts: Table
    /** Every client made, in order, and which of them are still open. */
    var made: seq<HostId>
    var open: set<nat>

    constructor (t: Table)
      ensures hosts == t && made == [] && open == {}
    {
      hosts := t;
      made := [];
      open := {};
    }

    /** The state after an attempt: each hop that came up made a client. */
    twostate predicate After(r: Dialled, a: Attempt)
      reads this
    {
      && made == old(made) + a.up && open == LeftOpen(old(open), |old(made)|, a)
      && (if a.failure.Some? then r == Failed(a.failure.value) else |made| > 0 && r == Connected(|made| - 1))
    }

    /** dialRec: walks the chain down to its root, configuring each host, and then
        dials back up. It ends on every table, a cyclic one too. */
    method DialRec(net: Network, id: HostId, depth: nat) returns (r: Dialled, ghost a: Attempt)
      requires id != "" && id in hosts && depth <= MAX_JUMP_DEPTH + 1
      requires forall i :: i in open ==> i < |made|
      modifies this
      ensures Outcome(hosts, net, id, depth, a) && After(r, a)
      decreases MAX_JUMP_DEPTH + 1 - depth
    {
      hide Outcome, FromRoot;
      if depth > MAX_JUMP_DEPTH {
        StoppedHere(hosts, net, id, depth, TooDeep);
        return Failed(TooDeep), Attempt([], Some(TooDeep));
      }
      var h := hosts[id];
      if h.authKind == "agent" {
        StoppedHere(hosts, net, id, depth, AgentBacked);
        return Failed(AgentBacked), Attempt([], Some(AgentBacked));
      }
      if !net(id).credential {
        StoppedHere(hosts, net, id, depth, NoCredential);
        return Failed(NoCredential), Attempt([], Some(NoCredential));
      }
      if h.jump != "" {
        if h.jump !in hosts {
          a := Attempt([], Some(NoJumpHost(h.jump)));
          StoppedHere(hosts, net, h.jump, depth + 1, NoJumpHost(h.jump));
          OutcomeCons(hosts, net, id, depth, a);
          return Failed(NoJumpHost(h.jump)), a;
        }
        var below;
        below, a := DialRec(net, h.jump, depth + 1);
        OutcomeMade(hosts, net, h.jump, depth + 1, a);
        OutcomeCons(hosts, net, id, depth, a);
        a := Onward(net, id, a);
        if below.Failed? {
          return below, a;
        }
        if !net(id).connects {
          open := open - {below.client};
          return Failed(DialFailed), a;
        }
        if !net(id).handshakes {
          open := open - {below.client};
          return Failed(HandshakeFailed), a;
        }
      } else {
        a := Attempt([], None);
        RootOutcome(hosts, net, depth + 1);
        OutcomeCons(hosts, net, id, depth, a);
        a := Onward(net, id, a);
        if !net(id).connects {
          return Failed(DialFailed), a;
        }
        if !net(id).handshakes {
          return Failed(HandshakeFailed), a;
        }
      }
      open := open + {|made|};
      made := made + [id];
      return Connected(|made| - 1), a;
    }

    /** Connect: a new client for a host. */
    method Connect(net: Network, id: HostId) returns (r: Dialled, ghost a: Attempt)
      requires "" !in hosts && forall i :: i in open ==> i < |made|
      modifies this
      ensures After(r, a) && (r.Connected? ==> made[r.client] == id)
      ensures if id in hosts then Outcome(hosts, net, id, 0, a) else a == Attempt([], Some(HostMissing))
      ensures |made| <= |old(made)| + MAX_JUMP_DEPTH + 1
      ensures Agreeable(hosts, net) ==>
                (r.Connected? <==> id in hosts && (hosts[id].jump == "" || Acceptable(hosts, hosts[id].jump, {id})))
    {
      hide Outcome, FromRoot, Acceptable, Agreeable, Chain;
      if id !in hosts {
        return Failed(HostMissing), Attempt([], Some(HostMissing));
      }
      r, a := DialRec(net, id, 0);
      OutcomeMade(hosts, net, id, 0, a);
      OutcomeBounds(hosts, net, id, a);
    }

    /** Close of a connected client: its own hop only. */
    method Close(client: nat)
      modifies this
      ensures made == old(made) && open == old(open) - {client}
    {
      open := open - {client};
    }

    /** A Connect that another call overtook: the new client is closed at once, and
        the clients made for the jump hosts below it stay open, so nothing is left
        exactly when the host has no jump host. */
    method ConnectAndClose(net: Network, id: HostId) returns (r: Dialled, ghost a: Attempt)
      requires "" !in hosts && forall i :: i in open ==> i < |made|
      modifies this
      ensures made == old(made) + a.up
      ensures r.Connected? ==> open == old(open) + Numbers(|old(made)|, |old(made)| + |a.up| - 1)
      ensures r.Connected? ==> id in hosts && (open == old(open) <==> hosts[id].jump == "")
      ensures r.Failed? ==> open == LeftOpen(old(open), |old(made)|, a)
    {
      hide Outcome;
      r, a := Connect(net, id);
      if r.Connected? {
        Close(r.client);
        OutcomeLength(hosts, net, id, a);
        assert |old(made)| in Numbers(|old(made)|, |old(made)| + |a.up| - 1) <==> |a.up| > 1;
      }
    }
  }

  /** No host is agent-backed and no hop fails. */
  ghost predicate Agreeable(t: Table, net: Network) {
    (forall h :: h in t ==> t[h].authKind != "agent") && forall h :: h in t ==> net(h).credential && Comes(net, h)
  }

  /** A dial connects exactly when the host's whole chain is ready and every hop of it comes up. */
  lemma ConnectsExactly(t: Table, net: Network, id: HostId, a: Attempt)
    requires Outcome(t, net, id, 0, a)
    ensures a.failure.None? <==> exists path :: Ready(t, net, id, 0, path) && forall i :: 0 <= i < |path| ==>
      Comes(net, path[i])
    ensures a.failure.None? <==>
              exists path :: Chain(t, id, path) && |path| <= 6 && forall i :: 0 <= i < |path| ==>
                && path[i] in t && t[path[i]].authKind != "agent"
                && net(path[i]).credential && net(path[i]).connects && net(path[i]).handshakes
    ensures |a.up| <= MAX_JUMP_DEPTH + 1
  {
    if path :| Chain(t, id, path) && |path| <= 6 && forall i :: 0 <= i < |path| ==>
         && path[i] in t && t[path[i]].authKind != "agent"
         && net(path[i]).credential && net(path[i]).connects && net(path[i]).handshakes
    {
      assert Ready(t, net, id, 0, path);
    }
    if full :| Ready(t, net, id, 0, full) {
      if path, cur :| a.failure.Some? && Stopped(t, net, id, 0, path, cur, a.failure.value) {
        StoppedNotReady(t, net, id, 0, path, cur, a.failure.value, full);
      }
      var path :| Ready(t, net, id, 0, path) && FromRoot(net, path, a);
      forall other | Ready(t, net, id, 0, other) ensures other == path {
        ChainUnique(t, id, other, path);
      }
    }
  }

  /** The two depth checks agree: when nothing fails, a dial connects exactly
      when the inventory's check accepts the host's jump host. */
  lemma OutcomeBounds(t: Table, net: Network, id: HostId, a: Attempt)
    requires id in t && id != "" && Outcome(t, net, id, 0, a)
    ensures |a.up| <= MAX_JUMP_DEPTH + 1
    ensures Agreeable(t, net) ==> (a.failure.None? <==> t[id].jump == "" || Acceptable(t, t[id].jump, {id}))
  {
    hide Outcome, Stopped, FromRoot, Acceptable;
    ConnectsExactly(t, net, id, a);
    CheckAndDialAgree(t, id);
    if path :| Agreeable(t, net) && Chain(t, id, path) && |path| <= MAX_JUMP_DEPTH + 1 {
      ChainDistinct(t, id, path);
      assert Ready(t, net, id, 0, path);
    }
  }

  /** A host's chain fits the dialler's limit exactly when its jump host passes the
      inventory's check with the host itself skipped. */
  lemma CheckAndDialAgree(t: Table, id: HostId)
    requires id in t && id != ""
    ensures (exists path :: Chain(t, id, path) && |path| <= MAX_JUMP_DEPTH + 1)
       <==> t[id].jump == "" || Acceptable(t, t[id].jump, {id})
  {
    if path :| Chain(t, id, path) && |path| <= MAX_JUMP_DEPTH + 1 {
      ChainDistinct(t, id, path);
      var rest := path[1..];
      assert Chain(t, t[id].jump, rest);
      forall x | x in rest ensures x != id {
        var i :| 0 <= i < |rest| && rest[i] == x;
        assert path[i + 1] == x && path[0] == id;
      }
      assert t[id].jump == "" || Acceptable(t, t[id].jump, {id});
    }
    if t[id].jump == "" {
      ConsChain(t, id, []);
    } else if Acceptable(t, t[id].jump, {id}) {
      var rest :| Chain(t, t[id].jump, rest) && |rest| <= MAX_JUMP_DEPTH;
      ConsChain(t, id, rest);
    }
  }

  /** A host connected without a jump host has one hop, any other has more. */
  lemma OutcomeLength(t: Table, net: Network, id: HostId, a: Attempt)
    requires id in t && id != "" && Outcome(t, net, id, 0, a) && a.failure.None?
    ensures |a.up| > 0 && (|a.up| == 1 <==> t[id].jump == "")
  {
    var path :| Ready(t, net, id, 0, path) && FromRoot(net, path, a);
    assert Chain(t, t[id].jump, path[1..]);
    assert |path| == 1 <==> path[1..] == [];
  }

  /** A failed dial leaves more clients open than before exactly when the two hops
      nearest the root came up and a further one failed; it leaves open the clients
      of all the hops that came up but the last. */
  lemma FailureLeaks(open: set<nat>, n: nat, net: Network, path: seq<HostId>, a: Attempt)
    requires FromRoot(net, path, a) && a.failure.Some? && forall i :: i in open ==> i < n
    ensures LeftOpen(open, n, a) == open
       <==> !(|path| > 2 && forall i :: |path| - 2 <= i < |path| ==> Comes(net, path[i]))
    ensures forall i: nat :: i in LeftOpen(open, n, a) && i !in open <==> n <= i < n + |a.up| - 1
  {
    var p := |path|;
    assert p > 0;
    assert |a.up| == 0 ==> !Comes(net, path[p - 1]);
    assert |a.up| == 1 && p > 2 ==> !Comes(net, path[p - 2]);
    assert n in LeftOpen(open, n, a) <==> |a.up| > 1;
  }

  /** For example a third host whose dial fails when its two jump hosts are up: the
      client of the first stays open. */
  lemma ThirdHopFails(h: Host, net: Network)
    requires h.authKind != "agent" && forall id :: net(id) == Hop(true, id != "c", true)
    ensures var t: Table := map["a" := h.(jump := ""), "b" := h.(jump := "a"), "c" := h.(jump := "b")];
            var a := Attempt(["a", "b"], Some(DialFailed));
            Outcome(t, net, "c", 0, a) && LeftOpen({}, 0, a) == {0}
  {
    var t: Table := map["a" := h.(jump := ""), "b" := h.(jump := "a"), "c" := h.(jump := "b")];
    var a := Attempt(["a", "b"], Some(DialFailed));
    var path := ["c", "b", "a"];
    ConsChain(t, "a", []);
    ConsChain(t, "b", ["a"]);
    ConsChain(t, "c", ["b", "a"]);
    assert ["c"] + ["b", "a"] == path && ["b"] + ["a"] == ["b", "a"] && ["a"] + [] == ["a"];
    assert Ready(t, net, "c", 0, path);
    assert FromRoot(net, path, a);
  }

  /** Some host in a table made by sequential changes is refused by every dial: the
      inventory bounds only the chain it checks. */
  lemma DeepChainRefused(h: Host) returns (changes: seq<Change>, x: HostId)
    requires Validate(h) == NoError && h.jump == ""
    ensures var t := ApplyAll(map[], changes);
            x in t && forall net, full :: !Ready(t, net, x, 0, full)
  {
    var path;
    changes, x, path := AnyLength(h, MAX_JUMP_DEPTH + 2);
    var t := ApplyAll(map[], changes);
    forall net: Network, full ensures !Ready(t, net, x, 0, full) {
      if Chain(t, x, full) {
        ChainUnique(t, x, path, full);
      }
    }
  }
}
