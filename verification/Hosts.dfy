/** The host table and its jump-host graph. */
module Hosts {
  import opened Text
  import opened Sets

  /** A host id; the empty string stands for no jump host. */
  type HostId = string

  datatype Host = Host(name: string, address: string, port: int, username: string, authKind: string, jump: HostId)

  type Table = map<HostId, Host>

  const MAX_JUMP_DEPTH: nat := 5

  datatype Error = NoError | NameRequired | AddressRequired | BadPort | UsernameRequired | BadAuthKind
                 | JumpCycle | JumpTooDeep | JumpMissing(id: HostId) | NotFound | IsJumpHost

  /** Port 0 is accepted, as meaning the default port, and stored as 0. */
  function Validate(h: Host): Error {
    if Blank(h.name) then NameRequired
    else if Blank(h.address) then AddressRequired
    else if h.port != 0 && !(1 <= h.port <= 65535) then BadPort
    else if Blank(h.username) then UsernameRequired
    else if h.authKind !in {"", "credential", "agent"} then BadAuthKind
    else NoError
  }

  function Stored(h: Host): Host {
    h.(authKind := if h.authKind == "" then "credential" else h.authKind)
  }

  // ----- chains of jump hosts

  /** path lists the hosts from start to a root. */
  predicate Chain(t: Table, start: HostId, path: seq<HostId>)
    decreases |path|
  {
    if path == [] then start == ""
    else start != "" && path[0] == start && start in t && Chain(t, t[start].jump, path[1..])
  }

  lemma {:induction false} ChainUnique(t: Table, start: HostId, p: seq<HostId>, q: seq<HostId>)
    requires Chain(t, start, p) && Chain(t, start, q)
    ensures p == q
    decreases |p|
  {
    if p == [] {
    } else {
      ChainUnique(t, t[start].jump, p[1..], q[1..]);
      assert p == [start] + p[1..] && q == [start] + q[1..];
    }
  }

  lemma {:induction false} ChainFrom(t: Table, start: HostId, path: seq<HostId>, k: nat)
    requires Chain(t, start, path) && k < |path|
    ensures Chain(t, path[k], path[k..])
    decreases k
  {
    if k == 0 {
    } else {
      ChainFrom(t, t[start].jump, path[1..], k - 1);
      assert path[1..][k - 1..] == path[k..];
    }
  }

  predicate Distinct(path: seq<HostId>) {
    forall i, j :: 0 <= i < j < |path| ==> path[i] != path[j]
  }

  /** A chain that ends never visits a host twice. */
  lemma ChainDistinct(t: Table, start: HostId, path: seq<HostId>)
    requires Chain(t, start, path)
    ensures Distinct(path) && forall i :: 0 <= i < |path| ==> path[i] in t && path[i] != ""
  {
    forall i | 0 <= i < |path| ensures path[i] in t && path[i] != "" {
      ChainFrom(t, start, path, i);
    }
    forall i, j | 0 <= i < j < |path| ensures path[i] != path[j] {
      ChainFrom(t, start, path, i);
      ChainFrom(t, start, path, j);
      if path[i] == path[j] {
        ChainUnique(t, path[i], path[i..], path[j..]);
        assert false;
      }
    }
  }

  /** What the check is for: the chain exists, avoids the skipped hosts, and has
      at most five hosts. */
  ghost predicate Acceptable(t: Table, start: HostId, skip: set<HostId>) {
    exists path :: Chain(t, start, path) && |path| <= MAX_JUMP_DEPTH && forall x :: x in path ==> x !in skip
  }

  /** path lists the first hosts walked from start, and cur is the next. */
  predicate Walked(t: Table, start: HostId, path: seq<HostId>, cur: HostId)
    decreases |path|
  {
    if path == [] then cur == start
    else
      var n := |path| - 1;
      path[n] in t && path[n] != "" && cur == t[path[n]].jump && Walked(t, start, path[..n], path[n])
  }

  lemma {:induction false} WalkedChain(t: Table, start: HostId, path: seq<HostId>, cur: HostId, rest: seq<HostId>)
    requires Walked(t, start, path, cur)
    ensures Chain(t, start, path + rest) <==> Chain(t, cur, rest)
    decreases |path|
  {
    if path == [] {
      assert path + rest == rest;
    } else {
      var n := |path| - 1;
      WalkedChain(t, start, path[..n], path[n], [path[n]] + rest);
      assert path + rest == path[..n] + ([path[n]] + rest);
      assert ([path[n]] + rest)[1..] == rest;
    }
  }

  /** Every full chain extends what was walked. */
  lemma {:induction false} WalkedPrefix(t: Table, start: HostId, path: seq<HostId>, cur: HostId, full: seq<HostId>)
    requires Walked(t, start, path, cur) && Chain(t, start, full)
    ensures path <= full && Chain(t, cur, full[|path|..])
    decreases |path|
  {
    if path == [] {
    } else {
      var n := |path| - 1;
      WalkedPrefix(t, start, path[..n], path[n], full);
      assert full[n..][1..] == full[n + 1..];
      assert full[n] == full[n..][0];
    }
  }

  /** Why a chain is refused. */
  ghost predicate Refused(t: Table, start: HostId, skip: set<HostId>, path: seq<HostId>, cur: HostId, err: Error) {
    && Walked(t, start, path, cur) && cur != ""
    && match err
       case JumpCycle => cur in skip || cur in path
       case JumpTooDeep => |path| == MAX_JUMP_DEPTH && cur !in path && cur !in skip
       case JumpMissing(id) => id == cur && cur !in t && |path| < MAX_JUMP_DEPTH
       case _ => false
  }

  lemma RefusedIsUnacceptable(t: Table, start: HostId, skip: set<HostId>, path: seq<HostId>, cur: HostId, err: Error)
    requires Refused(t, start, skip, path, cur, err)
    ensures !Acceptable(t, start, skip)
  {
    forall full | Chain(t, start, full) ensures |full| > MAX_JUMP_DEPTH || exists x :: x in full && x in skip {
      WalkedPrefix(t, start, path, cur, full);
      assert full[|path|..] != [];
      assert full[|path|] == cur;
      ChainDistinct(t, start, full);
      assert cur in full && cur in t;
    }
  }

  class Repo {
    var hosts: Table

    constructor ()
      ensures hosts == map[]
    {
      hosts := map[];
    }

    /** checkJumpChain: accepts exactly the acceptable chains, and otherwise says
        what it met. */
    method CheckJumpChain(start: HostId, skip: set<HostId>) returns (err: Error)
      ensures err == NoError <==> Acceptable(hosts, start, skip)
      ensures err == NoError <==>
                exists path :: Chain(hosts, start, path) && |path| <= 5 && forall x :: x in path ==> x !in skip
      ensures err != NoError ==> exists path, cur :: Refused(hosts, start, skip, path, cur, err)
    {
      var seen: set<HostId> := {};
      var cur := start;
      var depth := 0;
      ghost var path: seq<HostId> := [];
      while cur != ""
        invariant Walked(hosts, start, path, cur)
        invariant depth == |path| <= MAX_JUMP_DEPTH
        invariant forall x :: x in seen <==> x in path
        invariant forall x :: x in path ==> x !in skip
        decreases MAX_JUMP_DEPTH - depth
      {
        ghost var why := if cur in skip || cur in seen then JumpCycle
                         else if depth == MAX_JUMP_DEPTH then JumpTooDeep
                         else JumpMissing(cur);
        if Refused(hosts, start, skip, path, cur, why) {
          RefusedIsUnacceptable(hosts, start, skip, path, cur, why);
        }
        if cur in skip {
          return JumpCycle;
        }
        if cur in seen {
          return JumpCycle;
        }
        seen := seen + {cur};
        depth := depth + 1;
        if depth > MAX_JUMP_DEPTH {
          return JumpTooDeep;
        }
        if cur !in hosts {
          return JumpMissing(cur);
        }
        path := path + [cur];
        assert path[..|path| - 1] + [cur] == path;
        cur := hosts[cur].jump;
      }
      WalkedChain(hosts, start, path, "", []);
      assert path + [] == path;
      return NoError;
    }

    /** Create: id is freshly generated. */
    method Create(id: HostId, in_: Host) returns (err: Error)
      requires id != "" && id !in hosts
      modifies this
      ensures hosts == Created(old(hosts), id, in_)
      ensures err == NoError <==> Allowed(old(hosts), in_, {})
      ensures err == NameRequired <==> Blank(in_.name)
      ensures err == AddressRequired <==> !Blank(in_.name) && Blank(in_.address)
      ensures err == BadPort <==> !Blank(in_.name) && !Blank(in_.address) && !(0 <= in_.port <= 65535)
      ensures err == UsernameRequired <==>
                !Blank(in_.name) && !Blank(in_.address) && 0 <= in_.port <= 65535 && Blank(in_.username)
      ensures err == BadAuthKind <==>
                !Blank(in_.name) && !Blank(in_.address) && 0 <= in_.port <= 65535 && !Blank(in_.username)
                  && in_.authKind !in {"", "credential", "agent"}
      ensures err == NoError ==>
                && id in hosts && hosts[id].name == in_.name && hosts[id].address == in_.address
                && hosts[id].port == in_.port && hosts[id].username == in_.username && hosts[id].jump == in_.jump
                && hosts[id].authKind == (if in_.authKind == "" then "credential" else in_.authKind)
                && hosts == old(hosts)[id := hosts[id]]
      ensures err != NoError ==> hosts == old(hosts)
    {
      err := Validate(in_);
      if err != NoError {
        return;
      }
      if in_.jump != "" {
        err := CheckJumpChain(in_.jump, {});
        if err != NoError {
          return;
        }
      }
      hosts := hosts[id := Stored(in_)];
    }

    method Update(id: HostId, in_: Host) returns (err: Error)
      modifies this
      ensures hosts == Updated(old(hosts), id, in_)
      ensures err == NoError <==> id in old(hosts) && Allowed(old(hosts), in_, {id})
      ensures err == NotFound <==> id !in old(hosts)
      ensures id in old(hosts) && Validate(in_) == NoError && in_.jump == id != "" ==> err == JumpCycle
      ensures err == NameRequired <==> id in old(hosts) && Blank(in_.name)
      ensures err == AddressRequired <==> id in old(hosts) && !Blank(in_.name) && Blank(in_.address)
      ensures err == BadPort <==>
        id in old(hosts) && !Blank(in_.name) && !Blank(in_.address) && !(0 <= in_.port <= 65535)
      ensures err == UsernameRequired <==>
                id in old(hosts) && !Blank(in_.name) && !Blank(in_.address) && 0 <= in_.port <= 65535 &&
                  Blank(in_.username)
      ensures err == BadAuthKind <==>
                id in old(hosts) && !Blank(in_.name) && !Blank(in_.address) && 0 <= in_.port <= 65535 &&
                  !Blank(in_.username)
                  && in_.authKind !in {"", "credential", "agent"}
      ensures err == NoError ==>
                && id in hosts && hosts[id].name == in_.name && hosts[id].address == in_.address
                && hosts[id].port == in_.port && hosts[id].username == in_.username && hosts[id].jump == in_.jump
                && hosts[id].authKind == (if in_.authKind == "" then "credential" else in_.authKind)
                && hosts == old(hosts)[id := hosts[id]]
      ensures err != NoError ==> hosts == old(hosts)
    {
      if id !in hosts {
        return NotFound;
      }
      err := Validate(in_);
      if err != NoError {
        return;
      }
      if in_.jump != "" {
        if in_.jump == id {
          SelfJump(hosts, id);
          return JumpCycle;
        }
        err := CheckJumpChain(in_.jump, {id});
        if err != NoError {
          return;
        }
      }
      hosts := hosts[id := Stored(in_)];
    }

    /** Delete: refused while another host jumps through this one. */
    method Delete(id: HostId) returns (err: Error)
      modifies this
      ensures hosts == Deleted(old(hosts), id)
      ensures err == if UsedAsJump(old(hosts), id) then IsJumpHost else if id !in old(hosts) then NotFound else NoError
    {
      var dependents := set h | h in hosts && hosts[h].jump == id;
      assert UsedAsJump(hosts, id) <==> dependents != {} by {
        if UsedAsJump(hosts, id) {
          var h :| h in hosts && hosts[h].jump == id;
          assert h in dependents;
        }
      }
      if |dependents| > 0 {
        return IsJumpHost;
      }
      if id !in hosts {
        return NotFound;
      }
      hosts := hosts - {id};
      return NoError;
    }
  }

  lemma SelfJump(t: Table, id: HostId)
    requires id != ""
    ensures !Acceptable(t, id, {id})
  {
    forall path | Chain(t, id, path) ensures id in path {
      assert path[0] == id;
    }
  }

  // ----- any sequence of changes

  ghost predicate Allowed(t: Table, h: Host, skip: set<HostId>) {
    Validate(h) == NoError && (h.jump == "" || Acceptable(t, h.jump, skip))
  }

  ghost predicate UsedAsJump(t: Table, id: HostId) {
    exists h :: h in t && t[h].jump == id
  }

  ghost function Created(t: Table, id: HostId, h: Host): Table {
    if Allowed(t, h, {}) then t[id := Stored(h)] else t
  }

  ghost function Updated(t: Table, id: HostId, h: Host): Table {
    if id in t && Allowed(t, h, {id}) then t[id := Stored(h)] else t
  }

  ghost function Deleted(t: Table, id: HostId): Table {
    if UsedAsJump(t, id) then t else t - {id}
  }

  /** Following jump links from any host ends at a root. */
  ghost predicate Rooted(t: Table) {
    "" !in t && forall h :: h in t ==> exists path :: Chain(t, h, path)
  }

  /** A chain is untouched by a change to a host outside it. */
  lemma {:induction false} ChainFrame(t: Table, t': Table, start: HostId, path: seq<HostId>)
    requires Chain(t, start, path) && forall x :: x in path ==> x in t && x in t' && t'[x].jump == t[x].jump
    ensures Chain(t', start, path)
    decreases |path|
  {
    if path == [] {
    } else {
      assert path[0] in path;
      assert forall x :: x in path[1..] ==> x in path;
      ChainFrame(t, t', t[start].jump, path[1..]);
    }
  }

  lemma ChainInTable(t: Table, start: HostId, path: seq<HostId>, id: HostId)
    requires Chain(t, start, path) && id !in t
    ensures id !in path
  {
    ChainDistinct(t, start, path);
  }

  lemma ConsChain(t: Table, id: HostId, rest: seq<HostId>)
    requires id in t && id != "" && Chain(t, t[id].jump, rest)
    ensures Chain(t, id, [id] + rest)
  {
    assert ([id] + rest)[1..] == rest;
  }

  /** The chain of an allowed jump host, which avoids the host being changed. */
  lemma AllowedChain(t: Table, h: Host, skip: set<HostId>) returns (path: seq<HostId>)
    requires Allowed(t, h, skip)
    ensures Chain(t, h.jump, path) && |path| <= MAX_JUMP_DEPTH && forall x :: x in path ==> x !in skip
  {
    if h.jump == "" {
      path := [];
    } else {
      path :| Chain(t, h.jump, path) && |path| <= MAX_JUMP_DEPTH && forall x :: x in path ==> x !in skip;
    }
  }

  lemma CreateRooted(t: Table, id: HostId, h: Host)
    requires Rooted(t) && id != "" && id !in t
    ensures Rooted(Created(t, id, h))
  {
    if Allowed(t, h, {}) {
      var t' := t[id := Stored(h)];
      forall x | x in t' ensures exists path :: Chain(t', x, path) {
        if x == id {
          var path := AllowedChain(t, h, {});
          ChainInTable(t, h.jump, path, id);
          ChainDistinct(t, h.jump, path);
          ChainFrame(t, t', h.jump, path);
          ConsChain(t', id, path);
        } else {
          var path :| Chain(t, x, path);
          ChainInTable(t, x, path, id);
          ChainDistinct(t, x, path);
          ChainFrame(t, t', x, path);
        }
      }
    }
  }

  /** How an update moves a chain: a chain through the changed host keeps its
      part up to that host and goes on along the new jump host's chain. */
  lemma {:induction false} UpdatedChain(t: Table, id: HostId, h: Host, tail: seq<HostId>, x: HostId,
      path: seq<HostId>, k: nat)
    requires id in t && Chain(t, x, path) && k < |path| && path[k] == id
    requires Chain(t, h.jump, tail) && id !in tail
    ensures Chain(t[id := Stored(h)], x, path[..k + 1] + tail)
    decreases k
  {
    var t' := t[id := Stored(h)];
    ChainDistinct(t, x, path);
    if k == 0 {
      ChainDistinct(t, h.jump, tail);
      ChainFrame(t, t', h.jump, tail);
      ConsChain(t', id, tail);
      assert path[..1] + tail == [id] + tail;
    } else {
      UpdatedChain(t, id, h, tail, t[x].jump, path[1..], k - 1);
      assert path[1..][..k] == path[1..k + 1];
      ConsChain(t', x, path[1..k + 1] + tail);
      assert path[..k + 1] + tail == [x] + (path[1..k + 1] + tail);
    }
  }

  lemma UpdateRooted(t: Table, id: HostId, h: Host)
    requires Rooted(t)
    ensures Rooted(Updated(t, id, h))
  {
    if id in t && Allowed(t, h, {id}) {
      var t' := t[id := Stored(h)];
      var tail := AllowedChain(t, h, {id});
      forall x | x in t' ensures exists path :: Chain(t', x, path) {
        var path :| Chain(t, x, path);
        if id in path {
          var k :| 0 <= k < |path| && path[k] == id;
          UpdatedChain(t, id, h, tail, x, path, k);
        } else {
          ChainDistinct(t, x, path);
          ChainFrame(t, t', x, path);
        }
      }
    }
  }

  lemma DeleteRooted(t: Table, id: HostId)
    requires Rooted(t)
    ensures Rooted(Deleted(t, id))
  {
    if !UsedAsJump(t, id) {
      var t' := t - {id};
      forall x | x in t' ensures exists path :: Chain(t', x, path) {
        var path :| Chain(t, x, path);
        UnusedNotInChain(t, x, path, id);
        ChainDistinct(t, x, path);
        ChainFrame(t, t', x, path);
      }
    }
  }

  lemma {:induction false} UnusedNotInChain(t: Table, x: HostId, path: seq<HostId>, id: HostId)
    requires Chain(t, x, path) && x != id && !UsedAsJump(t, id)
    ensures id !in path
    decreases |path|
  {
    if path == [] {
    } else {
      assert t[x].jump != id;
      UnusedNotInChain(t, t[x].jump, path[1..], id);
      assert path == [x] + path[1..];
    }
  }

  datatype Change = Insert(id: HostId, host: Host) | Modify(id: HostId, host: Host) | Remove(id: HostId)

  ghost function Apply(t: Table, c: Change): Table {
    match c
    case Insert(id, h) => if id != "" && id !in t then Created(t, id, h) else t
    case Modify(id, h) => Updated(t, id, h)
    case Remove(id) => Deleted(t, id)
  }

  ghost function ApplyAll(t: Table, changes: seq<Change>): Table {
    if changes == [] then t else Apply(ApplyAll(t, changes[..|changes| - 1]), changes[|changes| - 1])
  }

  /** Every table reached by any sequence of creates, updates and deletes is a
      forest: from each host the jump links end at a root, and no link dangles. */
  lemma {:induction false} ReachableRooted(changes: seq<Change>)
    ensures var t := ApplyAll(map[], changes);
            Rooted(t) && forall h :: h in t ==> t[h].jump == "" || t[h].jump in t
  {
    var t := ApplyAll(map[], changes);
    if changes == [] {
    } else {
      ReachableRooted(changes[..|changes| - 1]);
      var before := ApplyAll(map[], changes[..|changes| - 1]);
      match changes[|changes| - 1] {
        case Insert(id, h) => if id != "" && id !in before { CreateRooted(before, id, h); }
        case Modify(id, h) => UpdateRooted(before, id, h);
        case Remove(id) => DeleteRooted(before, id);
      }
    }
    forall h | h in t ensures t[h].jump == "" || t[h].jump in t {
      var path :| Chain(t, h, path);
      assert Chain(t, t[h].jump, path[1..]);
    }
  }

  /** A chain is no longer than the table. */
  lemma ChainBounded(t: Table, start: HostId, path: seq<HostId>)
    requires Chain(t, start, path)
    ensures |path| <= |t|
  {
    ChainDistinct(t, start, path);
    var visited := set x | x in path;
    DistinctSize(path, visited);
    assert visited <= t.Keys;
    SubsetSize(visited, t.Keys);
  }

  lemma {:induction false} DistinctSize(path: seq<HostId>, visited: set<HostId>)
    requires Distinct(path) && visited == set x | x in path
    ensures |visited| == |path|
  {
    if path == [] {
    } else {
      var n := |path| - 1;
      var init := set x | x in path[..n];
      DistinctSize(path[..n], init);
      assert path == path[..n] + [path[n]];
      assert visited == init + {path[n]};
    }
  }

  // ----- what the check does not give

  /** The check and the write of an update are separate statements.  When two
      updates both check before either writes, the table keeps its forest exactly
      unless each new jump chain passes through the other host. */
  lemma ConcurrentUpdates(t: Table, a: HostId, ha: Host, pa: seq<HostId>, b: HostId, hb: Host, pb: seq<HostId>)
    requires Rooted(t) && a in t && b in t && a != b
    requires Allowed(t, ha, {a}) && Allowed(t, hb, {b}) && Chain(t, ha.jump, pa) && Chain(t, hb.jump, pb)
    ensures Rooted(t[a := Stored(ha)][b := Stored(hb)]) <==> !(b in pa && a in pb)
  {
    CheckedChain(t, a, ha, pa);
    CheckedChain(t, b, hb, pb);
    var t' := t[a := Stored(ha)][b := Stored(hb)];
    assert t' == t[b := Stored(hb)][a := Stored(ha)];
    if b !in pa {
      SecondUpdateRooted(t, b, hb, a, ha, pa);
    } else if a !in pb {
      SecondUpdateRooted(t, a, ha, b, hb, pb);
    } else {
      forall full ensures !Chain(t', a, full) {
        if Chain(t', a, full) {
          CrossedChain(t, a, ha, pa, b, hb, pb, full);
        }
      }
      assert a in t';
    }
  }

  /** A chain from a would come back to a. */
  lemma CrossedChain(t: Table, a: HostId, ha: Host, pa: seq<HostId>, b: HostId, hb: Host, pb: seq<HostId>,
      full: seq<HostId>)
    requires "" !in t && a in t && b in t && a != b && Chain(t, ha.jump, pa) && Chain(t, hb.jump, pb)
    requires a !in pa && b in pa && b !in pb && a in pb
    ensures !Chain(t[a := Stored(ha)][b := Stored(hb)], a, full)
  {
    var t' := t[a := Stored(ha)][b := Stored(hb)];
    if Chain(t', a, full) {
      var k := ChainReaches(t, t', ha.jump, pa, a, b, full[1..]);
      var fromB := full[1..][k..];
      var m := ChainReaches(t, t', hb.jump, pb, b, a, fromB[1..]);
      ChainUnique(t', a, full, fromB[1..][m..]);
    }
  }

  /** The chain an allowed update has checked avoids the updated host. */
  lemma CheckedChain(t: Table, id: HostId, h: Host, path: seq<HostId>)
    requires Allowed(t, h, {id}) && Chain(t, h.jump, path)
    ensures |path| <= MAX_JUMP_DEPTH && id !in path
  {
    var checked := AllowedChain(t, h, {id});
    ChainUnique(t, h.jump, checked, path);
  }

  /** An update whose checked chain misses the host another update has just
      changed is still allowed after that one. */
  lemma SecondUpdateRooted(t: Table, b: HostId, hb: Host, a: HostId, ha: Host, pa: seq<HostId>)
    requires Rooted(t) && a in t && b in t && Allowed(t, ha, {a}) && Allowed(t, hb, {b})
    requires Chain(t, ha.jump, pa) && |pa| <= MAX_JUMP_DEPTH && a !in pa && b !in pa
    ensures Rooted(t[b := Stored(hb)][a := Stored(ha)])
  {
    var t1 := t[b := Stored(hb)];
    UpdateRooted(t, b, hb);
    ChainDistinct(t, ha.jump, pa);
    ChainFrame(t, t1, ha.jump, pa);
    assert ha.jump != "" ==> Acceptable(t1, ha.jump, {a});
    UpdateRooted(t1, a, ha);
  }

  /** A chain that reached b before the change, and avoids a, still reaches b when
      only a and b have changed. */
  lemma {:induction false} ChainReaches(t: Table, t': Table, start: HostId, path: seq<HostId>, a: HostId,
      b: HostId, full: seq<HostId>) returns (k: nat)
    requires Chain(t, start, path) && b in path && a !in path && Chain(t', start, full)
    requires t'.Keys == t.Keys && forall x :: x in t && x != a && x != b ==> t'[x] == t[x]
    ensures k < |full| && Chain(t', b, full[k..])
    decreases |path|
  {
    if start == b {
      assert full[0..] == full;
      return 0;
    } else {
      assert path[0] in path;
      k := ChainReaches(t, t', t[start].jump, path[1..], a, b, full[1..]);
      assert full[1..][k..] == full[k + 1..];
      k := k + 1;
    }
  }

  /** For example two roots, each made to jump through the other. */
  lemma ConcurrentUpdatesCycle(h: Host)
    requires Validate(h) == NoError && h.jump == ""
    ensures var a, b := h.(jump := "b"), h.(jump := "a");
            var t: Table := map["a" := Stored(h), "b" := Stored(h)];
            Rooted(t) && Allowed(t, a, {"a"}) && Allowed(t, b, {"b"})
            && !Rooted(t["a" := Stored(a)]["b" := Stored(b)])
  {
    var a, b := h.(jump := "b"), h.(jump := "a");
    var t: Table := map["a" := Stored(h), "b" := Stored(h)];
    ConsChain(t, "a", []);
    ConsChain(t, "b", []);
    assert Acceptable(t, "b", {"a"}) && Acceptable(t, "a", {"b"});
    ConcurrentUpdates(t, "a", a, ["b"], "b", b, ["a"]);
  }

  /** An allowed update bounds the updated host's own chain only: a host k links
      above it is left with k more hosts in its chain. */
  lemma UpdateDeepens(t: Table, id: HostId, h: Host, x: HostId, path: seq<HostId>, k: nat)
    requires id in t && Allowed(t, h, {id}) && Chain(t, x, path) && k < |path| && path[k] == id
    ensures exists tail, moved :: Chain(t, h.jump, tail) && |tail| <= MAX_JUMP_DEPTH
              && Chain(Updated(t, id, h), x, moved) && |moved| == k + 1 + |tail|
  {
    hide Chain, Acceptable;
    var tail := AllowedChain(t, h, {id});
    UpdatedChain(t, id, h, tail, x, path, k);
    assert |path[..k + 1] + tail| == k + 1 + |tail|;
  }

  /** So sequential changes make chains of every length: add a root, and let the
      old root jump through it. */
  lemma {:induction false} AnyLength(h: Host, n: nat) returns (changes: seq<Change>, x: HostId, path: seq<HostId>)
    requires Validate(h) == NoError && h.jump == "" && n > 0
    ensures var t := ApplyAll(map[], changes);
            && Chain(t, x, path) && |path| == n && path[n - 1] in t && t[path[n - 1]].jump == ""
            && forall y :: y in t ==> |y| <= n
  {
    var z := seq(n, _ => 'h');
    assert z != "" by { assert |z| == n; }
    if n == 1 {
      changes, x, path := [Insert(z, h)], z, [z];
      assert changes[..0] == [] && ApplyAll(map[], changes) == map[z := Stored(h)];
      ConsChain(map[z := Stored(h)], z, []);
    } else {
      var before, shorter;
      before, x, shorter := AnyLength(h, n - 1);
      var root := shorter[n - 2];
      var more := before + [Insert(z, h)];
      changes := more + [Modify(root, h.(jump := z))];
      assert more[..|before|] == before && changes[..|more|] == more;
      path := shorter + [z];
      NewRoot(ApplyAll(map[], before), x, shorter, z, h);
    }
  }

  lemma NewRoot(t: Table, x: HostId, path: seq<HostId>, z: HostId, h: Host)
    requires Validate(h) == NoError && h.jump == "" && z != "" && z !in t
    requires Chain(t, x, path) && path != [] && path[|path| - 1] in t && t[path[|path| - 1]].jump == ""
    ensures var root := path[|path| - 1];
            var t' := Updated(Created(t, z, h), root, h.(jump := z));
            Chain(t', x, path + [z]) && t'.Keys == t.Keys + {z} && t'[z].jump == ""
  {
    var root, h' := path[|path| - 1], h.(jump := z);
    var t1 := t[z := Stored(h)];
    ChainDistinct(t, x, path);
    ChainInTable(t, x, path, z);
    ChainFrame(t, t1, x, path);
    ConsChain(t1, z, []);
    assert [z] + [] == [z];
    assert Acceptable(t1, z, {root});
    UpdatedChain(t1, root, h', [z], x, path, |path| - 1);
    assert path[..|path|] == path;
  }
}
