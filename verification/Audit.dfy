/** The hash-chained audit log: append, verification, and what verification
    does and does not detect. */
module Audit {

  /** The fields that enter the hash. */
  datatype Payload = Payload(at: string, eventId: string, actorId: string, actorName: string, action: string,
                             objectType: string, objectId: string, result: string, detail: string, prevHash: string)

  /** A stored row; ip is stored but not hashed. */
  datatype Row = Row(id: nat, body: Payload, hash: string, ip: string)

  datatype Report = Report(ok: bool, checked: nat, brokenAt: nat, reason: string)

  /** The hash of the canonical serialisation of a payload. */
  type Hash = Payload -> string

  /** An absent detail is stored, and hashed, as an empty object. */
  function OrEmpty(detail: string): string {
    if detail == "" then "{}" else detail
  }

  /** canonicalPayload defaults an empty detail before hashing. */
  function Canonical(p: Payload): Payload {
    p.(detail := OrEmpty(p.detail))
  }

  /** The assumptions on the hash, for a log: no other payload has the hash of one
      of its rows, and no hash is the empty string. */
  ghost predicate Ideal(h: Hash, rows: seq<Row>) {
    && (forall i, q :: 0 <= i < |rows| && h(q) == h(Canonical(rows[i].body)) ==> q == Canonical(rows[i].body))
    && NeverEmpty(h)
  }

  ghost predicate NeverEmpty(h: Hash) {
    forall p :: h(p) != ""
  }

  function LastHash(rows: seq<Row>): string {
    if rows == [] then "" else rows[|rows| - 1].hash
  }

  /** The row at i follows its predecessor. */
  predicate Chained(h: Hash, rows: seq<Row>, i: nat)
    requires i < |rows|
  {
    rows[i].body.prevHash == LastHash(rows[..i]) && h(Canonical(rows[i].body)) == rows[i].hash
  }

  predicate Intact(h: Hash, rows: seq<Row>) {
    forall i :: 0 <= i < |rows| ==> Chained(h, rows, i)
  }

  /** Verify: the log is intact, or the report names the first row that does not
      follow its predecessor, and why. */
  method Verify(h: Hash, rows: seq<Row>) returns (r: Report)
    ensures r.ok <==> Intact(h, rows)
    ensures r.ok ==> r == Report(true, |rows|, 0, "")
    ensures !r.ok ==> r.checked < |rows| && r.brokenAt == rows[r.checked].id
                      && Intact(h, rows[..r.checked]) && !Chained(h, rows, r.checked)
    ensures !r.ok ==> (r.reason == "prev_hash mismatch" <==>
      rows[r.checked].body.prevHash != LastHash(rows[..r.checked]))
  {
    var prev := "";
    var n := 0;
    while n < |rows|
      invariant n <= |rows| && prev == LastHash(rows[..n])
      invariant forall i :: 0 <= i < n ==> Chained(h, rows, i)
    {
      var e := rows[n];
      if e.body.prevHash != prev {
        PrefixIntact(h, rows, n);
        assert !Chained(h, rows, n);
        return Report(false, n, e.id, "prev_hash mismatch");
      }
      var want := h(Canonical(e.body.(prevHash := prev)));
      assert e.body.(prevHash := prev) == e.body;
      if want != e.hash {
        PrefixIntact(h, rows, n);
        assert !Chained(h, rows, n);
        return Report(false, n, e.id, "payload hash mismatch");
      }
      assert rows[..n + 1][n] == rows[n];
      prev := e.hash;
      n := n + 1;
    }
    return Report(true, n, 0, "");
  }

  lemma PrefixIntact(h: Hash, rows: seq<Row>, n: nat)
    requires n <= |rows| && forall i :: 0 <= i < n ==> Chained(h, rows, i)
    ensures Intact(h, rows[..n])
  {
    forall i | 0 <= i < n ensures Chained(h, rows[..n], i) {
      assert rows[..n][..i] == rows[..i];
      assert Chained(h, rows, i);
    }
  }

  /** The row that follows the log. */
  function NextRow(h: Hash, rows: seq<Row>, id: nat, body: Payload, ip: string): Row {
    var payload := Canonical(body.(prevHash := LastHash(rows)));
    Row(id, payload, h(payload), ip)
  }

  class Log {
    /** The table in id order, and the next autoincrement id. */
    var rows: seq<Row>
    var nextId: nat

    predicate Ordered()
      reads this
    {
      && nextId > 0
      && (forall i, j :: 0 <= i < j < |rows| ==> rows[i].id < rows[j].id)
      && forall i :: 0 <= i < |rows| ==> 0 < rows[i].id < nextId
    }

    constructor ()
      ensures rows == [] && nextId == 1 && Ordered()
    {
      rows, nextId := [], 1;
    }

    /** Write: in one transaction, read the last hash and append.  The returned
        sequence number is one more than the last row's id, which is the new
        row's id as long as no row was deleted from the end. */
    method Write(h: Hash, body: Payload, ip: string) returns (e: Row)
      requires Ordered()
      modifies this
      ensures Ordered() && nextId == old(nextId) + 1
      ensures rows == old(rows) + [NextRow(h, old(rows), old(nextId), body, ip)]
      ensures |rows| == |old(rows)| + 1 && rows[..|old(rows)|] == old(rows)
      ensures var r := rows[|old(rows)|];
              && r.id == old(nextId) && r.ip == ip && r.hash == h(r.body)
              && r.body == body.(detail := if body.detail == "" then "{}" else body.detail,
                                 prevHash := if old(rows) == [] then "" else old(rows)[|old(rows)| - 1].hash)
      ensures Intact(h, old(rows)) ==> Intact(h, rows)
      ensures e.id == old(nextId) <==> old(nextId) == 1 + if old(rows) == [] then 0 else old(rows)[|old(rows)| - 1].id
    {
      var prevHash, seq_ := "", 0;
      if |rows| > 0 {
        prevHash, seq_ := rows[|rows| - 1].hash, rows[|rows| - 1].id;
      }
      var payload := Canonical(body.(prevHash := prevHash));
      var hash := h(payload);
      ghost var before := rows;
      rows := rows + [Row(nextId, payload, hash, ip)];
      e := Row(seq_ + 1, payload, hash, ip);
      nextId := nextId + 1;
      if Intact(h, before) {
        AppendIntact(h, before, rows[|before|]);
      }
    }
  }

  lemma AppendIntact(h: Hash, rows: seq<Row>, row: Row)
    requires Intact(h, rows) && row.body.prevHash == LastHash(rows) && h(Canonical(row.body)) == row.hash
    ensures Intact(h, rows + [row])
  {
    var more := rows + [row];
    forall i | 0 <= i < |more| ensures Chained(h, more, i) {
      assert more[..i] == rows[..i];
      if i < |rows| {
        assert Chained(h, rows, i);
      } else {
        assert rows[..i] == rows;
      }
    }
  }

  // ----- what the last hash determines

  /** Two rows that hash the same fields. */
  predicate SameHashed(a: Row, b: Row) {
    Canonical(a.body) == Canonical(b.body) && a.hash == b.hash
  }

  /** Two details that hash alike: the same, or both absent or an empty object. */
  predicate SameDetail(d: string, e: string) {
    d == e || (d in {"", "{}"} && e in {"", "{}"})
  }

  /** The fields that enter the hash: all of a row but its id and its address. */
  lemma SameFields(a: Row, b: Row)
    ensures SameHashed(a, b) <==>
              && a.hash == b.hash
              && a.body.at == b.body.at && a.body.eventId == b.body.eventId
              && a.body.actorId == b.body.actorId && a.body.actorName == b.body.actorName
              && a.body.action == b.body.action
              && a.body.objectType == b.body.objectType && a.body.objectId == b.body.objectId
              && a.body.result == b.body.result && a.body.prevHash == b.body.prevHash
              && SameDetail(a.body.detail, b.body.detail)
  {
  }

  lemma EmptyHash(h: Hash, rows: seq<Row>)
    requires NeverEmpty(h) && Intact(h, rows)
    ensures LastHash(rows) == "" <==> rows == []
  {
    if rows != [] {
      assert Chained(h, rows, |rows| - 1);
    }
  }

  /** The rows are the same but for ids, addresses and details that hash alike. */
  predicate SameLog(a: seq<Row>, b: seq<Row>) {
    && |a| == |b|
    && forall i :: 0 <= i < |a| ==>
         && a[i].hash == b[i].hash && a[i].body == b[i].body.(detail := a[i].body.detail)
         && SameDetail(a[i].body.detail, b[i].body.detail)
  }

  lemma SameLogIs(a: seq<Row>, b: seq<Row>)
    requires |a| == |b|
    ensures SameLog(a, b) <==> forall i :: 0 <= i < |a| ==> SameHashed(a[i], b[i])
  {
    forall i | 0 <= i < |a|
      ensures SameHashed(a[i], b[i]) <==>
                && a[i].hash == b[i].hash && a[i].body == b[i].body.(detail := a[i].body.detail)
                && SameDetail(a[i].body.detail, b[i].body.detail)
    {
      SameFields(a[i], b[i]);
    }
  }

  /** Two intact logs with the same last hash have the same length and agree on
      every hashed field of every row. */
  lemma {:induction false} LastHashDetermines(h: Hash, a: seq<Row>, b: seq<Row>)
    requires Ideal(h, a) && Intact(h, a) && Intact(h, b) && LastHash(a) == LastHash(b)
    ensures |a| == |b| && (forall i :: 0 <= i < |a| ==> SameHashed(a[i], b[i])) && SameLog(a, b)
  {
    EmptyHash(h, a);
    EmptyHash(h, b);
    if a == [] {
    } else {
      var m, n := |a| - 1, |b| - 1;
      assert Chained(h, a, m) && Chained(h, b, n);
      PrefixIntact(h, a, m);
      PrefixIntact(h, b, n);
      LastHashDetermines(h, a[..m], b[..n]);
    }
    SameLogIs(a, b);
  }

  /** No two positions of an intact log end with the same hash. */
  lemma PositionsDiffer(h: Hash, rows: seq<Row>, i: nat, j: nat)
    requires Ideal(h, rows) && Intact(h, rows) && i < j <= |rows|
    ensures LastHash(rows[..i]) != LastHash(rows[..j])
  {
    PrefixIntact(h, rows, i);
    PrefixIntact(h, rows, j);
    if LastHash(rows[..i]) == LastHash(rows[..j]) {
      LastHashDetermines(h, rows[..i], rows[..j]);
      assert false;
    }
  }

  // ----- deleting rows

  /** The rows at the kept positions. */
  function Kept(rows: seq<Row>, keep: seq<bool>): seq<Row>
    requires |rows| == |keep|
  {
    if rows == [] then []
    else
      var n := |rows| - 1;
      Kept(rows[..n], keep[..n]) + if keep[n] then [rows[n]] else []
  }

  /** A kept row whose direct predecessor was removed. */
  predicate Orphan(keep: seq<bool>, i: nat)
    requires i < |keep|
  {
    keep[i] && i > 0 && !keep[i - 1]
  }

  /** Only rows at the end were removed. */
  predicate SuffixRemoved(keep: seq<bool>) {
    forall i, j :: 0 <= i < j < |keep| && keep[j] ==> keep[i]
  }

  lemma NoOrphan(keep: seq<bool>)
    ensures SuffixRemoved(keep) <==> forall i :: 0 <= i < |keep| ==> !Orphan(keep, i)
  {
    if forall i :: 0 <= i < |keep| ==> !Orphan(keep, i) {
      forall i, j | 0 <= i < j < |keep| && keep[j] ensures keep[i] {
        KeptBefore(keep, i, j);
      }
    }
  }

  lemma {:induction false} KeptBefore(keep: seq<bool>, i: nat, j: nat)
    requires i <= j < |keep| && keep[j] && forall k :: 0 <= k < |keep| ==> !Orphan(keep, k)
    ensures keep[i]
    decreases j
  {
    if i == j {
    } else {
      assert !Orphan(keep, j);
      KeptBefore(keep, i, j - 1);
    }
  }

  /** Where the last kept row stands: the hash the kept log ends with is the
      hash of some prefix of the whole log, and of the whole log only if its
      last row was kept. */
  lemma {:induction false} KeptEnds(rows: seq<Row>, keep: seq<bool>) returns (n: nat)
    requires |rows| == |keep|
    ensures n <= |rows| && LastHash(Kept(rows, keep)) == LastHash(rows[..n])
    ensures n == |rows| <==> rows == [] || keep[|rows| - 1]
  {
    if rows == [] {
      return 0;
    }
    var m := |rows| - 1;
    if keep[m] {
      assert rows[..m + 1] == rows;
      return m + 1;
    }
    n := KeptEnds(rows[..m], keep[..m]);
    assert rows[..m][..n] == rows[..n];
    assert Kept(rows, keep) == Kept(rows[..m], keep[..m]);
  }

  /** The kept log is intact exactly when no kept row lost its predecessor;
      otherwise it is intact before the first such row, which breaks it by its
      stored previous hash. */
  lemma {:induction false} KeptIntact(h: Hash, rows: seq<Row>, keep: seq<bool>)
    requires Ideal(h, rows) && Intact(h, rows) && |rows| == |keep|
    ensures Intact(h, Kept(rows, keep)) <==> forall i :: 0 <= i < |keep| ==> !Orphan(keep, i)
  {
    if rows == [] {
    } else {
      var n := |rows| - 1;
      PrefixIntact(h, rows, n);
      KeptIntact(h, rows[..n], keep[..n]);
      assert forall i :: 0 <= i < n ==> (Orphan(keep[..n], i) <==> Orphan(keep, i));
      assert (forall i :: 0 <= i < |keep| ==> !Orphan(keep, i)) <==>
        (forall i :: 0 <= i < n ==> !Orphan(keep, i)) && !Orphan(keep, n);
      if keep[n] {
        KeptRowChained(h, rows, keep);
        AppendChained(h, Kept(rows[..n], keep[..n]), rows[n]);
      } else {
        assert Kept(rows, keep) == Kept(rows[..n], keep[..n]);
      }
    }
  }

  /** A kept last row follows the kept log before it exactly when its direct
      predecessor was kept. */
  lemma KeptRowChained(h: Hash, rows: seq<Row>, keep: seq<bool>)
    requires Ideal(h, rows) && Intact(h, rows) && |rows| == |keep| > 0 && keep[|rows| - 1]
    ensures var n := |rows| - 1;
            rows[n].body.prevHash == LastHash(Kept(rows[..n], keep[..n])) <==> !Orphan(keep, n)
    ensures h(Canonical(rows[|rows| - 1].body)) == rows[|rows| - 1].hash
  {
    var n := |rows| - 1;
    assert Chained(h, rows, n);
    var m := KeptEnds(rows[..n], keep[..n]);
    assert rows[..n][..m] == rows[..m];
    if m < n {
      PositionsDiffer(h, rows, m, n);
    }
  }

  lemma AppendChained(h: Hash, rows: seq<Row>, row: Row)
    requires h(Canonical(row.body)) == row.hash
    ensures Intact(h, rows + [row]) <==> Intact(h, rows) && row.body.prevHash == LastHash(rows)
  {
    var more := rows + [row];
    assert more[..|rows|] == rows;
    if Intact(h, more) {
      PrefixIntact(h, more, |rows|);
      assert Chained(h, more, |rows|);
    }
    if Intact(h, rows) && row.body.prevHash == LastHash(rows) {
      AppendIntact(h, rows, row);
    }
  }

  /** Deleting rows from an intact log goes unnoticed exactly when they form a
      suffix; otherwise verification stops at the first kept row whose direct
      predecessor was removed. */
  lemma DeletionDetected(h: Hash, rows: seq<Row>, keep: seq<bool>)
    requires Ideal(h, rows) && Intact(h, rows) && |rows| == |keep|
    ensures Intact(h, Kept(rows, keep)) <==> SuffixRemoved(keep)
    ensures forall i :: 0 <= i < |keep| && Orphan(keep, i) && (forall k :: 0 <= k < i ==> !Orphan(keep, k)) ==>
              var kept, n := Kept(rows, keep), |Kept(rows[..i], keep[..i])|;
              n < |kept| && kept[n] == rows[i] && Intact(h, kept[..n]) && !Chained(h, kept, n)
              && kept[n].body.prevHash != LastHash(kept[..n])
  {
    KeptIntact(h, rows, keep);
    NoOrphan(keep);
    forall i | 0 <= i < |keep| && Orphan(keep, i) && (forall k :: 0 <= k < i ==> !Orphan(keep, k))
      ensures var kept, n := Kept(rows, keep), |Kept(rows[..i], keep[..i])|;
              n < |kept| && kept[n] == rows[i] && Intact(h, kept[..n]) && !Chained(h, kept, n)
              && kept[n].body.prevHash != LastHash(kept[..n])
    {
      FirstBreak(h, rows, keep, i);
    }
  }

  lemma FirstBreak(h: Hash, rows: seq<Row>, keep: seq<bool>, i: nat)
    requires Ideal(h, rows) && Intact(h, rows) && |rows| == |keep| && i < |keep|
    requires Orphan(keep, i) && forall k :: 0 <= k < i ==> !Orphan(keep, k)
    ensures var kept, n := Kept(rows, keep), |Kept(rows[..i], keep[..i])|;
            n < |kept| && kept[n] == rows[i] && Intact(h, kept[..n]) && !Chained(h, kept, n)
            && kept[n].body.prevHash != LastHash(kept[..n])
  {
    hide Kept, Chained, Intact, LastHash, Ideal, Orphan;
    var before := Kept(rows[..i], keep[..i]);
    KeptIsKept(keep, i);
    KeptStep(rows, keep, i);
    IntactBefore(h, rows, keep, i);
    BrokenAt(h, rows, keep, i);
    Unchained(h, Kept(rows, keep), |before|);
  }

  lemma KeptIsKept(keep: seq<bool>, i: nat)
    requires i < |keep| && Orphan(keep, i)
    ensures keep[i]
  {
  }

  lemma IntactBefore(h: Hash, rows: seq<Row>, keep: seq<bool>, i: nat)
    requires Ideal(h, rows) && Intact(h, rows) && |rows| == |keep| && i <= |keep|
    requires forall k :: 0 <= k < i ==> !Orphan(keep, k)
    ensures Intact(h, Kept(rows[..i], keep[..i]))
  {
    PrefixIntact(h, rows, i);
    forall k | 0 <= k < i ensures !Orphan(keep[..i], k) {
      assert !Orphan(keep, k);
    }
    KeptIntact(h, rows[..i], keep[..i]);
  }

  lemma BrokenAt(h: Hash, rows: seq<Row>, keep: seq<bool>, i: nat)
    requires Ideal(h, rows) && Intact(h, rows) && |rows| == |keep| && i < |keep| && Orphan(keep, i)
    ensures rows[i].body.prevHash != LastHash(Kept(rows[..i], keep[..i]))
  {
    hide Kept, Chained, LastHash;
    PrefixIntact(h, rows, i + 1);
    assert rows[..i + 1][..i] == rows[..i] && keep[..i + 1][..i] == keep[..i];
    KeptRowChained(h, rows[..i + 1], keep[..i + 1]);
  }

  lemma Unchained(h: Hash, rows: seq<Row>, i: nat)
    requires i < |rows| && rows[i].body.prevHash != LastHash(rows[..i])
    ensures !Chained(h, rows, i)
  {
  }

  lemma KeptStep(rows: seq<Row>, keep: seq<bool>, i: nat)
    requires |rows| == |keep| && i < |keep| && keep[i]
    ensures var before, kept := Kept(rows[..i], keep[..i]), Kept(rows, keep);
            |before| < |kept| && kept[..|before|] == before && kept[|before|] == rows[i]
  {
    KeptPrefix(rows, keep, i + 1);
    assert rows[..i + 1][..i] == rows[..i] && keep[..i + 1][..i] == keep[..i];
  }

  lemma {:induction false} KeptPrefix(rows: seq<Row>, keep: seq<bool>, n: nat)
    requires |rows| == |keep| && n <= |rows|
    ensures Kept(rows[..n], keep[..n]) <= Kept(rows, keep)
    decreases |rows|
  {
    if n < |rows| {
      var m := |rows| - 1;
      KeptPrefix(rows[..m], keep[..m], n);
      assert rows[..m][..n] == rows[..n] && keep[..m][..n] == keep[..n];
    } else {
      assert rows[..n] == rows && keep[..n] == keep;
    }
  }

  // ----- changing rows

  /** Rewriting stored rows goes unnoticed, last hash kept, exactly when no row
      hashes other fields than before.  The address is not hashed, and a detail
      emptied hashes as the empty object it replaces. */
  lemma RewriteDetected(h: Hash, rows: seq<Row>, changed: seq<Row>)
    requires Ideal(h, rows) && Intact(h, rows) && |rows| == |changed|
    requires LastHash(rows) == LastHash(changed)
    ensures Intact(h, changed) <==> SameLog(rows, changed)
  {
    SameLogIs(rows, changed);
    if Intact(h, changed) {
      LastHashDetermines(h, rows, changed);
    }
    if forall i :: 0 <= i < |rows| ==> SameHashed(rows[i], changed[i]) {
      SameHashedIntact(h, rows, changed);
    }
  }

  /** Rows that hash the same fields as those of an intact log are intact too. */
  lemma SameHashedIntact(h: Hash, rows: seq<Row>, changed: seq<Row>)
    requires Intact(h, rows) && |rows| == |changed|
    requires forall i :: 0 <= i < |rows| ==> SameHashed(rows[i], changed[i])
    ensures Intact(h, changed)
  {
    forall i | 0 <= i < |rows| ensures Chained(h, changed, i) {
      assert Chained(h, rows, i) && SameHashed(rows[i], changed[i]);
      assert i > 0 ==> SameHashed(rows[i - 1], changed[i - 1]);
    }
  }

  // ----- what goes unnoticed

  /** A log of two writes. */
  function TwoRows(h: Hash, a: Payload, b: Payload, ip: string): seq<Row> {
    var first := [NextRow(h, [], 1, a, ip)];
    first + [NextRow(h, first, 2, b, ip)]
  }

  lemma TwoRowsIntact(h: Hash, a: Payload, b: Payload, ip: string)
    ensures Intact(h, TwoRows(h, a, b, ip)) && Intact(h, TwoRows(h, a, b, ip)[..1])
  {
    var first, rows := [NextRow(h, [], 1, a, ip)], TwoRows(h, a, b, ip);
    AppendIntact(h, [], first[0]);
    assert [] + first == first;
    AppendIntact(h, first, rows[1]);
    assert rows[..1] == first;
  }

  /** The log Write makes, with its last row cut, still verifies. */
  method TailCut(h: Hash, a: Payload, b: Payload, ip: string) returns (log: Log, r: Report)
    ensures log.rows == TwoRows(h, a, b, ip) && r == Report(true, 1, 0, "")
  {
    hide Intact, Chained, Canonical, NextRow;
    log := new Log();
    var _ := log.Write(h, a, ip);
    assert log.rows == [NextRow(h, [], 1, a, ip)];
    var _ := log.Write(h, b, ip);
    TwoRowsIntact(h, a, b, ip);
    r := Verify(h, log.rows[..1]);
  }

  /** A row given another address, or whose empty object of a detail is emptied,
      still verifies. */
  lemma EditUnnoticed(h: Hash, a: Payload, b: Payload, ip: string, other: string)
    requires a.detail == ""
    ensures var rows := TwoRows(h, a, b, ip);
            && rows[0].body.detail == "{}"
            && Intact(h, rows[0 := rows[0].(ip := other)])
            && Intact(h, rows[0 := rows[0].(body := rows[0].body.(detail := ""))])
  {
    var rows := TwoRows(h, a, b, ip);
    TwoRowsIntact(h, a, b, ip);
    SameHashedIntact(h, rows, rows[0 := rows[0].(ip := other)]);
    SameHashedIntact(h, rows, rows[0 := rows[0].(body := rows[0].body.(detail := ""))]);
  }
}
