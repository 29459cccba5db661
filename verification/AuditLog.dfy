/** The hash-chained audit log: append, prune with anchors, and verification.
    A table is listed in primary-key order. */
module AuditLog {
  import opened Wrappers
  import opened AuditRow
  import opened Decimals

  datatype Anchor = Anchor(
    prunedAt: int, retentionDays: int, rowsDeleted: nat, lastSeqKept: nat,
    boundaryHash: string, genesisHash: string)

  // lastSeq: the last value drawn from the BIGSERIAL counter.
  datatype Log = Log(rows: seq<Row>, anchors: seq<Anchor>, lastSeq: nat)

  // ---------------------------------------------------------------- verification

  function ExpectedPrev(start: string, rows: seq<Row>, i: nat): string
    requires i <= |rows|
  {
    if i == 0 then start else rows[i - 1].rowHash
  }

  predicate RowOk(env: Env, expectedPrev: string, r: Row) {
    r.prevHash == expectedPrev && RowHash(env, r) == r.rowHash
  }

  // The trigger is explicit because ExpectedPrev mentions rows[i - 1], which would match rows[i] again.
  ghost predicate ChainFrom(env: Env, start: string, rows: seq<Row>) {
    forall i {:trigger ExpectedPrev(start, rows, i)} ::
      0 <= i < |rows| ==> RowOk(env, ExpectedPrev(start, rows, i), rows[i])
  }

  datatype Fault = PrevMismatch(seqNo: nat) | HashMismatch(seqNo: nat)

  datatype Verdict = Verdict(ok: bool, verified: nat, fault: Option<Fault>)

  // The one right verdict: positive exactly for an intact chain, and otherwise naming the
  // first row that breaks it and how.
  ghost predicate IsVerdict(env: Env, start: string, rows: seq<Row>, v: Verdict) {
    && (v.ok <==> ChainFrom(env, start, rows))
    && (v.ok ==> v.verified == |rows| && v.fault.None?)
    && (!v.ok ==>
      && v.verified < |rows|
      && (forall j {:trigger ExpectedPrev(start, rows, j)} ::
            0 <= j < v.verified ==> RowOk(env, ExpectedPrev(start, rows, j), rows[j]))
      && var bad, expected := rows[v.verified], ExpectedPrev(start, rows, v.verified);
      && !RowOk(env, expected, bad)
      && v.fault == Some(if bad.prevHash != expected then PrevMismatch(bad.seqNo) else HashMismatch(bad.seqNo)))
  }

  /** The walk of verify_audit_log_chain, right on any rows whatever. */
  method Walk(env: Env, start: string, rows: seq<Row>) returns (v: Verdict)
    ensures IsVerdict(env, start, rows, v)
  {
    hide RowHash;
    var expectedPrev := start;
    for i := 0 to |rows|
      invariant expectedPrev == ExpectedPrev(start, rows, i)
      invariant forall j {:trigger ExpectedPrev(start, rows, j)} ::
                  0 <= j < i ==> RowOk(env, ExpectedPrev(start, rows, j), rows[j])
    {
      var row := rows[i];
      if row.prevHash != expectedPrev {
        return Verdict(false, i, Some(PrevMismatch(row.seqNo)));
      }
      var computed := RowHash(env, row);
      if computed != row.rowHash {
        return Verdict(false, i, Some(HashMismatch(row.seqNo)));
      }
      expectedPrev := row.rowHash;
    }
    return Verdict(true, |rows|, None);
  }

  // ORDER BY pruned_at DESC LIMIT 1, and ASC.
  function LatestAnchor(anchors: seq<Anchor>): (a: Anchor)
    requires anchors != []
    ensures a in anchors && forall b :: b in anchors ==> b.prunedAt <= a.prunedAt
  {
    if |anchors| == 1 then anchors[0]
    else
      var a := LatestAnchor(anchors[1..]);
      if anchors[0].prunedAt > a.prunedAt then anchors[0] else a
  }

  function OldestAnchor(anchors: seq<Anchor>): (a: Anchor)
    requires anchors != []
    ensures a in anchors && forall b :: b in anchors ==> a.prunedAt <= b.prunedAt
  {
    if |anchors| == 1 then anchors[0]
    else
      var a := OldestAnchor(anchors[1..]);
      if anchors[0].prunedAt < a.prunedAt then anchors[0] else a
  }

  // WHERE seq >= lo ORDER BY seq ASC
  function FetchFrom(rows: seq<Row>, lo: nat): (fetched: seq<Row>)
    ensures forall r :: r in fetched <==> r in rows && r.seqNo >= lo
  {
    if rows == [] then []
    else if rows[0].seqNo >= lo then [rows[0]] + FetchFrom(rows[1..], lo)
    else FetchFrom(rows[1..], lo)
  }

  function Fetched(log: Log): seq<Row> {
    if log.anchors == [] then log.rows else FetchFrom(log.rows, LatestAnchor(log.anchors).lastSeqKept)
  }

  function Start(env: Env, log: Log): string {
    if log.anchors == [] then Genesis(env) else LatestAnchor(log.anchors).boundaryHash
  }

  // Keys are unique and ascending, and the counter is never behind.
  ghost predicate Keyed(log: Log) {
    && (forall i, j :: 0 <= i < j < |log.rows| ==> log.rows[i].seqNo < log.rows[j].seqNo)
    && (forall r :: r in log.rows ==> r.seqNo <= log.lastSeq)
  }

  lemma {:induction false} FetchSuffix(rows: seq<Row>, lo: nat) returns (n: nat)
    requires forall i, j :: 0 <= i < j < |rows| ==> rows[i].seqNo < rows[j].seqNo
    ensures n <= |rows| && FetchFrom(rows, lo) == rows[n..]
    ensures forall i :: 0 <= i < |rows| ==> (rows[i].seqNo >= lo <==> n <= i)
  {
    n := 0;
    if rows != [] && rows[0].seqNo < lo {
      var m := FetchSuffix(rows[1..], lo);
      n := m + 1;
      assert FetchFrom(rows, lo) == FetchFrom(rows[1..], lo) && rows[1..][m..] == rows[n..];
      hide FetchFrom;
      forall i | 0 <= i < |rows|
        ensures rows[i].seqNo >= lo <==> n <= i
      {
        assert i > 0 ==> rows[i] == rows[1..][i - 1];
      }
    } else {
      FetchAll(rows, lo);
    }
  }

  lemma {:induction false} FetchAll(rows: seq<Row>, lo: nat)
    requires forall i :: 0 <= i < |rows| ==> rows[i].seqNo >= lo
    ensures FetchFrom(rows, lo) == rows
  {
    if rows != [] {
      FetchAll(rows[1..], lo);
    }
  }

  /** What verification walks, on any keyed table: everything from genesis if nothing was ever pruned, else the rows
      from the first kept one that the latest anchor names, from the hash that it stores. */
  lemma VerifiedRows(env: Env, log: Log) returns (n: nat)
    requires Keyed(log)
    ensures n <= |log.rows| && Fetched(log) == log.rows[n..]
    ensures if log.anchors == [] then n == 0 && Start(env, log) == env.hash(GENESIS_TEXT)
      else exists a ::
        && a in log.anchors && (forall b :: b in log.anchors ==> b.prunedAt <= a.prunedAt)
        && Start(env, log) == a.boundaryHash
        && forall i :: 0 <= i < |log.rows| ==> (log.rows[i].seqNo >= a.lastSeqKept <==> n <= i)
  {
    if log.anchors == [] {
      n := 0;
    } else {
      var a := LatestAnchor(log.anchors);
      n := FetchSuffix(log.rows, a.lastSeqKept);
      assert Start(env, log) == a.boundaryHash;
    }
  }

  // ---------------------------------------------------------------- append

  function PrevForAppend(env: Env, log: Log): string {
    if log.rows == [] then Genesis(env) else log.rows[|log.rows| - 1].rowHash
  }

  // INSERT ... RETURNING seq: the counter may have skipped values.
  function InsertPending(log: Log, gap: nat, ts: int, eventType: string, agentId: Option<string>,
                         payload: string, prevHash: string): Log
  {
    var seqNo := log.lastSeq + 1 + gap;
    Log(log.rows + [Row(seqNo, ts, eventType, agentId, payload, prevHash, PENDING)], log.anchors, seqNo)
  }

  // UPDATE audit_log SET row_hash = ... WHERE seq = ...
  function SetRowHash(env: Env, rows: seq<Row>, seqNo: nat): (updated: seq<Row>)
    ensures |updated| == |rows|
    ensures forall i :: 0 <= i < |rows| ==>
      updated[i] == if rows[i].seqNo == seqNo then rows[i].(rowHash := RowHash(env, rows[i])) else rows[i]
  {
    if rows == [] then []
    else
      [if rows[0].seqNo == seqNo then rows[0].(rowHash := RowHash(env, rows[0])) else rows[0]]
      + SetRowHash(env, rows[1..], seqNo)
  }

  // The row that an uninterrupted append adds.
  function NewRow(env: Env, log: Log, gap: nat, ts: int, eventType: string, agentId: Option<string>,
                  payload: string): Row
  {
    var r := Row(log.lastSeq + 1 + gap, ts, eventType, agentId, payload, PrevForAppend(env, log), PENDING);
    r.(rowHash := RowHash(env, r))
  }

  function AppendStep(env: Env, log: Log, gap: nat, ts: int, eventType: string, agentId: Option<string>,
                      payload: string): Log
  {
    var r := NewRow(env, log, gap, ts, eventType, agentId, payload);
    Log(log.rows + [r], log.anchors, r.seqNo)
  }

  /** An append adds one row with the content it was given, linked to the last row or to genesis, and hashed. */
  lemma AppendMeaning(env: Env, log: Log, gap: nat, ts: int, ev: string, ag: Option<string>, pl: string)
    ensures var after, n := AppendStep(env, log, gap, ts, ev, ag, pl), |log.rows|;
      && |after.rows| == n + 1 && after.rows[..n] == log.rows && after.anchors == log.anchors
      && var r := after.rows[n];
      && r.ts == ts && r.eventType == ev && r.agentId == ag && r.payload == pl
      && r.seqNo == after.lastSeq == log.lastSeq + 1 + gap
      && r.prevHash == (if n == 0 then env.hash(GENESIS_TEXT) else log.rows[n - 1].rowHash)
      && r.rowHash == RowHash(env, r)
  {
    var r := Row(log.lastSeq + 1 + gap, ts, ev, ag, pl, PrevForAppend(env, log), PENDING);
    assert Middle(r.(rowHash := RowHash(env, r))) == Middle(r);
  }

  // The three statements of an append, run without interruption, add exactly one finished row.
  lemma AppendInThreeSteps(env: Env, log: Log, gap: nat, ts: int, ev: string, ag: Option<string>, pl: string)
    requires Keyed(log)
    ensures
      var inserted := InsertPending(log, gap, ts, ev, ag, pl, PrevForAppend(env, log));
      inserted.(rows := SetRowHash(env, inserted.rows, inserted.lastSeq)) == AppendStep(env, log, gap, ts, ev, ag, pl)
  {
    var inserted := InsertPending(log, gap, ts, ev, ag, pl, PrevForAppend(env, log));
    var done := SetRowHash(env, inserted.rows, inserted.lastSeq);
    forall i | 0 <= i < |log.rows|
      ensures done[i] == log.rows[i]
    {
      assert log.rows[i] in log.rows;
    }
    var r := NewRow(env, log, gap, ts, ev, ag, pl);
    assert Image(env, r) == Image(env, r.(rowHash := PENDING));
    assert done == log.rows + [r];
  }

  lemma AppendKeepsKeyed(env: Env, log: Log, gap: nat, ts: int, ev: string, ag: Option<string>, pl: string)
    requires Keyed(log)
    ensures Keyed(AppendStep(env, log, gap, ts, ev, ag, pl))
  {
    hide RowHash;
  }

  lemma HashingFinishes(env: Env, log: Log, gap: nat, ts: int, ev: string, ag: Option<string>, pl: string,
                        inserted: Log)
    requires Keyed(log) && inserted == InsertPending(log, gap, ts, ev, ag, pl, PrevForAppend(env, log))
    ensures inserted.(rows := SetRowHash(env, inserted.rows, inserted.lastSeq))
      == AppendStep(env, log, gap, ts, ev, ag, pl)
    ensures Keyed(AppendStep(env, log, gap, ts, ev, ag, pl))
  {
    AppendInThreeSteps(env, log, gap, ts, ev, ag, pl);
    AppendKeepsKeyed(env, log, gap, ts, ev, ag, pl);
  }

  // Two appenders that both read before either has stored its row hash: the second one has seen
  // the old last row or, if it came late, the first one's pending row.
  function Interleaved(env: Env, log: Log, gap1: nat, first: Row, gap2: nat, second: Row, late: bool): seq<Row> {
    var p := PendingRow(first, log.lastSeq + 1 + gap1, PrevForAppend(env, log));
    var q := PendingRow(second, p.seqNo + 1 + gap2, if late then PENDING else PrevForAppend(env, log));
    SetRowHash(env, SetRowHash(env, log.rows + [p] + [q], p.seqNo), q.seqNo)
  }

  // What an insert of the content of r leaves.
  function PendingRow(r: Row, seqNo: nat, prevHash: string): (p: Row)
    ensures p.seqNo == seqNo && p.prevHash == prevHash
  {
    r.(seqNo := seqNo, prevHash := prevHash, rowHash := PENDING)
  }

  lemma StoredHashIsRight(env: Env, p: Row)
    requires EnvOk(env)
    ensures var r := p.(rowHash := RowHash(env, p)); r.rowHash == RowHash(env, r) && r.rowHash != PENDING
  {
    assert Middle(p.(rowHash := RowHash(env, p))) == Middle(p);
  }

  lemma KeysBelow(log: Log, seqNo: nat)
    requires Keyed(log) && log.lastSeq < seqNo
    ensures forall i :: 0 <= i < |log.rows| ==> log.rows[i].seqNo < seqNo
  {
    forall i | 0 <= i < |log.rows|
      ensures log.rows[i].seqNo < seqNo
    {
      assert log.rows[i] in log.rows;
    }
  }

  lemma HashedOnce(env: Env, rows: seq<Row>, seqNo: nat, i: nat)
    requires i < |rows|
    ensures var after := SetRowHash(env, rows, seqNo);
      && |after| == |rows|
      && after[i] == if rows[i].seqNo == seqNo then rows[i].(rowHash := RowHash(env, rows[i])) else rows[i]
  {
    hide RowHash;
  }

  lemma PendingPair(env: Env, kept: seq<Row>, p: Row, q: Row)
    requires p.seqNo < q.seqNo && forall i :: 0 <= i < |kept| ==> kept[i].seqNo < p.seqNo
    ensures var rows, n := SetRowHash(env, SetRowHash(env, kept + [p] + [q], p.seqNo), q.seqNo), |kept|;
      && |rows| == n + 2 && rows[..n] == kept
      && rows[n] == p.(rowHash := RowHash(env, p)) && rows[n + 1].prevHash == q.prevHash
  {
    hide RowHash, SetRowHash;
    var all, n := kept + [p] + [q], |kept|;
    var once := SetRowHash(env, all, p.seqNo);
    var twice := SetRowHash(env, once, q.seqNo);
    forall i | 0 <= i < n + 2
      ensures once[i] == if i == n then p.(rowHash := RowHash(env, p)) else all[i]
      ensures twice[i] == if i == n + 1 then q.(rowHash := RowHash(env, q)) else once[i]
    {
      HashedOnce(env, all, p.seqNo, i);
      HashedOnce(env, once, q.seqNo, i);
    }
  }

  lemma InterleavedRows(env: Env, log: Log, gap1: nat, first: Row, gap2: nat, second: Row, late: bool)
    requires EnvOk(env) && Keyed(log)
    ensures var rows, n := Interleaved(env, log, gap1, first, gap2, second, late), |log.rows|;
      && |rows| == n + 2 && rows[..n] == log.rows
      && rows[n].prevHash == PrevForAppend(env, log) && rows[n].rowHash == RowHash(env, rows[n])
      && rows[n].rowHash != PENDING && rows[n].seqNo > log.lastSeq
      && rows[n + 1].prevHash == if late then PENDING else PrevForAppend(env, log)
  {
    hide SetRowHash, PrevForAppend, EnvOk, RowHash, Keyed, PendingRow;
    var p := PendingRow(first, log.lastSeq + 1 + gap1, PrevForAppend(env, log));
    var q := PendingRow(second, p.seqNo + 1 + gap2, if late then PENDING else PrevForAppend(env, log));
    StoredHashIsRight(env, p);
    KeysBelow(log, p.seqNo);
    PendingPair(env, log.rows, p, q);
  }

  /** Appends need mutual exclusion: run two of them interleaved on any table that verifies, and verification
      stops at the second one's row; on a table emptied by a prune it stops at the first one's already. */
  lemma {:induction false} InterleavedAppendsBreak(env: Env, start: string, log: Log,
                                                   gap1: nat, first: Row, gap2: nat, second: Row,
                                                   late: bool, v: Verdict)
    requires EnvOk(env) && Keyed(log) && ChainFrom(env, start, log.rows)
    requires CollisionFree(env, Images(env, Interleaved(env, log, gap1, first, gap2, second, late)) + {GENESIS_TEXT})
    ensures IsVerdict(env, start, Interleaved(env, log, gap1, first, gap2, second, late), v) ==>
      !v.ok && v.verified == if log.rows == [] && start != Genesis(env) then 0 else |log.rows| + 1
  {
    var rows, n := Interleaved(env, log, gap1, first, gap2, second, late), |log.rows|;
    InterleavedRows(env, log, gap1, first, gap2, second, late);
    if n > 0 {
      assert rows[n - 1] == log.rows[n - 1] && log.rows[n - 1] in log.rows;
    }
    hide Interleaved, RowHash, CollisionFree, IsVerdict, EnvOk;
    if IsVerdict(env, start, rows, v) {
      RivalBreaks(env, start, rows, n, v);
    }
  }

  lemma RivalBreaks(env: Env, start: string, rows: seq<Row>, n: nat, v: Verdict)
    requires |rows| == n + 2 && ChainFrom(env, start, rows[..n])
    requires CollisionFree(env, Images(env, rows) + {GENESIS_TEXT}) && (n > 0 ==> rows[n - 1].seqNo < rows[n].seqNo)
    requires rows[n].prevHash == if n > 0 then rows[n - 1].rowHash else Genesis(env)
    requires rows[n].rowHash == RowHash(env, rows[n]) != PENDING
    requires rows[n + 1].prevHash == rows[n].prevHash || rows[n + 1].prevHash == PENDING
    requires IsVerdict(env, start, rows, v)
    ensures !v.ok && v.verified == if n == 0 && start != Genesis(env) then 0 else n + 1
  {
    hide RowHash, CollisionFree, IsVerdict, ChainFrom;
    if n == 0 && start != Genesis(env) {
      FirstBadRow(env, start, rows, 0, v);
    } else {
      NewHashIsNew(env, start, rows, n);
      ChainGrows(env, start, rows, n);
      FirstBadRow(env, start, rows, n + 1, v);
    }
  }

  // The hash of a row never equals the previous hash it links to.
  lemma NewHashIsNew(env: Env, start: string, rows: seq<Row>, n: nat)
    requires n < |rows| && ChainFrom(env, start, rows[..n])
    requires CollisionFree(env, Images(env, rows) + {GENESIS_TEXT}) && (n > 0 ==> rows[n - 1].seqNo < rows[n].seqNo)
    requires rows[n].prevHash == if n > 0 then rows[n - 1].rowHash else Genesis(env)
    ensures RowHash(env, rows[n]) != rows[n].prevHash
  {
    hide Image;
    if n > 0 {
      assert rows[n - 1] == rows[..n][n - 1];
      assert RowOk(env, ExpectedPrev(start, rows[..n], n - 1), rows[..n][n - 1]);
      FewerTexts(env, Images(env, rows) + {GENESIS_TEXT}, Images(env, rows));
      SameHashSameSeq(env, rows, rows[n - 1], rows[n]);
    } else {
      assert rows[0] in rows && Image(env, rows[0]) in Images(env, rows);
      NotGenesis(env, rows[0]);
    }
  }

  lemma ChainGrows(env: Env, start: string, rows: seq<Row>, k: nat)
    requires k < |rows| && ChainFrom(env, start, rows[..k]) && RowOk(env, ExpectedPrev(start, rows, k), rows[k])
    ensures ChainFrom(env, start, rows[..k + 1])
  {
    hide RowOk;
    var front, longer := rows[..k], rows[..k + 1];
    forall i | 0 <= i < k + 1
      ensures RowOk(env, ExpectedPrev(start, longer, i), longer[i])
    {
      assert ExpectedPrev(start, longer, i) == ExpectedPrev(start, rows, i);
      if i < k {
        assert RowOk(env, ExpectedPrev(start, front, i), front[i]);
        assert ExpectedPrev(start, front, i) == ExpectedPrev(start, rows, i);
      }
    }
  }

  lemma FirstBadRow(env: Env, start: string, rows: seq<Row>, k: nat, v: Verdict)
    requires k < |rows| && ChainFrom(env, start, rows[..k])
    requires !RowOk(env, ExpectedPrev(start, rows, k), rows[k])
    requires IsVerdict(env, start, rows, v)
    ensures !v.ok && v.verified == k
  {
    hide RowOk;
    var front := rows[..k];
    forall i | 0 <= i < k
      ensures RowOk(env, ExpectedPrev(start, rows, i), rows[i])
    {
      assert RowOk(env, ExpectedPrev(start, front, i), front[i]);
      assert ExpectedPrev(start, front, i) == ExpectedPrev(start, rows, i);
    }
  }

  lemma SameHashSameSeq(env: Env, rows: seq<Row>, r: Row, s: Row)
    requires CollisionFree(env, Images(env, rows)) && r in rows && s in rows
    ensures RowHash(env, r) == RowHash(env, s) ==> r.seqNo == s.seqNo
  {
    assert Image(env, r) in Images(env, rows) && Image(env, s) in Images(env, rows);
    if RowHash(env, r) == RowHash(env, s) {
      ImageSeq(env, r, s);
    }
  }

  // ---------------------------------------------------------------- prune

  // WHERE ts < cutoff ORDER BY seq DESC LIMIT 1
  function LastOlder(rows: seq<Row>, cutoff: int): (b: Option<nat>)
    ensures b.Some? ==> b.value < |rows| && rows[b.value].ts < cutoff
    ensures b.Some? ==> forall i :: b.value < i < |rows| ==> rows[i].ts >= cutoff
    ensures b.None? ==> forall r :: r in rows ==> r.ts >= cutoff
  {
    if rows == [] then None
    else if rows[|rows| - 1].ts < cutoff then Some(|rows| - 1)
    else LastOlder(rows[..|rows| - 1], cutoff)
  }

  // The anchor that a prune at row index b writes.
  function NewAnchor(log: Log, b: nat, now: int, retentionDays: int): Anchor
    requires b < |log.rows|
  {
    Anchor(now, retentionDays, b + 1,
           if b + 1 < |log.rows| then log.rows[b + 1].seqNo else log.rows[b].seqNo + 1,
           log.rows[b].rowHash,
           if log.anchors == [] then log.rows[0].rowHash else OldestAnchor(log.anchors).genesisHash)
  }

  function PruneStep(log: Log, now: int, retentionDays: int, cutoff: int): Log {
    match LastOlder(log.rows, cutoff)
    case None => log
    case Some(b) => Log(log.rows[b + 1..], log.anchors + [NewAnchor(log, b, now, retentionDays)], log.lastSeq)
  }

  lemma PruneCases(log: Log, now: int, retentionDays: int, cutoff: int)
    ensures var last := LastOlder(log.rows, cutoff);
      PruneStep(log, now, retentionDays, cutoff) == if last.None? then log
        else
          var anchor := NewAnchor(log, last.value, now, retentionDays);
          Log(log.rows[last.value + 1..], log.anchors + [anchor], log.lastSeq)
  {
  }

  /** A prune deletes the rows up to the last one outside the retention window, if there is any, and leaves an anchor
      that says when, under which retention, how many, and how the chain goes on. */
  lemma PruneMeaning(log: Log, now: int, retentionDays: int, cutoff: int)
    ensures var after := PruneStep(log, now, retentionDays, cutoff);
      var n := |log.rows| - |after.rows|;
      && n >= 0 && after.rows == log.rows[n..] && after.lastSeq == log.lastSeq
      && (forall r :: r in after.rows ==> r.ts >= cutoff)
      && if n == 0 then after.anchors == log.anchors
         else
           && log.rows[n - 1].ts < cutoff
           && |after.anchors| == |log.anchors| + 1 && after.anchors[..|log.anchors|] == log.anchors
           && var x := after.anchors[|log.anchors|];
           && x.prunedAt == now && x.retentionDays == retentionDays && x.rowsDeleted == n
           && x.boundaryHash == log.rows[n - 1].rowHash
           && x.lastSeqKept == (if after.rows != [] then after.rows[0].seqNo else log.rows[n - 1].seqNo + 1)
           && (log.anchors == [] ==> x.genesisHash == log.rows[0].rowHash)
           && (log.anchors != [] ==> exists a :: a in log.anchors && x.genesisHash == a.genesisHash)
  {
    hide OldestAnchor;
    var b := LastOlder(log.rows, cutoff);
    if b.Some? && log.anchors != [] {
      assert OldestAnchor(log.anchors) in log.anchors;
    }
  }

  lemma PruneKeepsKeyed(log: Log, now: int, retentionDays: int, cutoff: int)
    requires Keyed(log)
    ensures Keyed(PruneStep(log, now, retentionDays, cutoff))
  {
    var after := PruneStep(log, now, retentionDays, cutoff);
    hide NewAnchor;
    assert forall r :: r in after.rows ==> r in log.rows;
  }

  /** The two tables, updated in place. */
  class AuditTables {
    const env: Env
    var rows: seq<Row>
    var anchors: seq<Anchor>
    var lastSeq: nat

    ghost function Model(): Log
      reads this
    {
      Log(rows, anchors, lastSeq)
    }

    constructor (env: Env)
      ensures this.env == env && Model() == Log([], [], 0)
    {
      this.env, rows, anchors, lastSeq := env, [], [], 0;
    }

    // SELECT the last row, INSERT a pending one, UPDATE its hash.
    method Append(gap: nat, ts: int, eventType: string, agentId: Option<string>, payload: string)
      returns (seqNo: nat)
      requires Keyed(Model())
      modifies this
      ensures Model() == AppendStep(env, old(Model()), gap, ts, eventType, agentId, payload)
      ensures seqNo == lastSeq && Keyed(Model())
    {
      hide Keyed, SetRowHash, AppendStep, Genesis;
      ghost var log := Model();
      var prevHash := if rows == [] then Genesis(env) else rows[|rows| - 1].rowHash;
      seqNo := lastSeq + 1 + gap;
      rows := rows + [Row(seqNo, ts, eventType, agentId, payload, prevHash, PENDING)];
      lastSeq := seqNo;
      HashingFinishes(env, log, gap, ts, eventType, agentId, payload, Model());
      rows := SetRowHash(env, rows, seqNo);
    }

    method Prune(now: int, retentionDays: int, cutoff: int) returns (deleted: nat)
      requires Keyed(Model())
      modifies this
      ensures Model() == PruneStep(old(Model()), now, retentionDays, cutoff)
      ensures deleted == |old(rows)| - |rows| && Keyed(Model())
    {
      ghost var log := Model();
      hide Keyed, LastOlder, OldestAnchor, PruneStep, NewAnchor;
      PruneKeepsKeyed(log, now, retentionDays, cutoff);
      PruneCases(log, now, retentionDays, cutoff);
      var lastToDelete := LastOlder(rows, cutoff);
      if lastToDelete.None? {
        return 0;
      }
      var b := lastToDelete.value;
      var anchor := AnchorAt(b, now, retentionDays);
      anchors := anchors + [anchor];
      rows := rows[b + 1..];
      return b + 1;
    }

    method AnchorAt(b: nat, now: int, retentionDays: int) returns (anchor: Anchor)
      requires b < |rows|
      ensures anchor == NewAnchor(Model(), b, now, retentionDays)
    {
      var firstKept := if b + 1 < |rows| then rows[b + 1].seqNo else rows[b].seqNo + 1;
      var genesisHash := if anchors == [] then rows[0].rowHash else OldestAnchor(anchors).genesisHash;
      anchor := Anchor(now, retentionDays, b + 1, firstKept, rows[b].rowHash, genesisHash);
    }

    method Verify() returns (v: Verdict)
      ensures IsVerdict(env, Start(env, Model()), Fetched(Model()), v)
    {
      if anchors == [] {
        v := Walk(env, Genesis(env), rows);
      } else {
        var anchor := LatestAnchor(anchors);
        v := Walk(env, anchor.boundaryHash, FetchFrom(rows, anchor.lastSeqKept));
      }
    }
  }

  // ---------------------------------------------------------------- tamper evidence

  function LastHash(start: string, rows: seq<Row>): string {
    ExpectedPrev(start, rows, |rows|)
  }

  // The same canonical string, the same stored hashes, and a previous hash that is a hash.
  predicate SameLink(env: Env, r: Row, s: Row) {
    && Image(env, r) == Image(env, s) && r.rowHash == s.rowHash
    && r.prevHash == s.prevHash && '|' !in r.prevHash
  }

  ghost predicate SameChain(env: Env, a: seq<Row>, b: seq<Row>) {
    |a| == |b| && forall i :: 0 <= i < |a| ==> SameLink(env, a[i], b[i])
  }

  // Two verified lists that end in the same hash have the same last row and go on from the same hash.
  lemma SameLastRow(env: Env, start: string, a: seq<Row>, b: seq<Row>)
    requires EnvOk(env) && '|' !in start && a != [] && b != []
    requires CollisionFree(env, Images(env, a) + Images(env, b))
    requires ChainFrom(env, start, a) && ChainFrom(env, start, b)
    requires LastHash(start, a) == LastHash(start, b)
    ensures SameLink(env, a[|a| - 1], b[|b| - 1])
    ensures LastHash(start, a[..|a| - 1]) == LastHash(start, b[..|b| - 1])
  {
    var r, s := a[|a| - 1], b[|b| - 1];
    LastRowHashed(env, start, a);
    LastRowHashed(env, start, b);
    assert r in a && s in b;
    SameHashSameImage(env, a, b, r, s);
  }

  lemma SameHashSameImage(env: Env, a: seq<Row>, b: seq<Row>, r: Row, s: Row)
    requires EnvOk(env) && CollisionFree(env, Images(env, a) + Images(env, b))
    requires r in a && s in b && RowHash(env, r) == RowHash(env, s)
    requires '|' !in r.prevHash && '|' !in s.prevHash
    ensures Image(env, r) == Image(env, s) && r.prevHash == s.prevHash
  {
    assert Image(env, r) in Images(env, a) && Image(env, s) in Images(env, b);
    ImageEnds(env, r, s);
  }

  // A verified nonempty list never ends in the hash of a text that is none of its canonical strings.
  lemma EndsElsewhere(env: Env, origin: string, a: seq<Row>)
    requires EnvOk(env) && a != [] && ChainFrom(env, env.hash(origin), a)
    requires CollisionFree(env, Images(env, a) + {origin}) && origin !in Images(env, a)
    ensures LastHash(env.hash(origin), a) != env.hash(origin)
  {
    LastRowHashed(env, env.hash(origin), a);
    assert Image(env, a[|a| - 1]) in Images(env, a);
  }

  /** Two lists that both verify from the hash of the same text and end in the same row hash are the
      same chain, unless the hash collides on one of the texts involved. */
  lemma {:induction false} TamperEvident(env: Env, origin: string, a: seq<Row>, b: seq<Row>)
    requires EnvOk(env) && CollisionFree(env, Images(env, a) + Images(env, b) + {origin})
    requires origin !in Images(env, a) && origin !in Images(env, b)
    requires ChainFrom(env, env.hash(origin), a) && ChainFrom(env, env.hash(origin), b)
    requires LastHash(env.hash(origin), a) == LastHash(env.hash(origin), b)
    ensures SameChain(env, a, b)
  {
    hide Image, RowOk, SameLink, CollisionFree;
    var start := env.hash(origin);
    if a != [] && b != [] {
      var a', b' := a[..|a| - 1], b[..|b| - 1];
      FewerTexts(env, Images(env, a) + Images(env, b) + {origin}, Images(env, a) + Images(env, b));
      SameLastRow(env, start, a, b);
      ChainPrefix(env, start, a);
      ChainPrefix(env, start, b);
      FewerTexts(env, Images(env, a) + Images(env, b) + {origin}, Images(env, a') + Images(env, b') + {origin});
      TamperEvident(env, origin, a', b');
      JoinChains(env, a, b);
    } else if a != [] {
      FewerTexts(env, Images(env, a) + Images(env, b) + {origin}, Images(env, a) + {origin});
      EndsElsewhere(env, origin, a);
    } else if b != [] {
      FewerTexts(env, Images(env, a) + Images(env, b) + {origin}, Images(env, b) + {origin});
      EndsElsewhere(env, origin, b);
    }
  }

  lemma FewerTexts(env: Env, more: set<string>, fewer: set<string>)
    requires CollisionFree(env, more) && fewer <= more
    ensures CollisionFree(env, fewer)
  {
  }

  lemma JoinChains(env: Env, a: seq<Row>, b: seq<Row>)
    requires a != [] && b != []
    requires SameChain(env, a[..|a| - 1], b[..|b| - 1]) && SameLink(env, a[|a| - 1], b[|b| - 1])
    ensures SameChain(env, a, b)
  {
    var m := |a| - 1;
    forall i | 0 <= i < |a|
      ensures SameLink(env, a[i], b[i])
    {
      if i < m {
        assert a[i] == a[..m][i] && b[i] == b[..m][i];
      }
    }
  }

  // The end of a verified chain is the hash of its last row, which links to the rows before it.
  lemma LastRowHashed(env: Env, start: string, a: seq<Row>)
    requires EnvOk(env) && a != [] && ChainFrom(env, start, a) && '|' !in start
    ensures var m := |a| - 1;
      && LastHash(start, a) == RowHash(env, a[m]) == a[m].rowHash
      && a[m].prevHash == LastHash(start, a[..m]) && '|' !in a[m].prevHash
  {
    var m := |a| - 1;
    assert RowOk(env, ExpectedPrev(start, a, m), a[m]);
    if m > 0 {
      assert RowOk(env, ExpectedPrev(start, a, m - 1), a[m - 1]);
    }
  }

  lemma ChainPrefix(env: Env, start: string, a: seq<Row>)
    requires a != [] && ChainFrom(env, start, a)
    ensures ChainFrom(env, start, a[..|a| - 1])
    ensures Images(env, a[..|a| - 1]) <= Images(env, a)
  {
    var p := a[..|a| - 1];
    forall i | 0 <= i < |p|
      ensures RowOk(env, ExpectedPrev(start, p, i), p[i])
    {
      assert ExpectedPrev(start, p, i) == ExpectedPrev(start, a, i);
    }
  }

  ghost predicate SameRow(r: Row, s: Row) {
    SameContent(r, s) && r.rowHash == s.rowHash
  }

  /** From genesis: the last row hash fixes the whole table, every field of it. */
  lemma TamperEvidentFromGenesis(env: Env, a: seq<Row>, b: seq<Row>)
    requires EnvOk(env) && CollisionFree(env, Images(env, a) + Images(env, b) + {GENESIS_TEXT})
    requires forall r :: r in a + b ==> Clean(r)
    requires ChainFrom(env, Genesis(env), a) && ChainFrom(env, Genesis(env), b)
    requires LastHash(Genesis(env), a) == LastHash(Genesis(env), b)
    ensures |a| == |b| && forall i :: 0 <= i < |a| ==> SameRow(a[i], b[i])
  {
    forall r | r in a + b
      ensures Image(env, r) != GENESIS_TEXT
    {
      NotGenesis(env, r);
    }
    TamperEvident(env, GENESIS_TEXT, a, b);
    RowsAgree(env, a, b);
  }

  /** From an anchor: the same, for rows kept after the row whose hash the anchor stores. */
  lemma TamperEvidentFromAnchor(env: Env, boundary: Row, a: seq<Row>, b: seq<Row>)
    requires EnvOk(env) && CollisionFree(env, Images(env, a) + Images(env, b) + {Image(env, boundary)})
    requires forall r :: r in a + b ==> Clean(r) && boundary.seqNo < r.seqNo
    requires ChainFrom(env, RowHash(env, boundary), a) && ChainFrom(env, RowHash(env, boundary), b)
    requires LastHash(RowHash(env, boundary), a) == LastHash(RowHash(env, boundary), b)
    ensures |a| == |b| && forall i :: 0 <= i < |a| ==> SameRow(a[i], b[i])
  {
    forall r | r in a + b
      ensures Image(env, r) != Image(env, boundary)
    {
      if Image(env, r) == Image(env, boundary) {
        ImageSeq(env, r, boundary);
      }
    }
    TamperEvident(env, Image(env, boundary), a, b);
    RowsAgree(env, a, b);
  }

  lemma RowsAgree(env: Env, a: seq<Row>, b: seq<Row>)
    requires EnvOk(env) && SameChain(env, a, b)
    requires forall r :: r in a + b ==> Clean(r)
    ensures forall i :: 0 <= i < |a| ==> SameRow(a[i], b[i])
  {
    forall i | 0 <= i < |a|
      ensures SameRow(a[i], b[i])
    {
      assert a[i] in a + b && b[i] in a + b;
      CanonicalDecodes(env, a[i], b[i]);
    }
  }

  lemma NotGenesis(env: Env, r: Row)
    ensures Image(env, r) != GENESIS_TEXT
  {
    PipedParts(Decimal(r.seqNo), Piped(env.iso(r.ts), Piped(Middle(r), r.prevHash)));
    assert '|' in Image(env, r);
    assert '|' !in GENESIS_TEXT;
  }
}
