/** Whole runs of the audit log: any sequence of appends and prunes on initially empty tables. */
module AuditRuns {
  import opened Wrappers
  import opened AuditRow
  import opened AuditLog

  datatype Event =
    | Append(gap: nat, ts: int, eventType: string, agentId: Option<string>, payload: string)
    | Prune(now: int, retentionDays: int, cutoff: int)

  function Step(env: Env, log: Log, e: Event): Log {
    match e
    case Append(gap, ts, ev, ag, pl) => AppendStep(env, log, gap, ts, ev, ag, pl)
    case Prune(now, days, cutoff) => PruneStep(log, now, days, cutoff)
  }

  function Run(env: Env, events: seq<Event>): Log {
    if events == [] then Log([], [], 0)
    else Step(env, Run(env, events[..|events| - 1]), events[|events| - 1])
  }

  // Every row ever appended, in order.
  function History(env: Env, events: seq<Event>): seq<Row> {
    if events == [] then []
    else
      var before := events[..|events| - 1];
      History(env, before) + Added(env, Run(env, before), events[|events| - 1])
  }

  function Added(env: Env, log: Log, e: Event): seq<Row> {
    match e
    case Append(gap, ts, ev, ag, pl) => [NewRow(env, log, gap, ts, ev, ag, pl)]
    case Prune(_, _, _) => []
  }

  // How many rows are gone from the table.
  function PrunedCount(env: Env, events: seq<Event>): int {
    |History(env, events)| - |Run(env, events).rows|
  }

  // Event k appends to a table that a prune has emptied.
  predicate AppendsToEmptied(env: Env, events: seq<Event>, k: nat) {
    k < |events| && events[k].Append? && Run(env, events[..k]).rows == [] && Run(env, events[..k]).anchors != []
  }

  predicate Deletes(env: Env, events: seq<Event>, k: nat) {
    k < |events| && events[k].Prune? && LastOlder(Run(env, events[..k]).rows, events[k].cutoff).Some?
  }

  // Some such append was never pruned away.
  ghost predicate Forked(env: Env, events: seq<Event>) {
    exists k: nat :: AppendsToEmptied(env, events, k) && forall j: nat :: k < j ==> !Deletes(env, events, j)
  }

  // The same, one event at a time.
  function ForkStep(log: Log, forked: bool, e: Event): bool {
    match e
    case Append(_, _, _, _, _) => forked || (log.rows == [] && log.anchors != [])
    case Prune(_, _, cutoff) => forked && LastOlder(log.rows, cutoff).None?
  }

  function ForkFlag(env: Env, events: seq<Event>): bool {
    if events == [] then false
    else
      var before := events[..|events| - 1];
      ForkStep(Run(env, before), ForkFlag(env, before), events[|events| - 1])
  }

  // The database clock that stamps anchors moves on from prune to prune.
  ghost predicate PruneClock(events: seq<Event>) {
    forall i, j :: 0 <= i < j < |events| && events[i].Prune? && events[j].Prune? ==> events[i].now < events[j].now
  }

  function SumDeleted(anchors: seq<Anchor>): nat {
    if anchors == [] then 0 else SumDeleted(anchors[..|anchors| - 1]) + anchors[|anchors| - 1].rowsDeleted
  }

  // ---------------------------------------------------------------- the invariant

  // h: every row ever appended; the first d of them are pruned.
  // forked: row d was appended to an emptied table.
  ghost predicate Linked(env: Env, h: seq<Row>, d: nat, forked: bool) {
    && (forall i :: 0 <= i < |h| ==> h[i].rowHash == RowHash(env, h[i]))
    && (forall i {:trigger ExpectedPrev("", h, i)} :: d < i < |h| ==> h[i].prevHash == ExpectedPrev("", h, i))
    && (forked ==> 0 < d < |h|)
    && (d < |h| ==> h[d].prevHash == if d == 0 || forked then Genesis(env) else h[d - 1].rowHash)
  }

  ghost predicate Ascending(h: seq<Row>, lastSeq: nat) {
    && (forall i, j :: 0 <= i < j < |h| ==> h[i].seqNo < h[j].seqNo)
    && (forall i :: 0 <= i < |h| ==> h[i].seqNo <= lastSeq)
  }

  ghost predicate Anchored(a: seq<Anchor>, lastSeq: nat, h: seq<Row>, d: nat)
    requires d <= |h|
  {
    && (a == [] <==> d == 0)
    && SumDeleted(a) == d
    && (forall i :: 0 <= i < |a| ==> h != [] && a[i].genesisHash == h[0].rowHash)
    && (forall i, j :: 0 <= i < j < |a| ==> a[i].prunedAt < a[j].prunedAt)
    && (a != [] ==>
      && a[|a| - 1].boundaryHash == h[d - 1].rowHash
      && h[d - 1].seqNo < a[|a| - 1].lastSeqKept <= if d < |h| then h[d].seqNo else lastSeq + 1)
  }

  ghost predicate Inv(env: Env, log: Log, h: seq<Row>, d: int, forked: bool) {
    && 0 <= d <= |h| && log.rows == h[d..]
    && Ascending(h, log.lastSeq) && Linked(env, h, d, forked) && Anchored(log.anchors, log.lastSeq, h, d)
  }

  lemma AppendKeepsLinked(env: Env, h: seq<Row>, d: nat, forked: bool, r: Row)
    requires d <= |h| && Linked(env, h, d, forked) && r.rowHash == RowHash(env, r)
    requires r.prevHash == if d == |h| then Genesis(env) else h[|h| - 1].rowHash
    ensures Linked(env, h + [r], d, forked || d == |h| > 0)
  {
    var h' := h + [r];
    forall i | d < i < |h'|
      ensures h'[i].prevHash == ExpectedPrev("", h', i)
    {
      assert i < |h| ==> h[i].prevHash == ExpectedPrev("", h, i);
    }
  }

  lemma AppendKeepsAscending(h: seq<Row>, lastSeq: nat, r: Row)
    requires Ascending(h, lastSeq) && r.seqNo > lastSeq
    ensures Ascending(h + [r], r.seqNo)
  {
  }

  lemma AppendKeepsAnchored(anchors: seq<Anchor>, lastSeq: nat, h: seq<Row>, d: nat, r: Row)
    requires d <= |h| && Ascending(h, lastSeq) && Anchored(anchors, lastSeq, h, d) && r.seqNo > lastSeq
    ensures Anchored(anchors, r.seqNo, h + [r], d)
    ensures anchors != [] <==> d > 0
  {
  }

  lemma AppendKeepsInv(env: Env, log: Log, h: seq<Row>, d: int, forked: bool, r: Row)
    requires Inv(env, log, h, d, forked)
    requires r.prevHash == PrevForAppend(env, log) && r.rowHash == RowHash(env, r) && r.seqNo > log.lastSeq
    ensures Inv(env, Log(log.rows + [r], log.anchors, r.seqNo), h + [r], d,
                forked || (log.rows == [] && log.anchors != []))
  {
    hide Ascending, Linked, Anchored, RowHash, Genesis;
    AppendKeepsAscending(h, log.lastSeq, r);
    AppendKeepsAnchored(log.anchors, log.lastSeq, h, d, r);
    AppendKeepsLinked(env, h, d, forked, r);
  }

  lemma PruneKeepsAnchored(log: Log, h: seq<Row>, d: nat, b: nat, x: Anchor)
    requires Ascending(h, log.lastSeq) && d + b < |h| && Anchored(log.anchors, log.lastSeq, h, d)
    requires log.anchors != [] ==> log.anchors[|log.anchors| - 1].prunedAt < x.prunedAt
    requires x.rowsDeleted == b + 1 && x.boundaryHash == h[d + b].rowHash && x.genesisHash == h[0].rowHash
    requires x.lastSeqKept == if d + b + 1 < |h| then h[d + b + 1].seqNo else h[d + b].seqNo + 1
    ensures Anchored(log.anchors + [x], log.lastSeq, h, d + b + 1)
  {
    SumSnoc(log.anchors, x);
    hide SumDeleted;
  }

  lemma SumSnoc(anchors: seq<Anchor>, x: Anchor)
    ensures SumDeleted(anchors + [x]) == SumDeleted(anchors) + x.rowsDeleted
  {
    assert (anchors + [x])[..|anchors|] == anchors;
  }

  lemma NewAnchorFacts(log: Log, h: seq<Row>, d: nat, b: nat, now: int, days: int)
    requires d + b < |h| && log.rows == h[d..] && Anchored(log.anchors, log.lastSeq, h, d)
    ensures var x := NewAnchor(log, b, now, days);
      && x.rowsDeleted == b + 1 && x.boundaryHash == h[d + b].rowHash && x.genesisHash == h[0].rowHash
      && x.lastSeqKept == if d + b + 1 < |h| then h[d + b + 1].seqNo else h[d + b].seqNo + 1
  {
    if log.anchors != [] {
      var i :| 0 <= i < |log.anchors| && log.anchors[i] == OldestAnchor(log.anchors);
    }
  }

  lemma PruneKeepsLinked(env: Env, h: seq<Row>, d: nat, forked: bool, b: nat)
    requires Linked(env, h, d, forked) && d + b < |h|
    ensures Linked(env, h, d + b + 1, false)
  {
    hide RowHash;
    assert d + b + 1 < |h| ==> h[d + b + 1].prevHash == ExpectedPrev("", h, d + b + 1);
  }

  lemma PruneKeepsInv(env: Env, log: Log, h: seq<Row>, d: int, forked: bool, b: nat, now: int, days: int)
    requires Inv(env, log, h, d, forked) && b < |log.rows|
    requires log.anchors != [] ==> log.anchors[|log.anchors| - 1].prunedAt < now
    ensures Inv(env, Log(log.rows[b + 1..], log.anchors + [NewAnchor(log, b, now, days)], log.lastSeq),
                h, d + b + 1, false)
  {
    hide Anchored, Linked, Ascending;
    NewAnchorFacts(log, h, d, b, now, days);
    NewAnchorTime(log, b, now, days);
    hide NewAnchor;
    PruneKeepsAnchored(log, h, d, b, NewAnchor(log, b, now, days));
    PruneKeepsLinked(env, h, d, forked, b);
    assert log.rows[b + 1..] == h[d + b + 1..];
  }

  lemma NewAnchorTime(log: Log, b: nat, now: int, days: int)
    requires b < |log.rows|
    ensures NewAnchor(log, b, now, days).prunedAt == now
  {
  }

  lemma NewRowFacts(env: Env, log: Log, gap: nat, ts: int, ev: string, ag: Option<string>, pl: string)
    ensures var r := NewRow(env, log, gap, ts, ev, ag, pl);
      r.prevHash == PrevForAppend(env, log) && r.rowHash == RowHash(env, r) && r.seqNo > log.lastSeq
  {
  }

  lemma InvStep(env: Env, log: Log, h: seq<Row>, d: int, forked: bool, e: Event)
    requires Inv(env, log, h, d, forked)
    requires e.Prune? && log.anchors != [] ==> log.anchors[|log.anchors| - 1].prunedAt < e.now
    ensures
      var log', h' := Step(env, log, e), h + Added(env, log, e);
      Inv(env, log', h', d + |log.rows| + |Added(env, log, e)| - |log'.rows|, ForkStep(log, forked, e))
  {
    hide Inv, NewRow, RowHash, Image, PrevForAppend, NewAnchor;
    match e {
      case Append(gap, ts, ev, ag, pl) =>
        NewRowFacts(env, log, gap, ts, ev, ag, pl);
        AppendKeepsInv(env, log, h, d, forked, NewRow(env, log, gap, ts, ev, ag, pl));
      case Prune(now, days, cutoff) =>
        assert h + Added(env, log, e) == h;
        if LastOlder(log.rows, cutoff).Some? {
          PruneKeepsInv(env, log, h, d, forked, LastOlder(log.rows, cutoff).value, now, days);
        }
    }
  }

  lemma LastEvent(env: Env, events: seq<Event>)
    requires events != []
    ensures
      var before, e := events[..|events| - 1], events[|events| - 1];
      var log := Run(env, before);
      && Run(env, events) == Step(env, log, e)
      && History(env, events) == History(env, before) + Added(env, log, e)
      && PrunedCount(env, events)
         == PrunedCount(env, before) + |log.rows| + |Added(env, log, e)| - |Step(env, log, e).rows|
      && ForkFlag(env, events) == ForkStep(log, ForkFlag(env, before), e)
  {
  }

  lemma PruneIsLater(env: Env, events: seq<Event>)
    requires events != [] && PruneClock(events)
    ensures PruneClock(events[..|events| - 1])
    ensures
      var e, a := events[|events| - 1], Run(env, events[..|events| - 1]).anchors;
      e.Prune? && a != [] ==> a[|a| - 1].prunedAt < e.now
  {
    var before := events[..|events| - 1];
    LatestAnchorTime(env, before);
    forall t | PrunedAt(before, t) && events[|events| - 1].Prune?
      ensures t < events[|events| - 1].now
    {
      var i :| 0 <= i < |before| && before[i].Prune? && before[i].now == t;
      assert events[i] == before[i];
    }
  }

  lemma EmptyRun(env: Env)
    ensures Inv(env, Run(env, []), History(env, []), PrunedCount(env, []), ForkFlag(env, []))
  {
  }

  // The retained table is intact, counts add up, and anchors are well placed, in every reachable state.
  lemma {:induction false} InvHolds(env: Env, events: seq<Event>)
    requires PruneClock(events)
    ensures Inv(env, Run(env, events), History(env, events), PrunedCount(env, events), ForkFlag(env, events))
  {
    hide *;
    if events == [] {
      EmptyRun(env);
    } else {
      var n := |events| - 1;
      var before := events[..n];
      PruneIsLater(env, events);
      InvHolds(env, before);
      InvStep(env, Run(env, before), History(env, before), PrunedCount(env, before), ForkFlag(env, before), events[n]);
      LastEvent(env, events);
    }
  }

  ghost predicate PrunedAt(events: seq<Event>, t: int) {
    exists i :: 0 <= i < |events| && events[i].Prune? && events[i].now == t
  }

  lemma PrunedBefore(events: seq<Event>, t: int)
    requires events != [] && PrunedAt(events[..|events| - 1], t)
    ensures PrunedAt(events, t)
  {
    var i :| 0 <= i < |events| - 1 && events[..|events| - 1][i].Prune? && events[..|events| - 1][i].now == t;
    assert events[i] == events[..|events| - 1][i];
  }

  lemma {:induction false} LatestAnchorTime(env: Env, events: seq<Event>)
    ensures var a := Run(env, events).anchors;
      a != [] ==> PrunedAt(events, a[|a| - 1].prunedAt)
  {
    if events != [] {
      var n := |events| - 1;
      LatestAnchorTime(env, events[..n]);
      var a, a' := Run(env, events[..n]).anchors, Run(env, events).anchors;
      if a' == a {
        if a != [] {
          PrunedBefore(events, a[|a| - 1].prunedAt);
        }
      } else {
        assert events[n].Prune? && events[n].now == a'[|a'| - 1].prunedAt;
      }
    }
  }

  lemma EarlierEvents(env: Env, events: seq<Event>, k: nat)
    requires k + 1 < |events|
    ensures var before := events[..|events| - 1];
      && (AppendsToEmptied(env, events, k) <==> AppendsToEmptied(env, before, k))
      && (Deletes(env, events, k) <==> Deletes(env, before, k))
  {
    assert events[..k] == events[..|events| - 1][..k];
  }

  lemma FlagUnfolds(env: Env, events: seq<Event>)
    requires events != []
    ensures var n := |events| - 1;
      ForkFlag(env, events)
      <==> AppendsToEmptied(env, events, n) || (ForkFlag(env, events[..n]) && !Deletes(env, events, n))
  {
  }

  lemma WithinRun(env: Env, events: seq<Event>, k: nat)
    ensures AppendsToEmptied(env, events, k) || Deletes(env, events, k) ==> k < |events|
    ensures ForkFlag(env, events) ==> events != []
  {
  }

  lemma {:induction false} FlagHasCause(env: Env, events: seq<Event>) returns (k: nat)
    requires ForkFlag(env, events)
    ensures AppendsToEmptied(env, events, k)
    ensures forall j: nat :: k < j ==> !Deletes(env, events, j)
  {
    hide *;
    WithinRun(env, events, 0);
    var n := |events| - 1;
    FlagUnfolds(env, events);
    if AppendsToEmptied(env, events, n) {
      k := n;
    } else {
      k := FlagHasCause(env, events[..n]);
      WithinRun(env, events[..n], k);
      EarlierEvents(env, events, k);
    }
    forall j: nat | k < j
      ensures !Deletes(env, events, j)
    {
      WithinRun(env, events, j);
      if j < n {
        EarlierEvents(env, events, j);
      }
    }
  }

  lemma {:induction false} CauseSetsFlag(env: Env, events: seq<Event>, k: nat)
    requires AppendsToEmptied(env, events, k)
    requires forall j: nat :: k < j ==> !Deletes(env, events, j)
    ensures ForkFlag(env, events)
  {
    hide ForkFlag, Run, LastOlder;
    var n := |events| - 1;
    if k < n {
      EarlierEvents(env, events, k);
      forall j: nat | k < j
        ensures !Deletes(env, events[..n], j)
      {
        if j < n {
          EarlierEvents(env, events, j);
        }
      }
      CauseSetsFlag(env, events[..n], k);
      assert !Deletes(env, events, n);
    }
    FlagUnfolds(env, events);
  }

  lemma ForkFlagMeaning(env: Env, events: seq<Event>)
    ensures ForkFlag(env, events) <==> Forked(env, events)
  {
    if ForkFlag(env, events) {
      var k := FlagHasCause(env, events);
    }
    if Forked(env, events) {
      var k: nat :| AppendsToEmptied(env, events, k) && forall j: nat :: k < j ==> !Deletes(env, events, j);
      CauseSetsFlag(env, events, k);
    }
  }

  // ---------------------------------------------------------------- main results

  /** After any run, verification succeeds and reports exactly the retained rows, unless some append hit
      a table emptied by a prune and has not itself been pruned since; then it stops at row 0. */
  lemma {:induction false} VerifyAfterAnyRun(env: Env, events: seq<Event>, v: Verdict)
    requires PruneClock(events)
    requires CollisionFree(env, Images(env, History(env, events)) + {GENESIS_TEXT})
    ensures IsVerdict(env, Start(env, Run(env, events)), Fetched(Run(env, events)), v) ==>
      && (v.ok <==> !Forked(env, events))
      && v.verified == if v.ok then |Run(env, events).rows| else 0
  {
    InvHolds(env, events);
    ForkFlagMeaning(env, events);
    var log, h, d := Run(env, events), History(env, events), PrunedCount(env, events);
    FetchesEverything(env, log, h, d, ForkFlag(env, events));
    if ForkFlag(env, events) {
      ForkedStopsAtOnce(env, log, h, d);
      assert !RowOk(env, ExpectedPrev(Start(env, log), log.rows, 0), log.rows[0]);
    } else {
      UnforkedVerifies(env, log, h, d);
    }
  }

  lemma {:induction false} LatestIsLast(a: seq<Anchor>)
    requires a != [] && forall i, j :: 0 <= i < j < |a| ==> a[i].prunedAt < a[j].prunedAt
    ensures LatestAnchor(a) == a[|a| - 1]
  {
    var latest := LatestAnchor(a);
    assert a[|a| - 1] in a;
    var i :| 0 <= i < |a| && a[i] == latest;
    assert a[|a| - 1].prunedAt <= latest.prunedAt;
  }

  lemma FetchesEverything(env: Env, log: Log, h: seq<Row>, d: int, forked: bool)
    requires Inv(env, log, h, d, forked)
    ensures Fetched(log) == log.rows
    ensures Start(env, log) == if d == 0 then Genesis(env) else h[d - 1].rowHash
  {
    if log.anchors != [] {
      LatestIsLast(log.anchors);
      assert forall i :: 0 <= i < |log.rows| ==> log.rows[i] == h[d + i];
      FetchAll(log.rows, LatestAnchor(log.anchors).lastSeqKept);
    }
  }

  lemma UnforkedVerifies(env: Env, log: Log, h: seq<Row>, d: int)
    requires Inv(env, log, h, d, false)
    ensures ChainFrom(env, Start(env, log), log.rows)
  {
    FetchesEverything(env, log, h, d, false);
    forall i | 0 <= i < |log.rows|
      ensures RowOk(env, ExpectedPrev(Start(env, log), log.rows, i), log.rows[i])
    {
      assert log.rows[i] == h[d + i];
      if i > 0 {
        assert log.rows[i - 1] == h[d + i - 1];
        assert h[d + i].prevHash == ExpectedPrev("", h, d + i);
      }
    }
  }

  lemma ForkedStopsAtOnce(env: Env, log: Log, h: seq<Row>, d: int)
    requires Inv(env, log, h, d, true) && CollisionFree(env, Images(env, h) + {GENESIS_TEXT})
    ensures log.rows != [] && log.rows[0].prevHash != Start(env, log)
  {
    FetchesEverything(env, log, h, d, true);
    var b := h[d - 1];
    assert b in h && Image(env, b) in Images(env, h);
    NotGenesis(env, b);
  }

  /** Nothing appended is ever lost from the books: appended rows are the pruned ones, counted by the
      anchors, followed by the retained ones, and every anchor still names the very first row. */
  lemma {:induction false} Conservation(env: Env, events: seq<Event>)
    requires PruneClock(events)
    ensures
      var log, h := Run(env, events), History(env, events);
      && |h| == |Appends(events)| == SumDeleted(log.anchors) + |log.rows|
      && h[SumDeleted(log.anchors)..] == log.rows
      && forall i :: 0 <= i < |log.anchors| ==> h != [] && log.anchors[i].genesisHash == h[0].rowHash
  {
    InvHolds(env, events);
    HistoryRecords(env, events);
  }

  // The appends of a run, and its prunes that deleted something.
  function Appends(events: seq<Event>): seq<Event> {
    if events == [] then []
    else Appends(events[..|events| - 1]) + if events[|events| - 1].Append? then [events[|events| - 1]] else []
  }

  function Prunes(env: Env, events: seq<Event>): seq<Event> {
    if events == [] then []
    else
      Prunes(env, events[..|events| - 1])
      + if Deletes(env, events, |events| - 1) then [events[|events| - 1]] else []
  }

  // Row r records append e.
  predicate Records(r: Row, e: Event) {
    e.Append? && r.ts == e.ts && r.eventType == e.eventType && r.agentId == e.agentId && r.payload == e.payload
  }

  predicate Stamps(a: Anchor, e: Event) {
    e.Prune? && a.prunedAt == e.now && a.retentionDays == e.retentionDays
  }

  lemma HistoryStep(env: Env, events: seq<Event>)
    requires events != []
    ensures var before, e := events[..|events| - 1], events[|events| - 1];
      if e.Append? then exists r :: Records(r, e) && History(env, events) == History(env, before) + [r]
      else History(env, events) == History(env, before)
  {
    var before, e := events[..|events| - 1], events[|events| - 1];
    if e.Append? {
      var log := Run(env, before);
      AppendMeaning(env, log, e.gap, e.ts, e.eventType, e.agentId, e.payload);
      assert Records(NewRow(env, log, e.gap, e.ts, e.eventType, e.agentId, e.payload), e);
    }
  }

  lemma AppendsStep(events: seq<Event>)
    requires events != []
    ensures var before, e := events[..|events| - 1], events[|events| - 1];
      Appends(events) == if e.Append? then Appends(before) + [e] else Appends(before)
  {
  }

  /** The history records the appends: as many rows, in the same order, each with the content it was given. With
      Conservation, so does the table for the appends it retains. */
  lemma {:induction false} HistoryRecords(env: Env, events: seq<Event>)
    ensures |History(env, events)| == |Appends(events)|
    ensures forall k :: 0 <= k < |Appends(events)| ==> Records(History(env, events)[k], Appends(events)[k])
  {
    if events != [] {
      HistoryRecords(env, events[..|events| - 1]);
      HistoryStep(env, events);
      AppendsStep(events);
      hide History, Appends, Records;
    }
  }

  lemma AnchorsStep(env: Env, events: seq<Event>)
    requires events != []
    ensures var before, e := events[..|events| - 1], events[|events| - 1];
      if Deletes(env, events, |events| - 1)
      then exists a :: Stamps(a, e) && Run(env, events).anchors == Run(env, before).anchors + [a]
      else Run(env, events).anchors == Run(env, before).anchors
  {
    var before, e := events[..|events| - 1], events[|events| - 1];
    var log := Run(env, before);
    if e.Prune? {
      PruneMeaning(log, e.now, e.retentionDays, e.cutoff);
      var last := LastOlder(log.rows, e.cutoff);
      if last.Some? {
        assert Stamps(NewAnchor(log, last.value, e.now, e.retentionDays), e);
      }
    }
  }

  lemma PrunesStep(env: Env, events: seq<Event>)
    requires events != []
    ensures var before, e := events[..|events| - 1], events[|events| - 1];
      Prunes(env, events)
      == if Deletes(env, events, |events| - 1) then Prunes(env, before) + [e] else Prunes(env, before)
  {
    hide Deletes;
  }

  /** The anchors record the prunes that deleted something, in the same order: when and under which retention. */
  lemma {:induction false} AnchorsRecord(env: Env, events: seq<Event>)
    ensures var anchors, prunes := Run(env, events).anchors, Prunes(env, events);
      && |anchors| == |prunes|
      && forall k :: 0 <= k < |prunes| ==> Stamps(anchors[k], prunes[k])
  {
    if events != [] {
      AnchorsRecord(env, events[..|events| - 1]);
      AnchorsStep(env, events);
      PrunesStep(env, events);
      hide Run, Prunes, Stamps, Deletes;
    }
  }

  function Recent(rows: seq<Row>, cutoff: int): seq<Row> {
    if rows == [] then []
    else Recent(rows[..|rows| - 1], cutoff) + if rows[|rows| - 1].ts >= cutoff then [rows[|rows| - 1]] else []
  }

  predicate NoRecentBeforeOld(rows: seq<Row>, cutoff: int) {
    forall i, j :: 0 <= i < j < |rows| && rows[i].ts >= cutoff ==> rows[j].ts >= cutoff
  }

  lemma {:induction false} RecentLength(rows: seq<Row>, cutoff: int)
    ensures |Recent(rows, cutoff)| <= |rows|
    ensures Recent(rows, cutoff) == [] <==> forall i :: 0 <= i < |rows| ==> rows[i].ts < cutoff
  {
    if rows != [] {
      RecentLength(rows[..|rows| - 1], cutoff);
      assert forall i :: 0 <= i < |rows| - 1 ==> rows[..|rows| - 1][i] == rows[i];
    }
  }

  lemma {:induction false} RecentSplit(rows: seq<Row>, cutoff: int, b: nat)
    requires b <= |rows| && forall i :: b <= i < |rows| ==> rows[i].ts >= cutoff
    ensures Recent(rows, cutoff) == Recent(rows[..b], cutoff) + rows[b..]
  {
    if b < |rows| {
      var front := rows[..|rows| - 1];
      RecentSplit(front, cutoff, b);
      assert front[..b] == rows[..b];
      calc {
        Recent(rows, cutoff);
        Recent(front, cutoff) + [rows[|rows| - 1]];
        Recent(rows[..b], cutoff) + front[b..] + [rows[|rows| - 1]];
        { assert rows[b..] == front[b..] + [rows[|rows| - 1]]; }
        Recent(rows[..b], cutoff) + rows[b..];
      }
    } else {
      assert rows[..b] == rows;
    }
  }

  /** A prune keeps exactly the rows inside the retention window if and only if no row inside it comes
      before a row outside it; in particular it does when timestamps never decrease. */
  lemma PruneKeepsRecentRows(log: Log, now: int, days: int, cutoff: int)
    ensures PruneStep(log, now, days, cutoff).rows == Recent(log.rows, cutoff) <==> NoRecentBeforeOld(log.rows, cutoff)
    ensures (forall i, j :: 0 <= i < j < |log.rows| ==> log.rows[i].ts <= log.rows[j].ts)
      ==> NoRecentBeforeOld(log.rows, cutoff)
  {
    var last := LastOlder(log.rows, cutoff);
    assert last.None? ==> forall i :: 0 <= i < |log.rows| ==> log.rows[i] in log.rows;
    KeptIsRecent(log.rows, cutoff, if last.None? then 0 else last.value + 1);
  }

  lemma KeptIsRecent(rows: seq<Row>, cutoff: int, b: nat)
    requires b <= |rows| && (b > 0 ==> rows[b - 1].ts < cutoff)
    requires forall i :: b <= i < |rows| ==> rows[i].ts >= cutoff
    ensures rows[b..] == Recent(rows, cutoff) <==> NoRecentBeforeOld(rows, cutoff)
  {
    RecentSplit(rows, cutoff, b);
    RecentLength(rows[..b], cutoff);
    if Recent(rows[..b], cutoff) == [] {
      assert forall i :: 0 <= i < b ==> rows[..b][i] == rows[i];
    } else {
      var i :| 0 <= i < b && rows[..b][i].ts >= cutoff;
      assert |Recent(rows, cutoff)| > |rows[b..]|;
      assert rows[i].ts >= cutoff > rows[b - 1].ts;
    }
  }

  /** The boundary case, on concrete events: append, prune everything, append again. */
  lemma EmptiedThenAppended(env: Env, first: Event, prune: Event, second: Event)
    requires first.Append? && second.Append? && prune.Prune? && first.ts < prune.cutoff
    ensures Forked(env, [first, prune, second])
  {
    var events := [first, prune, second];
    assert events[..2] == [first, prune] && events[..2][..1] == [first] && events[..2][..1][..0] == [];
    assert Run(env, [first]).rows[0].ts == first.ts;
    assert Run(env, [first, prune]).rows == [];
    assert AppendsToEmptied(env, events, 2);
    assert forall j: nat :: 2 < j ==> !Deletes(env, events, j);
  }
}
