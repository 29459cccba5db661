/** What each statement does to each row of the task table, and when a dependent task is claimed. */
module TaskRows {
  import opened Wrappers
  import opened TaskQueue

  // ---------------------------------------------------------------- creation

  /** A created task is as it was asked for, and nothing else changes; only an unknown dependency is refused. */
  lemma CreationMeaning(s: State, user: string, priority: int, dependsOn: Option<nat>, now: int)
    ensures var s' := Step(s, Create(user, priority, dependsOn, now));
      if dependsOn.Some? && !Known(s.tasks, dependsOn.value) then s' == s
      else
        && |s'.tasks| == |s.tasks| + 1 && s'.tasks[..|s.tasks|] == s.tasks
        && IsNew(s'.tasks[|s.tasks|], s.created, user, priority, dependsOn, now)
        && s'.created == s.created + 1 && s'.claims == s.claims
  {
  }

  // ---------------------------------------------------------------- claims

  // A worker may take row i: it is queued, not locked and not labelled, and waits on nothing unfinished.
  ghost predicate Free(t: seq<Task>, locked: set<nat>, i: nat) {
    && i < |t| && t[i].status == Queued && t[i].id !in locked && TEST_LABEL !in t[i].labels
    && (t[i].dependsOn.Some? ==>
          exists d :: 0 <= d < |t| && t[d].id == t[i].dependsOn.value && t[d].status == Complete)
  }

  // Of highest priority, and among these the oldest.
  ghost predicate FirstFree(t: seq<Task>, locked: set<nat>, b: nat) {
    && Free(t, locked, b)
    && forall i: nat :: Free(t, locked, i) ==>
         t[i].priority < t[b].priority || (t[i].priority == t[b].priority && t[b].createdAt <= t[i].createdAt)
  }

  /** A claim starts the free task of highest priority, the oldest of these, and changes nothing else. */
  lemma ClaimMeaning(s: State, worker: Option<string>, now: int, locked: set<nat>)
    ensures var t, s' := s.tasks, Step(s, Claim(worker, now, locked));
      if forall i: nat :: !Free(t, locked, i) then s' == s
      else exists b: nat :: FirstFree(t, locked, b) && Taken(s, s', b, worker, now)
  {
    var t := s.tasks;
    forall i: nat | i < |t|
      ensures Free(t, locked, i) <==> Claimable(t, locked, t[i])
    {
      FreeIsClaimable(t, locked, i);
    }
    hide Free, Claimable;
    var b := Next(t, locked, |t|);
    if b.Some? {
      forall i: nat | Free(t, locked, i)
        ensures Before(t[b.value], t[i])
      {
        FreeIsRow(t, locked, i);
      }
      assert FirstFree(t, locked, b.value) && Taken(s, Step(s, Claim(worker, now, locked)), b.value, worker, now);
    } else {
      forall i: nat
        ensures !Free(t, locked, i)
      {
        if Free(t, locked, i) {
          FreeIsRow(t, locked, i);
        }
      }
    }
  }

  lemma FreeIsClaimable(t: seq<Task>, locked: set<nat>, i: nat)
    requires i < |t|
    ensures Free(t, locked, i) <==> Claimable(t, locked, t[i])
  {
  }

  lemma FreeIsRow(t: seq<Task>, locked: set<nat>, i: nat)
    requires Free(t, locked, i)
    ensures i < |t|
  {
  }

  predicate Taken(s: State, s': State, b: nat, worker: Option<string>, now: int) {
    && b < |s.tasks| && s'.created == s.created && s'.claims == s.claims + [s.tasks[b].id]
    && s'.tasks == s.tasks[b := s.tasks[b].(status := Running, updatedAt := now, workerId := worker)]
  }

  // ---------------------------------------------------------------- updates

  // The statement writes to the row.
  predicate Writes(e: Event, r: Task) {
    match e
    case SetLabels(id, user, _, _) => r.id == id && r.userId == user
    case MarkRunning(id, _) => r.id == id
    case _ =>
      || MayBecome([], r, e, Complete) || MayBecome([], r, e, Failed)
      || MayBecome([], r, e, Cancelled) || MayBecome([], r, e, Paused)
  }

  predicate IsUpdate(e: Event) {
    !e.Create? && !e.Claim? && !e.Delete? && !e.DropTerminal?
  }

  /** Conversely, every cause takes effect: an update gives a row the status that it has a cause for. */
  lemma CausesTakeEffect(s: State, e: Event, i: nat, to: Status)
    requires IsUpdate(e) && i < |s.tasks| && i < |Step(s, e).tasks|
    ensures MayBecome(s.tasks, s.tasks[i], e, to) ==> Step(s, e).tasks[i].status == to
  {
  }

  /** An update keeps all rows and in them all but the status, the time stamp of the rows it writes to and,
      where the owner sets them, the labels. */
  lemma UpdateKeepsTheRest(s: State, e: Event, i: nat)
    requires IsUpdate(e) && i < |s.tasks|
    ensures var s' := Step(s, e);
      && |s'.tasks| == |s.tasks| && s'.created == s.created && s'.claims == s.claims
      && var r, r' := s.tasks[i], s'.tasks[i];
      && r' == r.(status := r'.status,
                  updatedAt := if Writes(e, r) then e.now else r.updatedAt,
                  labels := if e.SetLabels? && e.id == r.id && e.userId == r.userId then e.labels else r.labels)
  {
  }

  lemma WritesIsMatches(e: Event, r: Task)
    requires IsUpdate(e)
    ensures Writes(e, r) <==> Matches(e, r)
  {
  }

  ghost predicate Rising(ids: seq<nat>) {
    forall i, j :: 0 <= i < j < |ids| ==> ids[i] < ids[j]
  }

  lemma {:induction false} TouchedRise(e: Event, t: seq<Task>, k: nat)
    requires k <= |t| && forall i, j :: 0 <= i < j < |t| ==> t[i].id < t[j].id
    ensures Rising(Touched(e, t, k))
  {
    hide Matches;
    if k > 0 {
      var front := Touched(e, t, k - 1);
      TouchedRise(e, t, k - 1);
      forall i | 0 <= i < |front|
        ensures front[i] < t[k - 1].id
      {
        assert front[i] in front;
      }
    }
  }

  /** The ids that an update returns are those of the rows it writes to, each once. */
  lemma TouchedOnce(s: State, e: Event)
    requires WellFormed(s) && IsUpdate(e)
    ensures var ids := Touched(e, s.tasks, |s.tasks|);
      && Rising(ids)
      && forall id :: id in ids <==> exists i :: 0 <= i < |s.tasks| && Writes(e, s.tasks[i]) && s.tasks[i].id == id
  {
    TouchedRise(e, s.tasks, |s.tasks|);
    forall i | 0 <= i < |s.tasks|
      ensures Writes(e, s.tasks[i]) <==> Matches(e, s.tasks[i])
    {
      WritesIsMatches(e, s.tasks[i]);
    }
    hide Writes, Matches;
  }

  // ---------------------------------------------------------------- deletion

  // The statement deletes the row: the owner's choice, or an old finished one.
  predicate Drops(e: Event, r: Task) {
    || (e.Delete? && r.id in e.ids && r.userId == e.userId)
    || (e.DropTerminal? && r.createdAt < e.cutoff && r.status in {Complete, Failed, Cancelled})
  }

  /** A delete drops exactly the rows it names, and changes nothing in the others but a dependency on a row that is
      dropped, which is released. */
  lemma DeletionMeaning(s: State, e: Event, i: nat)
    requires WellFormed(s) && (e.Delete? || e.DropTerminal?) && i < |s.tasks|
    ensures var t, t' := s.tasks, Step(s, e).tasks;
      var released := exists d :: 0 <= d < |t| && t[i].dependsOn == Some(t[d].id) && Drops(e, t[d]);
      && (Known(t', t[i].id) <==> !Drops(e, t[i]))
      && forall j :: 0 <= j < |t'| && t'[j].id == t[i].id ==>
           t'[j] == if released then t[i].(dependsOn := None) else t[i]
  {
    var t, t' := s.tasks, Step(s, e).tasks;
    if !Drops(e, t[i]) {
      SurvivorKnown(e, t, |t|, i);
    }
    forall j | 0 <= j < |t'| && t'[j].id == t[i].id
      ensures !Drops(e, t[i]) && t'[j] == Released(e, t, t[i])
    {
      var origin := SurvivorOrigin(e, t, |t|, j);
      UniqueIds(s, origin, i);
    }
  }

  // ---------------------------------------------------------------- dependent tasks

  // Row d is deleted by some event from c up to n.
  ghost predicate DeletedSince(events: seq<Event>, c: nat, n: nat, d: nat)
    requires n <= |events|
  {
    exists k: nat, i: nat :: c <= k < n && i < |At(events, k).tasks| && At(events, k).tasks[i].id == d
      && Drops(events[k], At(events, k).tasks[i])
  }

  // Task id still depends on d, unless d was deleted.
  ghost predicate StillBehind(events: seq<Event>, c: nat, n: nat, id: nat, d: nat)
    requires n <= |events|
  {
    DeletedSince(events, c, n, d)
    || forall i :: 0 <= i < |At(events, n).tasks| && At(events, n).tasks[i].id == id ==>
         At(events, n).tasks[i].dependsOn == Some(d)
  }

  lemma DependencyStays(s: State, e: Event, id: nat, d: nat)
    requires WellFormed(s) && id < s.created
    requires forall i :: 0 <= i < |s.tasks| && s.tasks[i].id == id ==> s.tasks[i].dependsOn == Some(d)
    requires forall i :: 0 <= i < |s.tasks| && s.tasks[i].id == d ==> !Drops(e, s.tasks[i])
    ensures forall j :: 0 <= j < |Step(s, e).tasks| && Step(s, e).tasks[j].id == id ==>
      Step(s, e).tasks[j].dependsOn == Some(d)
  {
    hide Step, Drops, WellFormed;
    var t, t' := s.tasks, Step(s, e).tasks;
    forall j | 0 <= j < |t'| && t'[j].id == id
      ensures t'[j].dependsOn == Some(d)
    {
      if e.Delete? || e.DropTerminal? {
        StaysInDelete(s, e, j, d);
      } else {
        StaysElsewhere(s, e, j);
      }
    }
  }

  lemma StaysInDelete(s: State, e: Event, j: nat, d: nat)
    requires e.Delete? || e.DropTerminal?
    requires j < |Step(s, e).tasks|
    requires forall i :: 0 <= i < |s.tasks| && s.tasks[i].id == Step(s, e).tasks[j].id ==>
      s.tasks[i].dependsOn == Some(d)
    requires forall i :: 0 <= i < |s.tasks| && s.tasks[i].id == d ==> !Drops(e, s.tasks[i])
    ensures Step(s, e).tasks[j].dependsOn == Some(d)
  {
    var origin := SurvivorOrigin(e, s.tasks, |s.tasks|, j);
  }

  lemma StaysElsewhere(s: State, e: Event, j: nat)
    requires !e.Delete? && !e.DropTerminal? && j < |Step(s, e).tasks| && Step(s, e).tasks[j].id < s.created
    ensures j < |s.tasks| && Step(s, e).tasks[j].id == s.tasks[j].id
    ensures Step(s, e).tasks[j].dependsOn == s.tasks[j].dependsOn
  {
  }

  lemma {:induction false} BehindUntilDeleted(events: seq<Event>, c: nat, n: nat, d: nat)
    requires c < n <= |events| && events[c].Create? && events[c].dependsOn == Some(d)
    ensures |At(events, c + 1).tasks| > |At(events, c).tasks| ==>
      At(events, c).created < At(events, n).created && StillBehind(events, c, n, At(events, c).created, d)
  {
    hide Step, WellFormed, ClaimedOnce, Drops, StillBehind;
    var id := At(events, c).created;
    RunKeepsInv(events, n - 1);
    NextRow(events, n - 1);
    if |At(events, c + 1).tasks| > |At(events, c).tasks| {
      if c + 1 < n {
        BehindUntilDeleted(events, c, n - 1, d);
        BehindStep(events, c, n - 1, id, d);
        CreatedGrows(At(events, n - 1), events[n - 1]);
      } else {
        JustCreated(events, c, d);
      }
    }
  }

  lemma NextRow(events: seq<Event>, n: nat)
    requires n < |events|
    ensures At(events, n + 1) == Step(At(events, n), events[n])
  {
  }

  lemma CreatedGrows(s: State, e: Event)
    ensures s.created <= Step(s, e).created
  {
  }

  lemma JustCreated(events: seq<Event>, c: nat, d: nat)
    requires c < |events| && events[c].Create? && events[c].dependsOn == Some(d)
    requires |At(events, c + 1).tasks| > |At(events, c).tasks| && WellFormed(At(events, c))
    ensures At(events, c).created < At(events, c + 1).created
    ensures StillBehind(events, c, c + 1, At(events, c).created, d)
  {
    var s, e := At(events, c), events[c];
    NextRow(events, c);
    CreationMeaning(s, e.userId, e.priority, e.dependsOn, e.now);
  }

  lemma BehindStep(events: seq<Event>, c: nat, n: nat, id: nat, d: nat)
    requires c <= n < |events| && WellFormed(At(events, n)) && id < At(events, n).created
    requires StillBehind(events, c, n, id, d)
    ensures StillBehind(events, c, n + 1, id, d)
  {
    hide Step, WellFormed, Drops;
    NextRow(events, n);
    var s := At(events, n);
    if DeletedSince(events, c, n, d) {
      var k: nat, i: nat :| c <= k < n && i < |At(events, k).tasks| && At(events, k).tasks[i].id == d
        && Drops(events[k], At(events, k).tasks[i]);
      assert DeletedSince(events, c, n + 1, d);
    } else if i: nat :| i < |s.tasks| && s.tasks[i].id == d && Drops(events[n], s.tasks[i]) {
      assert DeletedSince(events, c, n + 1, d);
    } else {
      DependencyStays(s, events[n], id, d);
    }
  }

  /** Over any run, a task created behind another is claimed only in a state in which that one is complete, or
      after it was deleted. */
  lemma DependentsWait(events: seq<Event>, c: nat, n: nat, d: nat)
    requires c < n < |events| && events[c].Create? && events[c].dependsOn == Some(d) && events[n].Claim?
    requires |At(events, c + 1).tasks| > |At(events, c).tasks|
    requires At(events, n + 1).claims == At(events, n).claims + [At(events, c).created]
    ensures CompleteIn(At(events, n).tasks, d) || DeletedSince(events, c, n, d)
  {
    var s, e := At(events, n), events[n];
    BehindUntilDeleted(events, c, n, d);
    ClaimMeaning(s, e.worker, e.now, e.locked);
    NextRow(events, n);
    hide At, Step, Taken, DeletedSince;
    if !DeletedSince(events, c, n, d) {
      var b: nat :| FirstFree(s.tasks, e.locked, b) && Taken(s, Step(s, e), b, e.worker, e.now);
      TakenId(s, Step(s, e), b, e.worker, e.now, At(events, c).created);
    }
  }

  lemma TakenId(s: State, s': State, b: nat, worker: Option<string>, now: int, id: nat)
    requires Taken(s, s', b, worker, now) && s'.claims == s.claims + [id]
    ensures s.tasks[b].id == id
  {
    assert s'.claims[|s.claims|] == id;
  }
}
