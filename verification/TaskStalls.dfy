/** Queued tasks that wait on a dependency which is neither queued nor complete: when there are any, and how
    long they wait. */
module TaskStalls {
  import opened Wrappers
  import opened TaskQueue

  // ---------------------------------------------------------------- when nothing is stalled

  ghost predicate Stalled(s: State, i: nat)
    requires WellFormed(s) && i < |s.tasks|
  {
    s.tasks[i].status == Queued && Blocking(s.tasks[Root(s, i)])
  }

  ghost predicate DirectlyBehind(t: seq<Task>, i: nat, d: nat) {
    i < |t| && d < |t| && t[i].status == Queued && t[i].dependsOn == Some(t[d].id) && Blocking(t[d])
  }

  lemma {:induction false} StalledChainStops(s: State, i: nat) returns (j: nat, d: nat)
    requires WellFormed(s) && i < |s.tasks| && Stalled(s, i)
    ensures DirectlyBehind(s.tasks, j, d)
    decreases s.tasks[i].id
  {
    assert s.tasks[i].dependsOn.Some?;
    var next := IndexOf(s.tasks, s.tasks[i].dependsOn.value);
    if s.tasks[next].status == Queued {
      j, d := StalledChainStops(s, next);
    } else {
      assert Root(s, next) == next;
      j, d := i, next;
    }
  }

  /** No queued task waits in vain, however far down, if and only if none depends directly on a task that is
      neither queued nor complete. */
  lemma NoneStalledIffNoneDirectly(s: State)
    requires WellFormed(s)
    ensures (forall i: nat :: i < |s.tasks| ==> !Stalled(s, i))
      <==> (forall i: nat, d: nat :: !DirectlyBehind(s.tasks, i, d))
  {
    forall i: nat, d: nat | DirectlyBehind(s.tasks, i, d)
      ensures Stalled(s, i)
    {
      UniqueIds(s, IndexOf(s.tasks, s.tasks[i].dependsOn.value), d);
      assert Root(s, d) == d;
    }
    forall i: nat | i < |s.tasks| && Stalled(s, i)
      ensures exists j: nat, d: nat :: DirectlyBehind(s.tasks, j, d)
    {
      var j, d := StalledChainStops(s, i);
    }
  }

  // ---------------------------------------------------------------- failing dependents

  // Some queued row of t depends on a row that statement e changes in `before`.
  ghost predicate QueuedBehind(t: seq<Task>, before: seq<Task>, e: Event) {
    exists i, d :: 0 <= i < |t| && 0 <= d < |before| && BehindTouched(t[i], before[d], e)
  }

  predicate BehindTouched(r: Task, d: Task, e: Event) {
    r.status == Queued && r.dependsOn == Some(d.id) && Matches(e, d)
  }

  /** Auto-failing the dependents of a task reaches one level only: afterwards a queued row is left behind a
      row that was failed if and only if there was one before. */
  lemma FailDependentsReachesOneLevel(s: State, id: nat, now: int)
    requires WellFormed(s)
    ensures var e := FailDependents(id, now);
      QueuedBehind(Step(s, e).tasks, s.tasks, e) <==> QueuedBehind(s.tasks, s.tasks, e)
  {
    var e := FailDependents(id, now);
    var t, t' := s.tasks, Step(s, e).tasks;
    forall i, d | 0 <= i < |t| && 0 <= d < |t| && BehindTouched(t[i], t[d], e)
      ensures BehindTouched(t'[i], t[d], e)
    {
      assert t[d].dependsOn.value < t[d].id;
    }
    forall i, d | 0 <= i < |t'| && 0 <= d < |t| && BehindTouched(t'[i], t[d], e)
      ensures BehindTouched(t[i], t[d], e)
    {
    }
  }

  // ---------------------------------------------------------------- how long a stalled task waits

  lemma StepKeepsWellFormed(s: State, e: Event)
    requires WellFormed(s)
    ensures WellFormed(Step(s, e))
  {
    var s0 := s.(claims := []);
    SameWithoutClaims(s, e);
    hide WellFormed, Step;
    StepKeepsInv(s0, e);
  }

  lemma StepIgnoresClaims(s: State, e: Event)
    ensures var t, t0 := Step(s, e), Step(s.(claims := []), e);
      t.tasks == t0.tasks && t.created == t0.created
  {
  }

  lemma WellFormedIgnoresClaims(s: State, t: State)
    requires WellFormed(s) && t.tasks == s.tasks && t.created == s.created
    ensures WellFormed(t)
  {
  }

  lemma SameWithoutClaims(s: State, e: Event)
    requires WellFormed(s)
    ensures var s0 := s.(claims := []);
      && WellFormed(s0) && ClaimedOnce(s0)
      && (WellFormed(Step(s0, e)) ==> WellFormed(Step(s, e)))
  {
    hide Step, WellFormed;
    var s0 := s.(claims := []);
    StepIgnoresClaims(s, e);
    WellFormedIgnoresClaims(s, s0);
    if WellFormed(Step(s0, e)) {
      WellFormedIgnoresClaims(Step(s0, e), Step(s, e));
    }
  }

  lemma StepKeepsRows(s: State, e: Event, i: nat, j: nat)
    requires WellFormed(s) && i < |s.tasks| && j < |Step(s, e).tasks| && Step(s, e).tasks[j].id == s.tasks[i].id
    ensures var r, r' := s.tasks[i], Step(s, e).tasks[j];
      && !Deleted(e, r)
      && (r'.dependsOn == r.dependsOn
        || (r'.dependsOn.None?
            && exists d :: 0 <= d < |s.tasks| && r.dependsOn == Some(s.tasks[d].id) && Deleted(e, s.tasks[d])))
      && (r'.status == UpdateRow(e, r).status || (e.Claim? && Eligible(s.tasks, r)))
  {
    var t, t' := s.tasks, Step(s, e).tasks;
    if e.Delete? || e.DropTerminal? {
      var origin := SurvivorOrigin(e, t, |t|, j);
      UniqueIds(s, i, origin);
    } else if j < |t| {
      assert t'[j].id == t[j].id;
      UniqueIds(s, i, j);
    }
  }

  lemma RowSurvives(s: State, e: Event, i: nat) returns (j: nat)
    requires WellFormed(s) && i < |s.tasks| && !Deleted(e, s.tasks[i])
    ensures j < |Step(s, e).tasks| && Step(s, e).tasks[j].id == s.tasks[i].id
  {
    j := i;
    if e.Delete? || e.DropTerminal? {
      var kept := Survivors(e, s.tasks, |s.tasks|);
      SurvivorKnown(e, s.tasks, |s.tasks|, i);
      j :| 0 <= j < |kept| && kept[j].id == s.tasks[i].id;
    }
  }

  lemma StalledUnfolds(s: State, i: nat, d: nat)
    requires WellFormed(s) && i < |s.tasks| && d < |s.tasks|
    requires s.tasks[i].status == Queued && s.tasks[i].dependsOn == Some(s.tasks[d].id)
    ensures Stalled(s, i) <==> Blocking(s.tasks[d]) || Stalled(s, d)
  {
    UniqueIds(s, IndexOf(s.tasks, s.tasks[d].id), d);
    if s.tasks[d].status != Queued {
      assert Root(s, d) == d;
    }
  }

  lemma StalledDepends(s: State, i: nat) returns (d: nat)
    requires WellFormed(s) && i < |s.tasks| && Stalled(s, i)
    ensures d < |s.tasks| && s.tasks[i].dependsOn == Some(s.tasks[d].id) && s.tasks[d].id < s.tasks[i].id
    ensures Blocking(s.tasks[d]) || Stalled(s, d)
    ensures !Eligible(s.tasks, s.tasks[i])
  {
    assert s.tasks[i].dependsOn.Some?;
    d := IndexOf(s.tasks, s.tasks[i].dependsOn.value);
    StalledUnfolds(s, i, d);
    forall c | 0 <= c < |s.tasks| && s.tasks[c].id == s.tasks[d].id
      ensures s.tasks[c].status != Complete
    {
      UniqueIds(s, c, d);
    }
  }

  predicate Completes(e: Event, r: Task) {
    e.MarkComplete? && e.id == r.id
  }

  // Down the chain of row i, e deletes or completes a task that another one waits on.
  ghost predicate FreedBehind(s: State, e: Event, i: nat)
    requires WellFormed(s) && i < |s.tasks|
    decreases s.tasks[i].id
  {
    var r := s.tasks[i];
    r.status == Queued && r.dependsOn.Some? &&
      var d := IndexOf(s.tasks, r.dependsOn.value);
      Deleted(e, s.tasks[d]) || Completes(e, s.tasks[d]) || FreedBehind(s, e, d)
  }

  lemma FreedUnfolds(s: State, e: Event, i: nat, d: nat)
    requires WellFormed(s) && i < |s.tasks| && d < |s.tasks|
    requires s.tasks[i].status == Queued && s.tasks[i].dependsOn == Some(s.tasks[d].id)
    ensures FreedBehind(s, e, i) <==> Deleted(e, s.tasks[d]) || Completes(e, s.tasks[d]) || FreedBehind(s, e, d)
  {
    UniqueIds(s, IndexOf(s.tasks, s.tasks[d].id), d);
  }

  lemma {:induction false} FreeingKinds(s: State, e: Event, i: nat)
    requires WellFormed(s) && i < |s.tasks| && FreedBehind(s, e, i)
    ensures s.tasks[i].status == Queued && (e.Delete? || e.DropTerminal? || e.MarkComplete?)
    decreases s.tasks[i].id
  {
    var d := IndexOf(s.tasks, s.tasks[i].dependsOn.value);
    if FreedBehind(s, e, d) {
      FreeingKinds(s, e, d);
    }
  }

  // The dependency of a row that is still queued: gone with the task depended on, or else the same.
  lemma DependencyAfter(s: State, e: Event, i: nat, d: nat, j: nat)
    requires WellFormed(s) && WellFormed(Step(s, e)) && i < |s.tasks| && d < |s.tasks|
    requires s.tasks[i].dependsOn == Some(s.tasks[d].id)
    requires j < |Step(s, e).tasks| && Step(s, e).tasks[j].id == s.tasks[i].id
    ensures Step(s, e).tasks[j].dependsOn == if Deleted(e, s.tasks[d]) then None else s.tasks[i].dependsOn
  {
    var t, t' := s.tasks, Step(s, e).tasks;
    StepKeepsRows(s, e, i, j);
    if t'[j].dependsOn == t[i].dependsOn {
      var k := IndexOf(t', t[d].id);
      StepKeepsRows(s, e, d, k);
    } else {
      var c :| 0 <= c < |t| && t[i].dependsOn == Some(t[c].id) && Deleted(e, t[c]);
      UniqueIds(s, c, d);
    }
  }

  // A row that is stopped or stalled is neither claimed nor queued again, and complete only if e completes it.
  lemma StatusAfter(s: State, e: Event, d: nat, k: nat)
    requires WellFormed(s) && d < |s.tasks| && (Blocking(s.tasks[d]) || Stalled(s, d))
    requires k < |Step(s, e).tasks| && Step(s, e).tasks[k].id == s.tasks[d].id
    ensures var r' := Step(s, e).tasks[k];
      && r'.status == UpdateRow(e, s.tasks[d]).status
      && (Completes(e, s.tasks[d]) <==> r'.status == Complete)
      && (r'.status == Queued ==> s.tasks[d].status == Queued)
  {
    StepKeepsRows(s, e, d, k);
    if Stalled(s, d) {
      var x := StalledDepends(s, d);
    }
  }

  lemma {:induction false} WaitGoesOn(s: State, e: Event, i: nat, j: nat)
    requires WellFormed(s) && WellFormed(Step(s, e)) && i < |s.tasks| && Stalled(s, i)
    requires j < |Step(s, e).tasks| && Step(s, e).tasks[j].id == s.tasks[i].id && Step(s, e).tasks[j].status == Queued
    ensures Stalled(Step(s, e), j) <==> !FreedBehind(s, e, i)
    decreases s.tasks[i].id
  {
    hide Step, WellFormed, Stalled, FreedBehind, Eligible, Deleted, Completes, UpdateRow, Root;
    var s' := Step(s, e);
    OnlyQueuedStall(s, i);
    var d := StalledDepends(s, i);
    DependencyAfter(s, e, i, d, j);
    FreedUnfolds(s, e, i, d);
    if Deleted(e, s.tasks[d]) {
      NoDependency(s', j);
    } else {
      var k := RowSurvives(s, e, d);
      StalledUnfolds(s', j, k);
      StatusAfter(s, e, d, k);
      if s'.tasks[k].status == Queued {
        WaitGoesOn(s, e, d, k);
      } else {
        OnlyQueuedStall(s', k);
        NotFreedFurther(s, e, d);
      }
    }
  }

  lemma NoDependency(s: State, i: nat)
    requires WellFormed(s) && i < |s.tasks| && s.tasks[i].dependsOn.None?
    ensures !Stalled(s, i)
  {
  }

  lemma OnlyQueuedStall(s: State, i: nat)
    requires WellFormed(s) && i < |s.tasks|
    ensures Stalled(s, i) ==> s.tasks[i].status == Queued
  {
  }

  // Whatever moves a waiting row on frees nobody further down.
  lemma NotFreedFurther(s: State, e: Event, d: nat)
    requires WellFormed(s) && d < |s.tasks|
    ensures FreedBehind(s, e, d) ==> Completes(e, s.tasks[d]) || UpdateRow(e, s.tasks[d]).status == Queued
  {
    if FreedBehind(s, e, d) {
      FreeingKinds(s, e, d);
      hide FreedBehind;
    }
  }

  // Task id is queued behind a chain that ends in a task neither queued nor complete.
  ghost predicate Waiting(s: State, id: nat) {
    WellFormed(s) && exists i :: 0 <= i < |s.tasks| && WaitingAt(s, i, id)
  }

  ghost predicate WaitingAt(s: State, i: nat, id: nat)
    requires WellFormed(s) && i < |s.tasks|
  {
    s.tasks[i].id == id && Stalled(s, i)
  }

  // e deletes row i, moves it on, or frees it further down.
  ghost predicate Ends(s: State, e: Event, i: nat)
    requires WellFormed(s) && i < |s.tasks|
  {
    Deleted(e, s.tasks[i]) || UpdateRow(e, s.tasks[i]).status != Queued || FreedBehind(s, e, i)
  }

  /** A statement ends the wait of a stalled task if and only if it deletes the task or changes its status, or
      down its chain deletes or completes a task that another one waits on. */
  lemma WaitEndsIffFreed(s: State, e: Event, i: nat)
    requires WellFormed(s) && i < |s.tasks| && Stalled(s, i)
    ensures Waiting(Step(s, e), s.tasks[i].id) <==> !Ends(s, e, i)
  {
    var s' := Step(s, e);
    StepKeepsWellFormed(s, e);
    hide Step, WellFormed, Stalled, FreedBehind, Deleted, UpdateRow;
    if !Ends(s, e, i) {
      var j := RowSurvives(s, e, i);
      StatusAfter(s, e, i, j);
      WaitGoesOn(s, e, i, j);
      assert WaitingAt(s', j, s.tasks[i].id);
    }
    if Waiting(s', s.tasks[i].id) {
      var j :| 0 <= j < |s'.tasks| && WaitingAt(s', j, s.tasks[i].id);
      OnlyQueuedStall(s', j);
      StepKeepsRows(s, e, i, j);
      StatusAfter(s, e, i, j);
      WaitGoesOn(s, e, i, j);
    }
  }

  // Event k of a run ends the wait of task id.
  ghost predicate EndsWait(s: State, e: Event, id: nat) {
    WellFormed(s) && exists i: nat :: i < |s.tasks| && s.tasks[i].id == id && Ends(s, e, i)
  }

  lemma WaitStep(s: State, e: Event, id: nat)
    requires Waiting(s, id)
    ensures Waiting(Step(s, e), id) <==> !EndsWait(s, e, id)
  {
    hide Step, Ends, Stalled;
    var i :| 0 <= i < |s.tasks| && WaitingAt(s, i, id);
    WaitEndsIffFreed(s, e, i);
    forall c: nat | c < |s.tasks| && s.tasks[c].id == id
      ensures c == i
    {
      UniqueIds(s, c, i);
    }
  }

  ghost predicate WaitsFrom(events: seq<Event>, n: nat, m: nat, id: nat)
    requires m <= |events|
  {
    forall k: nat :: n <= k <= m ==> Waiting(At(events, k), id)
  }

  ghost predicate NoneEnds(events: seq<Event>, n: nat, m: nat, id: nat)
    requires m <= |events|
  {
    forall k: nat :: n <= k < m ==> !EndsWait(At(events, k), events[k], id)
  }

  /** Over any run, a stalled task waits on from state n to state m if and only if no statement in between ends
      its wait. */
  lemma {:induction false} StalledUntilFreed(events: seq<Event>, n: nat, m: nat, id: nat)
    requires n <= m <= |events| && Waiting(At(events, n), id)
    ensures WaitsFrom(events, n, m, id) <==> NoneEnds(events, n, m, id)
  {
    hide At, Waiting, EndsWait;
    if n < m {
      StalledUntilFreed(events, n, m - 1, id);
      if Waiting(At(events, m - 1), id) {
        NextState(events, m - 1);
        WaitStep(At(events, m - 1), events[m - 1], id);
      }
    }
  }

  lemma NextState(events: seq<Event>, n: nat)
    requires n < |events|
    ensures At(events, n + 1) == Step(At(events, n), events[n])
  {
  }

  /** And while it waits it is queued, was never claimed, and no claim can take it. */
  lemma WaitingIsUnclaimable(events: seq<Event>, m: nat, id: nat)
    requires m <= |events| && Waiting(At(events, m), id)
    ensures var s := At(events, m);
      && id !in s.claims && Known(s.tasks, id)
      && forall i :: 0 <= i < |s.tasks| && s.tasks[i].id == id ==>
           s.tasks[i].status == Queued && !Eligible(s.tasks, s.tasks[i])
  {
    RunKeepsInv(events, m);
    var s := At(events, m);
    hide At, Step, Eligible, Stalled;
    var c :| 0 <= c < |s.tasks| && WaitingAt(s, c, id);
    OnlyQueuedStall(s, c);
    var d := StalledDepends(s, c);
    forall i | 0 <= i < |s.tasks| && s.tasks[i].id == id
      ensures i == c
    {
      UniqueIds(s, i, c);
    }
  }

  /** A task behind a dependent that has just been auto-failed is such a task. */
  lemma GrandchildrenStall(s: State, e: Event, i: nat, d: nat)
    requires WellFormed(s) && e.FailDependents? && i < |s.tasks| && d < |s.tasks|
    requires BehindTouched(s.tasks[i], s.tasks[d], e)
    ensures Waiting(Step(s, e), s.tasks[i].id)
  {
    var s' := Step(s, e);
    StepKeepsWellFormed(s, e);
    assert s.tasks[d].dependsOn.value < s.tasks[d].id;
    assert s'.tasks[i] == s.tasks[i] && s'.tasks[d].status == Failed;
    StalledUnfolds(s', i, d);
    assert WaitingAt(s', i, s.tasks[i].id);
  }

  lemma CompletionFrees(s: State, e: Event, i: nat, d: nat, j: nat)
    requires WellFormed(s) && e.MarkComplete? && i < |s.tasks| && d < |s.tasks| && e.id == s.tasks[d].id
    requires s.tasks[i].status == Queued && s.tasks[i].dependsOn == Some(s.tasks[d].id)
      && TEST_LABEL !in s.tasks[i].labels
    requires j < |Step(s, e).tasks| && Step(s, e).tasks[j].id == s.tasks[i].id
    ensures Eligible(Step(s, e).tasks, Step(s, e).tasks[j])
  {
    var t' := Step(s, e).tasks;
    assert t'[d].id == s.tasks[d].id && t'[d].status == Complete;
    assert t'[j].id == s.tasks[j].id;
    UniqueIds(s, i, j);
  }

  lemma DeletionFrees(s: State, e: Event, i: nat, d: nat, j: nat)
    requires WellFormed(s) && (e.Delete? || e.DropTerminal?) && i < |s.tasks| && d < |s.tasks| && Deleted(e, s.tasks[d])
    requires s.tasks[i].status == Queued && s.tasks[i].dependsOn == Some(s.tasks[d].id)
      && TEST_LABEL !in s.tasks[i].labels
    requires j < |Step(s, e).tasks| && Step(s, e).tasks[j].id == s.tasks[i].id
    ensures Eligible(Step(s, e).tasks, Step(s, e).tasks[j])
  {
    var origin := SurvivorOrigin(e, s.tasks, |s.tasks|, j);
    UniqueIds(s, i, origin);
    hide Step, WellFormed, Survivors, Deleted;
    assert Step(s, e).tasks[j] == Released(e, s.tasks, s.tasks[i]);
  }

  /** The wait is over for whoever waits directly on a task that is completed or deleted. */
  lemma FreedAtTheEnd(s: State, e: Event, i: nat, d: nat, j: nat)
    requires WellFormed(s) && i < |s.tasks| && d < |s.tasks| && TEST_LABEL !in s.tasks[i].labels
    requires s.tasks[i].status == Queued && s.tasks[i].dependsOn == Some(s.tasks[d].id)
    requires Completes(e, s.tasks[d]) || Deleted(e, s.tasks[d])
    requires j < |Step(s, e).tasks| && Step(s, e).tasks[j].id == s.tasks[i].id
    ensures Eligible(Step(s, e).tasks, Step(s, e).tasks[j])
  {
    hide Step, WellFormed, Eligible;
    if Completes(e, s.tasks[d]) {
      CompletionFrees(s, e, i, d, j);
    } else {
      DeletionFrees(s, e, i, d, j);
    }
  }
}
