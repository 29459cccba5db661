/** The gateway task queue: workers, users and reapers act on one table, statement by statement.
    A task is named by its number in order of insertion; the table is listed in that order. */
module TaskQueue {
  import opened Wrappers

  datatype Status = Queued | Running | Complete | Failed | Cancelled | Paused

  datatype Task = Task(
    id: nat, userId: string, status: Status, priority: int, createdAt: int, updatedAt: int,
    dependsOn: Option<nat>, labels: set<string>, workerId: Option<string>)

  // Each event is one SQL statement. locked: rows that other transactions hold locked.
  datatype Event =
    | Create(userId: string, priority: int, dependsOn: Option<nat>, now: int)
    | Claim(worker: Option<string>, now: int, locked: set<nat>)
    | MarkRunning(id: nat, now: int)
    | MarkComplete(id: nat, now: int)
    | MarkFailed(id: nat, now: int)
    | MarkPaused(id: nat, now: int)
    | FailDependents(id: nat, now: int)
    | Cancel(ids: set<nat>, userId: string, now: int)
    | SetLabels(id: nat, userId: string, labels: set<string>, now: int)
    | ReapStuck(now: int, timeout: int)
    | ReapStale(workerId: string, now: int)
    | Delete(ids: set<nat>, userId: string)
    | DropTerminal(cutoff: int)

  const TEST_LABEL := "__integration_test__"

  // ---------------------------------------------------------------- claiming

  ghost predicate Known(t: seq<Task>, id: nat) {
    exists i :: 0 <= i < |t| && t[i].id == id
  }

  predicate CompleteIn(t: seq<Task>, id: nat) {
    exists i :: 0 <= i < |t| && t[i].id == id && t[i].status == Complete
  }

  predicate Eligible(t: seq<Task>, r: Task) {
    && r.status == Queued
    && (r.dependsOn.None? || CompleteIn(t, r.dependsOn.value))
    && TEST_LABEL !in r.labels
  }

  predicate Claimable(t: seq<Task>, locked: set<nat>, r: Task) {
    Eligible(t, r) && r.id !in locked
  }

  // ORDER BY priority DESC, created_at ASC
  predicate Before(a: Task, b: Task) {
    a.priority > b.priority || (a.priority == b.priority && a.createdAt <= b.createdAt)
  }

  // FOR UPDATE SKIP LOCKED LIMIT 1, over the first k rows.
  function Next(t: seq<Task>, locked: set<nat>, k: nat): (b: Option<nat>)
    requires k <= |t|
    ensures b.None? <==> forall i :: 0 <= i < k ==> !Claimable(t, locked, t[i])
    ensures b.Some? ==> b.value < k && Claimable(t, locked, t[b.value])
    ensures b.Some? ==> forall i :: 0 <= i < k && Claimable(t, locked, t[i]) ==> Before(t[b.value], t[i])
  {
    if k == 0 then None
    else
      var b := Next(t, locked, k - 1);
      if !Claimable(t, locked, t[k - 1]) then b
      else if b.None? || !Before(t[b.value], t[k - 1]) then Some(k - 1)
      else b
  }

  // ---------------------------------------------------------------- statements

  function Clamp(priority: int): int {
    if priority < 1 then 1 else if priority > 10 then 10 else priority
  }

  // The WHERE clause of an UPDATE ...
  predicate Matches(e: Event, r: Task) {
    match e
    case MarkRunning(id, _) => r.id == id
    case MarkComplete(id, _) => r.id == id
    case MarkFailed(id, _) => r.id == id
    case MarkPaused(id, _) => r.id == id
    case FailDependents(id, _) => r.dependsOn == Some(id) && r.status == Queued
    case Cancel(ids, user, _) => r.id in ids && r.userId == user && r.status == Queued
    case SetLabels(id, user, _, _) => r.id == id && r.userId == user
    case ReapStuck(now, timeout) => r.status == Running && r.updatedAt < now - timeout
    case ReapStale(worker, _) => r.status == Running && r.workerId == Some(worker)
    case _ => false
  }

  // ... and its SET clause.
  function SetRow(e: Event, r: Task): Task {
    match e
    case MarkRunning(_, now) => r.(updatedAt := now)
    case MarkComplete(_, now) => r.(status := Complete, updatedAt := now)
    case MarkFailed(_, now) => r.(status := Failed, updatedAt := now)
    case MarkPaused(_, now) => r.(status := Paused, updatedAt := now)
    case FailDependents(_, now) => r.(status := Failed, updatedAt := now)
    case Cancel(_, _, now) => r.(status := Cancelled, updatedAt := now)
    case SetLabels(_, _, labels, now) => r.(labels := labels, updatedAt := now)
    case ReapStuck(now, _) => r.(status := Failed, updatedAt := now)
    case ReapStale(_, now) => r.(status := Failed, updatedAt := now)
    case _ => r
  }

  function UpdateRow(e: Event, r: Task): Task {
    if Matches(e, r) then SetRow(e, r) else r
  }

  // RETURNING task_id, over the first k rows.
  function Touched(e: Event, t: seq<Task>, k: nat): (ids: seq<nat>)
    requires k <= |t|
    ensures forall i :: 0 <= i < k && Matches(e, t[i]) ==> t[i].id in ids
    ensures forall id :: id in ids ==> exists i :: 0 <= i < k && Matches(e, t[i]) && t[i].id == id
  {
    if k == 0 then []
    else if Matches(e, t[k - 1]) then Touched(e, t, k - 1) + [t[k - 1].id]
    else Touched(e, t, k - 1)
  }

  predicate Deleted(e: Event, r: Task) {
    match e
    case Delete(ids, user) => r.id in ids && r.userId == user
    case DropTerminal(cutoff) =>
      (r.status == Complete || r.status == Failed || r.status == Cancelled) && r.createdAt < cutoff
    case _ => false
  }

  // DELETE FROM tasks WHERE ...; depends_on is declared ON DELETE SET NULL.
  function Survivors(e: Event, t: seq<Task>, k: nat): seq<Task>
    requires k <= |t|
  {
    if k == 0 then []
    else if Deleted(e, t[k - 1]) then Survivors(e, t, k - 1)
    else Survivors(e, t, k - 1) + [Released(e, t, t[k - 1])]
  }

  function Released(e: Event, t: seq<Task>, r: Task): (r': Task)
    ensures r'.id == r.id && r'.status == r.status && (r'.dependsOn.Some? ==> r' == r)
  {
    if r.dependsOn.Some? && (exists i :: 0 <= i < |t| && t[i].id == r.dependsOn.value && Deleted(e, t[i]))
    then r.(dependsOn := None) else r
  }

  // The table, the number of tasks ever created, and the claims made so far.
  datatype State = State(tasks: seq<Task>, created: nat, claims: seq<nat>)

  // INSERT, rejected by the foreign key when the dependency is not in the table.
  function Insert(s: State, user: string, priority: int, dependsOn: Option<nat>, now: int): State {
    if dependsOn.Some? && forall i :: 0 <= i < |s.tasks| ==> s.tasks[i].id != dependsOn.value then s
    else
      s.(tasks := s.tasks + [Task(s.created, user, Queued, Clamp(priority), now, now, dependsOn, {}, None)],
         created := s.created + 1)
  }

  // A task as it is created: queued, and just as it was asked for but for a priority out of range.
  predicate IsNew(r: Task, id: nat, user: string, priority: int, dependsOn: Option<nat>, now: int) {
    && r.id == id && r.userId == user && r.status == Queued && r.dependsOn == dependsOn
    && r.createdAt == now && r.updatedAt == now && r.labels == {} && r.workerId.None?
    && 1 <= r.priority <= 10 && (1 <= priority <= 10 ==> r.priority == priority)
    && (priority < 1 ==> r.priority == 1) && (priority > 10 ==> r.priority == 10)
  }

  function ClaimNext(s: State, worker: Option<string>, now: int, locked: set<nat>): State {
    match Next(s.tasks, locked, |s.tasks|)
    case None => s
    case Some(b) =>
      var r := s.tasks[b];
      s.(tasks := s.tasks[b := r.(status := Running, updatedAt := now, workerId := worker)],
         claims := s.claims + [r.id])
  }

  function UpdateAll(e: Event, t: seq<Task>): seq<Task> {
    seq(|t|, i requires 0 <= i < |t| => UpdateRow(e, t[i]))
  }

  function Step(s: State, e: Event): State {
    match e
    case Create(user, priority, dependsOn, now) => Insert(s, user, priority, dependsOn, now)
    case Claim(worker, now, locked) => ClaimNext(s, worker, now, locked)
    case Delete(_, _) => s.(tasks := Survivors(e, s.tasks, |s.tasks|))
    case DropTerminal(_) => s.(tasks := Survivors(e, s.tasks, |s.tasks|))
    case _ => s.(tasks := UpdateAll(e, s.tasks))
  }

  // The state after the first n events of a run.
  function At(events: seq<Event>, n: nat): State
    requires n <= |events|
  {
    if n == 0 then State([], 0, []) else Step(At(events, n - 1), events[n - 1])
  }

  /** The table, updated in place. */
  class TaskTable {
    var tasks: seq<Task>
    var created: nat
    ghost var claims: seq<nat>

    ghost function Model(): State
      reads this
    {
      State(tasks, created, claims)
    }

    constructor ()
      ensures Model() == State([], 0, [])
    {
      tasks, created, claims := [], 0, [];
    }

    method CreateTask(user: string, priority: int, dependsOn: Option<nat>, now: int) returns (id: Option<nat>)
      modifies this
      ensures Model() == Step(old(Model()), Create(user, priority, dependsOn, now))
      ensures id.Some? <==> dependsOn.None? || Known(old(tasks), dependsOn.value)
      ensures id.None? ==> Model() == old(Model())
      ensures id.Some? ==> id.value == old(created) && created == old(created) + 1
      ensures id.Some? ==>
        && |tasks| == |old(tasks)| + 1 && tasks[..|tasks| - 1] == old(tasks)
        && IsNew(tasks[|tasks| - 1], id.value, user, priority, dependsOn, now)
    {
      if dependsOn.Some? && forall i :: 0 <= i < |tasks| ==> tasks[i].id != dependsOn.value {
        return None;
      }
      tasks := tasks + [Task(created, user, Queued, Clamp(priority), now, now, dependsOn, {}, None)];
      id := Some(created);
      created := created + 1;
    }

    method ClaimNextQueuedTask(worker: Option<string>, now: int, locked: set<nat>) returns (claimed: Option<Task>)
      modifies this
      ensures Model() == Step(old(Model()), Claim(worker, now, locked))
      ensures claimed.None? <==> forall i :: 0 <= i < |old(tasks)| ==> !Claimable(old(tasks), locked, old(tasks)[i])
      ensures claimed.Some?
        ==> claimed.value in tasks && claimed.value.status == Running && claimed.value.workerId == worker
    {
      var b := Next(tasks, locked, |tasks|);
      if b.None? {
        return None;
      }
      var r := tasks[b.value].(status := Running, updatedAt := now, workerId := worker);
      tasks := tasks[b.value := r];
      claims := claims + [r.id];
      claimed := Some(r);
      assert tasks[b.value] == r;
    }

    // Every UPDATE statement but the claim; the callers use the returned ids or their number.
    method Update(e: Event) returns (ids: seq<nat>)
      requires !e.Create? && !e.Claim? && !e.Delete? && !e.DropTerminal?
      modifies this
      ensures Model() == Step(old(Model()), e)
      ensures ids == Touched(e, old(tasks), |old(tasks)|)
    {
      ids := Touched(e, tasks, |tasks|);
      tasks := UpdateAll(e, tasks);
    }

    method DeleteTasks(e: Event) returns (deleted: nat)
      requires e.Delete? || e.DropTerminal?
      modifies this
      ensures Model() == Step(old(Model()), e)
      ensures deleted == |old(tasks)| - |tasks|
    {
      SurvivorsShrink(e, tasks, |tasks|);
      var kept := Survivors(e, tasks, |tasks|);
      deleted := |tasks| - |kept|;
      tasks := kept;
    }
  }

  lemma SurvivorsShrink(e: Event, t: seq<Task>, k: nat)
    requires k <= |t|
    ensures |Survivors(e, t, k)| <= k
  {
  }

  // ---------------------------------------------------------------- the table stays well formed

  // Ids ascend, and a dependency is an earlier task that is still in the table.
  ghost predicate WellFormed(s: State) {
    && (forall i, j :: 0 <= i < j < |s.tasks| ==> s.tasks[i].id < s.tasks[j].id)
    && (forall i :: 0 <= i < |s.tasks| ==> s.tasks[i].id < s.created)
    && (forall i :: 0 <= i < |s.tasks| && s.tasks[i].dependsOn.Some? ==>
      s.tasks[i].dependsOn.value < s.tasks[i].id && Known(s.tasks, s.tasks[i].dependsOn.value))
  }

  // Claimed tasks are no longer queued, and were claimed once.
  ghost predicate ClaimedOnce(s: State) {
    && (forall i, j :: 0 <= i < j < |s.claims| ==> s.claims[i] != s.claims[j])
    && (forall i :: 0 <= i < |s.claims| ==> s.claims[i] < s.created)
    && (forall i :: 0 <= i < |s.tasks| && s.tasks[i].status == Queued ==> s.tasks[i].id !in s.claims)
  }

  // Row by row the same task; what was not queued before is not queued now.
  ghost predicate SameTasks(t: seq<Task>, t': seq<Task>) {
    && |t'| == |t|
    && forall i :: 0 <= i < |t| ==>
      && t'[i].id == t[i].id && t'[i].dependsOn == t[i].dependsOn
      && (t'[i].status == Queued ==> t[i].status == Queued)
  }

  lemma UpdateKeepsTasks(e: Event, t: seq<Task>)
    ensures SameTasks(t, UpdateAll(e, t))
  {
  }

  lemma SameTasksKeepInv(s: State, t': seq<Task>)
    requires WellFormed(s) && ClaimedOnce(s) && SameTasks(s.tasks, t')
    ensures WellFormed(s.(tasks := t')) && ClaimedOnce(s.(tasks := t'))
  {
    forall i | 0 <= i < |t'| && t'[i].dependsOn.Some?
      ensures Known(t', t'[i].dependsOn.value)
    {
      var j :| 0 <= j < |s.tasks| && s.tasks[j].id == t'[i].dependsOn.value;
      assert t'[j].id == t'[i].dependsOn.value;
    }
  }

  lemma InsertKeepsInv(s: State, user: string, priority: int, dependsOn: Option<nat>, now: int)
    requires WellFormed(s) && ClaimedOnce(s)
    ensures WellFormed(Insert(s, user, priority, dependsOn, now))
      && ClaimedOnce(Insert(s, user, priority, dependsOn, now))
  {
    var s' := Insert(s, user, priority, dependsOn, now);
    if s' != s {
      assert forall i :: 0 <= i < |s.tasks| ==> s'.tasks[i] == s.tasks[i];
      forall d | Known(s.tasks, d)
        ensures Known(s'.tasks, d)
      {
        var j :| 0 <= j < |s.tasks| && s.tasks[j].id == d;
        assert s'.tasks[j].id == d;
      }
    }
  }

  lemma ClaimKeepsInv(s: State, worker: Option<string>, now: int, locked: set<nat>)
    requires WellFormed(s) && ClaimedOnce(s)
    ensures WellFormed(ClaimNext(s, worker, now, locked)) && ClaimedOnce(ClaimNext(s, worker, now, locked))
  {
    var s', b := ClaimNext(s, worker, now, locked), Next(s.tasks, locked, |s.tasks|);
    if b.Some? {
      assert SameTasks(s.tasks, s'.tasks);
      SameTasksKeepInv(s, s'.tasks);
      assert s.tasks[b.value].id !in s.claims;
    }
  }

  // A surviving row comes from a row of the table, in order.
  lemma {:induction false} SurvivorOrigin(e: Event, t: seq<Task>, k: nat, i: nat) returns (j: nat)
    requires k <= |t| && i < |Survivors(e, t, k)|
    ensures j < k && Survivors(e, t, k)[i] == Released(e, t, t[j]) && !Deleted(e, t[j])
  {
    if Deleted(e, t[k - 1]) || i < |Survivors(e, t, k - 1)| {
      j := SurvivorOrigin(e, t, k - 1, i);
    } else {
      j := k - 1;
    }
  }

  lemma {:induction false} SurvivorKnown(e: Event, t: seq<Task>, k: nat, j: nat)
    requires j < k <= |t| && !Deleted(e, t[j])
    ensures Known(Survivors(e, t, k), t[j].id)
  {
    var kept := Survivors(e, t, k);
    if j < k - 1 {
      SurvivorKnown(e, t, k - 1, j);
      var i :| 0 <= i < |Survivors(e, t, k - 1)| && Survivors(e, t, k - 1)[i].id == t[j].id;
      assert kept[i].id == t[j].id;
    } else {
      assert kept[|kept| - 1].id == t[j].id;
    }
  }

  lemma {:induction false} SurvivorsAscend(e: Event, t: seq<Task>, k: nat)
    requires k <= |t| && forall i, j :: 0 <= i < j < |t| ==> t[i].id < t[j].id
    ensures var kept := Survivors(e, t, k);
      && (forall i, j :: 0 <= i < j < |kept| ==> kept[i].id < kept[j].id)
      && (forall i, j :: 0 <= i < |kept| && k <= j < |t| ==> kept[i].id < t[j].id)
  {
    if k > 0 {
      SurvivorsAscend(e, t, k - 1);
      var front, kept := Survivors(e, t, k - 1), Survivors(e, t, k);
      forall i | 0 <= i < |kept|
        ensures kept[i].id <= t[k - 1].id
        ensures i < |front| ==> kept[i] == front[i] && kept[i].id < t[k - 1].id
      {
        if i < |front| {
          assert Survivors(e, t, k - 1)[i].id < t[k - 1].id;
        }
      }
    }
  }

  lemma DeleteKeepsInv(s: State, e: Event)
    requires WellFormed(s) && ClaimedOnce(s)
    ensures
      var s' := s.(tasks := Survivors(e, s.tasks, |s.tasks|));
      WellFormed(s') && ClaimedOnce(s')
  {
    var t, n := s.tasks, |s.tasks|;
    var kept := Survivors(e, t, n);
    SurvivorsAscend(e, t, n);
    forall i | 0 <= i < |kept|
      ensures kept[i].id < s.created && (kept[i].status == Queued ==> kept[i].id !in s.claims)
      ensures kept[i].dependsOn.Some? ==> kept[i].dependsOn.value < kept[i].id && Known(kept, kept[i].dependsOn.value)
    {
      var j := SurvivorOrigin(e, t, n, i);
      if kept[i].dependsOn.Some? {
        var d :| 0 <= d < n && t[d].id == t[j].dependsOn.value;
        SurvivorKnown(e, t, n, d);
      }
    }
  }

  lemma StepKeepsInv(s: State, e: Event)
    requires WellFormed(s) && ClaimedOnce(s)
    ensures WellFormed(Step(s, e)) && ClaimedOnce(Step(s, e))
  {
    hide WellFormed, ClaimedOnce;
    match e {
      case Create(user, priority, dependsOn, now) => InsertKeepsInv(s, user, priority, dependsOn, now);
      case Claim(worker, now, locked) => ClaimKeepsInv(s, worker, now, locked);
      case Delete(_, _) => DeleteKeepsInv(s, e);
      case DropTerminal(_) => DeleteKeepsInv(s, e);
      case _ =>
        UpdateKeepsTasks(e, s.tasks);
        SameTasksKeepInv(s, UpdateAll(e, s.tasks));
    }
  }

  lemma {:induction false} RunKeepsInv(events: seq<Event>, n: nat)
    requires n <= |events|
    ensures WellFormed(At(events, n)) && ClaimedOnce(At(events, n))
  {
    if n > 0 {
      RunKeepsInv(events, n - 1);
      assert At(events, n) == Step(At(events, n - 1), events[n - 1]);
      hide *;
      StepKeepsInv(At(events, n - 1), events[n - 1]);
    }
  }

  // ---------------------------------------------------------------- no dependency cycle, no deadlock

  // Each task of the path is in the table and depends on the next.
  ghost predicate DependencyPath(t: seq<Task>, path: seq<nat>) {
    forall k :: 0 < k < |path| ==> DependsOn(t, path[k - 1], path[k])
  }

  ghost predicate DependsOn(t: seq<Task>, id: nat, d: nat) {
    exists i :: 0 <= i < |t| && t[i].id == id && t[i].dependsOn == Some(d)
  }

  /** In every reachable table, following depends_on never comes back to where it started. */
  lemma {:induction false} NoDependencyCycle(events: seq<Event>, n: nat, path: seq<nat>, k: nat)
    requires n <= |events| && 0 < k < |path| && DependencyPath(At(events, n).tasks, path)
    ensures path[k] < path[0]
  {
    RunKeepsInv(events, n);
    if k > 1 {
      NoDependencyCycle(events, n, path, k - 1);
    }
    var t := At(events, n).tasks;
    assert DependsOn(t, path[k - 1], path[k]);
  }

  function IndexOf(t: seq<Task>, id: nat): (i: nat)
    requires exists i :: 0 <= i < |t| && t[i].id == id
    ensures i < |t| && t[i].id == id
  {
    if t[|t| - 1].id == id then |t| - 1 else IndexOf(t[..|t| - 1], id)
  }

  // Where the chain of queued dependencies of row i ends: the first task on it that is not queued, or depends on
  // nothing.
  ghost function Root(s: State, i: nat): (r: nat)
    requires WellFormed(s) && i < |s.tasks|
    ensures r < |s.tasks|
    decreases s.tasks[i].id
  {
    var t := s.tasks[i];
    if t.status != Queued || t.dependsOn.None? then i else Root(s, IndexOf(s.tasks, t.dependsOn.value))
  }

  // The end of the chain will never let the tasks behind it run.
  predicate Blocking(t: Task) {
    t.status != Queued && t.status != Complete
  }

  lemma UniqueIds(s: State, i: nat, j: nat)
    requires WellFormed(s) && i < |s.tasks| && j < |s.tasks| && s.tasks[i].id == s.tasks[j].id
    ensures i == j
  {
  }

  // A chain that ends well has an eligible task on it.
  lemma {:induction false} OpenChainHasEligible(s: State, i: nat) returns (e: nat)
    requires WellFormed(s) && i < |s.tasks| && s.tasks[i].status == Queued && !Blocking(s.tasks[Root(s, i)])
    requires forall j :: 0 <= j < |s.tasks| ==> TEST_LABEL !in s.tasks[j].labels
    ensures e < |s.tasks| && Eligible(s.tasks, s.tasks[e])
    decreases s.tasks[i].id
  {
    var t := s.tasks[i];
    e := i;
    if t.dependsOn.Some? {
      var d := IndexOf(s.tasks, t.dependsOn.value);
      if s.tasks[d].status == Queued {
        e := OpenChainHasEligible(s, d);
      } else {
        assert Root(s, d) == d;
        assert CompleteIn(s.tasks, t.dependsOn.value);
      }
    }
  }

  /** When nothing is locked or labelled, a claim comes back empty if and only if every queued task waits
      on a chain that ends in a task which is neither queued nor complete. */
  lemma {:induction false} ClaimEmptyIffAllBlocked(s: State)
    requires WellFormed(s)
    requires forall j :: 0 <= j < |s.tasks| ==> TEST_LABEL !in s.tasks[j].labels
    ensures Next(s.tasks, {}, |s.tasks|).None?
      <==> forall i :: 0 <= i < |s.tasks| && s.tasks[i].status == Queued ==> Blocking(s.tasks[Root(s, i)])
  {
    forall i | 0 <= i < |s.tasks| && s.tasks[i].status == Queued && !Blocking(s.tasks[Root(s, i)])
      ensures Next(s.tasks, {}, |s.tasks|).Some?
    {
      var e := OpenChainHasEligible(s, i);
      assert Claimable(s.tasks, {}, s.tasks[e]);
    }
    forall i | 0 <= i < |s.tasks| && Claimable(s.tasks, {}, s.tasks[i])
      ensures !Blocking(s.tasks[Root(s, i)])
    {
      EligibleIsOpen(s, i);
    }
  }

  lemma EligibleIsOpen(s: State, i: nat)
    requires WellFormed(s) && i < |s.tasks| && Eligible(s.tasks, s.tasks[i])
    ensures !Blocking(s.tasks[Root(s, i)])
  {
    var t := s.tasks[i];
    if t.dependsOn.Some? {
      var d := IndexOf(s.tasks, t.dependsOn.value);
      var c :| 0 <= c < |s.tasks| && s.tasks[c].id == t.dependsOn.value && s.tasks[c].status == Complete;
      UniqueIds(s, c, d);
    }
  }

  /** No dependency deadlock: in every reachable table, if some task is queued, none is labelled and
      everything that is not queued is complete, a claim finds a task. */
  lemma NoDeadlock(events: seq<Event>, n: nat, worker: Option<string>, now: int)
    requires n <= |events|
    requires var t := At(events, n).tasks;
      && (exists i :: 0 <= i < |t| && t[i].status == Queued)
      && (forall i :: 0 <= i < |t| ==> (t[i].status == Queued || t[i].status == Complete) && TEST_LABEL !in t[i].labels)
    ensures |Step(At(events, n), Claim(worker, now, {})).claims| == |At(events, n).claims| + 1
  {
    RunKeepsInv(events, n);
    hide At, WellFormed, ClaimedOnce, Step;
    QueuedIsClaimed(At(events, n), worker, now);
  }

  lemma QueuedIsClaimed(s: State, worker: Option<string>, now: int)
    requires WellFormed(s) && exists i :: 0 <= i < |s.tasks| && s.tasks[i].status == Queued
    requires forall i :: 0 <= i < |s.tasks| ==>
      (s.tasks[i].status == Queued || s.tasks[i].status == Complete) && TEST_LABEL !in s.tasks[i].labels
    ensures |Step(s, Claim(worker, now, {})).claims| == |s.claims| + 1
  {
    hide WellFormed, Eligible, Root;
    ClaimEmptyIffAllBlocked(s);
    var i :| 0 <= i < |s.tasks| && s.tasks[i].status == Queued;
    assert !Blocking(s.tasks[Root(s, i)]);
  }

  // ---------------------------------------------------------------- claims

  /** Over every interleaving no task is claimed twice, and what a claim takes is queued, unlocked, free of
      unfinished dependencies, and first by priority and age among all such tasks. */
  lemma ClaimsAreRight(events: seq<Event>, n: nat)
    requires n < |events| && events[n].Claim?
    ensures
      var s, s', locked := At(events, n), At(events, n + 1), events[n].locked;
      && (forall i, j :: 0 <= i < j < |s'.claims| ==> s'.claims[i] != s'.claims[j])
      && if forall i :: 0 <= i < |s.tasks| ==> !Claimable(s.tasks, locked, s.tasks[i]) then s' == s
         else exists b: nat :: FirstClaimable(s.tasks, locked, b) && s'.claims == s.claims + [s.tasks[b].id]
  {
    RunKeepsInv(events, n + 1);
    var s, locked := At(events, n), events[n].locked;
    var b := Next(s.tasks, locked, |s.tasks|);
    if b.Some? {
      assert FirstClaimable(s.tasks, locked, b.value);
      assert At(events, n + 1).claims == s.claims + [s.tasks[b.value].id];
    }
  }

  ghost predicate FirstClaimable(t: seq<Task>, locked: set<nat>, b: nat) {
    && b < |t| && Claimable(t, locked, t[b])
    && forall i :: 0 <= i < |t| && Claimable(t, locked, t[i]) ==> Before(t[b], t[i])
  }

  // What may give task a the status `to`.
  predicate MayBecome(t: seq<Task>, a: Task, e: Event, to: Status) {
    match to
    case Queued => false
    case Running => e.Claim? && Claimable(t, e.locked, a)
    case Complete => e.MarkComplete? && e.id == a.id
    case Paused => e.MarkPaused? && e.id == a.id
    case Cancelled => e.Cancel? && a.id in e.ids && a.status == Queued && a.userId == e.userId
    case Failed =>
      || (e.MarkFailed? && e.id == a.id)
      || (e.FailDependents? && a.status == Queued && a.dependsOn == Some(e.id))
      || (a.status == Running && e.ReapStuck? && a.updatedAt < e.now - e.timeout)
      || (a.status == Running && e.ReapStale? && a.workerId == Some(e.workerId))
  }

  /** No status changes without its cause: nothing is queued again, only a claim starts a task, only its owner
      cancels it and only while it is queued, and a reap fails running tasks only. */
  lemma {:induction false} StatusChangesHaveCauses(s: State, e: Event, i: nat, j: nat)
    requires WellFormed(s) && i < |s.tasks| && j < |Step(s, e).tasks|
    requires Step(s, e).tasks[j].id == s.tasks[i].id
    ensures var before, after := s.tasks[i], Step(s, e).tasks[j].status;
      after == before.status || MayBecome(s.tasks, before, e, after)
  {
    var t, t' := s.tasks, Step(s, e).tasks;
    if e.Delete? || e.DropTerminal? {
      var origin := SurvivorOrigin(e, t, |t|, j);
      UniqueIds(s, i, origin);
    } else if j < |t| {
      assert t'[j].id == t[j].id;
      UniqueIds(s, i, j);
    }
  }

  /** A startup reap changes only the running rows of its own worker, all of them to failed, and leaves
      that worker with no running row. */
  lemma StaleReapIsLocal(s: State, worker: string, now: int)
    ensures
      var t, t' := s.tasks, Step(s, ReapStale(worker, now)).tasks;
      && |t'| == |t|
      && (forall i :: 0 <= i < |t| ==>
        if t[i].status == Running && t[i].workerId == Some(worker)
        then t'[i] == t[i].(status := Failed, updatedAt := now)
        else t'[i] == t[i])
      && (forall i :: 0 <= i < |t| ==> !(t'[i].status == Running && t'[i].workerId == Some(worker)))
  {
  }

  ghost predicate Idle(t: seq<Task>, worker: string) {
    forall i :: 0 <= i < |t| ==> !(t[i].status == Running && t[i].workerId == Some(worker))
  }

  lemma IdleStays(s: State, e: Event, worker: string)
    requires Idle(s.tasks, worker) && !(e.Claim? && e.worker == Some(worker))
    ensures Idle(Step(s, e).tasks, worker)
  {
    if e.Delete? || e.DropTerminal? {
      forall j | 0 <= j < |Step(s, e).tasks|
        ensures !(Step(s, e).tasks[j].status == Running && Step(s, e).tasks[j].workerId == Some(worker))
      {
        var origin := SurvivorOrigin(e, s.tasks, |s.tasks|, j);
      }
    }
  }

  /** Over any run, from a startup reap on its worker has no running task until its own next claim. */
  lemma {:induction false} ReapedWorkerIsIdle(events: seq<Event>, n: nat, m: nat, worker: string)
    requires n < m <= |events| && events[n].ReapStale? && events[n].workerId == worker
    requires forall k :: n < k < m ==> !(events[k].Claim? && events[k].worker == Some(worker))
    ensures Idle(At(events, m).tasks, worker)
  {
    if n + 1 < m {
      hide Idle, Step;
      ReapedWorkerIsIdle(events, n, m - 1, worker);
      IdleStays(At(events, m - 1), events[m - 1], worker);
    } else {
      assert At(events, m) == Step(At(events, n), events[n]);
      StaleReapIsLocal(At(events, n), worker, events[n].now);
    }
  }
}
