/** execute_pipeline: run the steps of a pipeline one after another, each as a task of its own. */
module PipelineRunner {
  import opened Wrappers
  import opened Templates

  // Seconds.
  const STEP_TIMEOUT := 600
  const POLL_INTERVAL := 2

  // What a poll of the task finds: get_task raising, no row, or a row's status.
  datatype Poll = Raises | Missing | Complete(result: Option<string>) | Failed | Cancelled | Unfinished

  datatype Outcome = Finished(result: Option<string>) | Broken(poll: Poll) | TimedOut

  function Verdict(poll: Poll): Outcome
    requires !poll.Unfinished?
  {
    if poll.Complete? then Finished(poll.result) else Broken(poll)
  }

  // How many polls fit into the timeout.
  function Polls(timeout: nat): nat {
    (timeout + POLL_INTERVAL - 1) / POLL_INTERVAL
  }

  // The verdict of the first poll from i on that finds the task ended.
  function Waited(polls: nat -> Poll, i: nat, timeout: nat): Outcome
    requires i <= Polls(timeout)
    decreases Polls(timeout) - i
  {
    if i == Polls(timeout) then TimedOut
    else if polls(i).Unfinished? then Waited(polls, i + 1, timeout)
    else Verdict(polls(i))
  }

  method WaitForTask(polls: nat -> Poll, timeout: nat) returns (outcome: Outcome)
    ensures outcome == Waited(polls, 0, timeout) && RightOutcome(polls, timeout, outcome)
  {
    WaitedMeaning(polls, timeout);
    var elapsed, i := 0, 0;
    while elapsed < timeout
      invariant elapsed == POLL_INTERVAL * i && i <= Polls(timeout)
      invariant Waited(polls, 0, timeout) == Waited(polls, i, timeout)
      decreases timeout - elapsed
    {
      var task := polls(i);
      if task.Raises? || task.Missing? {
        return Broken(task);
      }
      if task.Complete? {
        return Finished(task.result);
      }
      if task.Failed? || task.Cancelled? {
        return Broken(task);
      }
      elapsed := elapsed + POLL_INTERVAL;
      i := i + 1;
    }
    return TimedOut;
  }

  ghost predicate UnfinishedUntil(polls: nat -> Poll, i: nat, k: nat) {
    forall j: nat :: i <= j < k ==> polls(j).Unfinished?
  }

  // Poll k is the first that finds the task ended, and it is made before the timeout.
  ghost predicate FirstEnded(polls: nat -> Poll, timeout: nat, k: nat) {
    POLL_INTERVAL * k < timeout && !polls(k).Unfinished? && UnfinishedUntil(polls, 0, k)
  }

  // The task was seen complete with this result, before it was seen otherwise ended.
  ghost predicate SeenDone(polls: nat -> Poll, timeout: nat, result: Option<string>) {
    exists k: nat :: FirstEnded(polls, timeout, k) && polls(k) == Poll.Complete(result)
  }

  // It was seen failed, cancelled or gone, or could not be seen, before it was seen complete.
  ghost predicate SeenLost(polls: nat -> Poll, timeout: nat, poll: Poll) {
    && (poll.Raises? || poll.Missing? || poll.Failed? || poll.Cancelled?)
    && exists k: nat :: FirstEnded(polls, timeout, k) && polls(k) == poll
  }

  ghost predicate RightOutcome(polls: nat -> Poll, timeout: nat, outcome: Outcome) {
    && (outcome.TimedOut? <==> forall k: nat :: !FirstEnded(polls, timeout, k))
    && (forall x :: outcome == Finished(x) <==> SeenDone(polls, timeout, x))
    && (forall p :: outcome == Broken(p) <==> SeenLost(polls, timeout, p))
  }

  lemma PollsInTime(timeout: nat, k: nat)
    ensures k < Polls(timeout) <==> POLL_INTERVAL * k < timeout
  {
  }

  // The first poll from i on that finds the task ended decides.
  lemma {:induction false} FirstDecides(polls: nat -> Poll, timeout: nat, i: nat, k: nat)
    requires i <= k < Polls(timeout) && !polls(k).Unfinished? && UnfinishedUntil(polls, i, k)
    ensures var outcome := Waited(polls, i, timeout);
      && (forall x :: outcome == Finished(x) <==> polls(k) == Poll.Complete(x))
      && (forall p :: outcome == Broken(p) <==> polls(k) == p && !p.Complete?)
      && !outcome.TimedOut?
    decreases k - i
  {
    if i < k {
      FirstDecides(polls, timeout, i + 1, k);
    }
  }

  lemma {:induction false} NoneDecides(polls: nat -> Poll, timeout: nat, i: nat)
    requires i <= Polls(timeout) && UnfinishedUntil(polls, i, Polls(timeout))
    ensures Waited(polls, i, timeout) == TimedOut
    decreases Polls(timeout) - i
  {
    hide Polls;
    if i < Polls(timeout) {
      NoneDecides(polls, timeout, i + 1);
    }
  }

  lemma {:induction false} FirstOf(polls: nat -> Poll, n: nat) returns (k: nat)
    requires !UnfinishedUntil(polls, 0, n)
    ensures k < n && !polls(k).Unfinished? && UnfinishedUntil(polls, 0, k)
  {
    k := n - 1;
    if !UnfinishedUntil(polls, 0, n - 1) {
      k := FirstOf(polls, n - 1);
    }
  }

  lemma OneFirst(polls: nat -> Poll, timeout: nat, k: nat, l: nat)
    requires FirstEnded(polls, timeout, k) && FirstEnded(polls, timeout, l)
    ensures k == l
  {
  }

  /** Waiting finishes with a result exactly if the first poll that finds the task ended finds it complete with it;
      it breaks off with what that poll finds instead; and it times out exactly if no poll within the timeout
      finds the task ended. */
  lemma WaitedMeaning(polls: nat -> Poll, timeout: nat)
    ensures RightOutcome(polls, timeout, Waited(polls, 0, timeout))
  {
    var n := Polls(timeout);
    hide Polls;
    if UnfinishedUntil(polls, 0, n) {
      NoneDecides(polls, timeout, 0);
      forall k: nat
        ensures !FirstEnded(polls, timeout, k)
      {
        PollsInTime(timeout, k);
      }
    } else {
      var k := FirstOf(polls, n);
      PollsInTime(timeout, k);
      FirstDecides(polls, timeout, 0, k);
      assert FirstEnded(polls, timeout, k);
      forall l: nat | FirstEnded(polls, timeout, l)
        ensures l == k
      {
        OneFirst(polls, timeout, k, l);
      }
      hide Waited, FirstEnded;
    }
  }

  // ---------------------------------------------------------------- a run

  datatype Step = Step(name: string, agentType: string, taskText: string)

  // create: the new task's id, unless create_task raises. saves: whether persisting after step i succeeds.
  datatype World = World(
    create: (nat, string) -> Option<nat>, poll: nat -> nat -> Poll, saves: nat -> bool, finalizes: bool)

  datatype Error = NotCreated | NotFinished(outcome: Outcome) | NotSaved | NotFinalized

  datatype Entry =
    | Complete(step: nat, name: string, taskId: nat, result: Option<string>)
    | Failed(step: nat, error: Error)

  datatype Action =
    | Created(step: nat, text: string, taskId: nat)
    | SeenComplete(step: nat, taskId: nat, result: Option<string>)
    | Saved(entries: seq<Entry>)
    | Finalized(success: bool, entries: seq<Entry>)

  // entries is step_results; log is everything the run did to the outside.
  datatype Run = Run(entries: seq<Entry>, log: seq<Action>, error: Option<Error>)

  function Results(entries: seq<Entry>): seq<Option<string>> {
    seq(|entries|, i requires 0 <= i < |entries| => if entries[i].Complete? then entries[i].result else None)
  }

  // One turn of the loop.
  function RunStep(w: World, steps: seq<Step>, input: string, run: Run, i: nat): Run
    requires i < |steps|
  {
    var text := Render(steps[i].taskText, input, Results(run.entries));
    match w.create(i, text)
    case None => run.(error := Some(NotCreated))
    case Some(id) =>
      var log := run.log + [Created(i, text, id)];
      var outcome := Waited(w.poll(id), 0, STEP_TIMEOUT);
      if !outcome.Finished? then Run(run.entries, log, Some(NotFinished(outcome)))
      else
        var entries := run.entries + [Entry.Complete(i, steps[i].name, id, outcome.result)];
        var seen := log + [SeenComplete(i, id, outcome.result)];
        if w.saves(i) then Run(entries, seen + [Saved(entries)], None) else Run(entries, seen, Some(NotSaved))
  }

  function RunSteps(w: World, steps: seq<Step>, input: string, k: nat): Run
    requires k <= |steps|
  {
    if k == 0 then Run([], [], None)
    else
      var run := RunSteps(w, steps, input, k - 1);
      if run.error.Some? then run else RunStep(w, steps, input, run, k - 1)
  }

  // finalize_pipeline_run, after the last step or in the handler of whatever was raised.
  function Finish(w: World, run: Run): Run {
    if run.error.None? && w.finalizes then run.(log := run.log + [Finalized(true, run.entries)])
    else
      var error := if run.error.Some? then run.error.value else NotFinalized;
      var entries := run.entries + [Entry.Failed(|run.entries|, error)];
      Run(entries, run.log + [Finalized(false, entries)], Some(error))
  }

  function Pipeline(w: World, steps: seq<Step>, input: string): Run {
    Finish(w, RunSteps(w, steps, input, |steps|))
  }

  method ExecutePipeline(w: World, steps: seq<Step>, input: string) returns (stepResults: seq<Entry>, log: seq<Action>)
    ensures var run := Pipeline(w, steps, input); stepResults == run.entries && log == run.log
  {
    stepResults, log := [], [];
    var error := None;
    var i := 0;
    while i < |steps| && error.None?
      invariant i <= |steps|
      invariant RunSteps(w, steps, input, i) == Run(stepResults, log, error)
      decreases |steps| - i, error.None?
    {
      hide Render, Waited, Results, RightOutcome, RunSteps;
      ghost var before := Run(stepResults, log, error);
      OneStepMore(w, steps, input, i);
      var taskText := Render(steps[i].taskText, input, Results(stepResults));
      var task := w.create(i, taskText);
      if task.None? {
        error := Some(NotCreated);
      } else {
        var id := task.value;
        log := log + [Created(i, taskText, id)];
        var completed := WaitForTask(w.poll(id), STEP_TIMEOUT);
        if !completed.Finished? {
          error := Some(NotFinished(completed));
        } else {
          stepResults := stepResults + [Entry.Complete(i, steps[i].name, id, completed.result)];
          log := log + [SeenComplete(i, id, completed.result)];
          if w.saves(i) {
            log := log + [Saved(stepResults)];
          } else {
            error := Some(NotSaved);
          }
        }
      }
      assert Run(stepResults, log, error) == RunStep(w, steps, input, before, i);
      hide RunStep;
      i := i + 1;
    }
    RunStaysStopped(w, steps, input, i, |steps|);
    if error.None? && w.finalizes {
      log := log + [Finalized(true, stepResults)];
    } else {
      error := if error.Some? then error else Some(NotFinalized);
      stepResults := stepResults + [Entry.Failed(|stepResults|, error.value)];
      log := log + [Finalized(false, stepResults)];
    }
  }

  lemma OneStepMore(w: World, steps: seq<Step>, input: string, i: nat)
    requires i < |steps| && RunSteps(w, steps, input, i).error.None?
    ensures RunSteps(w, steps, input, i + 1) == RunStep(w, steps, input, RunSteps(w, steps, input, i), i)
  {
  }

  lemma {:induction false} RunStaysStopped(w: World, steps: seq<Step>, input: string, i: nat, k: nat)
    requires i <= k <= |steps| && (i < k ==> RunSteps(w, steps, input, i).error.Some?)
    ensures RunSteps(w, steps, input, k) == RunSteps(w, steps, input, i)
  {
    hide RunStep;
    if i < k {
      RunStaysStopped(w, steps, input, i, k - 1);
    }
  }

  // ---------------------------------------------------------------- what a run did

  // Step i: created with the results of the steps before it, seen complete, saved.
  ghost predicate StepDone(w: World, steps: seq<Step>, input: string, run: Run, i: nat)
    requires i < |steps| && i < |run.entries|
  {
    var text, e := Render(steps[i].taskText, input, Results(run.entries[..i])), run.entries[i];
    && 3 * i + 1 < |run.log| && e.Complete? && e.step == i && e.name == steps[i].name
    && w.create(i, text) == Some(e.taskId) && SeenDone(w.poll(e.taskId), STEP_TIMEOUT, e.result)
    && run.log[3 * i] == Created(i, text, e.taskId)
    && run.log[3 * i + 1] == SeenComplete(i, e.taskId, e.result)
    && (3 * i + 2 < |run.log| ==> run.log[3 * i + 2] == Saved(run.entries[..i + 1]))
  }

  // What stops a step whose task was created.
  ghost predicate NotSeenDone(polls: nat -> Poll, outcome: Outcome) {
    match outcome
    case Finished(_) => false
    case Broken(poll) => SeenLost(polls, STEP_TIMEOUT, poll)
    case TimedOut => forall k: nat :: !FirstEnded(polls, STEP_TIMEOUT, k)
  }

  // What an error leaves behind.
  ghost predicate StoppedRight(w: World, steps: seq<Step>, input: string, run: Run) {
    var n := |run.entries|;
    match run.error
    case None => |run.log| == 3 * n
    case Some(NotCreated) =>
      |run.log| == 3 * n && n < |steps| && w.create(n, Render(steps[n].taskText, input, Results(run.entries))).None?
    case Some(NotFinished(outcome)) =>
      && |run.log| == 3 * n + 1 && n < |steps|
      && var text := Render(steps[n].taskText, input, Results(run.entries));
         exists id: nat :: run.log[3 * n] == Created(n, text, id) && w.create(n, text) == Some(id)
           && NotSeenDone(w.poll(id), outcome)
    case Some(NotSaved) => n > 0 && |run.log| == 3 * n - 1 && !w.saves(n - 1)
    case Some(NotFinalized) => false
  }

  ghost predicate Orderly(w: World, steps: seq<Step>, input: string, run: Run) {
    && |run.entries| <= |steps| && StoppedRight(w, steps, input, run)
    && forall i: nat :: i < |run.entries| ==> StepDone(w, steps, input, run, i)
  }

  lemma StepDoneStays(w: World, steps: seq<Step>, input: string, run: Run, run': Run, i: nat)
    requires i < |steps| && i < |run.entries| <= |run'.entries| && StepDone(w, steps, input, run, i)
    requires run.entries == run'.entries[..|run.entries|] && |run.log| <= |run'.log| && run.log == run'.log[..|run.log|]
    requires 3 * i + 2 < |run.log|
    ensures StepDone(w, steps, input, run', i)
  {
    hide Render, Results, SeenDone, SeenLost;
    assert run'.entries[..i] == run.entries[..i];
    assert run'.entries[..i + 1] == run.entries[..i + 1];
  }

  lemma RunStepOrderly(w: World, steps: seq<Step>, input: string, run: Run, k: nat)
    requires k < |steps| && Orderly(w, steps, input, run) && run.error.None? && |run.entries| == k
    ensures var next := RunStep(w, steps, input, run, k);
      Orderly(w, steps, input, next) && (next.error.None? ==> |next.entries| == k + 1)
  {
    var text := Render(steps[k].taskText, input, Results(run.entries));
    if w.create(k, text).Some? {
      WaitedMeaning(w.poll(w.create(k, text).value), STEP_TIMEOUT);
    }
    hide Render, Results, Waited, SeenDone, SeenLost, FirstEnded;
    var next := RunStep(w, steps, input, run, k);
    forall i: nat | i < |next.entries|
      ensures StepDone(w, steps, input, next, i)
    {
      if i < k {
        StepDoneStays(w, steps, input, run, next, i);
      } else {
        assert next.entries[..k] == run.entries;
        assert next.entries[..k + 1] == next.entries;
      }
    }
  }

  /** Whatever tasks do and wherever a run stops, it did exactly this: for each step in turn create its task,
      from the results of all earlier steps, see it complete, save. */
  lemma {:induction false} StepsRunInOrder(w: World, steps: seq<Step>, input: string, k: nat)
    requires k <= |steps|
    ensures var run := RunSteps(w, steps, input, k);
      Orderly(w, steps, input, run) && (run.error.None? ==> |run.entries| == k)
  {
    hide RunStep, Orderly;
    if k == 0 {
      NothingRun(w, steps, input);
    } else {
      StepsRunInOrder(w, steps, input, k - 1);
      var run := RunSteps(w, steps, input, k - 1);
      if run.error.None? {
        RunStepOrderly(w, steps, input, run, k - 1);
      }
    }
  }

  // Before position p of the log, step j was seen complete with the result in its entry.
  ghost predicate SeenBefore(w: World, run: Run, p: nat, j: nat) {
    && j < |run.entries| && run.entries[j].Complete? && 3 * j + 1 < p <= |run.log|
    && run.log[3 * j + 1] == SeenComplete(j, run.entries[j].taskId, run.entries[j].result)
    && SeenDone(w.poll(run.entries[j].taskId), STEP_TIMEOUT, run.entries[j].result)
  }

  lemma CreatedAt(w: World, steps: seq<Step>, input: string, run: Run, p: nat)
    requires Orderly(w, steps, input, run) && p < |run.log| && run.log[p].Created?
    ensures var i := run.log[p].step;
      && p == 3 * i && i <= |run.entries| && i < |steps|
      && run.log[p].text == Render(steps[i].taskText, input, Results(run.entries[..i]))
  {
    hide Render, Results, SeenDone, SeenLost;
    if p / 3 < |run.entries| {
      assert StepDone(w, steps, input, run, p / 3);
    } else {
      assert run.entries[..|run.entries|] == run.entries;
    }
  }

  lemma ResultCount(entries: seq<Entry>)
    ensures |Results(entries)| == |entries|
  {
  }

  lemma ResultAt(entries: seq<Entry>, j: nat)
    requires j < |entries| && entries[j].Complete?
    ensures |Results(entries)| == |entries| && Results(entries)[j] == entries[j].result
  {
  }

  /** Step i is created only after steps 0 to i - 1 were seen complete, and from their results. */
  lemma CreatedOnlyAfterEarlierSteps(w: World, steps: seq<Step>, input: string, p: nat)
    requires var log := RunSteps(w, steps, input, |steps|).log; p < |log| && log[p].Created?
    ensures var run := RunSteps(w, steps, input, |steps|);
      var i := run.log[p].step;
      && i <= |run.entries| && i < |steps|
      && var results := Results(run.entries[..i]);
      && run.log[p].text == Render(steps[i].taskText, input, results) && |results| == i
      && forall j: nat :: j < i ==> SeenBefore(w, run, p, j) && results[j] == run.entries[j].result
  {
    StepsRunInOrder(w, steps, input, |steps|);
    var run := RunSteps(w, steps, input, |steps|);
    hide RunSteps, Render, Results, SeenDone, SeenLost;
    CreatedAt(w, steps, input, run, p);
    forall j: nat | j < run.log[p].step
      ensures SeenBefore(w, run, p, j)
      ensures |Results(run.entries[..run.log[p].step])| == run.log[p].step
      ensures Results(run.entries[..run.log[p].step])[j] == run.entries[j].result
    {
      assert StepDone(w, steps, input, run, j);
      ResultAt(run.entries[..run.log[p].step], j);
    }
    ResultCount(run.entries[..run.log[p].step]);
  }

  lemma NothingRun(w: World, steps: seq<Step>, input: string)
    ensures Orderly(w, steps, input, Run([], [], None))
  {
  }

  lemma NoneFinalized(w: World, steps: seq<Step>, input: string, run: Run)
    requires Orderly(w, steps, input, run)
    ensures forall p :: 0 <= p < |run.log| ==> !run.log[p].Finalized?
  {
    hide Render, Results, SeenDone, SeenLost;
    forall p | 0 <= p < |run.log|
      ensures !run.log[p].Finalized?
    {
      if p / 3 < |run.entries| {
        assert StepDone(w, steps, input, run, p / 3);
      }
    }
  }

  /** The final results are the steps whose tasks were seen complete, a prefix of all steps in order, and after
      them at most one failed entry, numbered as the next; they are what the run is finalized with, and it is
      finalized a success exactly when every step is there and none failed. */
  lemma FinalResults(w: World, steps: seq<Step>, input: string)
    ensures var run := Pipeline(w, steps, input);
      var n := if run.error.None? then |run.entries| else |run.entries| - 1;
      && 0 <= n <= |steps| && (run.error.None? ==> n == |steps|)
      && (forall i :: 0 <= i < n ==>
            && run.entries[i].Complete? && run.entries[i].step == i && run.entries[i].name == steps[i].name
            && SeenDone(w.poll(run.entries[i].taskId), STEP_TIMEOUT, run.entries[i].result))
      && (run.error.Some? ==> run.entries[n] == Entry.Failed(n, run.error.value))
      && run.log != [] && run.log[|run.log| - 1] == Finalized(run.error.None?, run.entries)
      && (forall p :: 0 <= p < |run.log| - 1 ==> !run.log[p].Finalized?)
  {
    StepsRunInOrder(w, steps, input, |steps|);
    var before := RunSteps(w, steps, input, |steps|);
    hide RunSteps, Render, Results, SeenDone, SeenLost;
    NoneFinalized(w, steps, input, before);
    forall i: nat | i < |before.entries|
      ensures var e := before.entries[i];
        && e.Complete? && e.step == i && e.name == steps[i].name
        && SeenDone(w.poll(e.taskId), STEP_TIMEOUT, e.result)
    {
      assert StepDone(w, steps, input, before, i);
    }
  }
}
