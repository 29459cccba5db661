/** Runs of the base, researcher and orchestrator graphs. Model replies, tool results, verifier
    verdicts and errors are an arbitrary sequence of replies, one per node visit. */
module AgentRuns {
  import opened Wrappers
  import opened Safeguards
  import TG = ToolGate

  datatype Graph = Base | Researcher | Orchestrator
  datatype Node = Agent | Tools | Verify | HitlGate | Finalize | Done

  // What the last message of the state is, as far as the routes look.
  datatype Last = Ai(wantsTools: bool, saysDone: bool) | HumanText | ToolResult

  datatype Run = Run(node: Node, g: Guarded, last: Last, verifyRounds: nat)

  // Where the agent raised an exception: before the tokens of its model call were counted, in the metrics and
  // logging right after, or later still.
  datatype Stage = Calling | Logging | Later

  // What one visit meets; each kind of node looks at its own fields. wantsTools and usage belong to the first
  // reply of the visit's model; nothing counts the tokens of a second one.
  datatype Reply = Reply(
    failed: Option<Stage>, usage: Option<nat>, wantsTools: bool, saysDone: bool, update: TG.Update, refine: bool)

  const MAX_VERIFY_ROUNDS := 1

  // ---------------------------------------------------------------- nodes

  // The tokens that a visit to the agent counts.
  function Counted(reply: Reply): Option<nat> {
    if reply.failed == Some(Calling) then None else reply.usage
  }

  function Spend(cfg: Config, g: Guarded, usage: Option<nat>): Guarded {
    match usage case None => g case Some(n) => SpendTokens(cfg, g, n)
  }

  // On step 1 the researcher and the orchestrator answer a reply without a tool call by a second model call
  // in the same visit, whatever the first one has spent.
  predicate Retries(graph: Graph, r: Run, reply: Reply) {
    && graph != Base && r.node.Agent? && !r.g.forceEnd && r.g.stepCount == 0
    && !reply.wantsTools && reply.failed != Some(Calling) && reply.failed != Some(Logging)
  }

  // After the logging only the retry can raise, and in the researcher the collection of sources.
  predicate Raises(graph: Graph, r: Run, reply: Reply) {
    reply.failed.Some? && (reply.failed == Some(Later) ==> graph == Researcher || Retries(graph, r, reply))
  }

  // On step 1 the researcher and the orchestrator always end up with a tool call. On an exception
  // record_error overwrites force_end, and the orchestrator appends no message.
  function VisitAgent(cfg: Config, graph: Graph, r: Run, reply: Reply): Run {
    var g := IncrementStep(r.g);
    if r.g.forceEnd then r.(g := g)
    else if Raises(graph, r, reply) then
      r.(g := RecordError(cfg, Spend(cfg, g, Counted(reply))),
         last := if graph == Orchestrator then r.last else Ai(false, reply.saysDone))
    else
      r.(g := Spend(cfg, g, Counted(reply)),
         last := Ai(reply.wantsTools || (graph != Base && g.stepCount <= 1), reply.saysDone))
  }

  function VisitTools(r: Run, u: TG.Update): Run {
    r.(last := if u.messages.Some? && u.messages.value != [] then ToolResult else r.last,
       g := r.g.(
         forceEnd := if u.forceEnd.Some? then u.forceEnd.value else r.g.forceEnd,
         loopDetected := if u.loopDetected.Some? then u.loopDetected.value else r.g.loopDetected,
         actionHistory := if u.actionHistory.Some? then u.actionHistory.value else r.g.actionHistory,
         hitlPending := u.hitlPending || r.g.hitlPending))
  }

  // Empty answers, missing tasks, verifier errors and a passed check all leave the state alone.
  function VisitVerify(r: Run, refine: bool): Run {
    if r.verifyRounds < MAX_VERIFY_ROUNDS && refine
    then r.(last := HumanText, verifyRounds := r.verifyRounds + 1)
    else r
  }

  // ---------------------------------------------------------------- routes

  function RouteAfterAgent(cfg: Config, graph: Graph, r: Run): Node {
    var check := CheckSafeguards(cfg, r.g);
    match graph
    case Base =>
      if check == Hitl then HitlGate
      else if check == End || (r.last.Ai? && r.last.saysDone) then Finalize
      else Agent
    case Researcher => if check != End && r.last.Ai? && r.last.wantsTools then Tools else Finalize
    case Orchestrator =>
      if check == End then Finalize else if r.last.Ai? && r.last.wantsTools then Tools else Verify
  }

  function RouteAfterVerify(r: Run): Node {
    if r.last.HumanText? && r.verifyRounds > 0 then Agent else Finalize
  }

  // One node visit and the edge taken after it.
  function Visit(cfg: Config, graph: Graph, r: Run, reply: Reply): Run {
    match r.node
    case Agent =>
      var r' := VisitAgent(cfg, graph, r, reply);
      r'.(node := RouteAfterAgent(cfg, graph, r'))
    case Tools => VisitTools(r, reply.update).(node := Agent)
    case Verify =>
      var r' := VisitVerify(r, reply.refine);
      r'.(node := RouteAfterVerify(r'))
    case HitlGate => r.(node := Done)
    case Finalize => r.(node := Done)
    case Done => r
  }

  // The state before visit n of a run.
  function At(cfg: Config, graph: Graph, r0: Run, replies: nat -> Reply, n: nat): Run {
    if n == 0 then r0 else Visit(cfg, graph, At(cfg, graph, r0, replies, n - 1), replies(n - 1))
  }

  predicate Initial(r: Run) {
    && r.node == Agent && r.last == HumanText && r.verifyRounds == 0
    && r.g.stepCount == r.g.errorCount == r.g.tokenCount == 0
    && !r.g.loopDetected && !r.g.forceEnd && !r.g.hitlPending && r.g.actionHistory == []
  }

  // ---------------------------------------------------------------- where a visit leads

  // After this visit to the agent a safeguard ends the run.
  predicate Over(cfg: Config, graph: Graph, r: Run, reply: Reply) {
    || r.g.forceEnd || r.g.loopDetected || r.g.stepCount + 1 >= r.g.maxSteps
    || if Raises(graph, r, reply) then r.g.errorCount + 1 >= cfg.maxErrors
       else
         || r.g.errorCount >= cfg.maxErrors
         || (Counted(reply).Some? && r.g.tokenCount + Counted(reply).value >= cfg.budget)
  }

  // The visit ends with a tool call as the last message.
  predicate AsksForTool(graph: Graph, r: Run, reply: Reply) {
    if Raises(graph, r, reply) then graph == Orchestrator && r.last.Ai? && r.last.wantsTools
    else reply.wantsTools || (graph != Base && r.g.stepCount == 0)
  }

  /** Who can raise at which stage: anyone up to the logging; later only the researcher, and the orchestrator in its
      retry, which follows a first reply without a tool call. */
  lemma WhoRaises(graph: Graph, r: Run, reply: Reply)
    requires r.node.Agent? && !r.g.forceEnd
    ensures Raises(graph, r, reply) <==>
      || reply.failed == Some(Calling) || reply.failed == Some(Logging)
      || (reply.failed == Some(Later)
          && (graph.Researcher? || (graph.Orchestrator? && r.g.stepCount == 0 && !reply.wantsTools)))
    ensures Retries(graph, r, reply) <==>
      && graph != Base && r.g.stepCount == 0 && !reply.wantsTools
      && (reply.failed.None? || reply.failed == Some(Later))
  {
    if reply.failed.Some? {
      match reply.failed.value
      case Calling =>
      case Logging =>
      case Later =>
    }
  }

  /** Exactly where each visit to the agent leads, from the safeguards and the reply. */
  lemma AgentLeadsTo(cfg: Config, graph: Graph, r: Run, reply: Reply)
    requires r.node.Agent?
    ensures var next, over := Visit(cfg, graph, r, reply).node, Over(cfg, graph, r, reply);
      match graph
      case Base =>
        && (next.Finalize? <==> over || (!r.g.hitlPending && reply.saysDone))
        && (next.HitlGate? <==> !over && r.g.hitlPending)
        && (next.Agent? <==> !over && !r.g.hitlPending && !reply.saysDone)
      case Researcher =>
        && (next.Tools? <==> !over && AsksForTool(graph, r, reply)) && (next.Finalize? <==> !next.Tools?)
      case Orchestrator =>
        && (next.Finalize? <==> over)
        && (next.Tools? <==> !over && AsksForTool(graph, r, reply))
        && (next.Verify? <==> !over && !AsksForTool(graph, r, reply))
  {
  }

  /** Exactly where every other visit leads. */
  lemma OthersLeadTo(cfg: Config, graph: Graph, r: Run, reply: Reply)
    requires !r.node.Agent?
    ensures var next := Visit(cfg, graph, r, reply).node;
      match r.node
      case Tools => next.Agent?
      case Verify =>
        && (next.Agent? <==> (reply.refine && r.verifyRounds < MAX_VERIFY_ROUNDS)
                             || (r.last.HumanText? && r.verifyRounds > 0))
        && (next.Finalize? <==> !next.Agent?)
      case _ => next.Done?
  {
  }

  /** What a visit to the agent counts and leaves alone. */
  lemma AgentCounts(cfg: Config, graph: Graph, r: Run, reply: Reply)
    requires r.node.Agent?
    ensures var g, g', raised := r.g, Visit(cfg, graph, r, reply).g, !r.g.forceEnd && Raises(graph, r, reply);
      && g'.stepCount == g.stepCount + 1 && g'.errorCount == g.errorCount + (if raised then 1 else 0)
      && g'.tokenCount == g.tokenCount
           + (if !g.forceEnd && reply.usage.Some? && reply.failed != Some(Calling) then reply.usage.value else 0)
      && g'.maxSteps == g.maxSteps && g'.loopDetected == g.loopDetected && g'.hitlPending == g.hitlPending
      && g'.actionHistory == g.actionHistory
    ensures Visit(cfg, graph, r, reply).verifyRounds == r.verifyRounds
  {
  }

  /** What a visit to the tools takes over from the node's update and leaves alone. */
  lemma ToolsMerge(cfg: Config, graph: Graph, r: Run, reply: Reply)
    requires r.node.Tools?
    ensures var g, r', u := r.g, Visit(cfg, graph, r, reply), reply.update;
      && r'.g.stepCount == g.stepCount && r'.g.errorCount == g.errorCount && r'.g.tokenCount == g.tokenCount
      && r'.g.maxSteps == g.maxSteps && r'.verifyRounds == r.verifyRounds
      && (u.forceEnd.Some? ==> r'.g.forceEnd == u.forceEnd.value)
      && (u.loopDetected.Some? ==> r'.g.loopDetected == u.loopDetected.value)
      && (u.actionHistory.Some? ==> r'.g.actionHistory == u.actionHistory.value)
      && (u.forceEnd.None? ==> r'.g.forceEnd == g.forceEnd)
      && (u.loopDetected.None? ==> r'.g.loopDetected == g.loopDetected)
      && (u.actionHistory.None? ==> r'.g.actionHistory == g.actionHistory)
      && (r'.g.hitlPending <==> g.hitlPending || u.hitlPending)
      && (r'.last == if u.messages.None? || u.messages.value == [] then r.last else ToolResult)
  {
  }

  // A reply that asks for a tool, and an update that stops nothing.
  predicate GoesOn(reply: Reply) {
    && reply.wantsTools && reply.failed.None?
    && reply.update.forceEnd != Some(true) && reply.update.loopDetected != Some(true)
  }

  /** A model that always asks for tools gets them: in the researcher and the orchestrator each visit to the agent
      below the step limit is followed by one to the tools, as long as the budget is not used up. */
  lemma {:induction false} ToolsUntilStepLimit(cfg: Config, graph: Graph, r0: Run, replies: nat -> Reply, k: nat)
    requires graph != Base && Initial(r0) && cfg.maxErrors > 0 && k + 1 < r0.g.maxSteps
    requires forall i: nat :: i <= 2 * k ==> GoesOn(replies(i))
    requires At(cfg, graph, r0, replies, 2 * k + 1).g.tokenCount < cfg.budget
    ensures var r := At(cfg, graph, r0, replies, 2 * k); r.node.Agent? && r.g.stepCount == k
    ensures var r, g := At(cfg, graph, r0, replies, 2 * k + 1), At(cfg, graph, r0, replies, 2 * k + 1).g;
      && r.node.Tools? && g.stepCount == k + 1 && g.maxSteps == r0.g.maxSteps
      && g.errorCount == 0 && !g.forceEnd && !g.loopDetected
  {
    hide Visit, GoesOn;
    if k > 0 {
      TokensNeverShrink(cfg, graph, r0, replies, 2 * k - 1, 2 * k + 1);
      ToolsUntilStepLimit(cfg, graph, r0, replies, k - 1);
      AfterVisit(cfg, graph, r0, replies, 2 * k - 1);
      ToolsGoOn(cfg, graph, At(cfg, graph, r0, replies, 2 * k - 1), replies(2 * k - 1));
    }
    AfterVisit(cfg, graph, r0, replies, 2 * k);
    AgentGoesOn(cfg, graph, At(cfg, graph, r0, replies, 2 * k), replies(2 * k));
  }

  lemma ToolsGoOn(cfg: Config, graph: Graph, r: Run, reply: Reply)
    requires r.node.Tools? && GoesOn(reply) && !r.g.forceEnd && !r.g.loopDetected
    ensures var r' := Visit(cfg, graph, r, reply);
      && r'.node.Agent? && !r'.g.forceEnd && !r'.g.loopDetected && r'.g.stepCount == r.g.stepCount
      && r'.g.errorCount == r.g.errorCount && r'.g.maxSteps == r.g.maxSteps
  {
  }

  lemma AgentGoesOn(cfg: Config, graph: Graph, r: Run, reply: Reply)
    requires graph != Base && r.node.Agent? && GoesOn(reply) && !r.g.forceEnd && !r.g.loopDetected
    requires r.g.stepCount + 1 < r.g.maxSteps && r.g.errorCount < cfg.maxErrors
    requires Visit(cfg, graph, r, reply).g.tokenCount < cfg.budget
    ensures var r' := Visit(cfg, graph, r, reply);
      && r'.node.Tools? && !r'.g.forceEnd && !r'.g.loopDetected && r'.g.stepCount == r.g.stepCount + 1
      && r'.g.errorCount == r.g.errorCount && r'.g.maxSteps == r.g.maxSteps
  {
  }

  // How many of the first n visits raised.
  function Raised(cfg: Config, graph: Graph, r0: Run, replies: nat -> Reply, n: nat): nat {
    if n == 0 then 0
    else
      var r := At(cfg, graph, r0, replies, n - 1);
      Raised(cfg, graph, r0, replies, n - 1)
      + if r.node.Agent? && !r.g.forceEnd && Raises(graph, r, replies(n - 1)) then 1 else 0
  }

  lemma ErrorStep(cfg: Config, graph: Graph, r: Run, reply: Reply)
    ensures var r' := Visit(cfg, graph, r, reply);
      r'.g.errorCount
        == r.g.errorCount + if r.node.Agent? && !r.g.forceEnd && Raises(graph, r, reply) then 1 else 0
    ensures (Quiet(r) || r.g.errorCount < cfg.maxErrors) ==>
      var r' := Visit(cfg, graph, r, reply);
      Quiet(r') || r'.g.errorCount < cfg.maxErrors
  {
  }

  /** The error limit holds: error_count is the number of visits that raised, and no visit calls a model or a
      tool once it has reached the limit. */
  lemma {:induction false} ErrorsEndTheRun(cfg: Config, graph: Graph, r0: Run, replies: nat -> Reply, n: nat)
    requires Initial(r0) && cfg.maxErrors > 0
    ensures At(cfg, graph, r0, replies, n).g.errorCount == Raised(cfg, graph, r0, replies, n)
    ensures var r := At(cfg, graph, r0, replies, n);
      CallsModel(r) || r.node.Tools? ==> Raised(cfg, graph, r0, replies, n) < cfg.maxErrors
  {
    ErrorsCounted(cfg, graph, r0, replies, n);
  }

  lemma {:induction false} ErrorsCounted(cfg: Config, graph: Graph, r0: Run, replies: nat -> Reply, n: nat)
    requires Initial(r0) && cfg.maxErrors > 0
    ensures var r := At(cfg, graph, r0, replies, n);
      && r.g.errorCount == Raised(cfg, graph, r0, replies, n)
      && (Quiet(r) || r.g.errorCount < cfg.maxErrors)
  {
    hide Visit, Quiet, Raises;
    if n > 0 {
      ErrorsCounted(cfg, graph, r0, replies, n - 1);
      ErrorStep(cfg, graph, At(cfg, graph, r0, replies, n - 1), replies(n - 1));
    }
  }

  // ---------------------------------------------------------------- termination

  function Remaining(r: Run): nat {
    if r.g.stepCount < r.g.maxSteps then r.g.maxSteps - r.g.stepCount else 0
  }

  // Remaining steps first, then the rank of the node.
  function Measure(r: Run): nat {
    match r.node
    case Done => 0
    case HitlGate => 1
    case Finalize => 1
    case Agent => 2 * Remaining(r) + 2
    case Tools => 2 * Remaining(r) + 3
    case Verify => 2 * Remaining(r) + 3
  }

  lemma MeasureFalls(cfg: Config, graph: Graph, r: Run, reply: Reply)
    ensures Measure(r) > 0 ==> Measure(Visit(cfg, graph, r, reply)) < Measure(r)
    ensures Measure(r) == 0 ==> Measure(Visit(cfg, graph, r, reply)) == 0
  {
  }

  lemma OnlyDoneIsZero(r: Run)
    ensures Measure(r) == 0 <==> r.node.Done?
  {
  }

  /** Every run of every graph ends, whatever the model, the tools and the verifier do. */
  lemma {:induction false} EveryRunEnds(cfg: Config, graph: Graph, r0: Run, replies: nat -> Reply, n: nat)
    ensures var left := Measure(r0) - n; Measure(At(cfg, graph, r0, replies, n)) <= if left < 0 then 0 else left
    ensures n >= Measure(r0) ==> At(cfg, graph, r0, replies, n).node.Done?
  {
    hide Visit, Measure;
    if n > 0 {
      EveryRunEnds(cfg, graph, r0, replies, n - 1);
      MeasureFalls(cfg, graph, At(cfg, graph, r0, replies, n - 1), replies(n - 1));
    }
    OnlyDoneIsZero(At(cfg, graph, r0, replies, n));
  }

  function AgentVisits(cfg: Config, graph: Graph, r0: Run, replies: nat -> Reply, n: nat): nat {
    if n == 0 then 0
    else AgentVisits(cfg, graph, r0, replies, n - 1)
         + if At(cfg, graph, r0, replies, n - 1).node.Agent? then 1 else 0
  }

  // Agent visits still possible.
  function VisitsLeft(r: Run): nat {
    if r.node.Agent? || r.node.Tools? || r.node.Verify? then (if Remaining(r) > 1 then Remaining(r) else 1) else 0
  }

  lemma {:induction false} VisitsAddUp(cfg: Config, graph: Graph, r0: Run, replies: nat -> Reply, n: nat)
    ensures AgentVisits(cfg, graph, r0, replies, n) + VisitsLeft(At(cfg, graph, r0, replies, n)) <= VisitsLeft(r0)
  {
    if n > 0 {
      VisitsAddUp(cfg, graph, r0, replies, n - 1);
    }
  }

  /** A fresh run visits its agent at most max_steps times (once, if that is not positive), is over after
      2 * max_steps + 2 visits in all, and never asks for more than MAX_VERIFY_ROUNDS refinements. */
  lemma {:induction false} FreshRunIsBounded(cfg: Config, graph: Graph, r0: Run, replies: nat -> Reply, n: nat)
    requires Initial(r0)
    ensures AgentVisits(cfg, graph, r0, replies, n) <= if r0.g.maxSteps > 1 then r0.g.maxSteps else 1
    ensures r0.g.maxSteps >= 0 && n >= 2 * r0.g.maxSteps + 2 ==> At(cfg, graph, r0, replies, n).node.Done?
    ensures At(cfg, graph, r0, replies, n).verifyRounds <= MAX_VERIFY_ROUNDS
  {
    VisitsAddUp(cfg, graph, r0, replies, n);
    EveryRunEnds(cfg, graph, r0, replies, n);
    RoundsCapped(cfg, graph, r0, replies, n);
  }

  lemma {:induction false} RoundsCapped(cfg: Config, graph: Graph, r0: Run, replies: nat -> Reply, n: nat)
    requires r0.verifyRounds <= MAX_VERIFY_ROUNDS
    ensures At(cfg, graph, r0, replies, n).verifyRounds <= MAX_VERIFY_ROUNDS
  {
    if n > 0 {
      RoundsCapped(cfg, graph, r0, replies, n - 1);
    }
  }

  // ---------------------------------------------------------------- forced end

  // The next visit may call a model (the agent's or the verifier's).
  predicate CallsModel(r: Run) {
    (r.node.Agent? && !r.g.forceEnd) || (r.node.Verify? && r.verifyRounds < MAX_VERIFY_ROUNDS)
  }

  predicate Quiet(r: Run) {
    (r.node.Agent? && r.g.forceEnd) || r.node.Finalize? || r.node.HitlGate? || r.node.Done?
  }

  lemma QuietStays(cfg: Config, graph: Graph, r: Run, reply: Reply)
    requires Quiet(r) || (r.node.Tools? && reply.update.forceEnd == Some(true))
    ensures Quiet(Visit(cfg, graph, r, reply))
  {
  }

  lemma {:induction false} QuietAfter(cfg: Config, graph: Graph, r0: Run, replies: nat -> Reply, n: nat, m: nat)
    requires At(cfg, graph, r0, replies, n).node.Tools? && replies(n).update.forceEnd == Some(true) && n < m
    ensures Quiet(At(cfg, graph, r0, replies, m))
  {
    hide Visit, Quiet;
    if n + 1 < m {
      QuietAfter(cfg, graph, r0, replies, n, m - 1);
    }
    QuietStays(cfg, graph, At(cfg, graph, r0, replies, m - 1), replies(m - 1));
  }

  /** Once the tool node returns force_end, no later visit calls a model or executes a tool. */
  lemma {:induction false} ForcedEndIsFinal(cfg: Config, graph: Graph, r0: Run, replies: nat -> Reply, n: nat, m: nat)
    requires At(cfg, graph, r0, replies, n).node.Tools? && replies(n).update.forceEnd == Some(true) && n < m
    ensures !CallsModel(At(cfg, graph, r0, replies, m)) && !At(cfg, graph, r0, replies, m).node.Tools?
  {
    QuietAfter(cfg, graph, r0, replies, n, m);
  }

  /** From gate to graph: a batch in which any gate halts a call other than for operator approval, or a result
      stops the run, is the last thing the run does with a model or a tool. */
  lemma {:induction false} HaltedBatchEndsRun(cfg: Config, graph: Graph, r0: Run, replies: nat -> Reply, n: nat, m: nat,
                                              w: TG.World, b: TG.Batch)
    requires TG.Stopped(w, b) && replies(n).update == TG.NodeUpdate(w, b)
    requires At(cfg, graph, r0, replies, n).node.Tools? && n < m
    ensures !CallsModel(At(cfg, graph, r0, replies, m)) && !At(cfg, graph, r0, replies, m).node.Tools?
  {
    TG.ForceEndMeaning(w, b);
    ForcedEndIsFinal(cfg, graph, r0, replies, n, m);
  }

  // ---------------------------------------------------------------- token budget

  // A visit that uses up the budget and then raises: record_error takes the budget's force_end back.
  predicate PaysThenRaises(cfg: Config, graph: Graph, r: Run, reply: Reply) {
    && r.node.Agent? && !r.g.forceEnd && Raises(graph, r, reply) && Counted(reply).Some?
    && r.g.tokenCount + Counted(reply).value >= cfg.budget
  }

  ghost predicate NonePaysThenRaises(cfg: Config, graph: Graph, r0: Run, replies: nat -> Reply, n: nat) {
    forall k: nat {:trigger PaysThenRaises(cfg, graph, At(cfg, graph, r0, replies, k), replies(k))} ::
      k < n ==> !PaysThenRaises(cfg, graph, At(cfg, graph, r0, replies, k), replies(k))
  }

  predicate WithinBudget(cfg: Config, r: Run) {
    match r.node
    case Agent => r.g.forceEnd || r.g.tokenCount < cfg.budget
    case Tools => r.g.tokenCount < cfg.budget
    case Verify => r.g.tokenCount < cfg.budget
    case _ => true
  }

  lemma WithinBudgetStep(cfg: Config, graph: Graph, r: Run, reply: Reply)
    requires WithinBudget(cfg, r) && (graph == Researcher || !PaysThenRaises(cfg, graph, r, reply))
    ensures WithinBudget(cfg, Visit(cfg, graph, r, reply))
  {
  }

  lemma {:induction false} BudgetHolds(cfg: Config, graph: Graph, r0: Run, replies: nat -> Reply, n: nat)
    requires Initial(r0) && cfg.budget > 0
    requires graph == Researcher || NonePaysThenRaises(cfg, graph, r0, replies, n)
    ensures WithinBudget(cfg, At(cfg, graph, r0, replies, n))
  {
    hide Visit;
    if n > 0 {
      BudgetHolds(cfg, graph, r0, replies, n - 1);
      WithinBudgetStep(cfg, graph, At(cfg, graph, r0, replies, n - 1), replies(n - 1));
    }
  }

  function Tokens(reply: Reply): nat {
    match Counted(reply) case None => 0 case Some(n) => n
  }

  lemma VisitSpends(cfg: Config, graph: Graph, r: Run, reply: Reply)
    ensures var r' := Visit(cfg, graph, r, reply);
      if r.node.Agent? && !r.g.forceEnd then r'.g.tokenCount == r.g.tokenCount + Tokens(reply)
      else r'.g.tokenCount == r.g.tokenCount
  {
  }

  lemma {:induction false} TokensNeverShrink(cfg: Config, graph: Graph, r0: Run, replies: nat -> Reply, k: nat, n: nat)
    requires k <= n
    ensures At(cfg, graph, r0, replies, k).g.tokenCount <= At(cfg, graph, r0, replies, n).g.tokenCount
  {
    hide Visit;
    if k < n {
      TokensNeverShrink(cfg, graph, r0, replies, k, n - 1);
      VisitSpends(cfg, graph, At(cfg, graph, r0, replies, n - 1), replies(n - 1));
    }
  }

  lemma AfterVisit(cfg: Config, graph: Graph, r0: Run, replies: nat -> Reply, n: nat)
    ensures At(cfg, graph, r0, replies, n + 1) == Visit(cfg, graph, At(cfg, graph, r0, replies, n), replies(n))
  {
  }

  lemma PaidStaysOver(cfg: Config, graph: Graph, r0: Run, replies: nat -> Reply, k: nat, n: nat)
    requires k < n && PaysThenRaises(cfg, graph, At(cfg, graph, r0, replies, k), replies(k))
    ensures At(cfg, graph, r0, replies, n).g.tokenCount >= cfg.budget
  {
    hide At, Visit;
    AfterVisit(cfg, graph, r0, replies, k);
    VisitSpends(cfg, graph, At(cfg, graph, r0, replies, k), replies(k));
    TokensNeverShrink(cfg, graph, r0, replies, k + 1, n);
  }

  /** In every graph, the first model call of a visit starts below the token budget if and only if no earlier
      visit used the budget up and then raised. */
  lemma {:induction false} FirstCallsStartBelowBudget(cfg: Config, graph: Graph, r0: Run, replies: nat -> Reply, n: nat)
    requires Initial(r0) && cfg.budget > 0 && CallsModel(At(cfg, graph, r0, replies, n))
    ensures At(cfg, graph, r0, replies, n).g.tokenCount < cfg.budget
      <==> NonePaysThenRaises(cfg, graph, r0, replies, n)
  {
    hide At, Visit, PaysThenRaises;
    if NonePaysThenRaises(cfg, graph, r0, replies, n) {
      BudgetHolds(cfg, graph, r0, replies, n);
    } else {
      var k: nat :| k < n && PaysThenRaises(cfg, graph, At(cfg, graph, r0, replies, k), replies(k));
      PaidStaysOver(cfg, graph, r0, replies, k, n);
    }
  }

  // Every model call of the visit starts below the budget: the first one, and the retry after it.
  predicate CallsBelowBudget(cfg: Config, graph: Graph, r: Run, reply: Reply) {
    && (CallsModel(r) ==> r.g.tokenCount < cfg.budget)
    && (Retries(graph, r, reply) ==> r.g.tokenCount + Tokens(reply) < cfg.budget)
  }

  // The first reply of a fresh run uses the budget up and is retried.
  predicate RetriesOverBudget(cfg: Config, graph: Graph, r0: Run, reply: Reply) {
    Retries(graph, r0, reply) && Tokens(reply) >= cfg.budget
  }

  lemma {:induction false} StepsStart(cfg: Config, graph: Graph, r0: Run, replies: nat -> Reply, n: nat)
    requires r0.node.Agent?
    ensures n > 0 ==> At(cfg, graph, r0, replies, n).g.stepCount > 0
  {
    if n > 1 {
      StepsStart(cfg, graph, r0, replies, n - 1);
    }
    if n > 0 {
      AfterVisit(cfg, graph, r0, replies, n - 1);
    }
  }

  // Only the first visit of a run retries.
  lemma RetryIsFirst(cfg: Config, graph: Graph, r0: Run, replies: nat -> Reply, n: nat)
    requires Initial(r0) && Retries(graph, At(cfg, graph, r0, replies, n), replies(n))
    ensures n == 0
  {
    StepsStart(cfg, graph, r0, replies, n);
  }

  /** Exactly which calls start over budget, in every graph: the retry of a first reply that used the budget
      up, and the first call of a visit after one that used it up and then raised. */
  lemma {:induction false} ModelCallsStartBelowBudget(cfg: Config, graph: Graph, r0: Run, replies: nat -> Reply, n: nat)
    requires Initial(r0) && cfg.budget > 0
    ensures CallsBelowBudget(cfg, graph, At(cfg, graph, r0, replies, n), replies(n))
      <==> && (n == 0 ==> !RetriesOverBudget(cfg, graph, r0, replies(0)))
           && (CallsModel(At(cfg, graph, r0, replies, n)) ==> NonePaysThenRaises(cfg, graph, r0, replies, n))
  {
    hide Visit, PaysThenRaises, CallsModel, Retries, NonePaysThenRaises;
    if CallsModel(At(cfg, graph, r0, replies, n)) {
      FirstCallsStartBelowBudget(cfg, graph, r0, replies, n);
    }
    if Retries(graph, At(cfg, graph, r0, replies, n), replies(n)) {
      RetryIsFirst(cfg, graph, r0, replies, n);
    }
  }

  /** In the researcher every model call starts below the budget, the first of each visit and the retry, if and
      only if the first reply did not use the budget up or was not retried. */
  lemma {:induction false} ResearcherStaysInBudget(cfg: Config, r0: Run, replies: nat -> Reply, n: nat)
    requires Initial(r0) && cfg.budget > 0
    ensures CallsModel(At(cfg, Researcher, r0, replies, n))
      ==> At(cfg, Researcher, r0, replies, n).g.tokenCount < cfg.budget
    ensures CallsBelowBudget(cfg, Researcher, At(cfg, Researcher, r0, replies, n), replies(n))
      <==> (n == 0 ==> !RetriesOverBudget(cfg, Researcher, r0, replies(0)))
  {
    hide Visit, Retries, NonePaysThenRaises;
    BudgetHolds(cfg, Researcher, r0, replies, n);
    if Retries(Researcher, At(cfg, Researcher, r0, replies, n), replies(n)) {
      RetryIsFirst(cfg, Researcher, r0, replies, n);
    }
  }

  // The tokens of state n are those of an earlier, still affordable state k plus what visit k reported.
  predicate CrossedAt(cfg: Config, graph: Graph, r0: Run, replies: nat -> Reply, n: nat, k: nat) {
    var before := At(cfg, graph, r0, replies, k).g.tokenCount;
    before < cfg.budget && At(cfg, graph, r0, replies, n).g.tokenCount == before + Tokens(replies(k))
  }

  ghost predicate AtMostOneVisitOver(cfg: Config, graph: Graph, r0: Run, replies: nat -> Reply, n: nat) {
    At(cfg, graph, r0, replies, n).g.tokenCount < cfg.budget
    || exists k: nat :: k < n && CrossedAt(cfg, graph, r0, replies, n, k)
  }

  lemma OvershootStep(cfg: Config, graph: Graph, r0: Run, replies: nat -> Reply, n: nat)
    requires AtMostOneVisitOver(cfg, graph, r0, replies, n) && WithinBudget(cfg, At(cfg, graph, r0, replies, n))
    ensures AtMostOneVisitOver(cfg, graph, r0, replies, n + 1)
  {
    hide At, Visit;
    var before := At(cfg, graph, r0, replies, n);
    AfterVisit(cfg, graph, r0, replies, n);
    VisitSpends(cfg, graph, before, replies(n));
    if before.g.tokenCount < cfg.budget {
      assert At(cfg, graph, r0, replies, n + 1).g.tokenCount < cfg.budget
        || CrossedAt(cfg, graph, r0, replies, n + 1, n);
    } else {
      var k: nat :| k < n && CrossedAt(cfg, graph, r0, replies, n, k);
      assert CrossedAt(cfg, graph, r0, replies, n + 1, k);
    }
  }

  /** The overshoot of a run is at most what one visit reported: always in the researcher, and in the other
      graphs as long as no earlier visit used the budget up and then raised. */
  lemma {:induction false} OvershootIsOneVisit(cfg: Config, graph: Graph, r0: Run, replies: nat -> Reply, n: nat)
    requires Initial(r0) && cfg.budget > 0
    requires graph == Researcher || (n > 0 ==> NonePaysThenRaises(cfg, graph, r0, replies, n - 1))
    ensures AtMostOneVisitOver(cfg, graph, r0, replies, n)
  {
    if n == 0 {
      assert At(cfg, graph, r0, replies, 0) == r0;
    } else {
      hide At, PaysThenRaises, AtMostOneVisitOver;
      OvershootIsOneVisit(cfg, graph, r0, replies, n - 1);
      BudgetHolds(cfg, graph, r0, replies, n - 1);
      OvershootStep(cfg, graph, r0, replies, n - 1);
    }
  }

  /** A first reply that uses the budget up and asks for no tool is retried over budget, and for nothing: unless
      the retry raises, the run goes on to its end without the tool that the retry asks for. */
  lemma RetryBudgetCounterexample(cfg: Config, graph: Graph, r0: Run, reply: Reply)
    requires Initial(r0) && graph != Base
    requires reply.failed == None && !reply.wantsTools && reply.usage.Some? && reply.usage.value >= cfg.budget
    ensures RetriesOverBudget(cfg, graph, r0, reply) && !CallsBelowBudget(cfg, graph, r0, reply)
    ensures Visit(cfg, graph, r0, reply).last.wantsTools && Visit(cfg, graph, r0, reply).node == Finalize
  {
  }

  /** In the orchestrator a first visit that uses the budget up and then raises, as when its retry fails, is
      followed over budget by the verifier's call and, if that asks for a refinement, by the agent's. */
  lemma OrchestratorBudgetCounterexample(cfg: Config, r0: Run, replies: nat -> Reply)
    requires Initial(r0) && r0.g.maxSteps >= 2 && cfg.maxErrors >= 2
    requires PaysThenRaises(cfg, Orchestrator, r0, replies(0))
    ensures var r := At(cfg, Orchestrator, r0, replies, 1);
      r.node.Verify? && CallsModel(r) && r.g.tokenCount >= cfg.budget
    ensures replies(1).refine ==>
      var r := At(cfg, Orchestrator, r0, replies, 2); r.node.Agent? && CallsModel(r) && r.g.tokenCount >= cfg.budget
  {
    var first := At(cfg, Orchestrator, r0, replies, 1);
    assert first == Visit(cfg, Orchestrator, At(cfg, Orchestrator, r0, replies, 0), replies(0));
    assert first.node.Verify?;
  }

  lemma OnlyLoggingRaises(cfg: Config, r: Run, reply: Reply)
    requires PaysThenRaises(cfg, Base, r, reply)
    ensures reply.failed == Some(Logging)
  {
    match reply.failed.value
    case Calling =>
    case Logging =>
    case Later =>
  }

  /** In the base graph only the metrics and the logging follow the count. When they raise on a first reply that
      used the budget up, the text of the error leads back to the agent, and its next call starts over budget. */
  lemma BaseBudgetCounterexample(cfg: Config, r0: Run, replies: nat -> Reply)
    requires Initial(r0) && r0.g.maxSteps >= 2 && cfg.maxErrors >= 2
    requires PaysThenRaises(cfg, Base, r0, replies(0)) && !replies(0).saysDone
    ensures replies(0).failed == Some(Logging)
    ensures CallsModel(At(cfg, Base, r0, replies, 1))
    ensures At(cfg, Base, r0, replies, 1).g.tokenCount >= cfg.budget
  {
    OnlyLoggingRaises(cfg, r0, replies(0));
    assert At(cfg, Base, r0, replies, 1) == Visit(cfg, Base, At(cfg, Base, r0, replies, 0), replies(0));
  }
}
