/** The daily token budget: concurrent guards reserve, record and release under one lock, and the
    counter starts over when the date changes. */
module RateLimiter {
  import opened Wrappers

  datatype Limits = Limits(perCall: nat, perDay: nat)

  // day: the date the totals belong to, none before the first call.
  datatype Counter = Counter(day: Option<int>, total: nat, calls: nat, reserved: nat)

  // ---------------------------------------------------------------- the counter

  function Reset(c: Counter, today: int): Counter {
    if c.day != Some(today) then Counter(Some(today), 0, 0, 0) else c
  }

  predicate Fits(c: Counter, est: nat, limits: Limits) {
    c.total + c.reserved + est <= limits.perDay
  }

  function Reserve(c: Counter, est: nat, limits: Limits, today: int): Counter {
    var r := Reset(c, today);
    if Fits(r, est, limits) then r.(reserved := r.reserved + est) else r
  }

  // The date is not looked at here, and the result is clamped at 0.
  function Release(c: Counter, est: nat): Counter {
    c.(reserved := if c.reserved < est then 0 else c.reserved - est)
  }

  function Add(c: Counter, tokens: nat, today: int): Counter {
    var r := Reset(c, today);
    r.(total := r.total + tokens, calls := r.calls + 1)
  }

  class DailyCounter {
    var day: Option<int>
    var totalTokens: nat
    var totalCalls: nat
    var reservedTokens: nat

    function Model(): Counter
      reads this
    {
      Counter(day, totalTokens, totalCalls, reservedTokens)
    }

    constructor ()
      ensures Model() == Counter(None, 0, 0, 0)
    {
      day, totalTokens, totalCalls, reservedTokens := None, 0, 0, 0;
    }

    method ResetIfNewDay(today: int)
      modifies this
      ensures Model() == Reset(old(Model()), today)
    {
      if day != Some(today) {
        day := Some(today);
        totalTokens, totalCalls, reservedTokens := 0, 0, 0;
      }
    }

    method CheckAndReserve(est: nat, limits: Limits, today: int) returns (ok: bool)
      modifies this
      ensures Model() == Reserve(old(Model()), est, limits, today)
      ensures ok <==> Fits(Reset(old(Model()), today), est, limits)
    {
      ResetIfNewDay(today);
      var effective := totalTokens + reservedTokens;
      if effective + est > limits.perDay {
        return false;
      }
      reservedTokens := reservedTokens + est;
      return true;
    }

    method ReleaseReservation(est: nat)
      modifies this
      ensures Model() == Release(old(Model()), est)
    {
      reservedTokens := if reservedTokens < est then 0 else reservedTokens - est;
    }

    method AddUsage(tokens: nat, today: int)
      modifies this
      ensures Model() == Add(old(Model()), tokens, today)
    {
      ResetIfNewDay(today);
      totalTokens := totalTokens + tokens;
      totalCalls := totalCalls + 1;
    }
  }

  // ---------------------------------------------------------------- concurrent guards

  // Fresh: inside, entered since the last reset. Straddling: inside, entered before it.
  datatype Phase = Fresh | Straddling | Left | LeftStraddled

  // spent: recorded by this guard in all; today: recorded since the last reset.
  datatype Guard = Guard(est: nat, spent: nat, today: nat, phase: Phase)

  // Every guarded call ever admitted, in order of admission.
  datatype State = State(counter: Counter, guards: seq<Guard>)

  // One critical section each. SoftCheck is the reset inside _check_soft_alerts.
  datatype Event =
    | Enter(est: nat, today: int)
    | SoftCheck(today: int)
    | Record(guard: nat, tokens: nat, today: int)
    | Leave(guard: nat)

  function Aged(g: Guard): Guard {
    match g.phase
    case Fresh => g.(phase := Straddling, today := 0)
    case Straddling => g.(today := 0)
    case Left => g
    case LeftStraddled => g.(phase := Left)
  }

  function AgedAll(guards: seq<Guard>): seq<Guard> {
    seq(|guards|, i requires 0 <= i < |guards| => Aged(guards[i]))
  }

  function Rollover(s: State, today: int): State {
    if s.counter.day != Some(today) then State(Reset(s.counter, today), AgedAll(s.guards)) else s
  }

  predicate Inside(g: Guard) {
    g.phase.Fresh? || g.phase.Straddling?
  }

  function Step(limits: Limits, s: State, e: Event): State {
    match e
    case Enter(est, today) =>
      if est > limits.perCall then s
      else
        var r := Rollover(s, today);
        if Fits(r.counter, est, limits)
        then State(Reserve(s.counter, est, limits, today), r.guards + [Guard(est, 0, 0, Fresh)])
        else r
    case SoftCheck(today) => Rollover(s, today)
    case Record(i, tokens, today) =>
      var r := Rollover(s, today);
      State(Add(s.counter, tokens, today),
            if i < |r.guards| then
              r.guards[i := r.guards[i].(spent := r.guards[i].spent + tokens, today := r.guards[i].today + tokens)]
            else r.guards)
    case Leave(i) =>
      if i < |s.guards| && Inside(s.guards[i])
      then State(Release(s.counter, s.guards[i].est),
                 s.guards[i := s.guards[i].(phase := if s.guards[i].phase.Fresh? then Left else LeftStraddled)])
      else s
  }

  /** On a new day everything starts over: whoever is inside straddles the reset, and everyone else is left behind;
      on the same day nothing happens. */
  lemma NewDayMeaning(limits: Limits, s: State, today: int)
    ensures var t := Step(limits, s, SoftCheck(today));
      if s.counter.day == Some(today) then t == s
      else
        && t.counter == Counter(Some(today), 0, 0, 0) && |t.guards| == |s.guards|
        && forall i :: 0 <= i < |s.guards| ==>
             var g, g' := s.guards[i], t.guards[i];
             && g'.est == g.est && g'.spent == g.spent && (Inside(g) ==> g'.phase.Straddling? && g'.today == 0)
             && (!Inside(g) ==> g'.phase.Left?)
  {
  }

  /** A call is admitted exactly if its estimate is within the limit of a call and, with what is committed and
      reserved today, within that of the day; a call refused for the day still starts a new day. */
  lemma AdmissionMeaning(limits: Limits, s: State, est: nat, today: int)
    ensures var t, c := Step(limits, s, Enter(est, today)), Step(limits, s, SoftCheck(today)).counter;
      var admitted := est <= limits.perCall && c.total + c.reserved + est <= limits.perDay;
      && (admitted ==>
            && t.counter == Counter(Some(today), c.total, c.calls, c.reserved + est)
            && t.guards == Step(limits, s, SoftCheck(today)).guards + [Guard(est, 0, 0, Fresh)])
      && (!admitted ==> t == if est > limits.perCall then s else Step(limits, s, SoftCheck(today)))
  {
  }

  /** A record commits its tokens and one call to the day, and to its guard. */
  lemma RecordMeaning(limits: Limits, s: State, i: nat, tokens: nat, today: int)
    requires i < |s.guards|
    ensures var t, r := Step(limits, s, Record(i, tokens, today)), Step(limits, s, SoftCheck(today));
      && t.counter == Counter(Some(today), r.counter.total + tokens, r.counter.calls + 1, r.counter.reserved)
      && |t.guards| == |s.guards| && t.guards[i].spent == s.guards[i].spent + tokens
      && t.guards[i].today == r.guards[i].today + tokens && t.guards[i].phase == r.guards[i].phase
      && t.guards[i].est == s.guards[i].est
      && forall j :: 0 <= j < |s.guards| && j != i ==> t.guards[j] == r.guards[j]
  {
  }

  /** Leaving gives the estimate back, as far as there is anything reserved, and happens once. */
  lemma LeaveMeaning(limits: Limits, s: State, i: nat)
    requires i < |s.guards|
    ensures var t, g := Step(limits, s, Leave(i)), s.guards[i];
      if !Inside(g) then t == s
      else
        && t.counter.day == s.counter.day && t.counter.total == s.counter.total && t.counter.calls == s.counter.calls
        && t.counter.reserved == (if s.counter.reserved < g.est then 0 else s.counter.reserved - g.est)
        && !Inside(t.guards[i]) && (t.guards[i].phase.LeftStraddled? <==> g.phase.Straddling?)
        && forall j :: 0 <= j < |s.guards| && j != i ==> t.guards[j] == s.guards[j]
  {
  }

  function At(limits: Limits, events: seq<Event>, n: nat): State
    requires n <= |events|
  {
    if n == 0 then State(Counter(None, 0, 0, 0), []) else Step(limits, At(limits, events, n - 1), events[n - 1])
  }

  // ---------------------------------------------------------------- sums over guards

  datatype Kind = FreshEst | FreshRest | InsideEst | GoneEst | StraddleToday | StraddlerEst | InsideRest
    | StraddleReach(room: nat)

  function Weight(kind: Kind, g: Guard): int {
    match kind
    case FreshEst => if g.phase.Fresh? then g.est else 0
    case FreshRest => if g.phase.Fresh? then g.est - g.spent else 0
    case InsideEst => if Inside(g) then g.est else 0
    case GoneEst => if g.phase.LeftStraddled? then g.est else 0
    case StraddleToday => if g.phase.Straddling? then g.today else 0
    case StraddlerEst => if g.phase.Straddling? || g.phase.LeftStraddled? then g.est else 0
    case InsideRest => if Inside(g) then g.est - g.spent else 0
    case StraddleReach(room) => if g.phase.Straddling? then Reach(g, room) else 0
  }

  // What a straddling guard can bring in: the tokens it may still record, or the reservations of others that
  // leaving takes away, of which there are at most room.
  function Reach(g: Guard, room: nat): int {
    var freed := if g.est < room then g.est else room;
    if g.est - g.spent < freed then freed else g.est - g.spent
  }

  function Sum(kind: Kind, guards: seq<Guard>, n: nat): int
    requires n <= |guards|
  {
    if n == 0 then 0 else Sum(kind, guards, n - 1) + Weight(kind, guards[n - 1])
  }

  function Total(kind: Kind, s: State): int {
    Sum(kind, s.guards, |s.guards|)
  }

  lemma {:induction false} SumUpdate(kind: Kind, guards: seq<Guard>, n: nat, i: nat, g: Guard)
    requires n <= |guards| && i < |guards|
    ensures Sum(kind, guards[i := g], n)
      == Sum(kind, guards, n) + if i < n then Weight(kind, g) - Weight(kind, guards[i]) else 0
  {
    if n > 0 {
      SumUpdate(kind, guards, n - 1, i, g);
    }
  }

  lemma {:induction false} SumPrefix(kind: Kind, guards: seq<Guard>, n: nat, g: Guard)
    requires n <= |guards|
    ensures Sum(kind, guards + [g], n) == Sum(kind, guards, n)
  {
    if n > 0 {
      SumPrefix(kind, guards, n - 1, g);
    }
  }

  // After a reset nothing is fresh and nobody has left yet.
  lemma {:induction false} SumAged(guards: seq<Guard>, n: nat)
    requires n <= |guards|
    ensures var a := AgedAll(guards);
      && Sum(FreshEst, a, n) == Sum(FreshRest, a, n) == Sum(GoneEst, a, n) == Sum(StraddleToday, a, n) == 0
      && Sum(InsideEst, a, n) == Sum(StraddlerEst, a, n) == Sum(InsideEst, guards, n)
  {
    if n > 0 {
      SumAged(guards, n - 1);
    }
  }

  // Sums that compare guard by guard.
  lemma {:induction false} SumBounds(guards: seq<Guard>, n: nat)
    requires n <= |guards|
    ensures 0 <= Sum(GoneEst, guards, n) <= Sum(StraddlerEst, guards, n)
    ensures 0 <= Sum(FreshEst, guards, n) <= Sum(InsideEst, guards, n)
    ensures Sum(StraddlerEst, guards, n) == 0 ==> Sum(InsideEst, guards, n) <= Sum(FreshEst, guards, n)
    ensures Sum(InsideEst, guards, n) + Sum(GoneEst, guards, n)
      == Sum(FreshEst, guards, n) + Sum(StraddlerEst, guards, n)
    ensures 0 <= Sum(StraddleToday, guards, n)
  {
    if n > 0 {
      SumBounds(guards, n - 1);
    }
  }

  // ---------------------------------------------------------------- reservation accounting

  ghost predicate Accounted(s: State) {
    Total(FreshEst, s) - Total(GoneEst, s) <= s.counter.reserved <= Total(FreshEst, s)
  }

  lemma RolloverTotals(s: State, today: int)
    ensures var r := Rollover(s, today);
      if s.counter.day == Some(today) then r == s
      else
        && r.counter == Counter(Some(today), 0, 0, 0)
        && Total(FreshEst, r) == Total(FreshRest, r) == Total(GoneEst, r) == Total(StraddleToday, r) == 0
        && Total(StraddlerEst, r) == Total(InsideEst, s)
  {
    SumAged(s.guards, |s.guards|);
  }

  lemma EnterAccounted(limits: Limits, s: State, est: nat, today: int)
    requires Accounted(s)
    ensures Accounted(Step(limits, s, Enter(est, today)))
  {
    RolloverTotals(s, today);
    var gs := Rollover(s, today).guards;
    SumPrefix(FreshEst, gs, |gs|, Guard(est, 0, 0, Fresh));
    SumPrefix(GoneEst, gs, |gs|, Guard(est, 0, 0, Fresh));
  }

  lemma SoftCheckAccounted(limits: Limits, s: State, today: int)
    requires Accounted(s)
    ensures Accounted(Step(limits, s, SoftCheck(today)))
  {
    RolloverTotals(s, today);
  }

  lemma RecordAccounted(limits: Limits, s: State, i: nat, tokens: nat, today: int)
    requires Accounted(s)
    ensures Accounted(Step(limits, s, Record(i, tokens, today)))
  {
    RolloverTotals(s, today);
    var gs := Rollover(s, today).guards;
    if i < |gs| {
      var g := gs[i].(spent := gs[i].spent + tokens, today := gs[i].today + tokens);
      SumUpdate(FreshEst, gs, |gs|, i, g);
      SumUpdate(GoneEst, gs, |gs|, i, g);
    }
  }

  lemma LeaveAccounted(limits: Limits, s: State, i: nat)
    requires Accounted(s)
    ensures Accounted(Step(limits, s, Leave(i)))
  {
    SumBounds(s.guards, |s.guards|);
    if i < |s.guards| && Inside(s.guards[i]) {
      var g := s.guards[i].(phase := if s.guards[i].phase.Fresh? then Left else LeftStraddled);
      SumUpdate(FreshEst, s.guards, |s.guards|, i, g);
      SumUpdate(GoneEst, s.guards, |s.guards|, i, g);
      SumBounds(s.guards[i := g], |s.guards|);
    }
  }

  lemma AccountedStep(limits: Limits, s: State, e: Event)
    requires Accounted(s)
    ensures Accounted(Step(limits, s, e))
  {
    hide Accounted, Step;
    match e {
      case Enter(est, today) => EnterAccounted(limits, s, est, today);
      case SoftCheck(today) => SoftCheckAccounted(limits, s, today);
      case Record(i, tokens, today) => RecordAccounted(limits, s, i, tokens, today);
      case Leave(i) => LeaveAccounted(limits, s, i);
    }
  }

  lemma {:induction false} RunAccounted(limits: Limits, events: seq<Event>, n: nat)
    requires n <= |events|
    ensures Accounted(At(limits, events, n))
  {
    hide Step;
    if n > 0 {
      RunAccounted(limits, events, n - 1);
      AccountedStep(limits, At(limits, events, n - 1), events[n - 1]);
    }
  }

  /** In every reachable state, through refusals, failures and date changes, the reserved amount is at
      most the estimates of the guards inside and falls short of them by at most the estimates of guards
      that were inside at the last reset. */
  lemma ReservationAccounting(limits: Limits, events: seq<Event>, n: nat)
    requires n <= |events|
    ensures var s := At(limits, events, n);
      && Total(InsideEst, s) - Total(StraddlerEst, s) <= s.counter.reserved <= Total(InsideEst, s)
      && (Total(StraddlerEst, s) == 0 ==> s.counter.reserved == Total(InsideEst, s))
      && ((forall i :: 0 <= i < |s.guards| ==> !Inside(s.guards[i])) ==> s.counter.reserved == 0)
  {
    RunAccounted(limits, events, n);
    var s := At(limits, events, n);
    SumBounds(s.guards, |s.guards|);
    if forall i :: 0 <= i < |s.guards| ==> !Inside(s.guards[i]) {
      NobodyInside(s.guards, |s.guards|);
    }
  }

  lemma {:induction false} NobodyInside(guards: seq<Guard>, n: nat)
    requires n <= |guards| && forall i :: 0 <= i < |guards| ==> !Inside(guards[i])
    ensures Sum(InsideEst, guards, n) == 0
  {
    if n > 0 {
      NobodyInside(guards, n - 1);
    }
  }

  // ---------------------------------------------------------------- the daily limit

  // A guard records at most its estimate, and before it leaves.
  predicate HonestStep(s: State, e: Event) {
    e.Record? ==>
      && e.guard < |s.guards| && Inside(s.guards[e.guard])
      && s.guards[e.guard].spent + e.tokens <= s.guards[e.guard].est
  }

  ghost predicate Honest(limits: Limits, events: seq<Event>) {
    forall n :: 0 <= n < |events| ==> HonestStep(At(limits, events, n), events[n])
  }

  ghost predicate WithinEstimates(guards: seq<Guard>) {
    forall i :: 0 <= i < |guards| ==> guards[i].today <= guards[i].spent <= guards[i].est
  }

  ghost predicate Budgeted(limits: Limits, s: State) {
    && WithinEstimates(s.guards)
    && s.counter.total + Total(FreshRest, s) <= limits.perDay + Total(GoneEst, s) + Total(StraddleToday, s)
  }

  lemma EnterBudgeted(limits: Limits, s: State, est: nat, today: int)
    requires Budgeted(limits, s) && Accounted(s)
    ensures Budgeted(limits, Step(limits, s, Enter(est, today)))
  {
    RolloverTotals(s, today);
    var r := Rollover(s, today);
    var gs, g := r.guards, Guard(est, 0, 0, Fresh);
    SumPrefix(FreshRest, gs, |gs|, g);
    SumPrefix(GoneEst, gs, |gs|, g);
    SumPrefix(StraddleToday, gs, |gs|, g);
    SumBounds(gs, |gs|);
    RestWithinEst(gs, |gs|);
  }

  lemma {:induction false} RestWithinEst(guards: seq<Guard>, n: nat)
    requires n <= |guards| && WithinEstimates(guards)
    ensures 0 <= Sum(FreshRest, guards, n) <= Sum(FreshEst, guards, n)
    ensures Sum(GoneEst, guards, n) + Sum(StraddleToday, guards, n) <= Sum(StraddlerEst, guards, n)
  {
    if n > 0 {
      RestWithinEst(guards, n - 1);
    }
  }

  lemma RecordBudgeted(limits: Limits, s: State, i: nat, tokens: nat, today: int)
    requires Budgeted(limits, s) && HonestStep(s, Record(i, tokens, today))
    ensures Budgeted(limits, Step(limits, s, Record(i, tokens, today)))
  {
    RolloverTotals(s, today);
    var gs := Rollover(s, today).guards;
    var g := gs[i].(spent := gs[i].spent + tokens, today := gs[i].today + tokens);
    SumUpdate(FreshRest, gs, |gs|, i, g);
    SumUpdate(GoneEst, gs, |gs|, i, g);
    SumUpdate(StraddleToday, gs, |gs|, i, g);
  }

  lemma LeaveBudgeted(limits: Limits, s: State, i: nat)
    requires Budgeted(limits, s)
    ensures Budgeted(limits, Step(limits, s, Leave(i)))
  {
    if i < |s.guards| && Inside(s.guards[i]) {
      var g := s.guards[i].(phase := if s.guards[i].phase.Fresh? then Left else LeftStraddled);
      SumUpdate(FreshRest, s.guards, |s.guards|, i, g);
      SumUpdate(GoneEst, s.guards, |s.guards|, i, g);
      SumUpdate(StraddleToday, s.guards, |s.guards|, i, g);
    }
  }

  lemma StepBudgeted(limits: Limits, s: State, e: Event)
    requires Budgeted(limits, s) && Accounted(s) && HonestStep(s, e)
    ensures Budgeted(limits, Step(limits, s, e))
  {
    hide Budgeted, Accounted, HonestStep, Step;
    match e {
      case Enter(est, today) => EnterBudgeted(limits, s, est, today);
      case SoftCheck(today) => SoftCheckBudgeted(limits, s, today);
      case Record(i, tokens, today) => RecordBudgeted(limits, s, i, tokens, today);
      case Leave(i) => LeaveBudgeted(limits, s, i);
    }
  }

  lemma SoftCheckBudgeted(limits: Limits, s: State, today: int)
    requires Budgeted(limits, s)
    ensures Budgeted(limits, Step(limits, s, SoftCheck(today)))
  {
    RolloverTotals(s, today);
  }

  lemma {:induction false} RunBudgeted(limits: Limits, events: seq<Event>, n: nat)
    requires n <= |events| && Honest(limits, events)
    ensures Budgeted(limits, At(limits, events, n))
  {
    hide Budgeted, Accounted, HonestStep, Step;
    if n == 0 {
      NothingSpent(limits);
    } else {
      RunBudgeted(limits, events, n - 1);
      RunAccounted(limits, events, n - 1);
      HonestAt(limits, events, n - 1);
      StepBudgeted(limits, At(limits, events, n - 1), events[n - 1]);
    }
  }

  lemma NothingSpent(limits: Limits)
    ensures Budgeted(limits, State(Counter(None, 0, 0, 0), []))
  {
  }

  lemma HonestAt(limits: Limits, events: seq<Event>, n: nat)
    requires n < |events| && Honest(limits, events)
    ensures HonestStep(At(limits, events, n), events[n])
  {
    hide At, HonestStep;
  }

  /** If every guarded call records at most its estimate before leaving, then for any number of guards in
      any order the tokens committed today exceed the hard daily limit by at most the estimates of guards
      that were inside at the last reset; with none of those, never. */
  lemma {:induction false} DailyLimit(limits: Limits, events: seq<Event>, n: nat)
    requires n <= |events| && Honest(limits, events)
    ensures var s := At(limits, events, n);
      && s.counter.total <= limits.perDay + Total(StraddlerEst, s)
      && ((forall i :: 0 <= i < |s.guards| ==> !s.guards[i].phase.Straddling? && !s.guards[i].phase.LeftStraddled?)
          ==> s.counter.total <= limits.perDay)
  {
    RunBudgeted(limits, events, n);
    var s := At(limits, events, n);
    RestWithinEst(s.guards, |s.guards|);
    if forall i :: 0 <= i < |s.guards| ==> !s.guards[i].phase.Straddling? && !s.guards[i].phase.LeftStraddled? {
      NoStraddlers(s.guards, |s.guards|);
    }
  }

  lemma {:induction false} NoStraddlers(guards: seq<Guard>, n: nat)
    requires n <= |guards|
    requires forall i :: 0 <= i < |guards| ==> !guards[i].phase.Straddling? && !guards[i].phase.LeftStraddled?
    ensures Sum(StraddlerEst, guards, n) == 0
  {
    if n > 0 {
      NoStraddlers(guards, n - 1);
    }
  }

  /** That margin is really reached: a guard inside over midnight and one that takes the whole new day. */
  lemma MarginIsReached(limits: Limits, est: nat, day: int)
    requires 0 < est <= limits.perDay <= limits.perCall
    ensures
      var d := day + 1;
      var events := [Enter(est, day), Enter(limits.perDay, d), Record(0, est, d), Record(1, limits.perDay, d)];
      && Honest(limits, events)
      && At(limits, events, 4).counter.total == limits.perDay + est
      && Total(StraddlerEst, At(limits, events, 4)) == est
  {
    var d := day + 1;
    var events := [Enter(est, day), Enter(limits.perDay, d), Record(0, est, d), Record(1, limits.perDay, d)];
    var s1, s2, s3 := At(limits, events, 1), At(limits, events, 2), At(limits, events, 3);
    assert At(limits, events, 0) == State(Counter(None, 0, 0, 0), []);
    assert s1 == State(Counter(Some(day), 0, 0, est), [Guard(est, 0, 0, Fresh)]);
    var g := Guard(limits.perDay, 0, 0, Fresh);
    assert s2 == State(Counter(Some(d), 0, 0, limits.perDay), [Guard(est, 0, 0, Straddling), g]);
    assert s3 == State(Counter(Some(d), est, 1, limits.perDay), [Guard(est, est, est, Straddling), g]);
    var gs := At(limits, events, 4).guards;
    assert gs == [Guard(est, est, est, Straddling), Guard(limits.perDay, limits.perDay, limits.perDay, Fresh)];
    assert Sum(StraddlerEst, gs, 2) == Sum(StraddlerEst, gs, 1) == Sum(StraddlerEst, gs, 0) + est;
  }

  // ---------------------------------------------------------------- how far it can go

  // The state that es leads to from s, and that every step of it is honest.
  function Apply(limits: Limits, s: State, es: seq<Event>): State {
    if es == [] then s else Step(limits, Apply(limits, s, es[..|es| - 1]), es[|es| - 1])
  }

  ghost predicate HonestFrom(limits: Limits, s: State, es: seq<Event>) {
    es == [] || (HonestFrom(limits, s, es[..|es| - 1]) && HonestStep(Apply(limits, s, es[..|es| - 1]), es[|es| - 1]))
  }

  lemma OneMore(limits: Limits, s: State, es: seq<Event>, e: Event)
    requires HonestFrom(limits, s, es) && HonestStep(Apply(limits, s, es), e)
    ensures HonestFrom(limits, s, es + [e]) && Apply(limits, s, es + [e]) == Step(limits, Apply(limits, s, es), e)
  {
    hide Step, HonestStep;
    assert (es + [e])[..|es|] == es;
  }

  lemma NothingToApply(limits: Limits, s: State)
    ensures HonestFrom(limits, s, []) && Apply(limits, s, []) == s
  {
  }

  lemma LastApplied(limits: Limits, s: State, es: seq<Event>)
    requires es != [] && HonestFrom(limits, s, es)
    ensures var front, e := es[..|es| - 1], es[|es| - 1];
      && HonestFrom(limits, s, front) && HonestStep(Apply(limits, s, front), e)
      && Apply(limits, s, es) == Step(limits, Apply(limits, s, front), e)
  {
    hide Step, HonestStep;
  }

  lemma {:induction false} ApplyConcat(limits: Limits, s: State, a: seq<Event>, b: seq<Event>)
    requires HonestFrom(limits, s, a) && HonestFrom(limits, Apply(limits, s, a), b)
    ensures HonestFrom(limits, s, a + b) && Apply(limits, s, a + b) == Apply(limits, Apply(limits, s, a), b)
  {
    hide Step, HonestStep, Apply, HonestFrom;
    if b == [] {
      assert a + b == a;
      NothingToApply(limits, Apply(limits, s, a));
    } else {
      var front, e := b[..|b| - 1], b[|b| - 1];
      LastApplied(limits, Apply(limits, s, a), b);
      ApplyConcat(limits, s, a, front);
      OneMore(limits, s, a + front, e);
      assert a + b == a + front + [e];
    }
  }

  // t is on the day of s, with as much committed and the same estimates open at the last reset.
  ghost predicate SameDay(s: State, t: State) {
    && t.counter.day == s.counter.day && t.counter.total == s.counter.total && |s.guards| <= |t.guards|
    && Total(StraddlerEst, t) == Total(StraddlerEst, s) && (WithinEstimates(s.guards) ==> WithinEstimates(t.guards))
  }

  lemma SameDayTwice(s: State, t: State, u: State)
    requires SameDay(s, t) && SameDay(t, u)
    ensures SameDay(s, u)
  {
    hide WithinEstimates;
  }

  lemma Leaves(limits: Limits, s: State, i: nat)
    requires i < |s.guards| && Inside(s.guards[i])
    ensures var t, g := Step(limits, s, Leave(i)), s.guards[i];
      && SameDay(s, t) && t.guards == s.guards[i := g.(phase := if g.phase.Fresh? then Left else LeftStraddled)]
      && Total(InsideRest, t) == Total(InsideRest, s) - (g.est - g.spent)
      && t.counter.reserved == if s.counter.reserved < g.est then 0 else s.counter.reserved - g.est
  {
    var g := s.guards[i].(phase := if s.guards[i].phase.Fresh? then Left else LeftStraddled);
    SumUpdate(StraddlerEst, s.guards, |s.guards|, i, g);
    SumUpdate(InsideRest, s.guards, |s.guards|, i, g);
  }

  function Drained(g: Guard): Guard {
    if g.phase.Fresh? then g.(phase := Left) else g
  }

  // Everyone who entered today leaves, without recording any more.
  lemma DrainFresh(limits: Limits, s: State) returns (es: seq<Event>)
    requires Accounted(s)
    ensures HonestFrom(limits, s, es)
    ensures var t := Apply(limits, s, es);
      && SameDay(s, t) && t.counter.reserved == 0 && |t.guards| == |s.guards|
      && forall j :: 0 <= j < |s.guards| ==> t.guards[j] == Drained(s.guards[j])
  {
    hide Apply, HonestFrom, Accounted, Step, SameDay;
    es := [];
    var t := s;
    NothingApplied(limits, s);
    for i := 0 to |s.guards|
      invariant HonestFrom(limits, s, es) && t == Apply(limits, s, es) && Accounted(t)
      invariant SameDay(s, t) && |t.guards| == |s.guards|
      invariant forall j :: 0 <= j < i ==> t.guards[j] == Drained(s.guards[j])
      invariant forall j :: i <= j < |s.guards| ==> t.guards[j] == s.guards[j]
    {
      if t.guards[i].phase.Fresh? {
        var u := Step(limits, t, Leave(i));
        Leaves(limits, t, i);
        SameDayTwice(s, t, u);
        AccountedStep(limits, t, Leave(i));
        OneMore(limits, s, es, Leave(i));
        es, t := es + [Leave(i)], u;
      }
    }
    NothingReserved(t);
  }

  lemma NothingApplied(limits: Limits, s: State)
    ensures HonestFrom(limits, s, []) && Apply(limits, s, []) == s && SameDay(s, s)
  {
    NothingToApply(limits, s);
  }

  lemma NothingReserved(s: State)
    requires Accounted(s) && forall i :: 0 <= i < |s.guards| ==> !s.guards[i].phase.Fresh?
    ensures s.counter.reserved == 0
  {
    NobodyFresh(s.guards, |s.guards|);
    SumBounds(s.guards, |s.guards|);
  }

  lemma {:induction false} NobodyFresh(guards: seq<Guard>, n: nat)
    requires n <= |guards| && forall i :: 0 <= i < |guards| ==> !guards[i].phase.Fresh?
    ensures Sum(FreshEst, guards, n) == 0
  {
    if n > 0 {
      NobodyFresh(guards, n - 1);
    }
  }

  lemma Admitted(limits: Limits, s: State, est: nat, today: int)
    requires s.counter.day == Some(today) && est <= limits.perCall && Fits(s.counter, est, limits)
    ensures var t := Step(limits, s, Enter(est, today));
      && SameDay(s, t) && t.counter.reserved == s.counter.reserved + est
      && t.guards == s.guards + [Guard(est, 0, 0, Fresh)] && Total(InsideRest, t) == Total(InsideRest, s) + est
  {
    SumPrefix(StraddlerEst, s.guards, |s.guards|, Guard(est, 0, 0, Fresh));
    SumPrefix(InsideRest, s.guards, |s.guards|, Guard(est, 0, 0, Fresh));
  }

  lemma EnterIsHonest(limits: Limits, s: State, est: nat, today: int)
    ensures HonestFrom(limits, s, [Enter(est, today)])
    ensures Apply(limits, s, [Enter(est, today)]) == Step(limits, s, Enter(est, today))
  {
    hide Step;
    OneMore(limits, s, [], Enter(est, today));
    assert [] + [Enter(est, today)] == [Enter(est, today)];
  }

  // New calls reserve what is left of the day.
  lemma {:induction false} TopUp(limits: Limits, s: State) returns (es: seq<Event>)
    requires s.counter.day.Some? && limits.perCall > 0 && s.counter.total + s.counter.reserved <= limits.perDay
    ensures HonestFrom(limits, s, es)
    ensures var t := Apply(limits, s, es);
      && SameDay(s, t) && t.counter.total + t.counter.reserved == limits.perDay
      && Total(InsideRest, t) == Total(InsideRest, s) + limits.perDay - s.counter.total - s.counter.reserved
      && forall j :: 0 <= j < |s.guards| ==> t.guards[j] == s.guards[j]
    decreases limits.perDay - s.counter.reserved
  {
    hide Apply, HonestFrom, Step, SameDay;
    NothingApplied(limits, s);
    var left := limits.perDay - s.counter.total - s.counter.reserved;
    if left == 0 {
      es := [];
    } else {
      var est, today := if left < limits.perCall then left else limits.perCall, s.counter.day.value;
      var u := Step(limits, s, Enter(est, today));
      Admitted(limits, s, est, today);
      EnterIsHonest(limits, s, est, today);
      SameDayKeeps(s, u);
      var rest := TopUp(limits, u);
      es := [Enter(est, today)] + rest;
      ApplyConcat(limits, s, [Enter(est, today)], rest);
      SameDayTwice(s, u, Apply(limits, s, es));
      SameDayKeeps(u, Apply(limits, s, es));
    }
  }

  lemma SameDayKeeps(s: State, t: State)
    requires SameDay(s, t)
    ensures t.counter.day == s.counter.day && t.counter.total == s.counter.total && |s.guards| <= |t.guards|
  {
  }

  lemma LeaveIsHonest(limits: Limits, s: State, i: nat)
    ensures HonestFrom(limits, s, [Leave(i)]) && Apply(limits, s, [Leave(i)]) == Step(limits, s, Leave(i))
  {
    hide Step;
    OneMore(limits, s, [], Leave(i));
    assert [] + [Leave(i)] == [Leave(i)];
  }

  // With the day used up by reservations, a straddling guard brings in its reach: it stays if it may still
  // record more than its leaving would free, else it leaves and new calls take its place.
  lemma Exchange(limits: Limits, s: State, i: nat) returns (es: seq<Event>)
    requires s.counter.day.Some? && limits.perCall > 0 && s.counter.total + s.counter.reserved == limits.perDay
    requires i < |s.guards| && s.guards[i].phase.Straddling?
    ensures HonestFrom(limits, s, es)
    ensures var t, g := Apply(limits, s, es), s.guards[i];
      && SameDay(s, t) && t.counter.total + t.counter.reserved == limits.perDay
      && Total(InsideRest, t) == Total(InsideRest, s) - (g.est - g.spent) + Reach(g, s.counter.reserved)
      && forall j :: 0 <= j < |s.guards| && j != i ==> t.guards[j] == s.guards[j]
  {
    hide Apply, HonestFrom, Step, SameDay;
    NothingApplied(limits, s);
    var g := s.guards[i];
    es := [];
    if Reach(g, s.counter.reserved) != g.est - g.spent {
      var u := Step(limits, s, Leave(i));
      Leaves(limits, s, i);
      LeaveIsHonest(limits, s, i);
      SameDayKeeps(s, u);
      var rest := TopUp(limits, u);
      es := [Leave(i)] + rest;
      ApplyConcat(limits, s, [Leave(i)], rest);
      SameDayTwice(s, u, Apply(limits, s, es));
    }
  }

  // One exchange after the other.
  lemma ExchangeAll(limits: Limits, s: State, n: nat) returns (es: seq<Event>)
    requires s.counter.day.Some? && limits.perCall > 0 && s.counter.total + s.counter.reserved == limits.perDay
    requires n <= |s.guards| && forall j :: 0 <= j < n ==> !s.guards[j].phase.Fresh?
    ensures HonestFrom(limits, s, es)
    ensures var t := Apply(limits, s, es);
      && SameDay(s, t)
      && Total(InsideRest, t)
        == Total(InsideRest, s) - Sum(InsideRest, s.guards, n) + Sum(StraddleReach(s.counter.reserved), s.guards, n)
  {
    hide Apply, HonestFrom, Step, SameDay, Reach;
    es := [];
    var t := s;
    var room := s.counter.reserved;
    NothingApplied(limits, s);
    for i := 0 to n
      invariant HonestFrom(limits, s, es) && t == Apply(limits, s, es) && SameDay(s, t)
      invariant t.counter.day == s.counter.day && t.counter.reserved == room
      invariant t.counter.total + t.counter.reserved == limits.perDay && |s.guards| <= |t.guards|
      invariant Total(InsideRest, t)
        == Total(InsideRest, s) - Sum(InsideRest, s.guards, i) + Sum(StraddleReach(room), s.guards, i)
      invariant forall j :: i <= j < n ==> t.guards[j] == s.guards[j]
    {
      if s.guards[i].phase.Straddling? {
        var e := Exchange(limits, t, i);
        ApplyConcat(limits, s, es, e);
        var u := Apply(limits, t, e);
        SameDayTwice(s, t, u);
        SameDayKeeps(t, u);
        es, t := es + e, u;
      }
    }
  }

  lemma RecordToday(limits: Limits, s: State, e: Event)
    requires e.Record? && s.counter.day == Some(e.today) && e.guard < |s.guards| && Inside(s.guards[e.guard])
    requires s.guards[e.guard].spent + e.tokens <= s.guards[e.guard].est
    ensures HonestStep(s, e)
    ensures var t := Step(limits, s, e);
      && t.counter.day == s.counter.day && t.counter.total == s.counter.total + e.tokens && |t.guards| == |s.guards|
      && Total(StraddlerEst, t) == Total(StraddlerEst, s)
      && forall j :: 0 <= j < |s.guards| && j != e.guard ==> t.guards[j] == s.guards[j]
  {
    var g := s.guards[e.guard];
    var g' := g.(spent := g.spent + e.tokens, today := g.today + e.tokens);
    SumUpdate(StraddlerEst, s.guards, |s.guards|, e.guard, g');
  }

  // Everyone inside records what is left of the estimate.
  lemma SpendRest(limits: Limits, s: State) returns (es: seq<Event>)
    requires s.counter.day.Some? && WithinEstimates(s.guards)
    ensures HonestFrom(limits, s, es)
    ensures var t := Apply(limits, s, es);
      && t.counter.day == s.counter.day && Total(StraddlerEst, t) == Total(StraddlerEst, s)
      && t.counter.total == s.counter.total + Total(InsideRest, s)
  {
    hide Apply, HonestFrom, Step, HonestStep;
    es := [];
    var t := s;
    NothingApplied(limits, s);
    for i := 0 to |s.guards|
      invariant HonestFrom(limits, s, es) && t == Apply(limits, s, es)
      invariant t.counter.day == s.counter.day && |t.guards| == |s.guards|
      invariant Total(StraddlerEst, t) == Total(StraddlerEst, s)
      invariant t.counter.total == s.counter.total + Sum(InsideRest, s.guards, i)
      invariant forall j :: i <= j < |s.guards| ==> t.guards[j] == s.guards[j]
    {
      var g := s.guards[i];
      if Inside(g) {
        var e := Record(i, g.est - g.spent, s.counter.day.value);
        RecordToday(limits, t, e);
        OneMore(limits, s, es, e);
        es, t := es + [e], Step(limits, t, e);
      }
    }
  }

  lemma {:induction false} AtIsApply(limits: Limits, events: seq<Event>, es: seq<Event>)
    requires Honest(limits, events) && HonestFrom(limits, At(limits, events, |events|), es)
    ensures Honest(limits, events + es)
    ensures At(limits, events + es, |events + es|) == Apply(limits, At(limits, events, |events|), es)
  {
    hide Step, HonestStep, Honest;
    if es == [] {
      assert events + es == events;
    } else {
      var front, e := es[..|es| - 1], es[|es| - 1];
      AtIsApply(limits, events, front);
      assert events + es == events + front + [e];
      HonestSnoc(limits, events + front, e);
    }
  }

  lemma {:induction false} AtPrefix(limits: Limits, events: seq<Event>, e: Event, n: nat)
    requires n <= |events|
    ensures At(limits, events + [e], n) == At(limits, events, n)
  {
    if n > 0 {
      AtPrefix(limits, events, e, n - 1);
    }
  }

  lemma HonestSnoc(limits: Limits, events: seq<Event>, e: Event)
    requires Honest(limits, events) && HonestStep(At(limits, events, |events|), e)
    ensures Honest(limits, events + [e])
    ensures At(limits, events + [e], |events| + 1) == Step(limits, At(limits, events, |events|), e)
  {
    hide HonestStep, Step;
    AtPrefix(limits, events, e, |events|);
    forall n | 0 <= n < |events| + 1
      ensures HonestStep(At(limits, events + [e], n), (events + [e])[n])
    {
      AtPrefix(limits, events, e, n);
    }
  }

  function Room(limits: Limits, s: State): nat {
    if s.counter.total < limits.perDay then limits.perDay - s.counter.total else 0
  }

  // Once everyone who entered today has left, what may still be recorded is the reach without room.
  lemma {:induction false} ReachOfNothing(guards: seq<Guard>, n: nat)
    requires n <= |guards| && WithinEstimates(guards) && forall j :: 0 <= j < n ==> !guards[j].phase.Fresh?
    ensures Sum(StraddleReach(0), guards, n) == Sum(InsideRest, guards, n)
  {
    if n > 0 {
      ReachOfNothing(guards, n - 1);
    }
  }

  lemma {:induction false} SameReach(s: seq<Guard>, t: seq<Guard>, room: nat, n: nat)
    requires n <= |s| && n <= |t| && forall j :: 0 <= j < n ==> t[j] == Drained(s[j])
    ensures Sum(StraddleReach(room), t, n) == Sum(StraddleReach(room), s, n)
  {
    if n > 0 {
      SameReach(s, t, room, n - 1);
    }
  }

  lemma {:induction false} SumSame(kind: Kind, s: seq<Guard>, t: seq<Guard>, n: nat)
    requires n <= |s| && n <= |t| && forall j :: 0 <= j < n ==> t[j] == s[j]
    ensures Sum(kind, t, n) == Sum(kind, s, n)
  {
    if n > 0 {
      SumSame(kind, s, t, n - 1);
    }
  }

  // Where nobody who entered today is inside, calls can still be let in so that the estimates open come to
  // what is left of the day and the reach of the straddling guards.
  lemma Promise(limits: Limits, s: State) returns (es: seq<Event>)
    requires s.counter.day.Some? && s.counter.reserved == 0 && limits.perCall > 0 && WithinEstimates(s.guards)
    requires forall j :: 0 <= j < |s.guards| ==> !s.guards[j].phase.Fresh?
    ensures HonestFrom(limits, s, es)
    ensures var t, room := Apply(limits, s, es), Room(limits, s);
      SameDay(s, t) && Total(InsideRest, t) == room + Total(StraddleReach(room), s)
  {
    hide Apply, HonestFrom, Step, SameDay, Sum, WithinEstimates;
    if s.counter.total >= limits.perDay {
      es := [];
      NothingApplied(limits, s);
      ReachOfNothing(s.guards, |s.guards|);
    } else {
      var a := TopUp(limits, s);
      var t := Apply(limits, s, a);
      SameDayKeeps(s, t);
      var b := ExchangeAll(limits, t, |s.guards|);
      es := a + b;
      ApplyConcat(limits, s, a, b);
      SameDayTwice(s, t, Apply(limits, s, es));
      SumSame(InsideRest, s.guards, t.guards, |s.guards|);
      SumSame(StraddleReach(Room(limits, s)), s.guards, t.guards, |s.guards|);
    }
  }

  // From s, honest calls on the same day.
  lemma Overrun(limits: Limits, s: State) returns (es: seq<Event>)
    requires s.counter.day.Some? && limits.perCall > 0 && Accounted(s) && WithinEstimates(s.guards)
    ensures HonestFrom(limits, s, es)
    ensures var t, room := Apply(limits, s, es), Room(limits, s);
      && t.counter.day == s.counter.day && Total(StraddlerEst, t) == Total(StraddlerEst, s)
      && t.counter.total == s.counter.total + room + Total(StraddleReach(room), s)
  {
    hide Apply, HonestFrom, Step, Accounted, Sum, Room;
    var a := DrainFresh(limits, s);
    var t := Apply(limits, s, a);
    assert Room(limits, t) == Room(limits, s) by { RoomSame(limits, s, t); }
    SameReach(s.guards, t.guards, Room(limits, s), |s.guards|);
    var b := Promise(limits, t);
    ApplyConcat(limits, s, a, b);
    var c := SpendRest(limits, Apply(limits, s, a + b));
    ApplyConcat(limits, s, a + b, c);
    es := a + b + c;
  }

  lemma RoomSame(limits: Limits, s: State, t: State)
    requires SameDay(s, t)
    ensures Room(limits, t) == Room(limits, s)
  {
  }

  /** From every state that honest calls can reach, they can go on, on the same day, until the committed tokens
      are what is left of the day and, for every call still open from before the last reset, the larger of
      what it has not recorded yet and what its leaving would free. */
  lemma OverrunIsReachable(limits: Limits, events: seq<Event>) returns (more: seq<Event>)
    requires Honest(limits, events) && limits.perCall > 0 && At(limits, events, |events|).counter.day.Some?
    ensures Honest(limits, events + more)
    ensures var s, t := At(limits, events, |events|), At(limits, events + more, |events + more|);
      && t.counter.day == s.counter.day && Total(StraddlerEst, t) == Total(StraddlerEst, s)
      && t.counter.total == s.counter.total + Room(limits, s) + Total(StraddleReach(Room(limits, s)), s)
  {
    hide At, Sum, Honest, Accounted;
    var s := At(limits, events, |events|);
    RunAccounted(limits, events, |events|);
    RunBudgeted(limits, events, |events|);
    more := Overrun(limits, s);
    AtIsApply(limits, events, more);
  }

  lemma {:induction false} EstimatesFit(limits: Limits, events: seq<Event>, n: nat)
    requires n <= |events|
    ensures forall i :: 0 <= i < |At(limits, events, n).guards| ==> At(limits, events, n).guards[i].est <= limits.perDay
  {
    if n > 0 {
      EstimatesFit(limits, events, n - 1);
    }
  }

  // With the whole day left, the reach of a guard is its estimate.
  lemma {:induction false} FullReach(guards: seq<Guard>, room: nat, n: nat)
    requires n <= |guards| && WithinEstimates(guards)
    requires forall i :: 0 <= i < |guards| ==> guards[i].est <= room && !guards[i].phase.LeftStraddled?
    ensures Sum(StraddleReach(room), guards, n) == Sum(StraddlerEst, guards, n)
  {
    if n > 0 {
      FullReach(guards, room, n - 1);
    }
  }

  /** The margin of the daily limit is reached exactly, and from every honest history at whose end a day has begun
      on which nothing was committed and no call from before has left yet. */
  lemma {:induction false} EveryMidnightReachesTheMargin(limits: Limits, events: seq<Event>) returns (more: seq<Event>)
    requires Honest(limits, events) && limits.perCall > 0
    requires var s := At(limits, events, |events|);
      s.counter.day.Some? && s.counter.total == 0
      && forall i :: 0 <= i < |s.guards| ==> !s.guards[i].phase.LeftStraddled?
    ensures Honest(limits, events + more)
    ensures var s, t := At(limits, events, |events|), At(limits, events + more, |events + more|);
      && t.counter.day == s.counter.day
      && t.counter.total == limits.perDay + Total(StraddlerEst, s) == limits.perDay + Total(StraddlerEst, t)
  {
    hide At, Sum, Honest;
    var s := At(limits, events, |events|);
    more := OverrunIsReachable(limits, events);
    EstimatesFit(limits, events, |events|);
    RunBudgeted(limits, events, |events|);
    FullReach(s.guards, limits.perDay, |s.guards|);
  }
}
