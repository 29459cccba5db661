/** Loop, step, budget and error safeguards: each maps the run state to an update. */
module Safeguards {
  datatype Config = Config(window: int, threshold: int, budget: int, maxErrors: int)

  // The safeguard fields of the run state.
  datatype Guarded = Guarded(
    stepCount: nat, maxSteps: int, errorCount: nat, loopDetected: bool, forceEnd: bool,
    actionHistory: seq<string>, tokenCount: nat, hitlPending: bool)

  // s[-n:]
  function PyTail(s: seq<string>, n: int): seq<string> {
    if n == 0 then s
    else if n > 0 then (if n < |s| then s[|s| - n..] else s)
    else if -n < |s| then s[-n..] else []
  }

  // How often x occurs in s from i on.
  function CountFrom(s: seq<string>, x: string, i: nat): nat
    requires i <= |s|
    decreases |s| - i
  {
    if i == |s| then 0 else CountFrom(s, x, i + 1) + if s[i] == x then 1 else 0
  }

  function Count(s: seq<string>, x: string): nat {
    CountFrom(s, x, 0)
  }

  lemma {:induction false} CountsFrom(s: seq<string>, x: string, i: nat)
    requires i <= |s|
    ensures CountFrom(s, x, i) == multiset(s[i..])[x]
    decreases |s| - i
  {
    if i < |s| {
      CountsFrom(s, x, i + 1);
      assert s[i..] == [s[i]] + s[i + 1..];
    }
  }

  // The two list operations that the loop check is made of.
  lemma TailAndCount(s: seq<string>, x: string, n: int)
    requires n > 0
    ensures Count(s, x) == multiset(s)[x]
    ensures |PyTail(s, n)| == (if n < |s| then n else |s|) && s == s[..|s| - |PyTail(s, n)|] + PyTail(s, n)
  {
    CountsFrom(s, x, 0);
    assert s[0..] == s;
  }

  // ---------------------------------------------------------------- repeated calls

  function Remember(cfg: Config, history: seq<string>, sig: string): seq<string> {
    var longer := history + [sig];
    if |longer| > cfg.window * 2 then PyTail(longer, cfg.window * 2) else longer
  }

  // loop_detected, and force_end with it.
  predicate LoopDetected(cfg: Config, history: seq<string>, sig: string) {
    Count(PyTail(Remember(cfg, history, sig), cfg.window), sig) >= cfg.threshold
  }

  // The stored history after a run of single-call batches.
  function Stored(cfg: Config, calls: seq<string>): seq<string> {
    if calls == [] then []
    else Remember(cfg, Stored(cfg, calls[..|calls| - 1]), calls[|calls| - 1])
  }

  lemma TailOfTail(s: seq<string>, m: int, n: int)
    requires 0 < m <= n
    ensures PyTail(PyTail(s, n), m) == PyTail(s, m)
  {
    if n < |s| {
      assert s[|s| - n..][n - m..] == s[|s| - m..];
    }
  }

  lemma TailGrows(s: seq<string>, x: string, n: int)
    requires 0 < n
    ensures PyTail(PyTail(s, n) + [x], n) == PyTail(s + [x], n)
  {
    if n < |s| {
      assert (s[|s| - n..] + [x])[1..] == s[|s| - n + 1..] + [x];
      assert (s + [x])[|s| + 1 - n..] == s[|s| - n + 1..] + [x];
    }
  }

  lemma RememberIsTail(cfg: Config, history: seq<string>, sig: string)
    requires cfg.window >= 0
    ensures Remember(cfg, history, sig) == PyTail(history + [sig], cfg.window * 2)
  {
  }

  lemma {:induction false} StoredIsTail(cfg: Config, calls: seq<string>)
    requires cfg.window >= 0
    ensures Stored(cfg, calls) == PyTail(calls, cfg.window * 2)
  {
    if calls != [] {
      var before, sig := calls[..|calls| - 1], calls[|calls| - 1];
      StoredIsTail(cfg, before);
      RememberIsTail(cfg, Stored(cfg, before), sig);
      assert calls == before + [sig];
      if cfg.window > 0 {
        TailGrows(before, sig, cfg.window * 2);
      }
    }
  }

  /** Trimming loses nothing: over any run of calls, the next call is flagged exactly when its signature
      makes up the threshold within the last `window` calls of the whole, untrimmed run. */
  lemma {:induction false} TrimmedHistoryDecidesTheSame(cfg: Config, calls: seq<string>, sig: string)
    requires cfg.window >= 0
    ensures LoopDetected(cfg, Stored(cfg, calls), sig)
      <==> Count(PyTail(calls + [sig], cfg.window), sig) >= cfg.threshold
    ensures cfg.window > 0 ==> |Stored(cfg, calls)| <= 2 * cfg.window
  {
    var all := calls + [sig];
    StoredIsTail(cfg, calls);
    StoredIsTail(cfg, all);
    assert all[..|all| - 1] == calls;
    assert Stored(cfg, all) == Remember(cfg, Stored(cfg, calls), sig);
    if cfg.window > 0 {
      TailOfTail(all, cfg.window, cfg.window * 2);
    }
  }

  // ---------------------------------------------------------------- steps, tokens, errors

  predicate StepLimitReached(s: Guarded) {
    s.stepCount >= s.maxSteps
  }

  function IncrementStep(s: Guarded): Guarded {
    s.(stepCount := s.stepCount + 1)
  }

  function SpendTokens(cfg: Config, s: Guarded, used: nat): Guarded {
    s.(tokenCount := s.tokenCount + used, forceEnd := s.tokenCount + used >= cfg.budget)
  }

  function RecordError(cfg: Config, s: Guarded): Guarded {
    s.(errorCount := s.errorCount + 1, forceEnd := s.errorCount + 1 >= cfg.maxErrors)
  }

  datatype Check = End | Hitl | Continue

  function CheckSafeguards(cfg: Config, s: Guarded): Check {
    if s.forceEnd || s.loopDetected || StepLimitReached(s) || s.errorCount >= cfg.maxErrors then End
    else if s.hitlPending then Hitl
    else Continue
  }
}
