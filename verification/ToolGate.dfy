/** SecureToolNode: every tool call of one model reply passes the gates in order before any of them
    is handed to the inner tool node. Registry, ACL, Guardian, sanitizers and the inner node are
    arbitrary parameters; each may answer differently on every call (the index k) and argument (j). */
module ToolGate {
  import opened Wrappers
  import opened Safeguards

  datatype Arg = Text(name: string, value: string) | Other(name: string)
  datatype Call = Call(id: string, name: string, args: seq<Arg>)
  datatype Message = Message(isTool: bool, callId: string, name: string, content: string)

  datatype Reply = Reply(allowed: bool, sandbox: bool, reason: string)
  datatype Cleaned = Cleaned(text: string, injection: bool, haltWorthy: bool)
  // What check_hitl_required returns when a destructive pattern was found.
  datatype HitlReply = Proceed | ForceEnd | Pending

  datatype World = World(
    registered: (nat, string) -> bool,
    aclOk: (nat, string) -> bool,
    guardian: (nat, string, seq<Arg>, seq<string>) -> Reply,
    signature: (string, seq<Arg>) -> string,
    cleanArg: (nat, nat, string) -> Cleaned,
    urlOk: (nat, nat, string) -> bool,
    destructive: (nat, nat, string) -> HitlReply,
    inner: seq<Call> -> seq<Message>,
    cleanOutput: (nat, string) -> Cleaned,
    haltOnResultInjection: bool)

  // The part of the run state that the node reads, and its tool calls.
  datatype Batch = Batch(cfg: Config, calls: seq<Call>, history: seq<string>, sequence: seq<string>)

  datatype Stop =
    | NotRegistered | AclDenied | GuardianHalt | LoopFound | ArgInjection | UrlBlocked | HitlForceEnd | HitlPause

  datatype Gate = Pass | Skip | Halt(stop: Stop)

  // The dictionary returned to the graph; None where the key is absent.
  datatype Update = Update(
    messages: Option<seq<Message>>, forceEnd: Option<bool>, loopDetected: Option<bool>,
    actionHistory: Option<seq<string>>, sequence: Option<seq<string>>, hitlPending: bool)

  const NO_UPDATE := Update(None, None, None, None, None, false)

  // ---------------------------------------------------------------- tool names

  function StripUnderscores(name: string): (s: string)
    ensures '_' !in s
    ensures '_' !in name ==> s == name
  {
    if name == "" then ""
    else if name[0] == '_' then StripUnderscores(name[1..])
    else [name[0]] + StripUnderscores(name[1..])
  }

  lemma StripCons(c: char, s: string)
    ensures StripUnderscores([c] + s) == (if c == '_' then "" else [c]) + StripUnderscores(s)
    ensures StripUnderscores("") == ""
  {
    assert ([c] + s)[1..] == s;
    assert "" + StripUnderscores(s) == StripUnderscores(s);
  }

  lemma Assoc(a: string, b: string, c: string)
    ensures a + b + c == a + (b + c)
  {
  }

  // str.replace("_", ""): character by character, in order.
  lemma {:induction false} StripConcat(a: string, b: string)
    ensures StripUnderscores(a + b) == StripUnderscores(a) + StripUnderscores(b)
  {
    hide *;
    if a == "" {
      StripCons('_', "");
      assert a + b == b && "" + StripUnderscores(b) == StripUnderscores(b);
    } else {
      var c, rest := a[0], a[1..];
      StripConcat(rest, b);
      StripCons(c, rest);
      StripCons(c, rest + b);
      assert a == [c] + rest;
      Assoc([c], rest, b);
      Assoc(if c == '_' then "" else [c], StripUnderscores(rest), StripUnderscores(b));
    }
  }

  // {stripped name: name}; of two names with the same stripped form, the later one in whatever order the set has.
  function AliasMap(names: seq<string>): (m: map<string, string>)
    ensures forall x :: x in m ==> m[x] in names && StripUnderscores(m[x]) == x
    ensures forall n :: n in names ==> StripUnderscores(n) in m
  {
    if names == [] then map[]
    else
      var last := names[|names| - 1];
      AliasMap(names[..|names| - 1])[StripUnderscores(last) := last]
  }

  function Canonical(alias: map<string, string>, name: string): string {
    if name in alias then alias[name] else name
  }

  /** A name that is a tool's without its underscores is rewritten to that of such a tool, and every other is left as
      it is. Names are rewritten twice, once for the inner node and once per call for the gates; the second
      time changes nothing, so the name that is vetted is the name that is executed. */
  lemma VettedNameIsExecutedName(names: seq<string>, name: string)
    ensures var alias, canonical := AliasMap(names), Canonical(AliasMap(names), name);
      && Canonical(alias, canonical) == canonical
      && if exists t :: t in names && StripUnderscores(t) == name
         then canonical in names && StripUnderscores(canonical) == name
         else canonical == name
  {
    var alias := AliasMap(names);
    assert name in alias ==> alias[name] in names && StripUnderscores(alias[name]) == name;
    if name in alias && alias[name] in alias {
      assert StripUnderscores(alias[alias[name]]) == alias[name];
      assert '_' !in alias[name];
    }
  }

  // ---------------------------------------------------------------- the gates, as a specification

  const URL_ARGS := {"url", "uri", "endpoint", "href", "src"}

  function ArgGate(w: World, k: nat, j: nat, a: Arg): Gate {
    if a.Other? then Pass
    else
      var clean := w.cleanArg(k, j, a.value);
      if clean.injection && clean.haltWorthy then Halt(ArgInjection)
      else if a.name in URL_ARGS && !w.urlOk(k, j, clean.text) then Halt(UrlBlocked)
      else match w.destructive(k, j, clean.text)
        case Proceed => Pass
        case ForceEnd => Halt(HitlForceEnd)
        case Pending => Halt(HitlPause)
  }

  function ArgsGate(w: World, k: nat, j: nat, args: seq<Arg>): Gate
    requires j <= |args|
    decreases |args| - j
  {
    if j == |args| then Pass
    else if ArgGate(w, k, j, args[j]) != Pass then ArgGate(w, k, j, args[j])
    else ArgsGate(w, k, j + 1, args)
  }

  // An argument that no check stops: not a jailbreak, a URL that may be fetched, nothing destructive.
  predicate ArgCleared(w: World, k: nat, j: nat, a: Arg) {
    a.Text? ==>
      var clean := w.cleanArg(k, j, a.value);
      && !(clean.injection && clean.haltWorthy)
      && (a.name in URL_ARGS ==> w.urlOk(k, j, clean.text))
      && w.destructive(k, j, clean.text).Proceed?
  }

  // Why an argument is stopped: the first check that does.
  predicate ArgStops(w: World, k: nat, j: nat, a: Arg, stop: Stop) {
    a.Text? &&
      var clean := w.cleanArg(k, j, a.value);
      var jailbreak, blocked := clean.injection && clean.haltWorthy, a.name in URL_ARGS && !w.urlOk(k, j, clean.text);
      match stop
      case ArgInjection => jailbreak
      case UrlBlocked => !jailbreak && blocked
      case HitlForceEnd => !jailbreak && !blocked && w.destructive(k, j, clean.text).ForceEnd?
      case HitlPause => !jailbreak && !blocked && w.destructive(k, j, clean.text).Pending?
      case _ => false
  }

  ghost predicate FirstStopped(w: World, k: nat, j: nat, args: seq<Arg>, i: nat) {
    j <= i < |args| && !ArgCleared(w, k, i, args[i]) && forall l: nat :: j <= l < i ==> ArgCleared(w, k, l, args[l])
  }

  lemma ArgGateMeaning(w: World, k: nat, j: nat, a: Arg)
    ensures var gate := ArgGate(w, k, j, a);
      && (gate == Pass <==> ArgCleared(w, k, j, a)) && !gate.Skip?
      && (gate.Halt? ==> ArgStops(w, k, j, a, gate.stop))
  {
  }

  lemma {:induction false} ArgsGateMeaning(w: World, k: nat, j: nat, args: seq<Arg>)
    requires j <= |args|
    ensures ArgsGate(w, k, j, args) == Pass <==> forall i: nat :: j <= i < |args| ==> ArgCleared(w, k, i, args[i])
    ensures forall i: nat :: FirstStopped(w, k, j, args, i) ==>
      ArgsGate(w, k, j, args).Halt? && ArgStops(w, k, i, args[i], ArgsGate(w, k, j, args).stop)
    ensures ArgsGate(w, k, j, args).Halt? ==> exists i: nat :: FirstStopped(w, k, j, args, i)
    ensures !ArgsGate(w, k, j, args).Skip?
    decreases |args| - j
  {
    if j < |args| {
      ArgGateMeaning(w, k, j, args[j]);
      hide ArgGate, ArgCleared, ArgStops;
      if ArgGate(w, k, j, args[j]) == Pass {
        ArgsGateMeaning(w, k, j + 1, args);
        if ArgsGate(w, k, j + 1, args).Halt? {
          var i: nat :| FirstStopped(w, k, j + 1, args, i);
          assert FirstStopped(w, k, j, args, i);
        }
      } else {
        assert FirstStopped(w, k, j, args, j);
      }
    }
  }

  const GUARDIAN_SEQ_WINDOW := 4

  // What Guardian is shown: the last three names of the history and of the earlier approvals.
  function Window(sequence: seq<string>): seq<string> {
    PyTail(sequence, GUARDIAN_SEQ_WINDOW - 1)
  }

  // The gate for call k, once `sequence` has been approved so far.
  function GateFor(w: World, b: Batch, k: nat, sequence: seq<string>): Gate
    requires k < |b.calls|
  {
    var c := b.calls[k];
    var g := w.guardian(k, c.name, c.args, Window(sequence));
    if !w.registered(k, c.name) then Halt(NotRegistered)
    else if !w.aclOk(k, c.name) then Halt(AclDenied)
    else if !g.allowed then (if g.sandbox then Skip else Halt(GuardianHalt))
    else if LoopDetected(b.cfg, b.history, w.signature(c.name, c.args)) then Halt(LoopFound)
    else ArgsGate(w, k, 0, c.args)
  }

  function SequenceAt(w: World, b: Batch, k: nat): seq<string>
    requires k <= |b.calls|
  {
    if k == 0 then b.sequence
    else
      var before := SequenceAt(w, b, k - 1);
      before + if GateFor(w, b, k - 1, before) == Pass then [b.calls[k - 1].name] else []
  }

  function GateAt(w: World, b: Batch, k: nat): Gate
    requires k < |b.calls|
  {
    GateFor(w, b, k, SequenceAt(w, b, k))
  }

  // The calls among the first k with a given gate, in order.
  function WithGate(w: World, b: Batch, k: nat, gate: Gate): seq<Call>
    requires k <= |b.calls|
  {
    if k == 0 then []
    else if GateAt(w, b, k - 1) == gate then WithGate(w, b, k - 1, gate) + [b.calls[k - 1]]
    else WithGate(w, b, k - 1, gate)
  }

  // action_history in the result so far: every checked call overwrites it, always from the state's own history.
  function HistoryAt(w: World, b: Batch, k: nat): Option<seq<string>>
    requires k <= |b.calls|
  {
    if k == 0 then None
    else if GateAt(w, b, k - 1) == Skip then HistoryAt(w, b, k - 1)
    else Some(Remember(b.cfg, b.history, w.signature(b.calls[k - 1].name, b.calls[k - 1].args)))
  }

  function Names(calls: seq<Call>): seq<string> {
    seq(|calls|, i requires 0 <= i < |calls| => calls[i].name)
  }

  function Ids(calls: seq<Call>): seq<string> {
    seq(|calls|, i requires 0 <= i < |calls| => calls[i].id)
  }

  function MessageIds(messages: seq<Message>): seq<string> {
    seq(|messages|, i requires 0 <= i < |messages| => messages[i].callId)
  }

  // A synthetic message with the same text for every call of a list.
  function Notices(calls: seq<Call>, text: string): seq<Message> {
    seq(|calls|, i requires 0 <= i < |calls| => Message(true, calls[i].id, calls[i].name, text))
  }

  const BLOCKED := "[TOOL BLOCKED]"
  const SKIPPED := "[TOOL SKIPPED]"
  const SECURITY_HALT := "[SECURITY HALT]"

  // What the node returns when call c stops the batch; skipped and history: the result so far.
  function HaltUpdate(w: World, b: Batch, c: Call, stop: Stop, skipped: seq<Call>,
                      history: Option<seq<string>>): Update {
    var checked := Some(Remember(b.cfg, b.history, w.signature(c.name, c.args)));
    match stop
    case NotRegistered =>
      Update(Some(Notices(skipped, SKIPPED) + Notices([c], BLOCKED)), Some(true), Some(false), history, None, false)
    case AclDenied => Update(Some(Notices(b.calls, SECURITY_HALT)), Some(true), Some(false), None, None, false)
    case GuardianHalt => Update(Some(Notices(b.calls, SECURITY_HALT)), Some(true), Some(false), None, None, false)
    case LoopFound => Update(None, Some(true), Some(true), checked, None, false)
    case ArgInjection => Update(None, Some(true), Some(false), None, None, false)
    case UrlBlocked => Update(None, Some(true), Some(false), None, None, false)
    case HitlForceEnd => Update(None, Some(true), Some(false), checked, None, false)
    case HitlPause => Update(None, Some(false), Some(false), checked, None, true)
  }

  // The calls among the first k whose id is listed, in order.
  function FilterIds(calls: seq<Call>, ids: seq<string>, k: nat): (listed: seq<Call>)
    requires k <= |calls|
    ensures forall c :: c in listed <==> c in calls[..k] && c.id in ids
  {
    if k == 0 then []
    else
      assert calls[..k] == calls[..k - 1] + [calls[k - 1]];
      FilterIds(calls, ids, k - 1) + if calls[k - 1].id in ids then [calls[k - 1]] else []
  }

  // The calls handed over when every call was passed or skipped.
  function Handed(b: Batch, passed: seq<Call>, skipped: seq<Call>): seq<Call> {
    if passed == [] then []
    else if skipped == [] then b.calls
    else FilterIds(b.calls, Ids(passed), |b.calls|)
  }

  // A tool message for a call that is neither approved nor skipped.
  predicate Unvetted(m: Message, approved: seq<string>, skipped: seq<string>) {
    m.isTool && m.callId != "" && m.callId !in approved && m.callId !in skipped
  }

  // Step 6 on message i of the result: skip notices stay, anything else is cleaned.
  function CleanMessage(w: World, i: nat, m: Message, notices: seq<Message>): Message {
    if m in notices then m else m.(content := w.cleanOutput(i, m.content).text)
  }

  predicate ResultHalts(w: World, i: nat, m: Message, notices: seq<Message>) {
    m !in notices && w.cleanOutput(i, m.content).injection && w.cleanOutput(i, m.content).haltWorthy
      && w.haltOnResultInjection
  }

  // ---------------------------------------------------------------- the node

  method CheckArgs(w: World, k: nat, args: seq<Arg>) returns (gate: Gate)
    ensures gate == ArgsGate(w, k, 0, args)
    ensures gate == Pass <==> forall j: nat :: j < |args| ==> ArgCleared(w, k, j, args[j])
    ensures forall j: nat :: FirstStopped(w, k, 0, args, j) ==> gate.Halt? && ArgStops(w, k, j, args[j], gate.stop)
  {
    ArgsGateMeaning(w, k, 0, args);
    hide ArgCleared, ArgStops;
    for j := 0 to |args|
      invariant ArgsGate(w, k, 0, args) == ArgsGate(w, k, j, args)
    {
      var a := args[j];
      if a.Other? {
        continue;
      }
      var clean := w.cleanArg(k, j, a.value);
      if clean.injection && clean.haltWorthy {
        return Halt(ArgInjection);
      }
      if a.name in URL_ARGS && !w.urlOk(k, j, clean.text) {
        return Halt(UrlBlocked);
      }
      match w.destructive(k, j, clean.text) {
        case Proceed =>
        case ForceEnd => return Halt(HitlForceEnd);
        case Pending => return Halt(HitlPause);
      }
    }
    return Pass;
  }

  predicate AnyUnvetted(messages: seq<Message>, approved: seq<string>, skipped: seq<string>) {
    exists i :: 0 <= i < |messages| && Unvetted(messages[i], approved, skipped)
  }

  predicate AnyResultHalts(w: World, messages: seq<Message>, notices: seq<Message>) {
    exists i :: 0 <= i < |messages| && ResultHalts(w, i, messages[i], notices)
  }

  function CleanAll(w: World, messages: seq<Message>, notices: seq<Message>): seq<Message> {
    seq(|messages|, i requires 0 <= i < |messages| => CleanMessage(w, i, messages[i], notices))
  }

  // What the node returns once the inner node has answered; `base` is the result so far.
  function ResultUpdate(w: World, base: Update, calls: seq<Call>, passed: seq<Call>, skipped: seq<Call>,
                        out: seq<Message>): Update
  {
    var notices := Notices(skipped, SKIPPED);
    if AnyUnvetted(out, Ids(passed), Ids(skipped)) then
      NO_UPDATE.(forceEnd := Some(true), loopDetected := Some(false))
    else if AnyResultHalts(w, out + notices, notices) then
      NO_UPDATE.(messages := Some(Notices(calls, SECURITY_HALT)), forceEnd := Some(true))
    else
      base.(messages := Some(CleanAll(w, out + notices, notices)))
  }

  // What Guardian was asked about the first k calls, with the window it was shown.
  function Asked(w: World, b: Batch, k: nat): seq<(string, seq<string>)>
    requires k <= |b.calls|
  {
    if k == 0 then []
    else
      var name := b.calls[k - 1].name;
      Asked(w, b, k - 1)
      + if w.registered(k - 1, name) && w.aclOk(k - 1, name) then [(name, Window(SequenceAt(w, b, k - 1)))] else []
  }

  ghost predicate NoHalt(w: World, b: Batch) {
    forall k :: 0 <= k < |b.calls| ==> !GateAt(w, b, k).Halt?
  }

  // The result after all gates, before any message is added.
  function Settled(history: Option<seq<string>>, sequence: seq<string>): Update {
    var unflagged := if history.None? then None else Some(false);
    Update(None, unflagged, unflagged, history, Some(sequence), false)
  }

  method ScreenResults(w: World, base: Update, calls: seq<Call>, passed: seq<Call>, skipped: seq<Call>,
                       out: seq<Message>) returns (u: Update)
    ensures u == ResultUpdate(w, base, calls, passed, skipped, out)
  {
    var approvedIds, skippedIds := Ids(passed), Ids(skipped);
    for i := 0 to |out|
      invariant forall j :: 0 <= j < i ==> !Unvetted(out[j], approvedIds, skippedIds)
    {
      if Unvetted(out[i], approvedIds, skippedIds) {
        return NO_UPDATE.(forceEnd := Some(true), loopDetected := Some(false));
      }
    }
    var notices := Notices(skipped, SKIPPED);
    var messages, cleaned := out + notices, [];
    for i := 0 to |messages|
      invariant forall j :: 0 <= j < i ==> !ResultHalts(w, j, messages[j], notices)
      invariant |cleaned| == i
      invariant forall j :: 0 <= j < i ==> cleaned[j] == CleanMessage(w, j, messages[j], notices)
    {
      var m := messages[i];
      if ResultHalts(w, i, m, notices) {
        return NO_UPDATE.(messages := Some(Notices(calls, SECURITY_HALT)), forceEnd := Some(true));
      }
      cleaned := cleaned + [CleanMessage(w, i, m, notices)];
    }
    assert cleaned == CleanAll(w, messages, notices);
    return base.(messages := Some(cleaned));
  }

  // A call that no gate stops.
  predicate Cleared(w: World, b: Batch, k: nat, sequence: seq<string>)
    requires k < |b.calls|
  {
    var c := b.calls[k];
    && w.registered(k, c.name) && w.aclOk(k, c.name)
    && w.guardian(k, c.name, c.args, Window(sequence)).allowed
    && !LoopDetected(b.cfg, b.history, w.signature(c.name, c.args))
    && forall j: nat :: j < |c.args| ==> ArgCleared(w, k, j, c.args[j])
  }

  // Why a call is stopped: the first gate that does.
  ghost predicate CallStops(w: World, b: Batch, k: nat, sequence: seq<string>, stop: Stop)
    requires k < |b.calls|
  {
    var c := b.calls[k];
    var reply := w.guardian(k, c.name, c.args, Window(sequence));
    var consulted := w.registered(k, c.name) && w.aclOk(k, c.name);
    var looping := LoopDetected(b.cfg, b.history, w.signature(c.name, c.args));
    match stop
    case NotRegistered => !w.registered(k, c.name)
    case AclDenied => w.registered(k, c.name) && !w.aclOk(k, c.name)
    case GuardianHalt => consulted && !reply.allowed && !reply.sandbox
    case LoopFound => consulted && reply.allowed && looping
    case _ =>
      && consulted && reply.allowed && !looping
      && exists j: nat :: FirstStopped(w, k, 0, c.args, j) && ArgStops(w, k, j, c.args[j], stop)
  }

  lemma GateMeaning(w: World, b: Batch, k: nat, sequence: seq<string>)
    requires k < |b.calls|
    ensures var gate := GateFor(w, b, k, sequence);
      && (gate == Pass <==> Cleared(w, b, k, sequence))
      && (gate.Halt? ==> CallStops(w, b, k, sequence, gate.stop))
  {
    var args := b.calls[k].args;
    ArgsGateMeaning(w, k, 0, args);
    hide ArgsGate, ArgCleared, ArgStops, FirstStopped, LoopDetected, Window;
    if ArgsGate(w, k, 0, args).Halt? {
      var j: nat :| FirstStopped(w, k, 0, args, j);
      ArgStopIsLate(w, k, j, args[j], ArgsGate(w, k, 0, args).stop);
    }
  }

  lemma ArgStopIsLate(w: World, k: nat, j: nat, a: Arg, stop: Stop)
    requires ArgStops(w, k, j, a, stop)
    ensures !stop.NotRegistered? && !stop.AclDenied? && !stop.GuardianHalt? && !stop.LoopFound?
  {
  }

  // All gates for call k, in their order; guardianAsked tells whether Guardian was consulted.
  method Vet(w: World, b: Batch, k: nat, sequence: seq<string>) returns (gate: Gate, guardianAsked: bool)
    requires k < |b.calls|
    ensures gate == GateFor(w, b, k, sequence)
    ensures gate == Pass <==> Cleared(w, b, k, sequence)
    ensures gate.Halt? ==> CallStops(w, b, k, sequence, gate.stop)
    ensures gate == Skip <==> var c := b.calls[k];
      var reply := w.guardian(k, c.name, c.args, Window(sequence));
      w.registered(k, c.name) && w.aclOk(k, c.name) && !reply.allowed && reply.sandbox
    ensures guardianAsked <==> w.registered(k, b.calls[k].name) && w.aclOk(k, b.calls[k].name)
  {
    GateMeaning(w, b, k, sequence);
    hide Cleared, CallStops, ArgsGate, Remember, Count, PyTail;
    ArgsGateMeaning(w, k, 0, b.calls[k].args);
    var c := b.calls[k];
    if !w.registered(k, c.name) {
      return Halt(NotRegistered), false;
    }
    if !w.aclOk(k, c.name) {
      return Halt(AclDenied), false;
    }
    var reply := w.guardian(k, c.name, c.args, Window(sequence));
    if !reply.allowed {
      return if reply.sandbox then Skip else Halt(GuardianHalt), true;
    }
    if LoopDetected(b.cfg, b.history, w.signature(c.name, c.args)) {
      return Halt(LoopFound), true;
    }
    gate := CheckArgs(w, k, c.args);
    guardianAsked := true;
  }

  // The first call from k on that a gate halts, or the number of calls.
  function FirstHalt(w: World, b: Batch, k: nat): (h: nat)
    requires k <= |b.calls|
    ensures k <= h <= |b.calls| && (h < |b.calls| ==> GateAt(w, b, h).Halt?)
    decreases |b.calls| - k
  {
    if k == |b.calls| || GateAt(w, b, k).Halt? then k else FirstHalt(w, b, k + 1)
  }

  lemma {:induction false} NoneHaltedBefore(w: World, b: Batch, k: nat, i: nat)
    requires k <= |b.calls| && k <= i < FirstHalt(w, b, k)
    ensures !GateAt(w, b, i).Halt?
    decreases i - k
  {
    hide GateAt;
    if k < i {
      NoneHaltedBefore(w, b, k + 1, i);
    }
  }

  lemma NoneHalts(w: World, b: Batch)
    requires FirstHalt(w, b, 0) == |b.calls|
    ensures NoHalt(w, b)
  {
    hide GateAt, FirstHalt;
    forall i | 0 <= i < |b.calls|
      ensures !GateAt(w, b, i).Halt?
    {
      NoneHaltedBefore(w, b, 0, i);
    }
  }

  lemma {:induction false} FirstHaltAt(w: World, b: Batch, k: nat, h: nat)
    requires k <= h <= |b.calls| && (forall i :: k <= i < h ==> !GateAt(w, b, i).Halt?)
    requires h < |b.calls| ==> GateAt(w, b, h).Halt?
    ensures FirstHalt(w, b, k) == h
    decreases h - k
  {
    hide GateAt;
    if k < h {
      FirstHaltAt(w, b, k + 1, h);
    }
  }

  // The calls that passed and those that were skipped, when none is halted.
  function Passed(w: World, b: Batch): seq<Call> {
    WithGate(w, b, |b.calls|, Pass)
  }

  function Skipped(w: World, b: Batch): seq<Call> {
    WithGate(w, b, |b.calls|, Skip)
  }

  // What the inner node is given, and what it answers; it is not called for no calls.
  function HandedOver(w: World, b: Batch): seq<Call> {
    Handed(b, Passed(w, b), Skipped(w, b))
  }

  function Answered(w: World, b: Batch): seq<Message> {
    if Passed(w, b) == [] then [] else w.inner(HandedOver(w, b))
  }

  // What the node returns for a batch.
  function NodeUpdate(w: World, b: Batch): Update {
    var h := FirstHalt(w, b, 0);
    if h < |b.calls| then
      HaltUpdate(w, b, b.calls[h], GateAt(w, b, h).stop, WithGate(w, b, h, Skip), HistoryAt(w, b, h))
    else
      var settled := Settled(HistoryAt(w, b, h), SequenceAt(w, b, h));
      if Passed(w, b) == [] then settled.(messages := Some(Notices(Skipped(w, b), SKIPPED)))
      else ResultUpdate(w, settled, b.calls, Passed(w, b), Skipped(w, b), Answered(w, b))
  }

  // vetted: how many calls came through without a halt; handed: the calls given to the inner node;
  // asked: the queries sent to Guardian.
  method RunBatch(w: World, b: Batch)
    returns (u: Update, vetted: nat, handed: seq<Call>, asked: seq<(string, seq<string>)>)
    ensures vetted == FirstHalt(w, b, 0) && u == NodeUpdate(w, b)
    ensures vetted < |b.calls| ==> handed == [] && asked == Asked(w, b, vetted + 1)
    ensures vetted == |b.calls| ==> handed == HandedOver(w, b) && asked == Asked(w, b, vetted)
  {
    hide GateFor, HaltUpdate, ResultUpdate, Remember, Settled, Window, FirstHalt;
    handed, asked := [], [];
    var sequence, history, passed, skipped := b.sequence, None, [], [];
    for k := 0 to |b.calls|
      invariant forall i :: 0 <= i < k ==> !GateAt(w, b, i).Halt?
      invariant sequence == SequenceAt(w, b, k) && history == HistoryAt(w, b, k) && asked == Asked(w, b, k)
      invariant passed == WithGate(w, b, k, Pass) && skipped == WithGate(w, b, k, Skip)
    {
      var c := b.calls[k];
      var gate, guardianAsked := Vet(w, b, k, sequence);
      if guardianAsked {
        asked := asked + [(c.name, Window(sequence))];
      }
      match gate {
        case Halt(stop) =>
          FirstHaltAt(w, b, 0, k);
          return HaltUpdate(w, b, c, stop, skipped, history), k, [], asked;
        case Skip => skipped := skipped + [c];
        case Pass =>
          history := Some(Remember(b.cfg, b.history, w.signature(c.name, c.args)));
          sequence := sequence + [c.name];
          passed := passed + [c];
      }
    }
    vetted := |b.calls|;
    FirstHaltAt(w, b, 0, vetted);
    u := Settled(history, sequence);
    if passed == [] {
      u := u.(messages := Some(Notices(skipped, SKIPPED)));
    } else {
      handed := if skipped == [] then b.calls else FilterIds(b.calls, Ids(passed), |b.calls|);
      u := ScreenResults(w, u, b.calls, passed, skipped, w.inner(handed));
    }
  }

  // ---------------------------------------------------------------- main results

  lemma SequenceStep(w: World, b: Batch, k: nat)
    requires 0 < k <= |b.calls|
    ensures SequenceAt(w, b, k)
      == SequenceAt(w, b, k - 1) + if GateAt(w, b, k - 1) == Pass then [b.calls[k - 1].name] else []
  {
  }

  /** The audit sequence grows by exactly the executed names, and Guardian is always shown the last three
      of the earlier history followed by the names approved before the call. */
  lemma {:induction false} SequenceGrowsByApprovals(w: World, b: Batch, k: nat)
    requires k <= |b.calls|
    ensures SequenceAt(w, b, k) == b.sequence + Names(WithGate(w, b, k, Pass))
    ensures Window(SequenceAt(w, b, k)) == PyTail(b.sequence + Names(WithGate(w, b, k, Pass)), 3)
  {
    if k > 0 {
      SequenceStep(w, b, k);
      hide GateAt, SequenceAt;
      SequenceGrowsByApprovals(w, b, k - 1);
      if GateAt(w, b, k - 1) == Pass {
        var p, c := WithGate(w, b, k - 1, Pass), b.calls[k - 1];
        assert Names(p + [c]) == Names(p) + [c.name];
      }
    } else {
      assert b.sequence + Names([]) == b.sequence;
    }
  }

  // Registry and access control let the call through to Guardian.
  predicate Consults(w: World, b: Batch, k: nat)
    requires k < |b.calls|
  {
    w.registered(k, b.calls[k].name) && w.aclOk(k, b.calls[k].name)
  }

  // How many of the first k calls do.
  function Consulted(w: World, b: Batch, k: nat): nat
    requires k <= |b.calls|
  {
    if k == 0 then 0 else Consulted(w, b, k - 1) + if Consults(w, b, k - 1) then 1 else 0
  }

  /** Guardian is asked about each of those calls once and in order, and shown the last three names of what was
      executed before and what has passed of the batch. */
  lemma {:induction false} GuardianSees(w: World, b: Batch, k: nat, i: nat)
    requires i < k <= |b.calls|
    ensures |Asked(w, b, k)| == Consulted(w, b, k)
    ensures Consulted(w, b, i) <= Consulted(w, b, k)
    ensures Consults(w, b, i) ==>
      && Consulted(w, b, i) < Consulted(w, b, k)
      && Asked(w, b, k)[Consulted(w, b, i)]
        == (b.calls[i].name, PyTail(b.sequence + Names(WithGate(w, b, i, Pass)), 3))
  {
    hide WithGate, SequenceAt, PyTail, Window;
    if i < k - 1 {
      GuardianSees(w, b, k - 1, i);
    } else {
      AskedLength(w, b, i);
      SequenceGrowsByApprovals(w, b, i);
    }
  }

  lemma {:induction false} AskedLength(w: World, b: Batch, k: nat)
    requires k <= |b.calls|
    ensures |Asked(w, b, k)| == Consulted(w, b, k)
  {
    hide SequenceAt, Window;
    if k > 0 {
      AskedLength(w, b, k - 1);
    }
  }

  // The same selection for a list of gates that is already known.
  function Select(calls: seq<Call>, gates: seq<Gate>, gate: Gate, k: nat): seq<Call>
    requires |calls| == |gates| && k <= |calls|
  {
    if k == 0 then []
    else if gates[k - 1] == gate then Select(calls, gates, gate, k - 1) + [calls[k - 1]]
    else Select(calls, gates, gate, k - 1)
  }

  function Gates(w: World, b: Batch): seq<Gate> {
    seq(|b.calls|, i requires 0 <= i < |b.calls| => GateAt(w, b, i))
  }

  lemma {:induction false} WithGateIsSelect(w: World, b: Batch, k: nat, gate: Gate)
    requires k <= |b.calls|
    ensures WithGate(w, b, k, gate) == Select(b.calls, Gates(w, b), gate, k)
  {
    hide GateAt;
    if k > 0 {
      WithGateIsSelect(w, b, k - 1, gate);
    }
  }

  // A skipped call among the first k that carries one of these ids.
  ghost predicate SkippedShares(calls: seq<Call>, gates: seq<Gate>, ids: seq<string>, k: nat)
    requires |calls| == |gates| && k <= |calls|
  {
    exists i :: 0 <= i < k && gates[i] == Skip && calls[i].id in ids
  }

  lemma {:induction false} PassedById(calls: seq<Call>, gates: seq<Gate>, ids: seq<string>, k: nat)
    requires |calls| == |gates| && k <= |calls| && forall i :: 0 <= i < |gates| ==> !gates[i].Halt?
    requires forall i :: 0 <= i < |calls| && gates[i] == Pass ==> calls[i].id in ids
    ensures
      var filtered, passed := FilterIds(calls, ids, k), Select(calls, gates, Pass, k);
      && |passed| <= |filtered|
      && if SkippedShares(calls, gates, ids, k) then |passed| < |filtered| else filtered == passed
  {
    if k > 0 {
      PassedById(calls, gates, ids, k - 1);
      assert !gates[k - 1].Halt?;
    }
  }

  lemma {:induction false} SelectedIndex(calls: seq<Call>, gates: seq<Gate>, gate: Gate, k: nat, id: string)
    requires |calls| == |gates| && k <= |calls|
    ensures id in Ids(Select(calls, gates, gate, k))
      <==> exists i :: 0 <= i < k && gates[i] == gate && calls[i].id == id
  {
    if k > 0 {
      var front := Select(calls, gates, gate, k - 1);
      SelectedIndex(calls, gates, gate, k - 1, id);
      assert Ids(front + [calls[k - 1]]) == Ids(front) + [calls[k - 1].id];
    }
  }

  lemma {:induction false} NoneSelected(calls: seq<Call>, gates: seq<Gate>, k: nat)
    requires |calls| == |gates| && k <= |calls| && forall i :: 0 <= i < |gates| ==> !gates[i].Halt?
    requires Select(calls, gates, Skip, k) == []
    ensures Select(calls, gates, Pass, k) == calls[..k] && forall i :: 0 <= i < k ==> gates[i] == Pass
  {
    if k > 0 {
      assert !gates[k - 1].Halt?;
      NoneSelected(calls, gates, k - 1);
    }
  }

  lemma SameGates(w: World, b: Batch)
    ensures
      var n, gates := |b.calls|, Gates(w, b);
      && |gates| == n && (NoHalt(w, b) ==> forall i :: 0 <= i < n ==> !gates[i].Halt?)
      && WithGate(w, b, n, Pass) == Select(b.calls, gates, Pass, n)
      && WithGate(w, b, n, Skip) == Select(b.calls, gates, Skip, n)
  {
    WithGateIsSelect(w, b, |b.calls|, Pass);
    WithGateIsSelect(w, b, |b.calls|, Skip);
  }

  /** What the inner node executes is exactly, and in order, the calls that passed every gate, if and only
      if no skipped call shares its id with a passed one. */
  lemma {:induction false} HandedAreThePassed(w: World, b: Batch)
    requires NoHalt(w, b)
    ensures
      HandedOver(w, b) == Passed(w, b) <==> !SkippedShares(b.calls, Gates(w, b), Ids(Passed(w, b)), |b.calls|)
  {
    SameGates(w, b);
    hide GateAt, Gates, WithGate;
    HandedOfSelection(b, Gates(w, b));
  }

  lemma HandedOfSelection(b: Batch, gates: seq<Gate>)
    requires |gates| == |b.calls| && forall i :: 0 <= i < |gates| ==> !gates[i].Halt?
    ensures
      var n := |gates|;
      var passed, skipped := Select(b.calls, gates, Pass, n), Select(b.calls, gates, Skip, n);
      Handed(b, passed, skipped) == passed <==> !SkippedShares(b.calls, gates, Ids(passed), n)
  {
    var n := |gates|;
    var passed := Select(b.calls, gates, Pass, n);
    if Select(b.calls, gates, Skip, n) == [] {
      NoneSelected(b.calls, gates, n);
    } else if passed != [] {
      forall i | 0 <= i < n && gates[i] == Pass
        ensures b.calls[i].id in Ids(passed)
      {
        SelectedIndex(b.calls, gates, Pass, n, b.calls[i].id);
      }
      PassedById(b.calls, gates, Ids(passed), n);
    }
  }

  predicate DistinctIds(calls: seq<Call>) {
    forall i, j :: 0 <= i < j < |calls| ==> calls[i].id != calls[j].id
  }

  /** With distinct call ids, execution is exactly the approved calls. */
  lemma DistinctIdsExecuteThePassed(w: World, b: Batch)
    requires NoHalt(w, b) && DistinctIds(b.calls)
    ensures HandedOver(w, b) == Passed(w, b)
  {
    hide GateAt, Gates, WithGate, Select, Handed, Ids, SkippedShares;
    HandedAreThePassed(w, b);
    SameGates(w, b);
    NoneShared(b.calls, Gates(w, b));
  }

  lemma NoneShared(calls: seq<Call>, gates: seq<Gate>)
    requires |calls| == |gates| && DistinctIds(calls)
    ensures !SkippedShares(calls, gates, Ids(Select(calls, gates, Pass, |calls|)), |calls|)
  {
    hide Select, Ids;
    forall i | 0 <= i < |calls| && gates[i] == Skip
      ensures calls[i].id !in Ids(Select(calls, gates, Pass, |calls|))
    {
      SelectedIndex(calls, gates, Pass, |calls|, calls[i].id);
    }
  }

  lemma {:induction false} IdsSplit(calls: seq<Call>, gates: seq<Gate>, k: nat)
    requires |calls| == |gates| && k <= |calls| && forall i :: 0 <= i < |gates| ==> !gates[i].Halt?
    ensures multiset(Ids(Select(calls, gates, Pass, k))) + multiset(Ids(Select(calls, gates, Skip, k)))
      == multiset(Ids(calls[..k]))
  {
    if k > 0 {
      var c, p, s := calls[k - 1], Select(calls, gates, Pass, k - 1), Select(calls, gates, Skip, k - 1);
      IdsSplit(calls, gates, k - 1);
      assert !gates[k - 1].Halt?;
      assert Ids(calls[..k]) == Ids(calls[..k - 1]) + [c.id];
      assert Ids(p + [c]) == Ids(p) + [c.id];
      assert Ids(s + [c]) == Ids(s) + [c.id];
    }
  }

  // The inner node answers every call it is given, once and in order.
  ghost predicate Faithful(w: World) {
    forall calls :: MessageIds(w.inner(calls)) == Ids(calls)
  }

  /** When no gate halts the batch, every call id is answered by exactly one message, whichever way the
      node finishes: executed, skipped, or stopped on a tool result. */
  lemma EveryCallAnsweredOnce(w: World, b: Batch)
    requires NoHalt(w, b) && DistinctIds(b.calls) && Faithful(w)
    ensures var u := NodeUpdate(w, b);
      && u.messages.Some? && multiset(MessageIds(u.messages.value)) == multiset(Ids(b.calls))
      && forall i :: 0 <= i < |b.calls| ==> multiset(MessageIds(u.messages.value))[b.calls[i].id] == 1
  {
    var n := |b.calls|;
    var passed, skipped := Passed(w, b), Skipped(w, b);
    FirstHaltAt(w, b, 0, n);
    DistinctIdsExecuteThePassed(w, b);
    SameGates(w, b);
    hide GateAt, Gates, WithGate, Select, ResultUpdate, HandedOver, HistoryAt, SequenceAt, FirstHalt;
    IdsSplit(b.calls, Gates(w, b), n);
    assert b.calls[..n] == b.calls;
    NoticesAnswer(skipped, SKIPPED);
    if passed != [] {
      ResultsAnswer(w, Settled(HistoryAt(w, b, n), SequenceAt(w, b, n)), b.calls, passed, skipped, Answered(w, b));
    } else {
      assert Ids(passed) == [];
    }
    forall i | 0 <= i < n
      ensures multiset(Ids(b.calls))[b.calls[i].id] == 1
    {
      DistinctCountsOnce(b.calls, i);
    }
  }

  lemma NoticesAnswer(calls: seq<Call>, text: string)
    ensures MessageIds(Notices(calls, text)) == Ids(calls)
  {
  }

  // Stopped on a result or not, the messages answer every call.
  lemma ResultsAnswer(w: World, base: Update, calls: seq<Call>, passed: seq<Call>, skipped: seq<Call>,
                      out: seq<Message>)
    requires MessageIds(out) == Ids(passed)
    requires multiset(Ids(passed)) + multiset(Ids(skipped)) == multiset(Ids(calls))
    ensures var u := ResultUpdate(w, base, calls, passed, skipped, out);
      u.messages.Some? && multiset(MessageIds(u.messages.value)) == multiset(Ids(calls))
  {
    var notices := Notices(skipped, SKIPPED);
    NoneUnvetted(out, passed, skipped);
    NoticesAnswer(skipped, SKIPPED);
    NoticesAnswer(calls, SECURITY_HALT);
    assert MessageIds(CleanAll(w, out + notices, notices)) == MessageIds(out) + MessageIds(notices);
  }

  lemma NoneUnvetted(out: seq<Message>, passed: seq<Call>, skipped: seq<Call>)
    requires MessageIds(out) == Ids(passed)
    ensures !AnyUnvetted(out, Ids(passed), Ids(skipped))
  {
    forall i | 0 <= i < |out|
      ensures !Unvetted(out[i], Ids(passed), Ids(skipped))
    {
      assert MessageIds(out)[i] == out[i].callId;
    }
  }

  lemma DistinctCountsOnce(calls: seq<Call>, i: nat)
    requires DistinctIds(calls) && i < |calls|
    ensures multiset(Ids(calls))[calls[i].id] == 1
  {
    var ids := Ids(calls);
    assert ids == ids[..i] + [ids[i]] + ids[i + 1..];
    assert ids[i] !in ids[..i] && ids[i] !in ids[i + 1..];
  }

  // ---------------------------------------------------------------- what the node returns

  // A tool message of the inner node that belongs to no vetted call.
  ghost predicate Intruded(w: World, b: Batch) {
    exists m :: m in Answered(w, b) && m.isTool && m.callId != ""
      && m.callId !in Ids(Passed(w, b)) && m.callId !in Ids(Skipped(w, b))
  }

  predicate IsNotice(w: World, b: Batch, m: Message) {
    m in Notices(Skipped(w, b), SKIPPED)
  }

  ghost predicate Jailbreak(w: World, b: Batch, i: nat)
    requires i < |Answered(w, b)|
  {
    var m, clean := Answered(w, b)[i], w.cleanOutput(i, Answered(w, b)[i].content);
    !IsNotice(w, b, m) && clean.injection && clean.haltWorthy
  }

  // A message of the inner node whose content is a jailbreak, where that is set to stop the run.
  ghost predicate Poisoned(w: World, b: Batch) {
    w.haltOnResultInjection && exists i :: 0 <= i < |Answered(w, b)| && Jailbreak(w, b, i)
  }

  lemma SomeResultHalts(w: World, b: Batch)
    requires Passed(w, b) != []
    ensures var notices := Notices(Skipped(w, b), SKIPPED);
      AnyResultHalts(w, Answered(w, b) + notices, notices) <==> Poisoned(w, b)
  {
    var out, notices := Answered(w, b), Notices(Skipped(w, b), SKIPPED);
    hide Answered, Skipped, Notices;
    if AnyResultHalts(w, out + notices, notices) {
      var i :| 0 <= i < |out + notices| && ResultHalts(w, i, (out + notices)[i], notices);
      assert i < |out|;
      assert (out + notices)[i] == out[i];
      assert Jailbreak(w, b, i);
    }
    if Poisoned(w, b) {
      var i :| 0 <= i < |out| && Jailbreak(w, b, i);
      assert (out + notices)[i] == out[i];
      assert ResultHalts(w, i, (out + notices)[i], notices);
    }
  }

  // The signature of the last call among the first k that was not skipped.
  function LastChecked(w: World, b: Batch, k: nat): Option<string>
    requires k <= |b.calls|
  {
    if k == 0 then None
    else if GateAt(w, b, k - 1) == Skip then LastChecked(w, b, k - 1)
    else Some(w.signature(b.calls[k - 1].name, b.calls[k - 1].args))
  }

  // A batch adds one signature to the history, however many calls it checks.
  lemma {:induction false} BatchAddsItsLast(w: World, b: Batch, k: nat)
    requires k <= |b.calls|
    ensures HistoryAt(w, b, k)
      == match LastChecked(w, b, k) case None => None case Some(sig) => Some(Remember(b.cfg, b.history, sig))
  {
    hide GateAt;
    if k > 0 {
      BatchAddsItsLast(w, b, k - 1);
    }
  }

  // The answers, cleaned, and then a notice for each skipped call.
  ghost predicate MessagesRight(w: World, b: Batch, messages: seq<Message>) {
    var out, skipped := Answered(w, b), Skipped(w, b);
    && |messages| == |out| + |skipped|
    && (forall i :: 0 <= i < |out| && !IsNotice(w, b, out[i]) ==>
          messages[i] == out[i].(content := w.cleanOutput(i, out[i].content).text))
    && (forall i :: 0 <= i < |out| && IsNotice(w, b, out[i]) ==> messages[i] == out[i])
    && forall i :: 0 <= i < |skipped| ==>
         messages[|out| + i] == Message(true, skipped[i].id, skipped[i].name, SKIPPED)
  }

  /** When no gate halts and no result stops the run, the node returns the sequence grown by the names that
      passed, the history grown by the last call that reached the loop check, and neither force_end nor
      loop_detected; and every message is a cleaned answer or, at the end, the notice of a skipped call. */
  lemma {:induction false} FinishedBatch(w: World, b: Batch)
    requires NoHalt(w, b) && !Intruded(w, b) && !Poisoned(w, b)
    ensures var u, last := NodeUpdate(w, b), LastChecked(w, b, |b.calls|);
      && u.sequence == Some(b.sequence + Names(Passed(w, b)))
      && u.actionHistory == (match last case None => None case Some(sig) => Some(Remember(b.cfg, b.history, sig)))
      && u.forceEnd == u.loopDetected == (if last.None? then None else Some(false)) && !u.hitlPending
    ensures var u := NodeUpdate(w, b); u.messages.Some? && MessagesRight(w, b, u.messages.value)
  {
    Finishes(w, b);
    SequenceGrowsByApprovals(w, b, |b.calls|);
    BatchAddsItsLast(w, b, |b.calls|);
    FinishedMessages(w, b);
    hide *;
  }

  lemma FinishedMessages(w: World, b: Batch)
    ensures var notices := Notices(Skipped(w, b), SKIPPED);
      && (Passed(w, b) == [] ==> MessagesRight(w, b, notices))
      && MessagesRight(w, b, CleanAll(w, Answered(w, b) + notices, notices))
  {
    var out, skipped := Answered(w, b), Skipped(w, b);
    var notices := Notices(skipped, SKIPPED);
    var messages := CleanAll(w, out + notices, notices);
    hide CleanAll, Skipped, Passed, HandedOver;
    CleanedMessages(w, out, notices);
    assert Passed(w, b) == [] ==> out == [];
    hide Answered;
    assert forall i :: 0 <= i < |skipped| ==> notices[i] == Message(true, skipped[i].id, skipped[i].name, SKIPPED);
    hide Notices;
  }

  lemma CleanedMessages(w: World, out: seq<Message>, notices: seq<Message>)
    ensures var messages := CleanAll(w, out + notices, notices);
      && |messages| == |out| + |notices|
      && (forall i :: 0 <= i < |out| ==> messages[i] == CleanMessage(w, i, out[i], notices))
      && forall i :: 0 <= i < |notices| ==> messages[|out| + i] == notices[i]
  {
    forall i | 0 <= i < |notices|
      ensures CleanAll(w, out + notices, notices)[|out| + i] == notices[i]
    {
      assert (out + notices)[|out| + i] == notices[i];
    }
  }

  lemma Finishes(w: World, b: Batch)
    requires NoHalt(w, b) && !Intruded(w, b) && !Poisoned(w, b)
    ensures var notices := Notices(Skipped(w, b), SKIPPED);
      var messages := if Passed(w, b) == [] then notices else CleanAll(w, Answered(w, b) + notices, notices);
      NodeUpdate(w, b)
        == Settled(HistoryAt(w, b, |b.calls|), SequenceAt(w, b, |b.calls|)).(messages := Some(messages))
  {
    FirstHaltAt(w, b, 0, |b.calls|);
    NotIntruded(w, b);
    hide GateAt, WithGate, SequenceAt, HistoryAt, FirstHalt, AnyUnvetted, AnyResultHalts, CleanAll;
    if Passed(w, b) != [] {
      SomeResultHalts(w, b);
    }
  }

  lemma NotIntruded(w: World, b: Batch)
    ensures AnyUnvetted(Answered(w, b), Ids(Passed(w, b)), Ids(Skipped(w, b))) <==> Intruded(w, b)
  {
    hide Answered, Passed, Skipped;
  }

  /** When a result stops the run nothing of the batch is kept: an answer to no vetted call leaves only
      force_end, a jailbreak in an answer that and one notice for every call. */
  lemma {:induction false} StoppedOnResult(w: World, b: Batch)
    requires NoHalt(w, b) && (Intruded(w, b) || Poisoned(w, b))
    ensures var u := NodeUpdate(w, b);
      && u.forceEnd == Some(true) && u.actionHistory.None? && u.sequence.None? && !u.hitlPending
      && u.loopDetected == (if Intruded(w, b) then Some(false) else None)
      && if Intruded(w, b) then u.messages.None?
         else u.messages == Some(Notices(b.calls, SECURITY_HALT))
  {
    FirstHaltAt(w, b, 0, |b.calls|);
    NotIntruded(w, b);
    assert Passed(w, b) != [];
    SomeResultHalts(w, b);
    hide GateAt, WithGate, SequenceAt, HistoryAt, FirstHalt, AnyUnvetted, AnyResultHalts;
  }

  /** When a gate halts call h, every stop but the operator pause ends the run, and the pause asks for
      approval. The sequence stays as it was. A scope or capability violation answers every call; an
      unregistered tool the calls skipped before it and itself; no other stop answers any. */
  lemma StopsEndTheRun(w: World, b: Batch)
    requires FirstHalt(w, b, 0) < |b.calls|
    ensures var h, u := FirstHalt(w, b, 0), NodeUpdate(w, b);
      var stop, c := GateAt(w, b, h).stop, b.calls[h];
      && u.forceEnd == Some(!stop.HitlPause?) && u.hitlPending == stop.HitlPause? && u.sequence.None?
      && u.loopDetected == Some(stop.LoopFound?)
      && (stop.AclDenied? || stop.GuardianHalt? ==>
            u.messages.Some? && MessageIds(u.messages.value) == Ids(b.calls)
            && forall m :: m in u.messages.value ==> m.isTool && m.content == SECURITY_HALT)
      && (stop.NotRegistered? ==>
            u.messages.Some? && MessageIds(u.messages.value) == Ids(WithGate(w, b, h, Skip)) + [c.id]
            && u.messages.value[|u.messages.value| - 1] == Message(true, c.id, c.name, BLOCKED))
      && (!stop.AclDenied? && !stop.GuardianHalt? && !stop.NotRegistered? ==> u.messages.None?)
  {
    hide GateAt, WithGate, HistoryAt, FirstHalt, Remember;
  }

  /** Nothing of an answer reaches the model uncleaned: every message that the node returns is a notice of its
      own or has been through the cleaning. */
  lemma {:induction false} NothingUncleaned(w: World, b: Batch, m: Message)
    requires NodeUpdate(w, b).messages.Some? && m in NodeUpdate(w, b).messages.value
    ensures m.content == BLOCKED || m.content == SKIPPED || m.content == SECURITY_HALT
      || exists i :: 0 <= i < |Answered(w, b)| && m.content == w.cleanOutput(i, Answered(w, b)[i].content).text
  {
    hide GateAt, WithGate, HistoryAt, Answered, Intruded, Poisoned;
    if FirstHalt(w, b, 0) < |b.calls| {
      hide FirstHalt;
    } else {
      NoneHalts(w, b);
      if Intruded(w, b) || Poisoned(w, b) {
        StoppedOnResult(w, b);
      } else {
        FinishedBatch(w, b);
      }
      hide FirstHalt, NodeUpdate, NoHalt;
    }
  }

  // A gate other than the operator pause halts a call, or a result stops the run.
  ghost predicate Stopped(w: World, b: Batch) {
    var h := FirstHalt(w, b, 0);
    if h < |b.calls| then !GateAt(w, b, h).stop.HitlPause? else Intruded(w, b) || Poisoned(w, b)
  }

  /** The node ends the run exactly then. */
  lemma ForceEndMeaning(w: World, b: Batch)
    ensures NodeUpdate(w, b).forceEnd == Some(true) <==> Stopped(w, b)
  {
    hide GateAt, NodeUpdate, Intruded, Poisoned;
    if FirstHalt(w, b, 0) < |b.calls| {
      StopsEndTheRun(w, b);
    } else {
      NoneHalts(w, b);
      if Stopped(w, b) {
        StoppedOnResult(w, b);
      } else {
        FinishedBatch(w, b);
      }
    }
  }

  // ---------------------------------------------------------------- the state over many batches

  // The signature that the node's update adds to the history.
  ghost function Recorded(w: World, b: Batch): Option<string> {
    var h := FirstHalt(w, b, 0);
    if h == |b.calls| then (if Intruded(w, b) || Poisoned(w, b) then None else LastChecked(w, b, h))
    else
      match GateAt(w, b, h).stop
      case NotRegistered => LastChecked(w, b, h)
      case LoopFound => Some(w.signature(b.calls[h].name, b.calls[h].args))
      case HitlForceEnd => Some(w.signature(b.calls[h].name, b.calls[h].args))
      case HitlPause => Some(w.signature(b.calls[h].name, b.calls[h].args))
      case _ => None
  }

  // The names that the node's update adds to the sequence.
  ghost function Executed(w: World, b: Batch): seq<string> {
    if FirstHalt(w, b, 0) == |b.calls| && !Intruded(w, b) && !Poisoned(w, b) then Names(Passed(w, b)) else []
  }

  lemma {:induction false} BatchRecords(w: World, b: Batch)
    ensures var u := NodeUpdate(w, b);
      && u.actionHistory == (match Recorded(w, b) case None => None
                             case Some(sig) => Some(Remember(b.cfg, b.history, sig)))
      && (if u.sequence.Some? then u.sequence.value else b.sequence) == b.sequence + Executed(w, b)
  {
    var h := FirstHalt(w, b, 0);
    hide GateAt, Remember, Intruded, Poisoned, LastChecked, WithGate;
    assert b.sequence + [] == b.sequence;
    if h < |b.calls| {
      BatchAddsItsLast(w, b, h);
    } else {
      NoneHalts(w, b);
      if Intruded(w, b) || Poisoned(w, b) {
        StoppedOnResult(w, b);
      } else {
        FinishedBatch(w, b);
      }
    }
  }

  // The tool calls of one model reply and the world they meet.
  datatype Round = Round(w: World, calls: seq<Call>)

  // What the node reads of the run state: action_history and sequence_so_far.
  datatype Trace = Trace(history: seq<string>, sequence: seq<string>)

  function BatchIn(cfg: Config, t: Trace, calls: seq<Call>): Batch {
    Batch(cfg, calls, t.history, t.sequence)
  }

  // Merging an update into the state.
  function Merged(t: Trace, u: Update): Trace {
    Trace(if u.actionHistory.Some? then u.actionHistory.value else t.history,
          if u.sequence.Some? then u.sequence.value else t.sequence)
  }

  // The state before round n of a fresh run.
  function TraceBefore(cfg: Config, rounds: seq<Round>, n: nat): Trace
    requires n <= |rounds|
  {
    if n == 0 then Trace([], [])
    else
      var t := TraceBefore(cfg, rounds, n - 1);
      Merged(t, NodeUpdate(rounds[n - 1].w, BatchIn(cfg, t, rounds[n - 1].calls)))
  }

  function BatchOf(cfg: Config, rounds: seq<Round>, n: nat): Batch
    requires n < |rounds|
  {
    BatchIn(cfg, TraceBefore(cfg, rounds, n), rounds[n].calls)
  }

  // What each of the first n rounds recorded and executed.
  ghost function RecordedBefore(cfg: Config, rounds: seq<Round>, n: nat): (sigs: seq<string>)
    requires n <= |rounds|
    ensures |sigs| <= n
  {
    if n == 0 then []
    else
      RecordedBefore(cfg, rounds, n - 1)
      + match Recorded(rounds[n - 1].w, BatchOf(cfg, rounds, n - 1))
        case None => []
        case Some(sig) => [sig]
  }

  ghost function ExecutedBefore(cfg: Config, rounds: seq<Round>, n: nat): seq<string>
    requires n <= |rounds|
  {
    if n == 0 then []
    else ExecutedBefore(cfg, rounds, n - 1) + Executed(rounds[n - 1].w, BatchOf(cfg, rounds, n - 1))
  }

  lemma RoundStep(cfg: Config, rounds: seq<Round>, n: nat)
    requires n < |rounds|
    ensures var t, t', w, b := TraceBefore(cfg, rounds, n), TraceBefore(cfg, rounds, n + 1), rounds[n].w,
        BatchOf(cfg, rounds, n);
      && t'.history == (match Recorded(w, b) case None => t.history case Some(sig) => Remember(cfg, t.history, sig))
      && t'.sequence == t.sequence + Executed(w, b)
  {
    BatchRecords(rounds[n].w, BatchOf(cfg, rounds, n));
    hide NodeUpdate, Recorded, Executed, Remember;
  }

  /** Over any rounds of any number of calls each, the stored history is that of a run of single calls, one
      from each round that records any: the last one checked. */
  lemma {:induction false} OneSignaturePerBatch(cfg: Config, rounds: seq<Round>, n: nat)
    requires n <= |rounds|
    ensures TraceBefore(cfg, rounds, n).history == Stored(cfg, RecordedBefore(cfg, rounds, n))
  {
    hide TraceBefore, Recorded, Remember;
    if n > 0 {
      OneSignaturePerBatch(cfg, rounds, n - 1);
      RoundStep(cfg, rounds, n - 1);
      var sigs := RecordedBefore(cfg, rounds, n - 1);
      match Recorded(rounds[n - 1].w, BatchOf(cfg, rounds, n - 1)) {
        case None => assert RecordedBefore(cfg, rounds, n) == sigs;
        case Some(sig) => StoredSnoc(cfg, sigs, sig);
      }
    } else {
      NothingTraced(cfg, rounds);
    }
  }

  /** And the stored sequence is exactly the names that all rounds before have executed, in order. */
  lemma {:induction false} SequenceIsWhatRan(cfg: Config, rounds: seq<Round>, n: nat)
    requires n <= |rounds|
    ensures TraceBefore(cfg, rounds, n).sequence == ExecutedBefore(cfg, rounds, n)
  {
    hide TraceBefore, Executed, Recorded, Remember, BatchOf;
    if n > 0 {
      SequenceIsWhatRan(cfg, rounds, n - 1);
      RoundStep(cfg, rounds, n - 1);
    } else {
      NothingTraced(cfg, rounds);
    }
  }

  lemma NothingTraced(cfg: Config, rounds: seq<Round>)
    ensures TraceBefore(cfg, rounds, 0) == Trace([], [])
  {
  }

  lemma StoredSnoc(cfg: Config, sigs: seq<string>, sig: string)
    ensures Stored(cfg, sigs + [sig]) == Remember(cfg, Stored(cfg, sigs), sig)
  {
    assert (sigs + [sig])[..|sigs|] == sigs;
  }

  lemma {:induction false} ArgumentsDoNotLoop(w: World, k: nat, j: nat, args: seq<Arg>)
    requires j <= |args|
    ensures ArgsGate(w, k, j, args) != Halt(LoopFound)
    decreases |args| - j
  {
    if j < |args| {
      ArgumentsDoNotLoop(w, k, j + 1, args);
    }
  }

  // The call reaches the loop check: registry, access control and Guardian let it through.
  predicate ReachesLoopCheck(w: World, b: Batch, k: nat)
    requires k < |b.calls|
  {
    var c := b.calls[k];
    w.registered(k, c.name) && w.aclOk(k, c.name) && w.guardian(k, c.name, c.args, Window(SequenceAt(w, b, k))).allowed
  }

  /** A call is halted as a loop exactly if it reaches the check and its own signature, taken once, and what
      the rounds before recorded make up the threshold within the window. The other calls of its batch do
      not count. */
  lemma {:induction false} LoopFoundMeaning(cfg: Config, rounds: seq<Round>, n: nat, k: nat)
    requires cfg.window >= 0 && n < |rounds| && k < |rounds[n].calls|
    ensures var w, b, c := rounds[n].w, BatchOf(cfg, rounds, n), rounds[n].calls[k];
      var sig := w.signature(c.name, c.args);
      GateAt(w, b, k) == Halt(LoopFound)
      <==> && ReachesLoopCheck(w, b, k)
           && Count(PyTail(RecordedBefore(cfg, rounds, n) + [sig], cfg.window), sig) >= cfg.threshold
  {
    hide ArgsGate, SequenceAt, RecordedBefore, TraceBefore, PyTail, Count, LoopDetected;
    var w, c := rounds[n].w, rounds[n].calls[k];
    ArgumentsDoNotLoop(w, k, 0, c.args);
    OneSignaturePerBatch(cfg, rounds, n);
    TrimmedHistoryDecidesTheSame(cfg, RecordedBefore(cfg, rounds, n), w.signature(c.name, c.args));
  }

  lemma {:induction false} CountWithin(s: seq<string>, x: string, i: nat)
    requires i <= |s|
    ensures CountFrom(s, x, i) <= |s| - i
    decreases |s| - i
  {
    if i < |s| {
      CountWithin(s, x, i + 1);
    }
  }

  /** So no call is halted as a loop before the round that the threshold numbers, whatever the batches hold:
      not for any number of identical calls in them. */
  lemma {:induction false} NoLoopBeforeThreshold(cfg: Config, rounds: seq<Round>, n: nat, k: nat)
    requires cfg.window >= 0 && n < |rounds| && k < |rounds[n].calls| && n + 1 < cfg.threshold
    ensures GateAt(rounds[n].w, BatchOf(cfg, rounds, n), k) != Halt(LoopFound)
  {
    hide GateAt, BatchOf, RecordedBefore;
    var c := rounds[n].calls[k];
    var sig := rounds[n].w.signature(c.name, c.args);
    LoopFoundMeaning(cfg, rounds, n, k);
    CountWithin(PyTail(RecordedBefore(cfg, rounds, n) + [sig], cfg.window), sig, 0);
  }
}
